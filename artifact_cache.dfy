/**
 * The on-disk cache of the embedded ffmpeg binary. The binary for the
 * platform is installed under a name derived from its digest, by writing a
 * temporary file and renaming it; a cached copy with an execute bit is used
 * as it is; older versions are swept away afterwards. The cache directory
 * is a map from entry names to entries, and everything the operating
 * system decides (whether a write, rename, removal or directory listing
 * succeeds, what a competing process installs) is a parameter.
 */
module Cache {
  import opened Wrappers
  import opened Text

  /** A directory entry: its contents and its nine permission bits. */
  datatype Entry = Entry(data: seq<bv8>, perm: bv9)

  /** The execute bits for owner, group and others (0o111). */
  const ExecuteBits: bv9 := 0x49
  /** The mode the binary is written with (0o755). */
  const InstallMode: bv9 := 0x1ED

  predicate IsExecutable(perm: bv9) {
    perm & ExecuteBits != 0
  }

  // ---------------------------------------------------------------------
  // encoding/hex
  // ---------------------------------------------------------------------

  predicate IsHexDigit(c: char) {
    '0' <= c <= '9' || 'a' <= c <= 'f'
  }

  function HexChar(d: int): (c: char)
    requires 0 <= d < 16
    ensures IsHexDigit(c)
  {
    if d < 10 then ('0' as int + d) as char else ('a' as int + d - 10) as char
  }

  function HexValue(c: char): (r: Option<int>)
    ensures r.Some? <==> IsHexDigit(c)
    ensures r.Some? ==> 0 <= r.value < 16
  {
    if '0' <= c <= '9' then Some(c as int - '0' as int)
    else if 'a' <= c <= 'f' then Some(c as int - 'a' as int + 10)
    else None
  }

  /** hex.EncodeToString: two lower-case digits per byte, high nibble first. */
  function HexEncode(bytes: seq<bv8>): (s: string)
    ensures |s| == 2 * |bytes|
    ensures forall i :: 0 <= i < |s| ==> IsHexDigit(s[i])
  {
    if bytes == [] then []
    else [HexChar(bytes[0] as int / 16), HexChar(bytes[0] as int % 16)] + HexEncode(bytes[1..])
  }

  /** The inverse of HexEncode on lower-case digit pairs. */
  function HexDecode(s: string): Option<seq<bv8>> {
    if s == [] then Some([])
    else if |s| < 2 then None
    else match (HexValue(s[0]), HexValue(s[1]), HexDecode(s[2..]))
      case (Some(hi), Some(lo), Some(rest)) => Some([(hi * 16 + lo) as bv8] + rest)
      case _ => None
  }

  lemma HexCharValue(d: int)
    requires 0 <= d < 16
    ensures HexValue(HexChar(d)) == Some(d)
  {
  }

  lemma HexValueChar(c: char)
    requires IsHexDigit(c)
    ensures HexChar(HexValue(c).value) == c
  {
  }

  lemma {:induction false} HexRoundTrip(bytes: seq<bv8>)
    ensures HexDecode(HexEncode(bytes)) == Some(bytes)
  {
    if bytes != [] {
      var b := bytes[0] as int;
      var s := HexEncode(bytes);
      HexCharValue(b / 16);
      HexCharValue(b % 16);
      assert s[2..] == HexEncode(bytes[1..]);
      HexRoundTrip(bytes[1..]);
      assert ((b / 16) * 16 + b % 16) as bv8 == bytes[0];
      assert [bytes[0]] + bytes[1..] == bytes;
    }
  }

  lemma {:induction false} HexDecodeExact(s: string)
    requires HexDecode(s).Some?
    ensures HexEncode(HexDecode(s).value) == s
  {
    if s != [] {
      var v := HexDecode(s).value;
      HexDecodeHead(s);
      HexDecodeExact(s[2..]);
      assert HexEncode(v) == [s[0], s[1]] + HexEncode(v[1..]);
      assert s == [s[0], s[1]] + s[2..];
    }
  }

  lemma HexDecodeHead(s: string)
    requires s != [] && HexDecode(s).Some?
    ensures var v := HexDecode(s).value;
      && |s| >= 2 && |v| >= 1 && HexDecode(s[2..]).Some? && v[1..] == HexDecode(s[2..]).value
      && HexChar(v[0] as int / 16) == s[0] && HexChar(v[0] as int % 16) == s[1]
  {
    var hi, lo := HexValue(s[0]).value, HexValue(s[1]).value;
    HexDecodeStep(s);
    var b := HexDecode(s).value[0];
    assert b == (hi * 16 + lo) as bv8;
    Nibbles(hi, lo);
    assert b as int / 16 == hi && b as int % 16 == lo;
    HexValueChar(s[0]);
    HexValueChar(s[1]);
  }

  lemma HexDecodeStep(s: string)
    requires s != [] && HexDecode(s).Some?
    ensures |s| >= 2 && HexDecode(s[2..]).Some?
    ensures HexDecode(s).value
         == [(HexValue(s[0]).value * 16 + HexValue(s[1]).value) as bv8] + HexDecode(s[2..]).value
  {
  }

  lemma Nibbles(hi: int, lo: int)
    requires 0 <= hi < 16 && 0 <= lo < 16
    ensures ((hi * 16 + lo) as bv8) as int / 16 == hi
    ensures ((hi * 16 + lo) as bv8) as int % 16 == lo
  {
    assert ((hi * 16 + lo) as bv8) as int == hi * 16 + lo;
  }

  /** Different digest prefixes give different names. */
  lemma HexInjective(a: seq<bv8>, b: seq<bv8>)
    requires HexEncode(a) == HexEncode(b)
    ensures a == b
  {
    HexRoundTrip(a);
    HexRoundTrip(b);
  }

  // ---------------------------------------------------------------------
  // Names
  // ---------------------------------------------------------------------

  const ArtifactPrefix: string := "ffmpeg-"
  const TempMarker: string := ".tmp."

  /** Where the binary for a platform sits among the embedded files. */
  function EmbeddedPath(goos: string, goarch: string): string {
    "embed/ffmpeg/" + "ffmpeg_" + goos + "_" + goarch
  }

  /** The short hash naming a version: the first eight digest bytes in hex. */
  function ShortHash(digest: seq<bv8>): (h: string)
    requires |digest| >= 8
    ensures |h| == 16 && forall i :: 0 <= i < |h| ==> IsHexDigit(h[i])
  {
    HexEncode(digest[..8])
  }

  function FinalName(hashStr: string): string {
    ArtifactPrefix + hashStr
  }

  function TempName(hashStr: string, pid: int): string {
    FinalName(hashStr) + TempMarker + FormatInt(pid)
  }

  /** The entries cleanupOldFFmpegVersions deletes: other versions, never staging files. */
  predicate IsStale(name: string, currentHash: string) {
    HasPrefix(name, ArtifactPrefix) && name != FinalName(currentHash) && !Contains(name, TempMarker)
  }

  /** The final name is a strict prefix of every staging name of the same version. */
  lemma TempExtendsFinal(hashStr: string, pid: int)
    ensures HasPrefix(TempName(hashStr, pid), FinalName(hashStr))
    ensures |TempName(hashStr, pid)| > |FinalName(hashStr)|
  {
    var f := FinalName(hashStr);
    assert TempName(hashStr, pid)[..|f|] == f;
  }

  /** No staging file is ever stale, whatever version it belongs to. */
  lemma TempNeverStale(hashStr: string, pid: int, currentHash: string)
    ensures !IsStale(TempName(hashStr, pid), currentHash)
  {
    var t := TempName(hashStr, pid);
    var k := |FinalName(hashStr)|;
    assert OccursAt(t, TempMarker, k) by {
      assert t[k..k + |TempMarker|] == TempMarker;
    }
  }

  lemma NoDotNoMarker(s: string)
    requires forall i :: 0 <= i < |s| ==> s[i] != '.'
    ensures !Contains(s, TempMarker)
  {
    forall i | 0 <= i <= |s| ensures !OccursAt(s, TempMarker, i) {
      if i + |TempMarker| <= |s| {
        assert s[i..i + |TempMarker|][0] == s[i];
      }
    }
  }

  /** Another version's artifact is stale; the current one never is. */
  lemma StaleVersion(other: string, currentHash: string)
    requires forall i :: 0 <= i < |other| ==> IsHexDigit(other[i])
    ensures IsStale(FinalName(other), currentHash) <==> other != currentHash
  {
    var n := FinalName(other);
    assert n[..|ArtifactPrefix|] == ArtifactPrefix;
    assert forall i :: 0 <= i < |n| ==> n[i] != '.' by {
      forall i | 0 <= i < |n| ensures n[i] != '.' {
        if i >= |ArtifactPrefix| {
          assert n[i] == other[i - |ArtifactPrefix|];
        }
      }
    }
    NoDotNoMarker(n);
    if other != currentHash {
      assert n[|ArtifactPrefix|..] == other;
      assert FinalName(currentHash)[|ArtifactPrefix|..] == currentHash;
    }
  }

  // ---------------------------------------------------------------------
  // What cleanup and extraction leave behind
  // ---------------------------------------------------------------------

  /** The directory after the sweep: stale entries are gone unless removing them failed. */
  function Cleaned(files: map<string, Entry>, currentHash: string, removeFails: set<string>): map<string, Entry> {
    map n | n in files && !(IsStale(n, currentHash) && n !in removeFails) :: files[n]
  }

  /** The sweep is a no-op when the directory cannot be listed. */
  function AfterCleanup(files: map<string, Entry>, currentHash: string, readDirOk: bool, removeFails: set<string>)
    : map<string, Entry>
  {
    if readDirOk then Cleaned(files, currentHash, removeFails) else files
  }

  /** The sweep removes exactly the stale entries it could remove and leaves every other entry as it was. */
  lemma CleanedExactly(files: map<string, Entry>, currentHash: string, readDirOk: bool, removeFails: set<string>, n: string)
    ensures var after := AfterCleanup(files, currentHash, readDirOk, removeFails);
      && (n in after <==> n in files && !(readDirOk && IsStale(n, currentHash) && n !in removeFails))
      && (n in after ==> after[n] == files[n])
  {
  }

  /** What the operating system decides during one extraction. */
  datatype Env = Env(
    goos: string, goarch: string,
    mkdirOk: bool,
    pid: int,
    writeOk: bool,
    renameOk: bool,
    raced: Option<Entry>,     // what a competing process has installed when our rename fails
    removeTempOk: bool,
    readDirOk: bool,
    removeFails: set<string>)

  datatype ExtractError = NoEmbeddedBinary | CacheDirFailed | WriteFailed | RenameFailed

  /** A SHA-256 stand-in: any function with 32-byte digests. */
  ghost predicate IsDigest(sha256: seq<bv8> -> seq<bv8>) {
    forall d :: |sha256(d)| == 32
  }

  /** The outcome of extractFFmpeg: the result and the directory afterwards. */
  function ExtractOutcome(files: map<string, Entry>, embedded: map<string, seq<bv8>>,
                          sha256: seq<bv8> -> seq<bv8>, env: Env): (Result<string, ExtractError>, map<string, Entry>)
    requires IsDigest(sha256)
  {
    var path := EmbeddedPath(env.goos, env.goarch);
    if path !in embedded then (Err(NoEmbeddedBinary), files)
    else if !env.mkdirOk then (Err(CacheDirFailed), files)
    else
      var data := embedded[path];
      var hashStr := ShortHash(sha256(data));
      var final := FinalName(hashStr);
      if final in files && IsExecutable(files[final].perm) then
        (Ok(final), AfterCleanup(files, hashStr, env.readDirOk, env.removeFails))
      else
        var tmp := TempName(hashStr, env.pid);
        if !env.writeOk then (Err(WriteFailed), files)
        else
          var written := files[tmp := Entry(data, if tmp in files then files[tmp].perm else InstallMode)];
          if env.renameOk then
            var renamed := (written - {tmp})[final := written[tmp]];
            (Ok(final), AfterCleanup(renamed, hashStr, env.readDirOk, env.removeFails))
          else
            var contested := if env.raced.Some? then written[final := env.raced.value] else written;
            var tidied := if env.removeTempOk then contested - {tmp} else contested;
            (if final in tidied then Ok(final) else Err(RenameFailed), tidied)
  }

  // ---------------------------------------------------------------------
  // The cache directory
  // ---------------------------------------------------------------------

  class CacheDir {
    var files: map<string, Entry>

    constructor (initial: map<string, Entry>)
      ensures files == initial
    {
      files := initial;
    }

    /** os.WriteFile: a new file gets `perm`; an existing one keeps its mode. */
    method WriteFile(name: string, data: seq<bv8>, perm: bv9)
      modifies this
      ensures files == old(files)[name := Entry(data, if name in old(files) then old(files)[name].perm else perm)]
    {
      var mode := if name in files then files[name].perm else perm;
      files := files[name := Entry(data, mode)];
    }

    /** A successful os.Rename: the entry moves, replacing whatever had the new name. */
    method Rename(from: string, to: string)
      requires from in files
      modifies this
      ensures files == (old(files) - {from})[to := old(files)[from]]
    {
      var entry := files[from];
      files := (files - {from})[to := entry];
    }

    method Remove(name: string)
      modifies this
      ensures files == old(files) - {name}
    {
      files := files - {name};
    }

    /** cleanupOldFFmpegVersions: one pass over the listed entries. */
    method Cleanup(currentHash: string, readDirOk: bool, removeFails: set<string>)
      modifies this
      ensures files == AfterCleanup(old(files), currentHash, readDirOk, removeFails)
    {
      if !readDirOk {
        return;
      }
      ghost var start := files;
      var entries := files.Keys;
      var currentFile := FinalName(currentHash);
      var pending := entries;
      while pending != {}
        invariant pending <= entries == start.Keys
        invariant files == Swept(start, currentHash, removeFails, entries - pending)
        decreases |pending|
      {
        var name :| name in pending;
        if HasPrefix(name, ArtifactPrefix) && name != currentFile && !Contains(name, TempMarker) {
          if name !in removeFails {
            Remove(name);
          }
        }
        pending := pending - {name};
      }
      assert entries - pending == start.Keys;
    }

    /** extractFFmpeg over this directory. */
    method Extract(embedded: map<string, seq<bv8>>, sha256: seq<bv8> -> seq<bv8>, env: Env)
      returns (r: Result<string, ExtractError>)
      requires IsDigest(sha256)
      modifies this
      ensures (r, files) == ExtractOutcome(old(files), embedded, sha256, env)
    {
      var embeddedPath := EmbeddedPath(env.goos, env.goarch);
      if embeddedPath !in embedded {
        return Err(NoEmbeddedBinary);
      }
      var data := embedded[embeddedPath];
      if !env.mkdirOk {
        return Err(CacheDirFailed);
      }
      var hashStr := ShortHash(sha256(data));
      var extractPath := FinalName(hashStr);
      if extractPath in files && IsExecutable(files[extractPath].perm) {
        Cleanup(hashStr, env.readDirOk, env.removeFails);
        return Ok(extractPath);
      }
      var tmpPath := TempName(hashStr, env.pid);
      if !env.writeOk {
        return Err(WriteFailed);
      }
      WriteFile(tmpPath, data, InstallMode);
      if !env.renameOk {
        if env.raced.Some? {
          files := files[extractPath := env.raced.value];
        }
        if env.removeTempOk {
          Remove(tmpPath);
        }
        if extractPath in files {
          return Ok(extractPath);
        }
        return Err(RenameFailed);
      }
      Rename(tmpPath, extractPath);
      Cleanup(hashStr, env.readDirOk, env.removeFails);
      return Ok(extractPath);
    }
  }

  /** The directory part-way through the sweep, once the entries in `done` have been visited. */
  ghost function Swept(start: map<string, Entry>, currentHash: string, removeFails: set<string>, done: set<string>)
    : map<string, Entry>
  {
    map n | n in start && !(n in done && IsStale(n, currentHash) && n !in removeFails) :: start[n]
  }

  // ---------------------------------------------------------------------
  // Properties of extraction
  // ---------------------------------------------------------------------

  /** Without an embedded binary for the platform nothing is created or written. */
  lemma ExtractMissingBinary(files: map<string, Entry>, embedded: map<string, seq<bv8>>,
                             sha256: seq<bv8> -> seq<bv8>, env: Env)
    requires IsDigest(sha256)
    requires EmbeddedPath(env.goos, env.goarch) !in embedded
    ensures ExtractOutcome(files, embedded, sha256, env) == (Err(NoEmbeddedBinary), files)
  {
  }

  /** The sweep never removes the current artifact or any staging file. */
  lemma CleanupKeeps(files: map<string, Entry>, currentHash: string, readDirOk: bool, removeFails: set<string>,
                     hashStr: string, pid: int)
    ensures var after := AfterCleanup(files, currentHash, readDirOk, removeFails);
      && (FinalName(currentHash) in files ==> FinalName(currentHash) in after)
      && (TempName(hashStr, pid) in files ==> TempName(hashStr, pid) in after)
  {
    TempNeverStale(hashStr, pid, currentHash);
  }

  /**
   * A cached copy with an execute bit is used as it is: nothing is written
   * or renamed, and at most stale versions disappear.
   */
  lemma ExtractCacheHit(files: map<string, Entry>, embedded: map<string, seq<bv8>>,
                        sha256: seq<bv8> -> seq<bv8>, env: Env, data: seq<bv8>, hashStr: string)
    requires IsDigest(sha256)
    requires EmbeddedPath(env.goos, env.goarch) in embedded && env.mkdirOk
    requires data == embedded[EmbeddedPath(env.goos, env.goarch)] && hashStr == ShortHash(sha256(data))
    requires FinalName(hashStr) in files && IsExecutable(files[FinalName(hashStr)].perm)
    ensures var o := ExtractOutcome(files, embedded, sha256, env);
      && o.0 == Ok(FinalName(hashStr))
      && FinalName(hashStr) in o.1 && o.1[FinalName(hashStr)] == files[FinalName(hashStr)]
      && (forall n :: n in o.1 ==> n in files && o.1[n] == files[n])
      && (forall n :: n in files && !IsStale(n, hashStr) ==> n in o.1)
  {
  }

  /**
   * A fresh install: the final name holds the embedded bytes (mode 0755
   * unless a leftover staging file had another mode) and the staging file
   * is gone.
   */
  lemma ExtractInstalls(files: map<string, Entry>, embedded: map<string, seq<bv8>>,
                        sha256: seq<bv8> -> seq<bv8>, env: Env, data: seq<bv8>, hashStr: string)
    requires IsDigest(sha256)
    requires EmbeddedPath(env.goos, env.goarch) in embedded && env.mkdirOk
    requires data == embedded[EmbeddedPath(env.goos, env.goarch)] && hashStr == ShortHash(sha256(data))
    requires !(FinalName(hashStr) in files && IsExecutable(files[FinalName(hashStr)].perm))
    requires env.writeOk && env.renameOk
    ensures var o := ExtractOutcome(files, embedded, sha256, env);
      var tmp := TempName(hashStr, env.pid);
      && o.0 == Ok(FinalName(hashStr))
      && FinalName(hashStr) in o.1 && o.1[FinalName(hashStr)].data == data
      && (tmp !in files ==> o.1[FinalName(hashStr)].perm == InstallMode)
      && tmp !in o.1
  {
    TempExtendsFinal(hashStr, env.pid);
  }

  /**
   * When the rename fails the staging file is removed (if it can be) and the
   * call succeeds exactly when something now has the final name: a copy a
   * competing process installed or one that was there before, whose mode is
   * not checked again.
   */
  lemma ExtractRenameFails(files: map<string, Entry>, embedded: map<string, seq<bv8>>,
                           sha256: seq<bv8> -> seq<bv8>, env: Env, data: seq<bv8>, hashStr: string)
    requires IsDigest(sha256)
    requires EmbeddedPath(env.goos, env.goarch) in embedded && env.mkdirOk
    requires data == embedded[EmbeddedPath(env.goos, env.goarch)] && hashStr == ShortHash(sha256(data))
    requires !(FinalName(hashStr) in files && IsExecutable(files[FinalName(hashStr)].perm))
    requires env.writeOk && !env.renameOk
    ensures var o := ExtractOutcome(files, embedded, sha256, env);
      var final := FinalName(hashStr);
      && (o.0.Ok? <==> final in o.1)
      && (o.0.Ok? ==> o.0.value == final)
      && (env.removeTempOk ==> TempName(hashStr, env.pid) !in o.1)
      && (env.raced.Some? || final in files ==> o.0 == Ok(final))
      && (env.raced.None? && final !in files ==> o.0 == Err(RenameFailed))
  {
    TempExtendsFinal(hashStr, env.pid);
  }

  /**
   * Every success names the final path of the embedded binary's version,
   * and that path exists afterwards; every error other than a failed
   * rename leaves the directory as it was.
   */
  lemma ExtractResult(files: map<string, Entry>, embedded: map<string, seq<bv8>>,
                      sha256: seq<bv8> -> seq<bv8>, env: Env)
    requires IsDigest(sha256)
    ensures var o := ExtractOutcome(files, embedded, sha256, env);
      var path := EmbeddedPath(env.goos, env.goarch);
      && (o.0.Ok? ==> path in embedded && o.0.value == FinalName(ShortHash(sha256(embedded[path])))
                      && o.0.value in o.1)
      && (o.0.Err? && o.0.error != RenameFailed ==> o.1 == files)
  {
    var path := EmbeddedPath(env.goos, env.goarch);
    if path in embedded && env.mkdirOk {
      var hashStr := ShortHash(sha256(embedded[path]));
      CleanupKeeps(files, hashStr, env.readDirOk, env.removeFails, hashStr, env.pid);
      TempExtendsFinal(hashStr, env.pid);
      var tmp := TempName(hashStr, env.pid);
      var final := FinalName(hashStr);
      var written := files[tmp := Entry(embedded[path], if tmp in files then files[tmp].perm else InstallMode)];
      var renamed := (written - {tmp})[final := written[tmp]];
      CleanupKeeps(renamed, hashStr, env.readDirOk, env.removeFails, hashStr, env.pid);
    }
  }

  /**
   * The content-hash name makes a second extraction of the same binary a
   * cache hit: after a hit or a clean install, running again returns the
   * same path without writing or renaming anything, and can at most remove
   * stale versions.
   */
  lemma ExtractTwice(files: map<string, Entry>, embedded: map<string, seq<bv8>>,
                     sha256: seq<bv8> -> seq<bv8>, env1: Env, env2: Env, data: seq<bv8>, hashStr: string)
    requires IsDigest(sha256)
    requires EmbeddedPath(env1.goos, env1.goarch) in embedded && env1.mkdirOk
    requires data == embedded[EmbeddedPath(env1.goos, env1.goarch)] && hashStr == ShortHash(sha256(data))
    requires env2.goos == env1.goos && env2.goarch == env1.goarch && env2.mkdirOk
    requires (FinalName(hashStr) in files && IsExecutable(files[FinalName(hashStr)].perm))
             || (env1.writeOk && env1.renameOk && TempName(hashStr, env1.pid) !in files)
    ensures var first := ExtractOutcome(files, embedded, sha256, env1);
      var second := ExtractOutcome(first.1, embedded, sha256, env2);
      && first.0 == Ok(FinalName(hashStr))
      && second.0 == first.0
      && FinalName(hashStr) in second.1 && second.1[FinalName(hashStr)] == first.1[FinalName(hashStr)]
      && (forall n :: n in second.1 ==> n in first.1 && second.1[n] == first.1[n])
  {
    var final := FinalName(hashStr);
    var first := ExtractOutcome(files, embedded, sha256, env1);
    if final in files && IsExecutable(files[final].perm) {
      ExtractCacheHit(files, embedded, sha256, env1, data, hashStr);
    } else {
      ExtractInstalls(files, embedded, sha256, env1, data, hashStr);
      assert first.1[final].perm == InstallMode;
    }
    assert IsExecutable(first.1[final].perm);
    ExtractCacheHit(first.1, embedded, sha256, env2, data, hashStr);
  }

  /**
   * The exception: when the rename fails and a copy without an execute bit
   * holds the final name, that copy is returned, and the next extraction is
   * not a cache hit; it installs the embedded bytes again.
   */
  lemma ExtractAdoptedNotExecutable(files: map<string, Entry>, embedded: map<string, seq<bv8>>,
                                    sha256: seq<bv8> -> seq<bv8>, env1: Env, env2: Env,
                                    data: seq<bv8>, hashStr: string)
    requires IsDigest(sha256)
    requires EmbeddedPath(env1.goos, env1.goarch) in embedded && env1.mkdirOk
    requires data == embedded[EmbeddedPath(env1.goos, env1.goarch)] && hashStr == ShortHash(sha256(data))
    requires !(FinalName(hashStr) in files && IsExecutable(files[FinalName(hashStr)].perm))
    requires env1.writeOk && !env1.renameOk && env1.raced.Some? && !IsExecutable(env1.raced.value.perm)
    requires env2.goos == env1.goos && env2.goarch == env1.goarch && env2.mkdirOk
    requires env2.writeOk && env2.renameOk
    ensures var first := ExtractOutcome(files, embedded, sha256, env1);
      var second := ExtractOutcome(first.1, embedded, sha256, env2);
      && first.0 == Ok(FinalName(hashStr))
      && FinalName(hashStr) in first.1 && !IsExecutable(first.1[FinalName(hashStr)].perm)
      && second.0 == Ok(FinalName(hashStr))
      && second.1[FinalName(hashStr)].data == data
  {
    var first := ExtractOutcome(files, embedded, sha256, env1);
    TempExtendsFinal(hashStr, env1.pid);
    assert first.1[FinalName(hashStr)] == env1.raced.value;
    ExtractInstalls(first.1, embedded, sha256, env2, data, hashStr);
  }

  /**
   * Nothing else changes: apart from the final name, the staging name and
   * stale versions, every entry keeps its contents and mode, and no other
   * name appears.
   */
  lemma ExtractFrame(files: map<string, Entry>, embedded: map<string, seq<bv8>>,
                     sha256: seq<bv8> -> seq<bv8>, env: Env, data: seq<bv8>, hashStr: string, n: string)
    requires IsDigest(sha256)
    requires EmbeddedPath(env.goos, env.goarch) in embedded
    requires data == embedded[EmbeddedPath(env.goos, env.goarch)] && hashStr == ShortHash(sha256(data))
    ensures var o := ExtractOutcome(files, embedded, sha256, env);
      && (n in files && n != FinalName(hashStr) && n != TempName(hashStr, env.pid) && !IsStale(n, hashStr)
          ==> n in o.1 && o.1[n] == files[n])
      && (n in o.1 ==> n in files || n == FinalName(hashStr) || n == TempName(hashStr, env.pid))
  {
  }
}
