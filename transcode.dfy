/**
 * The command line handed to ffmpeg for one conversion: global options, the
 * temporary input file, the output options of the requested format (with
 * the optional audio filter chain first) and standard output as the
 * destination.
 */
module Transcode {
  import opened Wrappers
  import opened Filters

  /** ffmpegLogLevel: ffmpeg reports progress in verbose mode, errors only otherwise. */
  function LogLevel(verbose: bool): (level: string)
    ensures level == "info" || level == "error"
    ensures level == "info" <==> verbose
  {
    if verbose then "info" else "error"
  }

  /** The three output formats the service converts to. */
  datatype Format = Wav | Mp3 | Flac

  /** The muxer named after `-f`. */
  function Container(f: Format): string {
    match f
    case Wav => "wav"
    case Mp3 => "mp3"
    case Flac => "flac"
  }

  /** The encoder named after `-acodec`. */
  function Encoder(f: Format): string {
    match f
    case Wav => "pcm_s16le"
    case Mp3 => "libmp3lame"
    case Flac => "flac"
  }

  /** Mono at 16 kHz, shared by every format. */
  const MonoOptions: seq<string> := ["-ac", "1", "-ar", "16000"]

  /** The format-specific tail: container, encoder and the encoder's own setting. */
  function FormatOptions(f: Format): seq<string> {
    ["-f", Container(f), "-acodec", Encoder(f)]
    + match f
      case Wav => []
      case Mp3 => ["-b:a", "128k"]
      case Flac => ["-compression_level", "5"]
  }

  /** `-af chain` when there is a filter chain, nothing otherwise. */
  function FilterOptions(chain: string): seq<string> {
    if chain != "" then ["-af", chain] else []
  }

  /** The output arguments built by the convertTo* helpers for a given filter chain. */
  function OutputOptions(f: Format, chain: string): (out: seq<string>)
    ensures ParseOutputOptions(out) == Some((f, chain))
  {
    ParseOutputOptionsOf(f, chain);
    FilterOptions(chain) + MonoOptions + FormatOptions(f)
  }

  /** The argument vector runFFmpegWithTempInput assembles around the output arguments. */
  function FfmpegArgs(verbose: bool, input: string, out: seq<string>): (args: seq<string>)
    ensures |args| == |out| + 6
    ensures args[..5] == ["-hide_banner", "-loglevel", LogLevel(verbose), "-i", input]
    ensures args[5..|args| - 1] == out && args[|args| - 1] == "pipe:1"
  {
    ["-hide_banner", "-loglevel", LogLevel(verbose), "-i", input] + out + ["pipe:1"]
  }

  /** The complete command line for converting `input` to `f` with the filters of `mask`. */
  function ConvertArgs(verbose: bool, input: string, f: Format, mask: int): (args: seq<string>)
    ensures Decode(args) == Some(Invocation(verbose, input, f, Chain(mask)))
  {
    DecodeRender(Invocation(verbose, input, f, Chain(mask)));
    FfmpegArgs(verbose, input, OutputOptions(f, Chain(mask)))
  }

  // ---------------------------------------------------------------------
  // Reading a command line back
  // ---------------------------------------------------------------------

  /** What a command line determines: log level, input file, format and filter chain. */
  datatype Invocation = Invocation(verbose: bool, input: string, format: Format, chain: string)

  function Render(inv: Invocation): seq<string> {
    FfmpegArgs(inv.verbose, inv.input, OutputOptions(inv.format, inv.chain))
  }

  function ParseLogLevel(level: string): Option<bool> {
    if level == "info" then Some(true)
    else if level == "error" then Some(false)
    else None
  }

  function ParseFormatOptions(tail: seq<string>): Option<Format> {
    if tail == FormatOptions(Wav) then Some(Wav)
    else if tail == FormatOptions(Mp3) then Some(Mp3)
    else if tail == FormatOptions(Flac) then Some(Flac)
    else None
  }

  function ParseOutputOptions(out: seq<string>): Option<(Format, string)> {
    var filtered := |out| >= 2 && out[0] == "-af" && out[1] != "";
    var chain := if filtered then out[1] else "";
    var rest := if filtered then out[2..] else out;
    if |rest| < |MonoOptions| || rest[..|MonoOptions|] != MonoOptions then None
    else match ParseFormatOptions(rest[|MonoOptions|..])
      case None => None
      case Some(f) => Some((f, chain))
  }

  /** The inverse of Render: recovers the invocation from a well-formed command line. */
  function Decode(args: seq<string>): Option<Invocation> {
    if |args| < 6 || args[0] != "-hide_banner" || args[1] != "-loglevel" || args[3] != "-i"
       || args[|args| - 1] != "pipe:1"
    then None
    else match (ParseLogLevel(args[2]), ParseOutputOptions(args[5..|args| - 1]))
      case (Some(verbose), Some((f, chain))) => Some(Invocation(verbose, args[4], f, chain))
      case _ => None
  }

  lemma ParseFormatOptionsOf(f: Format)
    ensures ParseFormatOptions(FormatOptions(f)) == Some(f)
  {
    match f
    case Wav =>
    case Mp3 =>
      assert FormatOptions(Mp3)[1] != FormatOptions(Wav)[1];
    case Flac =>
      assert FormatOptions(Flac)[1] != FormatOptions(Wav)[1];
      assert FormatOptions(Flac)[1] != FormatOptions(Mp3)[1];
  }

  lemma ParseOutputOptionsOf(f: Format, chain: string)
    ensures ParseOutputOptions(FilterOptions(chain) + MonoOptions + FormatOptions(f)) == Some((f, chain))
  {
    var out := FilterOptions(chain) + MonoOptions + FormatOptions(f);
    var rest := MonoOptions + FormatOptions(f);
    if chain != "" {
      assert out[2..] == rest;
    } else {
      assert out == rest;
      assert out[0] != "-af";
    }
    assert rest[..|MonoOptions|] == MonoOptions;
    assert rest[|MonoOptions|..] == FormatOptions(f);
    ParseFormatOptionsOf(f);
  }

  /** Decoding a rendered command line gives back exactly what was rendered. */
  lemma DecodeRender(inv: Invocation)
    ensures Decode(Render(inv)) == Some(inv)
  {
    var out := OutputOptions(inv.format, inv.chain);
    var args := Render(inv);
    assert args[5..|args| - 1] == out;
    assert args[2] == LogLevel(inv.verbose) && args[4] == inv.input;
    assert ParseOutputOptions(out) == Some((inv.format, inv.chain));
  }

  lemma ParseOutputOptionsExact(out: seq<string>)
    requires ParseOutputOptions(out).Some?
    ensures OutputOptions(ParseOutputOptions(out).value.0, ParseOutputOptions(out).value.1) == out
  {
    var filtered := |out| >= 2 && out[0] == "-af" && out[1] != "";
    var rest := if filtered then out[2..] else out;
    var (f, chain) := ParseOutputOptions(out).value;
    assert rest == rest[..|MonoOptions|] + rest[|MonoOptions|..];
    if filtered {
      assert out == ["-af", out[1]] + rest;
    }
  }

  /** Every command line Decode accepts is the rendering of what it decodes to. */
  lemma RenderDecode(args: seq<string>)
    requires Decode(args).Some?
    ensures Render(Decode(args).value) == args
  {
    var inv := Decode(args).value;
    var out := args[5..|args| - 1];
    ParseOutputOptionsExact(out);
    assert args == args[..5] + out + [args[|args| - 1]];
  }

  /** Two conversions share a command line only when they agree on everything that reaches ffmpeg. */
  lemma ConvertArgsInjective(v1: bool, i1: string, f1: Format, m1: int, v2: bool, i2: string, f2: Format, m2: int)
    requires ConvertArgs(v1, i1, f1, m1) == ConvertArgs(v2, i2, f2, m2)
    ensures v1 == v2 && i1 == i2 && f1 == f2 && Chain(m1) == Chain(m2)
  {
    DecodeRender(Invocation(v1, i1, f1, Chain(m1)));
    DecodeRender(Invocation(v2, i2, f2, Chain(m2)));
  }

  /**
   * The layout of every conversion command line: the global options, the
   * input file, then `-af chain` exactly when the mask selects a stage, then
   * mono 16 kHz, the format options, and standard output last.
   */
  lemma ConvertArgsLayout(verbose: bool, input: string, f: Format, mask: int)
    ensures var args := ConvertArgs(verbose, input, f, mask);
      && args[..5] == ["-hide_banner", "-loglevel", LogLevel(verbose), "-i", input]
      && args[|args| - 1] == "pipe:1"
      && (args[5] == "-af" <==> mask % 64 != 0)
      && (mask % 64 != 0 ==> args[6] == Chain(mask) && args[7..11] == MonoOptions)
      && (mask % 64 == 0 ==> args[5..9] == MonoOptions)
  {
    ChainEmpty(mask);
    var args := ConvertArgs(verbose, input, f, mask);
    var out := OutputOptions(f, Chain(mask));
    assert args[5..|args| - 1] == out;
    assert args[5] == out[0];
    if mask % 64 != 0 {
      assert args[6] == out[1];
      assert args[7..11] == out[2..6];
    } else {
      assert args[5..9] == out[..4];
    }
  }

  /** The last options before standard output are the format's own, six of them for mp3 and flac and four for wav. */
  lemma ConvertArgsFormat(verbose: bool, input: string, f: Format, mask: int)
    ensures var args := ConvertArgs(verbose, input, f, mask);
      var n := if f == Wav then 4 else 6;
      && |args| == 5 + |FilterOptions(Chain(mask))| + |MonoOptions| + n + 1
      && args[|args| - 1 - n..|args| - 1] == FormatOptions(f)
  {
    var args := ConvertArgs(verbose, input, f, mask);
    var out := OutputOptions(f, Chain(mask));
    var n := if f == Wav then 4 else 6;
    assert |FormatOptions(f)| == n;
    OutputOptionsTail(f, Chain(mask));
    assert args[5..|args| - 1] == out;
    assert args[|args| - 1 - n..|args| - 1] == out[|out| - n..];
  }

  lemma OutputOptionsTail(f: Format, chain: string)
    ensures var out := OutputOptions(f, chain);
      && |out| == |FilterOptions(chain)| + |MonoOptions| + |FormatOptions(f)|
      && out[|out| - |FormatOptions(f)|..] == FormatOptions(f)
  {
    var out := OutputOptions(f, chain);
    assert out == (FilterOptions(chain) + MonoOptions) + FormatOptions(f);
  }
}
