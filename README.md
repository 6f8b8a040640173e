# audio-extractor, modelled in Dafny

audio-extractor is an HTTP service. It takes an uploaded audio or video stream and runs an embedded ffmpeg binary on it. It returns mono 16 kHz WAV (PCM16), MP3 or FLAC, optionally passed through a bitmask-selected chain of audio filters.

This project models and proves two parts of the service: its request-side decision logic, and the cache that installs the embedded ffmpeg binary on disk.

- **Filter masks** (`filters.dfy`, module `Filters`).
  - `parseFilterMask` turns the `filters` query parameter into a 7-bit mask.
  - `buildAudioFilter` turns a mask into the comma-joined ffmpeg filter chain. It is a method with a loop-free sequence of appends, proved against the specification function `Chain`.
  - Bits are read as Go reads them on two's-complement integers: `Bit(m, k)` is bit k of `m`. Go's `m & 127` is Dafny's Euclidean `m % 128`.
- **Byte sizes** (`bytesize.dfy`, module `Sizes`).
  - `parseByteSize` is a method that follows the Go statements step by step. It is proved equal to the specification function `ByteSize`.
  - The properties proved about `ByteSize`: round trip, range, case and white-space insensitivity, error cases, and the documented examples.
- **ffmpeg command lines** (`transcode.dfy`, module `Transcode`).
  - The argument vector of `runFFmpegWithTempInput` and the three `convertTo*` helpers, as a pure function.
  - `Decode` reads an argument vector back. It is proved to be an exact inverse of the layout in both directions.
- **Handlers and start-up settings** (`service.dfy`, module `Service`).
  - The reply of `convertHandler` and `healthHandler`.
  - The `PORT`, `VERBOSE` and `MAX_UPLOAD_SIZE` settings of `main`.
  - Running ffmpeg is a parameter `run` from a command line to the converted bytes or a failure. "No conversion happens" is stated as "the reply does not depend on `run`".
- **Artifact cache** (`artifact_cache.dfy`, module `Cache`).
  - A class `CacheDir` holds the cache directory as a map from entry names to contents and permission bits.
  - Its `Extract` and `Cleanup` methods mirror `extractFFmpeg` and `cleanupOldFFmpegVersions` statement by statement. They are proved against the specification functions `ExtractOutcome` and `AfterCleanup`.
  - Everything the operating system decides is a field of `Env`. That covers whether the cache directory can be created, and whether a write, rename, removal or listing succeeds. It also covers what a competing process has installed when the rename fails.
  - SHA-256 is a parameter `sha256`, constrained only to return 32-byte digests.
- Go's `strings.TrimSpace`, `ToUpper`, `HasSuffix`, `Join` and `strconv.ParseInt`/`Atoi` are modelled in `text.dfy` (module `Text`).

Three behaviours of the code that are easy to miss:
- `"true"` and `"all"` select `FilterAll` = 63, which does not include the speech-mode bit 64 (main.go:39, 193-194).
- The `-af` chain comes before the channel, rate and format options, not after them (main.go:135-145).
- Cleanup spares every name that contains `.tmp.`, whether or not a live process owns it (ffmpeg_embedded.go:95).

## Model

| member | source | states |
|---|---|---|
| `Filters.ParseFilterMask` | main.go:188-204 | the mask is always within 0..127; `""` gives 0; `"true"` and `"all"` give FilterAll (63) |
| `Filters.ParseFilterMaskInteger` | main.go:197-203 | an integer parameter gives its value modulo 128 (Go's `& 127`, negative values included): bits 0-6 are kept and every higher bit is dropped |
| `Filters.ParseFilterMaskMalformed` | main.go:197-200 | any parameter other than "true" and "all" that `Atoi` rejects because of a non-digit character (after an optional leading sign) gives 0, never an error |
| `Filters.ParseFilterMaskRejected` | main.go:193-200 | apart from "true" and "all", every parameter `Atoi` rejects, for whatever reason, gives 0 |
| `Filters.ParseFilterMaskOutOfRange` | main.go:197-200 | a decimal number outside the int64 range, such as 9223372036854775808, is rejected by `Atoi` and gives 0 rather than any masked bits |
| `Filters.NamedFlags` | main.go:31-38 | each named flag constant is the power of two of its bit, so Go's test `mask & FilterX != 0` is bit k of the mask |
| `Filters.BitDiv` | main.go:49-68 | bit k of a mask is the parity of the mask divided by 2^k (Go's `mask >> k & 1`), for every integer mask |
| `Filters.FilterAllBits` | main.go:31-40 | FilterAll has exactly bits 0-5 set; the speech-mode bit is not among them |
| `Filters.BuildAudioFilter` | main.go:42-78 | the appended stages joined with "," equal `Chain(mask)`, the chain of the selected stages in canonical order |
| `Filters.StagesOrdered` | main.go:47-75 | the stages appear in strictly increasing canonical order (highpass, lowpass, afftdn, adeclick, deesser, dynaudnorm) whatever the mask |
| `Filters.StagesSelect` | main.go:47-75 | a stage is present if and only if its bit is set |
| `Filters.StagesCount` | main.go:47-75 | the number of stages is the number of set bits among bits 0-5 |
| `Filters.DenoiserProfile` | main.go:57-63 | the denoiser stage is present exactly when bit 2 is set, and it uses the speech profile `nt=s` exactly when bit 6 is set |
| `Filters.ChainEmpty` | main.go:42-78 | the chain is empty if and only if `mask mod 64 == 0`, so 0, 64 alone and masks with only high bits give "" |
| `Filters.ChainSplits` | main.go:77 | a non-empty chain splits at "," back into exactly the stage texts: no leading, trailing or doubled comma |
| `Sizes.ParseByteSize` | main.go:209-245 | the step-by-step parse returns `ByteSize(input)`, and every success is in 1..2^63-1 |
| `Sizes.ByteSizeInRange` | main.go:234-244 | every accepted size is positive and at most 2^63-1 |
| `Sizes.ByteSizeRoundTrip` | main.go:215-244 | the decimal form of any int64 followed by a unit gives value times unit; a value of 0 or less gives NotPositive; a product above 2^63-1 gives Overflow |
| `Sizes.ByteSizeCaseInsensitive` | main.go:210 | upper-casing the input never changes the outcome |
| `Sizes.ByteSizePadded` | main.go:210 | leading and trailing white space never change the outcome |
| `Sizes.ByteSizeSpacedUnit` | main.go:228 | white space between the number and its unit never changes the outcome |
| `Sizes.ByteSizeBlank` | main.go:210-213 | empty and all-white-space input is refused as empty |
| `Sizes.ByteSizeUnitOnly` | main.go:216-232 | a unit with no number in front ("KB") is an invalid value |
| `Sizes.ByteSizeUnknownSuffix` | main.go:216-232 | a number followed by letters that end in none of GB, MB or KB (such as "TB") is an invalid value |
| `Sizes.Megabytes` | main.go:208-245 | "250MB" gives 262144000 |
| `Sizes.LowerCaseGigabyte` | main.go:208-245 | "1gb" gives 2^30 |
| `Sizes.SpacedKilobytes` | main.go:208-245 | " 5 kb " gives 5120 |
| `Sizes.PlainBytes` | main.go:208-245 | "500" gives 500 |
| `Sizes.Zero` | main.go:234-237 | "0" is refused as not positive |
| `Sizes.NegativeMegabytes` | main.go:234-237 | "-5MB" is refused as not positive |
| `Sizes.FractionalGigabytes` | main.go:229-232 | "1.5GB" is an invalid value |
| `Sizes.UnknownUnit` | main.go:229-232 | "10TB" is an invalid value |
| `Text.ParseFormatInt` | main.go:229 | `ParseInt` reads back the decimal form of every int64 |
| `Text.ParseRejectsNonDigit` | main.go:197-200 | a non-digit anywhere after an optional sign makes `ParseInt`/`Atoi` fail |
| `Text.ParseRejectsOutOfRange` | main.go:197 | `ParseInt`/`Atoi` reject the decimal form of every number outside the int64 range (a range error), instead of clamping it |
| `Text.ParseRejectsBareSign` | main.go:197 | a sign with no digits after it ("+" or "-") is rejected |
| `Text.TrimSpacePadded` | main.go:210 | `TrimSpace` ignores any white space added around its input |
| `Text.SplitJoin` | main.go:77 | splitting a joined list of comma-free parts gives the list back |
| `Transcode.LogLevel` | main.go:80-85 | the log level is "info" exactly in verbose mode and "error" otherwise |
| `Transcode.FfmpegArgs` | main.go:105-110 | the argument vector is the five global and input arguments, then the output arguments unchanged, then `pipe:1` last |
| `Transcode.OutputOptions` | main.go:132-186 | the output arguments of a convertTo* helper always read back (`ParseOutputOptions`) as their format and filter chain |
| `Transcode.ConvertArgs` | main.go:132-186 | the command line of a conversion always decodes to its verbosity, input file, format and the filter chain of its mask |
| `Transcode.ConvertArgsLayout` | main.go:105-110 | the command line starts `-hide_banner -loglevel L -i input`, ends with `pipe:1`, and has `-af chain` right after the input exactly when the mask selects a stage, followed by `-ac 1 -ar 16000` |
| `Transcode.ConvertArgsFormat` | main.go:132-186 | the command line ends with the format's options: `-f wav -acodec pcm_s16le`; `-f mp3 -acodec libmp3lame -b:a 128k`; or `-f flac -acodec flac -compression_level 5` |
| `Transcode.DecodeRender` | main.go:105-110 | decoding the rendered command line gives back verbosity, input, format and chain |
| `Transcode.RenderDecode` | main.go:105-110 | every command line that decodes is the rendering of what it decodes to |
| `Transcode.ConvertArgsInjective` | main.go:132-186 | two conversions produce the same command line only when verbosity, input, format and filter chain all agree |
| `Service.RequestedFormat` | main.go:256-259 | an empty or missing format parameter means "wav"; any other value is kept as it is |
| `Service.Convert` | main.go:247-294 | every reply is 200, 400 or 405; 405 exactly for a method other than POST; a 200 carries the converted bytes and every error carries a plain-text message (`http.Error`) |
| `Service.ConvertRequiresPost` | main.go:248-251 | a method other than POST gets 405, and nothing is converted |
| `Service.ConvertDefaultsToWav` | main.go:256-259 | a request without a format is handled exactly as one with `format=wav` |
| `Service.ConvertUnsupported` | main.go:277-279 | a format other than wav, mp3 or flac gets 400 "unsupported format: <name>", and nothing is converted |
| `Service.ConvertOutcome` | main.go:261-293 | a supported format runs ffmpeg on that format's command line with the parsed filter mask; a failure gives 400 "conversion failed", a success gives 200 with the bytes, the format's content type and `Cache-Control: no-store` |
| `Service.ConvertSuccess` | main.go:247-294 | every reply is 200, 400 or 405; it is 200 exactly for a POST with a supported format whose conversion succeeds; a 200 carries `no-store` and an audio content type |
| `Service.Health` | main.go:296-307 | GET and HEAD get 200; GET's body is "ok" and HEAD's body is empty; any other method gets 405 |
| `Service.ListenPort` | main.go:322-325 | the port is PORT when that is non-empty and "8080" otherwise |
| `Service.Verbose` | main.go:328-330 | verbose logging is on when the command-line flag is given or VERBOSE is "true" or "1", and in no other case |
| `Service.UploadLimit` | main.go:333-340 | the upload limit is always within 1..2^63-1 |
| `Service.UploadLimitChoice` | main.go:333-340 | MAX_UPLOAD_SIZE replaces the 250 MiB default exactly when parseByteSize accepts it |
| `Service.StartupLogLevel` | main.go:328-330 | conversions log at "info" exactly when the verbose flag is given or VERBOSE is "true" or "1" |
| `Cache.HexRoundTrip` | ffmpeg_embedded.go:51 | decoding the hex encoding of any bytes gives the bytes back |
| `Cache.HexDecodeExact` | ffmpeg_embedded.go:51 | every string that decodes is the lower-case hex encoding of what it decodes to |
| `Cache.HexInjective` | ffmpeg_embedded.go:50-52 | hex encoding is injective, so different digest prefixes give different version names |
| `Cache.ShortHash` | ffmpeg_embedded.go:50-51 | the version name is 16 lower-case hex digits |
| `Cache.TempExtendsFinal` | ffmpeg_embedded.go:52-63 | the final name is a strict prefix of the staging name |
| `Cache.TempNeverStale` | ffmpeg_embedded.go:92-95 | no staging file, of any version, is ever selected for removal |
| `Cache.StaleVersion` | ffmpeg_embedded.go:90-95 | another version's artifact is selected for removal, and the current one is not |
| `Cache.CleanedExactly` | ffmpeg_embedded.go:86-101 | the sweep removes exactly the selected entries whose removal succeeds, leaves every other entry unchanged, and changes nothing when listing fails |
| `Cache.CleanupKeeps` | ffmpeg_embedded.go:85-102 | the sweep never removes the current artifact or a staging file |
| `Cache.CacheDir.Cleanup` | ffmpeg_embedded.go:85-102 | the loop over the listed entries leaves the directory `AfterCleanup` describes |
| `Cache.CacheDir.Extract` | ffmpeg_embedded.go:29-83 | the step-by-step extraction returns, and leaves, what `ExtractOutcome` describes |
| `Cache.CacheDir.WriteFile` | ffmpeg_embedded.go:64 | the named entry holds the data; a new entry gets the given mode, an existing one keeps its mode |
| `Cache.CacheDir.Rename` | ffmpeg_embedded.go:69 | the entry moves to the new name, replacing what was there |
| `Cache.CacheDir.Remove` | ffmpeg_embedded.go:70 | the entry is gone and nothing else changes |
| `Cache.ExtractMissingBinary` | ffmpeg_embedded.go:31-37 | without an embedded binary for the platform, the result is an error and the directory is untouched |
| `Cache.ExtractCacheHit` | ffmpeg_embedded.go:54-60 | a cached copy with an execute bit is returned with nothing written or renamed; at most stale versions disappear |
| `Cache.ExtractInstalls` | ffmpeg_embedded.go:62-82 | on a miss with a successful rename, the final name holds the embedded bytes with mode 0755 (unless a leftover staging file had another mode), and the staging file is gone |
| `Cache.ExtractRenameFails` | ffmpeg_embedded.go:68-76 | after a failed rename the call succeeds, returning the final name, exactly when the final name exists (installed by a competing process or left from before), without checking its mode; otherwise it fails with a rename error; the staging file is gone whenever its removal succeeds |
| `Cache.ExtractResult` | ffmpeg_embedded.go:29-83 | every success returns the final name of the embedded binary's version, and that name exists afterwards; every error before the rename leaves the directory untouched |
| `Cache.ExtractFrame` | ffmpeg_embedded.go:29-83 | apart from the final name, the staging name and stale versions, no entry changes and no other name appears |
| `Cache.ExtractTwice` | ffmpeg_embedded.go:50-60 | after a cache hit or a clean install, extracting the same binary again is a cache hit: the same path, the final entry untouched, nothing added or rewritten, at most stale versions removed |
| `Cache.ExtractAdoptedNotExecutable` | ffmpeg_embedded.go:68-74 | when a failed rename adopts a competitor's copy that has no execute bit, that path is returned, and the next extraction is not a hit but installs the embedded bytes again |

## Left out

- Running ffmpeg, the 5-minute timeout, and the capture of stdout and stderr (main.go:113-129) are a foreign process and timing. The model keeps the command line and an abstract outcome (`run`).
- Creating, filling and deleting the temporary input file (main.go:91-102) is file I/O on an opaque reader. Its path is the parameter `input`, and a failure there is folded into `run` returning no bytes.
- The HTTP server, `MaxBytesReader`, writing the response and logging (main.go:253-254, 288-293, 342-358) are framework plumbing. The upload limit is computed (`UploadLimit`) but its enforcement while reading the body is not modelled.
- Flag parsing and version printing (main.go:310-320) are left out; the verbose flag is a boolean parameter.
- The listen address and the server timeouts (main.go:345-352) are left out.
- The `init` wiring of the global ffmpeg path (ffmpeg_embedded.go:21-27) is left out.
- The internals of SHA-256 are left out, along with reading `embed.FS` (modelled as a map from paths to bytes) and `os.UserCacheDir`/`TempDir` with the fallback. Entry names are relative to the extraction directory, so `filepath.Join` is not modelled. `MkdirAll` is a boolean outcome.
- Concurrency is left out. The background cleanup after a cache hit (ffmpeg_embedded.go:58) runs to completion, sequentially. A competing process appears only as the environment's choice of what holds the final name after a failed rename.
- The sweep visits the listed entries in an arbitrary order rather than `ReadDir`'s sorted order. The proved result does not depend on the order.
- Partial writes by `os.WriteFile`, the process umask, and directories among the entries are left out. A failed write leaves the directory unchanged.
- `Text.ToUpper`: upper-cases ASCII letters only. Go's `strings.ToUpper` also maps other letters, but none of them maps to a digit, a sign or one of the letters B, G, K and M, so no size outcome depends on it.
- `Text.ParseInt64`: models `strconv.Atoi` on a 64-bit platform. On a 32-bit GOARCH, `Atoi` rejects values outside the int32 range, so there `parseFilterMask("2147483649")` gives 0, whereas the model gives 1.
- Go strings are byte sequences decoded as UTF-8 by `TrimSpace`. The model works on sequences of characters, so invalid UTF-8 is not represented.
