/**
 * What the HTTP service decides: the reply of the /convert and /health
 * handlers for a request, and the settings read from the environment at
 * start-up. Running ffmpeg is a parameter, `run`, that maps a command line
 * to the converted bytes or to a failure.
 */
module Service {
  import opened Wrappers
  import opened Text
  import opened Filters
  import opened Sizes
  import opened Transcode

  const StatusOK: int := 200
  const StatusBadRequest: int := 400
  const StatusMethodNotAllowed: int := 405

  datatype Body = Message(text: string) | Payload(data: seq<bv8>)

  /** The status, the headers set by the handler, and what was written. */
  datatype Reply = Reply(status: int, headers: map<string, string>, body: Body)

  /** http.Error: a plain-text message followed by a newline. */
  function ErrorReply(message: string, status: int): Reply {
    Reply(status,
          map["Content-Type" := "text/plain; charset=utf-8", "X-Content-Type-Options" := "nosniff"],
          Message(message + "\n"))
  }

  /** url.Values.Get: the first value of a query parameter, "" when there is none. */
  function QueryGet(query: map<string, seq<string>>, key: string): string {
    if key in query && |query[key]| > 0 then query[key][0] else ""
  }

  /** The formats /convert accepts by name. */
  function FormatNamed(name: string): Option<Format> {
    if name == "wav" then Some(Wav)
    else if name == "mp3" then Some(Mp3)
    else if name == "flac" then Some(Flac)
    else None
  }

  function ContentType(f: Format): string {
    match f
    case Wav => "audio/wav"
    case Mp3 => "audio/mpeg"
    case Flac => "audio/flac"
  }

  // ---------------------------------------------------------------------
  // convertHandler
  // ---------------------------------------------------------------------

  /** The format the request asks for, "wav" when it names none. */
  function RequestedFormat(query: map<string, seq<string>>): (name: string)
    ensures name != ""
    ensures QueryGet(query, "format") != "" ==> name == QueryGet(query, "format")
    ensures QueryGet(query, "format") == "" ==> name == "wav"
  {
    var name := QueryGet(query, "format");
    if name == "" then "wav" else name
  }

  /**
   * convertHandler. `input` is the temporary file the upload is copied to;
   * `run` stands for writing that file and running ffmpeg on the command line.
   */
  function Convert(httpMethod: string, query: map<string, seq<string>>, verbose: bool, input: string,
                   run: seq<string> -> Option<seq<bv8>>): (reply: Reply)
    ensures reply.status in {StatusOK, StatusBadRequest, StatusMethodNotAllowed}
    ensures reply.status == StatusMethodNotAllowed <==> httpMethod != "POST"
    ensures reply.status == StatusOK <==> reply.body.Payload?
    ensures reply.status != StatusOK ==> "Content-Type" in reply.headers && reply.headers["Content-Type"] == "text/plain; charset=utf-8"
  {
    if httpMethod != "POST" then ErrorReply("method not allowed", StatusMethodNotAllowed)
    else Respond(RequestedFormat(query), ParseFilterMask(QueryGet(query, "filters")), verbose, input, run)
  }

  /** The rest of convertHandler once the method is accepted: the format switch and ffmpeg's outcome. */
  function Respond(name: string, mask: int, verbose: bool, input: string,
                   run: seq<string> -> Option<seq<bv8>>): Reply
  {
    match FormatNamed(name)
    case None => ErrorReply("unsupported format: " + name, StatusBadRequest)
    case Some(f) =>
      match run(ConvertArgs(verbose, input, f, mask))
      case None => ErrorReply("conversion failed", StatusBadRequest)
      case Some(data) =>
        Reply(StatusOK, map["Content-Type" := ContentType(f), "Cache-Control" := "no-store"], Payload(data))
  }

  /** Only POST is served; any other method is refused before anything is converted. */
  lemma ConvertRequiresPost(httpMethod: string, query: map<string, seq<string>>, verbose: bool, input: string,
                            run: seq<string> -> Option<seq<bv8>>, other: seq<string> -> Option<seq<bv8>>)
    requires httpMethod != "POST"
    ensures Convert(httpMethod, query, verbose, input, run).status == StatusMethodNotAllowed
    ensures Convert(httpMethod, query, verbose, input, run) == Convert(httpMethod, query, verbose, input, other)
  {
  }

  /** A request without a format is converted exactly as one asking for wav. */
  lemma ConvertDefaultsToWav(query: map<string, seq<string>>, verbose: bool, input: string,
                             run: seq<string> -> Option<seq<bv8>>)
    requires QueryGet(query, "format") == ""
    ensures Convert("POST", query, verbose, input, run)
         == Convert("POST", query["format" := ["wav"]], verbose, input, run)
  {
    var named := query["format" := ["wav"]];
    assert RequestedFormat(named) == RequestedFormat(query);
    assert QueryGet(named, "filters") == QueryGet(query, "filters");
  }

  /** A format other than wav, mp3 and flac is a bad request, whatever ffmpeg would have done. */
  lemma ConvertUnsupported(query: map<string, seq<string>>, verbose: bool, input: string,
                           run: seq<string> -> Option<seq<bv8>>, other: seq<string> -> Option<seq<bv8>>)
    requires var name := QueryGet(query, "format");
      name != "" && name != "wav" && name != "mp3" && name != "flac"
    ensures Convert("POST", query, verbose, input, run)
         == ErrorReply("unsupported format: " + QueryGet(query, "format"), StatusBadRequest)
    ensures Convert("POST", query, verbose, input, run) == Convert("POST", query, verbose, input, other)
  {
  }

  /**
   * For a supported format the reply depends on ffmpeg's outcome for the
   * command line of that format and of the parsed filter mask: the bytes
   * with the format's content type and no caching, or "conversion failed".
   */
  lemma ConvertOutcome(query: map<string, seq<string>>, verbose: bool, input: string,
                       run: seq<string> -> Option<seq<bv8>>, f: Format)
    requires FormatNamed(RequestedFormat(query)) == Some(f)
    ensures var args := ConvertArgs(verbose, input, f, ParseFilterMask(QueryGet(query, "filters")));
      var reply := Convert("POST", query, verbose, input, run);
      && (run(args).None? ==> reply == ErrorReply("conversion failed", StatusBadRequest))
      && (run(args).Some? ==> reply.status == StatusOK && reply.body == Payload(run(args).value)
                              && reply.headers["Content-Type"] == ContentType(f)
                              && reply.headers["Cache-Control"] == "no-store")
  {
  }

  /** A successful reply is always 200 with one of the three audio content types and no caching. */
  lemma ConvertSuccess(httpMethod: string, query: map<string, seq<string>>, verbose: bool, input: string,
                       run: seq<string> -> Option<seq<bv8>>)
    ensures var reply := Convert(httpMethod, query, verbose, input, run);
      reply.status in {StatusOK, StatusBadRequest, StatusMethodNotAllowed}
      && (reply.status == StatusOK <==>
            httpMethod == "POST" && FormatNamed(RequestedFormat(query)).Some?
            && run(ConvertArgs(verbose, input, FormatNamed(RequestedFormat(query)).value,
                               ParseFilterMask(QueryGet(query, "filters")))).Some?)
      && (reply.status == StatusOK ==>
            reply.headers["Cache-Control"] == "no-store"
            && reply.headers["Content-Type"] in {"audio/wav", "audio/mpeg", "audio/flac"})
  {
    if httpMethod == "POST" && FormatNamed(RequestedFormat(query)).Some? {
      ConvertOutcome(query, verbose, input, run, FormatNamed(RequestedFormat(query)).value);
    }
  }

  // ---------------------------------------------------------------------
  // healthHandler
  // ---------------------------------------------------------------------

  /** healthHandler: "ok" for GET, an empty 200 for HEAD, 405 otherwise. */
  function Health(httpMethod: string): (reply: Reply)
    ensures reply.status == StatusOK <==> httpMethod == "GET" || httpMethod == "HEAD"
    ensures reply.status != StatusOK ==> reply == ErrorReply("method not allowed", StatusMethodNotAllowed)
    ensures reply.body == Message("ok") <==> httpMethod == "GET"
    ensures httpMethod == "HEAD" ==> reply.body == Message("")
  {
    if httpMethod != "GET" && httpMethod != "HEAD" then ErrorReply("method not allowed", StatusMethodNotAllowed)
    else Reply(StatusOK, map[], Message(if httpMethod == "GET" then "ok" else ""))
  }

  // ---------------------------------------------------------------------
  // Start-up settings
  // ---------------------------------------------------------------------

  /** os.Getenv: "" for a variable that is not set. */
  function Getenv(env: map<string, string>, key: string): string {
    if key in env then env[key] else ""
  }

  /** The upload limit before any configuration, 250 MiB. */
  const DefaultMaxUpload: int := 250 * MiB

  /** The port the server listens on: PORT, or 8080 when it is unset or empty. */
  function ListenPort(env: map<string, string>): (port: string)
    ensures port != ""
    ensures Getenv(env, "PORT") != "" ==> port == Getenv(env, "PORT")
    ensures Getenv(env, "PORT") == "" ==> port == "8080"
  {
    var port := Getenv(env, "PORT");
    if port == "" then "8080" else port
  }

  /** Verbose logging: the -verbose or -v flag, or VERBOSE set to "true" or "1". */
  function Verbose(flag: bool, env: map<string, string>): (on: bool)
    ensures flag ==> on
    ensures Getenv(env, "VERBOSE") in {"true", "1"} ==> on
    ensures on ==> flag || Getenv(env, "VERBOSE") in {"true", "1"}
  {
    flag || Getenv(env, "VERBOSE") == "true" || Getenv(env, "VERBOSE") == "1"
  }

  /** The upload limit: MAX_UPLOAD_SIZE when it parses to a positive size, the default otherwise. */
  function UploadLimit(env: map<string, string>): (limit: int)
    ensures 0 < limit <= MaxInt64
  {
    var raw := Getenv(env, "MAX_UPLOAD_SIZE");
    if raw == "" then DefaultMaxUpload
    else
      ByteSizeInRange(raw);
      match ByteSize(raw)
      case Err(_) => DefaultMaxUpload
      case Ok(size) => if size > 0 then size else DefaultMaxUpload
  }

  /** The settings main derives before it starts serving. */
  datatype Settings = Settings(port: string, verbose: bool, maxUploadSize: int)

  function Startup(verboseFlag: bool, env: map<string, string>): Settings {
    Settings(ListenPort(env), Verbose(verboseFlag, env), UploadLimit(env))
  }

  /**
   * MAX_UPLOAD_SIZE replaces the default exactly when parseByteSize accepts
   * it; the positivity test after a successful parse never fails.
   */
  lemma UploadLimitChoice(env: map<string, string>)
    ensures var raw := Getenv(env, "MAX_UPLOAD_SIZE");
      && (ByteSize(raw).Ok? ==> UploadLimit(env) == ByteSize(raw).value)
      && (ByteSize(raw).Err? ==> UploadLimit(env) == DefaultMaxUpload)
  {
    var raw := Getenv(env, "MAX_UPLOAD_SIZE");
    if ByteSize(raw).Ok? {
      UploadLimitParsed(env);
    } else {
      UploadLimitFallback(env);
    }
  }

  lemma UploadLimitParsed(env: map<string, string>)
    requires ByteSize(Getenv(env, "MAX_UPLOAD_SIZE")).Ok?
    ensures UploadLimit(env) == ByteSize(Getenv(env, "MAX_UPLOAD_SIZE")).value
  {
    var raw := Getenv(env, "MAX_UPLOAD_SIZE");
    if raw == "" {
      ByteSizeBlank(raw);
    }
    ByteSizeInRange(raw);
  }

  lemma UploadLimitFallback(env: map<string, string>)
    requires ByteSize(Getenv(env, "MAX_UPLOAD_SIZE")).Err?
    ensures UploadLimit(env) == DefaultMaxUpload
  {
  }

  /** The log level of every conversion follows the start-up verbosity. */
  lemma StartupLogLevel(verboseFlag: bool, env: map<string, string>, input: string, f: Format, mask: int)
    ensures var args := ConvertArgs(Startup(verboseFlag, env).verbose, input, f, mask);
      args[2] == (if verboseFlag || Getenv(env, "VERBOSE") in {"true", "1"} then "info" else "error")
  {
  }
}
