/**
 * run_videoAnalyzer.py: the command line around VideoAnalyzer. It analyses a
 * local file or an S3 object and appends the result to an accumulating JSON
 * log, whose newest entry the back end reads.
 *
 * The log file is a `ResultFile` value (absent, malformed or parsed) passed in
 * and returned; the clock's timestamp, the environment's API key, the S3
 * analysis and a keyboard interrupt are parameters.
 */
module AnalyzerCli {
  import opened Wrappers
  import opened Text
  import opened Json
  import opened PyAnalyze
  import opened VideoAnalysis

  const DefaultOutputPath: string := "./video_analysis_result.json"

  /** The Python exceptions save_result lets escape. */
  datatype SaveError =
    | NotIterable       // TypeError of `'analyses' in data` for a number, a boolean or None
    | NotSubscriptable  // TypeError of `data['analyses']` for a list or a string
    | NotAList          // AttributeError of `.append` on something that is not a list

  /** The log `save_result` starts from when it cannot use the file. */
  const EmptyLog: Json := JObj(map["analyses" := JArr([])])

  /** Python's `'analyses' in data` for whatever `json.load` returned. */
  function ContainsAnalyses(data: Json): Result<bool, SaveError> {
    match data
    case JObj(fields) => Ok("analyses" in fields)
    case JArr(items) => Ok(JStr("analyses") in items)
    case JStr(s) => Ok(IsSubstring("analyses", s))
    case _ => Err(NotIterable)
  }

  /** The entry save_result appends. */
  function Entry(timestamp: string, videoSource: Json, result: Json): Json {
    JObj(map["timestamp" := JStr(timestamp), "video_source" := videoSource, "analysis_result" := result])
  }

  /** The log as save_result rewrites it, or the exception it raises (the file is then left alone). */
  function AfterSave(file: ResultFile, entry: Json): Result<Json, SaveError> {
    var loaded :=
      if file.Parsed? then
        match ContainsAnalyses(file.root)
        case Err(e) => Err(e)
        case Ok(has) => Ok(if has then file.root else EmptyLog)
      else Ok(EmptyLog);
    match loaded
    case Err(e) => Err(e)
    case Ok(data) =>
      if !data.JObj? || "analyses" !in data.fields then Err(NotSubscriptable)
      else if !data.fields["analyses"].JArr? then Err(NotAList)
      else Ok(JObj(data.fields["analyses" := JArr(data.fields["analyses"].items + [entry])]))
  }

  /**
   * save_result: read the log (starting afresh when the file is absent,
   * malformed or has no "analyses"), append one entry and write it back.
   */
  method SaveResult(result: Json, file: ResultFile, videoSource: Json, timestamp: string)
    returns (r: Result<ResultFile, SaveError>)
    ensures match AfterSave(file, Entry(timestamp, videoSource, result))
            case Err(e) => r == Err(e)
            case Ok(data) => r == Ok(Parsed(data))
  {
    var data: Json;
    if file.Parsed? {
      var has := ContainsAnalyses(file.root);
      if has.Err? {
        return Err(has.error);
      }
      data := if has.value then file.root else EmptyLog;
    } else {
      data := EmptyLog;
    }
    var newAnalysis := Entry(timestamp, videoSource, result);
    if !data.JObj? || "analyses" !in data.fields {
      return Err(NotSubscriptable);
    }
    var analyses := data.fields["analyses"];
    if !analyses.JArr? {
      return Err(NotAList);
    }
    data := JObj(data.fields["analyses" := JArr(analyses.items + [newAnalysis])]);
    r := Ok(Parsed(data));
  }

  /** An absent or malformed file, or one without "analyses", gives a log holding only the new entry. */
  lemma SaveStartsFresh(file: ResultFile, entry: Json)
    requires || file.Absent? || file.Malformed?
             || (file.Parsed? && file.root.JObj? && "analyses" !in file.root.fields)
    ensures AfterSave(file, entry) == Ok(JObj(map["analyses" := JArr([entry])]))
  {
    assert [] + [entry] == [entry];
    assert EmptyLog.fields["analyses" := JArr([entry])] == map["analyses" := JArr([entry])];
  }

  /**
   * A log with an "analyses" list keeps its entries and its other keys and
   * gains exactly one entry, at the end.
   */
  lemma SaveAppends(fields: map<string, Json>, entry: Json)
    requires "analyses" in fields && fields["analyses"].JArr?
    ensures var r := AfterSave(Parsed(JObj(fields)), entry);
            var old_ := fields["analyses"].items;
            && r.Ok? && r.value.JObj? && "analyses" in r.value.fields
            && r.value.fields["analyses"] == JArr(old_ + [entry])
            && |r.value.fields["analyses"].items| == |old_| + 1
            && r.value.fields.Keys == fields.Keys
            && (forall k :: k in fields && k != "analyses" ==> r.value.fields[k] == fields[k])
  {
  }

  /**
   * save_result fails exactly on a log it cannot index or append to: a bare
   * number, boolean or null; a list or string that mentions "analyses"; or an
   * object whose "analyses" is not a list.
   */
  lemma SaveFailsIff(file: ResultFile, entry: Json)
    ensures AfterSave(file, entry).Err? <==>
              && file.Parsed?
              && match file.root
                 case JObj(fields) => "analyses" in fields && !fields["analyses"].JArr?
                 case JArr(items) => JStr("analyses") in items
                 case JStr(s) => IsSubstring("analyses", s)
                 case _ => true
  {
  }

  /**
   * The round trip with the back end: after a successful save, the newest
   * entry the back end reads is the one appended, its analysis_result is the
   * result, and runHighlightVideo's summary is the result's summary text.
   */
  lemma SaveThenReadLast(file: ResultFile, timestamp: string, videoSource: Json, result: Json)
    requires AfterSave(file, Entry(timestamp, videoSource, result)).Ok?
    ensures var saved := Parsed(AfterSave(file, Entry(timestamp, videoSource, result)).value);
            && LatestAnalysis(saved) == Ok(Present(Entry(timestamp, videoSource, result)))
            && Path(Present(Entry(timestamp, videoSource, result)), "analysis_result") == Present(result)
            && SummaryOf(Present(Entry(timestamp, videoSource, result)))
               == AsText(Path(Present(result), "summary"))
  {
    var entry := Entry(timestamp, videoSource, result);
    var data := AfterSave(file, entry).value;
    var xs := data.fields["analyses"].items;
    assert xs[|xs| - 1] == entry;
  }

  // ---------------------------------------------------------------------------
  // The command line
  // ---------------------------------------------------------------------------

  /** The parsed arguments; absent options are None. */
  datatype CliArgs = CliArgs(file: Option<string>, s3: bool, bucket: Option<string>, key: Option<string>,
                             model: Option<string>, output: string, quiet: bool)

  function S3Uri(bucket: string, key: string): string {
    "s3://" + bucket + "/" + key
  }

  /** video_source of an S3 object. */
  function S3Source(bucket: string, key: string): Json {
    JObj(map["type" := JStr("s3"), "bucket" := JStr(bucket), "key" := JStr(key),
             "s3_uri" := JStr(S3Uri(bucket, key))])
  }

  /** The S3 URI names the bucket and the key, and distinct (bucket, key) pairs with '/'-free buckets get distinct URIs. */
  lemma S3UriInjective(b1: string, k1: string, b2: string, k2: string)
    requires '/' !in b1 && '/' !in b2
    requires S3Uri(b1, k1) == S3Uri(b2, k2)
    ensures b1 == b2 && k1 == k2
  {
    var u := S3Uri(b1, k1);
    var p := "s3://";
    assert u == p + (b1 + ['/'] + k1) && u == p + (b2 + ['/'] + k2);
    assert u[|p|..] == b1 + ['/'] + k1 == b2 + ['/'] + k2;
    SplitAfterFirst(b1, k1, '/');
    SplitAfterFirst(b2, k2, '/');
    JoinSplit(k1, '/');
    JoinSplit(k2, '/');
    assert Split(k1, '/') == Split(b1 + ['/'] + k1, '/')[1..];
  }

  /** print_result reads summary, iterates over tags and reads category; anything else raises. */
  predicate Printable(result: Json) {
    && result.JObj?
    && "summary" in result.fields && "tags" in result.fields && "category" in result.fields
    && (result.fields["tags"].JArr? || result.fields["tags"].JStr? || result.fields["tags"].JObj?)
  }

  /** argparse's required, mutually exclusive `--file` / `--s3` group is satisfied. */
  predicate OneSource(args: CliArgs) {
    args.file.Some? != args.s3
  }

  /**
   * main: the exit code and the log afterwards. Usage errors exit with 2
   * before anything runs. A truthy `--file` goes to `analyzer.analyze_video`,
   * a method VideoAnalyzer does not have, so that path always fails before its
   * local `video_source` is built or anything is saved. Otherwise
   * the S3 object is analysed (a missing or empty bucket or key is refused
   * when the presigned URL is requested), the result saved whatever `--quiet` says, and
   * printed unless `--quiet`. A keyboard interrupt exits with 130, any other
   * exception with 1.
   */
  method RunCli(args: CliArgs, envKey: Option<string>, interrupted: bool,
                s3Analysis: Result<Json, AnalyzerError>, log: ResultFile, timestamp: string)
    returns (code: int, logAfter: ResultFile)
    ensures code in {0, 1, 2, 130}
    ensures !OneSource(args) || (args.s3 && (!Truthy(args.bucket) || !Truthy(args.key))) ==>
              code == 2 && logAfter == log
    ensures OneSource(args) && Truthy(args.file) ==> code == (if interrupted then 130 else 1) && logAfter == log
    ensures OneSource(args) && !(args.s3 && (!Truthy(args.bucket) || !Truthy(args.key))) && interrupted ==>
              code == 130 && logAfter == log
    ensures && OneSource(args) && !(args.s3 && (!Truthy(args.bucket) || !Truthy(args.key))) && !interrupted
            && !Truthy(args.file)
            && (NewAnalyzer(None, envKey, args.model).Err? || !Truthy(args.bucket) || !Truthy(args.key) || s3Analysis.Err?)
            ==> code == 1 && logAfter == log
    ensures && OneSource(args) && !interrupted && !Truthy(args.file)
            && NewAnalyzer(None, envKey, args.model).Ok? && Truthy(args.bucket) && Truthy(args.key) && s3Analysis.Ok?
            && AfterSave(log, Entry(timestamp, S3Source(args.bucket.value, args.key.value), s3Analysis.value)).Err?
            ==> code == 1 && logAfter == log
    ensures code == 0 ==>
              && !Truthy(args.file) && s3Analysis.Ok? && Truthy(args.bucket) && Truthy(args.key)
              && var source := S3Source(args.bucket.value, args.key.value);
                 AfterSave(log, Entry(timestamp, source, s3Analysis.value)).Ok?
                 && logAfter == Parsed(AfterSave(log, Entry(timestamp, source, s3Analysis.value)).value)
    ensures && OneSource(args) && args.s3 && Truthy(args.bucket) && Truthy(args.key) && !interrupted
            && NewAnalyzer(None, envKey, args.model).Ok? && s3Analysis.Ok?
            && AfterSave(log, Entry(timestamp, S3Source(args.bucket.value, args.key.value), s3Analysis.value)).Ok?
            ==> && logAfter == Parsed(AfterSave(log, Entry(timestamp, S3Source(args.bucket.value, args.key.value),
                                                         s3Analysis.value)).value)
                && code == (if args.quiet || Printable(s3Analysis.value) then 0 else 1)
  {
    if !OneSource(args) {
      return 2, log;
    }
    if args.s3 && (!Truthy(args.bucket) || !Truthy(args.key)) {
      return 2, log;
    }
    if interrupted {
      return 130, log;
    }
    if Truthy(args.file) {
      // analyze_local_video: the constructor may raise, and `analyze_video` always does
      return 1, log;
    }
    var analyzer := NewAnalyzer(None, envKey, args.model);
    if analyzer.Err? {
      return 1, log;
    }
    if !Truthy(args.bucket) || !Truthy(args.key) {
      // the presigned-URL request refuses an empty bucket or key
      return 1, log;
    }
    if s3Analysis.Err? {
      return 1, log;
    }
    var videoSource := S3Source(args.bucket.value, args.key.value);
    var saved := SaveResult(s3Analysis.value, log, videoSource, timestamp);
    if saved.Err? {
      return 1, log;
    }
    logAfter := saved.value;
    if !args.quiet && !Printable(s3Analysis.value) {
      return 1, logAfter;
    }
    code := 0;
  }
}
