/**
 * PyAnalyzeService: run one of the Python analysers as a subprocess and read the
 * newest entry of the JSON log it appends to.
 *
 * The subprocess is an oracle: its exit code and the result file as the back end
 * finds it afterwards are inputs. The command line is an output.
 */
module PyAnalyze {
  import opened Wrappers
  import opened Text
  import opened TimeFormat
  import opened Json

  const PythonModulePath: string := "../python_modules"
  const TextAnalyzePath: string := "../python_modules/sentimentAnalyzer/main.py"
  const TextResultPath: string := "../python_modules/sentiment_result.json"
  const VideoAnalyzePath: string := "../python_modules/videoAnalyzer/run_videoAnalyzer.py"
  const VideoResultPath: string := "../python_modules/video_analysis_result.json"

  /** The Sentiment entity as runSentimentAnalyzer fills it in. */
  datatype Sentiment = Sentiment(videoId: string, totalMessages: int, positive: real,
                                 negative: real, neutral: real, timeline: string, endTime: string)

  /** What `mapper.readTree(file)` finds: it throws for an absent or malformed file. */
  datatype ResultFile = Absent | Malformed | Parsed(root: Json)

  /** The exceptions the run methods let escape. */
  datatype Failure =
    | ScriptFailed(exitCode: int)   // "Python script failed. exit code=..."
    | ResultUnreadable              // readTree threw
    | NoAnalyses                    // `analyses.get(size - 1)` was null: NullPointerException

  /** PyAnalyzeService.formatTime, the second copy of the formatter. */
  function PyFormatTime(ms: int): string {
    Clock([JavaDiv(ms, 3600000), JavaDiv(JavaRem(ms, 3600000), 60000), JavaDiv(JavaRem(ms, 60000), 1000)])
  }

  /** Both copies of formatTime agree on every input, negative ones included. */
  lemma PyFormatTimeAgrees(ms: int)
    ensures PyFormatTime(ms) == FormatTime(ms)
  {
  }

  /** The `--where` argument of the sentiment analyser. */
  function WhereClause(videoId: string, analyzeTime: string): string {
    "video_id = '" + videoId + "' AND published_at >= '" + analyzeTime + "'"
  }

  /** The `cmd` list of runSentimentAnalyzer, built one `add` at a time. */
  method SentimentCommand(videoId: string, analyzeTime: string) returns (cmd: seq<string>)
    ensures cmd == ["uv", "run", "python", TextAnalyzePath, "--where", WhereClause(videoId, analyzeTime)]
  {
    cmd := [];
    cmd := cmd + ["uv"];
    cmd := cmd + ["run"];
    cmd := cmd + ["python"];
    cmd := cmd + [TextAnalyzePath];
    cmd := cmd + ["--where"];
    var where := WhereClause(videoId, analyzeTime);
    cmd := cmd + [where];
  }

  /** The `cmd` list of runHighlightVideo. */
  method HighlightCommand(videoPath: string) returns (cmd: seq<string>)
    ensures cmd == ["uv", "run", "python", VideoAnalyzePath, "--file", videoPath]
  {
    cmd := [];
    cmd := cmd + ["uv"];
    cmd := cmd + ["run"];
    cmd := cmd + ["python"];
    cmd := cmd + [VideoAnalyzePath];
    cmd := cmd + ["--file"];
    cmd := cmd + [videoPath];
  }

  /** `root.path("analyses")` and its last element, or the exception reading it raises. */
  function LatestAnalysis(file: ResultFile): (r: Result<Node, Failure>)
    ensures r.Ok? <==> file.Parsed? && file.root.JObj? && "analyses" in file.root.fields
                       && file.root.fields["analyses"].JArr? && file.root.fields["analyses"].items != []
    ensures r.Ok? ==> var xs := file.root.fields["analyses"].items; r.value == Present(xs[|xs| - 1])
    ensures file.Absent? || file.Malformed? ==> r == Err(ResultUnreadable)
  {
    match file
    case Absent => Err(ResultUnreadable)
    case Malformed => Err(ResultUnreadable)
    case Parsed(root) =>
      var analyses := Path(Present(root), "analyses");
      LastOfArray(analyses);
      match Last(analyses)
      case None => Err(NoAnalyses)
      case Some(latest) => Ok(latest)
  }

  /** The Sentiment built from the newest entry. */
  function SentimentOf(videoId: string, collectStartTime: int, latest: Node): Sentiment {
    var summary := Path(latest, "sentiment_summary");
    Sentiment(videoId, AsInt(Path(latest, "total_messages")),
              AsDouble(Path(summary, "positive")), AsDouble(Path(summary, "negative")),
              AsDouble(Path(summary, "neutral")),
              PyFormatTime(collectStartTime), PyFormatTime(collectStartTime + 60000))
  }

  /**
   * runSentimentAnalyzer: the command it starts and the Sentiment it returns. A
   * non-zero exit code raises before the result file is looked at.
   */
  method RunSentimentAnalyzer(videoId: string, collectStartTime: int, exitCode: int, file: ResultFile)
    returns (cmd: seq<string>, r: Result<Sentiment, Failure>)
    ensures cmd == ["uv", "run", "python", TextAnalyzePath, "--where",
                    WhereClause(videoId, FormatTime(collectStartTime))]
    ensures exitCode != 0 ==> r == Err(ScriptFailed(exitCode))
    ensures exitCode == 0 ==> match LatestAnalysis(file)
                              case Err(e) => r == Err(e)
                              case Ok(latest) => r == Ok(SentimentOf(videoId, collectStartTime, latest))
  {
    var analyzeTime := PyFormatTime(collectStartTime);
    var endTime := PyFormatTime(collectStartTime + 60000);
    PyFormatTimeAgrees(collectStartTime);
    cmd := SentimentCommand(videoId, analyzeTime);
    if exitCode != 0 {
      return cmd, Err(ScriptFailed(exitCode));
    }
    match LatestAnalysis(file)
    case Err(e) =>
      r := Err(e);
    case Ok(latest) =>
      var sentiment := Path(latest, "sentiment_summary");
      var s := Sentiment(videoId, AsInt(Path(latest, "total_messages")),
                         AsDouble(Path(sentiment, "positive")), AsDouble(Path(sentiment, "negative")),
                         AsDouble(Path(sentiment, "neutral")), analyzeTime, endTime);
      r := Ok(s);
  }

  /**
   * What the Sentiment says about its entry and its window: the video id is the
   * argument, the counts are the entry's, and the window is exactly one minute
   * of clock time starting at the collection start.
   */
  lemma SentimentOfFields(videoId: string, collectStartTime: int, entry: map<string, Json>,
                          total: int, positive: real, negative: real, neutral: real)
    requires 0 <= collectStartTime && collectStartTime + 60000 < HundredHours
    requires "total_messages" in entry && entry["total_messages"] == JInt(total)
    requires "sentiment_summary" in entry
    requires entry["sentiment_summary"] == JObj(map["positive" := JFloat(positive),
                                                    "negative" := JFloat(negative),
                                                    "neutral" := JFloat(neutral)])
    ensures var s := SentimentOf(videoId, collectStartTime, Present(JObj(entry)));
            && s.videoId == videoId && s.totalMessages == total
            && s.positive == positive && s.negative == negative && s.neutral == neutral
            && IsClock(s.timeline) && IsClock(s.endTime)
            && s.timeline == FormatTime(collectStartTime)
            && s.endTime == FormatTime(collectStartTime + 60000)
            && LexLe(s.timeline, s.endTime) && s.timeline != s.endTime
  {
    PyFormatTimeAgrees(collectStartTime);
    PyFormatTimeAgrees(collectStartTime + 60000);
    FormatTimeShape(collectStartTime);
    FormatTimeShape(collectStartTime + 60000);
    OneMinuteWindow(collectStartTime);
  }

  /** The summary of the newest entry's analysis result, as `asText` renders it. */
  function SummaryOf(latest: Node): string {
    AsText(Path(Path(latest, "analysis_result"), "summary"))
  }

  /** runHighlightVideo: the command it starts and the summary text it returns. */
  method RunHighlightVideo(videoPath: string, exitCode: int, file: ResultFile)
    returns (cmd: seq<string>, r: Result<string, Failure>)
    ensures cmd == ["uv", "run", "python", VideoAnalyzePath, "--file", videoPath]
    ensures exitCode != 0 ==> r == Err(ScriptFailed(exitCode))
    ensures exitCode == 0 ==> match LatestAnalysis(file)
                              case Err(e) => r == Err(e)
                              case Ok(latest) => r == Ok(SummaryOf(latest))
  {
    cmd := HighlightCommand(videoPath);
    if exitCode != 0 {
      return cmd, Err(ScriptFailed(exitCode));
    }
    match LatestAnalysis(file)
    case Err(e) =>
      r := Err(e);
    case Ok(latest) =>
      var highlight := Path(Path(latest, "analysis_result"), "summary");
      r := Ok(AsText(highlight));
  }
}
