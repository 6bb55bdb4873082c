/**
 * VideoAnalyzer: hand a video to Gemini, wait until the uploaded file has been
 * processed, ask for a JSON summary and decode the answer.
 *
 * The Gemini client and `json.loads` are oracles: the file the upload returns,
 * the answers to the status polls (each a file or the client's exception),
 * the response text and the decoder are parameters.
 */
module VideoAnalysis {
  import opened Wrappers
  import opened Text
  import opened Json

  /** VideoAnalyzer.CATEGORIES. */
  const Categories: seq<string> := ["저스트채팅", "게임", "스포츠", "요리", "미술", "음악", "교육"]
  const DefaultModel: string := "gemini-flash-lite-latest"
  const Fence: string := "```"
  /** The line of the prompt template that receives the category list. */
  const CategoryLineHead: string := "3. **category**: The single most relevant category selected from: ["

  datatype AnalyzerError =
    | MissingApiKey                    // ValueError raised by the constructor
    | ProcessingFailed(state: string)  // RuntimeError raised by upload_and_wait
    | InvalidJson                      // ValueError raised by parse_response
    | FileNotFound(path: string)       // FileNotFoundError of analyze_video_from_local
    | RemoteError                      // an exception of the Gemini or S3 client

  /** The configuration a VideoAnalyzer keeps. */
  datatype Analyzer = Analyzer(apiKey: string, modelName: string)

  /**
   * `VideoAnalyzer(api_key, model_name)`: the key is the argument, else the
   * GEMINI_API_KEY environment variable; with neither the constructor raises.
   */
  function NewAnalyzer(apiKey: Option<string>, envKey: Option<string>, modelName: Option<string>)
    : (r: Result<Analyzer, AnalyzerError>)
    ensures r.Err? <==> !Truthy(apiKey) && !Truthy(envKey)
    ensures r.Err? ==> r.error == MissingApiKey
    ensures r.Ok? ==> r.value.apiKey != ""
    ensures r.Ok? && Truthy(apiKey) ==> r.value.apiKey == apiKey.value
    ensures r.Ok? && !Truthy(apiKey) ==> r.value.apiKey == envKey.value
    ensures r.Ok? ==> r.value.modelName == if Truthy(modelName) then modelName.value else DefaultModel
  {
    var key := if Truthy(apiKey) then apiKey else envKey;
    if !Truthy(key) then Err(MissingApiKey)
    else Ok(Analyzer(key.value, if Truthy(modelName) then modelName.value else DefaultModel))
  }

  // ---------------------------------------------------------------------------
  // Uploading and waiting
  // ---------------------------------------------------------------------------

  /** A Gemini file as the client reports it: its name and the name of its state. */
  datatype RemoteFile = RemoteFile(name: string, stateName: string)

  /** What `client.files.upload` or `client.files.get` gives: the file, or the client's exception. */
  type Answer = Result<RemoteFile, AnalyzerError>

  predicate Processing(f: RemoteFile) {
    f.stateName == "PROCESSING"
  }

  /** An answer that keeps the loop polling: a file still PROCESSING. */
  predicate Waiting(a: Answer) {
    a.Ok? && Processing(a.value)
  }

  /**
   * The upload eventually stops waiting: among the upload's answer and the
   * answers to the polls there is one that is not a file still processing.
   * (Otherwise the source polls forever.)
   */
  predicate Settles(uploaded: Answer, polls: seq<Answer>) {
    exists j :: 0 <= j <= |polls| && !Waiting(([uploaded] + polls)[j])
  }

  /** The first of the upload's answer and the poll answers that ends the wait. */
  function Settle(uploaded: Answer, polls: seq<Answer>): (f: Answer)
    requires Settles(uploaded, polls)
    ensures !Waiting(f)
    decreases |polls|
  {
    if !Waiting(uploaded) then uploaded
    else
      var j :| 0 <= j <= |polls| && !Waiting(([uploaded] + polls)[j]);
      assert j > 0 && ([polls[0]] + polls[1..])[j - 1] == polls[j - 1];
      assert Settles(polls[0], polls[1..]);
      Settle(polls[0], polls[1..])
  }

  /** A file still processing settles as the answers to the remaining polls do. */
  lemma SettleStep(f: Answer, polls: seq<Answer>)
    requires Waiting(f) && Settles(f, polls)
    ensures polls != [] && Settles(polls[0], polls[1..])
    ensures Settle(f, polls) == Settle(polls[0], polls[1..])
  {
    var j :| 0 <= j <= |polls| && !Waiting(([f] + polls)[j]);
    assert j > 0 && ([polls[0]] + polls[1..])[j - 1] == polls[j - 1];
  }

  /** What upload_and_wait returns or raises once the wait has ended. */
  function UploadOutcome(uploaded: Answer, polls: seq<Answer>): Result<RemoteFile, AnalyzerError>
    requires Settles(uploaded, polls)
  {
    match Settle(uploaded, polls)
    case Err(e) => Err(e)
    case Ok(f) => if f.stateName == "ACTIVE" then Ok(f) else Err(ProcessingFailed(f.stateName))
  }

  /**
   * upload_and_wait: poll while the file is PROCESSING; return it only when it
   * ended ACTIVE, raise for any other final state. An exception of the upload
   * or of a poll propagates. `pollsMade` polls are spent: everything seen
   * before was a file still processing.
   */
  method UploadAndWait(uploaded: Answer, polls: seq<Answer>)
    returns (r: Result<RemoteFile, AnalyzerError>, pollsMade: nat)
    requires Settles(uploaded, polls)
    ensures pollsMade <= |polls|
    ensures forall i :: 0 <= i < pollsMade ==> Waiting(([uploaded] + polls)[i])
    ensures ([uploaded] + polls)[pollsMade] == Settle(uploaded, polls)
    ensures r == UploadOutcome(uploaded, polls)
    ensures r.Ok? ==> r.value.stateName == "ACTIVE"
    ensures ([uploaded] + polls)[pollsMade].Err? ==> r == Err(([uploaded] + polls)[pollsMade].error)
  {
    var current := uploaded;
    pollsMade := 0;
    ghost var seen := [uploaded] + polls;
    while current.Ok? && current.value.stateName == "PROCESSING"
      invariant pollsMade <= |polls|
      invariant current == seen[pollsMade]
      invariant forall i :: 0 <= i < pollsMade ==> Waiting(seen[i])
      invariant Settles(current, polls[pollsMade..])
      invariant Settle(current, polls[pollsMade..]) == Settle(uploaded, polls)
      decreases |polls| - pollsMade
    {
      SettleStep(current, polls[pollsMade..]);
      assert polls[pollsMade..][0] == polls[pollsMade] && polls[pollsMade..][1..] == polls[pollsMade + 1..];
      current := polls[pollsMade];
      pollsMade := pollsMade + 1;
    }
    if current.Err? {
      return Err(current.error), pollsMade;
    }
    if current.value.stateName != "ACTIVE" {
      return Err(ProcessingFailed(current.value.stateName)), pollsMade;
    }
    r := Ok(current.value);
  }

  // ---------------------------------------------------------------------------
  // Parsing the response
  // ---------------------------------------------------------------------------

  /** Python's `lines[1:-1]`. */
  function Inner(lines: seq<string>): seq<string> {
    if |lines| < 2 then [] else lines[1..|lines| - 1]
  }

  /** The text parse_response hands to the decoder. */
  function CleanResponse(text: string): string {
    var stripped := Trim(Python, text);
    if StartsWith(stripped, Fence) then Join(Inner(Split(stripped, '\n')), "\n") else stripped
  }

  /** parse_response: decode the cleaned text; a decoder failure becomes InvalidJson. */
  function ParseResponse(text: string, loads: string -> Option<Json>): (r: Result<Json, AnalyzerError>)
    ensures r.Ok? <==> loads(CleanResponse(text)).Some?
    ensures r.Err? ==> r.error == InvalidJson
  {
    match loads(CleanResponse(text))
    case None => Err(InvalidJson)
    case Some(v) => Ok(v)
  }

  /**
   * A fenced answer loses exactly its fence: the opening line (``` and an
   * optional language tag) and the closing ``` line.
   */
  lemma FencedResponse(header: string, body: string)
    requires StartsWith(header, Fence) && '\n' !in header
    ensures CleanResponse(header + "\n" + body + "\n" + Fence) == body
  {
    var t := header + "\n" + body + "\n" + Fence;
    assert t[0] == header[0] == '`';
    assert t[|t| - 1] == '`';
    TrimNoOp(Python, t);
    assert t[..|Fence|] == header[..|Fence|];
    assert t == header + ['\n'] + (body + ['\n'] + Fence);
    SplitAfterFirst(header, body + ['\n'] + Fence, '\n');
    SplitBeforeLast(body, Fence, '\n');
    var lines := [header] + (Split(body, '\n') + [Fence]);
    assert Inner(lines) == Split(body, '\n');
    JoinSplit(body, '\n');
  }

  /**
   * An answer that does not start with ``` once stripped reaches the decoder
   * stripped and otherwise unchanged, and cleaning it again changes nothing.
   */
  lemma UnfencedResponse(text: string)
    requires !StartsWith(Trim(Python, text), Fence)
    ensures CleanResponse(text) == Trim(Python, text)
    ensures CleanResponse(CleanResponse(text)) == CleanResponse(text)
  {
    TrimIdempotent(text);
  }

  lemma TrimIdempotent(text: string)
    ensures Trim(Python, Trim(Python, text)) == Trim(Python, text)
  {
    TrimIsCore(Python, text);
    TrimNoOp(Python, Trim(Python, text));
  }

  /** The category line of the prompt, `{categories}` filled in with `', '.join(CATEGORIES)`. */
  function CategoryLine(): string {
    CategoryLineHead + Join(Categories, ", ") + "]"
  }

  /** The prompt offers every category. */
  lemma CategoryLineNamesAll()
    ensures forall c :: c in Categories ==> IsSubstring(c, CategoryLine())
  {
    forall c | c in Categories ensures IsSubstring(c, CategoryLine()) {
      var i :| 0 <= i < |Categories| && Categories[i] == c;
      JoinContains(Categories, ", ", i);
      SubstringInContext(c, Join(Categories, ", "), CategoryLineHead, "]");
    }
  }

  // ---------------------------------------------------------------------------
  // Whole analyses
  // ---------------------------------------------------------------------------

  /** analyze_video_with_gemini: the model's answer (or the client's exception), parsed. */
  function AnalyzeWithGemini(response: Result<string, AnalyzerError>, loads: string -> Option<Json>)
    : Result<Json, AnalyzerError>
  {
    match response
    case Err(e) => Err(e)
    case Ok(text) => ParseResponse(text, loads)
  }

  /**
   * analyze_video_from_local: a missing file raises before anything is
   * uploaded; otherwise the file is uploaded, waited for and analysed.
   * `uploads` lists what was sent to Gemini.
   */
  method AnalyzeFromLocal(videoPath: string, fileExists: bool, uploaded: Answer,
                          polls: seq<Answer>, response: Result<string, AnalyzerError>,
                          loads: string -> Option<Json>)
    returns (r: Result<Json, AnalyzerError>, uploads: seq<string>)
    requires fileExists ==> Settles(uploaded, polls)
    ensures !fileExists ==> r == Err(FileNotFound(videoPath)) && uploads == []
    ensures fileExists ==> uploads == [videoPath]
    ensures fileExists ==> r == match UploadOutcome(uploaded, polls)
                                case Err(e) => Err(e)
                                case Ok(_) => AnalyzeWithGemini(response, loads)
  {
    if !fileExists {
      return Err(FileNotFound(videoPath)), [];
    }
    uploads := [videoPath];
    var active, _ := UploadAndWait(uploaded, polls);
    if active.Err? {
      return Err(active.error), uploads;
    }
    r := AnalyzeWithGemini(response, loads);
  }

  /**
   * analyze_video_from_s3: a presigned URL (or the connector's exception) is
   * uploaded, waited for and analysed.
   */
  method AnalyzeFromS3(presignedUrl: Result<string, AnalyzerError>, uploaded: Answer,
                       polls: seq<Answer>, response: Result<string, AnalyzerError>,
                       loads: string -> Option<Json>)
    returns (r: Result<Json, AnalyzerError>, uploads: seq<string>)
    requires presignedUrl.Ok? ==> Settles(uploaded, polls)
    ensures presignedUrl.Err? ==> r == Err(presignedUrl.error) && uploads == []
    ensures presignedUrl.Ok? ==> uploads == [presignedUrl.value]
    ensures presignedUrl.Ok? ==> r == match UploadOutcome(uploaded, polls)
                                      case Err(e) => Err(e)
                                      case Ok(_) => AnalyzeWithGemini(response, loads)
  {
    if presignedUrl.Err? {
      return Err(presignedUrl.error), [];
    }
    uploads := [presignedUrl.value];
    var active, _ := UploadAndWait(uploaded, polls);
    if active.Err? {
      return Err(active.error), uploads;
    }
    r := AnalyzeWithGemini(response, loads);
  }
}
