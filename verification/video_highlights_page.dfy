/**
 * The video highlights page (front-end/src/app/video-highlights/page.tsx): the
 * user picks or drops a video, the page posts it to the back end's analysis
 * endpoint, and lists the highlight segments that come back.
 *
 * `HighlightsPage` holds the component's state. The build-time backend URL,
 * the browser's saved channel id and what the POST comes to are inputs; the
 * request the page sends is an output.
 */
module VideoHighlightsPage {
  import opened Wrappers
  import opened Text

  /** A highlight as the page displays it. */
  datatype HighlightData = HighlightData(id: int, startTime: string, endTime: string, positiveRate: real,
                                         viewerIncrease: int, summary: string, videoUrl: Option<string>)

  /** A file the browser hands over; only its identity matters here. */
  datatype VideoFile = VideoFile(name: string, size: nat)

  /** One part of the multipart form. */
  datatype FormPart = FilePart(field: string, file: VideoFile) | TextPart(field: string, text: string)

  /** The POST the page sends. */
  datatype Request = Request(url: string, form: seq<FormPart>)

  /** How the POST ends. */
  datatype FetchOutcome =
    | NetworkFailure                               // fetch rejects
    | HttpError(status: int)                       // res.ok is false
    | BadJson                                      // res.json() rejects
    | Delivered(highlights: Option<seq<HighlightData>>)  // the body; None when it has no `highlights`

  const AnalyzePath: string := "/API/video/analyze"

  /** The form: the video, then the saved channel id when there is one. */
  function AnalysisForm(video: VideoFile, savedChannelId: Option<string>): seq<FormPart> {
    [FilePart("video", video)] + (if Truthy(savedChannelId) then [TextPart("channelId", savedChannelId.value)] else [])
  }

  /**
   * The form always starts with the video and carries a "channelId" part
   * exactly when a non-empty channel id was saved, holding that id.
   */
  lemma AnalysisFormParts(video: VideoFile, savedChannelId: Option<string>)
    ensures var f := AnalysisForm(video, savedChannelId);
            && f[0] == FilePart("video", video)
            && ((exists i :: 0 <= i < |f| && f[i].TextPart? && f[i].field == "channelId") <==> Truthy(savedChannelId))
            && (forall i :: 0 <= i < |f| && f[i].TextPart? ==> f[i] == TextPart("channelId", savedChannelId.value))
  {
    var f := AnalysisForm(video, savedChannelId);
    if Truthy(savedChannelId) {
      assert f[1].TextPart? && f[1].field == "channelId";
    }
  }

  /** `data.highlights || []`. */
  function Received(outcome: FetchOutcome): seq<HighlightData>
    requires outcome.Delivered?
  {
    if outcome.highlights.Some? then outcome.highlights.value else []
  }

  class HighlightsPage {
    var uploadFile: Option<VideoFile>
    var isAnalyzing: bool
    var highlights: seq<HighlightData>
    var isDragOver: bool

    constructor()
      ensures uploadFile.None? && !isAnalyzing && highlights == [] && !isDragOver
    {
      uploadFile := None;
      isAnalyzing := false;
      highlights := [];
      isDragOver := false;
    }

    /** handleFileChange: the first chosen file, if any, becomes the upload; otherwise nothing changes. */
    method HandleFileChange(files: Option<seq<VideoFile>>)
      modifies this`uploadFile
      ensures uploadFile == (if files.Some? && files.value != [] then Some(files.value[0]) else old(uploadFile))
    {
      if files.Some? && |files.value| > 0 {
        uploadFile := Some(files.value[0]);
      }
    }

    /** handleDrop: the drag highlight goes away, and the first dropped file, if any, becomes the upload. */
    method HandleDrop(files: Option<seq<VideoFile>>)
      modifies this`uploadFile, this`isDragOver
      ensures !isDragOver
      ensures uploadFile == (if files.Some? && files.value != [] then Some(files.value[0]) else old(uploadFile))
    {
      isDragOver := false;
      if files.Some? && |files.value| > 0 {
        uploadFile := Some(files.value[0]);
      }
    }

    /** handleDragOver. */
    method HandleDragOver()
      modifies this`isDragOver
      ensures isDragOver
    {
      isDragOver := true;
    }

    /** handleDragLeave. */
    method HandleDragLeave()
      modifies this`isDragOver
      ensures !isDragOver
    {
      isDragOver := false;
    }

    /**
     * processVideoAnalysis. Without a file it does nothing. Otherwise it
     * raises isAnalyzing and empties the list (the state `stateAtSend`
     * records while the request is outstanding), sends the video to the
     * backend URL when one is configured, and lists the highlights of a
     * delivered answer; any failure alerts and keeps the list empty. Every
     * run with a file ends with isAnalyzing lowered.
     */
    method ProcessVideoAnalysis(backendUrl: Option<string>, savedChannelId: Option<string>, outcome: FetchOutcome)
      returns (sent: Option<Request>, alerted: bool, ghost stateAtSend: (bool, seq<HighlightData>))
      modifies this`isAnalyzing, this`highlights
      ensures uploadFile.None? ==>
                && isAnalyzing == old(isAnalyzing) && highlights == old(highlights) && sent.None? && !alerted
      ensures uploadFile.Some? ==> !isAnalyzing
      ensures uploadFile.Some? && !Truthy(backendUrl) ==> sent.None? && alerted && highlights == []
      ensures uploadFile.Some? && Truthy(backendUrl) ==>
                && sent == Some(Request(backendUrl.value + AnalyzePath, AnalysisForm(uploadFile.value, savedChannelId)))
                && stateAtSend == (true, [])
                && alerted == !outcome.Delivered?
                && highlights == (if outcome.Delivered? then Received(outcome) else [])
    {
      sent, alerted, stateAtSend := None, false, (isAnalyzing, highlights);
      if uploadFile.None? {
        return;
      }
      isAnalyzing := true;
      highlights := [];
      if !Truthy(backendUrl) {
        alerted := true;
      } else {
        var form := [FilePart("video", uploadFile.value)];
        if Truthy(savedChannelId) {
          form := form + [TextPart("channelId", savedChannelId.value)];
        }
        assert form == AnalysisForm(uploadFile.value, savedChannelId);
        sent := Some(Request(backendUrl.value + AnalyzePath, form));
        stateAtSend := (isAnalyzing, highlights);
        match outcome
        case Delivered(data) =>
          highlights := if data.Some? then data.value else [];
        case _ =>
          alerted := true;
      }
      isAnalyzing := false;
    }
  }
}
