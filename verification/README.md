# youtuber-helper, modelled in Dafny

youtuber-helper watches a streamer's live broadcast. Its parts are:

- **Chat collection.** The Spring back end (`YouTubeService`) looks up the live chat of a video. It pulls a page of messages and stores each one unless the same author already posted the same text within a minute of it. The store is keyed by `HH:MM:SS` offsets from the stream start, made by `formatTime`.
- **Sentiment and highlights.** `PyAnalyzeService` runs the Python sentiment analyser on each minute and reads its newest result back. `HighlightService` then:
  - picks highlight minutes from the sentiment samples: a positive share other than 100 and more than five messages, with the message increase rate against the previous minute;
  - cuts each highlight out of the uploaded video with ffmpeg;
  - asks the video analyser to summarise each clip. The analyser is run with `--file`, a path of its CLI that always fails, so as the code stands no clip job stores a url or a summary;
  - lists the highlights as DTOs.
- **Video analyser.** The Python module (`video_analyzer.py`, driven by `run_videoAnalyzer.py`) uploads a video to Gemini, waits until it is processed, and parses the model's JSON answer. The answer may be wrapped in a Markdown fence. The CLI appends the answer to a JSON log whose newest entry the back end reads.
- **Front end.** Two Next.js pages:
  - a live sentiment page that polls a channel's timeline and charts its newest sample;
  - an upload page that posts a video and lists the highlights returned.

Each modelled source file is one Dafny module, plus four shared modules:

- `Wrappers`: `Option` and `Result`.
- `Text`: SQL text order, Python and JavaScript trimming, split/join, truthiness of optional strings.
- `TimeFormat`: Java's `formatTime`, with truncating `/` and `%`.
- `Json`: JSON values and Jackson's tree reads of them (`path`, `get`, `asText`, `asInt`, `asDouble`), numeric text in string nodes excepted.

State that the source updates in place is modelled as classes:

- the chat repository and `liveStartTime` of `YouTubeService`;
- the highlight repository of `HighlightService`;
- the React state of the two pages.

The pure parts are functions and lemmas. Remote services, subprocesses, the file system and the clock are inputs:

- the YouTube API responses;
- ffmpeg and Python exit codes;
- the Gemini upload states and answer;
- the S3 analysis;
- the result files as found;
- `fetch` outcomes;
- `localStorage`.

Behaviour of the code worth knowing:

- `handleStop` keeps the timeline on screen.
- The upload page alerts a fixed message; the error itself goes only to the console.
- The `--file` path of the CLI calls `analyzer.analyze_video`, which `VideoAnalyzer` does not define, so that path always exits with 1.
- The clip existence check compares the `./videos/...` output path with stored urls that start with `/`, so for urls this service stored it never matches, and every clip job cuts its clip with ffmpeg again.
- The summariser of a clip job runs the analyser CLI with `--file`, which always exits with 1, so the summary read throws. The job then ends before the url and summary are saved: every highlight keeps no url, and its DTO url is the server origin followed by `null`.

## Model

| member | source | states |
|---|---|---|
| TimeFormat.JavaDivTruncates | back-end/src/main/java/com/example/DEVs/service/YouTubeService.java:110-112 | Java's long division rounds toward zero: the quotient times the divisor is at most a non-negative dividend and at least a negative one, within one divisor |
| TimeFormat.JavaRemSign | back-end/src/main/java/com/example/DEVs/service/YouTubeService.java:111-112 | Java's `%` takes the sign of the dividend: in [0, b) for a non-negative one, in (-b, 0] for a negative one, and quotient times divisor plus remainder is the dividend |
| TimeFormat.FormatTimeFields | back-end/src/main/java/com/example/DEVs/service/YouTubeService.java:109-114 | formatTime is the three `%02d` fields of hours, minutes and seconds joined by ':' |
| TimeFormat.FieldsDecompose | back-end/src/main/java/com/example/DEVs/service/YouTubeService.java:110-112 | for a non-negative offset the minutes and seconds are below 60 and the fields add up to the offset truncated to the second |
| TimeFormat.WholeSeconds | back-end/src/main/java/com/example/DEVs/service/YouTubeService.java:110-112 | the fields give the offset in whole seconds |
| TimeFormat.FormatTimeShape | back-end/src/main/java/com/example/DEVs/service/YouTubeService.java:109-114 | below 100 hours the result is exactly eight characters `DD:DD:DD`, digit by digit the fields |
| TimeFormat.ClockOrder | back-end/src/main/java/com/example/DEVs/service/YouTubeService.java:113 | two `%02d:%02d:%02d` readings with minutes and seconds below 60 compare as text exactly as their totals in seconds compare (both directions) |
| TimeFormat.FormatTimeOrder | back-end/src/main/java/com/example/DEVs/service/YouTubeService.java:109-114 | below 100 hours two results compare as text exactly as the offsets compare in whole seconds (both directions) |
| TimeFormat.FormatTimeMonotone | back-end/src/main/java/com/example/DEVs/service/YouTubeService.java:109-114 | a later offset never gets a text that sorts earlier |
| TimeFormat.FormatTimeInjective | back-end/src/main/java/com/example/DEVs/service/YouTubeService.java:109-114 | equal results below 100 hours come from offsets in the same second |
| TimeFormat.NegativeMinuteSortsFirst | back-end/src/main/java/com/example/DEVs/service/YouTubeService.java:117 | an offset up to a minute before the stream start renders as text such as `00:00:-10` that still sorts at or before `00:00:00` |
| TimeFormat.WindowStartSortsFirst | back-end/src/main/java/com/example/DEVs/service/YouTubeService.java:116-118 | the lower end of the duplicate window never sorts after the offset itself, even near the stream start |
| TimeFormat.OneMinuteWindow | back-end/src/main/java/com/example/DEVs/service/PyAnalyzeService.java:31-32 | the two ends of a one-minute window render as distinct, ordered strings |
| YouTube.WindowByOffset | back-end/src/main/java/com/example/DEVs/service/YouTubeService.java:116-122 | a stamp made by formatTime lies in the BETWEEN window around p exactly when its offset is within a minute of p, to the second, also in the stream's first minute where the lower end is a negative reading |
| YouTube.ExistsBetweenIff | back-end/src/main/java/com/example/DEVs/service/YouTubeService.java:120-122 | the repository query holds exactly when some stored chat has the video, author and text and a stamp between the two ends |
| YouTube.CheckDuplicateByOffset | back-end/src/main/java/com/example/DEVs/service/YouTubeService.java:116-122 | checkDuplicate holds exactly when a stored chat with the same video, author and text was posted within a minute, to the second (both directions), for any offset from the stream start on |
| YouTube.SelfDuplicate | back-end/src/main/java/com/example/DEVs/service/YouTubeService.java:116-122 | a stored chat is a duplicate of the same chat at the same offset |
| YouTube.CheckDuplicateGrows | back-end/src/main/java/com/example/DEVs/service/YouTubeService.java:116-122 | storing more chats never turns a duplicate into a non-duplicate |
| YouTube.IngestKeepsOrder | back-end/src/main/java/com/example/DEVs/service/YouTubeService.java:68-87 | the saved chats are the items' chats with some left out, in item order, each stamped with formatTime of its offset to the stream start |
| YouTube.IngestBounded | back-end/src/main/java/com/example/DEVs/service/YouTubeService.java:68-87 | no more chats than items are saved, all for the given video |
| YouTube.IngestAppendItem | back-end/src/main/java/com/example/DEVs/service/YouTubeService.java:68-87 | the forEach as a fold from the left: one more parseable item adds nothing when it duplicates a chat of the store as the earlier items left it, and its own chat otherwise |
| YouTube.IngestStopsAt | back-end/src/main/java/com/example/DEVs/service/YouTubeService.java:68-90 | an item whose timestamp does not parse ends the page: it and every later item add nothing |
| YouTube.IngestAgainSavesNothing | back-end/src/main/java/com/example/DEVs/service/YouTubeService.java:68-87 | pulling the same page again against the grown store saves nothing |
| YouTube.YouTubeService.FetchActiveLiveChatId | back-end/src/main/java/com/example/DEVs/service/YouTubeService.java:36-53 | a response with a parsable start time yields the chat id and sets liveStartTime; a failed request, a null body or an unparsable time yields null |
| YouTube.YouTubeService.FetchLiveChatMessages | back-end/src/main/java/com/example/DEVs/service/YouTubeService.java:55-92 | the returned chats are the ingested items and the store grows by exactly them; a null body or an unset start time saves nothing |
| YouTube.YouTubeService.CollectLiveChat | back-end/src/main/java/com/example/DEVs/service/YouTubeService.java:94-107 | a null or empty chat id returns null with nothing read; a negative duration fails; otherwise one page is ingested and the start time returned; liveStartTime is the parsed start time whenever the lookup had one, even for an ended stream, and unchanged otherwise |
| YouTube.DuplicateWithinSixtySeconds | back-end/src/test/java/com/example/DEVs/service/YouTubeServiceTest.java:33-49 | a chat stored at 00:43:30 duplicates the same chat two seconds later |
| YouTube.NotDuplicateAfterSixtySeconds | back-end/src/test/java/com/example/DEVs/service/YouTubeServiceTest.java:53-69 | a chat 70 seconds after a stored one is not a duplicate |
| YouTube.DifferentAuthorOrTextNotDuplicate | back-end/src/test/java/com/example/DEVs/service/YouTubeServiceTest.java:73-101 | a stored chat by another author, or with other text, is never a duplicate |
| Json.LastOfArray | back-end/src/main/java/com/example/DEVs/service/PyAnalyzeService.java:60-61 | `get(size() - 1)` finds an element exactly for a non-empty array, and then it is the last one |
| PyAnalyze.PyFormatTimeAgrees | back-end/src/main/java/com/example/DEVs/service/PyAnalyzeService.java:113-118 | the second copy of formatTime agrees with the first on every input |
| PyAnalyze.SentimentCommand | back-end/src/main/java/com/example/DEVs/service/PyAnalyzeService.java:30-43 | the command runs the sentiment analyser with the WHERE clause naming the video and the window start |
| PyAnalyze.HighlightCommand | back-end/src/main/java/com/example/DEVs/service/PyAnalyzeService.java:77-83 | the command runs the video analyser CLI on the clip path |
| PyAnalyze.LatestAnalysis | back-end/src/main/java/com/example/DEVs/service/PyAnalyzeService.java:58-61 | the newest entry is found exactly when the file parses to an object whose "analyses" is a non-empty array, and it is the last element; an absent or malformed file fails to read |
| PyAnalyze.RunSentimentAnalyzer | back-end/src/main/java/com/example/DEVs/service/PyAnalyzeService.java:28-74 | a non-zero exit code fails before the file is read; otherwise the Sentiment is built from the newest entry, or the read fails |
| PyAnalyze.SentimentOfFields | back-end/src/main/java/com/example/DEVs/service/PyAnalyzeService.java:64-71 | the Sentiment carries the entry's counts and shares, and a one-minute window of two well-formed, distinct, ordered clock strings |
| PyAnalyze.RunHighlightVideo | back-end/src/main/java/com/example/DEVs/service/PyAnalyzeService.java:76-111 | a non-zero exit code fails; otherwise the result is the newest entry's summary as text, or the read fails |
| Highlights.IncreaseRateRounds | back-end/src/main/java/com/example/DEVs/service/HighlightService.java:71-74 | with a non-zero previous count the rate is the percentage change rounded half up, as `Math.round` does |
| Highlights.FloorQuotient | back-end/src/main/java/com/example/DEVs/service/HighlightService.java:73-74 | the integer floor division used for the rate is the floor of the real quotient, for either sign of the divisor |
| Highlights.PicksAtIndices | back-end/src/main/java/com/example/DEVs/service/HighlightService.java:62-94 | the saved rows are the drafts of exactly the qualifying samples, in stream order, each with the rate against the sample before it |
| Highlights.PicksFields | back-end/src/main/java/com/example/DEVs/service/HighlightService.java:79-87 | every saved row belongs to the video, has more than five messages and a positive share other than 100, and no summary or url |
| Highlights.FirstRateZero | back-end/src/main/java/com/example/DEVs/service/HighlightService.java:62-74 | the first sample, when saved, has increase rate 0 |
| Highlights.ClipUrl | back-end/src/main/java/com/example/DEVs/service/HighlightService.java:143 | the stored url is the output path without its leading '.', so it starts with '/' |
| Highlights.ClipNameExample | back-end/src/main/java/com/example/DEVs/service/HighlightService.java:128-129 | a highlight from 00:00:00 to 00:01:00 gets the clip `<videoId>_000000-000100.mp4` |
| Highlights.ClockDigits | back-end/src/main/java/com/example/DEVs/service/HighlightService.java:128-129 | removing the colons of a clock reading leaves its three pairs of digits |
| Highlights.ClipNameClocks | back-end/src/main/java/com/example/DEVs/service/HighlightService.java:128-129 | clip names of clock strings are equal only for equal start and end strings |
| Highlights.ClipNameInjective | back-end/src/main/java/com/example/DEVs/service/HighlightService.java:125-131 | two highlights of a video share a clip only when their formatted windows agree to the second |
| Highlights.ForVideoMembers | back-end/src/main/java/com/example/DEVs/service/HighlightService.java:183-184 | the video filter keeps exactly the rows of the video and never more rows than there are |
| Highlights.WithoutVideo | back-end/src/main/java/com/example/DEVs/service/HighlightService.java:54 | deleting by video keeps exactly the other videos' rows |
| Highlights.WithoutRejected | back-end/src/main/java/com/example/DEVs/service/HighlightService.java:99 | the deletion keeps exactly the other videos' rows and the video's rows that are not rejected |
| Highlights.Insert | back-end/src/main/java/com/example/DEVs/service/HighlightService.java:100 | inserting into a start-ordered list keeps it ordered and adds exactly the row |
| Highlights.SortByStart | back-end/src/main/java/com/example/DEVs/service/HighlightService.java:100 | ORDER BY startTime yields the same rows, ordered by start text |
| Highlights.FindByVideoOrdered | back-end/src/main/java/com/example/DEVs/service/HighlightService.java:183-184 | the query returns the video's rows, each as often as stored, ordered by start text |
| Highlights.MapToDto | back-end/src/main/java/com/example/DEVs/service/HighlightService.java:186-197 | one DTO per row, in order |
| Highlights.TimelineFields | back-end/src/main/java/com/example/DEVs/service/HighlightService.java:181-198 | the timeline lists the video's highlights in start order, each DTO carrying the row's fields and its url behind the server origin |
| Highlights.ExistsCheckNeverMatches | back-end/src/main/java/com/example/DEVs/service/HighlightService.java:131-143 | when every stored url starts with '/', the existence check on the `./` output path is always false |
| Highlights.CutOneRooted | back-end/src/main/java/com/example/DEVs/service/HighlightService.java:131-145 | a clip job stores no url but a clip url, so every stored url keeps starting with '/' |
| Highlights.CutAllFailingSummariser | back-end/src/main/java/com/example/DEVs/service/HighlightService.java:123-146 | with a summariser that always fails, as the `--file` analyser does, the clip jobs leave the rows exactly as they were |
| Highlights.CutOneEffect | back-end/src/main/java/com/example/DEVs/service/HighlightService.java:123-146 | a clip task changes at most the row with its highlight's id; a finished task stores the clip url and, when it ran the summariser, the summary |
| Highlights.HighlightService.SaveNew | back-end/src/main/java/com/example/DEVs/service/HighlightService.java:91 | saving a new row appends it with the next generated id |
| Highlights.HighlightService.ExtractHighlight | back-end/src/main/java/com/example/DEVs/service/HighlightService.java:53-95 | fails exactly for fewer than two samples; the video's old rows are gone and, with enough samples, its picks are appended with fresh increasing ids |
| Highlights.HighlightService.SavePicks | back-end/src/main/java/com/example/DEVs/service/HighlightService.java:62-94 | walking the samples with the previous count appends exactly the picks, numbered with consecutive new ids, and keeps ids increasing |
| Highlights.HighlightService.CutHighlightVideos | back-end/src/main/java/com/example/DEVs/service/HighlightService.java:97-150 | rejected rows are dropped, then the clip task runs for each remaining highlight of the video in start order |
| Highlights.TimelineRows | back-end/src/main/java/com/example/DEVs/service/HighlightService.java:181-198 | every DTO of the timeline is the DTO of a row of the video, and every row of the video has its DTO in it |
| Highlights.HighlightService.LoadHighlightTimeline | back-end/src/main/java/com/example/DEVs/service/HighlightService.java:181-198 | one DTO per row of the video, each the DTO of such a row, every row of the video among them, in start-time order |
| Highlights.HighlightService.HighlightVideo | back-end/src/main/java/com/example/DEVs/service/HighlightService.java:38-51 | a video with highlights is only listed; otherwise the upload is copied if absent and the video's rows deleted; fewer than two samples fail there, with the delete kept; otherwise the numbered picks are appended, rejected rows dropped, the clip jobs folded over the video's rows in start order, and the resulting timeline returned; every stored url keeps starting with '/' |
| VideoAnalysis.NewAnalyzer | python_modules/videoAnalyzer/video_analyzer.py:124-129 | the key is the argument, else the environment's; with neither it raises; the model is the argument or the default |
| VideoAnalysis.Settle | python_modules/videoAnalyzer/video_analyzer.py:154-156 | the answer the wait ends with is a client exception or a file not processing |
| VideoAnalysis.SettleStep | python_modules/videoAnalyzer/video_analyzer.py:154-156 | a file still processing settles as the next poll's answer does |
| VideoAnalysis.UploadAndWait | python_modules/videoAnalyzer/video_analyzer.py:149-162 | polls while the file is processing, stops at the first other answer, propagates an exception of the upload or a poll, and returns a file only if it is ACTIVE |
| VideoAnalysis.ParseResponse | python_modules/videoAnalyzer/video_analyzer.py:178-189 | succeeds exactly when the decoder accepts the cleaned text; a decoder failure is InvalidJson |
| VideoAnalysis.FencedResponse | python_modules/videoAnalyzer/video_analyzer.py:178-181 | a fenced answer is cleaned to exactly the body between the fence lines |
| VideoAnalysis.UnfencedResponse | python_modules/videoAnalyzer/video_analyzer.py:178-181 | an answer without a fence is only stripped, and cleaning it again changes nothing |
| VideoAnalysis.CategoryLineNamesAll | python_modules/videoAnalyzer/video_analyzer.py:209-211 | the prompt offers every category |
| VideoAnalysis.AnalyzeFromLocal | python_modules/videoAnalyzer/video_analyzer.py:260-274 | a missing file raises before anything is uploaded; otherwise the file is uploaded, waited for and analysed |
| VideoAnalysis.AnalyzeFromS3 | python_modules/videoAnalyzer/video_analyzer.py:297-309 | the presigned URL (or its exception) is uploaded, waited for and analysed |
| AnalyzerCli.SaveResult | python_modules/videoAnalyzer/run_videoAnalyzer.py:88-122 | the log afterwards, or the exception that leaves it alone |
| AnalyzerCli.SaveStartsFresh | python_modules/videoAnalyzer/run_videoAnalyzer.py:98-107 | an absent or malformed log, or one without "analyses", becomes a log of the new entry alone |
| AnalyzerCli.SaveAppends | python_modules/videoAnalyzer/run_videoAnalyzer.py:109-115 | a log with an "analyses" list keeps its entries and keys and gains exactly one entry at the end |
| AnalyzerCli.SaveFailsIff | python_modules/videoAnalyzer/run_videoAnalyzer.py:98-115 | saving fails exactly for a bare scalar, a list or string mentioning "analyses", or an "analyses" that is not a list |
| AnalyzerCli.SaveThenReadLast | python_modules/videoAnalyzer/run_videoAnalyzer.py:110-115 | after a save the back end's newest entry is the appended one and its summary is the result's |
| AnalyzerCli.S3UriInjective | python_modules/videoAnalyzer/run_videoAnalyzer.py:242-247 | the S3 URI determines the bucket and key when the bucket has no '/' |
| AnalyzerCli.RunCli | python_modules/videoAnalyzer/run_videoAnalyzer.py:228-264 | exit codes 0, 1, 2 or 130; usage errors give 2 and a truthy --file gives 1 (or 130), both with the log unchanged; once the usage checks pass an interrupt gives 130, and a missing key, an empty bucket or key, a failed analysis or a failed save gives 1, all with the log unchanged; exit 0 means the S3 result was saved; a successful analysis is saved even when printing fails |
| Text.TrimIsCore | python_modules/videoAnalyzer/video_analyzer.py:178 | trimming returns the input without the whitespace at either end, and nothing else |
| Text.TrimEmptyIff | front-end/src/app/page.tsx:190 | an input trims to nothing exactly when it is all whitespace |
| Text.JoinSplit | python_modules/videoAnalyzer/video_analyzer.py:180-181 | splitting at a character and joining with it gives back the text |
| Text.RemoveCharDrops | back-end/src/main/java/com/example/DEVs/service/HighlightService.java:128-129 | `replace(":", "")` leaves no colon, never lengthens the text, and returns a text without colons unchanged |
| HomePage.Refresh | front-end/src/app/page.tsx:165-170 | the stored timeline always equals the fetched one, and a new array is stored exactly when the contents differ |
| HomePage.RefreshIdempotent | front-end/src/app/page.tsx:165-170 | applying the same timeline twice equals applying it once |
| HomePage.Latest | front-end/src/app/page.tsx:203-204 | null exactly for an empty timeline, else a sample of it |
| HomePage.LatestOfAppend | front-end/src/app/page.tsx:203-204 | the sample appended last is the latest |
| HomePage.ChartData | front-end/src/app/page.tsx:206-212 | no entries without a sample, three with one |
| HomePage.ChartShowsNewest | front-end/src/app/page.tsx:206-212 | the chart shows the newest sample's positive, neutral and negative shares, in that order, under distinct labels, totalling their sum |
| HomePage.Home.constructor | front-end/src/app/page.tsx:149-154 | empty input, channel and timeline; not loading, no data, no interval |
| HomePage.Home.TypeInput | front-end/src/app/page.tsx:240 | the text box sets the input |
| HomePage.Home.HandleStart | front-end/src/app/page.tsx:189-194 | a blank input changes nothing; otherwise the channel is the trimmed input, a new empty timeline is stored and hasData is false |
| HomePage.Home.HandleStop | front-end/src/app/page.tsx:196-201 | the interval is cleared, the channel is empty and hasData false; timeline and input are kept |
| HomePage.Home.Load | front-end/src/app/page.tsx:159-178 | only the initial load raises isLoading, and lowers it on either outcome; a failed fetch keeps the data; a success stores via Refresh and an initial one raises hasData |
| HomePage.Home.ChannelEffect | front-end/src/app/page.tsx:156-187 | with an empty channel only the old interval is cleared; otherwise the initial load runs and the interval is armed |
| HomePage.Home.Poll | front-end/src/app/page.tsx:182 | a tick reloads through Refresh while the interval is armed, and never touches isLoading or hasData |
| VideoHighlightsPage.AnalysisFormParts | front-end/src/app/video-highlights/page.tsx:72-82 | the form starts with the video and has a channelId part exactly when a non-empty id was saved, holding that id |
| VideoHighlightsPage.HighlightsPage.constructor | front-end/src/app/video-highlights/page.tsx:28-31 | no file, not analysing, no highlights, no drag highlight |
| VideoHighlightsPage.HighlightsPage.HandleFileChange | front-end/src/app/video-highlights/page.tsx:33-37 | the first chosen file becomes the upload; no file leaves it unchanged |
| VideoHighlightsPage.HighlightsPage.HandleDrop | front-end/src/app/video-highlights/page.tsx:39-45 | the drag highlight is off and the first dropped file, if any, becomes the upload |
| VideoHighlightsPage.HighlightsPage.HandleDragOver | front-end/src/app/video-highlights/page.tsx:47-50 | the drag highlight is on |
| VideoHighlightsPage.HighlightsPage.HandleDragLeave | front-end/src/app/video-highlights/page.tsx:52-54 | the drag highlight is off |
| VideoHighlightsPage.HighlightsPage.ProcessVideoAnalysis | front-end/src/app/video-highlights/page.tsx:56-103 | no file is a no-op; otherwise analysing with an empty list while the request is out; a missing URL or any failure alerts and keeps the list empty; a delivered body's highlights (or none) are listed; analysing ends false |

## Left out

- Remote services are inputs: the YouTube Data API, Gemini, S3, ffmpeg and the Python subprocesses. So are decoding of JSON and timestamps, `fetch`, and `localStorage`. The model does not produce their outputs.
- Concurrency and timing:
  - the thread pool of `cutHighlightVideos` is modelled as a sequential loop in start order;
  - `Thread.sleep`, `time.sleep` and `setInterval` are modelled as calls;
  - overlapping asynchronous loads in the sentiment page are not modelled.
- Floating point:
  - `highLightScore` (which uses `log`) is not modelled;
  - the increase rate is the exact rounded percentage, not the double computation;
  - `asText` of a floating-point node is not rendered;
  - the pie-label trigonometry and the percent formatting are not modelled.
- Java `long` and `int` overflow is not modelled: integers are unbounded.
- Database details are not modelled: text collation beyond character order, and the order among highlights with equal start times. The criterion of `deleteNotHighlightByVideoId` is a parameter, because its query is not part of this model. The Sentiment repository's ordered query result is an input.
- `s3_connector.py` is not modelled beyond the empty bucket or key it refuses (in `AnalyzerCli.RunCli`).
- `YouTubeLiveChatScraper.java` is not modelled: it is a wall-clock loop over a parser that is not part of this model.
- `VideoController.java` is not modelled: it wraps the timeline in `{"highlights": ...}` and passes its `channelId` parameter as the video id.
- The prompt text is not modelled, other than its category line. Neither are the Gemini generation settings.
- VideoAnalysis.UploadAndWait: requires that the file eventually leaves PROCESSING; a file that never does makes the source wait forever.
- AnalyzerCli.RunCli: a keyboard interrupt is modelled only before any work starts; print_result's output is not modelled, only whether it raises.
- Json.AsInt, Json.AsDouble: numeric text in a string node (`"12"`) reads as 0, where Jackson parses it, so a log whose counts or shares are strings gives zeros in `PyAnalyze.SentimentOf` and `PyAnalyze.RunSentimentAnalyzer`.
- HomePage.Home.Load: JSON.stringify comparison is modelled as structural equality of the samples.
- VideoHighlightsPage.HighlightsPage.ProcessVideoAnalysis: a `highlights` field that is present but not an array is not modelled.
