/**
 * HighlightService: pick highlight minutes out of a stream's sentiment samples,
 * cut each one out of the uploaded video, have it summarised, and list the
 * highlights as DTOs.
 *
 * The highlight repository is a sequence of rows with a generated id; the
 * uploaded videos are a map from path to content; ffmpeg and the summariser are
 * oracle parameters; the clips are cut one after another.
 */
module Highlights {
  import opened Wrappers
  import opened Text
  import opened TimeFormat
  import opened PyAnalyze

  const VideoBasePath: string := "./videos/"
  const ClipOutputPath: string := "./videos/highlights/"
  const ServerOrigin: string := "http://localhost:8080"

  /** The Highlight entity (`highlightScore` is not part of this model). */
  datatype Highlight = Highlight(id: int, videoId: string, startTime: string, endTime: string,
                                 positive: real, increaseRate: int, totalMessages: int,
                                 summary: Option<string>, videoUrl: Option<string>)

  /** HighlightDataDto. */
  datatype HighlightDataDto = HighlightDataDto(id: int, startTime: string, endTime: string,
                                               positiveRate: real, viewerIncrease: int,
                                               summary: Option<string>, videoUrl: string)

  datatype HighlightError = NotEnoughSentiments(videoId: string)

  // ---------------------------------------------------------------------------
  // Selection
  // ---------------------------------------------------------------------------

  /** Division rounding toward negative infinity. */
  function FloorDiv(a: int, b: int): int
    requires b != 0
  {
    if b > 0 then a / b else (-a) / (-b)
  }

  /** FloorDiv is the largest multiple of b not above a (for b < 0, not below it). */
  lemma FloorDivBounds(a: int, b: int)
    requires b != 0
    ensures var q := FloorDiv(a, b);
            && (b > 0 ==> q * b <= a < q * b + b)
            && (b < 0 ==> q * b >= a > q * b + b)
  {
  }

  /**
   * `Math.round((curr - prev) / prev * 100)`, with 0 when the previous sample
   * had no messages; `Math.round(x)` is `floor(x + 1/2)`, here computed on
   * integers as `floor((200 * (curr - prev) + prev) / (2 * prev))`.
   */
  function IncreaseRate(prevMsg: int, currMsg: int): int {
    if prevMsg == 0 then 0
    else FloorDiv(200 * (currMsg - prevMsg) + prevMsg, 2 * prevMsg)
  }

  /** The integer formula is the percentage change, rounded half up. */
  lemma IncreaseRateRounds(prevMsg: int, currMsg: int)
    requires prevMsg != 0
    ensures var x := (currMsg - prevMsg) as real / prevMsg as real * 100.0;
            var r := IncreaseRate(prevMsg, currMsg) as real;
            r <= x + 0.5 < r + 1.0
  {
    HalfUpAsQuotient(currMsg - prevMsg, prevMsg);
    FloorQuotient(200 * (currMsg - prevMsg) + prevMsg, 2 * prevMsg);
  }

  /** FloorDiv is the floor of the real quotient. */
  lemma FloorQuotient(a: int, b: int)
    requires b != 0
    ensures var q := FloorDiv(a, b) as real;
            q <= a as real / b as real < q + 1.0
  {
    var q := FloorDiv(a, b);
    FloorDivBounds(a, b);
    if b > 0 {
      assert (q * b) as real == q as real * b as real;
      assert (q * b + b) as real == (q as real + 1.0) * b as real;
      QuotientBounds(a as real, b as real, q as real);
    } else {
      assert (q * -b) as real == q as real * (-b) as real;
      assert (q * -b - b) as real == (q as real + 1.0) * (-b) as real;
      QuotientBounds((-a) as real, (-b) as real, q as real);
      NegatedQuotient(a as real, b as real);
    }
  }

  lemma NegatedQuotient(x: real, y: real)
    requires y != 0.0
    ensures (-x) / (-y) == x / y
  {
    QuotientUnique(x / y, -x, -y);
  }

  /** `delta / prev * 100 + 1/2` as one quotient. */
  lemma HalfUpAsQuotient(delta: int, prev: int)
    requires prev != 0
    ensures delta as real / prev as real * 100.0 + 0.5
            == (200 * delta + prev) as real / (2 * prev) as real
  {
    var d := prev as real;
    var y := delta as real / d * 100.0 + 0.5;
    assert (delta as real / d) * d == delta as real;
    assert y * (2.0 * d) == 200.0 * delta as real + d;
    QuotientUnique(y, (200 * delta + prev) as real, (2 * prev) as real);
  }

  lemma QuotientUnique(y: real, a: real, b: real)
    requires b != 0.0 && y * b == a
    ensures y == a / b
  {
  }

  lemma ProductNonNegative(x: real, y: real)
    requires x >= 0.0 && y > 0.0
    ensures x * y >= 0.0
  {
  }

  lemma ProductPositive(x: real, y: real)
    requires x > 0.0 && y > 0.0
    ensures x * y > 0.0
  {
  }

  /** A real quotient lies between the integer bounds of its product. */
  lemma QuotientBounds(a: real, b: real, q: real)
    requires b > 0.0 && q * b <= a < (q + 1.0) * b
    ensures q <= a / b < q + 1.0
  {
    var r := a / b;
    assert r * b == a;
    if r < q {
      ProductPositive(q - r, b);
    }
    if r >= q + 1.0 {
      var e := r - (q + 1.0);
      ProductNonNegative(e, b);
    }
  }

  /** The filter of the selection loop. */
  predicate Qualifies(s: Sentiment) {
    s.positive != 100.0 && s.totalMessages > 5
  }

  /** The row saved for a qualifying sample, before the repository gives it an id. */
  function Draft(videoId: string, s: Sentiment, rate: int): Highlight {
    Highlight(0, videoId, s.timeline, s.endTime, s.positive, rate, s.totalMessages, None, None)
  }

  /**
   * The increase rate of sample `i`: against the sample before it, the first
   * one against a zero count (`prev` starts as an empty Sentiment and moves on
   * after every sample, saved or not).
   */
  function RateAt(stream: seq<Sentiment>, i: int): int
    requires 0 <= i < |stream|
  {
    IncreaseRate(if i == 0 then 0 else stream[i - 1].totalMessages, stream[i].totalMessages)
  }

  /** The rows extractHighlight has saved after the samples of `stream`. */
  function Picks(videoId: string, stream: seq<Sentiment>): seq<Highlight>
    decreases |stream|
  {
    if stream == [] then []
    else
      var n := |stream| - 1;
      Picks(videoId, stream[..n])
      + (if Qualifies(stream[n]) then [Draft(videoId, stream[n], RateAt(stream, n))] else [])
  }

  /** The positions of the qualifying samples, in increasing order. */
  function QualifyingIndices(stream: seq<Sentiment>): (r: seq<int>)
    ensures forall k :: 0 <= k < |r| ==> 0 <= r[k] < |stream| && Qualifies(stream[r[k]])
    ensures forall k, l :: 0 <= k < l < |r| ==> r[k] < r[l]
    ensures forall i :: 0 <= i < |stream| && Qualifies(stream[i]) ==> i in r
    ensures |r| <= |stream|
    decreases |stream|
  {
    if stream == [] then []
    else
      var n := |stream| - 1;
      var prefix := QualifyingIndices(stream[..n]);
      assert forall i :: 0 <= i < n ==> stream[..n][i] == stream[i];
      prefix + (if Qualifies(stream[n]) then [n] else [])
  }

  /**
   * The saved rows are the drafts of exactly the qualifying samples, in stream
   * order: row `k` copies the `k`-th qualifying sample, with that sample's rate.
   */
  lemma {:induction false} PicksAtIndices(videoId: string, stream: seq<Sentiment>)
    ensures var idx := QualifyingIndices(stream);
            var p := Picks(videoId, stream);
            |p| == |idx| &&
            forall k :: 0 <= k < |idx| ==> p[k] == Draft(videoId, stream[idx[k]], RateAt(stream, idx[k]))
    decreases |stream|
  {
    if stream != [] {
      var n := |stream| - 1;
      var front := stream[..n];
      PicksAtIndices(videoId, front);
      var prev, prevIdx := Picks(videoId, front), QualifyingIndices(front);
      var p, idx := Picks(videoId, stream), QualifyingIndices(stream);
      assert p == prev + (if Qualifies(stream[n]) then [Draft(videoId, stream[n], RateAt(stream, n))] else []);
      assert idx == prevIdx + (if Qualifies(stream[n]) then [n] else []);
      forall k | 0 <= k < |idx| ensures p[k] == Draft(videoId, stream[idx[k]], RateAt(stream, idx[k])) {
        if k < |prevIdx| {
          var j := prevIdx[k];
          assert front[j] == stream[j];
          if j > 0 { assert front[j - 1] == stream[j - 1]; }
          assert RateAt(front, j) == RateAt(stream, j);
        }
      }
    }
  }

  /** Every saved row belongs to the video, has no summary or clip yet, and passed the filter. */
  lemma PicksFields(videoId: string, stream: seq<Sentiment>)
    ensures |Picks(videoId, stream)| <= |stream|
    ensures forall h :: h in Picks(videoId, stream) ==>
              && h.videoId == videoId && h.summary.None? && h.videoUrl.None?
              && h.totalMessages > 5 && h.positive != 100.0
  {
    PicksAtIndices(videoId, stream);
    var p := Picks(videoId, stream);
    var idx := QualifyingIndices(stream);
    forall h | h in p
      ensures h.videoId == videoId && h.summary.None? && h.videoUrl.None? && h.totalMessages > 5 && h.positive != 100.0
    {
      var k :| 0 <= k < |p| && p[k] == h;
      assert Qualifies(stream[idx[k]]);
    }
  }

  /** The first sample, when saved, always has increase rate 0. */
  lemma FirstRateZero(videoId: string, stream: seq<Sentiment>)
    requires stream != [] && Qualifies(stream[0])
    ensures Picks(videoId, stream) != [] && Picks(videoId, stream)[0].increaseRate == 0
  {
    PicksAtIndices(videoId, stream);
    var idx := QualifyingIndices(stream);
    assert 0 in idx;
    assert idx[0] == 0;
  }

  /** Extracted rows, numbered by the repository from `firstId` on. */
  function Numbered(rows: seq<Highlight>, firstId: int): seq<Highlight> {
    seq(|rows|, k requires 0 <= k < |rows| => rows[k].(id := firstId + k))
  }

  // ---------------------------------------------------------------------------
  // Clip names
  // ---------------------------------------------------------------------------

  /** The file `cutHighlightVideos` writes for one highlight. */
  function ClipFileName(videoId: string, start: string, end: string): string {
    videoId + "_" + RemoveChar(start, ':') + "-" + RemoveChar(end, ':') + ".mp4"
  }

  function ClipPath(videoId: string, start: string, end: string): string {
    ClipOutputPath + videoId + "/" + ClipFileName(videoId, start, end)
  }

  /** `outputPath.substring(1)`: the path without its leading '.'. */
  function ClipUrl(videoId: string, start: string, end: string): (u: string)
    ensures u == ClipPath(videoId, start, end)[1..]
    ensures u != [] && u[0] == '/'
  {
    ClipPath(videoId, start, end)[1..]
  }

  /** The colons of a clock reading removed: its three pairs of digits. */
  lemma ClockDigits(s: string)
    requires IsClock(s)
    ensures RemoveChar(s, ':') == s[..2] + s[3..5] + s[6..]
  {
    assert s[6..] == s[6..8];
    var colon := [':'];
    assert s == s[..2] + colon + s[3..5] + colon + s[6..];
    RemoveCharConcat(s[..2] + colon + s[3..5] + colon, s[6..], ':');
    RemoveCharConcat(s[..2] + colon + s[3..5], colon, ':');
    RemoveCharConcat(s[..2] + colon, s[3..5], ':');
    RemoveCharConcat(s[..2], colon, ':');
    RemoveCharPair(s, 0);
    RemoveCharPair(s, 3);
    RemoveCharPair(s, 6);
    assert RemoveChar(colon, ':') == [];
  }

  lemma RemoveCharPair(s: string, i: int)
    requires 0 <= i <= |s| - 2 && IsDigit(s[i]) && IsDigit(s[i + 1])
    ensures RemoveChar(s[i..i + 2], ':') == s[i..i + 2]
  {
    var p := s[i..i + 2];
    assert p[0] == s[i] && p[1] == s[i + 1];
    assert p[1..][1..] == [];
    assert RemoveChar(p[1..], ':') == p[1..];
  }

  /** The clip of a highlight from 00:00:00 to 00:01:00: `<videoId>_000000-000100.mp4`. */
  lemma ClipNameExample(videoId: string)
    ensures ClipFileName(videoId, "00:00:00", "00:01:00") == videoId + "_" + "000000" + "-" + "000100" + ".mp4"
  {
    assert RemoveChar("00:00:00", ':') == "000000";
    assert RemoveChar("00:01:00", ':') == "000100";
  }

  /** Clip names of clock readings are equal only for equal readings. */
  lemma ClipNameClocks(videoId: string, s1: string, e1: string, s2: string, e2: string)
    requires IsClock(s1) && IsClock(e1) && IsClock(s2) && IsClock(e2)
    requires ClipFileName(videoId, s1, e1) == ClipFileName(videoId, s2, e2)
    ensures s1 == s2 && e1 == e2
  {
    ClockDigits(s1);
    ClockDigits(e1);
    ClockDigits(s2);
    ClockDigits(e2);
    var n := |videoId| + 1;
    var x := ClipFileName(videoId, s1, e1);
    var y := ClipFileName(videoId, s2, e2);
    assert x[n..n + 6] == RemoveChar(s1, ':') && y[n..n + 6] == RemoveChar(s2, ':');
    assert x[n + 7..n + 13] == RemoveChar(e1, ':') && y[n + 7..n + 13] == RemoveChar(e2, ':');
    SameClock(s1, s2);
    SameClock(e1, e2);
  }

  /**
   * Clip names of formatted times identify the window: two highlights of one
   * video get the same clip only when their start and end agree to the second.
   */
  lemma ClipNameInjective(videoId: string, a: int, b: int, c: int, d: int)
    requires 0 <= a < HundredHours && 0 <= b < HundredHours
    requires 0 <= c < HundredHours && 0 <= d < HundredHours
    requires ClipFileName(videoId, FormatTime(a), FormatTime(b)) == ClipFileName(videoId, FormatTime(c), FormatTime(d))
    ensures a / 1000 == c / 1000 && b / 1000 == d / 1000
  {
    FormatTimeShape(a);
    FormatTimeShape(b);
    FormatTimeShape(c);
    FormatTimeShape(d);
    ClipNameClocks(videoId, FormatTime(a), FormatTime(b), FormatTime(c), FormatTime(d));
    FormatTimeInjective(a, c);
    FormatTimeInjective(b, d);
  }

  lemma SameClock(s: string, t: string)
    requires IsClock(s) && IsClock(t)
    requires s[..2] + s[3..5] + s[6..] == t[..2] + t[3..5] + t[6..]
    ensures s == t
  {
    var u, v := s[..2] + s[3..5] + s[6..], t[..2] + t[3..5] + t[6..];
    assert u[0] == s[0] && u[1] == s[1] && u[2] == s[3] && u[3] == s[4] && u[4] == s[6] && u[5] == s[7];
    assert v[0] == t[0] && v[1] == t[1] && v[2] == t[3] && v[3] == t[4] && v[4] == t[6] && v[5] == t[7];
    assert forall i :: 0 <= i < 8 ==> s[i] == t[i];
  }

  // ---------------------------------------------------------------------------
  // Repository queries and the timeline
  // ---------------------------------------------------------------------------

  /** The video's rows, in repository order. */
  function ForVideo(rows: seq<Highlight>, videoId: string): seq<Highlight> {
    if rows == [] then []
    else (if rows[0].videoId == videoId then [rows[0]] else []) + ForVideo(rows[1..], videoId)
  }

  /** ForVideo keeps exactly the rows of the video. */
  lemma {:induction false} ForVideoMembers(rows: seq<Highlight>, videoId: string)
    ensures forall h :: h in ForVideo(rows, videoId) <==> h in rows && h.videoId == videoId
    ensures |ForVideo(rows, videoId)| <= |rows|
  {
    if rows != [] {
      ForVideoMembers(rows[1..], videoId);
      assert rows == [rows[0]] + rows[1..];
    }
  }

  /** `deleteAllByVideoId`. */
  function WithoutVideo(rows: seq<Highlight>, videoId: string): (r: seq<Highlight>)
    ensures forall h :: h in r <==> h in rows && h.videoId != videoId
  {
    if rows == [] then []
    else (if rows[0].videoId != videoId then [rows[0]] else []) + WithoutVideo(rows[1..], videoId)
  }

  /** `deleteNotHighlightByVideoId`, whose criterion is a parameter. */
  function WithoutRejected(rows: seq<Highlight>, videoId: string, notHighlight: Highlight -> bool)
    : (r: seq<Highlight>)
    ensures forall h :: h in r <==> h in rows && !(h.videoId == videoId && notHighlight(h))
  {
    if rows == [] then []
    else (if !(rows[0].videoId == videoId && notHighlight(rows[0])) then [rows[0]] else [])
         + WithoutRejected(rows[1..], videoId, notHighlight)
  }

  predicate StartsNoLater(a: Highlight, b: Highlight) {
    LexLe(a.startTime, b.startTime)
  }

  predicate SortedByStart(rows: seq<Highlight>) {
    forall i, j :: 0 <= i < j < |rows| ==> StartsNoLater(rows[i], rows[j])
  }

  function Insert(h: Highlight, rows: seq<Highlight>): (r: seq<Highlight>)
    requires SortedByStart(rows)
    ensures multiset(r) == multiset(rows) + multiset{h}
    ensures SortedByStart(r)
    decreases |rows|
  {
    if rows == [] then [h]
    else if StartsNoLater(h, rows[0]) then
      LexLeTransAll(h, rows);
      [h] + rows
    else
      LexLeTotal(h.startTime, rows[0].startTime);
      var rest := Insert(h, rows[1..]);
      assert multiset(rest) == multiset(rows[1..]) + multiset{h};
      assert rows == [rows[0]] + rows[1..];
      InsertAfterHead(rows[0], h, rows[1..], rest);
      [rows[0]] + rest
  }

  lemma LexLeTransAll(h: Highlight, rows: seq<Highlight>)
    requires rows != [] && SortedByStart(rows) && StartsNoLater(h, rows[0])
    ensures forall j :: 0 <= j < |rows| ==> StartsNoLater(h, rows[j])
  {
    forall j | 0 <= j < |rows| ensures StartsNoLater(h, rows[j]) {
      if j > 0 { LexLeTrans(h.startTime, rows[0].startTime, rows[j].startTime); }
    }
  }

  lemma InsertAfterHead(x: Highlight, h: Highlight, tail: seq<Highlight>, rest: seq<Highlight>)
    requires SortedByStart([x] + tail) && SortedByStart(rest)
    requires StartsNoLater(x, h)
    requires multiset(rest) == multiset(tail) + multiset{h}
    ensures SortedByStart([x] + rest)
  {
    forall j | 0 <= j < |rest| ensures StartsNoLater(x, rest[j]) {
      assert rest[j] in multiset(rest);
      if rest[j] != h {
        assert rest[j] in multiset(tail);
        var k :| 0 <= k < |tail| && tail[k] == rest[j];
        assert ([x] + tail)[0] == x && ([x] + tail)[k + 1] == tail[k];
      }
    }
  }

  /** `ORDER BY startTime` over rows (ties keep no particular order). */
  function SortByStart(rows: seq<Highlight>): (r: seq<Highlight>)
    ensures multiset(r) == multiset(rows)
    ensures SortedByStart(r)
    decreases |rows|
  {
    if rows == [] then []
    else
      assert rows == [rows[0]] + rows[1..];
      Insert(rows[0], SortByStart(rows[1..]))
  }

  /** `findAllByVideoIdOrderByStartTime`. */
  function FindByVideoOrdered(rows: seq<Highlight>, videoId: string): (r: seq<Highlight>)
    ensures multiset(r) == multiset(ForVideo(rows, videoId))
    ensures SortedByStart(r)
  {
    SortByStart(ForVideo(rows, videoId))
  }

  /** One DTO of loadHighlightTimeline; a null url is concatenated as "null". */
  function ToDto(h: Highlight): HighlightDataDto {
    HighlightDataDto(h.id, h.startTime, h.endTime, h.positive, h.increaseRate, h.summary,
                     ServerOrigin + (if h.videoUrl.Some? then h.videoUrl.value else "null"))
  }

  function MapToDto(rows: seq<Highlight>): (r: seq<HighlightDataDto>)
    ensures |r| == |rows|
    ensures forall i :: 0 <= i < |rows| ==> r[i] == ToDto(rows[i])
  {
    if rows == [] then [] else [ToDto(rows[0])] + MapToDto(rows[1..])
  }

  /** loadHighlightTimeline over the given repository contents. */
  function Timeline(rows: seq<Highlight>, videoId: string): seq<HighlightDataDto> {
    MapToDto(FindByVideoOrdered(rows, videoId))
  }

  /**
   * The timeline lists the video's highlights in start-time order, one DTO per
   * row, each carrying the row's fields and its url behind the server origin.
   */
  lemma TimelineFields(rows: seq<Highlight>, videoId: string)
    ensures var ordered := FindByVideoOrdered(rows, videoId);
            var t := Timeline(rows, videoId);
            && |t| == |ForVideo(rows, videoId)|
            && (forall i :: 0 <= i < |t| ==>
                  && ordered[i] in rows && ordered[i].videoId == videoId
                  && t[i].id == ordered[i].id && t[i].startTime == ordered[i].startTime
                  && t[i].endTime == ordered[i].endTime && t[i].positiveRate == ordered[i].positive
                  && t[i].viewerIncrease == ordered[i].increaseRate && t[i].summary == ordered[i].summary
                  && StartsWith(t[i].videoUrl, ServerOrigin))
            && (forall i, j :: 0 <= i < j < |t| ==> LexLe(t[i].startTime, t[j].startTime))
  {
    var ordered := FindByVideoOrdered(rows, videoId);
    assert |ordered| == |multiset(ordered)| == |multiset(ForVideo(rows, videoId))| == |ForVideo(rows, videoId)|;
    ForVideoMembers(rows, videoId);
    forall i | 0 <= i < |ordered| ensures ordered[i] in rows && ordered[i].videoId == videoId {
      assert ordered[i] in multiset(ordered);
      assert ordered[i] in ForVideo(rows, videoId);
    }
    forall i | 0 <= i < |ordered| ensures StartsWith(ToDto(ordered[i]).videoUrl, ServerOrigin) {
      var u := ToDto(ordered[i]).videoUrl;
      assert u[..|ServerOrigin|] == ServerOrigin;
    }
  }

  /** Every stored url is a clip url: it starts with '/'. */
  predicate UrlsRooted(rows: seq<Highlight>) {
    forall h :: h in rows ==> (h.videoUrl.Some? ==> h.videoUrl.value != [] && h.videoUrl.value[0] == '/')
  }

  /** The timeline holds the DTO of each of the video's rows and of nothing else. */
  lemma TimelineRows(rows: seq<Highlight>, videoId: string)
    ensures var t := Timeline(rows, videoId);
            && (forall i :: 0 <= i < |t| ==> exists h :: h in rows && h.videoId == videoId && t[i] == ToDto(h))
            && (forall h :: h in rows && h.videoId == videoId ==> ToDto(h) in t)
  {
    var own := ForVideo(rows, videoId);
    var ordered := FindByVideoOrdered(rows, videoId);
    var t := MapToDto(ordered);
    assert multiset(ordered) == multiset(own);
    ForVideoMembers(rows, videoId);
    forall i | 0 <= i < |t| ensures exists h :: h in rows && h.videoId == videoId && t[i] == ToDto(h) {
      var g := ordered[i];
      assert g in multiset(own);
      assert g in own;
    }
    forall h | h in rows && h.videoId == videoId ensures ToDto(h) in t {
      assert h in multiset(ordered);
      var k :| 0 <= k < |ordered| && ordered[k] == h;
      assert t[k] == ToDto(h);
    }
  }

  /** `existsByVideoUrl`. */
  predicate ExistsByVideoUrl(rows: seq<Highlight>, url: string) {
    exists h :: h in rows && h.videoUrl == Some(url)
  }

  /**
   * The existence check before cutting compares the `./videos/...` output path
   * with stored urls, while the urls this service stores start with '/': when
   * every stored url is such a url, the check is always false.
   */
  lemma ExistsCheckNeverMatches(rows: seq<Highlight>, videoId: string, start: string, end: string)
    requires UrlsRooted(rows)
    ensures !ExistsByVideoUrl(rows, ClipPath(videoId, start, end))
  {
    assert ClipPath(videoId, start, end)[0] == '.';
  }

  // ---------------------------------------------------------------------------
  // Cutting one highlight
  // ---------------------------------------------------------------------------

  /** Store the row `h` under its id. */
  function ReplaceById(rows: seq<Highlight>, h: Highlight): (r: seq<Highlight>)
    ensures |r| == |rows|
    ensures forall i :: 0 <= i < |rows| ==> r[i] == if rows[i].id == h.id then h else rows[i]
  {
    if rows == [] then [] else [if rows[0].id == h.id then h else rows[0]] + ReplaceById(rows[1..], h)
  }

  /**
   * The executor job of one highlight: if no row already has its output path as url,
   * cut the clip (ffmpeg) and summarise it; a failure there aborts the job,
   * and the executor drops the exception. Otherwise the row gets its url and
   * is saved.
   */
  function CutOne(rows: seq<Highlight>, videoId: string, h: Highlight, workDir: string,
                  ffmpegOk: string -> bool, analyze: string -> Result<string, Failure>): seq<Highlight>
  {
    var outputPath := ClipPath(videoId, h.startTime, h.endTime);
    var url := outputPath[1..];
    if ExistsByVideoUrl(rows, outputPath) then ReplaceById(rows, h.(videoUrl := Some(url)))
    else if !ffmpegOk(outputPath) then rows
    else match analyze(workDir + url)
      case Err(_) => rows
      case Ok(summary) => ReplaceById(rows, h.(summary := Some(summary), videoUrl := Some(url)))
  }

  function CutAll(rows: seq<Highlight>, videoId: string, todo: seq<Highlight>, workDir: string,
                  ffmpegOk: string -> bool, analyze: string -> Result<string, Failure>): seq<Highlight>
    decreases |todo|
  {
    if todo == [] then rows
    else CutAll(CutOne(rows, videoId, todo[0], workDir, ffmpegOk, analyze), videoId, todo[1..],
                workDir, ffmpegOk, analyze)
  }

  /**
   * A clip job touches only the row with its highlight's id; a finished job leaves
   * the clip url (the output path without '.') and, when it ran the summariser,
   * the summary.
   */
  lemma CutOneEffect(rows: seq<Highlight>, videoId: string, h: Highlight, workDir: string,
                     ffmpegOk: string -> bool, analyze: string -> Result<string, Failure>)
    ensures var r := CutOne(rows, videoId, h, workDir, ffmpegOk, analyze);
            && |r| == |rows|
            && (forall i :: 0 <= i < |rows| && rows[i].id != h.id ==> r[i] == rows[i])
            && (forall i :: 0 <= i < |rows| && rows[i].id == h.id && r[i] != rows[i] ==>
                  && r[i].videoUrl == Some(ClipUrl(videoId, h.startTime, h.endTime))
                  && r[i].id == h.id && r[i].startTime == h.startTime && r[i].endTime == h.endTime
                  && (r[i].summary != h.summary ==>
                        !ExistsByVideoUrl(rows, ClipPath(videoId, h.startTime, h.endTime))))
  {
  }

  /** A clip job stores no url but a clip url. */
  lemma CutOneRooted(rows: seq<Highlight>, videoId: string, h: Highlight, workDir: string,
                     ffmpegOk: string -> bool, analyze: string -> Result<string, Failure>)
    requires UrlsRooted(rows)
    ensures UrlsRooted(CutOne(rows, videoId, h, workDir, ffmpegOk, analyze))
  {
    var r := CutOne(rows, videoId, h, workDir, ffmpegOk, analyze);
    var u := ClipUrl(videoId, h.startTime, h.endTime);
    forall g | g in r ensures g.videoUrl.Some? ==> g.videoUrl.value != [] && g.videoUrl.value[0] == '/' {
      var i :| 0 <= i < |r| && r[i] == g;
      assert rows[i] in rows;
      assert r[i] == rows[i] || r[i].videoUrl == Some(u);
    }
  }

  /**
   * With a summariser that always fails, as the `--file` path of the analyser
   * CLI does, no clip job stores anything: the existence check never matches,
   * and either ffmpeg or the summariser aborts the job.
   */
  lemma {:induction false} CutAllFailingSummariser(rows: seq<Highlight>, videoId: string, todo: seq<Highlight>,
                                                   workDir: string, ffmpegOk: string -> bool,
                                                   analyze: string -> Result<string, Failure>)
    requires UrlsRooted(rows)
    requires forall p :: analyze(p).Err?
    ensures CutAll(rows, videoId, todo, workDir, ffmpegOk, analyze) == rows
    decreases |todo|
  {
    if todo != [] {
      var h := todo[0];
      ExistsCheckNeverMatches(rows, videoId, h.startTime, h.endTime);
      assert CutOne(rows, videoId, h, workDir, ffmpegOk, analyze) == rows;
      CutAllFailingSummariser(rows, videoId, todo[1..], workDir, ffmpegOk, analyze);
    }
  }

  // ---------------------------------------------------------------------------
  // The service object
  // ---------------------------------------------------------------------------

  class HighlightService {
    /** HighlightRepository rows, in insertion order. */
    var highlights: seq<Highlight>
    /** The next generated id. */
    var nextId: int
    /** Files under ./videos/: path to uploaded content. */
    var videoFiles: map<string, string>

    /** Generated ids increase along the rows and stay below `nextId`. */
    predicate Valid()
      reads this
    {
      IdsIncreasing(highlights) && IdsBelow(highlights, nextId)
    }

    constructor ()
      ensures highlights == [] && nextId == 1 && videoFiles == map[]
      ensures Valid() && UrlsRooted(highlights)
    {
      highlights := [];
      nextId := 1;
      videoFiles := map[];
    }

    /** `highlightRepository.save` of a new row: it gets the next id. */
    method SaveNew(h: Highlight)
      requires Valid()
      modifies this`highlights, this`nextId
      ensures Valid()
      ensures highlights == old(highlights) + [h.(id := old(nextId))]
      ensures nextId == old(nextId) + 1
    {
      highlights := highlights + [h.(id := nextId)];
      nextId := nextId + 1;
    }

    /**
     * extractHighlight: drop the video's rows, refuse fewer than two samples,
     * then save a row for each qualifying sample with its increase rate.
     */
    method ExtractHighlight(videoId: string, sentimentStream: seq<Sentiment>)
      returns (r: Result<(), HighlightError>)
      requires Valid() && UrlsRooted(highlights)
      modifies this`highlights, this`nextId
      ensures Valid() && UrlsRooted(highlights)
      ensures r.Err? <==> |sentimentStream| < 2
      ensures r.Err? ==> r.error == NotEnoughSentiments(videoId)
      ensures var saved := if |sentimentStream| < 2 then [] else Picks(videoId, sentimentStream);
              && highlights == WithoutVideo(old(highlights), videoId) + Numbered(saved, old(nextId))
              && nextId == old(nextId) + |saved|
    {
      highlights := WithoutVideo(highlights, videoId);
      WithoutVideoKeepsOrder(old(highlights), videoId, nextId);
      if |sentimentStream| < 2 {
        assert highlights + Numbered([], nextId) == highlights;
        return Err(NotEnoughSentiments(videoId));
      }
      SavePicks(videoId, sentimentStream);
      r := Ok(());
    }

    /**
     * The selection loop of extractHighlight: walk the samples with the
     * previous one's message count and save the draft of every qualifying
     * sample, in stream order.
     */
    method SavePicks(videoId: string, sentimentStream: seq<Sentiment>)
      requires Valid() && UrlsRooted(highlights)
      modifies this`highlights, this`nextId
      ensures Valid() && UrlsRooted(highlights)
      ensures highlights == old(highlights) + Numbered(Picks(videoId, sentimentStream), old(nextId))
      ensures nextId == old(nextId) + |Picks(videoId, sentimentStream)|
    {
      ghost var done: seq<Highlight> := [];
      var prevMsg := 0;
      var i := 0;
      while i < |sentimentStream|
        invariant 0 <= i <= |sentimentStream|
        invariant Valid() && UrlsRooted(highlights)
        invariant prevMsg == if i == 0 then 0 else sentimentStream[i - 1].totalMessages
        invariant done == Picks(videoId, sentimentStream[..i])
        invariant highlights == old(highlights) + Numbered(done, old(nextId)) && nextId == old(nextId) + |done|
      {
        var s := sentimentStream[i];
        var rate := IncreaseRate(prevMsg, s.totalMessages);
        PicksStep(videoId, sentimentStream, i);
        if Qualifies(s) {
          var h := Draft(videoId, s, rate);
          NumberedAppend(done, h, old(nextId));
          ConcatAssoc(old(highlights), Numbered(done, old(nextId)), [h.(id := nextId)]);
          SaveNew(h);
          done := done + [h];
        }
        prevMsg := s.totalMessages;
        i := i + 1;
      }
      assert sentimentStream[..i] == sentimentStream;
    }

    /**
     * cutHighlightVideos: drop the rows the repository rejects, then run the
     * clip job of every remaining highlight of the video in start-time order.
     */
    method CutHighlightVideos(videoId: string, notHighlight: Highlight -> bool, workDir: string,
                              ffmpegOk: string -> bool, analyze: string -> Result<string, Failure>)
      requires Valid() && UrlsRooted(highlights)
      modifies this`highlights
      ensures Valid() && UrlsRooted(highlights)
      ensures var kept := WithoutRejected(old(highlights), videoId, notHighlight);
              highlights == CutAll(kept, videoId, FindByVideoOrdered(kept, videoId), workDir, ffmpegOk, analyze)
    {
      highlights := WithoutRejected(highlights, videoId, notHighlight);
      WithoutRejectedKeepsOrder(old(highlights), videoId, notHighlight, nextId);
      var todo := FindByVideoOrdered(highlights, videoId);
      ghost var kept := highlights;
      for i := 0 to |todo|
        invariant Valid() && UrlsRooted(highlights)
        invariant CutAll(highlights, videoId, todo[i..], workDir, ffmpegOk, analyze)
                  == CutAll(kept, videoId, todo, workDir, ffmpegOk, analyze)
      {
        var h := todo[i];
        assert todo[i..][0] == h && todo[i..][1..] == todo[i + 1..];
        CutOneKeepsIds(highlights, videoId, h, workDir, ffmpegOk, analyze, nextId);
        CutOneRooted(highlights, videoId, h, workDir, ffmpegOk, analyze);
        highlights := CutOne(highlights, videoId, h, workDir, ffmpegOk, analyze);
      }
      assert todo[|todo|..] == [];
    }

    /**
     * loadHighlightTimeline: one DTO for each row of `videoId`, every row of the
     * video among them, in start-time order.
     */
    function LoadHighlightTimeline(videoId: string): (r: seq<HighlightDataDto>)
      reads this
      ensures r == Timeline(highlights, videoId)
      ensures |r| == |ForVideo(highlights, videoId)|
      ensures forall i :: 0 <= i < |r| ==> exists h :: h in highlights && h.videoId == videoId && r[i] == ToDto(h)
      ensures forall h :: h in highlights && h.videoId == videoId ==> ToDto(h) in r
      ensures forall i, j :: 0 <= i < j < |r| ==> LexLe(r[i].startTime, r[j].startTime)
    {
      TimelineFields(highlights, videoId);
      TimelineRows(highlights, videoId);
      MapToDto(FindByVideoOrdered(highlights, videoId))
    }

    /**
     * highlightVideo: when the video already has highlights, nothing is copied,
     * extracted or cut; otherwise the upload is copied if its file is absent,
     * highlights are extracted (failing for fewer than two samples) and cut.
     * Either way the result is the timeline of the repository as it then is.
     */
    method HighlightVideo(videoId: string, upload: string, sentimentStream: seq<Sentiment>,
                          notHighlight: Highlight -> bool, workDir: string,
                          ffmpegOk: string -> bool, analyze: string -> Result<string, Failure>)
      returns (r: Result<seq<HighlightDataDto>, HighlightError>)
      requires Valid() && UrlsRooted(highlights)
      modifies this`highlights, this`nextId, this`videoFiles
      ensures Valid() && UrlsRooted(highlights)
      ensures ForVideo(old(highlights), videoId) != [] ==>
                highlights == old(highlights) && videoFiles == old(videoFiles) && nextId == old(nextId)
                && r == Ok(Timeline(highlights, videoId))
      ensures ForVideo(old(highlights), videoId) == [] ==>
                && videoFiles == (if VideoBasePath + videoId + ".mp4" in old(videoFiles) then old(videoFiles)
                                  else old(videoFiles)[VideoBasePath + videoId + ".mp4" := upload])
                && (|sentimentStream| < 2 <==> r.Err?)
                && (r.Ok? ==> r.value == Timeline(highlights, videoId))
      ensures ForVideo(old(highlights), videoId) == [] && |sentimentStream| < 2 ==>
                highlights == WithoutVideo(old(highlights), videoId) && nextId == old(nextId)
      ensures ForVideo(old(highlights), videoId) == [] && |sentimentStream| >= 2 ==>
                var kept := WithoutRejected(WithoutVideo(old(highlights), videoId)
                                            + Numbered(Picks(videoId, sentimentStream), old(nextId)),
                                            videoId, notHighlight);
                && highlights == CutAll(kept, videoId, FindByVideoOrdered(kept, videoId), workDir, ffmpegOk, analyze)
                && nextId == old(nextId) + |Picks(videoId, sentimentStream)|
    {
      if ForVideo(highlights, videoId) == [] {
        var filePath := VideoBasePath + videoId + ".mp4";
        if filePath !in videoFiles {
          videoFiles := videoFiles[filePath := upload];
        }
        var extracted := ExtractHighlight(videoId, sentimentStream);
        if extracted.Err? {
          assert highlights == WithoutVideo(old(highlights), videoId) + [];
          return Err(extracted.error);
        }
        CutHighlightVideos(videoId, notHighlight, workDir, ffmpegOk, analyze);
      }
      r := Ok(LoadHighlightTimeline(videoId));
    }
  }

  // ---------------------------------------------------------------------------
  // Helper lemmas for the loops
  // ---------------------------------------------------------------------------

  predicate IdsIncreasing(rows: seq<Highlight>) {
    forall i, j :: 0 <= i < j < |rows| ==> rows[i].id < rows[j].id
  }

  predicate IdsBelow(rows: seq<Highlight>, n: int) {
    forall i :: 0 <= i < |rows| ==> rows[i].id < n
  }

  predicate IdsAbove(rows: seq<Highlight>, m: int) {
    forall i :: 0 <= i < |rows| ==> m < rows[i].id
  }

  lemma IncreasingCons(x: Highlight, rest: seq<Highlight>)
    requires IdsIncreasing(rest) && IdsAbove(rest, x.id)
    ensures IdsIncreasing([x] + rest)
  {
    forall i, j | 0 <= i < j < |rest| + 1 ensures ([x] + rest)[i].id < ([x] + rest)[j].id {
      if i > 0 { assert ([x] + rest)[i] == rest[i - 1]; }
      assert ([x] + rest)[j] == rest[j - 1];
    }
  }

  /** Deleting rows keeps every bound on the ids of those that remain. */
  lemma {:induction false} WithoutVideoBounds(rows: seq<Highlight>, videoId: string, lo: int, n: int)
    ensures IdsAbove(rows, lo) ==> IdsAbove(WithoutVideo(rows, videoId), lo)
    ensures IdsBelow(rows, n) ==> IdsBelow(WithoutVideo(rows, videoId), n)
    decreases |rows|
  {
    if rows != [] {
      assert forall i :: 0 <= i < |rows| - 1 ==> rows[1..][i] == rows[i + 1];
      WithoutVideoBounds(rows[1..], videoId, lo, n);
    }
  }

  lemma {:induction false} WithoutVideoKeepsOrder(rows: seq<Highlight>, videoId: string, n: int)
    requires IdsIncreasing(rows)
    ensures IdsIncreasing(WithoutVideo(rows, videoId))
    ensures IdsBelow(rows, n) ==> IdsBelow(WithoutVideo(rows, videoId), n)
    decreases |rows|
  {
    WithoutVideoBounds(rows, videoId, 0, n);
    if rows != [] {
      assert forall i :: 0 <= i < |rows| - 1 ==> rows[1..][i] == rows[i + 1];
      WithoutVideoKeepsOrder(rows[1..], videoId, n);
      WithoutVideoBounds(rows[1..], videoId, rows[0].id, n);
      if rows[0].videoId != videoId {
        IncreasingCons(rows[0], WithoutVideo(rows[1..], videoId));
      }
    }
  }

  lemma {:induction false} WithoutRejectedBounds(rows: seq<Highlight>, videoId: string,
                                                 notHighlight: Highlight -> bool, lo: int, n: int)
    ensures IdsAbove(rows, lo) ==> IdsAbove(WithoutRejected(rows, videoId, notHighlight), lo)
    ensures IdsBelow(rows, n) ==> IdsBelow(WithoutRejected(rows, videoId, notHighlight), n)
    decreases |rows|
  {
    if rows != [] {
      assert forall i :: 0 <= i < |rows| - 1 ==> rows[1..][i] == rows[i + 1];
      WithoutRejectedBounds(rows[1..], videoId, notHighlight, lo, n);
    }
  }

  lemma {:induction false} WithoutRejectedKeepsOrder(rows: seq<Highlight>, videoId: string,
                                                     notHighlight: Highlight -> bool, n: int)
    requires IdsIncreasing(rows)
    ensures IdsIncreasing(WithoutRejected(rows, videoId, notHighlight))
    ensures IdsBelow(rows, n) ==> IdsBelow(WithoutRejected(rows, videoId, notHighlight), n)
    decreases |rows|
  {
    WithoutRejectedBounds(rows, videoId, notHighlight, 0, n);
    if rows != [] {
      assert forall i :: 0 <= i < |rows| - 1 ==> rows[1..][i] == rows[i + 1];
      WithoutRejectedKeepsOrder(rows[1..], videoId, notHighlight, n);
      WithoutRejectedBounds(rows[1..], videoId, notHighlight, rows[0].id, n);
      if !(rows[0].videoId == videoId && notHighlight(rows[0])) {
        IncreasingCons(rows[0], WithoutRejected(rows[1..], videoId, notHighlight));
      }
    }
  }

  /** One more sample seen by the extraction loop. */
  lemma PicksStep(videoId: string, stream: seq<Sentiment>, i: int)
    requires 0 <= i < |stream|
    ensures Picks(videoId, stream[..i + 1])
            == Picks(videoId, stream[..i])
               + (if Qualifies(stream[i])
                  then [Draft(videoId, stream[i],
                              IncreaseRate(if i == 0 then 0 else stream[i - 1].totalMessages, stream[i].totalMessages))]
                  else [])
  {
    var p := stream[..i + 1];
    assert p[..i] == stream[..i];
    assert p[i] == stream[i];
    if i > 0 { assert p[i - 1] == stream[i - 1]; }
  }

  lemma NumberedAppend(rows: seq<Highlight>, h: Highlight, firstId: int)
    ensures Numbered(rows + [h], firstId) == Numbered(rows, firstId) + [h.(id := firstId + |rows|)]
  {
    assert forall k :: 0 <= k < |rows| ==> (rows + [h])[k] == rows[k];
  }

  lemma CutOneKeepsIds(rows: seq<Highlight>, videoId: string, h: Highlight, workDir: string,
                       ffmpegOk: string -> bool, analyze: string -> Result<string, Failure>, n: int)
    ensures var r := CutOne(rows, videoId, h, workDir, ffmpegOk, analyze);
            && (IdsIncreasing(rows) ==> IdsIncreasing(r))
            && (IdsBelow(rows, n) ==> IdsBelow(r, n))
  {
    var r := CutOne(rows, videoId, h, workDir, ffmpegOk, analyze);
    assert |r| == |rows| && forall i :: 0 <= i < |rows| ==> r[i].id == rows[i].id;
  }
}
