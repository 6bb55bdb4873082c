/**
 * The live sentiment page (front-end/src/app/page.tsx): the user types a
 * channel id, starts a polling session, and the page shows the newest sample
 * of the channel's sentiment timeline as a three-slice chart.
 *
 * `Home` holds the component's state. React's setters are applied in the
 * order the handlers call them; the remote fetch is an input (`None` when it
 * rejects); the 60-second interval is the `intervalArmed` flag, and each of
 * its ticks is a call of `Poll`.
 */
module HomePage {
  import opened Wrappers
  import opened Text

  /** One timeline sample as the sentiment API returns it. */
  datatype SentimentPoint = SentimentPoint(time: string, positive: real, neutral: real, negative: real)

  /**
   * The stored timeline together with the identity of the array object that
   * holds it: React re-renders on a new identity even when the contents are
   * equal. Every array the page stores gets a larger identity than the last.
   */
  datatype Stored = Stored(points: seq<SentimentPoint>, identity: nat)

  /**
   * The functional update of `setSentimentData`: keep the previous array when
   * the fetched timeline serialises to the same JSON, take the fetched one
   * otherwise. The contents afterwards are always the fetched timeline; only
   * whether a new array is stored depends on the comparison.
   */
  function Refresh(prev: Stored, fetched: seq<SentimentPoint>): (r: Stored)
    ensures r.points == fetched
    ensures r == prev <==> prev.points == fetched
    ensures r != prev ==> r.identity > prev.identity
  {
    if prev.points != fetched then Stored(fetched, prev.identity + 1) else prev
  }

  /** Applying the same fetched timeline twice stores what applying it once does. */
  lemma RefreshIdempotent(prev: Stored, fetched: seq<SentimentPoint>)
    ensures Refresh(Refresh(prev, fetched), fetched) == Refresh(prev, fetched)
  {
  }

  /** `latest`: the newest sample, or null for an empty timeline. */
  function Latest(data: seq<SentimentPoint>): (r: Option<SentimentPoint>)
    ensures r.None? <==> data == []
    ensures r.Some? ==> r.value in data
  {
    if |data| > 0 then Some(data[|data| - 1]) else None
  }

  /** The sample appended last is the one `latest` shows. */
  lemma LatestOfAppend(data: seq<SentimentPoint>, p: SentimentPoint)
    ensures Latest(data + [p]) == Some(p)
  {
  }

  /** One slice of the pie chart. */
  datatype ChartEntry = ChartEntry(name: string, value: real)

  const PositiveLabel: string := "긍정"
  const NeutralLabel: string := "중립"
  const NegativeLabel: string := "부정"

  /** `chartData`: no slices without a sample; otherwise positive, neutral, negative, in that order. */
  function ChartData(latest: Option<SentimentPoint>): (r: seq<ChartEntry>)
    ensures latest.None? <==> r == []
    ensures latest.Some? ==> |r| == 3
  {
    match latest
    case None => []
    case Some(p) =>
      [ChartEntry(PositiveLabel, p.positive), ChartEntry(NeutralLabel, p.neutral),
       ChartEntry(NegativeLabel, p.negative)]
  }

  /** The sum of the slices' values. */
  function ChartTotal(entries: seq<ChartEntry>): real {
    if entries == [] then 0.0 else entries[0].value + ChartTotal(entries[1..])
  }

  /**
   * The chart shows the newest sample: three differently labelled slices in
   * the order positive, neutral, negative, carrying the sample's three
   * shares, so that the whole pie is the sum of the shares.
   */
  lemma ChartShowsNewest(data: seq<SentimentPoint>)
    requires data != []
    ensures var p := data[|data| - 1];
            var r := ChartData(Latest(data));
            && |r| == 3
            && r[0] == ChartEntry(PositiveLabel, p.positive)
            && r[1] == ChartEntry(NeutralLabel, p.neutral)
            && r[2] == ChartEntry(NegativeLabel, p.negative)
            && r[0].name != r[1].name && r[1].name != r[2].name && r[0].name != r[2].name
            && ChartTotal(r) == p.positive + p.neutral + p.negative
  {
    var p := data[|data| - 1];
    var r := ChartData(Latest(data));
    assert ChartTotal(r[2..]) == p.negative by {
      assert r[2..][1..] == [];
    }
    assert r[1..][1..] == r[2..];
  }

  class Home {
    var inputValue: string
    var channel: string
    var sentimentData: seq<SentimentPoint>
    var dataIdentity: nat
    var isLoading: bool
    var hasData: bool
    var intervalArmed: bool

    /**
     * Between handlers nothing is loading, and data or a running interval
     * exist only for a chosen channel.
     */
    predicate Valid()
      reads this
    {
      && !isLoading
      && (hasData ==> channel != "")
      && (intervalArmed ==> channel != "")
    }

    function StoredData(): Stored
      reads this
    {
      Stored(sentimentData, dataIdentity)
    }

    constructor()
      ensures Valid()
      ensures inputValue == "" && channel == "" && sentimentData == []
      ensures !isLoading && !hasData && !intervalArmed
    {
      inputValue := "";
      channel := "";
      sentimentData := [];
      dataIdentity := 0;
      isLoading := false;
      hasData := false;
      intervalArmed := false;
    }

    /** The text box's `onChange`. */
    method TypeInput(value: string)
      modifies this`inputValue
      ensures inputValue == value
    {
      inputValue := value;
    }

    /**
     * handleStart: a blank input changes nothing; otherwise the trimmed input
     * becomes the channel and the page starts over with a fresh, empty
     * timeline. `channelChanged` tells whether React re-runs the polling
     * effect: it does not when the same channel is started again.
     */
    method HandleStart() returns (channelChanged: bool)
      requires Valid()
      modifies this`channel, this`sentimentData, this`dataIdentity, this`hasData
      ensures Valid()
      ensures Trim(JavaScript, old(inputValue)) == "" ==>
                && channel == old(channel) && StoredData() == old(StoredData()) && hasData == old(hasData)
                && !channelChanged
      ensures Trim(JavaScript, old(inputValue)) != "" ==>
                && channel == Trim(JavaScript, old(inputValue))
                && sentimentData == [] && dataIdentity > old(dataIdentity) && !hasData
                && channelChanged == (channel != old(channel))
    {
      var trimmed := Trim(JavaScript, inputValue);
      assert trimmed == Trim(JavaScript, old(inputValue));
      if trimmed == "" {
        return false;
      }
      channelChanged := trimmed != channel;
      channel := trimmed;
      sentimentData := [];
      dataIdentity := dataIdentity + 1;
      hasData := false;
    }

    /**
     * handleStop: the interval is cleared, the channel emptied and hasData
     * lowered; the timeline on screen and the text box are kept.
     */
    method HandleStop()
      requires Valid()
      modifies this`channel, this`hasData, this`intervalArmed
      ensures Valid()
      ensures channel == "" && !hasData && !intervalArmed
      ensures StoredData() == old(StoredData()) && inputValue == old(inputValue)
    {
      intervalArmed := false;
      channel := "";
      hasData := false;
    }

    /**
     * `load(isInitial)`: fetch the channel's timeline and store it through
     * `Refresh`. Only the initial load raises isLoading (it is raised exactly
     * while that fetch is outstanding, as `loadingDuringFetch` records) and
     * lowers it again whatever the outcome; only a successful initial load
     * raises hasData; a failed fetch leaves the data alone.
     */
    method Load(isInitial: bool, fetched: Option<seq<SentimentPoint>>) returns (ghost loadingDuringFetch: bool)
      requires channel != ""
      modifies this`sentimentData, this`dataIdentity, this`isLoading, this`hasData
      ensures loadingDuringFetch == (isInitial || old(isLoading))
      ensures isLoading == (if isInitial then false else old(isLoading))
      ensures fetched.None? ==> StoredData() == old(StoredData()) && hasData == old(hasData)
      ensures fetched.Some? ==>
                && StoredData() == Refresh(old(StoredData()), fetched.value)
                && hasData == (old(hasData) || isInitial)
    {
      if isInitial {
        isLoading := true;
      }
      loadingDuringFetch := isLoading;
      if fetched.Some? {
        var next := Refresh(StoredData(), fetched.value);
        sentimentData := next.points;
        dataIdentity := next.identity;
        if isInitial {
          hasData := true;
        }
      }
      if isInitial {
        isLoading := false;
      }
    }

    /**
     * The effect keyed on `channel`, run after every change of it: the
     * previous run's interval is cleared; with an empty channel nothing else
     * happens; otherwise the initial load runs and the interval is armed.
     */
    method ChannelEffect(initialFetch: Option<seq<SentimentPoint>>) returns (ghost loadingDuringFetch: bool)
      requires Valid()
      modifies this`sentimentData, this`dataIdentity, this`isLoading, this`hasData, this`intervalArmed
      ensures Valid()
      ensures channel == "" ==>
                && StoredData() == old(StoredData()) && hasData == old(hasData) && !intervalArmed
                && !loadingDuringFetch
      ensures channel != "" ==>
                && StoredData() == (if initialFetch.Some? then Refresh(old(StoredData()), initialFetch.value)
                                    else old(StoredData()))
                && hasData == (old(hasData) || initialFetch.Some?)
                && intervalArmed && loadingDuringFetch
    {
      intervalArmed := false;
      if channel == "" {
        return false;
      }
      loadingDuringFetch := Load(true, initialFetch);
      intervalArmed := true;
    }

    /**
     * One tick of the interval: `load(false)` while the interval is armed,
     * nothing otherwise. A tick never touches isLoading or hasData.
     */
    method Poll(fetched: Option<seq<SentimentPoint>>) returns (ghost loadingDuringFetch: bool)
      requires Valid()
      modifies this`sentimentData, this`dataIdentity, this`isLoading, this`hasData
      ensures Valid()
      ensures !loadingDuringFetch && isLoading == old(isLoading) && hasData == old(hasData)
      ensures StoredData() == (if intervalArmed && fetched.Some? then Refresh(old(StoredData()), fetched.value)
                               else old(StoredData()))
    {
      loadingDuringFetch := false;
      if intervalArmed {
        loadingDuringFetch := Load(false, fetched);
      }
    }
  }
}
