/**
 * YouTubeService: look up a live stream's chat id and start time, then pull one
 * page of chat messages and store each one that is not a duplicate of a chat
 * already stored by the same author with the same text within a minute of it.
 *
 * The YouTube Data API responses are inputs (already decoded); the chat
 * repository is the `chatStore` sequence of the service object.
 */
module YouTube {
  import opened Wrappers
  import opened Text
  import opened TimeFormat

  /** The Chat entity as the service fills it in. */
  datatype Chat = Chat(videoId: string, author: string, text: string, publishedAt: string)

  /**
   * One element of `items` in the liveChat/messages response: the snippet's
   * publish time in epoch milliseconds (None when `Instant.parse` rejects it),
   * the author's display name and the display message.
   */
  datatype ChatItem = ChatItem(publishedAtMillis: Option<int>, author: string, message: string)

  /** What the `/videos?part=liveStreamingDetails` request gave back. */
  datatype VideoLookup =
    | NoBody
      // the request, `readTree` or `items[0]` threw
    | Unreadable
      // `actualStartTime` (None when `Instant.parse` rejects it) and
      // `activeLiveChatId` (Jackson renders a missing field as "")
    | Details(actualStartTime: Option<int>, activeLiveChatId: string)

  /** `Thread.sleep` refuses a negative duration; `collectLiveChat` rethrows it. */
  datatype CollectError = NegativeSleep

  const DuplicateWindowMs: int := 60000

  // ---------------------------------------------------------------------------
  // Duplicate check
  // ---------------------------------------------------------------------------

  /**
   * ChatRepository.existsByVideoIdAndAuthorAndTextAndPublishedAtBetween (bounds
   * inclusive), as a scan of the store from the newest chat back.
   */
  predicate ExistsBetween(store: seq<Chat>, videoId: string, author: string, text: string,
                          lo: string, hi: string)
    decreases |store|
  {
    && store != []
    && (|| (Matches(store[|store| - 1], videoId, author, text) && InRange(store[|store| - 1].publishedAt, lo, hi))
        || ExistsBetween(store[..|store| - 1], videoId, author, text, lo, hi))
  }

  /** The scan finds a match exactly when some stored chat has the video, author and text, stamped within the bounds. */
  lemma {:induction false} ExistsBetweenIff(store: seq<Chat>, videoId: string, author: string, text: string,
                                            lo: string, hi: string)
    ensures ExistsBetween(store, videoId, author, text, lo, hi) <==>
            exists i :: 0 <= i < |store| && Matches(store[i], videoId, author, text)
                        && InRange(store[i].publishedAt, lo, hi)
    decreases |store|
  {
    if store != [] {
      var front := store[..|store| - 1];
      ExistsBetweenIff(front, videoId, author, text, lo, hi);
      assert forall i :: 0 <= i < |front| ==> front[i] == store[i];
    }
  }

  predicate Matches(c: Chat, videoId: string, author: string, text: string) {
    c.videoId == videoId && c.author == author && c.text == text
  }

  predicate InRange(s: string, lo: string, hi: string) {
    LexLe(lo, s) && LexLe(s, hi)
  }

  /** YouTubeService.checkDuplicate: a stored chat within a minute either side. */
  predicate CheckDuplicate(store: seq<Chat>, videoId: string, author: string, message: string,
                           publishAt: int)
  {
    ExistsBetween(store, videoId, author, message,
                  FormatTime(publishAt - DuplicateWindowMs), FormatTime(publishAt + DuplicateWindowMs))
  }

  /**
   * For offsets from the stream start whose window ends before 100 h, a stamp written by
   * `formatTime(q)` falls inside the text window around `p` exactly when `q` lies
   * within a minute of `p`, counted in whole seconds.
   */
  lemma WindowByOffset(p: int, q: int)
    requires 0 <= p && p + DuplicateWindowMs < HundredHours
    requires 0 <= q < HundredHours
    ensures InRange(FormatTime(q), FormatTime(p - DuplicateWindowMs), FormatTime(p + DuplicateWindowMs))
            <==> (p - DuplicateWindowMs) / 1000 <= q / 1000 <= (p + DuplicateWindowMs) / 1000
  {
    FormatTimeOrder(q, p + DuplicateWindowMs);
    if p >= DuplicateWindowMs {
      FormatTimeOrder(p - DuplicateWindowMs, q);
    } else {
      FirstMinuteLowerEnd(p, q);
    }
  }

  /**
   * In the stream's first minute the lower end of the window is a negative
   * offset: its text (such as `00:00:-10`) sorts before every stamp, and so
   * does its second.
   */
  lemma FirstMinuteLowerEnd(p: int, q: int)
    requires 0 <= p < DuplicateWindowMs && 0 <= q < HundredHours
    ensures LexLe(FormatTime(p - DuplicateWindowMs), FormatTime(q))
    ensures (p - DuplicateWindowMs) / 1000 <= q / 1000
  {
    NegativeMinuteSortsFirst(p - DuplicateWindowMs);
    FormatTimeMonotone(0, q);
    FormatTimeZero();
    LexLeTrans(FormatTime(p - DuplicateWindowMs), "00:00:00", FormatTime(q));
  }

  /**
   * checkDuplicate in terms of offsets: when every stored stamp was produced by
   * formatTime from a known offset, the check asks whether some chat with the same
   * video, author and text was posted within a minute (to the second).
   */
  lemma CheckDuplicateByOffset(store: seq<Chat>, offsets: seq<int>, videoId: string,
                               author: string, message: string, p: int)
    requires |offsets| == |store|
    requires forall i :: 0 <= i < |store| ==>
               0 <= offsets[i] < HundredHours && store[i].publishedAt == FormatTime(offsets[i])
    requires 0 <= p && p + DuplicateWindowMs < HundredHours
    ensures CheckDuplicate(store, videoId, author, message, p) <==>
            exists i :: 0 <= i < |store| && Matches(store[i], videoId, author, message)
                        && (p - DuplicateWindowMs) / 1000 <= offsets[i] / 1000 <= (p + DuplicateWindowMs) / 1000
  {
    var lo, hi := FormatTime(p - DuplicateWindowMs), FormatTime(p + DuplicateWindowMs);
    ExistsBetweenIff(store, videoId, author, message, lo, hi);
    forall i | 0 <= i < |store|
      ensures InRange(store[i].publishedAt, lo, hi)
              <==> (p - DuplicateWindowMs) / 1000 <= offsets[i] / 1000 <= (p + DuplicateWindowMs) / 1000
    {
      WindowByOffset(p, offsets[i]);
    }
  }

  /** A chat stamped with `formatTime(p)` is a duplicate of a new chat at the same offset. */
  lemma SelfDuplicate(store: seq<Chat>, videoId: string, author: string, message: string, p: int)
    requires 0 <= p && p + DuplicateWindowMs < HundredHours
    requires Chat(videoId, author, message, FormatTime(p)) in store
    ensures CheckDuplicate(store, videoId, author, message, p)
  {
    var lo, hi := FormatTime(p - DuplicateWindowMs), FormatTime(p + DuplicateWindowMs);
    assert InRange(FormatTime(p), lo, hi) by {
      WindowStartSortsFirst(p);
      FormatTimeMonotone(p, p + DuplicateWindowMs);
    }
    var i :| 0 <= i < |store| && store[i] == Chat(videoId, author, message, FormatTime(p));
    assert Matches(store[i], videoId, author, message) && InRange(store[i].publishedAt, lo, hi);
    ExistsBetweenIff(store, videoId, author, message, lo, hi);
  }

  /** Adding chats to the store never turns a duplicate into a non-duplicate. */
  lemma CheckDuplicateGrows(store: seq<Chat>, bigger: seq<Chat>, videoId: string, author: string,
                            message: string, p: int)
    requires forall c :: c in store ==> c in bigger
    requires CheckDuplicate(store, videoId, author, message, p)
    ensures CheckDuplicate(bigger, videoId, author, message, p)
  {
    var lo, hi := FormatTime(p - DuplicateWindowMs), FormatTime(p + DuplicateWindowMs);
    ExistsBetweenIff(store, videoId, author, message, lo, hi);
    ExistsBetweenIff(bigger, videoId, author, message, lo, hi);
    var i :| 0 <= i < |store| && Matches(store[i], videoId, author, message) && InRange(store[i].publishedAt, lo, hi);
    assert store[i] in bigger;
    var j :| 0 <= j < |bigger| && bigger[j] == store[i];
  }

  // ---------------------------------------------------------------------------
  // Ingesting one page of messages
  // ---------------------------------------------------------------------------

  /**
   * The chats that the `items.forEach` loop of fetchLiveChatMessages saves, in
   * order. Each item is checked against the store as it is when the loop reaches
   * it, so it includes the chats saved earlier in the same page. An item whose
   * timestamp does not parse throws out of the loop: it and everything after it
   * are dropped.
   */
  function Ingest(store: seq<Chat>, videoId: string, liveStart: int, items: seq<ChatItem>): seq<Chat>
    decreases |items|
  {
    if items == [] then []
    else match items[0].publishedAtMillis
      case None => []
      case Some(t) =>
        var p := t - liveStart;
        if CheckDuplicate(store, videoId, items[0].author, items[0].message, p) then
          Ingest(store, videoId, liveStart, items[1..])
        else
          var c := Chat(videoId, items[0].author, items[0].message, FormatTime(p));
          [c] + Ingest(store + [c], videoId, liveStart, items[1..])
  }

  /** The chat an item would become, if saved. */
  function ChatOf(videoId: string, liveStart: int, item: ChatItem): Chat
    requires item.publishedAtMillis.Some?
  {
    Chat(videoId, item.author, item.message, FormatTime(item.publishedAtMillis.value - liveStart))
  }

  /** `a` is `b` with some elements left out, in order. */
  predicate IsSubsequence<T(==)>(a: seq<T>, b: seq<T>)
    decreases |b|
  {
    if a == [] then true
    else if b == [] then false
    else if a[0] == b[0] then IsSubsequence(a[1..], b[1..])
    else IsSubsequence(a, b[1..])
  }

  lemma {:induction false} EmptySubsequence<T>(b: seq<T>)
    ensures IsSubsequence([], b)
  {
  }

  /**
   * The saved chats keep the input order: they are the items' chats with some
   * left out, each carrying the given video id and a stamp formatted from the
   * item's offset to the stream start.
   */
  lemma {:induction false} IngestKeepsOrder(store: seq<Chat>, videoId: string, liveStart: int,
                                            items: seq<ChatItem>)
    requires forall i :: 0 <= i < |items| ==> items[i].publishedAtMillis.Some?
    ensures IsSubsequence(Ingest(store, videoId, liveStart, items),
                          seq(|items|, i requires 0 <= i < |items| => ChatOf(videoId, liveStart, items[i])))
    decreases |items|
  {
    var all := seq(|items|, i requires 0 <= i < |items| => ChatOf(videoId, liveStart, items[i]));
    if items != [] {
      var rest := seq(|items| - 1, i requires 0 <= i < |items| - 1 => ChatOf(videoId, liveStart, items[1..][i]));
      assert all[1..] == rest;
      var t := items[0].publishedAtMillis.value;
      var p := t - liveStart;
      if CheckDuplicate(store, videoId, items[0].author, items[0].message, p) {
        IngestSkips(store, videoId, liveStart, items);
        IngestKeepsOrder(store, videoId, liveStart, items[1..]);
        SubsequenceDropHead(Ingest(store, videoId, liveStart, items[1..]), all);
      } else {
        var c := ChatOf(videoId, liveStart, items[0]);
        IngestSaves(store, videoId, liveStart, items);
        IngestKeepsOrder(store + [c], videoId, liveStart, items[1..]);
        var later := Ingest(store + [c], videoId, liveStart, items[1..]);
        assert c == all[0] && ([c] + later)[1..] == later;
      }
    }
  }

  lemma {:induction false} SubsequenceDropHead<T>(a: seq<T>, b: seq<T>)
    requires b != [] && IsSubsequence(a, b[1..])
    ensures IsSubsequence(a, b)
    decreases |b|, |a|
  {
    if a != [] && a[0] == b[0] {
      // a[1..] must be a subsequence of b[1..] as well
      SubsequenceTail(a, b[1..]);
    }
  }

  lemma {:induction false} SubsequenceTail<T>(a: seq<T>, b: seq<T>)
    requires a != [] && IsSubsequence(a, b)
    ensures IsSubsequence(a[1..], b)
    decreases |b|, |a|
  {
    if a[0] == b[0] {
      if b[1..] != [] {
        SubsequenceDropHead(a[1..], b);
      } else {
        assert a[1..] == [];
      }
    } else {
      SubsequenceTail(a, b[1..]);
      SubsequenceDropHead(a[1..], b);
    }
  }

  /** Every saved chat is for the given video, and no more chats than items are saved. */
  lemma {:induction false} IngestBounded(store: seq<Chat>, videoId: string, liveStart: int,
                                         items: seq<ChatItem>)
    ensures |Ingest(store, videoId, liveStart, items)| <= |items|
    ensures forall c :: c in Ingest(store, videoId, liveStart, items) ==> c.videoId == videoId
    decreases |items|
  {
    if items != [] && items[0].publishedAtMillis.Some? {
      var p := items[0].publishedAtMillis.value - liveStart;
      var c := Chat(videoId, items[0].author, items[0].message, FormatTime(p));
      IngestBounded(store, videoId, liveStart, items[1..]);
      IngestBounded(store + [c], videoId, liveStart, items[1..]);
    }
  }

  /** Offsets whose one-minute window stays inside [0, 100 h). */
  predicate WithinStream(liveStart: int, items: seq<ChatItem>) {
    forall i :: 0 <= i < |items| ==>
      items[i].publishedAtMillis.Some?
      && 0 <= items[i].publishedAtMillis.value - liveStart
      && items[i].publishedAtMillis.value - liveStart + DuplicateWindowMs < HundredHours
  }

  /** The first item matched a stored chat: it is skipped. */
  lemma IngestSkips(store: seq<Chat>, videoId: string, liveStart: int, items: seq<ChatItem>)
    requires items != [] && items[0].publishedAtMillis.Some?
    requires CheckDuplicate(store, videoId, items[0].author, items[0].message,
                            items[0].publishedAtMillis.value - liveStart)
    ensures Ingest(store, videoId, liveStart, items) == Ingest(store, videoId, liveStart, items[1..])
  {
  }

  /** The first item matched nothing: its chat is saved before the rest are looked at. */
  lemma IngestSaves(store: seq<Chat>, videoId: string, liveStart: int, items: seq<ChatItem>)
    requires items != [] && items[0].publishedAtMillis.Some?
    requires !CheckDuplicate(store, videoId, items[0].author, items[0].message,
                             items[0].publishedAtMillis.value - liveStart)
    ensures var c := ChatOf(videoId, liveStart, items[0]);
            Ingest(store, videoId, liveStart, items) == [c] + Ingest(store + [c], videoId, liveStart, items[1..])
  {
  }

  /** A loop step at position `i` that finds a duplicate skips the item. */
  lemma IngestSkipsAt(store: seq<Chat>, videoId: string, liveStart: int, items: seq<ChatItem>, i: int)
    requires 0 <= i < |items| && items[i].publishedAtMillis.Some?
    requires CheckDuplicate(store, videoId, items[i].author, items[i].message,
                            items[i].publishedAtMillis.value - liveStart)
    ensures Ingest(store, videoId, liveStart, items[i..]) == Ingest(store, videoId, liveStart, items[i + 1..])
  {
    assert items[i..][0] == items[i] && items[i..][1..] == items[i + 1..];
    IngestSkips(store, videoId, liveStart, items[i..]);
  }

  /** A loop step at position `i` that finds no duplicate saves the item's chat, which the later steps see. */
  lemma IngestSavesAt(store: seq<Chat>, videoId: string, liveStart: int, items: seq<ChatItem>, i: int)
    requires 0 <= i < |items| && items[i].publishedAtMillis.Some?
    requires !CheckDuplicate(store, videoId, items[i].author, items[i].message,
                             items[i].publishedAtMillis.value - liveStart)
    ensures var c := ChatOf(videoId, liveStart, items[i]);
            Ingest(store, videoId, liveStart, items[i..]) == [c] + Ingest(store + [c], videoId, liveStart, items[i + 1..])
  {
    assert items[i..][0] == items[i] && items[i..][1..] == items[i + 1..];
    IngestSaves(store, videoId, liveStart, items[i..]);
  }

  /** One pass of the loop at position `i`: the item is skipped, or its chat is saved and joins the store. */
  lemma IngestStepAt(store: seq<Chat>, videoId: string, liveStart: int, items: seq<ChatItem>, i: int)
    requires 0 <= i < |items| && items[i].publishedAtMillis.Some?
    ensures var c := ChatOf(videoId, liveStart, items[i]);
            if CheckDuplicate(store, videoId, items[i].author, items[i].message,
                              items[i].publishedAtMillis.value - liveStart)
            then Ingest(store, videoId, liveStart, items[i..]) == Ingest(store, videoId, liveStart, items[i + 1..])
            else Ingest(store, videoId, liveStart, items[i..]) == [c] + Ingest(store + [c], videoId, liveStart, items[i + 1..])
  {
    if CheckDuplicate(store, videoId, items[i].author, items[i].message, items[i].publishedAtMillis.value - liveStart) {
      IngestSkipsAt(store, videoId, liveStart, items, i);
    } else {
      IngestSavesAt(store, videoId, liveStart, items, i);
    }
  }

  /** What one more item adds to the chats saved so far. */
  function Step(store: seq<Chat>, videoId: string, liveStart: int, item: ChatItem): seq<Chat>
    requires item.publishedAtMillis.Some?
  {
    if CheckDuplicate(store, videoId, item.author, item.message, item.publishedAtMillis.value - liveStart)
    then [] else [ChatOf(videoId, liveStart, item)]
  }

  /**
   * The `items.forEach` loop as a fold from the left: one more parseable item
   * adds nothing when it duplicates a chat of the store as the earlier items
   * left it, and its own chat otherwise.
   */
  lemma {:induction false} IngestAppendItem(store: seq<Chat>, videoId: string, liveStart: int,
                                            done: seq<ChatItem>, item: ChatItem)
    requires forall i :: 0 <= i < |done| ==> done[i].publishedAtMillis.Some?
    requires item.publishedAtMillis.Some?
    ensures Ingest(store, videoId, liveStart, done + [item])
            == Ingest(store, videoId, liveStart, done)
               + Step(store + Ingest(store, videoId, liveStart, done), videoId, liveStart, item)
    decreases |done|
  {
    if done == [] {
      AppendToEmpty(store, videoId, liveStart, done, item);
    } else {
      var x, tail := done[0], done[1..];
      assert done == [x] + tail;
      assert forall i :: 0 <= i < |tail| ==> tail[i] == done[i + 1];
      IngestAppendItem(store, videoId, liveStart, tail, item);
      IngestAppendItem(store + [ChatOf(videoId, liveStart, x)], videoId, liveStart, tail, item);
      AppendAfterPrefix(store, videoId, liveStart, done, x, tail, item);
    }
  }

  /** The fold step on an empty prefix: the page `[item]`. */
  lemma {:induction false} AppendToEmpty(store: seq<Chat>, videoId: string, liveStart: int,
                                         done: seq<ChatItem>, item: ChatItem)
    requires done == [] && item.publishedAtMillis.Some?
    ensures Ingest(store, videoId, liveStart, done + [item])
            == Ingest(store, videoId, liveStart, done)
               + Step(store + Ingest(store, videoId, liveStart, done), videoId, liveStart, item)
  {
    assert done + [item] == [item] + done && store + [] == store;
    IngestCons(store, videoId, liveStart, item, done);
    if CheckDuplicate(store, videoId, item.author, item.message, item.publishedAtMillis.value - liveStart) {
    } else {
      assert [ChatOf(videoId, liveStart, item)] + [] == [ChatOf(videoId, liveStart, item)];
    }
  }

  /** The fold step on a prefix `done == [x] + tail`, from the step for `tail`. */
  lemma {:induction false} AppendAfterPrefix(store: seq<Chat>, videoId: string, liveStart: int,
                                             done: seq<ChatItem>, x: ChatItem, tail: seq<ChatItem>, item: ChatItem)
    requires done == [x] + tail && x.publishedAtMillis.Some? && item.publishedAtMillis.Some?
    requires Ingest(store, videoId, liveStart, tail + [item])
             == Ingest(store, videoId, liveStart, tail)
                + Step(store + Ingest(store, videoId, liveStart, tail), videoId, liveStart, item)
    requires var c := ChatOf(videoId, liveStart, x);
             Ingest(store + [c], videoId, liveStart, tail + [item])
             == Ingest(store + [c], videoId, liveStart, tail)
                + Step(store + [c] + Ingest(store + [c], videoId, liveStart, tail), videoId, liveStart, item)
    ensures Ingest(store, videoId, liveStart, done + [item])
            == Ingest(store, videoId, liveStart, done)
               + Step(store + Ingest(store, videoId, liveStart, done), videoId, liveStart, item)
  {
    assert done + [item] == [x] + (tail + [item]);
    AppendAfterFirst(store, videoId, liveStart, x, tail, item);
  }

  /** The fold step for a prefix `[x] + tail`, given the step for `tail` against either store. */
  lemma {:induction false} AppendAfterFirst(store: seq<Chat>, videoId: string, liveStart: int,
                                            x: ChatItem, tail: seq<ChatItem>, item: ChatItem)
    requires x.publishedAtMillis.Some? && item.publishedAtMillis.Some?
    requires Ingest(store, videoId, liveStart, tail + [item])
             == Ingest(store, videoId, liveStart, tail)
                + Step(store + Ingest(store, videoId, liveStart, tail), videoId, liveStart, item)
    requires var c := ChatOf(videoId, liveStart, x);
             Ingest(store + [c], videoId, liveStart, tail + [item])
             == Ingest(store + [c], videoId, liveStart, tail)
                + Step(store + [c] + Ingest(store + [c], videoId, liveStart, tail), videoId, liveStart, item)
    ensures Ingest(store, videoId, liveStart, [x] + (tail + [item]))
            == Ingest(store, videoId, liveStart, [x] + tail)
               + Step(store + Ingest(store, videoId, liveStart, [x] + tail), videoId, liveStart, item)
  {
    if CheckDuplicate(store, videoId, x.author, x.message, x.publishedAtMillis.value - liveStart) {
      var rest := Ingest(store, videoId, liveStart, tail);
      AppendSkipping(store, videoId, liveStart, x, tail, item, rest, Step(store + rest, videoId, liveStart, item));
    } else {
      var c := ChatOf(videoId, liveStart, x);
      var later := Ingest(store + [c], videoId, liveStart, tail);
      var step := Step(store + [c] + later, videoId, liveStart, item);
      AppendSaving(store, videoId, liveStart, x, tail, item, later, step);
      AppendAfterSave(store, c, later, step);
    }
  }

  /** A skipped first item leaves the step of the tail as the step of the whole prefix. */
  lemma {:induction false} AppendSkipping(store: seq<Chat>, videoId: string, liveStart: int, x: ChatItem,
                                          tail: seq<ChatItem>, item: ChatItem, rest: seq<Chat>, step: seq<Chat>)
    requires x.publishedAtMillis.Some?
    requires CheckDuplicate(store, videoId, x.author, x.message, x.publishedAtMillis.value - liveStart)
    requires rest == Ingest(store, videoId, liveStart, tail)
    requires Ingest(store, videoId, liveStart, tail + [item]) == rest + step
    ensures Ingest(store, videoId, liveStart, [x] + tail) == rest
    ensures Ingest(store, videoId, liveStart, [x] + (tail + [item])) == rest + step
  {
    IngestCons(store, videoId, liveStart, x, tail);
    IngestCons(store, videoId, liveStart, x, tail + [item]);
  }

  /** A saved first item puts its chat in front of the tail's chats and step against the grown store. */
  lemma {:induction false} AppendSaving(store: seq<Chat>, videoId: string, liveStart: int, x: ChatItem,
                                        tail: seq<ChatItem>, item: ChatItem, later: seq<Chat>, step: seq<Chat>)
    requires x.publishedAtMillis.Some?
    requires !CheckDuplicate(store, videoId, x.author, x.message, x.publishedAtMillis.value - liveStart)
    requires later == Ingest(store + [ChatOf(videoId, liveStart, x)], videoId, liveStart, tail)
    requires Ingest(store + [ChatOf(videoId, liveStart, x)], videoId, liveStart, tail + [item]) == later + step
    ensures Ingest(store, videoId, liveStart, [x] + tail) == [ChatOf(videoId, liveStart, x)] + later
    ensures Ingest(store, videoId, liveStart, [x] + (tail + [item])) == [ChatOf(videoId, liveStart, x)] + (later + step)
  {
    IngestCons(store, videoId, liveStart, x, tail);
    IngestCons(store, videoId, liveStart, x, tail + [item]);
  }

  /** The loop's step on a page that starts with `x`. */
  lemma {:induction false} IngestCons(store: seq<Chat>, videoId: string, liveStart: int, x: ChatItem,
                                      tail: seq<ChatItem>)
    requires x.publishedAtMillis.Some?
    ensures Ingest(store, videoId, liveStart, [x] + tail)
            == if CheckDuplicate(store, videoId, x.author, x.message, x.publishedAtMillis.value - liveStart)
               then Ingest(store, videoId, liveStart, tail)
               else [ChatOf(videoId, liveStart, x)] + Ingest(store + [ChatOf(videoId, liveStart, x)], videoId, liveStart, tail)
  {
    assert ([x] + tail)[0] == x && ([x] + tail)[1..] == tail;
  }

  lemma AppendAfterSave(store: seq<Chat>, c: Chat, later: seq<Chat>, step: seq<Chat>)
    ensures store + ([c] + later) == store + [c] + later
    ensures [c] + (later + step) == ([c] + later) + step
  {
  }

  /**
   * An item whose timestamp does not parse throws out of the loop: the page
   * saves what the items before it saved and nothing from it on.
   */
  lemma {:induction false} IngestStopsAt(store: seq<Chat>, videoId: string, liveStart: int,
                                         done: seq<ChatItem>, item: ChatItem, rest: seq<ChatItem>)
    requires forall i :: 0 <= i < |done| ==> done[i].publishedAtMillis.Some?
    requires item.publishedAtMillis.None?
    ensures Ingest(store, videoId, liveStart, done + [item] + rest) == Ingest(store, videoId, liveStart, done)
    decreases |done|
  {
    if done == [] {
      assert done + [item] + rest == [item] + rest && ([item] + rest)[0] == item;
    } else {
      var x, tail := done[0], done[1..];
      assert done == [x] + tail && done + [item] + rest == [x] + (tail + [item] + rest);
      assert forall i :: 0 <= i < |tail| ==> tail[i] == done[i + 1];
      IngestStopsAt(store, videoId, liveStart, tail, item, rest);
      IngestStopsAt(store + [ChatOf(videoId, liveStart, x)], videoId, liveStart, tail, item, rest);
      IngestCons(store, videoId, liveStart, x, tail);
      IngestCons(store, videoId, liveStart, x, tail + [item] + rest);
    }
  }

  lemma WithinStreamTail(liveStart: int, items: seq<ChatItem>)
    requires items != [] && WithinStream(liveStart, items)
    ensures WithinStream(liveStart, items[1..])
  {
    forall i | 0 <= i < |items[1..]| ensures items[1..][i] == items[i + 1] { }
  }

  /** An item skipped as a duplicate is still a duplicate against any larger store. */
  lemma AgainAfterSkip(store: seq<Chat>, bigger: seq<Chat>, videoId: string, liveStart: int,
                       items: seq<ChatItem>)
    requires items != [] && items[0].publishedAtMillis.Some?
    requires CheckDuplicate(store, videoId, items[0].author, items[0].message,
                            items[0].publishedAtMillis.value - liveStart)
    requires forall c :: c in store + Ingest(store, videoId, liveStart, items) ==> c in bigger
    ensures CheckDuplicate(bigger, videoId, items[0].author, items[0].message,
                           items[0].publishedAtMillis.value - liveStart)
    ensures forall c :: c in store + Ingest(store, videoId, liveStart, items[1..]) ==> c in bigger
  {
    IngestSkips(store, videoId, liveStart, items);
    CheckDuplicateGrows(store, bigger, videoId, items[0].author, items[0].message,
                        items[0].publishedAtMillis.value - liveStart);
  }

  /** An item saved the first time is a duplicate of its own chat the second time. */
  lemma AgainAfterSave(store: seq<Chat>, bigger: seq<Chat>, videoId: string, liveStart: int,
                       items: seq<ChatItem>)
    requires items != [] && items[0].publishedAtMillis.Some?
    requires 0 <= items[0].publishedAtMillis.value - liveStart
    requires items[0].publishedAtMillis.value - liveStart + DuplicateWindowMs < HundredHours
    requires !CheckDuplicate(store, videoId, items[0].author, items[0].message,
                             items[0].publishedAtMillis.value - liveStart)
    requires forall c :: c in store + Ingest(store, videoId, liveStart, items) ==> c in bigger
    ensures CheckDuplicate(bigger, videoId, items[0].author, items[0].message,
                           items[0].publishedAtMillis.value - liveStart)
    ensures var c := ChatOf(videoId, liveStart, items[0]);
            forall d :: d in (store + [c]) + Ingest(store + [c], videoId, liveStart, items[1..]) ==> d in bigger
  {
    var c := ChatOf(videoId, liveStart, items[0]);
    IngestSaves(store, videoId, liveStart, items);
    var later := Ingest(store + [c], videoId, liveStart, items[1..]);
    ConcatAssoc(store, [c], later);
    assert c in store + Ingest(store, videoId, liveStart, items);
    SelfDuplicate(bigger, videoId, items[0].author, items[0].message,
                  items[0].publishedAtMillis.value - liveStart);
  }

  /**
   * Pulling the same page again saves nothing: every item either was saved the
   * first time or matched a chat that is still stored.
   */
  lemma {:induction false} IngestAgainSavesNothing(store: seq<Chat>, bigger: seq<Chat>, videoId: string,
                                                   liveStart: int, items: seq<ChatItem>)
    requires WithinStream(liveStart, items)
    requires forall c :: c in store + Ingest(store, videoId, liveStart, items) ==> c in bigger
    ensures Ingest(bigger, videoId, liveStart, items) == []
    decreases |items|
  {
    if items != [] {
      var it := items[0];
      WithinStreamTail(liveStart, items);
      if CheckDuplicate(store, videoId, it.author, it.message, it.publishedAtMillis.value - liveStart) {
        AgainAfterSkip(store, bigger, videoId, liveStart, items);
        IngestAgainSavesNothing(store, bigger, videoId, liveStart, items[1..]);
      } else {
        AgainAfterSave(store, bigger, videoId, liveStart, items);
        IngestAgainSavesNothing(store + [ChatOf(videoId, liveStart, it)], bigger, videoId, liveStart, items[1..]);
      }
      IngestSkips(bigger, videoId, liveStart, items);
    }
  }

  // ---------------------------------------------------------------------------
  // The service object
  // ---------------------------------------------------------------------------

  class YouTubeService {
    /** ChatRepository contents, in insertion order. */
    var chatStore: seq<Chat>
    /** `liveStartTime` in epoch milliseconds; None while Java's field is null. */
    var liveStartTime: Option<int>

    constructor (store: seq<Chat>)
      ensures chatStore == store && liveStartTime == None
    {
      chatStore := store;
      liveStartTime := None;
    }

    /**
     * fetchActiveLiveChatId: the chat id and, as a side effect, the stream's start
     * time; null when the body is null or anything on the way throws.
     */
    method FetchActiveLiveChatId(lookup: VideoLookup) returns (chatId: Option<string>)
      modifies this`liveStartTime
      ensures lookup.Details? && lookup.actualStartTime.Some? ==>
                chatId == Some(lookup.activeLiveChatId) && liveStartTime == lookup.actualStartTime
      ensures !(lookup.Details? && lookup.actualStartTime.Some?) ==>
                chatId == None && liveStartTime == old(liveStartTime)
    {
      match lookup {
        case NoBody =>
          chatId := None;
        case Unreadable =>
          chatId := None;
        case Details(start, id) =>
          if start.None? {
            chatId := None;
          } else {
            liveStartTime := start;
            chatId := Some(id);
          }
      }
    }

    /**
     * fetchLiveChatMessages: the items of one response, each saved and returned
     * unless it duplicates a stored chat. A null body, or a null `liveStartTime`
     * (the first item then throws), saves nothing.
     */
    method FetchLiveChatMessages(videoId: string, response: Option<seq<ChatItem>>)
      returns (chats: seq<Chat>)
      modifies this`chatStore
      ensures chats == if response.None? || liveStartTime.None? then []
                       else Ingest(old(chatStore), videoId, liveStartTime.value, response.value)
      ensures chatStore == old(chatStore) + chats
    {
      chats := [];
      if response.None? || liveStartTime.None? {
        return;
      }
      var items := response.value;
      var start := liveStartTime.value;
      var i := 0;
      while i < |items|
        invariant 0 <= i <= |items|
        invariant chatStore == old(chatStore) + chats
        invariant chats + Ingest(chatStore, videoId, start, items[i..])
                  == Ingest(old(chatStore), videoId, start, items)
      {
        var item := items[i];
        if item.publishedAtMillis.None? {
          assert items[i..][0] == item;
          break;
        }
        IngestStepAt(chatStore, videoId, start, items, i);
        var publishTime := item.publishedAtMillis.value - start;
        if !CheckDuplicate(chatStore, videoId, item.author, item.message, publishTime) {
          var chat := Chat(videoId, item.author, item.message, FormatTime(publishTime));
          ConcatAssoc(chats, [chat], Ingest(chatStore + [chat], videoId, start, items[i + 1..]));
          chatStore := chatStore + [chat];
          chats := chats + [chat];
        }
        i := i + 1;
      }
      assert i == |items| ==> items[i..] == [];
    }

    /**
     * collectLiveChat: null, without reading any message, when the chat id is null
     * or empty; otherwise (after sleeping, which fails for a negative duration)
     * pull one page and return the stream's start time. The lookup records a
     * parsable start time in every case, also for an ended stream whose chat
     * id is empty.
     */
    method CollectLiveChat(videoId: string, durationSeconds: int, lookup: VideoLookup,
                           response: Option<seq<ChatItem>>)
      returns (r: Result<Option<int>, CollectError>)
      modifies this`chatStore, this`liveStartTime
      ensures liveStartTime == if lookup.Details? && lookup.actualStartTime.Some?
                               then lookup.actualStartTime else old(liveStartTime)
      ensures var id := if lookup.Details? && lookup.actualStartTime.Some?
                        then lookup.activeLiveChatId else "";
              if id == [] then r == Ok(None) && chatStore == old(chatStore)
              else if durationSeconds < 0 then r == Err(NegativeSleep) && chatStore == old(chatStore)
              else r == Ok(Some(lookup.actualStartTime.value))
                   && chatStore == old(chatStore)
                      + if response.None? then []
                        else Ingest(old(chatStore), videoId, lookup.actualStartTime.value, response.value)
    {
      var chatId := FetchActiveLiveChatId(lookup);
      if chatId.None? || chatId.value == [] {
        return Ok(None);
      }
      if durationSeconds < 0 {
        return Err(NegativeSleep);
      }
      var _ := FetchLiveChatMessages(videoId, response);
      r := Ok(liveStartTime);
    }
  }

  // ---------------------------------------------------------------------------
  // The cases of YouTubeServiceTest
  // ---------------------------------------------------------------------------

  /** A chat stored at 00:43:30 duplicates the same chat posted at 43 min 32 s. */
  lemma DuplicateWithinSixtySeconds(videoId: string, author: string, message: string)
    ensures CheckDuplicate([Chat(videoId, author, message, "00:43:30")],
                           videoId, author, message, 43 * 60000 + 32 * 1000)
  {
    FormatTimeExample();
    var store := [Chat(videoId, author, message, FormatTime(2610000))];
    CheckDuplicateByOffset(store, [2610000], videoId, author, message, 43 * 60000 + 32 * 1000);
    assert Matches(store[0], videoId, author, message);
  }

  /** A chat stored at formatTime(100000) does not duplicate one posted 70 s later. */
  lemma NotDuplicateAfterSixtySeconds(videoId: string, author: string, message: string)
    ensures !CheckDuplicate([Chat(videoId, author, message, FormatTime(100000))],
                            videoId, author, message, 170000)
  {
    CheckDuplicateByOffset([Chat(videoId, author, message, FormatTime(100000))], [100000],
                           videoId, author, message, 170000);
  }

  /** A different author or a different text is never a duplicate. */
  lemma DifferentAuthorOrTextNotDuplicate(stored: Chat, videoId: string, author: string,
                                          message: string, p: int)
    requires stored.author != author || stored.text != message
    ensures !CheckDuplicate([stored], videoId, author, message, p)
  {
    ExistsBetweenIff([stored], videoId, author, message,
                     FormatTime(p - DuplicateWindowMs), FormatTime(p + DuplicateWindowMs));
  }
}
