/**
  Paging out of the dashboard reader: a frozen snapshot first, then, for detections, the rows after its
  watermark. A page that is too large is shortened one record at a time.
 */
module ReaderPages {
  import opened Common
  import opened ReaderStore

  const MAX_SNAPSHOTS := 16
  const SNAPSHOT_TTL := 90000
  const HISTORY := 2592000

  datatype Snap = Snap(kind: string, principal: string, created: int, watermark: nat, gapEpoch: nat, records: seq<Record>)

  datatype Cursor =
    | InSnapshot(snapshot: nat, offset: nat, gapEpoch: nat)
    | InDelta(watermark: nat, gapEpoch: nat)
    | Anew(gapEpoch: nat)

  /** fits tells of a number of records, and whether more follow, if the page stays within the byte limit. */
  datatype Request = Request(limit: nat, fits: (nat, bool) -> bool)

  datatype Answer = Reset | Limited | Unavailable | Unexportable | Served(records: seq<Record>, next: Cursor, more: bool)

  // ------------------------------------------------------------ shortening a page

  /** The first k of n records fit, given that more follow those n or not. */
  predicate FitsAt(fits: (nat, bool) -> bool, n: nat, more: bool, k: nat) { fits(k, more || k < n) }

  /** The most records, of n at hand, that make a page; None when even one is too much, or none at all. */
  function PageSize(n: nat, more: bool, fits: (nat, bool) -> bool): (r: Option<nat>)
    ensures r.Some? ==> r.value <= n && (n > 0 ==> r.value > 0) && FitsAt(fits, n, more, r.value)
    ensures r.Some? ==> forall k :: r.value < k <= n ==> !FitsAt(fits, n, more, k)
    ensures r.None? ==> forall k :: 1 <= k <= n ==> !FitsAt(fits, n, more, k)
    ensures n == 0 ==> (r.Some? <==> fits(0, more))
  {
    if FitsAt(fits, n, more, n) then Some(n) else Shortened(n, n, more, fits)
  }

  /** Of the first n records, with at least one cut off; all is how many there were. */
  function Shortened(n: nat, all: nat, more: bool, fits: (nat, bool) -> bool): (r: Option<nat>)
    requires n <= all
    ensures r.Some? ==> 0 < r.value < n && FitsAt(fits, all, more, r.value)
    ensures r.Some? ==> forall k :: r.value < k < n ==> !FitsAt(fits, all, more, k)
    ensures r.None? ==> forall k :: 1 <= k < n ==> !FitsAt(fits, all, more, k)
  {
    if n <= 1 then None
    else if FitsAt(fits, all, more, n - 1) then Some(n - 1)
    else Shortened(n - 1, all, more, fits)
  }

  // ------------------------------------------------------------ reading a snapshot

  /** How many records the page at an offset of a snapshot holds. */
  function SnapshotCount(records: seq<Record>, offset: nat, q: Request): Option<nat>
    requires offset <= |records|
  {
    var n := Min(q.limit, |records| - offset);
    PageSize(n, offset + n < |records|, q.fits)
  }

  /** The offset after one request; a page that fails moves nothing. */
  function NextOffset(records: seq<Record>, offset: nat, q: Request): (at: nat)
    requires offset <= |records|
    ensures offset <= at <= |records|
    ensures q.limit > 0 && q.fits(1, true) && q.fits(1, false) && offset < |records| ==> at > offset
  {
    match SnapshotCount(records, offset, q)
    case None =>
      assert q.limit > 0 && offset < |records| ==> !FitsAt(q.fits, Min(q.limit, |records| - offset), offset + Min(q.limit, |records| - offset) < |records|, 1);
      offset
    case Some(n) => offset + n
  }

  /** What a client has after these requests from an offset, and where it stands. */
  function Paged(records: seq<Record>, offset: nat, qs: seq<Request>): (seq<Record>, nat)
    requires offset <= |records|
    decreases |qs|
  {
    if qs == [] then ([], offset)
    else
      var at := NextOffset(records, offset, qs[0]);
      var (rest, end) := Paged(records, at, qs[1..]);
      (records[offset..at] + rest, end)
  }

  lemma SliceSplits(records: seq<Record>, a: nat, b: nat, c: nat)
    requires a <= b <= c <= |records|
    ensures records[a..b] + records[b..c] == records[a..c]
  {
  }

  /** For any limits and any shortening, the pages put together are the snapshot up to the offset reached. */
  lemma {:induction false} PagesAreTheSnapshot(records: seq<Record>, offset: nat, qs: seq<Request>)
    requires offset <= |records|
    ensures offset <= Paged(records, offset, qs).1 <= |records|
    ensures Paged(records, offset, qs).0 == records[offset..Paged(records, offset, qs).1]
    decreases |qs|
  {
    hide NextOffset;
    if qs != [] {
      var at := NextOffset(records, offset, qs[0]);
      PagesAreTheSnapshot(records, at, qs[1..]);
      SliceSplits(records, offset, at, Paged(records, at, qs[1..]).1);
    }
  }

  /** As long as every request asks for something and single records fit, enough requests get the whole snapshot. */
  lemma {:induction false} PagingFinishes(records: seq<Record>, offset: nat, qs: seq<Request>)
    requires offset <= |records| && |qs| >= |records| - offset
    requires forall i :: 0 <= i < |qs| ==> qs[i].limit > 0 && qs[i].fits(1, true) && qs[i].fits(1, false)
    ensures Paged(records, offset, qs).0 == records[offset..] && Paged(records, offset, qs).1 == |records|
  {
    hide NextOffset;
    PagesAreTheSnapshot(records, offset, qs);
    OffsetReached(records, offset, qs);
    assert records[offset..|records|] == records[offset..];
  }

  lemma {:induction false} OffsetReached(records: seq<Record>, offset: nat, qs: seq<Request>)
    requires offset <= |records| && |qs| >= |records| - offset
    requires forall i :: 0 <= i < |qs| ==> qs[i].limit > 0 && qs[i].fits(1, true) && qs[i].fits(1, false)
    ensures Paged(records, offset, qs).1 == |records|
    decreases |qs|
  {
    if qs != [] {
      var at := NextOffset(records, offset, qs[0]);
      hide NextOffset;
      OffsetReached(records, at, qs[1..]);
    }
  }

  // ------------------------------------------------------------ following detections

  lemma {:induction false} LaterSplits(records: seq<Record>, after: nat, n: nat)
    requires Increasing(records) && 0 < n <= |Later(records, after)|
    ensures var w := Later(records, after)[n - 1].seqNo;
      w > after && Later(records, after) == Later(records, after)[..n] + Later(records, w)
  {
    var all := Later(records, after);
    if records[0].seqNo > after {
      LaterOfAll(records, after);
      assert all == records;
      var w := records[n - 1].seqNo;
      LaterFrom(records, n, w);
    } else {
      var tail := records[1..];
      LaterSplits(tail, after, n);
      var w := all[n - 1].seqNo;
      assert records[0].seqNo <= after < w;
    }
  }

  lemma {:induction false} LaterOfAll(records: seq<Record>, after: nat)
    requires Increasing(records) && (records != [] ==> records[0].seqNo > after)
    ensures Later(records, after) == records
  {
    if records != [] {
      LaterOfAll(records[1..], after);
      assert records == [records[0]] + records[1..];
    }
  }

  lemma {:induction false} LaterFrom(records: seq<Record>, n: nat, w: nat)
    requires Increasing(records) && 0 < n <= |records| && w == records[n - 1].seqNo
    ensures Later(records, w) == records[n..]
  {
    if n == 1 {
      LaterOfAll(records[1..], w);
    } else {
      LaterFrom(records[1..], n - 1, w);
      assert records[0].seqNo < w;
    }
  }

  lemma {:induction false} LaterNone(records: seq<Record>, w: nat)
    requires forall i :: 0 <= i < |records| ==> records[i].seqNo <= w
    ensures Later(records, w) == []
  {
    if records != [] {
      LaterNone(records[1..], w);
    }
  }

  lemma {:induction false} LaterSnoc(records: seq<Record>, r: Record, after: nat)
    ensures Later(records + [r], after) == Later(records, after) + (if r.seqNo > after then [r] else [])
  {
    if records == [] {
      assert [] + [r] == [r];
      assert [r][1..] == [];
    } else {
      assert (records + [r])[1..] == records[1..] + [r];
      LaterSnoc(records[1..], r, after);
    }
  }

  /** A reader of detections: what the store holds, the reader's watermark and everything it was given. */
  datatype Follow = Follow(memory: Memory, watermark: nat, got: seq<Record>)

  datatype Event = Recorded(r: Record) | Pulled(q: Request)

  predicate Possible(f: Follow, e: Event) { e.Recorded? ==> e.r.seqNo == SeqOf(f.memory, DETECTION) + 1 }

  /** The rows of a delta request and whether more follow. */
  function DeltaRows(m: Memory, after: nat, limit: nat): (seq<Record>, bool) {
    var all := Later(m.history, after);
    (all[..Min(limit, |all|)], limit < |all|)
  }

  function Followed(f: Follow, e: Event): Follow {
    match e
    case Recorded(r) => f.(memory := Noted(f.memory, Entry(DETECTION, r)))
    case Pulled(q) =>
      var (rows, more) := DeltaRows(f.memory, f.watermark, q.limit);
      match PageSize(|rows|, more, q.fits)
      case None => f
      case Some(n) =>
        var w := if n > 0 then rows[n - 1].seqNo else if more then f.watermark else SeqOf(f.memory, DETECTION);
        f.(watermark := w, got := f.got + rows[..n])
  }

  ghost predicate Run(f: Follow, events: seq<Event>)
    decreases |events|
  {
    events == [] || (Possible(f, events[0]) && Run(Followed(f, events[0]), events[1..]))
  }

  function Final(f: Follow, events: seq<Event>): Follow
    decreases |events|
  {
    if events == [] then f else Final(Followed(f, events[0]), events[1..])
  }

  /** From a watermark on, the reader has every detection up to its own watermark once, in order, and lacks the rest. */
  ghost predicate NoGapNoRepeat(f: Follow, start: nat) {
    && MemoryOk(f.memory) && start <= f.watermark <= SeqOf(f.memory, DETECTION)
    && f.got + Later(f.memory.history, f.watermark) == Later(f.memory.history, start)
  }

  lemma FollowStep(f: Follow, e: Event, start: nat)
    requires NoGapNoRepeat(f, start) && Possible(f, e)
    ensures NoGapNoRepeat(Followed(f, e), start)
  {
    match e
    case Recorded(r) =>
      NotedOk(f.memory, Entry(DETECTION, r));
      LaterSnoc(f.memory.history, r, f.watermark);
      LaterSnoc(f.memory.history, r, start);
      assert f.got + (Later(f.memory.history, f.watermark) + [r]) == (f.got + Later(f.memory.history, f.watermark)) + [r];
    case Pulled(q) =>
      PullStep(f, q, start);
  }

  lemma PullStep(f: Follow, q: Request, start: nat)
    requires NoGapNoRepeat(f, start)
    ensures NoGapNoRepeat(Followed(f, Pulled(q)), start)
  {
    var (rows, more) := DeltaRows(f.memory, f.watermark, q.limit);
    var size := PageSize(|rows|, more, q.fits);
    if size.Some? && size.value > 0 {
      RowsPulled(f, rows, size.value, start);
    } else if size.Some? {
      assert f.got + rows[..0] == f.got;
      if !more {
        LaterNone(f.memory.history, SeqOf(f.memory, DETECTION));
      }
    }
  }

  lemma RowsPulled(f: Follow, rows: seq<Record>, n: nat, start: nat)
    requires NoGapNoRepeat(f, start) && rows <= Later(f.memory.history, f.watermark) && 0 < n <= |rows|
    ensures NoGapNoRepeat(f.(watermark := rows[n - 1].seqNo, got := f.got + rows[..n]), start)
  {
    var all := Later(f.memory.history, f.watermark);
    LaterSplits(f.memory.history, f.watermark, n);
    LaterIsIn(f.memory.history, f.watermark, n - 1);
    assert rows[..n] == all[..n];
    var rest := Later(f.memory.history, rows[n - 1].seqNo);
    assert f.got + (all[..n] + rest) == (f.got + all[..n]) + rest;
  }

  lemma {:induction false} LaterIsIn(records: seq<Record>, after: nat, i: nat)
    requires i < |Later(records, after)|
    ensures Later(records, after)[i] in records
  {
    if records[0].seqNo > after {
      if i > 0 {
        LaterIsIn(records[1..], after, i - 1);
      }
    } else {
      LaterIsIn(records[1..], after, i);
    }
  }

  /**
    However detections and page requests interleave, and however pages are shortened, the reader gets every
    detection after its first watermark exactly once and in order.
   */
  lemma {:induction false} DeltasHaveNoGapOrRepeat(f: Follow, events: seq<Event>, start: nat)
    requires NoGapNoRepeat(f, start) && Run(f, events)
    ensures NoGapNoRepeat(Final(f, events), start)
    decreases |events|
  {
    if events != [] {
      FollowStep(f, events[0], start);
      DeltasHaveNoGapOrRepeat(Followed(f, events[0]), events[1..], start);
    }
  }

  /** From the snapshot's watermark: the reader has nothing yet of what comes later, and misses nothing. */
  lemma FollowingASnapshot(m: Memory, events: seq<Event>)
    requires MemoryOk(m) && Run(Follow(m, SeqOf(m, DETECTION), []), events)
    ensures NoGapNoRepeat(Final(Follow(m, SeqOf(m, DETECTION), []), events), SeqOf(m, DETECTION))
  {
    LaterNone(m.history, SeqOf(m, DETECTION));
    DeltasHaveNoGapOrRepeat(Follow(m, SeqOf(m, DETECTION), []), events, SeqOf(m, DETECTION));
  }

  /** As many requests one after the other. */
  function Pulls(qs: seq<Request>): seq<Event> { seq(|qs|, i requires 0 <= i < |qs| => Pulled(qs[i])) }

  lemma PullAdvances(f: Follow, q: Request, start: nat)
    requires NoGapNoRepeat(f, start) && q.limit > 0 && q.fits(1, true) && q.fits(1, false)
    requires Later(f.memory.history, f.watermark) != []
    ensures |Later(f.memory.history, Followed(f, Pulled(q)).watermark)| < |Later(f.memory.history, f.watermark)|
  {
    var (rows, more) := DeltaRows(f.memory, f.watermark, q.limit);
    assert FitsAt(q.fits, |rows|, more, 1);
    var n := PageSize(|rows|, more, q.fits).value;
    LaterSplits(f.memory.history, f.watermark, n);
    LaterIsIn(f.memory.history, f.watermark, n - 1);
  }

  /** Followers catch up: as many requests as there are rows left, each for something, get all of them. */
  lemma {:induction false} PullsCatchUp(f: Follow, qs: seq<Request>, start: nat)
    requires NoGapNoRepeat(f, start) && |qs| >= |Later(f.memory.history, f.watermark)|
    requires forall i :: 0 <= i < |qs| ==> qs[i].limit > 0 && qs[i].fits(1, true) && qs[i].fits(1, false)
    ensures var end := Final(f, Pulls(qs));
      end.memory == f.memory && end.got == Later(f.memory.history, start) && Later(f.memory.history, end.watermark) == []
    decreases |qs|
  {
    hide PageSize, DeltaRows, Increasing;
    assert f.got + [] == f.got;
    if qs != [] {
      var next := Followed(f, Pulls(qs)[0]);
      PullsLeaveMemory(f, qs[0]);
      FollowStep(f, Pulls(qs)[0], start);
      if Later(f.memory.history, f.watermark) != [] {
        PullAdvances(f, qs[0], start);
      } else {
        assert |Later(f.memory.history, next.watermark)| == 0 by { NothingLater(f, next, start); }
      }
      PullsCatchUp(next, qs[1..], start);
      assert Pulls(qs)[1..] == Pulls(qs[1..]);
    }
  }

  lemma PullsLeaveMemory(f: Follow, q: Request)
    ensures Followed(f, Pulled(q)).memory == f.memory && f.got <= Followed(f, Pulled(q)).got
  {}

  lemma NothingLater(f: Follow, next: Follow, start: nat)
    requires NoGapNoRepeat(f, start) && NoGapNoRepeat(next, start) && next.memory == f.memory
    requires Later(f.memory.history, f.watermark) == [] && f.got <= next.got
    ensures Later(f.memory.history, next.watermark) == []
  {
  }
}
