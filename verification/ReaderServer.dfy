/** The dashboard reader's page request, with its pool of retained snapshots and its shortening loop. */
module ReaderServer {
  import opened Common
  import opened ReaderStore
  import opened ReaderPages

  /** Detections no older than the history kept. */
  function Recent(history: seq<Record>, cutoff: int): seq<Record> {
    if history == [] then []
    else (if history[0].observed >= cutoff then [history[0]] else []) + Recent(history[1..], cutoff)
  }

  function OfKind(m: Memory, kind: string): set<Record> { set k | k in m.state && k.kind == kind :: m.state[k] }

  /** What a snapshot of a kind holds: recent detections, or every resource, deleted ones too, by number. */
  ghost predicate IsSnapshot(records: seq<Record>, m: Memory, kind: string, now: int) {
    if kind == DETECTION then records == Recent(m.history, now - HISTORY)
    else Increasing(records) && (set r | r in records) == OfKind(m, kind)
  }

  function Inserted(records: seq<Record>, r: Record): (out: seq<Record>)
    requires Increasing(records) && forall i :: 0 <= i < |records| ==> records[i].seqNo != r.seqNo
    ensures Increasing(out) && forall x :: x in out <==> x == r || x in records
  {
    if records == [] then [r]
    else if r.seqNo < records[0].seqNo then [r] + records
    else
      var rest := Inserted(records[1..], r);
      assert records == [records[0]] + records[1..];
      assert forall i :: 0 <= i < |rest| ==> rest[i] in rest;
      [records[0]] + rest
  }

  const CURSOR_TTL := 86400

  function EpochOf(c: Cursor): nat {
    match c case InSnapshot(_, _, e) => e case InDelta(_, e) => e case Anew(e) => e
  }

  /** A cursor is refused a day after it was given out, and after any gap since. */
  predicate Outdated(c: Cursor, issued: int, epoch: nat, now: int) { now >= issued + CURSOR_TTL || EpochOf(c) != epoch }

  predicate Expired(s: Snap, now: int) { now - s.created > SNAPSHOT_TTL }

  function Unexpired(snapshots: map<nat, Snap>, now: int): map<nat, Snap> {
    map id | id in snapshots && !Expired(snapshots[id], now) :: snapshots[id]
  }

  /** The snapshot a cursor names, if it is still there and is this principal's, of this kind and epoch. */
  function Held(snapshots: map<nat, Snap>, id: nat, offset: nat, epoch: nat, kind: string, principal: string, now: int): (held: Option<Snap>)
    ensures held.Some? ==> offset <= |held.value.records|
  {
    if id !in snapshots || Expired(snapshots[id], now) then None
    else
      var s := snapshots[id];
      if s.kind != kind || s.principal != principal || s.gapEpoch != epoch || offset > |s.records| then None else Some(s)
  }

  /** The answer for the page at an offset of a snapshot. */
  function SnapshotAnswer(s: Snap, id: nat, offset: nat, q: Request): Answer
    requires offset <= |s.records|
  {
    match SnapshotCount(s.records, offset, q)
    case None => Unexportable
    case Some(n) =>
      if offset + n < |s.records| then Served(s.records[offset..offset + n], InSnapshot(id, offset + n, s.gapEpoch), true)
      else Served(s.records[offset..offset + n], if s.kind == DETECTION then InDelta(s.watermark, s.gapEpoch) else Anew(s.gapEpoch), false)
  }

  /** The answer for the detections after a watermark. */
  function DeltaAnswer(m: Memory, watermark: nat, epoch: nat, q: Request): Answer {
    var (rows, more) := DeltaRows(m, watermark, q.limit);
    match PageSize(|rows|, more, q.fits)
    case None => Unexportable
    case Some(n) =>
      Served(rows[..n], InDelta(if n > 0 then rows[n - 1].seqNo else if more then watermark else SeqOf(m, DETECTION), epoch), more || n < |rows|)
  }

  /** A delta answer moves a reader as the run of requests has it. */
  lemma DeltaAnswerFollows(f: Follow, epoch: nat, q: Request)
    ensures match DeltaAnswer(f.memory, f.watermark, epoch, q)
      case Served(records, next, _) => Followed(f, Pulled(q)) == Follow(f.memory, next.watermark, f.got + records)
      case _ => Followed(f, Pulled(q)) == f
  {
  }

  lemma NoneRecent(cutoff: int)
    ensures Recent([], cutoff) == []
  {}

  lemma RecentFrom(history: seq<Record>, i: nat, cutoff: int, before: seq<Record>)
    requires i < |history|
    ensures before + Recent(history[i..], cutoff)
            == (if history[i].observed >= cutoff then before + [history[i]] else before) + Recent(history[i + 1..], cutoff)
  {
    assert history[i..][0] == history[i] && history[i..][1..] == history[i + 1..];
    assert before + ([history[i]] + Recent(history[i + 1..], cutoff)) == (before + [history[i]]) + Recent(history[i + 1..], cutoff);
    assert before + ([] + Recent(history[i + 1..], cutoff)) == before + Recent(history[i + 1..], cutoff);
  }

  class Reader {
    const store: Store
    var snapshots: map<nat, Snap>
    var nextId: nat
    /** How often the pool could not be saved. */
    ghost var failures: nat

    ghost predicate Valid()
      reads this, store
    {
      && store.Valid() && |snapshots| <= MAX_SNAPSHOTS
      && forall id :: id in snapshots ==> id < nextId
    }

    constructor (store: Store)
      requires store.Valid()
      ensures Valid() && this.store == store && snapshots == map[]
    {
      this.store, snapshots, nextId, failures := store, map[], 0, 0;
    }

    method SortedState(kind: string) returns (records: seq<Record>)
      requires MemoryOk(store.mem)
      ensures Increasing(records) && (set r | r in records) == OfKind(store.mem, kind)
    {
      records := [];
      var state := store.mem.state;
      var left := state.Keys;
      while left != {}
        invariant left <= state.Keys && Increasing(records)
        invariant forall r :: r in records <==> exists k :: k in state && k !in left && k.kind == kind && state[k] == r
        decreases |left|
      {
        var k :| k in left;
        left := left - {k};
        if k.kind == kind {
          ghost var before := records;
          forall i | 0 <= i < |records| ensures records[i].seqNo != state[k].seqNo {
            assert records[i] in records;
          }
          records := Inserted(records, state[k]);
        }
      }
    }

    method RecentDetections(cutoff: int) returns (records: seq<Record>)
      ensures records == Recent(store.mem.history, cutoff)
    {
      hide Recent;
      records := [];
      var history := store.mem.history;
      var i := 0;
      assert history[i..] == history;
      while i < |history|
        invariant 0 <= i <= |history| && Recent(history, cutoff) == records + Recent(history[i..], cutoff)
      {
        RecentFrom(history, i, cutoff, records);
        if history[i].observed >= cutoff {
          records := records + [history[i]];
        }
        i := i + 1;
      }
      assert history[i..] == [];
      NoneRecent(cutoff);
      assert records + [] == records;
    }

    method DropExpired(now: int)
      modifies this`snapshots
      ensures snapshots == Unexpired(old(snapshots), now) && |snapshots| <= |old(snapshots)|
    {
      ghost var before := snapshots;
      var left := snapshots.Keys;
      while left != {}
        invariant left <= snapshots.Keys <= before.Keys && |snapshots| <= |before|
        invariant forall id :: id in snapshots ==> snapshots[id] == before[id]
        invariant forall id :: id in before && id !in left ==> (id in snapshots <==> !Expired(before[id], now))
        decreases |left|
      {
        var id :| id in left;
        left := left - {id};
        if Expired(snapshots[id], now) {
          assert (snapshots - {id}).Keys == snapshots.Keys - {id};
          assert |snapshots - {id}| == |(snapshots - {id}).Keys| && |snapshots| == |snapshots.Keys|;
          snapshots := snapshots - {id};
        }
      }
    }

    /** Freezes a kind; refused when the pool is full or cannot be saved. */
    method TakeSnapshot(kind: string, principal: string, now: int) returns (id: Option<nat>)
      requires Valid()
      modifies this
      ensures Valid()
      ensures id.Some? ==> id.value == old(nextId) && id.value in snapshots
                           && Snapped(snapshots[id.value], store.mem, kind, principal, now, store.gapEpoch)
      ensures snapshots == if id.None? then Unexpired(old(snapshots), now) else Unexpired(old(snapshots), now)[id.value := snapshots[id.value]]
      ensures id.None? <==> failures == old(failures) + 1 || |Unexpired(old(snapshots), now)| >= MAX_SNAPSHOTS
      ensures old(failures) <= failures <= old(failures) + 1
    {
      DropExpired(now);
      if |snapshots| >= MAX_SNAPSHOTS { return None; }
      var records;
      if kind == DETECTION { records := RecentDetections(now - HISTORY); } else { records := SortedState(kind); }
      if * {
        failures := failures + 1;
        return None;
      }
      id := Some(nextId);
      snapshots := snapshots[nextId := Snap(kind, principal, now, SeqOf(store.mem, kind), store.gapEpoch, records)];
      nextId := nextId + 1;
    }

    /** A page, by where the cursor stands; without one, or with one that says so, from a new snapshot. */
    method Page(kind: string, principal: string, cursor: Option<Cursor>, issued: int, q: Request, now: int) returns (a: Answer)
      requires Valid() && 1 <= q.limit <= 500
      modifies this
      ensures Valid()
      ensures cursor.Some? && Outdated(cursor.value, issued, store.gapEpoch, now) ==> a == Reset && snapshots == old(snapshots)
      ensures cursor.Some? && !Outdated(cursor.value, issued, store.gapEpoch, now) && cursor.value.InSnapshot? ==>
                && snapshots == old(snapshots)
                && a == HeldAnswer(Held(snapshots, cursor.value.snapshot, cursor.value.offset, cursor.value.gapEpoch, kind, principal, now),
                                   cursor.value.snapshot, cursor.value.offset, q)
      ensures cursor.Some? && !Outdated(cursor.value, issued, store.gapEpoch, now) && cursor.value.InDelta? ==>
                && snapshots == old(snapshots)
                && a == if kind == DETECTION then DeltaAnswer(store.mem, cursor.value.watermark, cursor.value.gapEpoch, q) else Reset
      ensures cursor.Some? && cursor.value.InSnapshot? && now < issued + 24 * 3600 && EpochOf(cursor.value) == store.gapEpoch ==>
                var id, offset := cursor.value.snapshot, cursor.value.offset;
                if id in snapshots && Owned(snapshots[id], kind, principal, store.gapEpoch, now) && offset <= |snapshots[id].records|
                then GoesOn(snapshots[id], id, offset, q, a) else a == Reset
      ensures cursor.Some? && cursor.value.InDelta? && now < issued + 24 * 3600 && EpochOf(cursor.value) == store.gapEpoch
              && kind == DETECTION && q.fits(1, true) && q.fits(1, false) && Later(store.mem.history, cursor.value.watermark) != [] ==>
                a.Served? && a.records != [] && a.records <= Later(store.mem.history, cursor.value.watermark)
      ensures cursor.None? || (!Outdated(cursor.value, issued, store.gapEpoch, now) && cursor.value.Anew?) ==>
                && (a in {Limited, Unavailable} <==> failures > old(failures) || |Unexpired(old(snapshots), now)| >= MAX_SNAPSHOTS)
                && (a in {Limited, Unavailable} ==> snapshots == Unexpired(old(snapshots), now))
                && (a !in {Limited, Unavailable} ==> snapshots - {old(nextId)} == Unexpired(old(snapshots), now))
                && (a !in {Limited, Unavailable} ==> FirstAnswer(a, store.mem, kind, principal, now, store.gapEpoch, old(nextId), snapshots, q))
    {
      hide Snapped, DeltaAnswer, Expired, SnapshotAnswer, Held, FirstAnswer, GoesOn, Owned, Later;
      if cursor.Some? && Outdated(cursor.value, issued, store.gapEpoch, now) { return Reset; }
      if cursor.None? || cursor.value.Anew? {
        a := FirstPage(kind, principal, q, now);
      } else if cursor.value.InDelta? {
        if kind != DETECTION { return Reset; }
        a := DeltaPage(cursor.value.watermark, cursor.value.gapEpoch, q);
        if q.fits(1, true) && q.fits(1, false) && Later(store.mem.history, cursor.value.watermark) != [] {
          DeltaGoesOn(store.mem, cursor.value.watermark, cursor.value.gapEpoch, q);
        }
      } else {
        var c := cursor.value;
        var held := Held(snapshots, c.snapshot, c.offset, c.gapEpoch, kind, principal, now);
        Judge(c.snapshot, c.offset, c.gapEpoch, kind, principal, now, q);
        if held.None? { return Reset; }
        a := SnapshotPage(held.value, c.snapshot, c.offset, q);
      }
    }

    lemma Judge(id: nat, offset: nat, epoch: nat, kind: string, principal: string, now: int, q: Request)
      requires q.limit > 0
      ensures var a := HeldAnswer(Held(snapshots, id, offset, epoch, kind, principal, now), id, offset, q);
        if id in snapshots && Owned(snapshots[id], kind, principal, epoch, now) && offset <= |snapshots[id].records|
        then GoesOn(snapshots[id], id, offset, q, a) else a == Reset
    {
      hide GoesOn, SnapshotAnswer, Held;
      if id in snapshots && Owned(snapshots[id], kind, principal, epoch, now) && offset <= |snapshots[id].records| {
        OwnSnapshotIsServed(snapshots, id, offset, epoch, kind, principal, now, q);
      } else {
        OthersSnapshotIsRefused(snapshots, id, offset, epoch, kind, principal, now, q);
      }
    }

    /** A bootstrap; if it fits one page, its snapshot is not kept. */
    method FirstPage(kind: string, principal: string, q: Request, now: int) returns (a: Answer)
      requires Valid()
      modifies this
      ensures Valid()
      ensures a in {Limited, Unavailable} <==> failures > old(failures) || |Unexpired(old(snapshots), now)| >= MAX_SNAPSHOTS
      ensures a in {Limited, Unavailable} ==> snapshots == Unexpired(old(snapshots), now)
      ensures a !in {Limited, Unavailable} ==> snapshots - {old(nextId)} == Unexpired(old(snapshots), now)
      ensures a !in {Limited, Unavailable} ==> FirstAnswer(a, store.mem, kind, principal, now, store.gapEpoch, old(nextId), snapshots, q)
    {
      hide Snapped, Expired;
      var taken := TakeSnapshot(kind, principal, now);
      if taken.None? { return Limited; }
      var id := taken.value;
      a := SnapshotPage(snapshots[id], id, 0, q);
      if a.Served? && !a.more {
        ghost var s := snapshots[id];
        Forget(id);
        if * {
          failures := failures + 1;
          assert id !in Unexpired(old(snapshots), now);
          return Unavailable;
        }
        assert FirstAnswer(a, store.mem, kind, principal, now, store.gapEpoch, id, snapshots, q) by {
          assert AnswersFirst(s, a, store.mem, kind, principal, now, store.gapEpoch, id, snapshots, q);
        }
      } else {
        assert AnswersFirst(snapshots[id], a, store.mem, kind, principal, now, store.gapEpoch, id, snapshots, q);
      }
    }

    method Forget(id: nat)
      requires Valid()
      modifies this`snapshots
      ensures Valid() && snapshots == old(snapshots) - {id}
    {
      ghost var fewer := snapshots - {id};
      assert fewer.Keys <= snapshots.Keys;
      assert snapshots.Keys == fewer.Keys + (snapshots.Keys - fewer.Keys);
      assert |fewer| == |fewer.Keys| && |snapshots| == |snapshots.Keys|;
      snapshots := snapshots - {id};
    }

    method SnapshotPage(s: Snap, id: nat, offset: nat, q: Request) returns (a: Answer)
      requires offset <= |s.records|
      ensures a == SnapshotAnswer(s, id, offset, q)
    {
      var n := Min(q.limit, |s.records| - offset);
      var size := Shorten(n, offset + n < |s.records|, q);
      if size.None? { return Unexportable; }
      var end := offset + size.value;
      if end < |s.records| { return Served(s.records[offset..end], InSnapshot(id, end, s.gapEpoch), true); }
      return Served(s.records[offset..end], if s.kind == DETECTION then InDelta(s.watermark, s.gapEpoch) else Anew(s.gapEpoch), false);
    }

    method DeltaPage(watermark: nat, epoch: nat, q: Request) returns (a: Answer)
      requires Valid() && q.limit > 0
      ensures a == DeltaAnswer(store.mem, watermark, epoch, q)
    {
      var rows, last, more := store.Delta(watermark, q.limit);
      var all := Later(store.mem.history, watermark);
      assert rows == all[..Min(q.limit, |all|)];
      var size := Shorten(|rows|, more, q);
      if size.None? { return Unexportable; }
      var n := size.value;
      return Served(rows[..n], InDelta(if n > 0 then rows[n - 1].seqNo else if more then watermark else last, epoch), more || n < |rows|);
    }

    /** Cuts one record off at a time until the page fits; gives up when one record or none is left. */
    method Shorten(n: nat, more: bool, q: Request) returns (size: Option<nat>)
      ensures size == PageSize(n, more, q.fits)
    {
      var k: nat := n;
      while !FitsAt(q.fits, n, more, k)
        invariant k <= n && (n > 0 ==> k > 0)
        invariant forall j: nat :: k < j <= n ==> !FitsAt(q.fits, n, more, j)
        decreases k
      {
        if k <= 1 {
          SizeIsNone(n, more, q.fits);
          return None;
        }
        k := k - 1;
      }
      SizeIs(n, more, q.fits, k);
      return Some(k);
    }
  }

  ghost predicate Snapped(s: Snap, m: Memory, kind: string, principal: string, now: int, epoch: nat) {
    s.kind == kind && s.principal == principal && s.created == now && s.watermark == SeqOf(m, kind) && s.gapEpoch == epoch
    && IsSnapshot(s.records, m, kind, now)
  }

  /** The answer from a snapshot that is held, and its page is the snapshot's first; it stays in the pool only if more follows. */
  ghost predicate AnswersFirst(s: Snap, a: Answer, m: Memory, kind: string, principal: string, now: int, epoch: nat, id: nat,
                               snapshots: map<nat, Snap>, q: Request) {
    && Snapped(s, m, kind, principal, now, epoch) && a == SnapshotAnswer(s, id, 0, q)
    && (id in snapshots <==> !a.Served? || a.more) && (id in snapshots ==> snapshots[id] == s)
  }

  ghost predicate FirstAnswer(a: Answer, m: Memory, kind: string, principal: string, now: int, epoch: nat, id: nat,
                              snapshots: map<nat, Snap>, q: Request) {
    exists s :: AnswersFirst(s, a, m, kind, principal, now, epoch, id, snapshots, q)
  }

  function HeldAnswer(held: Option<Snap>, id: nat, offset: nat, q: Request): Answer
    requires held.Some? ==> offset <= |held.value.records|
  {
    if held.None? then Reset else SnapshotAnswer(held.value, id, offset, q)
  }

  lemma SizeIs(n: nat, more: bool, fits: (nat, bool) -> bool, k: nat)
    requires k <= n && (n > 0 ==> k > 0) && FitsAt(fits, n, more, k)
    requires forall j: nat :: k < j <= n ==> !FitsAt(fits, n, more, j)
    ensures PageSize(n, more, fits) == Some(k)
  {
    var r := PageSize(n, more, fits);
    assert k == 0 ==> fits(0, more);
    assert r.Some?;
  }

  lemma SizeIsNone(n: nat, more: bool, fits: (nat, bool) -> bool)
    requires forall j: nat :: 1 <= j <= n ==> !FitsAt(fits, n, more, j)
    requires n == 0 ==> !fits(0, more)
    ensures PageSize(n, more, fits) == None
  {
  }

  lemma {:induction false} RecentMembers(history: seq<Record>, cutoff: int)
    ensures forall r :: r in Recent(history, cutoff) <==> r in history && r.observed >= cutoff
  {
    if history != [] {
      RecentMembers(history[1..], cutoff);
      assert history == [history[0]] + history[1..];
    }
  }

  lemma FirstIsLeast(first: Record, rest: seq<Record>, some: seq<Record>)
    requires Increasing([first] + rest) && Increasing(some) && forall r :: r in some ==> r in rest
    ensures Increasing([first] + some)
  {
    var all := [first] + rest;
    forall i | 0 <= i < |some| ensures first.seqNo < some[i].seqNo {
      assert some[i] in rest;
      var j :| 0 <= j < |rest| && rest[j] == some[i];
      assert all[0].seqNo < all[j + 1].seqNo;
    }
  }

  /** Of a history in order, a snapshot of detections has exactly those no older than the cutoff, in order. */
  lemma {:induction false} RecentExactly(history: seq<Record>, cutoff: int)
    requires Increasing(history)
    ensures Increasing(Recent(history, cutoff))
    ensures forall r :: r in Recent(history, cutoff) <==> r in history && r.observed >= cutoff
  {
    RecentMembers(history, cutoff);
    if history != [] {
      RecentMembers(history[1..], cutoff);
      RecentExactly(history[1..], cutoff);
      assert history == [history[0]] + history[1..];
      FirstIsLeast(history[0], history[1..], Recent(history[1..], cutoff));
      hide Increasing;
      assert [] + Recent(history[1..], cutoff) == Recent(history[1..], cutoff);
    }
  }

  /** The snapshot is this principal's, of this kind and epoch, and not older than twenty-five hours. */
  predicate Owned(s: Snap, kind: string, principal: string, epoch: nat, now: int) {
    s.kind == kind && s.principal == principal && s.gapEpoch == epoch && now - s.created <= 25 * 3600
  }

  /**
    The page goes on where the cursor stands, as far as the limit and the byte bound allow, and its cursor goes on
    after it. Only a record too large for any page is refused.
   */
  ghost predicate GoesOn(s: Snap, id: nat, offset: nat, q: Request, a: Answer)
    requires offset <= |s.records|
  {
    var at := NextOffset(s.records, offset, q);
    && at <= offset + q.limit
    && (a == Unexportable
        || a == Served(s.records[offset..at],
                       if at < |s.records| then InSnapshot(id, at, s.gapEpoch)
                       else if s.kind == DETECTION then InDelta(s.watermark, s.gapEpoch) else Anew(s.gapEpoch), at < |s.records|))
    && (offset < |s.records| && q.fits(1, true) && q.fits(1, false) ==> a.Served?)
    && (offset < |s.records| && a.Served? ==> at > offset)
    && ((forall n, more :: q.fits(n, more)) ==> a.Served? && at == Min(offset + q.limit, |s.records|))
  }

  lemma SnapshotGoesOn(s: Snap, id: nat, offset: nat, q: Request)
    requires offset <= |s.records| && q.limit > 0
    ensures GoesOn(s, id, offset, q, SnapshotAnswer(s, id, offset, q))
  {
    var n := Min(q.limit, |s.records| - offset);
    var more := offset + n < |s.records|;
    assert n > 0 && q.fits(1, true) && q.fits(1, false) ==> FitsAt(q.fits, n, more, 1);
    assert (forall k, m :: q.fits(k, m)) ==> FitsAt(q.fits, n, more, n);
  }

  /** A cursor into one's own snapshot is served. */
  lemma OwnSnapshotIsServed(snapshots: map<nat, Snap>, id: nat, offset: nat, epoch: nat, kind: string, principal: string,
                            now: int, q: Request)
    requires id in snapshots && Owned(snapshots[id], kind, principal, epoch, now) && offset <= |snapshots[id].records| && q.limit > 0
    ensures GoesOn(snapshots[id], id, offset, q, HeldAnswer(Held(snapshots, id, offset, epoch, kind, principal, now), id, offset, q))
  {
    SnapshotGoesOn(snapshots[id], id, offset, q);
    hide GoesOn, SnapshotAnswer;
  }

  /** Any other cursor into a snapshot is refused. */
  lemma OthersSnapshotIsRefused(snapshots: map<nat, Snap>, id: nat, offset: nat, epoch: nat, kind: string, principal: string,
                                now: int, q: Request)
    requires id in snapshots ==> !Owned(snapshots[id], kind, principal, epoch, now) || offset > |snapshots[id].records|
    ensures HeldAnswer(Held(snapshots, id, offset, epoch, kind, principal, now), id, offset, q) == Reset
  {
  }

  /** A request for detections gets some as long as there are any that fit a page alone. */
  lemma DeltaGoesOn(m: Memory, watermark: nat, epoch: nat, q: Request)
    requires q.limit > 0 && q.fits(1, true) && q.fits(1, false) && Later(m.history, watermark) != []
    ensures var a := DeltaAnswer(m, watermark, epoch, q);
      a.Served? && a.records != [] && a.records <= Later(m.history, watermark)
  {
    var (rows, more) := DeltaRows(m, watermark, q.limit);
    assert FitsAt(q.fits, |rows|, more, 1);
  }
}
