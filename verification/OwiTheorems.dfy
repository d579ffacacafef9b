/** What the replication protocol promises its readers and operators. */
module OwiTheorems {
  import opened Common
  import opened OwiModel
  import opened OwiStore
  import opened OwiPages
  import opened OwiRuns

  /** A connector whose state file did not exist yet, and readers that hold no cursor. */
  ghost predicate Beginning(w: World, now: int, size: Record -> nat) {
    && w.store == Persisted(Booted(None, NO_HISTORY, map[], now, size), true)
    && forall i :: 0 <= i < |w.clients| ==> w.clients[i].cursor == NoCursor
  }

  lemma BeginningOk(w: World, now: int, size: Record -> nat)
    requires Beginning(w, now, size)
    ensures WorldOk(w, size)
  {
    LoadedLanes(None, NO_HISTORY, map[], now);
    CleanedLanes(Loaded(None, now), NO_HISTORY, now);
    PersistedInv(Booted(None, NO_HISTORY, map[], now, size), true, size);
  }

  /**
    A reader that has followed cursors from an empty start holds, once its bootstrap is complete,
    exactly the source state as of its watermark: for every interleaving of writers, readers, trims,
    failed saves, crashes and lost responses.
   */
  lemma ReaderHoldsItsWatermark(ws: seq<World>, acts: seq<Action>, size: Record -> nat, now: int, i: nat, c: nat)
    requires Run(ws, acts, size) && Beginning(ws[0], now, size) && i <= |acts| && c < |ws[i].clients|
    ensures var client := ws[i].clients[c];
      client.cursor.Signed? && client.cursor.cursor.mode == Incremental ==>
        HoldsStateAt(client.received, client.kind, ws[i].store.fileHist.Of(client.kind), client.cursor.cursor.watermark, client.start)
  {
    BeginningOk(ws[0], now, size);
    ReplicationIsSafe(ws, acts, size, i);
    assert ClientOk(ws[i].clients[c], ws[i].store.fileHist, ws[i].store.ledger);
  }

  lemma Subrun(ws: seq<World>, acts: seq<Action>, size: Record -> nat, i: nat)
    requires Run(ws, acts, size) && i <= |acts|
    ensures Run(ws[i..], acts[i..], size)
  {
    var us, bs := ws[i..], acts[i..];
    forall n | 0 <= n < |bs| ensures Step(us[n], bs[n], us[n + 1], size) {
      assert Step(ws[i + n], acts[i + n], ws[i + n + 1], size);
    }
  }

  /**
    Crash safety: the records up to a watermark some reader stands at are, in every later state,
    still the records with those sequence numbers, in the file and in memory.
   */
  lemma SequencesAreNeverReused(ws: seq<World>, acts: seq<Action>, size: Record -> nat, i: nat, j: nat, c: nat)
    requires Run(ws, acts, size) && WorldOk(ws[0], size) && i <= j <= |acts| && c < |ws[i].clients|
    requires var client := ws[i].clients[c];
      client.cursor.Signed? && client.cursor.cursor.mode == Incremental
    ensures var client := ws[i].clients[c];
      var w, k := client.cursor.cursor.watermark, client.kind;
      && w <= |ws[i].store.fileHist.Of(k)| && w <= |ws[j].store.fileHist.Of(k)| && w <= |ws[j].store.hist.Of(k)|
      && ws[j].store.fileHist.Of(k)[..w] == ws[i].store.fileHist.Of(k)[..w]
      && ws[j].store.hist.Of(k)[..w] == ws[i].store.fileHist.Of(k)[..w]
  {
    ReplicationIsSafe(ws, acts, size, i);
    ReplicationIsSafe(ws, acts, size, j);
    Subrun(ws, acts, size, i);
    ReplicationIsSafe(ws[i..], acts[i..], size, j - i);
    assert ws[i..][j - i] == ws[j];
    var client := ws[i].clients[c];
    assert ClientOk(client, ws[i].store.fileHist, ws[i].store.ledger);
    var k := client.kind;
    assert ws[i].store.fileHist.Of(k) <= ws[j].store.fileHist.Of(k) <= ws[j].store.hist.Of(k);
  }

  /** Each journal carries consecutive sequence numbers ending at the kind's counter, and bytes are accounted for. */
  lemma JournalShape(s: Store, size: Record -> nat, k: Kind)
    requires Inv(s, size)
    ensures var l := LaneOf(s.mem, k);
      && |l.journal| <= l.next
      && (forall n :: 0 <= n < |l.journal| ==> l.journal[n].sequence == l.next - |l.journal| + n + 1)
    ensures s.detectionBytes == Bytes(size, s.mem.journal.detection)
  {
    var l, h := LaneOf(s.mem, k), s.hist.Of(k);
    assert LaneOk(l, h, k);
    forall n | 0 <= n < |l.journal| ensures l.journal[n].sequence == l.next - |l.journal| + n + 1 {
      assert l.journal[n] == h[|h| - |l.journal| + n];
    }
  }

  /** With rows in the journal, a cursor is refused exactly when a record after its watermark was trimmed away. */
  lemma ResetExactly(cur: Cursor, l: Lane, h: seq<Record>, k: Kind, limit: int, now: int, coverage: Coverage)
    requires limit >= 1 && LaneOk(l, h, k) && cur.watermark <= |h| && l.journal != []
    ensures IncrementalPage(cur, TailOf(l, cur.watermark), limit, now, coverage) == Refused(ResetRequired)
            <==> cur.watermark < |h| - |l.journal|
  {
    TailFollows(l, h, k, cur.watermark);
  }

  /**
    A page that reports no more rows leaves the reader at the current sequence number exactly when
    the journal has rows or the cursor already stood there. An emptied journal is the one case where
    the answer is empty, unrefused, and behind.
   */
  lemma CaughtUpExactly(cur: Cursor, l: Lane, h: seq<Record>, k: Kind, limit: int, now: int, coverage: Coverage)
    requires limit >= 1 && LaneOk(l, h, k) && cur.watermark <= |h|
    ensures var resp := IncrementalPage(cur, TailOf(l, cur.watermark), limit, now, coverage);
      && (resp.Page? && !resp.hasMore ==>
           (resp.next.cursor.watermark == l.next <==> l.journal != [] || cur.watermark == l.next))
      && (resp.Page? && resp.hasMore ==> cur.watermark < resp.next.cursor.watermark < l.next)
      && (l.journal == [] ==> resp == Page(Incremental, [], Signed(cur), false, coverage))
  {
    TailFollows(l, h, k, cur.watermark);
    PageFollows(cur, l, h, k, limit, now, coverage);
  }

  /** A reader at the current sequence number holds the source's current map; for detections, all since its start. */
  lemma CurrentAtTheEnd(received: seq<Record>, l: Lane, h: seq<Record>, k: Kind, start: int)
    requires LaneOk(l, h, k) && HoldsStateAt(received, k, h, l.next, start)
    ensures if k == Detection then 0 <= start <= |h| && received == h[start..] else Fold(received) == l.current
  {
    assert h[..l.next] == h;
    assert k == Detection ==> h[start..l.next] == h[start..];
  }

  /** What the reader asked with a step holds, and the store, after an incremental page has reached it. */
  ghost predicate CaughtUp(c: Client, st: State, h: seq<Record>) {
    && c.cursor.Signed? && c.cursor.cursor.watermark == st.nextSequence.Of(c.kind) == |h|
    && if c.kind == Detection then 0 <= c.start <= |h| && c.received == h[c.start..] else Fold(c.received) == st.current.Of(c.kind)
  }

  /**
    In every run: a reader told that there are no more rows holds the current state, exactly when the journal
    still has rows or the reader was current before.
   */
  lemma NoMoreRowsMeansCurrentExactly(ws: seq<World>, acts: seq<Action>, size: Record -> nat, i: nat)
    requires Run(ws, acts, size) && WorldOk(ws[0], size) && i < |acts|
    requires var a := acts[i];
      && a.Serve? && a.delivered && a.resp.Page? && a.resp.mode == Incremental && !a.resp.hasMore
    ensures var a, w := acts[i], ws[i + 1];
      && a.client < |w.clients| && ws[i].clients[a.client].cursor.Signed?
      && var c, was := w.clients[a.client], ws[i].clients[a.client].cursor.cursor.watermark;
         CaughtUp(c, w.store.mem, w.store.hist.Of(c.kind))
         <==> w.store.mem.journal.Of(c.kind) != [] || was == w.store.mem.nextSequence.Of(c.kind)
  {
    ReplicationIsSafe(ws, acts, size, i);
    ReplicationIsSafe(ws, acts, size, i + 1);
    assert Step(ws[i], acts[i], ws[i + 1], size);
    ServedMeansCurrent(ws[i], acts[i], ws[i + 1], size);
  }

  lemma ServedMeansCurrent(w: World, a: Action, w': World, size: Record -> nat)
    requires WorldOk(w, size) && WorldOk(w', size) && a.Serve? && ServeStep(w, a, w', size)
    requires a.delivered && a.resp.Page? && a.resp.mode == Incremental && !a.resp.hasMore
    ensures a.client < |w'.clients| && w.clients[a.client].cursor.Signed?
    ensures var c, was := w'.clients[a.client], w.clients[a.client].cursor.cursor.watermark;
      CaughtUp(c, w'.store.mem, w'.store.hist.Of(c.kind))
      <==> w'.store.mem.journal.Of(c.kind) != [] || was == w'.store.mem.nextSequence.Of(c.kind)
  {
    var c, c', k := w.clients[a.client], w'.clients[a.client], a.q.kind;
    var s, s' := w.store, w'.store;
    var tail := ServedIncrementally(s, s', a, size);
    var cur := c.cursor.cursor;
    hide Inv, ClientOk, JournalRead, IncrementalPage, CoverageOf, Served, TailOf, LaneOk, HoldsStateAt, CaughtUp;
    JournalReadKeeps(s, s', Some(tail), k, cur.watermark, a.q.now, a.q.writeOk, size);
    DurableNow(s', size, k);
    assert ClientOk(c, s.fileHist, s.ledger) && ClientOk(c', s'.fileHist, s'.ledger);
    ReaderStands(c, cur, s);
    hide Remembers;
    RememberedFile(s, s');
    StillThere(s, s', k, cur.watermark);
    PageMeansCurrent(c, c', cur, s', size, a.q.limit, a.q.now, a.resp);
  }

  lemma RememberedFile(s: Store, s': Store)
    requires Remembers(s, s')
    ensures Extends(s.fileHist, s'.fileHist)
  {
  }

  lemma StillThere(s: Store, s': Store, k: Kind, n: nat)
    requires Extends(s.fileHist, s'.fileHist) && n <= |s.fileHist.Of(k)|
    ensures n <= |s'.fileHist.Of(k)|
  {
    assert s.fileHist.Of(k) <= s'.fileHist.Of(k);
  }

  lemma ServedIncrementally(s: Store, s': Store, a: Action, size: Record -> nat) returns (tail: Tail)
    requires a.Serve? && a.q.limit >= 1 && Served(s, s', a.q, a.source, a.alive, a.rows, a.fits, size, a.resp)
    requires a.resp.Page? && a.resp.mode == Incremental
    ensures a.q.raw.Signed? && a.q.raw.cursor.mode == Incremental
    ensures JournalRead(s, s', Some(tail), a.q.kind, a.q.raw.cursor.watermark, a.q.now, a.q.writeOk, size)
    ensures a.resp == IncrementalPage(a.q.raw.cursor, tail, a.q.limit, a.q.now, CoverageOf(s'.mem, a.q.kind, a.q.now))
  {
    hide JournalRead, SnapshotTaken, SnapshotLookedUp, CoverageOf;
    assert a.q.raw.Signed? && a.q.raw.cursor.mode == Incremental;
    var r :| JournalRead(s, s', r, a.q.kind, a.q.raw.cursor.watermark, a.q.now, a.q.writeOk, size)
             && r.Some? && a.resp == IncrementalPage(a.q.raw.cursor, r.value, a.q.limit, a.q.now, CoverageOf(s'.mem, a.q.kind, a.q.now));
    tail := r.value;
  }

  lemma PageMeansCurrent(c: Client, c': Client, cur: Cursor, s: Store, size: Record -> nat, limit: int, now: int, resp: Response)
    requires limit >= 1 && cur.mode == Incremental && resp.Page? && !resp.hasMore
    requires s.fileHist == s.hist && LaneOk(LaneOf(s.mem, c.kind), s.hist.Of(c.kind), c.kind) && cur.watermark <= |s.hist.Of(c.kind)|
    requires resp == IncrementalPage(cur, TailOf(LaneOf(s.mem, c.kind), cur.watermark), limit, now, CoverageOf(s.mem, c.kind, now))
    requires c'.kind == c.kind && c'.cursor == resp.next && ClientOk(c', s.fileHist, s.ledger)
    ensures CaughtUp(c', s.mem, s.hist.Of(c.kind)) <==> s.mem.journal.Of(c.kind) != [] || cur.watermark == s.mem.nextSequence.Of(c.kind)
  {
    var k := c.kind;
    var l, h := LaneOf(s.mem, k), s.hist.Of(k);
    hide ClientOk, IncrementalPage, CoverageOf, TailOf, LaneOk, HoldsStateAt, Fold;
    CaughtUpExactly(cur, l, h, k, limit, now, CoverageOf(s.mem, k, now));
    PageFollows(cur, l, h, k, limit, now, CoverageOf(s.mem, k, now));
    ReaderStands(c', c'.cursor.cursor, s);
    assert l.next == |h| by { NextIsLength(l, h, k); }
    if c'.cursor.cursor.watermark == l.next {
      CurrentAtTheEnd(c'.received, l, h, k, c'.start);
    }
  }

  lemma NextIsLength(l: Lane, h: seq<Record>, k: Kind)
    requires LaneOk(l, h, k)
    ensures l.next == |h|
  {
  }

  lemma DurableNow(s: Store, size: Record -> nat, k: Kind)
    requires Inv(s, size) && !s.writeFailed
    ensures s.fileHist == s.hist && LaneOk(LaneOf(s.mem, k), s.hist.Of(k), k) && s.mem.nextSequence.Of(k) == |s.hist.Of(k)|
  {
    DurableWhenServing(s, size);
  }

  lemma ReaderStands(c: Client, cur: Cursor, s: Store)
    requires c.cursor == Signed(cur) && cur.mode == Incremental && ClientOk(c, s.fileHist, s.ledger)
    ensures HoldsStateAt(c.received, c.kind, s.fileHist.Of(c.kind), cur.watermark, c.start) && cur.kind == c.kind
    ensures cur.watermark <= |s.fileHist.Of(c.kind)|
  {
  }

  /**
    The stale answer is given: whenever the journal of a kind has expired as a whole, a reader that stands
    behind it and asks again, with a cursor that is still good, is told there is no more and gets no RESET.
   */
  lemma StaleAnswerIsServed(w: World, n: nat, now: int, size: Record -> nat) returns (a: Action, w': World)
    requires WorldOk(w, size) && n < |w.clients| && !w.store.writeFailed
    requires var c := w.clients[n];
      && c.limit >= 1 && c.cursor.Signed? && c.cursor.cursor.mode == Incremental
      && Binds(c.cursor.cursor, c.reader, c.cursor.cursor.source, c.kind, c.limit, now)
      && c.cursor.cursor.watermark < w.store.mem.nextSequence.Of(c.kind)
      && Retained(w.store.mem.journal.Of(c.kind), c.kind, now) == []
    ensures Step(w, a, w', size) && a.Serve? && a.client == n && a.delivered
    ensures a.resp.Page? && a.resp.records == [] && !a.resp.hasMore && a.resp.next == w.clients[n].cursor
    ensures w'.clients[n].cursor.cursor.watermark < w'.store.mem.nextSequence.Of(w.clients[n].kind)
  {
    var c := w.clients[n];
    var cur, s := c.cursor.cursor, w.store;
    var q := Request(c.kind, c.reader, c.limit, c.cursor, now, None, true);
    var cleaned := CleanedStore(s, now, size);
    var s' := if Tidied(s.mem, cleaned.mem) then Persisted(cleaned, true) else cleaned;
    var tail := TailOf(LaneOf(s'.mem, c.kind), cur.watermark);
    assert LaneOf(s'.mem, c.kind).journal == [];
    assert JournalRead(s, s', Some(tail), c.kind, cur.watermark, now, true, size);
    var resp := IncrementalPage(cur, tail, c.limit, now, CoverageOf(s'.mem, c.kind, now));
    a := Serve(n, q, cur.source, true, [], true, resp, true);
    assert Served(s, s', q, cur.source, true, [], true, size, resp);
    w' := World(s', w.clients[n := Receive(c, resp, TrimmedAway(s'.mem, c.kind))]);
  }

  /** Syncing a kind that already says what is wanted numbers nothing. */
  lemma SyncIsQuiet(l: Lane, h: seq<Record>, l': Lane, h': seq<Record>, k: Kind, desired: seq<Record>, now: int)
    requires k != Detection && LaneOk(l, h, k) && LaneSynced(l, h, l', h', desired, now)
    requires TellsLast(l.current, desired)
    requires forall a, b :: a in desired && b in desired && a.externalId == b.externalId ==> Tells(a, b)
    ensures h' == h && l' == l
  {
    hide TellsLast, LastOf, Change, Changes, Fold, Mirrors, Numbered, SameContent, Tells;
    var added := h'[|h|..];
    if added != [] {
      ChangesHead(h, added, desired, now);
      TellsMirrors(Fold(h), desired);
      SameTellings(desired);
      NothingToChange(h, added[0], desired, now);
    }
    assert h' == h + added;
    assert l.journal + [] == l.journal;
  }

  lemma SameTellings(desired: seq<Record>)
    requires forall a, b :: a in desired && b in desired && a.externalId == b.externalId ==> Tells(a, b)
    ensures forall a, b :: a in desired && b in desired && a.externalId == b.externalId ==> SameContent(a, b)
  {
    forall a, b | a in desired && b in desired && a.externalId == b.externalId ensures SameContent(a, b) {
      assert Tells(a, b);
    }
  }

  lemma ChangesHead(h: seq<Record>, added: seq<Record>, desired: seq<Record>, now: int)
    requires Changes(h, added, desired, now) && added != []
    ensures Change(h, added[0], desired, now)
  {
    assert h + added[..0] == h;
  }

  lemma NothingToChange(h: seq<Record>, r: Record, desired: seq<Record>, now: int)
    requires Mirrors(Fold(h), desired)
    requires forall a, b :: a in desired && b in desired && a.externalId == b.externalId ==> SameContent(a, b)
    ensures !Change(h, r, desired, now)
  {
    WantedIsOneOf(desired);
    WantedKeys(desired);
    hide Fold, Wanted;
  }

  lemma {:induction false} WantedIsOneOf(desired: seq<Record>)
    ensures forall id :: id in Wanted(desired) ==> Wanted(desired)[id] in desired && Wanted(desired)[id].externalId == id
  {
    if desired != [] {
      WantedIsOneOf(desired[..|desired| - 1]);
    }
  }

  /** What a reader sees after it catches up is, record for record, the content the last sync asked for. */
  lemma CaughtUpReaderSeesDesired(received: seq<Record>, l: Lane, h: seq<Record>, l': Lane, h': seq<Record>, k: Kind,
                                  desired: seq<Record>, now: int, start: int)
    requires k != Detection && LaneOk(l, h, k) && LaneSynced(l, h, l', h', desired, now)
    requires HoldsStateAt(received, k, h', l'.next, start)
    ensures TellsLast(Fold(received), desired)
    ensures forall id :: id in Fold(received) ==> Fold(received)[id].externalId == id && Fold(received)[id].operation == Upsert
  {
    SyncedLaneOk(l, h, l', h', k, desired, now);
    CurrentAtTheEnd(received, l', h', k, start);
    FoldEntries(h');
    MirrorsTells(Fold(received), desired);
  }
}
