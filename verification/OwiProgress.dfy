/**
  What a reader that keeps asking gets. The laws of OwiTheorems speak of pages that were served; these say
  which requests are served, how far each page takes the reader, and that a bootstrap comes to its end.
 */
module OwiProgress {
  import opened Common
  import opened OwiModel
  import opened OwiStore
  import opened OwiPages
  import opened OwiRuns
  import opened OwiTheorems

  /** The snapshot is held in memory and in the state file. */
  ghost predicate Kept(s: Store, snap: Snapshot) {
    && snap.id in s.mem.snapshots && s.mem.snapshots[snap.id] == snap
    && s.file.Some? && snap.id in s.file.value.snapshots && s.file.value.snapshots[snap.id] == snap
  }

  /** The clock an action reads to decide what has expired is before t. */
  predicate Before(a: Action, t: int) {
    match a
    case Sync(_, now, _, _) => now < t
    case Detect(_, now, _, _) => now < t
    case CrashAndRestart(now) => now < t
    case Serve(_, q, _, _, _, _, _, _) => q.now < t
    case MarkDrop(_, _) => true
    case Close(_) => true
  }

  lemma KeptByPersist(s: Store, writeOk: bool, snap: Snapshot)
    requires Kept(s, snap)
    ensures Kept(Persisted(s, writeOk), snap)
  {}

  lemma KeptBeside(s: Store, s': Store, snap: Snapshot)
    requires Kept(s, snap) && s'.file == s.file
    requires snap.id in s.mem.snapshots ==> snap.id in s'.mem.snapshots && s'.mem.snapshots[snap.id] == s.mem.snapshots[snap.id]
    ensures Kept(s', snap)
  {}

  lemma KeptByForgetting(s: Store, id: string, now: int, snap: Snapshot)
    requires Kept(s, snap) && now < snap.expiresAt && id in s.mem.snapshots && s.mem.snapshots[id].expiresAt <= now
    ensures Kept(Forgotten(s, id), snap)
  {}

  lemma KeptByCleaning(s: Store, now: int, size: Record -> nat, snap: Snapshot)
    requires Kept(s, snap) && now < snap.expiresAt
    ensures Kept(CleanedStore(s, now, size), snap)
  {
    hide Retained, Bytes;
  }

  /** A restarting process finds the snapshot in the file. */
  lemma KeptByBoot(s: Store, now: int, size: Record -> nat, snap: Snapshot)
    requires Kept(s, snap) && now < snap.expiresAt
    ensures Kept(Booted(s.file, s.fileHist, s.ledger, now, size), snap)
  {
    hide Retained, Bytes;
  }

  lemma KeptByStoreStep(s: Store, a: Action, s': Store, size: Record -> nat, snap: Snapshot)
    requires !a.Serve? && StoreStep(s, a, s', size) && Kept(s, snap) && Before(a, snap.expiresAt)
    ensures Kept(s', snap)
  {
    hide Kept, Cleaned, CleanedStore, Persisted, Bytes, Stamped, KindSynced, Loaded, Tidied, Booted;
    match a {
      case Sync(desired, now, writeOk, synced) =>
        KeptBeside(s, synced, snap);
        KeptByCleaning(synced, now, size, snap);
        KeptByPersist(CleanedStore(synced, now, size), writeOk, snap);
      case Detect(candidate, now, writeOk, fits) =>
        KeptByCleaning(s, now, size, snap);
        var cleaned := CleanedStore(s, now, size);
        KeptBeside(cleaned, Appended(cleaned, candidate, size), snap);
        KeptByPersist(Appended(cleaned, candidate, size), writeOk, snap);
      case MarkDrop(now, writeOk) =>
        KeptBeside(s, DropMarked(s, now), snap);
        KeptByPersist(DropMarked(s, now), writeOk, snap);
      case Close(writeOk) =>
        KeptBeside(s, Closed(s), snap);
        KeptByPersist(Closed(s), writeOk, snap);
      case CrashAndRestart(now) =>
        KeptByBoot(s, now, size, snap);
        KeptByPersist(Booted(s.file, s.fileHist, s.ledger, now, size), true, snap);
    }
  }

  lemma KeptByServing(s: Store, a: Action, s': Store, size: Record -> nat, snap: Snapshot)
    requires a.Serve? && a.q.limit >= 1 && Served(s, s', a.q, a.source, a.alive, a.rows, a.fits, size, a.resp)
    requires Inv(s, size) && Kept(s, snap) && Before(a, snap.expiresAt)
    ensures Kept(s', snap)
  {
    hide Kept, Inv, Cleaned, CleanedStore, Persisted, TailOf, Tidied, SnapshotPage, IncrementalPage, CoverageOf, Freezes, SnapshotTaken;
    if s' == s {
    } else if a.q.raw.NoCursor? {
      var r :| SnapshotTaken(s, s', r, a.rows, a.q.kind, a.q.reader, a.q.id, a.q.now, a.q.writeOk, size, a.fits);
      KeptIsRecorded(s, size, snap);
      KeptByTaking(s, s', r, a.rows, a.q, size, a.fits, snap);
    } else if a.q.raw.cursor.mode == Snapshotting {
      var r :| SnapshotLookedUp(s, s', r, a.q.raw.cursor.snapshotId, a.q.now, a.q.writeOk);
      var id := a.q.raw.cursor.snapshotId;
      KeptByForgetting(s, id, a.q.now, snap);
      KeptByPersist(Forgotten(s, id), a.q.writeOk, snap);
    } else {
      KeptByCleaning(s, a.q.now, size, snap);
      KeptByPersist(CleanedStore(s, a.q.now, size), a.q.writeOk, snap);
    }
  }

  lemma KeptIsRecorded(s: Store, size: Record -> nat, snap: Snapshot)
    requires Inv(s, size) && Kept(s, snap)
    ensures snap.id in s.ledger && s.ledger[snap.id] == snap
  {
    assert Recorded(s.mem.snapshots, s.ledger);
  }

  /** A new snapshot gets a name no earlier one had. */
  lemma KeptByTaking(s: Store, s': Store, r: Option<Snapshot>, rows: seq<Record>, q: Request, size: Record -> nat, fits: bool,
                     snap: Snapshot)
    requires SnapshotTaken(s, s', r, rows, q.kind, q.reader, q.id, q.now, q.writeOk, size, fits)
    requires Kept(s, snap) && snap.id in s.ledger && q.now < snap.expiresAt
    ensures Kept(s', snap)
  {
    hide Cleaned, Freezes, Bytes, CleanedStore, Kept, Persisted;
    if !s.writeFailed {
      var cleaned := CleanedStore(s, q.now, size);
      KeptByCleaning(s, q.now, size, snap);
      if fits && q.id.Some? {
        var taken := Frozen(cleaned, q.kind, q.reader, q.id.value, rows, q.now);
        KeptBeside(cleaned, WithSnapshot(cleaned, taken), snap);
        KeptByPersist(WithSnapshot(cleaned, taken), q.writeOk, snap);
      }
    }
  }

  /** Whatever writers, readers and crashes do, a snapshot in the file is there until its time is up. */
  lemma SnapshotsLastTheirTime(w: World, a: Action, w': World, size: Record -> nat, snap: Snapshot)
    requires WorldOk(w, size) && Step(w, a, w', size) && Kept(w.store, snap) && Before(a, snap.expiresAt)
    ensures Kept(w'.store, snap)
  {
    hide Inv, Kept, Served, StoreStep;
    if a.Serve? {
      KeptByServing(w.store, a, w'.store, size, snap);
    } else {
      KeptByStoreStep(w.store, a, w'.store, size, snap);
    }
  }

  // ------------------------------------------------------------ one request

  /** The reader has the first so many records of the snapshot and a cursor to the rest. */
  ghost predicate Bootstrapping(c: Client, snap: Snapshot, offset: int) {
    && c.cursor.Signed?
    && c.cursor.cursor.mode == Snapshotting && c.cursor.cursor.snapshotId == snap.id && c.cursor.cursor.offset == offset
    && 0 <= offset <= |snap.records| && c.received == snap.records[..offset]
  }

  /** The reader has the whole snapshot and goes on from its watermark. */
  ghost predicate Bootstrapped(c: Client, snap: Snapshot) {
    && c.cursor.Signed?
    && c.cursor.cursor.mode == Incremental && c.cursor.cursor.watermark == snap.watermark
    && c.received == snap.records
  }

  /** What n rows more of the snapshot make of a reader. */
  ghost predicate MovedTo(c: Client, snap: Snapshot, offset: int) {
    if offset < |snap.records| then Bootstrapping(c, snap, offset) else Bootstrapped(c, snap)
  }

  /** The new cursor is for the same source and good for another day. */
  predicate RenewedAt(c: Client, c': Client, now: int) {
    c.cursor.Signed? && c'.cursor.Signed? && c'.cursor.cursor.source == c.cursor.cursor.source
    && c'.cursor.cursor.expiresAt == now + 24 * 3600
  }

  /** The cursor a reader shows is still good at the source it shows it to. */
  predicate Current(c: Client, source: string, now: int) {
    c.cursor.Signed? && c.cursor.cursor.source == source && now < c.cursor.cursor.expiresAt
  }

  /** The store works and the answer arrives. */
  ghost predicate Reaches(w: World, a: Action) { a.Serve? && a.delivered && a.alive && !w.store.writeFailed }

  /** A lookup of a snapshot that is there and unexpired finds it and changes nothing. */
  lemma LookupFinds(s: Store, s': Store, q: Request, source: string, alive: bool, rows: seq<Record>, fits: bool,
                    size: Record -> nat, resp: Response, snap: Snapshot)
    requires q.limit >= 1 && Served(s, s', q, source, alive, rows, fits, size, resp) && !s.writeFailed
    requires q.raw.Signed? && Binds(q.raw.cursor, q.reader, source, q.kind, q.limit, q.now)
    requires q.raw.cursor.mode == Snapshotting && q.raw.cursor.snapshotId == snap.id
    requires Kept(s, snap) && q.now < snap.expiresAt && snap.reader == q.reader && snap.kind == q.kind
    ensures s' == s && resp == SnapshotPage(snap, q.raw.cursor, q.limit, q.now, CoverageIf(alive, s'.mem, q.kind, q.now))
  {
    hide Binds, SnapshotPage, CoverageOf;
  }

  /**
    A reader that shows its own unexpired snapshot cursor while the snapshot is unexpired and saving works gets
    the next rows of the snapshot, as many as it asked for or as there are.
   */
  lemma SnapshotRequestIsAnswered(w: World, a: Action, w': World, size: Record -> nat, snap: Snapshot)
    requires WorldOk(w, size) && Step(w, a, w', size) && Reaches(w, a)
    requires var c := w.clients[a.client]; Current(c, a.source, a.q.now) && Bootstrapping(c, snap, c.cursor.cursor.offset)
    requires Kept(w.store, snap) && a.q.now < snap.expiresAt
    ensures var c, c' := w.clients[a.client], w'.clients[a.client];
      var from := c.cursor.cursor.offset;
      var to := Min(from + c.limit, |snap.records|);
      && a.resp.Page? && a.resp.mode == Snapshotting && a.resp.records == snap.records[from..to]
      && (a.resp.hasMore <==> to < |snap.records|)
      && c' == c.(cursor := c'.cursor, received := c'.received) && MovedTo(c', snap, to) && RenewedAt(c, c', a.q.now)
  {
    hide Inv, ClientOk, Served, StoreStep, Kept, SnapshotPage, CoverageOf, Remembers, Bootstrapping, Bootstrapped,
      Favourable, Paged, FavoursFollower;
    ServedSnapshotMoves(w.store, w'.store, w.clients[a.client], a.q, a.source, a.alive, a.rows, a.fits, size, a.resp, snap,
                        TrimmedAway(w'.store.mem, w.clients[a.client].kind));
  }

  lemma ServedSnapshotMoves(s: Store, s': Store, c: Client, q: Request, source: string, alive: bool, rows: seq<Record>,
                            fits: bool, size: Record -> nat, resp: Response, snap: Snapshot, trimmed: int)
    requires Inv(s, size) && q.limit >= 1 && Served(s, s', q, source, alive, rows, fits, size, resp)
    requires ClientOk(c, s.fileHist, s.ledger) && !s.writeFailed && alive
    requires q.kind == c.kind && q.reader == c.reader && q.limit == c.limit && q.raw == c.cursor
    requires Current(c, source, q.now) && Bootstrapping(c, snap, c.cursor.cursor.offset)
    requires Kept(s, snap) && q.now < snap.expiresAt
    ensures var c' := Receive(c, resp, trimmed);
      var from := c.cursor.cursor.offset;
      var to := Min(from + c.limit, |snap.records|);
      && resp.Page? && resp.mode == Snapshotting && resp.records == snap.records[from..to]
      && (resp.hasMore <==> to < |snap.records|)
      && c' == c.(cursor := c'.cursor, received := c'.received) && MovedTo(c', snap, to) && RenewedAt(c, c', q.now)
  {
    OwnSnapshot(s, c, size, snap);
    hide Inv, ClientOk, Served, StoreStep, Kept, SnapshotPage, CoverageOf, Remembers, WorldOk, Step, Bootstrapped,
      Favourable, Paged, FavoursFollower;
    LookupFinds(s, s', q, source, alive, rows, fits, size, resp, snap);
    PageMoves(c, snap, q.now, CoverageOf(s'.mem, q.kind, q.now), trimmed);
  }

  /** One page of a snapshot in the hands of its reader. */
  lemma PageMoves(c: Client, snap: Snapshot, now: int, coverage: Coverage, trimmed: int)
    requires c.limit >= 1 && c.cursor.Signed? && Bootstrapping(c, snap, c.cursor.cursor.offset)
    ensures var resp := SnapshotPage(snap, c.cursor.cursor, c.limit, now, Some(coverage));
      var c' := Receive(c, resp, trimmed);
      var from := c.cursor.cursor.offset;
      var to := Min(from + c.limit, |snap.records|);
      && resp.Page? && resp.mode == Snapshotting && resp.records == snap.records[from..to]
      && (resp.hasMore <==> to < |snap.records|)
      && c' == c.(cursor := c'.cursor, received := c'.received) && MovedTo(c', snap, to) && RenewedAt(c, c', now)
  {
    var from := c.cursor.cursor.offset;
    var to := Min(from + c.limit, |snap.records|);
    assert snap.records[..to] == snap.records[..from] + snap.records[from..to];
    if to == |snap.records| {
      assert snap.records[..to] == snap.records;
    }
  }

  /** The cursor and the snapshot a reader pages through are its own. */
  lemma OwnSnapshot(s: Store, c: Client, size: Record -> nat, snap: Snapshot)
    requires Inv(s, size) && ClientOk(c, s.fileHist, s.ledger)
    requires c.cursor.Signed? && c.cursor.cursor.mode == Snapshotting && c.cursor.cursor.snapshotId == snap.id
    requires Kept(s, snap)
    ensures snap.reader == c.reader && snap.kind == c.kind
    ensures c.cursor.cursor.reader == c.reader && c.cursor.cursor.kind == c.kind && c.cursor.cursor.limit == c.limit
  {
    assert Recorded(s.mem.snapshots, s.ledger);
  }

  /** A reader without a cursor gets a snapshot made for it, when saving works and the snapshot is within bounds. */
  lemma FirstRequestIsAnswered(w: World, a: Action, w': World, size: Record -> nat) returns (snap: Snapshot)
    requires WorldOk(w, size) && Step(w, a, w', size) && Reaches(w, a) && w.clients[a.client].cursor == NoCursor
    requires a.fits && a.q.id.Some? && a.q.writeOk
    ensures var c, c' := w.clients[a.client], w'.clients[a.client];
      var to := Min(c.limit, |snap.records|);
      && a.resp.Page? && a.resp.mode == Snapshotting && a.resp.records == snap.records[..to]
      && (a.resp.hasMore <==> to < |snap.records|)
      && c'.reader == c.reader && c'.kind == c.kind && c'.limit == c.limit && MovedTo(c', snap, to)
      && c'.cursor.cursor.source == a.source && c'.cursor.cursor.expiresAt == a.q.now + 24 * 3600
    ensures Kept(w'.store, snap) && snap.expiresAt == a.q.now + 24 * 3600
    ensures snap.kind == w.clients[a.client].kind && Freezes(snap.records, LaneOf(w'.store.mem, snap.kind), snap.kind)
    ensures snap.watermark == w'.store.mem.nextSequence.Of(w.clients[a.client].kind)
  {
    hide Inv, ClientOk, Served, StoreStep, Kept, SnapshotPage, CoverageOf, Remembers, Bootstrapping, Bootstrapped,
      Favourable, Paged, FavoursFollower;
    snap := ServedFirst(w.store, w'.store, w.clients[a.client], a.q, a.source, a.alive, a.rows, a.fits, size, a.resp,
                        TrimmedAway(w'.store.mem, w.clients[a.client].kind));
  }

  lemma ServedFirst(s: Store, s': Store, c: Client, q: Request, source: string, alive: bool, rows: seq<Record>, fits: bool,
                    size: Record -> nat, resp: Response, trimmed: int) returns (snap: Snapshot)
    requires Inv(s, size) && q.limit >= 1 && Served(s, s', q, source, alive, rows, fits, size, resp)
    requires !s.writeFailed && alive && c.cursor == NoCursor
    requires q.kind == c.kind && q.reader == c.reader && q.limit == c.limit && q.raw == c.cursor
    requires fits && q.id.Some? && q.writeOk
    ensures var c' := Receive(c, resp, trimmed);
      var to := Min(c.limit, |snap.records|);
      && resp.Page? && resp.mode == Snapshotting && resp.records == snap.records[..to]
      && (resp.hasMore <==> to < |snap.records|)
      && c'.reader == c.reader && c'.kind == c.kind && c'.limit == c.limit && MovedTo(c', snap, to)
      && c'.cursor.cursor.source == source && c'.cursor.cursor.expiresAt == q.now + 24 * 3600
    ensures Kept(s', snap) && snap.expiresAt == q.now + 24 * 3600
    ensures snap.kind == c.kind && Freezes(snap.records, LaneOf(s'.mem, snap.kind), snap.kind)
    ensures snap.watermark == s'.mem.nextSequence.Of(c.kind)
  {
    hide Inv, SnapshotPage, CoverageOf, Receive, MovedTo, FirstCursor;
    var r :| SnapshotTaken(s, s', r, rows, q.kind, q.reader, q.id, q.now, q.writeOk, size, fits) && r.Some?
      && resp == SnapshotPage(r.value, FirstCursor(r.value, source, q.limit, q.now), q.limit, q.now,
                              CoverageIf(alive, s'.mem, q.kind, q.now));
    snap := r.value;
    TakenIsKept(s, s', snap, rows, q, size);
    hide SnapshotTaken, Kept, Freezes, Served;
    FirstPageMoves(c, snap, source, q.now, CoverageOf(s'.mem, q.kind, q.now), trimmed);
  }

  lemma TakenIsKept(s: Store, s': Store, snap: Snapshot, rows: seq<Record>, q: Request, size: Record -> nat)
    requires SnapshotTaken(s, s', Some(snap), rows, q.kind, q.reader, q.id, q.now, q.writeOk, size, true)
    ensures Kept(s', snap) && snap.expiresAt == q.now + 24 * 3600 && snap.kind == q.kind && snap.reader == q.reader
    ensures Freezes(snap.records, LaneOf(s'.mem, snap.kind), snap.kind)
    ensures snap.watermark == s'.mem.nextSequence.Of(q.kind)
  {
    hide Cleaned, Freezes, Bytes;
    assert LaneOf(s'.mem, q.kind) == LaneOf(CleanedStore(s, q.now, size).mem, q.kind);
  }

  lemma FirstPageMoves(c: Client, snap: Snapshot, source: string, now: int, coverage: Coverage, trimmed: int)
    requires c.limit >= 1 && c.cursor == NoCursor
    ensures var resp := SnapshotPage(snap, FirstCursor(snap, source, c.limit, now), c.limit, now, Some(coverage));
      var c' := Receive(c, resp, trimmed);
      var to := Min(c.limit, |snap.records|);
      && resp.Page? && resp.mode == Snapshotting && resp.records == snap.records[..to]
      && (resp.hasMore <==> to < |snap.records|)
      && c'.reader == c.reader && c'.kind == c.kind && c'.limit == c.limit && MovedTo(c', snap, to)
      && c'.cursor.cursor.source == source && c'.cursor.cursor.expiresAt == now + 24 * 3600
  {
    var to := Min(c.limit, |snap.records|);
    if to == |snap.records| {
      assert snap.records[..to] == snap.records;
    }
  }

  // ------------------------------------------------------------ a whole bootstrap

  /** How often reader n asks. */
  function Asked(acts: seq<Action>, n: nat): nat {
    if acts == [] then 0
    else
      var last := acts[|acts| - 1];
      Asked(acts[..|acts| - 1], n) + if last.Serve? && last.client == n then 1 else 0
  }

  /** While reader n pages through a snapshot, its requests come in time and their answers arrive. */
  ghost predicate Favours(w: World, a: Action, n: nat) {
    a.Serve? && a.client == n && n < |w.clients| && w.clients[n].cursor.Signed? && w.clients[n].cursor.cursor.mode == Snapshotting ==>
      Reaches(w, a) && Current(w.clients[n], a.source, a.q.now)
  }

  /** The run stays before this time and favours reader n. */
  ghost predicate Favourable(ws: seq<World>, acts: seq<Action>, n: nat, end: int)
    requires |ws| == |acts| + 1
  {
    forall i :: 0 <= i < |acts| ==> Before(acts[i], end) && Favours(ws[i], acts[i], n)
  }

  lemma OthersLeaveMeAlone(w: World, a: Action, w': World, size: Record -> nat, n: nat)
    requires Step(w, a, w', size) && n < |w.clients|
    ensures |w'.clients| == |w.clients|
    ensures !(a.Serve? && a.client == n) ==> w'.clients[n] == w.clients[n]
    ensures a.Serve? ==> a.client < |w.clients| && w.clients[a.client].limit >= 1
  {
    hide Inv, ClientOk, Served, StoreStep, Kept, SnapshotPage, CoverageOf, Remembers, WorldOk, Bootstrapping,
      Bootstrapped, Favourable, Paged, FavoursFollower;
  }

  /** One step of a favourable run, seen by a reader that still pages. */
  lemma PageFurther(w: World, a: Action, w': World, size: Record -> nat, n: nat, snap: Snapshot, at: nat)
    requires WorldOk(w, size) && Step(w, a, w', size) && n < |w.clients|
    requires Bootstrapping(w.clients[n], snap, at) && at < |snap.records| && Kept(w.store, snap)
    requires Before(a, snap.expiresAt) && Favours(w, a, n)
    ensures |w'.clients| == |w.clients|
    ensures if a.Serve? && a.client == n then
              MovedTo(w'.clients[n], snap, Min(at + w.clients[n].limit, |snap.records|)) && w'.clients[n].limit == w.clients[n].limit
            else w'.clients[n] == w.clients[n]
  {
    hide Inv, ClientOk, Served, StoreStep, Kept, SnapshotPage, CoverageOf, Remembers, WorldOk, Step, Bootstrapped,
      Favourable, Paged, FavoursFollower;
    OthersLeaveMeAlone(w, a, w', size, n);
    if a.Serve? && a.client == n {
      SnapshotRequestIsAnswered(w, a, w', size, snap);
    }
  }

  /** By state i reader n pages at this offset, or if there is no such row has had the whole snapshot. */
  ghost predicate Paged(ws: seq<World>, i: nat, n: nat, snap: Snapshot, at: int, limit: int)
    requires i < |ws|
  {
    if at < |snap.records| then
      n < |ws[i].clients| && Bootstrapping(ws[i].clients[n], snap, at) && ws[i].clients[n].limit == limit
    else exists j :: 0 < j <= i && n < |ws[j].clients| && Bootstrapped(ws[j].clients[n], snap)
  }

  lemma PagedFurther(ws: seq<World>, acts: seq<Action>, size: Record -> nat, n: nat, snap: Snapshot, at: nat, limit: nat, i: nat)
    requires Run(ws, acts, size) && i < |acts| && WorldOk(ws[i], size) && n < |ws[i].clients| && Kept(ws[i].store, snap)
    requires Paged(ws, i, n, snap, at, limit) && Favourable(ws, acts, n, snap.expiresAt)
    ensures |ws[i + 1].clients| == |ws[i].clients| && Kept(ws[i + 1].store, snap)
    ensures Paged(ws, i + 1, n, snap, if acts[i].Serve? && acts[i].client == n then at + limit else at, limit)
  {
    hide Inv, ClientOk, Served, StoreStep, Kept, SnapshotPage, CoverageOf, Remembers, WorldOk, Step, Bootstrapping,
      Bootstrapped, FavoursFollower;
    var w, a, w' := ws[i], acts[i], ws[i + 1];
    assert Before(a, snap.expiresAt) && Favours(w, a, n);
    SnapshotsLastTheirTime(w, a, w', size, snap);
    OthersLeaveMeAlone(w, a, w', size, n);
    if at < |snap.records| {
      PageFurther(w, a, w', size, n, snap, at);
    }
  }

  /**
    Bootstraps finish. Whatever else happens, a reader that has asked often enough within the snapshot's
    time has at some point had the whole snapshot and a cursor that goes on at its watermark; until then each
    request has taken it a full page further.
   */
  lemma {:induction false} BootstrapsFinish(ws: seq<World>, acts: seq<Action>, size: Record -> nat, n: nat, snap: Snapshot,
                                            offset: nat, i: nat)
    requires Run(ws, acts, size) && WorldOk(ws[0], size) && n < |ws[0].clients| && i <= |acts|
    requires Bootstrapping(ws[0].clients[n], snap, offset) && offset < |snap.records| && Kept(ws[0].store, snap)
    requires Favourable(ws, acts, n, snap.expiresAt) && ws[0].clients[n].limit >= 1
    ensures Kept(ws[i].store, snap) && |ws[i].clients| == |ws[0].clients|
    ensures var limit := ws[0].clients[n].limit;
      Paged(ws, i, n, snap, offset + Asked(acts[..i], n) * limit, limit)
  {
    hide Inv, ClientOk, Served, StoreStep, Kept, SnapshotPage, CoverageOf, Remembers, WorldOk, Step, Bootstrapping,
      Bootstrapped, Favourable, FavoursFollower;
    if i == 0 {
      assert acts[..0] == [];
    } else {
      var before, limit := acts[..i - 1], ws[0].clients[n].limit;
      BootstrapsFinish(ws, acts, size, n, snap, offset, i - 1);
      ReplicationIsSafe(ws, acts, size, i - 1);
      var asked := Asked(before, n);
      assert 0 <= asked * limit && (asked + 1) * limit == asked * limit + limit;
      PagedFurther(ws, acts, size, n, snap, offset + asked * limit, limit, i - 1);
      assert acts[..i][..i - 1] == before;
    }
  }

  /** The first request of reader n, of the kind that is served. */
  ghost predicate Begins(w: World, a: Action, n: nat) {
    && Reaches(w, a) && a.client == n < |w.clients| && w.clients[n].cursor == NoCursor
    && a.fits && a.q.id.Some? && a.q.writeOk
  }

  /** The snapshot freezes what the store holds of its kind. */
  ghost predicate FrozenFrom(s: Store, snap: Snapshot) {
    && Freezes(snap.records, LaneOf(s.mem, snap.kind), snap.kind)
    && snap.watermark == s.mem.nextSequence.Of(snap.kind)
  }

  /** At some point of the run reader n has had all of the snapshot. */
  ghost predicate GetsThrough(ws: seq<World>, n: nat, snap: Snapshot) {
    exists j :: 0 <= j < |ws| && n < |ws[j].clients| && Bootstrapped(ws[j].clients[n], snap)
  }

  /**
    A whole bootstrap: a reader that starts without a cursor and asks as often as its snapshot has pages, within
    a day, ends up with the state that was current when it started and goes on from there.
   */
  lemma BootstrapFromNothing(w: World, a: Action, us: seq<World>, rest: seq<Action>, size: Record -> nat, n: nat)
    returns (snap: Snapshot)
    requires Run([w] + us, [a] + rest, size) && WorldOk(w, size) && Begins(w, a, n)
    requires |us| == |rest| + 1 && Favourable(us, rest, n, a.q.now + 24 * 3600)
    ensures snap.kind == w.clients[n].kind && FrozenFrom(us[0].store, snap)
    ensures (1 + Asked(rest, n)) * w.clients[n].limit >= |snap.records| ==> GetsThrough(us, n, snap)
  {
    hide Inv, ClientOk, Served, StoreStep, Kept, SnapshotPage, CoverageOf, Remembers, WorldOk, Step, Bootstrapping,
      Bootstrapped, Favourable, Paged, FavoursFollower;
    FirstOfRun(w, a, us, rest, size);
    snap := FirstStep(w, a, us[0], size, n);
    AfterFirst(us, rest, size, n, snap);
    var limit := w.clients[n].limit;
    assert (1 + Asked(rest, n)) * limit == limit + Asked(rest, n) * limit;
  }

  lemma FirstOfRun(w: World, a: Action, us: seq<World>, rest: seq<Action>, size: Record -> nat)
    requires Run([w] + us, [a] + rest, size)
    ensures |us| == |rest| + 1 && Step(w, a, us[0], size) && Run(us, rest, size)
  {
    hide Step;
    var ws, acts := [w] + us, [a] + rest;
    assert Step(ws[0], acts[0], ws[1], size);
    Subrun(ws, acts, size, 1);
    assert ws[1..] == us && acts[1..] == rest;
  }

  lemma FirstStep(w: World, a: Action, w': World, size: Record -> nat, n: nat) returns (snap: Snapshot)
    requires WorldOk(w, size) && Step(w, a, w', size) && Begins(w, a, n)
    ensures WorldOk(w', size) && Kept(w'.store, snap) && a.q.now + 24 * 3600 == snap.expiresAt
    ensures n < |w'.clients| && snap.kind == w.clients[n].kind && FrozenFrom(w'.store, snap)
    ensures w.clients[n].limit == w'.clients[n].limit >= 1
    ensures MovedTo(w'.clients[n], snap, Min(w.clients[n].limit, |snap.records|))
  {
    hide Inv, ClientOk, Served, StoreStep, Kept, SnapshotPage, CoverageOf, Remembers, WorldOk, Step, Bootstrapping,
      Bootstrapped, Favourable, Paged, FavoursFollower;
    OthersLeaveMeAlone(w, a, w', size, n);
    snap := FirstRequestIsAnswered(w, a, w', size);
    StepKeeps(w, a, w', size);
  }

  lemma AfterFirst(us: seq<World>, rest: seq<Action>, size: Record -> nat, n: nat, snap: Snapshot)
    requires Run(us, rest, size) && WorldOk(us[0], size) && n < |us[0].clients| && us[0].clients[n].limit >= 1
    requires Kept(us[0].store, snap) && Favourable(us, rest, n, snap.expiresAt)
    requires MovedTo(us[0].clients[n], snap, Min(us[0].clients[n].limit, |snap.records|))
    ensures var limit := us[0].clients[n].limit;
      limit + Asked(rest, n) * limit >= |snap.records| ==> GetsThrough(us, n, snap)
  {
    hide Inv, ClientOk, Served, StoreStep, Kept, SnapshotPage, CoverageOf, Remembers, WorldOk, Step, Bootstrapping,
      Bootstrapped, Favourable, FavoursFollower;
    var limit := us[0].clients[n].limit;
    if limit < |snap.records| {
      BootstrapsFinish(us, rest, size, n, snap, limit, |rest|);
      assert rest[..|rest|] == rest;
    }
  }

  // ------------------------------------------------------------ following the journal

  /** The reader follows the journal from this watermark. */
  ghost predicate Following(c: Client, watermark: nat) {
    c.cursor.Signed? && c.cursor.cursor.mode == Incremental && c.cursor.cursor.watermark == watermark
  }

  /** The answer to a request that shows a watermark, told by the history alone. */
  ghost predicate TailAnswered(c: Client, resp: Response, c': Client, h: seq<Record>, journal: nat, from: nat, now: int) {
    var to := Min(from + c.limit, |h|);
    if journal == 0 then
      resp.Page? && resp.mode == Incremental && resp.records == [] && !resp.hasMore && c' == c
    else if from < |h| - journal then
      resp == Refused(ResetRequired) && c' == c.(received := [], cursor := NoCursor)
    else
      && from <= to
      && resp.Page? && resp.mode == Incremental && resp.records == h[from..to] && (resp.hasMore <==> to < |h|)
      && c' == c.(cursor := c'.cursor, received := c.received + h[from..to]) && Following(c', to)
      && (if from == to then c'.cursor == c.cursor else RenewedAt(c, c', now))
  }

  /**
    What a reader gets that shows its own unexpired incremental cursor while saving works: the next records of
    the history, as many as it asked for or as there are; RESET exactly when one of them is no longer in the
    journal; nothing when the journal is empty.
   */
  lemma IncrementalRequestIsAnswered(w: World, a: Action, w': World, size: Record -> nat, from: nat)
    requires WorldOk(w, size) && Step(w, a, w', size) && Reaches(w, a) && a.q.writeOk
    requires Current(w.clients[a.client], a.source, a.q.now) && Following(w.clients[a.client], from)
    ensures var c := w.clients[a.client];
      TailAnswered(c, a.resp, w'.clients[a.client], w'.store.hist.Of(c.kind), |w'.store.mem.journal.Of(c.kind)|, from, a.q.now)
  {
    hide Inv, ClientOk, Served, StoreStep, Kept, SnapshotPage, CoverageOf, Remembers, Bootstrapping, Bootstrapped,
      Favourable, Paged, FavoursFollower;
    ServedTail(w.store, w'.store, w.clients[a.client], a.q, a.source, a.alive, a.rows, a.fits, size, a.resp, from,
               TrimmedAway(w'.store.mem, w.clients[a.client].kind));
  }

  lemma ServedTail(s: Store, s': Store, c: Client, q: Request, source: string, alive: bool, rows: seq<Record>,
                   fits: bool, size: Record -> nat, resp: Response, from: nat, trimmed: int)
    requires Inv(s, size) && q.limit >= 1 && Served(s, s', q, source, alive, rows, fits, size, resp)
    requires ClientOk(c, s.fileHist, s.ledger) && !s.writeFailed && q.writeOk
    requires q.kind == c.kind && q.reader == c.reader && q.limit == c.limit && q.raw == c.cursor
    requires Current(c, source, q.now) && Following(c, from)
    ensures TailAnswered(c, resp, Receive(c, resp, trimmed), s'.hist.Of(c.kind), |s'.mem.journal.Of(c.kind)|, from, q.now)
  {
    var k, l := c.kind, LaneOf(s'.mem, c.kind);
    OwnWatermark(s, c, from);
    hide Inv, ClientOk, Served, StoreStep, Kept, SnapshotPage, CoverageOf, Remembers, WorldOk, Step, Bootstrapping,
      Bootstrapped, Favourable, Paged, FavoursFollower;
    assert Binds(c.cursor.cursor, q.reader, source, q.kind, q.limit, q.now);
    var tail := ReadSucceeds(s, s', q, source, alive, rows, fits, size, resp);
    JournalReadKeeps(s, s', Some(tail), k, from, q.now, q.writeOk, size);
    DurableNow(s', size, k);
    RememberedFile(s, s');
    StillThere(s, s', k, from);
    TailMoves(c, l, s'.hist.Of(k), from, q.now, CoverageOf(s'.mem, k, q.now), trimmed);
    assert |l.journal| == |s'.mem.journal.Of(k)|;
  }

  lemma OwnWatermark(s: Store, c: Client, from: nat)
    requires ClientOk(c, s.fileHist, s.ledger) && Following(c, from)
    ensures from <= |s.fileHist.Of(c.kind)|
    ensures c.cursor.cursor.reader == c.reader && c.cursor.cursor.kind == c.kind && c.cursor.cursor.limit == c.limit
  {}

  lemma ReadSucceeds(s: Store, s': Store, q: Request, source: string, alive: bool, rows: seq<Record>, fits: bool,
                     size: Record -> nat, resp: Response) returns (tail: Tail)
    requires q.limit >= 1 && Served(s, s', q, source, alive, rows, fits, size, resp) && !s.writeFailed && q.writeOk
    requires q.raw.Signed? && Binds(q.raw.cursor, q.reader, source, q.kind, q.limit, q.now) && q.raw.cursor.mode == Incremental
    ensures JournalRead(s, s', Some(tail), q.kind, q.raw.cursor.watermark, q.now, q.writeOk, size)
    ensures resp == IncrementalPage(q.raw.cursor, tail, q.limit, q.now, CoverageOf(s'.mem, q.kind, q.now))
  {
    hide Binds, IncrementalPage, CoverageOf, Cleaned, Bytes, TailOf, Tidied, CleanedStore;
    var r :| && JournalRead(s, s', r, q.kind, q.raw.cursor.watermark, q.now, q.writeOk, size)
             && resp == (match r
                case None => Refused(TemporaryUnavailable)
                case Some(tail) => IncrementalPage(q.raw.cursor, tail, q.limit, q.now, CoverageOf(s'.mem, q.kind, q.now)));
    assert r.Some?;
    tail := r.value;
  }

  lemma TailMoves(c: Client, l: Lane, h: seq<Record>, from: nat, now: int, coverage: Coverage, trimmed: int)
    requires c.limit >= 1 && LaneOk(l, h, c.kind) && Following(c, from) && from <= |h|
    ensures var resp := IncrementalPage(c.cursor.cursor, TailOf(l, from), c.limit, now, coverage);
      TailAnswered(c, resp, Receive(c, resp, trimmed), h, |l.journal|, from, now)
  {
    TailFollows(l, h, c.kind, from);
    assert Numbered(h) && (l.journal == [] ==> TailOf(l, from).oldest == 0);
    hide Inv, ClientOk, Served, StoreStep, Kept, SnapshotPage, CoverageOf, Remembers, WorldOk, Step, Bootstrapping,
      Bootstrapped, Favourable, Paged, FavoursFollower;
    PageOfTail(c, TailOf(l, from), h, |l.journal|, from, now, coverage, trimmed);
  }

  lemma NumberOf(h: seq<Record>, n: nat)
    requires Numbered(h) && 0 < n <= |h|
    ensures h[n - 1].sequence == n
  {}

  lemma PageOfTail(c: Client, tail: Tail, h: seq<Record>, journal: nat, from: nat, now: int, coverage: Coverage, trimmed: int)
    requires c.limit >= 1 && Numbered(h) && Following(c, from) && from <= |h| && (journal == 0 ==> tail.oldest == 0)
    requires if tail.oldest > 0 && from + 1 < tail.oldest then journal != 0 && from < |h| - journal
             else if journal == 0 then tail.rows == []
             else |h| - journal <= from && tail.rows == h[from..]
    ensures var resp := IncrementalPage(c.cursor.cursor, tail, c.limit, now, coverage);
      TailAnswered(c, resp, Receive(c, resp, trimmed), h, journal, from, now)
  {
    hide Numbered;
    var to := Min(from + c.limit, |h|);
    if journal != 0 && |h| - journal <= from {
      assert tail.rows[..Min(|tail.rows|, c.limit)] == h[from..to];
      if to > from { NumberOf(h, to); }
    }
  }

  /** When reader n asks for more of the journal, it does so in time, the answer arrives, and no row it lacks is trimmed. */
  ghost predicate FavoursFollower(w: World, a: Action, w': World, n: nat) {
    a.Serve? && a.client == n && n < |w.clients| && w.clients[n].cursor.Signed? ==>
      && Reaches(w, a) && a.q.writeOk && Current(w.clients[n], a.source, a.q.now)
      && TrimmedAway(w'.store.mem, w.clients[n].kind) <= w.clients[n].cursor.cursor.watermark
  }

  lemma FollowFurther(w: World, a: Action, w': World, size: Record -> nat, n: nat, from: nat, target: nat) returns (to: nat)
    requires WorldOk(w, size) && Step(w, a, w', size) && FavoursFollower(w, a, w', n)
    requires n < |w.clients| && Following(w.clients[n], from) && target <= |w.store.fileHist.Of(w.clients[n].kind)|
    ensures WorldOk(w', size) && n < |w'.clients| && Following(w'.clients[n], to)
    ensures w'.clients[n].kind == w.clients[n].kind && w'.clients[n].limit == w.clients[n].limit
    ensures target <= |w'.store.fileHist.Of(w.clients[n].kind)|
    ensures to >= if a.Serve? && a.client == n then Min(from + w.clients[n].limit, target) else from
  {
    var k := w.clients[n].kind;
    hide Inv, ClientOk, Served, StoreStep, Kept, SnapshotPage, CoverageOf, Remembers, WorldOk, Step, Bootstrapping,
      Bootstrapped, Favourable, Paged, TailAnswered, Receive, ServeStep;
    OthersLeaveMeAlone(w, a, w', size, n);
    StepKeeps(w, a, w', size);
    RememberedFile(w.store, w'.store);
    StillThere(w.store, w'.store, k, target);
    to := from;
    if a.Serve? && a.client == n {
      AskedFor(w, a, w', n, from);
      hide FavoursFollower, Reaches, Current, TrimmedAway;
      IncrementalRequestIsAnswered(w, a, w', size, from);
      Lengths(w', size, k);
      to := Min(from + w.clients[n].limit, |w'.store.hist.Of(k)|);
      NoRowIsMissed(w.clients[n], a.resp, w'.clients[n], w'.store, from, a.q.now);
    }
  }

  lemma AskedFor(w: World, a: Action, w': World, n: nat, from: nat)
    requires FavoursFollower(w, a, w', n) && a.Serve? && a.client == n < |w.clients| && Following(w.clients[n], from)
    ensures Reaches(w, a) && a.q.writeOk && Current(w.clients[n], a.source, a.q.now)
    ensures TrimmedAway(w'.store.mem, w.clients[n].kind) <= from
  {
  }

  /** An answer that misses no trimmed row moves the reader on. */
  lemma NoRowIsMissed(c: Client, resp: Response, c': Client, s: Store, from: nat, now: int)
    requires Following(c, from) && s.mem.nextSequence.Of(c.kind) == |s.hist.Of(c.kind)| && TrimmedAway(s.mem, c.kind) <= from <= |s.hist.Of(c.kind)|
    requires TailAnswered(c, resp, c', s.hist.Of(c.kind), |s.mem.journal.Of(c.kind)|, from, now) && c.limit >= 1
    ensures Following(c', Min(from + c.limit, |s.hist.Of(c.kind)|)) && c'.kind == c.kind && c'.limit == c.limit
  {
  }

  lemma Lengths(w: World, size: Record -> nat, k: Kind)
    requires WorldOk(w, size)
    ensures |w.store.fileHist.Of(k)| <= |w.store.hist.Of(k)| == w.store.mem.nextSequence.Of(k)
  {
    assert LaneOk(LaneOf(w.store.mem, k), w.store.hist.Of(k), k);
    assert w.store.fileHist.Of(k) <= w.store.hist.Of(k);
  }

  /**
    Followers catch up: a reader that keeps asking, and is never so late that a row it lacks is trimmed, reaches
    whatever had been saved when it began, a full page with each request, and is never sent back.
   */
  lemma {:induction false} FollowersCatchUp(ws: seq<World>, acts: seq<Action>, size: Record -> nat, n: nat, from: nat, i: nat)
    returns (at: nat)
    requires Run(ws, acts, size) && WorldOk(ws[0], size) && n < |ws[0].clients| && i <= |acts|
    requires Following(ws[0].clients[n], from) && ws[0].clients[n].limit >= 1
    requires forall j :: 0 <= j < |acts| ==> FavoursFollower(ws[j], acts[j], ws[j + 1], n)
    ensures WorldOk(ws[i], size) && n < |ws[i].clients| && Following(ws[i].clients[n], at)
    ensures ws[i].clients[n].kind == ws[0].clients[n].kind && ws[i].clients[n].limit == ws[0].clients[n].limit
    ensures |ws[0].store.fileHist.Of(ws[0].clients[n].kind)| <= |ws[i].store.fileHist.Of(ws[0].clients[n].kind)|
    ensures at >= Min(from + Asked(acts[..i], n) * ws[0].clients[n].limit, |ws[0].store.fileHist.Of(ws[0].clients[n].kind)|)
  {
    hide Inv, ClientOk, Served, StoreStep, Kept, SnapshotPage, CoverageOf, Remembers, WorldOk, Step, Bootstrapping,
      Bootstrapped, Favourable, Paged, FavoursFollower;
    if i == 0 {
      assert acts[..0] == [];
      at := from;
    } else {
      var before, limit := acts[..i - 1], ws[0].clients[n].limit;
      var was := FollowersCatchUp(ws, acts, size, n, from, i - 1);
      var asked := Asked(before, n);
      assert 0 <= asked * limit && (asked + 1) * limit == asked * limit + limit;
      at := FollowFurther(ws[i - 1], acts[i - 1], ws[i], size, n, was, |ws[0].store.fileHist.Of(ws[0].clients[n].kind)|);
      assert acts[..i][..i - 1] == before;
    }
  }

  // ------------------------------------------------------------ whom a page is for

  /**
    Only a holder is answered: a page goes to the reader its cursor was issued to, for the same resource, source
    and page size, before the cursor expires; and a snapshot page shows that reader's own snapshot.
   */
  lemma OnlyTheHolderIsServed(s: Store, s': Store, q: Request, source: string, alive: bool, rows: seq<Record>, fits: bool,
                              size: Record -> nat, resp: Response)
    requires q.limit >= 1 && Served(s, s', q, source, alive, rows, fits, size, resp) && resp.Page?
    ensures !s.writeFailed && !q.raw.Forged?
    ensures q.raw.Signed? ==>
      var cur := q.raw.cursor;
      && cur.reader == q.reader && cur.source == source && cur.kind == q.kind && cur.limit == q.limit && q.now < cur.expiresAt
      && cur.mode == resp.mode
      && (cur.mode == Snapshotting ==>
           && cur.snapshotId in s.mem.snapshots
           && var snap := s.mem.snapshots[cur.snapshotId];
              snap.reader == q.reader && snap.kind == q.kind && q.now < snap.expiresAt)
    ensures |resp.records| <= q.limit
  {
    hide Cleaned, Bytes, CoverageOf, Freezes, TailOf;
  }

  /** Which refusal a request gets, and when. */
  lemma RefusalsMean(s: Store, s': Store, q: Request, source: string, alive: bool, rows: seq<Record>, fits: bool,
                     size: Record -> nat, resp: Response)
    requires q.limit >= 1 && Served(s, s', q, source, alive, rows, fits, size, resp)
    ensures q.raw.Forged? ==> resp == Refused(InvalidCursor)
    ensures q.raw.NoCursor? && resp.Refused? ==> resp.code == TemporaryUnavailable
    ensures q.raw.Signed? ==>
      var cur := q.raw.cursor;
      var own := cur.reader == q.reader && cur.source == source && cur.kind == q.kind && cur.limit == q.limit && q.now < cur.expiresAt;
      && (!own ==> resp == Refused(ResetRequired))
      && (own && cur.mode == UnknownMode ==> resp == Refused(InvalidCursor))
      && (own && cur.mode != UnknownMode && s.writeFailed ==> resp == Refused(TemporaryUnavailable))
      && (own && cur.mode == Snapshotting && !s.writeFailed
          && (cur.snapshotId !in s.mem.snapshots || s.mem.snapshots[cur.snapshotId].expiresAt <= q.now)
          ==> resp == Refused(ResetRequired))
  {
    hide Cleaned, Bytes, CoverageOf, Freezes, TailOf, IncrementalPage, Tidied, CleanedStore;
  }

  /** What a page says of completeness: a gap, exactly for detections while a mark is less than thirty days old. */
  lemma CoverageIsTold(s: Store, s': Store, q: Request, source: string, alive: bool, rows: seq<Record>, fits: bool,
                       size: Record -> nat, resp: Response)
    requires q.limit >= 1 && Served(s, s', q, source, alive, rows, fits, size, resp) && resp.Page?
    ensures resp.coverage == Gap <==> q.kind == Detection && s'.mem.gapAt.Some? && q.now - s'.mem.gapAt.value < 30 * DAY
  {
    hide Cleaned, Bytes, Freezes, TailOf, Tidied, CleanedStore;
  }
}
