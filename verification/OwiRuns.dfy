/**
  Whole runs of the replication protocol: any number of readers page while the store syncs, records
  detections, trims, fails to save, crashes and restarts, and while responses get lost.
 */
module OwiRuns {
  import opened Common
  import opened OwiModel
  import opened OwiStore
  import opened OwiPages

  /**
    A reader that follows cursors; received is what it has kept since its bootstrap began, and start how many
    records were no longer retained at that moment.
   */
  datatype Client = Client(reader: Reader, kind: Kind, limit: int, cursor: RawCursor, received: seq<Record>, start: int)

  /** What a response makes of a reader, when so many records are no longer retained. */
  function Receive(c: Client, resp: Response, trimmed: int): Client {
    match resp
    case Page(_, records, next, _, _) =>
      if c.cursor.NoCursor? then c.(received := records, cursor := next, start := trimmed)
      else c.(received := c.received + records, cursor := next)
    case Refused(TemporaryUnavailable) => c
    case Refused(_) => c.(received := [], cursor := NoCursor)
  }

  datatype World = World(store: Store, clients: seq<Client>)

  datatype Action =
    | Sync(desired: map<Kind, seq<Record>>, now: int, writeOk: bool, synced: Store)
    | Detect(candidate: Record, now: int, writeOk: bool, fits: bool)
    | MarkDrop(now: int, writeOk: bool)
    | Close(writeOk: bool)
    | CrashAndRestart(now: int)
    | Serve(client: nat, q: Request, source: string, alive: bool, rows: seq<Record>, fits: bool, resp: Response, delivered: bool)

  ghost predicate StoreStep(s: Store, a: Action, s': Store, size: Record -> nat)
    requires !a.Serve?
  {
    match a
    case Sync(desired, now, writeOk, synced) => BatchSynced(s, synced, s', desired, now, writeOk, size)
    case Detect(candidate, now, writeOk, fits) =>
      var cleaned := CleanedStore(s, now, size);
      s' == if fits then Persisted(Appended(cleaned, candidate, size), writeOk) else cleaned
    case MarkDrop(now, writeOk) => s' == Persisted(DropMarked(s, now), writeOk)
    case Close(writeOk) => s' == Persisted(Closed(s), writeOk)
    case CrashAndRestart(now) => s' == Persisted(Booted(s.file, s.fileHist, s.ledger, now, size), true)
  }

  ghost predicate ServeStep(w: World, a: Action, w': World, size: Record -> nat)
    requires a.Serve?
  {
    && a.client < |w.clients|
    && var c := w.clients[a.client];
    && c.limit >= 1
    && a.q.kind == c.kind && a.q.reader == c.reader && a.q.limit == c.limit && a.q.raw == c.cursor
    && Served(w.store, w'.store, a.q, a.source, a.alive, a.rows, a.fits, size, a.resp)
    && w'.clients == (if a.delivered then w.clients[a.client := Receive(c, a.resp, TrimmedAway(w'.store.mem, c.kind))] else w.clients)
  }

  ghost predicate Step(w: World, a: Action, w': World, size: Record -> nat) {
    if a.Serve? then ServeStep(w, a, w', size)
    else StoreStep(w.store, a, w'.store, size) && w'.clients == w.clients
  }

  // ------------------------------------------------------------ what a reader holds

  /** The reader holds exactly the source state as of watermark w; for detections, every row after the start. */
  ghost predicate HoldsStateAt(received: seq<Record>, k: Kind, h: seq<Record>, w: nat, start: int) {
    && w <= |h|
    && if k == Detection then 0 <= start <= w && received == h[start..w] else Fold(received) == Fold(h[..w])
  }

  ghost predicate ClientOk(c: Client, fileHist: History, ledger: map<string, Snapshot>) {
    match c.cursor
    case NoCursor => true
    case Forged => false
    case Signed(cur) =>
      && cur.kind == c.kind && cur.reader == c.reader && cur.limit == c.limit
      && match cur.mode
         case UnknownMode => false
         case Incremental => HoldsStateAt(c.received, c.kind, fileHist.Of(c.kind), cur.watermark, c.start)
         case Snapshotting =>
           && cur.snapshotId in ledger
           && var snap := ledger[cur.snapshotId];
              && snap.kind == c.kind && snap.reader == c.reader
              && 0 <= cur.offset <= |snap.records| && c.received == snap.records[..cur.offset] && StartsAt(snap, c.start)
  }

  /** A detection snapshot holds the records behind its start, up to its watermark. */
  predicate StartsAt(snap: Snapshot, start: int) { snap.kind == Detection ==> 0 <= start && |snap.records| == snap.watermark - start }

  ghost predicate WorldOk(w: World, size: Record -> nat) {
    && Inv(w.store, size)
    && forall i :: 0 <= i < |w.clients| ==> ClientOk(w.clients[i], w.store.fileHist, w.store.ledger)
  }

  /** The past of w is part of the past of w': nothing in the file is unsaid and no snapshot changes. */
  ghost predicate Remembers(s: Store, s': Store) {
    && Extends(s.fileHist, s'.fileHist)
    && forall id :: id in s.ledger ==> id in s'.ledger && s'.ledger[id] == s.ledger[id]
  }

  lemma HoldsExtends(received: seq<Record>, k: Kind, h: seq<Record>, h': seq<Record>, w: nat, start: int)
    requires HoldsStateAt(received, k, h, w, start) && h <= h'
    ensures HoldsStateAt(received, k, h', w, start)
  {
    assert h'[..w] == h[..w];
    assert 0 <= start <= w ==> h'[start..w] == h[start..w];
  }

  lemma ClientKept(c: Client, s: Store, s': Store)
    requires ClientOk(c, s.fileHist, s.ledger) && Remembers(s, s')
    ensures ClientOk(c, s'.fileHist, s'.ledger)
  {
    if c.cursor.Signed? && c.cursor.cursor.mode == Incremental {
      HoldsExtends(c.received, c.kind, s.fileHist.Of(c.kind), s'.fileHist.Of(c.kind), c.cursor.cursor.watermark, c.start);
    }
  }

  // ------------------------------------------------------------ steps of the store

  lemma PersistedStep(s: Store, mid: Store, writeOk: bool, size: Record -> nat)
    requires Core(mid, size) && mid.fileHist == s.fileHist
    requires forall id :: id in s.ledger ==> id in mid.ledger && mid.ledger[id] == s.ledger[id]
    ensures Inv(Persisted(mid, writeOk), size) && Remembers(s, Persisted(mid, writeOk))
  {
    PersistedInv(mid, writeOk, size);
  }

  lemma SyncKeeps(s: Store, synced: Store, s': Store, desired: map<Kind, seq<Record>>, now: int, writeOk: bool, size: Record -> nat)
    requires Inv(s, size) && BatchSynced(s, synced, s', desired, now, writeOk, size)
    ensures Inv(s', size) && Remembers(s, s')
  {
    SyncedCore(s, synced, desired, now, size);
    CleanedCore(synced, now, size);
    PersistedStep(s, CleanedStore(synced, now, size), writeOk, size);
  }

  lemma DetectKeeps(s: Store, s': Store, candidate: Record, now: int, writeOk: bool, fits: bool, size: Record -> nat)
    requires Inv(s, size)
    requires s' == if fits then Persisted(Appended(CleanedStore(s, now, size), candidate, size), writeOk)
                   else CleanedStore(s, now, size)
    ensures Inv(s', size) && Remembers(s, s')
  {
    CleanedCore(s, now, size);
    AppendedCore(CleanedStore(s, now, size), candidate, size);
    hide Core, Cleaned;
    PersistedStep(s, Appended(CleanedStore(s, now, size), candidate, size), writeOk, size);
  }

  /** Changing only the gap mark, the drop count or the shutdown flag. */
  lemma MetaKeeps(s: Store, m: State, writeOk: bool, size: Record -> nat)
    requires Inv(s, size)
    requires m == s.mem.(gapAt := m.gapAt, drops := m.drops, cleanShutdown := m.cleanShutdown)
    ensures Inv(Persisted(s.(mem := m), writeOk), size) && Remembers(s, Persisted(s.(mem := m), writeOk))
  {
    MetaCore(s, m, size);
    hide Core;
    PersistedStep(s, s.(mem := m), writeOk, size);
  }

  lemma StoreStepKeeps(s: Store, a: Action, s': Store, size: Record -> nat)
    requires Inv(s, size) && !a.Serve? && StoreStep(s, a, s', size)
    ensures Inv(s', size) && Remembers(s, s')
  {
    match a {
      case Sync(desired, now, writeOk, synced) => SyncKeeps(s, synced, s', desired, now, writeOk, size);
      case Detect(candidate, now, writeOk, fits) => DetectKeeps(s, s', candidate, now, writeOk, fits, size);
      case MarkDrop(now, writeOk) => MetaKeeps(s, DropMarked(s, now).mem, writeOk, size);
      case Close(writeOk) => MetaKeeps(s, Closed(s).mem, writeOk, size);
      case CrashAndRestart(now) =>
        BootedCore(s, now, size);
        PersistedStep(s, Booted(s.file, s.fileHist, s.ledger, now, size), true, size);
    }
  }

  lemma SnapshotTakenKeeps(s: Store, s': Store, r: Option<Snapshot>, rows: seq<Record>, k: Kind, reader: Reader,
                           id: Option<string>, now: int, writeOk: bool, size: Record -> nat, fits: bool)
    requires Inv(s, size) && SnapshotTaken(s, s', r, rows, k, reader, id, now, writeOk, size, fits)
    ensures Inv(s', size) && Remembers(s, s')
    ensures r.Some? ==> !s'.writeFailed && r.value.id in s'.ledger && s'.ledger[r.value.id] == r.value
    ensures r.Some? ==> r.value.kind == k && r.value.reader == reader && StartsAt(r.value, TrimmedAway(s'.mem, k))
  {
    CleanedCore(s, now, size);
    var cleaned := CleanedStore(s, now, size);
    assert LaneOk(LaneOf(cleaned.mem, k), cleaned.hist.Of(k), k);
    hide Core, Cleaned;
    if !s.writeFailed && fits && id.Some? {
      KeptAndSaved(s, CleanedStore(s, now, size), Frozen(CleanedStore(s, now, size), k, reader, id.value, rows, now),
                   writeOk, size);
    }
  }

  lemma KeptAndSaved(s: Store, cleaned: Store, snap: Snapshot, writeOk: bool, size: Record -> nat)
    requires Core(cleaned, size) && Durable(cleaned) && cleaned.fileHist == s.fileHist && cleaned.ledger == s.ledger
    requires snap.id !in s.ledger && Freezes(snap.records, LaneOf(cleaned.mem, snap.kind), snap.kind)
    requires snap.watermark == cleaned.mem.nextSequence.Of(snap.kind)
    ensures var s' := Persisted(WithSnapshot(cleaned, snap), writeOk);
            Inv(s', size) && Remembers(s, s') && snap.id in s'.ledger && s'.ledger[snap.id] == snap
  {
    WithSnapshotCore(cleaned, snap, size);
    hide Core, Freezes;
    PersistedStep(s, WithSnapshot(cleaned, snap), writeOk, size);
  }

  lemma LookedUpKeeps(s: Store, s': Store, r: Lookup, id: string, now: int, writeOk: bool, size: Record -> nat)
    requires Inv(s, size) && SnapshotLookedUp(s, s', r, id, now, writeOk)
    ensures Inv(s', size) && Remembers(s, s')
    ensures r.Found? ==> id in s'.ledger && s'.ledger[id] == r.snap
  {
    MetaCore(s, Forgotten(s, id).mem, size);
    PersistedStep(s, Forgotten(s, id), writeOk, size);
  }

  lemma JournalReadKeeps(s: Store, s': Store, r: Option<Tail>, k: Kind, watermark: nat, now: int, writeOk: bool,
                         size: Record -> nat)
    requires Inv(s, size) && JournalRead(s, s', r, k, watermark, now, writeOk, size)
    ensures Inv(s', size) && Remembers(s, s')
    ensures r.Some? ==> !s'.writeFailed && r.value == TailOf(LaneOf(s'.mem, k), watermark)
  {
    CleanedCore(s, now, size);
    hide Core, Cleaned, TailOf;
    PersistedStep(s, CleanedStore(s, now, size), writeOk, size);
  }

  lemma ServedKeeps(s: Store, s': Store, q: Request, source: string, alive: bool, rows: seq<Record>, fits: bool,
                    size: Record -> nat, resp: Response)
    requires Inv(s, size) && q.limit >= 1 && Served(s, s', q, source, alive, rows, fits, size, resp)
    ensures Inv(s', size) && Remembers(s, s')
  {
    hide Inv, Remembers, SnapshotTaken, SnapshotLookedUp, JournalRead, SnapshotPage, IncrementalPage;
    if s' == s {
      RemembersSelf(s);
    } else if q.raw.NoCursor? {
      var r :| SnapshotTaken(s, s', r, rows, q.kind, q.reader, q.id, q.now, q.writeOk, size, fits);
      SnapshotTakenKeeps(s, s', r, rows, q.kind, q.reader, q.id, q.now, q.writeOk, size, fits);
    } else if q.raw.cursor.mode == Snapshotting {
      var r :| SnapshotLookedUp(s, s', r, q.raw.cursor.snapshotId, q.now, q.writeOk);
      LookedUpKeeps(s, s', r, q.raw.cursor.snapshotId, q.now, q.writeOk, size);
    } else {
      var r :| JournalRead(s, s', r, q.kind, q.raw.cursor.watermark, q.now, q.writeOk, size);
      JournalReadKeeps(s, s', r, q.kind, q.raw.cursor.watermark, q.now, q.writeOk, size);
    }
  }

  lemma RemembersSelf(s: Store)
    ensures Remembers(s, s)
  {}

  // ------------------------------------------------------------ steps of a reader

  /** Rows after a watermark are the history after it, unless some of it was trimmed. */
  lemma {:induction false} AfterSuffix(rows: seq<Record>, h: seq<Record>, w: nat)
    requires Numbered(h) && IsSuffix(rows, h) && w <= |h|
    ensures After(rows, w) == if |h| - |rows| <= w then h[w..] else rows
    decreases |rows|
  {
    if rows != [] {
      var first := |h| - |rows|;
      assert rows[0] == h[first] && rows[0].sequence == first + 1;
      assert rows[1..] == h[first + 1..];
      AfterSuffix(rows[1..], h, w);
      if first == w {
        assert h[w..] == [rows[0]] + rows[1..];
      } else if first > w {
        assert rows == [rows[0]] + rows[1..];
      }
    }
  }

  lemma HoldsMore(received: seq<Record>, more: seq<Record>, k: Kind, h: seq<Record>, w: nat, w': nat, start: int)
    requires HoldsStateAt(received, k, h, w, start)
    requires w <= w' <= |h| && more == h[w..w']
    ensures HoldsStateAt(received + more, k, h, w', start)
  {
    assert h[..w'] == h[..w] + more;
    if k == Detection {
      assert received + more == h[start..w'];
    } else {
      ReplayConcat(map[], received, more);
      ReplayConcat(map[], h[..w], more);
    }
  }

  /** All of a snapshot is the source state at its watermark. */
  lemma WholeSnapshot(snap: Snapshot, h: seq<Record>, start: int)
    requires SnapshotOk(snap, h) && StartsAt(snap, start)
    ensures HoldsStateAt(snap.records, snap.kind, h, snap.watermark, start)
  {
    if snap.kind == Detection {
      assert h[..snap.watermark][start..] == h[start..snap.watermark];
    }
  }

  /** A page either continues the reader's state without gap or repeat, or makes it start over. */
  lemma SnapshotPageKeeps(c: Client, snap: Snapshot, cur: Cursor, now: int, coverage: Option<Coverage>,
                          fileHist: History, ledger: map<string, Snapshot>, trimmed: int)
    requires c.limit >= 1 && LedgerOk(ledger, fileHist)
    requires snap.id in ledger && ledger[snap.id] == snap && snap.kind == c.kind && snap.reader == c.reader
    requires cur.kind == c.kind && cur.reader == c.reader && cur.limit == c.limit && cur.mode == Snapshotting && cur.snapshotId == snap.id
    requires (c.cursor == NoCursor && cur.offset == 0 && StartsAt(snap, trimmed)) || (c.cursor == Signed(cur) && ClientOk(c, fileHist, ledger))
    ensures ClientOk(Receive(c, SnapshotPage(snap, cur, c.limit, now, coverage), trimmed), fileHist, ledger)
  {
    var resp := SnapshotPage(snap, cur, c.limit, now, coverage);
    if resp.Page? {
      var end := Min(cur.offset + c.limit, |snap.records|);
      assert Receive(c, resp, trimmed).received == snap.records[..end];
      if !resp.hasMore {
        assert snap.records[..end] == snap.records;
        WholeSnapshot(snap, fileHist.Of(snap.kind), Receive(c, resp, trimmed).start);
      }
    }
  }

  /** The tail either is the history after the watermark, or shows that some of it was trimmed. */
  lemma TailFollows(l: Lane, h: seq<Record>, k: Kind, w: nat)
    requires LaneOk(l, h, k) && w <= |h|
    ensures var tail := TailOf(l, w);
      && tail.current == |h|
      && (if tail.oldest > 0 && w + 1 < tail.oldest then l.journal != [] && w < |h| - |l.journal|
          else if l.journal == [] then tail.rows == []
          else |h| - |l.journal| <= w && tail.rows == h[w..])
  {
    hide Fold;
    AfterSuffix(l.journal, h, w);
    if l.journal != [] {
      assert l.journal[0] == h[|h| - |l.journal|];
    }
  }

  /** An incremental page carries the next records of the history, and its cursor stands right after them. */
  lemma PageFollows(cur: Cursor, l: Lane, h: seq<Record>, k: Kind, limit: int, now: int, coverage: Coverage)
    requires limit >= 1 && LaneOk(l, h, k) && cur.watermark <= |h|
    ensures var resp := IncrementalPage(cur, TailOf(l, cur.watermark), limit, now, coverage);
      resp.Page? ==>
        var w' := cur.watermark + |resp.records|;
        && w' <= |h| && resp.records == h[cur.watermark..w']
        && resp.next.Signed? && resp.next.cursor.watermark == w'
        && resp.next.cursor.mode == cur.mode && resp.next.cursor.kind == cur.kind
        && resp.next.cursor.reader == cur.reader && resp.next.cursor.limit == cur.limit
  {
    TailFollows(l, h, k, cur.watermark);
    assert Numbered(h);
    hide LaneOk, TailOf;
  }

  lemma IncrementalPageKeeps(c: Client, cur: Cursor, l: Lane, now: int, coverage: Coverage,
                             fileHist: History, ledger: map<string, Snapshot>, trimmed: int)
    requires c.limit >= 1 && LaneOk(l, fileHist.Of(c.kind), c.kind)
    requires cur.mode == Incremental && c.cursor == Signed(cur) && ClientOk(c, fileHist, ledger)
    ensures ClientOk(Receive(c, IncrementalPage(cur, TailOf(l, cur.watermark), c.limit, now, coverage), trimmed), fileHist, ledger)
  {
    var h, w := fileHist.Of(c.kind), cur.watermark;
    var resp := IncrementalPage(cur, TailOf(l, w), c.limit, now, coverage);
    assert HoldsStateAt(c.received, c.kind, h, w, c.start);
    PageFollows(cur, l, h, c.kind, c.limit, now, coverage);
    hide LaneOk, HoldsStateAt, IncrementalPage;
    if resp.Page? {
      HoldsMore(c.received, resp.records, c.kind, h, w, w + |resp.records|, c.start);
    }
  }

  /** What the asking reader holds after a served page is still exactly the source state at its cursor. */
  lemma ServedClientOk(s: Store, s': Store, c: Client, q: Request, source: string, alive: bool, rows: seq<Record>,
                       fits: bool, size: Record -> nat, resp: Response)
    requires Inv(s, size) && q.limit >= 1 && Served(s, s', q, source, alive, rows, fits, size, resp)
    requires ClientOk(c, s.fileHist, s.ledger)
    requires q.kind == c.kind && q.reader == c.reader && q.limit == c.limit && q.raw == c.cursor
    ensures ClientOk(Receive(c, resp, TrimmedAway(s'.mem, c.kind)), s'.fileHist, s'.ledger)
  {
    ServedKeeps(s, s', q, source, alive, rows, fits, size, resp);
    ClientKept(c, s, s');
    if resp.Page? {
      match q.raw {
        case Forged =>
        case NoCursor =>
          FirstPageOk(s, s', c, q, source, alive, rows, fits, size, resp);
        case Signed(cur) =>
          if cur.mode == Snapshotting {
            var r :| SnapshotLookedUp(s, s', r, cur.snapshotId, q.now, q.writeOk) && r.Found?;
            LookedUpKeeps(s, s', r, cur.snapshotId, q.now, q.writeOk, size);
            assert s'.ledger[cur.snapshotId].id == cur.snapshotId;
            SnapshotPageKeeps(c, r.snap, cur, q.now, CoverageIf(alive, s'.mem, q.kind, q.now), s'.fileHist, s'.ledger,
                              TrimmedAway(s'.mem, c.kind));
          } else {
            NextPageOk(s, s', c, q, cur, size, resp);
          }
      }
    }
  }

  lemma FirstPageOk(s: Store, s': Store, c: Client, q: Request, source: string, alive: bool, rows: seq<Record>,
                    fits: bool, size: Record -> nat, resp: Response)
    requires Inv(s, size) && q.limit >= 1 && Served(s, s', q, source, alive, rows, fits, size, resp)
    requires q.raw == NoCursor == c.cursor && q.kind == c.kind && q.reader == c.reader && q.limit == c.limit && resp.Page?
    ensures ClientOk(Receive(c, resp, TrimmedAway(s'.mem, c.kind)), s'.fileHist, s'.ledger)
  {
    var r :| && SnapshotTaken(s, s', r, rows, q.kind, q.reader, q.id, q.now, q.writeOk, size, fits)
             && r.Some?
             && resp == SnapshotPage(r.value, FirstCursor(r.value, source, q.limit, q.now), q.limit, q.now,
                                     CoverageIf(alive, s'.mem, q.kind, q.now));
    SnapshotTakenKeeps(s, s', r, rows, q.kind, q.reader, q.id, q.now, q.writeOk, size, fits);
    SnapshotPageKeeps(c, r.value, FirstCursor(r.value, source, q.limit, q.now), q.now,
                      CoverageIf(alive, s'.mem, q.kind, q.now), s'.fileHist, s'.ledger, TrimmedAway(s'.mem, c.kind));
  }

  lemma NextPageOk(s: Store, s': Store, c: Client, q: Request, cur: Cursor, size: Record -> nat, resp: Response)
    requires Inv(s, size) && q.limit >= 1 && q.kind == c.kind && q.limit == c.limit
    requires cur.mode == Incremental && c.cursor == Signed(cur) && ClientOk(c, s'.fileHist, s'.ledger)
    requires exists r ::
      && JournalRead(s, s', r, q.kind, cur.watermark, q.now, q.writeOk, size)
      && r.Some? && resp == IncrementalPage(cur, r.value, q.limit, q.now, CoverageOf(s'.mem, q.kind, q.now))
    ensures ClientOk(Receive(c, resp, TrimmedAway(s'.mem, c.kind)), s'.fileHist, s'.ledger)
  {
    var r :| && JournalRead(s, s', r, q.kind, cur.watermark, q.now, q.writeOk, size)
             && r.Some? && resp == IncrementalPage(cur, r.value, q.limit, q.now, CoverageOf(s'.mem, q.kind, q.now));
    JournalReadKeeps(s, s', r, q.kind, cur.watermark, q.now, q.writeOk, size);
    DurableWhenServing(s', size);
    assert LaneOk(LaneOf(s'.mem, c.kind), s'.hist.Of(c.kind), c.kind);
    IncrementalPageKeeps(c, cur, LaneOf(s'.mem, c.kind), q.now, CoverageOf(s'.mem, q.kind, q.now), s'.fileHist, s'.ledger,
                         TrimmedAway(s'.mem, c.kind));
  }

  // ------------------------------------------------------------ runs

  lemma StepKeeps(w: World, a: Action, w': World, size: Record -> nat)
    requires WorldOk(w, size) && Step(w, a, w', size)
    ensures WorldOk(w', size) && Remembers(w.store, w'.store)
  {
    hide Inv, ClientOk, Remembers, Served, StoreStep;
    if a.Serve? {
      ServedKeeps(w.store, w'.store, a.q, a.source, a.alive, a.rows, a.fits, size, a.resp);
    } else {
      StoreStepKeeps(w.store, a, w'.store, size);
    }
    forall i | 0 <= i < |w'.clients| ensures ClientOk(w'.clients[i], w'.store.fileHist, w'.store.ledger) {
      ClientKept(w.clients[i], w.store, w'.store);
      if a.Serve? && a.delivered && i == a.client {
        ServedClientOk(w.store, w'.store, w.clients[i], a.q, a.source, a.alive, a.rows, a.fits, size, a.resp);
      }
    }
  }

  ghost predicate Run(ws: seq<World>, acts: seq<Action>, size: Record -> nat) {
    && |ws| == |acts| + 1
    && forall i :: 0 <= i < |acts| ==> Step(ws[i], acts[i], ws[i + 1], size)
  }

  lemma RemembersTrans(a: Store, b: Store, c: Store)
    requires Remembers(a, b) && Remembers(b, c)
    ensures Remembers(a, c)
  {
    forall k: Kind ensures a.fileHist.Of(k) <= c.fileHist.Of(k) {
      assert a.fileHist.Of(k) <= b.fileHist.Of(k) <= c.fileHist.Of(k);
    }
  }

  /**
    Replication safety. In every state of every run the invariant holds, and every reader holds
    exactly the source state as of its cursor's watermark; and what the state file has numbered
    is never renumbered afterwards.
   */
  lemma {:induction false} ReplicationIsSafe(ws: seq<World>, acts: seq<Action>, size: Record -> nat, i: nat)
    requires Run(ws, acts, size) && WorldOk(ws[0], size) && i <= |acts|
    ensures WorldOk(ws[i], size)
    ensures Remembers(ws[0].store, ws[i].store)
  {
    if i == 0 {
      RemembersSelf(ws[0].store);
    } else {
      ReplicationIsSafe(ws, acts, size, i - 1);
      assert Step(ws[i - 1], acts[i - 1], ws[i], size);
      StepKeeps(ws[i - 1], acts[i - 1], ws[i], size);
      RemembersTrans(ws[0].store, ws[i - 1].store, ws[i].store);
    }
  }
}
