/**
  The dashboard connector's durable store as a value: the state in memory, the state file
  rewritten atomically, and ghost memory of the past. hist holds every record ever numbered,
  fileHist the part of it the file holds, ledger every snapshot ever created.
  Each operation is a step on this value; every step keeps the invariant.
 */
module OwiStore {
  import opened Common
  import opened OwiModel

  datatype Limits = Limits(
    snapshotMaxCount: nat, snapshotMaxRecords: nat, snapshotMaxBytes: nat,
    detectionMaxRows: nat, detectionMaxBytes: nat)

  datatype Store = Store(
    mem: State, file: Option<State>, writeFailed: bool, detectionBytes: int,
    hist: History, fileHist: History, ledger: map<string, Snapshot>)

  /** What a page says about the completeness of the detections. */
  datatype Coverage = Complete | Gap

  function CoverageOf(st: State, k: Kind, now: int): Coverage {
    if k == Detection && st.gapAt.Some? && now - st.gapAt.value < HISTORY_RETAIN then Gap else Complete
  }

  // ------------------------------------------------------------ invariant

  ghost predicate IsSuffix(rows: seq<Record>, h: seq<Record>) {
    |rows| <= |h| && rows == h[|h| - |rows|..]
  }

  /** A kind's counter, current map and journal. */
  datatype Lane = Lane(next: nat, current: map<string, Record>, journal: seq<Record>)

  function LaneOf(st: State, k: Kind): Lane {
    Lane(st.nextSequence.Of(k), st.current.Of(k), st.journal.Of(k))
  }

  /** How many records of a kind are no longer retained. */
  function TrimmedAway(st: State, k: Kind): int { st.nextSequence.Of(k) - |st.journal.Of(k)| }

  function WithLane(st: State, k: Kind, l: Lane): State {
    st.(nextSequence := st.nextSequence.With(k, l.next), current := st.current.With(k, l.current),
        journal := st.journal.With(k, l.journal))
  }

  /** One kind's counter, journal and current map all describe the history h. */
  ghost predicate LaneOk(l: Lane, h: seq<Record>, k: Kind) {
    && Numbered(h)
    && l.next == |h|
    && IsSuffix(l.journal, h)
    && l.current == (if k == Detection then map[] else Fold(h))
  }

  ghost predicate LanesOk(st: State, h: History) {
    forall k: Kind :: LaneOk(LaneOf(st, k), h.Of(k), k)
  }

  /** A snapshot reproduces the state at its watermark; for detections, the rows retained then. */
  ghost predicate SnapshotOk(snap: Snapshot, h: seq<Record>) {
    && snap.watermark <= |h|
    && if snap.kind == Detection then IsSuffix(snap.records, h[..snap.watermark])
       else Fold(snap.records) == Fold(h[..snap.watermark])
  }

  ghost predicate LedgerOk(ledger: map<string, Snapshot>, h: History) {
    forall id :: id in ledger ==> ledger[id].id == id && SnapshotOk(ledger[id], h.Of(ledger[id].kind))
  }

  ghost predicate Recorded(snapshots: map<string, Snapshot>, ledger: map<string, Snapshot>) {
    forall id :: id in snapshots ==> id in ledger && ledger[id] == snapshots[id]
  }

  ghost predicate FileOk(file: Option<State>, h: History, ledger: map<string, Snapshot>) {
    match file
    case None => h == NO_HISTORY
    case Some(f) => LanesOk(f, h) && Recorded(f.snapshots, ledger)
  }

  /** What holds at every point, also between a change and the rewrite of the file. */
  ghost predicate Core(s: Store, size: Record -> nat) {
    && LanesOk(s.mem, s.hist)
    && Recorded(s.mem.snapshots, s.ledger)
    && Extends(s.fileHist, s.hist)
    && FileOk(s.file, s.fileHist, s.ledger)
    && LedgerOk(s.ledger, s.fileHist)
    && s.detectionBytes == Bytes(size, s.mem.journal.detection)
  }

  /** Everything numbered so far is in the file. */
  ghost predicate Durable(s: Store) { s.file.Some? && s.fileHist == s.hist }

  /** The invariant between operations. */
  ghost predicate Inv(s: Store, size: Record -> nat) {
    Core(s, size) && (s.writeFailed || Durable(s))
  }

  /** Whenever a reader may be served, the file holds the very counters and current maps in memory. */
  lemma DurableWhenServing(s: Store, size: Record -> nat)
    requires Inv(s, size) && !s.writeFailed
    ensures s.file.Some? && s.fileHist == s.hist
    ensures s.file.value.nextSequence == s.mem.nextSequence
    ensures s.file.value.current == s.mem.current
  {
    var f := s.file.value;
    assert forall k: Kind :: LaneOk(LaneOf(s.mem, k), s.hist.Of(k), k) && LaneOk(LaneOf(f, k), s.hist.Of(k), k);
    assert LaneOf(f, Asset).next == LaneOf(s.mem, Asset).next;
    assert LaneOf(f, Policy).next == LaneOf(s.mem, Policy).next;
    assert LaneOf(f, Health).next == LaneOf(s.mem, Health).next;
    assert LaneOf(f, Detection).next == LaneOf(s.mem, Detection).next;
  }

  lemma SnapshotOkExtends(snap: Snapshot, h: seq<Record>, h': seq<Record>)
    requires SnapshotOk(snap, h) && h <= h'
    ensures SnapshotOk(snap, h')
  {
    assert h'[..snap.watermark] == h[..snap.watermark];
  }

  lemma LedgerOkExtends(ledger: map<string, Snapshot>, h: History, h': History)
    requires LedgerOk(ledger, h) && Extends(h, h')
    ensures LedgerOk(ledger, h')
  {
    forall id | id in ledger ensures SnapshotOk(ledger[id], h'.Of(ledger[id].kind)) {
      SnapshotOkExtends(ledger[id], h.Of(ledger[id].kind), h'.Of(ledger[id].kind));
    }
  }

  // ------------------------------------------------------------ steps

  /** Bring the state kinds to say what desired says, trim, and save if anything moved or the last save failed. */
  ghost predicate BatchSynced(s: Store, synced: Store, s': Store, desired: map<Kind, seq<Record>>, now: int,
                              writeOk: bool, size: Record -> nat) {
    && Synced(s, synced, desired, now)
    && var cleaned := CleanedStore(synced, now, size);
       s' == if synced.hist != s.hist || Tidied(synced.mem, cleaned.mem) || s.writeFailed
             then Persisted(cleaned, writeOk) else cleaned
  }

  /** One attempt to rewrite the state file; it either replaces the file or leaves it alone. */
  ghost function Persisted(s: Store, writeOk: bool): Store {
    if writeOk then s.(file := Some(s.mem), fileHist := s.hist, writeFailed := false)
    else s.(writeFailed := true)
  }

  lemma PersistedInv(s: Store, writeOk: bool, size: Record -> nat)
    requires Core(s, size)
    ensures Inv(Persisted(s, writeOk), size)
    ensures Extends(s.fileHist, Persisted(s, writeOk).fileHist)
  {
    LedgerOkExtends(s.ledger, s.fileHist, s.hist);
  }

  ghost function CleanedStore(s: Store, now: int, size: Record -> nat): Store {
    var m := Cleaned(s.mem, now);
    s.(mem := m, detectionBytes := Bytes(size, m.journal.detection))
  }

  /** Cleaning removed something. */
  ghost predicate Tidied(st: State, st': State) {
    st'.snapshots != st.snapshots || st'.journal != st.journal || st'.gapAt != st.gapAt
  }

  lemma RetainedLane(l: Lane, h: seq<Record>, k: Kind, now: int)
    requires LaneOk(l, h, k)
    ensures LaneOk(l.(journal := Retained(l.journal, k, now)), h, k)
  {
    var n := LeadingExpired(l.journal, now - Retention(k));
    assert l.journal[n..] == h[|h| - |l.journal| + n..];
  }

  lemma CleanedLanes(st: State, h: History, now: int)
    requires LanesOk(st, h)
    ensures LanesOk(Cleaned(st, now), h)
  {
    forall k: Kind ensures LaneOk(LaneOf(Cleaned(st, now), k), h.Of(k), k) {
      RetainedLane(LaneOf(st, k), h.Of(k), k, now);
      assert LaneOf(Cleaned(st, now), k) == LaneOf(st, k).(journal := Retained(LaneOf(st, k).journal, k, now));
    }
  }

  lemma CleanedCore(s: Store, now: int, size: Record -> nat)
    requires Core(s, size)
    ensures Core(CleanedStore(s, now, size), size)
  {
    CleanedLanes(s.mem, s.hist, now);
  }

  /** Nothing but counters, current maps, journals and their history differs. */
  ghost predicate SameRest(s: Store, s': Store) {
    s' == s.(hist := s'.hist,
             mem := s.mem.(nextSequence := s'.mem.nextSequence, current := s'.mem.current, journal := s'.mem.journal))
  }

  ghost predicate SameLane(s: Store, s': Store, k: Kind) {
    LaneOf(s'.mem, k) == LaneOf(s.mem, k) && s'.hist.Of(k) == s.hist.Of(k)
  }

  /** A lane brought to say exactly what desired says, each change numbered and journaled once. */
  ghost predicate LaneSynced(l: Lane, h: seq<Record>, l': Lane, h': seq<Record>, desired: seq<Record>, now: int) {
    && h <= h'
    && Changes(h, h'[|h|..], desired, now)
    && l' == Lane(l.next + |h'| - |h|, Fold(h'), l.journal + h'[|h|..])
    && Mirrors(l'.current, desired)
  }

  ghost predicate KindSynced(s: Store, s': Store, k: Kind, desired: seq<Record>, now: int) {
    LaneSynced(LaneOf(s.mem, k), s.hist.Of(k), LaneOf(s'.mem, k), s'.hist.Of(k), desired, now)
  }

  ghost predicate Synced(s: Store, s': Store, desired: map<Kind, seq<Record>>, now: int) {
    && SameRest(s, s')
    && SameLane(s, s', Detection)
    && forall k: Kind :: k != Detection ==> KindSynced(s, s', k, GetOr(desired, k, []), now)
  }

  lemma KindSyncedFrame(a: Store, b: Store, a': Store, b': Store, k: Kind, desired: seq<Record>, now: int)
    requires KindSynced(a, b, k, desired, now) && SameLane(a', a, k) && SameLane(b, b', k)
    ensures KindSynced(a', b', k, desired, now)
  {}

  lemma ChangesNumbered(h: seq<Record>, added: seq<Record>, desired: seq<Record>, now: int)
    requires Numbered(h) && Changes(h, added, desired, now)
    ensures Numbered(h + added)
  {
    var h' := h + added;
    forall i | 0 <= i < |h'| ensures h'[i].sequence == i + 1 {
      if i >= |h| {
        assert Change(h + added[..i - |h|], added[i - |h|], desired, now);
      }
    }
  }

  lemma SuffixGrows(rows: seq<Record>, h: seq<Record>, more: seq<Record>)
    requires IsSuffix(rows, h)
    ensures IsSuffix(rows + more, h + more)
  {
    assert rows + more == (h + more)[|h + more| - |rows + more|..];
  }

  lemma SyncedLaneOk(l: Lane, h: seq<Record>, l': Lane, h': seq<Record>, k: Kind, desired: seq<Record>, now: int)
    requires k != Detection && LaneOk(l, h, k) && LaneSynced(l, h, l', h', desired, now)
    ensures LaneOk(l', h', k)
  {
    ChangesNumbered(h, h'[|h|..], desired, now);
    assert h' == h + h'[|h|..];
    SuffixGrows(l.journal, h, h'[|h|..]);
    hide IsSuffix, Numbered, Changes, Mirrors, Fold;
  }

  lemma SyncedCore(s: Store, s': Store, desired: map<Kind, seq<Record>>, now: int, size: Record -> nat)
    requires Core(s, size) && Synced(s, s', desired, now)
    ensures Core(s', size)
    ensures Extends(s.hist, s'.hist)
  {
    forall k: Kind
      ensures LaneOk(LaneOf(s'.mem, k), s'.hist.Of(k), k)
      ensures s.fileHist.Of(k) <= s.hist.Of(k) <= s'.hist.Of(k)
    {
      if k != Detection {
        SyncedLaneOk(LaneOf(s.mem, k), s.hist.Of(k), LaneOf(s'.mem, k), s'.hist.Of(k), k, GetOr(desired, k, []), now);
      }
    }
    assert LaneOf(s'.mem, Detection).journal == LaneOf(s.mem, Detection).journal;
  }

  /** The detection row as it is stored. */
  function Stamped(candidate: Record, sequence: nat): Record {
    candidate.(revision := 1, sequence := sequence, operation := Upsert,
               provenance := candidate.provenance.(originRevision := 1))
  }

  predicate DetectionFits(st: State, detectionBytes: int, candidate: Record, limits: Limits, size: Record -> nat) {
    && |st.journal.detection| < limits.detectionMaxRows
    && detectionBytes + size(candidate) <= limits.detectionMaxBytes
  }

  ghost function Appended(s: Store, candidate: Record, size: Record -> nat): Store {
    var r := Stamped(candidate, s.mem.nextSequence.detection + 1);
    s.(mem := s.mem.(nextSequence := s.mem.nextSequence.(detection := r.sequence),
                     journal := s.mem.journal.(detection := s.mem.journal.detection + [r])),
       hist := s.hist.(detection := s.hist.detection + [r]),
       detectionBytes := s.detectionBytes + size(r))
  }

  /** A detection row numbered next keeps the detection lane in order. */
  lemma AppendedLaneOk(l: Lane, h: seq<Record>, r: Record)
    requires LaneOk(l, h, Detection) && r.sequence == |h| + 1
    ensures LaneOk(Lane(|h| + 1, l.current, l.journal + [r]), h + [r], Detection)
  {
    SuffixGrows(l.journal, h, [r]);
    hide IsSuffix;
  }

  lemma AppendedCore(s: Store, candidate: Record, size: Record -> nat)
    requires Core(s, size)
    ensures Core(Appended(s, candidate, size), size)
    ensures Extends(s.hist, Appended(s, candidate, size).hist)
  {
    var s' := Appended(s, candidate, size);
    var r := Stamped(candidate, s.mem.nextSequence.detection + 1);
    var l, h := LaneOf(s.mem, Detection), s.hist.Of(Detection);
    assert LaneOk(l, h, Detection);
    AppendedLaneOk(l, h, r);
    BytesConcat(size, s.mem.journal.detection, [r]);
    forall k: Kind
      ensures LaneOk(LaneOf(s'.mem, k), s'.hist.Of(k), k)
      ensures s.fileHist.Of(k) <= s.hist.Of(k) <= s'.hist.Of(k)
    {
      if k == Detection {
        assert LaneOf(s'.mem, k) == Lane(|h| + 1, l.current, l.journal + [r]);
      } else {
        assert LaneOf(s'.mem, k) == LaneOf(s.mem, k);
      }
    }
  }

  ghost function DropMarked(s: Store, now: int): Store {
    s.(mem := s.mem.(drops := s.mem.drops + 1,
                     gapAt := if s.mem.gapAt.None? then Some(now) else s.mem.gapAt))
  }

  ghost function Closed(s: Store): Store { s.(mem := s.mem.(cleanShutdown := true)) }

  ghost predicate SortedBySequence(rows: seq<Record>) {
    forall i, j :: 0 <= i < j < |rows| ==> rows[i].sequence < rows[j].sequence
  }

  /** rows is what a new snapshot freezes: every current value, or every retained detection, in order. */
  ghost predicate Freezes(rows: seq<Record>, l: Lane, k: Kind) {
    if k == Detection then rows == l.journal
    else SortedBySequence(rows) && forall r :: r in rows <==> r in l.current.Values
  }

  ghost function WithSnapshot(s: Store, snap: Snapshot): Store {
    s.(mem := s.mem.(snapshots := s.mem.snapshots[snap.id := snap]), ledger := s.ledger[snap.id := snap])
  }

  ghost function Forgotten(s: Store, id: string): Store {
    s.(mem := s.mem.(snapshots := s.mem.snapshots - {id}))
  }

  ghost function Frozen(s: Store, k: Kind, reader: Reader, id: string, rows: seq<Record>, now: int): Snapshot {
    Snapshot(id, reader, k, now, now + CURSOR_TTL, s.mem.nextSequence.Of(k), rows)
  }

  /** A snapshot request: refused while saving fails or when it would exceed a bound, else frozen, kept and saved. */
  ghost predicate SnapshotTaken(s: Store, s': Store, r: Option<Snapshot>, rows: seq<Record>, k: Kind, reader: Reader,
                                id: Option<string>, now: int, writeOk: bool, size: Record -> nat, fits: bool) {
    if s.writeFailed then s' == s && r == None
    else
      var cleaned := CleanedStore(s, now, size);
      && Freezes(rows, LaneOf(cleaned.mem, k), k)
      && if fits && id.Some? then
           var snap := Frozen(cleaned, k, reader, id.value, rows, now);
           && id.value !in s.ledger
           && s' == Persisted(WithSnapshot(cleaned, snap), writeOk)
           && r == if writeOk then Some(snap) else None
         else s' == cleaned && r == None
  }

  predicate SnapshotFits(st: State, rows: seq<Record>, limits: Limits, rowsBytes: nat) {
    && |st.snapshots| < limits.snapshotMaxCount
    && |rows| <= limits.snapshotMaxRecords
    && rowsBytes <= limits.snapshotMaxBytes
  }

  datatype Lookup = Unavailable | Missing | Found(snap: Snapshot)

  ghost predicate SnapshotLookedUp(s: Store, s': Store, r: Lookup, id: string, now: int, writeOk: bool) {
    if s.writeFailed then s' == s && r == Unavailable
    else if id !in s.mem.snapshots then s' == s && r == Missing
    else if s.mem.snapshots[id].expiresAt > now then s' == s && r == Found(s.mem.snapshots[id])
    else s' == Persisted(Forgotten(s, id), writeOk) && r == Missing
  }

  /** What the journal says after a watermark. */
  datatype Tail = Tail(rows: seq<Record>, current: nat, oldest: nat)

  function After(rows: seq<Record>, watermark: nat): seq<Record> {
    if rows == [] then []
    else (if rows[0].sequence > watermark then [rows[0]] else []) + After(rows[1..], watermark)
  }

  function TailOf(l: Lane, watermark: nat): Tail {
    Tail(After(l.journal, watermark), l.next, if l.journal == [] then 0 else l.journal[0].sequence)
  }

  ghost predicate JournalRead(s: Store, s': Store, r: Option<Tail>, k: Kind, watermark: nat, now: int, writeOk: bool,
                              size: Record -> nat) {
    if s.writeFailed then s' == s && r == None
    else
      var cleaned := CleanedStore(s, now, size);
      if Tidied(s.mem, cleaned.mem) then
        && s' == Persisted(cleaned, writeOk)
        && r == if writeOk then Some(TailOf(LaneOf(cleaned.mem, k), watermark)) else None
      else s' == cleaned && r == Some(TailOf(LaneOf(cleaned.mem, k), watermark))
  }

  lemma SortedDistinct(rows: seq<Record>, cur: map<string, Record>)
    requires SortedBySequence(rows)
    requires forall r :: r in rows ==> r.externalId in cur && cur[r.externalId] == r
    ensures forall i, j :: 0 <= i < j < |rows| ==> rows[i].externalId != rows[j].externalId
  {
    forall i, j | 0 <= i < j < |rows| ensures rows[i].externalId != rows[j].externalId {
      assert rows[i] in rows && rows[j] in rows;
    }
  }

  /** The heart of the bootstrap: the values of a folded state, sorted, replay to that state. */
  lemma FrozenReplays(rows: seq<Record>, h: seq<Record>)
    requires Numbered(h) && SortedBySequence(rows)
    requires forall r :: r in rows <==> r in Fold(h).Values
    ensures Fold(rows) == Fold(h)
  {
    var cur := Fold(h);
    FoldEntries(h);
    forall r | r in rows ensures r.operation == Upsert && r.externalId in cur && cur[r.externalId] == r {
      var id :| id in cur && cur[id] == r;
    }
    SortedDistinct(rows, cur);
    DistinctUpserts(rows);
    forall id | id in cur ensures id in Fold(rows) && Fold(rows)[id] == cur[id] {
      assert cur[id] in cur.Values;
    }
    assert Fold(rows) == cur;
  }

  lemma FrozenIsOk(snap: Snapshot, l: Lane, h: seq<Record>)
    requires LaneOk(l, h, snap.kind) && Freezes(snap.records, l, snap.kind)
    requires snap.watermark == |h|
    ensures SnapshotOk(snap, h)
    ensures snap.kind == Detection ==> snap.records == h[|h| - |l.journal|..snap.watermark]
  {
    assert h[..|h|] == h;
    if snap.kind != Detection {
      FrozenReplays(snap.records, h);
    }
  }

  lemma WithSnapshotCore(s: Store, snap: Snapshot, size: Record -> nat)
    requires Core(s, size) && Durable(s)
    requires snap.id !in s.ledger && Freezes(snap.records, LaneOf(s.mem, snap.kind), snap.kind)
    requires snap.watermark == s.mem.nextSequence.Of(snap.kind)
    ensures Core(WithSnapshot(s, snap), size)
  {
    var s' := WithSnapshot(s, snap);
    assert SnapshotOk(snap, s.hist.Of(snap.kind)) by {
      FrozenIsOk(snap, LaneOf(s.mem, snap.kind), s.hist.Of(snap.kind));
    }
    LedgerOkInsert(s.ledger, snap, s.fileHist);
    LanesDependOnLanes(s.mem, s'.mem, s.hist);
    RecordedInsert(s.mem.snapshots, s.ledger, snap);
    RecordedInsert(s.file.value.snapshots, s.ledger, snap);
  }

  lemma LedgerOkInsert(ledger: map<string, Snapshot>, snap: Snapshot, h: History)
    requires LedgerOk(ledger, h) && SnapshotOk(snap, h.Of(snap.kind))
    ensures LedgerOk(ledger[snap.id := snap], h)
  {}

  lemma RecordedInsert(snapshots: map<string, Snapshot>, ledger: map<string, Snapshot>, snap: Snapshot)
    requires Recorded(snapshots, ledger) && snap.id !in ledger
    ensures Recorded(snapshots, ledger[snap.id := snap])
    ensures Recorded(snapshots[snap.id := snap], ledger[snap.id := snap])
  {}

  /** Snapshots, the gap mark and the shutdown flag play no part in the lanes. */
  lemma LanesDependOnLanes(st: State, st': State, h: History)
    requires LanesOk(st, h)
    requires st'.nextSequence == st.nextSequence && st'.current == st.current && st'.journal == st.journal
    ensures LanesOk(st', h)
  {
    forall k: Kind ensures LaneOk(LaneOf(st', k), h.Of(k), k) {
      assert LaneOf(st', k) == LaneOf(st, k);
    }
  }

  lemma MetaCore(s: Store, m: State, size: Record -> nat)
    requires Core(s, size)
    requires m == s.mem.(snapshots := m.snapshots, gapAt := m.gapAt, drops := m.drops, cleanShutdown := m.cleanShutdown)
    requires Recorded(m.snapshots, s.ledger)
    ensures Core(s.(mem := m), size)
  {
    LanesDependOnLanes(s.mem, m, s.hist);
  }

  /** What a starting process holds in memory before it first writes the file. */
  function Loaded(file: Option<State>, now: int): State {
    match file
    case None => State(PerKind(0, 0, 0, 0), PerKind(map[], map[], map[], map[]), PerKind([], [], [], []), map[], None, 0, false)
    case Some(f) => f.(gapAt := if f.cleanShutdown then f.gapAt else Some(now), cleanShutdown := false)
  }

  /** A process that starts on this file: nothing but the file and the ghost memory of its past survives. */
  ghost function Booted(file: Option<State>, fileHist: History, ledger: map<string, Snapshot>,
                        now: int, size: Record -> nat): Store {
    var m := Cleaned(Loaded(file, now), now);
    Store(m, file, false, Bytes(size, m.journal.detection), fileHist, fileHist, ledger)
  }

  lemma LoadedLanes(file: Option<State>, h: History, ledger: map<string, Snapshot>, now: int)
    requires FileOk(file, h, ledger)
    ensures LanesOk(Loaded(file, now), h)
  {
    if file.Some? {
      LanesDependOnLanes(file.value, Loaded(file, now), h);
    } else {
      forall k: Kind ensures LaneOk(LaneOf(Loaded(file, now), k), h.Of(k), k) {
        assert h.Of(k) == [];
      }
    }
  }

  lemma BootedCore(s: Store, now: int, size: Record -> nat)
    requires Core(s, size)
    ensures Core(Booted(s.file, s.fileHist, s.ledger, now, size), size)
  {
    LoadedLanes(s.file, s.fileHist, s.ledger, now);
    CleanedLanes(Loaded(s.file, now), s.fileHist, now);
  }
}
