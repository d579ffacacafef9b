/**
  Records, journals, snapshots and the replay of a record stream: the vocabulary
  of the dashboard connector's replication protocol.
  Times are whole seconds; sequence and revision numbers are unbounded.
 */
module OwiModel {
  import opened Common

  datatype Kind = Asset | Policy | Health | Detection

  datatype Operation = Upsert | Delete

  /** A source timestamp, which may not parse as RFC 3339. */
  datatype Stamp = At(time: int) | Unparsed(text: string)

  /** Provenance; facts stands for every part the connector only copies and compares. */
  datatype Provenance = Provenance(facts: string, originRevision: nat, originEventId: Option<string>)

  datatype Record = Record(
    externalId: string, revision: nat, sequence: nat, operation: Operation,
    observedAt: Stamp, updatedAt: Option<string>, provenance: Provenance, payload: map<string, string>)

  /** Whom a snapshot or cursor was issued to. */
  datatype Reader = Reader(tenant: string, principal: string, scopeHash: string)

  datatype Snapshot = Snapshot(
    id: string, reader: Reader, kind: Kind, createdAt: int, expiresAt: int,
    watermark: nat, records: seq<Record>)

  /** One value per resource kind; a kind the source has no entry for holds the zero value. */
  datatype PerKind<T> = PerKind(asset: T, policy: T, health: T, detection: T) {
    function Of(k: Kind): T {
      match k
      case Asset => asset
      case Policy => policy
      case Health => health
      case Detection => detection
    }

    function With(k: Kind, v: T): (r: PerKind<T>)
      ensures r.Of(k) == v
      ensures forall j: Kind :: j != k ==> r.Of(j) == Of(j)
    {
      match k
      case Asset => this.(asset := v)
      case Policy => this.(policy := v)
      case Health => this.(health := v)
      case Detection => this.(detection := v)
    }
  }

  /** What the connector writes to its state file. */
  datatype State = State(
    nextSequence: PerKind<nat>, current: PerKind<map<string, Record>>, journal: PerKind<seq<Record>>,
    snapshots: map<string, Snapshot>, gapAt: Option<int>, drops: nat, cleanShutdown: bool)

  const CURSOR_TTL := 24 * 3600
  const HISTORY_RETAIN := 30 * 24 * 3600
  const STATE_LOG_RETAIN := 7 * 24 * 3600

  /** Every record ever numbered, per kind: position i holds sequence number i + 1. */
  type History = PerKind<seq<Record>>

  const NO_HISTORY: History := PerKind([], [], [], [])

  ghost predicate Numbered(h: seq<Record>) {
    forall i :: 0 <= i < |h| ==> h[i].sequence == i + 1
  }

  /** h extended by later records never loses or renumbers one. */
  ghost predicate Extends(h: History, h': History) {
    forall k: Kind :: h.Of(k) <= h'.Of(k)
  }

  // ------------------------------------------------------------ replay

  /** The reader's rule: UPSERT stores the record under its id, DELETE removes the id. */
  function Apply(m: map<string, Record>, r: Record): map<string, Record> {
    match r.operation
    case Upsert => m[r.externalId := r]
    case Delete => m - {r.externalId}
  }

  function Replay(m: map<string, Record>, rows: seq<Record>): map<string, Record> {
    if rows == [] then m
    else Apply(Replay(m, rows[..|rows| - 1]), rows[|rows| - 1])
  }

  /** The source state a record stream describes. */
  function Fold(rows: seq<Record>): map<string, Record> { Replay(map[], rows) }

  lemma {:induction false} ReplayConcat(m: map<string, Record>, a: seq<Record>, b: seq<Record>)
    ensures Replay(m, a + b) == Replay(Replay(m, a), b)
    decreases |b|
  {
    if b == [] {
      assert a + b == a;
    } else {
      assert (a + b)[..|a + b| - 1] == a + b[..|b| - 1];
      ReplayConcat(m, a, b[..|b| - 1]);
    }
  }

  lemma ReplayOne(m: map<string, Record>, rows: seq<Record>, r: Record)
    ensures Replay(m, rows + [r]) == Apply(Replay(m, rows), r)
  {
    assert (rows + [r])[..|rows|] == rows;
  }

  /** In a numbered history the folded state holds, under each id, the UPSERT with that id it was last given. */
  lemma {:induction false} FoldEntries(h: seq<Record>)
    requires Numbered(h)
    ensures forall id :: id in Fold(h) ==>
      var r := Fold(h)[id];
      r.externalId == id && r.operation == Upsert && 1 <= r.sequence <= |h| && h[r.sequence - 1] == r
  {
    if h != [] {
      var last := h[|h| - 1];
      FoldEntries(h[..|h| - 1]);
      assert Fold(h) == Apply(Fold(h[..|h| - 1]), last);
      forall id | id in Fold(h)
        ensures var r := Fold(h)[id];
                r.externalId == id && r.operation == Upsert && 1 <= r.sequence <= |h| && h[r.sequence - 1] == r
      {
        if id != last.externalId {
          assert id in Fold(h[..|h| - 1]);
        }
      }
    }
  }

  /** Distinct UPSERTs, in whatever order, replay to the map that holds exactly them. */
  lemma {:induction false} DistinctUpserts(rows: seq<Record>)
    requires forall r :: r in rows ==> r.operation == Upsert
    requires forall i, j :: 0 <= i < j < |rows| ==> rows[i].externalId != rows[j].externalId
    ensures forall r :: r in rows ==> r.externalId in Fold(rows) && Fold(rows)[r.externalId] == r
    ensures forall id :: id in Fold(rows) ==> Fold(rows)[id] in rows && Fold(rows)[id].externalId == id
  {
    if rows != [] {
      var last := rows[|rows| - 1];
      var before := rows[..|rows| - 1];
      DistinctUpserts(before);
      assert Fold(rows) == Fold(before)[last.externalId := last];
      forall r | r in rows ensures r.externalId in Fold(rows) && Fold(rows)[r.externalId] == r {
        if r in before {
          var i :| 0 <= i < |before| && before[i] == r;
          assert rows[i].externalId != rows[|before|].externalId;
        }
      }
      forall id | id in Fold(rows) ensures Fold(rows)[id] in rows && Fold(rows)[id].externalId == id {
        if id != last.externalId {
          assert Fold(before)[id] in before;
        }
      }
    }
  }

  // ------------------------------------------------------------ content

  /** Equality of what the source said, ignoring the stream's own numbering. */
  predicate SameContent(a: Record, b: Record) {
    && a.observedAt == b.observedAt
    && a.updatedAt == b.updatedAt
    && a.provenance.(originRevision := 0) == b.provenance.(originRevision := 0)
    && a.payload == b.payload
  }

  /** The records a caller wants to exist, the last one winning for a repeated id. */
  function Wanted(desired: seq<Record>): map<string, Record> {
    if desired == [] then map[]
    else Wanted(desired[..|desired| - 1])[desired[|desired| - 1].externalId := desired[|desired| - 1]]
  }

  /** A current map that says exactly what the caller asked for. */
  ghost predicate Mirrors(cur: map<string, Record>, desired: seq<Record>) {
    && cur.Keys == Wanted(desired).Keys
    && forall id :: id in cur ==> SameContent(cur[id], Wanted(desired)[id])
  }

  /** desired[i] is the last record wanted under its id. */
  ghost predicate LastOf(desired: seq<Record>, i: int) {
    0 <= i < |desired| && forall j :: i < j < |desired| ==> desired[j].externalId != desired[i].externalId
  }

  lemma {:induction false} WantedIsLast(desired: seq<Record>, i: nat)
    requires LastOf(desired, i)
    ensures desired[i].externalId in Wanted(desired) && Wanted(desired)[desired[i].externalId] == desired[i]
  {
    var n := |desired| - 1;
    if i < n {
      assert desired[n].externalId != desired[i].externalId;
      assert LastOf(desired[..n], i);
      WantedIsLast(desired[..n], i);
    }
  }

  lemma {:induction false} LastWanted(desired: seq<Record>, id: string) returns (i: nat)
    requires id in Wanted(desired)
    ensures LastOf(desired, i) && desired[i].externalId == id
  {
    var n := |desired| - 1;
    if id == desired[n].externalId {
      i := n;
    } else {
      i := LastWanted(desired[..n], id);
    }
  }

  /** r tells of the source what d tells, field by field; only the numbering may differ. */
  predicate Tells(r: Record, d: Record) {
    && r.observedAt == d.observedAt && r.updatedAt == d.updatedAt && r.payload == d.payload
    && r.provenance.facts == d.provenance.facts && r.provenance.originEventId == d.provenance.originEventId
  }

  /** cur has an entry for each id asked for and no other, and it tells what was asked for last under that id. */
  ghost predicate TellsLast(cur: map<string, Record>, desired: seq<Record>) {
    && (forall i :: 0 <= i < |desired| ==> desired[i].externalId in cur)
    && (forall id :: id in cur ==> exists i :: LastOf(desired, i) && desired[i].externalId == id && Tells(cur[id], desired[i]))
  }

  lemma MirrorsTells(cur: map<string, Record>, desired: seq<Record>)
    requires Mirrors(cur, desired)
    ensures TellsLast(cur, desired)
  {
    WantedKeys(desired);
    forall i | 0 <= i < |desired| ensures desired[i].externalId in cur {
      assert desired[i] in desired;
    }
    forall id | id in cur ensures exists i :: LastOf(desired, i) && desired[i].externalId == id && Tells(cur[id], desired[i]) {
      var i := LastWanted(desired, id);
      WantedIsLast(desired, i);
    }
  }

  lemma TellsMirrors(cur: map<string, Record>, desired: seq<Record>)
    requires TellsLast(cur, desired)
    ensures Mirrors(cur, desired)
  {
    WantedKeys(desired);
    forall id | id in cur ensures id in Wanted(desired) && SameContent(cur[id], Wanted(desired)[id]) {
      var i :| LastOf(desired, i) && desired[i].externalId == id && Tells(cur[id], desired[i]);
      WantedIsLast(desired, i);
    }
    forall id | id in Wanted(desired) ensures id in cur {
      var d :| d in desired && d.externalId == id;
    }
  }

  /** r, numbered next after h, is a change the caller asked for and not a repetition. */
  ghost predicate Change(h: seq<Record>, r: Record, desired: seq<Record>, now: int) {
    var before := Fold(h);
    && r.sequence == |h| + 1
    && r.revision == (if r.externalId in before then before[r.externalId].revision + 1 else 1)
    && r.provenance.originRevision == r.revision
    && match r.operation
       case Upsert =>
         && (exists d :: d in desired && d.externalId == r.externalId && SameContent(d, r))
         && (r.externalId in before ==> !SameContent(before[r.externalId], r))
       case Delete =>
         && r.externalId in before
         && r.externalId !in Wanted(desired)
         && r.observedAt == At(now) && r.updatedAt == None && r.payload == map[]
         && r.provenance.facts == before[r.externalId].provenance.facts
         && r.provenance.originEventId == None
  }

  ghost predicate Changes(h: seq<Record>, added: seq<Record>, desired: seq<Record>, now: int) {
    forall i :: 0 <= i < |added| ==> Change(h + added[..i], added[i], desired, now)
  }

  lemma ChangesSnoc(h: seq<Record>, added: seq<Record>, r: Record, desired: seq<Record>, now: int)
    requires Changes(h, added, desired, now)
    requires Change(h + added, r, desired, now)
    ensures Changes(h, added + [r], desired, now)
  {
    forall i | 0 <= i < |added + [r]|
      ensures Change(h + (added + [r])[..i], (added + [r])[i], desired, now)
    {
      if i < |added| {
        assert (added + [r])[..i] == added[..i];
      } else {
        assert (added + [r])[..i] == added;
      }
    }
  }

  lemma {:induction false} WantedKeys(desired: seq<Record>)
    ensures forall id :: id in Wanted(desired) <==> exists d :: d in desired && d.externalId == id
  {
    if desired != [] {
      var n := |desired| - 1;
      WantedKeys(desired[..n]);
      forall id | exists d :: d in desired && d.externalId == id
        ensures id in Wanted(desired)
      {
        var d :| d in desired && d.externalId == id;
        if d != desired[n] {
          assert d in desired[..n];
        }
      }
    }
  }

  // ------------------------------------------------------------ retention

  function Retention(k: Kind): int { if k == Detection then HISTORY_RETAIN else STATE_LOG_RETAIN }

  predicate Expired(r: Record, cutoff: int) { r.observedAt.At? && r.observedAt.time < cutoff }

  /** How many rows at the front are past retention; the first unexpired or unparseable row stops the scan. */
  function LeadingExpired(rows: seq<Record>, cutoff: int): (n: nat)
    ensures n <= |rows|
    ensures forall i :: 0 <= i < n ==> Expired(rows[i], cutoff)
    ensures n < |rows| ==> !Expired(rows[n], cutoff)
  {
    if rows == [] || !Expired(rows[0], cutoff) then 0
    else 1 + LeadingExpired(rows[1..], cutoff)
  }

  lemma {:induction false} LeadingExpiredUnique(rows: seq<Record>, cutoff: int, n: nat)
    requires n <= |rows|
    requires forall i :: 0 <= i < n ==> Expired(rows[i], cutoff)
    requires n < |rows| ==> !Expired(rows[n], cutoff)
    ensures n == LeadingExpired(rows, cutoff)
  {
    if n > 0 {
      LeadingExpiredUnique(rows[1..], cutoff, n - 1);
    }
  }

  function Retained(rows: seq<Record>, k: Kind, now: int): seq<Record> {
    var n := LeadingExpired(rows, now - Retention(k));
    if n == 0 then rows else rows[n..]
  }

  function Unexpired(snapshots: map<string, Snapshot>, now: int): map<string, Snapshot> {
    map id | id in snapshots && snapshots[id].expiresAt > now :: snapshots[id]
  }

  /** Expire snapshots, trim each journal's old front, and lift a coverage gap after thirty days. */
  function Cleaned(st: State, now: int): State {
    var lifted := st.gapAt.Some? && now - st.gapAt.value >= HISTORY_RETAIN;
    st.(snapshots := Unexpired(st.snapshots, now),
        journal := PerKind(Retained(st.journal.asset, Asset, now), Retained(st.journal.policy, Policy, now),
                           Retained(st.journal.health, Health, now), Retained(st.journal.detection, Detection, now)),
        gapAt := if lifted then None else st.gapAt,
        drops := if lifted then 0 else st.drops)
  }

  const DAY := 24 * 60 * 60

  /** The row has a readable time, and that is longer ago than so many days. */
  predicate OlderThan(r: Record, days: int, now: int) { r.observedAt.At? && r.observedAt.time < now - days * DAY }

  /** kept is rows from the first one on that is not older than so many days; no younger row is missing. */
  ghost predicate KeepsYounger(rows: seq<Record>, kept: seq<Record>, days: int, now: int) {
    var gone := |rows| - |kept|;
    && 0 <= gone && kept == rows[gone..]
    && (forall i :: 0 <= i < gone ==> OlderThan(rows[i], days, now))
    && (kept != [] ==> !OlderThan(kept[0], days, now))
    && (forall r :: r in rows && !OlderThan(r, days, now) ==> r in kept)
  }

  lemma RetainedExactly(rows: seq<Record>, k: Kind, now: int)
    ensures KeepsYounger(rows, Retained(rows, k, now), match k case Detection => 30 case _ => 7, now)
  {
    var n := LeadingExpired(rows, now - Retention(k));
    assert rows[n..] == Retained(rows, k, now);
    hide LeadingExpired, Retained;
    forall r | r in rows && !Expired(r, now - Retention(k)) ensures r in rows[n..] {
      var i :| 0 <= i < |rows| && rows[i] == r;
      assert rows[n..][i - n] == r;
    }
  }

  /**
    What cleaning keeps: of each journal everything from the first row on that is not more than thirty days old for
    detections, seven for the rest, or has no readable time; every unexpired snapshot; and a coverage gap until it
    is thirty days old.
   */
  lemma CleanedExactly(st: State, now: int)
    ensures forall k: Kind :: KeepsYounger(st.journal.Of(k), Cleaned(st, now).journal.Of(k), match k case Detection => 30 case _ => 7, now)
    ensures forall id :: id in Cleaned(st, now).snapshots <==> id in st.snapshots && now < st.snapshots[id].expiresAt
    ensures forall id :: id in Cleaned(st, now).snapshots ==> Cleaned(st, now).snapshots[id] == st.snapshots[id]
    ensures st.gapAt.Some? && now - st.gapAt.value < 30 * DAY ==> Cleaned(st, now).gapAt == st.gapAt && Cleaned(st, now).drops == st.drops
    ensures st.gapAt.Some? && now - st.gapAt.value >= 30 * DAY ==> Cleaned(st, now).gapAt == None && Cleaned(st, now).drops == 0
    ensures st.gapAt.None? ==> Cleaned(st, now).gapAt == None && Cleaned(st, now).drops == st.drops
  {
    forall k: Kind
      ensures KeepsYounger(st.journal.Of(k), Cleaned(st, now).journal.Of(k), match k case Detection => 30 case _ => 7, now)
    {
      RetainedExactly(st.journal.Of(k), k, now);
    }
    hide Retained;
  }

  // ------------------------------------------------------------ sizes

  function Bytes(size: Record -> nat, rows: seq<Record>): nat {
    if rows == [] then 0 else size(rows[0]) + Bytes(size, rows[1..])
  }

  lemma {:induction false} BytesConcat(size: Record -> nat, a: seq<Record>, b: seq<Record>)
    ensures Bytes(size, a + b) == Bytes(size, a) + Bytes(size, b)
  {
    if a == [] {
      assert a + b == b;
    } else {
      assert (a + b)[1..] == a[1..] + b;
      BytesConcat(size, a[1..], b);
    }
  }
}
