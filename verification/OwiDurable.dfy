/**
  The store's operations as they run: one object whose fields each method updates in place.
  writeOk says whether that operation's rewrite of the state file succeeds.
 */
module OwiDurable {
  import opened Common
  import opened OwiModel
  import opened OwiStore

  /** The row sizes the capacity checks use; any function will do. */
  datatype Sizes = Sizes(record: Record -> nat, rows: seq<Record> -> nat)

  class DurableStore {
    const limits: Limits
    const sizes: Sizes
    var state: State
    var file: Option<State>
    var writeFailed: bool
    var detectionBytes: int
    ghost var hist: History
    ghost var fileHist: History
    ghost var ledger: map<string, Snapshot>

    ghost function View(): Store reads this {
      Store(state, file, writeFailed, detectionBytes, hist, fileHist, ledger)
    }

    ghost predicate Valid() reads this { Inv(View(), sizes.record) }

    /** A process starting on whatever the state file holds; None when its first write fails. */
    static method Open(limits: Limits, sizes: Sizes, file: Option<State>, now: int, writeOk: bool,
                       ghost fileHist: History, ghost ledger: map<string, Snapshot>)
      returns (r: Option<DurableStore>)
      requires FileOk(file, fileHist, ledger) && LedgerOk(ledger, fileHist)
      ensures r.Some? <==> writeOk
      ensures r.Some? ==> fresh(r.value) && r.value.Valid() && r.value.limits == limits && r.value.sizes == sizes
      ensures r.Some? ==> r.value.View() == Persisted(Booted(file, fileHist, ledger, now, sizes.record), true)
    {
      var s := new DurableStore(limits, sizes, file, now, fileHist, ledger);
      var changed := s.Cleanup(now);
      var ok := s.Persist(writeOk);
      return if ok then Some(s) else None;
    }

    constructor (limits: Limits, sizes: Sizes, file: Option<State>, now: int,
                 ghost fileHist: History, ghost ledger: map<string, Snapshot>)
      requires FileOk(file, fileHist, ledger) && LedgerOk(ledger, fileHist)
      ensures this.limits == limits && this.sizes == sizes
      ensures View() == Store(Loaded(file, now), file, false, Bytes(sizes.record, Loaded(file, now).journal.detection),
                              fileHist, fileHist, ledger)
      ensures Core(View(), sizes.record)
    {
      var bytes := SumBytes(sizes, Loaded(file, now).journal.detection);
      this.limits, this.sizes := limits, sizes;
      this.state, this.file, this.writeFailed := Loaded(file, now), file, false;
      this.hist, this.fileHist, this.ledger := fileHist, fileHist, ledger;
      this.detectionBytes := bytes;
      LoadedLanes(file, fileHist, ledger, now);
    }

    static method SumBytes(sizes: Sizes, rows: seq<Record>) returns (n: nat)
      ensures n == Bytes(sizes.record, rows)
    {
      n := 0;
      var i := 0;
      while i < |rows|
        invariant 0 <= i <= |rows|
        invariant n == Bytes(sizes.record, rows[..i])
      {
        assert rows[..i + 1] == rows[..i] + [rows[i]];
        BytesConcat(sizes.record, rows[..i], [rows[i]]);
        n := n + sizes.record(rows[i]);
        i := i + 1;
      }
      assert rows[..i] == rows;
    }

    method Persist(writeOk: bool) returns (ok: bool)
      requires Core(View(), sizes.record)
      modifies this`file, this`fileHist, this`writeFailed
      ensures ok == writeOk
      ensures View() == Persisted(old(View()), writeOk)
      ensures Valid()
    {
      PersistedInv(View(), writeOk, sizes.record);
      writeFailed := !writeOk;
      if writeOk {
        file, fileHist := Some(state), hist;
      }
      ok := writeOk;
    }

    method ExpireSnapshots(now: int) returns (changed: bool)
      modifies this`state
      ensures state == old(state).(snapshots := Unexpired(old(state).snapshots, now))
      ensures changed <==> state.snapshots != old(state).snapshots
    {
      changed := false;
      ghost var all := state.snapshots;
      var todo := state.snapshots.Keys;
      while todo != {}
        invariant todo <= all.Keys
        invariant state == old(state).(snapshots := state.snapshots)
        invariant state.snapshots == map id | id in all && (id in todo || all[id].expiresAt > now) :: all[id]
        invariant changed <==> state.snapshots != all
        decreases |todo|
      {
        var id :| id in todo;
        todo := todo - {id};
        if !(state.snapshots[id].expiresAt > now) {
          state := state.(snapshots := state.snapshots - {id});
          changed := true;
          assert id in all && id !in state.snapshots;
        }
      }
    }

    static method CountExpired(rows: seq<Record>, cutoff: int) returns (idx: nat)
      ensures idx == LeadingExpired(rows, cutoff)
    {
      idx := 0;
      while idx < |rows| && Expired(rows[idx], cutoff)
        invariant 0 <= idx <= |rows|
        invariant forall i :: 0 <= i < idx ==> Expired(rows[i], cutoff)
      {
        idx := idx + 1;
      }
      LeadingExpiredUnique(rows, cutoff, idx);
    }

    method ForgetBytes(rows: seq<Record>, n: nat)
      requires n <= |rows| && detectionBytes == Bytes(sizes.record, rows)
      modifies this`detectionBytes
      ensures detectionBytes == Bytes(sizes.record, rows[n..])
    {
      var i := 0;
      assert rows[0..] == rows;
      while i < n
        invariant 0 <= i <= n
        invariant detectionBytes == Bytes(sizes.record, rows[i..])
      {
        assert rows[i..][1..] == rows[i + 1..];
        detectionBytes := detectionBytes - sizes.record(rows[i]);
        i := i + 1;
      }
      detectionBytes := if detectionBytes < 0 then 0 else detectionBytes;
    }

    /** Drop the expired rows at the front of one journal and account for their bytes. */
    method TrimJournal(k: Kind, now: int) returns (changed: bool)
      requires detectionBytes == Bytes(sizes.record, state.journal.detection)
      modifies this`state, this`detectionBytes
      ensures state == old(state).(journal := old(state).journal.With(k, Retained(old(state).journal.Of(k), k, now)))
      ensures detectionBytes == Bytes(sizes.record, state.journal.detection)
      ensures changed <==> state.journal != old(state).journal
    {
      var rows := state.journal.Of(k);
      var idx := CountExpired(rows, now - Retention(k));
      hide Bytes, LeadingExpired;
      if idx > 0 {
        if k == Detection {
          ForgetBytes(rows, idx);
        }
        state := state.(journal := state.journal.With(k, rows[idx..]));
        assert |state.journal.Of(k)| < |rows|;
      }
      changed := idx > 0;
      assert rows[0..] == rows;
    }

    method TrimJournals(now: int) returns (changed: bool)
      requires detectionBytes == Bytes(sizes.record, state.journal.detection)
      modifies this`state, this`detectionBytes
      ensures state == old(state).(journal := state.journal)
      ensures forall k: Kind :: state.journal.Of(k) == Retained(old(state).journal.Of(k), k, now)
      ensures detectionBytes == Bytes(sizes.record, state.journal.detection)
      ensures changed <==> state.journal != old(state).journal
    {
      hide Retained, Bytes;
      var a := TrimJournal(Asset, now);
      var p := TrimJournal(Policy, now);
      var h := TrimJournal(Health, now);
      var d := TrimJournal(Detection, now);
      changed := a || p || h || d;
    }

    method LiftGap(now: int) returns (changed: bool)
      modifies this`state
      ensures changed <==> old(state).gapAt.Some? && now - old(state).gapAt.value >= HISTORY_RETAIN
      ensures state == if changed then old(state).(gapAt := None, drops := 0) else old(state)
    {
      changed := state.gapAt.Some? && now - state.gapAt.value >= HISTORY_RETAIN;
      if changed {
        state := state.(gapAt := None, drops := 0);
      }
    }

    method Cleanup(now: int) returns (changed: bool)
      requires Core(View(), sizes.record)
      modifies this`state, this`detectionBytes
      ensures View() == CleanedStore(old(View()), now, sizes.record)
      ensures Core(View(), sizes.record)
      ensures changed <==> Tidied(old(state), state)
    {
      changed := CleanState(now);
      CleanedCore(old(View()), now, sizes.record);
    }

    method CleanState(now: int) returns (changed: bool)
      requires detectionBytes == Bytes(sizes.record, state.journal.detection)
      modifies this`state, this`detectionBytes
      ensures state == Cleaned(old(state), now)
      ensures detectionBytes == Bytes(sizes.record, state.journal.detection)
      ensures changed <==> Tidied(old(state), state)
    {
      hide Retained, Bytes, Unexpired;
      var s := ExpireSnapshots(now);
      var j := TrimJournals(now);
      JournalsAre(state.journal, old(state).journal, now);
      var g := LiftGap(now);
      changed := s || j || g;
    }

    /** Number r next, journal it, and make it current. */
    method Emit(k: Kind, r: Record)
      requires k != Detection && r.sequence == state.nextSequence.Of(k) + 1
      modifies this`state, this`hist
      ensures View() == Emitted(old(View()), k, r)
    {
      state := state.(
        nextSequence := state.nextSequence.With(k, r.sequence),
        current := state.current.With(k, Apply(state.current.Of(k), r)),
        journal := state.journal.With(k, state.journal.Of(k) + [r]));
      hist := hist.With(k, hist.Of(k) + [r]);
    }

    /** Bring one kind to say exactly what desired says. */
    method SyncStateKind(k: Kind, desired: seq<Record>, now: int) returns (changed: bool)
      requires k != Detection && LanesOk(state, hist)
      modifies this`state, this`hist
      ensures SameRest(old(View()), View())
      ensures forall j: Kind :: j != k ==> SameLane(old(View()), View(), j)
      ensures KindSynced(old(View()), View(), k, desired, now)
      ensures TellsLast(state.current.Of(k), desired)
      ensures LanesOk(state, hist)
      ensures changed <==> hist.Of(k) != old(hist).Of(k)
    {
      ghost var s0 := View();
      ProgressStart(s0, k, desired, now);
      changed := UpsertAll(k, desired, now, s0);
      var c := DeleteUnwanted(k, desired, now, s0);
      changed := changed || c;
      ProgressEnd(s0, View(), k, desired, now);
      MirrorsTells(state.current.Of(k), desired);
    }

    method UpsertAll(k: Kind, desired: seq<Record>, now: int, ghost s0: Store) returns (changed: bool)
      requires k != Detection && View() == s0 && Progress(s0, s0, k, desired, now)
      modifies this`state, this`hist
      ensures Progress(s0, View(), k, desired, now)
      ensures Says(state.current.Of(k), Wanted(desired))
      ensures changed <==> hist.Of(k) != s0.hist.Of(k)
    {
      SaysNothing(state.current.Of(k));
      hide Progress, Says, Change;
      changed := false;
      var i := 0;
      while i < |desired|
        invariant 0 <= i <= |desired|
        invariant Progress(s0, View(), k, desired, now)
        invariant Says(state.current.Of(k), Wanted(desired[..i]))
        invariant changed <==> |hist.Of(k)| != |s0.hist.Of(k)|
        invariant |s0.hist.Of(k)| <= |hist.Of(k)|
      {
        var candidate, cur := desired[i], state.current.Of(k);
        assert desired[..i + 1][..i] == desired[..i];
        if candidate.externalId !in cur || !SameContent(cur[candidate.externalId], candidate) {
          var rev := if candidate.externalId in cur then cur[candidate.externalId].revision + 1 else 1;
          var r := Numbered1(candidate, rev, state.nextSequence.Of(k) + 1);
          UpsertProgress(s0, View(), k, candidate, r, desired, now);
          SaysUpsert(cur, Wanted(desired[..i]), candidate, r);
          Emit(k, r);
          changed := true;
        } else {
          SaysKeep(cur, Wanted(desired[..i]), candidate);
        }
        i := i + 1;
      }
      assert desired[..i] == desired;
      ProgressLength(s0, View(), k, desired, now);
    }

    method DeleteUnwanted(k: Kind, desired: seq<Record>, now: int, ghost s0: Store) returns (changed: bool)
      requires k != Detection && Progress(s0, View(), k, desired, now)
      requires Says(state.current.Of(k), Wanted(desired))
      modifies this`state, this`hist
      ensures Progress(s0, View(), k, desired, now)
      ensures Says(state.current.Of(k), Wanted(desired))
      ensures forall id :: id in state.current.Of(k) ==> id in Wanted(desired)
      ensures |old(hist).Of(k)| <= |hist.Of(k)| && (changed <==> |hist.Of(k)| != |old(hist).Of(k)|)
    {
      hide Progress, Says, Wanted, Change;
      WantedKeys(desired);
      var seen := set d | d in desired :: d.externalId;
      changed := false;
      var todo := state.current.Of(k).Keys;
      while todo != {}
        invariant Progress(s0, View(), k, desired, now)
        invariant Says(state.current.Of(k), Wanted(desired))
        invariant forall id :: id in todo ==> id in state.current.Of(k)
        invariant forall id :: id in state.current.Of(k) ==> id in todo || id in Wanted(desired)
        invariant changed <==> |hist.Of(k)| != |old(hist).Of(k)|
        invariant |old(hist).Of(k)| <= |hist.Of(k)|
        decreases |todo|
      {
        var id :| id in todo;
        todo := todo - {id};
        if id !in seen {
          var was := state.current.Of(k)[id];
          var r := Tombstone(id, was, state.nextSequence.Of(k) + 1, now);
          SaysDelete(state.current.Of(k), Wanted(desired), id);
          DeleteProgress(s0, View(), k, was, r, desired, now);
          Emit(k, r);
          changed := true;
        }
      }
    }

    /** Bring the three state kinds to say what desired says, trim, and save what changed. */
    method SyncStateBatch(desired: map<Kind, seq<Record>>, now: int, writeOk: bool)
      returns (ok: bool, ghost synced: Store)
      requires Valid()
      modifies this`state, this`hist, this`detectionBytes, this`file, this`fileHist, this`writeFailed
      ensures Valid()
      ensures BatchSynced(old(View()), synced, View(), desired, now, writeOk, sizes.record)
      ensures ok <==> !writeFailed
    {
      ghost var s0 := View();
      var changed := SyncStateKinds(desired, now);
      synced := View();
      SyncedCore(s0, synced, desired, now, sizes.record);
      var c := Cleanup(now);
      ok := true;
      if changed || c || writeFailed {
        ok := Persist(writeOk);
      }
    }

    method SyncStateKinds(desired: map<Kind, seq<Record>>, now: int) returns (changed: bool)
      requires LanesOk(state, hist)
      modifies this`state, this`hist
      ensures Synced(old(View()), View(), desired, now)
      ensures changed <==> hist != old(hist)
    {
      hide KindSynced, LanesOk;
      ghost var s0 := View();
      var a := SyncStateKind(Asset, GetOr(desired, Asset, []), now);
      ghost var s1 := View();
      var p := SyncStateKind(Policy, GetOr(desired, Policy, []), now);
      ghost var s2 := View();
      var h := SyncStateKind(Health, GetOr(desired, Health, []), now);
      ghost var s3 := View();
      assert SameLane(s1, s2, Asset) && SameLane(s2, s3, Asset) && SameLane(s0, s1, Policy) && SameLane(s2, s3, Policy);
      assert SameLane(s0, s1, Health) && SameLane(s1, s2, Health);
      assert SameLane(s0, s1, Detection) && SameLane(s1, s2, Detection) && SameLane(s2, s3, Detection);
      KindSyncedFrame(s0, s1, s0, s3, Asset, GetOr(desired, Asset, []), now);
      KindSyncedFrame(s1, s2, s0, s3, Policy, GetOr(desired, Policy, []), now);
      KindSyncedFrame(s2, s3, s0, s3, Health, GetOr(desired, Health, []), now);
      changed := a || p || h;
      SameHistory(s0.hist, hist);
    }

    method AppendDetection(candidate: Record, now: int, writeOk: bool) returns (ok: bool)
      requires Valid()
      modifies this`state, this`hist, this`detectionBytes, this`file, this`fileHist, this`writeFailed
      ensures Valid()
      ensures var cleaned := CleanedStore(old(View()), now, sizes.record);
        if DetectionFits(cleaned.mem, cleaned.detectionBytes, candidate, limits, sizes.record)
        then View() == Persisted(Appended(cleaned, candidate, sizes.record), writeOk) && ok == writeOk
        else View() == cleaned && !ok
      ensures var rows := Cleaned(old(state), now).journal.detection;
        ok <==> writeOk && |rows| < limits.detectionMaxRows
                && Bytes(sizes.record, rows) + sizes.record(candidate) <= limits.detectionMaxBytes
      ensures ok ==>
        var rows := state.journal.detection;
        && 0 < |rows| <= limits.detectionMaxRows
        && var r := rows[|rows| - 1];
           && r.externalId == candidate.externalId && r.operation == Upsert && Tells(r, candidate)
           && r.revision == 1 && r.provenance.originRevision == 1 && r.sequence == old(state).nextSequence.detection + 1
    {
      var c := Cleanup(now);
      ok := StoreDetection(candidate, writeOk);
    }

    method StoreDetection(candidate: Record, writeOk: bool) returns (ok: bool)
      requires Core(View(), sizes.record)
      modifies this`state, this`hist, this`detectionBytes, this`file, this`fileHist, this`writeFailed
      ensures var fits := DetectionFits(old(state), old(detectionBytes), candidate, limits, sizes.record);
        && ok == (fits && writeOk)
        && View() == if fits then Persisted(Appended(old(View()), candidate, sizes.record), writeOk) else old(View())
      ensures old(Valid()) || DetectionFits(old(state), old(detectionBytes), candidate, limits, sizes.record) ==> Valid()
    {
      AppendedCore(View(), candidate, sizes.record);
      hide Core;
      if |state.journal.detection| >= limits.detectionMaxRows ||
         detectionBytes + sizes.record(candidate) > limits.detectionMaxBytes {
        return false;
      }
      PushDetection(candidate);
      ok := Persist(writeOk);
    }

    method PushDetection(candidate: Record)
      modifies this`state, this`hist, this`detectionBytes
      ensures View() == Appended(old(View()), candidate, sizes.record)
    {
      var r := Stamped(candidate, state.nextSequence.detection + 1);
      state := state.(nextSequence := state.nextSequence.(detection := r.sequence),
                      journal := state.journal.(detection := state.journal.detection + [r]));
      hist := hist.(detection := hist.detection + [r]);
      detectionBytes := detectionBytes + sizes.record(r);
    }

    method MarkDetectionDrop(now: int, writeOk: bool)
      requires Valid()
      modifies this`state, this`file, this`fileHist, this`writeFailed
      ensures Valid()
      ensures View() == Persisted(DropMarked(old(View()), now), writeOk)
    {
      ghost var s0 := View();
      state := state.(drops := state.drops + 1);
      if state.gapAt.None? {
        state := state.(gapAt := Some(now));
      }
      MetaCore(s0, state, sizes.record);
      var ok := Persist(writeOk);
    }

    method CloseClean(writeOk: bool) returns (ok: bool)
      requires Valid()
      modifies this`state, this`file, this`fileHist, this`writeFailed
      ensures Valid() && ok == writeOk
      ensures View() == Persisted(Closed(old(View())), writeOk)
    {
      ghost var s0 := View();
      state := state.(cleanShutdown := true);
      MetaCore(s0, state, sizes.record);
      ok := Persist(writeOk);
    }

    method NewSnapshot(k: Kind, reader: Reader, now: int, id: Option<string>, writeOk: bool)
      returns (r: Option<Snapshot>, ghost rows: seq<Record>, ghost fits: bool)
      requires Valid()
      requires id.Some? ==> id.value !in ledger
      modifies this`state, this`detectionBytes, this`file, this`fileHist, this`writeFailed, this`ledger
      ensures Valid()
      ensures SnapshotTaken(old(View()), View(), r, rows, k, reader, id, now, writeOk, sizes.record, fits)
      ensures !old(writeFailed) ==>
        fits == SnapshotFits(Cleaned(old(state), now), rows, limits, sizes.rows(rows))
      ensures r.Some? <==> !old(writeFailed) && id.Some? && writeOk
                           && |Cleaned(old(state), now).snapshots| < limits.snapshotMaxCount
                           && |rows| <= limits.snapshotMaxRecords && sizes.rows(rows) <= limits.snapshotMaxBytes
    {
      if writeFailed {
        return None, [], false;
      }
      var c := Cleanup(now);
      r, rows, fits := Freeze(k, reader, now, id, writeOk);
    }

    method Freeze(k: Kind, reader: Reader, now: int, id: Option<string>, writeOk: bool)
      returns (r: Option<Snapshot>, ghost rows: seq<Record>, ghost fits: bool)
      requires Core(View(), sizes.record) && Durable(View())
      requires id.Some? ==> id.value !in ledger
      modifies this`state, this`file, this`fileHist, this`writeFailed, this`ledger
      ensures Valid()
      ensures Freezes(rows, LaneOf(old(state), k), k)
      ensures fits == SnapshotFits(old(state), rows, limits, sizes.rows(rows))
      ensures if fits && id.Some? then
           var snap := Frozen(old(View()), k, reader, id.value, rows, now);
           && View() == Persisted(WithSnapshot(old(View()), snap), writeOk)
           && r == if writeOk then Some(snap) else None
         else View() == old(View()) && r == None
    {
      var frozen := FrozenRows(k);
      rows, fits := frozen, SnapshotFits(state, frozen, limits, sizes.rows(frozen));
      if id.None? || |state.snapshots| >= limits.snapshotMaxCount || |frozen| > limits.snapshotMaxRecords
         || sizes.rows(frozen) > limits.snapshotMaxBytes {
        return None, rows, fits;
      }
      var snap := Snapshot(id.value, reader, k, now, now + CURSOR_TTL, state.nextSequence.Of(k), frozen);
      WithSnapshotCore(View(), snap, sizes.record);
      KeepSnapshot(snap);
      var ok := Persist(writeOk);
      r := if ok then Some(snap) else None;
    }

    method KeepSnapshot(snap: Snapshot)
      modifies this`state, this`ledger
      ensures View() == WithSnapshot(old(View()), snap)
    {
      state := state.(snapshots := state.snapshots[snap.id := snap]);
      ledger := ledger[snap.id := snap];
    }

    method FrozenRows(k: Kind) returns (rows: seq<Record>)
      requires LanesOk(state, hist)
      ensures Freezes(rows, LaneOf(state, k), k)
    {
      assert LaneOk(LaneOf(state, k), hist.Of(k), k);
      if k == Detection {
        rows := state.journal.Of(k);
      } else {
        FoldEntries(hist.Of(k));
        rows := SortedValues(state.current.Of(k));
      }
    }

    method GetSnapshot(id: string, now: int, writeOk: bool) returns (r: Lookup)
      requires Valid()
      modifies this`state, this`file, this`fileHist, this`writeFailed
      ensures Valid()
      ensures SnapshotLookedUp(old(View()), View(), r, id, now, writeOk)
    {
      hide LanesOk, LedgerOk, FileOk, Bytes, Extends;
      if writeFailed {
        return Unavailable;
      }
      if id !in state.snapshots {
        return Missing;
      }
      if state.snapshots[id].expiresAt > now {
        return Found(state.snapshots[id]);
      }
      ghost var s0 := View();
      state := state.(snapshots := state.snapshots - {id});
      MetaCore(s0, state, sizes.record);
      var ok := Persist(writeOk);
      r := Missing;
    }

    method JournalAfter(k: Kind, watermark: nat, now: int, writeOk: bool) returns (r: Option<Tail>)
      requires Valid()
      modifies this`state, this`detectionBytes, this`file, this`fileHist, this`writeFailed
      ensures Valid()
      ensures JournalRead(old(View()), View(), r, k, watermark, now, writeOk, sizes.record)
    {
      if writeFailed {
        return None;
      }
      var c := Cleanup(now);
      if c {
        var ok := Persist(writeOk);
        if !ok {
          return None;
        }
      }
      var tail := ReadTail(k, watermark);
      r := Some(tail);
    }

    method ReadTail(k: Kind, watermark: nat) returns (r: Tail)
      ensures r == TailOf(LaneOf(state, k), watermark)
    {
      var journal := state.journal.Of(k);
      var rows := [];
      var i := 0;
      while i < |journal|
        invariant 0 <= i <= |journal|
        invariant rows + After(journal[i..], watermark) == After(journal, watermark)
      {
        if journal[i].sequence > watermark {
          rows := rows + [journal[i]];
        }
        i := i + 1;
      }
      r := Tail(rows, state.nextSequence.Of(k), if |journal| > 0 then journal[0].sequence else 0);
    }

    method CoverageNow(k: Kind, now: int) returns (r: Option<Coverage>)
      ensures r == if writeFailed then None else Some(CoverageOf(state, k, now))
    {
      r := if writeFailed then None else Some(CoverageOf(state, k, now));
    }

    /** Every value of a current map, in sequence order. */
    static method SortedValues(cur: map<string, Record>) returns (rows: seq<Record>)
      requires forall a, b :: a in cur && b in cur && a != b ==> cur[a].sequence != cur[b].sequence
      ensures SortedBySequence(rows)
      ensures forall r :: r in rows <==> r in cur.Values
    {
      rows := [];
      var todo := cur.Keys;
      while todo != {}
        invariant todo <= cur.Keys
        invariant SortedBySequence(rows)
        invariant forall r :: r in rows <==> exists id :: id in cur && id !in todo && cur[id] == r
        decreases |todo|
      {
        var id :| id in todo;
        todo := todo - {id};
        forall i | 0 <= i < |rows| ensures rows[i].sequence != cur[id].sequence {
          assert rows[i] in rows;
        }
        rows := Inserted(rows, cur[id]);
      }
    }
  }

  /** r placed before the first row that comes later. */
  function Inserted(rows: seq<Record>, r: Record): (s: seq<Record>)
    requires SortedBySequence(rows) && forall i :: 0 <= i < |rows| ==> rows[i].sequence != r.sequence
    ensures SortedBySequence(s)
    ensures forall x :: x in s <==> x in rows || x == r
  {
    if rows == [] then [r]
    else if r.sequence < rows[0].sequence then
      assert forall x :: x in [r] + rows <==> x in rows || x == r;
      [r] + rows
    else
      assert rows == [rows[0]] + rows[1..];
      var t := Inserted(rows[1..], r);
      assert forall i :: 0 <= i < |t| ==> t[i] in t;
      [rows[0]] + t
  }

  /** The candidate as it is stored and journaled. */
  function Numbered1(candidate: Record, revision: nat, sequence: nat): Record {
    candidate.(revision := revision, sequence := sequence, operation := Upsert,
               provenance := candidate.provenance.(originRevision := revision))
  }

  /** The record that announces the removal of id, last seen as was. */
  function Tombstone(id: string, was: Record, sequence: nat, now: int): Record {
    Record(id, was.revision + 1, sequence, Delete, At(now), None,
           was.provenance.(originRevision := was.revision + 1, originEventId := None), map[])
  }

  ghost function Emitted(s: Store, k: Kind, r: Record): Store {
    s.(mem := WithLane(s.mem, k, Lane(r.sequence, Apply(s.mem.current.Of(k), r), s.mem.journal.Of(k) + [r])),
       hist := s.hist.With(k, s.hist.Of(k) + [r]))
  }

  /** cur holds, for every id of wanted, a record with the wanted content. */
  ghost predicate Says(cur: map<string, Record>, wanted: map<string, Record>) {
    forall id :: id in wanted ==> id in cur && SameContent(cur[id], wanted[id])
  }

  lemma SaysNothing(cur: map<string, Record>)
    ensures Says(cur, Wanted([]))
  {}

  lemma SaysKeep(cur: map<string, Record>, wanted: map<string, Record>, candidate: Record)
    requires Says(cur, wanted) && candidate.externalId in cur && SameContent(cur[candidate.externalId], candidate)
    ensures Says(cur, wanted[candidate.externalId := candidate])
  {}

  lemma SaysUpsert(cur: map<string, Record>, wanted: map<string, Record>, candidate: Record, r: Record)
    requires Says(cur, wanted) && r == Numbered1(candidate, r.revision, r.sequence)
    ensures Says(cur[candidate.externalId := r], wanted[candidate.externalId := candidate])
  {}

  lemma SaysDelete(cur: map<string, Record>, wanted: map<string, Record>, id: string)
    requires Says(cur, wanted) && id !in wanted
    ensures Says(cur - {id}, wanted)
  {}

  /** A lane grown by changes the caller asked for. */
  ghost predicate Grown(l: Lane, h: seq<Record>, l': Lane, h': seq<Record>, desired: seq<Record>, now: int) {
    && h <= h'
    && Changes(h, h'[|h|..], desired, now)
    && l'.journal == l.journal + h'[|h|..]
  }

  /** From s0 to s nothing happened but wanted changes to kind k. */
  ghost predicate Progress(s0: Store, s: Store, k: Kind, desired: seq<Record>, now: int) {
    && SameRest(s0, s)
    && (forall j: Kind :: j != k ==> SameLane(s0, s, j))
    && LaneOk(LaneOf(s.mem, k), s.hist.Of(k), k)
    && Grown(LaneOf(s0.mem, k), s0.hist.Of(k), LaneOf(s.mem, k), s.hist.Of(k), desired, now)
  }

  lemma ProgressStart(s0: Store, k: Kind, desired: seq<Record>, now: int)
    requires LanesOk(s0.mem, s0.hist)
    ensures Progress(s0, s0, k, desired, now)
  {
    assert s0.hist.Of(k)[|s0.hist.Of(k)|..] == [];
  }

  lemma ProgressLength(s0: Store, s: Store, k: Kind, desired: seq<Record>, now: int)
    requires Progress(s0, s, k, desired, now)
    ensures s.hist.Of(k) == s0.hist.Of(k) <==> |s.hist.Of(k)| == |s0.hist.Of(k)|
  {}

  lemma GrownByOne(l: Lane, h: seq<Record>, l': Lane, h': seq<Record>, r: Record, desired: seq<Record>, now: int)
    requires Grown(l, h, l', h', desired, now) && Change(h', r, desired, now)
    ensures Grown(l, h, Lane(r.sequence, Apply(l'.current, r), l'.journal + [r]), h' + [r], desired, now)
  {
    hide Change;
    assert h' == h + h'[|h|..];
    ChangesSnoc(h, h'[|h|..], r, desired, now);
    assert (h' + [r])[|h|..] == h'[|h|..] + [r];
  }

  lemma EmittedLaneOk(l: Lane, h: seq<Record>, r: Record, k: Kind)
    requires k != Detection && LaneOk(l, h, k) && r.sequence == |h| + 1
    ensures LaneOk(Lane(r.sequence, Apply(l.current, r), l.journal + [r]), h + [r], k)
  {
    ReplayOne(map[], h, r);
    SuffixGrows(l.journal, h, [r]);
    hide IsSuffix, Replay;
  }

  lemma ProgressEmit(s0: Store, s: Store, k: Kind, r: Record, desired: seq<Record>, now: int)
    requires k != Detection && Progress(s0, s, k, desired, now) && Change(s.hist.Of(k), r, desired, now)
    ensures Progress(s0, Emitted(s, k, r), k, desired, now)
  {
    var l, h := LaneOf(s.mem, k), s.hist.Of(k);
    var l' := Lane(r.sequence, Apply(l.current, r), l.journal + [r]);
    EmittedLaneOk(l, h, r, k);
    GrownByOne(LaneOf(s0.mem, k), s0.hist.Of(k), l, h, r, desired, now);
    hide LaneOk, Grown, Change;
    var s' := Emitted(s, k, r);
    assert LaneOf(s'.mem, k) == l' && s'.hist.Of(k) == h + [r];
    assert SameRest(s0, s');
    forall j: Kind | j != k ensures SameLane(s0, s', j) {
      assert SameLane(s0, s, j);
    }
  }

  lemma UpsertProgress(s0: Store, s: Store, k: Kind, candidate: Record, r: Record, desired: seq<Record>, now: int)
    requires k != Detection && Progress(s0, s, k, desired, now) && candidate in desired
    requires var cur := s.mem.current.Of(k);
      && r == Numbered1(candidate, if r.externalId in cur then cur[r.externalId].revision + 1 else 1, s.mem.nextSequence.Of(k) + 1)
      && (r.externalId in cur ==> !SameContent(cur[r.externalId], candidate))
    ensures Progress(s0, Emitted(s, k, r), k, desired, now)
  {
    assert SameContent(candidate, r);
    assert LaneOk(LaneOf(s.mem, k), s.hist.Of(k), k);
    ProgressEmit(s0, s, k, r, desired, now);
  }

  lemma DeleteProgress(s0: Store, s: Store, k: Kind, was: Record, r: Record, desired: seq<Record>, now: int)
    requires k != Detection && Progress(s0, s, k, desired, now)
    requires r == Tombstone(r.externalId, was, s.mem.nextSequence.Of(k) + 1, now)
    requires r.externalId in s.mem.current.Of(k) && s.mem.current.Of(k)[r.externalId] == was
    requires r.externalId !in Wanted(desired)
    ensures Progress(s0, Emitted(s, k, r), k, desired, now)
  {
    assert LaneOk(LaneOf(s.mem, k), s.hist.Of(k), k);
    ProgressEmit(s0, s, k, r, desired, now);
  }

  lemma ProgressEnd(s0: Store, s: Store, k: Kind, desired: seq<Record>, now: int)
    requires k != Detection && LanesOk(s0.mem, s0.hist) && Progress(s0, s, k, desired, now)
    requires Says(s.mem.current.Of(k), Wanted(desired)) && forall id :: id in s.mem.current.Of(k) ==> id in Wanted(desired)
    ensures KindSynced(s0, s, k, desired, now) && LanesOk(s.mem, s.hist)
    ensures SameRest(s0, s) && forall j: Kind :: j != k ==> SameLane(s0, s, j)
  {
    hide Change, Changes, SameContent;
    assert LaneOk(LaneOf(s0.mem, k), s0.hist.Of(k), k);
    forall j: Kind ensures LaneOk(LaneOf(s.mem, j), s.hist.Of(j), j) {
      if j != k {
        assert SameLane(s0, s, j);
      }
    }
  }

  lemma SameHistory(h: History, h': History)
    ensures h == h' <==> forall k: Kind :: h.Of(k) == h'.Of(k)
  {
    assert h.Of(Asset) == h.asset && h.Of(Policy) == h.policy && h.Of(Health) == h.health && h.Of(Detection) == h.detection;
    assert h'.Of(Asset) == h'.asset && h'.Of(Policy) == h'.policy && h'.Of(Health) == h'.health && h'.Of(Detection) == h'.detection;
  }

  lemma JournalsAre(j: PerKind<seq<Record>>, was: PerKind<seq<Record>>, now: int)
    requires forall k: Kind :: j.Of(k) == Retained(was.Of(k), k, now)
    ensures j == PerKind(Retained(was.asset, Asset, now), Retained(was.policy, Policy, now),
                         Retained(was.health, Health, now), Retained(was.detection, Detection, now))
  {
    hide Retained;
    assert j.Of(Asset) == j.asset && j.Of(Policy) == j.policy && j.Of(Health) == j.health && j.Of(Detection) == j.detection;
    assert was.Of(Asset) == was.asset && was.Of(Policy) == was.policy && was.Of(Health) == was.health && was.Of(Detection) == was.detection;
  }
}
