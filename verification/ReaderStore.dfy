/**
  The store of the dashboard reader: an append-only journal file, and in memory what the journal folds to.
  Deletions are kept as records, so a resource keeps its revision count when it comes back.
 */
module ReaderStore {
  import opened Common

  const DETECTION := "DETECTION"

  datatype Record = Record(id: string, seqNo: nat, revision: nat, deleted: bool, payload: string, observed: int)

  datatype Entry = Entry(kind: string, record: Record)

  datatype Key = Key(kind: string, id: string)

  datatype Memory = Memory(state: map<Key, Record>, sequences: map<string, nat>, history: seq<Record>)

  const EMPTY_MEMORY := Memory(map[], map[], [])

  function SeqOf(m: Memory, kind: string): nat { GetOr(m.sequences, kind, 0) }

  /** A record taken in. */
  function Noted(m: Memory, e: Entry): Memory {
    var numbered := m.(sequences := m.sequences[e.kind := e.record.seqNo]);
    if e.kind == DETECTION then numbered.(history := m.history + [e.record])
    else numbered.(state := m.state[Key(e.kind, e.record.id) := e.record])
  }

  /** What reading the journal back gives; None when an entry has no id or its number does not go up. */
  function Fold(journal: seq<Entry>): Option<Memory> {
    if journal == [] then Some(EMPTY_MEMORY)
    else
      match Fold(journal[..|journal| - 1])
      case None => None
      case Some(m) => Taken(m, journal[|journal| - 1])
  }

  function Taken(m: Memory, e: Entry): Option<Memory> {
    if e.record.id == "" || e.record.seqNo <= SeqOf(m, e.kind) then None else Some(Noted(m, e))
  }

  lemma FoldSnoc(journal: seq<Entry>, e: Entry)
    ensures Fold(journal + [e]) == if Fold(journal).None? then None else Taken(Fold(journal).value, e)
  {
    assert (journal + [e])[..|journal|] == journal;
  }

  lemma {:induction false} BrokenStaysBroken(journal: seq<Entry>, n: nat)
    requires n <= |journal| && Fold(journal[..n]).None?
    ensures Fold(journal).None?
    decreases |journal| - n
  {
    if n == |journal| {
      assert journal[..n] == journal;
    } else {
      assert journal[..n + 1][..n] == journal[..n];
      BrokenStaysBroken(journal, n + 1);
    }
  }

  /** Every entry has an id, and a number above zero and above all earlier ones of its kind. */
  ghost predicate Readable(journal: seq<Entry>) {
    forall i :: 0 <= i < |journal| ==> ReadableAt(journal, i)
  }

  ghost predicate ReadableAt(journal: seq<Entry>, i: nat)
    requires i < |journal|
  {
    && journal[i].record.id != "" && journal[i].record.seqNo > 0
    && forall j :: 0 <= j < i && journal[j].kind == journal[i].kind ==> journal[j].record.seqNo < journal[i].record.seqNo
  }

  /** Entry i is the last that tells of a resource. */
  ghost predicate LastOn(journal: seq<Entry>, i: int, k: Key) {
    && 0 <= i < |journal| && k.kind != DETECTION && journal[i].kind == k.kind && journal[i].record.id == k.id
    && forall j :: i < j < |journal| ==> journal[j].kind != k.kind || journal[j].record.id != k.id
  }

  /** The highest number given out in a kind, zero when none was. */
  ghost predicate IsHighest(journal: seq<Entry>, kind: string, n: nat) {
    && (forall i :: 0 <= i < |journal| && journal[i].kind == kind ==> journal[i].record.seqNo <= n)
    && (n > 0 ==> exists i :: 0 <= i < |journal| && journal[i].kind == kind && journal[i].record.seqNo == n)
  }

  lemma {:induction false} SequencesAreHighest(journal: seq<Entry>, kind: string)
    requires Fold(journal).Some?
    ensures IsHighest(journal, kind, SeqOf(Fold(journal).value, kind))
  {
    if journal != [] {
      var n := |journal| - 1;
      SequencesAreHighest(journal[..n], kind);
      var m := SeqOf(Fold(journal[..n]).value, kind);
      if m > 0 {
        var i :| 0 <= i < n && journal[..n][i].kind == kind && journal[..n][i].record.seqNo == m;
        assert journal[i].kind == kind && journal[i].record.seqNo == m;
      }
    }
  }

  /** A journal can be read back exactly when every entry is readable. */
  lemma {:induction false} ReadsBackExactly(journal: seq<Entry>)
    ensures Fold(journal).Some? <==> Readable(journal)
  {
    if journal != [] {
      var n := |journal| - 1;
      var before, e := journal[..n], journal[n];
      ReadsBackExactly(before);
      assert Readable(before) <==> forall i :: 0 <= i < n ==> ReadableAt(journal, i) by {
        forall i | 0 <= i < n ensures ReadableAt(before, i) <==> ReadableAt(journal, i) {
        }
      }
      if Fold(before).Some? {
        SequencesAreHighest(before, e.kind);
        assert e.record.id == "" || e.record.seqNo <= SeqOf(Fold(before).value, e.kind) <==> !ReadableAt(journal, n) by {
          hide Fold, Readable;
          assert forall j :: 0 <= j < n ==> before[j] == journal[j];
        }
      }
    }
  }

  /** A journal that reads back gives for each resource the last record on it, and no other resource. */
  lemma {:induction false} LastRecordsAreRead(journal: seq<Entry>, k: Key)
    requires Fold(journal).Some?
    ensures k in Fold(journal).value.state <==> exists i :: LastOn(journal, i, k)
    ensures forall i :: LastOn(journal, i, k) ==> k in Fold(journal).value.state && Fold(journal).value.state[k] == journal[i].record
  {
    if journal != [] {
      var n := |journal| - 1;
      var before, e := journal[..n], journal[n];
      LastRecordsAreRead(before, k);
      if e.kind == k.kind != DETECTION && e.record.id == k.id {
        assert LastOn(journal, n, k);
        assert Key(e.kind, e.record.id) == k;
      } else {
        forall i ensures LastOn(before, i, k) <==> LastOn(journal, i, k) {
        }
      }
    }
  }

  function DetectionsIn(journal: seq<Entry>): seq<Record> {
    if journal == [] then []
    else
      var e := journal[|journal| - 1];
      DetectionsIn(journal[..|journal| - 1]) + if e.kind == "DETECTION" then [e.record] else []
  }

  lemma {:induction false} AllDetectionsAreRead(journal: seq<Entry>)
    requires Fold(journal).Some?
    ensures Fold(journal).value.history == DetectionsIn(journal)
  {
    if journal != [] {
      AllDetectionsAreRead(journal[..|journal| - 1]);
    }
  }

  predicate Increasing(records: seq<Record>) {
    forall i, j :: 0 <= i < j < |records| ==> records[i].seqNo < records[j].seqNo
  }

  /** Numbers within a kind are all different and no higher than its sequence. */
  ghost predicate MemoryOk(m: Memory) {
    && (forall k :: k in m.state ==> m.state[k].id == k.id && k.kind != DETECTION && 0 < m.state[k].seqNo <= SeqOf(m, k.kind))
    && (forall j, k :: j in m.state && k in m.state && j != k && j.kind == k.kind ==> m.state[j].seqNo != m.state[k].seqNo)
    && Increasing(m.history)
    && (forall i :: 0 <= i < |m.history| ==> 0 < m.history[i].seqNo <= SeqOf(m, DETECTION))
  }

  lemma NotedOk(m: Memory, e: Entry)
    requires MemoryOk(m) && e.record.seqNo > SeqOf(m, e.kind)
    ensures MemoryOk(Noted(m, e))
  {
    if e.kind != DETECTION {
      StatedOk(m, e);
    }
  }

  lemma StatedOk(m: Memory, e: Entry)
    requires MemoryOk(m) && e.record.seqNo > SeqOf(m, e.kind) && e.kind != DETECTION
    ensures MemoryOk(Noted(m, e))
  {
    var n := Noted(m, e);
    assert n.history == m.history && SeqOf(n, DETECTION) == SeqOf(m, DETECTION);
    hide Increasing;
    forall j, k | j in n.state && k in n.state && j != k && j.kind == k.kind ensures n.state[j].seqNo != n.state[k].seqNo {
      assert j in m.state || k in m.state;
    }
  }

  lemma {:induction false} FoldOk(journal: seq<Entry>)
    requires Fold(journal).Some?
    ensures MemoryOk(Fold(journal).value)
  {
    if journal != [] {
      var n := |journal| - 1;
      FoldOk(journal[..n]);
      NotedOk(Fold(journal[..n]).value, journal[n]);
    }
  }

  /** Each record of a resource has a higher revision than the one before it; the last is the stored one. */
  ghost predicate RevisionsRise(journal: seq<Entry>, state: map<Key, Record>) {
    && (forall i, j :: 0 <= i < j < |journal| && SameResource(journal[i], journal[j]) ==> journal[i].record.revision < journal[j].record.revision)
    && (forall i :: 0 <= i < |journal| && journal[i].kind != DETECTION ==>
          KeyOf(journal[i]) in state && journal[i].record.revision <= state[KeyOf(journal[i])].revision)
  }

  function KeyOf(e: Entry): Key { Key(e.kind, e.record.id) }

  predicate SameResource(a: Entry, b: Entry) { a.kind != DETECTION && KeyOf(a) == KeyOf(b) }

  lemma RevisionsStillRise(journal: seq<Entry>, state: map<Key, Record>, e: Entry)
    requires RevisionsRise(journal, state) && e.kind != DETECTION
    requires KeyOf(e) in state ==> e.record.revision > state[KeyOf(e)].revision
    ensures RevisionsRise(journal + [e], state[KeyOf(e) := e.record])
  {
  }

  /** What the disk made of an append. */
  datatype Append = NotWritten | NotSynced | Done

  /** Disk and memory differ only in the last entry of the loose kinds. */
  ghost predicate Ahead(disk: Memory, m: Memory, loose: set<string>) {
    && (forall k :: SeqOf(disk, k) == SeqOf(m, k) + (if k in loose then 1 else 0))
    && (forall k: Key :: k.kind !in loose ==> (k in disk.state <==> k in m.state) && (k in m.state ==> disk.state[k] == m.state[k]))
    && (DETECTION !in loose ==> disk.history == m.history)
    && (loose == {} ==> disk == m)
  }

  lemma AheadByOne(disk: Memory, m: Memory, loose: set<string>, e: Entry)
    requires Ahead(disk, m, loose) && e.kind !in loose && e.record.seqNo == SeqOf(m, e.kind) + 1
    ensures Ahead(Noted(disk, e), m, loose + {e.kind})
  {
  }

  lemma AheadTogether(disk: Memory, m: Memory, loose: set<string>, e: Entry)
    requires Ahead(disk, m, loose) && e.kind !in loose && e.record.seqNo == SeqOf(m, e.kind) + 1
    ensures Ahead(Noted(disk, e), Noted(m, e), loose)
  {
  }

  /**
    The file and how far it is from memory: what it folds to unless it is broken, the kinds whose last entry
    never made it to memory because its sync failed, and whether a kind was appended to after that.
   */
  datatype Log = Log(journal: seq<Entry>, disk: Memory, loose: set<string>, broken: bool)

  /** The journal reads back exactly if nothing was appended to a kind whose last sync had failed. */
  ghost predicate LogOk(log: Log, m: Memory) {
    && MemoryOk(m)
    && (if log.broken then Fold(log.journal) == None
        else Fold(log.journal) == Some(log.disk) && Ahead(log.disk, m, log.loose) && RevisionsRise(log.journal, log.disk.state))
  }

  /** Every append so far was atomic. */
  predicate Atomic(log: Log) { !log.broken && log.loose == {} }

  function Appended(log: Log, e: Entry, synced: bool): Log {
    var clean := !log.broken && e.kind !in log.loose;
    Log(log.journal + [e], if clean then Noted(log.disk, e) else log.disk,
        if synced then log.loose else log.loose + {e.kind}, !clean)
  }

  /** The next record of a kind, and for a resource a revision above the stored one. */
  predicate Fits(m: Memory, e: Entry) {
    && e.record.id != "" && e.record.seqNo == SeqOf(m, e.kind) + 1
    && (e.kind != DETECTION && KeyOf(e) in m.state ==> e.record.revision > m.state[KeyOf(e)].revision)
  }

  lemma AppendIsOk(log: Log, m: Memory, e: Entry, synced: bool)
    requires LogOk(log, m) && Fits(m, e)
    ensures LogOk(Appended(log, e, synced), if synced then Noted(m, e) else m)
  {
    NotedOk(m, e);
    FoldSnoc(log.journal, e);
    if !log.broken && e.kind !in log.loose {
      if e.kind == DETECTION {
        DetectionsHaveNoRevisions(log.journal, log.disk.state, e);
      } else {
        RevisionsStillRise(log.journal, log.disk.state, e);
      }
      hide RevisionsRise, MemoryOk, Fold;
      if synced {
        AheadTogether(log.disk, m, log.loose, e);
      } else {
        AheadByOne(log.disk, m, log.loose, e);
      }
    }
  }

  /** After a failed sync, the next append to that kind writes a number that is on disk already, and no restart reads the file. */
  lemma FailedSyncThenAppend(log: Log, m: Memory, lost: Entry, next: Entry, more: seq<Entry>)
    requires LogOk(log, m) && Fits(m, lost) && Fits(m, next) && lost.kind == next.kind
    ensures Fold(log.journal + [lost] + [next] + more) == None
  {
    AppendIsOk(log, m, lost, false);
    AppendIsOk(Appended(log, lost, false), m, next, true);
    var file := log.journal + [lost] + [next] + more;
    assert file[..|log.journal| + 2] == log.journal + [lost] + [next];
    BrokenStaysBroken(file, |log.journal| + 2);
  }

  /** Reading a journal back; it is refused exactly when it does not fold. */
  method LoadJournal(file: seq<Entry>) returns (m: Option<Memory>)
    ensures m == Fold(file)
  {
    var got := EMPTY_MEMORY;
    var i := 0;
    while i < |file|
      invariant 0 <= i <= |file| && Fold(file[..i]) == Some(got)
    {
      assert file[..i + 1][..i] == file[..i];
      var e := file[i];
      if e.record.id == "" || e.record.seqNo <= SeqOf(got, e.kind) {
        BrokenStaysBroken(file, i + 1);
        return None;
      }
      got := got.(sequences := got.sequences[e.kind := e.record.seqNo]);
      if e.kind == DETECTION {
        got := got.(history := got.history + [e.record]);
      } else {
        got := got.(state := got.state[Key(e.kind, e.record.id) := e.record]);
      }
      i := i + 1;
    }
    assert file[..|file|] == file;
    return Some(got);
  }

  class Store {
    var journal: seq<Entry>
    var mem: Memory
    var gap: bool
    /** Every cursor given out before a gap is refused. */
    var gapEpoch: nat
    ghost var log: Log
    /** How often an append was not carried through. */
    ghost var failures: nat

    ghost predicate Valid() reads this { LogOk(log, mem) && log.journal == journal }

    constructor (file: seq<Entry>, m: Memory)
      requires Fold(file) == Some(m) && RevisionsRise(file, m.state)
      ensures Valid() && Atomic(log) && journal == file && mem == m
    {
      journal, mem, gap, gapEpoch, failures := file, m, false, 0, 0;
      log := Log(file, m, {}, false);
      new;
      FoldOk(file);
    }

    /**
      Writes the next record of a kind. A write may fail, and a sync may fail after a write; in either case
      memory is left alone, so after a failed sync the number on disk is given out again.
     */
    method AppendLocked(kind: string, r: Record) returns (how: Append)
      requires Valid() && Fits(mem, Numbered(mem, kind, r))
      modifies this
      ensures Valid()
      ensures how.NotWritten? ==> mem == old(mem) && log == old(log)
      ensures !how.NotWritten? ==> log == Appended(old(log), Numbered(old(mem), kind, r), how.Done?)
      ensures mem == if how.Done? then Noted(old(mem), Numbered(old(mem), kind, r)) else old(mem)
      ensures failures == old(failures) + (if how.Done? then 0 else 1)
      ensures (gap == old(gap) && gapEpoch == old(gapEpoch)) || (how.NotWritten? && gap && gapEpoch == old(gapEpoch) + 1)
    {
      hide LogOk;
      if * {
        failures := failures + 1;
        if * { gap, gapEpoch := true, gapEpoch + 1; }
        return NotWritten;
      }
      var e := Numbered(mem, kind, r);
      journal := journal + [e];
      if * {
        AppendIsOk(log, mem, e, false);
        log, failures := Appended(log, e, false), failures + 1;
        return NotSynced;
      }
      AppendIsOk(log, mem, e, true);
      log := Appended(log, e, true);
      mem := Noted(mem, e);
      return Done;
    }

    /** A record for a resource that is new or changed, one revision up; nothing when it is as stored. */
    method Upsert(kind: string, id: string, payload: string, at: int) returns (ok: bool)
      requires Valid() && kind != DETECTION && id != ""
      modifies this
      ensures Valid()
      ensures ok ==> var k := Key(kind, id); var was := old(mem);
        if k in was.state && !was.state[k].deleted && was.state[k].payload == payload
        then mem == was && log == old(log)
        else mem == Noted(was, Numbered(was, kind, Record(id, 0, NextRevision(was, k), false, payload, at)))
             && (Atomic(old(log)) ==> Atomic(log))
      ensures ok ==> Says(old(mem), mem, Key(kind, id), payload, at)
      ensures ok <==> failures == old(failures)
      ensures !ok ==> mem == old(mem)
    {
      hide LogOk, Noted, Says;
      var k := Key(kind, id);
      StoredUnderItsId(log, mem, k);
      UpsertSays(mem, k, payload, at);
      if k in mem.state && !mem.state[k].deleted && mem.state[k].payload == payload { return true; }
      var how := AppendLocked(kind, Record(id, 0, NextRevision(mem, k), false, payload, at));
      return how.Done?;
    }

    /** Tombstones for the resources of a kind that are gone; they keep counting revisions. */
    method DeleteMissing(kind: string, keep: set<string>, at: int) returns (ok: bool)
      requires Valid() && kind != DETECTION && NamedIds(mem)
      modifies this
      ensures Valid() && Buried(old(mem), mem, kind, keep, at, if ok then {} else old(mem).state.Keys, {})
      ensures ok <==> failures == old(failures)
      ensures Atomic(old(log)) && ok ==> Atomic(log)
    {
      hide LogOk, Buried, Noted;
      ghost var was := mem;
      NothingBuried(mem, kind, keep, at);
      var left := mem.state.Keys;
      while left != {}
        invariant Valid() && NamedIds(mem) && left <= mem.state.Keys
        invariant failures == old(failures) && (Atomic(old(log)) ==> Atomic(log))
        invariant Buried(was, mem, kind, keep, at, left, left)
        decreases |left|
      {
        var k :| k in left;
        if k.kind == kind && k.id !in keep && !mem.state[k].deleted {
          var r := Record(k.id, 0, mem.state[k].revision + 1, true, "", at);
          assert Key(kind, k.id) == k;
          BuriedOne(was, mem, kind, keep, left, k, at);
          var how := AppendLocked(kind, r);
          if !how.Done? { return false; }
        } else {
          LeftAlone(was, mem, kind, keep, at, left, k);
        }
        left := left - {k};
      }
      return true;
    }

    method AppendDetection(site: string, rule: int, id: string, payload: string, at: int) returns (how: Append)
      requires Valid() && id != ""
      modifies this
      ensures Valid()
      ensures mem == if how.Done? && rule > 0 && site != ""
                     then Noted(old(mem), Numbered(old(mem), DETECTION, Record(id, 0, 1, false, payload, at))) else old(mem)
      ensures mem.state == old(mem).state
              && mem.history == old(mem).history + if how.Done? && rule > 0 && site != ""
                                                   then [Record(id, SeqOf(old(mem), DETECTION) + 1, 1, false, payload, at)] else []
      ensures failures == old(failures) + (if how.Done? then 0 else 1)
      ensures !how.NotSynced? && Atomic(old(log)) ==> Atomic(log)
    {
      if rule <= 0 || site == "" { return Done; }
      how := AppendLocked(DETECTION, Record(id, 0, 1, false, payload, at));
    }

    /** The detections after a number, no more than a limit; more tells whether any were left out. */
    method Delta(after: nat, limit: nat) returns (rows: seq<Record>, watermark: nat, more: bool)
      requires Valid() && limit > 0
      ensures watermark == SeqOf(mem, DETECTION)
      ensures rows <= Later(mem.history, after) && more == (|rows| < |Later(mem.history, after)|)
      ensures |rows| <= limit && (more ==> |rows| == limit)
    {
      watermark := SeqOf(mem, DETECTION);
      rows, more := [], false;
      var i := 0;
      while i < |mem.history|
        invariant 0 <= i <= |mem.history| && |rows| <= limit
        invariant Later(mem.history, after) == rows + Later(mem.history[i..], after)
      {
        var r := mem.history[i];
        assert mem.history[i..][0] == r && mem.history[i..][1..] == mem.history[i + 1..];
        if r.seqNo > after && r.seqNo <= watermark {
          if |rows| == limit {
            assert |Later(mem.history[i..], after)| > 0;
            return rows, watermark, true;
          }
          assert rows + ([r] + Later(mem.history[i + 1..], after)) == (rows + [r]) + Later(mem.history[i + 1..], after);
          rows := rows + [r];
        }
        i := i + 1;
      }
      assert Later(mem.history[i..], after) == [];
    }
  }

  function Numbered(m: Memory, kind: string, r: Record): Entry {
    Entry(kind, r.(seqNo := SeqOf(m, kind) + 1))
  }

  /** The second memory says so of the resource, one revision up if that is news, and nothing else has changed. */
  ghost predicate Says(was: Memory, now: Memory, k: Key, payload: string, at: int) {
    && k in now.state && now.state[k].id == k.id && !now.state[k].deleted && now.state[k].payload == payload
    && (now != was ==> now.state[k].observed == at && now.state[k].seqNo == SeqOf(was, k.kind) + 1 == SeqOf(now, k.kind)
                       && now.state[k].revision == if k in was.state then was.state[k].revision + 1 else 1)
    && now.state.Keys == was.state.Keys + {k} && now.history == was.history
    && (forall j :: j in was.state && j != k ==> now.state[j] == was.state[j])
    && (forall other :: other != k.kind ==> SeqOf(now, other) == SeqOf(was, other))
  }

  lemma StoredUnderItsId(log: Log, m: Memory, k: Key)
    requires LogOk(log, m)
    ensures k in m.state ==> m.state[k].id == k.id
  {
  }

  lemma UpsertSays(m: Memory, k: Key, payload: string, at: int)
    requires k.kind != DETECTION && (k in m.state ==> m.state[k].id == k.id)
    ensures k in m.state && !m.state[k].deleted && m.state[k].payload == payload ==> Says(m, m, k, payload, at)
    ensures Says(m, Noted(m, Numbered(m, k.kind, Record(k.id, 0, NextRevision(m, k), false, payload, at))), k, payload, at)
  {
    if k in m.state {
      assert m.state.Keys + {k} == m.state.Keys;
    }
  }

  predicate NamedIds(m: Memory) { forall k :: k in m.state ==> k.id != "" }

  /** A resource that should get a tombstone. */
  predicate Gone(was: Memory, kind: string, keep: set<string>, k: Key) {
    k in was.state && k.kind == kind && k.id !in keep && !was.state[k].deleted
  }

  /**
    From the first memory to the second, missing resources of the kind got a tombstone one revision up, and
    nothing else of the state changed, nor the numbers of other kinds. Those not pending all have theirs; those not touched have none.
   */
  ghost predicate Buried(was: Memory, now: Memory, kind: string, keep: set<string>, at: int, pending: set<Key>, untouched: set<Key>) {
    && now.state.Keys == was.state.Keys && now.history == was.history
    && (forall k :: k in was.state && now.state[k] != was.state[k] ==>
          Gone(was, kind, keep, k) && k !in untouched
          && now.state[k] == Record(k.id, now.state[k].seqNo, was.state[k].revision + 1, true, "", at))
    && (forall other :: other != kind ==> SeqOf(now, other) == SeqOf(was, other))
    && (forall k :: Gone(was, kind, keep, k) && k !in pending ==> now.state[k].deleted)
  }

  lemma NothingBuried(m: Memory, kind: string, keep: set<string>, at: int)
    ensures Buried(m, m, kind, keep, at, m.state.Keys, m.state.Keys)
  {
  }

  lemma BuriedOne(was: Memory, now: Memory, kind: string, keep: set<string>, left: set<Key>, k: Key, at: int)
    requires Buried(was, now, kind, keep, at, left, left) && k in left && k in now.state && kind != DETECTION
    requires k.kind == kind && k.id !in keep && !now.state[k].deleted
    ensures Fits(now, Numbered(now, kind, Record(k.id, 0, now.state[k].revision + 1, true, "", at))) || k.id == ""
    ensures var next := Noted(now, Numbered(now, kind, Record(k.id, 0, now.state[k].revision + 1, true, "", at)));
      && Buried(was, next, kind, keep, at, left - {k}, left - {k}) && next.state.Keys == now.state.Keys
      && Buried(was, now, kind, keep, at, was.state.Keys, {})
  {
    assert Key(kind, k.id) == k;
    assert now.state[k] == was.state[k];
  }

  lemma LeftAlone(was: Memory, now: Memory, kind: string, keep: set<string>, at: int, left: set<Key>, k: Key)
    requires Buried(was, now, kind, keep, at, left, left) && k in left && k in now.state
    requires k.kind != kind || k.id in keep || now.state[k].deleted
    ensures Buried(was, now, kind, keep, at, left - {k}, left - {k})
  {
  }

  function NextRevision(m: Memory, k: Key): nat {
    if k in m.state then m.state[k].revision + 1 else 1
  }

  lemma DetectionsHaveNoRevisions(journal: seq<Entry>, state: map<Key, Record>, e: Entry)
    requires RevisionsRise(journal, state) && e.kind == DETECTION
    ensures RevisionsRise(journal + [e], state)
  {
  }

  /** The records numbered after a watermark, in order. */
  function Later(records: seq<Record>, after: nat): seq<Record> {
    if records == [] then []
    else (if records[0].seqNo > after then [records[0]] else []) + Later(records[1..], after)
  }
}
