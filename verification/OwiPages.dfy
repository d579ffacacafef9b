/**
  The reader protocol: a bootstrap pages through a frozen snapshot, then incremental pages
  follow a watermark. A cursor is opaque to its holder; only cursors the connector issued decode.
 */
module OwiPages {
  import opened Common
  import opened OwiModel
  import opened OwiStore
  import opened OwiDurable

  datatype Mode = Snapshotting | Incremental | UnknownMode

  datatype Cursor = Cursor(
    reader: Reader, source: string, kind: Kind, mode: Mode, snapshotId: string, offset: int,
    watermark: nat, limit: int, issuedAt: int, expiresAt: int)

  datatype RawCursor = NoCursor | Signed(cursor: Cursor) | Forged

  datatype Code = TemporaryUnavailable | InvalidCursor | ResetRequired

  datatype Response =
    | Page(mode: Mode, records: seq<Record>, next: RawCursor, hasMore: bool, coverage: Coverage)
    | Refused(code: Code)

  function FirstCursor(snap: Snapshot, source: string, limit: int, now: int): Cursor {
    Cursor(snap.reader, source, snap.kind, Snapshotting, snap.id, 0, snap.watermark, limit, now, now + CURSOR_TTL)
  }

  /** One page of a frozen snapshot; the last one hands over to the incremental mode at its watermark. */
  function SnapshotPage(snap: Snapshot, cur: Cursor, limit: int, now: int, coverage: Option<Coverage>): Response
    requires limit >= 1
  {
    if cur.offset < 0 || cur.offset > |snap.records| then Refused(InvalidCursor)
    else
      var end := Min(cur.offset + limit, |snap.records|);
      var more := end < |snap.records|;
      var next := if more then cur.(offset := end, issuedAt := now, expiresAt := now + CURSOR_TTL)
                  else cur.(mode := Incremental, snapshotId := "", offset := 0, watermark := snap.watermark,
                            issuedAt := now, expiresAt := now + CURSOR_TTL);
      match coverage
      case None => Refused(TemporaryUnavailable)
      case Some(c) => Page(Snapshotting, snap.records[cur.offset..end], Signed(next), more, c)
  }

  /** One page of the journal after the cursor's watermark. */
  function IncrementalPage(cur: Cursor, tail: Tail, limit: int, now: int, coverage: Coverage): Response
    requires limit >= 1
  {
    if tail.oldest > 0 && cur.watermark + 1 < tail.oldest then Refused(ResetRequired)
    else
      var selected := tail.rows[..Min(|tail.rows|, limit)];
      var next := cur.(watermark := if selected == [] then cur.watermark else selected[|selected| - 1].sequence,
                       issuedAt := now, expiresAt := now + CURSOR_TTL);
      Page(Incremental, selected, if selected == [] then Signed(cur) else Signed(next), |tail.rows| > |selected|, coverage)
  }

  predicate Binds(cur: Cursor, reader: Reader, source: string, k: Kind, limit: int, now: int) {
    && cur.reader == reader && cur.source == source && cur.kind == k && cur.limit == limit
    && now < cur.expiresAt
  }

  /** Everything outside the connector one request depends on. */
  datatype Request = Request(kind: Kind, reader: Reader, limit: int, raw: RawCursor, now: int, id: Option<string>, writeOk: bool)

  /**
    What one page request does to the store and answers. alive says whether saving still works
    when the coverage is read after a snapshot was fetched under an earlier lock.
   */
  ghost predicate Served(s: Store, s': Store, q: Request, source: string, alive: bool, rows: seq<Record>, fits: bool,
                         size: Record -> nat, resp: Response)
    requires q.limit >= 1
  {
    match q.raw
    case NoCursor => exists r ::
      && SnapshotTaken(s, s', r, rows, q.kind, q.reader, q.id, q.now, q.writeOk, size, fits)
      && resp == (match r
         case None => Refused(TemporaryUnavailable)
         case Some(snap) => SnapshotPage(snap, FirstCursor(snap, source, q.limit, q.now), q.limit, q.now,
                                         CoverageIf(alive, s'.mem, q.kind, q.now)))
    case Forged => s' == s && resp == Refused(InvalidCursor)
    case Signed(cur) =>
      if !Binds(cur, q.reader, source, q.kind, q.limit, q.now) then s' == s && resp == Refused(ResetRequired)
      else match cur.mode
        case Snapshotting => exists r ::
          && SnapshotLookedUp(s, s', r, cur.snapshotId, q.now, q.writeOk)
          && resp == (match r
             case Unavailable => Refused(TemporaryUnavailable)
             case Missing => Refused(ResetRequired)
             case Found(snap) =>
               if snap.reader != q.reader || snap.kind != q.kind then Refused(ResetRequired)
               else SnapshotPage(snap, cur, q.limit, q.now, CoverageIf(alive, s'.mem, q.kind, q.now)))
        case UnknownMode => s' == s && resp == Refused(InvalidCursor)
        case Incremental => exists r ::
          && JournalRead(s, s', r, q.kind, cur.watermark, q.now, q.writeOk, size)
          && resp == (match r
             case None => Refused(TemporaryUnavailable)
             case Some(tail) => IncrementalPage(cur, tail, q.limit, q.now, CoverageOf(s'.mem, q.kind, q.now)))
  }

  function CoverageIf(alive: bool, st: State, k: Kind, now: int): Option<Coverage> {
    if alive then Some(CoverageOf(st, k, now)) else None
  }

  class Connector {
    const source: string
    const store: DurableStore

    constructor (source: string, store: DurableStore)
      ensures this.source == source && this.store == store
    {
      this.source, this.store := source, store;
    }

    method ServePage(q: Request) returns (resp: Response, ghost rows: seq<Record>, ghost fits: bool)
      requires q.limit >= 1 && store.Valid()
      requires q.id.Some? ==> q.id.value !in store.ledger
      modifies store
      ensures store.Valid()
      ensures Served(old(store.View()), store.View(), q, source, true, rows, fits, store.sizes.record, resp)
      ensures q.raw.NoCursor? && !old(store.writeFailed) ==>
        fits == SnapshotFits(Cleaned(old(store.state), q.now), rows, store.limits, store.sizes.rows(rows))
    {
      hide JournalRead, SnapshotPage, IncrementalPage, FirstCursor, CoverageOf, Inv, Binds, Freezes, Cleaned;
      rows, fits := [], false;
      match q.raw {
        case Forged => resp := Refused(InvalidCursor);
        case NoCursor =>
          var r;
          r, rows, fits := store.NewSnapshot(q.kind, q.reader, q.now, q.id, q.writeOk);
          match r {
            case None => resp := Refused(TemporaryUnavailable);
            case Some(snap) =>
              var c := store.CoverageNow(q.kind, q.now);
              resp := SnapshotPage(snap, FirstCursor(snap, source, q.limit, q.now), q.limit, q.now, c);
          }
        case Signed(cur) =>
          if !Binds(cur, q.reader, source, q.kind, q.limit, q.now) {
            resp := Refused(ResetRequired);
          } else if cur.mode == Snapshotting {
            var r := store.GetSnapshot(cur.snapshotId, q.now, q.writeOk);
            match r {
              case Unavailable => resp := Refused(TemporaryUnavailable);
              case Missing => resp := Refused(ResetRequired);
              case Found(snap) =>
                if snap.reader != q.reader || snap.kind != q.kind {
                  resp := Refused(ResetRequired);
                } else {
                  var c := store.CoverageNow(q.kind, q.now);
                  resp := SnapshotPage(snap, cur, q.limit, q.now, c);
                }
            }
          } else if cur.mode != Incremental {
            resp := Refused(InvalidCursor);
          } else {
            var r := store.JournalAfter(q.kind, cur.watermark, q.now, q.writeOk);
            match r {
              case None => resp := Refused(TemporaryUnavailable);
              case Some(tail) =>
                resp := IncrementalPage(cur, tail, q.limit, q.now, CoverageOf(store.state, q.kind, q.now));
            }
          }
      }
    }
  }
}
