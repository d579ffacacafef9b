/**
  The GraphQL analyser walks a selection set once, resolving fragment spreads as it meets them.
  Its specification expands every fragment first and then measures the resulting tree.
 */
module GraphqlAnalysis {
  import opened Common
  import opened GraphqlDocument

  const MAX_DEPTH := 64
  const MAX_COMPLEXITY := 10000

  // ------------------------------------------------------------ specification: expand, then measure

  /** A field of the expanded document; hasSet tells that it was written with a nonempty selection set. */
  datatype Tree = Node(field: string, children: seq<Tree>, hasSet: bool)

  /** All fragments replaced by their contents; None for an unknown or cyclic spread. */
  function Expand(sels: seq<Selection>, frags: Fragments, stack: set<string>): Option<seq<Tree>>
    decreases |frags.Keys - stack|, sels
  {
    if sels == [] then Some([])
    else
      match ExpandOne(sels[0], frags, stack)
      case None => None
      case Some(head) =>
        match Expand(sels[1..], frags, stack)
        case None => None
        case Some(tail) => Some(head + tail)
  }

  function ExpandOne(sel: Selection, frags: Fragments, stack: set<string>): Option<seq<Tree>>
    decreases |frags.Keys - stack|, sel
  {
    if sel.spread != "" then
      if sel.spread in stack || sel.spread !in frags then None
      else
        FewerLeft(frags, stack, sel.spread);
        Expand(frags[sel.spread], frags, stack + {sel.spread})
    else if sel.inlined then Expand(sel.children, frags, stack)
    else if sel.field == "" then Some([])
    else
      match Expand(sel.children, frags, stack)
      case None => None
      case Some(kids) => Some([Node(sel.field, kids, sel.children != [])])
  }

  lemma FewerLeft(frags: Fragments, stack: set<string>, name: string)
    requires name in frags && name !in stack
    ensures |frags.Keys - (stack + {name})| < |frags.Keys - stack|
  {
    assert frags.Keys - stack == (frags.Keys - (stack + {name})) + {name};
  }

  /** What a tree is measured by; reach is the deepest selection set there is, even an empty one. */
  datatype Totals = Totals(complexity: nat, depth: nat, paths: set<string>, introspection: bool, reach: nat)

  function Max(a: nat, b: nat): nat { if a < b then b else a }

  function Join(a: Totals, b: Totals): Totals {
    Totals(a.complexity + b.complexity, Max(a.depth, b.depth), a.paths + b.paths,
           a.introspection || b.introspection, Max(a.reach, b.reach))
  }

  predicate IsIntrospection(field: string) { field == "__schema" || field == "__type" }

  /** Number of fields, deepest field, dotted paths: of trees standing at the given path and depth. */
  function Measure(ts: seq<Tree>, prefix: string, depth: nat): Totals {
    if ts == [] then Totals(0, 0, {}, false, depth)
    else Join(MeasureOne(ts[0], prefix, depth), Measure(ts[1..], prefix, depth))
  }

  function MeasureOne(t: Tree, prefix: string, depth: nat): Totals {
    var path := prefix + "." + t.field;
    var self := Totals(1, depth, {path}, IsIntrospection(t.field), depth);
    var kids := Measure(t.children, path, depth + 1);
    Join(self, if t.hasSet then kids else kids.(reach := depth))
  }

  /** The totals stay within the analyser's absolute limits. */
  predicate Fits(t: Totals) {
    t.reach <= MAX_DEPTH && t.complexity <= MAX_COMPLEXITY && |t.paths| <= MAX_FIELDS
  }

  // ------------------------------------------------------------ the walk

  /** The accumulators the walk updates; fields lists each path once, in order of first sight. */
  datatype Acc = Acc(fields: seq<string>, complexity: nat, maxDepth: nat, introspection: bool)

  predicate Distinct(fields: seq<string>) {
    forall i, j :: 0 <= i < j < |fields| ==> fields[i] != fields[j]
  }

  function PathSet(fields: seq<string>): set<string> { set p | p in fields }

  /** One field met at the given path and depth; None when a limit is exceeded. */
  function Note(acc: Acc, field: string, path: string, depth: nat): Option<Acc> {
    if acc.complexity + 1 > MAX_COMPLEXITY then None
    else if path !in acc.fields && |acc.fields| >= MAX_FIELDS then None
    else Some(Acc(if path in acc.fields then acc.fields else acc.fields + [path], acc.complexity + 1,
                  Max(acc.maxDepth, depth), acc.introspection || IsIntrospection(field)))
  }

  function Walk(acc: Acc, sels: seq<Selection>, frags: Fragments, prefix: string, depth: nat, stack: set<string>): Option<Acc>
    decreases |frags.Keys - stack|, sels, 1
  {
    if depth > MAX_DEPTH then None else WalkFrom(acc, sels, frags, prefix, depth, stack)
  }

  function WalkFrom(acc: Acc, sels: seq<Selection>, frags: Fragments, prefix: string, depth: nat, stack: set<string>): Option<Acc>
    decreases |frags.Keys - stack|, sels, 0
  {
    if sels == [] then Some(acc)
    else
      match WalkOne(acc, sels[0], frags, prefix, depth, stack)
      case None => None
      case Some(acc') => WalkFrom(acc', sels[1..], frags, prefix, depth, stack)
  }

  function WalkOne(acc: Acc, sel: Selection, frags: Fragments, prefix: string, depth: nat, stack: set<string>): Option<Acc>
    decreases |frags.Keys - stack|, sel
  {
    if sel.spread != "" then
      if sel.spread in stack || sel.spread !in frags then None
      else
        FewerLeft(frags, stack, sel.spread);
        Walk(acc, frags[sel.spread], frags, prefix, depth, stack + {sel.spread})
    else if sel.inlined then Walk(acc, sel.children, frags, prefix, depth, stack)
    else if sel.field == "" then Some(acc)
    else
      match Note(acc, sel.field, prefix + "." + sel.field, depth)
      case None => None
      case Some(acc') =>
        if sel.children == [] then Some(acc')
        else Walk(acc', sel.children, frags, prefix + "." + sel.field, depth + 1, stack)
  }

  // ------------------------------------------------------------ the walk measures the expansion

  /** What the accumulators hold, as totals. */
  function AsTotals(acc: Acc, reach: nat): Totals {
    Totals(acc.complexity, acc.maxDepth, PathSet(acc.fields), acc.introspection, reach)
  }

  ghost predicate AccOk(acc: Acc) {
    Distinct(acc.fields) && acc.complexity <= MAX_COMPLEXITY && |acc.fields| <= MAX_FIELDS
  }

  /** The walk's outcome is the accumulators joined with the totals t, if those fit the limits. */
  ghost predicate Adds(acc: Acc, out: Option<Acc>, expansion: Option<Totals>, depth: nat) {
    if expansion.None? then out == None
    else
      var sum := Join(AsTotals(acc, depth), expansion.value);
      && (out.Some? <==> Fits(sum))
      && (out.Some? ==> AccOk(out.value) && AsTotals(out.value, sum.reach) == sum)
  }

  function Totalled(ts: Option<seq<Tree>>, prefix: string, depth: nat): Option<Totals> {
    if ts.None? then None else Some(Measure(ts.value, prefix, depth))
  }

  lemma PathCount(fields: seq<string>)
    requires Distinct(fields)
    ensures |PathSet(fields)| == |fields|
  {
    if fields == [] {
    } else {
      var n := |fields| - 1;
      PathCount(fields[..n]);
      assert fields == fields[..n] + [fields[n]];
      assert PathSet(fields) == PathSet(fields[..n]) + {fields[n]};
      assert fields[n] !in fields[..n];
    }
  }

  lemma {:induction false} ReachAtLeast(ts: seq<Tree>, prefix: string, depth: nat)
    ensures Measure(ts, prefix, depth).reach >= depth
  {
    if ts != [] {
      ReachAtLeast(ts[1..], prefix, depth);
    }
  }

  lemma {:induction false} MeasureConcat(a: seq<Tree>, b: seq<Tree>, prefix: string, depth: nat)
    ensures Measure(a + b, prefix, depth) == Join(Measure(a, prefix, depth), Measure(b, prefix, depth))
  {
    if a == [] {
      assert a + b == b;
      ReachAtLeast(b, prefix, depth);
    } else {
      assert (a + b)[0] == a[0] && (a + b)[1..] == a[1..] + b;
      MeasureConcat(a[1..], b, prefix, depth);
      var p, q, r := MeasureOne(a[0], prefix, depth), Measure(a[1..], prefix, depth), Measure(b, prefix, depth);
      assert Join(p, Join(q, r)) == Join(Join(p, q), r);
    }
  }

  lemma FitsSplits(a: Totals, b: Totals)
    requires Fits(Join(a, b))
    ensures Fits(a) && Fits(b)
  {
    Fewer(a.paths, a.paths + b.paths);
    Fewer(b.paths, a.paths + b.paths);
  }

  /** Noting a field adds exactly one field's worth to the totals. */
  lemma Notes(acc: Acc, field: string, path: string, depth: nat)
    requires AccOk(acc) && depth <= MAX_DEPTH
    ensures Adds(acc, Note(acc, field, path, depth),
                 Some(Totals(1, depth, {path}, IsIntrospection(field), depth)), depth)
    ensures Note(acc, field, path, depth).Some? ==> AccOk(Note(acc, field, path, depth).value)
  {
    var out := if path in acc.fields then acc.fields else acc.fields + [path];
    assert PathSet(out) == PathSet(acc.fields) + {path} && Distinct(out);
    PathCount(acc.fields);
    PathCount(out);
    hide PathSet;
  }

  /** Two stretches of the walk, one after the other; the second may stand deeper. */
  lemma Stretch(acc: Acc, mid: Option<Acc>, out: Option<Acc>, first: Totals, second: Option<Totals>, depth: nat, inner: nat)
    requires AccOk(acc) && Adds(acc, mid, Some(first), depth) && depth <= MAX_DEPTH
    requires first.reach >= depth
    requires second.Some? ==> second.value.reach >= inner
    requires if mid.None? then out == None else Adds(mid.value, out, second, inner)
    ensures Adds(acc, out, if second.None? then None else Some(Join(first, second.value)), depth)
  {
    if second.Some? {
      var start := AsTotals(acc, depth);
      var sum := Join(start, Join(first, second.value));
      assert sum == Join(Join(start, first), second.value);
      if mid.None? {
        if Fits(sum) {
          FitsSplits(Join(start, first), second.value);
          assert false;
        }
      } else {
        var rest := Join(AsTotals(mid.value, inner), second.value);
        assert sum == rest.(reach := sum.reach);
      }
    }
  }

  /**
    The walk succeeds exactly when every spread can be expanded and the expanded tree fits the limits,
    and then its accumulators have grown by the measures of that tree.
   */
  lemma {:induction false} WalkMeasures(acc: Acc, sels: seq<Selection>, frags: Fragments, prefix: string, depth: nat, stack: set<string>)
    requires AccOk(acc) && depth <= MAX_DEPTH
    ensures Adds(acc, WalkFrom(acc, sels, frags, prefix, depth, stack),
                 Totalled(Expand(sels, frags, stack), prefix, depth), depth)
    decreases |frags.Keys - stack|, sels, 0
  {
    if sels == [] {
      PathCount(acc.fields);
    } else {
      WalkOneMeasures(acc, sels[0], frags, prefix, depth, stack);
      var mid := WalkOne(acc, sels[0], frags, prefix, depth, stack);
      var head, tail := ExpandOne(sels[0], frags, stack), Expand(sels[1..], frags, stack);
      if head.Some? {
        if mid.Some? {
          WalkMeasures(mid.value, sels[1..], frags, prefix, depth, stack);
        }
        ReachAtLeast(head.value, prefix, depth);
        var second := Totalled(tail, prefix, depth);
        var first := Measure(head.value, prefix, depth);
        if tail.Some? {
          ReachAtLeast(tail.value, prefix, depth);
          MeasureConcat(head.value, tail.value, prefix, depth);
        }
        Stretch(acc, mid, WalkFrom(acc, sels, frags, prefix, depth, stack), first, second, depth, depth);
      }
    }
  }

  lemma {:induction false} WalkOneMeasures(acc: Acc, sel: Selection, frags: Fragments, prefix: string, depth: nat, stack: set<string>)
    requires AccOk(acc) && depth <= MAX_DEPTH
    ensures Adds(acc, WalkOne(acc, sel, frags, prefix, depth, stack),
                 Totalled(ExpandOne(sel, frags, stack), prefix, depth), depth)
    decreases |frags.Keys - stack|, sel
  {
    if sel.spread != "" {
      hide Adds, Measure;
      if sel.spread !in stack && sel.spread in frags {
        FewerLeft(frags, stack, sel.spread);
        WalkMeasures(acc, frags[sel.spread], frags, prefix, depth, stack + {sel.spread});
      } else {
        NothingFound(acc, depth);
      }
    } else if sel.inlined {
      hide Adds, Measure;
      WalkMeasures(acc, sel.children, frags, prefix, depth, stack);
    } else if sel.field == "" {
      PathCount(acc.fields);
    } else {
      hide Adds, Measure;
      FieldMeasures(acc, sel, frags, prefix, depth, stack);
    }
  }

  lemma NothingFound(acc: Acc, depth: nat)
    ensures Adds(acc, None, None, depth)
  {
  }

  /** Past the deepest level allowed nothing fits. */
  lemma TooDeep(acc: Acc, second: Totals, inner: nat)
    requires inner > MAX_DEPTH && second.reach >= inner
    ensures Adds(acc, None, Some(second), inner)
  {
  }

  lemma {:induction false} FieldMeasures(acc: Acc, sel: Selection, frags: Fragments, prefix: string, depth: nat, stack: set<string>)
    requires AccOk(acc) && depth <= MAX_DEPTH
    requires sel.spread == "" && !sel.inlined && sel.field != ""
    ensures Adds(acc, WalkOne(acc, sel, frags, prefix, depth, stack),
                 Totalled(ExpandOne(sel, frags, stack), prefix, depth), depth)
    decreases |frags.Keys - stack|, sel, 0
  {
    hide Adds, Note, Measure, WalkFrom;
    var path := prefix + "." + sel.field;
    var mid := Note(acc, sel.field, path, depth);
    var self := Totals(1, depth, {path}, IsIntrospection(sel.field), depth);
    Notes(acc, sel.field, path, depth);
    var out := WalkOne(acc, sel, frags, prefix, depth, stack);
    var kids := Expand(sel.children, frags, stack);
    if kids.Some? {
      var node := Node(sel.field, kids.value, sel.children != []);
      SingleMeasure(node, prefix, depth);
      var inside := Measure(kids.value, path, depth + 1);
      if sel.children == [] {
        assert kids == Some([]);
        EmptyMeasure(path, depth + 1);
        assert MeasureOne(node, prefix, depth) == self;
      } else {
        ReachAtLeast(kids.value, path, depth + 1);
        assert MeasureOne(node, prefix, depth) == Join(self, inside);
        Deeper(mid, sel.children, frags, path, depth + 1, stack);
        Stretch(acc, mid, out, self, Some(inside), depth, depth + 1);
      }
    } else {
      if sel.children != [] {
        Deeper(mid, sel.children, frags, path, depth + 1, stack);
      }
      NothingFound(acc, depth);
    }
  }

  /** The children of a field, when it was noted at all. */
  lemma {:induction false} Deeper(mid: Option<Acc>, sels: seq<Selection>, frags: Fragments, path: string, depth: nat, stack: set<string>)
    requires mid.Some? ==> AccOk(mid.value)
    ensures mid.Some? ==> Adds(mid.value, Walk(mid.value, sels, frags, path, depth, stack),
                               Totalled(Expand(sels, frags, stack), path, depth), depth)
    decreases |frags.Keys - stack|, sels, 1
  {
    if mid.Some? {
      if depth > MAX_DEPTH {
        if Expand(sels, frags, stack).Some? {
          ReachAtLeast(Expand(sels, frags, stack).value, path, depth);
          TooDeep(mid.value, Measure(Expand(sels, frags, stack).value, path, depth), depth);
        }
      } else {
        WalkMeasures(mid.value, sels, frags, path, depth, stack);
      }
    }
  }

  lemma EmptyMeasure(prefix: string, depth: nat)
    ensures Measure([], prefix, depth) == Totals(0, 0, {}, false, depth)
  {
  }

  lemma SingleMeasure(t: Tree, prefix: string, depth: nat)
    ensures Measure([t], prefix, depth) == MeasureOne(t, prefix, depth)
  {
    assert [t][1..] == [];
    ReachAtLeast(t.children, prefix + "." + t.field, depth + 1);
  }

  // ------------------------------------------------------------ the analyser

  datatype Analysis = Analysis(operationType: string, operationName: string, depth: nat, complexity: nat,
                               fields: set<string>, variables: map<string, string>, introspection: bool)

  function FirstNamed(ops: seq<Operation>, name: string): Option<Operation> {
    if ops == [] then None else if ops[0].name == name then Some(ops[0]) else FirstNamed(ops[1..], name)
  }

  /** ops[i] has the name, and no operation before it. */
  ghost predicate FirstAt(ops: seq<Operation>, name: string, i: int) {
    0 <= i < |ops| && ops[i].name == name && forall j :: 0 <= j < i ==> ops[j].name != name
  }

  /** The operation an analysis is about: the first with the name asked for, or without a name the only one. */
  ghost predicate Meant(doc: Document, name: string, i: int) {
    if name == "" then i == 0 && |doc.operations| == 1 else FirstAt(doc.operations, name, i)
  }

  /** The operation asked for by name, or the only one there is. */
  function Chosen(doc: Document, name: string): Option<Operation> {
    if name != "" then FirstNamed(doc.operations, name)
    else if |doc.operations| == 1 then Some(doc.operations[0])
    else None
  }

  /** What an analysis means: the measures of the expanded operation, when it expands and fits. */
  function Analysed(doc: Document, name: string): Option<Analysis> {
    match Chosen(doc, name)
    case None => None
    case Some(op) =>
      match Expand(op.selections, doc.fragments, {})
      case None => None
      case Some(ts) =>
        var t := Measure(ts, op.typ, 1);
        if !Fits(t) then None
        else Some(Analysis(op.typ, op.name, t.depth, t.complexity, t.paths, op.variables, t.introspection))
  }

  ghost predicate Reports(a: Analysis, op: Operation) {
    a.operationType == op.typ && a.operationName == op.name && a.variables == op.variables
  }

  const EMPTY_ACC := Acc([], 0, 0, false)

  class Analyzer {
    var fields: seq<string>
    var seen: set<string>
    var complexity: nat
    var maxDepth: nat
    var introspection: bool

    function State(): Acc reads this { Acc(fields, complexity, maxDepth, introspection) }

    ghost predicate Valid() reads this { seen == PathSet(fields) }

    constructor ()
      ensures Valid() && State() == EMPTY_ACC
    {
      fields, seen, complexity, maxDepth, introspection := [], {}, 0, 0, false;
    }

    /** One field; false when a limit is exceeded, as Note has it. */
    method NoteField(field: string, path: string, depth: nat) returns (ok: bool)
      requires Valid()
      modifies this
      ensures Valid()
      ensures ok <==> Note(old(State()), field, path, depth).Some?
      ensures ok ==> Some(State()) == Note(old(State()), field, path, depth)
    {
      complexity := complexity + 1;
      if complexity > MAX_COMPLEXITY { return false; }
      if path !in seen {
        if |fields| >= MAX_FIELDS { return false; }
        seen := seen + {path};
        fields := fields + [path];
      }
      if field == "__schema" || field == "__type" { introspection := true; }
      if depth > maxDepth { maxDepth := depth; }
      return true;
    }

    /** The recursive walk; cyclic spreads are refused, so it ends on every document. */
    method WalkSelections(sels: seq<Selection>, frags: Fragments, prefix: string, depth: nat, stack: set<string>)
      returns (ok: bool)
      requires Valid()
      modifies this
      ensures Valid()
      ensures ok <==> Walk(old(State()), sels, frags, prefix, depth, stack).Some?
      ensures ok ==> Some(State()) == Walk(old(State()), sels, frags, prefix, depth, stack)
      decreases |frags.Keys - stack|, sels
    {
      if depth > MAX_DEPTH { return false; }
      ghost var goal := WalkFrom(State(), sels, frags, prefix, depth, stack);
      var i := 0;
      while i < |sels|
        invariant 0 <= i <= |sels| && Valid()
        invariant goal == WalkFrom(State(), sels[i..], frags, prefix, depth, stack)
      {
        var sel := sels[i];
        assert sels[i..][0] == sel && sels[i..][1..] == sels[i + 1..];
        ghost var before := State();
        if sel.spread != "" {
          if sel.spread in stack || sel.spread !in frags { return false; }
          FewerLeft(frags, stack, sel.spread);
          ok := WalkSelections(frags[sel.spread], frags, prefix, depth, stack + {sel.spread});
          if !ok { return; }
        } else if sel.inlined {
          ok := WalkSelections(sel.children, frags, prefix, depth, stack);
          if !ok { return; }
        } else if sel.field != "" {
          var path := prefix + "." + sel.field;
          ok := NoteField(sel.field, path, depth);
          if !ok { return; }
          if |sel.children| > 0 {
            ok := WalkSelections(sel.children, frags, path, depth + 1, stack);
            if !ok { return; }
          }
        }
        assert WalkOne(before, sel, frags, prefix, depth, stack) == Some(State());
        i := i + 1;
      }
      return true;
    }
  }

  method FindOperation(ops: seq<Operation>, name: string) returns (op: Option<Operation>)
    ensures op == FirstNamed(ops, name)
    ensures op.None? <==> forall i :: 0 <= i < |ops| ==> ops[i].name != name
    ensures op.Some? ==> exists i :: FirstAt(ops, name, i) && op.value == ops[i]
  {
    var i := 0;
    while i < |ops|
      invariant 0 <= i <= |ops| && FirstNamed(ops, name) == FirstNamed(ops[i..], name)
      invariant forall j :: 0 <= j < i ==> ops[j].name != name
    {
      if ops[i].name == name {
        assert FirstAt(ops, name, i);
        return Some(ops[i]);
      }
      assert ops[i..][1..] == ops[i + 1..];
      i := i + 1;
    }
    return None;
  }

  /** The analyser computes the measures of the expanded operation, though it never expands it. */
  method Analyze(doc: Document, name: string) returns (result: Option<Analysis>)
    ensures result == Analysed(doc, name)
    ensures result.Some? && name != "" ==> result.value.operationName == name
    ensures result.Some? ==> exists i :: Meant(doc, name, i) && Reports(result.value, doc.operations[i])
  {
    var op: Option<Operation>;
    if name != "" {
      op := FindOperation(doc.operations, name);
    } else if |doc.operations| == 1 {
      op := Some(doc.operations[0]);
    } else {
      return None;
    }
    if op.None? { return None; }
    var o := op.value;
    var analyzer := new Analyzer();
    var ok := analyzer.WalkSelections(o.selections, doc.fragments, o.typ, 1, {});
    WalkMeasuresAll(o.selections, doc.fragments, o.typ);
    if !ok { return None; }
    ghost var i :| Meant(doc, name, i) && o == doc.operations[i];
    return Some(Analysis(o.typ, o.name, analyzer.maxDepth, analyzer.complexity, PathSet(analyzer.fields),
                         o.variables, analyzer.introspection));
  }

  /** The whole walk, from empty accumulators at depth one. */
  lemma WalkMeasuresAll(sels: seq<Selection>, frags: Fragments, typ: string)
    ensures FromEmpty(Walk(EMPTY_ACC, sels, frags, typ, 1, {}), Totalled(Expand(sels, frags, {}), typ, 1))
  {
    WalkMeasures(EMPTY_ACC, sels, frags, typ, 1, {});
    var expanded := Expand(sels, frags, {});
    if expanded.Some? {
      ReachAtLeast(expanded.value, typ, 1);
    }
    AddsToEmpty(WalkFrom(EMPTY_ACC, sels, frags, typ, 1, {}), Totalled(expanded, typ, 1));
  }

  ghost predicate FromEmpty(out: Option<Acc>, t: Option<Totals>) {
    && (out.Some? <==> t.Some? && Fits(t.value))
    && (out.Some? ==> AsTotals(out.value, t.value.reach) == t.value)
  }

  lemma AddsToEmpty(out: Option<Acc>, t: Option<Totals>)
    requires Adds(EMPTY_ACC, out, t, 1)
    requires t.Some? ==> t.value.reach >= 1
    ensures FromEmpty(out, t)
  {
    if t.Some? {
      assert Join(AsTotals(EMPTY_ACC, 1), t.value) == t.value;
    }
  }
}
