/**
  What the measures of an analysis mean: which paths, depths and introspection fields there are, told by
  the chains of fields that lead from the root of the expanded operation into it.
 */
module GraphqlMeasures {
  import opened Common
  import opened GraphqlDocument
  import opened GraphqlAnalysis

  /**
    The names lead from one of the trees downwards, each to a child of the one before; when open, every field on
    the way was written with a selection set.
   */
  ghost predicate IsChain(ts: seq<Tree>, names: seq<string>, open: bool)
    requires names != []
    decreases |names|, 1
  {
    exists i :: 0 <= i < |ts| && Follows(ts[i], names, open)
  }

  ghost predicate Follows(t: Tree, names: seq<string>, open: bool)
    requires names != []
    decreases |names|, 0
  {
    t.field == names[0] && (open ==> t.hasSet) && (|names| > 1 ==> IsChain(t.children, names[1..], open))
  }

  function Dotted(prefix: string, names: seq<string>): string
    decreases |names|
  {
    if names == [] then prefix else Dotted(prefix + "." + names[0], names[1..])
  }

  function Nodes(ts: seq<Tree>): nat {
    if ts == [] then 0 else 1 + Nodes(ts[0].children) + Nodes(ts[1..])
  }

  lemma {:induction false} MeasureOfMember(ts: seq<Tree>, i: nat, prefix: string, depth: nat)
    requires i < |ts|
    ensures var one, all := MeasureOne(ts[i], prefix, depth), Measure(ts, prefix, depth);
      one.paths <= all.paths && one.depth <= all.depth && (one.introspection ==> all.introspection) && one.reach <= all.reach
  {
    if i > 0 {
      assert ts[1..][i - 1] == ts[i];
      MeasureOfMember(ts[1..], i - 1, prefix, depth);
    }
  }

  /** Every chain is measured: its dotted path, its length, and an introspection field at its end. */
  lemma {:induction false} ChainsAreMeasured(ts: seq<Tree>, names: seq<string>, prefix: string, depth: nat)
    requires names != [] && IsChain(ts, names, false)
    ensures var m := Measure(ts, prefix, depth);
      && Dotted(prefix, names) in m.paths
      && depth + |names| - 1 <= m.depth
      && (IsIntrospection(names[|names| - 1]) ==> m.introspection)
    decreases |names|
  {
    var i :| 0 <= i < |ts| && Follows(ts[i], names, false);
    MeasureOfMember(ts, i, prefix, depth);
    var path := prefix + "." + names[0];
    if |names| == 1 {
      assert Dotted(path, names[1..]) == path;
    } else {
      ChainsAreMeasured(ts[i].children, names[1..], path, depth + 1);
    }
  }

  lemma Deeper(ts: seq<Tree>, names: seq<string>, open: bool)
    requires ts != [] && names != [] && IsChain(ts[0].children, names, open) && (open ==> ts[0].hasSet)
    ensures IsChain(ts, [ts[0].field] + names, open)
  {
    assert ([ts[0].field] + names)[1..] == names;
    assert Follows(ts[0], [ts[0].field] + names, open);
  }

  lemma Later(ts: seq<Tree>, names: seq<string>, open: bool)
    requires ts != [] && names != [] && IsChain(ts[1..], names, open)
    ensures IsChain(ts, names, open)
  {
    var i :| 0 <= i < |ts[1..]| && Follows(ts[1..][i], names, open);
    assert ts[i + 1] == ts[1..][i];
  }

  lemma Single(ts: seq<Tree>, open: bool)
    requires ts != [] && (open ==> ts[0].hasSet)
    ensures IsChain(ts, [ts[0].field], open)
  {
    assert Follows(ts[0], [ts[0].field], open);
  }

  /** Every measured path is the dotted path of a chain. */
  lemma {:induction false} ChainOfPath(ts: seq<Tree>, prefix: string, depth: nat, p: string) returns (names: seq<string>)
    requires p in Measure(ts, prefix, depth).paths
    ensures names != [] && IsChain(ts, names, false) && Dotted(prefix, names) == p
  {
    var path := prefix + "." + ts[0].field;
    hide IsChain, Follows;
    if p == path {
      names := [ts[0].field];
      Single(ts, false);
      assert Dotted(path, names[1..]) == path;
    } else if p in Measure(ts[0].children, path, depth + 1).paths {
      var below := ChainOfPath(ts[0].children, path, depth + 1, p);
      Deeper(ts, below, false);
      names := [ts[0].field] + below;
      assert names[1..] == below;
    } else {
      names := ChainOfPath(ts[1..], prefix, depth, p);
      Later(ts, names, false);
    }
  }

  /** The depth is that of the end of some chain. */
  lemma {:induction false} ChainOfDepth(ts: seq<Tree>, prefix: string, depth: nat) returns (names: seq<string>)
    requires ts != [] && depth >= 1
    ensures names != [] && IsChain(ts, names, false) && Measure(ts, prefix, depth).depth == depth + |names| - 1
  {
    var path := prefix + "." + ts[0].field;
    hide IsChain, Follows;
    names := [ts[0].field];
    Single(ts, false);
    if ts[0].children != [] {
      var below := ChainOfDepth(ts[0].children, path, depth + 1);
      Deeper(ts, below, false);
      names := names + below;
    }
    assert MeasureOne(ts[0], prefix, depth).depth == depth + |names| - 1;
    if ts[1..] != [] {
      var later := ChainOfDepth(ts[1..], prefix, depth);
      Later(ts, later, false);
      names := if |names| < |later| then later else names;
    }
  }

  /** An introspection flag has a chain that ends in an introspection field. */
  lemma {:induction false} ChainOfIntrospection(ts: seq<Tree>, prefix: string, depth: nat) returns (names: seq<string>)
    requires Measure(ts, prefix, depth).introspection
    ensures names != [] && IsChain(ts, names, false) && (names[|names| - 1] == "__schema" || names[|names| - 1] == "__type")
  {
    var path := prefix + "." + ts[0].field;
    hide IsChain, Follows;
    if IsIntrospection(ts[0].field) {
      names := [ts[0].field];
      Single(ts, false);
    } else if Measure(ts[0].children, path, depth + 1).introspection {
      var below := ChainOfIntrospection(ts[0].children, path, depth + 1);
      Deeper(ts, below, false);
      names := [ts[0].field] + below;
    } else {
      names := ChainOfIntrospection(ts[1..], prefix, depth);
      Later(ts, names, false);
    }
  }

  /** The deepest selection set lies below the end of an open chain. */
  lemma {:induction false} OpenChainsReach(ts: seq<Tree>, names: seq<string>, prefix: string, depth: nat)
    requires names != [] && IsChain(ts, names, true)
    ensures depth + |names| <= Measure(ts, prefix, depth).reach
    decreases |names|
  {
    var i :| 0 <= i < |ts| && Follows(ts[i], names, true);
    MeasureOfMember(ts, i, prefix, depth);
    var path := prefix + "." + names[0];
    if |names| == 1 {
      ReachAtLeast(ts[i].children, path, depth + 1);
    } else {
      OpenChainsReach(ts[i].children, names[1..], path, depth + 1);
    }
  }

  lemma {:induction false} ChainOfReach(ts: seq<Tree>, prefix: string, depth: nat) returns (names: seq<string>)
    requires Measure(ts, prefix, depth).reach > depth
    ensures names != [] && IsChain(ts, names, true) && Measure(ts, prefix, depth).reach == depth + |names|
  {
    var path := prefix + "." + ts[0].field;
    var below, later := Measure(ts[0].children, path, depth + 1), Measure(ts[1..], prefix, depth);
    hide IsChain, Follows;
    if ts[0].hasSet && below.reach >= later.reach {
      names := [ts[0].field];
      Single(ts, true);
      ReachAtLeast(ts[0].children, path, depth + 1);
      if below.reach > depth + 1 {
        var rest := ChainOfReach(ts[0].children, path, depth + 1);
        Deeper(ts, rest, true);
        names := names + rest;
      }
    } else {
      names := ChainOfReach(ts[1..], prefix, depth);
      Later(ts, names, true);
    }
  }

  lemma {:induction false} ComplexityCounts(ts: seq<Tree>, prefix: string, depth: nat)
    ensures Measure(ts, prefix, depth).complexity == Nodes(ts)
  {
    if ts != [] {
      ComplexityCounts(ts[0].children, prefix + "." + ts[0].field, depth + 1);
      ComplexityCounts(ts[1..], prefix, depth);
    }
  }

  lemma {:induction false} FirstIsFirst(ops: seq<Operation>, name: string)
    ensures FirstNamed(ops, name).Some? ==> exists i :: FirstAt(ops, name, i) && FirstNamed(ops, name).value == ops[i]
    ensures FirstNamed(ops, name).None? ==> forall i :: 0 <= i < |ops| ==> ops[i].name != name
  {
    if ops != [] {
      if ops[0].name == name {
        assert FirstAt(ops, name, 0);
      } else {
        FirstIsFirst(ops[1..], name);
        if FirstNamed(ops, name).Some? {
          var i :| FirstAt(ops[1..], name, i) && FirstNamed(ops, name).value == ops[1..][i];
          assert FirstAt(ops, name, i + 1);
        }
      }
    }
  }

  lemma ChosenIsMeant(doc: Document, name: string)
    ensures Chosen(doc, name).Some? ==> exists i :: Meant(doc, name, i) && Chosen(doc, name).value == doc.operations[i]
    ensures Chosen(doc, name).None? ==> forall i :: !Meant(doc, name, i)
  {
    FirstIsFirst(doc.operations, name);
    hide FirstNamed;
    if name == "" && |doc.operations| == 1 {
      assert Meant(doc, name, 0);
    }
  }

  /** Fields of the trees at all depths, told apart by the chains of names that lead to them. */
  ghost predicate MeasuredBy(a: Analysis, typ: string, ts: seq<Tree>) {
    && (forall p :: p in a.fields <==> exists names :: names != [] && IsChain(ts, names, false) && p == Dotted(typ, names))
    && (forall names :: names != [] && IsChain(ts, names, false) ==> |names| <= a.depth)
    && (if ts == [] then a.depth == 0 else exists names :: names != [] && IsChain(ts, names, false) && |names| == a.depth)
    && (a.introspection <==> exists names :: names != [] && IsChain(ts, names, false) && AtIntrospection(names))
    && a.complexity == Nodes(ts)
  }

  predicate AtIntrospection(names: seq<string>) requires names != [] {
    names[|names| - 1] == "__schema" || names[|names| - 1] == "__type"
  }

  /**
    An analysis is about the operation that was meant, and reports exactly its fields once all fragments are
    replaced: one path for each chain of fields, the length of the longest chain as the depth, how many fields
    there are as the complexity, and introspection when some chain ends in __schema or __type.
   */
  lemma AnalysisReports(doc: Document, name: string, a: Analysis) returns (i: nat, ts: seq<Tree>)
    requires Analysed(doc, name) == Some(a)
    ensures Meant(doc, name, i) && Reports(a, doc.operations[i])
    ensures Expand(doc.operations[i].selections, doc.fragments, {}) == Some(ts)
    ensures MeasuredBy(a, doc.operations[i].typ, ts)
  {
    ChosenIsMeant(doc, name);
    i :| Meant(doc, name, i) && Chosen(doc, name).value == doc.operations[i];
    ts := Expand(doc.operations[i].selections, doc.fragments, {}).value;
    hide IsChain, Measure, Dotted, Expand, Chosen, Meant;
    TotalsAreMeasures(a, doc.operations[i].typ, ts);
  }

  lemma TotalsAreMeasures(a: Analysis, typ: string, ts: seq<Tree>)
    requires var t := Measure(ts, typ, 1);
      a.complexity == t.complexity && a.depth == t.depth && a.fields == t.paths && a.introspection == t.introspection
    ensures MeasuredBy(a, typ, ts)
  {
    ComplexityCounts(ts, typ, 1);
    hide IsChain, Measure, Dotted;
    forall p | p in a.fields ensures exists names :: names != [] && IsChain(ts, names, false) && p == Dotted(typ, names) {
      var names := ChainOfPath(ts, typ, 1, p);
    }
    forall names | names != [] && IsChain(ts, names, false)
      ensures Dotted(typ, names) in a.fields && |names| <= a.depth && (AtIntrospection(names) ==> a.introspection)
    {
      ChainsAreMeasured(ts, names, typ, 1);
    }
    if ts != [] {
      var names := ChainOfDepth(ts, typ, 1);
    } else {
      EmptyMeasure(typ, 1);
    }
    if a.introspection {
      var names := ChainOfIntrospection(ts, typ, 1);
      assert AtIntrospection(names);
    }
  }

  /**
    When an analysis is refused: no operation was meant, a spread is unknown or cyclic, there are more fields or
    paths than allowed, or sixty-four fields lie one in the other, all written with a selection set.
   */
  lemma RefusedExactly(doc: Document, name: string)
    ensures Analysed(doc, name).Some? <==> exists i, ts ::
      && Meant(doc, name, i) && Expand(doc.operations[i].selections, doc.fragments, {}) == Some(ts)
      && Nodes(ts) <= 10000 && |Measure(ts, doc.operations[i].typ, 1).paths| <= 2048
      && forall names :: |names| >= 64 ==> !IsChain(ts, names, true)
  {
    ChosenIsMeant(doc, name);
    forall i | Meant(doc, name, i) ensures Chosen(doc, name) == Some(doc.operations[i]) {
      assert Chosen(doc, name).Some?;
    }
    hide IsChain, Measure, Chosen, Meant, Expand;
    if Chosen(doc, name).Some? {
      var i :| Meant(doc, name, i) && Chosen(doc, name).value == doc.operations[i];
      var op := doc.operations[i];
      if Expand(op.selections, doc.fragments, {}).Some? {
        var ts := Expand(op.selections, doc.fragments, {}).value;
        ComplexityCounts(ts, op.typ, 1);
        ReachExactly(ts, op.typ);
      }
    }
  }

  lemma ReachExactly(ts: seq<Tree>, typ: string)
    ensures Measure(ts, typ, 1).reach <= 64 <==> forall names :: |names| >= 64 ==> !IsChain(ts, names, true)
  {
    hide IsChain, Measure;
    forall names | |names| >= 64 && IsChain(ts, names, true) ensures Measure(ts, typ, 1).reach > 64 {
      OpenChainsReach(ts, names, typ, 1);
    }
    if Measure(ts, typ, 1).reach > 64 {
      var names := ChainOfReach(ts, typ, 1);
    }
  }
}
