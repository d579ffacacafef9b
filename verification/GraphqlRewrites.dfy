/**
  What the expansion specification gives a caller: rewriting an operation by inlining fragments and by
  reordering selections, at any depth, leaves its analysis alone; and an operation expands exactly when
  no chain of spreads from it comes to an undefined fragment or back to one of its own.
 */
module GraphqlRewrites {
  import opened Common
  import opened GraphqlDocument
  import opened GraphqlAnalysis

  // ------------------------------------------------------------ which operations expand

  /** The fragments a selection set spreads itself, through inline fragments and fields but not spreads. */
  function Spreads(sels: seq<Selection>): set<string>
    decreases sels
  {
    if sels == [] then {}
    else (if sels[0].spread != "" then {sels[0].spread}
          else if sels[0].inlined || sels[0].field != "" then Spreads(sels[0].children)
          else {})
         + Spreads(sels[1..])
  }

  /** names[0] is spread by sels, and each further name by the fragment named before it. */
  ghost predicate Chain(names: seq<string>, sels: seq<Selection>, frags: Fragments) {
    |names| > 0 && names[0] in Spreads(sels)
    && (|names| == 1 || (names[0] in frags && Chain(names[1..], frags[names[0]], frags)))
  }

  /** The chain ends at a fragment that is undefined, already open, or met before on the chain. */
  ghost predicate DeadEnd(names: seq<string>, frags: Fragments, stack: set<string>)
    requires |names| > 0
  {
    var last := names[|names| - 1];
    last !in frags || last in stack || last in names[..|names| - 1]
  }

  function SpreadExpansion(name: string, frags: Fragments, stack: set<string>): Option<seq<Tree>> {
    ExpandOne(Spread(name), frags, stack)
  }

  /** A selection set fails to expand exactly through one of its own spreads. */
  lemma {:induction false} FailsThroughASpread(sels: seq<Selection>, frags: Fragments, stack: set<string>)
    ensures Expand(sels, frags, stack).None?
            <==> exists name :: name in Spreads(sels) && name != "" && SpreadExpansion(name, frags, stack).None?
    decreases sels
  {
    if sels != [] {
      var head := sels[0];
      FailsThroughASpread(sels[1..], frags, stack);
      if head.spread == "" {
        FailsThroughASpread(head.children, frags, stack);
      } else {
        assert ExpandOne(head, frags, stack) == SpreadExpansion(head.spread, frags, stack);
      }
    }
  }

  lemma {:induction false} DeadEndFails(names: seq<string>, sels: seq<Selection>, frags: Fragments, stack: set<string>)
    requires Chain(names, sels, frags) && DeadEnd(names, frags, stack) && "" !in names
    ensures Expand(sels, frags, stack).None?
    decreases |names|
  {
    var name := names[0];
    FailsThroughASpread(sels, frags, stack);
    if name in frags && name !in stack {
      assert |names| > 1;
      var rest := names[1..];
      assert names[..|names| - 1] == [name] + rest[..|rest| - 1];
      DeadEndFails(rest, frags[name], frags, stack + {name});
      FewerLeft(frags, stack, name);
    }
    assert SpreadExpansion(name, frags, stack).None?;
  }

  lemma {:induction false} FailureHasADeadEnd(sels: seq<Selection>, frags: Fragments, stack: set<string>) returns (names: seq<string>)
    requires Expand(sels, frags, stack).None?
    ensures Chain(names, sels, frags) && DeadEnd(names, frags, stack) && "" !in names
    decreases |frags.Keys - stack|
  {
    FailsThroughASpread(sels, frags, stack);
    var name :| name in Spreads(sels) && name != "" && SpreadExpansion(name, frags, stack).None?;
    if name in stack || name !in frags {
      names := [name];
    } else {
      FewerLeft(frags, stack, name);
      var rest := FailureHasADeadEnd(frags[name], frags, stack + {name});
      names := [name] + rest;
      assert names[1..] == rest;
      assert names[..|names| - 1] == [name] + rest[..|rest| - 1];
    }
  }

  /** An operation is refused for its spreads exactly when some chain of them is undefined or cyclic. */
  lemma ExpandsExactly(sels: seq<Selection>, frags: Fragments)
    ensures Expand(sels, frags, {}).None?
            <==> exists names :: Chain(names, sels, frags) && "" !in names && DeadEnd(names, frags, {})
  {
    if Expand(sels, frags, {}).None? {
      var names := FailureHasADeadEnd(sels, frags, {});
    }
    forall names | Chain(names, sels, frags) && "" !in names && DeadEnd(names, frags, {})
      ensures Expand(sels, frags, {}).None?
    {
      DeadEndFails(names, sels, frags, {});
    }
  }

  // ------------------------------------------------------------ open fragments do not matter

  /** What expands with more fragments open expands alike with fewer. */
  lemma {:induction false} FewerOpen(sels: seq<Selection>, frags: Fragments, small: set<string>, big: set<string>)
    requires small <= big && Expand(sels, frags, big).Some?
    ensures Expand(sels, frags, small) == Expand(sels, frags, big)
    decreases |frags.Keys - big|, sels
  {
    if sels != [] {
      var head := sels[0];
      FewerOpen(sels[1..], frags, small, big);
      if head.spread != "" {
        FewerLeft(frags, big, head.spread);
        FewerOpen(frags[head.spread], frags, small + {head.spread}, big + {head.spread});
      } else if head.inlined || head.field != "" {
        FewerOpen(head.children, frags, small, big);
      }
      assert ExpandOne(head, frags, small) == ExpandOne(head, frags, big);
    }
  }

  /** Unless the fragment itself expands while it is open, opening it changes nothing that expands. */
  lemma {:induction false} MayOpen(sels: seq<Selection>, frags: Fragments, stack: set<string>, name: string)
    requires name in frags && name !in stack
    requires Expand(sels, frags, stack).Some?
    requires Expand(frags[name], frags, stack + {name}).None?
    ensures Expand(sels, frags, stack + {name}) == Expand(sels, frags, stack)
    decreases |frags.Keys - stack|, sels
  {
    if sels != [] {
      var head := sels[0];
      MayOpen(sels[1..], frags, stack, name);
      if head.spread != "" {
        assert head.spread != name;
        var more := stack + {head.spread};
        FewerLeft(frags, stack, head.spread);
        if Expand(frags[name], frags, more + {name}).Some? {
          FewerOpen(frags[name], frags, stack + {name}, more + {name});
          assert false;
        }
        MayOpen(frags[head.spread], frags, more, name);
        assert stack + {name} + {head.spread} == more + {name};
      } else if head.inlined || head.field != "" {
        MayOpen(head.children, frags, stack, name);
      }
      assert ExpandOne(head, frags, stack + {name}) == ExpandOne(head, frags, stack);
    }
  }

  /** A spread means what its fragment's selections mean, written in its place. */
  lemma SpreadMeansItsContents(name: string, frags: Fragments, stack: set<string>)
    requires name != "" && name in frags && name !in stack
    ensures ExpandOne(Spread(name), frags, stack) == ExpandOne(Inline(frags[name]), frags, stack)
  {
    var open := Expand(frags[name], frags, stack + {name});
    if open.Some? {
      FewerOpen(frags[name], frags, stack, stack + {name});
    } else if Expand(frags[name], frags, stack).Some? {
      MayOpen(frags[name], frags, stack, name);
      assert false;
    }
  }

  // ------------------------------------------------------------ inlining and reordering

  /** b is a with some spreads written out and the selections of any set put in another order. */
  ghost predicate Rewritten(a: seq<Selection>, b: seq<Selection>, frags: Fragments)
    decreases a, 1
  {
    exists p: seq<Selection> :: Pointwise(a, p, frags) && multiset(p) == multiset(b)
  }

  ghost predicate Pointwise(a: seq<Selection>, p: seq<Selection>, frags: Fragments)
    decreases a, 0
  {
    |a| == |p| && forall i :: 0 <= i < |a| ==> RewrittenOne(a[i], p[i], frags)
  }

  ghost predicate RewrittenOne(x: Selection, y: Selection, frags: Fragments)
    decreases x
  {
    || x == y
    || (x.spread != "" && x.spread in frags && y == Inline(frags[x.spread]))
    || (x.spread == "" && y == x.(children := y.children) && Rewritten(x.children, y.children, frags))
  }

  function TotalsOf(sels: seq<Selection>, frags: Fragments, prefix: string, depth: nat): Option<Totals> {
    Totalled(Expand(sels, frags, {}), prefix, depth)
  }

  function TotalsOfOne(sel: Selection, frags: Fragments, prefix: string, depth: nat): Option<Totals> {
    Totalled(ExpandOne(sel, frags, {}), prefix, depth)
  }

  function Both(a: Option<Totals>, b: Option<Totals>): Option<Totals> {
    if a.None? || b.None? then None else Some(Join(a.value, b.value))
  }

  lemma HeadAndTail(sels: seq<Selection>, frags: Fragments, prefix: string, depth: nat)
    requires sels != []
    ensures TotalsOf(sels, frags, prefix, depth)
            == Both(TotalsOfOne(sels[0], frags, prefix, depth), TotalsOf(sels[1..], frags, prefix, depth))
  {
    var head, tail := ExpandOne(sels[0], frags, {}), Expand(sels[1..], frags, {});
    if head.Some? && tail.Some? {
      MeasureConcat(head.value, tail.value, prefix, depth);
    }
  }

  /** The measures do not depend on where in the set a selection stands. */
  lemma {:induction false} MoveToFront(sels: seq<Selection>, j: nat, frags: Fragments, prefix: string, depth: nat)
    requires j < |sels|
    ensures TotalsOf(sels, frags, prefix, depth)
            == Both(TotalsOfOne(sels[j], frags, prefix, depth), TotalsOf(sels[..j] + sels[j + 1..], frags, prefix, depth))
  {
    hide TotalsOf, TotalsOfOne;
    HeadAndTail(sels, frags, prefix, depth);
    var rest := sels[..j] + sels[j + 1..];
    if j == 0 {
      assert rest == sels[1..];
    } else {
      MoveToFront(sels[1..], j - 1, frags, prefix, depth);
      assert sels[1..][..j - 1] + sels[1..][j..] == rest[1..];
      assert rest[0] == sels[0];
      HeadAndTail(rest, frags, prefix, depth);
      Exchange(TotalsOfOne(sels[0], frags, prefix, depth), TotalsOfOne(sels[j], frags, prefix, depth),
               TotalsOf(rest[1..], frags, prefix, depth));
    }
  }

  lemma Exchange(a: Option<Totals>, b: Option<Totals>, c: Option<Totals>)
    ensures Both(a, Both(b, c)) == Both(b, Both(a, c))
  {
    if a.Some? && b.Some? && c.Some? {
      assert a.value.paths + (b.value.paths + c.value.paths) == b.value.paths + (a.value.paths + c.value.paths);
    }
  }

  lemma TakeOut(a: seq<Selection>, b: seq<Selection>, j: nat)
    requires a != [] && multiset(a) == multiset(b) && j < |b| && b[j] == a[0]
    ensures multiset(a[1..]) == multiset(b[..j] + b[j + 1..])
  {
    var x, left, right := a[0], b[..j], b[j + 1..];
    assert a == [x] + a[1..];
    assert b == (left + [x]) + right;
    calc {
      multiset(a[1..]);
      multiset([x] + a[1..]) - multiset{x};
      multiset((left + [x]) + right) - multiset{x};
      multiset(left + right);
    }
  }

  lemma {:induction false} OrderIsIrrelevant(a: seq<Selection>, b: seq<Selection>, frags: Fragments, prefix: string, depth: nat)
    requires multiset(a) == multiset(b)
    ensures TotalsOf(a, frags, prefix, depth) == TotalsOf(b, frags, prefix, depth)
  {
    hide TotalsOf;
    if a == [] {
      assert |multiset(b)| == 0;
    } else {
      assert a[0] in multiset(b);
      var j :| 0 <= j < |b| && b[j] == a[0];
      var rest := b[..j] + b[j + 1..];
      TakeOut(a, b, j);
      OrderIsIrrelevant(a[1..], rest, frags, prefix, depth);
      MoveToFront(b, j, frags, prefix, depth);
      HeadAndTail(a, frags, prefix, depth);
    }
  }

  /** Inlining fragments and reordering selections, anywhere in a selection set, keeps all its measures. */
  lemma {:induction false} RewritingKeepsTotals(a: seq<Selection>, b: seq<Selection>, frags: Fragments, prefix: string, depth: nat)
    requires Rewritten(a, b, frags)
    ensures TotalsOf(a, frags, prefix, depth) == TotalsOf(b, frags, prefix, depth)
    ensures |a| == |b|
    decreases a, 1
  {
    var p :| Pointwise(a, p, frags) && multiset(p) == multiset(b);
    PointwiseKeepsTotals(a, p, frags, prefix, depth);
    OrderIsIrrelevant(p, b, frags, prefix, depth);
    assert |multiset(p)| == |p| && |multiset(b)| == |b|;
  }

  lemma {:induction false} PointwiseKeepsTotals(a: seq<Selection>, p: seq<Selection>, frags: Fragments, prefix: string, depth: nat)
    requires Pointwise(a, p, frags)
    ensures TotalsOf(a, frags, prefix, depth) == TotalsOf(p, frags, prefix, depth)
    decreases a, 0
  {
    if a != [] {
      hide TotalsOf, TotalsOfOne;
      assert RewrittenOne(a[0], p[0], frags);
      OneKeepsTotals(a[0], p[0], frags, prefix, depth);
      assert Pointwise(a[1..], p[1..], frags) by {
        forall i | 0 <= i < |a[1..]| ensures RewrittenOne(a[1..][i], p[1..][i], frags) {
          assert a[1..][i] == a[i + 1] && p[1..][i] == p[i + 1];
        }
      }
      PointwiseKeepsTotals(a[1..], p[1..], frags, prefix, depth);
      HeadAndTail(a, frags, prefix, depth);
      HeadAndTail(p, frags, prefix, depth);
    }
  }

  lemma {:induction false} OneKeepsTotals(x: Selection, y: Selection, frags: Fragments, prefix: string, depth: nat)
    requires RewrittenOne(x, y, frags)
    ensures TotalsOfOne(x, frags, prefix, depth) == TotalsOfOne(y, frags, prefix, depth)
    decreases x
  {
    if x == y {
    } else if x.spread != "" {
      assert ExpandOne(x, frags, {}) == ExpandOne(Spread(x.spread), frags, {});
      SpreadMeansItsContents(x.spread, frags, {});
    } else {
      var path := prefix + "." + x.field;
      RewritingKeepsTotals(x.children, y.children, frags, prefix, depth);
      RewritingKeepsTotals(x.children, y.children, frags, path, depth + 1);
      if !x.inlined && x.field != "" {
        FieldTotals(x, frags, prefix, depth);
        FieldTotals(y, frags, prefix, depth);
      }
    }
  }

  /** A field's measures follow from those of its children, one level deeper. */
  lemma FieldTotals(x: Selection, frags: Fragments, prefix: string, depth: nat)
    requires x.spread == "" && !x.inlined && x.field != ""
    ensures TotalsOfOne(x, frags, prefix, depth)
            == Above(x.field, x.children != [], TotalsOf(x.children, frags, prefix + "." + x.field, depth + 1), prefix, depth)
  {
    var kids := Expand(x.children, frags, {});
    if kids.Some? {
      SingleMeasure(Node(x.field, kids.value, x.children != []), prefix, depth);
    }
  }

  function Above(field: string, hasSet: bool, kids: Option<Totals>, prefix: string, depth: nat): Option<Totals> {
    if kids.None? then None
    else Some(Join(Totals(1, depth, {prefix + "." + field}, IsIntrospection(field), depth),
                   if hasSet then kids.value else kids.value.(reach := depth)))
  }

  /** The operations of two documents agree but for rewritten selections. */
  ghost predicate SameOperations(a: seq<Operation>, b: seq<Operation>, frags: Fragments) {
    && |a| == |b|
    && forall i :: 0 <= i < |a| ==>
         a[i] == b[i].(selections := a[i].selections) && Rewritten(a[i].selections, b[i].selections, frags)
  }

  lemma {:induction false} FirstNamedAgrees(a: seq<Operation>, b: seq<Operation>, frags: Fragments, name: string)
    requires SameOperations(a, b, frags)
    ensures var x, y := FirstNamed(a, name), FirstNamed(b, name);
      (x.None? && y.None?) || (x.Some? && y.Some? && SameOperations([x.value], [y.value], frags))
  {
    if a != [] && a[0].name != name {
      FirstNamedAgrees(a[1..], b[1..], frags, name);
    }
  }

  /** Two documents whose operations differ by inlined fragments and reordered selections analyse alike. */
  lemma RewritingKeepsTheAnalysis(a: Document, b: Document, name: string)
    requires a.fragments == b.fragments && SameOperations(a.operations, b.operations, a.fragments)
    ensures Analysed(a, name) == Analysed(b, name)
  {
    FirstNamedAgrees(a.operations, b.operations, a.fragments, name);
    var x, y := Chosen(a, name), Chosen(b, name);
    if x.Some? {
      assert SameOperations([x.value], [y.value], a.fragments);
      assert [x.value][0] == x.value && [y.value][0] == y.value;
      RewritingKeepsTotals(x.value.selections, y.value.selections, a.fragments, x.value.typ, 1);
    }
  }
}
