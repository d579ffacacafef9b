/** Export followed by import gives a flat list back exactly when the list is canonical. */
module FlatSchemaRoundTrip {
  import opened Common
  import opened FlatSchema

  // ------------------------------------------------------------ depth and weight

  lemma {:induction false} WeightOfOneMore(p: Path, raw: string)
    ensures Weight(p + [raw]) == Weight(p) + (if IsArray(raw) then 2 else 1)
  {
    if p == [] {
      assert p + [raw] == [raw];
      assert [raw][1..] == [];
    } else {
      assert (p + [raw])[1..] == p[1..] + [raw];
      WeightOfOneMore(p[1..], raw);
    }
  }

  lemma {:induction false} WeightGrows(p: Path, q: Path)
    requires p <= q
    ensures Weight(p) <= Weight(q)
  {
    if p != [] {
      WeightGrows(p[1..], q[1..]);
    }
  }

  /** Every field below the node lies within the depth that flattening reaches. */
  ghost predicate Shallow(fields: set<Field>) { forall f :: f in fields ==> Weight(f.path) <= MAX_DEPTH }

  lemma ShallowHere(n: Node, path: Path)
    requires Shallow(FieldsAt(n, path))
    ensures Weight(path) <= MAX_DEPTH
  {
    var f := SomeField(n, path);
    WeightGrows(path, f.path);
  }

  lemma MarkedPath(prefix: Path, k: string)
    ensures Marked(prefix + [k]) == prefix + [k + "[]"]
  {
  }

  // ------------------------------------------------------------ flattening reads the trie's fields

  lemma {:induction false} FlattenNode(n: Node, k: string, prefix: Path)
    requires NamesOk(n) && k != "" && (IsArray(k) ==> n.array_)
    requires Shallow(FieldsAt(n, prefix + [Raw(k, n.array_)]))
    ensures Flatten(SchemaOf(n), prefix + [k], n.required, Weight(prefix) + 1) == FieldsAt(n, prefix + [Raw(k, n.array_)])
    decreases n, 1
  {
    var path := prefix + [Raw(k, n.array_)];
    BaseRaw(k, n.array_);
    WeightOfOneMore(prefix, Raw(k, n.array_));
    ShallowHere(n, path);
    FlattenBare(n, path);
    if n.array_ {
      MarkedPath(prefix, k);
      var f := SomeField(n, path);
      ArrayFlattens(n, prefix + [k], Weight(prefix) + 1);
    }
  }

  lemma ArrayFlattens(n: Node, at: Path, depth: nat)
    requires n.array_ && depth <= MAX_DEPTH && at != []
    requires Flatten(Bare(n), Marked(at), n.required, depth + 1) != {}
    ensures Flatten(SchemaOf(n), at, n.required, depth) == Flatten(Bare(n), Marked(at), n.required, depth + 1)
  {
  }

  lemma {:induction false} FlattenBare(n: Node, path: Path)
    requires NamesOk(n) && path != []
    requires Shallow(FieldsAt(n, path))
    ensures Flatten(Bare(n), path, n.required, Weight(path)) == FieldsAt(n, path)
    decreases n, 0
  {
    ShallowHere(n, path);
    if n.children != map[] {
      BelowFlattens(n, path);
      var f := SomeField(n, path);
    }
  }

  /** All the properties of an inner node together. */
  lemma {:induction false} BelowFlattens(n: Node, path: Path)
    requires NamesOk(n) && n.children != map[] && Shallow(FieldsBelow(n, path))
    ensures Properties(Bare(n), path, Weight(path)) == FieldsBelow(n, path)
    decreases n, 0, 0
  {
    var s := Bare(n);
    forall k | k in n.children ensures k in s.props && PropertyFields(s, k, path, Weight(path)) == ChildFields(n, k, path) {
      FieldsIncluded(n, k, path);
      FlattenNode(n.children[k], k, path);
    }
    hide PropertyFields, ChildFields;
  }

  lemma FlattenRoot(root: Node)
    requires NamesOk(root) && !root.array_ && root.typ == "object" && Shallow(FieldsBelow(root, []))
    ensures Flatten(SchemaOf(root), [], false, 0) == FieldsBelow(root, [])
  {
    if root.children != map[] {
      BelowFlattens(root, []);
    } else {
      EmptyBelow(root, []);
    }
  }

  // ------------------------------------------------------------ canonical lists come back

  function FieldSet(fields: seq<Field>): set<Field> { set f | f in fields }

  predicate NoneAtRoot(fields: seq<Field>) { forall i :: 0 <= i < |fields| ==> !AtRoot(fields[i]) }

  lemma {:induction false} UnflattenCollects(root: Node, fields: seq<Field>)
    requires NamesOk(root) && NoneAtRoot(fields) && Canonical(FieldsBelow(root, []) + FieldSet(fields))
    ensures var t := Unflatten(root, fields);
      && NamesOk(t) && FieldsBelow(t, []) == FieldsBelow(root, []) + FieldSet(fields)
      && t.array_ == root.array_ && t.typ == root.typ
    decreases |fields|
  {
    hide Canonical, AtRoot, WellFormed, FieldsBelow, NamesOk, Insert, PartsFromAll, FieldSet, Trimmed;
    if fields == [] {
      NoField();
    } else {
      NextField(FieldsBelow(root, []), fields);
      CollectOne(root, fields[0]);
      Regroup(FieldsBelow(root, []), {fields[0]}, FieldSet(fields[1..]));
      UnflattenCollects(Insert(root, fields[0]), fields[1..]);
    }
  }

  lemma NoField()
    ensures FieldSet([]) == {}
  {
  }

  lemma Regroup<T>(a: set<T>, b: set<T>, c: set<T>)
    ensures a + (b + c) == (a + b) + c
  {
  }

  lemma CollectOne(root: Node, f: Field)
    requires NamesOk(root) && WellFormed(f) && !AtRoot(f) && (f in FieldsBelow(root, []) || PartsFromAll(f, FieldsBelow(root, [])))
    ensures var n := Insert(root, f);
      NamesOk(n) && FieldsBelow(n, []) == FieldsBelow(root, []) + {f} && n.array_ == root.array_ && n.typ == root.typ
  {
    InsertedAsIs(root, f);
    hide WellFormed, FieldsBelow, NamesOk, PartsFromAll, Insert, Put;
    assert f.path == [] + f.path;
    PathIsThere(f);
    if f in FieldsBelow(root, []) {
      PutAgain(root, [], f.path, f);
    } else {
      PutAddsField(root, [], f.path, f);
    }
  }

  lemma PathIsThere(f: Field)
    requires WellFormed(f)
    ensures f.path != []
  {
  }

  lemma InsertedAsIs(root: Node, f: Field)
    requires WellFormed(f) && !AtRoot(f)
    ensures Insert(root, f) == Put(root, f.path, f)
    ensures Insert(root, f).array_ == root.array_ && Insert(root, f).typ == root.typ
  {
    TrimmedHasNoBlankEnds(f.path);
  }

  /** The next field of the list is there already, or parts from all that came before. */
  lemma NextField(below: set<Field>, fields: seq<Field>)
    requires fields != [] && Canonical(below + FieldSet(fields))
    ensures WellFormed(fields[0]) && (fields[0] in below || PartsFromAll(fields[0], below))
    ensures FieldSet(fields) == {fields[0]} + FieldSet(fields[1..])
  {
    var f := fields[0];
    assert f in FieldSet(fields);
    assert fields == [f] + fields[1..];
    hide WellFormed, Part;
  }

  /** A canonical list survives export and import unchanged, as a set of fields. */
  lemma CanonicalListsComeBack(fields: seq<Field>)
    requires NoneAtRoot(fields) && Canonical(FieldSet(fields))
    ensures ThereAndBack(fields) == FieldSet(fields)
  {
    EmptyBelow(ROOT, []);
    assert {} + FieldSet(fields) == FieldSet(fields);
    UnflattenCollects(ROOT, fields);
    FlattenRoot(Unflatten(ROOT, fields));
  }

  // ------------------------------------------------------------ only canonical lists come back

  predicate PathOk(p: Path) {
    (forall i :: 0 <= i < |p| ==> p[i] != "" && p[i] != "[]") && (p != [] ==> !StartsBlank(p[0]))
  }

  /**
    Names come from segments. One that would end a path badly, being an array's or ending in a blank, never
    does: its node is not cut off, and without an array mark it has children that come out.
   */
  predicate Tame(n: Node, weight: nat) {
    forall k :: k in n.children ==>
      && k != "" && (weight == 0 ==> !StartsBlank(k)) && TameChild(n.children[k], k, weight)
      && Tame(n.children[k], weight + (if n.children[k].array_ then 2 else 1))
  }

  predicate TameChild(c: Node, k: string, weight: nat) {
    && (IsArray(k) ==> c.array_)
    && (c.array_ && (IsArray(k) || EndsBlank(k)) ==> weight != MAX_DEPTH - 1)
    && (!c.array_ && EndsBlank(k) ==> c.children != map[] && weight != MAX_DEPTH - 1)
  }

  /** Well-formed fields below a path, any two of which part. */
  ghost predicate Image(out: set<Field>, path: Path) {
    && (forall f :: f in out ==> WellFormed(f) && path <= f.path)
    && (forall f, g :: f in out && g in out && f != g ==> Part(f.path, g.path))
  }

  /** Fields below a path whose next segment has this name. */
  ghost predicate Under(out: set<Field>, prefix: Path, k: string) {
    Image(out, prefix) && forall f :: f in out ==> |f.path| > |prefix| && Base(f.path[|prefix|]) == k
  }

  lemma {:induction false} NodeImage(n: Node, k: string, prefix: Path, required: bool)
    requires Tame(n, Weight(prefix) + (if n.array_ then 2 else 1)) && PathOk(prefix)
    requires k != "" && (Weight(prefix) == 0 ==> !StartsBlank(k)) && TameChild(n, k, Weight(prefix))
    ensures Under(Flatten(SchemaOf(n), prefix + [k], required, Weight(prefix) + 1), prefix, k)
    decreases n, 1
  {
    hide Under, Flatten, Image, Base, Tame;
    SegmentAdded(prefix, k, n.array_);
    SegmentEnds(prefix, k);
    BareImage(n, prefix + [Raw(k, n.array_)], required);
    if n.array_ {
      ArrayNodeImage(n, k, prefix, required);
    } else {
      Shorten(Flatten(Bare(n), prefix + [k], required, Weight(prefix) + 1), prefix + [k], prefix, k);
    }
  }

  lemma {:induction false} WeightIsPositive(p: Path)
    requires p != []
    ensures Weight(p) > 0
  {
  }

  lemma SegmentAdded(prefix: Path, k: string, array_: bool)
    requires k != "" && (IsArray(k) ==> array_) && PathOk(prefix) && (Weight(prefix) == 0 ==> !StartsBlank(k))
    ensures PathOk(prefix + [Raw(k, array_)]) && Base(Raw(k, array_)) == k
    ensures Weight(prefix + [Raw(k, array_)]) == Weight(prefix) + (if array_ then 2 else 1)
  {
    BaseRaw(k, array_);
    WeightOfOneMore(prefix, Raw(k, array_));
    if prefix != [] {
      WeightIsPositive(prefix);
    }
  }

  lemma SegmentEnds(prefix: Path, k: string)
    requires k != ""
    ensures EndsBlank((prefix + [Raw(k, false)])[|prefix|]) <==> EndsBlank(k)
    ensures !EndsBlank((prefix + [Raw(k, true)])[|prefix|])
  {
    assert (k + "[]")[|k| + 1] == ']';
  }

  lemma ArrayNodeImage(n: Node, k: string, prefix: Path, required: bool)
    requires n.array_ && k != "" && (Weight(prefix) == 0 ==> !StartsBlank(k)) && TameChild(n, k, Weight(prefix)) && PathOk(prefix)
    requires Image(Flatten(Bare(n), prefix + [k + "[]"], required, Weight(prefix + [k + "[]"])), prefix + [k + "[]"])
    ensures Under(Flatten(SchemaOf(n), prefix + [k], required, Weight(prefix) + 1), prefix, k)
  {
    hide Under, Flatten, Image, Base;
    SegmentAdded(prefix, k, true);
    MarkedPath(prefix, k);
    var plain, marked := prefix + [k], prefix + [k + "[]"];
    var kids := Flatten(Bare(n), marked, required, Weight(marked));
    ArrayOut(n, plain, required, Weight(prefix) + 1, kids);
    if Weight(prefix) + 1 > MAX_DEPTH {
      NothingUnder(prefix, k);
    } else if kids != {} {
      Shorten(kids, marked, prefix, k);
    } else {
      if Weight(marked) <= MAX_DEPTH { BareYields(n, marked, required, Weight(marked)); }
      SegmentAdded(prefix, k, false);
      LoneArray(plain, prefix, required);
      Shorten({Field(plain, "array", "", required, [], "")}, plain, prefix, k);
    }
  }

  /** What is not too deep yields a field. */
  lemma BareYields(n: Node, path: Path, required: bool, depth: nat)
    requires path != [] && depth <= MAX_DEPTH
    ensures Flatten(Bare(n), path, required, depth) != {}
  {
  }

  lemma NothingUnder(prefix: Path, k: string)
    ensures Under({}, prefix, k)
  {
  }

  lemma LoneArray(at: Path, prefix: Path, required: bool)
    requires PathOk(at) && |at| == |prefix| + 1 && prefix <= at && Weight(at) <= MAX_DEPTH && !EndsBlank(at[|prefix|])
    ensures Image({Field(at, "array", "", required, [], "")}, at)
  {
    hide Image, WellFormed, PathOk, EndsBlank, InOrder;
    NoneInOrder();
    LeafWellFormed(Field(at, "array", "", required, [], ""));
    OneImage(Field(at, "array", "", required, [], ""));
  }

  lemma ArrayOut(n: Node, at: Path, required: bool, depth: nat, kids: set<Field>)
    requires n.array_ && at != [] && kids == Flatten(Bare(n), Marked(at), required, depth + 1)
    ensures Flatten(SchemaOf(n), at, required, depth)
            == if depth > MAX_DEPTH then {} else if kids != {} then kids else {Field(at, "array", "", required, [], "")}
  {
  }

  /** Fields below a longer path are below a shorter one, and their next segment is the longer path's. */
  lemma Shorten(out: set<Field>, path: Path, prefix: Path, k: string)
    requires Image(out, path) && |path| == |prefix| + 1 && prefix <= path && Base(path[|prefix|]) == k
    ensures Under(out, prefix, k)
  {
  }

  lemma {:induction false} BareImage(n: Node, path: Path, required: bool)
    requires Tame(n, Weight(path)) && path != [] && PathOk(path)
    requires EndsBlank(path[|path| - 1]) ==> n.children != map[] && Weight(path) != MAX_DEPTH
    ensures Image(Flatten(Bare(n), path, required, Weight(path)), path)
    decreases n, 0
  {
    SortedInOrder(n.enums);
    hide Tame, Image;
    if n.children != map[] {
      PropertiesImage(n, path);
      if Weight(path) < MAX_DEPTH {
        PropertiesYield(n, path, Weight(path));
      }
      InnerImage(n, path, required);
    } else {
      LeafImage(n, path, required);
    }
  }

  lemma InnerImage(n: Node, path: Path, required: bool)
    requires n.children != map[] && path != [] && PathOk(path) && Image(Properties(Bare(n), path, Weight(path)), path)
    requires EndsBlank(path[|path| - 1]) && Weight(path) <= MAX_DEPTH ==> Properties(Bare(n), path, Weight(path)) != {}
    ensures Image(Flatten(Bare(n), path, required, Weight(path)), path)
  {
    hide Part;
  }

  lemma LeafImage(n: Node, path: Path, required: bool)
    requires n.children == map[] && path != [] && PathOk(path) && !EndsBlank(path[|path| - 1]) && InOrder(Sorted(n.enums))
    ensures Image(Flatten(Bare(n), path, required, Weight(path)), path)
  {
    LeafOut(n, path, required, Weight(path));
    hide Image, WellFormed, Flatten, Bare, Sorted, InOrder, PathOk, EndsBlank;
    if Weight(path) > MAX_DEPTH {
      NothingImage(path);
    } else {
      var typ := if n.typ != "" then n.typ else "string";
      var f := Field(path, typ, n.format, required, if IsScalar(typ) then Sorted(n.enums) else [], "");
      NoneInOrder();
      LeafWellFormed(f);
      OneImage(f);
    }
  }

  lemma NothingImage(path: Path)
    ensures Image({}, path)
  {
  }

  lemma OneImage(f: Field)
    requires WellFormed(f)
    ensures Image({f}, f.path)
  {
    hide WellFormed;
  }

  lemma LeafWellFormed(f: Field)
    requires f.path != [] && PathOk(f.path) && !EndsBlank(f.path[|f.path| - 1]) && Weight(f.path) <= MAX_DEPTH
    requires f.typ != "" && InOrder(f.enums) && (f.enums == [] || IsScalar(f.typ)) && f.ref == ""
    ensures WellFormed(f)
  {
    hide Weight, InOrder, EndsBlank, StartsBlank;
  }

  lemma NoneInOrder()
    ensures InOrder([])
  {
  }

  lemma LeafOut(n: Node, path: Path, required: bool, depth: nat)
    requires n.children == map[] && path != []
    ensures Flatten(Bare(n), path, required, depth) ==
      if depth > MAX_DEPTH then {}
      else
        var typ := if n.typ != "" then n.typ else "string";
        {Field(path, typ, n.format, required, if IsScalar(typ) then Sorted(n.enums) else [], "")}
  {
    hide Sorted;
    NoProperties(Bare(n), path, depth);
  }

  /** A node with children that are not too deep yields one of their fields. */
  lemma PropertiesYield(n: Node, path: Path, depth: nat)
    requires n.children != map[] && depth < MAX_DEPTH
    ensures Properties(Bare(n), path, depth) != {}
  {
    var s := Bare(n);
    var k :| k in n.children;
    ChildYields(n.children[k], path + [k], k in s.required, depth + 1);
    assert PropertyFields(s, k, path, depth) != {};
    var f :| f in PropertyFields(s, k, path, depth);
    assert f in Properties(s, path, depth);
  }

  lemma ChildYields(c: Node, path: Path, required: bool, depth: nat)
    requires path != [] && depth <= MAX_DEPTH
    ensures Flatten(SchemaOf(c), path, required, depth) != {}
  {
    if c.array_ {
      ArrayOut(c, path, required, depth, Flatten(Bare(c), Marked(path), required, depth + 1));
    } else {
      BareYields(c, path, required, depth);
    }
  }

  lemma SiblingsPart(a: set<Field>, b: set<Field>, path: Path, j: string, k: string, f: Field, g: Field)
    requires Under(a, path, j) && Under(b, path, k) && f in a && g in b && j != k
    ensures Part(f.path, g.path)
  {
    assert PartAt(f.path, g.path, |path|);
  }

  lemma {:induction false} PropertiesImage(n: Node, path: Path)
    requires Tame(n, Weight(path)) && n.children != map[] && PathOk(path)
    ensures Image(Properties(Bare(n), path, Weight(path)), path)
    decreases n, 0, 0
  {
    hide WellFormed, Part;
    var s := Bare(n);
    forall k | k in s.props
      ensures Under(PropertyFields(s, k, path, Weight(path)), path, k)
    {
      NodeImage(n.children[k], k, path, k in s.required);
    }
    hide PropertyFields, Flatten;
    var out := Properties(s, path, Weight(path));
    forall f, g | f in out && g in out && f != g ensures Part(f.path, g.path) {
      var j :| j in s.props && f in PropertyFields(s, j, path, Weight(path));
      var k :| k in s.props && g in PropertyFields(s, k, path, Weight(path));
      if j != k {
        SiblingsPart(PropertyFields(s, j, path, Weight(path)), PropertyFields(s, k, path, Weight(path)), path, j, k, f, g);
      }
    }
  }

  // ------------------------------------------------------------ every node is there for a path

  /** The rests of the paths that go through a name. */
  function Tails(paths: set<Path>, k: string): set<Path> {
    set p | p in paths && p != [] && Base(p[0]) == k :: p[1..]
  }

  predicate Leads(paths: set<Path>, k: string) { exists p :: p in paths && p != [] && Base(p[0]) == k }

  predicate LeadsToItems(paths: set<Path>, k: string) { exists p :: p in paths && p != [] && Base(p[0]) == k && IsArray(p[0]) }

  /** Here and below, there is a child for each path, no other, and it is an array exactly if some path says so. */
  ghost predicate Traced(n: Node, paths: set<Path>)
    decreases n
  {
    && (forall k :: k in n.children <==> Leads(paths, k))
    && (forall k :: k in n.children ==> (n.children[k].array_ <==> LeadsToItems(paths, k)) && Traced(n.children[k], Tails(paths, k)))
  }

  lemma TracedNothing(n: Node, paths: set<Path>)
    requires n.children == map[] && paths <= {[]}
    ensures Traced(n, paths)
  {
  }

  lemma TailsOfMore(paths: set<Path>, path: Path, k: string)
    ensures path == [] ==> Tails(paths + {path}, k) == Tails(paths, k)
    ensures path != [] ==> Tails(paths + {path}, k) == Tails(paths, k) + (if Base(path[0]) == k then {path[1..]} else {})
    ensures Leads(paths + {path}, k) <==> Leads(paths, k) || (path != [] && Base(path[0]) == k)
    ensures LeadsToItems(paths + {path}, k) <==> LeadsToItems(paths, k) || (path != [] && Base(path[0]) == k && IsArray(path[0]))
  {
    assert path in paths + {path};
    assert forall p :: p in paths ==> p in paths + {path};
    hide Base, IsArray;
  }

  /** A path that ends here asks for no child. */
  lemma TracedWithEnd(n: Node, m: Node, paths: set<Path>)
    requires Traced(n, paths) && m.children == n.children
    ensures Traced(m, paths + {[]})
  {
    forall k ensures k in m.children <==> Leads(paths + {[]}, k) {
      TailsOfMore(paths, [], k);
    }
    forall k | k in m.children
      ensures (m.children[k].array_ <==> LeadsToItems(paths + {[]}, k)) && Traced(m.children[k], Tails(paths + {[]}, k))
    {
      TailsOfMore(paths, [], k);
    }
  }

  lemma {:induction false} PutTraced(n: Node, path: Path, f: Field, paths: set<Path>)
    requires path != [] && Traced(n, paths) && NamesOk(n)
    ensures Traced(Put(n, path, f), paths + {path}) && NamesOk(Put(n, path, f))
    decreases |path|
  {
    var k := Base(path[0]);
    var c := ChildFor(n, path[0]);
    var c' := if |path| == 1 then Set(c, f) else Put(c, path[1..], f);
    BaseNames(path[0]);
    if k !in n.children {
      NoTails(paths, k);
      TracedNothing(c, {});
    } else {
      SameChildrenTraced(n.children[k], c, Tails(paths, k));
    }
    if |path| > 1 {
      PutTraced(c, path[1..], f, Tails(paths, k));
      PutKeeps(c, path[1..], f);
    } else {
      assert path[1..] == [];
      TracedWithEnd(c, c', Tails(paths, k));
    }
    TracedReplaced(n, path, c', paths);
    PutNames(n, k, c');
  }

  lemma NoTails(paths: set<Path>, k: string)
    requires !Leads(paths, k)
    ensures Tails(paths, k) == {} && !LeadsToItems(paths, k)
  {
  }

  lemma SameChildrenTraced(n: Node, m: Node, paths: set<Path>)
    requires Traced(n, paths) && m.children == n.children
    ensures Traced(m, paths)
  {
  }

  lemma TracedReplaced(n: Node, path: Path, c: Node, paths: set<Path>)
    requires path != [] && Traced(n, paths)
    requires var k := Base(path[0]);
      && Traced(c, Tails(paths, k) + {path[1..]})
      && (c.array_ <==> IsArray(path[0]) || (k in n.children && n.children[k].array_))
    ensures Traced(n.(children := n.children[Base(path[0]) := c]), paths + {path})
  {
    hide Leads, LeadsToItems, Tails, Base, IsArray;
    var k, all := Base(path[0]), paths + {path};
    var m := n.(children := n.children[k := c]);
    forall j ensures j in m.children <==> Leads(all, j) {
      TailsOfMore(paths, path, j);
      assert j in n.children <==> Leads(paths, j);
    }
    ReplacedHere(n, path, c, paths);
    forall j | j in m.children && j != k ensures (m.children[j].array_ <==> LeadsToItems(all, j)) && Traced(m.children[j], Tails(all, j)) {
      ReplacedElsewhere(n, path, paths, j);
    }
  }

  lemma ReplacedHere(n: Node, path: Path, c: Node, paths: set<Path>)
    requires path != [] && Traced(n, paths)
    requires var k := Base(path[0]);
      && Traced(c, Tails(paths, k) + {path[1..]})
      && (c.array_ <==> IsArray(path[0]) || (k in n.children && n.children[k].array_))
    ensures var k, all := Base(path[0]), paths + {path}; (c.array_ <==> LeadsToItems(all, k)) && Traced(c, Tails(all, k))
  {
    var k := Base(path[0]);
    TailsOfMore(paths, path, k);
    if k in n.children {
      var p := Leading(n, paths, k);
      hide Traced, Tails, LeadsToItems;
    } else {
      assert !Leads(paths, k);
      NoTails(paths, k);
      hide Traced, Tails, LeadsToItems;
    }
  }

  lemma ReplacedElsewhere(n: Node, path: Path, paths: set<Path>, j: string)
    requires path != [] && Traced(n, paths) && j in n.children && j != Base(path[0])
    ensures (n.children[j].array_ <==> LeadsToItems(paths + {path}, j)) && Traced(n.children[j], Tails(paths + {path}, j))
  {
    TailsOfMore(paths, path, j);
    assert Tails(paths, j) + {} == Tails(paths, j);
    var p := Leading(n, paths, j);
    hide Traced, Tails, LeadsToItems;
  }

  /** The paths that are inserted below the root. */
  function Paths(fields: set<Field>): set<Path> { set f | f in fields && !AtRoot(f) :: Trimmed(f.path) }

  lemma {:induction false} UnflattenTraced(root: Node, fields: seq<Field>, paths: set<Path>)
    requires Traced(root, paths) && NamesOk(root)
    ensures var t := Unflatten(root, fields);
      Traced(t, paths + Paths(FieldSet(fields))) && NamesOk(t) && t.array_ == root.array_ && (NoneAtRoot(fields) ==> t.typ == root.typ)
    decreases |fields|
  {
    hide AtRoot, Trimmed, Put, Traced, NamesOk;
    if fields == [] {
      assert paths + Paths(FieldSet(fields)) == paths;
    } else {
      var path := Trimmed(fields[0].path);
      var more := if AtRoot(fields[0]) then {} else {path};
      InsertTraced(root, fields[0], paths);
      UnflattenTraced(Insert(root, fields[0]), fields[1..], paths + more);
      assert fields == [fields[0]] + fields[1..];
      assert FieldSet(fields) == {fields[0]} + FieldSet(fields[1..]);
      assert paths + more + Paths(FieldSet(fields[1..])) == paths + Paths(FieldSet(fields));
    }
  }

  lemma InsertTraced(root: Node, f: Field, paths: set<Path>)
    requires Traced(root, paths) && NamesOk(root)
    ensures Traced(Insert(root, f), paths + if AtRoot(f) then {} else {Trimmed(f.path)})
    ensures NamesOk(Insert(root, f)) && Insert(root, f).array_ == root.array_
    ensures !AtRoot(f) ==> Insert(root, f).typ == root.typ
  {
    if AtRoot(f) {
      SameChildrenTraced(root, Set(root, f), paths);
      assert paths + {} == paths;
    } else {
      PutTraced(root, Trimmed(f.path), f, paths);
      RootStays(root, f);
    }
  }

  lemma RootStays(root: Node, f: Field)
    requires !AtRoot(f)
    ensures Insert(root, f).array_ == root.array_ && Insert(root, f).typ == root.typ
  {
  }

  // ------------------------------------------------------------ what comes back is tame

  /** The fields below a node that come back. */
  function Back(n: Node, at: Path): set<Field> { Properties(Bare(n), at, Weight(at)) }

  /** Each path is that of a field that comes back, blanks behind it aside. */
  ghost predicate ComesOut(n: Node, at: Path, paths: set<Path>) {
    forall p :: p in paths && p != [] ==> exists f :: f in Back(n, at) && Cut(f.path) == at + p
  }

  /** The paths have no blanks around them. */
  ghost predicate NoBlanks(at: Path, paths: set<Path>) {
    forall p :: p in paths && p != [] ==> !EndsBlank(p[|p| - 1]) && (at == [] ==> !StartsBlank(p[0]))
  }

  function Below(n: Node, at: Path, k: string): Path
    requires k in n.children
  {
    at + [Raw(k, n.children[k].array_)]
  }

  /** A field that comes back is an array too deep to look into, a leaf, or one from further below. */
  predicate Shape(n: Node, at: Path, k: string, f: Field)
    requires k in n.children
  {
    || (n.children[k].array_ && Weight(at) == MAX_DEPTH - 1 && f.path == at + [k])
    || (Weight(Below(n, at, k)) <= MAX_DEPTH && FromNode(n.children[k], Below(n, at, k), f))
  }

  /** The field is the node's own, its children being none or too deep, or comes from below it. */
  predicate FromNode(n: Node, at: Path, f: Field) {
    (f.path == at && (n.children == map[] || Weight(at) == MAX_DEPTH)) || f in Back(n, at)
  }

  /** Below the root no name starts with a blank. */
  predicate Clear(n: Node, at: Path) { at == [] ==> forall k :: k in n.children ==> !StartsBlank(k) }

  lemma BareShape(n: Node, at: Path, required: bool, f: Field)
    requires at != [] && f in Flatten(Bare(n), at, required, Weight(at))
    ensures Weight(at) <= MAX_DEPTH && FromNode(n, at, f)
  {
    hide Weight;
    if n.children != map[] && Weight(at) < MAX_DEPTH {
      PropertiesYield(n, at, Weight(at));
    }
  }

  lemma ShapeOf(n: Node, at: Path, f: Field) returns (k: string)
    requires NamesOk(n) && PathOk(at) && Clear(n, at) && f in Back(n, at)
    ensures k in n.children && Shape(n, at, k, f)
  {
    hide Weight;
    var s := Bare(n);
    assert f in Properties(s, at, Weight(at));
    k :| k in s.props && f in PropertyFields(s, k, at, Weight(at));
    ChildShape(n, at, k, k in s.required, f);
  }

  lemma Added(n: Node, at: Path, k: string)
    requires NamesOk(n) && PathOk(at) && Clear(n, at) && k in n.children
    ensures PathOk(Below(n, at, k)) && Base(Below(n, at, k)[|at|]) == k
    ensures Weight(Below(n, at, k)) == Weight(at) + (if n.children[k].array_ then 2 else 1)
  {
    if at != [] {
      WeightIsPositive(at);
    }
    SegmentAdded(at, k, n.children[k].array_);
  }

  lemma ChildShape(n: Node, at: Path, k: string, required: bool, f: Field)
    requires NamesOk(n) && PathOk(at) && Clear(n, at) && k in n.children
    requires f in Flatten(SchemaOf(n.children[k]), at + [k], required, Weight(at) + 1)
    ensures Shape(n, at, k, f)
  {
    hide Flatten, Back, Weight;
    var c, here := n.children[k], Below(n, at, k);
    Added(n, at, k);
    if c.array_ {
      MarkedPath(at, k);
      var kids := Flatten(Bare(c), here, required, Weight(here));
      ArrayOut(c, at + [k], required, Weight(at) + 1, kids);
      if kids != {} {
        BareShape(c, here, required, f);
      } else if Weight(here) <= MAX_DEPTH {
        BareYields(c, here, required, Weight(here));
      }
    } else {
      BareShape(c, here, required, f);
    }
  }

  lemma {:induction false} BackExtends(n: Node, at: Path, f: Field)
    requires NamesOk(n) && PathOk(at) && Clear(n, at) && f in Back(n, at)
    ensures at <= f.path && |f.path| > |at|
    decreases n
  {
    hide Back, Weight;
    var k := ShapeOf(n, at, f);
    Added(n, at, k);
    if f in Back(n.children[k], Below(n, at, k)) {
      BackExtends(n.children[k], Below(n, at, k), f);
    }
  }

  /** The child a returning field comes from shows in its next segment, but for an array too deep to look into. */
  lemma FirstSegment(n: Node, at: Path, f: Field) returns (k: string)
    requires NamesOk(n) && PathOk(at) && Clear(n, at) && f in Back(n, at)
    ensures at <= f.path && |f.path| > |at| && k in n.children
    ensures if f.path == at + [k] && n.children[k].array_ then Weight(at) == MAX_DEPTH - 1
            else Below(n, at, k) <= f.path && Base(f.path[|at|]) == k && Weight(at) + (if n.children[k].array_ then 2 else 1) <= MAX_DEPTH
    ensures |f.path| > |at| + 1 ==> f in Back(n.children[k], Below(n, at, k))
  {
    hide Back, Weight;
    k := ShapeOf(n, at, f);
    assert n.children[k].array_ ==> |Below(n, at, k)[|at|]| == |k| + 2;
    Added(n, at, k);
    if f in Back(n.children[k], Below(n, at, k)) {
      BackExtends(n.children[k], Below(n, at, k), f);
    }
  }

  lemma Returning(n: Node, at: Path, paths: set<Path>, p: Path) returns (f: Field)
    requires ComesOut(n, at, paths) && p in paths && p != []
    ensures f in Back(n, at) && Cut(f.path) == at + p
  {
    hide Back, Cut;
    f :| f in Back(n, at) && Cut(f.path) == at + p;
  }

  lemma Leading(n: Node, paths: set<Path>, k: string) returns (p: Path)
    requires Traced(n, paths) && k in n.children
    ensures p in paths && p != [] && Base(p[0]) == k && (n.children[k].array_ ==> LeadsToItems(paths, k))
    ensures Traced(n.children[k], Tails(paths, k)) && (LeadsToItems(paths, k) ==> n.children[k].array_)
  {
    hide Base;
    p :| p in paths && p != [] && Base(p[0]) == k;
  }

  lemma CutParts(path: Path, at: Path, p: Path)
    requires Cut(path) == at + p && p != []
    ensures |path| == |at| + |p| && TrimRight(path[|path| - 1]) == p[|p| - 1]
    ensures |p| > 1 ==> path[|at|] == p[0]
  {
    hide TrimRight;
    assert Cut(path)[|path| - 1] == p[|p| - 1];
    assert |p| > 1 ==> Cut(path)[|at|] == p[0];
  }

  lemma Regrouped(at: Path, p: Path, rest: Path)
    requires p != [] && p[1..] == rest
    ensures at + p == (at + [p[0]]) + rest
  {
    assert p == [p[0]] + rest;
  }

  lemma ComesOutBelow(n: Node, at: Path, paths: set<Path>, k: string)
    requires NamesOk(n) && PathOk(at) && Clear(n, at) && ComesOut(n, at, paths) && k in n.children
    ensures ComesOut(n.children[k], Below(n, at, k), Tails(paths, k))
  {
    hide Back, Weight, Cut, Base, NamesOk, PathOk, Clear;
    forall rest | rest in Tails(paths, k) && rest != []
      ensures exists f :: f in Back(n.children[k], Below(n, at, k)) && Cut(f.path) == Below(n, at, k) + rest
    {
      var p :| p in paths && p != [] && Base(p[0]) == k && p[1..] == rest;
      var f := Returning(n, at, paths, p);
      hide ComesOut;
      CutParts(f.path, at, p);
      var j := FirstSegment(n, at, f);
      assert |p| > 1 && f.path[|at|] == p[0];
      assert Below(n, at, j)[|at|] == p[0];
      Regrouped(at, p, rest);
    }
  }

  /** Nothing that comes back is deeper than flattening looks, so no node is. */
  lemma NothingDeeper(n: Node, at: Path, paths: set<Path>)
    requires Traced(n, paths) && ComesOut(n, at, paths) && Weight(at) >= MAX_DEPTH
    ensures n.children == map[]
  {
    hide Traced, ComesOut, Back, Weight, Cut, Base;
    if n.children != map[] {
      var k :| k in n.children;
      var p := Leading(n, paths, k);
      var f := Returning(n, at, paths, p);
      TooDeep(n, at);
    }
  }

  lemma TooDeep(n: Node, at: Path)
    requires Weight(at) >= MAX_DEPTH
    ensures Back(n, at) == {}
  {
    hide Weight;
    var s := Bare(n);
    assert forall k :: k in s.props ==> PropertyFields(s, k, at, Weight(at)) == {};
    hide PropertyFields;
    assert forall f :: f !in Properties(s, at, Weight(at));
  }

  lemma NothingBack(n: Node, at: Path)
    requires n.children == map[]
    ensures Back(n, at) == {}
  {
    assert Bare(n).props == map[];
  }

  /** A name that ends in a blank and is no array's has children: no path ends in it. */
  lemma BlankNamesGoOn(n: Node, at: Path, paths: set<Path>, k: string)
    requires NamesOk(n) && PathOk(at) && Clear(n, at) && NoBlanks(at, paths)
    requires Traced(n, paths) && ComesOut(n, at, paths) && k in n.children && !n.children[k].array_ && EndsBlank(k)
    ensures n.children[k].children != map[] && Weight(Below(n, at, k)) < MAX_DEPTH
  {
    hide Traced, ComesOut, Back, Weight, Cut, NamesOk, PathOk, Clear, Base, Tails, IsArray, LeadsToItems;
    var c, here := n.children[k], Below(n, at, k);
    ComesOutBelow(n, at, paths, k);
    var p := Leading(n, paths, k);
    if c.children == map[] {
      NothingBack(c, here);
      OnWay(paths, p, k);
      if p[1..] != [] {
        var f := Returning(c, here, Tails(paths, k), p[1..]);
      } else {
        EndingHere(paths, p, k, at);
      }
    } else if Weight(here) >= MAX_DEPTH {
      NothingDeeper(c, here, Tails(paths, k));
    }
  }

  lemma OnWay(paths: set<Path>, p: Path, k: string)
    requires p in paths && p != [] && Base(p[0]) == k
    ensures p[1..] in Tails(paths, k)
  {
  }

  lemma EndingHere(paths: set<Path>, p: Path, k: string, at: Path)
    requires p in paths && p != [] && p[1..] == [] && Base(p[0]) == k && NoBlanks(at, paths) && EndsBlank(k)
    ensures LeadsToItems(paths, k)
  {
    assert p == [p[0]];
    BlankBase(p[0], k);
  }

  lemma BlankBase(raw: string, k: string)
    requires Base(raw) == k && EndsBlank(k) && !EndsBlank(raw)
    ensures IsArray(raw)
  {
  }

  function LongerNames(n: Node, k: string): set<string> { set j | j in n.children && |j| > |k| }

  /** A name that the end of a path would lose or change. */
  predicate Bad(k: string) { IsArray(k) || EndsBlank(k) }

  /** At the deepest level an array of such a name would need one of a longer such name beside it, and that one another. */
  lemma {:induction false} NoArrayNames(n: Node, at: Path, paths: set<Path>, k: string)
    requires NamesOk(n) && PathOk(at) && Clear(n, at) && NoBlanks(at, paths) && Weight(at) == MAX_DEPTH - 1
    requires Traced(n, paths) && ComesOut(n, at, paths) && k in n.children && n.children[k].array_
    ensures !Bad(k)
    decreases |LongerNames(n, k)|
  {
    if Bad(k) {
      var j := LongerBeside(n, at, paths, k);
      hide Traced, ComesOut, NamesOk, LongerNames, IsArray, NoBlanks, EndsBlank;
      FewerLonger(n, j, k);
      NoArrayNames(n, at, paths, j);
    }
  }

  lemma FewerLonger(n: Node, j: string, k: string)
    requires j in n.children && |j| > |k|
    ensures |LongerNames(n, j)| < |LongerNames(n, k)|
  {
    Fewer(LongerNames(n, j), LongerNames(n, k) - {j});
  }

  lemma LongerBeside(n: Node, at: Path, paths: set<Path>, k: string) returns (j: string)
    requires NamesOk(n) && PathOk(at) && Clear(n, at) && NoBlanks(at, paths) && Weight(at) == MAX_DEPTH - 1
    requires Traced(n, paths) && ComesOut(n, at, paths) && k in n.children && n.children[k].array_ && Bad(k)
    ensures j in n.children && n.children[j].array_ && Bad(j) && |j| > |k|
  {
    hide Back, Weight;
    var p :| p in paths && p != [] && Base(p[0]) == k && IsArray(p[0]);
    BadBase(p[0], k);
    var f := Returning(n, at, paths, p);
    CutParts(f.path, at, p);
    hide Cut;
    j := FirstSegment(n, at, f);
    TrimRightTrims(f.path[|f.path| - 1]);
    assert p[0] <= f.path[|at|];
    if f.path == at + [j] && n.children[j].array_ {
      assert f.path[|at|] == j;
      assert j == p[0] || EndsBlank(j);
    } else {
      assert !n.children[j].array_ && f.path[|at|] == j;
      assert !IsArray(j);
      assert j != p[0];
      assert |f.path| == |at| + 1;
      BlankNamesGoOn(n, at, paths, j);
      Added(n, at, j);
      assert false;
    }
  }

  lemma BadBase(raw: string, k: string)
    requires Base(raw) == k && Bad(k) && IsArray(raw)
    ensures raw == k + "[]"
  {
    assert raw == raw[..|raw| - 2] + raw[|raw| - 2..];
  }

  lemma {:induction false} ComesOutTame(n: Node, at: Path, paths: set<Path>)
    requires NamesOk(n) && PathOk(at) && Clear(n, at) && NoBlanks(at, paths) && Traced(n, paths) && ComesOut(n, at, paths)
    ensures Tame(n, Weight(at))
    decreases n
  {
    hide Weight, Back, ComesOut, NoBlanks, Traced, Base, PathOk, EndsBlank, IsArray;
    forall k | k in n.children
      ensures k != "" && (Weight(at) == 0 ==> !StartsBlank(k)) && TameChild(n.children[k], k, Weight(at))
      ensures Tame(n.children[k], Weight(at) + (if n.children[k].array_ then 2 else 1))
    {
      var c := n.children[k];
      var p := Leading(n, paths, k);
      ClearByWeight(n, at, k);
      if Weight(at) == MAX_DEPTH - 1 && c.array_ {
        NoArrayNames(n, at, paths, k);
      }
      Added(n, at, k);
      if !c.array_ && EndsBlank(k) {
        BlankNamesGoOn(n, at, paths, k);
      }
      ComesOutBelow(n, at, paths, k);
      TailsNoBlanks(at, Below(n, at, k), paths, k);
      ComesOutTame(c, Below(n, at, k), Tails(paths, k));
    }
  }

  lemma ClearByWeight(n: Node, at: Path, k: string)
    requires Clear(n, at) && k in n.children
    ensures Weight(at) == 0 ==> !StartsBlank(k)
  {
    if at != [] {
      WeightIsPositive(at);
    }
  }

  lemma TailsNoBlanks(at: Path, below: Path, paths: set<Path>, k: string)
    requires NoBlanks(at, paths) && below != []
    ensures NoBlanks(below, Tails(paths, k))
  {
    forall rest | rest in Tails(paths, k) && rest != [] ensures !EndsBlank(rest[|rest| - 1]) {
      var p :| p in paths && p != [] && Base(p[0]) == k && p[1..] == rest;
      assert rest[|rest| - 1] == p[|p| - 1];
    }
  }

  /** When a field for the whole document comes back. */
  predicate RootComesBack(f: Field) {
    f.path == ["$"] && f.typ != "" && f.typ != "object" && !f.required && f.ref == ""
    && InOrder(f.enums) && (f.enums == [] || IsScalar(f.typ))
  }

  /**
    The round trip, exactly. A list comes back from export and import, as a set of fields, if and only if it is
    canonical; with a field for the whole document, only if it has no other and that one is as it should be.
   */
  lemma ComesBackExactly(fields: seq<Field>)
    ensures ThereAndBack(fields) == FieldSet(fields)
            <==> if NoneAtRoot(fields) then Canonical(FieldSet(fields))
                 else exists f :: FieldSet(fields) == {f} && RootComesBack(f)
  {
    hide Canonical, ThereAndBack, AtRoot, RootComesBack, FieldSet;
    if NoneAtRoot(fields) {
      if Canonical(FieldSet(fields)) {
        CanonicalListsComeBack(fields);
      }
      if ThereAndBack(fields) == FieldSet(fields) {
        OnlyCanonicalComeBack(fields);
      }
    } else {
      var r :| 0 <= r < |fields| && AtRoot(fields[r]);
      RootedListsExactly(fields, r);
    }
  }

  lemma RootedListsExactly(fields: seq<Field>, r: nat)
    requires r < |fields| && AtRoot(fields[r])
    ensures ThereAndBack(fields) == FieldSet(fields) <==> exists f :: FieldSet(fields) == {f} && RootComesBack(f)
  {
    hide AtRoot, RootComesBack, ThereAndBack;
    var f := fields[r];
    assert f in FieldSet(fields);
    if i :| 0 <= i < |fields| && fields[i] != f {
      assert fields[i] in FieldSet(fields);
      MixedListsChange(fields, r, i);
    } else {
      OneField(f);
      assert FieldSet(fields) == {f};
      RepeatsAreOne(fields, f);
      RootFieldComesBack(f);
    }
  }

  lemma OneField(f: Field)
    ensures FieldSet([f]) == {f}
  {
  }

  lemma RepeatsAreOne(fields: seq<Field>, f: Field)
    requires fields != [] && AtRoot(f) && forall i :: 0 <= i < |fields| ==> fields[i] == f
    ensures ThereAndBack(fields) == ThereAndBack([f])
  {
    SetRepeatedly(ROOT, fields, f);
    SetRepeatedly(ROOT, [f], f);
  }

  lemma {:induction false} SetRepeatedly(root: Node, fields: seq<Field>, f: Field)
    requires fields != [] && AtRoot(f) && forall i :: 0 <= i < |fields| ==> fields[i] == f
    ensures Unflatten(root, fields) == Set(root, f)
    decreases |fields|
  {
    hide AtRoot, Trimmed;
    if |fields| > 1 {
      SetRepeatedly(Set(root, f), fields[1..], f);
    } else {
      assert fields[1..] == [];
    }
  }

  /** A list never comes back that has a field for the whole document beside others. */
  lemma MixedListsChange(fields: seq<Field>, r: nat, i: nat)
    requires r < |fields| && i < |fields| && AtRoot(fields[r]) && fields[i] != fields[r]
    ensures ThereAndBack(fields) != FieldSet(fields)
  {
    var t := Unflatten(ROOT, fields);
    UnflattenTraced(ROOT, fields, {});
    assert {} + Paths(FieldSet(fields)) == Paths(FieldSet(fields));
    assert fields[i] in FieldSet(fields) && fields[r] in FieldSet(fields);
    if t.children == map[] {
      AtMostOne(t, fields[i], fields[r]);
    } else {
      BackIsAll(fields);
      InsertedPaths(t, FieldSet(fields));
      if fields[r] in Back(t, []) {
        NoRootBelow(t, [], FieldSet(fields), fields[r]);
      }
    }
  }

  lemma AtMostOne(n: Node, f: Field, g: Field)
    requires n.children == map[] && !n.array_ && f != g
    ensures var out := Flatten(SchemaOf(n), [], false, 0); f !in out || g !in out
  {
    NoProperties(Bare(n), [], 0);
  }

  /** What comes back from below the root is not for the whole document. */
  lemma NoRootBelow(n: Node, at: Path, fields: set<Field>, f: Field)
    requires at == [] && NamesOk(n) && Clear(n, at) && Traced(n, Paths(fields)) && NoBlanks(at, Paths(fields)) && f in Back(n, at)
    ensures !AtRoot(f)
  {
    hide AtRoot, Cut, Trimmed, TrimRight, Back, Traced, NoBlanks, NamesOk, Clear, Paths, Base;
    var k := FirstSegment(n, at, f);
    TrimmedIsCut(n, at, f);
    if |f.path| == 1 {
      OnlySegment(n, at, k, f);
      LeafBelow(n, at, k, f);
      LeafIsNotRoot(n, at, fields, k);
    }
    NotRoot(f);
  }

  lemma OnlySegment(n: Node, at: Path, k: string, f: Field)
    requires at == [] && k in n.children && |f.path| == 1
    requires if f.path == at + [k] && n.children[k].array_ then Weight(at) == MAX_DEPTH - 1 else Below(n, at, k) <= f.path
    ensures f.path == Below(n, at, k)
  {
  }

  lemma NotRoot(f: Field)
    requires f.path != [] && Trimmed(f.path) == Cut(f.path) && (|f.path| == 1 ==> TrimRight(f.path[0]) !in {"", "$"})
    ensures !AtRoot(f)
  {
    hide TrimRight, Trimmed;
    assert |Cut(f.path)| == |f.path|;
    assert |f.path| == 1 ==> Cut(f.path)[0] == TrimRight(f.path[0]);
  }

  lemma LeafBelow(n: Node, at: Path, k: string, f: Field)
    requires at == [] && NamesOk(n) && Clear(n, at) && k in n.children && f in Back(n, at) && f.path == Below(n, at, k)
    ensures n.children[k].children == map[]
  {
    assert Weight(at) == 0;
    hide Back, Weight;
    var j := ShapeOf(n, at, f);
    Added(n, at, j);
    Added(n, at, k);
    if f in Back(n.children[j], Below(n, at, j)) {
      BackExtends(n.children[j], Below(n, at, j), f);
    }
  }

  lemma LeafIsNotRoot(n: Node, at: Path, fields: set<Field>, k: string)
    requires at == [] && NamesOk(n) && Clear(n, at) && Traced(n, Paths(fields)) && NoBlanks(at, Paths(fields))
    requires k in n.children && n.children[k].children == map[]
    ensures TrimRight(Below(n, at, k)[0]) !in {"", "$"}
  {
    hide Traced;
    var c, raw := n.children[k], Below(n, at, k)[0];
    var p := Leading(n, Paths(fields), k);
    EndsThere(c, Paths(fields), p, k);
    assert p == [p[0]];
    SegmentEnds(at, k);
    TrimRightTrims(raw);
    if c.array_ {
      assert |raw| > 2;
    } else {
      PlainLeaf(fields, p, k);
    }
  }

  lemma EndsThere(c: Node, paths: set<Path>, p: Path, k: string)
    requires c.children == map[] && Traced(c, Tails(paths, k)) && p in paths && p != [] && Base(p[0]) == k
    ensures p[1..] == []
  {
    OnWay(paths, p, k);
    if p[1..] != [] {
      assert Leads(Tails(paths, k), Base(p[1..][0]));
    }
  }

  lemma PlainLeaf(fields: set<Field>, p: Path, k: string)
    requires p in Paths(fields) && |p| == 1 && Base(p[0]) == k && NoBlanks([], Paths(fields)) && k != "" && !StartsBlank(k)
    requires !LeadsToItems(Paths(fields), k)
    ensures !EndsBlank(k) && k != "$"
  {
    assert !IsArray(p[0]);
    var g :| g in fields && !AtRoot(g) && Trimmed(g.path) == p;
    assert p == [p[0]];
  }

  lemma OnlyCanonicalComeBack(fields: seq<Field>)
    requires NoneAtRoot(fields) && ThereAndBack(fields) == FieldSet(fields)
    ensures Canonical(FieldSet(fields))
  {
    var t := Unflatten(ROOT, fields);
    UnflattenTraced(ROOT, fields, {});
    assert {} + Paths(FieldSet(fields)) == Paths(FieldSet(fields));
    if t.children != map[] {
      BackIsAll(fields);
      InsertedPaths(t, FieldSet(fields));
      BackIsCanonical(t, [], FieldSet(fields));
    } else {
      NothingIsAll(fields);
    }
  }

  lemma BackIsCanonical(n: Node, at: Path, fields: set<Field>)
    requires at == [] && Clear(n, at) && NoBlanks(at, Paths(fields)) && NamesOk(n) && n.children != map[] && Traced(n, Paths(fields)) && Back(n, at) == fields
    ensures Canonical(fields)
  {
    hide ComesOut, Traced, Tame, NamesOk, Weight, Paths, Properties, Part, WellFormed, Clear, NoBlanks;
    AllComeOut(n, at, fields);
    ComesOutTame(n, at, Paths(fields));
    PropertiesImage(n, at);
  }

  lemma AllComeOut(n: Node, at: Path, fields: set<Field>)
    requires at == [] && NamesOk(n) && Clear(n, at) && Back(n, at) == fields
    ensures ComesOut(n, at, Paths(fields))
  {
    hide Back, Cut, Trimmed, Clear, NamesOk;
    forall p | p in Paths(fields) && p != [] ensures exists f :: f in Back(n, at) && Cut(f.path) == at + p {
      var f :| f in fields && Trimmed(f.path) == p;
      TrimmedIsCut(n, at, f);
      assert at + p == p;
    }
  }

  lemma TrimmedIsCut(n: Node, at: Path, f: Field)
    requires at == [] && NamesOk(n) && Clear(n, at) && f in Back(n, at)
    ensures Trimmed(f.path) == Cut(f.path)
  {
    hide Back, Cut, Weight;
    var k := FirstSegment(n, at, f);
    assert !StartsBlank(f.path[0]);
    assert [f.path[0]] + f.path[1..] == f.path;
  }

  /** The paths that were inserted have no blanks around them, and so the names below the root do not start with one. */
  lemma InsertedPaths(n: Node, fields: set<Field>)
    requires Traced(n, Paths(fields))
    ensures NoBlanks([], Paths(fields)) && Clear(n, [])
  {
    hide Trimmed;
    forall p | p in Paths(fields) && p != [] ensures !EndsBlank(p[|p| - 1]) && !StartsBlank(p[0]) {
      var f :| f in fields && Trimmed(f.path) == p;
      TrimmedHasNoBlankEnds(f.path);
    }
    forall k | k in n.children ensures !StartsBlank(k) {
      var p :| p in Paths(fields) && p != [] && Base(p[0]) == k;
      BaseStart(p[0]);
    }
  }

  lemma BaseStart(raw: string)
    requires !StartsBlank(raw)
    ensures !StartsBlank(Base(raw))
  {
  }

  lemma NothingIsAll(fields: seq<Field>)
    requires Unflatten(ROOT, fields).children == map[] && !Unflatten(ROOT, fields).array_ && Unflatten(ROOT, fields).typ == "object"
    requires ThereAndBack(fields) == FieldSet(fields)
    ensures Canonical(FieldSet(fields))
  {
    var s := Bare(Unflatten(ROOT, fields));
    NoProperties(s, [], 0);
    assert ThereAndBack(fields) == {};
  }

  lemma BackIsAll(fields: seq<Field>)
    ensures var t := Unflatten(ROOT, fields);
      t.children != map[] && !t.array_ ==> ThereAndBack(fields) == Back(t, [])
  {
  }

  lemma NoProperties(s: Schema, prefix: Path, depth: nat)
    requires s.props == map[]
    ensures Properties(s, prefix, depth) == {}
  {
    assert forall f :: f !in Properties(s, prefix, depth);
  }

  /** A field for the whole document comes back alone, if it is typed, not an object, and not required. */
  lemma RootFieldComesBack(f: Field)
    requires AtRoot(f)
    ensures ThereAndBack([f]) == {f} <==> RootComesBack(f)
  {
    var root := Set(ROOT, f);
    assert [f][1..] == [];
    assert Unflatten(ROOT, [f]) == Unflatten(root, []) == root;
    assert SchemaOf(root) == Bare(root);
    var out := Flatten(Bare(root), [], false, 0);
    if f.typ == "object" {
      NoProperties(Bare(root), [], 0);
      assert f !in out;
    } else {
      SortedIsSameExactly(f.enums);
      assert out == {Field(["$"], if f.typ != "" then f.typ else "string", f.format, false, if IsScalar(f.typ) then Sorted(f.enums) else [], "")};
      if out == {f} {
        assert f in out;
        assert IsScalar(f.typ) || f.enums == [];
      }
    }
  }

  // ------------------------------------------------------------ paths as text

  predicate NoDots(raw: string) { '.' !in raw }

  function Joined(p: Path): string {
    if p == [] then "" else if |p| == 1 then p[0] else p[0] + ("." + Joined(p[1..]))
  }

  function SplitDots(text: string): Path {
    if text == "" then [""]
    else if text[0] == '.' then [""] + SplitDots(text[1..])
    else var rest := SplitDots(text[1..]); if rest == [] then [[text[0]]] else [[text[0]] + rest[0]] + rest[1..]
  }

  lemma {:induction false} SplitOne(raw: string, tail: string)
    requires NoDots(raw)
    ensures SplitDots(raw) == [raw]
    ensures SplitDots(raw + ("." + tail)) == [raw] + SplitDots(tail)
  {
    if raw == "" {
      assert raw + ("." + tail) == "." + tail;
      assert ("." + tail)[1..] == tail;
    } else {
      assert (raw + ("." + tail))[1..] == raw[1..] + ("." + tail);
      SplitOne(raw[1..], tail);
      assert [raw[0]] + raw[1..] == raw;
    }
  }

  /** Segments without dots are what splitting their dotted text at the dots gives. */
  lemma {:induction false} SplitUndoesJoin(p: Path)
    requires p != [] && forall i :: 0 <= i < |p| ==> NoDots(p[i])
    ensures SplitDots(Joined(p)) == p
  {
    if |p| == 1 {
      SplitOne(p[0], "");
      assert p == [p[0]];
    } else {
      SplitUndoesJoin(p[1..]);
      SplitOne(p[0], Joined(p[1..]));
      assert p == [p[0]] + p[1..];
    }
  }

  lemma {:induction false} LeftStops(text: string, tail: string)
    requires tail != [] && !Blank(tail[0])
    ensures TrimLeft(text + tail) == TrimLeft(text) + tail
  {
    if StartsBlank(text) {
      assert (text + tail)[1..] == text[1..] + tail;
      LeftStops(text[1..], tail);
    } else if text == [] {
      assert [] + tail == tail;
    }
  }

  lemma {:induction false} RightStops(head: string, text: string)
    requires head != [] && !Blank(head[|head| - 1])
    ensures TrimRight(head + text) == head + TrimRight(text)
    decreases |text|
  {
    if EndsBlank(text) {
      assert (head + text)[..|head + text| - 1] == head + text[..|text| - 1];
      RightStops(head, text[..|text| - 1]);
    } else if text == [] {
      assert head + [] == head;
    }
  }

  lemma {:induction false} CutJoined(p: Path)
    requires p != []
    ensures Joined(Cut(p)) == TrimRight(Joined(p))
  {
    if |p| == 1 {
      assert Cut(p) == [TrimRight(p[0])];
    } else {
      CutJoined(p[1..]);
      RightStops(p[0] + ".", Joined(p[1..]));
      hide TrimRight;
      CutMore(p);
      JoinedMore(p[0], p[1..]);
      JoinedMore(p[0], Cut(p[1..]));
      hide Joined, Cut;
      assert p == [p[0]] + p[1..];
    }
  }

  lemma CutMore(p: Path)
    requires |p| > 1
    ensures Cut(p) == [p[0]] + Cut(p[1..]) && Cut(p[1..]) != []
  {
    hide TrimRight;
  }

  lemma JoinedMore(raw: string, rest: Path)
    requires rest != []
    ensures Joined([raw] + rest) == (raw + ".") + Joined(rest)
  {
    assert ([raw] + rest)[1..] == rest;
    assert raw + ("." + Joined(rest)) == (raw + ".") + Joined(rest);
  }

  /** Trimming the segments is trimming the dotted text. */
  lemma TrimmedJoined(p: Path)
    requires p != []
    ensures Joined(Trimmed(p)) == TrimRight(TrimLeft(Joined(p)))
  {
    var q := [TrimLeft(p[0])] + p[1..];
    if |p| == 1 {
      assert Joined(q) == TrimLeft(p[0]);
    } else {
      LeftStops(p[0], "." + Joined(p[1..]));
      assert q[1..] == p[1..];
    }
    CutJoined(q);
  }
}
