/**
  API contracts keep a schema as a flat list of dotted field paths. Export rebuilds a schema from them
  through a trie; import flattens a schema into them.
 */
module FlatSchema {
  import opened Common

  /** The segments of a dotted path as written: a name, with [] behind it for the items of an array. */
  type Path = seq<string>

  /** ref is what a field imported through a reference remembers of it. */
  datatype Field = Field(path: Path, typ: string, format: string, required: bool, enums: seq<string>, ref: string)

  /** What flattening looks at in a schema; items holds one schema or none. */
  datatype Schema = Schema(typ: string, format: string, enums: seq<string>, hasProps: bool, props: map<string, Schema>,
                           required: set<string>, items: seq<Schema>)

  const MAX_DEPTH := 16

  // ------------------------------------------------------------ order and blanks

  predicate AtMost(a: string, b: string) {
    a == [] || (b != [] && (a[0] < b[0] || (a[0] == b[0] && AtMost(a[1..], b[1..]))))
  }

  function InsertedAt(xs: seq<string>, x: string): seq<string> {
    if xs == [] || AtMost(x, xs[0]) then [x] + xs else [xs[0]] + InsertedAt(xs[1..], x)
  }

  /** The strings in order; a schema's values are read so. */
  function Sorted(xs: seq<string>): seq<string> {
    if xs == [] then [] else InsertedAt(Sorted(xs[1..]), xs[0])
  }

  predicate InOrder(xs: seq<string>) { forall i :: 0 < i < |xs| ==> AtMost(xs[i - 1], xs[i]) }

  /** The texts part at k, and the first has the lesser character there. */
  ghost predicate LessAt(a: string, b: string, k: int) { 0 <= k < |a| && k < |b| && a[..k] == b[..k] && a[k] < b[k] }

  /** The order is that of the dictionary. */
  lemma {:induction false} DictionaryOrder(a: string, b: string)
    ensures AtMost(a, b) <==> a <= b || exists k :: LessAt(a, b, k)
  {
    if a != [] && b != [] {
      if a[0] < b[0] {
        assert LessAt(a, b, 0);
      } else if a[0] == b[0] {
        DictionaryOrder(a[1..], b[1..]);
        assert a <= b <==> a[1..] <= b[1..] by {
          assert a == [a[0]] + a[1..] && b == [b[0]] + b[1..];
        }
        forall k | LessAt(a[1..], b[1..], k) ensures LessAt(a, b, k + 1) {
          assert a[..k + 1] == [a[0]] + a[1..][..k] && b[..k + 1] == [b[0]] + b[1..][..k];
        }
        forall k | LessAt(a, b, k) ensures LessAt(a[1..], b[1..], k - 1) {
          assert a[1..][..k - 1] == a[..k][1..] && b[1..][..k - 1] == b[..k][1..];
        }
      } else {
        forall k | 0 < k < |a| && k < |b| ensures a[..k] != b[..k] {
          assert a[..k][0] != b[..k][0];
        }
      }
    }
  }

  lemma {:induction false} AtMostIsTotal(a: string, b: string)
    ensures AtMost(a, b) || AtMost(b, a)
  {
    if a != [] && b != [] && a[0] == b[0] {
      AtMostIsTotal(a[1..], b[1..]);
    }
  }

  lemma {:induction false} InsertedOnce(xs: seq<string>, x: string)
    ensures multiset(InsertedAt(xs, x)) == multiset(xs) + multiset{x}
  {
    hide AtMost;
    if xs != [] && !AtMost(x, xs[0]) {
      InsertedOnce(xs[1..], x);
      assert xs == [xs[0]] + xs[1..];
    }
  }

  lemma {:induction false} InsertedInOrder(xs: seq<string>, x: string)
    requires InOrder(xs)
    ensures var r := InsertedAt(xs, x);
      InOrder(r) && (r[0] == x || (xs != [] && r[0] == xs[0]))
  {
    hide AtMost, InOrder;
    if xs != [] && !AtMost(x, xs[0]) {
      AtMostIsTotal(x, xs[0]);
      RestInOrder(xs);
      InsertedInOrder(xs[1..], x);
      InOrderBehind(xs[0], InsertedAt(xs[1..], x));
    } else {
      InOrderBehind(x, xs);
    }
  }

  lemma RestInOrder(xs: seq<string>)
    requires InOrder(xs) && xs != []
    ensures InOrder(xs[1..]) && (|xs| > 1 ==> AtMost(xs[0], xs[1]))
  {
    hide AtMost;
    forall i | 0 < i < |xs[1..]| ensures AtMost(xs[1..][i - 1], xs[1..][i]) {
      assert AtMost(xs[i], xs[i + 1]);
    }
  }

  lemma InOrderBehind(x: string, xs: seq<string>)
    requires InOrder(xs) && (xs != [] ==> AtMost(x, xs[0]))
    ensures InOrder([x] + xs)
  {
    hide AtMost;
    var r := [x] + xs;
    forall i | 0 < i < |r| ensures AtMost(r[i - 1], r[i]) {
      assert i > 1 ==> AtMost(xs[i - 2], xs[i - 1]);
    }
  }

  lemma {:induction false} SortedInOrder(xs: seq<string>)
    ensures InOrder(Sorted(xs)) && multiset(Sorted(xs)) == multiset(xs)
  {
    if xs != [] {
      SortedInOrder(xs[1..]);
      InsertedInOrder(Sorted(xs[1..]), xs[0]);
      InsertedOnce(Sorted(xs[1..]), xs[0]);
      assert xs == [xs[0]] + xs[1..];
    }
  }

  /** Sorting leaves alone just what is in order. */
  lemma {:induction false} SortedIsSameExactly(xs: seq<string>)
    ensures Sorted(xs) == xs <==> InOrder(xs)
  {
    SortedInOrder(xs);
    if InOrder(xs) && xs != [] {
      RestInOrder(xs);
      SortedIsSameExactly(xs[1..]);
      assert xs == [xs[0]] + xs[1..];
    }
  }

  /** White space as Unicode has it. */
  predicate Blank(c: char) {
    c in {' ', '\t', '\n', '\r', '\U{0B}', '\U{0C}', '\U{85}', '\U{A0}', '\U{1680}', '\U{2028}', '\U{2029}', '\U{202F}', '\U{205F}', '\U{3000}'}
    || '\U{2000}' <= c <= '\U{200A}'
  }

  predicate StartsBlank(text: string) { text != [] && Blank(text[0]) }

  predicate EndsBlank(text: string) { text != [] && Blank(text[|text| - 1]) }

  function TrimLeft(text: string): string { if StartsBlank(text) then TrimLeft(text[1..]) else text }

  function TrimRight(text: string): string { if EndsBlank(text) then TrimRight(text[..|text| - 1]) else text }

  /** The path without blanks behind its last segment. */
  function Cut(path: Path): Path { if path == [] then [] else path[..|path| - 1] + [TrimRight(path[|path| - 1])] }

  /** The path without blanks around it. */
  function Trimmed(path: Path): Path { if path == [] then [] else Cut([TrimLeft(path[0])] + path[1..]) }

  predicate NoBlankEnds(path: Path) { path != [] ==> !StartsBlank(path[0]) && !EndsBlank(path[|path| - 1]) }

  lemma {:induction false} TrimLeftTrims(text: string)
    ensures !StartsBlank(TrimLeft(text)) && |TrimLeft(text)| <= |text|
    ensures TrimLeft(text) == text <==> !StartsBlank(text)
    ensures EndsBlank(TrimLeft(text)) ==> EndsBlank(text)
  {
    if StartsBlank(text) {
      TrimLeftTrims(text[1..]);
    }
  }

  lemma {:induction false} TrimRightTrims(text: string)
    ensures !EndsBlank(TrimRight(text)) && TrimRight(text) <= text
    ensures TrimRight(text) == text <==> !EndsBlank(text)
    ensures StartsBlank(TrimRight(text)) ==> StartsBlank(text)
    decreases |text|
  {
    if EndsBlank(text) {
      TrimRightTrims(text[..|text| - 1]);
    }
  }

  /** A trimmed path has no blanks around it, and only such a path is its own trimming. */
  lemma TrimmedHasNoBlankEnds(path: Path)
    ensures NoBlankEnds(Trimmed(path)) && (Trimmed(path) == path <==> NoBlankEnds(path))
  {
    if path != [] {
      var q := [TrimLeft(path[0])] + path[1..];
      TrimLeftTrims(path[0]);
      TrimRightTrims(q[|q| - 1]);
      assert path == [path[0]] + path[1..];
      if Trimmed(path) == path {
        assert Trimmed(path)[|path| - 1] == path[|path| - 1];
        assert |path| > 1 ==> Trimmed(path)[0] == q[0];
        if |path| == 1 {
          assert |TrimRight(q[0])| <= |q[0]|;
        }
      } else {
        assert NoBlankEnds(path) ==> q == path;
      }
    }
  }

  predicate IsArray(raw: string) { |raw| >= 2 && raw[|raw| - 2..] == "[]" }

  /** The name a segment puts a child under. */
  function Base(raw: string): string {
    var name := if IsArray(raw) then raw[..|raw| - 2] else raw;
    if name == "" then "items" else name
  }

  function Raw(name: string, array_: bool): string { if array_ then name + "[]" else name }

  function Fallback(prefix: Path): Path { if prefix == [] then ["$"] else prefix }

  function Marked(prefix: Path): Path {
    var p := Fallback(prefix);
    p[..|p| - 1] + [p[|p| - 1] + "[]"]
  }

  /** The fields of a schema; anything more than sixteen levels down is dropped. */
  function Flatten(s: Schema, prefix: Path, required: bool, depth: nat): set<Field>
    decreases s, 2
  {
    if depth > MAX_DEPTH then {}
    else if s.typ == "object" || s.hasProps then
      var out := Properties(s, prefix, depth);
      if out == {} && prefix != [] then {Field(prefix, "object", s.format, required, [], "")} else out
    else if s.typ == "array" then
      var kids := if s.items == [] then {} else Flatten(s.items[0], Marked(prefix), required, depth + 1);
      if kids != {} then kids else {Field(Fallback(prefix), "array", s.format, required, [], "")}
    else {Field(Fallback(prefix), s.typ, s.format, required, Sorted(s.enums), "")}
  }

  function Properties(s: Schema, prefix: Path, depth: nat): set<Field>
    decreases s, 1
  {
    set name, f | name in s.props && f in PropertyFields(s, name, prefix, depth) :: f
  }

  function PropertyFields(s: Schema, name: string, prefix: Path, depth: nat): set<Field>
    requires name in s.props
    decreases s, 0
  {
    Flatten(s.props[name], prefix + [name], name in s.required, depth + 1)
  }

  // ------------------------------------------------------------ the trie

  datatype Node = Node(typ: string, format: string, required: bool, enums: seq<string>, array_: bool, children: map<string, Node>)

  const EMPTY_NODE := Node("", "", false, [], false, map[])
  const ROOT := EMPTY_NODE.(typ := "object")

  function Set(n: Node, f: Field): Node {
    n.(typ := f.typ, format := f.format, required := f.required, enums := f.enums)
  }

  function ChildFor(n: Node, raw: string): Node {
    var c := if Base(raw) in n.children then n.children[Base(raw)] else EMPTY_NODE;
    if IsArray(raw) then c.(array_ := true) else c
  }

  /** Inserts a field below a node, creating nodes on the way. */
  function Put(n: Node, path: Path, f: Field): Node
    requires path != []
    decreases |path|
  {
    var c := ChildFor(n, path[0]);
    n.(children := n.children[Base(path[0]) := if |path| == 1 then Set(c, f) else Put(c, path[1..], f)])
  }

  predicate AtRoot(f: Field) { Trimmed(f.path) in {[], [""], ["$"]} }

  function Insert(root: Node, f: Field): Node {
    if AtRoot(f) then Set(root, f) else Put(root, Trimmed(f.path), f)
  }

  function Unflatten(root: Node, fields: seq<Field>): Node
    decreases |fields|
  {
    if fields == [] then root else Unflatten(Insert(root, fields[0]), fields[1..])
  }

  /** A node as a schema, leaving its array mark aside. */
  function Bare(n: Node): Schema
    decreases n, 0
  {
    if n.children != map[] then
      Schema("object", n.format, n.enums, true, map k | k in n.children :: SchemaOf(n.children[k]),
             set k | k in n.children && n.children[k].required, [])
    else Schema(if n.typ != "" then n.typ else "string", n.format, n.enums, false, map[], {}, [])
  }

  function SchemaOf(n: Node): Schema
    decreases n, 1
  {
    if n.array_ then Schema("array", "", [], false, map[], {}, [Bare(n)]) else Bare(n)
  }

  method SchemaFromFields(fields: seq<Field>) returns (s: Schema)
    ensures s == SchemaOf(Unflatten(ROOT, fields))
  {
    var root := ROOT;
    var i := 0;
    while i < |fields|
      invariant 0 <= i <= |fields| && Unflatten(ROOT, fields) == Unflatten(root, fields[i..])
    {
      assert fields[i..][0] == fields[i] && fields[i..][1..] == fields[i + 1..];
      root := Insert(root, fields[i]);
      i := i + 1;
    }
    return SchemaOf(root);
  }

  /** Export and then import. */
  function ThereAndBack(fields: seq<Field>): set<Field> {
    Flatten(SchemaOf(Unflatten(ROOT, fields)), [], false, 0)
  }

  // ------------------------------------------------------------ which lists come back

  function Weight(path: Path): nat {
    if path == [] then 0 else (if IsArray(path[0]) then 2 else 1) + Weight(path[1..])
  }

  predicate IsScalar(typ: string) { typ != "object" && typ != "array" }

  /**
    Named segments and no blanks around the path, a type, values listed for a scalar only and in order, no
    reference, and no deeper than flattening looks.
   */
  predicate WellFormed(f: Field) {
    && f.path != [] && (forall i :: 0 <= i < |f.path| ==> f.path[i] != "" && f.path[i] != "[]")
    && NoBlankEnds(f.path)
    && f.typ != "" && (f.enums == [] || IsScalar(f.typ)) && InOrder(f.enums) && f.ref == ""
    && Weight(f.path) <= 16
  }

  predicate Agree(p: Path, q: Path, k: nat)
    requires k <= |p| && k <= |q|
  {
    forall i :: 0 <= i < k ==> p[i] == q[i]
  }

  /** The paths part at two different names: neither is a prefix of the other, and array marks agree till then. */
  predicate PartAt(p: Path, q: Path, k: nat) {
    k < |p| && k < |q| && Agree(p, q, k) && Base(p[k]) != Base(q[k])
  }

  ghost predicate Part(p: Path, q: Path) { exists k: nat :: PartAt(p, q, k) }

  ghost predicate Canonical(fields: set<Field>) {
    && (forall f :: f in fields ==> WellFormed(f))
    && (forall f, g :: f in fields && g in fields && f != g ==> Part(f.path, g.path))
  }

  // ------------------------------------------------------------ what a trie stands for

  function LeafField(n: Node, path: Path): Field {
    var typ := if n.typ != "" then n.typ else "string";
    Field(path, typ, n.format, n.required, if IsScalar(typ) then Sorted(n.enums) else [], "")
  }

  function FieldsAt(n: Node, path: Path): set<Field>
    decreases n, 2
  {
    if n.children == map[] then {LeafField(n, path)} else FieldsBelow(n, path)
  }

  function FieldsBelow(n: Node, path: Path): set<Field>
    decreases n, 1
  {
    set k, f | k in n.children && f in ChildFields(n, k, path) :: f
  }

  function ChildFields(n: Node, k: string, path: Path): set<Field>
    requires k in n.children
    decreases n, 0
  {
    FieldsAt(n.children[k], path + [Raw(k, n.children[k].array_)])
  }

  /** Names come from segments: none is empty, and only array nodes have one that ends in []. */
  predicate NamesOk(n: Node) {
    forall k :: k in n.children ==> k != "" && (IsArray(k) ==> n.children[k].array_) && NamesOk(n.children[k])
  }

  lemma RawBase(raw: string)
    requires raw != "" && raw != "[]"
    ensures Base(raw) != "" && Raw(Base(raw), IsArray(raw)) == raw
  {
    if IsArray(raw) {
      assert raw == raw[..|raw| - 2] + raw[|raw| - 2..];
    }
  }

  lemma BaseRaw(name: string, array_: bool)
    requires name != "" && (IsArray(name) ==> array_)
    ensures Base(Raw(name, array_)) == name && IsArray(Raw(name, array_)) == array_
  {
    if array_ {
      assert (name + "[]")[|name|..] == "[]" && (name + "[]")[..|name|] == name;
    }
  }

  lemma {:induction false} SomeField(n: Node, path: Path) returns (f: Field)
    ensures f in FieldsAt(n, path) && path <= f.path
    ensures n.children == map[] ==> f.path == path
    decreases n
  {
    if n.children == map[] {
      f := LeafField(n, path);
    } else {
      var k :| k in n.children;
      f := SomeField(n.children[k], path + [Raw(k, n.children[k].array_)]);
      assert f in ChildFields(n, k, path);
    }
  }

  lemma {:induction false} FieldsExtend(n: Node, path: Path, f: Field)
    requires f in FieldsAt(n, path)
    ensures path <= f.path
    decreases n
  {
    if n.children != map[] {
      var k :| k in n.children && f in ChildFields(n, k, path);
      FieldsExtend(n.children[k], path + [Raw(k, n.children[k].array_)], f);
    }
  }

  // ------------------------------------------------------------ inserting adds one field

  /** f parts from every field below the node. */
  ghost predicate PartsFromAll(f: Field, fields: set<Field>) {
    forall g :: g in fields ==> Part(f.path, g.path)
  }

  /** Paths that agree up to a segment and have the same name there agree on the whole segment, and go on. */
  lemma SameNameSameSegment(p: Path, q: Path, k: nat)
    requires Part(p, q) && k < |p| && k < |q| && Agree(p, q, k) && Base(p[k]) == Base(q[k])
    ensures p[k] == q[k] && |p| > k + 1 && |q| > k + 1
  {
    var j: nat :| PartAt(p, q, j);
    assert j > k;
  }

  lemma {:induction false} PutAddsField(n: Node, prefix: Path, path: Path, f: Field)
    requires path != [] && f.path == prefix + path && WellFormed(f) && NamesOk(n)
    requires PartsFromAll(f, FieldsBelow(n, prefix))
    ensures FieldsBelow(Put(n, path, f), prefix) == FieldsBelow(n, prefix) + {f}
    ensures NamesOk(Put(n, path, f))
    decreases |path|
  {
    var raw, name := path[0], Base(path[0]);
    var here := prefix + [raw];
    SegmentOk(f, prefix, path);
    RawBase(raw);
    BaseNames(raw);
    ChildIsOpen(n, prefix, path, f);
    var c := ChildFor(n, raw);
    var c' := if |path| == 1 then Set(c, f) else Put(c, path[1..], f);
    if |path| > 1 {
      assert f.path == here + path[1..];
      PutAddsField(c, here, path[1..], f);
      PutKeeps(c, path[1..], f);
    } else {
      assert f.path == here;
    }
    PutChild(n, name, c, c', prefix, here, f);
    PutNames(n, name, c');
  }

  lemma PutNames(n: Node, name: string, c: Node)
    requires NamesOk(n) && NamesOk(c) && name != "" && (IsArray(name) ==> c.array_)
    ensures NamesOk(n.(children := n.children[name := c]))
  {
  }

  lemma PutKeeps(c: Node, path: Path, f: Field)
    requires path != []
    ensures Put(c, path, f).array_ == c.array_ && Put(c, path, f).children != map[]
  {
    assert Base(path[0]) in Put(c, path, f).children;
  }

  lemma SegmentOk(f: Field, prefix: Path, path: Path)
    requires WellFormed(f) && path != [] && f.path == prefix + path
    ensures path[0] != "" && path[0] != "[]"
  {
    assert f.path[|prefix|] == path[0];
  }

  lemma PutChild(n: Node, name: string, c: Node, c': Node, prefix: Path, here: Path, f: Field)
    requires NamesOk(n) && name != "" && (IsArray(name) ==> c'.array_)
    requires here == prefix + [Raw(name, c'.array_)] && c.array_ == c'.array_
    requires if name in n.children then c == n.children[name] && c.children != map[] else c.children == map[]
    requires (c' == Set(c, f) && c.children == map[] && f.path == here && WellFormed(f))
             || (c'.children != map[] && NamesOk(c') && FieldsBelow(c', here) == FieldsBelow(c, here) + {f})
    ensures var n' := n.(children := n.children[name := c']);
      FieldsBelow(n', prefix) == FieldsBelow(n, prefix) + {f}
  {
    if c'.children == map[] {
      SortedIsSameExactly(f.enums);
      assert LeafField(c', here) == f;
    } else if c.children == map[] {
      EmptyBelow(c, here);
    }
    assert FieldsAt(c', here) == (if name in n.children then ChildFields(n, name, prefix) else {}) + {f};
    OneChildChanges(n, name, c', prefix);
    if name in n.children {
      FieldsIncluded(n, name, prefix);
    }
  }

  lemma FieldsIncluded(n: Node, name: string, prefix: Path)
    requires name in n.children
    ensures ChildFields(n, name, prefix) <= FieldsBelow(n, prefix)
  {
  }

  lemma EmptyBelow(n: Node, path: Path)
    ensures n.children == map[] ==> FieldsBelow(n, path) == {}
  {
  }

  lemma BaseNames(raw: string)
    ensures Base(raw) != "" && (IsArray(Base(raw)) ==> IsArray(raw))
  {
  }

  /** The child a field goes to is new, or an inner node with the same array mark. */
  lemma ChildIsOpen(n: Node, prefix: Path, path: Path, f: Field)
    requires path != [] && f.path == prefix + path && WellFormed(f) && NamesOk(n)
    requires PartsFromAll(f, FieldsBelow(n, prefix))
    ensures var c := ChildFor(n, path[0]);
      && NamesOk(c) && c.array_ == IsArray(path[0])
      && PartsFromAll(f, FieldsBelow(c, prefix + [path[0]]))
      && (|path| == 1 ==> c.children == map[])
      && (Base(path[0]) in n.children ==> c == n.children[Base(path[0])] && c.children != map[])
      && (Base(path[0]) !in n.children ==> c.children == map[])
  {
    var raw, name := path[0], Base(path[0]);
    var c := ChildFor(n, raw);
    if name in n.children {
      var old_ := n.children[name];
      var at := prefix + [Raw(name, old_.array_)];
      BaseRaw(name, old_.array_);
      var g := SomeField(old_, at);
      assert g in ChildFields(n, name, prefix);
      assert Part(f.path, g.path);
      assert g.path[|prefix|] == Raw(name, old_.array_) && f.path[|prefix|] == raw;
      SameNameSameSegment(f.path, g.path, |prefix|);
      assert Raw(name, old_.array_) == raw;
      assert c == old_;
      assert old_.children != map[];
      forall h | h in FieldsBelow(c, prefix + [raw]) ensures Part(f.path, h.path) {
        assert h in ChildFields(n, name, prefix);
      }
    } else {
      EmptyBelow(c, prefix + [raw]);
    }
  }

  /** Replacing one child by one with more fields adds just those. */
  lemma OneChildChanges(n: Node, name: string, c: Node, prefix: Path)
    requires name in n.children ==> ChildFields(n, name, prefix) <= FieldsAt(c, prefix + [Raw(name, c.array_)])
    ensures var n' := n.(children := n.children[name := c]);
      FieldsBelow(n', prefix) == FieldsBelow(n, prefix) + FieldsAt(c, prefix + [Raw(name, c.array_)])
  {
    var n' := n.(children := n.children[name := c]);
    var fresh_ := FieldsAt(c, prefix + [Raw(name, c.array_)]);
    assert ChildFields(n', name, prefix) == fresh_;
    forall k | k in n.children && k != name ensures ChildFields(n', k, prefix) == ChildFields(n, k, prefix) {
      assert n'.children[k] == n.children[k];
    }
    hide ChildFields, FieldsAt;
  }

  /** Inserting a field that is there already adds nothing. */
  lemma {:induction false} PutAgain(n: Node, prefix: Path, path: Path, f: Field)
    requires path != [] && f.path == prefix + path && WellFormed(f) && NamesOk(n) && f in FieldsBelow(n, prefix)
    ensures FieldsBelow(Put(n, path, f), prefix) == FieldsBelow(n, prefix) && NamesOk(Put(n, path, f))
    decreases |path|
  {
    var raw, name := path[0], Base(path[0]);
    var here := prefix + [raw];
    var c := ChildOf(n, prefix, path, f);
    BaseNames(raw);
    var c' := if |path| == 1 then Set(c, f) else Put(c, path[1..], f);
    assert NamesOk(c);
    hide FieldsAt, FieldsBelow, ChildFields, WellFormed, NamesOk, Set, Put, Raw, Base, IsArray;
    if |path| == 1 {
      assert f.path == here;
      SetAgain(c, here, f);
    } else {
      assert f.path == here + path[1..];
      BelowIsAt(c, here);
      PutAgain(c, here, path[1..], f);
      PutKeeps(c, path[1..], f);
      BelowIsAt(c', here);
    }
    PutIs(n, path, f);
    OneChildChanges(n, name, c', prefix);
    FieldsIncluded(n, name, prefix);
    PutNames(n, name, c');
  }

  lemma PutIs(n: Node, path: Path, f: Field)
    requires path != []
    ensures var c := ChildFor(n, path[0]);
      Put(n, path, f) == n.(children := n.children[Base(path[0]) := if |path| == 1 then Set(c, f) else Put(c, path[1..], f)])
  {
  }

  lemma BelowIsAt(n: Node, path: Path)
    ensures n.children != map[] ==> FieldsAt(n, path) == FieldsBelow(n, path)
  {
  }

  lemma SetAgain(c: Node, at: Path, f: Field)
    requires f in FieldsAt(c, at) && f.path == at && WellFormed(f) && NamesOk(c)
    ensures FieldsAt(Set(c, f), at) == FieldsAt(c, at) && NamesOk(Set(c, f)) && Set(c, f).array_ == c.array_
  {
    SortedIsSameExactly(f.enums);
    if c.children != map[] {
      FieldsGoOn(c, at, f);
    }
    hide Sorted, InOrder, NoBlankEnds, Weight;
  }

  /** The child that has the field. */
  lemma ChildOf(n: Node, prefix: Path, path: Path, f: Field) returns (c: Node)
    requires path != [] && f.path == prefix + path && NamesOk(n) && f in FieldsBelow(n, prefix)
    ensures Base(path[0]) in n.children && c == n.children[Base(path[0])] == ChildFor(n, path[0])
    ensures Raw(Base(path[0]), c.array_) == path[0] && f in FieldsAt(c, prefix + [path[0]])
    ensures |path| > 1 ==> c.children != map[]
  {
    var k :| k in n.children && f in ChildFields(n, k, prefix);
    c := n.children[k];
    var at := prefix + [Raw(k, c.array_)];
    FieldsExtend(c, at, f);
    assert f.path[|prefix|] == at[|prefix|] == path[0];
    BaseRaw(k, c.array_);
    assert |path| > 1 ==> f.path != at;
  }

  lemma FieldsGoOn(n: Node, path: Path, f: Field)
    requires n.children != map[] && f in FieldsAt(n, path)
    ensures |f.path| > |path|
  {
    var k :| k in n.children && f in ChildFields(n, k, path);
    FieldsExtend(n.children[k], path + [Raw(k, n.children[k].array_)], f);
  }
}
