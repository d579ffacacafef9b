/**
  The bounded recursive-descent GraphQL parser, as functions over the tokens that are left.
  Literals, arguments, aliases, directives and type conditions are checked and then dropped.
 */
module GraphqlParser {
  import opened GraphqlDocument

  datatype Kind = EndOfInput | NameToken | NumberToken | StringToken | Punctuator | SpreadToken

  datatype Token = Token(kind: Kind, text: string)

  type Tokens = seq<Token>

  const MAX_VARIABLES := 256
  const MAX_OPERATIONS := 128
  const MAX_FRAGMENTS := 256

  /** The outcome of a parsing step: a value and the tokens that are left. */
  datatype Parsed<+T> = Fail | Done(value: T, rest: Tokens) {
    predicate IsFailure() { Fail? }

    function PropagateFailure<U>(): Parsed<U>
      requires IsFailure()
    {
      Fail
    }

    function Extract(): (T, Tokens)
      requires !IsFailure()
    {
      (value, rest)
    }
  }

  function Peek(ts: Tokens): Token {
    if ts == [] then Token(EndOfInput, "") else ts[0]
  }

  /** The next token reads as text, whatever its kind. */
  predicate At(ts: Tokens, text: string) {
    ts != [] && ts[0].text == text
  }

  function Name(ts: Tokens): (r: Parsed<string>)
    ensures r.Done? ==> |r.rest| < |ts|
  {
    if Peek(ts).kind == NameToken then Done(ts[0].text, ts[1..]) else Fail
  }

  function Expect(ts: Tokens, text: string): (r: Parsed<()>)
    ensures r.Done? ==> |r.rest| < |ts|
  {
    if At(ts, text) then Done((), ts[1..]) else Fail
  }

  // ------------------------------------------------------------ values, arguments, directives, types

  function Value(ts: Tokens): (r: Parsed<()>)
    ensures r.Done? ==> |r.rest| < |ts|
    decreases |ts|, 0
  {
    if Peek(ts).kind in {StringToken, NumberToken, NameToken} then Done((), ts[1..])
    else if At(ts, "$") then
      var (_, rest) :- Name(ts[1..]);
      Done((), rest)
    else if At(ts, "[") then Values(ts[1..])
    else if At(ts, "{") then Members(ts[1..], "}")
    else Fail
  }

  function Values(ts: Tokens): (r: Parsed<()>)
    ensures r.Done? ==> |r.rest| < |ts|
    decreases |ts|, 1
  {
    if At(ts, "]") then Done((), ts[1..])
    else if Peek(ts).kind == EndOfInput then Fail
    else
      var (_, rest) :- Value(ts);
      Values(rest)
  }

  /** Name and value pairs up to the closing token: an argument list or an object value. */
  function Members(ts: Tokens, close: string): (r: Parsed<()>)
    ensures r.Done? ==> |r.rest| < |ts|
    decreases |ts|, 1
  {
    if At(ts, close) then Done((), ts[1..])
    else if Peek(ts).kind == EndOfInput then Fail
    else
      var (_, afterName) :- Name(ts);
      var (_, afterColon) :- Expect(afterName, ":");
      var (_, rest) :- Value(afterColon);
      Members(rest, close)
  }

  function Directives(ts: Tokens): (r: Parsed<()>)
    ensures r.Done? ==> |r.rest| <= |ts|
    decreases |ts|
  {
    if !At(ts, "@") then Done((), ts) else AfterAt(ts[1..])
  }

  /** The directives that are left once an at-sign has been read. */
  function AfterAt(ts: Tokens): (r: Parsed<()>)
    ensures r.Done? ==> |r.rest| <= |ts|
    decreases |ts|
  {
    var (_, afterName) :- Name(ts);
    var (_, rest) :- Arguments(afterName);
    Directives(rest)
  }

  /** An argument list, if one is there. */
  function Arguments(ts: Tokens): (r: Parsed<()>)
    ensures r.Done? ==> |r.rest| <= |ts|
  {
    if At(ts, "(") then Members(ts[1..], ")") else Done((), ts)
  }

  function Bang(typ: string, ts: Tokens): (r: Parsed<string>)
    ensures r.Done? && |r.rest| <= |ts|
  {
    if At(ts, "!") then Done(typ + "!", ts[1..]) else Done(typ, ts)
  }

  function TypeRef(ts: Tokens): (r: Parsed<string>)
    ensures r.Done? ==> |r.rest| < |ts|
    decreases |ts|
  {
    if At(ts, "[") then
      var (inner, afterInner) :- TypeRef(ts[1..]);
      var (_, afterClose) :- Expect(afterInner, "]");
      Bang("[" + inner + "]", afterClose)
    else
      var (name, rest) :- Name(ts);
      Bang(name, rest)
  }

  function DefaultValue(ts: Tokens): (r: Parsed<()>)
    ensures r.Done? ==> |r.rest| <= |ts|
  {
    if At(ts, "=") then Value(ts[1..]) else Done((), ts)
  }

  /** One variable definition: its name and its type. */
  function OneVariable(ts: Tokens): (r: Parsed<(string, string)>)
    ensures r.Done? ==> |r.rest| < |ts|
  {
    var (_, afterDollar) :- Expect(ts, "$");
    var (name, afterName) :- Name(afterDollar);
    var (typ, rest) :- VariableType(afterName);
    Done((name, typ), rest)
  }

  function VariableType(ts: Tokens): (r: Parsed<string>)
    ensures r.Done? ==> |r.rest| < |ts|
  {
    var (_, afterColon) :- Expect(ts, ":");
    var (typ, afterType) :- TypeRef(afterColon);
    var (_, afterDefault) :- DefaultValue(afterType);
    var (_, rest) :- Directives(afterDefault);
    Done(typ, rest)
  }

  function VariableDefinitions(ts: Tokens, vars: map<string, string>): (r: Parsed<map<string, string>>)
    ensures r.Done? ==> |r.rest| < |ts|
    decreases |ts|
  {
    if At(ts, ")") then Done(vars, ts[1..])
    else if Peek(ts).kind == EndOfInput || |vars| >= MAX_VARIABLES then Fail
    else
      var (v, rest) :- OneVariable(ts);
      VariableDefinitions(rest, vars[v.0 := v.1])
  }

  // ------------------------------------------------------------ selections

  function SelectionSet(ts: Tokens): (r: Parsed<seq<Selection>>)
    ensures r.Done? ==> |r.rest| < |ts|
    decreases |ts|, 0
  {
    var (_, rest) :- Expect(ts, "{");
    Selections(rest, [])
  }

  function Selections(ts: Tokens, sofar: seq<Selection>): (r: Parsed<seq<Selection>>)
    ensures r.Done? ==> |r.rest| < |ts|
    decreases |ts|, 3
  {
    if At(ts, "}") then Done(sofar, ts[1..])
    else if Peek(ts).kind == EndOfInput then Fail
    else
      var (sel, rest) :- OneSelection(ts);
      if |sofar| + 1 > MAX_FIELDS then Fail else Selections(rest, sofar + [sel])
  }

  function OneSelection(ts: Tokens): (r: Parsed<Selection>)
    ensures r.Done? ==> |r.rest| < |ts|
    decreases |ts|, 2
  {
    if At(ts, "...") then AfterDots(ts[1..]) else OneField(ts)
  }

  function AfterDots(ts: Tokens): (r: Parsed<Selection>)
    ensures r.Done? ==> |r.rest| < |ts|
    decreases |ts|, 2
  {
    if At(ts, "on") then
      var (_, afterType) :- Name(ts[1..]);
      InlineBody(afterType)
    else if At(ts, "@") then InlineBody(ts)
    else
      var (name, afterName) :- Name(ts);
      var (_, rest) :- Directives(afterName);
      Done(Spread(name), rest)
  }

  function InlineBody(ts: Tokens): (r: Parsed<Selection>)
    ensures r.Done? ==> |r.rest| < |ts|
    decreases |ts|, 1
  {
    var (_, afterDirectives) :- Directives(ts);
    var (kids, rest) :- SelectionSet(afterDirectives);
    Done(Inline(kids), rest)
  }

  function OneField(ts: Tokens): (r: Parsed<Selection>)
    ensures r.Done? ==> |r.rest| < |ts|
    decreases |ts|, 1
  {
    var (name, afterName) :- FieldName(ts);
    var (_, afterArguments) :- Arguments(afterName);
    var (_, afterDirectives) :- Directives(afterArguments);
    if At(afterDirectives, "{") then
      var (kids, rest) :- SelectionSet(afterDirectives);
      Done(Field(name, kids), rest)
    else Done(Field(name, []), afterDirectives)
  }

  /** The field's own name; an alias before it is dropped. */
  function FieldName(ts: Tokens): (r: Parsed<string>)
    ensures r.Done? ==> |r.rest| < |ts|
  {
    var (name, rest) :- Name(ts);
    if At(rest, ":") then Name(rest[1..]) else Done(name, rest)
  }

  // ------------------------------------------------------------ documents

  function OperationName(ts: Tokens): (r: Parsed<string>)
    ensures r.Done? && |r.rest| <= |ts|
  {
    if Peek(ts).kind == NameToken then Done(ts[0].text, ts[1..]) else Done("", ts)
  }

  function OperationVariables(ts: Tokens): (r: Parsed<map<string, string>>)
    ensures r.Done? ==> |r.rest| <= |ts|
  {
    if At(ts, "(") then VariableDefinitions(ts[1..], map[]) else Done(map[], ts)
  }

  /** An operation, after its keyword. */
  function OneOperation(typ: string, ts: Tokens): (r: Parsed<Operation>)
    ensures r.Done? ==> |r.rest| < |ts|
  {
    var (name, afterName) :- OperationName(ts);
    var (vars, afterVars) :- OperationVariables(afterName);
    var (_, afterDirectives) :- Directives(afterVars);
    var (sels, rest) :- SelectionSet(afterDirectives);
    Done(Operation(typ, name, vars, sels), rest)
  }

  /** A fragment, after its keyword; a second one of the same name is refused. */
  function OneFragment(frags: Fragments, ts: Tokens): (r: Parsed<Fragments>)
    ensures r.Done? ==> |r.rest| < |ts|
  {
    var (name, afterName) :- Name(ts);
    if name in frags then Fail
    else
      var (_, afterOn) :- Expect(afterName, "on");
      var (_, afterType) :- Name(afterOn);
      var (_, afterDirectives) :- Directives(afterType);
      var (sels, rest) :- SelectionSet(afterDirectives);
      Done(frags[name := sels], rest)
  }

  predicate IsOperationKeyword(kw: string) { kw in {"query", "mutation", "subscription"} }

  function OneDefinition(doc: Document, ts: Tokens): (r: Parsed<Document>)
    ensures r.Done? ==> |r.rest| < |ts|
  {
    if At(ts, "{") then
      var (sels, rest) :- SelectionSet(ts);
      Done(doc.(operations := doc.operations + [Operation("query", "", map[], sels)]), rest)
    else
      var (kw, afterKeyword) :- Name(ts);
      if IsOperationKeyword(kw) then
        var (op, rest) :- OneOperation(kw, afterKeyword);
        Done(doc.(operations := doc.operations + [op]), rest)
      else if kw == "fragment" then
        var (frags, rest) :- OneFragment(doc.fragments, afterKeyword);
        Done(doc.(fragments := frags), rest)
      else Fail
  }

  /** A definition met first in the document at an opening brace is not counted against the limits. */
  predicate Counted(ts: Tokens) { !At(ts, "{") }

  predicate WithinLimits(doc: Document) {
    |doc.operations| <= MAX_OPERATIONS && |doc.fragments| <= MAX_FRAGMENTS
  }

  function Definitions(doc: Document, ts: Tokens): (r: Parsed<Document>)
    decreases |ts|
  {
    if Peek(ts).kind == EndOfInput then Done(doc, ts)
    else
      var (next, rest) :- OneDefinition(doc, ts);
      if Counted(ts) && !WithinLimits(next) then Fail else Definitions(next, rest)
  }

  const EMPTY_DOCUMENT := Document([], map[])

  function ParseDocument(ts: Tokens): Parsed<Document> {
    var (doc, rest) :- Definitions(EMPTY_DOCUMENT, ts);
    if doc.operations == [] then Fail else Done(doc, rest)
  }

  // ------------------------------------------------------------ skipping over schema text

  /** Skips an argument list of a schema field, depth brackets deep, up to the bracket that closes it. */
  function SdlArguments(ts: Tokens, depth: nat): (r: Parsed<()>)
    requires depth > 0
    decreases |ts|
  {
    if Peek(ts).kind == EndOfInput then Fail
    else if At(ts, "(") then SdlArguments(ts[1..], depth + 1)
    else if !At(ts, ")") then SdlArguments(ts[1..], depth)
    else if depth == 1 then Done((), ts[1..])
    else SdlArguments(ts[1..], depth - 1)
  }

  function NetStep(ts: Tokens): int { if At(ts, "(") then 1 else if At(ts, ")") then -1 else 0 }

  /** Round brackets opened less those closed. */
  function Net(ts: Tokens): int {
    if ts == [] then 0 else NetStep(ts) + Net(ts[1..])
  }

  /** The first k tokens close depth brackets, no shorter stretch does, and the end is not among them. */
  ghost predicate ClosesAt(ts: Tokens, depth: nat, k: nat) {
    && 0 < k <= |ts| && Net(ts[..k]) + depth == 0
    && (forall j :: 0 <= j < k ==> Net(ts[..j]) + depth > 0)
    && (forall j :: 0 <= j < k ==> ts[j].kind != EndOfInput)
  }

  lemma NetShift(ts: Tokens, j: nat)
    requires 0 < j <= |ts|
    ensures Net(ts[..j]) == NetStep(ts) + Net(ts[1..][..j - 1])
  {
    assert ts[..j][1..] == ts[1..][..j - 1];
    assert At(ts[..j], "(") == At(ts, "(") && At(ts[..j], ")") == At(ts, ")");
  }

  /** The first token alone closes the brackets exactly when the depth is one and it is the closing bracket. */
  lemma ClosesAtOnce(ts: Tokens, depth: nat, k: nat)
    requires depth > 0 && ts != [] && ts[0].kind != EndOfInput
    ensures ClosesAt(ts, depth, 1) <==> depth + NetStep(ts) == 0
    ensures ClosesAt(ts, depth, k) ==> k == 1 || depth + NetStep(ts) > 0
  {
    NetShift(ts, 1);
    assert ts[1..][..0] == [] && ts[..0] == [];
  }

  /** Skipping stops exactly behind the matching bracket, and fails exactly when there is none. */
  lemma {:induction false} SdlArgumentsExactly(ts: Tokens, depth: nat)
    requires depth > 0
    ensures forall k: nat :: ClosesAt(ts, depth, k) ==> SdlArguments(ts, depth) == Done((), ts[k..])
    ensures var r := SdlArguments(ts, depth);
      r.Done? ==> |r.rest| <= |ts| && ClosesAt(ts, depth, |ts| - |r.rest|)
    decreases |ts|
  {
    if Peek(ts).kind != EndOfInput {
      var inner: nat := depth + NetStep(ts);
      forall k: nat ensures ClosesAt(ts, depth, k) ==> k == 1 || inner > 0 {
        ClosesAtOnce(ts, depth, k);
      }
      ClosesAtOnce(ts, depth, 1);
      if inner > 0 {
        SdlArgumentsExactly(ts[1..], inner);
        forall k: nat ensures 0 < k ==> (ClosesAt(ts[1..], inner, k) <==> ClosesAt(ts, depth, k + 1)) {
          ClosesShift(ts, depth, inner, k);
        }
        hide ClosesAt, Net;
        assert forall k: nat :: 0 < k <= |ts| ==> ts[1..][k - 1..] == ts[k..];
      }
    } else {
      hide Net;
    }
  }

  lemma ClosesShift(ts: Tokens, depth: nat, inner: nat, k: nat)
    requires ts != [] && inner == depth + NetStep(ts) && 0 < depth && 0 < inner && ts[0].kind != EndOfInput
    ensures 0 < k ==> (ClosesAt(ts[1..], inner, k) <==> ClosesAt(ts, depth, k + 1))
  {
    if 0 < k <= |ts| - 1 {
      assert ts[..0] == [];
      forall j | 0 <= j <= k ensures Net(ts[..j + 1]) == NetStep(ts) + Net(ts[1..][..j]) {
        NetShift(ts, j + 1);
      }
      hide NetStep, At;
      assert forall j :: 0 <= j < k ==> ts[1..][j] == ts[j + 1];
      if ClosesAt(ts[1..], inner, k) {
        forall j | 0 <= j < k + 1 ensures Net(ts[..j]) + depth > 0 && ts[j].kind != EndOfInput {
          if j > 0 {
            assert Net(ts[1..][..j - 1]) + inner > 0 && ts[1..][j - 1] == ts[j];
          }
        }
      }
      if ClosesAt(ts, depth, k + 1) {
        forall j | 0 <= j < k ensures Net(ts[1..][..j]) + inner > 0 && ts[1..][j].kind != EndOfInput {
          assert Net(ts[..j + 1]) + depth > 0 && ts[j + 1].kind != EndOfInput;
        }
      }
    }
  }

  predicate SdlKeyword(text: string) {
    text in {"schema", "type", "extend", "scalar", "enum", "input", "interface", "union", "directive"}
  }

  /** Skips an unsupported schema definition: to a keyword outside any bracket, or to the end. */
  function SdlDefinition(ts: Tokens, depth: nat): (rest: Tokens)
    ensures |rest| <= |ts| && rest == ts[|ts| - |rest|..]
    ensures Peek(rest).kind == EndOfInput || (rest[0].kind == NameToken && SdlKeyword(rest[0].text))
    decreases |ts|
  {
    if Peek(ts).kind == EndOfInput then ts
    else if depth == 0 && ts[0].kind == NameToken && SdlKeyword(ts[0].text) then ts
    else SdlDefinition(ts[1..], Deeper(depth, ts[0].text))
  }

  /** The bracket depth after one more token; a stray closing bracket does not count. */
  function Deeper(depth: nat, text: string): nat {
    if text in {"{", "[", "("} then depth + 1
    else if text in {"}", "]", ")"} && depth > 0 then depth - 1
    else depth
  }

  /** The bracket depth behind some tokens. */
  function DepthBehind(ts: Tokens, depth: nat): nat {
    if ts == [] then depth else DepthBehind(ts[1..], Deeper(depth, ts[0].text))
  }

  /** A place to stop: the end, or a definition keyword outside any bracket. */
  predicate StopsAt(ts: Tokens, depth: nat, k: nat)
    requires k <= |ts|
  {
    Peek(ts[k..]).kind == EndOfInput
    || (ts[k].kind == NameToken && SdlKeyword(ts[k].text) && DepthBehind(ts[..k], depth) == 0)
  }

  /** Skipping a definition goes to the first place to stop, and no further. */
  lemma {:induction false} SdlDefinitionExactly(ts: Tokens, depth: nat)
    ensures var k := |ts| - |SdlDefinition(ts, depth)|;
      StopsAt(ts, depth, k) && forall j :: 0 <= j < k ==> !StopsAt(ts, depth, j)
    decreases |ts|
  {
    StopsHere(ts, depth);
    hide StopsAt, Deeper, SdlKeyword;
    if !StopsAt(ts, depth, 0) {
      SdlDefinitionExactly(ts[1..], Deeper(depth, ts[0].text));
      var k := |ts| - |SdlDefinition(ts, depth)|;
      hide SdlDefinition;
      StopsLater(ts, depth, k);
      forall j: nat | j < k ensures !StopsAt(ts, depth, j) {
        if j > 0 {
          StopsLater(ts, depth, j);
        }
      }
    }
  }

  lemma StopsHere(ts: Tokens, depth: nat)
    ensures if StopsAt(ts, depth, 0) then SdlDefinition(ts, depth) == ts
            else ts != [] && SdlDefinition(ts, depth) == SdlDefinition(ts[1..], Deeper(depth, ts[0].text))
  {
    assert ts[0..] == ts && ts[..0] == [];
  }

  lemma StopsLater(ts: Tokens, depth: nat, j: nat)
    requires 0 < j <= |ts|
    ensures StopsAt(ts, depth, j) <==> StopsAt(ts[1..], Deeper(depth, ts[0].text), j - 1)
  {
    assert ts[1..][j - 1..] == ts[j..];
    assert ts[..j][1..] == ts[1..][..j - 1];
    hide Deeper, SdlKeyword;
  }
}
