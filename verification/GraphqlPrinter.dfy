/**
  The concrete syntax the parser accepts, its printing as tokens, and what the parser keeps of it.
  Every printer takes the tokens that follow, so that printing x before rest is the inverse of parsing
  x off the front and leaving rest.
 */
module GraphqlPrinter {
  import opened Common
  import opened GraphqlDocument
  import opened GraphqlParser

  // ------------------------------------------------------------ concrete syntax

  datatype Literal =
    | StringLit
    | NumberLit
    | NameLit(name: string)
    | Variable(name: string)
    | ListLit(items: seq<Literal>)
    | ObjectLit(members: seq<Member>)

  datatype Member = Member(name: string, value: Literal)

  datatype Directive = Directive(name: string, arguments: Option<seq<Member>>)

  datatype Type = Named(name: string, bang: bool) | ListOf(inner: Type, bang: bool)

  datatype VariableDef = VariableDef(name: string, typ: Type, default: Option<Literal>, directives: seq<Directive>)

  datatype Syntax =
    | FieldSyntax(alias: Option<string>, name: string, arguments: Option<seq<Member>>, directives: seq<Directive>,
                  hasSet: bool, children: seq<Syntax>)
    | SpreadSyntax(name: string, directives: seq<Directive>)
    | InlineSyntax(on: Option<string>, directives: seq<Directive>, body: seq<Syntax>)

  datatype Definition =
    | Shorthand(selections: seq<Syntax>)
    | OperationDef(typ: string, opName: Option<string>, variables: Option<seq<VariableDef>>, directives: seq<Directive>,
                   selections: seq<Syntax>)
    | FragmentDef(name: string, on: string, directives: seq<Directive>, selections: seq<Syntax>)

  // ------------------------------------------------------------ names and tokens

  predicate NameStart(c: char) { c == '_' || 'A' <= c <= 'Z' || 'a' <= c <= 'z' }

  predicate NameContinue(c: char) { NameStart(c) || '0' <= c <= '9' }

  predicate IsName(s: string) {
    s != "" && NameStart(s[0]) && forall i :: 0 <= i < |s| ==> NameContinue(s[i])
  }

  const PUNCTUATORS := {"!", "$", "(", ")", ":", "=", "@", "[", "]", "{", "|", "}", "&"}

  /** The texts the lexer gives tokens: a name, a punctuator, and one fixed text for each other kind. */
  predicate LexedToken(t: Token) {
    match t.kind
    case NameToken => IsName(t.text)
    case Punctuator => t.text in PUNCTUATORS
    case StringToken => t.text == "<string>"
    case NumberToken => t.text == "<number>"
    case SpreadToken => t.text == "..."
    case EndOfInput => t.text == ""
  }

  predicate Lexed(ts: Tokens) { forall i :: 0 <= i < |ts| ==> LexedToken(ts[i]) }

  /** No name, literal or end reads as a punctuator or as three dots. */
  lemma TextsDiffer(t: Token)
    requires LexedToken(t)
    ensures t.text in PUNCTUATORS <==> t.kind == Punctuator
    ensures t.text == "..." <==> t.kind == SpreadToken
    ensures t.text == "on" ==> t.kind == NameToken
  {
    var s := t.text;
    if t.kind == NameToken {
      forall p | p in PUNCTUATORS ensures s != p {
        assert !NameStart(p[0]);
      }
      assert s[0] != '.';
    } else if t.kind == StringToken || t.kind == NumberToken {
      assert |s| == 8;
      assert forall p :: p in PUNCTUATORS ==> |p| == 1;
    } else if t.kind == Punctuator {
      assert |s| == 1;
    }
  }

  function N(name: string): Token { Token(NameToken, name) }

  function P(text: string): Token { Token(Punctuator, text) }

  const DOTS := Token(SpreadToken, "...")
  const END := Token(EndOfInput, "")

  // ------------------------------------------------------------ printing

  function PrintLiteral(v: Literal, rest: Tokens): (ts: Tokens)
    decreases v
  {
    match v
    case StringLit => [Token(StringToken, "<string>")] + rest
    case NumberLit => [Token(NumberToken, "<number>")] + rest
    case NameLit(name) => [N(name)] + rest
    case Variable(name) => [P("$")] + ([N(name)] + rest)
    case ListLit(items) => [P("[")] + PrintItems(items, rest)
    case ObjectLit(members) => [P("{")] + PrintMembers(members, "}", rest)
  }

  function PrintItems(vs: seq<Literal>, rest: Tokens): Tokens
    decreases vs
  {
    if vs == [] then [P("]")] + rest else PrintLiteral(vs[0], PrintItems(vs[1..], rest))
  }

  function PrintMembers(ms: seq<Member>, close: string, rest: Tokens): Tokens
    decreases ms
  {
    if ms == [] then [P(close)] + rest
    else [N(ms[0].name)] + ([P(":")] + PrintLiteral(ms[0].value, PrintMembers(ms[1..], close, rest)))
  }

  function PrintArguments(arguments: Option<seq<Member>>, rest: Tokens): Tokens {
    if arguments.None? then rest else [P("(")] + PrintMembers(arguments.value, ")", rest)
  }

  function PrintDirectives(ds: seq<Directive>, rest: Tokens): Tokens {
    if ds == [] then rest
    else [P("@")] + ([N(ds[0].name)] + PrintArguments(ds[0].arguments, PrintDirectives(ds[1..], rest)))
  }

  function PrintBang(bang: bool, rest: Tokens): Tokens {
    if bang then [P("!")] + rest else rest
  }

  function PrintType(t: Type, rest: Tokens): Tokens {
    match t
    case Named(name, bang) => [N(name)] + PrintBang(bang, rest)
    case ListOf(inner, bang) => [P("[")] + PrintType(inner, [P("]")] + PrintBang(bang, rest))
  }

  function PrintDefault(default: Option<Literal>, rest: Tokens): Tokens {
    if default.None? then rest else [P("=")] + PrintLiteral(default.value, rest)
  }

  function PrintVariable(v: VariableDef, rest: Tokens): Tokens {
    [P("$")] + ([N(v.name)] + ([P(":")] + PrintType(v.typ, PrintDefault(v.default, PrintDirectives(v.directives, rest)))))
  }

  function PrintVariables(vs: seq<VariableDef>, rest: Tokens): Tokens {
    if vs == [] then [P(")")] + rest else PrintVariable(vs[0], PrintVariables(vs[1..], rest))
  }

  function PrintSelection(s: Syntax, rest: Tokens): Tokens
    decreases s
  {
    match s
    case FieldSyntax(alias, name, arguments, directives, hasSet, children) =>
      PrintFieldName(alias, name, PrintArguments(arguments, PrintDirectives(directives,
        if hasSet then PrintSet(children, rest) else rest)))
    case SpreadSyntax(name, directives) => [DOTS] + ([N(name)] + PrintDirectives(directives, rest))
    case InlineSyntax(on, directives, body) =>
      [DOTS] + PrintOn(on, PrintDirectives(directives, PrintSet(body, rest)))
  }

  function PrintFieldName(alias: Option<string>, name: string, rest: Tokens): Tokens {
    if alias.None? then [N(name)] + rest else [N(alias.value)] + ([P(":")] + ([N(name)] + rest))
  }

  function PrintOn(on: Option<string>, rest: Tokens): Tokens {
    if on.None? then rest else [N("on")] + ([N(on.value)] + rest)
  }

  function PrintSet(ss: seq<Syntax>, rest: Tokens): Tokens
    decreases ss, 1
  {
    [P("{")] + PrintSelections(ss, rest)
  }

  function PrintSelections(ss: seq<Syntax>, rest: Tokens): Tokens
    decreases ss, 0
  {
    if ss == [] then [P("}")] + rest else PrintSelection(ss[0], PrintSelections(ss[1..], rest))
  }

  function PrintOperationVariables(variables: Option<seq<VariableDef>>, rest: Tokens): Tokens {
    if variables.None? then rest else [P("(")] + PrintVariables(variables.value, rest)
  }

  function PrintOperationName(name: Option<string>, rest: Tokens): Tokens {
    if name.None? then rest else [N(name.value)] + rest
  }

  function PrintDefinition(d: Definition, rest: Tokens): Tokens {
    match d
    case Shorthand(sels) => PrintSet(sels, rest)
    case OperationDef(typ, name, variables, directives, sels) =>
      [N(typ)] + PrintOperationName(name, PrintOperationVariables(variables, PrintDirectives(directives, PrintSet(sels, rest))))
    case FragmentDef(name, on, directives, sels) =>
      [N("fragment")] + ([N(name)] + ([N("on")] + ([N(on)] + PrintDirectives(directives, PrintSet(sels, rest)))))
  }

  function PrintDefinitions(ds: seq<Definition>, rest: Tokens): Tokens {
    if ds == [] then rest else PrintDefinition(ds[0], PrintDefinitions(ds[1..], rest))
  }

  // ------------------------------------------------------------ what the parser keeps

  function TypeText(t: Type): string {
    var base := if t.Named? then t.name else "[" + TypeText(t.inner) + "]";
    if t.bang then base + "!" else base
  }

  function Kept(s: Syntax): Selection
    decreases s
  {
    match s
    case FieldSyntax(_, name, _, _, _, children) =>
      Field(name, KeptAll(children))
    case SpreadSyntax(name, _) => Spread(name)
    case InlineSyntax(_, _, body) => Inline(KeptAll(body))
  }

  function KeptAll(ss: seq<Syntax>): (r: seq<Selection>)
    ensures |r| == |ss|
    decreases ss
  {
    if ss == [] then [] else [Kept(ss[0])] + KeptAll(ss[1..])
  }

  function KeptVariables(vs: seq<VariableDef>, vars: map<string, string>): map<string, string> {
    if vs == [] then vars else KeptVariables(vs[1..], vars[vs[0].name := TypeText(vs[0].typ)])
  }

  function KeptName(name: Option<string>): string { if name.None? then "" else name.value }

  function KeptOperation(d: Definition): Operation
    requires !d.FragmentDef?
  {
    match d
    case Shorthand(sels) => Operation("query", "", map[], KeptAll(sels))
    case OperationDef(typ, name, variables, _, sels) =>
      Operation(typ, KeptName(name), if variables.None? then map[] else KeptVariables(variables.value, map[]), KeptAll(sels))
  }

  function Extended(doc: Document, d: Definition): Document {
    if d.FragmentDef? then doc.(fragments := doc.fragments[d.name := KeptAll(d.selections)])
    else doc.(operations := doc.operations + [KeptOperation(d)])
  }

  function KeptDocument(doc: Document, ds: seq<Definition>): Document
    decreases |ds|
  {
    if ds == [] then doc else KeptDocument(Extended(doc, ds[0]), ds[1..])
  }

  // ------------------------------------------------------------ well-formed syntax

  predicate OkLiteral(v: Literal)
    decreases v
  {
    match v
    case NameLit(name) => IsName(name)
    case Variable(name) => IsName(name)
    case ListLit(items) => OkItems(items)
    case ObjectLit(members) => OkMembers(members)
    case _ => true
  }

  predicate OkItems(vs: seq<Literal>)
    decreases vs
  {
    vs == [] || (OkLiteral(vs[0]) && OkItems(vs[1..]))
  }

  predicate OkMembers(ms: seq<Member>)
    decreases ms
  {
    ms == [] || (IsName(ms[0].name) && OkLiteral(ms[0].value) && OkMembers(ms[1..]))
  }

  predicate OkArguments(arguments: Option<seq<Member>>) { arguments.Some? ==> OkMembers(arguments.value) }

  predicate OkDirectives(ds: seq<Directive>) {
    ds == [] || (IsName(ds[0].name) && OkArguments(ds[0].arguments) && OkDirectives(ds[1..]))
  }

  predicate OkType(t: Type) { if t.Named? then IsName(t.name) else OkType(t.inner) }

  predicate OkVariable(v: VariableDef) {
    && IsName(v.name) && OkType(v.typ) && OkDirectives(v.directives)
    && (v.default.Some? ==> OkLiteral(v.default.value))
  }

  predicate OkVariables(vs: seq<VariableDef>) {
    vs == [] || (OkVariable(vs[0]) && OkVariables(vs[1..]))
  }

  /** The names declared before the last definition leave room for it; a repeated name counts once. */
  predicate VariablesFit(vs: seq<VariableDef>, vars: map<string, string>) {
    vs == [] || |vars.Keys + DeclaredNames(vs[..|vs| - 1])| < MAX_VARIABLES
  }

  function DeclaredNames(vs: seq<VariableDef>): set<string> { set v | v in vs :: v.name }

  /** A spread is not named `on`, and an inline fragment shows itself by a type condition or a directive. */
  predicate OkSyntax(s: Syntax)
    decreases s
  {
    match s
    case FieldSyntax(alias, name, arguments, directives, hasSet, children) =>
      && (alias.Some? ==> IsName(alias.value)) && IsName(name) && OkArguments(arguments) && OkDirectives(directives)
      && OkSet(children) && (!hasSet ==> children == [])
    case SpreadSyntax(name, directives) => IsName(name) && name != "on" && OkDirectives(directives)
    case InlineSyntax(on, directives, body) =>
      && (if on.Some? then IsName(on.value) else directives != []) && OkDirectives(directives) && OkSet(body)
  }

  predicate OkSet(ss: seq<Syntax>)
    decreases ss, 1
  {
    |ss| <= MAX_FIELDS && OkSelections(ss)
  }

  predicate OkSelections(ss: seq<Syntax>)
    decreases ss, 0
  {
    ss == [] || (OkSyntax(ss[0]) && OkSelections(ss[1..]))
  }

  predicate OkDefinition(d: Definition) {
    match d
    case Shorthand(sels) => OkSet(sels)
    case OperationDef(typ, name, variables, directives, sels) =>
      && IsOperationKeyword(typ) && (name.Some? ==> IsName(name.value))
      && (variables.Some? ==> OkVariables(variables.value) && VariablesFit(variables.value, map[]))
      && OkDirectives(directives) && OkSet(sels)
    case FragmentDef(name, on, directives, sels) =>
      IsName(name) && IsName(on) && OkDirectives(directives) && OkSet(sels)
  }

  /**
    The definitions can be taken in one after the other: no fragment name twice, and the limits on
    operations and fragments hold after every definition but a shorthand one, where they are not checked.
   */
  predicate Admitted(doc: Document, ds: seq<Definition>)
    decreases |ds|
  {
    ds != [] ==>
    && (ds[0].FragmentDef? ==> ds[0].name !in doc.fragments)
    && (!ds[0].Shorthand? ==> WithinLimits(Extended(doc, ds[0])))
    && Admitted(Extended(doc, ds[0]), ds[1..])
  }
}
