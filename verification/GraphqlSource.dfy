/** From text to document: the lexer and the parser put together. */
module GraphqlSource {
  import opened Common
  import opened GraphqlDocument
  import opened GraphqlParser
  import opened GraphqlPrinter
  import opened GraphqlRoundTrip
  import opened GraphqlAccepts
  import opened GraphqlLexer
  import W = GraphqlWriting

  /** ts is rest with lexer tokens other than the end mark in front of it. */
  predicate Extends(ts: Tokens, rest: Tokens) {
    && |rest| <= |ts| && (forall i :: |ts| - |rest| <= i < |ts| ==> ts[i] == rest[i - (|ts| - |rest|)])
    && (forall i :: 0 <= i < |ts| - |rest| ==> LexedToken(ts[i]) && ts[i].kind != EndOfInput)
  }

  lemma OneMore(t: Token, ts: Tokens, rest: Tokens)
    requires LexedToken(t) && t.kind != EndOfInput && Extends(ts, rest)
    ensures Extends([t] + ts, rest)
  {
  }

  lemma Name1(name: string, ts: Tokens, rest: Tokens)
    requires IsName(name) && Extends(ts, rest)
    ensures Extends([N(name)] + ts, rest)
  {
    OneMore(N(name), ts, rest);
  }

  lemma Punct1(text: string, ts: Tokens, rest: Tokens)
    requires text in PUNCTUATORS && Extends(ts, rest)
    ensures Extends([P(text)] + ts, rest)
  {
    OneMore(P(text), ts, rest);
  }

  lemma Through(a: Tokens, b: Tokens, c: Tokens)
    requires Extends(a, b) && Extends(b, c)
    ensures Extends(a, c)
  {
    var k := |a| - |b|;
    assert a == a[..k] + b;
    assert a[|a| - |c|..] == b[|b| - |c|..];
    forall i | 0 <= i < |a| - |c| ensures LexedToken(a[i]) && a[i].kind != EndOfInput {
      if i >= k {
        assert a[i] == b[i - k];
      }
    }
  }

  lemma Itself(ts: Tokens)
    ensures Extends(ts, ts)
  {
  }

  // ------------------------------------------------------------ every printer only puts tokens in front

  lemma {:induction false} LiteralExtends(v: Literal, rest: Tokens)
    requires OkLiteral(v)
    ensures Extends(PrintLiteral(v, rest), rest)
    decreases v
  {
    Itself(rest);
    match v
    case StringLit => OneMore(STRING, rest, rest);
    case NumberLit => OneMore(NUMBER, rest, rest);
    case NameLit(name) => Name1(name, rest, rest);
    case Variable(name) =>
      Name1(name, rest, rest);
      Punct1("$", [N(name)] + rest, rest);
    case ListLit(items) =>
      ItemsExtend(items, rest);
      Punct1("[", PrintItems(items, rest), rest);
    case ObjectLit(members) =>
      MembersExtend(members, "}", rest);
      Punct1("{", PrintMembers(members, "}", rest), rest);
  }

  lemma {:induction false} ItemsExtend(vs: seq<Literal>, rest: Tokens)
    requires OkItems(vs)
    ensures Extends(PrintItems(vs, rest), rest)
    decreases vs
  {
    hide Extends;
    if vs == [] {
      Itself(rest);
      Punct1("]", rest, rest);
    } else {
      ItemsExtend(vs[1..], rest);
      LiteralExtends(vs[0], PrintItems(vs[1..], rest));
      Through(PrintItems(vs, rest), PrintItems(vs[1..], rest), rest);
    }
  }

  lemma {:induction false} MembersExtend(ms: seq<Member>, close: string, rest: Tokens)
    requires OkMembers(ms) && close in {"}", ")"}
    ensures Extends(PrintMembers(ms, close, rest), rest)
    decreases ms
  {
    hide Extends;
    if ms == [] {
      Itself(rest);
      Punct1(close, rest, rest);
    } else {
      var tail := PrintMembers(ms[1..], close, rest);
      var value := PrintLiteral(ms[0].value, tail);
      MembersExtend(ms[1..], close, rest);
      LiteralExtends(ms[0].value, tail);
      Through(value, tail, rest);
      Punct1(":", value, rest);
      Name1(ms[0].name, [P(":")] + value, rest);
    }
  }

  lemma ArgumentsExtend(arguments: Option<seq<Member>>, rest: Tokens)
    requires OkArguments(arguments)
    ensures Extends(PrintArguments(arguments, rest), rest)
  {
    if arguments.None? {
      Itself(rest);
    } else {
      MembersExtend(arguments.value, ")", rest);
      Punct1("(", PrintMembers(arguments.value, ")", rest), rest);
    }
  }

  lemma {:induction false} DirectivesExtend(ds: seq<Directive>, rest: Tokens)
    requires OkDirectives(ds)
    ensures Extends(PrintDirectives(ds, rest), rest)
    decreases ds
  {
    hide Extends;
    Itself(rest);
    if ds != [] {
      var tail := PrintDirectives(ds[1..], rest);
      var arguments := PrintArguments(ds[0].arguments, tail);
      DirectivesExtend(ds[1..], rest);
      ArgumentsExtend(ds[0].arguments, tail);
      Through(arguments, tail, rest);
      Name1(ds[0].name, arguments, rest);
      Punct1("@", [N(ds[0].name)] + arguments, rest);
    }
  }

  lemma {:induction false} TypeExtends(t: Type, rest: Tokens)
    requires OkType(t)
    ensures Extends(PrintType(t, rest), rest)
    decreases t
  {
    hide Extends;
    Itself(rest);
    if t.bang {
      Punct1("!", rest, rest);
    }
    var banged := PrintBang(t.bang, rest);
    match t
    case Named(name, bang) => Name1(name, banged, rest);
    case ListOf(inner, bang) =>
      Punct1("]", banged, rest);
      TypeExtends(inner, [P("]")] + banged);
      Through(PrintType(inner, [P("]")] + banged), [P("]")] + banged, rest);
      Punct1("[", PrintType(inner, [P("]")] + banged), rest);
  }

  lemma VariableExtends(v: VariableDef, rest: Tokens)
    requires OkVariable(v)
    ensures Extends(PrintVariable(v, rest), rest)
  {
    hide Extends;
    Itself(rest);
    var directives := PrintDirectives(v.directives, rest);
    DirectivesExtend(v.directives, rest);
    var default := PrintDefault(v.default, directives);
    Itself(directives);
    if v.default.Some? {
      LiteralExtends(v.default.value, directives);
      Punct1("=", PrintLiteral(v.default.value, directives), directives);
    }
    Through(default, directives, rest);
    var typ := PrintType(v.typ, default);
    TypeExtends(v.typ, default);
    Through(typ, default, rest);
    Punct1(":", typ, rest);
    Name1(v.name, [P(":")] + typ, rest);
    Punct1("$", [N(v.name)] + ([P(":")] + typ), rest);
  }

  lemma {:induction false} VariablesExtend(vs: seq<VariableDef>, rest: Tokens)
    requires OkVariables(vs)
    ensures Extends(PrintVariables(vs, rest), rest)
    decreases vs
  {
    hide Extends, PrintVariable;
    if vs == [] {
      Itself(rest);
      Punct1(")", rest, rest);
    } else {
      var tail := PrintVariables(vs[1..], rest);
      VariablesExtend(vs[1..], rest);
      VariableExtends(vs[0], tail);
      Through(PrintVariable(vs[0], tail), tail, rest);
    }
  }

  lemma {:induction false} SetExtends(ss: seq<Syntax>, rest: Tokens)
    requires OkSelections(ss)
    ensures Extends(PrintSet(ss, rest), rest)
    decreases ss, 1
  {
    SelectionsExtend(ss, rest);
    Punct1("{", PrintSelections(ss, rest), rest);
  }

  lemma {:induction false} SelectionsExtend(ss: seq<Syntax>, rest: Tokens)
    requires OkSelections(ss)
    ensures Extends(PrintSelections(ss, rest), rest)
    decreases ss, 0
  {
    hide Extends, PrintSelection;
    if ss == [] {
      Itself(rest);
      Punct1("}", rest, rest);
    } else {
      var tail := PrintSelections(ss[1..], rest);
      SelectionsExtend(ss[1..], rest);
      SelectionExtends(ss[0], tail);
      Through(PrintSelection(ss[0], tail), tail, rest);
    }
  }

  lemma {:induction false} SelectionExtends(s: Syntax, rest: Tokens)
    requires OkSyntax(s)
    ensures Extends(PrintSelection(s, rest), rest)
    decreases s
  {
    hide Extends;
    Itself(rest);
    match s
    case FieldSyntax(alias, name, arguments, directives, hasSet, children) =>
      var set_ := if hasSet then PrintSet(children, rest) else rest;
      if hasSet {
        SetExtends(children, rest);
      }
      var ds := PrintDirectives(directives, set_);
      DirectivesExtend(directives, set_);
      Through(ds, set_, rest);
      var args := PrintArguments(arguments, ds);
      ArgumentsExtend(arguments, ds);
      Through(args, ds, rest);
      Name1(name, args, rest);
      if alias.Some? {
        Punct1(":", [N(name)] + args, rest);
        Name1(alias.value, [P(":")] + ([N(name)] + args), rest);
      }
    case SpreadSyntax(name, directives) =>
      DirectivesExtend(directives, rest);
      Name1(name, PrintDirectives(directives, rest), rest);
      OneMore(DOTS, [N(name)] + PrintDirectives(directives, rest), rest);
    case InlineSyntax(on, directives, body) =>
      var set_ := PrintSet(body, rest);
      SetExtends(body, rest);
      var ds := PrintDirectives(directives, set_);
      DirectivesExtend(directives, set_);
      Through(ds, set_, rest);
      if on.Some? {
        Name1(on.value, ds, rest);
        Name1("on", [N(on.value)] + ds, rest);
      }
      OneMore(DOTS, PrintOn(on, ds), rest);
  }

  lemma KeywordsAreNames()
    ensures IsName("on") && IsName("fragment") && IsName("query") && IsName("mutation") && IsName("subscription")
  {
  }

  lemma FragmentExtends(d: Definition, rest: Tokens)
    requires OkDefinition(d) && d.FragmentDef?
    ensures Extends(PrintDefinition(d, rest), rest)
  {
    hide Extends, OkDirectives, PrintDirectives, PrintSet;
    KeywordsAreNames();
    hide IsName;
    var body := PrintSet(d.selections, rest);
    SetExtends(d.selections, rest);
    var ds := PrintDirectives(d.directives, body);
    DirectivesExtend(d.directives, body);
    Through(ds, body, rest);
    Name1(d.on, ds, rest);
    Name1("on", [N(d.on)] + ds, rest);
    Name1(d.name, [N("on")] + ([N(d.on)] + ds), rest);
    Name1("fragment", [N(d.name)] + ([N("on")] + ([N(d.on)] + ds)), rest);
  }

  lemma OperationExtends(d: Definition, rest: Tokens)
    requires OkDefinition(d) && d.OperationDef?
    ensures Extends(PrintDefinition(d, rest), rest)
  {
    hide Extends, OkDirectives, OkVariables, VariablesFit, PrintDirectives, PrintSet, PrintVariables;
    KeywordsAreNames();
    hide IsName;
    var body := PrintSet(d.selections, rest);
    SetExtends(d.selections, rest);
    var ds := PrintDirectives(d.directives, body);
    DirectivesExtend(d.directives, body);
    Through(ds, body, rest);
    var vs := PrintOperationVariables(d.variables, ds);
    Itself(ds);
    if d.variables.Some? {
      VariablesExtend(d.variables.value, ds);
      Punct1("(", PrintVariables(d.variables.value, ds), ds);
    }
    Through(vs, ds, rest);
    if d.opName.Some? {
      Name1(d.opName.value, vs, rest);
    }
    Name1(d.typ, PrintOperationName(d.opName, vs), rest);
  }

  lemma DefinitionExtends(d: Definition, rest: Tokens)
    requires OkDefinition(d)
    ensures Extends(PrintDefinition(d, rest), rest)
  {
    hide Extends, PrintSet, IsName;
    match d
    case Shorthand(sels) => SetExtends(sels, rest);
    case OperationDef(_, _, _, _, _) => OperationExtends(d, rest);
    case FragmentDef(_, _, _, _) => FragmentExtends(d, rest);
  }

  lemma {:induction false} DefinitionsExtend(ds: seq<Definition>, rest: Tokens)
    requires AllOk(ds)
    ensures Extends(PrintDefinitions(ds, rest), rest)
    decreases |ds|
  {
    hide Extends, PrintDefinition, OkDefinition;
    if ds == [] {
      Itself(rest);
    } else {
      var tail := PrintDefinitions(ds[1..], rest);
      DefinitionsExtend(ds[1..], rest);
      DefinitionExtends(ds[0], tail);
      Through(PrintDefinition(ds[0], tail), tail, rest);
    }
  }

  // ------------------------------------------------------------ documents as text

  /** A document's tokens without the end mark, and its text. */
  function TokensOf(ds: seq<Definition>): Tokens {
    var ts := PrintDefinitions(ds, [END]);
    if ts == [] then [] else ts[..|ts| - 1]
  }

  function Source(ds: seq<Definition>): string { Render(TokensOf(ds)) }

  function ParseSource(src: string): Option<Document> {
    match LexDocument(src)
    case None => None
    case Some(ts) => match ParseDocument(ts) { case Fail => None case Done(doc, _) => Some(doc) }
  }

  /** Text of a well-formed document within the size limits parses to what is kept of it. */
  lemma SourceRound(ds: seq<Definition>)
    requires AllOk(ds) && IsDocument(ds)
    requires |Source(ds)| <= MAX_BYTES && |TokensOf(ds)| <= MAX_TOKENS
    ensures ParseSource(Source(ds)) == Some(KeptDocument(EMPTY_DOCUMENT, ds))
  {
    var all := PrintDefinitions(ds, [END]);
    DefinitionsExtend(ds, [END]);
    var ts := TokensOf(ds);
    assert all == ts + [END];
    LexingUndoesRendering(ts, 0);
    DocumentRound(ds, [END]);
  }

  /** The same for the document written in any other way: with any spelling of its literals, blanks, commas and comments. */
  lemma WrittenSourceRound(ds: seq<Definition>, lead: string, pieces: seq<W.Piece>)
    requires AllOk(ds) && IsDocument(ds) && W.Meant(pieces) == TokensOf(ds)
    requires W.IsGap(lead) && forall i :: 0 <= i < |pieces| ==> W.IsWritten(pieces[i]) && W.IsGap(pieces[i].gap)
    requires |lead + W.Written(pieces)| <= 65536 && |pieces| <= 8192
    ensures ParseSource(lead + W.Written(pieces)) == Some(KeptDocument(EMPTY_DOCUMENT, ds))
  {
    var all := PrintDefinitions(ds, [END]);
    DefinitionsExtend(ds, [END]);
    assert all == TokensOf(ds) + [END];
    DocumentRound(ds, [END]);
    W.SpellingIsIrrelevant(lead, pieces);
    if lead + W.Written(pieces) == [] {
      W.LexingUndoesWriting(pieces, 0);
    }
  }

  /** Whatever text is accepted stands for the definitions of some well-formed document. */
  lemma SourceSound(src: string)
    requires ParseSource(src).Some?
    ensures exists ds :: AllOk(ds) && IsDocument(ds) && ParseSource(src) == Some(KeptDocument(EMPTY_DOCUMENT, ds))
  {
    var ts := LexDocument(src).value;
    LexerMakesTokens(src, 0);
    AcceptsExactly(ts);
    var ds, rest :| Reads(ts, ds, rest);
    assert AllOk(ds) && IsDocument(ds);
  }
}
