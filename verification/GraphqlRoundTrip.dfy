/** Parsing a printed document gives back what the parser keeps of it, and leaves what followed it. */
module GraphqlRoundTrip {
  import opened Common
  import opened GraphqlDocument
  import opened GraphqlParser
  import opened GraphqlPrinter

  /** No token, or one that does not read as a punctuator other than these. */
  predicate Before(ts: Tokens, allowed: set<string>) {
    ts != [] && LexedToken(ts[0]) && (ts[0].text in PUNCTUATORS ==> ts[0].text in allowed)
  }

  lemma NameFirst(name: string, rest: Tokens)
    requires IsName(name)
    ensures Before([N(name)] + rest, {})
    ensures Name([N(name)] + rest) == Done(name, rest)
  {
    TextsDiffer(N(name));
  }

  // ------------------------------------------------------------ literals and arguments

  lemma LiteralFirst(v: Literal, rest: Tokens)
    requires OkLiteral(v)
    ensures Before(PrintLiteral(v, rest), {"$", "[", "{"})
    ensures PrintLiteral(v, rest)[0].kind != EndOfInput
  {
    TextsDiffer(PrintLiteral(v, rest)[0]);
  }

  lemma {:induction false} LiteralRound(v: Literal, rest: Tokens)
    requires OkLiteral(v)
    ensures Value(PrintLiteral(v, rest)) == Done((), rest)
    decreases v
  {
    match v
    case ListLit(items) => ItemsRound(items, rest);
    case ObjectLit(members) => MembersRound(members, "}", rest);
    case _ =>
  }

  lemma {:induction false} ItemsRound(vs: seq<Literal>, rest: Tokens)
    requires OkItems(vs)
    ensures Values(PrintItems(vs, rest)) == Done((), rest)
    decreases vs
  {
    if vs != [] {
      var tail := PrintItems(vs[1..], rest);
      LiteralFirst(vs[0], tail);
      LiteralRound(vs[0], tail);
      ItemsRound(vs[1..], rest);
    }
  }

  lemma {:induction false} MembersRound(ms: seq<Member>, close: string, rest: Tokens)
    requires OkMembers(ms) && close in {"}", ")"}
    ensures Members(PrintMembers(ms, close, rest), close) == Done((), rest)
    decreases ms
  {
    if ms != [] {
      var tail := PrintMembers(ms[1..], close, rest);
      var value := PrintLiteral(ms[0].value, tail);
      var colon := [P(":")] + value;
      NameFirst(ms[0].name, colon);
      assert Expect(colon, ":") == Done((), value);
      LiteralRound(ms[0].value, tail);
      MembersRound(ms[1..], close, rest);
    }
  }

  lemma ArgumentsRound(arguments: Option<seq<Member>>, rest: Tokens)
    requires OkArguments(arguments) && !At(rest, "(")
    ensures Arguments(PrintArguments(arguments, rest)) == Done((), rest)
  {
    if arguments.Some? {
      MembersRound(arguments.value, ")", rest);
    }
  }

  lemma {:induction false} DirectivesRound(ds: seq<Directive>, rest: Tokens)
    requires OkDirectives(ds) && !At(rest, "(") && !At(rest, "@")
    ensures Directives(PrintDirectives(ds, rest)) == Done((), rest)
    ensures ds != [] ==> At(PrintDirectives(ds, rest), "@")
    decreases ds
  {
    if ds != [] {
      var tail := PrintDirectives(ds[1..], rest);
      var args := PrintArguments(ds[0].arguments, tail);
      DirectivesRound(ds[1..], rest);
      NameFirst(ds[0].name, args);
      ArgumentsRound(ds[0].arguments, tail);
    }
  }

  // ------------------------------------------------------------ variable definitions

  lemma {:induction false} TypeRound(t: Type, rest: Tokens)
    requires OkType(t) && !At(rest, "!")
    ensures TypeRef(PrintType(t, rest)) == Done(TypeText(t), rest)
    decreases t
  {
    match t
    case Named(name, bang) => NameFirst(name, PrintBang(bang, rest));
    case ListOf(inner, bang) =>
      var close := [P("]")] + PrintBang(bang, rest);
      TypeRound(inner, close);
      assert Expect(close, "]") == Done((), PrintBang(bang, rest));
  }

  lemma DefaultRound(default: Option<Literal>, rest: Tokens)
    requires (default.Some? ==> OkLiteral(default.value)) && !At(rest, "=")
    ensures DefaultValue(PrintDefault(default, rest)) == Done((), rest)
  {
    if default.Some? {
      LiteralRound(default.value, rest);
    }
  }

  lemma VariableRound(v: VariableDef, rest: Tokens)
    requires OkVariable(v) && rest != [] && rest[0].text in {")", "$"}
    ensures OneVariable(PrintVariable(v, rest)) == Done((v.name, TypeText(v.typ)), rest)
  {
    hide TypeRef, Directives, DefaultValue, PrintType;
    var directives := PrintDirectives(v.directives, rest);
    DirectivesRound(v.directives, rest);
    var default := PrintDefault(v.default, directives);
    DefaultRound(v.default, directives);
    var typ := PrintType(v.typ, default);
    TypeRound(v.typ, default);
    var colon := [P(":")] + typ;
    assert Expect(colon, ":") == Done((), typ);
    NameFirst(v.name, colon);
  }

  lemma VariablesStep(ts: Tokens, v: (string, string), rest: Tokens, vars: map<string, string>)
    requires OneVariable(ts) == Done(v, rest) && ts != [] && ts[0] == P("$") && |vars| < MAX_VARIABLES
    ensures VariableDefinitions(ts, vars) == VariableDefinitions(rest, vars[v.0 := v.1])
  {
  }

  lemma {:induction false} VariablesRound(vs: seq<VariableDef>, vars: map<string, string>, rest: Tokens)
    requires OkVariables(vs) && VariablesFit(vs, vars)
    ensures VariableDefinitions(PrintVariables(vs, rest), vars) == Done(KeptVariables(vs, vars), rest)
    decreases vs
  {
    if vs != [] {
      hide OneVariable, VariableDefinitions, PrintVariable, VariablesFit, OkVariable;
      var v, tail := vs[0], PrintVariables(vs[1..], rest);
      VariablesFirst(vs, rest);
      VariablesFirst(vs[1..], rest);
      RoomForOne(vs, vars);
      VariableRound(v, tail);
      VariablesStep(PrintVariable(v, tail), (v.name, TypeText(v.typ)), tail, vars);
      VariablesRound(vs[1..], vars[v.name := TypeText(v.typ)], rest);
    }
  }

  lemma VariablesFirst(vs: seq<VariableDef>, rest: Tokens)
    ensures PrintVariables(vs, rest) != [] && PrintVariables(vs, rest)[0] == P(if vs == [] then ")" else "$")
  {
  }

  /** If all the definitions fit, the first one does, and so do the others after it. */
  lemma RoomForOne(vs: seq<VariableDef>, vars: map<string, string>)
    requires vs != [] && VariablesFit(vs, vars)
    ensures |vars| < MAX_VARIABLES
    ensures VariablesFit(vs[1..], vars[vs[0].name := TypeText(vs[0].typ)])
  {
    var before := vs[..|vs| - 1];
    Fewer(vars.Keys, vars.Keys + DeclaredNames(before));
    assert |vars.Keys| == |vars|;
    if |vs| > 1 {
      var more := vars[vs[0].name := TypeText(vs[0].typ)];
      var rest := vs[1..][..|vs| - 2];
      assert before == [vs[0]] + rest;
      OneMoreName(vs[0], rest);
      assert more.Keys + DeclaredNames(rest) == vars.Keys + DeclaredNames(before);
    }
  }

  lemma OneMoreName(v: VariableDef, vs: seq<VariableDef>)
    ensures DeclaredNames([v] + vs) == {v.name} + DeclaredNames(vs)
  {
    assert v in [v] + vs;
    assert forall w :: w in [v] + vs <==> w == v || w in vs;
  }

  // ------------------------------------------------------------ selections

  /** What can follow a selection: another one, or the end of the set. */
  lemma {:induction false} SelectionsFirst(ss: seq<Syntax>, rest: Tokens)
    requires OkSelections(ss)
    ensures Before(PrintSelections(ss, rest), {"}"})
    ensures PrintSelections(ss, rest)[0].kind != EndOfInput
    ensures At(PrintSelections(ss, rest), "}") <==> ss == []
  {
    var ts := PrintSelections(ss, rest);
    if ss != [] {
      var tail := PrintSelections(ss[1..], rest);
      assert ts == PrintSelection(ss[0], tail);
      match ss[0]
      case FieldSyntax(alias, name, arguments, directives, hasSet, children) =>
        assert ts[0] == N(if alias.None? then name else alias.value);
        TextsDiffer(ts[0]);
      case _ =>
        assert ts[0] == DOTS;
        TextsDiffer(DOTS);
    }
  }

  lemma SelectionsStep(ts: Tokens, sel: Selection, rest: Tokens, sofar: seq<Selection>)
    requires OneSelection(ts) == Done(sel, rest) && !At(ts, "}") && Peek(ts).kind != EndOfInput
    requires |sofar| < MAX_FIELDS
    ensures Selections(ts, sofar) == Selections(rest, sofar + [sel])
  {
  }

  lemma AppendsOne(a: seq<Selection>, x: Selection, b: seq<Selection>)
    ensures (a + [x]) + b == a + ([x] + b)
  {
  }

  lemma {:induction false} SelectionsRound(ss: seq<Syntax>, sofar: seq<Selection>, rest: Tokens)
    requires OkSelections(ss) && |sofar| + |ss| <= MAX_FIELDS
    ensures Selections(PrintSelections(ss, rest), sofar) == Done(sofar + KeptAll(ss), rest)
    decreases ss, 0
  {
    if ss == [] {
      assert sofar + [] == sofar;
    } else {
      SelectionsFirst(ss, rest);
      hide Selections, OneSelection, PrintSelection, OkSyntax, Kept, Before;
      var tail := PrintSelections(ss[1..], rest);
      SelectionsFirst(ss[1..], rest);
      SelectionRound(ss[0], tail);
      var one, others := Kept(ss[0]), KeptAll(ss[1..]);
      var ts := PrintSelection(ss[0], tail);
      assert ts == PrintSelections(ss, rest);
      SelectionsStep(ts, one, tail, sofar);
      SelectionsRound(ss[1..], sofar + [one], rest);
      AppendsOne(sofar, one, others);
    }
  }

  lemma {:induction false} SetRound(ss: seq<Syntax>, rest: Tokens)
    requires OkSet(ss)
    ensures SelectionSet(PrintSet(ss, rest)) == Done(KeptAll(ss), rest)
    ensures At(PrintSet(ss, rest), "{")
    decreases ss, 1
  {
    SelectionsRound(ss, [], rest);
    assert [] + KeptAll(ss) == KeptAll(ss);
  }

  lemma {:induction false} SelectionRound(s: Syntax, rest: Tokens)
    requires OkSyntax(s) && Before(rest, {"}"})
    ensures OneSelection(PrintSelection(s, rest)) == Done(Kept(s), rest)
    decreases s
  {
    match s
    case FieldSyntax(alias, name, arguments, directives, hasSet, children) =>
      FieldRound(s, rest);
    case SpreadSyntax(name, directives) =>
      DirectivesRound(directives, rest);
      NameFirst(name, PrintDirectives(directives, rest));
    case InlineSyntax(on, directives, body) =>
      var set_ := PrintSet(body, rest);
      SetRound(body, rest);
      var ds := PrintDirectives(directives, set_);
      DirectivesRound(directives, set_);
      assert InlineBody(ds) == Done(Inline(KeptAll(body)), rest);
      if on.Some? {
        NameFirst(on.value, ds);
      }
  }

  lemma {:induction false} FieldRound(s: Syntax, rest: Tokens)
    requires s.FieldSyntax? && OkSyntax(s) && Before(rest, {"}"})
    ensures OneSelection(PrintSelection(s, rest)) == Done(Kept(s), rest)
    decreases s, 0
  {
    var set_ := if s.hasSet then PrintSet(s.children, rest) else rest;
    if s.hasSet {
      SetRound(s.children, rest);
    }
    var ds := PrintDirectives(s.directives, set_);
    DirectivesRound(s.directives, set_);
    var args := PrintArguments(s.arguments, ds);
    ArgumentsRound(s.arguments, ds);
    assert !At(args, ":");
    FieldNameRound(s.alias, s.name, args);
  }

  lemma FieldNameRound(alias: Option<string>, name: string, rest: Tokens)
    requires IsName(name) && (alias.Some? ==> IsName(alias.value)) && !At(rest, ":")
    ensures FieldName(PrintFieldName(alias, name, rest)) == Done(name, rest)
    ensures !At(PrintFieldName(alias, name, rest), "...")
  {
    NameFirst(name, rest);
    TextsDiffer(N(name));
    if alias.Some? {
      NameFirst(alias.value, [P(":")] + ([N(name)] + rest));
      TextsDiffer(N(alias.value));
    }
  }

  // ------------------------------------------------------------ documents

  lemma DefinitionRound(doc: Document, d: Definition, rest: Tokens)
    requires OkDefinition(d)
    requires d.FragmentDef? ==> d.name !in doc.fragments
    ensures OneDefinition(doc, PrintDefinition(d, rest)) == Done(Extended(doc, d), rest)
    ensures At(PrintDefinition(d, rest), "{") <==> d.Shorthand?
    ensures Peek(PrintDefinition(d, rest)).kind != EndOfInput
  {
    hide Directives, SelectionSet, VariableDefinitions, OkVariables, VariablesFit, OkDirectives, OkSet, IsName;
    SetRound(d.selections, rest);
    var body := PrintSet(d.selections, rest);
    match d
    case Shorthand(_) =>
    case OperationDef(typ, name, variables, directives, _) =>
      var ds := PrintDirectives(directives, body);
      DirectivesRound(directives, body);
      var vs := PrintOperationVariables(variables, ds);
      OperationVariablesRound(variables, ds);
      var named := PrintOperationName(name, vs);
      assert OperationName(named) == Done(KeptName(name), vs);
      assert OneOperation(typ, named) == Done(KeptOperation(d), rest);
      KeywordsAreNames(typ);
    case FragmentDef(name, on, directives, _) =>
      var ds := PrintDirectives(directives, body);
      DirectivesRound(directives, body);
      NameFirst(on, ds);
      assert Expect([N("on")] + ([N(on)] + ds), "on") == Done((), [N(on)] + ds);
      NameFirst(name, [N("on")] + ([N(on)] + ds));
      assert OneFragment(doc.fragments, [N(name)] + ([N("on")] + ([N(on)] + ds)))
          == Done(doc.fragments[name := KeptAll(d.selections)], rest);
  }

  lemma KeywordsAreNames(kw: string)
    requires IsOperationKeyword(kw)
    ensures kw != "{"
  {
  }

  lemma OperationVariablesRound(variables: Option<seq<VariableDef>>, rest: Tokens)
    requires variables.Some? ==> OkVariables(variables.value) && VariablesFit(variables.value, map[])
    requires !At(rest, "(") && Peek(rest).kind == Punctuator
    ensures var ts := PrintOperationVariables(variables, rest);
      && OperationVariables(ts) == Done(if variables.None? then map[] else KeptVariables(variables.value, map[]), rest)
      && Peek(ts).kind == Punctuator
  {
    if variables.Some? {
      VariablesRound(variables.value, map[], rest);
      VariablesFirst(variables.value, rest);
    }
  }

  /**
    Well-formed definitions parse exactly when they can be admitted one after the other, and then give
    the document they stand for, with nothing left but the end.
   */
  lemma {:induction false} DefinitionsRound(doc: Document, ds: seq<Definition>, rest: Tokens)
    requires AllOk(ds) && Peek(rest).kind == EndOfInput
    ensures Definitions(doc, PrintDefinitions(ds, rest))
            == if Admitted(doc, ds) then Done(KeptDocument(doc, ds), rest) else Fail
    decreases |ds|
  {
    if ds != [] {
      hide OneDefinition, PrintDefinition, OkDefinition, Extended;
      var d, tail := ds[0], PrintDefinitions(ds[1..], rest);
      if d.FragmentDef? && d.name in doc.fragments {
        RepeatedFragment(doc, d, tail);
      } else {
        DefinitionRound(doc, d, tail);
        DefinitionsRound(Extended(doc, d), ds[1..], rest);
      }
    }
  }

  predicate AllOk(ds: seq<Definition>) { forall i :: 0 <= i < |ds| ==> OkDefinition(ds[i]) }

  lemma RepeatedFragment(doc: Document, d: Definition, rest: Tokens)
    requires OkDefinition(d) && d.FragmentDef? && d.name in doc.fragments
    ensures OneDefinition(doc, PrintDefinition(d, rest)).Fail?
    ensures Peek(PrintDefinition(d, rest)).kind != EndOfInput
  {
    var after := [N("on")] + ([N(d.on)] + PrintDirectives(d.directives, PrintSet(d.selections, rest)));
    NameFirst(d.name, after);
    assert PrintDefinition(d, rest) == [N("fragment")] + ([N(d.name)] + after);
  }

  /** A whole document: it needs an operation, and its definitions must be admitted. */
  predicate IsDocument(ds: seq<Definition>) {
    && Admitted(EMPTY_DOCUMENT, ds)
    && exists i :: 0 <= i < |ds| && !ds[i].FragmentDef?
  }

  /** Parsing what was printed gives back what was kept of it: the round trip for whole documents. */
  lemma DocumentRound(ds: seq<Definition>, rest: Tokens)
    requires AllOk(ds) && Peek(rest).kind == EndOfInput
    ensures ParseDocument(PrintDefinitions(ds, rest))
            == if IsDocument(ds) then Done(KeptDocument(EMPTY_DOCUMENT, ds), rest) else Fail
  {
    DefinitionsRound(EMPTY_DOCUMENT, ds, rest);
    CountOperations(EMPTY_DOCUMENT, ds);
  }

  lemma {:induction false} CountOperations(doc: Document, ds: seq<Definition>)
    ensures KeptDocument(doc, ds).operations == []
            <==> doc.operations == [] && forall i :: 0 <= i < |ds| ==> ds[i].FragmentDef?
    decreases |ds|
  {
    if ds != [] {
      CountOperations(Extended(doc, ds[0]), ds[1..]);
      assert (forall i :: 0 <= i < |ds| ==> ds[i].FragmentDef?)
        <==> ds[0].FragmentDef? && (forall i :: 0 <= i < |ds[1..]| ==> ds[1..][i].FragmentDef?) by {
        assert forall i :: 0 < i < |ds| ==> ds[i] == ds[1..][i - 1];
      }
    }
  }

  // ------------------------------------------------------------ the limits on definitions

  /** Distinct fragments within the limits at the end were within them all the way. */
  lemma {:induction false} WithinLimitsThroughout(doc: Document, ds: seq<Definition>)
    requires WithinLimits(KeptDocument(doc, ds))
    requires forall i :: 0 <= i < |ds| && ds[i].FragmentDef? ==> ds[i].name !in doc.fragments
    requires forall i, j :: 0 <= i < j < |ds| && ds[i].FragmentDef? && ds[j].FragmentDef? ==> ds[i].name != ds[j].name
    ensures Admitted(doc, ds) && WithinLimits(doc)
    decreases |ds|
  {
    if ds != [] {
      var next := Extended(doc, ds[0]);
      WithinLimitsThroughout(next, ds[1..]);
      assert doc.fragments.Keys <= next.fragments.Keys;
      Fewer(doc.fragments.Keys, next.fragments.Keys);
      assert |doc.fragments| == |doc.fragments.Keys| && |next.fragments| == |next.fragments.Keys|;
    }
  }

  function Shorthands(n: nat): seq<Definition> { seq(n, _ => Shorthand([])) }

  /** The limit of 128 operations is not enforced on shorthand operations: any number of them parses. */
  lemma ShorthandsAreNotCounted(n: nat)
    requires n > MAX_OPERATIONS
    ensures var r := ParseDocument(PrintDefinitions(Shorthands(n), [END]));
      r.Done? && !WithinLimits(r.value) && |r.value.operations| == n
  {
    DocumentRound(Shorthands(n), [END]);
    assert Shorthands(n)[0] == Shorthand([]);
    ShorthandsKept(EMPTY_DOCUMENT, n);
  }

  lemma {:induction false} ShorthandsKept(doc: Document, n: nat)
    ensures Admitted(doc, Shorthands(n))
    ensures |KeptDocument(doc, Shorthands(n)).operations| == |doc.operations| + n
    decreases n
  {
    if n > 0 {
      assert Shorthands(n)[1..] == Shorthands(n - 1);
      ShorthandsKept(Extended(doc, Shorthand([])), n - 1);
    }
  }
}
