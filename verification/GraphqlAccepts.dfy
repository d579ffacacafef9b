/**
  The converse of the round trip: on tokens as the lexer makes them, whatever the parser accepts is the
  printing of some well-formed syntax. Together the two say exactly which token lists are accepted.
 */
module GraphqlAccepts {
  import opened Common
  import opened GraphqlDocument
  import opened GraphqlParser
  import opened GraphqlPrinter
  import opened GraphqlRoundTrip

  lemma Punct(ts: Tokens, text: string)
    requires Lexed(ts) && At(ts, text) && text in PUNCTUATORS
    ensures ts == [P(text)] + ts[1..] && Lexed(ts[1..])
  {
    TextsDiffer(ts[0]);
  }

  lemma Named1(ts: Tokens)
    requires Lexed(ts) && Name(ts).Done?
    ensures ts == [N(Name(ts).value)] + Name(ts).rest && IsName(Name(ts).value) && Lexed(Name(ts).rest)
  {
  }

  // ------------------------------------------------------------ literals and arguments

  lemma {:induction false} LiteralSound(ts: Tokens) returns (v: Literal)
    requires Lexed(ts) && Value(ts).Done?
    ensures OkLiteral(v) && ts == PrintLiteral(v, Value(ts).rest) && Lexed(Value(ts).rest)
    decreases |ts|, 0
  {
    if Peek(ts).kind == StringToken {
      v := StringLit;
    } else if Peek(ts).kind == NumberToken {
      v := NumberLit;
    } else if Peek(ts).kind == NameToken {
      v := NameLit(ts[0].text);
    } else if At(ts, "$") {
      Punct(ts, "$");
      Named1(ts[1..]);
      v := Variable(Name(ts[1..]).value);
    } else if At(ts, "[") {
      Punct(ts, "[");
      var items := ItemsSound(ts[1..]);
      v := ListLit(items);
    } else {
      Punct(ts, "{");
      var members := MembersSound(ts[1..], "}");
      v := ObjectLit(members);
    }
  }

  lemma {:induction false} ItemsSound(ts: Tokens) returns (vs: seq<Literal>)
    requires Lexed(ts) && Values(ts).Done?
    ensures OkItems(vs) && ts == PrintItems(vs, Values(ts).rest) && Lexed(Values(ts).rest)
    decreases |ts|, 1
  {
    if At(ts, "]") {
      Punct(ts, "]");
      vs := [];
    } else {
      var v := LiteralSound(ts);
      var tail := ItemsSound(Value(ts).rest);
      vs := [v] + tail;
      assert vs[1..] == tail;
    }
  }

  lemma {:induction false} MembersSound(ts: Tokens, close: string) returns (ms: seq<Member>)
    requires Lexed(ts) && Members(ts, close).Done? && close in {"}", ")"}
    ensures OkMembers(ms) && ts == PrintMembers(ms, close, Members(ts, close).rest) && Lexed(Members(ts, close).rest)
    decreases |ts|, 1
  {
    if At(ts, close) {
      Punct(ts, close);
      ms := [];
    } else {
      Named1(ts);
      var afterName := Name(ts).rest;
      Punct(afterName, ":");
      var v := LiteralSound(afterName[1..]);
      var tail := MembersSound(Value(afterName[1..]).rest, close);
      ms := [Member(Name(ts).value, v)] + tail;
      assert ms[1..] == tail;
    }
  }

  lemma ArgumentsSound(ts: Tokens) returns (arguments: Option<seq<Member>>)
    requires Lexed(ts) && Arguments(ts).Done?
    ensures OkArguments(arguments) && ts == PrintArguments(arguments, Arguments(ts).rest) && Lexed(Arguments(ts).rest)
  {
    if At(ts, "(") {
      Punct(ts, "(");
      var members := MembersSound(ts[1..], ")");
      arguments := Some(members);
    } else {
      arguments := None;
    }
  }

  lemma {:induction false} DirectivesSound(ts: Tokens) returns (ds: seq<Directive>)
    requires Lexed(ts) && Directives(ts).Done?
    ensures OkDirectives(ds) && ts == PrintDirectives(ds, Directives(ts).rest) && Lexed(Directives(ts).rest)
    ensures At(ts, "@") ==> ds != []
    decreases |ts|
  {
    if !At(ts, "@") {
      ds := [];
    } else {
      Punct(ts, "@");
      Named1(ts[1..]);
      var afterName := Name(ts[1..]).rest;
      var arguments := ArgumentsSound(afterName);
      var tail := DirectivesSound(Arguments(afterName).rest);
      ds := [Directive(Name(ts[1..]).value, arguments)] + tail;
      assert ds[1..] == tail;
    }
  }

  // ------------------------------------------------------------ variable definitions

  lemma BangSound(typ: string, ts: Tokens) returns (bang: bool)
    requires Lexed(ts)
    ensures ts == PrintBang(bang, Bang(typ, ts).rest) && Lexed(Bang(typ, ts).rest)
    ensures Bang(typ, ts).value == if bang then typ + "!" else typ
  {
    bang := At(ts, "!");
    if bang {
      Punct(ts, "!");
    }
  }

  lemma {:induction false} TypeSound(ts: Tokens) returns (t: Type)
    requires Lexed(ts) && TypeRef(ts).Done?
    ensures OkType(t) && TypeText(t) == TypeRef(ts).value
    ensures ts == PrintType(t, TypeRef(ts).rest) && Lexed(TypeRef(ts).rest)
    decreases |ts|
  {
    if At(ts, "[") {
      Punct(ts, "[");
      var inner := TypeSound(ts[1..]);
      var afterInner := TypeRef(ts[1..]).rest;
      Punct(afterInner, "]");
      var bang := BangSound("[" + TypeText(inner) + "]", afterInner[1..]);
      t := ListOf(inner, bang);
    } else {
      Named1(ts);
      var bang := BangSound(Name(ts).value, Name(ts).rest);
      t := Named(Name(ts).value, bang);
    }
  }

  lemma DefaultSound(ts: Tokens) returns (default: Option<Literal>)
    requires Lexed(ts) && DefaultValue(ts).Done?
    ensures default.Some? ==> OkLiteral(default.value)
    ensures ts == PrintDefault(default, DefaultValue(ts).rest) && Lexed(DefaultValue(ts).rest)
  {
    if At(ts, "=") {
      Punct(ts, "=");
      var v := LiteralSound(ts[1..]);
      default := Some(v);
    } else {
      default := None;
    }
  }

  lemma VariableSound(ts: Tokens) returns (v: VariableDef)
    requires Lexed(ts) && OneVariable(ts).Done?
    ensures OkVariable(v) && OneVariable(ts).value == (v.name, TypeText(v.typ))
    ensures ts == PrintVariable(v, OneVariable(ts).rest) && Lexed(OneVariable(ts).rest)
  {
    hide TypeRef, DefaultValue, Directives, PrintType, PrintDefault, PrintDirectives, Lexed, IsName, TypeText;
    Punct(ts, "$");
    var afterDollar := ts[1..];
    Named1(afterDollar);
    var afterName := Name(afterDollar).rest;
    Punct(afterName, ":");
    var typ := TypeSound(afterName[1..]);
    var afterType := TypeRef(afterName[1..]).rest;
    var default := DefaultSound(afterType);
    var afterDefault := DefaultValue(afterType).rest;
    var directives := DirectivesSound(afterDefault);
    v := VariableDef(Name(afterDollar).value, typ, default, directives);
  }

  lemma {:induction false} VariablesSound(ts: Tokens, vars: map<string, string>) returns (vs: seq<VariableDef>)
    requires Lexed(ts) && VariableDefinitions(ts, vars).Done?
    ensures OkVariables(vs) && VariablesFit(vs, vars) && VariableDefinitions(ts, vars).value == KeptVariables(vs, vars)
    ensures ts == PrintVariables(vs, VariableDefinitions(ts, vars).rest) && Lexed(VariableDefinitions(ts, vars).rest)
    decreases |ts|
  {
    if At(ts, ")") {
      Punct(ts, ")");
      vs := [];
    } else {
      hide OneVariable, PrintVariable, OkVariable, VariablesFit, Lexed;
      var v := VariableSound(ts);
      var rest := OneVariable(ts).rest;
      var more := vars[v.name := TypeText(v.typ)];
      var tail := VariablesSound(rest, more);
      vs := [v] + tail;
      assert vs[1..] == tail;
      FitsOneMore(v, tail, vars);
    }
  }

  lemma FitsOneMore(v: VariableDef, vs: seq<VariableDef>, vars: map<string, string>)
    requires |vars| < MAX_VARIABLES && VariablesFit(vs, vars[v.name := TypeText(v.typ)])
    ensures VariablesFit([v] + vs, vars)
  {
    var more := vars[v.name := TypeText(v.typ)];
    assert |vars.Keys| == |vars|;
    if vs == [] {
      assert ([v] + vs)[..0] == [];
      assert vars.Keys + DeclaredNames([]) == vars.Keys;
    } else {
      hide DeclaredNames;
      var before := vs[..|vs| - 1];
      assert ([v] + vs)[..|vs|] == [v] + before;
      OneMoreName(v, before);
      assert more.Keys + DeclaredNames(before) == vars.Keys + DeclaredNames([v] + before);
    }
  }

  // ------------------------------------------------------------ selections

  lemma {:induction false} SetSound(ts: Tokens) returns (ss: seq<Syntax>)
    requires Lexed(ts) && SelectionSet(ts).Done?
    ensures OkSet(ss) && KeptAll(ss) == SelectionSet(ts).value
    ensures ts == PrintSet(ss, SelectionSet(ts).rest) && Lexed(SelectionSet(ts).rest)
    decreases |ts|, 0
  {
    Punct(ts, "{");
    ss := SelectionsSound(ts[1..], []);
    assert [] + KeptAll(ss) == KeptAll(ss);
  }

  lemma {:induction false} SelectionsSound(ts: Tokens, sofar: seq<Selection>) returns (ss: seq<Syntax>)
    requires Lexed(ts) && Selections(ts, sofar).Done? && |sofar| <= MAX_FIELDS
    ensures OkSelections(ss) && |sofar| + |ss| <= MAX_FIELDS && Selections(ts, sofar).value == sofar + KeptAll(ss)
    ensures ts == PrintSelections(ss, Selections(ts, sofar).rest) && Lexed(Selections(ts, sofar).rest)
    decreases |ts|, 3
  {
    if At(ts, "}") {
      Punct(ts, "}");
      ss := [];
      assert sofar + [] == sofar;
    } else {
      hide OneSelection, PrintSelection, OkSyntax, Kept, Lexed;
      var s := SelectionSound(ts);
      var rest := OneSelection(ts).rest;
      var tail := SelectionsSound(rest, sofar + [Kept(s)]);
      ss := [s] + tail;
      assert ss[1..] == tail;
      AppendsOne(sofar, Kept(s), KeptAll(tail));
    }
  }

  lemma {:induction false} SelectionSound(ts: Tokens) returns (s: Syntax)
    requires Lexed(ts) && OneSelection(ts).Done?
    ensures OkSyntax(s) && Kept(s) == OneSelection(ts).value
    ensures ts == PrintSelection(s, OneSelection(ts).rest) && Lexed(OneSelection(ts).rest)
    decreases |ts|, 2
  {
    if At(ts, "...") {
      TextsDiffer(ts[0]);
      assert ts == [DOTS] + ts[1..];
      s := DotsSound(ts[1..]);
    } else {
      s := FieldSound(ts);
    }
  }

  lemma {:induction false} DotsSound(ts: Tokens) returns (s: Syntax)
    requires Lexed(ts) && AfterDots(ts).Done?
    ensures OkSyntax(s) && Kept(s) == AfterDots(ts).value
    ensures [DOTS] + ts == PrintSelection(s, AfterDots(ts).rest) && Lexed(AfterDots(ts).rest)
    decreases |ts|, 2
  {
    if At(ts, "on") {
      TextsDiffer(ts[0]);
      assert ts == [N("on")] + ts[1..];
      Named1(ts[1..]);
      var directives, body := InlineSound(Name(ts[1..]).rest);
      s := InlineSyntax(Some(Name(ts[1..]).value), directives, body);
    } else if At(ts, "@") {
      var directives, body := InlineSound(ts);
      s := InlineSyntax(None, directives, body);
    } else {
      Named1(ts);
      var directives := DirectivesSound(Name(ts).rest);
      s := SpreadSyntax(Name(ts).value, directives);
    }
  }

  lemma {:induction false} InlineSound(ts: Tokens) returns (directives: seq<Directive>, body: seq<Syntax>)
    requires Lexed(ts) && InlineBody(ts).Done?
    ensures OkDirectives(directives) && OkSet(body) && InlineBody(ts).value == Inline(KeptAll(body))
    ensures ts == PrintDirectives(directives, PrintSet(body, InlineBody(ts).rest)) && Lexed(InlineBody(ts).rest)
    ensures At(ts, "@") ==> directives != []
    decreases |ts|, 1
  {
    directives := DirectivesSound(ts);
    body := SetSound(Directives(ts).rest);
  }

  lemma FieldNameSound(ts: Tokens) returns (alias: Option<string>)
    requires Lexed(ts) && FieldName(ts).Done?
    ensures (alias.Some? ==> IsName(alias.value)) && IsName(FieldName(ts).value) && Lexed(FieldName(ts).rest)
    ensures ts == PrintFieldName(alias, FieldName(ts).value, FieldName(ts).rest)
  {
    Named1(ts);
    var rest := Name(ts).rest;
    if At(rest, ":") {
      Punct(rest, ":");
      Named1(rest[1..]);
      alias := Some(Name(ts).value);
    } else {
      alias := None;
    }
  }

  lemma {:induction false} FieldSound(ts: Tokens) returns (s: Syntax)
    requires Lexed(ts) && OneField(ts).Done?
    ensures OkSyntax(s) && Kept(s) == OneField(ts).value
    ensures ts == PrintSelection(s, OneField(ts).rest) && Lexed(OneField(ts).rest)
    decreases |ts|, 1
  {
    hide FieldName, Arguments, Directives, SelectionSet, PrintFieldName, PrintArguments, PrintDirectives, PrintSet, Lexed;
    hide IsName, OkArguments, OkDirectives;
    var alias := FieldNameSound(ts);
    var name, afterName := FieldName(ts).value, FieldName(ts).rest;
    var arguments := ArgumentsSound(afterName);
    var afterArguments := Arguments(afterName).rest;
    var directives := DirectivesSound(afterArguments);
    var afterDirectives := Directives(afterArguments).rest;
    if At(afterDirectives, "{") {
      var children := SetSound(afterDirectives);
      s := FieldSyntax(alias, name, arguments, directives, true, children);
    } else {
      s := FieldSyntax(alias, name, arguments, directives, false, []);
    }
  }

  // ------------------------------------------------------------ documents

  lemma OperationVariablesSound(ts: Tokens) returns (variables: Option<seq<VariableDef>>)
    requires Lexed(ts) && OperationVariables(ts).Done?
    ensures variables.Some? ==> OkVariables(variables.value) && VariablesFit(variables.value, map[])
    ensures OperationVariables(ts).value == if variables.None? then map[] else KeptVariables(variables.value, map[])
    ensures ts == PrintOperationVariables(variables, OperationVariables(ts).rest) && Lexed(OperationVariables(ts).rest)
  {
    if At(ts, "(") {
      Punct(ts, "(");
      var vs := VariablesSound(ts[1..], map[]);
      variables := Some(vs);
    } else {
      variables := None;
    }
  }

  lemma OperationSound(typ: string, ts: Tokens) returns (d: Definition)
    requires Lexed(ts) && OneOperation(typ, ts).Done? && IsOperationKeyword(typ)
    ensures d.OperationDef? && OkDefinition(d) && KeptOperation(d) == OneOperation(typ, ts).value
    ensures [N(typ)] + ts == PrintDefinition(d, OneOperation(typ, ts).rest) && Lexed(OneOperation(typ, ts).rest)
  {
    hide OperationVariables, Directives, SelectionSet, PrintOperationVariables, PrintDirectives, PrintSet, Lexed;
    hide OkVariables, OkDirectives, OkSet, VariablesFit;
    var opName, named := OperationNameSound(ts);
    var variables := OperationVariablesSound(named);
    var afterVars := OperationVariables(named).rest;
    var directives := DirectivesSound(afterVars);
    var sels := SetSound(Directives(afterVars).rest);
    d := OperationDef(typ, opName, variables, directives, sels);
  }

  lemma OperationNameSound(ts: Tokens) returns (opName: Option<string>, rest: Tokens)
    requires Lexed(ts)
    ensures OperationName(ts) == Done(KeptName(opName), rest) && Lexed(rest)
    ensures (opName.Some? ==> IsName(opName.value)) && ts == PrintOperationName(opName, rest)
  {
    if Peek(ts).kind == NameToken {
      Named1(ts);
      opName, rest := Some(ts[0].text), ts[1..];
    } else {
      opName, rest := None, ts;
    }
  }

  lemma FragmentSound(frags: Fragments, ts: Tokens) returns (d: Definition)
    requires Lexed(ts) && OneFragment(frags, ts).Done?
    ensures d.FragmentDef? && OkDefinition(d) && d.name !in frags
    ensures OneFragment(frags, ts).value == frags[d.name := KeptAll(d.selections)]
    ensures [N("fragment")] + ts == PrintDefinition(d, OneFragment(frags, ts).rest) && Lexed(OneFragment(frags, ts).rest)
  {
    hide Directives, SelectionSet, PrintDirectives, PrintSet, OkDirectives, OkSet;
    Named1(ts);
    var afterName := Name(ts).rest;
    TextsDiffer(afterName[0]);
    assert afterName == [N("on")] + afterName[1..];
    Named1(afterName[1..]);
    var afterType := Name(afterName[1..]).rest;
    var directives := DirectivesSound(afterType);
    var sels := SetSound(Directives(afterType).rest);
    d := FragmentDef(Name(ts).value, Name(afterName[1..]).value, directives, sels);
  }

  lemma DefinitionSound(doc: Document, ts: Tokens) returns (d: Definition)
    requires Lexed(ts) && OneDefinition(doc, ts).Done?
    ensures OkDefinition(d) && Extended(doc, d) == OneDefinition(doc, ts).value
    ensures d.FragmentDef? ==> d.name !in doc.fragments
    ensures ts == PrintDefinition(d, OneDefinition(doc, ts).rest) && Lexed(OneDefinition(doc, ts).rest)
    ensures d.Shorthand? <==> At(ts, "{")
  {
    hide OkDefinition, PrintDefinition, OneOperation, OneFragment, Lexed, SelectionSet;
    if At(ts, "{") {
      d := ShorthandSound(ts);
    } else {
      Named1(ts);
      var kw, rest := Name(ts).value, Name(ts).rest;
      if IsOperationKeyword(kw) {
        d := OperationSound(kw, rest);
      } else {
        d := FragmentSound(doc.fragments, rest);
      }
    }
  }

  lemma ShorthandSound(ts: Tokens) returns (d: Definition)
    requires Lexed(ts) && SelectionSet(ts).Done?
    ensures d.Shorthand? && OkDefinition(d) && KeptAll(d.selections) == SelectionSet(ts).value
    ensures ts == PrintDefinition(d, SelectionSet(ts).rest) && Lexed(SelectionSet(ts).rest)
  {
    var sels := SetSound(ts);
    d := Shorthand(sels);
  }

  lemma {:induction false} DefinitionsSound(doc: Document, ts: Tokens) returns (ds: seq<Definition>)
    requires Lexed(ts) && Definitions(doc, ts).Done?
    ensures AllOk(ds) && Admitted(doc, ds) && KeptDocument(doc, ds) == Definitions(doc, ts).value
    ensures ts == PrintDefinitions(ds, Definitions(doc, ts).rest) && Peek(Definitions(doc, ts).rest).kind == EndOfInput
    decreases |ts|
  {
    if Peek(ts).kind == EndOfInput {
      ds := [];
    } else {
      hide OkDefinition, PrintDefinition, OneDefinition, Extended, Lexed;
      var d := DefinitionSound(doc, ts);
      var tail := DefinitionsSound(Extended(doc, d), OneDefinition(doc, ts).rest);
      ds := [d] + tail;
      assert ds[1..] == tail;
    }
  }

  /** The printing of a document, up to the end of input. */
  ghost predicate Reads(ts: Tokens, ds: seq<Definition>, rest: Tokens) {
    AllOk(ds) && IsDocument(ds) && Peek(rest).kind == EndOfInput && ts == PrintDefinitions(ds, rest)
  }

  /** The parser accepts exactly the printings of documents, and answers with what it keeps of them. */
  lemma AcceptsExactly(ts: Tokens)
    requires Lexed(ts)
    ensures ParseDocument(ts).Done? <==> exists ds, rest :: Reads(ts, ds, rest)
    ensures forall ds, rest :: Reads(ts, ds, rest) ==> ParseDocument(ts) == Done(KeptDocument(EMPTY_DOCUMENT, ds), rest)
  {
    if ParseDocument(ts).Done? {
      var ds := DefinitionsSound(EMPTY_DOCUMENT, ts);
      CountOperations(EMPTY_DOCUMENT, ds);
      assert Reads(ts, ds, Definitions(EMPTY_DOCUMENT, ts).rest);
    }
    forall ds, rest | Reads(ts, ds, rest)
      ensures ParseDocument(ts) == Done(KeptDocument(EMPTY_DOCUMENT, ds), rest)
    {
      DocumentRound(ds, rest);
    }
  }
}
