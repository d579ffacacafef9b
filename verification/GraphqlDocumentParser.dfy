/** The parser as the program has it: one object over a token list, whose methods move a position forward. */
module GraphqlDocumentParser {
  import opened GraphqlDocument
  import opened GraphqlParser

  /** What a method that answers ok, a value and a new position has said. */
  function Said<T>(ok: bool, value: T, rest: Tokens): Parsed<T> {
    if ok then Done(value, rest) else Fail
  }

  class DocumentParser {
    const toks: Tokens
    var pos: nat

    ghost predicate Valid() reads this { pos <= |toks| }

    /** The tokens not yet consumed. */
    ghost function Rest(): Tokens
      requires Valid()
      reads this
    {
      toks[pos..]
    }

    constructor (toks: Tokens)
      ensures Valid() && Rest() == toks
    {
      this.toks := toks;
      pos := 0;
    }

    function PeekToken(): Token
      requires Valid()
      reads this
      ensures PeekToken() == Peek(Rest())
    {
      if pos >= |toks| then Token(EndOfInput, "") else toks[pos]
    }

    method Take() returns (t: Token)
      requires Valid()
      modifies this
      ensures Valid() && t == Peek(old(Rest()))
      ensures Rest() == if old(Rest()) == [] then [] else old(Rest())[1..]
    {
      t := PeekToken();
      if pos < |toks| { pos := pos + 1; }
    }

    method Accept(text: string) returns (ok: bool)
      requires Valid() && text != ""
      modifies this
      ensures Valid() && ok == At(old(Rest()), text)
      ensures Rest() == if ok then old(Rest())[1..] else old(Rest())
    {
      ok := PeekToken().text == text;
      if ok { pos := pos + 1; }
    }

    method ParseName() returns (ok: bool, name: string)
      requires Valid()
      modifies this
      ensures Valid() && Said(ok, name, Rest()) == Name(old(Rest()))
    {
      var t := Take();
      ok, name := t.kind == NameToken, t.text;
    }

    // ---------------------------------------------------------- what is checked and dropped

    method SkipValue() returns (ok: bool)
      requires Valid()
      modifies this
      ensures Valid() && Said(ok, (), Rest()) == Value(old(Rest()))
      decreases |Rest()|, 0
    {
      var kind := PeekToken().kind;
      if kind == StringToken || kind == NumberToken || kind == NameToken {
        var _ := Take();
        return true;
      }
      ok := Accept("$");
      if ok {
        var name;
        ok, name := ParseName();
        return;
      }
      ok := Accept("[");
      if ok {
        ok := SkipItems();
        return;
      }
      ok := Accept("{");
      if ok { ok := SkipMembers("}"); }
    }

    method SkipItems() returns (ok: bool)
      requires Valid()
      modifies this
      ensures Valid() && Said(ok, (), Rest()) == Values(old(Rest()))
      decreases |Rest()|, 1
    {
      ghost var start := Rest();
      var done := Accept("]");
      while !done
        invariant Valid() && |Rest()| <= |start|
        invariant Values(start) == if done then Done((), Rest()) else Values(Rest())
        invariant !done ==> !At(Rest(), "]")
        decreases |Rest()|, !done
      {
        if PeekToken().kind == EndOfInput { return false; }
        ok := SkipValue();
        if !ok { return; }
        done := Accept("]");
      }
      return true;
    }

    /** The loop of an argument list and of an object value; they differ in the closing token only. */
    method SkipMembers(close: string) returns (ok: bool)
      requires Valid() && close in {")", "}"}
      modifies this
      ensures Valid() && Said(ok, (), Rest()) == Members(old(Rest()), close)
      decreases |Rest()|, 1
    {
      ghost var start := Rest();
      var done := Accept(close);
      while !done
        invariant Valid() && |Rest()| <= |start|
        invariant Members(start, close) == if done then Done((), Rest()) else Members(Rest(), close)
        invariant !done ==> !At(Rest(), close)
        decreases |Rest()|, !done
      {
        if PeekToken().kind == EndOfInput { return false; }
        var name;
        ok, name := ParseName();
        if !ok { return; }
        ok := Accept(":");
        if !ok { return; }
        ok := SkipValue();
        if !ok { return; }
        done := Accept(close);
      }
      return true;
    }

    method SkipArguments() returns (ok: bool)
      requires Valid()
      modifies this
      ensures Valid() && Said(ok, (), Rest()) == Arguments(old(Rest()))
    {
      var bracket := Accept("(");
      ok := true;
      if bracket { ok := SkipMembers(")"); }
    }

    method SkipDirectives() returns (ok: bool)
      requires Valid()
      modifies this
      ensures Valid() && Said(ok, (), Rest()) == Directives(old(Rest()))
    {
      ghost var start := Rest();
      var more := Accept("@");
      while more
        invariant Valid()
        invariant !more ==> Directives(start) == Done((), Rest())
        invariant more ==> Directives(start) == AfterAt(Rest())
        decreases |Rest()|, more
      {
        var name;
        ok, name := ParseName();
        if !ok { return; }
        ok := SkipArguments();
        if !ok { return; }
        more := Accept("@");
      }
      return true;
    }

    method ParseTypeRef() returns (ok: bool, typ: string)
      requires Valid()
      modifies this
      ensures Valid() && Said(ok, typ, Rest()) == TypeRef(old(Rest()))
      decreases |Rest()|
    {
      var list := Accept("[");
      if list {
        ok, typ := ParseTypeRef();
        if !ok { return; }
        ok := Accept("]");
        if !ok { return; }
        typ := "[" + typ + "]";
      } else {
        ok, typ := ParseName();
        if !ok { return; }
      }
      var bang := Accept("!");
      if bang { typ := typ + "!"; }
    }

    /** The definition after its dollar and name have been read. */
    method ParseVariableType() returns (ok: bool, typ: string)
      requires Valid()
      modifies this
      ensures Valid() && Said(ok, typ, Rest()) == VariableType(old(Rest()))
    {
      typ := "";
      ok := Accept(":");
      if !ok { return; }
      ok, typ := ParseTypeRef();
      if !ok { return; }
      var hasDefault := Accept("=");
      if hasDefault {
        ok := SkipValue();
        if !ok { return; }
      }
      ok := SkipDirectives();
    }

    /** The definitions are entered one by one; the number of names so far is checked before each. */
    method ParseVariableDefinitions() returns (ok: bool, vars: map<string, string>)
      requires Valid()
      modifies this
      ensures Valid() && Said(ok, vars, Rest()) == VariableDefinitions(old(Rest()), map[])
    {
      ghost var start := Rest();
      vars := map[];
      var done := Accept(")");
      while !done
        invariant Valid()
        invariant VariableDefinitions(start, map[]) == if done then Done(vars, Rest()) else VariableDefinitions(Rest(), vars)
        invariant !done ==> !At(Rest(), ")")
        decreases |Rest()|, !done
      {
        if PeekToken().kind == EndOfInput { return false, vars; }
        ok := Accept("$");
        if !ok { return; }
        var name, typ;
        ok, name := ParseName();
        if !ok { return; }
        if |vars| >= MAX_VARIABLES { return false, vars; }
        ok, typ := ParseVariableType();
        if !ok { return; }
        vars := vars[name := typ];
        done := Accept(")");
      }
      return true, vars;
    }

    // ---------------------------------------------------------- schema text

    method SkipSdlArguments() returns (ok: bool)
      requires Valid()
      modifies this
      ensures Valid() && Said(ok, (), Rest()) == SdlArguments(old(Rest()), 1)
    {
      ghost var start := Rest();
      var depth := 1;
      while depth > 0
        invariant Valid() && depth >= 0
        invariant SdlArguments(start, 1) == if depth == 0 then Done((), Rest()) else SdlArguments(Rest(), depth)
        decreases |Rest()|, depth
      {
        var t := Take();
        if t.kind == EndOfInput { return false; }
        if t.text == "(" {
          depth := depth + 1;
        } else if t.text == ")" {
          depth := depth - 1;
        }
      }
      return true;
    }

    method SkipSdlDefinition()
      requires Valid()
      modifies this
      ensures Valid() && Rest() == SdlDefinition(old(Rest()), 0)
    {
      hide Deeper, SdlKeyword;
      ghost var start := Rest();
      var depth: nat := 0;
      while PeekToken().kind != EndOfInput
        invariant Valid() && SdlDefinition(start, 0) == SdlDefinition(Rest(), depth)
        decreases |Rest()|
      {
        if depth == 0 && PeekToken().kind == NameToken && SdlKeyword(PeekToken().text) { return; }
        var t := Take();
        depth := Deeper(depth, t.text);
      }
    }

    // ---------------------------------------------------------- selections

    method ParseSelectionSet() returns (ok: bool, sels: seq<Selection>)
      requires Valid()
      modifies this
      ensures Valid() && Said(ok, sels, Rest()) == SelectionSet(old(Rest()))
      decreases |Rest()|, 0
    {
      ghost var whole := Rest();
      sels := [];
      ok := Accept("{");
      if !ok { return; }
      ghost var start := Rest();
      var done := Accept("}");
      while !done
        invariant Valid() && |Rest()| <= |start| < |whole|
        invariant Selections(start, []) == if done then Done(sels, Rest()) else Selections(Rest(), sels)
        invariant !done ==> !At(Rest(), "}")
        decreases |Rest()|, !done
      {
        if PeekToken().kind == EndOfInput { return false, sels; }
        var sel;
        ok, sel := ParseSelection();
        if !ok { return; }
        sels := sels + [sel];
        if |sels| > MAX_FIELDS { return false, sels; }
        done := Accept("}");
      }
      return true, sels;
    }

    method ParseSelection() returns (ok: bool, sel: Selection)
      requires Valid()
      modifies this
      ensures Valid() && Said(ok, sel, Rest()) == OneSelection(old(Rest()))
      decreases |Rest()|, 2
    {
      var name;
      var dots := Accept("...");
      if !dots {
        ok, sel := ParseField();
        return;
      }
      sel := Inline([]);
      var on := Accept("on");
      if on {
        ok, name := ParseName();
        if !ok { return; }
        ok, sel := ParseInlineBody();
      } else if PeekToken().text == "@" {
        ok, sel := ParseInlineBody();
      } else {
        ok, name := ParseName();
        if !ok { return; }
        ok := SkipDirectives();
        sel := Spread(name);
      }
    }

    method ParseInlineBody() returns (ok: bool, sel: Selection)
      requires Valid()
      modifies this
      ensures Valid() && Said(ok, sel, Rest()) == InlineBody(old(Rest()))
      decreases |Rest()|, 1
    {
      sel := Inline([]);
      ok := SkipDirectives();
      if !ok { return; }
      var kids;
      ok, kids := ParseSelectionSet();
      sel := Inline(kids);
    }

    method ParseField() returns (ok: bool, sel: Selection)
      requires Valid()
      modifies this
      ensures Valid() && Said(ok, sel, Rest()) == OneField(old(Rest()))
      decreases |Rest()|, 1
    {
      var field;
      sel := Field("", []);
      ok, field := ParseName();
      if !ok { return; }
      var aliased := Accept(":");
      if aliased {
        ok, field := ParseName();
        if !ok { return; }
      }
      ok := SkipArguments();
      if !ok { return; }
      ok := SkipDirectives();
      if !ok { return; }
      var kids := [];
      if PeekToken().text == "{" {
        ok, kids := ParseSelectionSet();
      }
      sel := Field(field, kids);
    }

    // ---------------------------------------------------------- documents

    method ParseOperation(typ: string) returns (ok: bool, op: Operation)
      requires Valid()
      modifies this
      ensures Valid() && Said(ok, op, Rest()) == OneOperation(typ, old(Rest()))
    {
      var name, vars, sels := "", map[], [];
      op := Operation(typ, name, vars, sels);
      if PeekToken().kind == NameToken { ok, name := ParseName(); }
      var bracket := Accept("(");
      if bracket {
        ok, vars := ParseVariableDefinitions();
        if !ok { return; }
      }
      ok := SkipDirectives();
      if !ok { return; }
      ok, sels := ParseSelectionSet();
      op := Operation(typ, name, vars, sels);
    }

    method ParseFragment(frags: Fragments) returns (ok: bool, frags': Fragments)
      requires Valid()
      modifies this
      ensures Valid() && Said(ok, frags', Rest()) == OneFragment(frags, old(Rest()))
    {
      frags' := frags;
      var name, typ, sels;
      ok, name := ParseName();
      if !ok { return; }
      if name in frags { return false, frags; }
      ok := Accept("on");
      if !ok { return; }
      ok, typ := ParseName();
      if !ok { return; }
      ok := SkipDirectives();
      if !ok { return; }
      ok, sels := ParseSelectionSet();
      frags' := frags[name := sels];
    }

    /** The whole document. A shorthand operation is taken in before the limits are looked at. */
    method Parse() returns (ok: bool, doc: Document)
      requires Valid()
      modifies this
      ensures Valid() && Said(ok, doc, Rest()) == ParseDocument(old(Rest()))
    {
      ghost var start := Rest();
      doc := EMPTY_DOCUMENT;
      while PeekToken().kind != EndOfInput
        invariant Valid() && Definitions(EMPTY_DOCUMENT, start) == Definitions(doc, Rest())
        decreases |Rest()|
      {
        ghost var before := Rest();
        if PeekToken().text == "{" {
          var sels;
          ok, sels := ParseSelectionSet();
          if !ok { return; }
          doc := doc.(operations := doc.operations + [Operation("query", "", map[], sels)]);
          continue;
        }
        var kw;
        ok, kw := ParseName();
        if !ok { return; }
        if kw == "query" || kw == "mutation" || kw == "subscription" {
          var op;
          ok, op := ParseOperation(kw);
          if !ok { return; }
          doc := doc.(operations := doc.operations + [op]);
        } else if kw == "fragment" {
          var frags;
          ok, frags := ParseFragment(doc.fragments);
          if !ok { return; }
          doc := doc.(fragments := frags);
        } else {
          return false, doc;
        }
        if |doc.operations| > MAX_OPERATIONS || |doc.fragments| > MAX_FRAGMENTS { return false, doc; }
      }
      ok := |doc.operations| > 0;
    }
  }
}
