/** The bounded lexer: source text to tokens. Literal contents are dropped here. */
module GraphqlLexer {
  import opened Common
  import opened GraphqlDocument
  import opened GraphqlParser
  import opened GraphqlPrinter

  const MAX_TOKENS := 8192
  const MAX_BYTES := 65536

  const STRING := Token(StringToken, "<string>")
  const NUMBER := Token(NumberToken, "<number>")

  predicate Ignored(c: char) { c in {' ', '\t', '\r', '\n', ','} }

  predicate LineEnd(c: char) { c == '\n' || c == '\r' }

  predicate Digit(c: char) { '0' <= c <= '9' }

  predicate NumberPart(c: char) { Digit(c) || c in {'.', 'e', 'E', '+', '-'} }

  predicate StartsWith(src: string, text: string) { |text| <= |src| && src[..|text|] == text }

  function SkipComment(src: string): (rest: string)
    ensures |rest| <= |src|
  {
    if src == [] || LineEnd(src[0]) then src else SkipComment(src[1..])
  }

  function AfterName(src: string): (rest: string)
    ensures |rest| <= |src|
  {
    if src == [] || !NameContinue(src[0]) then src else AfterName(src[1..])
  }

  function AfterNumber(src: string): (rest: string)
    ensures |rest| <= |src|
  {
    if src == [] || !NumberPart(src[0]) then src else AfterNumber(src[1..])
  }

  /** What follows a block string; its opening quotes have been read. */
  function AfterBlock(src: string): (rest: Option<string>)
    ensures rest.Some? ==> |rest.value| < |src|
  {
    if |src| < 3 then None
    else if StartsWith(src, "\"\"\"") then Some(src[3..])
    else AfterBlock(src[1..])
  }

  /**
    What follows a plain string; its opening quote has been read. A string cut off by the end of the
    source is refused unless nothing, or an escape, stands right before that end.
   */
  function AfterString(src: string, escaped: bool): (rest: Option<string>)
    ensures rest.Some? ==> |rest.value| <= |src|
  {
    if src == [] then Some(src)
    else if escaped then AfterString(src[1..], false)
    else if src[0] == '\\' then AfterString(src[1..], true)
    else if src[0] == '"' then Some(src[1..])
    else if LineEnd(src[0]) || |src| == 1 then None
    else AfterString(src[1..], false)
  }

  /** The token at the front of a source that does not start with anything ignored, and what follows it. */
  function OneToken(src: string): (r: Option<(Token, string)>)
    requires src != [] && !Ignored(src[0]) && src[0] != '#'
    ensures r.Some? ==> |r.value.1| < |src|
  {
    if StartsWith(src, "...") then Some((DOTS, src[3..]))
    else if src[0] == '"' then
      var rest := if StartsWith(src, "\"\"\"") then AfterBlock(src[3..]) else AfterString(src[1..], false);
      if rest.None? then None else Some((STRING, rest.value))
    else if NameStart(src[0]) then
      var rest := AfterName(src[1..]);
      Some((N(src[..|src| - |rest|]), rest))
    else if src[0] == '-' || Digit(src[0]) then Some((NUMBER, AfterNumber(src[1..])))
    else if [src[0]] in PUNCTUATORS then Some((P([src[0]]), src[1..]))
    else None
  }

  /** The tokens of a source, with the end mark; None for a bad character, string or too many tokens. */
  function Lex(src: string, count: nat): Option<Tokens>
    decreases |src|
  {
    if src == [] then Some([END])
    else if Ignored(src[0]) then Lex(src[1..], count)
    else if src[0] == '#' then Lex(SkipComment(src[1..]), count)
    else
      match OneToken(src)
      case None => None
      case Some((t, rest)) => if count + 1 > MAX_TOKENS then None else Before([t], Lex(rest, count + 1))
  }

  function Before(out: Tokens, tail: Option<Tokens>): Option<Tokens> {
    if tail.None? then None else Some(out + tail.value)
  }

  function LexDocument(src: string): Option<Tokens> {
    if src == [] || |src| > MAX_BYTES then None else Lex(src, 0)
  }

  // ------------------------------------------------------------ what comes out of the lexer

  lemma {:induction false} NameSpan(src: string)
    ensures var k := |src| - |AfterName(src)|;
      src[k..] == AfterName(src) && forall i :: 0 <= i < k ==> NameContinue(src[i])
  {
    if src != [] && NameContinue(src[0]) {
      NameSpan(src[1..]);
    }
  }

  lemma TokenIsLexed(src: string)
    requires src != [] && !Ignored(src[0]) && src[0] != '#' && OneToken(src).Some?
    ensures LexedToken(OneToken(src).value.0) && OneToken(src).value.0.kind != EndOfInput
  {
    NameSpan(src[1..]);
  }

  /** The lexer's tokens have the shape the parser relies on, and end with the one end mark. */
  lemma {:induction false} LexerMakesTokens(src: string, count: nat)
    requires Lex(src, count).Some?
    ensures var ts := Lex(src, count).value;
      && Lexed(ts) && |ts| > 0 && ts[|ts| - 1] == END
      && forall i :: 0 <= i < |ts| - 1 ==> ts[i].kind != EndOfInput
    decreases |src|
  {
    if src != [] {
      if Ignored(src[0]) {
        LexerMakesTokens(src[1..], count);
      } else if src[0] == '#' {
        LexerMakesTokens(SkipComment(src[1..]), count);
      } else {
        TokenIsLexed(src);
        LexerMakesTokens(OneToken(src).value.1, count + 1);
      }
    }
  }

  // ------------------------------------------------------------ rendering tokens as text

  function TokenText(t: Token): string {
    if t.kind == StringToken then "\"\"" else if t.kind == NumberToken then "0" else t.text
  }

  /** The tokens written out, a space after each. */
  function Render(ts: Tokens): string {
    if ts == [] then [] else TokenText(ts[0]) + ([' '] + Render(ts[1..]))
  }

  lemma {:induction false} NameStops(name: string, rest: string)
    requires forall i :: 0 <= i < |name| ==> NameContinue(name[i])
    ensures AfterName(name + ([' '] + rest)) == [' '] + rest
  {
    if name == [] {
      assert [] + ([' '] + rest) == [' '] + rest;
    } else {
      assert (name + ([' '] + rest))[1..] == name[1..] + ([' '] + rest);
      NameStops(name[1..], rest);
    }
  }

  lemma NotThere(src: string, text: string, i: nat)
    requires i < |text| <= |src| ==> src[i] != text[i]
    requires i < |text|
    ensures !StartsWith(src, text)
  {
  }

  lemma OneTokenRound(t: Token, rest: string)
    requires LexedToken(t) && t.kind != EndOfInput
    ensures var src := TokenText(t) + ([' '] + rest);
      src != [] && !Ignored(src[0]) && src[0] != '#' && OneToken(src) == Some((t, [' '] + rest))
  {
    var src := TokenText(t) + ([' '] + rest);
    match t.kind
    case NameToken =>
      assert src[1..] == t.text[1..] + ([' '] + rest);
      NameStops(t.text[1..], rest);
      assert src[..|t.text|] == t.text;
      assert t == N(t.text);
    case Punctuator =>
      assert |t.text| == 1;
      assert src == [t.text[0]] + ([' '] + rest);
      assert [src[0]] == t.text;
      assert src[0] != '.' && src[0] != '"';
      NotThere(src, "...", 0);
    case StringToken =>
      assert src[0] == '"' && src[1] == '"' && src[2] == ' ';
      assert src[1..][0] == '"' && src[1..][1..] == [' '] + rest;
      NotThere(src, "...", 0);
      NotThere(src, "\"\"\"", 2);
    case NumberToken =>
      assert src == ['0'] + ([' '] + rest);
      assert src[1..] == [' '] + rest;
      NotThere(src, "...", 0);
    case SpreadToken =>
      assert src[0] == '.';
      assert src[..3] == "...";
      assert src[3..] == [' '] + rest;
  }

  /** Any tokens but the end mark, written out with spaces, lex back to themselves. */
  lemma {:induction false} LexingUndoesRendering(ts: Tokens, count: nat)
    requires Lexed(ts) && forall i :: 0 <= i < |ts| ==> ts[i].kind != EndOfInput
    ensures Lex(Render(ts), count) == if |ts| == 0 || count + |ts| <= MAX_TOKENS then Some(ts + [END]) else None
    decreases |ts|
  {
    if ts == [] {
      assert ts + [END] == [END];
    } else {
      hide OneToken, TokenText, LexedToken, Ignored;
      var tail := Render(ts[1..]);
      assert Render(ts) == TokenText(ts[0]) + ([' '] + tail);
      OneTokenRound(ts[0], tail);
      LexingUndoesRendering(ts[1..], count + 1);
      SpaceIsIgnored(tail, count + 1);
      LexStep(Render(ts), ts[0], [' '] + tail, count);
      assert [ts[0]] + (ts[1..] + [END]) == ts + [END];
    }
  }

  lemma SpaceIsIgnored(src: string, count: nat)
    ensures Lex([' '] + src, count) == Lex(src, count)
  {
    assert ([' '] + src)[1..] == src;
  }

  lemma LexStep(src: string, t: Token, rest: string, count: nat)
    requires src != [] && !Ignored(src[0]) && src[0] != '#' && OneToken(src) == Some((t, rest))
    ensures Lex(src, count) == if count + 1 > MAX_TOKENS then None else Before([t], Lex(rest, count + 1))
  {
  }

  // ------------------------------------------------------------ the lexer's loop

  method SkipWhile(src: string, from: nat, kind: nat) returns (i: nat)
    requires from <= |src|
    ensures from <= i <= |src|
    ensures kind == 0 ==> src[i..] == SkipComment(src[from..])
    ensures kind == 1 ==> src[i..] == AfterName(src[from..])
    ensures kind > 1 ==> src[i..] == AfterNumber(src[from..])
  {
    i := from;
    while i < |src| && (if kind == 0 then !LineEnd(src[i]) else if kind == 1 then NameContinue(src[i]) else NumberPart(src[i]))
      invariant from <= i <= |src|
      invariant kind == 0 ==> SkipComment(src[i..]) == SkipComment(src[from..])
      invariant kind == 1 ==> AfterName(src[i..]) == AfterName(src[from..])
      invariant kind > 1 ==> AfterNumber(src[i..]) == AfterNumber(src[from..])
    {
      assert src[i..][0] == src[i] && src[i..][1..] == src[i + 1..];
      i := i + 1;
    }
    assert i < |src| ==> src[i..][0] == src[i];
  }

  method SkipBlock(src: string, from: nat) returns (ok: bool, i: nat)
    requires from <= |src|
    ensures ok ==> i <= |src| && AfterBlock(src[from..]) == Some(src[i..])
    ensures !ok ==> AfterBlock(src[from..]) == None
  {
    i := from;
    while true
      invariant from <= i <= |src| && AfterBlock(src[i..]) == AfterBlock(src[from..])
      decreases |src| - i
    {
      if i + 2 >= |src| { return false, i; }
      assert src[i..][..3] == src[i..i + 3];
      if src[i..i + 3] == "\"\"\"" {
        assert src[i..][3..] == src[i + 3..];
        return true, i + 3;
      }
      assert src[i..][1..] == src[i + 1..];
      i := i + 1;
    }
  }

  method SkipString(src: string, from: nat) returns (ok: bool, i: nat)
    requires from <= |src|
    ensures ok ==> i <= |src| && AfterString(src[from..], false) == Some(src[i..])
    ensures !ok ==> AfterString(src[from..], false) == None
  {
    i := from;
    var escaped := false;
    while i < |src|
      invariant from <= i <= |src| && AfterString(src[i..], escaped) == AfterString(src[from..], false)
    {
      var c := src[i];
      assert src[i..][0] == c && src[i..][1..] == src[i + 1..];
      i := i + 1;
      if escaped {
        escaped := false;
        continue;
      }
      if c == '\\' {
        escaped := true;
        continue;
      }
      if c == '"' { return true, i; }
      if LineEnd(c) { return false, i; }
      if i == |src| { return false, i; }
    }
    return true, i;
  }

  /** One token at a position where nothing is ignored. */
  method ReadToken(src: string, i: nat) returns (ok: bool, t: Token, next: nat)
    requires i < |src| && !Ignored(src[i]) && src[i] != '#'
    ensures ok ==> i < next <= |src| && OneToken(src[i..]) == Some((t, src[next..]))
    ensures !ok ==> OneToken(src[i..]) == None
  {
    var c := src[i];
    ghost var here := src[i..];
    assert here[0] == c && here[1..] == src[i + 1..];
    assert i + 3 <= |src| ==> here[..3] == src[i..i + 3] && here[3..] == src[i + 3..];
    if i + 2 < |src| && src[i..i + 3] == "..." { return true, DOTS, i + 3; }
    if c == '"' {
      if i + 2 < |src| && src[i..i + 3] == "\"\"\"" {
        ok, next := SkipBlock(src, i + 3);
      } else {
        ok, next := SkipString(src, i + 1);
      }
      t := STRING;
      if ok { Shorter(src, i, next); }
    } else if NameStart(c) {
      next := SkipWhile(src, i + 1, 1);
      assert here[..next - i] == src[i..next];
      return true, N(src[i..next]), next;
    } else if c == '-' || Digit(c) {
      next := SkipWhile(src, i + 1, 2);
      return true, NUMBER, next;
    } else if [c] in PUNCTUATORS {
      return true, P([c]), i + 1;
    } else {
      return false, END, i;
    }
  }

  lemma Shorter(src: string, i: nat, next: nat)
    requires i < |src| && next <= |src| && |src[next..]| < |src[i..]|
    ensures i < next
  {
  }

  method LexSource(src: string) returns (ok: bool, out: Tokens)
    ensures (if ok then Some(out) else None) == LexDocument(src)
  {
    out := [];
    if |src| == 0 || |src| > MAX_BYTES { return false, out; }
    var i := 0;
    assert src[0..] == src;
    Nothing(Lex(src, 0));
    while i < |src|
      invariant i <= |src| && |out| <= MAX_TOKENS
      invariant LexDocument(src) == Before(out, Lex(src[i..], |out|))
    {
      assert src[i..][0] == src[i] && src[i..][1..] == src[i + 1..];
      if Ignored(src[i]) {
        i := i + 1;
      } else if src[i] == '#' {
        i := SkipWhile(src, i + 1, 0);
      } else {
        var t, next;
        ok, t, next := ReadToken(src, i);
        if !ok { return; }
        LexStep(src[i..], t, src[next..], |out|);
        Joined(out, t, Lex(src[next..], |out| + 1));
        out := out + [t];
        i := next;
        if |out| > MAX_TOKENS { return false, out; }
      }
    }
    return true, out + [END];
  }

  lemma Nothing(tail: Option<Tokens>)
    ensures Before([], tail) == tail
  {
    if tail.Some? {
      assert [] + tail.value == tail.value;
    }
  }

  lemma Joined(out: Tokens, t: Token, tail: Option<Tokens>)
    ensures Before(out, Before([t], tail)) == Before(out + [t], tail)
  {
    if tail.Some? {
      assert out + ([t] + tail.value) == (out + [t]) + tail.value;
    }
  }

  /** A string's contents leave no trace in the tokens, however long the string is. */
  lemma {:induction false} StringContentsVanish(body: string, rest: string)
    requires forall i :: 0 <= i < |body| ==> body[i] != '"' && body[i] != '\\' && !LineEnd(body[i])
    ensures AfterString(body + (['"'] + rest), false) == Some(rest)
  {
    var src := body + (['"'] + rest);
    if body == [] {
      assert src == ['"'] + rest;
    } else {
      assert src[1..] == body[1..] + (['"'] + rest);
      StringContentsVanish(body[1..], rest);
    }
  }

  /** The backslashes at the end of a text. */
  function Backslashes(text: string): nat {
    if text == [] || text[|text| - 1] != '\\' then 0 else 1 + Backslashes(text[..|text| - 1])
  }

  /** An odd number of backslashes stands right before this place. */
  predicate Escaped(text: string, i: nat)
    requires i <= |text|
  {
    Backslashes(text[..i]) % 2 == 1
  }

  /** A quote or a line end that is not escaped. */
  predicate Stops(text: string, i: nat)
    requires i < |text|
  {
    (text[i] == '"' || LineEnd(text[i])) && !Escaped(text, i)
  }

  /** How a text behind an opening quote is read: up to its first stop, and what happens when there is none. */
  ghost predicate ReadRight(text: string, from: nat, rest: Option<string>)
    requires from <= |text|
  {
    && (forall k :: from <= k < |text| && Stops(text, k) && (forall j :: from <= j < k ==> !Stops(text, j)) ==>
          rest == if text[k] == '"' then Some(text[k + 1..]) else None)
    && ((forall j :: from <= j < |text| ==> !Stops(text, j)) ==> rest == if Dangling(text) then Some([]) else None)
  }

  /** The text is empty, ends in a backslash, or its last character is escaped. */
  predicate Dangling(text: string) {
    text == [] || text[|text| - 1] == '\\' || Escaped(text, |text| - 1)
  }

  lemma EscapedNext(text: string, i: nat)
    requires i < |text|
    ensures Escaped(text, i + 1) <==> text[i] == '\\' && !Escaped(text, i)
  {
    assert text[..i + 1][..i] == text[..i];
  }

  lemma ReadStep(text: string, i: nat)
    requires i < |text|
    ensures AfterString(text[i..], Escaped(text, i)) ==
            if Stops(text, i) then (if text[i] == '"' then Some(text[i + 1..]) else None)
            else if i + 1 == |text| && !Dangling(text) then None
            else AfterString(text[i + 1..], Escaped(text, i + 1))
  {
    assert text[i..][0] == text[i] && text[i..][1..] == text[i + 1..];
    EscapedNext(text, i);
    hide Escaped;
  }

  /** A character that does not stop the reading changes nothing. */
  lemma ReadOn(text: string, i: nat, rest: Option<string>)
    requires i < |text| && !Stops(text, i) && ReadRight(text, i + 1, rest)
    ensures ReadRight(text, i, rest)
  {
    hide Stops, Dangling;
  }

  lemma {:induction false} ReadRightFrom(text: string, i: nat)
    requires i <= |text| && (i == |text| ==> Dangling(text))
    ensures ReadRight(text, i, AfterString(text[i..], Escaped(text, i)))
    decreases |text| - i
  {
    hide Stops, Dangling, Escaped;
    if i < |text| {
      ReadStep(text, i);
      if !Stops(text, i) && (i + 1 < |text| || Dangling(text)) {
        ReadRightFrom(text, i + 1);
        hide AfterString;
        ReadOn(text, i, AfterString(text[i + 1..], Escaped(text, i + 1)));
      }
    } else {
      assert text[i..] == [];
    }
  }

  /**
    A string ends at its first unescaped quote and is refused at an unescaped line end before that. One without
    either passes, to the end of the source, exactly when it is empty, ends in a backslash, or its last
    character is escaped.
   */
  lemma StringsAreReadRight(text: string)
    ensures ReadRight(text, 0, AfterString(text, false))
  {
    assert text[..0] == [] && text[0..] == text;
    if text != [] || Dangling(text) {
      ReadRightFrom(text, 0);
    }
  }

  /** An unterminated string at the end of a source is taken for a string token exactly when it dangles. */
  lemma UnterminatedStringsPassExactly(text: string)
    requires forall i :: 0 <= i < |text| ==> !Stops(text, i)
    ensures OneToken(['"'] + text) == if Dangling(text) then Some((STRING, [])) else None
  {
    StringsAreReadRight(text);
    var src := ['"'] + text;
    assert src[1..] == text;
    NotThere3(src);
    if text != [] {
      assert text[..0] == [];
      assert !Stops(text, 0);
    }
  }

  lemma NotThere3(src: string)
    requires src != [] && src[0] == '"'
    ensures !StartsWith(src, "...")
    ensures |src| > 1 && src[1] != '"' ==> !StartsWith(src, "\"\"\"")
    ensures |src| <= 1 ==> !StartsWith(src, "\"\"\"")
  {
    if |src| >= 3 {
      NotThere(src, "...", 0);
      if src[1] != '"' {
        NotThere(src, "\"\"\"", 1);
      }
    }
  }

  /** The lexer lets an unterminated string pass when an escape stands last, and when nothing follows its quote. */
  lemma UnterminatedStringsPass()
    ensures AfterString("a\\\"", false) == Some([])
    ensures LexDocument("\"") == Some([STRING, END])
  {
    var s := "a\\\"";
    assert s[1..] == "\\\"" && s[1..][1..] == "\"" && s[1..][1..][1..] == [];
    var q := "\"";
    assert q[1..] == [];
    assert !StartsWith(q, "...") && !StartsWith(q, "\"\"\"");
    assert OneToken(q) == Some((STRING, []));
    assert [STRING] + [END] == [STRING, END];
    LexStep(q, STRING, [], 0);
  }
}
