/**
  Source text as people write it: what the lexer reads when tokens are spelled in any way the language allows,
  with blanks, commas and comments between them.
 */
module GraphqlWriting {
  import opened Common
  import opened GraphqlParser
  import opened GraphqlPrinter
  import opened GraphqlLexer

  predicate Blank(c: char) { c in {' ', '\t', '\r', '\n', ','} }

  predicate Break(c: char) { c in {'\r', '\n'} }

  /** The first line break stands at k. */
  predicate BreakAt(text: string, k: int) { 0 <= k < |text| && Break(text[k]) && forall j :: 0 <= j < k ==> !Break(text[j]) }

  /** Blanks and comments; a comment ends with its line. */
  ghost predicate IsGap(gap: string)
    decreases |gap|
  {
    gap == [] || (Blank(gap[0]) && IsGap(gap[1..])) || (gap[0] == '#' && exists k :: 0 < k && BreakAt(gap, k) && IsGap(gap[k..]))
  }

  lemma {:induction false} CommentSkipped(text: string, k: nat)
    requires BreakAt(text, k)
    ensures SkipComment(text) == text[k..]
  {
    if k > 0 {
      CommentSkipped(text[1..], k - 1);
    }
  }

  /** Whatever stands between tokens leaves no trace. */
  lemma {:induction false} GapsVanish(gap: string, src: string, count: nat)
    requires IsGap(gap)
    ensures Lex(gap + src, count) == Lex(src, count)
    decreases |gap|
  {
    var all := gap + src;
    if gap == [] {
      assert all == src;
    } else if Blank(gap[0]) {
      assert all[1..] == gap[1..] + src;
      GapsVanish(gap[1..], src, count);
    } else {
      var k :| 0 < k && BreakAt(gap, k) && IsGap(gap[k..]);
      assert BreakAt(all[1..], k - 1);
      CommentSkipped(all[1..], k - 1);
      assert all[1..][k - 1..] == gap[k..] + src;
      GapsVanish(gap[k..], src, count);
    }
  }

  // ------------------------------------------------------------ spellings

  predicate Letter(c: char) { 'a' <= c <= 'z' || 'A' <= c <= 'Z' || c == '_' }

  predicate NameSpelled(text: string) {
    text != [] && Letter(text[0]) && forall i :: 0 <= i < |text| ==> Letter(text[i]) || '0' <= text[i] <= '9'
  }

  predicate NumberSpelled(text: string) {
    && text != [] && (text[0] == '-' || '0' <= text[0] <= '9')
    && forall i :: 1 <= i < |text| ==> '0' <= text[i] <= '9' || text[i] in {'.', 'e', 'E', '+', '-'}
  }

  /** Quotes around a text, closed by the first unescaped one, on one line. */
  predicate StringSpelled(text: string) {
    && |text| >= 2 && text[0] == '"'
    && var body, last := text[1..], |text| - 2;
       body[last] == '"' && Stops(body, last) && forall j :: 0 <= j < last ==> !Stops(body, j)
  }

  /** Three quotes around a text that holds no three quotes, on any number of lines. */
  predicate BlockSpelled(text: string) {
    |text| >= 6 && QuotesAt(text, 0) && QuotesAt(text, |text| - 3) && forall j :: 3 <= j < |text| - 3 ==> !QuotesAt(text, j)
  }

  predicate QuotesAt(text: string, j: int) { 0 <= j <= |text| - 3 && text[j] == '"' && text[j + 1] == '"' && text[j + 2] == '"' }

  /** The text is a way to write the token. */
  predicate Spells(text: string, t: Token) {
    match t.kind
    case NameToken => t.text == text && NameSpelled(text)
    case Punctuator => t.text == text && |text| == 1 && text[0] in {'!', '$', '(', ')', ':', '=', '@', '[', ']', '{', '|', '}', '&'}
    case SpreadToken => t.text == text == "..."
    case NumberToken => t.text == "<number>" && NumberSpelled(text)
    case StringToken => t.text == "<string>" && (StringSpelled(text) || BlockSpelled(text))
    case EndOfInput => false
  }

  /** What may follow a token: a gap or the end, and behind punctuation anything. */
  predicate Apart(t: Token, rest: string) {
    t.kind in {Punctuator, SpreadToken} || rest == [] || Blank(rest[0]) || rest[0] == '#'
  }

  lemma {:induction false} NameRead(name: string, rest: string)
    requires (forall i :: 0 <= i < |name| ==> Letter(name[i]) || '0' <= name[i] <= '9') && (rest == [] || Blank(rest[0]) || rest[0] == '#')
    ensures AfterName(name + rest) == rest
  {
    if name == [] {
      assert [] + rest == rest;
    } else {
      assert (name + rest)[1..] == name[1..] + rest;
      NameRead(name[1..], rest);
    }
  }

  lemma {:induction false} NumberRead(digits: string, rest: string)
    requires forall i :: 0 <= i < |digits| ==> '0' <= digits[i] <= '9' || digits[i] in {'.', 'e', 'E', '+', '-'}
    requires rest == [] || Blank(rest[0]) || rest[0] == '#'
    ensures AfterNumber(digits + rest) == rest
  {
    if digits == [] {
      assert [] + rest == rest;
    } else {
      assert (digits + rest)[1..] == digits[1..] + rest;
      NumberRead(digits[1..], rest);
    }
  }

  lemma StringRead(body: string, rest: string)
    requires body != [] && body[|body| - 1] == '"' && Stops(body, |body| - 1)
    requires forall j :: 0 <= j < |body| - 1 ==> !Stops(body, j)
    ensures AfterString(body + rest, false) == Some(rest)
  {
    var text, k := body + rest, |body| - 1;
    StringsAreReadRight(text);
    forall j | 0 <= j <= k ensures Stops(text, j) <==> Stops(body, j) {
      assert text[..j] == body[..j];
    }
    assert text[k + 1..] == rest;
    hide Stops;
  }

  lemma QuotesStart(src: string)
    ensures StartsWith(src, "\"\"\"") <==> QuotesAt(src, 0)
  {
    if |src| >= 3 {
      assert src[..3] == [src[0], src[1], src[2]];
    }
  }

  lemma {:induction false} BlockRead(body: string, rest: string)
    requires |body| >= 3 && QuotesAt(body, |body| - 3) && forall j :: 0 <= j < |body| - 3 ==> !QuotesAt(body, j)
    ensures AfterBlock(body + rest) == Some(rest)
  {
    var src := body + rest;
    QuotesStart(src);
    if |body| == 3 {
      assert src[3..] == rest;
    } else {
      assert !QuotesAt(body, 0);
      assert src[1..] == body[1..] + rest;
      forall j | 0 <= j < |body[1..]| - 3 ensures !QuotesAt(body[1..], j) {
        assert !QuotesAt(body, j + 1);
      }
      BlockRead(body[1..], rest);
    }
  }

  /** A spelled token is read as such, whatever comes apart behind it. */
  lemma SpelledIsRead(text: string, t: Token, rest: string)
    requires Spells(text, t) && Apart(t, rest)
    ensures var src := text + rest;
      src != [] && !Ignored(src[0]) && src[0] != '#' && OneToken(src) == Some((t, rest))
  {
    match t.kind
    case NameToken => NameSpelledIsRead(text, rest); assert t == N(text);
    case Punctuator => PunctuatorIsRead(text, rest); assert t == P(text);
    case SpreadToken => SpreadIsRead(rest); assert t == DOTS;
    case NumberToken => NumberSpelledIsRead(text, rest); assert t == NUMBER;
    case StringToken => StringSpelledIsRead(text, rest); assert t == STRING;
  }

  lemma NoDots(src: string)
    requires src != [] && src[0] != '.'
    ensures !StartsWith(src, "...")
  {
    NotThere(src, "...", 0);
  }

  lemma NameSpelledIsRead(text: string, rest: string)
    requires NameSpelled(text) && (rest == [] || Blank(rest[0]) || rest[0] == '#')
    ensures var src := text + rest;
      src != [] && !Ignored(src[0]) && src[0] != '#' && OneToken(src) == Some((N(text), rest))
  {
    var src := text + rest;
    NoDots(src);
    assert src[1..] == text[1..] + rest;
    NameRead(text[1..], rest);
    assert src[..|text|] == text;
  }

  lemma NumberSpelledIsRead(text: string, rest: string)
    requires NumberSpelled(text) && (rest == [] || Blank(rest[0]) || rest[0] == '#')
    ensures var src := text + rest;
      src != [] && !Ignored(src[0]) && src[0] != '#' && OneToken(src) == Some((NUMBER, rest))
  {
    var src := text + rest;
    NoDots(src);
    assert src[1..] == text[1..] + rest;
    NumberRead(text[1..], rest);
  }

  lemma PunctuatorIsRead(text: string, rest: string)
    requires |text| == 1 && text[0] in {'!', '$', '(', ')', ':', '=', '@', '[', ']', '{', '|', '}', '&'}
    ensures var src := text + rest;
      src != [] && !Ignored(src[0]) && src[0] != '#' && OneToken(src) == Some((P(text), rest))
  {
    var src := text + rest;
    NoDots(src);
    assert [src[0]] == text && src[1..] == rest;
    Punctuates(src[0]);
  }

  lemma Punctuates(c: char)
    requires c in {'!', '$', '(', ')', ':', '=', '@', '[', ']', '{', '|', '}', '&'}
    ensures [c] in PUNCTUATORS
  {
    assert c == '!' ==> [c] == "!";
    assert c == '$' ==> [c] == "$";
    assert c == '(' ==> [c] == "(";
    assert c == ')' ==> [c] == ")";
    assert c == ':' ==> [c] == ":";
    assert c == '=' ==> [c] == "=";
    assert c == '@' ==> [c] == "@";
    assert c == '[' ==> [c] == "[";
    assert c == ']' ==> [c] == "]";
    assert c == '{' ==> [c] == "{";
    assert c == '|' ==> [c] == "|";
    assert c == '}' ==> [c] == "}";
    assert c == '&' ==> [c] == "&";
  }

  lemma SpreadIsRead(rest: string)
    ensures var src := "..." + rest;
      src != [] && !Ignored(src[0]) && src[0] != '#' && OneToken(src) == Some((DOTS, rest))
  {
    var src := "..." + rest;
    assert src[0] == '.' && src[..3] == "..." && src[3..] == rest;
  }

  lemma StringSpelledIsRead(text: string, rest: string)
    requires (StringSpelled(text) || BlockSpelled(text)) && (rest == [] || Blank(rest[0]) || rest[0] == '#')
    ensures var src := text + rest;
      src != [] && !Ignored(src[0]) && src[0] != '#' && OneToken(src) == Some((STRING, rest))
  {
    var src := text + rest;
    NoDots(src);
    QuotesStart(src);
    if BlockSpelled(text) {
      var body := text[3..];
      assert src[3..] == body + rest;
      forall j | 0 <= j < |body| - 3 ensures !QuotesAt(body, j) {
        assert !QuotesAt(text, j + 3);
      }
      BlockRead(body, rest);
    } else {
      assert src[1..] == text[1..] + rest;
      StringRead(text[1..], rest);
      FirstQuoteCloses(text, rest);
    }
  }

  /** An empty string is not the beginning of a block. */
  lemma FirstQuoteCloses(text: string, rest: string)
    requires StringSpelled(text) && (rest == [] || Blank(rest[0]) || rest[0] == '#')
    ensures !QuotesAt(text + rest, 0)
  {
    var body := text[1..];
    if |text| > 2 && text[1] == '"' {
      assert body[..0] == [];
      assert Stops(body, 0);
    }
  }

  // ------------------------------------------------------------ whole documents

  /** A token as it is written, with what stands behind it. */
  datatype Piece = Piece(text: string, token: Token, gap: string)

  predicate IsWritten(p: Piece) { Spells(p.text, p.token) && (p.gap == [] ==> p.token.kind in {Punctuator, SpreadToken}) }

  function Written(pieces: seq<Piece>): string {
    if pieces == [] then [] else pieces[0].text + (pieces[0].gap + Written(pieces[1..]))
  }

  function Meant(pieces: seq<Piece>): Tokens { seq(|pieces|, i requires 0 <= i < |pieces| => pieces[i].token) }

  lemma GapsKeepApart(p: Piece, rest: string)
    requires IsWritten(p) && IsGap(p.gap)
    ensures Spells(p.text, p.token) && Apart(p.token, p.gap + rest)
  {
  }

  /** Tokens written in any spelling with any gaps lex to those tokens. */
  lemma {:induction false} LexingUndoesWriting(pieces: seq<Piece>, count: nat)
    requires forall i :: 0 <= i < |pieces| ==> IsWritten(pieces[i]) && IsGap(pieces[i].gap)
    ensures Lex(Written(pieces), count) == if |pieces| == 0 || count + |pieces| <= 8192 then Some(Meant(pieces) + [END]) else None
    decreases |pieces|
  {
    if pieces == [] {
      assert Meant(pieces) + [END] == [END];
    } else {
      var p, tail := pieces[0], Written(pieces[1..]);
      hide OneToken, Spells, Apart, IsGap, Ignored, IsWritten;
      GapsKeepApart(p, tail);
      SpelledIsRead(p.text, p.token, p.gap + tail);
      LexingUndoesWriting(pieces[1..], count + 1);
      GapsVanish(p.gap, tail, count + 1);
      LexStep(Written(pieces), p.token, p.gap + tail, count);
      assert [p.token] + (Meant(pieces[1..]) + [END]) == Meant(pieces) + [END];
    }
  }

  /** So for a whole source within the limits: a gap first, then tokens in any spelling. */
  lemma SpellingIsIrrelevant(lead: string, pieces: seq<Piece>)
    requires IsGap(lead) && forall i :: 0 <= i < |pieces| ==> IsWritten(pieces[i]) && IsGap(pieces[i].gap)
    ensures var src := lead + Written(pieces);
      LexDocument(src) == if 0 < |src| <= 65536 && |pieces| <= 8192 then Some(Meant(pieces) + [END]) else None
  {
    GapsVanish(lead, Written(pieces), 0);
    LexingUndoesWriting(pieces, 0);
  }
}
