/** The token colouring of pretty-printed JSON. */
module HighlightJson {
  import opened Wrappers
  import Escape
  import Scans

  datatype Style = Key | Str | Literal | Number | Punct | Plain

  datatype Token = Token(style: Style, text: string)

  // ------------------------------------------------------------------ where string literals are

  datatype Mode = Outside | Inside | Escaped

  function Next(m: Mode, c: char): Mode {
    match m
    case Outside => if c == '"' then Inside else Outside
    case Inside => if c == '\\' then Escaped else if c == '"' then Outside else Inside
    case Escaped => Inside
  }

  function ModeAfter(s: string): Mode {
    if s == "" then Outside else Next(ModeAfter(s[..|s| - 1]), s[|s| - 1])
  }

  lemma ModeSnoc(s: string, i: nat, j: nat)
    requires i <= j < |s|
    ensures ModeAfter(s[i..j + 1]) == Next(ModeAfter(s[i..j]), s[j])
  {
    assert s[i..j + 1][..j - i] == s[i..j];
  }

  lemma {:induction false} ModeConcat(a: string, b: string)
    requires ModeAfter(a) == Outside
    ensures ModeAfter(a + b) == ModeAfter(b)
  {
    if b == "" {
      assert a + b == a;
    } else {
      ModeConcat(a, b[..|b| - 1]);
      assert (a + b)[..|a + b| - 1] == a + b[..|b| - 1];
    }
  }

  lemma {:induction false} NoQuoteStaysOutside(s: string)
    requires '"' !in s
    ensures ModeAfter(s) == Outside
  {
    if s != "" { NoQuoteStaysOutside(s[..|s| - 1]); }
  }

  // ------------------------------------------------------------------ what the tokens are

  predicate IsDigit(c: char) {
    '0' <= c <= '9'
  }

  predicate InNumber(c: char) {
    IsDigit(c) || c in ".eE+-"
  }

  predicate StartsNumber(c: char) {
    IsDigit(c) || c == '-'
  }

  predicate IsPunct(c: char) {
    c in "{}[]:,"
  }

  const KEYWORDS := ["true", "false", "null"]

  /** The next character that is no blank is a colon. */
  ghost predicate ColonFollows(rest: string) {
    exists k :: 0 <= k < |rest| && rest[k] == ':' && forall j :: 0 <= j < k ==> rest[j] in " \t"
  }

  /** A literal from its opening quote through its closing one, or through the end if it is never closed. */
  ghost predicate IsString(t: string, rest: string) {
    && t != "" && t[0] == '"'
    && (forall k :: 1 <= k < |t| ==> ModeAfter(t[..k]) != Outside)
    && (ModeAfter(t) == Outside || (rest == "" && ModeAfter(t) == Inside))
  }

  ghost predicate IsNumber(t: string, rest: string) {
    && t != "" && StartsNumber(t[0])
    && (forall k :: 1 <= k < |t| ==> InNumber(t[k]))
    && (rest != "" ==> !InNumber(rest[0]))
  }

  ghost predicate IsPlain(t: string, rest: string) {
    && |t| == 1 && t[0] != '"' && !StartsNumber(t[0]) && !IsPunct(t[0])
    && forall k :: 0 <= k < |KEYWORDS| ==> !(KEYWORDS[k] <= t + rest)
  }

  /** The token is right, given what follows it in the source. */
  ghost predicate Fits(tok: Token, rest: string) {
    match tok.style
    case Key => IsString(tok.text, rest) && ColonFollows(rest)
    case Str => IsString(tok.text, rest) && !ColonFollows(rest)
    case Literal => tok.text in KEYWORDS
    case Number => IsNumber(tok.text, rest)
    case Punct => |tok.text| == 1 && IsPunct(tok.text[0])
    case Plain => IsPlain(tok.text, rest)
  }

  function TextOf(tok: Token): string {
    tok.text
  }

  /** The tokens, one after the other, are exactly the first `i` characters of the source, and each is right. */
  ghost predicate Scanned(src: string, toks: seq<Token>, i: nat) {
    Scans.Scanned(src, toks, i, TextOf, Fits)
  }

  lemma NothingScanned(src: string)
    ensures Scanned(src, [], 0)
  {}

  lemma LastToken(src: string, toks: seq<Token>, i: nat)
    requires Scanned(src, toks, i)
    ensures i <= |src| && (toks == [] ==> i == 0)
    ensures toks != [] ==>
              var last := toks[|toks| - 1];
              && 0 < |last.text| <= i
              && src[i - |last.text|..i] == last.text
              && Fits(last, src[i..])
              && Scanned(src, toks[..|toks| - 1], i - |last.text|)
  {
    hide Fits;
  }

  function Span(style: string, text: string): string {
    "<span class=\"rdw-json-" + style + "\">" + text + "</span>"
  }

  function Html(tok: Token): string {
    match tok.style
    case Key => Span("key", Escape.EscapeHTML(tok.text))
    case Str => Span("string", Escape.EscapeHTML(tok.text))
    case Number => Span("number", Escape.EscapeHTML(tok.text))
    case Literal => Span("literal", tok.text)
    case Punct => Span("punct", tok.text)
    case Plain => tok.text
  }

  function Render(toks: seq<Token>): string {
    if toks == [] then "" else Render(toks[..|toks| - 1]) + Html(toks[|toks| - 1])
  }

  // ------------------------------------------------------------------ the scanner

  /** The end of the literal that opens at `i`; one behind the end of the source when its last character is an
      escape. */
  method ScanString(src: string, i: nat) returns (j: nat)
    requires i < |src| && src[i] == '"'
    ensures i < j <= |src| + 1
    ensures j <= |src| ==> IsString(src[i..j], src[j..])
    ensures j > |src| ==> ModeAfter(src[i..]) == Escaped
  {
    hide ModeAfter;
    j := i + 1;
    OpensInside(src, i);
    while j < |src|
      invariant i < j <= |src| + 1
      invariant j <= |src| ==> ModeAfter(src[i..j]) == Inside && StaysIn(src, i, j)
      invariant j > |src| ==> ModeAfter(src[i..]) == Escaped
    {
      ModeSnoc(src, i, j);
      if src[j] == '\\' {
        StaysInNext(src, i, j);
        if j + 1 < |src| {
          ModeSnoc(src, i, j + 1);
          StaysInNext(src, i, j + 1);
        } else {
          assert src[i..j + 1] == src[i..];
        }
        j := j + 2;
        continue;
      }
      if src[j] == '"' {
        j := j + 1;
        assert StaysIn(src, i, j - 1);
        StringEnds(src, i, j);
        return;
      }
      StaysInNext(src, i, j);
      j := j + 1;
    }
    if j == |src| { StringEnds(src, i, j); }
  }

  /** No prefix shorter than `j` has left the literal. */
  ghost predicate StaysIn(src: string, i: nat, j: nat)
    requires i <= j <= |src|
  {
    forall k :: i < k <= j ==> ModeAfter(src[i..k]) != Outside
  }

  lemma OpensInside(src: string, i: nat)
    requires i < |src| && src[i] == '"'
    ensures ModeAfter(src[i..i + 1]) == Inside && StaysIn(src, i, i + 1)
  {
    ModeSnoc(src, i, i);
    assert src[i..i] == "";
  }

  lemma StaysInNext(src: string, i: nat, j: nat)
    requires i <= j < |src| && StaysIn(src, i, j) && ModeAfter(src[i..j + 1]) != Outside
    ensures StaysIn(src, i, j + 1)
  {}

  lemma StringEnds(src: string, i: nat, j: nat)
    requires i < j <= |src| && src[i] == '"' && StaysIn(src, i, j - 1)
    requires ModeAfter(src[i..j]) == Outside || (j == |src| && ModeAfter(src[i..j]) == Inside)
    ensures IsString(src[i..j], src[j..])
  {
    hide ModeAfter;
    var t := src[i..j];
    forall k | 1 <= k < |t| ensures ModeAfter(t[..k]) != Outside {
      assert t[..k] == src[i..i + k];
    }
  }

  method ScanBlanks(src: string, j: nat) returns (colon: bool)
    requires j <= |src|
    ensures colon <==> ColonFollows(src[j..])
  {
    var k := j;
    ghost var rest := src[j..];
    while k < |src| && (src[k] == ' ' || src[k] == '\t')
      invariant j <= k <= |src| && forall m :: 0 <= m < k - j ==> rest[m] in " \t"
    {
      k := k + 1;
    }
    colon := k < |src| && src[k] == ':';
    if colon { assert rest[k - j] == ':'; }
    if k < |src| { assert rest[k - j] == src[k]; }
  }

  method ScanNumber(src: string, i: nat) returns (j: nat)
    requires i < |src| && StartsNumber(src[i])
    ensures i < j <= |src| && IsNumber(src[i..j], src[j..])
  {
    j := i + 1;
    while j < |src| && InNumber(src[j])
      invariant i < j <= |src| && forall m :: i + 1 <= m < j ==> InNumber(src[m])
    {
      j := j + 1;
    }
  }

  method FindKeyword(src: string, i: nat) returns (kw: Option<string>)
    requires i < |src|
    ensures kw.Some? ==> kw.value in KEYWORDS && kw.value <= src[i..]
    ensures kw.None? ==> forall k :: 0 <= k < |KEYWORDS| ==> !(KEYWORDS[k] <= src[i..])
  {
    for k := 0 to |KEYWORDS|
      invariant forall m :: 0 <= m < k ==> !(KEYWORDS[m] <= src[i..])
    {
      if KEYWORDS[k] <= src[i..] {
        return Some(KEYWORDS[k]);
      }
    }
    kw := None;
  }

  /** The token that starts at `i`, or None when slicing it out runs over the end of the source. */
  method NextToken(src: string, i: nat) returns (r: Option<Token>)
    requires i < |src|
    ensures r.None? ==> ModeAfter(src[i..]) == Escaped
    ensures r.Some? ==> r.value.text != "" && r.value.text <= src[i..] && Fits(r.value, src[i..][|r.value.text|..])
  {
    hide IsString, ColonFollows, IsNumber, ModeAfter;
    var c := src[i];
    ghost var rest := src[i..];
    assert rest[0] == c;
    if c == '"' {
      var j := ScanString(src, i);
      if j > |src| {
        return None;
      }
      assert src[i..j] <= rest && rest[|src[i..j]|..] == src[j..];
      var colon := ScanBlanks(src, j);
      return Some(Token(if colon then Key else Str, src[i..j]));
    }
    if c == 't' || c == 'f' || c == 'n' {
      var kw := FindKeyword(src, i);
      if kw.Some? {
        return Some(Token(Literal, kw.value));
      }
      assert [c] + rest[1..] == rest;
      return Some(Token(Plain, [c]));
    }
    if StartsNumber(c) {
      var j := ScanNumber(src, i);
      assert src[i..j] <= rest && rest[|src[i..j]|..] == src[j..];
      return Some(Token(Number, src[i..j]));
    }
    if IsPunct(c) {
      return Some(Token(Punct, [c]));
    }
    assert [c] + rest[1..] == rest;
    NoKeyword(rest);
    r := Some(Token(Plain, [c]));
  }

  lemma NoKeyword(s: string)
    requires s != "" && s[0] != 't' && s[0] != 'f' && s[0] != 'n'
    ensures forall k :: 0 <= k < |KEYWORDS| ==> !(KEYWORDS[k] <= s)
  {}

  /** The highlighted source; None stands for the panic of a slice that ends one behind the source. It happens exactly
      when the source breaks off inside a string literal right after a backslash. */
  method Highlight(src: string) returns (html: Option<string>, ghost toks: seq<Token>)
    ensures html.None? <==> ModeAfter(src) == Escaped
    ensures html.Some? ==> Scanned(src, toks, |src|) && html.value == Render(toks)
  {
    hide Fits, ModeAfter, Html, Scanned;
    var out, i := "", 0;
    toks := [];
    NothingScanned(src);
    while i < |src|
      invariant i <= |src| && Scanned(src, toks, i) && out == Render(toks)
    {
      var tok := NextToken(src, i);
      if tok.None? {
        BreaksOff(src, toks, i);
        return None, toks;
      }
      ScannedMore(src, toks, i, tok.value);
      assert (toks + [tok.value])[..|toks|] == toks;
      out := out + Html(tok.value);
      toks := toks + [tok.value];
      i := i + |tok.value.text|;
    }
    ScannedMode(src, toks, i);
    assert src[..i] == src;
    html := Some(out);
  }

  lemma ScannedMore(src: string, toks: seq<Token>, i: nat, tok: Token)
    requires i <= |src| && Scanned(src, toks, i) && tok.text != "" && tok.text <= src[i..] &&
             Fits(tok, src[i..][|tok.text|..])
    ensures i + |tok.text| <= |src| && Scanned(src, toks + [tok], i + |tok.text|)
  {
    hide Fits;
    assert src[i..][|tok.text|..] == src[i + |tok.text|..];
    Scans.ScannedSnoc(src, toks, i, tok, TextOf, Fits);
  }

  /** A quote and a backslash are enough. */
  lemma QuoteAndBackslash()
    ensures ModeAfter("\"\\") == Escaped
  {
    var s := "\"\\";
    assert s[..1] == "\"" && s[..1][..0] == "";
    assert ModeAfter(s[..1]) == Inside;
  }

  lemma BreaksOff(src: string, toks: seq<Token>, i: nat)
    requires i < |src| && Scanned(src, toks, i) && ModeAfter(src[i..]) == Escaped
    ensures ModeAfter(src) == Escaped
  {
    hide ModeAfter, Scanned;
    ScannedMode(src, toks, i);
    ModeConcat(src[..i], src[i..]);
    assert src[..i] + src[i..] == src;
  }

  lemma NoQuote(tok: Token, rest: string)
    requires Fits(tok, rest) && tok.style != Key && tok.style != Str
    ensures '"' !in tok.text
  {
    match tok.style
    case Number => assert forall k :: 0 <= k < |tok.text| ==> InNumber(tok.text[k]);
    case _ =>
  }

  lemma TokenMode(tok: Token, rest: string)
    requires Fits(tok, rest)
    ensures ModeAfter(tok.text) == Outside || (rest == "" && ModeAfter(tok.text) == Inside)
  {
    hide ModeAfter;
    if tok.style != Key && tok.style != Str {
      NoQuote(tok, rest);
      NoQuoteStaysOutside(tok.text);
    }
  }

  /** Tokens end outside literals, but for an unclosed one at the very end. */
  lemma {:induction false} ScannedMode(src: string, toks: seq<Token>, i: nat)
    requires Scanned(src, toks, i)
    ensures ModeAfter(src[..i]) == Outside || (i == |src| && ModeAfter(src[..i]) == Inside)
    decreases |toks|
  {
    hide Fits, Scanned, ModeAfter;
    LastToken(src, toks, i);
    if toks == [] {
      NoQuoteStaysOutside(src[..i]);
    } else {
      var last := toks[|toks| - 1];
      var p := i - |last.text|;
      ScannedMode(src, toks[..|toks| - 1], p);
      TokenMode(last, src[i..]);
      ModeConcat(src[..p], last.text);
      assert src[..p] + last.text == src[..i];
    }
  }

  // ------------------------------------------------------------------ what being scanned means

  /** Nothing of the source is lost, added or moved. */
  lemma Partition(src: string, toks: seq<Token>, i: nat)
    requires Scanned(src, toks, i)
    ensures Scans.Texts(toks, TextOf) == src[..i]
  {
    hide Fits;
    Scans.Partition(src, toks, i, TextOf, Fits);
  }

  /** The source decides what its first token is. */
  lemma OnlyOneFits(a: Token, b: Token, restA: string, restB: string)
    requires Fits(a, restA) && Fits(b, restB) && a.text != "" && b.text != ""
    requires a.text + restA == b.text + restB
    ensures a == b
  {
    hide Fits;
    var s := a.text + restA;
    assert a.text == s[..|a.text|] && restA == s[|a.text|..];
    assert b.text == s[..|b.text|] && restB == s[|b.text|..];
    if |a.text| <= |b.text| {
      assert b.text[..|a.text|] == a.text && restA == b.text[|a.text|..] + restB;
      NotLongerText(a, b, restB);
    } else {
      assert a.text[..|b.text|] == b.text && restB == a.text[|b.text|..] + restA;
      NotLongerText(b, a, restA);
    }
    SameTextSameToken(a, b, restA);
  }

  lemma NotLongerText(a: Token, b: Token, restB: string)
    requires 0 < |a.text| <= |b.text| && b.text[..|a.text|] == a.text
    requires Fits(a, b.text[|a.text|..] + restB) && Fits(b, restB)
    ensures |a.text| == |b.text|
  {
    hide ModeAfter, ColonFollows;
    assert a.text[0] == b.text[0];
    assert a.text + (b.text[|a.text|..] + restB) == b.text + restB;
  }

  lemma SameTextSameToken(a: Token, b: Token, rest: string)
    requires a.text == b.text && a.text != "" && Fits(a, rest) && Fits(b, rest)
    ensures a == b
  {
    hide ModeAfter, ColonFollows;
  }

  lemma TokensAreDeterministic()
    ensures Scans.Deterministic(TextOf, Fits)
  {
    hide Fits;
    forall a: Token, b: Token, restA: string, restB: string |
      Fits(a, restA) && Fits(b, restB) && a.text != "" && b.text != "" && a.text + restA == b.text + restB
      ensures a == b
    {
      OnlyOneFits(a, b, restA, restB);
    }
  }

  /** There is only one way to colour a source. */
  lemma ColouringIsUnique(src: string, a: seq<Token>, b: seq<Token>)
    requires Scanned(src, a, |src|) && Scanned(src, b, |src|)
    ensures a == b
  {
    hide Fits;
    TokensAreDeterministic();
    Scans.Unique(src, a, b, TextOf, Fits);
  }

  function Styles(toks: seq<Token>): (r: seq<Style>) {
    if toks == [] then []
    else Styles(toks[..|toks| - 1]) + seq(|toks[|toks| - 1].text|, _ => toks[|toks| - 1].style)
  }

  /** The character belongs to a string literal, its quotes included. */
  ghost predicate InLiteral(src: string, p: nat)
    requires p < |src|
  {
    src[p] == '"' || ModeAfter(src[..p]) != Outside
  }

  lemma LiteralToken(tok: Token, rest: string, k: nat)
    requires Fits(tok, rest) && k < |tok.text|
    ensures (tok.style == Key || tok.style == Str) <==> (tok.text[k] == '"' || ModeAfter(tok.text[..k]) != Outside)
  {
    hide ModeAfter;
    if tok.style != Key && tok.style != Str {
      NoQuote(tok, rest);
      NoQuoteStaysOutside(tok.text[..k]);
    }
  }

  /** One character of the last token. */
  lemma ColourOfLast(src: string, tok: Token, q: nat, i: nat, p: nat)
    requires q <= p < i <= |src| && tok.text == src[q..i] && Fits(tok, src[i..]) && ModeAfter(src[..q]) == Outside
    ensures tok.style in {Key, Str} <==> InLiteral(src, p)
  {
    hide Fits, ModeAfter;
    LiteralToken(tok, src[i..], p - q);
    ModeConcat(src[..q], tok.text[..p - q]);
    assert src[..q] + tok.text[..p - q] == src[..p];
    assert tok.text[p - q] == src[p];
  }

  /** Exactly the characters of string literals get one of the two string colours. */
  lemma {:induction false} StringsAreColouredIff(src: string, toks: seq<Token>, i: nat)
    requires Scanned(src, toks, i)
    ensures |Styles(toks)| == i
    ensures forall p :: 0 <= p < i ==> (Styles(toks)[p] in {Key, Str} <==> InLiteral(src, p))
    decreases |toks|
  {
    hide Fits, ModeAfter, Scanned, InLiteral;
    LastToken(src, toks, i);
    if toks != [] {
      var last := toks[|toks| - 1];
      var q := i - |last.text|;
      StringsAreColouredIff(src, toks[..|toks| - 1], q);
      ScannedMode(src, toks[..|toks| - 1], q);
      forall p | q <= p < i ensures last.style in {Key, Str} <==> InLiteral(src, p) {
        ColourOfLast(src, last, q, i, p);
      }
    }
  }

  // ------------------------------------------------------------------ what the browser shows

  /** Outside string literals the source holds nothing HTML gives a meaning to, as in any JSON text. */
  ghost predicate NoMarkup(src: string) {
    forall p :: 0 <= p < |src| && !InLiteral(src, p) ==> src[p] != '<' && src[p] != '&'
  }

  /** The last part of the class the token gets; a plain one is not wrapped. */
  function Class(style: Style): Option<string> {
    match style
    case Key => Some("key")
    case Str => Some("string")
    case Literal => Some("literal")
    case Number => Some("number")
    case Punct => Some("punct")
    case Plain => None
  }

  /** The text of the token in an element of its class. */
  function TokenPieces(tok: Token): seq<Escape.Piece> {
    match Class(tok.style)
    case Some(class_) =>
      Escape.Element("span class=\"rdw-json-" + class_ + "\"", Escape.Chars(tok.text), "span")
    case None => Escape.Chars(tok.text)
  }

  function AllPieces(toks: seq<Token>): seq<Escape.Piece> {
    if toks == [] then [] else AllPieces(toks[..|toks| - 1]) + TokenPieces(toks[|toks| - 1])
  }

  lemma SpanYields(class_: string, html: string, ps: seq<Escape.Piece>)
    requires '>' !in class_ && Escape.Yields(html, ps)
    ensures Escape.Yields(Span(class_, html), Escape.Element("span class=\"rdw-json-" + class_ + "\"", ps, "span"))
  {
    hide Escape.Yields, Escape.Bracketed, Escape.Element;
    var open := "span class=\"rdw-json-" + class_ + "\"";
    Escape.ElementYields(open, html, ps, "span");
    SpanTags(class_);
  }

  lemma SpanTags(class_: string)
    ensures Escape.Bracketed("span class=\"rdw-json-" + class_ + "\"") == "<span class=\"rdw-json-" + class_ + "\">"
    ensures Escape.Bracketed("/" + "span") == "</span>"
  {
    var before, after := "<span class=\"rdw-json-", "\">";
    assert before == "<" + "span class=\"rdw-json-" && after == "\"" + ">";
  }

  lemma TokenYields(tok: Token, next: string)
    requires Fits(tok, next) && (tok.style == Plain ==> '<' !in tok.text && '&' !in tok.text)
    ensures Escape.Yields(Html(tok), TokenPieces(tok))
  {
    hide Escape.Yields, Escape.Chars, Escape.EscapeHTML, Escape.Element, Span, IsString, ColonFollows, IsNumber,
        IsPlain;
    if tok.style in {Literal, Punct, Plain} {
      Escape.OrdinaryYields(tok.text);
    } else {
      Escape.EscapedYields(tok.text);
    }
    match tok.style
    case Key => SpanYields("key", Escape.EscapeHTML(tok.text), Escape.Chars(tok.text));
    case Str => SpanYields("string", Escape.EscapeHTML(tok.text), Escape.Chars(tok.text));
    case Number => SpanYields("number", Escape.EscapeHTML(tok.text), Escape.Chars(tok.text));
    case Literal => SpanYields("literal", tok.text, Escape.Chars(tok.text));
    case Punct => SpanYields("punct", tok.text, Escape.Chars(tok.text));
    case Plain =>
  }

  /** A browser makes of the coloured text one element per token, of the token's class, and nothing else. */
  lemma {:induction false} ColoursTheSource(src: string, toks: seq<Token>, i: nat)
    requires Scanned(src, toks, i) && NoMarkup(src)
    ensures Escape.Yields(Render(toks), AllPieces(toks))
    decreases |toks|
  {
    hide Escape.Yields, Html, Fits, InLiteral, Scanned, TokenPieces;
    LastToken(src, toks, i);
    if toks == [] {
      Escape.NothingYields();
    } else {
      var init, last := toks[..|toks| - 1], toks[|toks| - 1];
      ColoursTheSource(src, init, i - |last.text|);
      if last.style == Plain { PlainIsOrdinary(src, toks, i); }
      TokenYields(last, src[i..]);
      Escape.YieldsConcat(Render(init), AllPieces(init), Html(last), TokenPieces(last));
    }
  }

  lemma TextOfToken(tok: Token)
    ensures Escape.TextOf(TokenPieces(tok)) == tok.text
  {
    hide Escape.TextOf, Escape.Chars, Escape.Element;
    Escape.TextOfChars(tok.text);
    match Class(tok.style)
    case Some(class_) =>
      Escape.TextOfElement("span class=\"rdw-json-" + class_ + "\"", Escape.Chars(tok.text), "span");
    case None =>
  }

  lemma {:induction false} TextOfTokens(src: string, toks: seq<Token>, i: nat)
    requires Scanned(src, toks, i)
    ensures i <= |src| && Escape.TextOf(AllPieces(toks)) == src[..i]
    decreases |toks|
  {
    hide Escape.TextOf, Fits, Scanned, TokenPieces;
    LastToken(src, toks, i);
    if toks == [] {
      Escape.TextOfNothing();
    } else {
      var init, last := toks[..|toks| - 1], toks[|toks| - 1];
      var p := i - |last.text|;
      TextOfTokens(src, init, p);
      TextOfToken(last);
      Escape.TextConcat(AllPieces(init), TokenPieces(last));
      assert src[..i] == src[..p] + last.text;
    }
  }

  /** The coloured text shows in the browser as the source itself. */
  lemma ShowsTheSource(src: string, toks: seq<Token>, i: nat, rest: string)
    requires Scanned(src, toks, i) && NoMarkup(src)
    ensures i <= |src| && Escape.Shown(Render(toks) + rest) == src[..i] + Escape.Shown(rest)
  {
    hide Escape.Yields, Escape.Shown, Escape.TextOf, Scanned, NoMarkup;
    ColoursTheSource(src, toks, i);
    Escape.YieldsShows(Render(toks), AllPieces(toks), rest);
    TextOfTokens(src, toks, i);
  }

  lemma LastStyle(toks: seq<Token>)
    requires toks != [] && toks[|toks| - 1].text != ""
    ensures |Styles(toks)| > 0 && Styles(toks)[|Styles(toks)| - 1] == toks[|toks| - 1].style
  {}

  lemma PlainIsOrdinary(src: string, toks: seq<Token>, i: nat)
    requires Scanned(src, toks, i) && NoMarkup(src) && toks != [] && toks[|toks| - 1].style == Plain
    ensures '<' !in toks[|toks| - 1].text && '&' !in toks[|toks| - 1].text
  {
    hide InLiteral, Scanned, IsString, IsNumber, ColonFollows, Styles;
    LastToken(src, toks, i);
    LastStyle(toks);
    StringsAreColouredIff(src, toks, i);
    assert Styles(toks)[i - 1] == Plain;
    assert !InLiteral(src, i - 1);
    assert toks[|toks| - 1].text[0] == src[i - 1];
  }
}
