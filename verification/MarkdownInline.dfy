/** Code, emphasis and links inside a line of Markdown. */
module MarkdownInline {
  import Escape
  import Text

  datatype Span =
    | Code(text: string)
    | Strong(mark: char, text: string)
    | Em(mark: char, text: string)
    | Link(text: string, url: string)
    | Char(c: char)

  /** The part of the line a span stands for. */
  function Source(sp: Span): (s: string)
    ensures s != ""
  {
    match sp
    case Code(text) => "`" + text + "`"
    case Strong(mark, text) => [mark, mark] + text + [mark, mark]
    case Em(mark, text) => [mark] + text + [mark]
    case Link(text, url) => "[" + text + "](" + url + ")"
    case Char(c) => [c]
  }

  /** A byte converted to a string is the UTF-8 form of the character with that number. */
  function Rune(c: char): string {
    if c as int < 128 then [c] else [(192 + c as int / 64) as char, (128 + c as int % 64) as char]
  }

  function Html(sp: Span): string {
    match sp
    case Code(text) => "<code class=\"rdw-md-ic\">" + Escape.EscapeHTML(text) + "</code>"
    case Strong(_, text) => "<strong>" + Escape.EscapeHTML(text) + "</strong>"
    case Em(_, text) => "<em>" + Escape.EscapeHTML(text) + "</em>"
    case Link(text, url) =>
      "<a href=\"" + Escape.EscapeHTML(url) + "\" target=\"_blank\">" + Escape.EscapeHTML(text) + "</a>"
    case Char(c) => Escape.EscapeHTML(Rune(c))
  }

  /** The first position of `a` directly followed by `b`, or |s|. */
  function FindPair(s: string, a: char, b: char): (i: nat)
    ensures i <= |s| && (i < |s| ==> i + 1 < |s| && s[i] == a && s[i + 1] == b)
    ensures forall j :: 0 <= j < i && j + 1 < |s| ==> !(s[j] == a && s[j + 1] == b)
  {
    if |s| < 2 then |s|
    else if s[0] == a && s[1] == b then 0
    else 1 + FindPair(s[1..], a, b)
  }

  predicate IsMark(c: char) {
    c == '*' || c == '_'
  }

  function NextMarked(c: char, rest: string): Span {
    if rest != "" && rest[0] == c then
      var j := FindPair(rest[1..], c, c);
      if j < |rest| - 1 then Strong(c, rest[1..][..j]) else Char(c)
    else
      var j := Text.IndexOf(rest, c);
      if j < |rest| then Em(c, rest[..j]) else Char(c)
  }

  function NextLink(rest: string): Span {
    var j := Text.IndexOf(rest, ']');
    if j + 1 < |rest| && rest[j + 1] == '(' then
      var k := Text.IndexOf(rest[j + 2..], ')');
      if k < |rest| - (j + 2) then Link(rest[..j], rest[j + 2..][..k]) else Char('[')
    else Char('[')
  }

  function NextSpan(s: string): Span
    requires s != ""
  {
    var c, rest := s[0], s[1..];
    if c == '`' then
      var j := Text.IndexOf(rest, '`');
      if j < |rest| then Code(rest[..j]) else Char(c)
    else if IsMark(c) then NextMarked(c, rest)
    else if c == '[' then NextLink(rest)
    else Char(c)
  }

  lemma CutOut(s: string, j: nat, n: nat)
    requires j + n <= |s|
    ensures s == s[..j] + s[j..j + n] + s[j + n..]
  {}

  lemma MarkedConcat(mark: string, text: string, more: string)
    ensures mark + (text + mark + more) == mark + text + mark + more
  {}

  lemma LinkConcat(text: string, url: string, more: string)
    ensures text + "](" + (url + ")" + more) == text + "](" + url + ")" + more
    ensures "[" + (text + "](" + url + ")" + more) == "[" + text + "](" + url + ")" + more
  {}

  lemma MarkedPrefix(mark: string, s: string, j: nat)
    requires j + |mark| <= |s| && s[j..j + |mark|] == mark
    ensures mark + s[..j] + mark <= mark + s
  {
    CutOut(s, j, |mark|);
    MarkedConcat(mark, s[..j], s[j + |mark|..]);
  }

  lemma NextMarkedIsPrefix(c: char, rest: string)
    ensures Source(NextMarked(c, rest)) <= [c] + rest
  {
    hide FindPair, Text.IndexOf;
    if rest != "" && rest[0] == c {
      var inner := rest[1..];
      var j := FindPair(inner, c, c);
      if j < |rest| - 1 {
        assert inner[j..j + 2] == [c, c];
        MarkedPrefix([c, c], inner, j);
        assert [c] + rest == [c, c] + inner;
      }
    } else {
      var j := Text.IndexOf(rest, c);
      if j < |rest| {
        assert rest[j..j + 1] == [c];
        MarkedPrefix([c], rest, j);
      }
    }
  }

  lemma LinkHere(rest: string, text: string, url: string, more: string)
    requires rest == text + "](" + (url + ")" + more) && ']' !in text && ')' !in url
    ensures IsLink(rest, text, url) && Source(Link(text, url)) <= "[" + rest
  {
    LinkConcat(text, url, more);
  }

  lemma NextLinkIsPrefix(rest: string)
    ensures Source(NextLink(rest)) <= "[" + rest
    ensures NextLink(rest).Link? ==> IsLink(rest, NextLink(rest).text, NextLink(rest).url)
  {
    hide Text.IndexOf, IsLink;
    var j := Text.IndexOf(rest, ']');
    if NextLink(rest).Link? {
      hide Source;
      var tail := rest[j + 2..];
      var k := Text.IndexOf(tail, ')');
      CutOut(rest, j, 2);
      assert rest[j..j + 2] == "](";
      CutOut(tail, k, 1);
      assert tail[k..k + 1] == ")";
      LinkHere(rest, rest[..j], tail[..k], tail[k + 1..]);
    }
  }

  lemma NextIsPrefix(s: string)
    requires s != ""
    ensures Source(NextSpan(s)) <= s
  {
    hide NextMarked, NextLink;
    var c, rest := s[0], s[1..];
    assert s == [c] + rest;
    if c == '`' {
      var j := Text.IndexOf(rest, '`');
      if j < |rest| { assert rest == rest[..j] + "`" + rest[j + 1..]; }
    } else if IsMark(c) {
      NextMarkedIsPrefix(c, rest);
    } else if c == '[' {
      NextLinkIsPrefix(rest);
    }
  }

  function Spans(s: string): seq<Span> {
    if s == "" then []
    else
      NextIsPrefix(s);
      [NextSpan(s)] + Spans(s[|Source(NextSpan(s))|..])
  }

  function Render(spans: seq<Span>): string {
    if spans == [] then "" else Html(spans[0]) + Render(spans[1..])
  }

  // ------------------------------------------------------------------ the scanner

  /** The span at `i`, which starts with a mark. */
  method ScanMarked(s: string, i: nat) returns (html: string, next: nat)
    requires i < |s| && IsMark(s[i])
    ensures var sp := NextMarked(s[i], s[i + 1..]); html == Html(sp) && next == i + |Source(sp)|
  {
    hide Escape.EscapeHTML;
    var c := s[i];
    ghost var rest := s[i + 1..];
    if i + 1 < |s| && s[i + 1] == c {
      var end := FindPair(s[i + 2..], c, c);
      assert rest[1..] == s[i + 2..];
      if end < |s[i + 2..]| {
        assert s[i + 2..i + 2 + end] == s[i + 2..][..end];
        return "<strong>" + Escape.EscapeHTML(s[i + 2..i + 2 + end]) + "</strong>", i + 2 + end + 2;
      }
    } else {
      var end := Text.IndexOf(s[i + 1..], c);
      if end < |s[i + 1..]| {
        assert s[i + 1..i + 1 + end] == s[i + 1..][..end];
        return "<em>" + Escape.EscapeHTML(s[i + 1..i + 1 + end]) + "</em>", i + 1 + end + 1;
      }
    }
    return Escape.EscapeHTML(Rune(c)), i + 1;
  }

  method ScanLink(s: string, i: nat) returns (html: string, next: nat)
    requires i < |s| && s[i] == '['
    ensures var sp := NextLink(s[i + 1..]); html == Html(sp) && next == i + |Source(sp)|
  {
    hide Escape.EscapeHTML;
    var textEnd := Text.IndexOf(s[i + 1..], ']');
    if textEnd < |s[i + 1..]| && i + 2 + textEnd < |s| && s[i + 1 + textEnd + 1] == '(' {
      var urlStart := i + 1 + textEnd + 2;
      var urlEnd := Text.IndexOf(s[urlStart..], ')');
      assert s[i + 1..][textEnd + 2..] == s[urlStart..];
      if urlEnd < |s[urlStart..]| {
        var text := s[i + 1..i + 1 + textEnd];
        var url := s[urlStart..urlStart + urlEnd];
        assert text == s[i + 1..][..textEnd] && url == s[urlStart..][..urlEnd];
        return "<a href=\"" + Escape.EscapeHTML(url) + "\" target=\"_blank\">" + Escape.EscapeHTML(text) + "</a>",
               urlStart + urlEnd + 1;
      }
    }
    return Escape.EscapeHTML(Rune('[')), i + 1;
  }

  method ScanSpan(s: string, i: nat) returns (html: string, next: nat)
    requires i < |s|
    ensures html == Html(NextSpan(s[i..])) && next == i + |Source(NextSpan(s[i..]))|
  {
    hide Escape.EscapeHTML, NextMarked, NextLink;
    var c := s[i];
    assert s[i..][0] == c && s[i..][1..] == s[i + 1..];
    if c == '`' {
      var j := Text.IndexOf(s[i + 1..], '`');
      if j < |s[i + 1..]| {
        assert s[i + 1..i + 1 + j] == s[i + 1..][..j];
        return "<code class=\"rdw-md-ic\">" + Escape.EscapeHTML(s[i + 1..i + 1 + j]) + "</code>", i + 1 + j + 1;
      }
      return Escape.EscapeHTML(Rune(c)), i + 1;
    }
    if c == '*' || c == '_' {
      html, next := ScanMarked(s, i);
      return;
    }
    if c == '[' {
      html, next := ScanLink(s, i);
      return;
    }
    return Escape.EscapeHTML(Rune(c)), i + 1;
  }

  /** Every turn advances and no index leaves the line. */
  method InlineMarkdown(s: string) returns (html: string)
    ensures html == Render(Spans(s))
  {
    hide Html, Source, NextSpan;
    html := "";
    var i := 0;
    while i < |s|
      invariant i <= |s| && html + Render(Spans(s[i..])) == Render(Spans(s))
    {
      NextIsPrefix(s[i..]);
      SpansUnfold(s[i..]);
      var piece, next := ScanSpan(s, i);
      ghost var more := Render(Spans(s[next..]));
      assert s[i..][|Source(NextSpan(s[i..]))|..] == s[next..];
      assert html + (piece + more) == (html + piece) + more;
      html := html + piece;
      i := next;
    }
    assert Render(Spans(s[i..])) == "";
    assert html + "" == html;
  }

  lemma SpansUnfold(s: string)
    requires s != "" && Source(NextSpan(s)) <= s
    ensures Render(Spans(s)) == Html(NextSpan(s)) + Render(Spans(s[|Source(NextSpan(s))|..]))
  {
    hide Html, Source, NextSpan;
    assert Spans(s)[1..] == Spans(s[|Source(NextSpan(s))|..]);
  }

  // ------------------------------------------------------------------ what the spans are

  ghost predicate HasPair(s: string, a: char, b: char) {
    exists j :: 0 <= j < |s| - 1 && s[j] == a && s[j + 1] == b
  }

  /** The text goes on as `text](url)`, the bracket and the parenthesis being the first ones. */
  ghost predicate IsLink(s: string, text: string, url: string) {
    ']' !in text && ')' !in url && text + "](" + url + ")" <= s
  }

  /** The span is right, given what follows it: a mark is a character of its own exactly when nothing closes it. */
  ghost predicate Fits(sp: Span, rest: string) {
    match sp
    case Code(text) => '`' !in text
    case Strong(mark, text) => IsMark(mark) && !HasPair(text + [mark], mark, mark)
    case Em(mark, text) => IsMark(mark) && text != "" && mark !in text
    case Link(text, url) => ']' !in text && ')' !in url
    case Char(c) =>
      && (c == '`' ==> '`' !in rest)
      && (IsMark(c) ==> if rest != "" && rest[0] == c then !HasPair(rest[1..], c, c) else c !in rest)
      && (c == '[' ==> forall text, url :: !IsLink(rest, text, url))
  }

  /** The line is the spans one after the other, each right. */
  ghost predicate Spanned(s: string, spans: seq<Span>)
    decreases |spans|
  {
    if spans == [] then s == ""
    else
      && Source(spans[0]) <= s
      && Fits(spans[0], s[|Source(spans[0])|..])
      && Spanned(s[|Source(spans[0])|..], spans[1..])
  }

  lemma IndexOfNone(s: string, c: char)
    ensures Text.IndexOf(s, c) == |s| <==> c !in s
  {}

  lemma IndexOfIs(s: string, c: char, p: string)
    requires c !in p && p + [c] <= s
    ensures Text.IndexOf(s, c) == |p|
  {
    Text.IndexAfter(p, c, s[|p| + 1..]);
    assert s == p + [c] + s[|p| + 1..];
  }

  lemma FindPairNone(s: string, a: char, b: char)
    ensures FindPair(s, a, b) == |s| <==> !HasPair(s, a, b)
  {}

  lemma FindPairIs(s: string, c: char, p: string)
    requires p + [c, c] <= s && !HasPair(p + [c], c, c)
    ensures FindPair(s, c, c) == |p|
  {
    var i := FindPair(s, c, c);
    var q := p + [c];
    assert s[|p|] == (p + [c, c])[|p|] && s[|p| + 1] == (p + [c, c])[|p| + 1];
    assert forall j :: 0 <= j < |q| ==> q[j] == (p + [c, c])[j] == s[j];
  }

  lemma MarkedFits(c: char, rest: string)
    requires IsMark(c)
    ensures var sp := NextMarked(c, rest); Source(sp) <= [c] + rest && Fits(sp, ([c] + rest)[|Source(sp)|..])
  {
    hide FindPair, Text.IndexOf;
    NextMarkedIsPrefix(c, rest);
    assert ([c] + rest)[1..] == rest;
    if rest != "" && rest[0] == c {
      var j := FindPair(rest[1..], c, c);
      FindPairNone(rest[1..], c, c);
      if j < |rest| - 1 {
        var q := rest[1..][..j] + [c];
        assert forall k :: 0 <= k < |q| ==> q[k] == rest[1..][k];
      }
    } else {
      IndexOfNone(rest, c);
    }
  }

  lemma LinkFits(rest: string)
    ensures var sp := NextLink(rest); Source(sp) <= "[" + rest && Fits(sp, ("[" + rest)[|Source(sp)|..])
  {
    hide Text.IndexOf;
    NextLinkIsPrefix(rest);
    if NextLink(rest).Char? {
      assert ("[" + rest)[1..] == rest;
      forall text, url ensures !IsLink(rest, text, url) {
        if IsLink(rest, text, url) { LinkIsNext(rest, text, url); }
      }
    }
  }

  lemma LinkIsNext(rest: string, text: string, url: string)
    requires IsLink(rest, text, url)
    ensures NextLink(rest) == Link(text, url)
  {
    hide Text.IndexOf;
    var all := text + "](" + url + ")";
    var tail := rest[|text| + 2..];
    assert text + [']'] <= all && all[|text| + 1] == '(';
    IndexOfIs(rest, ']', text);
    assert url + [')'] == all[|text| + 2..] <= tail;
    IndexOfIs(tail, ')', url);
    assert rest[..|text|] == all[..|text|] == text;
    assert tail[..|url|] == url;
  }

  /** What the scanner takes is right. */
  lemma NextFits(s: string)
    requires s != ""
    ensures Source(NextSpan(s)) <= s && Fits(NextSpan(s), s[|Source(NextSpan(s))|..])
  {
    hide NextMarked, NextLink, HasPair, IsLink, Text.IndexOf;
    NextIsPrefix(s);
    var c, rest := s[0], s[1..];
    assert s == [c] + rest;
    if c == '`' {
      IndexOfNone(rest, '`');
    } else if IsMark(c) {
      MarkedFits(c, rest);
    } else if c == '[' {
      LinkFits(rest);
    }
  }

  lemma StrongIsNext(c: char, text: string, rest: string)
    requires [c, c] + text + [c, c] <= [c] + rest && !HasPair(text + [c], c, c)
    ensures NextMarked(c, rest) == Strong(c, text)
  {
    hide FindPair, HasPair;
    var src, s := [c, c] + text + [c, c], [c] + rest;
    assert s[1..] == rest && src[1] == s[1] == rest[0];
    assert text + [c, c] == src[2..] <= rest[1..];
    FindPairIs(rest[1..], c, text);
    assert rest[1..][..|text|] == text;
  }

  lemma EmIsNext(c: char, text: string, rest: string)
    requires [c] + text + [c] <= [c] + rest && text != "" && c !in text
    ensures NextMarked(c, rest) == Em(c, text)
  {
    hide FindPair, Text.IndexOf;
    var src, s := [c] + text + [c], [c] + rest;
    assert s[1..] == rest && src[1] == text[0] == s[1] == rest[0];
    assert text + [c] == src[1..] <= rest;
    IndexOfIs(rest, c, text);
    assert rest[..|text|] == text;
  }

  lemma MarkIsNext(c: char, rest: string)
    requires IsMark(c) && Fits(Char(c), rest)
    ensures NextMarked(c, rest) == Char(c)
  {
    hide FindPair, Text.IndexOf, HasPair, IsLink;
    IndexOfNone(rest, c);
    if rest != "" && rest[0] == c { FindPairNone(rest[1..], c, c); }
  }

  lemma OnlyMarkedFits(sp: Span, c: char, rest: string)
    requires IsMark(c) && Source(sp) <= [c] + rest && Fits(sp, ([c] + rest)[|Source(sp)|..])
    ensures sp == NextMarked(c, rest)
  {
    hide FindPair, NextMarked, HasPair, IsLink;
    assert Source(sp)[0] == c;
    match sp
    case Strong(mark, text) => StrongIsNext(c, text, rest);
    case Em(mark, text) => EmIsNext(c, text, rest);
    case Char(_) =>
      assert ([c] + rest)[1..] == rest;
      MarkIsNext(c, rest);
    case _ =>
  }

  lemma OnlyLinkFits(sp: Span, rest: string)
    requires Source(sp) <= "[" + rest && Fits(sp, ("[" + rest)[|Source(sp)|..])
    ensures sp == NextLink(rest)
  {
    hide Text.IndexOf, HasPair;
    var s := "[" + rest;
    assert s[1..] == rest && Source(sp)[0] == '[';
    match sp
    case Link(text, url) =>
      assert text + "](" + url + ")" == Source(sp)[1..] <= rest;
      LinkIsNext(rest, text, url);
    case Char(_) =>
      NextLinkIsPrefix(rest);
    case _ =>
  }

  /** Nothing else would be right. */
  lemma OnlyNextFits(sp: Span, s: string)
    requires Source(sp) <= s && Fits(sp, s[|Source(sp)|..])
    ensures sp == NextSpan(s)
  {
    hide NextMarked, NextLink, HasPair, IsLink, Text.IndexOf;
    var c, rest := s[0], s[1..];
    assert s == [c] + rest && Source(sp)[0] == c;
    if c == '`' {
      IndexOfNone(rest, '`');
      if sp.Code? {
        assert sp.text + ['`'] == Source(sp)[1..] <= rest;
        IndexOfIs(rest, '`', sp.text);
        assert rest[..|sp.text|] == sp.text;
      }
    } else if IsMark(c) {
      OnlyMarkedFits(sp, c, rest);
    } else if c == '[' {
      OnlyLinkFits(sp, rest);
    }
  }

  /** Every line has exactly one reading as spans, and it is the one the scanner renders. */
  lemma {:induction false} SpansIff(s: string, spans: seq<Span>)
    ensures Spanned(s, spans) <==> spans == Spans(s)
    decreases |s|
  {
    hide Fits, NextSpan, Source;
    if s == "" {
      if spans != [] { assert Source(spans[0]) != ""; }
    } else {
      NextFits(s);
      var rest := s[|Source(NextSpan(s))|..];
      if spans != [] {
        if Source(spans[0]) <= s && Fits(spans[0], s[|Source(spans[0])|..]) { OnlyNextFits(spans[0], s); }
        if spans[0] == NextSpan(s) { SpansIff(rest, spans[1..]); }
      }
    }
  }

  function Sources(spans: seq<Span>): string {
    if spans == [] then "" else Source(spans[0]) + Sources(spans[1..])
  }

  /** The spans are the line, in order, with nothing left over. */
  lemma {:induction false} InlinePartition(s: string)
    ensures Sources(Spans(s)) == s
    decreases |s|
  {
    hide NextSpan, Source;
    if s != "" {
      NextIsPrefix(s);
      InlinePartition(s[|Source(NextSpan(s))|..]);
    }
  }

  // ------------------------------------------------------------------ what the browser shows

  /** The text of a span without its marks and addresses. */
  function Bare(sp: Span): string {
    match sp
    case Char(c) => [c]
    case _ => sp.text
  }

  function Visible(spans: seq<Span>): string {
    if spans == [] then "" else Bare(spans[0]) + Visible(spans[1..])
  }

  /** What a span shows: a byte outside every other span is widened to the character with its number. */
  function SpanShown(sp: Span): string {
    match sp
    case Char(c) => Rune(c)
    case _ => sp.text
  }

  function Displayed(spans: seq<Span>): string {
    if spans == [] then "" else SpanShown(spans[0]) + Displayed(spans[1..])
  }

  function LinkTag(url: string): string {
    "a href=\"" + Escape.EscapeHTML(url) + "\" target=\"_blank\""
  }

  /** What the first quotes of a tag enclose, as the browser reads it. */
  function FirstAttribute(tag: string): string {
    var from := Text.IndexOf(tag, '"');
    if from == |tag| then ""
    else
      var value := tag[from + 1..];
      Escape.Unescape(value[..Text.IndexOf(value, '"')])
  }

  /** Whatever the address is, following the link leads there. */
  lemma LinkLeadsToItsAddress(url: string)
    ensures FirstAttribute(LinkTag(url)) == url
  {
    hide Escape.EscapeHTML, Escape.Unescape, Text.IndexOf;
    var address, after := Escape.EscapeHTML(url), " target=\"_blank\"";
    var value := address + ['"'] + after;
    assert LinkTag(url) == "a href=" + ['"'] + value;
    Text.IndexAfter("a href=", '"', value);
    assert LinkTag(url)[8..] == value;
    Escape.EscapedIsSafe(url, '"');
    Text.IndexAfter(address, '"', after);
    assert value[..|address|] == address;
    Escape.EscapeRoundTrip(url);
  }

  /** The element a span becomes. */
  function SpanPieces(sp: Span): seq<Escape.Piece> {
    match sp
    case Code(text) => Escape.Element("code class=\"rdw-md-ic\"", Escape.Chars(text), "code")
    case Strong(_, text) => Escape.Element("strong", Escape.Chars(text), "strong")
    case Em(_, text) => Escape.Element("em", Escape.Chars(text), "em")
    case Link(text, url) => Escape.Element(LinkTag(url), Escape.Chars(text), "a")
    case Char(c) => Escape.Chars(Rune(c))
  }

  function LinePieces(spans: seq<Span>): seq<Escape.Piece> {
    if spans == [] then [] else SpanPieces(spans[0]) + LinePieces(spans[1..])
  }

  lemma TextElementYields(open: string, text: string, name: string)
    requires '>' !in open && '>' !in name
    ensures Escape.Yields(Escape.Bracketed(open) + Escape.EscapeHTML(text) + Escape.Bracketed("/" + name),
                          Escape.Element(open, Escape.Chars(text), name))
  {
    hide Escape.Yields, Escape.EscapeHTML, Escape.Chars, Escape.Bracketed, Escape.Element;
    Escape.EscapedYields(text);
    Escape.ElementYields(open, Escape.EscapeHTML(text), Escape.Chars(text), name);
  }

  lemma CodeYields(text: string)
    ensures Escape.Yields(Html(Code(text)), SpanPieces(Code(text)))
  {
    hide Escape.Yields, Escape.EscapeHTML, Escape.Chars, Escape.Element;
    TextElementYields("code class=\"rdw-md-ic\"", text, "code");
    assert Escape.Bracketed("code class=\"rdw-md-ic\"") == "<code class=\"rdw-md-ic\">";
    assert Escape.Bracketed("/" + "code") == "</code>";
  }

  lemma StrongYields(mark: char, text: string)
    ensures Escape.Yields(Html(Strong(mark, text)), SpanPieces(Strong(mark, text)))
  {
    hide Escape.Yields, Escape.EscapeHTML, Escape.Chars, Escape.Element;
    TextElementYields("strong", text, "strong");
    assert Escape.Bracketed("strong") == "<strong>" && Escape.Bracketed("/" + "strong") == "</strong>";
  }

  lemma EmYields(mark: char, text: string)
    ensures Escape.Yields(Html(Em(mark, text)), SpanPieces(Em(mark, text)))
  {
    hide Escape.Yields, Escape.EscapeHTML, Escape.Chars, Escape.Element;
    TextElementYields("em", text, "em");
    assert Escape.Bracketed("em") == "<em>" && Escape.Bracketed("/" + "em") == "</em>";
  }

  lemma LinkTags(url: string)
    ensures Escape.Bracketed(LinkTag(url)) == "<a href=\"" + Escape.EscapeHTML(url) + "\" target=\"_blank\">"
    ensures Escape.Bracketed("/" + "a") == "</a>" && '>' !in LinkTag(url)
  {
    hide Escape.EscapeHTML;
    var before, after := "<a href=\"", "\" target=\"_blank\">";
    assert before == "<" + "a href=\"" && after == "\" target=\"_blank\"" + ">";
    Escape.EscapedIsSafe(url, '>');
  }

  lemma LinkYields(text: string, url: string)
    ensures Escape.Yields(Html(Link(text, url)), SpanPieces(Link(text, url)))
  {
    hide Escape.Yields, Escape.EscapeHTML, Escape.Chars, Escape.Element, Escape.Bracketed, LinkTag;
    LinkTags(url);
    TextElementYields(LinkTag(url), text, "a");
  }

  lemma SpanYields(sp: Span)
    ensures Escape.Yields(Html(sp), SpanPieces(sp))
  {
    match sp
    case Code(text) => CodeYields(text);
    case Strong(mark, text) => StrongYields(mark, text);
    case Em(mark, text) => EmYields(mark, text);
    case Link(text, url) => LinkYields(text, url);
    case Char(c) =>
      hide Escape.Yields, Escape.EscapeHTML, Escape.Chars, Rune;
      Escape.EscapedYields(Rune(c));
  }

  /** Wherever it stands, a browser makes of a rendered line one element per span, in order. */
  lemma {:induction false} RenderedYields(spans: seq<Span>)
    ensures Escape.Yields(Render(spans), LinePieces(spans))
    decreases |spans|
  {
    hide Escape.Yields, Html, SpanPieces;
    if spans == [] {
      Escape.NothingYields();
    } else {
      SpanYields(spans[0]);
      RenderedYields(spans[1..]);
      Escape.YieldsConcat(Html(spans[0]), SpanPieces(spans[0]), Render(spans[1..]), LinePieces(spans[1..]));
    }
  }

  lemma TextOfSpan(sp: Span)
    ensures Escape.TextOf(SpanPieces(sp)) == SpanShown(sp)
  {
    hide Escape.TextOf, Escape.Chars, Escape.Element, Rune, LinkTag;
    match sp
    case Code(text) =>
      Escape.TextOfElement("code class=\"rdw-md-ic\"", Escape.Chars(text), "code");
      Escape.TextOfChars(text);
    case Strong(_, text) =>
      Escape.TextOfElement("strong", Escape.Chars(text), "strong");
      Escape.TextOfChars(text);
    case Em(_, text) =>
      Escape.TextOfElement("em", Escape.Chars(text), "em");
      Escape.TextOfChars(text);
    case Link(text, url) =>
      Escape.TextOfElement(LinkTag(url), Escape.Chars(text), "a");
      Escape.TextOfChars(text);
    case Char(c) => Escape.TextOfChars(Rune(c));
  }

  lemma {:induction false} TextOfLine(spans: seq<Span>)
    ensures Escape.TextOf(LinePieces(spans)) == Displayed(spans)
    decreases |spans|
  {
    hide Escape.TextOf, SpanPieces, SpanShown;
    if spans == [] {
      Escape.TextOfNothing();
    } else {
      TextOfSpan(spans[0]);
      TextOfLine(spans[1..]);
      Escape.TextConcat(SpanPieces(spans[0]), LinePieces(spans[1..]));
    }
  }

  /** Wherever it stands, a rendered line shows its spans one after the other. */
  lemma RenderedShows(spans: seq<Span>, rest: string)
    ensures Escape.Shown(Render(spans) + rest) == Displayed(spans) + Escape.Shown(rest)
  {
    hide Escape.Yields, Escape.Shown, Escape.TextOf, LinePieces, Displayed, Render;
    RenderedYields(spans);
    Escape.YieldsShows(Render(spans), LinePieces(spans), rest);
    TextOfLine(spans);
  }

  ghost predicate PlainASCII(spans: seq<Span>) {
    forall i :: 0 <= i < |spans| && spans[i].Char? ==> spans[i].c as int < 128
  }

  /** Widened bytes make the shown text longer. */
  lemma {:induction false} DisplayedLength(spans: seq<Span>)
    ensures |Displayed(spans)| >= |Visible(spans)|
    ensures PlainASCII(spans) ==> Displayed(spans) == Visible(spans)
    ensures !PlainASCII(spans) ==> |Displayed(spans)| > |Visible(spans)|
    decreases |spans|
  {
    if spans != [] {
      DisplayedLength(spans[1..]);
      if PlainASCII(spans[1..]) && (spans[0].Char? ==> spans[0].c as int < 128) {
        assert forall i :: 0 < i < |spans| ==> spans[i] == spans[1..][i - 1];
      } else if !PlainASCII(spans[1..]) {
        var i :| 0 <= i < |spans[1..]| && spans[1..][i].Char? && spans[1..][i].c as int >= 128;
        assert spans[i + 1] == spans[1..][i];
      }
    }
  }

  /** On its own, a rendered line shows its spans. */
  lemma RenderedAlone(spans: seq<Span>)
    ensures Escape.Shown(Render(spans)) == Displayed(spans)
  {
    hide Escape.Yields, Escape.Shown, Escape.TextOf, LinePieces, Displayed, Render;
    RenderedYields(spans);
    Escape.YieldsAlone(Render(spans), LinePieces(spans));
    TextOfLine(spans);
  }

  /** The browser shows the line without its marks and addresses exactly when every byte outside code, emphasis and
      links is ASCII; other bytes come out as two. */
  lemma InlineShowsIff(s: string)
    ensures Escape.Shown(Render(Spans(s))) == Visible(Spans(s)) <==> PlainASCII(Spans(s))
  {
    hide Spans, Render, Escape.Shown;
    RenderedAlone(Spans(s));
    DisplayedLength(Spans(s));
  }

  lemma AccentSpans()
    ensures Spans("\U{C3}\U{A9}") == [Char('\U{C3}'), Char('\U{A9}')]
  {
    var s := "\U{C3}\U{A9}";
    assert s[1..] == "\U{A9}" && s[1..][1..] == "";
    assert NextSpan(s) == Char('\U{C3}') && NextSpan(s[1..]) == Char('\U{A9}');
  }

  /** The two bytes of U+00E9 come out as four: U+00C3 and U+00A9. */
  lemma AccentIsGarbled()
    ensures var s := "\U{C3}\U{A9}";
            && !PlainASCII(Spans(s))
            && Escape.Shown(Render(Spans(s))) == "\U{C3}\U{83}\U{C2}\U{A9}"
            && Visible(Spans(s)) == s
  {
    hide Spans, Render, Escape.Shown;
    var spans := [Char('\U{C3}'), Char('\U{A9}')];
    AccentSpans();
    RenderedAlone(spans);
    assert spans[0].c as int >= 128;
    assert spans[1..] == [Char('\U{A9}')] && spans[1..][1..] == [];
  }
}
