/** Escaping of the five special HTML characters. */
module Escape {
  import Text

  const AMP := "&amp;"
  const LT := "&lt;"
  const GT := "&gt;"
  const QUOT := "&#34;"
  const APOS := "&#39;"

  function ReplaceAll(s: string, c: char, text: string): string {
    if s == "" then "" else (if s[0] == c then text else [s[0]]) + ReplaceAll(s[1..], c, text)
  }

  /** Five replacements, one after the other. */
  function EscapeHTML(s: string): string {
    var s1 := ReplaceAll(s, '&', AMP);
    var s2 := ReplaceAll(s1, '<', LT);
    var s3 := ReplaceAll(s2, '>', GT);
    var s4 := ReplaceAll(s3, '"', QUOT);
    ReplaceAll(s4, '\'', APOS)
  }

  /** What one character becomes. */
  function Entity(c: char): string {
    match c
    case '&' => AMP
    case '<' => LT
    case '>' => GT
    case '"' => QUOT
    case '\'' => APOS
    case _ => [c]
  }

  /** All characters at once. */
  function Substituted(s: string): string {
    if s == "" then "" else Entity(s[0]) + Substituted(s[1..])
  }

  lemma {:induction false} ReplaceConcat(a: string, b: string, c: char, text: string)
    ensures ReplaceAll(a + b, c, text) == ReplaceAll(a, c, text) + ReplaceAll(b, c, text)
  {
    if a == "" {
      assert a + b == b;
    } else {
      assert (a + b)[1..] == a[1..] + b;
      ReplaceConcat(a[1..], b, c, text);
    }
  }

  lemma {:induction false} ReplaceNothing(s: string, c: char, text: string)
    requires c !in s
    ensures ReplaceAll(s, c, text) == s
  {
    if s != "" { ReplaceNothing(s[1..], c, text); }
  }

  lemma ReplaceOne(c: char, text: string)
    ensures ReplaceAll([c], c, text) == text
  {
    assert [c][1..] == "";
  }

  lemma EscapeConcat(a: string, b: string)
    ensures EscapeHTML(a + b) == EscapeHTML(a) + EscapeHTML(b)
  {
    hide ReplaceAll;
    var a1, b1 := ReplaceAll(a, '&', AMP), ReplaceAll(b, '&', AMP);
    var a2, b2 := ReplaceAll(a1, '<', LT), ReplaceAll(b1, '<', LT);
    var a3, b3 := ReplaceAll(a2, '>', GT), ReplaceAll(b2, '>', GT);
    var a4, b4 := ReplaceAll(a3, '"', QUOT), ReplaceAll(b3, '"', QUOT);
    ReplaceConcat(a, b, '&', AMP);
    ReplaceConcat(a1, b1, '<', LT);
    ReplaceConcat(a2, b2, '>', GT);
    ReplaceConcat(a3, b3, '"', QUOT);
    ReplaceConcat(a4, b4, '\'', APOS);
  }

  /** No replacement touches what an earlier one put in. */
  lemma EscapeOne(c: char)
    ensures EscapeHTML([c]) == Entity(c)
  {
    hide ReplaceAll;
    var s1 := if c == '&' then AMP else [c];
    var s2 := if c == '<' then LT else s1;
    var s3 := if c == '>' then GT else s2;
    var s4 := if c == '"' then QUOT else s3;
    if c == '&' { ReplaceOne(c, AMP); } else { ReplaceNothing([c], '&', AMP); }
    if c == '<' { ReplaceOne(c, LT); } else { ReplaceNothing(s1, '<', LT); }
    if c == '>' { ReplaceOne(c, GT); } else { ReplaceNothing(s2, '>', GT); }
    if c == '"' { ReplaceOne(c, QUOT); } else { ReplaceNothing(s3, '"', QUOT); }
    if c == '\'' { ReplaceOne(c, APOS); } else { ReplaceNothing(s4, '\'', APOS); }
  }

  /** Replacing one after the other, the ampersand first, is replacing all at once. */
  lemma {:induction false} EscapeIsSimultaneous(s: string)
    ensures EscapeHTML(s) == Substituted(s)
  {
    hide ReplaceAll;
    if s == "" {
      EscapeNothing();
    } else {
      assert s == [s[0]] + s[1..];
      EscapeConcat([s[0]], s[1..]);
      EscapeOne(s[0]);
      EscapeIsSimultaneous(s[1..]);
    }
  }

  lemma EscapeNothing()
    ensures EscapeHTML("") == ""
  {}

  lemma {:induction false} SubstitutedIsSafe(s: string, c: char)
    requires c in "<>\"'"
    ensures c !in Substituted(s)
  {
    if s != "" { SubstitutedIsSafe(s[1..], c); }
  }

  /** Nothing in the result can open a tag or end an attribute. */
  lemma EscapedIsSafe(s: string, c: char)
    requires c in "<>\"'"
    ensures c !in EscapeHTML(s)
  {
    EscapeIsSimultaneous(s);
    SubstitutedIsSafe(s, c);
  }

  /** The character a text starts with, an entity counting as one, and how long it is. */
  function First(t: string): (r: (char, nat))
    requires t != ""
    ensures 0 < r.1 <= |t|
  {
    if AMP <= t then ('&', |AMP|)
    else if LT <= t then ('<', |LT|)
    else if GT <= t then ('>', |GT|)
    else if QUOT <= t then ('"', |QUOT|)
    else if APOS <= t then ('\'', |APOS|)
    else (t[0], 1)
  }

  /** The five entities read back from left to right. */
  function Unescape(t: string): string {
    if t == "" then "" else [First(t).0] + Unescape(t[First(t).1..])
  }

  lemma FirstOfEntity(c: char, rest: string)
    ensures var t := Entity(c) + rest; First(t) == (c, |Entity(c)|) && t[|Entity(c)|..] == rest
  {
    var t := Entity(c) + rest;
    assert t[0] == Entity(c)[0];
    if |Entity(c)| > 1 { assert t[1] == Entity(c)[1] && t[2] == Entity(c)[2] && t[3] == Entity(c)[3]; }
  }

  lemma {:induction false} UnescapeSubstituted(s: string)
    ensures Unescape(Substituted(s)) == s
  {
    hide First, Entity;
    if s != "" {
      UnescapeSubstituted(s[1..]);
      FirstOfEntity(s[0], Substituted(s[1..]));
    }
  }

  /** Nothing is lost: reading the entities back returns every string that was escaped. */
  lemma EscapeRoundTrip(s: string)
    ensures Unescape(EscapeHTML(s)) == s
  {
    EscapeIsSimultaneous(s);
    UnescapeSubstituted(s);
  }

  // ------------------------------------------------------------------ what a browser makes of it

  /** A tag, by what stands between its brackets, or a character of the text. */
  datatype Piece = Tag(name: string) | Char(c: char)

  /** HTML taken apart from left to right, entities read back. */
  function Pieces(html: string): seq<Piece> {
    if html == "" then []
    else if html[0] == '<' then
      var k := Text.IndexOf(html, '>');
      if k < |html| then [Tag(html[1..k])] + Pieces(html[k + 1..]) else []
    else [Char(First(html).0)] + Pieces(html[First(html).1..])
  }

  function Chars(s: string): seq<Piece> {
    if s == "" then [] else [Char(s[0])] + Chars(s[1..])
  }

  lemma {:induction false} CharsConcat(a: string, b: string)
    ensures Chars(a + b) == Chars(a) + Chars(b)
  {
    if a == "" {
      assert a + b == b;
    } else {
      assert (a + b)[1..] == a[1..] + b;
      CharsConcat(a[1..], b);
    }
  }

  function Bracketed(name: string): string {
    "<" + name + ">"
  }

  /** An element whose opening tag may carry attributes. */
  function Element(open: string, inner: seq<Piece>, name: string): seq<Piece> {
    [Tag(open)] + inner + [Tag("/" + name)]
  }

  /** Wherever the HTML stands, a browser makes these pieces of it. */
  ghost predicate Yields(html: string, ps: seq<Piece>) {
    forall rest :: Pieces(html + rest) == ps + Pieces(rest)
  }

  lemma NothingYields()
    ensures Yields("", [])
  {
    forall rest ensures Pieces("" + rest) == [] + Pieces(rest) { assert "" + rest == rest; }
  }

  lemma TagYields(name: string)
    requires '>' !in name
    ensures Yields(Bracketed(name), [Tag(name)])
  {
    forall rest ensures Pieces(Bracketed(name) + rest) == [Tag(name)] + Pieces(rest) {
      var html := Bracketed(name) + rest;
      Text.IndexAfter("<" + name, '>', rest);
      assert html == "<" + name + ['>'] + rest;
      assert html[0] == '<' && html[1..1 + |name|] == name && html[1 + |name| + 1..] == rest;
    }
  }

  lemma EntityYields(c: char)
    ensures Yields(Entity(c), [Char(c)])
  {
    hide First;
    forall rest ensures Pieces(Entity(c) + rest) == [Char(c)] + Pieces(rest) {
      FirstOfEntity(c, rest);
      assert (Entity(c) + rest)[0] == Entity(c)[0] != '<';
    }
  }

  lemma CharacterYields(c: char)
    requires c != '<' && c != '&'
    ensures Yields([c], [Char(c)])
  {
    forall rest ensures Pieces([c] + rest) == [Char(c)] + Pieces(rest) {
      var html := [c] + rest;
      assert html[0] == c && html[1..] == rest;
      assert First(html) == (c, 1);
    }
  }

  lemma YieldsConcat(a: string, p: seq<Piece>, b: string, q: seq<Piece>)
    requires Yields(a, p) && Yields(b, q)
    ensures Yields(a + b, p + q)
  {
    hide Pieces;
    forall rest ensures Pieces(a + b + rest) == p + q + Pieces(rest) {
      Text.Associates(a, b, rest);
      Text.Associates(p, q, Pieces(rest));
      assert Pieces(a + (b + rest)) == p + Pieces(b + rest);
    }
  }

  lemma ElementYields(open: string, html: string, inner: seq<Piece>, name: string)
    requires '>' !in open && '>' !in name && Yields(html, inner)
    ensures Yields(Bracketed(open) + html + Bracketed("/" + name), Element(open, inner, name))
  {
    hide Yields, Bracketed;
    TagYields(open);
    TagYields("/" + name);
    YieldsConcat(Bracketed(open), [Tag(open)], html, inner);
    YieldsConcat(Bracketed(open) + html, [Tag(open)] + inner, Bracketed("/" + name), [Tag("/" + name)]);
  }

  lemma {:induction false} SubstitutedYields(s: string)
    ensures Yields(Substituted(s), Chars(s))
  {
    hide Yields, Entity;
    if s == "" {
      NothingYields();
    } else {
      EntityYields(s[0]);
      SubstitutedYields(s[1..]);
      YieldsConcat(Entity(s[0]), [Char(s[0])], Substituted(s[1..]), Chars(s[1..]));
    }
  }

  /** A browser makes of escaped text the characters it had before and no tag. */
  lemma EscapedYields(s: string)
    ensures Yields(EscapeHTML(s), Chars(s))
  {
    hide Yields;
    EscapeIsSimultaneous(s);
    SubstitutedYields(s);
  }

  lemma {:induction false} OrdinaryYields(s: string)
    requires '<' !in s && '&' !in s
    ensures Yields(s, Chars(s))
  {
    hide Yields;
    if s == "" {
      NothingYields();
    } else {
      CharacterYields(s[0]);
      OrdinaryYields(s[1..]);
      YieldsConcat([s[0]], [Char(s[0])], s[1..], Chars(s[1..]));
      assert s == [s[0]] + s[1..];
    }
  }

  // ------------------------------------------------------------------ what it shows

  /** The characters without the tags. */
  function TextOf(ps: seq<Piece>): string {
    if ps == [] then "" else Shows(ps[0]) + TextOf(ps[1..])
  }

  /** Tags show nothing. */
  function Shows(p: Piece): string {
    match p
    case Tag(_) => ""
    case Char(c) => [c]
  }

  /** The text of a piece of HTML: tags left out, entities read back. */
  function Shown(html: string): string {
    TextOf(Pieces(html))
  }

  lemma {:induction false} TextConcat(p: seq<Piece>, q: seq<Piece>)
    ensures TextOf(p + q) == TextOf(p) + TextOf(q)
  {
    hide Shows;
    if p == [] {
      assert p + q == q && TextOf(p) + TextOf(q) == TextOf(q);
    } else {
      assert (p + q)[1..] == p[1..] + q && (p + q)[0] == p[0];
      TextConcat(p[1..], q);
      Text.Associates(Shows(p[0]), TextOf(p[1..]), TextOf(q));
    }
  }

  lemma TextOfNothing()
    ensures TextOf([]) == ""
  {}

  lemma {:induction false} TextOfChars(s: string)
    ensures TextOf(Chars(s)) == s
  {
    if s != "" { TextOfChars(s[1..]); }
  }

  lemma TextOfElement(open: string, inner: seq<Piece>, name: string)
    ensures TextOf(Element(open, inner, name)) == TextOf(inner)
  {
    TextConcat([Tag(open)] + inner, [Tag("/" + name)]);
    TextConcat([Tag(open)], inner);
  }

  lemma YieldsShows(html: string, ps: seq<Piece>, rest: string)
    requires Yields(html, ps)
    ensures Shown(html + rest) == TextOf(ps) + Shown(rest)
  {
    TextConcat(ps, Pieces(rest));
  }

  /** On its own, HTML comes apart as it does anywhere. */
  lemma YieldsAlone(html: string, ps: seq<Piece>)
    requires Yields(html, ps)
    ensures Pieces(html) == ps && Shown(html) == TextOf(ps)
  {
    assert html + "" == html && Pieces("") == [] && ps + [] == ps;
  }

  /** Escaped text shows as what it was before, wherever it stands. */
  lemma EscapedShowsItself(s: string, rest: string)
    ensures Shown(EscapeHTML(s) + rest) == s + Shown(rest)
  {
    EscapedYields(s);
    YieldsShows(EscapeHTML(s), Chars(s), rest);
    TextOfChars(s);
  }
}
