/** What a browser shows of rendered Markdown: the text of its blocks without markers, and what numbered lists lose. */
module MarkdownShown {
  import opened Markdown
  import opened Wrappers
  import Escape
  import Inline = MarkdownInline
  import Text

  // ------------------------------------------------------------------ lines

  function InlinePieces(s: string): seq<Escape.Piece> {
    Inline.LinePieces(Inline.Spans(s))
  }

  function InElement(name: string, s: string): seq<Escape.Piece> {
    Escape.Element(name, InlinePieces(s), name)
  }

  function QuotePieces(line: string): seq<Escape.Piece> {
    InElement("p", Behind(line, 2))
  }

  function BulletPieces(line: string): seq<Escape.Piece> {
    InElement("li", Behind(line, 2))
  }

  /** The part of a numbered line that is rendered. */
  function NumberedPart(line: string): Option<string> {
    var j := Inline.FindPair(line, '.', ' ');
    if j < |line| then Some(line[j + 2..]) else None
  }

  function NumberedPieces(line: string): seq<Escape.Piece> {
    match NumberedPart(line)
    case Some(s) => InElement("li", s)
    case None => []
  }

  function CodePieces(line: string): seq<Escape.Piece> {
    Escape.Chars(line + "\n")
  }

  function ParagraphPieces(lines: seq<string>, at: nat): seq<Escape.Piece> {
    if lines == [] then []
    else
      var n := |lines| - 1;
      ParagraphPieces(lines[..n], at) + Escape.Chars(if at + n > 0 then " " else "") + InlinePieces(lines[n])
  }

  lemma InlineYields(s: string)
    ensures Escape.Yields(InlineHtml(s), InlinePieces(s))
  {
    hide Escape.Yields, Inline.Spans, Inline.Render, Inline.LinePieces;
    Inline.RenderedYields(Inline.Spans(s));
  }

  lemma QuoteLineYields(line: string)
    ensures Escape.Yields(QuoteLine(line), QuotePieces(line))
  {
    hide Escape.Yields, InlineHtml, InlinePieces, Escape.Element;
    InlineYields(Behind(line, 2));
    Escape.ElementYields("p", InlineHtml(Behind(line, 2)), InlinePieces(Behind(line, 2)), "p");
    assert Escape.Bracketed("p") == "<p>" && Escape.Bracketed("/" + "p") == "</p>";
  }

  lemma ListItemYields(s: string)
    ensures Escape.Yields("<li>" + InlineHtml(s) + "</li>", InElement("li", s))
  {
    hide Escape.Yields, InlineHtml, InlinePieces, Escape.Element;
    InlineYields(s);
    Escape.ElementYields("li", InlineHtml(s), InlinePieces(s), "li");
    assert Escape.Bracketed("li") == "<li>" && Escape.Bracketed("/" + "li") == "</li>";
  }

  lemma BulletLineYields(line: string)
    ensures Escape.Yields(BulletLine(line), BulletPieces(line))
  {
    hide Escape.Yields, InlineHtml, InElement;
    ListItemYields(Behind(line, 2));
  }

  lemma NumberedLineYields(line: string)
    ensures Escape.Yields(NumberedLine(line), NumberedPieces(line))
  {
    hide Escape.Yields, InlineHtml, InElement, Inline.FindPair;
    var j := Inline.FindPair(line, '.', ' ');
    if j < |line| { ListItemYields(line[j + 2..]); } else { Escape.NothingYields(); }
  }

  lemma FenceLineYields(line: string)
    ensures Escape.Yields(FenceLine(line), CodePieces(line))
  {
    hide Escape.Yields, Escape.EscapeHTML, Escape.Chars;
    Escape.EscapedYields(line);
    Escape.OrdinaryYields("\n");
    Escape.YieldsConcat(Escape.EscapeHTML(line), Escape.Chars(line), "\n", Escape.Chars("\n"));
    Escape.CharsConcat(line, "\n");
  }

  lemma {:induction false} EachYields(render: string -> string, pieces: string -> seq<Escape.Piece>,
                                      lines: seq<string>)
    requires forall line :: Escape.Yields(render(line), pieces(line))
    ensures Escape.Yields(Each(render, lines), Each(pieces, lines))
    decreases |lines|
  {
    hide Escape.Yields;
    if lines == [] {
      Escape.NothingYields();
    } else {
      var init, last := lines[..|lines| - 1], lines[|lines| - 1];
      EachYields(render, pieces, init);
      Escape.YieldsConcat(Each(render, init), Each(pieces, init), render(last), pieces(last));
    }
  }

  lemma {:induction false} ParagraphYields(lines: seq<string>, at: nat)
    ensures Escape.Yields(ParagraphLines(lines, at), ParagraphPieces(lines, at))
    decreases |lines|
  {
    hide Escape.Yields, InlineHtml, InlinePieces, Escape.Chars;
    if lines == [] {
      Escape.NothingYields();
    } else {
      var n := |lines| - 1;
      var init, pieces := ParagraphLines(lines[..n], at), ParagraphPieces(lines[..n], at);
      var sp := if at + n > 0 then " " else "";
      ParagraphYields(lines[..n], at);
      Escape.OrdinaryYields(sp);
      InlineYields(lines[n]);
      Escape.YieldsConcat(init, pieces, sp, Escape.Chars(sp));
      Escape.YieldsConcat(init + sp, pieces + Escape.Chars(sp), InlineHtml(lines[n]), InlinePieces(lines[n]));
    }
  }

  // ------------------------------------------------------------------ blocks

  /** The language behind the opening fence becomes a class. */
  function CodeTag(lang: string): string {
    "code" + if lang != "" then " class=\"language-" + Escape.EscapeHTML(lang) + "\"" else ""
  }

  /** Whatever the language is called, the class the browser reads is that name behind a prefix. */
  lemma LanguageReadsBack(lang: string)
    requires lang != ""
    ensures Inline.FirstAttribute(CodeTag(lang)) == "language-" + lang
  {
    hide Escape.EscapeHTML, Escape.Unescape, Text.IndexOf;
    var value := "language-" + Escape.EscapeHTML(lang);
    PrefixIsNotEscaped();
    Escape.EscapeConcat("language-", lang);
    assert CodeTag(lang) == "code class=" + ['"'] + (value + ['"']);
    Text.IndexAfter("code class=", '"', value + ['"']);
    assert CodeTag(lang)[12..] == value + ['"'];
    Escape.EscapedIsSafe("language-" + lang, '"');
    Text.IndexAfter(value, '"', "");
    assert value + ['"'] + "" == value + ['"'] && (value + ['"'])[..|value|] == value;
    Escape.EscapeRoundTrip("language-" + lang);
  }

  lemma PrefixIsNotEscaped()
    ensures Escape.EscapeHTML("language-") == "language-"
  {
    hide Escape.ReplaceAll;
    var s := "language-";
    Escape.ReplaceNothing(s, '&', Escape.AMP);
    Escape.ReplaceNothing(s, '<', Escape.LT);
    Escape.ReplaceNothing(s, '>', Escape.GT);
    Escape.ReplaceNothing(s, '"', Escape.QUOT);
    Escape.ReplaceNothing(s, '\'', Escape.APOS);
  }

  function HeadingTag(level: nat): string
    requires 1 <= level <= 6
  {
    "h" + "123456"[level - 1..level]
  }

  /** The elements of a block whose first line is line `at`. */
  function BlockPieces(b: Block, at: nat): seq<Escape.Piece>
    requires Renderable(b)
  {
    match b.kind
    case Fence =>
      var code := Escape.Element(CodeTag(b.lines[0][|FENCE|..]), Each(CodePieces, Enclosed(b.lines)), "code");
      Escape.Element("pre class=\"rdw-md-code\"", code, "pre")
    case Heading =>
      var tag := HeadingTag(Level(b.lines[0]));
      Escape.Element(tag + " class=\"rdw-md-h\"", InlinePieces(Text.TrimSpace(b.lines[0][Level(b.lines[0])..])), tag)
    case Rule => [Escape.Tag("hr class=\"rdw-md-hr\"")]
    case Quote => Escape.Element("blockquote class=\"rdw-md-bq\"", Each(QuotePieces, b.lines), "blockquote")
    case Bullets => Escape.Element("ul class=\"rdw-md-ul\"", Each(BulletPieces, b.lines), "ul")
    case Numbered => Escape.Element("ol class=\"rdw-md-ol\"", Each(NumberedPieces, b.lines), "ol")
    case Blank => []
    case Paragraph => Escape.Element("p class=\"rdw-md-p\"", ParagraphPieces(b.lines, at), "p")
  }

  lemma OpenFenceYields(line: string)
    requires IsFence(line)
    ensures var lang := line[|FENCE|..];
            Escape.Yields(OpenFence(line), [Escape.Tag("pre class=\"rdw-md-code\""), Escape.Tag(CodeTag(lang))])
  {
    hide Escape.Yields, Escape.EscapeHTML;
    var lang := line[|FENCE|..];
    var pre, code := "pre class=\"rdw-md-code\"", CodeTag(lang);
    Escape.EscapedIsSafe(lang, '>');
    Escape.TagYields(pre);
    Escape.TagYields(code);
    Escape.YieldsConcat(Escape.Bracketed(pre), [Escape.Tag(pre)], Escape.Bracketed(code), [Escape.Tag(code)]);
    OpenFenceIs(line);
    assert [Escape.Tag(pre)] + [Escape.Tag(code)] == [Escape.Tag(pre), Escape.Tag(code)];
  }

  lemma OpenFenceIs(line: string)
    requires IsFence(line)
    ensures OpenFence(line) ==
            Escape.Bracketed("pre class=\"rdw-md-code\"") + Escape.Bracketed(CodeTag(line[|FENCE|..]))
  {
    hide Escape.EscapeHTML;
    var lang := line[|FENCE|..];
    var class_ := if lang != "" then " class=\"language-" + Escape.EscapeHTML(lang) + "\"" else "";
    var pre := Escape.Bracketed("pre class=\"rdw-md-code\"");
    assert "<pre class=\"rdw-md-code\"><code" == pre + "<code";
    assert OpenFence(line) == pre + "<code" + class_ + ">";
    CodeTagIs(class_);
    Text.Associates(pre, "<code", class_);
    Text.Associates(pre, "<code" + class_, ">");
    assert CodeTag(lang) == "code" + class_;
  }

  lemma CodeTagIs(class_: string)
    ensures Escape.Bracketed("code" + class_) == "<code" + class_ + ">"
  {
    assert "<code" == "<" + "code";
    Text.Associates("<", "code", class_);
  }

  lemma CloseFenceYields()
    ensures Escape.Yields("</code></pre>", [Escape.Tag("/code"), Escape.Tag("/pre")])
  {
    hide Escape.Yields;
    Escape.TagYields("/code");
    Escape.TagYields("/pre");
    Escape.YieldsConcat(Escape.Bracketed("/code"), [Escape.Tag("/code")],
                        Escape.Bracketed("/pre"), [Escape.Tag("/pre")]);
    assert Escape.Bracketed("/code") + Escape.Bracketed("/pre") == "</code></pre>";
    assert [Escape.Tag("/code")] + [Escape.Tag("/pre")] == [Escape.Tag("/code"), Escape.Tag("/pre")];
  }

  lemma FenceYields(b: Block, at: nat)
    requires Renderable(b) && b.kind == Fence
    ensures Escape.Yields(BlockHtml(b, at), BlockPieces(b, at))
  {
    hide Escape.Yields, OpenFence, Each, FenceLine, CodePieces, CodeTag, Enclosed, Escape.Bracketed;
    var line, body := b.lines[0], Enclosed(b.lines);
    var html, pieces := Each(FenceLine, body), Each(CodePieces, body);
    var open := [Escape.Tag("pre class=\"rdw-md-code\""), Escape.Tag(CodeTag(line[|FENCE|..]))];
    var close := [Escape.Tag("/code"), Escape.Tag("/pre")];
    forall l ensures Escape.Yields(FenceLine(l), CodePieces(l)) { FenceLineYields(l); }
    EachYields(FenceLine, CodePieces, body);
    OpenFenceYields(line);
    CloseFenceYields();
    Escape.YieldsConcat(OpenFence(line), open, html, pieces);
    Escape.YieldsConcat(OpenFence(line) + html, open + pieces, "</code></pre>", close);
    TwoElements("pre class=\"rdw-md-code\"", CodeTag(line[|FENCE|..]), pieces);
  }

  lemma TwoElements(pre: string, code: string, inner: seq<Escape.Piece>)
    ensures Escape.Element(pre, Escape.Element(code, inner, "code"), "pre") ==
            [Escape.Tag(pre), Escape.Tag(code)] + inner + [Escape.Tag("/code"), Escape.Tag("/pre")]
  {
    assert "/" + "code" == "/code" && "/" + "pre" == "/pre";
  }

  lemma HeadingYields(b: Block, at: nat)
    requires Renderable(b) && b.kind == Heading
    ensures Escape.Yields(BlockHtml(b, at), BlockPieces(b, at))
  {
    hide Escape.Yields, InlineHtml, InlinePieces, Text.TrimSpace, Escape.Element;
    var line := b.lines[0];
    var text, tag := Text.TrimSpace(line[Level(line)..]), HeadingTag(Level(line));
    InlineYields(text);
    Escape.ElementYields(tag + " class=\"rdw-md-h\"", InlineHtml(text), InlinePieces(text), tag);
    HeadingIs(line);
  }

  lemma HeadingIs(line: string)
    requires IsHeading(line)
    ensures var tag := HeadingTag(Level(line));
            HeadingHtml(line) == Escape.Bracketed(tag + " class=\"rdw-md-h\"") +
                                 InlineHtml(Text.TrimSpace(line[Level(line)..])) + Escape.Bracketed("/" + tag)
  {
    hide InlineHtml, Text.TrimSpace;
    var level, tag := [('0' as int + Level(line)) as char], HeadingTag(Level(line));
    assert tag == "h" + level;
    assert Escape.Bracketed(tag + " class=\"rdw-md-h\"") == "<h" + level + " class=\"rdw-md-h\">";
    assert Escape.Bracketed("/" + tag) == "</h" + level + ">";
    Text.Associates("<h" + level + " class=\"rdw-md-h\">" + InlineHtml(Text.TrimSpace(line[Level(line)..])),
                    "</h" + level, ">");
    Text.Associates("<h" + level + " class=\"rdw-md-h\">" + InlineHtml(Text.TrimSpace(line[Level(line)..])),
                    "</h", level);
  }

  lemma ListYields(open: string, render: string -> string, pieces: string -> seq<Escape.Piece>, name: string,
                   lines: seq<string>)
    requires '>' !in open && '>' !in name && forall line :: Escape.Yields(render(line), pieces(line))
    ensures Escape.Yields(Escape.Bracketed(open) + Each(render, lines) + Escape.Bracketed("/" + name),
                          Escape.Element(open, Each(pieces, lines), name))
  {
    hide Escape.Yields, Each, Escape.Bracketed, Escape.Element;
    EachYields(render, pieces, lines);
    Escape.ElementYields(open, Each(render, lines), Each(pieces, lines), name);
  }

  lemma QuoteTags()
    ensures Escape.Bracketed("blockquote class=\"rdw-md-bq\"") == "<blockquote class=\"rdw-md-bq\">"
    ensures Escape.Bracketed("/" + "blockquote") == "</blockquote>"
  {}

  lemma QuoteYields(lines: seq<string>)
    ensures Escape.Yields("<blockquote class=\"rdw-md-bq\">" + Each(QuoteLine, lines) + "</blockquote>",
                          Escape.Element("blockquote class=\"rdw-md-bq\"", Each(QuotePieces, lines), "blockquote"))
  {
    hide Escape.Yields, Each, QuoteLine, QuotePieces, Escape.Element, Escape.Bracketed;
    forall l ensures Escape.Yields(QuoteLine(l), QuotePieces(l)) { QuoteLineYields(l); }
    ListYields("blockquote class=\"rdw-md-bq\"", QuoteLine, QuotePieces, "blockquote", lines);
    QuoteTags();
  }

  lemma BulletsTags()
    ensures Escape.Bracketed("ul class=\"rdw-md-ul\"") == "<ul class=\"rdw-md-ul\">"
    ensures Escape.Bracketed("/" + "ul") == "</ul>"
  {}

  lemma BulletsYield(lines: seq<string>)
    ensures Escape.Yields("<ul class=\"rdw-md-ul\">" + Each(BulletLine, lines) + "</ul>",
                          Escape.Element("ul class=\"rdw-md-ul\"", Each(BulletPieces, lines), "ul"))
  {
    hide Escape.Yields, Each, BulletLine, BulletPieces, Escape.Element, Escape.Bracketed;
    forall l ensures Escape.Yields(BulletLine(l), BulletPieces(l)) { BulletLineYields(l); }
    ListYields("ul class=\"rdw-md-ul\"", BulletLine, BulletPieces, "ul", lines);
    BulletsTags();
  }

  lemma NumberedTags()
    ensures Escape.Bracketed("ol class=\"rdw-md-ol\"") == "<ol class=\"rdw-md-ol\">"
    ensures Escape.Bracketed("/" + "ol") == "</ol>"
  {}

  lemma NumberedYields(lines: seq<string>)
    ensures Escape.Yields("<ol class=\"rdw-md-ol\">" + Each(NumberedLine, lines) + "</ol>",
                          Escape.Element("ol class=\"rdw-md-ol\"", Each(NumberedPieces, lines), "ol"))
  {
    hide Escape.Yields, Each, NumberedLine, NumberedPieces, Escape.Element, Escape.Bracketed;
    forall l ensures Escape.Yields(NumberedLine(l), NumberedPieces(l)) { NumberedLineYields(l); }
    ListYields("ol class=\"rdw-md-ol\"", NumberedLine, NumberedPieces, "ol", lines);
    NumberedTags();
  }

  lemma RuleYields()
    ensures Escape.Yields("<hr class=\"rdw-md-hr\">", [Escape.Tag("hr class=\"rdw-md-hr\"")])
  {
    hide Escape.Yields;
    Escape.TagYields("hr class=\"rdw-md-hr\"");
    assert Escape.Bracketed("hr class=\"rdw-md-hr\"") == "<hr class=\"rdw-md-hr\">";
  }

  lemma ParagraphBlockYields(lines: seq<string>, at: nat)
    ensures Escape.Yields("<p class=\"rdw-md-p\">" + ParagraphLines(lines, at) + "</p>",
                          Escape.Element("p class=\"rdw-md-p\"", ParagraphPieces(lines, at), "p"))
  {
    hide Escape.Yields, ParagraphLines, ParagraphPieces, Escape.Element;
    ParagraphYields(lines, at);
    Escape.ElementYields("p class=\"rdw-md-p\"", ParagraphLines(lines, at), ParagraphPieces(lines, at), "p");
    assert Escape.Bracketed("p class=\"rdw-md-p\"") == "<p class=\"rdw-md-p\">";
    assert Escape.Bracketed("/" + "p") == "</p>";
  }

  /** Wherever it stands, a browser makes of a rendered block the elements of its kind around the texts of its lines. */
  lemma BlockYields(b: Block, at: nat)
    requires Renderable(b)
    ensures Escape.Yields(BlockHtml(b, at), BlockPieces(b, at))
  {
    hide Escape.Yields, Escape.Element, Each, ParagraphLines, ParagraphPieces, HeadingHtml, OpenFence, IsHeading,
        IsFence, Enclosed, Level;
    match b.kind
    case Fence => FenceYields(b, at);
    case Heading => HeadingYields(b, at);
    case Rule => RuleYields();
    case Quote => QuoteYields(b.lines);
    case Bullets => BulletsYield(b.lines);
    case Numbered => NumberedYields(b.lines);
    case Blank => Escape.NothingYields();
    case Paragraph => ParagraphBlockYields(b.lines, at);
  }

  ghost function AllPieces(blocks: seq<Block>, i: nat): seq<Escape.Piece>
    requires forall k :: 0 <= k < |blocks| ==> Renderable(blocks[k])
  {
    if blocks == [] then []
    else
      var n := |blocks| - 1;
      var at := if |blocks[n].lines| <= i then i - |blocks[n].lines| else 0;
      AllPieces(blocks[..n], at) + BlockPieces(blocks[n], at)
  }

  /** A browser makes of a rendered text the elements of its blocks, one after the other, and nothing else. */
  lemma {:induction false} RenderedTextYields(blocks: seq<Block>, i: nat)
    requires forall k :: 0 <= k < |blocks| ==> Renderable(blocks[k])
    ensures Escape.Yields(Render(blocks, i), AllPieces(blocks, i))
    decreases |blocks|
  {
    hide Escape.Yields, BlockHtml, BlockPieces, Renderable;
    if blocks == [] {
      Escape.NothingYields();
    } else {
      var n := |blocks| - 1;
      var at := if |blocks[n].lines| <= i then i - |blocks[n].lines| else 0;
      RenderedTextYields(blocks[..n], at);
      BlockYields(blocks[n], at);
      Escape.YieldsConcat(Render(blocks[..n], at), AllPieces(blocks[..n], at),
                          BlockHtml(blocks[n], at), BlockPieces(blocks[n], at));
    }
  }

  // ------------------------------------------------------------------ the text without the tags

  function LineShown(s: string): string {
    Inline.Displayed(Inline.Spans(s))
  }

  function ItemShown(line: string): string {
    LineShown(Behind(line, 2))
  }

  function NumberedShown(line: string): string {
    match NumberedPart(line)
    case Some(s) => LineShown(s)
    case None => ""
  }

  function CodeShown(line: string): string {
    line + "\n"
  }

  function ParagraphShown(lines: seq<string>, at: nat): string {
    if lines == [] then ""
    else
      var n := |lines| - 1;
      ParagraphShown(lines[..n], at) + (if at + n > 0 then " " else "") + LineShown(lines[n])
  }

  /** What the browser shows of a block whose first line is line `at`. */
  function BlockShown(b: Block, at: nat): string
    requires Renderable(b)
  {
    match b.kind
    case Fence => Each(CodeShown, Enclosed(b.lines))
    case Heading => LineShown(Text.TrimSpace(b.lines[0][Level(b.lines[0])..]))
    case Rule => ""
    case Quote => Each(ItemShown, b.lines)
    case Bullets => Each(ItemShown, b.lines)
    case Numbered => Each(NumberedShown, b.lines)
    case Blank => ""
    case Paragraph => ParagraphShown(b.lines, at)
  }

  lemma TextOfInline(s: string)
    ensures Escape.TextOf(InlinePieces(s)) == LineShown(s)
  {
    hide Inline.Spans, Inline.LinePieces, Inline.Displayed, Escape.TextOf;
    Inline.TextOfLine(Inline.Spans(s));
  }

  lemma TextOfInElement(name: string, s: string)
    ensures Escape.TextOf(InElement(name, s)) == LineShown(s)
  {
    hide InlinePieces, LineShown, Escape.TextOf, Escape.Element;
    Escape.TextOfElement(name, InlinePieces(s), name);
    TextOfInline(s);
  }

  lemma TextOfNumbered(line: string)
    ensures Escape.TextOf(NumberedPieces(line)) == NumberedShown(line)
  {
    hide InElement, LineShown, NumberedPart;
    match NumberedPart(line)
    case Some(s) => TextOfInElement("li", s);
    case None =>
  }

  lemma {:induction false} TextOfEach(pieces: string -> seq<Escape.Piece>, shown: string -> string, lines: seq<string>)
    requires forall line :: Escape.TextOf(pieces(line)) == shown(line)
    ensures Escape.TextOf(Each(pieces, lines)) == Each(shown, lines)
    decreases |lines|
  {
    hide Escape.TextOf;
    if lines == [] {
      Escape.TextOfNothing();
    } else {
      var init, last := lines[..|lines| - 1], lines[|lines| - 1];
      TextOfEach(pieces, shown, init);
      Escape.TextConcat(Each(pieces, init), pieces(last));
    }
  }

  lemma {:induction false} TextOfParagraph(lines: seq<string>, at: nat)
    ensures Escape.TextOf(ParagraphPieces(lines, at)) == ParagraphShown(lines, at)
    decreases |lines|
  {
    hide Escape.TextOf, Escape.Chars, InlinePieces, LineShown;
    if lines == [] {
      Escape.TextOfNothing();
    } else {
      var n := |lines| - 1;
      var sp := if at + n > 0 then " " else "";
      TextOfParagraph(lines[..n], at);
      Escape.TextConcat(ParagraphPieces(lines[..n], at) + Escape.Chars(sp), InlinePieces(lines[n]));
      Escape.TextConcat(ParagraphPieces(lines[..n], at), Escape.Chars(sp));
      Escape.TextOfChars(sp);
      TextOfInline(lines[n]);
    }
  }

  lemma TextOfFence(b: Block, at: nat)
    requires Renderable(b) && b.kind == Fence
    ensures Escape.TextOf(BlockPieces(b, at)) == BlockShown(b, at)
  {
    hide Escape.TextOf, Escape.Element, Escape.Chars, Each, Enclosed, CodeTag;
    var body, tag := Enclosed(b.lines), CodeTag(b.lines[0][|FENCE|..]);
    forall l ensures Escape.TextOf(CodePieces(l)) == CodeShown(l) { Escape.TextOfChars(l + "\n"); }
    TextOfEach(CodePieces, CodeShown, body);
    Escape.TextOfElement(tag, Each(CodePieces, body), "code");
    Escape.TextOfElement("pre class=\"rdw-md-code\"", Escape.Element(tag, Each(CodePieces, body), "code"), "pre");
  }

  lemma TextOfHeading(b: Block, at: nat)
    requires Renderable(b) && b.kind == Heading
    ensures Escape.TextOf(BlockPieces(b, at)) == BlockShown(b, at)
  {
    hide Escape.TextOf, Escape.Element, InlinePieces, LineShown, Text.TrimSpace, HeadingTag;
    var tag, text := HeadingTag(Level(b.lines[0])), Text.TrimSpace(b.lines[0][Level(b.lines[0])..]);
    TextOfInline(text);
    Escape.TextOfElement(tag + " class=\"rdw-md-h\"", InlinePieces(text), tag);
  }

  lemma TextOfList(b: Block, at: nat)
    requires Renderable(b) && (b.kind == Quote || b.kind == Bullets || b.kind == Numbered)
    ensures Escape.TextOf(BlockPieces(b, at)) == BlockShown(b, at)
  {
    hide Escape.TextOf, Escape.Element, Each, InElement, LineShown, NumberedPieces, NumberedShown;
    forall l
      ensures Escape.TextOf(QuotePieces(l)) == ItemShown(l) && Escape.TextOf(BulletPieces(l)) == ItemShown(l)
      ensures Escape.TextOf(NumberedPieces(l)) == NumberedShown(l)
    {
      TextOfInElement("p", Behind(l, 2));
      TextOfInElement("li", Behind(l, 2));
      TextOfNumbered(l);
    }
    match b.kind {
      case Quote =>
        TextOfEach(QuotePieces, ItemShown, b.lines);
        Escape.TextOfElement("blockquote class=\"rdw-md-bq\"", Each(QuotePieces, b.lines), "blockquote");
      case Bullets =>
        TextOfEach(BulletPieces, ItemShown, b.lines);
        Escape.TextOfElement("ul class=\"rdw-md-ul\"", Each(BulletPieces, b.lines), "ul");
      case Numbered =>
        TextOfEach(NumberedPieces, NumberedShown, b.lines);
        Escape.TextOfElement("ol class=\"rdw-md-ol\"", Each(NumberedPieces, b.lines), "ol");
      case _ =>
    }
  }

  lemma TextOfBlock(b: Block, at: nat)
    requires Renderable(b)
    ensures Escape.TextOf(BlockPieces(b, at)) == BlockShown(b, at)
  {
    match b.kind
    case Fence => TextOfFence(b, at);
    case Heading => TextOfHeading(b, at);
    case Rule =>
    case Blank =>
    case Paragraph =>
      hide Escape.TextOf, Escape.Element, ParagraphPieces, ParagraphShown;
      TextOfParagraph(b.lines, at);
      Escape.TextOfElement("p class=\"rdw-md-p\"", ParagraphPieces(b.lines, at), "p");
    case _ => TextOfList(b, at);
  }

  /** Wherever it stands, a block shows its text. */
  lemma BlockShows(b: Block, at: nat, rest: string)
    requires Renderable(b)
    ensures Escape.Shown(BlockHtml(b, at) + rest) == BlockShown(b, at) + Escape.Shown(rest)
  {
    hide Escape.Yields, Escape.Shown, Escape.TextOf, BlockPieces, BlockHtml, BlockShown, Renderable;
    BlockYields(b, at);
    TextOfBlock(b, at);
    Escape.YieldsShows(BlockHtml(b, at), BlockPieces(b, at), rest);
  }

  ghost function TextShown(blocks: seq<Block>, i: nat): string
    requires forall k :: 0 <= k < |blocks| ==> Renderable(blocks[k])
  {
    if blocks == [] then ""
    else
      var n := |blocks| - 1;
      var at := if |blocks[n].lines| <= i then i - |blocks[n].lines| else 0;
      TextShown(blocks[..n], at) + BlockShown(blocks[n], at)
  }

  /** The browser shows of a rendered text the texts of its blocks, one after the other. */
  lemma {:induction false} RenderedTextShows(blocks: seq<Block>, i: nat, rest: string)
    requires forall k :: 0 <= k < |blocks| ==> Renderable(blocks[k])
    ensures Escape.Shown(Render(blocks, i) + rest) == TextShown(blocks, i) + Escape.Shown(rest)
    decreases |blocks|
  {
    hide Escape.Shown, BlockHtml, BlockShown, Renderable;
    if blocks == [] {
      assert "" + rest == rest && "" + Escape.Shown(rest) == Escape.Shown(rest);
    } else {
      var n := |blocks| - 1;
      var at := if |blocks[n].lines| <= i then i - |blocks[n].lines| else 0;
      RenderedTextShows(blocks[..n], at, BlockHtml(blocks[n], at) + rest);
      BlockShows(blocks[n], at, rest);
      Text.Associates(Render(blocks[..n], at), BlockHtml(blocks[n], at), rest);
      Text.Associates(TextShown(blocks[..n], at), BlockShown(blocks[n], at), Escape.Shown(rest));
    }
  }

  // ------------------------------------------------------------------ what numbered lists lose

  /** What stands behind the marker: a digit, a period and at most one space. */
  function BehindMarker(line: string): string
    requires IsNumbered(line)
  {
    if line[2] == ' ' then line[3..] else line[2..]
  }

  /** A numbered line is rendered whole exactly when a space follows its period. Otherwise all of it up to the first
      period and space is lost, and all of it when there is none. */
  lemma NumberedIsWholeIff(line: string)
    requires IsNumbered(line)
    ensures NumberedPart(line) == Some(BehindMarker(line)) <==> line[2] == ' '
    ensures NumberedPart(line).None? <==> !Inline.HasPair(line, '.', ' ')
    ensures NumberedPart(line).Some? && line[2] != ' ' ==> |NumberedPart(line).value| < |BehindMarker(line)|
  {
    hide Inline.HasPair;
    Inline.FindPairNone(line, '.', ' ');
    var j := Inline.FindPair(line, '.', ' ');
    assert line[0] != '.' && line[1] == '.';
  }

  /** No line of the block loses anything but its marker. */
  ghost predicate KeepsItsText(b: Block) {
    b.kind == Numbered ==>
      forall k :: 0 <= k < |b.lines| && IsNumbered(b.lines[k]) ==>
        NumberedPart(b.lines[k]) == Some(BehindMarker(b.lines[k]))
  }

  /** A block that fits keeps its text exactly when it is no numbered list, or a space follows the period of every
      line. */
  lemma KeepsItsTextIff(b: Block, rest: seq<string>)
    requires Fits(b, rest)
    ensures KeepsItsText(b) <==> (b.kind == Numbered ==> forall k :: 0 <= k < |b.lines| ==> b.lines[k][2..3] == " ")
  {
    hide NumberedPart, BehindMarker;
    if b.kind == Numbered {
      forall k | 0 <= k < |b.lines|
        ensures IsNumbered(b.lines[k])
        ensures NumberedPart(b.lines[k]) == Some(BehindMarker(b.lines[k])) <==> b.lines[k][2..3] == " "
      {
        NumberedIsWholeIff(b.lines[k]);
        assert b.lines[k][2..3] == [b.lines[k][2]];
      }
    }
  }

  /** The second line of this list is consumed and not shown. */
  lemma NumberedLineIsLost()
    ensures var b := Block(Numbered, ["1. a", "2.b"]);
            Fits(b, []) && !KeepsItsText(b) && NumberedShown("2.b") == ""
  {
    var b := Block(Numbered, ["1. a", "2.b"]);
    assert IsNumbered("1. a") && IsNumbered("2.b") && OpensNumbered("1. a");
    NumberedIsWholeIff("2.b");
    assert !Inline.HasPair("2.b", '.', ' ');
    assert b.lines[1] == "2.b";
  }
}
