/** The line by line rendering of Markdown blocks. */
module Markdown {
  import opened Wrappers
  import Escape
  import Inline = MarkdownInline
  import Scans
  import Text

  const FENCE := "```"

  // ------------------------------------------------------------------ kinds of lines

  predicate IsFence(line: string) {
    FENCE <= line
  }

  /** How many hashes the line starts with. */
  function Level(line: string): (n: nat)
    ensures n <= |line| && (n < |line| ==> line[n] != '#') && forall j :: 0 <= j < n ==> line[j] == '#'
  {
    if line == "" || line[0] != '#' then 0 else 1 + Level(line[1..])
  }

  predicate IsHeading(line: string) {
    "#" <= line && Level(line) <= 6 && (|line| == Level(line) || line[Level(line)] == ' ')
  }

  predicate IsRule(line: string) {
    line == "---" || line == "***" || line == "___"
  }

  predicate IsQuote(line: string) {
    "> " <= line
  }

  predicate IsBullet(line: string) {
    "- " <= line || "* " <= line
  }

  predicate OpensNumbered(line: string) {
    |line| > 2 && '1' <= line[0] <= '9' && line[1] == '.' && line[2] == ' '
  }

  predicate IsNumbered(line: string) {
    |line| > 2 && '0' <= line[0] <= '9' && line[1] == '.'
  }

  predicate IsBlank(line: string) {
    Text.TrimSpace(line) == ""
  }

  predicate InParagraph(line: string) {
    !IsBlank(line) && !("#" <= line) && !IsFence(line) && !IsQuote(line) && !IsBullet(line)
  }

  // ------------------------------------------------------------------ blocks

  datatype Kind = Fence | Heading | Rule | Quote | Bullets | Numbered | Blank | Paragraph

  datatype Block = Block(kind: Kind, lines: seq<string>)

  /** All lines are of a kind and the line behind them is not. */
  ghost predicate IsRun(kind: string -> bool, lines: seq<string>, rest: seq<string>) {
    && (forall k :: 0 <= k < |lines| ==> kind(lines[k]))
    && (rest != [] ==> !kind(rest[0]))
  }

  predicate Closed(lines: seq<string>) {
    |lines| > 1 && IsFence(lines[|lines| - 1])
  }

  /** What the fences enclose. */
  function Enclosed(lines: seq<string>): seq<string>
    requires lines != []
  {
    if Closed(lines) then lines[1..|lines| - 1] else lines[1..]
  }

  /** The block is right, given the lines behind it. */
  ghost predicate Fits(b: Block, rest: seq<string>) {
    b.lines != [] &&
    var first := b.lines[0];
    match b.kind
    case Fence =>
      && IsFence(first)
      && (forall k :: 0 <= k < |Enclosed(b.lines)| ==> !IsFence(Enclosed(b.lines)[k]))
      && (Closed(b.lines) || rest == [])
    case Heading => |b.lines| == 1 && IsHeading(first)
    case Rule => |b.lines| == 1 && IsRule(first)
    case Quote => IsRun(IsQuote, b.lines, rest)
    case Bullets => IsRun(IsBullet, b.lines, rest)
    case Numbered => OpensNumbered(first) && IsRun(IsNumbered, b.lines, rest)
    case Blank => |b.lines| == 1 && IsBlank(first)
    case Paragraph => !IsRule(first) && !OpensNumbered(first) && IsRun(InParagraph, b.lines, rest)
  }

  function LinesOf(b: Block): seq<string> {
    b.lines
  }

  /** The blocks are exactly the first `i` lines in order, and each is right. */
  ghost predicate Scanned(lines: seq<string>, blocks: seq<Block>, i: nat) {
    Scans.Scanned(lines, blocks, i, LinesOf, Fits)
  }

  lemma NothingScanned(lines: seq<string>)
    ensures Scanned(lines, [], 0)
  {}

  lemma LastBlock(lines: seq<string>, blocks: seq<Block>, i: nat)
    requires Scanned(lines, blocks, i)
    ensures i <= |lines| && (blocks == [] ==> i == 0)
    ensures blocks != [] ==>
              var last := blocks[|blocks| - 1];
              && 0 < |last.lines| <= i
              && lines[i - |last.lines|..i] == last.lines
              && Fits(last, lines[i..])
              && Scanned(lines, blocks[..|blocks| - 1], i - |last.lines|)
  {
    hide Fits;
  }

  // ------------------------------------------------------------------ rendering

  function InlineHtml(s: string): string {
    Inline.Render(Inline.Spans(s))
  }

  function FenceLine(line: string): string {
    Escape.EscapeHTML(line) + "\n"
  }

  function Behind(line: string, n: nat): string {
    line[if |line| < n then |line| else n..]
  }

  function QuoteLine(line: string): string {
    "<p>" + InlineHtml(Behind(line, 2)) + "</p>"
  }

  function BulletLine(line: string): string {
    "<li>" + InlineHtml(Behind(line, 2)) + "</li>"
  }

  /** A numbered line without a period and space is consumed but not rendered. */
  function NumberedLine(line: string): string {
    var j := Inline.FindPair(line, '.', ' ');
    if j < |line| then "<li>" + InlineHtml(line[j + 2..]) + "</li>" else ""
  }

  function Each<T>(render: string -> seq<T>, lines: seq<string>): seq<T> {
    if lines == [] then [] else Each(render, lines[..|lines| - 1]) + render(lines[|lines| - 1])
  }

  /** Every line but the first of the whole text is set off by a space. */
  function ParagraphLines(lines: seq<string>, at: nat): string {
    if lines == [] then ""
    else
      var n := |lines| - 1;
      ParagraphLines(lines[..n], at) + (if at + n > 0 then " " else "") + InlineHtml(lines[n])
  }

  function OpenFence(line: string): string
    requires IsFence(line)
  {
    var lang := line[|FENCE|..];
    "<pre class=\"rdw-md-code\"><code" +
    (if lang != "" then " class=\"language-" + Escape.EscapeHTML(lang) + "\"" else "") + ">"
  }

  function HeadingHtml(line: string): string
    requires IsHeading(line)
  {
    var level := [('0' as int + Level(line)) as char];
    "<h" + level + " class=\"rdw-md-h\">" + InlineHtml(Text.TrimSpace(line[Level(line)..])) + "</h" + level + ">"
  }

  /** The HTML of a block whose first line is line `at`. */
  function BlockHtml(b: Block, at: nat): string
    requires Renderable(b)
  {
    match b.kind
    case Fence => OpenFence(b.lines[0]) + Each(FenceLine, Enclosed(b.lines)) + "</code></pre>"
    case Heading => HeadingHtml(b.lines[0])
    case Rule => "<hr class=\"rdw-md-hr\">"
    case Quote => "<blockquote class=\"rdw-md-bq\">" + Each(QuoteLine, b.lines) + "</blockquote>"
    case Bullets => "<ul class=\"rdw-md-ul\">" + Each(BulletLine, b.lines) + "</ul>"
    case Numbered => "<ol class=\"rdw-md-ol\">" + Each(NumberedLine, b.lines) + "</ol>"
    case Blank => ""
    case Paragraph => "<p class=\"rdw-md-p\">" + ParagraphLines(b.lines, at) + "</p>"
  }

  ghost predicate Renderable(b: Block) {
    b.lines != [] && (b.kind == Fence ==> IsFence(b.lines[0])) && (b.kind == Heading ==> IsHeading(b.lines[0]))
  }

  lemma FitsRenderable(b: Block, rest: seq<string>)
    requires Fits(b, rest)
    ensures Renderable(b)
  {}

  /** The blocks before line `i`, rendered. */
  ghost function Render(blocks: seq<Block>, i: nat): string
    requires forall k :: 0 <= k < |blocks| ==> Renderable(blocks[k])
  {
    if blocks == [] then ""
    else
      var n := |blocks| - 1;
      var at := if |blocks[n].lines| <= i then i - |blocks[n].lines| else 0;
      Render(blocks[..n], at) + BlockHtml(blocks[n], at)
  }

  lemma {:induction false} ScannedRenderable(lines: seq<string>, blocks: seq<Block>, i: nat)
    requires Scanned(lines, blocks, i)
    ensures forall k :: 0 <= k < |blocks| ==> Renderable(blocks[k])
    decreases |blocks|
  {
    hide Fits, Scanned, Renderable;
    LastBlock(lines, blocks, i);
    if blocks != [] {
      var n := |blocks| - 1;
      ScannedRenderable(lines, blocks[..n], i - |blocks[n].lines|);
      FitsRenderable(blocks[n], lines[i..]);
      assert forall k :: 0 <= k < n ==> blocks[k] == blocks[..n][k];
    }
  }

  // ------------------------------------------------------------------ the scanner

  lemma EachSnoc<T>(render: string -> seq<T>, lines: seq<string>, i: nat, j: nat)
    requires i <= j < |lines|
    ensures Each(render, lines[i..j + 1]) == Each(render, lines[i..j]) + render(lines[j])
  {
    assert lines[i..j + 1][..j - i] == lines[i..j];
  }

  method RenderFence(lines: seq<string>, i0: nat) returns (html: string, i: nat, ghost b: Block)
    requires i0 < |lines| && IsFence(lines[i0])
    ensures i0 < i <= |lines| + 1
    ensures var end := if i <= |lines| then i else |lines|;
            b == Block(Fence, lines[i0..end]) && Fits(b, lines[end..]) && html == BlockHtml(b, i0)
  {
    hide IsFence, OpenFence, FenceLine, Fits, Enclosed, Closed, BlockHtml;
    html, i := OpenFence(lines[i0]), i0 + 1;
    ghost var open := html;
    assert lines[i..i] == [];
    while i < |lines| && !IsFence(lines[i])
      invariant i0 < i <= |lines|
      invariant forall k :: i0 < k < i ==> !IsFence(lines[k])
      invariant html == open + Each(FenceLine, lines[i0 + 1..i])
    {
      EachSnoc(FenceLine, lines, i0 + 1, i);
      html := html + FenceLine(lines[i]);
      i := i + 1;
    }
    html := html + "</code></pre>";
    i := i + 1;
    FenceFits(lines, i0, i);
    b := Block(Fence, lines[i0..if i <= |lines| then i else |lines|]);
  }

  lemma SliceOfSlice(lines: seq<string>, i: nat, j: nat, n: nat)
    requires i < j <= |lines| && 1 <= n <= j - i
    ensures lines[i..j][1..n] == lines[i + 1..i + n]
  {
    forall k | 0 <= k < n - 1 ensures lines[i..j][1..n][k] == lines[i + 1..i + n][k] {
      assert lines[i..j][1 + k] == lines[i + (1 + k)];
    }
  }

  lemma FenceFits(lines: seq<string>, i0: nat, i: nat)
    requires i0 + 1 < i <= |lines| + 1 && IsFence(lines[i0])
    requires forall k :: i0 < k < i - 1 ==> !IsFence(lines[k])
    requires i <= |lines| ==> IsFence(lines[i - 1])
    ensures var end := if i <= |lines| then i else |lines|;
            var b := Block(Fence, lines[i0..end]);
            Fits(b, lines[end..]) && IsFence(b.lines[0]) &&
            BlockHtml(b, i0) == OpenFence(lines[i0]) + Each(FenceLine, lines[i0 + 1..i - 1]) + "</code></pre>"
  {
    hide IsFence, OpenFence, FenceLine, Each;
    var ls := lines[i0..if i <= |lines| then i else |lines|];
    assert ls[0] == lines[i0];
    if i <= |lines| {
      assert ls[|ls| - 1] == lines[i - 1];
      assert Closed(ls);
      SliceOfSlice(lines, i0, i, |ls| - 1);
    } else {
      assert |ls| > 1 ==> ls[|ls| - 1] == lines[|lines| - 1];
      assert !Closed(ls);
      SliceOfSlice(lines, i0, |lines|, |ls|);
    }
    assert Enclosed(ls) == lines[i0 + 1..i - 1];
    forall k | 0 <= k < |Enclosed(ls)| ensures !IsFence(Enclosed(ls)[k]) {
      assert Enclosed(ls)[k] == lines[i0 + 1 + k];
    }
  }

  /** The maximal run of one kind of lines from `i0` on, each rendered. */
  method RenderRun(kind: string -> bool, render: string -> string, lines: seq<string>, i0: nat)
      returns (html: string, i: nat)
    requires i0 <= |lines|
    ensures i0 <= i <= |lines| && IsRun(kind, lines[i0..i], lines[i..])
    ensures html == Each(render, lines[i0..i])
  {
    html, i := "", i0;
    while i < |lines| && kind(lines[i])
      invariant i0 <= i <= |lines| && html == Each(render, lines[i0..i])
      invariant forall k :: i0 <= k < i ==> kind(lines[k])
    {
      EachSnoc(render, lines, i0, i);
      html := html + render(lines[i]);
      i := i + 1;
    }
  }

  lemma ParagraphSnoc(lines: seq<string>, i: nat, j: nat)
    requires i <= j < |lines|
    ensures ParagraphLines(lines[i..j + 1], i) ==
            (if j > 0 then ParagraphLines(lines[i..j], i) + " " else ParagraphLines(lines[i..j], i)) +
                InlineHtml(lines[j])
  {
    hide InlineHtml;
    assert lines[i..j + 1][..j - i] == lines[i..j];
    if j == 0 { assert ParagraphLines(lines[i..j], i) + "" == ParagraphLines(lines[i..j], i); }
  }

  method RenderParagraph(lines: seq<string>, i0: nat) returns (html: string, i: nat)
    requires i0 <= |lines|
    ensures i0 <= i <= |lines| && IsRun(InParagraph, lines[i0..i], lines[i..])
    ensures html == ParagraphLines(lines[i0..i], i0)
  {
    hide InParagraph, InlineHtml, Inline.Spans, Inline.Render;
    html, i := "", i0;
    while i < |lines| && InParagraph(lines[i])
      invariant i0 <= i <= |lines| && html == ParagraphLines(lines[i0..i], i0)
      invariant forall k :: i0 <= k < i ==> InParagraph(lines[k])
    {
      ParagraphSnoc(lines, i0, i);
      if i > 0 { html := html + " "; }
      var piece := Inline.InlineMarkdown(lines[i]);
      InlineIs(lines[i], piece);
      html := html + piece;
      i := i + 1;
    }
  }

  lemma InlineIs(s: string, html: string)
    requires html == Inline.Render(Inline.Spans(s))
    ensures html == InlineHtml(s)
  {}

  predicate Stuck(line: string) {
    "#" <= line && !IsHeading(line)
  }

  lemma RunFirst(kind: string -> bool, lines: seq<string>, i0: nat, i: nat)
    requires i0 < |lines| && i0 <= i <= |lines| && IsRun(kind, lines[i0..i], lines[i..])
    ensures i > i0 <==> kind(lines[i0])
    ensures i > i0 ==> lines[i0..i][0] == lines[i0]
  {
    if i > i0 {
      assert lines[i0..i][0] == lines[i0];
    } else {
      assert lines[i..][0] == lines[i0];
    }
  }

  /** One turn of the outer loop; when nothing is consumed every further turn is the same. */
  method RenderBlock(lines: seq<string>, i0: nat) returns (html: string, i: nat, ghost b: Block)
    requires i0 < |lines|
    ensures i0 <= i && (i == i0 <==> !IsFence(lines[i0]) && Stuck(lines[i0]))
    ensures i > i0 ==> var end := if i <= |lines| then i else |lines|;
                       b == Block(b.kind, lines[i0..end]) && Fits(b, lines[end..]) && html == BlockHtml(b, i0)
  {
    hide IsFence, IsHeading, IsRule, IsQuote, IsBullet, OpensNumbered, IsNumbered, IsBlank, InParagraph, IsRun;
    hide Each, ParagraphLines, QuoteLine, BulletLine, NumberedLine, HeadingHtml, OpenFence, Enclosed, Closed;
    var line := lines[i0];
    Exclusive(line);
    i := i0 + 1;
    assert lines[i0..i0 + 1] == [line];
    if IsFence(line) {
      html, i, b := RenderFence(lines, i0);
      return;
    }
    if IsHeading(line) {
      return HeadingHtml(line), i, Block(Heading, [line]);
    }
    if IsRule(line) {
      return "<hr class=\"rdw-md-hr\">", i, Block(Rule, [line]);
    }
    if IsQuote(line) {
      html, i := RenderRun(IsQuote, QuoteLine, lines, i0);
      RunFirst(IsQuote, lines, i0, i);
      return "<blockquote class=\"rdw-md-bq\">" + html + "</blockquote>", i, Block(Quote, lines[i0..i]);
    }
    if IsBullet(line) {
      html, i := RenderRun(IsBullet, BulletLine, lines, i0);
      RunFirst(IsBullet, lines, i0, i);
      return "<ul class=\"rdw-md-ul\">" + html + "</ul>", i, Block(Bullets, lines[i0..i]);
    }
    if OpensNumbered(line) {
      html, i := RenderRun(IsNumbered, NumberedLine, lines, i0);
      RunFirst(IsNumbered, lines, i0, i);
      return "<ol class=\"rdw-md-ol\">" + html + "</ol>", i, Block(Numbered, lines[i0..i]);
    }
    if IsBlank(line) {
      return "", i, Block(Blank, [line]);
    }
    html, i := RenderParagraph(lines, i0);
    html := "<p class=\"rdw-md-p\">" + html + "</p>";
    b := Block(Paragraph, lines[i0..i]);
    RunFirst(InParagraph, lines, i0, i);
  }

  /** The kinds a line can be of. */
  lemma Exclusive(line: string)
    ensures IsHeading(line) || IsRule(line) || IsQuote(line) || IsBullet(line) || OpensNumbered(line) ||
            IsBlank(line) ==>
              !Stuck(line)
    ensures OpensNumbered(line) ==> IsNumbered(line)
    ensures !IsFence(line) && !IsHeading(line) && !IsQuote(line) && !IsBullet(line) && !IsBlank(line) ==>
              (InParagraph(line) <==> !Stuck(line))
    ensures Stuck(line) ==> !InParagraph(line)
  {
    hide IsBlank, Level;
    if "#" <= line { OrdinaryIsNotBlank(line, '#'); }
  }

  lemma OrdinaryIsNotBlank(line: string, c: char)
    requires line != "" && line[0] == c && c in "#`"
    ensures !IsBlank(line)
  {
    hide Text.TrimSpace;
    Text.TrimKeeps(line, c);
  }

  /** Whether the next line is inside a code fence. */
  predicate InFence(lines: seq<string>) {
    lines != [] && (InFence(lines[..|lines| - 1]) != IsFence(lines[|lines| - 1]))
  }

  /** A line outside fences that starts with a hash without being a heading. */
  ghost predicate StuckAt(lines: seq<string>, p: nat)
    requires p < |lines|
  {
    !InFence(lines[..p]) && Stuck(lines[p])
  }

  /** The rendered text; None stands for a loop that never ends. That happens exactly when some line outside fences
      starts with a hash without being a heading of level one to six. */
  method RenderMarkdown(lines: seq<string>) returns (html: Option<string>, ghost blocks: seq<Block>)
    ensures html.None? <==> exists p :: 0 <= p < |lines| && StuckAt(lines, p)
    ensures html.Some? ==> Scanned(lines, blocks, |lines|)
    ensures html.Some? ==>
              (forall k :: 0 <= k < |blocks| ==> Renderable(blocks[k])) && html.value == Render(blocks, |lines|)
  {
    hide Fits, BlockHtml, InFence, Stuck, IsFence, Scans.Scanned, Renderable;
    var out, i := "", 0;
    blocks := [];
    NothingScanned(lines);
    ghost var done := 0;
    while i < |lines|
      invariant done == if i <= |lines| then i else |lines|
      invariant Scanned(lines, blocks, done)
      invariant (forall k :: 0 <= k < |blocks| ==> Renderable(blocks[k])) && out == Render(blocks, done)
    {
      ScannedFences(lines, blocks, i);
      ghost var b;
      var piece, next;
      piece, next, b := RenderBlock(lines, i);
      if next == i {
        assert StuckAt(lines, i);
        return None, blocks;
      }
      done := if next <= |lines| then next else |lines|;
      FitsRenderable(b, lines[done..]);
      Scans.ScannedSnoc(lines, blocks, i, b, LinesOf, Fits);
      assert Scanned(lines, blocks + [b], done);
      assert (blocks + [b])[..|blocks|] == blocks;
      blocks := blocks + [b];
      out := out + piece;
      i := next;
    }
    ScannedFences(lines, blocks, |lines|);
    html := Some(out);
  }

  /** A tag such as this one is enough. */
  lemma TagIsStuck()
    ensures StuckAt(["#tag"], 0)
  {
    var line := "#tag";
    assert line[1..][0] == 't';
    assert Level(line) == 1;
  }

  lemma FenceSnoc(lines: seq<string>, p: nat)
    requires p < |lines|
    ensures InFence(lines[..p + 1]) == (InFence(lines[..p]) != IsFence(lines[p]))
  {
    assert lines[..p + 1][..p] == lines[..p];
  }

  lemma {:induction false} NoFences(lines: seq<string>, i: nat, j: nat)
    requires i <= j <= |lines| && forall p :: i <= p < j ==> !IsFence(lines[p])
    ensures InFence(lines[..j]) == InFence(lines[..i])
  {
    hide InFence, IsFence;
    if i < j {
      NoFences(lines, i, j - 1);
      FenceSnoc(lines, j - 1);
    }
  }

  lemma KindsAreNoFences(line: string)
    ensures IsHeading(line) || IsRule(line) || IsQuote(line) || IsBullet(line) || IsNumbered(line) || IsBlank(line) ||
            InParagraph(line) ==>
              !IsFence(line) && !Stuck(line)
  {
    hide IsBlank, Level;
    Exclusive(line);
    if IsFence(line) {
      assert line[0] == '`';
      OrdinaryIsNotBlank(line, '`');
    }
  }

  lemma FenceBlock(lines: seq<string>, b: Block, i: nat, j: nat)
    requires i < j <= |lines| && b.kind == Fence && b.lines == lines[i..j] && Fits(b, lines[j..]) &&
             !InFence(lines[..i])
    ensures forall p :: i <= p < j ==> !StuckAt(lines, p)
    ensures !InFence(lines[..j]) || j == |lines|
  {
    hide InFence, IsFence, Stuck;
    FenceSnoc(lines, i);
    var body := Enclosed(b.lines);
    assert b.lines[0] == lines[i];
    if Closed(b.lines) {
      SliceOfSlice(lines, i, j, |b.lines| - 1);
    } else {
      SliceOfSlice(lines, i, j, |b.lines|);
    }
    forall p | i < p < i + 1 + |body| ensures !IsFence(lines[p]) { assert body[p - i - 1] == lines[p]; }
    forall p | i < p < j ensures InFence(lines[..p]) { NoFences(lines, i + 1, p); }
    FenceNotStuck(lines[i]);
    if Closed(b.lines) {
      assert lines[j - 1] == b.lines[|b.lines| - 1];
      FenceSnoc(lines, j - 1);
    }
  }

  lemma FenceNotStuck(line: string)
    requires IsFence(line)
    ensures !Stuck(line)
  {
    assert line[0] == '`';
  }

  /** Blocks end outside fences, but for an unclosed one at the very end, and consume no stuck line. */
  lemma {:induction false} ScannedFences(lines: seq<string>, blocks: seq<Block>, i: nat)
    requires Scanned(lines, blocks, i)
    ensures !InFence(lines[..i]) || i == |lines|
    ensures forall p :: 0 <= p < i ==> !StuckAt(lines, p)
    decreases |blocks|
  {
    hide Scanned, IsFence, IsHeading, IsRule, IsQuote, IsBullet, OpensNumbered, IsNumbered, IsBlank, InParagraph, Stuck;
    LastBlock(lines, blocks, i);
    if blocks != [] {
      var last := blocks[|blocks| - 1];
      var j := i - |last.lines|;
      ScannedFences(lines, blocks[..|blocks| - 1], j);
      if last.kind == Fence {
        FenceBlock(lines, last, j, i);
      } else {
        forall p | j <= p < i ensures !IsFence(lines[p]) && !Stuck(lines[p]) {
          assert lines[p] == last.lines[p - j];
          KindsAreNoFences(lines[p]);
        }
        NoFences(lines, j, i);
      }
    }
  }

  // ------------------------------------------------------------------ what being scanned means

  /** Every line is in exactly one block, in order. */
  lemma BlocksPartition(lines: seq<string>, blocks: seq<Block>, i: nat)
    requires Scanned(lines, blocks, i)
    ensures Scans.Texts(blocks, LinesOf) == lines[..i]
  {
    hide Fits;
    Scans.Partition(lines, blocks, i, LinesOf, Fits);
  }

  lemma LineKinds(line: string)
    ensures IsFence(line) ==>
              !IsHeading(line) && !IsRule(line) && !IsQuote(line) && !IsBullet(line) && !IsNumbered(line)
    ensures IsHeading(line) ==>
              !IsRule(line) && !IsQuote(line) && !IsBullet(line) && !IsNumbered(line) && !InParagraph(line)
    ensures IsRule(line) ==> !IsQuote(line) && !IsBullet(line) && !IsNumbered(line)
    ensures IsQuote(line) ==> !IsBullet(line) && !IsNumbered(line) && !InParagraph(line)
    ensures IsBullet(line) ==> !IsNumbered(line) && !InParagraph(line)
    ensures IsBlank(line) ==> !InParagraph(line)
    ensures IsFence(line) ==> !InParagraph(line)
  {
    hide IsBlank;
    if |line| > 1 { assert line[..2] == [line[0], line[1]]; }
  }

  /** Blank lines are of no other kind. */
  lemma BlankIsBlank(line: string)
    requires IsBlank(line)
    ensures !IsFence(line) && !IsHeading(line) && !IsRule(line) && !IsQuote(line) && !IsBullet(line) &&
            !OpensNumbered(line)
  {
    hide Text.TrimSpace, Level;
    if line != "" {
      if '1' <= line[0] <= '9' { assert Text.SOLID[8 + (line[0] as int - '1' as int)] == line[0]; }
      if line[0] in Text.SOLID { Text.TrimKeeps(line, line[0]); }
    }
  }

  lemma SameKind(a: Block, b: Block, restA: seq<string>, restB: seq<string>)
    requires Fits(a, restA) && Fits(b, restB) && a.lines[0] == b.lines[0]
    ensures a.kind == b.kind
  {
    hide IsFence, IsHeading, IsRule, IsQuote, IsBullet, OpensNumbered, IsNumbered, IsBlank, InParagraph, Closed,
        Enclosed;
    var line := a.lines[0];
    LineKinds(line);
    Exclusive(line);
    if IsBlank(line) { BlankIsBlank(line); }
  }

  lemma NotLongerBlock(a: Block, b: Block, restB: seq<string>)
    requires 0 < |a.lines| <= |b.lines| && b.lines[..|a.lines|] == a.lines && a.kind == b.kind
    requires Fits(a, b.lines[|a.lines|..] + restB) && Fits(b, restB)
    ensures a == b
  {
    hide IsFence, IsHeading, IsRule, IsQuote, IsBullet, OpensNumbered, IsNumbered, IsBlank, InParagraph;
    var n := |a.lines|;
    var rest := b.lines[n..] + restB;
    assert n == |b.lines| ==> b.lines[..n] == b.lines;
    assert n < |b.lines| ==> rest[0] == b.lines[n];
    assert a.lines[n - 1] == b.lines[n - 1];
    if 1 < n < |b.lines| && b.kind == Fence { InnerLine(b, restB, n - 1); }
  }

  lemma InnerLine(b: Block, rest: seq<string>, k: nat)
    requires Fits(b, rest) && b.kind == Fence && 1 <= k < |b.lines| - 1
    ensures !IsFence(b.lines[k])
  {
    hide IsFence;
    assert Enclosed(b.lines)[k - 1] == b.lines[k];
  }

  /** The lines decide what the first block is. */
  lemma BlocksAreDeterministic()
    ensures Scans.Deterministic(LinesOf, Fits)
  {
    hide Fits;
    forall a: Block, b: Block, restA: seq<string>, restB: seq<string> |
      Fits(a, restA) && Fits(b, restB) && a.lines != [] && b.lines != [] && a.lines + restA == b.lines + restB
      ensures a == b
    {
      var s := a.lines + restA;
      assert a.lines == s[..|a.lines|] && restA == s[|a.lines|..];
      assert b.lines == s[..|b.lines|] && restB == s[|b.lines|..];
      assert a.lines[0] == s[0] == b.lines[0];
      SameKind(a, b, restA, restB);
      if |a.lines| <= |b.lines| {
        assert b.lines[..|a.lines|] == a.lines && restA == b.lines[|a.lines|..] + restB;
        NotLongerBlock(a, b, restB);
      } else {
        assert a.lines[..|b.lines|] == b.lines && restB == a.lines[|b.lines|..] + restA;
        NotLongerBlock(b, a, restA);
      }
    }
  }

  /** A text can be read as blocks in at most one way. */
  lemma BlocksAreUnique(lines: seq<string>, a: seq<Block>, b: seq<Block>)
    requires Scanned(lines, a, |lines|) && Scanned(lines, b, |lines|)
    ensures a == b
  {
    hide Fits;
    BlocksAreDeterministic();
    Scans.Unique(lines, a, b, LinesOf, Fits);
  }
}
