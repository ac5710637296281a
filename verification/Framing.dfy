/** The client-side reader that turns sentinel-framed image and SVG blocks into single base64 lines. */
module Framing {
  import opened Wrappers
  import opened Control
  import opened Base64

  const IMAGE_OPEN := "image:"
  const SVG_OPEN := "svg:"
  const IMAGE_LINE := "b64:"
  const SVG_LINE := "svg-data:"

  ghost predicate AllBytes(lines: seq<string>) {
    forall i :: 0 <= i < |lines| ==> IsBytes(lines[i])
  }

  predicate OpensImage(line: string) {
    IMAGE_OPEN <= line && line != SENTINEL_IMAGE_END
  }

  predicate OpensSVG(line: string) {
    SVG_OPEN <= line && line != SENTINEL_SVG_END
  }

  /** Each line followed by a newline. */
  function Block(lines: seq<string>): string {
    if lines == [] then "" else lines[0] + "\n" + Block(lines[1..])
  }

  lemma {:induction false} BlockIsBytes(lines: seq<string>)
    requires AllBytes(lines)
    ensures IsBytes(Block(lines))
  {
    if lines != [] {
      assert IsBytes(lines[0]);
      BlockIsBytes(lines[1..]);
    }
  }

  lemma {:induction false} BlockSnoc(lines: seq<string>, line: string)
    ensures Block(lines + [line]) == Block(lines) + line + "\n"
  {
    if lines == [] {
      assert lines + [line] == [line] && [line][1..] == [];
    } else {
      BlockSnoc(lines[1..], line);
      assert (lines + [line])[1..] == lines[1..] + [line];
    }
  }

  /** How many lines come before the sentinel, or all of them. */
  function Until(lines: seq<string>, sentinel: string): (k: nat)
    ensures k <= |lines| && (k < |lines| ==> lines[k] == sentinel)
    ensures forall j :: 0 <= j < k ==> lines[j] != sentinel
  {
    if lines == [] || lines[0] == sentinel then 0 else 1 + Until(lines[1..], sentinel)
  }

  /** What follows the sentinel. */
  function Past(lines: seq<string>, k: nat): seq<string>
    requires k <= |lines|
  {
    if k < |lines| then lines[k + 1..] else []
  }

  function EncodeBlock(lines: seq<string>): string
    requires AllBytes(lines)
  {
    BlockIsBytes(lines);
    Encode(Block(lines))
  }

  /** The first logical line and the lines left behind it. */
  function NextLogical(lines: seq<string>): (r: (string, seq<string>))
    requires AllBytes(lines) && lines != []
    ensures |r.1| < |lines| && AllBytes(r.1)
  {
    var rest := lines[1..];
    if OpensImage(lines[0]) then
      var k := Until(rest, SENTINEL_IMAGE_END);
      (IMAGE_LINE + EncodeBlock(rest[..k]), Past(rest, k))
    else if OpensSVG(lines[0]) then
      var k := Until(rest, SENTINEL_SVG_END);
      (SVG_LINE + EncodeBlock(rest[..k]), Past(rest, k))
    else (lines[0], rest)
  }

  /** All logical lines of the input. */
  function Logical(lines: seq<string>): seq<string>
    requires AllBytes(lines)
    decreases |lines|
  {
    if lines == [] then [] else [NextLogical(lines).0] + Logical(NextLogical(lines).1)
  }

  class HybridReader {
    const input: seq<string>            // the lines the scanner yields, and
    const failure: Option<string>       // the error it reports behind the last one
    var pos: nat
    var pending: string
    var err: Option<string>

    ghost predicate Valid()
      reads this
    {
      pos <= |input| && AllBytes(input)
    }

    constructor (input: seq<string>, failure: Option<string>)
      requires AllBytes(input)
      ensures Valid() && pos == 0 && err == None && this.input == input && this.failure == failure
    {
      this.input, this.failure, pos, pending, err := input, failure, 0, "", None;
    }

    /** Advance to the next logical line. */
    method Next() returns (ok: bool)
      requires Valid()
      modifies this
      ensures Valid() && ok == (old(pos) < |input|)
      ensures ok ==> (pending, input[pos..]) == NextLogical(input[old(pos)..]) && err == old(err)
      ensures !ok ==> pos == old(pos) && err == failure
    {
      if pos == |input| {
        err := failure;
        return false;
      }
      var line := input[pos];
      ghost var lines := input[pos..];
      assert lines[0] == line && lines[1..] == input[pos + 1..];
      pos := pos + 1;
      if IMAGE_OPEN <= line && line != SENTINEL_IMAGE_END {
        var text := Accumulate(SENTINEL_IMAGE_END);
        pending := IMAGE_LINE + text;
      } else if SVG_OPEN <= line && line != SENTINEL_SVG_END {
        var text := Accumulate(SENTINEL_SVG_END);
        pending := SVG_LINE + text;
      } else {
        pending := line;
      }
      ok := true;
    }

    /** Read up to the sentinel, or to the end of the input, and encode what was read. */
    method Accumulate(sentinel: string) returns (text: string)
      requires Valid()
      modifies this`pos
      ensures Valid()
      ensures var rest := input[old(pos)..];
              var k := Until(rest, sentinel);
              text == EncodeBlock(rest[..k]) && input[pos..] == Past(rest, k)
    {
      hide Block, IsBytes, Encode, AllBytes, Until;
      var buf := "";
      ghost var start, rest := pos, input[pos..];
      BlockOfNothing(rest);
      while pos < |input|
        invariant start <= pos <= |input| && start == old(pos)
        invariant forall j :: 0 <= j < pos - start ==> rest[j] != sentinel
        invariant buf == Block(rest[..pos - start])
      {
        var line := input[pos];
        pos := pos + 1;
        ghost var k := pos - 1 - start;
        if line == sentinel {
          UntilIs(rest, sentinel, k);
          PartIsBytes(input, start, k);
          return Encode(buf);
        }
        BlockSnoc(rest[..k], line);
        assert rest[..k + 1] == rest[..k] + [line];
        buf := buf + line + "\n";
      }
      UntilIs(rest, sentinel, pos - start);
      PartIsBytes(input, start, pos - start);
      return Encode(buf);
    }
  }

  lemma BlockOfNothing(lines: seq<string>)
    ensures Block(lines[..0]) == ""
  {}

  lemma PartIsBytes(lines: seq<string>, i: nat, k: nat)
    requires AllBytes(lines) && i + k <= |lines|
    ensures AllBytes(lines[i..]) && AllBytes(lines[i..][..k]) && IsBytes(Block(lines[i..][..k]))
  {
    hide IsBytes;
    BlockIsBytes(lines[i..][..k]);
  }

  lemma {:induction false} UntilIs(lines: seq<string>, sentinel: string, k: nat)
    requires k <= |lines| && forall j :: 0 <= j < k ==> lines[j] != sentinel
    requires k < |lines| ==> lines[k] == sentinel
    ensures Until(lines, sentinel) == k
  {}

  // ------------------------------------------------------------------ the framing round trip

  datatype Item =
    | Line(text: string)
    | ImageBlock(opening: string, body: seq<string>)
    | SVGBlock(opening: string, body: seq<string>)

  ghost predicate Framable(it: Item) {
    match it
    case Line(text) => IsBytes(text) && !OpensImage(text) && !OpensSVG(text)
    case ImageBlock(opening, body) =>
      IsBytes(opening) && OpensImage(opening) && AllBytes(body) && SENTINEL_IMAGE_END !in body
    case SVGBlock(opening, body) =>
      IsBytes(opening) && OpensSVG(opening) && AllBytes(body) && SENTINEL_SVG_END !in body
  }

  /** An item as the sender writes it. */
  function PrintItem(it: Item): seq<string> {
    match it
    case Line(text) => [text]
    case ImageBlock(opening, body) => [opening] + body + [SENTINEL_IMAGE_END]
    case SVGBlock(opening, body) => [opening] + body + [SENTINEL_SVG_END]
  }

  function PrintItems(items: seq<Item>): seq<string> {
    if items == [] then [] else PrintItem(items[0]) + PrintItems(items[1..])
  }

  /** The single line an item becomes. */
  function Synthetic(it: Item): string
    requires Framable(it)
  {
    match it
    case Line(text) => text
    case ImageBlock(_, body) => IMAGE_LINE + EncodeBlock(body)
    case SVGBlock(_, body) => SVG_LINE + EncodeBlock(body)
  }

  lemma ReadBody(body: seq<string>, sentinel: string, rest: seq<string>)
    requires sentinel !in body
    ensures var lines := body + [sentinel] + rest;
            var k := Until(lines, sentinel);
            k == |body| && lines[..k] == body && Past(lines, k) == rest
  {
    var lines := body + [sentinel] + rest;
    assert forall j :: 0 <= j < |body| ==> lines[j] == body[j] && body[j] in body;
    UntilIs(lines, sentinel, |body|);
  }

  lemma NotBoth(line: string)
    ensures !(OpensImage(line) && OpensSVG(line))
  {
    if OpensImage(line) { assert line[0] == 'i'; }
  }

  lemma ItemIsBytes(it: Item, rest: seq<string>)
    requires Framable(it) && AllBytes(rest)
    ensures AllBytes(PrintItem(it) + rest)
  {
    assert IsBytes(SENTINEL_IMAGE_END) && IsBytes(SENTINEL_SVG_END);
    forall i | 0 <= i < |PrintItem(it) + rest| ensures IsBytes((PrintItem(it) + rest)[i]) {
      hide IsBytes;
      assert AllBytes(PrintItem(it));
    }
  }

  lemma NextIsLine(text: string, rest: seq<string>)
    requires Framable(Line(text)) && AllBytes([text] + rest)
    ensures NextLogical([text] + rest) == (text, rest)
  {
    hide OpensImage, OpensSVG, EncodeBlock, Until, Past, AllBytes;
    var lines := [text] + rest;
    assert lines[0] == text && lines[1..] == rest;
  }

  lemma NextIsBlock(opening: string, body: seq<string>, sentinel: string, rest: seq<string>)
    requires AllBytes(body) && sentinel !in body
    requires AllBytes([opening] + body + [sentinel] + rest)
    requires (OpensImage(opening) && sentinel == SENTINEL_IMAGE_END) ||
             (OpensSVG(opening) && sentinel == SENTINEL_SVG_END)
    ensures NextLogical([opening] + body + [sentinel] + rest) ==
            ((if OpensImage(opening) then IMAGE_LINE else SVG_LINE) + EncodeBlock(body), rest)
  {
    hide OpensImage, OpensSVG, EncodeBlock, Until, Past, AllBytes;
    var lines := [opening] + body + [sentinel] + rest;
    assert lines[0] == opening && lines[1..] == body + [sentinel] + rest;
    ReadBody(body, sentinel, rest);
    NotBoth(opening);
  }

  lemma NextIsItem(it: Item, rest: seq<string>)
    requires Framable(it) && AllBytes(rest)
    ensures AllBytes(PrintItem(it) + rest)
    ensures NextLogical(PrintItem(it) + rest) == (Synthetic(it), rest)
  {
    hide IsBytes, EncodeBlock, OpensImage, OpensSVG, NextLogical;
    ItemIsBytes(it, rest);
    match it
    case Line(text) => NextIsLine(text, rest);
    case ImageBlock(opening, body) =>
      NextIsBlock(opening, body, SENTINEL_IMAGE_END, rest);
    case SVGBlock(opening, body) =>
      NotBoth(opening);
      NextIsBlock(opening, body, SENTINEL_SVG_END, rest);
  }

  lemma {:induction false} PrintedIsBytes(items: seq<Item>)
    requires forall i :: 0 <= i < |items| ==> Framable(items[i])
    ensures AllBytes(PrintItems(items))
  {
    if items != [] {
      PrintedIsBytes(items[1..]);
      ItemIsBytes(items[0], PrintItems(items[1..]));
    }
  }

  lemma {:induction false} ReadBehindItems(items: seq<Item>, rest: seq<string>)
    requires AllBytes(rest) && forall i :: 0 <= i < |items| ==> Framable(items[i])
    ensures AllBytes(PrintItems(items) + rest)
    ensures var read := Logical(PrintItems(items) + rest);
            && |read| >= |items|
            && (forall i :: 0 <= i < |items| ==> read[i] == Synthetic(items[i]))
            && read[|items|..] == Logical(rest)
    decreases |items|
  {
    hide Framable, AllBytes, PrintItem, NextLogical, Synthetic;
    if items == [] {
      assert PrintItems(items) + rest == rest;
    } else {
      var more := PrintItems(items[1..]) + rest;
      ReadBehindItems(items[1..], rest);
      NextIsItem(items[0], more);
      assert PrintItems(items) + rest == PrintItem(items[0]) + more;
      LogicalUnfolds(PrintItem(items[0]) + more);
    }
  }

  lemma LogicalUnfolds(lines: seq<string>)
    requires AllBytes(lines) && lines != []
    ensures Logical(lines) == [NextLogical(lines).0] + Logical(NextLogical(lines).1)
  {}

  /** Whatever items are printed, reading them back yields one logical line per item, in order. */
  lemma FramingRoundTrip(items: seq<Item>)
    requires forall i :: 0 <= i < |items| ==> Framable(items[i])
    ensures AllBytes(PrintItems(items))
    ensures |Logical(PrintItems(items))| == |items|
    ensures forall i :: 0 <= i < |items| ==> Logical(PrintItems(items))[i] == Synthetic(items[i])
  {
    hide Framable, PrintItems, Synthetic;
    ReadBehindItems(items, []);
    assert PrintItems(items) + [] == PrintItems(items);
  }

  // ------------------------------------------------------------------ blocks that are never closed

  /** An opening line whose own end sentinel does not follow. */
  ghost predicate Unclosed(lines: seq<string>) {
    && lines != []
    && (OpensImage(lines[0]) || OpensSVG(lines[0]))
    && (if OpensImage(lines[0]) then SENTINEL_IMAGE_END else SENTINEL_SVG_END) !in lines[1..]
  }

  lemma NextIsUnclosed(lines: seq<string>)
    requires AllBytes(lines) && Unclosed(lines)
    ensures AllBytes(lines[1..])
    ensures NextLogical(lines) ==
            ((if OpensImage(lines[0]) then IMAGE_LINE else SVG_LINE) + EncodeBlock(lines[1..]), [])
  {
    hide EncodeBlock, OpensImage, OpensSVG;
    var rest := lines[1..];
    var sentinel := if OpensImage(lines[0]) then SENTINEL_IMAGE_END else SENTINEL_SVG_END;
    UntilIs(rest, sentinel, |rest|);
    assert rest[..|rest|] == rest;
  }

  /** A block that breaks off still becomes a line: everything behind its opening, whatever it looks like. */
  lemma UnclosedBlockIsRead(items: seq<Item>, block: seq<string>)
    requires AllBytes(block) && Unclosed(block) && forall i :: 0 <= i < |items| ==> Framable(items[i])
    ensures AllBytes(PrintItems(items) + block) && AllBytes(block[1..])
    ensures var read := Logical(PrintItems(items) + block);
            && |read| == |items| + 1
            && (forall i :: 0 <= i < |items| ==> read[i] == Synthetic(items[i]))
            && read[|items|] == (if OpensImage(block[0]) then IMAGE_LINE else SVG_LINE) + EncodeBlock(block[1..])
  {
    hide Framable, AllBytes, PrintItems, Synthetic, EncodeBlock, Unclosed, OpensImage, NextLogical;
    ReadBehindItems(items, block);
    NextIsUnclosed(block);
    UnclosedIsLines(block);
    LogicalUnfolds(block);
  }

  lemma UnclosedIsLines(lines: seq<string>)
    requires Unclosed(lines)
    ensures lines != []
  {}

  /** The body of a closed block and what stands behind its sentinel. */
  lemma CutAtSentinel(tail: seq<string>, sentinel: string) returns (body: seq<string>, rest: seq<string>)
    requires AllBytes(tail) && sentinel in tail
    ensures AllBytes(body) && AllBytes(rest) && sentinel !in body && tail == body + [sentinel] + rest
  {
    hide IsBytes;
    var k := Until(tail, sentinel);
    body, rest := tail[..k], tail[k + 1..];
  }

  lemma FirstItem(lines: seq<string>) returns (it: Item, rest: seq<string>)
    requires AllBytes(lines) && lines != [] && !Unclosed(lines)
    ensures Framable(it) && AllBytes(rest) && lines == PrintItem(it) + rest && |rest| < |lines|
  {
    hide IsBytes, OpensImage, OpensSVG;
    var line, tail := lines[0], lines[1..];
    assert IsBytes(line) && AllBytes(tail) && lines == [line] + tail;
    hide AllBytes;
    if OpensImage(line) {
      var body;
      body, rest := CutAtSentinel(tail, SENTINEL_IMAGE_END);
      it := ImageBlock(line, body);
    } else if OpensSVG(line) {
      var body;
      body, rest := CutAtSentinel(tail, SENTINEL_SVG_END);
      it := SVGBlock(line, body);
    } else {
      it, rest := Line(line), tail;
    }
  }

  /** So nothing else can arrive: every input is items one after the other, at most one unclosed block behind them. */
  lemma {:induction false} EveryInputIsItems(lines: seq<string>) returns (items: seq<Item>, block: seq<string>)
    requires AllBytes(lines)
    ensures forall i :: 0 <= i < |items| ==> Framable(items[i])
    ensures lines == PrintItems(items) + block && AllBytes(block) && (block == [] || Unclosed(block))
    decreases |lines|
  {
    hide Framable, Unclosed, PrintItem, AllBytes;
    if lines == [] || Unclosed(lines) {
      return [], lines;
    }
    var it, rest := FirstItem(lines);
    var more;
    more, block := EveryInputIsItems(rest);
    items := [it] + more;
    assert items[1..] == more && items[0] == it;
    assert lines == PrintItem(it) + PrintItems(more) + block;
  }
}
