/** What the client frames, the pipeline shows: the framing reader and the pipeline put together. */
module EndToEnd {
  import opened Wrappers
  import opened Control
  import Base64
  import Framing
  import KVStore
  import Pipes = PipelineModel

  /** A line that no control tag starts, or a block. */
  ghost predicate Plain(it: Framing.Item) {
    Framing.Framable(it) && (it.Line? ==> forall k :: !(Tag(k) <= it.text))
  }

  /** The tag of a framed block's line is the pipeline's own. */
  lemma BlockTags()
    ensures Framing.IMAGE_LINE == Pipes.BASE64_PREFIX && Framing.SVG_LINE == Tag(SVGData)
  {}

  /** An image block reaches the sinks as its lines, each followed by a newline; its one-line form holds no newline. */
  lemma ImageIsShown(it: Framing.Item)
    requires Framing.Framable(it) && it.ImageBlock?
    ensures var line := Framing.Synthetic(it);
            && '\n' !in line
            && Pipes.Route(line) == Pipes.Show(line)
            && Pipes.MaybeDecode(line) == Framing.Block(it.body)
  {
    hide Base64.Encode, Pipes.Route, Pipes.MaybeDecode, Framing.Block, Base64.IsText;
    BlockTags();
    Framing.BlockIsBytes(it.body);
    Base64.EncodeIsText(Framing.Block(it.body));
    Pipes.EncodedLineIsDecoded(Framing.Block(it.body));
  }

  /** An SVG block reaches the control handler as a text that decodes to its lines. */
  lemma SVGIsHandedOn(it: Framing.Item)
    requires Framing.Framable(it) && it.SVGBlock?
    ensures var line := Framing.Synthetic(it);
            && '\n' !in line
            && Pipes.Route(line) == Pipes.Notify(Sequence(SVGData, Framing.EncodeBlock(it.body)))
            && Base64.Decode(Framing.EncodeBlock(it.body)) == Some(Framing.Block(it.body))
  {
    hide Base64.Encode, Base64.Decode, Framing.Block, Base64.IsText, Tag, KindOf;
    BlockTags();
    Framing.BlockIsBytes(it.body);
    var text := Framing.EncodeBlock(it.body);
    Base64.EncodeIsText(Framing.Block(it.body));
    Base64.RoundTrip(Framing.Block(it.body));
    ParsePrint(Sequence(SVGData, text));
  }

  /** The text after the filters, or nothing when one drops it. */
  function Through(fs: seq<Pipes.Filter>, text: string): seq<string> {
    match Pipes.Filtered(fs, text)
    case Some(out) => [out]
    case None => []
  }

  function ItemShown(fs: seq<Pipes.Filter>, it: Framing.Item): seq<string> {
    match it
    case Line(text) => Through(fs, text)
    case ImageBlock(_, body) => Through(fs, Framing.Block(body))
    case SVGBlock(_, _) => []
  }

  function ItemHanded(it: Framing.Item): seq<Sequence>
    requires Framing.Framable(it)
  {
    if it.SVGBlock? then [Sequence(SVGData, Framing.EncodeBlock(it.body))] else []
  }

  ghost predicate AllPlain(items: seq<Framing.Item>) {
    forall i :: 0 <= i < |items| ==> Plain(items[i])
  }

  function ItemsShown(fs: seq<Pipes.Filter>, items: seq<Framing.Item>): seq<string> {
    if items == [] then [] else ItemsShown(fs, items[..|items| - 1]) + ItemShown(fs, items[|items| - 1])
  }

  ghost function ItemsHanded(items: seq<Framing.Item>): seq<Sequence>
    requires AllPlain(items)
  {
    if items == [] then [] else ItemsHanded(items[..|items| - 1]) + ItemHanded(items[|items| - 1])
  }

  lemma OneItem(fs: seq<Pipes.Filter>, it: Framing.Item, data: map<KVStore.Key, string>, total: int)
    requires Plain(it)
    ensures Pipes.ProcessLine(fs, data, total, Framing.Synthetic(it)) ==
            Pipes.Effect(data, total, ItemShown(fs, it), ItemHanded(it), None)
  {
    hide Pipes.Route, Pipes.MaybeDecode, Pipes.Filtered, Framing.Block, Framing.Synthetic, Framing.EncodeBlock;
    match it
    case Line(text) => LineIsShown(it);
    case ImageBlock(_, _) => ImageIsShown(it);
    case SVGBlock(_, _) => SVGIsHandedOn(it);
  }

  lemma LineIsShown(it: Framing.Item)
    requires Plain(it) && it.Line?
    ensures var line := Framing.Synthetic(it);
            line == it.text && Pipes.Route(line) == Pipes.Show(line) && Pipes.MaybeDecode(line) == line
  {
    hide Pipes.Route, Pipes.Content, Pipes.MaybeDecode;
    Pipes.PlainIsLiteral(it.text);
  }

  lemma {:induction false} ItemsRun(fs: seq<Pipes.Filter>, items: seq<Framing.Item>, lines: seq<string>,
                                    data: map<KVStore.Key, string>, total: int)
    requires AllPlain(items) && |lines| == |items|
    requires forall i :: 0 <= i < |items| ==> lines[i] == Framing.Synthetic(items[i])
    ensures Pipes.Run(fs, data, total, lines) ==
            Pipes.Effect(data, total, ItemsShown(fs, items), ItemsHanded(items), None)
    decreases |items|
  {
    hide Pipes.ProcessLine, Framing.Synthetic, ItemShown, ItemHanded, Plain;
    if items != [] {
      var n := |items| - 1;
      ItemsRun(fs, items[..n], lines[..n], data, total);
      OneItem(fs, items[n], data, total);
    }
  }

  /** Plain lines, image blocks and SVG blocks, printed with their sentinels, read back by the framing reader and run
      through a pipeline with any filters, come out in order: at the sinks what the filters make of lines and decoded
      images, at the control handler the SVG texts, and the store is untouched. */
  lemma PrintedItemsComeOut(fs: seq<Pipes.Filter>, items: seq<Framing.Item>, data: map<KVStore.Key, string>, total: int)
    requires AllPlain(items)
    ensures Framing.AllBytes(Framing.PrintItems(items))
    ensures Pipes.Run(fs, data, total, Framing.Logical(Framing.PrintItems(items))) ==
            Pipes.Effect(data, total, ItemsShown(fs, items), ItemsHanded(items), None)
  {
    hide Pipes.Run, Framing.Logical, Framing.PrintItems;
    assert forall i :: 0 <= i < |items| ==> Plain(items[i]) && Framing.Framable(items[i]);
    Framing.FramingRoundTrip(items);
    ItemsRun(fs, items, Framing.Logical(Framing.PrintItems(items)), data, total);
  }
}
