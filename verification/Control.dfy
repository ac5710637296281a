/** The inline control sequence parser. */
module Control {
  import opened Text
  import opened Wrappers

  datatype Kind =
    | Verbatim | Quit | Semaphore | Clear | Timestamp | Formatter | Relay | KV
    | Base64 | Bookmark | Highlight | Scrollback | Image | SVG | Scale | SVGData | Title

  datatype Sequence = Sequence(kind: Kind, payload: string)

  const SENTINEL_IMAGE_END := "image:end"
  const SENTINEL_SVG_END := "svg:end"

  const KNOWN_KINDS: map<char, Kind> :=
    map['v' := Verbatim, 'q' := Quit, 's' := Semaphore, 'c' := Clear, 't' := Timestamp, 'f' := Formatter, 'r' := Relay,
        '=' := KV]

  const MULTI_KINDS: map<string, Kind> :=
    map["b64" := Base64, "bm" := Bookmark, "hl" := Highlight, "sc" := Scrollback, "image" := Image, "svg" := SVG,
        "scale" := Scale, "svg-data" := SVGData, "title" := Title]

  /** The text that introduces a control sequence of the given kind. */
  function Tag(k: Kind): string {
    match k
    case Verbatim => "v:"    case Quit => "q:"   case Semaphore => "s:"  case Clear => "c:"
    case Timestamp => "t:"   case Formatter => "f:"  case Relay => "r:"  case KV => "=:"
    case Base64 => "b64:"    case Bookmark => "bm:"  case Highlight => "hl:"  case Scrollback => "sc:"
    case Image => "image:"   case SVG => "svg:"      case Scale => "scale:"   case SVGData => "svg-data:"
    case Title => "title:"
  }

  function Print(q: Sequence): string {
    Tag(q.kind) + q.payload
  }

  /** The kind whose tag starts the line; at most one does. */
  function KindOf(line: string): Option<Kind> {
    if Tag(Verbatim) <= line then Some(Verbatim)
    else if Tag(Quit) <= line then Some(Quit)
    else if Tag(Semaphore) <= line then Some(Semaphore)
    else if Tag(Clear) <= line then Some(Clear)
    else if Tag(Timestamp) <= line then Some(Timestamp)
    else if Tag(Formatter) <= line then Some(Formatter)
    else if Tag(Relay) <= line then Some(Relay)
    else if Tag(KV) <= line then Some(KV)
    else if Tag(Base64) <= line then Some(Base64)
    else if Tag(Bookmark) <= line then Some(Bookmark)
    else if Tag(Highlight) <= line then Some(Highlight)
    else if Tag(Scrollback) <= line then Some(Scrollback)
    else if Tag(Image) <= line then Some(Image)
    else if Tag(SVG) <= line then Some(SVG)
    else if Tag(Scale) <= line then Some(Scale)
    else if Tag(SVGData) <= line then Some(SVGData)
    else if Tag(Title) <= line then Some(Title)
    else None
  }

  /** The sequence whose printed form is the line, if there is one. */
  function Parsed(line: string): Option<Sequence> {
    var k := KindOf(line);
    if k.None? then None else TagStarts(line); Some(Sequence(k.value, line[|Tag(k.value)|..]))
  }

  lemma TagStarts(line: string)
    ensures KindOf(line).Some? ==> Tag(KindOf(line).value) <= line
  {}

  /** No tag starts another, so no line can be read two ways. */
  lemma TagsPrefixFree(j: Kind, k: Kind, line: string)
    requires Tag(j) <= line && Tag(k) <= line
    ensures j == k
  {
    assert line[0] == Tag(j)[0] == Tag(k)[0];
    assert line[1] == Tag(j)[1] == Tag(k)[1];
    assert |Tag(j)| >= 3 && |Tag(k)| >= 3 ==> line[2] == Tag(j)[2] == Tag(k)[2];
    assert |Tag(j)| >= 4 && |Tag(k)| >= 4 ==> line[3] == Tag(j)[3] == Tag(k)[3];
  }

  /** Parsing undoes printing. */
  lemma ParsePrint(q: Sequence)
    ensures Parsed(Print(q)) == Some(q)
  {
    var line := Print(q);
    assert Tag(q.kind) <= line;
    TagStarts(line);
    assert KindOf(line).Some?;
    TagsPrefixFree(q.kind, KindOf(line).value, line);
  }

  /** Printing undoes parsing, and a line is no control sequence exactly when no tag starts it. */
  lemma PrintParse(line: string)
    ensures Parsed(line).Some? ==> Print(Parsed(line).value) == line
    ensures Parsed(line).None? <==> forall k :: !(Tag(k) <= line)
  {
    hide KindOf, Tag;
    TagStarts(line);
    forall k | Tag(k) <= line ensures KindOf(line).Some? {
      ParsePrint(Sequence(k, line[|Tag(k)|..]));
      assert Print(Sequence(k, line[|Tag(k)|..])) == line;
    }
  }

  /** Tries the multi-character prefixes in any order, as iterating over a map does. */
  method Parse(line: string) returns (r: Option<Sequence>)
    ensures r == Parsed(line)
  {
    hide Parsed, KindOf, Tag;
    if |line| < 2 {
      TooShort(line);
      return None;
    }
    var prefixes := MULTI_KINDS.Keys;
    while prefixes != {}
      invariant prefixes <= MULTI_KINDS.Keys
      invariant forall p :: p in MULTI_KINDS && p !in prefixes ==> !(p + ":" <= line)
    {
      var prefix :| prefix in prefixes;
      var tag := prefix + ":";
      if tag <= line {
        TagOfMulti(prefix);
        PrintedIsParsed(Sequence(MULTI_KINDS[prefix], line[|tag|..]), line);
        return Some(Sequence(MULTI_KINDS[prefix], line[|tag|..]));
      }
      prefixes := prefixes - {prefix};
    }
    SingleOrNone(line);
    if line[1] != ':' { return None; }
    var c := line[0];
    if c !in KNOWN_KINDS { return None; }
    return Some(Sequence(KNOWN_KINDS[c], line[2..]));
  }

  lemma TooShort(line: string)
    requires |line| < 2
    ensures Parsed(line) == None
  {}

  lemma SingleOrNone(line: string)
    requires |line| >= 2 && forall p :: p in MULTI_KINDS ==> !(p + ":" <= line)
    ensures Parsed(line) ==
            if line[1] == ':' && line[0] in KNOWN_KINDS then Some(Sequence(KNOWN_KINDS[line[0]], line[2..])) else None
  {
    hide KindOf, Tag;
    NoMultiTag(line);
    TagStarts(line);
    if KindOf(line).Some? { SingleTag(KindOf(line).value); }
    if line[1] == ':' && line[0] in KNOWN_KINDS {
      KnownTag(line[0]);
      PrintedIsParsed(Sequence(KNOWN_KINDS[line[0]], line[2..]), line);
    }
  }

  lemma SingleTag(k: Kind)
    requires |Tag(k)| == 2
    ensures Tag(k)[1] == ':' && Tag(k)[0] in KNOWN_KINDS && KNOWN_KINDS[Tag(k)[0]] == k
  {}

  lemma KnownTag(c: char)
    requires c in KNOWN_KINDS
    ensures Tag(KNOWN_KINDS[c]) == [c, ':']
  {}

  lemma PrintedIsParsed(q: Sequence, line: string)
    requires Print(q) == line
    ensures Parsed(line) == Some(q)
  {
    ParsePrint(q);
  }

  lemma TagOfMulti(p: string)
    requires p in MULTI_KINDS
    ensures Tag(MULTI_KINDS[p]) == p + ":"
  {}

  lemma NoMultiTag(line: string)
    requires forall p :: p in MULTI_KINDS ==> !(p + ":" <= line)
    ensures KindOf(line).Some? ==> |Tag(KindOf(line).value)| == 2
  {
    assert "b64" in MULTI_KINDS && "bm" in MULTI_KINDS && "hl" in MULTI_KINDS && "sc" in MULTI_KINDS &&
           "image" in MULTI_KINDS;
    assert "svg" in MULTI_KINDS && "scale" in MULTI_KINDS && "svg-data" in MULTI_KINDS && "title" in MULTI_KINDS;
    assert "b64" + ":" == Tag(Base64) && "bm" + ":" == Tag(Bookmark) && "hl" + ":" == Tag(Highlight) &&
           "sc" + ":" == Tag(Scrollback);
    assert "image" + ":" == Tag(Image) && "svg" + ":" == Tag(SVG) && "scale" + ":" == Tag(Scale);
    assert "svg-data" + ":" == Tag(SVGData) && "title" + ":" == Tag(Title);
  }

  // ------------------------------------------------------------------ key=value payloads

  type Pair = (string, string)

  /** One trimmed, non-empty entry; None when it has no '=' behind a key. */
  function ParseEntry(entry: string): Option<Pair> {
    var i := IndexOf(entry, '=');
    if i == 0 || i == |entry| then None else Some((entry[..i], entry[i + 1..]))
  }

  function Prepend(ps: seq<Pair>, r: Result<seq<Pair>, string>): Result<seq<Pair>, string> {
    match r
    case Ok(qs) => Ok(ps + qs)
    case Err(e) => Err(e)
  }

  /** The pairs of all entries, skipping blank ones; the first malformed entry is the error. */
  function Entries(raw: seq<string>): Result<seq<Pair>, string> {
    if raw == [] then Ok([])
    else
      var entry := TrimSpace(raw[0]);
      if entry == "" then Entries(raw[1..])
      else if ParseEntry(entry).None? then Err(entry)
      else
        Prepend([ParseEntry(entry).value], Entries(raw[1..]))
  }

  function PairsOf(payload: string): Result<seq<Pair>, string> {
    if payload == "" then Ok([]) else Entries(Split(payload, ';'))
  }

  method KVPairs(payload: string) returns (r: Result<seq<Pair>, string>)
    ensures r == PairsOf(payload)
  {
    hide TrimSpace, Prepend, Entries, Split, IndexOf;
    if payload == "" { return Ok([]); }
    var raw := Split(payload, ';');
    var pairs: seq<Pair> := [];
    assert raw[0..] == raw;
    PrependNothing(Entries(raw));
    for i := 0 to |raw|
      invariant Entries(raw) == Prepend(pairs, Entries(raw[i..]))
    {
      EntriesStep(raw, i);
      var entry := TrimSpace(raw[i]);
      if entry == "" { continue; }
      var idx := IndexOf(entry, '=');
      if idx == 0 || idx == |entry| {
        PrependEnds(pairs, entry);
        return Err(entry);
      }
      PrependTwice(pairs, [(entry[..idx], entry[idx + 1..])], Entries(raw[i + 1..]));
      pairs := pairs + [(entry[..idx], entry[idx + 1..])];
    }
    assert raw[|raw|..] == [];
    NoEntries();
    PrependEnds(pairs, "");
    return Ok(pairs);
  }

  lemma NoEntries()
    ensures Entries([]) == Ok([])
  {}

  lemma EntriesStep(raw: seq<string>, i: nat)
    requires i < |raw|
    ensures var entry, rest := TrimSpace(raw[i]), Entries(raw[i + 1..]);
            Entries(raw[i..]) ==
              if entry == "" then rest
              else if ParseEntry(entry).None? then Err(entry)
              else Prepend([ParseEntry(entry).value], rest)
  {
    hide TrimSpace, Prepend, ParseEntry;
    assert raw[i..][0] == raw[i] && raw[i..][1..] == raw[i + 1..];
  }

  lemma PrependNothing(r: Result<seq<Pair>, string>)
    ensures Prepend([], r) == r
  {
    if r.Ok? { assert [] + r.value == r.value; }
  }

  lemma PrependTwice(ps: seq<Pair>, qs: seq<Pair>, r: Result<seq<Pair>, string>)
    ensures Prepend(ps, Prepend(qs, r)) == Prepend(ps + qs, r)
  {
    if r.Ok? { assert ps + (qs + r.value) == ps + qs + r.value; }
  }

  lemma PrependEnds(ps: seq<Pair>, e: string)
    ensures Prepend(ps, Ok([])) == Ok(ps) && Prepend(ps, Err(e)) == Err(e)
  {
    assert ps + [] == ps;
  }

  /** What is left of the entries when they are trimmed and the blank ones are left out. */
  function Kept(raw: seq<string>): seq<string> {
    if raw == [] then []
    else (if TrimSpace(raw[0]) == "" then [] else [TrimSpace(raw[0])]) + Kept(raw[1..])
  }

  /** There is an equals sign, and something before the first. */
  predicate HasKey(entry: string) {
    '=' in entry && entry[0] != '='
  }

  predicate IsPairOf(p: Pair, entry: string) {
    p.0 != "" && '=' !in p.0 && p.0 + "=" + p.1 == entry
  }

  lemma ParseEntryIff(entry: string)
    ensures ParseEntry(entry).Some? <==> HasKey(entry)
    ensures ParseEntry(entry).Some? ==> IsPairOf(ParseEntry(entry).value, entry)
  {
    hide IndexOf;
    var i := IndexOf(entry, '=');
    if 0 < i < |entry| { assert entry == entry[..i] + "=" + entry[i + 1..]; }
  }

  ghost predicate FirstWithoutKey(kept: seq<string>, i: nat)
    requires i < |kept|
  {
    !HasKey(kept[i]) && forall j :: 0 <= j < i ==> HasKey(kept[j])
  }

  ghost predicate IsReading(r: Result<seq<Pair>, string>, kept: seq<string>) {
    && (r.Ok? <==> forall i :: 0 <= i < |kept| ==> HasKey(kept[i]))
    && (r.Ok? ==> |r.value| == |kept| && forall i :: 0 <= i < |kept| ==> IsPairOf(r.value[i], kept[i]))
    && (r.Err? ==> exists i :: 0 <= i < |kept| && kept[i] == r.error && FirstWithoutKey(kept, i))
  }

  lemma ReadingFails(entry: string, rest: seq<string>)
    requires !HasKey(entry)
    ensures IsReading(Err(entry), [entry] + rest)
  {
    hide HasKey;
    var kept := [entry] + rest;
    assert kept[0] == entry && FirstWithoutKey(kept, 0);
  }

  lemma ReadingGoesOn(p: Pair, entry: string, r: Result<seq<Pair>, string>, rest: seq<string>)
    requires HasKey(entry) && IsPairOf(p, entry) && IsReading(r, rest)
    ensures IsReading(Prepend([p], r), [entry] + rest)
  {
    hide HasKey, IsPairOf, FirstWithoutKey;
    var kept := [entry] + rest;
    assert kept[0] == entry;
    assert forall i :: 0 < i < |kept| ==> kept[i] == rest[i - 1];
    if r.Ok? {
      assert forall i :: 0 <= i < |kept| ==> HasKey(kept[i]);
      assert forall i :: 0 < i < |kept| ==> ([p] + r.value)[i] == r.value[i - 1];
    } else {
      var i :| 0 <= i < |rest| && rest[i] == r.error && FirstWithoutKey(rest, i);
      FirstGoesOn(entry, rest, i);
      assert kept[i + 1] == r.error;
    }
  }

  lemma FirstGoesOn(entry: string, rest: seq<string>, i: nat)
    requires HasKey(entry) && i < |rest| && FirstWithoutKey(rest, i)
    ensures FirstWithoutKey([entry] + rest, i + 1) && !HasKey(([entry] + rest)[i + 1])
  {
    hide HasKey;
    var kept := [entry] + rest;
    assert kept[0] == entry && forall j :: 0 < j < |kept| ==> kept[j] == rest[j - 1];
  }

  lemma {:induction false} EntriesIff(raw: seq<string>)
    ensures IsReading(Entries(raw), Kept(raw))
    decreases |raw|
  {
    hide HasKey, IsPairOf, ParseEntry, TrimSpace, IsReading, Prepend;
    if raw == [] {
      NothingIsRead();
    } else {
      var entry, rest := TrimSpace(raw[0]), Kept(raw[1..]);
      EntriesIff(raw[1..]);
      ParseEntryIff(entry);
      if entry == "" {
        assert Kept(raw) == rest;
      } else if ParseEntry(entry).None? {
        ReadingFails(entry, rest);
      } else {
        ReadingGoesOn(ParseEntry(entry).value, entry, Entries(raw[1..]), rest);
      }
    }
  }

  lemma NothingIsRead()
    ensures IsReading(Ok([]), [])
  {}

  /** A payload is accepted exactly when each of its entries but the blank ones has a key; the pairs are those entries,
      cut at their first equals sign, and the error is the first entry without a key. */
  lemma PairsIff(payload: string)
    ensures IsReading(PairsOf(payload), Kept(Split(payload, ';')))
  {
    hide Kept, Entries, IsReading;
    EntriesIff(Split(payload, ';'));
    if payload == "" {
      NothingKept();
      NothingIsRead();
    }
  }

  lemma NothingKept()
    ensures Kept(Split("", ';')) == []
  {
    var raw := [""];
    EmptyIsBlank();
    assert IndexOf("", ';') == 0 && Split("", ';') == raw && raw[1..] == [];
  }

  /** White space around an entry and a separator too many do no harm. */
  lemma PaddedEntries()
    ensures PairsOf(" a=1;") == Ok([("a", "1")])
  {
    hide Kept, PairsOf, HasKey, IsPairOf, FirstWithoutKey;
    KeptOfPadded();
    PairsIff(" a=1;");
    PairOfPadded();
    var kept := Kept(Split(" a=1;", ';'));
    assert kept[0] == "a=1";
    var r := PairsOf(" a=1;");
    OnlyPair(("a", "1"), r.value[0], "a=1");
    assert r.value == [r.value[0]];
  }

  lemma PairOfPadded()
    ensures HasKey("a=1") && IsPairOf(("a", "1"), "a=1")
  {
    assert "a=1"[1] == '=';
  }

  lemma KeptOfPadded()
    ensures Kept(Split(" a=1;", ';')) == ["a=1"]
  {
    hide TrimSpace;
    var raw := [" a=1", ""];
    SplitJoin(raw, ';');
    assert raw[1..] == [""] && [""][1..] == [];
    assert Join(raw, ';') == " a=1;";
    PaddingGoes();
    EmptyIsBlank();
    assert Kept([""]) == [];
  }

  lemma EmptyIsBlank()
    ensures TrimSpace("") == ""
  {}

  lemma PaddingGoes()
    ensures TrimSpace(" a=1") == "a=1"
  {
    hide LeadingSpace, TrailingSpace, TrimLeft, TrimRight;
    var s := " a=1";
    FirstSpaceGoes(s);
    assert s[1..] == "a=1" == PrintPair(("a", "1"));
    NothingToTrim();
    PrintPairTrimmed(("a", "1"));
  }

  lemma FirstSpaceGoes(s: string)
    requires s != "" && s[0] == ' '
    ensures TrimSpace(s) == TrimSpace(s[1..])
  {
    hide TrimRight;
    assert s[..1] == " ";
  }

  lemma NothingToTrim()
    ensures Printable(("a", "1"))
  {
    hide LeadingSpace, TrailingSpace;
    TrailingKeeps("1", '1');
    WordIsNoSpace("a");
  }

  /** An entry can be cut in only one way. */
  lemma OnlyPair(p: Pair, q: Pair, entry: string)
    requires IsPairOf(p, entry) && IsPairOf(q, entry)
    ensures p == q
  {
    IndexAfter(p.0, '=', p.1);
    IndexAfter(q.0, '=', q.1);
    assert p.0 + ['='] + p.1 == entry == q.0 + ['='] + q.1;
    assert p.0 == entry[..|p.0|] && q.0 == entry[..|q.0|] && p.1 == entry[|p.0| + 1..] && q.1 == entry[|q.0| + 1..];
  }

  function PrintPair(p: Pair): string {
    p.0 + "=" + p.1
  }

  function PrintPairs(ps: seq<Pair>): string {
    Join(seq(|ps|, i requires 0 <= i < |ps| => PrintPair(ps[i])), ';')
  }

  /** Keys and values that survive the separators and the trimming. */
  predicate Printable(p: Pair) {
    && p.0 != "" && '=' !in p.0 && ';' !in p.0 && LeadingSpace(p.0) == 0
    && ';' !in p.1 && TrailingSpace(p.1) == 0
  }

  lemma NoSpacePrefix(s: string, n: nat)
    requires LeadingSpace(s) == 0 && 1 <= n <= 3 && n <= |s|
    ensures !IsSpace(s[..n])
  {
    hide IsSpace;
  }

  lemma NoSpaceSuffix(s: string, n: nat)
    requires TrailingSpace(s) == 0 && 1 <= n <= 3 && n <= |s|
    ensures !IsSpace(s[|s| - n..])
  {
    hide IsSpace;
    if n == 1 {} else if n == 2 {} else {}
  }

  lemma NoLeading(p: Pair, n: nat)
    requires Printable(p) && 1 <= n <= 3 && n <= |PrintPair(p)|
    ensures !IsSpace(PrintPair(p)[..n])
  {
    hide IsSpace, LeadingSpace, TrailingSpace;
    var s := PrintPair(p);
    if n <= |p.0| {
      assert s[..n] == p.0[..n];
      NoSpacePrefix(p.0, n);
    } else {
      assert s[..n][|p.0|] == '=';
      if IsSpace(s[..n]) { SpaceHasNo(s[..n], '='); }
    }
  }

  lemma NoTrailing(p: Pair, n: nat)
    requires Printable(p) && 1 <= n <= 3 && n <= |PrintPair(p)|
    ensures !IsSpace(PrintPair(p)[|PrintPair(p)| - n..])
  {
    hide IsSpace, LeadingSpace, TrailingSpace;
    var s := PrintPair(p);
    var t := s[|s| - n..];
    if n <= |p.1| {
      assert t == p.1[|p.1| - n..];
      NoSpaceSuffix(p.1, n);
    } else {
      assert t[n - |p.1| - 1] == '=';
      if IsSpace(t) { SpaceHasNo(t, '='); }
    }
  }

  lemma PrintPairTrimmed(p: Pair)
    requires Printable(p)
    ensures TrimSpace(PrintPair(p)) == PrintPair(p) != ""
  {
    hide IsSpace, PrintPair, TrimSpace, LeadingSpace, TrailingSpace;
    var s := PrintPair(p);
    if LeadingSpace(s) > 0 { NoLeading(p, LeadingSpace(s)); }
    if TrailingSpace(s) > 0 { NoTrailing(p, TrailingSpace(s)); }
    TrimNothing(s);
    PrintPairNotEmpty(p);
  }

  lemma PrintPairNotEmpty(p: Pair)
    ensures PrintPair(p) != ""
  {}

  lemma EntryOfPrint(p: Pair)
    requires Printable(p)
    ensures ParseEntry(PrintPair(p)) == Some(p)
  {
    hide IsSpace, LeadingSpace, TrailingSpace;
    IndexAfter(p.0, '=', p.1);
    assert PrintPair(p) == p.0 + ['='] + p.1;
    assert PrintPair(p)[..|p.0|] == p.0 && PrintPair(p)[|p.0| + 1..] == p.1;
  }

  lemma {:induction false} EntriesOfPrint(raw: seq<string>, ps: seq<Pair>)
    requires |raw| == |ps| && forall i :: 0 <= i < |ps| ==> Printable(ps[i]) && raw[i] == PrintPair(ps[i])
    ensures Entries(raw) == Ok(ps)
  {
    hide Printable, TrimSpace, ParseEntry, PrintPair;
    if raw != [] {
      PrintPairTrimmed(ps[0]);
      EntryOfPrint(ps[0]);
      EntriesOfPrint(raw[1..], ps[1..]);
      assert ps == [ps[0]] + ps[1..];
    }
  }

  /** Reading back a printed list of pairs yields the list. */
  lemma KVRoundTrip(ps: seq<Pair>)
    requires forall i :: 0 <= i < |ps| ==> Printable(ps[i])
    ensures PairsOf(PrintPairs(ps)) == Ok(ps)
  {
    if ps != [] {
      var raw := seq(|ps|, i requires 0 <= i < |ps| => PrintPair(ps[i]));
      forall i | 0 <= i < |raw| ensures ';' !in raw[i] {}
      SplitJoin(raw, ';');
      EntriesOfPrint(raw, ps);
      JoinNotEmpty(raw, ';');
    }
  }

  lemma JoinNotEmpty(parts: seq<string>, sep: char)
    requires parts != [] && parts[0] != ""
    ensures Join(parts, sep) != ""
  {}
}
