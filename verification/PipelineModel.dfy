/** What a pipeline does to its lines, as functions of the lines alone. */
module PipelineModel {
  import opened Wrappers
  import opened Control
  import Base64
  import KVStore
  import opened Text

  const BASE64_PREFIX := "b64:"

  type Filter = string -> Option<string>

  datatype Error =
    | BadPayload(entry: string)
    | BadKey(key: KVStore.KeyError)
    | Refused(why: KVStore.SetError)
    | Cancelled

  /** What a raw line asks for. */
  datatype Action = Show(line: string) | Store(payload: string) | Notify(seqn: Sequence)

  function Route(raw: string): Action {
    var q := Parsed(raw);
    if q.None? then Show(raw)
    else if q.value.kind == Verbatim then Show(q.value.payload)
    else if q.value.kind == Kind.Base64 then Show(BASE64_PREFIX + q.value.payload)
    else if q.value.kind == KV then Store(q.value.payload)
    else Notify(q.value)
  }

  /** What each tag does to its payload. */
  lemma RouteOfTag(k: Kind, t: string)
    ensures Route(Tag(k) + t) ==
            match k {
              case Verbatim => Show(t)
              case Base64 => Show("b64:" + t)
              case KV => Store(t)
              case _ => Notify(Sequence(k, t))
            }
  {
    hide Tag, Parsed;
    ParsePrint(Sequence(k, t));
  }

  function MaybeDecode(line: string): string {
    if BASE64_PREFIX <= line then Base64.Decode(line[|BASE64_PREFIX|..]).GetOr(line) else line
  }

  /** The line after all filters, or None when one drops it. */
  function Filtered(filters: seq<Filter>, line: string): Option<string> {
    if filters == [] then Some(line)
    else
      var r := filters[0](line);
      if r.None? then None else Filtered(filters[1..], r.value)
  }

  function Content(filters: seq<Filter>, line: string): seq<string> {
    var r := Filtered(filters, MaybeDecode(line));
    if r.None? then [] else [r.value]
  }

  /** What the line is after each filter so far: it starts as `line`, and each filter passes on the next. */
  ghost predicate Stages(filters: seq<Filter>, line: string, ts: seq<string>) {
    && 1 <= |ts| <= |filters| + 1 && ts[0] == line
    && forall i :: 0 <= i < |ts| - 1 ==> filters[i](ts[i]) == Some(ts[i + 1])
  }

  /** The line passed all filters, the last of which made `out` of it. */
  ghost predicate Passes(filters: seq<Filter>, line: string, out: string) {
    exists ts :: Stages(filters, line, ts) && |ts| == |filters| + 1 && ts[|filters|] == out
  }

  /** The line passed some filters and was dropped by the next. */
  ghost predicate Dropped(filters: seq<Filter>, line: string) {
    exists ts :: Stages(filters, line, ts) && |ts| <= |filters| && filters[|ts| - 1](ts[|ts| - 1]).None?
  }

  lemma StagesTail(filters: seq<Filter>, line: string, ts: seq<string>)
    requires filters != [] && |ts| > 1 && Stages(filters, line, ts)
    ensures Stages(filters[1..], ts[1], ts[1..])
  {
    forall i | 0 <= i < |ts[1..]| - 1 ensures filters[1..][i](ts[1..][i]) == Some(ts[1..][i + 1]) {
      assert filters[i + 1](ts[i + 1]) == Some(ts[i + 2]);
    }
  }

  lemma StagesCons(filters: seq<Filter>, line: string, ts: seq<string>)
    requires filters != [] && ts != [] && filters[0](line) == Some(ts[0]) && Stages(filters[1..], ts[0], ts)
    ensures Stages(filters, line, [line] + ts)
  {
    var all := [line] + ts;
    forall i | 0 <= i < |all| - 1 ensures filters[i](all[i]) == Some(all[i + 1]) {
      if i > 0 { assert filters[1..][i - 1](ts[i - 1]) == Some(ts[i]); }
    }
  }

  /** The trace of a line through the filters, as far as it gets. */
  lemma {:induction false} TraceOf(filters: seq<Filter>, line: string) returns (ts: seq<string>)
    ensures Stages(filters, line, ts)
    ensures Filtered(filters, line).Some? ==> |ts| == |filters| + 1 && Filtered(filters, line) == Some(ts[|filters|])
    ensures Filtered(filters, line).None? ==> |ts| <= |filters| && filters[|ts| - 1](ts[|ts| - 1]).None?
    decreases |filters|
  {
    ts := [line];
    if filters != [] && filters[0](line).Some? {
      var rest := TraceOf(filters[1..], filters[0](line).value);
      StagesCons(filters, line, rest);
      ts := [line] + rest;
    }
  }

  /** There is only one trace of each length. */
  lemma {:induction false} SameTrace(filters: seq<Filter>, line: string, ts: seq<string>, us: seq<string>)
    requires Stages(filters, line, ts) && Stages(filters, line, us) && |ts| <= |us|
    ensures ts == us[..|ts|]
    decreases |ts|
  {
    if |ts| > 1 {
      assert filters[0](ts[0]) == Some(ts[1]) && filters[0](us[0]) == Some(us[1]);
      StagesTail(filters, line, ts);
      StagesTail(filters, line, us);
      SameTrace(filters[1..], ts[1], ts[1..], us[1..]);
      assert ts == [ts[0]] + ts[1..] && us[..|ts|] == [us[0]] + us[1..][..|ts| - 1];
    } else {
      assert ts == [line] && us[..1] == [line];
    }
  }

  /** The filters run in order, each on what the one before passed on: a text comes out exactly when all pass it on, and
      nothing does exactly when one of them drops what reached it. */
  lemma FilteredIff(filters: seq<Filter>, line: string)
    ensures forall out :: Filtered(filters, line) == Some(out) <==> Passes(filters, line, out)
    ensures Filtered(filters, line).None? <==> Dropped(filters, line)
  {
    hide Stages, Filtered;
    var ts := TraceOf(filters, line);
    StagesStart(filters, line, ts);
    forall out | Passes(filters, line, out) ensures Filtered(filters, line) == Some(out) {
      var us :| Stages(filters, line, us) && |us| == |filters| + 1 && us[|filters|] == out;
      NoEarlierDrop(filters, line, ts, us);
    }
    if Dropped(filters, line) {
      var us := TraceOfDrop(filters, line);
      if Filtered(filters, line).Some? { NoEarlierDrop(filters, line, us, ts); }
    }
  }

  lemma TraceOfDrop(filters: seq<Filter>, line: string) returns (us: seq<string>)
    requires Dropped(filters, line)
    ensures Stages(filters, line, us) && 1 <= |us| <= |filters| && filters[|us| - 1](us[|us| - 1]).None?
  {
    us :| Stages(filters, line, us) && |us| <= |filters| && filters[|us| - 1](us[|us| - 1]).None?;
  }

  lemma StagesStart(filters: seq<Filter>, line: string, ts: seq<string>)
    requires Stages(filters, line, ts)
    ensures 1 <= |ts| <= |filters| + 1
  {}

  /** A trace that goes on is not one that ends in a drop. */
  lemma NoEarlierDrop(filters: seq<Filter>, line: string, ts: seq<string>, us: seq<string>)
    requires Stages(filters, line, ts) && Stages(filters, line, us) && |ts| <= |us| == |filters| + 1
    ensures ts == us[..|ts|] && (|ts| <= |filters| ==> filters[|ts| - 1](ts[|ts| - 1]).Some?)
  {
    SameTrace(filters, line, ts, us);
    if |ts| <= |filters| { assert filters[|ts| - 1](us[|ts| - 1]) == Some(us[|ts|]); }
  }

  /** A content line is decoded first and filtered then. */
  lemma ContentIff(filters: seq<Filter>, line: string)
    ensures forall out :: Content(filters, line) == [out] <==> Passes(filters, MaybeDecode(line), out)
    ensures Content(filters, line) == [] <==> Dropped(filters, MaybeDecode(line))
  {
    hide MaybeDecode, Filtered, Passes, Dropped;
    FilteredIff(filters, MaybeDecode(line));
  }

  /** A filter that drops everything shows nothing, and one that shouts shows what it shouts. */
  lemma FiltersRun(line: string)
    ensures Content([(_: string) => None], line) == []
    ensures Content([(s: string) => Some(s + "!")], line) == [MaybeDecode(line) + "!"]
  {
    hide MaybeDecode;
    var shout: Filter := (s: string) => Some(s + "!");
    assert [shout][1..] == [];
    assert Filtered([shout], MaybeDecode(line)) == Some(MaybeDecode(line) + "!");
  }

  /** The state of the key-value store, what was shown and handed to the control handler, and the error that stopped
      it. */
  datatype Effect = Effect(data: map<KVStore.Key, string>, total: int, shown: seq<string>,
                           notified: seq<Sequence>, err: Option<Error>)

  /** Write the pairs in order up to the first rejected one. */
  function ApplyPairs(data: map<KVStore.Key, string>, total: int, ps: seq<Pair>)
      : (map<KVStore.Key, string>, int, Option<Error>)
    decreases |ps|
  {
    if ps == [] then (data, total, None)
    else
      var k := KVStore.ParseKey(ps[0].0);
      if k.Err? then (data, total, Some(BadKey(k.error)))
      else
        var r := KVStore.SetResult(data, total, k.value, ps[0].1);
        if r.Err? then (data, total, Some(Refused(r.error)))
        else
          var (data', total') := KVStore.After(data, total, KVStore.Set(k.value, ps[0].1));
          ApplyPairs(data', total', ps[1..])
  }

  function ApplyPayload(data: map<KVStore.Key, string>, total: int, payload: string)
      : (map<KVStore.Key, string>, int, Option<Error>)
  {
    var ps := PairsOf(payload);
    if ps.Err? then (data, total, Some(BadPayload(ps.error))) else ApplyPairs(data, total, ps.value)
  }

  function ProcessLine(filters: seq<Filter>, data: map<KVStore.Key, string>, total: int, raw: string): Effect {
    match Route(raw)
    case Show(line) => Effect(data, total, Content(filters, line), [], None)
    case Store(payload) =>
      var (data', total', err) := ApplyPayload(data, total, payload);
      Effect(data', total', [], [], err)
    case Notify(q) => Effect(data, total, [], [q], None)
  }

  function Then(e: Effect, f: Effect): Effect {
    Effect(f.data, f.total, e.shown + f.shown, e.notified + f.notified, f.err)
  }

  /** Lines one after the other up to the first error. */
  function Run(filters: seq<Filter>, data: map<KVStore.Key, string>, total: int, lines: seq<string>): Effect {
    if lines == [] then Effect(data, total, [], [], None)
    else
      var e := Run(filters, data, total, lines[..|lines| - 1]);
      if e.err.Some? then e else Then(e, ProcessLine(filters, e.data, e.total, lines[|lines| - 1]))
  }

  // ------------------------------------------------------------------ the functional specification

  /** The content lines, filtered, in order. */
  function Shown(filters: seq<Filter>, lines: seq<string>): seq<string> {
    if lines == [] then []
    else Shown(filters, lines[..|lines| - 1]) +
         (match Route(lines[|lines| - 1]) case Show(line) => Content(filters, line) case _ => [])
  }

  function Notified(lines: seq<string>): seq<Sequence> {
    if lines == [] then []
    else Notified(lines[..|lines| - 1]) + (match Route(lines[|lines| - 1]) case Notify(q) => [q] case _ => [])
  }

  function SetsOf(ps: seq<Pair>): (r: seq<KVStore.Call>)
    ensures |r| == |ps|
  {
    seq(|ps|, i requires 0 <= i < |ps| => KVStore.Set(ps[i].0, ps[i].1))
  }

  /** The writes a line asks for. */
  function Writes(raw: string): seq<KVStore.Call> {
    match Route(raw)
    case Store(payload) => if PairsOf(payload).Ok? then SetsOf(PairsOf(payload).value) else []
    case _ => []
  }

  function AllWrites(lines: seq<string>): seq<KVStore.Call> {
    if lines == [] then [] else AllWrites(lines[..|lines| - 1]) + Writes(lines[|lines| - 1])
  }

  predicate Accepted(data: map<KVStore.Key, string>, total: int, c: KVStore.Call) {
    c.Set? && KVStore.ParseKey(c.k).Ok? && KVStore.SetResult(data, total, c.k, c.v).Ok?
  }

  /** Made one after the other, all the writes are accepted. */
  predicate AllAccepted(data: map<KVStore.Key, string>, total: int, calls: seq<KVStore.Call>)
    decreases |calls|
  {
    calls != [] ==>
      && Accepted(data, total, calls[0])
      && var (data', total') := KVStore.After(data, total, calls[0]); AllAccepted(data', total', calls[1..])
  }

  lemma {:induction false} RunFromConcat(data: map<KVStore.Key, string>, total: int, a: seq<KVStore.Call>,
                                         b: seq<KVStore.Call>)
    ensures KVStore.RunFrom(data, total, a + b) ==
            KVStore.RunFrom(KVStore.RunFrom(data, total, a).0, KVStore.RunFrom(data, total, a).1, b)
    decreases |a|
  {
    if a == [] {
      assert a + b == b;
    } else {
      var (data', total') := KVStore.After(data, total, a[0]);
      assert (a + b)[1..] == a[1..] + b;
      RunFromConcat(data', total', a[1..], b);
    }
  }

  /** Why a pair is rejected: its key first. */
  function WhyNot(data: map<KVStore.Key, string>, total: int, p: Pair): Error
    requires !Accepted(data, total, KVStore.Set(p.0, p.1))
  {
    var k := KVStore.ParseKey(p.0);
    if k.Err? then BadKey(k.error) else Refused(KVStore.SetResult(data, total, p.0, p.1).error)
  }

  /** `j` pairs were written; with an error pair `j` is the first that is rejected, and without one there is none. */
  ghost predicate AppliedUpTo(data: map<KVStore.Key, string>, total: int, ps: seq<Pair>, j: nat) {
    var (data', total', err) := ApplyPairs(data, total, ps);
    var calls := SetsOf(ps);
    && j <= |ps|
    && (data', total') == KVStore.RunFrom(data, total, calls[..j])
    && AllAccepted(data, total, calls[..j])
    && (err.None? <==> j == |ps|)
    && (j < |ps| ==> !AllAccepted(data, total, calls[..j + 1]))
    && (j < |ps| ==>
          !Accepted(data', total', KVStore.Set(ps[j].0, ps[j].1)) && err == Some(WhyNot(data', total', ps[j])))
  }

  lemma CallsHead(ps: seq<Pair>, j: nat)
    requires j < |ps|
    ensures SetsOf(ps)[..j + 1] == [KVStore.Set(ps[0].0, ps[0].1)] + SetsOf(ps[1..])[..j]
    ensures SetsOf(ps)[..j + 1][1..] == SetsOf(ps[1..])[..j]
  {}

  lemma {:induction false} PairsApplied(data: map<KVStore.Key, string>, total: int, ps: seq<Pair>) returns (j: nat)
    ensures AppliedUpTo(data, total, ps, j)
    decreases |ps|
  {
    hide KVStore.SetResult, KVStore.ParseKey;
    j := 0;
    if ps != [] {
      var call := KVStore.Set(ps[0].0, ps[0].1);
      if Accepted(data, total, call) {
        var (data', total') := KVStore.After(data, total, call);
        var i := PairsApplied(data', total', ps[1..]);
        j := i + 1;
        CallsHead(ps, i);
        if j < |ps| { CallsHead(ps, j); }
      } else {
        CallsHead(ps, 0);
      }
    }
  }

  /** A run without an error shows every content line filtered and in order, hands on every other sequence, and
      makes every write of every key=value line, each accepted. */
  lemma {:induction false} SuccessfulRun(filters: seq<Filter>, data: map<KVStore.Key, string>, total: int,
                                         lines: seq<string>)
    ensures var e := Run(filters, data, total, lines);
            e.err.None? ==>
              && e.shown == Shown(filters, lines)
              && e.notified == Notified(lines)
              && (e.data, e.total) == KVStore.RunFrom(data, total, AllWrites(lines))
              && forall i :: 0 <= i <= |lines| ==> Run(filters, data, total, lines[..i]).err.None?
    decreases |lines|
  {
    if lines != [] && Run(filters, data, total, lines).err.None? {
      var init, last := lines[..|lines| - 1], lines[|lines| - 1];
      SuccessfulRun(filters, data, total, init);
      var e := Run(filters, data, total, init);
      forall i | 0 <= i <= |lines| ensures Run(filters, data, total, lines[..i]).err.None? {
        if i < |lines| { assert lines[..i] == init[..i]; } else { assert lines[..i] == lines; }
      }
      LineWrites(filters, e.data, e.total, last);
      RunFromConcat(data, total, AllWrites(init), Writes(last));
    }
  }

  /** One line without an error makes all its writes. */
  lemma LineWrites(filters: seq<Filter>, data: map<KVStore.Key, string>, total: int, raw: string)
    requires ProcessLine(filters, data, total, raw).err.None?
    ensures var e := ProcessLine(filters, data, total, raw);
            (e.data, e.total) == KVStore.RunFrom(data, total, Writes(raw))
  {
    match Route(raw)
    case Store(payload) =>
      var ps := PairsOf(payload).value;
      var j := PairsApplied(data, total, ps);
      assert SetsOf(ps)[..|ps|] == SetsOf(ps);
    case _ =>
  }

  /** The run stopped at line `k` after writing `j` of its pairs: everything before the line took full effect, and of
      the line itself exactly the pairs before the first rejected one, or none when its payload does not parse. */
  ghost predicate StoppedAt(filters: seq<Filter>, data: map<KVStore.Key, string>, total: int, lines: seq<string>,
                            k: nat, j: nat) {
    && k < |lines| && Route(lines[k]).Store?
    && var e, before := Run(filters, data, total, lines), Run(filters, data, total, lines[..k]);
       var parsed := PairsOf(Route(lines[k]).payload);
       && before.err.None?
       && e.err.Some?
       && e.shown == Shown(filters, lines[..k])
       && e.notified == Notified(lines[..k])
       && if parsed.Err? then
            e == before.(err := Some(BadPayload(parsed.error)))
          else
            && j < |parsed.value|
            && AppliedUpTo(before.data, before.total, parsed.value, j)
            && (e.data, e.total) == KVStore.RunFrom(data, total, AllWrites(lines[..k]) + SetsOf(parsed.value)[..j])
  }

  /** A run that fails stops at one line. */
  lemma {:induction false} FailedRun(filters: seq<Filter>, data: map<KVStore.Key, string>, total: int,
                                     lines: seq<string>)
      returns (k: nat, j: nat)
    ensures Run(filters, data, total, lines).err.Some? ==> StoppedAt(filters, data, total, lines, k, j)
    decreases |lines|
  {
    hide AppliedUpTo, Content, KVStore.RunFrom, Route, PairsOf, ApplyPairs, ProcessLine, Shown, Notified, AllWrites;
    k, j := 0, 0;
    if lines == [] || Run(filters, data, total, lines).err.None? {
      return;
    }
    var init := lines[..|lines| - 1];
    if Run(filters, data, total, init).err.Some? {
      k, j := FailedRun(filters, data, total, init);
      assert init[..k] == lines[..k];
    } else {
      k := |lines| - 1;
      j := FailsAtLast(filters, data, total, lines);
    }
  }

  lemma {:induction false} FailsAtLast(filters: seq<Filter>, data: map<KVStore.Key, string>, total: int,
                                       lines: seq<string>) returns (j: nat)
    requires lines != []
    ensures Run(filters, data, total, lines).err.Some? && Run(filters, data, total, lines[..|lines| - 1]).err.None? ==>
              StoppedAt(filters, data, total, lines, |lines| - 1, j)
  {
    hide AppliedUpTo, Content, KVStore.RunFrom, Route, PairsOf, ApplyPairs;
    var init, last := lines[..|lines| - 1], lines[|lines| - 1];
    var before := Run(filters, data, total, init);
    j := 0;
    SuccessfulRun(filters, data, total, init);
    if ProcessLine(filters, before.data, before.total, last).err.None? {
      return;
    }
    var parsed := PairsOf(Route(last).payload);
    if parsed.Ok? {
      j := PairsApplied(before.data, before.total, parsed.value);
      AppliedMeans(before.data, before.total, parsed.value, j);
      RunFromConcat(data, total, AllWrites(init), SetsOf(parsed.value)[..j]);
    }
  }

  lemma AppliedMeans(data: map<KVStore.Key, string>, total: int, ps: seq<Pair>, j: nat)
    requires AppliedUpTo(data, total, ps, j)
    ensures j <= |ps| && (ApplyPairs(data, total, ps).2.None? <==> j == |ps|)
    ensures (ApplyPairs(data, total, ps).0, ApplyPairs(data, total, ps).1) ==
            KVStore.RunFrom(data, total, SetsOf(ps)[..j])
  {}

  /** The value each key is last given. */
  function LastValues(ps: seq<Pair>): map<KVStore.Key, string> {
    if ps == [] then map[] else map[ps[0].0 := ps[0].1] + LastValues(ps[1..])
  }

  lemma {:induction false} AcceptedWrites(data: map<KVStore.Key, string>, total: int, ps: seq<Pair>)
    requires AllAccepted(data, total, SetsOf(ps))
    ensures KVStore.RunFrom(data, total, SetsOf(ps)).0 == data + LastValues(ps)
    decreases |ps|
  {
    if ps != [] {
      var call := KVStore.Set(ps[0].0, ps[0].1);
      var (data', total') := KVStore.After(data, total, call);
      assert SetsOf(ps)[0] == call && SetsOf(ps)[1..] == SetsOf(ps[1..]);
      AcceptedWrites(data', total', ps[1..]);
      assert data + (map[ps[0].0 := ps[0].1] + LastValues(ps[1..])) == data[ps[0].0 := ps[0].1] + LastValues(ps[1..]);
    }
  }

  /** A rejected line is atomic exactly when the pairs before the rejected one leave every key at the value it had. */
  lemma KVLineAtomicIff(data: map<KVStore.Key, string>, total: int, ps: seq<Pair>, j: nat)
    requires AppliedUpTo(data, total, ps, j) && j < |ps|
    ensures ApplyPairs(data, total, ps).0 == data <==>
            forall k :: k in LastValues(ps[..j]) ==> k in data && data[k] == LastValues(ps[..j])[k]
  {
    assert SetsOf(ps)[..j] == SetsOf(ps[..j]);
    AcceptedWrites(data, total, ps[..j]);
    var last := LastValues(ps[..j]);
    if forall k :: k in last ==> k in data && data[k] == last[k] { assert data + last == data; }
    if data + last == data { assert forall k :: k in last ==> (data + last)[k] == last[k]; }
  }

  /** So a sequence is not atomic, whatever the manual says. */
  lemma KVLineIsNotAtomic()
    ensures var e := ApplyPairs(map[], 0, [("a", "1"), ("?", "2")]);
            e.2 == Some(BadKey(KVStore.BadCharacter)) && e.0 == map["a" := "1"]
  {
    var ps: seq<Pair> := [("a", "1"), ("?", "2")];
    assert KVStore.ParseKey("a").Ok? && KVStore.ParseKey("?") == Err(KVStore.BadCharacter);
    assert KVStore.After(map[], 0, KVStore.Set("a", "1")) == (map["a" := "1"], 1);
    assert ps[1..] == [("?", "2")];
  }

  /** Keys the store accepts survive the separators and the trimming of a key=value line, so only a value can spoil
      one. */
  lemma AcceptedPairsRoundTrip(ps: seq<Pair>)
    requires forall i :: 0 <= i < |ps| ==> KVStore.ParseKey(ps[i].0).Ok?
    requires forall i :: 0 <= i < |ps| ==> ';' !in ps[i].1 && TrailingSpace(ps[i].1) == 0
    ensures PairsOf(PrintPairs(ps)) == Ok(ps)
  {
    forall i | 0 <= i < |ps| ensures Printable(ps[i]) { AcceptedKeyIsPrintable(ps[i].0); }
    KVRoundTrip(ps);
  }

  lemma AcceptedKeyIsPrintable(k: string)
    requires KVStore.ParseKey(k).Ok?
    ensures k != "" && '=' !in k && ';' !in k && LeadingSpace(k) == 0
  {
    WordIsNoSpace(k);
  }

  // ------------------------------------------------------------------ verbatim and framed lines

  lemma {:induction false} DecodeShrinks(t: string)
    ensures Base64.DecodeGroups(t).Some? ==> |Base64.DecodeGroups(t).value| <= |t|
  {
    hide Base64.Digit, Base64.Bytes3;
    if |t| >= 4 { DecodeShrinks(t[4..]); }
  }

  lemma {:induction false} UnwrapShrinks(t: string)
    ensures |Base64.Unwrap(t)| <= |t|
  {
    if t != "" { UnwrapShrinks(t[1..]); }
  }

  /** The verbatim prefix passes its payload through literally, except a payload that is itself a decodable base64
      line. */
  lemma VerbatimIsLiteralIff(t: string)
    ensures Route(Tag(Verbatim) + t) == Show(t)
    ensures Content([], t) == [t] <==> !(BASE64_PREFIX <= t && Base64.Decode(t[|BASE64_PREFIX|..]).Some?)
  {
    ParsePrint(Sequence(Verbatim, t));
    if BASE64_PREFIX <= t {
      UnwrapShrinks(t[|BASE64_PREFIX|..]);
      DecodeShrinks(Base64.Unwrap(t[|BASE64_PREFIX|..]));
    }
  }

  /** The verbatim payload b64:QQ== is shown as A. */
  lemma VerbatimIsDecoded()
    ensures Route("v:b64:QQ==") == Show("b64:QQ==") && Content([], "b64:QQ==") == ["A"]
  {
    ParsePrint(Sequence(Verbatim, "b64:QQ=="));
    assert Tag(Verbatim) + "b64:QQ==" == "v:b64:QQ==";
    QQDecodes();
    assert "b64:QQ=="[|BASE64_PREFIX|..] == "QQ==";
  }

  lemma QQDecodes()
    ensures Base64.Decode("QQ==") == Some("A")
  {
    var t := "QQ==";
    assert t[1..] == "Q==" && t[1..][1..] == "==" && t[1..][1..][1..] == "=" && t[1..][1..][1..][1..] == "";
    assert Base64.Unwrap(t) == t;
    assert Base64.Digit('Q') == Some(16);
    assert Base64.Bytes3(16, 16, 0, 0)[..1] == "A";
  }

  /** A line no tag starts is shown as it is. */
  lemma PlainIsLiteral(t: string)
    requires forall k :: !(Tag(k) <= t)
    ensures Route(t) == Show(t) && MaybeDecode(t) == t && Content([], t) == [t]
  {
    hide KindOf, Tag;
    PrintParse(t);
    TagOfBase64();
    assert !(Tag(Kind.Base64) <= t);
  }

  lemma TagOfBase64()
    ensures Tag(Kind.Base64) == BASE64_PREFIX
  {}

  /** An encoded line is decoded by the pipeline to the encoded bytes. */
  lemma EncodedLineIsDecoded(s: string)
    requires Base64.IsBytes(s)
    ensures Route(BASE64_PREFIX + Base64.Encode(s)) == Show(BASE64_PREFIX + Base64.Encode(s))
    ensures MaybeDecode(BASE64_PREFIX + Base64.Encode(s)) == s
  {
    hide Base64.Encode, Base64.Decode, KindOf;
    ParsePrint(Sequence(Kind.Base64, Base64.Encode(s)));
    Base64.RoundTrip(s);
    assert (BASE64_PREFIX + Base64.Encode(s))[|BASE64_PREFIX|..] == Base64.Encode(s);
  }
}
