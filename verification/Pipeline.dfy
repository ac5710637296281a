/** The per-stream relay: control dispatch, filters, scrollback and sinks. */
module Pipeline {
  import opened Wrappers
  import opened PipelineModel
  import Control
  import KVStore
  import opened Scrollback

  /** A registered sink, seen as the record of what it received. */
  class Sink {
    var received: seq<string>

    constructor ()
      ensures received == []
    {
      received := [];
    }
  }

  class Pipeline {
    const targetID: string
    const maxFilterStages: int // 0 means unlimited
    const kv: KVStore.Store
    const scrollback: ScrollbackBuffer
    var sinks: seq<Sink>
    var filters: seq<Filter>
    var hasHandler: bool
    var handled: seq<Control.Sequence> // what the control handler was called with

    ghost predicate Valid()
      reads this, kv, scrollback, scrollback.buf, sinks
    {
      && kv.Valid() && scrollback.Valid()
      && forall i, j :: 0 <= i < j < |sinks| ==> sinks[i] != sinks[j]
    }

    constructor (targetID: string, maxFilterStages: int, kv: KVStore.Store, scrollback: ScrollbackBuffer)
      ensures this.targetID == targetID && this.maxFilterStages == maxFilterStages
      ensures this.kv == kv && this.scrollback == scrollback
      ensures sinks == [] && filters == [] && !hasHandler && handled == []
    {
      this.targetID, this.maxFilterStages, this.kv, this.scrollback := targetID, maxFilterStages, kv, scrollback;
      sinks, filters, hasHandler, handled := [], [], false, [];
    }

    method AddSink(s: Sink)
      modifies this`sinks
      ensures sinks == old(sinks) + [s]
      ensures old(Valid()) && s !in old(sinks) ==> Valid()
    {
      hide KVStore.Store.Valid, ScrollbackBuffer.Valid;
      sinks := sinks + [s];
    }

    /** Refused once the configured maximum is reached. */
    method AddFilter(f: Filter) returns (ok: bool)
      modifies this`filters
      ensures ok <==> maxFilterStages <= 0 || |old(filters)| < maxFilterStages
      ensures filters == if ok then old(filters) + [f] else old(filters)
    {
      if maxFilterStages > 0 && |filters| >= maxFilterStages { return false; }
      filters := filters + [f];
      return true;
    }

    ghost function Received(): (r: seq<seq<string>>)
      reads this, sinks
      ensures |r| == |sinks| && forall i :: 0 <= i < |sinks| ==> r[i] == sinks[i].received
    {
      seq(|sinks|, i requires 0 <= i < |sinks| reads this, sinks => sinks[i].received)
    }

    ghost function State(): (st: State)
      requires Valid()
      reads this, kv, scrollback, scrollback.buf, sinks
      ensures |st.contents| <= scrollback.cap
    {
      Holding(kv.data, kv.totalBytes, scrollback.Contents(), Received(), handled)
    }

    /** The state after an effect. */
    ghost function After(st: State, e: Effect): State
      reads this
    {
      Took(st, e, scrollback.cap, hasHandler)
    }

    method ApplyFilters(line: string) returns (r: Option<string>)
      ensures r == Filtered(filters, line)
    {
      var text := line;
      for i := 0 to |filters|
        invariant Filtered(filters, line) == Filtered(filters[i..], text)
      {
        assert filters[i..][0] == filters[i] && filters[i..][1..] == filters[i + 1..];
        r := filters[i](text);
        if r.None? { return; }
        text := r.value;
      }
      return Some(text);
    }

    method HandToSinks(text: string)
      requires forall i, j :: 0 <= i < j < |sinks| ==> sinks[i] != sinks[j]
      modifies sinks
      ensures forall j :: 0 <= j < |sinks| ==> sinks[j].received == old(sinks[j].received) + [text]
    {
      for i := 0 to |sinks|
        invariant forall j :: 0 <= j < |sinks| ==>
                    sinks[j].received == old(sinks[j].received) + (if j < i then [text] else [])
      {
        sinks[i].received := sinks[i].received + [text];
      }
    }

    /** Append to the scrollback and hand to every sink. */
    method Deliver(text: string)
      requires Valid()
      modifies scrollback`head, scrollback`size, scrollback.buf, sinks
      ensures Valid() && scrollback.buf == old(scrollback.buf)
      ensures State() == After(old(State()), Effect(kv.data, kv.totalBytes, [text], [], None))
    {
      hide KVStore.Store.Valid, ScrollbackBuffer.Valid, ScrollbackBuffer.Contents, LastN, Took, Extended, Received;
      ghost var st, received := State(), Received();
      assert forall j :: 0 <= j < |sinks| ==> received[j] == sinks[j].received;
      scrollback.Append(text);
      HandToSinks(text);
      ExtendedIs(received, [text], Received());
      TookOne(st, text, scrollback.cap, hasHandler);
    }

    method DispatchContent(line: string)
      requires Valid()
      modifies scrollback`head, scrollback`size, scrollback.buf, sinks
      ensures Valid() && scrollback.buf == old(scrollback.buf)
      ensures State() == After(old(State()), Effect(kv.data, kv.totalBytes, Content(filters, line), [], None))
    {
      hide KVStore.Store.Valid, ScrollbackBuffer.Valid, ScrollbackBuffer.Contents, Took, MaybeDecode, Filtered;
      var text := MaybeDecode(line);
      var r := ApplyFilters(text);
      if r.None? {
        NothingShown(State(), kv.data, kv.totalBytes, None, scrollback.cap, hasHandler);
      } else {
        Deliver(r.value);
      }
    }

    method ApplyKVSequence(payload: string) returns (err: Option<Error>)
      requires Valid()
      modifies kv
      ensures Valid() && (kv.data, kv.totalBytes, err) == ApplyPayload(old(kv.data), old(kv.totalBytes), payload)
    {
      var r := Control.KVPairs(payload);
      if r.Err? { return Some(BadPayload(r.error)); }
      var pairs := r.value;
      var i := 0;
      while i < |pairs|
        invariant i <= |pairs| && kv.Valid()
        invariant ApplyPairs(old(kv.data), old(kv.totalBytes), pairs) == ApplyPairs(kv.data, kv.totalBytes, pairs[i..])
      {
        assert pairs[i..][0] == pairs[i] && pairs[i..][1..] == pairs[i + 1..];
        var k := KVStore.ParseKey(pairs[i].0);
        if k.Err? { return Some(BadKey(k.error)); }
        var refused := kv.Set(k.value, pairs[i].1);
        if refused.Some? { return Some(Refused(refused.value)); }
        i := i + 1;
      }
      return None;
    }

    method ProcessLine(raw: string) returns (err: Option<Error>)
      requires Valid()
      modifies this`handled, kv, scrollback`head, scrollback`size, scrollback.buf, sinks
      ensures Valid() && scrollback.buf == old(scrollback.buf)
      ensures var e := PipelineModel.ProcessLine(filters, old(kv.data), old(kv.totalBytes), raw);
              State() == After(old(State()), e) && err == e.err
    {
      hide KVStore.Store.Valid, ScrollbackBuffer.Valid, ScrollbackBuffer.Contents, Took, Content, ApplyPayload,
          Control.Parsed;
      var q := Control.Parse(raw);
      if q.Some? {
        if q.value.kind == Control.Verbatim {
          DispatchContent(q.value.payload);
          return None;
        }
        if q.value.kind == Control.Kind.Base64 {
          DispatchContent(BASE64_PREFIX + q.value.payload);
          return None;
        }
        if q.value.kind == Control.KV {
          err := ApplyKVSequence(q.value.payload);
          NothingShown(old(State()), kv.data, kv.totalBytes, err, scrollback.cap, hasHandler);
          return;
        }
        OnlyNotified(State(), q.value, scrollback.cap, hasHandler);
        if hasHandler { handled := handled + [q.value]; }
        return None;
      }
      DispatchContent(raw);
      return None;
    }

    /** Reads lines until the input ends, a line fails, or before line `cancelAt` the context is found cancelled. */
    method Run(lines: seq<string>, cancelAt: nat) returns (err: Option<Error>)
      requires Valid()
      modifies this`handled, kv, scrollback`head, scrollback`size, scrollback.buf, sinks
      ensures Valid() && scrollback.buf == old(scrollback.buf)
      ensures var n := if cancelAt < |lines| then cancelAt else |lines|;
              var e := PipelineModel.Run(filters, old(kv.data), old(kv.totalBytes), lines[..n]);
              && State() == After(old(State()), e)
              && (forall j :: 0 <= j < |sinks| ==> sinks[j].received == old(sinks[j].received) + e.shown)
              && handled == old(handled) + (if hasHandler then e.notified else [])
              && scrollback.Contents() == LastN(old(scrollback.Contents()) + e.shown, scrollback.cap)
              && err == if e.err.Some? then e.err else if cancelAt < |lines| then Some(Cancelled) else None
    {
      hide PipelineModel.ProcessLine, Took;
      ghost var e := PipelineModel.Run(filters, kv.data, kv.totalBytes, []);
      NothingShown(State(), kv.data, kv.totalBytes, None, scrollback.cap, hasHandler);
      var i := 0;
      while i < |lines|
        invariant i <= |lines| && i <= cancelAt && Valid() && scrollback.buf == old(scrollback.buf)
        invariant e == PipelineModel.Run(filters, old(kv.data), old(kv.totalBytes), lines[..i]) && e.err == None
        invariant State() == After(old(State()), e)
      {
        if i == cancelAt {
          TookIs(old(State()), e, scrollback.cap, hasHandler, State());
          return Some(Cancelled);
        }
        TookState(old(State()), e, scrollback.cap, hasHandler);
        ghost var f := PipelineModel.ProcessLine(filters, e.data, e.total, lines[i]);
        TookTwice(old(State()), e, f, scrollback.cap, hasHandler);
        assert lines[..i + 1][..i] == lines[..i];
        err := ProcessLine(lines[i]);
        e := Then(e, f);
        i := i + 1;
        if err.Some? {
          RunStops(filters, old(kv.data), old(kv.totalBytes), lines, i, cancelAt);
          TookIs(old(State()), e, scrollback.cap, hasHandler, State());
          return;
        }
      }
      assert lines[..|lines|] == lines;
      TookIs(old(State()), e, scrollback.cap, hasHandler, State());
      return None;
    }
  }

  /** What a pipeline holds: the store, the scrollback, what each sink received and what the handler was given. */
  datatype State = Holding(data: map<KVStore.Key, string>, total: int, contents: seq<string>,
                         received: seq<seq<string>>, handled: seq<Control.Sequence>)

  function Extended(rs: seq<seq<string>>, shown: seq<string>): (r: seq<seq<string>>)
    ensures |r| == |rs| && forall i :: 0 <= i < |rs| ==> r[i] == rs[i] + shown
  {
    seq(|rs|, i requires 0 <= i < |rs| => rs[i] + shown)
  }

  /** The scrollback keeps the last `cap` lines, every sink gets every line, the handler every sequence. */
  function Took(st: State, e: Effect, cap: nat, hasHandler: bool): State {
    Holding(e.data, e.total, LastN(st.contents + e.shown, cap), Extended(st.received, e.shown),
          st.handled + (if hasHandler then e.notified else []))
  }

  lemma ExtendedIs(rs: seq<seq<string>>, shown: seq<string>, rs': seq<seq<string>>)
    requires |rs'| == |rs| && forall i :: 0 <= i < |rs| ==> rs'[i] == rs[i] + shown
    ensures rs' == Extended(rs, shown)
  {}

  lemma TookOne(st: State, text: string, cap: nat, hasHandler: bool)
    ensures Took(st, Effect(st.data, st.total, [text], [], None), cap, hasHandler) ==
            st.(contents := LastN(st.contents + [text], cap), received := Extended(st.received, [text]))
  {
    hide LastN, Extended;
    assert st.handled + [] == st.handled;
  }

  lemma ExtendedByNothing(rs: seq<seq<string>>)
    ensures Extended(rs, []) == rs
  {
    assert forall i :: 0 <= i < |rs| ==> rs[i] + [] == rs[i];
  }

  lemma NothingShown(st: State, data: map<KVStore.Key, string>, total: int, err: Option<Error>, cap: nat,
                     hasHandler: bool)
    requires |st.contents| <= cap
    ensures Took(st, Effect(data, total, [], [], err), cap, hasHandler) == st.(data := data, total := total)
  {
    assert st.contents + [] == st.contents && st.handled + [] == st.handled;
    ExtendedByNothing(st.received);
  }

  lemma OnlyNotified(st: State, q: Control.Sequence, cap: nat, hasHandler: bool)
    requires |st.contents| <= cap
    ensures Took(st, Effect(st.data, st.total, [], [q], None), cap, hasHandler) ==
            if hasHandler then st.(handled := st.handled + [q]) else st
  {
    assert st.contents + [] == st.contents && st.handled + [] == st.handled;
    ExtendedByNothing(st.received);
  }

  lemma TookState(st: State, e: Effect, cap: nat, hasHandler: bool)
    ensures Took(st, e, cap, hasHandler).data == e.data && Took(st, e, cap, hasHandler).total == e.total
  {}

  lemma TookIs(st: State, e: Effect, cap: nat, hasHandler: bool, after: State)
    requires after == Took(st, e, cap, hasHandler)
    ensures after.handled == st.handled + (if hasHandler then e.notified else [])
    ensures after.contents == LastN(st.contents + e.shown, cap)
    ensures |after.received| == |st.received|
    ensures forall j :: 0 <= j < |st.received| ==> after.received[j] == st.received[j] + e.shown
  {}

  lemma ExtendedTwice(rs: seq<seq<string>>, a: seq<string>, b: seq<string>)
    ensures Extended(Extended(rs, a), b) == Extended(rs, a + b)
  {
    forall i | 0 <= i < |rs| ensures Extended(Extended(rs, a), b)[i] == Extended(rs, a + b)[i] {
      assert rs[i] + a + b == rs[i] + (a + b);
    }
  }

  lemma TookTwice(st: State, e: Effect, f: Effect, cap: nat, hasHandler: bool)
    ensures Took(Took(st, e, cap, hasHandler), f, cap, hasHandler) == Took(st, Then(e, f), cap, hasHandler)
  {
    hide LastN, Extended;
    LastNAppend(st.contents + e.shown, f.shown, cap);
    assert st.contents + e.shown + f.shown == st.contents + (e.shown + f.shown);
    ExtendedTwice(st.received, e.shown, f.shown);
    if hasHandler {
      assert st.handled + e.notified + f.notified == st.handled + (e.notified + f.notified);
    } else {
      assert st.handled + [] + [] == st.handled + [];
    }
  }

  /** Once a line has failed the remaining ones do not matter. */
  lemma {:induction false} RunStops(filters: seq<Filter>, data: map<KVStore.Key, string>, total: int,
                                    lines: seq<string>, i: nat, n: nat)
    requires i <= |lines| && i <= n
    ensures PipelineModel.Run(filters, data, total, lines[..i]).err.Some? ==>
              PipelineModel.Run(filters, data, total, lines[..if n < |lines| then n else |lines|]) ==
              PipelineModel.Run(filters, data, total, lines[..i])
    decreases (if n < |lines| then n else |lines|) - i
  {
    hide PipelineModel.ProcessLine, PipelineModel.Then;
    var m := if n < |lines| then n else |lines|;
    if i < m && PipelineModel.Run(filters, data, total, lines[..i]).err.Some? {
      assert lines[..i + 1][..i] == lines[..i];
      assert PipelineModel.Run(filters, data, total, lines[..i + 1]) ==
             PipelineModel.Run(filters, data, total, lines[..i]);
      hide PipelineModel.Run;
      RunStops(filters, data, total, lines, i + 1, n);
    }
  }
}
