/** The relay in front of the pipeline it sends to: a send fails because the pipeline rejects the line. */
module Delivery {
  import opened Wrappers
  import Control
  import KVStore
  import Pipes = PipelineModel
  import Relay
  import Text

  /** What the pane's pipeline has stored and shown, and its verdict on every line that was sent so far. */
  datatype Server = Server(data: map<KVStore.Key, string>, total: int, shown: seq<string>,
                           notified: seq<Control.Sequence>, verdicts: seq<bool>)

  datatype World = World(client: Relay.State<string>, server: Server)

  type Filters = seq<Pipes.Filter>

  predicate Accepts(fs: Filters, sv: Server, line: string) {
    Pipes.ProcessLine(fs, sv.data, sv.total, line).err.None?
  }

  /** One line sent: a rejected one may still have written some of its pairs. */
  function Attempt(fs: Filters, sv: Server, line: string): Server {
    var e := Pipes.ProcessLine(fs, sv.data, sv.total, line);
    Server(e.data, e.total, sv.shown + e.shown, sv.notified + e.notified, sv.verdicts + [e.err.None?])
  }

  /** The queue sent up to the first rejected line, and how many lines got through. */
  function FlushQueue(fs: Filters, sv: Server, queue: seq<string>): (r: (Server, nat))
    ensures r.1 <= |queue|
    decreases |queue|
  {
    if queue == [] then (sv, 0)
    else if !Accepts(fs, sv, queue[0]) then (Attempt(fs, sv, queue[0]), 0)
    else
      var (sv', i) := FlushQueue(fs, Attempt(fs, sv, queue[0]), queue[1..]);
      (sv', i + 1)
  }

  function Step(fs: Filters, limit: int, w: World, line: string): World {
    var (sv, i) := FlushQueue(fs, w.server, w.client.queue);
    World(Relay.Settle(Accepts(fs, sv, line), limit, Relay.FlushTo(w.client, i), line), Attempt(fs, sv, line))
  }

  function Run(fs: Filters, limit: int, w: World, lines: seq<string>): World {
    if lines == [] then w else Step(fs, limit, Run(fs, limit, w, lines[..|lines| - 1]), lines[|lines| - 1])
  }

  function Begin(data: map<KVStore.Key, string>, total: int): World {
    World(Relay.Start(), Server(data, total, [], [], []))
  }

  // ------------------------------------------------------------------ the pipeline as one of the relay's servers

  /** The sends of the relay's model answer as the pipeline did. */
  ghost predicate Follows(ok: Relay.Sends, verdicts: seq<bool>) {
    forall n :: 0 <= n < |verdicts| ==> ok(n) == verdicts[n]
  }

  lemma FollowsPrefix(ok: Relay.Sends, a: seq<bool>, b: seq<bool>)
    requires a <= b && Follows(ok, b)
    ensures Follows(ok, a)
  {}

  lemma {:induction false} FlushGrows(fs: Filters, sv: Server, queue: seq<string>)
    ensures var (sv', i) := FlushQueue(fs, sv, queue);
            sv.verdicts <= sv'.verdicts && |sv'.verdicts| == |sv.verdicts| + (if i < |queue| then i + 1 else i)
    decreases |queue|
  {
    hide Accepts;
    if queue != [] && Accepts(fs, sv, queue[0]) { FlushGrows(fs, Attempt(fs, sv, queue[0]), queue[1..]); }
  }

  lemma {:induction false} FlushFollows(fs: Filters, sv: Server, queue: seq<string>, ok: Relay.Sends)
    ensures Follows(ok, FlushQueue(fs, sv, queue).0.verdicts) ==>
              FlushQueue(fs, sv, queue).1 == Relay.Successes(ok, |sv.verdicts|, |queue|)
    decreases |queue|
  {
    if queue != [] && Follows(ok, FlushQueue(fs, sv, queue).0.verdicts) {
      var next := Attempt(fs, sv, queue[0]);
      var end := FlushQueue(fs, sv, queue).0;
      VerdictIs(fs, sv, queue[0]);
      if Accepts(fs, sv, queue[0]) {
        FlushGrows(fs, next, queue[1..]);
        assert end.verdicts[|sv.verdicts|] == next.verdicts[|sv.verdicts|];
        FlushFollows(fs, next, queue[1..], ok);
      }
    }
  }

  lemma VerdictIs(fs: Filters, sv: Server, line: string)
    ensures Attempt(fs, sv, line).verdicts == sv.verdicts + [Accepts(fs, sv, line)]
  {}

  lemma {:induction false} StepFollows(fs: Filters, limit: int, w: World, line: string, ok: Relay.Sends)
    requires |w.server.verdicts| == w.client.attempts
    ensures var w' := Step(fs, limit, w, line);
            && |w'.server.verdicts| == w'.client.attempts
            && w.server.verdicts <= w'.server.verdicts
            && (Follows(ok, w'.server.verdicts) ==> w'.client == Relay.Step(ok, limit, w.client, line))
  {
    hide Accepts, Relay.Settle, FlushQueue;
    var (sv, i) := FlushQueue(fs, w.server, w.client.queue);
    FlushGrows(fs, w.server, w.client.queue);
    VerdictIs(fs, sv, line);
    SettleCounts(Accepts(fs, sv, line), limit, Relay.FlushTo(w.client, i), line);
    if Follows(ok, Step(fs, limit, w, line).server.verdicts) {
      FollowsPrefix(ok, sv.verdicts, Attempt(fs, sv, line).verdicts);
      FlushFollows(fs, w.server, w.client.queue, ok);
      assert Attempt(fs, sv, line).verdicts[|sv.verdicts|] == Accepts(fs, sv, line);
    }
  }

  lemma SettleCounts(sent: bool, limit: int, st: Relay.State<string>, line: string)
    ensures Relay.Settle(sent, limit, st, line).attempts == st.attempts + 1
  {}

  /** Whatever the pipeline accepts or rejects, the relay behaves as its model does for the same verdicts: all that is
      proved of it for any failure pattern holds. */
  lemma {:induction false} DeliveryIsRelay(fs: Filters, limit: int, data: map<KVStore.Key, string>, total: int,
                                           lines: seq<string>, ok: Relay.Sends)
    ensures var w := Run(fs, limit, Begin(data, total), lines);
            && |w.server.verdicts| == w.client.attempts
            && (Follows(ok, w.server.verdicts) ==> w.client == Relay.Run(ok, limit, lines))
    decreases |lines|
  {
    hide Step, Relay.Step, Follows;
    if lines != [] {
      var init, line := lines[..|lines| - 1], lines[|lines| - 1];
      var mid := Run(fs, limit, Begin(data, total), init);
      DeliveryIsRelay(fs, limit, data, total, init, ok);
      StepFollows(fs, limit, mid, line, ok);
      if Follows(ok, Step(fs, limit, mid, line).server.verdicts) {
        FollowsPrefix(ok, mid.server.verdicts, Step(fs, limit, mid, line).server.verdicts);
      }
    }
  }

  // ------------------------------------------------------------------ lines the pipeline accepts

  /** Every line so far arrived, in order, and nothing is left behind. */
  ghost predicate AllArrived(w: World, lines: seq<string>) {
    w.client.acked == lines && w.client.queue == [] && w.client.dropped == []
  }

  ghost predicate SameStore(sv: Server, e: Pipes.Effect) {
    sv.data == e.data && sv.total == e.total && sv.shown == e.shown && sv.notified == e.notified
  }

  lemma StepFromClean(fs: Filters, limit: int, w: World, line: string)
    requires w.client.queue == []
    ensures var w' := Step(fs, limit, w, line);
            && w'.server == Attempt(fs, w.server, line)
            && (Accepts(fs, w.server, line) ==> w'.client.acked == w.client.acked + [line] && w'.client.queue == [])
            && (!Accepts(fs, w.server, line) ==> w'.client.acked == w.client.acked)
            && (!Accepts(fs, w.server, line) ==> w'.client.queue == if limit > 0 then [line] else [])
            && (Accepts(fs, w.server, line) || limit > 0 ==> w'.client.dropped == w.client.dropped)
  {
    hide Accepts;
    assert w.client.acked + w.client.queue[..0] == w.client.acked;
  }

  /** As long as the pipeline accepts every line, the relay delivers them as if they were fed to it directly. */
  lemma {:induction false} AcceptedArrive(fs: Filters, limit: int, data: map<KVStore.Key, string>, total: int,
                                          lines: seq<string>)
    ensures var w, e := Run(fs, limit, Begin(data, total), lines), Pipes.Run(fs, data, total, lines);
            e.err.None? ==> AllArrived(w, lines) && SameStore(w.server, e)
    decreases |lines|
  {
    hide Pipes.ProcessLine, Step;
    if lines != [] && Pipes.Run(fs, data, total, lines).err.None? {
      var init, line := lines[..|lines| - 1], lines[|lines| - 1];
      AcceptedArrive(fs, limit, data, total, init);
      StepFromClean(fs, limit, Run(fs, limit, Begin(data, total), init), line);
      assert lines == init + [line];
    }
  }

  lemma {:induction false} FailsSomewhere(fs: Filters, data: map<KVStore.Key, string>, total: int, lines: seq<string>)
      returns (k: nat)
    ensures Pipes.Run(fs, data, total, lines).err.Some? ==>
              && k < |lines|
              && Pipes.Run(fs, data, total, lines[..k]).err.None?
              && Pipes.Run(fs, data, total, lines[..k + 1]).err.Some?
    decreases |lines|
  {
    hide Pipes.ProcessLine;
    k := 0;
    if lines == [] || Pipes.Run(fs, data, total, lines).err.None? {
      return;
    }
    var init := lines[..|lines| - 1];
    if Pipes.Run(fs, data, total, init).err.Some? {
      k := FailsSomewhere(fs, data, total, init);
      assert init[..k] == lines[..k] && init[..k + 1] == lines[..k + 1];
    } else {
      k := |lines| - 1;
      assert lines[..k + 1] == lines;
    }
  }

  /** The line on which a run of the pipeline stops is not delivered. */
  lemma RejectedIsNotAcked(fs: Filters, limit: int, data: map<KVStore.Key, string>, total: int, lines: seq<string>)
    requires lines != []
    ensures var w := Run(fs, limit, Begin(data, total), lines);
            Pipes.Run(fs, data, total, lines).err.Some? &&
                Pipes.Run(fs, data, total, lines[..|lines| - 1]).err.None? ==>
              && w.client.acked == lines[..|lines| - 1]
              && w.client.queue == if limit > 0 then [lines[|lines| - 1]] else []
  {
    hide Pipes.ProcessLine, Step;
    var init, line := lines[..|lines| - 1], lines[|lines| - 1];
    AcceptedArrive(fs, limit, data, total, init);
    if Pipes.Run(fs, data, total, init).err.None? {
      StepFromClean(fs, limit, Run(fs, limit, Begin(data, total), init), line);
    }
  }

  /** Every prefix has arrived in full at its end exactly when the pipeline, fed the lines directly, rejects none. */
  lemma ArriveIff(fs: Filters, limit: int, data: map<KVStore.Key, string>, total: int, lines: seq<string>)
    ensures (forall k :: 0 <= k <= |lines| ==>
              AllArrived(Run(fs, limit, Begin(data, total), lines[..k]), lines[..k])) <==>
            Pipes.Run(fs, data, total, lines).err.None?
  {
    hide Run, Pipes.Run;
    if Pipes.Run(fs, data, total, lines).err.None? {
      forall k | 0 <= k <= |lines| ensures AllArrived(Run(fs, limit, Begin(data, total), lines[..k]), lines[..k]) {
        Pipes.SuccessfulRun(fs, data, total, lines);
        AcceptedArrive(fs, limit, data, total, lines[..k]);
      }
    } else {
      var k := FailsSomewhere(fs, data, total, lines);
      var upTo := lines[..k + 1];
      assert upTo[..|upTo| - 1] == lines[..k];
      RejectedIsNotAcked(fs, limit, data, total, upTo);
      assert !AllArrived(Run(fs, limit, Begin(data, total), upTo), upTo);
    }
  }

  // ------------------------------------------------------------------ lines the pipeline never accepts

  /** The store's count is right and its limits hold, as after any run of writes. */
  ghost predicate Consistent(data: map<KVStore.Key, string>, total: int) {
    total == KVStore.Bytes(data) && KVStore.WithinLimits(data)
  }

  /** Rejected whatever is stored. */
  ghost predicate Hopeless(line: string) {
    forall fs: Filters, sv: Server :: Consistent(sv.data, sv.total) ==> !Accepts(fs, sv, line)
  }

  /** The payload does not parse, or some key or value is not allowed. */
  predicate Malformed(line: string) {
    && Pipes.Route(line).Store?
    && var ps := Control.PairsOf(Pipes.Route(line).payload);
       ps.Ok? ==>
         exists i ::
           0 <= i < |ps.value| && (KVStore.ParseKey(ps.value[i].0).Err? || |ps.value[i].1| > KVStore.VALUE_MAX_BYTES)
  }

  lemma {:induction false} BadPairRejects(data: map<KVStore.Key, string>, total: int, ps: seq<Control.Pair>, i: nat)
    requires i < |ps| && (KVStore.ParseKey(ps[i].0).Err? || |ps[i].1| > KVStore.VALUE_MAX_BYTES)
    ensures Pipes.ApplyPairs(data, total, ps).2.Some?
    decreases |ps|
  {
    hide KVStore.ParseKey;
    if i > 0 && KVStore.ParseKey(ps[0].0).Ok? &&
        KVStore.SetResult(data, total, KVStore.ParseKey(ps[0].0).value, ps[0].1).Ok? {
      var (data', total') := KVStore.After(data, total, KVStore.Set(KVStore.ParseKey(ps[0].0).value, ps[0].1));
      BadPairRejects(data', total', ps[1..], i - 1);
    }
  }

  lemma MalformedRejects(fs: Filters, sv: Server, line: string)
    ensures Malformed(line) ==> !Accepts(fs, sv, line)
  {
    hide Pipes.Route, Control.PairsOf, KVStore.ParseKey, Pipes.ApplyPairs;
    if Malformed(line) {
      var ps := Control.PairsOf(Pipes.Route(line).payload);
      if ps.Ok? {
        var i :| 0 <= i < |ps.value|
              && (KVStore.ParseKey(ps.value[i].0).Err? || |ps.value[i].1| > KVStore.VALUE_MAX_BYTES);
        BadPairRejects(sv.data, sv.total, ps.value, i);
      }
    }
  }

  /** Some of the line's pairs, written one after the other to nothing, are more than the store holds. */
  ghost predicate Oversized(line: string) {
    && Pipes.Route(line).Store?
    && var ps := Control.PairsOf(Pipes.Route(line).payload);
       ps.Ok? && exists j :: 0 <= j <= |ps.value| && TooMany(ps.value, j)
  }

  ghost predicate TooMany(ps: seq<Control.Pair>, j: nat)
    requires j <= |ps|
  {
    KVStore.Bytes(Pipes.LastValues(ps[..j])) > KVStore.STORE_MAX_BYTES
  }

  /** Pairs that only grow a map can not make it smaller. */
  lemma {:induction false} BytesOfPart(part: map<KVStore.Key, string>, all: map<KVStore.Key, string>)
    requires forall k :: k in part ==> k in all && all[k] == part[k]
    ensures KVStore.Bytes(part) <= KVStore.Bytes(all)
  {
    if part != map[] {
      var k :| k in part;
      KVStore.BytesWithout(part, k);
      KVStore.BytesWithout(all, k);
      BytesOfPart(part - {k}, all - {k});
    }
  }

  lemma {:induction false} AcceptedPrefix(data: map<KVStore.Key, string>, total: int, calls: seq<KVStore.Call>, j: nat)
    requires j <= |calls| && Pipes.AllAccepted(data, total, calls)
    ensures Pipes.AllAccepted(data, total, calls[..j])
    decreases |calls|
  {
    hide Pipes.Accepted, KVStore.After;
    if j > 0 {
      var (data', total') := KVStore.After(data, total, calls[0]);
      AcceptedPrefix(data', total', calls[1..], j - 1);
      assert calls[..j][0] == calls[0] && calls[..j][1..] == calls[1..][..j - 1];
    }
  }

  /** What does not fit an empty store fits no other. */
  lemma OversizedRejects(data: map<KVStore.Key, string>, total: int, ps: seq<Control.Pair>, j: nat)
    requires Consistent(data, total) && j <= |ps| && TooMany(ps, j)
    ensures Pipes.ApplyPairs(data, total, ps).2.Some?
  {
    hide Pipes.ApplyPairs, KVStore.RunFrom, Pipes.AllAccepted, KVStore.Bytes;
    var calls := Pipes.SetsOf(ps);
    var n := Pipes.PairsApplied(data, total, ps);
    if Pipes.ApplyPairs(data, total, ps).2.None? {
      assert calls[..n] == calls;
      AcceptedPrefix(data, total, calls, j);
      assert calls[..j] == Pipes.SetsOf(ps[..j]);
      Pipes.AcceptedWrites(data, total, ps[..j]);
      KVStore.AccountingHolds(data, total, calls[..j]);
      BytesOfPart(Pipes.LastValues(ps[..j]), data + Pipes.LastValues(ps[..j]));
    }
  }

  /** Good pairs are accepted as long as what they add up to fits. */
  lemma {:induction false} GoodPairsAccepted(data: map<KVStore.Key, string>, total: int, ps: seq<Control.Pair>)
    requires total == KVStore.Bytes(data)
    requires forall i :: 0 <= i < |ps| ==> KVStore.ParseKey(ps[i].0).Ok? && |ps[i].1| <= KVStore.VALUE_MAX_BYTES
    requires forall j :: 0 <= j <= |ps| ==> KVStore.Bytes(data + Pipes.LastValues(ps[..j])) <= KVStore.STORE_MAX_BYTES
    ensures Pipes.ApplyPairs(data, total, ps).2.None?
    decreases |ps|
  {
    hide KVStore.ParseKey, KVStore.Bytes;
    if ps != [] {
      var (k, v) := ps[0];
      assert KVStore.ParseKey(k).Ok?;
      ParsedKey(k);
      KVStore.BytesOfUpdate(data, k, v);
      OneMorePair(data, ps, 1);
      assert ps[1..][..0] == [];
      assert data[k := v] + Pipes.LastValues([]) == data[k := v];
      var (data', total') := KVStore.After(data, total, KVStore.Set(k, v));
      forall j | 0 <= j <= |ps[1..]|
        ensures KVStore.Bytes(data' + Pipes.LastValues(ps[1..][..j])) <= KVStore.STORE_MAX_BYTES
      {
        OneMorePair(data, ps, j + 1);
      }
      GoodPairsAccepted(data', total', ps[1..]);
    }
  }

  lemma ParsedKey(k: string)
    requires KVStore.ParseKey(k).Ok?
    ensures KVStore.ParseKey(k).value == k
  {}

  lemma OneMorePair(data: map<KVStore.Key, string>, ps: seq<Control.Pair>, j: nat)
    requires 0 < j <= |ps|
    ensures data + Pipes.LastValues(ps[..j]) == data[ps[0].0 := ps[0].1] + Pipes.LastValues(ps[1..][..j - 1])
  {
    assert ps[..j][0] == ps[0] && ps[..j][1..] == ps[1..][..j - 1];
  }

  /** A line that is neither malformed nor oversized is accepted by an empty store. */
  lemma OthersAreAccepted(line: string)
    requires !Malformed(line) && !Oversized(line)
    ensures Accepts([], Server(map[], 0, [], [], []), line)
  {
    hide Pipes.Route, Control.PairsOf, KVStore.ParseKey, Pipes.ApplyPairs, Pipes.LastValues;
    if Pipes.Route(line).Store? {
      var ps := Control.PairsOf(Pipes.Route(line).payload).value;
      forall j | 0 <= j <= |ps| ensures KVStore.Bytes(map[] + Pipes.LastValues(ps[..j])) <= KVStore.STORE_MAX_BYTES {
        assert map[] + Pipes.LastValues(ps[..j]) == Pipes.LastValues(ps[..j]);
        assert !TooMany(ps, j);
      }
      GoodPairsAccepted(map[], 0, ps);
    }
  }

  /** The lines no store ever accepts are those that are malformed and those that do not fit an empty one. */
  lemma HopelessIff(line: string)
    ensures Hopeless(line) <==> Malformed(line) || Oversized(line)
  {
    hide Malformed, Accepts, Pipes.ApplyPairs, Pipes.Route, Control.PairsOf;
    if Malformed(line) || Oversized(line) {
      forall fs: Filters, sv: Server | Consistent(sv.data, sv.total) ensures !Accepts(fs, sv, line) {
        MalformedRejects(fs, sv, line);
        OversizedLineRejects(fs, sv, line);
      }
    } else {
      OthersAreAccepted(line);
      EmptyIsConsistent();
      var sv := Server(map[], 0, [], [], []);
      assert Consistent(sv.data, sv.total);
    }
  }

  lemma EmptyIsConsistent()
    ensures Consistent(map[], 0)
  {}

  lemma OversizedLineRejects(fs: Filters, sv: Server, line: string)
    requires Consistent(sv.data, sv.total)
    ensures Oversized(line) ==> !Accepts(fs, sv, line)
  {
    hide Pipes.Route, Control.PairsOf, TooMany, Consistent, Pipes.ApplyPairs;
    if !Oversized(line) {
      return;
    }
    var ps := Control.PairsOf(Pipes.Route(line).payload).value;
    var j :| 0 <= j <= |ps| && TooMany(ps, j);
    OversizedRejects(sv.data, sv.total, ps, j);
  }

  // ------------------------------------------------------------------ the store stays consistent

  lemma AttemptKeepsConsistent(fs: Filters, sv: Server, line: string)
    requires Consistent(sv.data, sv.total)
    ensures var sv' := Attempt(fs, sv, line); Consistent(sv'.data, sv'.total)
  {
    hide Pipes.Route, Control.PairsOf, Pipes.ApplyPairs, Pipes.Content;
    match Pipes.Route(line)
    case Store(payload) =>
      var ps := Control.PairsOf(payload);
      if ps.Ok? {
        var j := Pipes.PairsApplied(sv.data, sv.total, ps.value);
        Pipes.AppliedMeans(sv.data, sv.total, ps.value, j);
        KVStore.AccountingHolds(sv.data, sv.total, Pipes.SetsOf(ps.value)[..j]);
      }
    case _ =>
  }

  lemma {:induction false} FlushKeepsConsistent(fs: Filters, sv: Server, queue: seq<string>)
    requires Consistent(sv.data, sv.total)
    ensures var sv' := FlushQueue(fs, sv, queue).0; Consistent(sv'.data, sv'.total)
    decreases |queue|
  {
    hide Consistent, Attempt, Accepts;
    if queue != [] {
      AttemptKeepsConsistent(fs, sv, queue[0]);
      FlushKeepsConsistent(fs, Attempt(fs, sv, queue[0]), queue[1..]);
    }
  }

  lemma {:induction false} RunKeepsConsistent(fs: Filters, limit: int, w: World, lines: seq<string>)
    requires Consistent(w.server.data, w.server.total)
    ensures var w' := Run(fs, limit, w, lines); Consistent(w'.server.data, w'.server.total)
    decreases |lines|
  {
    hide Consistent, Attempt, Accepts, FlushQueue, Relay.Settle, Relay.FlushTo;
    if lines != [] {
      var init, line := lines[..|lines| - 1], lines[|lines| - 1];
      var mid := Run(fs, limit, w, init);
      RunKeepsConsistent(fs, limit, w, init);
      FlushKeepsConsistent(fs, mid.server, mid.client.queue);
      AttemptKeepsConsistent(fs, FlushQueue(fs, mid.server, mid.client.queue).0, line);
    }
  }

  // ------------------------------------------------------------------ a hopeless line in the queue

  lemma StepFromStuck(fs: Filters, limit: int, w: World, line: string)
    requires w.client.queue != [] && Hopeless(w.client.queue[0]) && Consistent(w.server.data, w.server.total)
    ensures var w' := Step(fs, limit, w, line);
            var sv := Attempt(fs, w.server, w.client.queue[0]);
            && w'.server == Attempt(fs, sv, line)
            && w'.client.flushed == w.client.flushed
            && w'.client.acked == (if Accepts(fs, sv, line) then w.client.acked + [line] else w.client.acked)
            && w'.client.queue ==
               (if !Accepts(fs, sv, line) && |w.client.queue| < limit then w.client.queue + [line] else w.client.queue)
  {
    hide Accepts, Attempt, Consistent;
    assert !Accepts(fs, w.server, w.client.queue[0]);
    assert w.client.acked + w.client.queue[..0] == w.client.acked;
    assert w.client.flushed + w.client.queue[..0] == w.client.flushed;
  }

  /** `b` continues `a` with some of the lines, in order. */
  ghost predicate Continues(a: seq<string>, b: seq<string>, lines: seq<string>) {
    a <= b && Relay.Subsequence(b[|a|..], lines)
  }

  lemma ContinuesNothing(a: seq<string>, lines: seq<string>)
    ensures Continues(a, a, lines)
  {
    assert a[|a|..] == [];
  }

  lemma ContinuesStep(a: seq<string>, b: seq<string>, lines: seq<string>, x: string)
    requires Continues(a, b, lines)
    ensures Continues(a, b, lines + [x]) && Continues(a, b + [x], lines + [x])
  {
    hide Relay.Subsequence;
    Relay.SubsequenceSnoc(b[|a|..], lines, x);
    assert (b + [x])[|a|..] == b[|a|..] + [x];
  }

  /** A hopeless line at the head of the queue stays there: nothing queued is ever sent again, however many lines
      follow, and those the pipeline accepts all overtake it. */
  lemma {:induction false} HopelessHeadStaysForever(fs: Filters, limit: int, w: World, lines: seq<string>)
    requires w.client.queue != [] && Hopeless(w.client.queue[0]) && Consistent(w.server.data, w.server.total)
    ensures var w' := Run(fs, limit, w, lines);
            && w.client.queue <= w'.client.queue
            && w'.client.flushed == w.client.flushed
            && Continues(w.client.acked, w'.client.acked, lines)
    decreases |lines|
  {
    hide Step, Hopeless, Continues, Accepts, Attempt, Consistent;
    if lines == [] {
      ContinuesNothing(w.client.acked, lines);
    } else {
      var init, line := lines[..|lines| - 1], lines[|lines| - 1];
      var mid := Run(fs, limit, w, init);
      HopelessHeadStaysForever(fs, limit, w, init);
      RunKeepsConsistent(fs, limit, w, init);
      StepFromStuck(fs, limit, mid, line);
      ContinuesStep(w.client.acked, mid.client.acked, init, line);
      assert lines == init + [line];
    }
  }

  /** One hopeless line blocks the queue for good: behind lines that all arrived it is queued and never leaves. */
  lemma HopelessBlocksTheQueue(fs: Filters, limit: int, data: map<KVStore.Key, string>, total: int,
                                before: seq<string>, bad: string, after: seq<string>)
    requires limit > 0 && Consistent(data, total)
    ensures var w := Run(fs, limit, Begin(data, total), before + [bad] + after);
            Hopeless(bad) && Pipes.Run(fs, data, total, before).err.None? ==>
              && w.client.queue != [] && w.client.queue[0] == bad
              && Continues(before, w.client.acked, after)
  {
    if !Hopeless(bad) || Pipes.Run(fs, data, total, before).err.Some? {
      return;
    }
    hide Step, Continues, Hopeless, Consistent, Pipes.Run;
    var w0 := Begin(data, total);
    var w1 := Run(fs, limit, w0, before);
    AcceptedArrive(fs, limit, data, total, before);
    RunKeepsConsistent(fs, limit, w0, before);
    RunKeepsConsistent(fs, limit, w0, before + [bad]);
    HopelessMeans(fs, w1.server, bad);
    StepFromClean(fs, limit, w1, bad);
    assert (before + [bad])[..|before|] == before;
    var w2 := Run(fs, limit, w0, before + [bad]);
    assert w2 == Step(fs, limit, w1, bad);
    HopelessHeadStaysForever(fs, limit, w2, after);
    RunConcat(fs, limit, w0, before + [bad], after);
  }

  lemma HopelessMeans(fs: Filters, sv: Server, line: string)
    requires Hopeless(line) && Consistent(sv.data, sv.total)
    ensures !Accepts(fs, sv, line)
  {}

  lemma {:induction false} RunConcat(fs: Filters, limit: int, w: World, a: seq<string>, b: seq<string>)
    ensures Run(fs, limit, w, a + b) == Run(fs, limit, Run(fs, limit, w, a), b)
    decreases |b|
  {
    hide Step;
    if b == [] {
      assert a + b == a;
    } else {
      RunConcat(fs, limit, w, a, b[..|b| - 1]);
      assert (a + b)[..|a + b| - 1] == a + b[..|b| - 1];
    }
  }

  /** A key=value line of the pairs. */
  function KVLine(ps: seq<Control.Pair>): string {
    Control.Print(Control.Sequence(Control.KV, Control.PrintPairs(ps)))
  }

  lemma {:induction false} KVLineIsApplied(fs: Filters, data: map<KVStore.Key, string>, total: int,
                                           ps: seq<Control.Pair>)
    requires forall i :: 0 <= i < |ps| ==> Control.Printable(ps[i])
    ensures var (data', total', err) := Pipes.ApplyPairs(data, total, ps);
            Pipes.ProcessLine(fs, data, total, KVLine(ps)) == Pipes.Effect(data', total', [], [], err)
    ensures Pipes.Route(KVLine(ps)) == Pipes.Store(Control.PrintPairs(ps)) &&
            Control.PairsOf(Control.PrintPairs(ps)) == Ok(ps)
  {
    hide Pipes.ApplyPairs, Control.PrintPairs, Control.KindOf, Control.Tag;
    Control.ParsePrint(Control.Sequence(Control.KV, Control.PrintPairs(ps)));
    Control.KVRoundTrip(ps);
  }

  /** What a=1 and a rejected pair write: a, and nothing else. */
  lemma HalfGood(data: map<KVStore.Key, string>, total: int)
    requires (data == map[] && total == 0) || (data.Keys == {"a"} && total == |data["a"]| == 1)
    ensures Pipes.ApplyPairs(data, total, HALF_GOOD) == (map["a" := "1"], 1, Some(Pipes.BadKey(KVStore.BadCharacter)))
  {
    var ps := HALF_GOOD;
    assert KVStore.ParseKey("a") == Ok("a") && KVStore.ParseKey("?") == Err(KVStore.BadCharacter);
    assert ps[1..] == [("?", "2")];
    assert data["a" := "1"] == map["a" := "1"];
  }

  lemma FiveIsGood()
    ensures Pipes.ApplyPairs(map["a" := "1"], 1, FIVE) == (map["a" := "5"], 1, None)
  {
    var ps := FIVE;
    assert KVStore.ParseKey("a") == Ok("a");
    assert ps[1..] == [];
    assert (map["a" := "1"])["a" := "5"] == map["a" := "5"];
  }

  lemma LetterIsPrintable(k: char, v: char)
    requires '0' <= k <= 'z' && '0' <= v <= 'z' && k !in "=;" && v !in "=;"
    ensures Control.Printable(([k], [v]))
  {
    assert !Text.IsSpace([k]) && !Text.IsSpace([v]);
    assert [k][..1] == [k] && [v][0..] == [v];
  }

  lemma PlainX(fs: Filters, data: map<KVStore.Key, string>, total: int)
    ensures var e := Pipes.ProcessLine(fs, data, total, "x"); e.data == data && e.total == total && e.err.None?
  {
    forall k ensures !(Control.Tag(k) <= "x") { assert |Control.Tag(k)| > 1; }
    Pipes.PlainIsLiteral("x");
  }

  const HALF_GOOD: seq<Control.Pair> := [("a", "1"), ("?", "2")]
  const FIVE: seq<Control.Pair> := [("a", "5")]

  /** What the two lines of the run below do. */
  lemma {:induction false} RetryLines(fs: Filters)
    ensures Malformed(KVLine(HALF_GOOD))
    ensures forall data: map<KVStore.Key, string>, total: int ::
              (data == map[] && total == 0) || (data.Keys == {"a"} && total == |data["a"]| == 1) ==>
                var e := Pipes.ProcessLine(fs, data, total, KVLine(HALF_GOOD));
                e.data == map["a" := "1"] && e.total == 1 && e.err.Some?
    ensures var e := Pipes.ProcessLine(fs, map["a" := "1"], 1, KVLine(FIVE));
            e.data == map["a" := "5"] && e.total == 1 && e.err.None?
  {
    hide Pipes.ApplyPairs, Pipes.ProcessLine, Pipes.Route, Control.PairsOf, Control.PrintPairs, KVLine,
        Control.Printable;
    LetterIsPrintable('a', '1');
    LetterIsPrintable('?', '2');
    LetterIsPrintable('a', '5');
    KVLineIsApplied(fs, map[], 0, HALF_GOOD);
    assert KVStore.ParseKey(HALF_GOOD[1].0).Err?;
    forall data: map<KVStore.Key, string>, total: int |
      (data == map[] && total == 0) || (data.Keys == {"a"} && total == |data["a"]| == 1)
      ensures var e := Pipes.ProcessLine(fs, data, total, KVLine(HALF_GOOD));
              e.data == map["a" := "1"] && e.total == 1 && e.err.Some?
    {
      KVLineIsApplied(fs, data, total, HALF_GOOD);
      HalfGood(data, total);
    }
    KVLineIsApplied(fs, map["a" := "1"], 1, FIVE);
    FiveIsGood();
  }

  /** A retry writes its good pairs again: a, set to 5 by an accepted line, is 1 again after the next line. */
  lemma {:induction false} RetryRevertsAValue(fs: Filters)
    ensures var bad, good := KVLine(HALF_GOOD), KVLine(FIVE);
            var w2, w3 := Run(fs, 1000, Begin(map[], 0), [bad, good]), Run(fs, 1000, Begin(map[], 0), [bad, good, "x"]);
            && w2.client.acked == [good] && w2.server.data == map["a" := "5"]
            && w3.client.acked == [good, "x"] && w3.server.data == map["a" := "1"]
  {
    hide KVLine, Step, Hopeless, Malformed, Oversized, Consistent, Pipes.ProcessLine;
    var bad, good := KVLine(HALF_GOOD), KVLine(FIVE);
    var w0 := Begin(map[], 0);
    var w1 := Step(fs, 1000, w0, bad);
    var w2 := Step(fs, 1000, w1, good);
    RetryLines(fs);
    HopelessIff(bad);
    EmptyIsConsistent();
    RunKeepsConsistent(fs, 1000, w0, [bad]);
    RunKeepsConsistent(fs, 1000, w0, [bad, good]);
    StepFromClean(fs, 1000, w0, bad);
    assert [bad][..0] == [] && [bad, good][..1] == [bad] && [bad, good, "x"][..2] == [bad, good];
    assert Run(fs, 1000, w0, [bad]) == w1;
    assert Run(fs, 1000, w0, [bad, good]) == w2;
    StepFromStuck(fs, 1000, w1, good);
    PlainX(fs, map["a" := "1"], 1);
    StepFromStuck(fs, 1000, w2, "x");
  }
}
