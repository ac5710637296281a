/** The client's store-and-forward loop against a server that may fail any send. */
module Relay {
  import opened Wrappers
  import opened Framing

  const DEFAULT_QUEUE_LEN := 1000

  /** An option of zero asks for the default. */
  function Limit(optionLen: int): int {
    if optionLen == 0 then DEFAULT_QUEUE_LEN else optionLen
  }

  /** The outcome of the n-th attempt to send. */
  type Sends = nat -> bool

  /** `queued` and `flushed` are all the lines that ever entered and left the queue, in order. */
  datatype State<T> = State(acked: seq<T>, queue: seq<T>, dropped: seq<T>, attempts: nat, queued: seq<T>,
                            flushed: seq<T>)

  function Start<T>(): State<T> {
    State([], [], [], 0, [], [])
  }

  /** How many of `n` sends in a row succeed from attempt `at` on. */
  function Successes(ok: Sends, at: nat, n: nat): (i: nat)
    ensures i <= n && (i < n ==> !ok(at + i)) && forall m :: at <= m < at + i ==> ok(m)
    decreases n
  {
    if n == 0 || !ok(at) then 0 else 1 + Successes(ok, at + 1, n - 1)
  }

  /** How many queued lines the next line's flush gets through. */
  function FlushCount<T>(ok: Sends, st: State<T>): (i: nat)
    ensures i <= |st.queue|
  {
    Successes(ok, st.attempts, |st.queue|)
  }

  /** The attempt that sends the live line: a failed flush has used one more than it got through. */
  function LiveAttempt<T>(ok: Sends, st: State<T>): nat {
    var i := FlushCount(ok, st);
    st.attempts + (if i < |st.queue| then i + 1 else i)
  }

  /** Neither sent nor queued. */
  predicate Drops<T>(ok: Sends, limit: int, st: State<T>) {
    !ok(LiveAttempt(ok, st)) && |st.queue| - FlushCount(ok, st) >= limit
  }

  /** The live line overtakes lines that are still queued. */
  predicate Overtakes<T>(ok: Sends, st: State<T>) {
    FlushCount(ok, st) < |st.queue| && ok(LiveAttempt(ok, st))
  }

  /** The queue's first `i` lines move to the acknowledged ones, and another attempt fails unless that is all of
      them. */
  function FlushTo<T>(st: State<T>, i: nat): State<T>
    requires i <= |st.queue|
  {
    State(st.acked + st.queue[..i], st.queue[i..], st.dropped, st.attempts + (if i < |st.queue| then i + 1 else i),
          st.queued, st.flushed + st.queue[..i])
  }

  /** The queue's head moves to the acknowledged lines up to the first failure. */
  function Flush<T>(ok: Sends, st: State<T>): State<T> {
    FlushTo(st, FlushCount(ok, st))
  }

  function SendLive<T>(ok: Sends, limit: int, st: State<T>, line: T): State<T> {
    Settle(ok(st.attempts), limit, st, line)
  }

  /** The live line is sent, or else queued if there is room, or else dropped. */
  function Settle<T>(sent: bool, limit: int, st: State<T>, line: T): State<T> {
    var next := st.(attempts := st.attempts + 1);
    if sent then next.(acked := st.acked + [line])
    else if |st.queue| < limit then next.(queue := st.queue + [line], queued := st.queued + [line])
    else next.(dropped := st.dropped + [line])
  }

  function Step<T>(ok: Sends, limit: int, st: State<T>, line: T): State<T> {
    SendLive(ok, limit, Flush(ok, st), line)
  }

  function Run<T>(ok: Sends, limit: int, lines: seq<T>): State<T> {
    if lines == [] then Start() else Step(ok, limit, Run(ok, limit, lines[..|lines| - 1]), lines[|lines| - 1])
  }

  lemma RunSnoc<T>(ok: Sends, limit: int, lines: seq<T>, k: nat)
    requires k < |lines|
    ensures Run(ok, limit, lines[..k + 1]) == Step(ok, limit, Run(ok, limit, lines[..k]), lines[k])
  {
    assert lines[..k + 1][..k] == lines[..k];
  }

  // ------------------------------------------------------------------ for every failure pattern

  ghost function Lines<T>(st: State<T>): multiset<T> {
    multiset(st.acked) + multiset(st.queue) + multiset(st.dropped)
  }

  lemma FlushConserves<T>(ok: Sends, st: State<T>)
    ensures Lines(Flush(ok, st)) == Lines(st)
    ensures Flush(ok, st).flushed + Flush(ok, st).queue == st.flushed + st.queue
  {
    var head, tail := st.queue[..FlushCount(ok, st)], st.queue[FlushCount(ok, st)..];
    assert st.queue == head + tail;
    assert multiset(st.queue) == multiset(head) + multiset(tail);
    assert st.flushed + head + tail == st.flushed + (head + tail);
  }

  lemma SendConserves<T>(ok: Sends, limit: int, st: State<T>, line: T)
    ensures Lines(SendLive(ok, limit, st, line)) == Lines(st) + multiset{line}
    ensures st.flushed + st.queue == st.queued ==>
              SendLive(ok, limit, st, line).flushed + SendLive(ok, limit, st, line).queue ==
                  SendLive(ok, limit, st, line).queued
  {
    assert st.flushed + (st.queue + [line]) == st.flushed + st.queue + [line];
  }

  lemma StepConserves<T>(ok: Sends, limit: int, st: State<T>, line: T)
    ensures Lines(Step(ok, limit, st, line)) == Lines(st) + multiset{line}
    ensures st.flushed + st.queue == st.queued ==>
              Step(ok, limit, st, line).flushed + Step(ok, limit, st, line).queue == Step(ok, limit, st, line).queued
  {
    hide FlushCount, SendLive, Lines;
    FlushConserves(ok, st);
    SendConserves(ok, limit, Flush(ok, st), line);
  }

  /** Nothing is lost or invented: every line read is acknowledged, queued or dropped. */
  lemma {:induction false} Conservation<T>(ok: Sends, limit: int, lines: seq<T>)
    ensures var st := Run(ok, limit, lines);
            multiset(st.acked) + multiset(st.queue) + multiset(st.dropped) == multiset(lines)
  {
    hide Step;
    if lines != [] {
      var init, line := lines[..|lines| - 1], lines[|lines| - 1];
      Conservation(ok, limit, init);
      StepConserves(ok, limit, Run(ok, limit, init), line);
      assert lines == init + [line];
    }
  }

  lemma {:induction false} QueueIsBounded<T>(ok: Sends, limit: int, lines: seq<T>)
    ensures |Run(ok, limit, lines).queue| <= if limit > 0 then limit else 0
  {
    if lines != [] { QueueIsBounded(ok, limit, lines[..|lines| - 1]); }
  }

  /** Lines leave the queue in the order they entered it. */
  lemma {:induction false} QueueIsFIFO<T>(ok: Sends, limit: int, lines: seq<T>)
    ensures var st := Run(ok, limit, lines); st.flushed + st.queue == st.queued
  {
    hide Step;
    if lines != [] {
      QueueIsFIFO(ok, limit, lines[..|lines| - 1]);
      StepConserves(ok, limit, Run(ok, limit, lines[..|lines| - 1]), lines[|lines| - 1]);
    }
  }

  /** A line is dropped exactly when the queue is full and two sends in a row fail. */
  lemma DropsIff<T>(ok: Sends, limit: int, lines: seq<T>)
    requires limit > 0
    ensures var st := Run(ok, limit, lines);
            Drops(ok, limit, st) <==> |st.queue| == limit && !ok(st.attempts) && !ok(st.attempts + 1)
  {
    QueueIsBounded(ok, limit, lines);
  }

  /** What is lost then is the line just read: older lines stay queued, although the documentation has the oldest go. */
  lemma NewestIsDropped<T>(ok: Sends, limit: int, lines: seq<T>, line: T)
    requires limit > 0
    ensures var st, st' := Run(ok, limit, lines), Run(ok, limit, lines + [line]);
            if |st.queue| == limit && !ok(st.attempts) && !ok(st.attempts + 1) then
              st'.queue == st.queue && st'.acked == st.acked && st'.dropped == st.dropped + [line]
            else st'.dropped == st.dropped
  {
    hide Run, Step, Drops;
    RunSnoc(ok, limit, lines + [line], |lines|);
    assert (lines + [line])[..|lines|] == lines && (lines + [line])[..|lines| + 1] == lines + [line];
    QueueIsBounded(ok, limit, lines);
    DropsIff(ok, limit, lines);
    StepDrops(ok, limit, Run(ok, limit, lines), line);
  }

  lemma StepDrops<T>(ok: Sends, limit: int, st: State<T>, line: T)
    requires |st.queue| <= limit
    ensures var st' := Step(ok, limit, st, line);
            if Drops(ok, limit, st) then
              st'.queue == st.queue && st'.acked == st.acked && st'.dropped == st.dropped + [line]
            else st'.dropped == st.dropped
  {
    assert st.acked + st.queue[..0] == st.acked;
  }

  /** With room for one line and a dead server the first line stays and the second goes. */
  lemma SecondOfTwoIsDropped(ok: Sends)
    requires !ok(0) && !ok(1) && !ok(2)
    ensures Run(ok, 1, ["a", "b"]).queue == ["a"] && Run(ok, 1, ["a", "b"]).dropped == ["b"]
  {
    assert ["a", "b"][..1] == ["a"] && ["a"][..0] == [];
  }

  // ------------------------------------------------------------------ order

  /** `a` is obtained from `b` by leaving elements out. */
  ghost predicate Subsequence<T>(a: seq<T>, b: seq<T>) {
    if a == [] then true
    else if b == [] then false
    else (a[|a| - 1] == b[|b| - 1] && Subsequence(a[..|a| - 1], b[..|b| - 1])) || Subsequence(a, b[..|b| - 1])
  }

  lemma SubsequenceSnoc<T>(a: seq<T>, b: seq<T>, x: T)
    requires Subsequence(a, b)
    ensures Subsequence(a, b + [x]) && Subsequence(a + [x], b + [x])
  {
    assert (b + [x])[..|b|] == b && (a + [x])[..|a|] == a;
  }

  lemma {:induction false} SubsequenceSuffix<T>(a: seq<T>, i: nat, b: seq<T>)
    requires Subsequence(a, b) && i <= |a|
    ensures Subsequence(a[i..], b)
    decreases |b|
  {
    if i < |a| {
      if Subsequence(a, b[..|b| - 1]) {
        SubsequenceSuffix(a, i, b[..|b| - 1]);
      } else {
        SubsequenceSuffix(a[..|a| - 1], i, b[..|b| - 1]);
        assert a[i..][..|a[i..]| - 1] == a[..|a| - 1][i..];
      }
    }
  }

  /** Whatever fails, the queue holds lines in the order they were read. */
  lemma {:induction false} QueueIsInOrder<T>(ok: Sends, limit: int, lines: seq<T>)
    ensures Subsequence(Run(ok, limit, lines).queue, lines)
  {
    hide Subsequence, Step;
    if lines == [] {
      NothingInOrder(lines);
    } else {
      var init, line := lines[..|lines| - 1], lines[|lines| - 1];
      QueueIsInOrder(ok, limit, init);
      StepKeepsQueueInOrder(ok, limit, Run(ok, limit, init), init, line);
      assert lines == init + [line];
    }
  }

  lemma StepKeepsQueueInOrder<T>(ok: Sends, limit: int, st: State<T>, read: seq<T>, line: T)
    requires Subsequence(st.queue, read)
    ensures Subsequence(Step(ok, limit, st, line).queue, read + [line])
  {
    hide Subsequence, FlushCount;
    SubsequenceSuffix(st.queue, FlushCount(ok, st), read);
    SubsequenceSnoc(st.queue[FlushCount(ok, st)..], read, line);
  }

  lemma FlushKeepsOrder<T>(ok: Sends, st: State<T>)
    ensures Flush(ok, st).acked + Flush(ok, st).queue == st.acked + st.queue
  {
    var head, tail := st.queue[..FlushCount(ok, st)], st.queue[FlushCount(ok, st)..];
    assert st.queue == head + tail;
    assert st.acked + head + tail == st.acked + (head + tail);
  }

  /** A line that does not overtake and is not dropped goes behind everything sent and queued. */
  lemma StepKeepsOrder<T>(ok: Sends, limit: int, st: State<T>, line: T)
    requires !Overtakes(ok, st)
    ensures var st' := Step(ok, limit, st, line);
            st'.acked + st'.queue == st.acked + st.queue + (if Drops(ok, limit, st) then [] else [line])
  {
    FlushKeepsOrder(ok, st);
    var mid := Flush(ok, st);
    hide FlushCount;
    assert mid.acked + (mid.queue + [line]) == mid.acked + mid.queue + [line];
    assert mid.queue == [] ==> (mid.acked + [line]) + mid.queue == mid.acked + mid.queue + [line];
    assert mid.acked + mid.queue + [] == mid.acked + mid.queue;
  }

  ghost predicate NoneOvertakes<T>(ok: Sends, limit: int, lines: seq<T>, k: nat)
    requires k <= |lines|
  {
    forall j :: 0 <= j < k ==> !Overtakes(ok, Run(ok, limit, lines[..j]))
  }

  /** When no live line overtakes queued ones, sent and queued lines together are in the order read, whatever is
      dropped. */
  lemma {:induction false} SentAndQueuedInOrder<T>(ok: Sends, limit: int, lines: seq<T>, k: nat)
    requires k <= |lines| && NoneOvertakes(ok, limit, lines, k)
    ensures var st := Run(ok, limit, lines[..k]); Subsequence(st.acked + st.queue, lines[..k])
  {
    hide Step, Overtakes, Drops, Run, Subsequence;
    if k == 0 {
      NothingRead(ok, limit, lines);
      NothingInOrder(lines[..0]);
    } else {
      var st := Run(ok, limit, lines[..k - 1]);
      SentAndQueuedInOrder(ok, limit, lines, k - 1);
      RunSnoc(ok, limit, lines, k - 1);
      StepKeepsSubsequence(ok, limit, st, lines[..k - 1], lines[k - 1]);
      assert lines[..k] == lines[..k - 1] + [lines[k - 1]];
    }
  }

  lemma StepKeepsSubsequence<T>(ok: Sends, limit: int, st: State<T>, read: seq<T>, line: T)
    requires !Overtakes(ok, st) && Subsequence(st.acked + st.queue, read)
    ensures var st' := Step(ok, limit, st, line); Subsequence(st'.acked + st'.queue, read + [line])
  {
    hide Step, Overtakes, Drops, Subsequence;
    var sent, st' := st.acked + st.queue, Step(ok, limit, st, line);
    StepKeepsOrder(ok, limit, st, line);
    SubsequenceSnoc(sent, read, line);
    if Drops(ok, limit, st) {
      assert st'.acked + st'.queue == sent;
    } else {
      assert st'.acked + st'.queue == sent + [line];
    }
  }

  lemma NothingInOrder<T>(lines: seq<T>)
    ensures Subsequence([], lines)
  {}

  /** At every line so far nothing overtook and nothing was dropped. */
  ghost predicate Smooth<T>(ok: Sends, limit: int, lines: seq<T>, k: nat)
    requires k <= |lines|
  {
    forall j :: 0 <= j < k ==>
      !Overtakes(ok, Run(ok, limit, lines[..j])) && !Drops(ok, limit, Run(ok, limit, lines[..j]))
  }

  ghost predicate ExactlySoFar<T>(ok: Sends, limit: int, lines: seq<T>, k: nat)
    requires k <= |lines|
  {
    var st := Run(ok, limit, lines[..k]);
    st.acked + st.queue == lines[..k]
  }

  lemma NothingRead<T>(ok: Sends, limit: int, lines: seq<T>)
    ensures Run(ok, limit, lines[..0]) == Start() && ExactlySoFar(ok, limit, lines, 0)
  {}

  lemma {:induction false} SmoothIsExact<T>(ok: Sends, limit: int, lines: seq<T>, k: nat)
    requires k <= |lines| && Smooth(ok, limit, lines, k)
    ensures ExactlySoFar(ok, limit, lines, k)
  {
    hide Step, Overtakes, Drops, Run;
    if k == 0 {
      NothingRead(ok, limit, lines);
    } else {
      SmoothIsExact(ok, limit, lines, k - 1);
      RunSnoc(ok, limit, lines, k - 1);
      StepKeepsOrder(ok, limit, Run(ok, limit, lines[..k - 1]), lines[k - 1]);
      assert lines[..k] == lines[..k - 1] + [lines[k - 1]];
    }
  }

  /** Overtaking puts a line that was not read before among the first k. */
  lemma OvertakingShows<T>(ok: Sends, limit: int, lines: seq<T>, k: nat)
    requires k < |lines| && lines[k] !in lines[..k]
    requires ExactlySoFar(ok, limit, lines, k) && Overtakes(ok, Run(ok, limit, lines[..k]))
    ensures !ExactlySoFar(ok, limit, lines, k + 1)
  {
    hide Run, Step, Overtakes;
    var st, st' := Run(ok, limit, lines[..k]), Run(ok, limit, lines[..k + 1]);
    RunSnoc(ok, limit, lines, k);
    var p := |st.acked| + FlushCount(ok, st);
    StepOvertakes(ok, limit, st, lines[k]);
    assert |st.acked + st.queue| == k;
    assert lines[..k][p] == lines[p] != lines[k];
    assert lines[..k + 1][p] == lines[p];
  }

  /** The live line lands right behind what the flush got through. */
  lemma StepOvertakes<T>(ok: Sends, limit: int, st: State<T>, line: T)
    requires Overtakes(ok, st)
    ensures var st', p := Step(ok, limit, st, line), |st.acked| + FlushCount(ok, st);
            p < |st.acked + st.queue| && p < |st'.acked + st'.queue| && (st'.acked + st'.queue)[p] == line
  {
    hide FlushCount;
  }

  lemma DroppingShows<T>(ok: Sends, limit: int, lines: seq<T>, k: nat)
    requires k < |lines| && ExactlySoFar(ok, limit, lines, k)
    requires !Overtakes(ok, Run(ok, limit, lines[..k])) && Drops(ok, limit, Run(ok, limit, lines[..k]))
    ensures !ExactlySoFar(ok, limit, lines, k + 1)
  {
    hide Step, Overtakes, Drops, Run;
    var st' := Run(ok, limit, lines[..k + 1]);
    RunSnoc(ok, limit, lines, k);
    StepKeepsOrder(ok, limit, Run(ok, limit, lines[..k]), lines[k]);
    assert |st'.acked + st'.queue| == k;
  }

  lemma {:induction false} ExactIsSmooth<T>(ok: Sends, limit: int, lines: seq<T>, k: nat)
    requires k <= |lines|
    requires forall i, j :: 0 <= i < j < |lines| ==> lines[i] != lines[j]
    requires forall j :: 0 <= j <= k ==> ExactlySoFar(ok, limit, lines, j)
    ensures Smooth(ok, limit, lines, k)
  {
    hide Overtakes, Drops, Run, ExactlySoFar;
    forall j | 0 <= j < k
      ensures !Overtakes(ok, Run(ok, limit, lines[..j])) && !Drops(ok, limit, Run(ok, limit, lines[..j]))
    {
      var st := Run(ok, limit, lines[..j]);
      if Overtakes(ok, st) {
        OvertakingShows(ok, limit, lines, j);
      } else if Drops(ok, limit, st) {
        DroppingShows(ok, limit, lines, j);
      }
    }
  }

  /** Sent plus queued is exactly what was read, after every prefix, if no failed flush was followed by a successful
      live send and the queue never overflowed; and for distinguishable lines only then. */
  lemma ExactIff<T>(ok: Sends, limit: int, lines: seq<T>)
    ensures Smooth(ok, limit, lines, |lines|) ==> forall k :: 0 <= k <= |lines| ==> ExactlySoFar(ok, limit, lines, k)
    ensures (forall i, j :: 0 <= i < j < |lines| ==> lines[i] != lines[j]) ==>
              (Smooth(ok, limit, lines, |lines|) <==>
               forall k :: 0 <= k <= |lines| ==> ExactlySoFar(ok, limit, lines, k))
  {
    if Smooth(ok, limit, lines, |lines|) {
      forall k | 0 <= k <= |lines| ensures ExactlySoFar(ok, limit, lines, k) { SmoothIsExact(ok, limit, lines, k); }
    } else if (forall i, j :: 0 <= i < j < |lines| ==> lines[i] != lines[j])
           && (forall k :: 0 <= k <= |lines| ==> ExactlySoFar(ok, limit, lines, k)) {
      ExactIsSmooth(ok, limit, lines, |lines|);
    }
  }

  /** One failed flush followed by a successful live send reorders lines. */
  lemma LiveLineOvertakes(ok: Sends)
    requires !ok(0) && !ok(1) && ok(2)
    ensures Run(ok, DEFAULT_QUEUE_LEN, ["a", "b"]).acked == ["b"] &&
            Run(ok, DEFAULT_QUEUE_LEN, ["a", "b"]).queue == ["a"]
  {
    assert ["a", "b"][..1] == ["a"] && ["a"][..0] == [];
  }

  // ------------------------------------------------------------------ the loop itself

  datatype Outcome = Finished(failure: Option<string>) | Cancelled

  lemma LogicalSplit(read: seq<string>, lines: seq<string>)
    requires AllBytes(lines) && lines != []
    ensures read + Logical(lines) == (read + [NextLogical(lines).0]) + Logical(NextLogical(lines).1)
  {
    hide NextLogical;
  }

  lemma NoMoreLines(lines: seq<string>)
    requires lines == []
    ensures Logical(lines) == []
  {}

  lemma StartOfRun(ok: Sends, limit: int)
    ensures Run<string>(ok, limit, []) == Start()
  {}

  ghost predicate Matches(st: State<string>, acked: seq<string>, queue: seq<string>, dropped: seq<string>,
                          attempts: nat) {
    st.acked == acked && st.queue == queue && st.dropped == dropped && st.attempts == attempts
  }

  lemma {:induction false} SuccessesIs(ok: Sends, at: nat, n: nat, i: nat)
    requires i <= n && (i < n ==> !ok(at + i)) && forall m :: at <= m < at + i ==> ok(m)
    ensures Successes(ok, at, n) == i
    decreases n
  {
    if i > 0 { SuccessesIs(ok, at + 1, n - 1, i - 1); }
  }

  /** One turn of the loop: flush the queue up to the first failure, then try the live line. */
  method RelayLine(ok: Sends, limit: int, acked0: seq<string>, queue0: seq<string>, dropped0: seq<string>,
                   attempts0: nat, line: string, ghost st: State<string>)
    returns (acked: seq<string>, queue: seq<string>, dropped: seq<string>, attempts: nat)
    requires Matches(st, acked0, queue0, dropped0, attempts0)
    ensures Matches(Step(ok, limit, st, line), acked, queue, dropped, attempts)
  {
    hide Successes;
    acked, queue, dropped, attempts := acked0, queue0, dropped0, attempts0;
    var i := 0;
    while i < |queue|
      invariant i <= |queue| && attempts == attempts0 + i && acked == acked0 + queue[..i]
      invariant forall m :: attempts0 <= m < attempts0 + i ==> ok(m)
    {
      attempts := attempts + 1;
      if !ok(attempts - 1) { break; }
      acked := acked + [queue[i]];
      i := i + 1;
    }
    SuccessesIs(ok, attempts0, |queue|, i);
    queue := queue[i..];
    attempts := attempts + 1;
    if ok(attempts - 1) {
      acked := acked + [line];
    } else if |queue| < limit {
      queue := queue + [line];
    } else {
      dropped := dropped + [line];
    }
  }

  /** Forward every logical line; `cancelled(n)` says whether the n-th check of the context finds it done. */
  method RelayLines(reader: HybridReader, ok: Sends, cancelled: nat -> bool, optionLen: int)
    returns (acked: seq<string>, queue: seq<string>, dropped: seq<string>, n: nat, outcome: Outcome)
    requires reader.Valid()
    modifies reader
    ensures reader.Valid()
    ensures var lines := Logical(reader.input[old(reader.pos)..]);
            && n <= |lines|
            && (forall j :: 0 <= j < n ==> !cancelled(j))
            && (outcome.Finished? ==> n == |lines| && outcome.failure == reader.failure)
            && (outcome.Cancelled? ==> n < |lines| && cancelled(n))
            && acked == Run(ok, Limit(optionLen), lines[..n]).acked
            && queue == Run(ok, Limit(optionLen), lines[..n]).queue
            && dropped == Run(ok, Limit(optionLen), lines[..n]).dropped
  {
    hide Run, NextLogical, Logical, Step, AllBytes;
    PartIsBytes(reader.input, reader.pos, 0);
    var queueLen := Limit(optionLen);
    acked, queue, dropped, n := [], [], [], 0;
    var attempts := 0;
    ghost var lines := Logical(reader.input[reader.pos..]);
    ghost var read: seq<string> := [];
    StartOfRun(ok, queueLen);
    while true
      invariant reader.Valid() && n == |read| && AllBytes(reader.input[reader.pos..])
      invariant lines == read + Logical(reader.input[reader.pos..])
      invariant forall j :: 0 <= j < n ==> !cancelled(j)
      invariant Matches(Run(ok, queueLen, read), acked, queue, dropped, attempts)
      decreases |reader.input| - reader.pos
    {
      ghost var rest := reader.input[reader.pos..];
      var more := reader.Next();
      PartIsBytes(reader.input, reader.pos, 0);
      if !more {
        NoMoreLines(rest);
        assert lines[..n] == read;
        return acked, queue, dropped, n, Finished(reader.err);
      }
      LogicalSplit(read, rest);
      assert lines[..n] == read && lines[n] == reader.pending;
      if cancelled(n) {
        return acked, queue, dropped, n, Cancelled;
      }
      RunSnoc(ok, queueLen, lines, n);
      assert lines[..n + 1] == read + [reader.pending];
      acked, queue, dropped, attempts := RelayLine(ok, queueLen, acked, queue, dropped, attempts, reader.pending,
          Run(ok, queueLen, read));
      read := read + [reader.pending];
      n := n + 1;
    }
  }
}
