/** Which splits and pane closes are safe under every schedule, told from the requests and the state before them. */
module Schedules {
  import opened Wrappers
  import opened SessionModel
  import opened SessionTheorems
  import Splits
  import R = SplitsAndCloses

  ghost predicate OneClose(cs: seq<R.Closer>, id: TargetID) {
    forall i, j :: 0 <= i < j < |cs| ==> !(cs[i].id == id && cs[j].id == id)
  }

  ghost predicate OneSplit(ps: seq<Splits.Proc>, id: TargetID) {
    forall i, j :: 0 <= i < j < |ps| ==> !(ps[i].pane.id == id && ps[j].pane.id == id)
  }

  ghost predicate TwoSplits(ps: seq<Splits.Proc>, id: TargetID) {
    forall i, j, k :: 0 <= i < j < k < |ps| ==> !(ps[i].pane.id == id && ps[j].pane.id == id && ps[k].pane.id == id)
  }

  ghost predicate FewSplits(w: R.World, id: TargetID) {
    OneSplit(w.splits.procs, id) || (Count(w.splits.session.windows, id) == 0 && TwoSplits(w.splits.procs, id))
  }

  /** At most one close of the id, or at most one split that names it, or at most two splits and no pane to begin
      with. */
  ghost predicate Tame(w: R.World, id: TargetID) {
    OneClose(w.closers, id) || FewSplits(w, id)
  }

  // ------------------------------------------------------------------ steps

  /** The requests themselves never change. */
  ghost predicate SameRequests(w: R.World, w': R.World) {
    && |w'.closers| == |w.closers| && |w'.splits.procs| == |w.splits.procs|
    && (forall j :: 0 <= j < |w.closers| ==> w'.closers[j].id == w.closers[j].id)
    && (forall i :: 0 <= i < |w.splits.procs| ==> w'.splits.procs[i].pane == w.splits.procs[i].pane)
  }

  /** The step adds a pane with this id. */
  predicate Adds(w: R.World, e: R.Event, id: TargetID) {
    && e.Split? && e.e.Add? && e.e.i < |w.splits.procs|
    && w.splits.procs[e.e.i].phase == Splits.Waiting && w.splits.procs[e.e.i].pane.id == id
  }

  /** The step is a rollback of this id that finds no pane. */
  predicate Misses(w: R.World, e: R.Event, id: TargetID) {
    e.Split? && R.MissesPane(w.splits, e.e) && w.splits.procs[e.e.i].pane.id == id
  }

  lemma StepKeepsRequests(w: R.World, e: R.Event)
    ensures SameRequests(w, R.Step(w, e))
  {
    hide AddPane, RemovePane, CreateWindow, RenameWindow, FocusWindow;
  }

  lemma StepCounts(w: R.World, e: R.Event, id: TargetID)
    ensures var w' := R.Step(w, e);
            && w'.missedRollbacks[id] == w.missedRollbacks[id] + (if Misses(w, e, id) then 1 else 0)
            && w'.missedDeregisters[id] >= w.missedDeregisters[id]
            && (Misses(w, e, id) ==> Count(w.splits.session.windows, id) == 0)
            && Count(w'.splits.session.windows, id) <= Count(w.splits.session.windows, id) +
               (if Adds(w, e, id) then 1 else 0)
  {
    match e
    case Split(x) => SplitStepCounts(w.splits, x, id);
    case Remove(j) => if j < |w.closers| { CountOfRemove(w.splits.session, w.closers[j].id, id); }
    case Deregister(_) =>
  }

  lemma SplitStepCounts(u: Splits.World, x: Splits.Event, id: TargetID)
    ensures Count(Splits.Step(u, x).session.windows, id) <=
            Count(u.session.windows, id) +
            (if x.Add? && x.i < |u.procs| && u.procs[x.i].phase == Splits.Waiting && u.procs[x.i].pane.id == id
             then 1 else 0)
    ensures R.MissesPane(u, x) && u.procs[x.i].pane.id == id ==> Count(u.session.windows, id) == 0
  {
    match x
    case Add(i, name) =>
      if i < |u.procs| && AddPane(u.session, name, u.procs[i].pane).Some? {
        CountOfAdd(u.session, name, u.procs[i].pane, id);
      }
    case Register(_) =>
    case Rollback(i) =>
      if i < |u.procs| { CountOfRemove(u.session, u.procs[i].pane.id, id); }
    case _ => Splits.OtherKeepsCounts(u, x, id);
  }

  // ------------------------------------------------------------------ at most one close

  ghost predicate SomeClosed(w: R.World, id: TargetID) {
    exists j :: 0 <= j < |w.closers| && w.closers[j] == R.Closer(id, R.Closed)
  }

  /** Where a split is rolling back, its id is registered, or was until a close finished. */
  ghost predicate RollingKnown(w: R.World, id: TargetID) {
    forall i ::
      0 <= i < |w.splits.procs| && w.splits.procs[i].pane.id == id && w.splits.procs[i].phase == Splits.RollingBack ==>
      id in w.splits.ids || SomeClosed(w, id)
  }

  lemma {:induction false} ClosingWitness(cs: seq<R.Closer>, id: TargetID) returns (j: nat)
    requires R.Closing(cs, id) > 0
    ensures j < |cs| && cs[j] == R.Closer(id, R.Removed)
  {
    if cs[0] == R.Closer(id, R.Removed) {
      j := 0;
    } else {
      var k := ClosingWitness(cs[1..], id);
      j := k + 1;
    }
  }

  /** A single close is under way at most once, and not once it has finished. */
  lemma OneCloseUnderWay(cs: seq<R.Closer>, id: TargetID)
    requires OneClose(cs, id)
    ensures R.Closing(cs, id) <= 1
    ensures (exists j :: 0 <= j < |cs| && cs[j] == R.Closer(id, R.Closed)) ==> R.Closing(cs, id) == 0
  {
    if R.Closing(cs, id) > 0 {
      var j := ClosingWitness(cs, id);
      var rest := cs[j := R.Closer(id, R.Closed)];
      R.ClosingUpdate(cs, j, R.Closer(id, R.Closed), id);
      if R.Closing(rest, id) > 0 {
        var k := ClosingWitness(rest, id);
        OneCloseIs(cs, id, j, k);
      }
      forall k | 0 <= k < |cs| && cs[k].id == id ensures k == j { OneCloseIs(cs, id, j, k); }
    }
  }

  lemma OneCloseIs(cs: seq<R.Closer>, id: TargetID, j: nat, k: nat)
    requires OneClose(cs, id) && j < |cs| && k < |cs| && cs[j].id == id && cs[k].id == id
    ensures j == k
  {}

  lemma RollingStaysKnown(w: R.World, e: R.Event, id: TargetID)
    requires RollingKnown(w, id)
    ensures RollingKnown(R.Step(w, e), id)
  {
    hide R.Step;
    var w' := R.Step(w, e);
    StepKeepsRequests(w, e);
    if SomeClosed(w, id) { ClosedStays(w, e, id); }
    if id in w.splits.ids { RegisteredUntilClosed(w, e, id); }
    forall i | 0 <= i < |w'.splits.procs| && w'.splits.procs[i].pane.id == id &&
        w'.splits.procs[i].phase == Splits.RollingBack
      ensures id in w'.splits.ids || SomeClosed(w', id)
    {
      PhaseStep(w, e, i);
    }
  }

  lemma RegisteredUntilClosed(w: R.World, e: R.Event, id: TargetID)
    requires id in w.splits.ids
    ensures id in R.Step(w, e).splits.ids || SomeClosed(R.Step(w, e), id)
  {
    hide AddPane, RemovePane, CreateWindow, RenameWindow, FocusWindow;
    var w' := R.Step(w, e);
    if id !in w'.splits.ids { assert w'.closers[e.j] == R.Closer(id, R.Closed); }
  }

  lemma ClosedStays(w: R.World, e: R.Event, id: TargetID)
    requires SomeClosed(w, id)
    ensures SomeClosed(R.Step(w, e), id)
  {
    var j :| 0 <= j < |w.closers| && w.closers[j] == R.Closer(id, R.Closed);
    assert R.Step(w, e).closers[j] == w.closers[j];
  }

  /** A rollback that misses finds the one close still before its deregistration, or done. */
  lemma MissIsCovered(w: R.World, e: R.Event, id: TargetID, stranded: int)
    requires OneClose(w.closers, id) && RollingKnown(w, id) && R.Balance(w, id) == -stranded && Misses(w, e, id)
    ensures w.missedRollbacks[id] + 1 <= w.missedDeregisters[id] + stranded
  {
    StepCounts(w, e, id);
    OneCloseUnderWay(w.closers, id);
    Splits.UnsettledUpdate(w.splits.procs, e.e.i, w.splits.procs[e.e.i], id);
  }

  lemma {:induction false} OneCloseIsCovered(w: R.World, es: seq<R.Event>, id: TargetID, stranded: int)
    requires OneClose(w.closers, id) && RollingKnown(w, id) && R.Balance(w, id) == -stranded
    requires w.missedRollbacks[id] <= w.missedDeregisters[id] + stranded
    ensures R.Run(w, es).missedRollbacks[id] <= R.Run(w, es).missedDeregisters[id] + stranded
    decreases |es|
  {
    hide R.Step, R.Balance, RollingKnown, Count, Misses;
    if es != [] {
      var w' := R.Step(w, es[0]);
      StepKeepsRequests(w, es[0]);
      StepCounts(w, es[0], id);
      if Misses(w, es[0], id) { MissIsCovered(w, es[0], id, stranded); }
      RollingStaysKnown(w, es[0], id);
      R.StepKeepsBalance(w, es[0], id);
      OneCloseIsCovered(w', es[1..], id, stranded);
    }
  }

  // ------------------------------------------------------------------ few splits

  ghost predicate NoneWaiting(w: R.World, id: TargetID) {
    forall i :: 0 <= i < |w.splits.procs| && w.splits.procs[i].pane.id == id ==>
      w.splits.procs[i].phase != Splits.Waiting
  }

  ghost predicate SomeIn(w: R.World, id: TargetID, phase: Splits.Phase) {
    exists i :: 0 <= i < |w.splits.procs| && w.splits.procs[i].pane.id == id && w.splits.procs[i].phase == phase
  }

  /** Nothing was missed; or no pane is left and none will come; or one rollback was missed for a pipeline stranded
      before. */
  ghost predicate Harmless(w0: R.World, w: R.World, id: TargetID) {
    || w.missedRollbacks[id] == 0
    || (Count(w.splits.session.windows, id) == 0 && NoneWaiting(w, id))
    || (w.missedRollbacks[id] == 1 && R.Stranded(w0, id) == 1)
  }

  /** What the phases of splits of one id tell about the past. */
  ghost predicate Traces(w0: R.World, w: R.World, id: TargetID) {
    && (w.missedRollbacks[id] > 0 ==> SomeIn(w, id, Splits.RolledBack))
    && (SomeIn(w, id, Splits.RollingBack) || SomeIn(w, id, Splits.RolledBack) ==>
          id in w0.splits.ids || SomeIn(w, id, Splits.Succeeded))
    && (id in w.splits.ids ==> id in w0.splits.ids || SomeIn(w, id, Splits.Succeeded))
  }

  /** How one split moves on. */
  lemma PhaseStep(w: R.World, e: R.Event, i: nat)
    requires i < |w.splits.procs|
    ensures var w' := R.Step(w, e);
            && i < |w'.splits.procs| && w'.splits.procs[i].pane == w.splits.procs[i].pane
            && var p, q, id := w.splits.procs[i].phase, w'.splits.procs[i].phase, w.splits.procs[i].pane.id;
               || q == p
               || (p == Splits.Waiting && (q == Splits.Added || q == Splits.NotAdded))
               || (p == Splits.Added && q == Splits.Succeeded && id in w'.splits.ids)
               || (p == Splits.Added && q == Splits.RollingBack && id in w.splits.ids)
               || (p == Splits.RollingBack && q == Splits.RolledBack)
  {
    hide AddPane, RemovePane, CreateWindow, RenameWindow, FocusWindow;
  }

  /** An id is registered only by a split that succeeds. */
  lemma RegisteredStep(w: R.World, e: R.Event, id: TargetID)
    requires id in R.Step(w, e).splits.ids
    ensures id in w.splits.ids || SomeIn(R.Step(w, e), id, Splits.Succeeded)
  {
    hide AddPane, RemovePane, CreateWindow, RenameWindow, FocusWindow;
    var w' := R.Step(w, e);
    if id !in w.splits.ids { assert w'.splits.procs[e.e.i].phase == Splits.Succeeded; }
  }

  lemma PhaseStays(w: R.World, e: R.Event, id: TargetID, phase: Splits.Phase)
    requires SomeIn(w, id, phase) && (phase == Splits.Succeeded || phase == Splits.RolledBack)
    ensures SomeIn(R.Step(w, e), id, phase)
  {
    hide R.Step;
    var i :| 0 <= i < |w.splits.procs| && w.splits.procs[i].pane.id == id && w.splits.procs[i].phase == phase;
    PhaseStep(w, e, i);
  }

  lemma MissIsRolledBack(w: R.World, e: R.Event, id: TargetID)
    requires Misses(w, e, id)
    ensures SomeIn(R.Step(w, e), id, Splits.RolledBack)
  {
    hide RemovePane;
    assert R.Step(w, e).splits.procs[e.e.i].phase == Splits.RolledBack;
  }

  lemma StepKeepsTraces(w0: R.World, w: R.World, e: R.Event, id: TargetID)
    requires Traces(w0, w, id)
    ensures Traces(w0, R.Step(w, e), id)
  {
    hide R.Step, Misses, Count;
    var w' := R.Step(w, e);
    StepKeepsRequests(w, e);
    StepCounts(w, e, id);
    if SomeIn(w, id, Splits.Succeeded) { PhaseStays(w, e, id, Splits.Succeeded); }
    if SomeIn(w, id, Splits.RolledBack) { PhaseStays(w, e, id, Splits.RolledBack); }
    if Misses(w, e, id) { MissIsRolledBack(w, e, id); }
    if id in w'.splits.ids { RegisteredStep(w, e, id); }
    forall i | 0 <= i < |w'.splits.procs| && w'.splits.procs[i].pane.id == id
                 && (w'.splits.procs[i].phase == Splits.RollingBack || w'.splits.procs[i].phase == Splits.RolledBack)
      ensures id in w0.splits.ids || SomeIn(w', id, Splits.Succeeded)
    {
      PhaseStep(w, e, i);
    }
  }

  /** The two splits of an id without a pane, or the only one: a rollback that misses leaves nothing behind, or is the
      first of two and met a pipeline stranded before. */
  lemma MissIsHarmless(w0: R.World, w: R.World, e: R.Event, id: TargetID)
    requires FewSplits(w0, id) && SameRequests(w0, w) && Traces(w0, w, id) && Misses(w, e, id)
    ensures NoneWaiting(w, id) || (w.missedRollbacks[id] == 0 && R.Stranded(w0, id) == 1)
  {
    var i := e.e.i;
    assert SomeIn(w, id, Splits.RollingBack);
    if !NoneWaiting(w, id) {
      var k :| 0 <= k < |w.splits.procs| && w.splits.procs[k].pane.id == id &&
          w.splits.procs[k].phase == Splits.Waiting;
      OnlyThese(w0, w, id, i, k);
    }
  }

  /** With one split rolling back and another one waiting there is no third. */
  lemma OnlyThese(w0: R.World, w: R.World, id: TargetID, i: nat, k: nat)
    requires FewSplits(w0, id) && SameRequests(w0, w) && i < |w.splits.procs| && k < |w.splits.procs| && i != k
    requires w.splits.procs[i].pane.id == id && w.splits.procs[k].pane.id == id
    ensures Count(w0.splits.session.windows, id) == 0
    ensures forall h :: 0 <= h < |w.splits.procs| && w.splits.procs[h].pane.id == id ==> h == i || h == k
  {
    var ps := w0.splits.procs;
    var a, b := if i < k then i else k, if i < k then k else i;
    assert ps[a].pane.id == id && ps[b].pane.id == id;
    forall h | 0 <= h < |ps| && ps[h].pane.id == id ensures h == a || h == b { NoThird(ps, id, a, b, h); }
    forall h | 0 <= h < |ps| && w.splits.procs[h].pane.id == id ensures h == i || h == k {
      assert ps[h].pane.id == id;
    }
  }

  lemma NoThird(ps: seq<Splits.Proc>, id: TargetID, a: nat, b: nat, h: nat)
    requires TwoSplits(ps, id) && a < b < |ps| && h < |ps|
    requires ps[a].pane.id == id && ps[b].pane.id == id && ps[h].pane.id == id
    ensures h == a || h == b
  {}

  lemma NoneWaitingStays(w: R.World, e: R.Event, id: TargetID)
    requires NoneWaiting(w, id)
    ensures NoneWaiting(R.Step(w, e), id) && !Adds(w, e, id)
  {}

  lemma StepIsHarmless(w0: R.World, w: R.World, e: R.Event, id: TargetID)
    requires FewSplits(w0, id) && SameRequests(w0, w) && Traces(w0, w, id) && Harmless(w0, w, id)
    ensures Harmless(w0, R.Step(w, e), id)
  {
    hide FewSplits, SameRequests, Traces, NoneWaiting, Misses, Adds, R.Step, R.Stranded, Count;
    StepCounts(w, e, id);
    if Misses(w, e, id) { MissIsHarmless(w0, w, e, id); }
    if NoneWaiting(w, id) { NoneWaitingStays(w, e, id); }
  }

  lemma {:induction false} FewSplitsAreHarmless(w0: R.World, w: R.World, es: seq<R.Event>, id: TargetID)
    requires FewSplits(w0, id) && SameRequests(w0, w) && Traces(w0, w, id) && Harmless(w0, w, id)
    ensures Harmless(w0, R.Run(w, es), id)
    decreases |es|
  {
    hide FewSplits, Traces, Harmless, R.Step;
    if es != [] {
      StepKeepsRequests(w, es[0]);
      StepKeepsTraces(w0, w, es[0], id);
      StepIsHarmless(w0, w, es[0], id);
      FewSplitsAreHarmless(w0, R.Step(w, es[0]), es[1..], id);
    }
  }

  // ------------------------------------------------------------------ tame requests are safe

  lemma StartTraces(w: R.World, id: TargetID)
    requires R.Start(w)
    ensures RollingKnown(w, id) && Traces(w, w, id) && SameRequests(w, w)
    ensures w.missedRollbacks[id] == 0 && w.missedDeregisters[id] == 0 && R.Stranded(w, id) >= 0
  {
    assert Count(w.splits.session.windows, id) <= 1;
  }

  /** Whatever the schedule, a tame id ends with no more panes than pipelines. */
  lemma TameSettles(w0: R.World, es: seq<R.Event>, id: TargetID)
    requires R.Start(w0) && Tame(w0, id) && R.Quiescent(R.Run(w0, es))
    ensures var w := R.Run(w0, es); Count(w.splits.session.windows, id) <= R.Registered(w, id)
  {
    hide R.Run, R.Start, R.Quiescent, FewSplits, OneClose, Traces, RollingKnown, Count;
    StartTraces(w0, id);
    R.Settlement(w0, es, id);
    if OneClose(w0.closers, id) {
      StartBalance(w0, id);
      OneCloseIsCovered(w0, es, id, R.Stranded(w0, id));
    } else {
      FewSplitsAreHarmless(w0, w0, es, id);
    }
  }

  lemma StartBalance(w: R.World, id: TargetID)
    requires R.Start(w)
    ensures R.Balance(w, id) == -R.Stranded(w, id)
  {
    hide R.Start, R.Quiescent;
    R.StartIsQuiescent(w);
    R.QuiescentBalance(w, id);
    R.NothingMissed(w, id);
  }

  // ------------------------------------------------------------------ wild requests have a bad schedule

  /** The requests of one id that a schedule uses, and the name of a window it makes for them. */
  datatype Cast = Cast(id: TargetID, name: string, splits: seq<nat>, closes: seq<nat>)

  /** What a world looks like to them: the panes of the id, its pipeline, and how far each request got. */
  datatype Sketch = Sketch(panes: nat, registered: bool, splits: seq<Splits.Phase>, closes: seq<R.Phase>)

  datatype Move = Add(a: nat) | Register(a: nat) | Rollback(a: nat) | Remove(b: nat) | Deregister(b: nat)

  /** The move comes next for its request. */
  predicate Next(k: Sketch, m: Move) {
    match m
    case Add(a) => a < |k.splits| && k.splits[a] == Splits.Waiting
    case Register(a) => a < |k.splits| && k.splits[a] == Splits.Added
    case Rollback(a) => a < |k.splits| && k.splits[a] == Splits.RollingBack
    case Remove(b) => b < |k.closes| && k.closes[b] == R.Waiting
    case Deregister(b) => b < |k.closes| && k.closes[b] == R.Removed
  }

  function Less(n: nat): nat {
    if n == 0 then 0 else n - 1
  }

  function SketchStep(k: Sketch, m: Move): Sketch {
    if !Next(k, m) then k
    else
      match m
      case Add(a) => k.(panes := k.panes + 1, splits := k.splits[a := Splits.Added])
      case Register(a) =>
        if k.registered then k.(splits := k.splits[a := Splits.RollingBack])
        else k.(registered := true, splits := k.splits[a := Splits.Succeeded])
      case Rollback(a) => k.(panes := Less(k.panes), splits := k.splits[a := Splits.RolledBack])
      case Remove(b) =>
        k.(panes := Less(k.panes), closes := k.closes[b := if k.panes == 0 then R.Missing else R.Removed])
      case Deregister(b) => k.(registered := false, closes := k.closes[b := R.Closed])
  }

  function SketchRun(k: Sketch, ms: seq<Move>): Sketch
    decreases |ms|
  {
    if ms == [] then k else SketchRun(SketchStep(k, ms[0]), ms[1..])
  }

  predicate Casts(w: R.World, c: Cast) {
    && (forall a :: 0 <= a < |c.splits| ==>
         c.splits[a] < |w.splits.procs| && w.splits.procs[c.splits[a]].pane.id == c.id)
    && (forall b :: 0 <= b < |c.closes| ==> c.closes[b] < |w.closers| && w.closers[c.closes[b]].id == c.id)
    && (forall a, a' :: 0 <= a < a' < |c.splits| ==> c.splits[a] != c.splits[a'])
    && (forall b, b' :: 0 <= b < b' < |c.closes| ==> c.closes[b] != c.closes[b'])
  }

  /** The requests of the cast are as far as the sketch says, and no other one has begun. */
  ghost predicate Phases(w: R.World, c: Cast, k: Sketch) {
    && |k.splits| == |c.splits| && |k.closes| == |c.closes| && Casts(w, c)
    && (forall a :: 0 <= a < |c.splits| ==> w.splits.procs[c.splits[a]].phase == k.splits[a])
    && (forall b :: 0 <= b < |c.closes| ==> w.closers[c.closes[b]].phase == k.closes[b])
    && (forall i :: 0 <= i < |w.splits.procs| && i !in c.splits ==> w.splits.procs[i].phase == Splits.Waiting)
    && (forall j :: 0 <= j < |w.closers| && j !in c.closes ==> w.closers[j].phase == R.Waiting)
  }

  /** The window of the cast's name has at most `n` panes. */
  ghost predicate Room(s: Session, name: string, n: nat) {
    var k := WindowIndex(s.windows, name);
    k < |s.windows| && |s.windows[k].panes| <= n
  }

  ghost predicate Shows(w: R.World, c: Cast, k: Sketch, room: nat) {
    && Phases(w, c, k)
    && Count(w.splits.session.windows, c.id) == k.panes
    && (c.id in w.splits.ids <==> k.registered)
    && Room(w.splits.session, c.name, room)
  }

  predicate InCast(c: Cast, m: Move) {
    match m
    case Remove(b) => b < |c.closes|
    case Deregister(b) => b < |c.closes|
    case _ => m.a < |c.splits|
  }

  function EventOf(c: Cast, m: Move): R.Event
    requires InCast(c, m)
  {
    match m
    case Add(a) => R.Split(Splits.Add(c.splits[a], c.name))
    case Register(a) => R.Split(Splits.Register(c.splits[a]))
    case Rollback(a) => R.Split(Splits.Rollback(c.splits[a]))
    case Remove(b) => R.Remove(c.closes[b])
    case Deregister(b) => R.Deregister(c.closes[b])
  }

  lemma RoomAfterAdd(s: Session, name: string, p: Pane, n: nat)
    requires Room(s, name, n) && n < MAX_PANES_PER_WINDOW
    ensures AddPane(s, name, p).Some? && Room(AddPane(s, name, p).value, name, n + 1)
  {
    var k := WindowIndex(s.windows, name);
    var ws := AddPane(s, name, p).value.windows;
    FirstNamed(ws, name, k);
  }

  lemma {:induction false} FirstNamed(ws: seq<Window>, name: string, k: nat)
    requires k < |ws| && ws[k].name == name && forall j :: 0 <= j < k ==> ws[j].name != name
    ensures WindowIndex(ws, name) == k
  {
    if k > 0 { FirstNamed(ws[1..], name, k - 1); }
  }

  lemma RoomAfterRemove(s: Session, name: string, id: TargetID, n: nat)
    requires Room(s, name, n)
    ensures Room(RemovePane(s, id).GetOr(s), name, n)
  {
    RemoveShrinks(s, id);
    FirstNamed(RemovePane(s, id).GetOr(s).windows, name, WindowIndex(s.windows, name));
  }

  lemma AddShows(w: R.World, c: Cast, k: Sketch, room: nat, a: nat)
    requires Shows(w, c, k, room) && room < MAX_PANES_PER_WINDOW && Next(k, Add(a))
    ensures Shows(R.Step(w, EventOf(c, Add(a))), c, SketchStep(k, Add(a)), room + 1)
  {
    hide AddPane, Room, Count;
    var i := c.splits[a];
    RoomAfterAdd(w.splits.session, c.name, w.splits.procs[i].pane, room);
    CountOfAdd(w.splits.session, c.name, w.splits.procs[i].pane, c.id);
  }

  lemma RegisterShows(w: R.World, c: Cast, k: Sketch, room: nat, a: nat)
    requires Shows(w, c, k, room) && Next(k, Register(a))
    ensures Shows(R.Step(w, EventOf(c, Register(a))), c, SketchStep(k, Register(a)), room)
  {
    hide Room, Count;
  }

  lemma RollbackShows(w: R.World, c: Cast, k: Sketch, room: nat, a: nat)
    requires Shows(w, c, k, room) && Next(k, Rollback(a))
    ensures Shows(R.Step(w, EventOf(c, Rollback(a))), c, SketchStep(k, Rollback(a)), room)
  {
    hide RemovePane, Room, Count;
    RoomAfterRemove(w.splits.session, c.name, c.id, room);
    CountOfRemove(w.splits.session, c.id, c.id);
  }

  lemma RemoveShows(w: R.World, c: Cast, k: Sketch, room: nat, b: nat)
    requires Shows(w, c, k, room) && Next(k, Remove(b))
    ensures Shows(R.Step(w, EventOf(c, Remove(b))), c, SketchStep(k, Remove(b)), room)
  {
    hide RemovePane, Room, Count;
    RoomAfterRemove(w.splits.session, c.name, c.id, room);
    CountOfRemove(w.splits.session, c.id, c.id);
  }

  lemma DeregisterShows(w: R.World, c: Cast, k: Sketch, room: nat, b: nat)
    requires Shows(w, c, k, room) && Next(k, Deregister(b))
    ensures Shows(R.Step(w, EventOf(c, Deregister(b))), c, SketchStep(k, Deregister(b)), room)
  {
    hide Room, Count;
  }

  lemma RoomGrows(w: R.World, c: Cast, k: Sketch, room: nat)
    requires Shows(w, c, k, room)
    ensures Shows(w, c, k, room + 1)
  {
    hide Phases;
  }

  lemma MoveShows(w: R.World, c: Cast, k: Sketch, room: nat, m: Move)
    requires Shows(w, c, k, room) && room < MAX_PANES_PER_WINDOW && Next(k, m)
    ensures InCast(c, m)
    ensures Shows(R.Step(w, EventOf(c, m)), c, SketchStep(k, m), room + 1)
  {
    hide R.Step, SketchStep, Room, Count;
    var w', k' := R.Step(w, EventOf(c, m)), SketchStep(k, m);
    match m
    case Add(a) => AddShows(w, c, k, room, a);
    case Register(a) => RegisterShows(w, c, k, room, a); RoomGrows(w', c, k', room);
    case Rollback(a) => RollbackShows(w, c, k, room, a); RoomGrows(w', c, k', room);
    case Remove(b) => RemoveShows(w, c, k, room, b); RoomGrows(w', c, k', room);
    case Deregister(b) => DeregisterShows(w, c, k, room, b); RoomGrows(w', c, k', room);
  }

  /** The moves of a sketch that come next when their turn comes have a schedule in the world. */
  lemma {:induction false} MovesShow(w: R.World, c: Cast, k: Sketch, room: nat, ms: seq<Move>)
      returns (es: seq<R.Event>)
    requires Shows(w, c, k, room) && room + |ms| <= MAX_PANES_PER_WINDOW
    ensures Shows(R.Run(w, es), c, SketchRun(k, ms), room + |ms|)
    decreases |ms|
  {
    hide R.Step, SketchStep, Shows, Next;
    if ms == [] {
      es := [];
    } else if Next(k, ms[0]) {
      MoveShows(w, c, k, room, ms[0]);
      var e := EventOf(c, ms[0]);
      var rest := MovesShow(R.Step(w, e), c, SketchStep(k, ms[0]), room + 1, ms[1..]);
      es := [e] + rest;
    } else {
      SketchStays(k, ms[0]);
      RoomGrows(w, c, k, room);
      es := MovesShow(w, c, k, room + 1, ms[1..]);
    }
  }

  lemma SketchStays(k: Sketch, m: Move)
    requires !Next(k, m)
    ensures SketchStep(k, m) == k
  {}

  /** No pane of a session's windows has this name for its window. */
  lemma {:induction false} FreshName(ws: seq<Window>) returns (name: string)
    ensures name != "" && forall k :: 0 <= k < |ws| ==> |ws[k].name| < |name|
  {
    name := "w";
    if ws != [] {
      var rest := FreshName(ws[1..]);
      name := rest + ws[0].name + "w";
      forall k | 0 <= k < |ws| ensures |ws[k].name| < |name| {
        if k > 0 { assert ws[k] == ws[1..][k - 1]; }
      }
    }
  }

  /** After a new window is made, the requests of a cast are all still to come. */
  lemma CastShows(w0: R.World, c: Cast)
    requires R.Start(w0) && Casts(w0, c) && c.name != ""
    requires forall k :: 0 <= k < |w0.splits.session.windows| ==> w0.splits.session.windows[k].name != c.name
    ensures var k := Sketch(Count(w0.splits.session.windows, c.id), c.id in w0.splits.ids,
                            seq(|c.splits|, _ => Splits.Waiting), seq(|c.closes|, _ => R.Waiting));
            Shows(R.Step(w0, R.Split(Splits.OtherCreate(c.name))), c, k, 0)
  {
    hide Count;
    var ws := w0.splits.session.windows;
    Splits.OtherKeepsCounts(w0.splits, Splits.OtherCreate(c.name), c.id);
    assert WindowIndex(ws, c.name) == |ws|;
    FirstNamed(ws + [Window(c.name, [])], c.name, |ws|);
  }

  /** The moves that leave a pane without a pipeline: two splits and two closes of a pane that is there. */
  function BadMoves(): seq<Move> {
    FirstMoves() + LastMoves()
  }

  function FirstMoves(): seq<Move> {
    [Remove(0), Rollback(2), Add(0), Remove(1), Register(0)]
  }

  function LastMoves(): seq<Move> {
    [Rollback(0), Deregister(1), Add(1), Register(1), Deregister(0)]
  }

  /** The fields of a sketch of two or three splits and two closes. */
  predicate Looks(k: Sketch, panes: nat, registered: bool, s0: Splits.Phase, s1: Splits.Phase, c0: R.Phase,
                  c1: R.Phase) {
    && k.panes == panes && k.registered == registered
    && 2 <= |k.splits| <= 3 && k.splits[0] == s0 && k.splits[1] == s1
    && |k.closes| == 2 && k.closes[0] == c0 && k.closes[1] == c1
  }

  predicate Third(k: Sketch, rolledBack: bool) {
    |k.splits| == 3 ==>
      k.splits[2] == Splits.Succeeded || k.splits[2] == (if rolledBack then Splits.RolledBack else Splits.RollingBack)
  }

  lemma {:induction false} SketchTrace(k: Sketch, ms: seq<Move>) returns (ks: seq<Sketch>)
    ensures |ks| == |ms| + 1 && ks[0] == k && ks[|ms|] == SketchRun(k, ms)
    ensures forall i :: 0 <= i < |ms| ==> ks[i + 1] == SketchStep(ks[i], ms[i])
    decreases |ms|
  {
    hide SketchStep;
    if ms == [] {
      ks := [k];
    } else {
      var rest := SketchTrace(SketchStep(k, ms[0]), ms[1..]);
      ks := [k] + rest;
      forall i | 0 <= i < |ms| ensures ks[i + 1] == SketchStep(ks[i], ms[i]) {
        if i > 0 { assert rest[i] == SketchStep(rest[i - 1], ms[1..][i - 1]); }
      }
    }
  }

  lemma {:induction false} SketchConcat(k: Sketch, a: seq<Move>, b: seq<Move>)
    ensures SketchRun(k, a + b) == SketchRun(SketchRun(k, a), b)
    decreases |a|
  {
    hide SketchStep;
    if a == [] {
      assert a + b == b;
    } else {
      assert (a + b)[1..] == a[1..] + b;
      SketchConcat(SketchStep(k, a[0]), a[1..], b);
    }
  }

  /** A third split that has registered or lost is rolled back, if need be, when the first close has taken its pane. */
  lemma FirstMovesEnd(k: Sketch)
    requires Looks(k, 1, true, Splits.Waiting, Splits.Waiting, R.Waiting, R.Waiting) && Third(k, false)
    ensures var k' := SketchRun(k, FirstMoves());
            Looks(k', 0, true, Splits.RollingBack, Splits.Waiting, R.Removed, R.Removed) && Third(k', true)
  {
    var ks := SketchTrace(k, FirstMoves());
    hide SketchRun;
    assert Looks(ks[1], 0, true, Splits.Waiting, Splits.Waiting, R.Removed, R.Waiting) && Third(ks[1], false);
    assert Looks(ks[2], 0, true, Splits.Waiting, Splits.Waiting, R.Removed, R.Waiting) && Third(ks[2], true);
    assert Looks(ks[3], 1, true, Splits.Added, Splits.Waiting, R.Removed, R.Waiting) && Third(ks[3], true);
    assert Looks(ks[4], 0, true, Splits.Added, Splits.Waiting, R.Removed, R.Removed) && Third(ks[4], true);
    assert Looks(ks[5], 0, true, Splits.RollingBack, Splits.Waiting, R.Removed, R.Removed) && Third(ks[5], true);
  }

  lemma LastMovesEnd(k: Sketch)
    requires Looks(k, 0, true, Splits.RollingBack, Splits.Waiting, R.Removed, R.Removed) && Third(k, true)
    ensures var k' := SketchRun(k, LastMoves());
            Looks(k', 1, false, Splits.RolledBack, Splits.Succeeded, R.Closed, R.Closed) && Third(k', true)
  {
    var ks := SketchTrace(k, LastMoves());
    hide SketchRun;
    assert Looks(ks[1], 0, true, Splits.RolledBack, Splits.Waiting, R.Removed, R.Removed) && Third(ks[1], true);
    assert Looks(ks[2], 0, false, Splits.RolledBack, Splits.Waiting, R.Removed, R.Closed) && Third(ks[2], true);
    assert Looks(ks[3], 1, false, Splits.RolledBack, Splits.Added, R.Removed, R.Closed) && Third(ks[3], true);
    assert Looks(ks[4], 1, true, Splits.RolledBack, Splits.Succeeded, R.Removed, R.Closed) && Third(ks[4], true);
    assert Looks(ks[5], 1, false, Splits.RolledBack, Splits.Succeeded, R.Closed, R.Closed) && Third(ks[5], true);
  }

  lemma BadMovesEnd(k: Sketch)
    requires Looks(k, 1, true, Splits.Waiting, Splits.Waiting, R.Waiting, R.Waiting) && Third(k, false)
    ensures var k' := SketchRun(k, BadMoves());
            Looks(k', 1, false, Splits.RolledBack, Splits.Succeeded, R.Closed, R.Closed) && Third(k', true)
  {
    hide SketchRun, Looks, Third, FirstMoves, LastMoves;
    FirstMovesEnd(k);
    LastMovesEnd(SketchRun(k, FirstMoves()));
    SketchConcat(k, FirstMoves(), LastMoves());
  }

  /** Without a pane the third split first adds one, and registers it unless a pipeline was stranded before. */
  lemma ThirdMovesFirst(k: Sketch)
    requires Looks(k, 0, k.registered, Splits.Waiting, Splits.Waiting, R.Waiting, R.Waiting)
    requires |k.splits| == 3 && k.splits[2] == Splits.Waiting
    ensures var k' := SketchStep(SketchStep(k, Add(2)), Register(2));
            Looks(k', 1, true, Splits.Waiting, Splits.Waiting, R.Waiting, R.Waiting) && Third(k', false)
    ensures SketchRun(k, [Add(2), Register(2)] + BadMoves()) ==
            SketchRun(SketchStep(SketchStep(k, Add(2)), Register(2)), BadMoves())
  {
    var ms := [Add(2), Register(2)] + BadMoves();
    assert ms[1..] == [Register(2)] + BadMoves() && ms[1..][1..] == BadMoves();
  }

  /** The end of a bad schedule: nothing is under way, and the pane has no pipeline. */
  lemma BadEnd(w: R.World, c: Cast, k: Sketch, room: nat)
    requires Shows(w, c, k, room) && Third(k, true)
    requires Looks(k, 1, false, Splits.RolledBack, Splits.Succeeded, R.Closed, R.Closed)
    ensures R.Quiescent(w) && Count(w.splits.session.windows, c.id) == 1 && c.id !in w.splits.ids
  {
    hide Count, Room;
    forall i | 0 <= i < |w.splits.procs| ensures !Splits.InFlight(w.splits.procs[i]) {
      if i in c.splits {
        var a :| 0 <= a < |c.splits| && c.splits[a] == i;
        assert w.splits.procs[i].phase == k.splits[a];
      }
    }
    forall j | 0 <= j < |w.closers| ensures w.closers[j].phase != R.Removed {
      if j in c.closes {
        var b :| 0 <= b < |c.closes| && c.closes[b] == j;
        assert w.closers[j].phase == k.closes[b];
      }
    }
  }

  lemma {:induction false} RunThen(w: R.World, e: R.Event, es: seq<R.Event>)
    ensures R.Run(w, [e] + es) == R.Run(R.Step(w, e), es)
  {
    assert ([e] + es)[1..] == es;
  }

  /** Two closes, and two splits, or three where there is no pane to begin with: some schedule breaks the invariant. */
  lemma CastBreaks(w0: R.World, c: Cast) returns (es: seq<R.Event>)
    requires R.Start(w0) && Casts(w0, c) && |c.closes| == 2 && c.name != ""
    requires forall k :: 0 <= k < |w0.splits.session.windows| ==> w0.splits.session.windows[k].name != c.name
    requires |c.splits| == (if Count(w0.splits.session.windows, c.id) == 0 then 3 else 2)
    ensures var w := R.Run(w0, es);
            R.Quiescent(w) && Count(w.splits.session.windows, c.id) == 1 && c.id !in w.splits.ids
  {
    hide R.Step, R.Run, R.Quiescent, SketchStep, SketchRun, Shows, Count, Casts;
    var e := R.Split(Splits.OtherCreate(c.name));
    var k := Sketch(Count(w0.splits.session.windows, c.id), c.id in w0.splits.ids,
                    seq(|c.splits|, _ => Splits.Waiting), seq(|c.closes|, _ => R.Waiting));
    CastShows(w0, c);
    PanesAtStart(w0, c.id);
    var ms := BadMoves();
    if |c.splits| == 3 {
      ThirdMovesFirst(k);
      BadMovesEnd(SketchStep(SketchStep(k, Add(2)), Register(2)));
      ms := [Add(2), Register(2)] + ms;
    } else {
      BadMovesEnd(k);
    }
    var rest := MovesShow(R.Step(w0, e), c, k, 0, ms);
    es := [e] + rest;
    RunThen(w0, e, rest);
    BadEnd(R.Run(R.Step(w0, e), rest), c, SketchRun(k, ms), |ms|);
  }

  lemma PanesAtStart(w: R.World, id: TargetID)
    requires R.Start(w)
    ensures Count(w.splits.session.windows, id) <= 1
    ensures Count(w.splits.session.windows, id) > 0 ==> id in w.splits.ids
  {
    hide Count;
  }

  lemma CastIs(w: R.World, c: Cast)
    requires |c.closes| == 2 && c.closes[0] < c.closes[1] < |w.closers|
    requires w.closers[c.closes[0]].id == c.id && w.closers[c.closes[1]].id == c.id
    requires 2 <= |c.splits| <= 3 && c.splits[0] < c.splits[1] < |w.splits.procs|
    requires w.splits.procs[c.splits[0]].pane.id == c.id && w.splits.procs[c.splits[1]].pane.id == c.id
    requires |c.splits| == 3 ==>
               c.splits[1] < c.splits[2] < |w.splits.procs| && w.splits.procs[c.splits[2]].pane.id == c.id
    ensures Casts(w, c)
  {}

  lemma TwoCloses(cs: seq<R.Closer>, id: TargetID) returns (i: nat, j: nat)
    requires !OneClose(cs, id)
    ensures i < j < |cs| && cs[i].id == id && cs[j].id == id
  {
    i, j :| 0 <= i < j < |cs| && cs[i].id == id && cs[j].id == id;
  }

  lemma TwoOfThem(ps: seq<Splits.Proc>, id: TargetID) returns (a: nat, b: nat)
    requires !OneSplit(ps, id)
    ensures a < b < |ps| && ps[a].pane.id == id && ps[b].pane.id == id
  {
    a, b :| 0 <= a < b < |ps| && ps[a].pane.id == id && ps[b].pane.id == id;
  }

  lemma ThreeOfThem(ps: seq<Splits.Proc>, id: TargetID) returns (a: nat, b: nat, d: nat)
    requires !TwoSplits(ps, id)
    ensures a < b < d < |ps| && ps[a].pane.id == id && ps[b].pane.id == id && ps[d].pane.id == id
  {
    a, b, d :| 0 <= a < b < d < |ps| && ps[a].pane.id == id && ps[b].pane.id == id && ps[d].pane.id == id;
  }

  lemma LongerIsOther(ws: seq<Window>, name: string)
    requires forall k :: 0 <= k < |ws| ==> |ws[k].name| < |name|
    ensures forall k :: 0 <= k < |ws| ==> ws[k].name != name
  {}

  lemma WildHasACast(w: R.World, id: TargetID) returns (c: Cast)
    requires !Tame(w, id)
    ensures Casts(w, c) && c.id == id && |c.closes| == 2
    ensures |c.splits| == (if Count(w.splits.session.windows, id) == 0 then 3 else 2)
    ensures c.name != ""
    ensures forall k :: 0 <= k < |w.splits.session.windows| ==> w.splits.session.windows[k].name != c.name
  {
    hide Count, Casts, OneClose, OneSplit, TwoSplits;
    var name := FreshName(w.splits.session.windows);
    LongerIsOther(w.splits.session.windows, name);
    var i, j := TwoCloses(w.closers, id);
    if Count(w.splits.session.windows, id) == 0 {
      var a, b, d := ThreeOfThem(w.splits.procs, id);
      c := Cast(id, name, [a, b, d], [i, j]);
    } else {
      var a, b := TwoOfThem(w.splits.procs, id);
      c := Cast(id, name, [a, b], [i, j]);
    }
    CastIs(w, c);
  }

  /** Every schedule that leaves nothing under way ends with the session invariant. */
  ghost predicate Safe(w0: R.World, layouts: map<string, Session>) {
    forall es :: R.Quiescent(R.Run(w0, es)) ==>
      Inv(Core(R.Run(w0, es).splits.session, R.Run(w0, es).splits.ids, layouts))
  }

  /** Splits and pane closes are safe under every schedule exactly when every id they name has at most one close, or at
      most one split, or at most two splits and no pane to begin with. */
  lemma SafeIff(w0: R.World, layouts: map<string, Session>)
    requires R.Start(w0) && forall name :: name in layouts ==> WellFormed(layouts[name])
    ensures Safe(w0, layouts) <==> forall id :: Tame(w0, id)
  {
    hide R.Start, R.Run, R.Quiescent, Tame, Count, Inv, Casts;
    if forall id :: Tame(w0, id) {
      forall es | R.Quiescent(R.Run(w0, es))
        ensures Inv(Core(R.Run(w0, es).splits.session, R.Run(w0, es).splits.ids, layouts))
      {
        TameIsSafe(w0, es, layouts);
      }
    } else {
      var id :| !Tame(w0, id);
      var c := WildHasACast(w0, id);
      var es := CastBreaks(w0, c);
      Broken(Core(R.Run(w0, es).splits.session, R.Run(w0, es).splits.ids, layouts), id);
    }
  }

  lemma Broken(c: Core, id: TargetID)
    requires Count(c.session.windows, id) == 1 && id !in c.ids
    ensures !Inv(c)
  {}

  /** One schedule of tame requests. */
  lemma TameIsSafe(w0: R.World, es: seq<R.Event>, layouts: map<string, Session>)
    requires R.Start(w0) && R.Quiescent(R.Run(w0, es)) && forall id :: Tame(w0, id)
    requires forall name :: name in layouts ==> WellFormed(layouts[name])
    ensures Inv(Core(R.Run(w0, es).splits.session, R.Run(w0, es).splits.ids, layouts))
  {
    hide R.Start, R.Run, R.Quiescent, Tame, Count, Inv;
    var w := R.Run(w0, es);
    R.StartIsSound(w0);
    R.RunKeepsSound(w0, es);
    forall id ensures Count(w.splits.session.windows, id) <= if id in w.splits.ids then 1 else 0 {
      TameSettles(w0, es, id);
    }
    R.InvIs(Core(w.splits.session, w.splits.ids, layouts));
  }

  /** A window with one pane, and two closes and two splits that name its id. */
  function Racing(p: Pane): R.World {
    var split, close := Splits.Proc(p, Splits.Waiting), R.Closer(p.id, R.Waiting);
    R.World(Splits.World(Session([Window("w", [p])], 0), {p.id}, [split, split]), [close, close],
            multiset{}, multiset{})
  }

  lemma RacingStarts(p: Pane)
    ensures R.Start(Racing(p)) && Count(Racing(p).splits.session.windows, p.id) == 1
  {
    var ws := Racing(p).splits.session.windows;
    forall id ensures Count(ws, id) == (if id == p.id then 1 else 0) {
      assert ws[1..] == [] && [p][1..] == [];
      assert CountIn([p], id) == (if id == p.id then 1 else 0);
    }
  }

  /** Both closes take a pane each, the first split's rollback finds none left, and the last deregistration takes the
      second split's pipeline: its pane is left without one. */
  lemma RaceLosesAPipeline(p: Pane) returns (es: seq<R.Event>)
    ensures var w := R.Run(Racing(p), es);
            R.Start(Racing(p)) && R.Quiescent(w) && Count(w.splits.session.windows, p.id) == 1 && p.id !in w.splits.ids
  {
    hide R.Start, R.Run, Count;
    RacingStarts(p);
    var c := Cast(p.id, "v", [0, 1], [0, 1]);
    es := CastBreaks(Racing(p), c);
  }
}
