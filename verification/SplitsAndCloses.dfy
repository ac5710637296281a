/** Splits and pane closes running at once. Closing a pane, too, locks the manager and the router one after the other:
    it removes the pane first and deregisters the pipeline later. */
module SplitsAndCloses {
  import opened Wrappers
  import opened SessionModel
  import opened SessionTheorems
  import Splits

  datatype Phase = Waiting | Missing | Removed | Closed

  datatype Closer = Closer(id: TargetID, phase: Phase)

  /** `missedRollbacks` are the ids of rollbacks that found no pane to remove, `missedDeregisters` those of
      deregistrations that found no pipeline. */
  datatype World = World(splits: Splits.World, closers: seq<Closer>,
                         missedRollbacks: multiset<TargetID>, missedDeregisters: multiset<TargetID>)

  datatype Event =
    | Split(e: Splits.Event)
    | Remove(j: nat)
    | Deregister(j: nat)

  /** The step is a rollback that finds no pane. */
  predicate MissesPane(w: Splits.World, e: Splits.Event) {
    && e.Rollback? && e.i < |w.procs| && w.procs[e.i].phase == Splits.RollingBack
    && RemovePane(w.session, w.procs[e.i].pane.id).None?
  }

  function At(w: World, j: nat, phase: Phase): World
    requires j < |w.closers|
  {
    w.(closers := w.closers[j := w.closers[j].(phase := phase)])
  }

  function Step(w: World, e: Event): World {
    match e
    case Split(x) =>
      var w' := w.(splits := Splits.Step(w.splits, x));
      if MissesPane(w.splits, x) then w'.(missedRollbacks := w.missedRollbacks + multiset{w.splits.procs[x.i].pane.id})
      else w'
    case Remove(j) =>
      if j >= |w.closers| || w.closers[j].phase != Waiting then w
      else
        var r := RemovePane(w.splits.session, w.closers[j].id);
        if r.None? then At(w, j, Missing) else At(w, j, Removed).(splits := w.splits.(session := r.value))
    case Deregister(j) =>
      if j >= |w.closers| || w.closers[j].phase != Removed then w
      else
        var id := w.closers[j].id;
        var w' := At(w, j, Closed).(splits := w.splits.(ids := w.splits.ids - {id}));
        if id in w.splits.ids then w' else w'.(missedDeregisters := w.missedDeregisters + multiset{id})
  }

  function Run(w: World, es: seq<Event>): World
    decreases |es|
  {
    if es == [] then w else Run(Step(w, es[0]), es[1..])
  }

  /** How many closes of the id have removed a pane and not deregistered yet. */
  function Closing(cs: seq<Closer>, id: TargetID): nat {
    if cs == [] then 0 else (if cs[0].phase == Removed && cs[0].id == id then 1 else 0) + Closing(cs[1..], id)
  }

  function Registered(w: World, id: TargetID): nat {
    if id in w.splits.ids then 1 else 0
  }

  /** Panes and closes under way on one side, splits under way and the pipeline on the other: no step changes the
      balance, once what the missed halves leave undone is counted. */
  function Balance(w: World, id: TargetID): int {
    Count(w.splits.session.windows, id) + Closing(w.closers, id) + w.missedDeregisters[id]
    - Splits.Unsettled(w.splits.procs, id) - Registered(w, id) - w.missedRollbacks[id]
  }

  lemma {:induction false} ClosingUpdate(cs: seq<Closer>, j: nat, c: Closer, id: TargetID)
    requires j < |cs|
    ensures Closing(cs[j := c], id) ==
            Closing(cs, id) - (if cs[j].phase == Removed && cs[j].id == id then 1 else 0)
                            + (if c.phase == Removed && c.id == id then 1 else 0)
  {
    if j == 0 {
      assert cs[j := c][1..] == cs[1..];
    } else {
      ClosingUpdate(cs[1..], j - 1, c, id);
      assert cs[j := c][1..] == cs[1..][j - 1 := c];
    }
  }

  lemma AddKeepsBalance(w: World, i: nat, name: string, id: TargetID)
    ensures Balance(Step(w, Split(Splits.Add(i, name))), id) == Balance(w, id)
  {
    var u, u' := w.splits, Splits.Step(w.splits, Splits.Add(i, name));
    if i < |u.procs| && u.procs[i].phase == Splits.Waiting {
      Splits.UnsettledUpdate(u.procs, i, u'.procs[i], id);
      if u'.procs[i].phase == Splits.Added { CountOfAdd(u.session, name, u.procs[i].pane, id); }
    }
  }

  lemma RegisterKeepsBalance(w: World, i: nat, id: TargetID)
    ensures Balance(Step(w, Split(Splits.Register(i))), id) == Balance(w, id)
  {
    var u, u' := w.splits, Splits.Step(w.splits, Splits.Register(i));
    if i < |u.procs| && u.procs[i].phase == Splits.Added { Splits.UnsettledUpdate(u.procs, i, u'.procs[i], id); }
  }

  lemma RollbackKeepsBalance(w: World, i: nat, id: TargetID)
    ensures Balance(Step(w, Split(Splits.Rollback(i))), id) == Balance(w, id)
  {
    var u, u' := w.splits, Splits.Step(w.splits, Splits.Rollback(i));
    if i < |u.procs| && u.procs[i].phase == Splits.RollingBack {
      var lost := u.procs[i].pane.id;
      Splits.UnsettledUpdate(u.procs, i, u'.procs[i], id);
      CountOfRemove(u.session, lost, id);
      CountOfRemove(u.session, lost, lost);
    }
  }

  lemma OtherKeepsBalance(w: World, e: Splits.Event, id: TargetID)
    requires e.OtherCreate? || e.OtherRename? || e.OtherFocus?
    ensures Balance(Step(w, Split(e)), id) == Balance(w, id)
  {
    Splits.OtherKeepsCounts(w.splits, e, id);
  }

  lemma RemoveKeepsBalance(w: World, j: nat, id: TargetID)
    ensures Balance(Step(w, Remove(j)), id) == Balance(w, id)
  {
    if j < |w.closers| && w.closers[j].phase == Waiting {
      var lost := w.closers[j].id;
      ClosingUpdate(w.closers, j, Step(w, Remove(j)).closers[j], id);
      CountOfRemove(w.splits.session, lost, id);
      CountOfRemove(w.splits.session, lost, lost);
    }
  }

  lemma DeregisterKeepsBalance(w: World, j: nat, id: TargetID)
    ensures Balance(Step(w, Deregister(j)), id) == Balance(w, id)
  {
    if j < |w.closers| && w.closers[j].phase == Removed {
      ClosingUpdate(w.closers, j, Step(w, Deregister(j)).closers[j], id);
    }
  }

  lemma StepKeepsBalance(w: World, e: Event, id: TargetID)
    ensures Balance(Step(w, e), id) == Balance(w, id)
  {
    hide Balance, Step;
    match e
    case Split(x) =>
      match x {
        case Add(i, name) => AddKeepsBalance(w, i, name, id);
        case Register(i) => RegisterKeepsBalance(w, i, id);
        case Rollback(i) => RollbackKeepsBalance(w, i, id);
        case _ => OtherKeepsBalance(w, x, id);
      }
    case Remove(j) => RemoveKeepsBalance(w, j, id);
    case Deregister(j) => DeregisterKeepsBalance(w, j, id);
  }

  /** In every interleaving, for every id, whatever is missed. */
  lemma {:induction false} RunKeepsBalance(w: World, es: seq<Event>, id: TargetID)
    ensures Balance(Run(w, es), id) == Balance(w, id)
    decreases |es|
  {
    hide Balance, Step;
    if es != [] {
      StepKeepsBalance(w, es[0], id);
      RunKeepsBalance(Step(w, es[0]), es[1..], id);
    }
  }

  lemma StepKeepsSound(w: World, e: Event)
    requires Splits.Sound(w.splits.session)
    ensures Splits.Sound(Step(w, e).splits.session)
  {
    match e
    case Split(x) => Splits.StepIsSound(w.splits, x);
    case Remove(j) =>
      if j < |w.closers| {
        RemoveShrinks(w.splits.session, w.closers[j].id);
        NoBiggerKeepsShape(w.splits.session.windows,
            RemovePane(w.splits.session, w.closers[j].id).GetOr(w.splits.session).windows);
      }
    case Deregister(_) =>
  }

  lemma {:induction false} RunKeepsSound(w: World, es: seq<Event>)
    requires Splits.Sound(w.splits.session)
    ensures Splits.Sound(Run(w, es).splits.session)
    decreases |es|
  {
    hide Step;
    if es != [] {
      StepKeepsSound(w, es[0]);
      RunKeepsSound(Step(w, es[0]), es[1..]);
    }
  }

  ghost predicate Start(w: World) {
    && Splits.Start(w.splits)
    && (forall j :: 0 <= j < |w.closers| ==> w.closers[j].phase == Waiting)
    && w.missedRollbacks == multiset{} && w.missedDeregisters == multiset{}
  }

  /** No split and no close is between its halves. */
  ghost predicate Quiescent(w: World) {
    Splits.Quiescent(w.splits) && forall j :: 0 <= j < |w.closers| ==> w.closers[j].phase != Removed
  }

  lemma {:induction false} NoneClosing(cs: seq<Closer>, id: TargetID)
    requires forall j :: 0 <= j < |cs| ==> cs[j].phase != Removed
    ensures Closing(cs, id) == 0
  {
    if cs != [] { NoneClosing(cs[1..], id); }
  }

  lemma QuiescentBalance(w: World, id: TargetID)
    requires Quiescent(w)
    ensures Balance(w, id) ==
            Count(w.splits.session.windows, id) - Registered(w, id) + w.missedDeregisters[id] - w.missedRollbacks[id]
  {
    NoneClosing(w.closers, id);
    Splits.NoneInFlight(w.splits.procs, id);
  }

  lemma StartIsQuiescent(w: World)
    requires Start(w)
    ensures Quiescent(w)
  {}

  /** The pipelines that had no pane to begin with. */
  function Stranded(w: World, id: TargetID): int {
    Registered(w, id) - Count(w.splits.session.windows, id)
  }

  /** Once nothing is under way, an id has more panes than pipelines by its missed rollbacks, less its missed
      deregistrations and what was stranded before. */
  lemma Settlement(w0: World, es: seq<Event>, id: TargetID)
    requires Start(w0) && Quiescent(Run(w0, es))
    ensures var w := Run(w0, es);
            Count(w.splits.session.windows, id) - Registered(w, id) ==
            w.missedRollbacks[id] - w.missedDeregisters[id] - Stranded(w0, id)
  {
    hide Run, Balance, Start, Quiescent;
    StartIsQuiescent(w0);
    RunKeepsBalance(w0, es, id);
    QuiescentBalance(w0, id);
    QuiescentBalance(Run(w0, es), id);
    assert w0.missedRollbacks[id] == 0 && w0.missedDeregisters[id] == 0 by { NothingMissed(w0, id); }
  }

  lemma NothingMissed(w: World, id: TargetID)
    requires Start(w)
    ensures w.missedRollbacks[id] == 0 && w.missedDeregisters[id] == 0
  {}

  /** The session invariant holds again exactly when no id has more missed rollbacks than missed deregistrations and
      pipelines stranded before. */
  lemma QuiescenceRestoresInvIff(w0: World, es: seq<Event>, layouts: map<string, Session>)
    requires Start(w0) && Quiescent(Run(w0, es))
    requires forall name :: name in layouts ==> WellFormed(layouts[name])
    ensures var w := Run(w0, es);
            Inv(Core(w.splits.session, w.splits.ids, layouts)) <==>
            forall id :: w.missedRollbacks[id] <= w.missedDeregisters[id] + Stranded(w0, id)
  {
    hide Run, Quiescent, Count, Start, Splits.Start;
    var w := Run(w0, es);
    StartIsSound(w0);
    RunKeepsSound(w0, es);
    forall id ensures Count(w.splits.session.windows, id) <= Registered(w, id) <==>
                      w.missedRollbacks[id] <= w.missedDeregisters[id] + Stranded(w0, id)
    {
      Settlement(w0, es, id);
    }
    InvIs(Core(w.splits.session, w.splits.ids, layouts));
  }

  lemma StartIsSound(w: World)
    requires Start(w)
    ensures Splits.Sound(w.splits.session)
  {}

  lemma InvIs(c: Core)
    requires Splits.Sound(c.session) && forall name :: name in c.layouts ==> WellFormed(c.layouts[name])
    ensures Inv(c) <==> forall id :: Count(c.session.windows, id) <= if id in c.ids then 1 else 0
  {
    hide Count, Shaped;
    if Inv(c) {
      forall id ensures Count(c.session.windows, id) <= if id in c.ids then 1 else 0 {
        assert Count(c.session.windows, id) <= 1;
      }
    } else if forall id :: Count(c.session.windows, id) <= if id in c.ids then 1 else 0 {
      assert forall id :: Count(c.session.windows, id) <= 1;
      assert false;
    }
  }

  /** A rollback misses its pane only behind a close of the same id that is under way, or that found no pipeline. */
  lemma MissNeedsAClose(w0: World, es: seq<Event>, e: Splits.Event)
    requires Start(w0) && MissesPane(Run(w0, es).splits, e)
    requires Stranded(w0, Run(w0, es).splits.procs[e.i].pane.id) == 0
    ensures var w, id := Run(w0, es), Run(w0, es).splits.procs[e.i].pane.id;
            Closing(w.closers, id) + w.missedDeregisters[id] > 0
  {
    hide Run;
    var w := Run(w0, es);
    var id := w.splits.procs[e.i].pane.id;
    RunKeepsBalance(w0, es, id);
    StartIsQuiescent(w0);
    QuiescentBalance(w0, id);
    NothingMissed(w0, id);
    Splits.UnsettledUpdate(w.splits.procs, e.i, w.splits.procs[e.i], id);
    CountOfRemove(w.splits.session, id, id);
  }
}
