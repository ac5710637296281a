/** Any number of splits running at once. The handler locks the manager and the router separately, so adding the pane,
    registering the pipeline and the rollback are separate steps and interleave freely. */
module Splits {
  import opened Wrappers
  import opened SessionModel
  import opened SessionTheorems

  datatype Phase = Waiting | NotAdded | Added | Succeeded | RollingBack | RolledBack

  /** One split: the pane it adds and how far it got. */
  datatype Proc = Proc(pane: Pane, phase: Phase)

  datatype World = World(session: Session, ids: set<TargetID>, procs: seq<Proc>)

  datatype Event =
    | Add(i: nat, windowName: string)
    | Register(i: nat)
    | Rollback(i: nat)
    | OtherCreate(name: string)
    | OtherRename(name: string, newName: string)
    | OtherFocus(name: string)

  function At(w: World, i: nat, phase: Phase): World
    requires i < |w.procs|
  {
    w.(procs := w.procs[i := w.procs[i].(phase := phase)])
  }

  /** One locked step; a step that is not the split's next one does nothing. The window a split adds to is whatever
      name its parent's window has by then. */
  function Step(w: World, e: Event): World {
    match e
    case Add(i, name) =>
      if i >= |w.procs| || w.procs[i].phase != Waiting then w
      else
        var r := AddPane(w.session, name, w.procs[i].pane);
        if r.None? then At(w, i, NotAdded) else At(w, i, Added).(session := r.value)
    case Register(i) =>
      if i >= |w.procs| || w.procs[i].phase != Added then w
      else if w.procs[i].pane.id in w.ids then At(w, i, RollingBack)
      else At(w, i, Succeeded).(ids := w.ids + {w.procs[i].pane.id})
    case Rollback(i) =>
      if i >= |w.procs| || w.procs[i].phase != RollingBack then w
      else At(w, i, RolledBack).(session := RemovePane(w.session, w.procs[i].pane.id).GetOr(w.session))
    case OtherCreate(name) => w.(session := CreateWindow(w.session, name).GetOr(w.session))
    case OtherRename(name, newName) => w.(session := RenameWindow(w.session, name, newName).GetOr(w.session))
    case OtherFocus(name) => w.(session := FocusWindow(w.session, name).GetOr(w.session))
  }

  function Run(w: World, es: seq<Event>): World
    decreases |es|
  {
    if es == [] then w else Run(Step(w, es[0]), es[1..])
  }

  predicate InFlight(p: Proc) {
    p.phase == Added || p.phase == RollingBack
  }

  /** How many splits have added a pane with this id and not settled yet. */
  function Unsettled(ps: seq<Proc>, id: TargetID): nat {
    if ps == [] then 0 else (if InFlight(ps[0]) && ps[0].pane.id == id then 1 else 0) + Unsettled(ps[1..], id)
  }

  ghost predicate Won(ps: seq<Proc>, id: TargetID) {
    exists i :: 0 <= i < |ps| && ps[i].phase == Succeeded && ps[i].pane.id == id
  }

  lemma {:induction false} UnsettledUpdate(ps: seq<Proc>, i: nat, p: Proc, id: TargetID)
    requires i < |ps|
    ensures Unsettled(ps[i := p], id) ==
            Unsettled(ps, id) - (if InFlight(ps[i]) && ps[i].pane.id == id then 1 else 0)
                              + (if InFlight(p) && p.pane.id == id then 1 else 0)
    ensures InFlight(ps[i]) && ps[i].pane.id == id ==> Unsettled(ps, id) > 0
  {
    if i == 0 {
      assert ps[i := p][1..] == ps[1..];
    } else {
      UnsettledUpdate(ps[1..], i - 1, p, id);
      assert ps[i := p][1..] == ps[1..][i - 1 := p];
    }
  }

  /** The same panes, in the same order, are being added. */
  ghost predicate SamePanes(w0: World, w: World) {
    |w.procs| == |w0.procs| && forall i :: 0 <= i < |w.procs| ==> w.procs[i].pane == w0.procs[i].pane
  }

  ghost predicate Sound(s: Session) {
    Shaped(s.windows) && 0 <= s.active && (s.active < |s.windows| || (s.windows == [] && s.active == 0))
  }

  /** Every pane is accounted for: it was there before, belongs to a split still in flight, or to the one split that
      registered its id. */
  ghost predicate Accounted(w0: World, w: World, id: TargetID) {
    && Count(w.session.windows, id) ==
       Count(w0.session.windows, id) + Unsettled(w.procs, id) + (if Won(w.procs, id) then 1 else 0)
    && (id in w.ids <==> id in w0.ids || Won(w.procs, id))
    && !(id in w0.ids && Won(w.procs, id))
  }

  ghost predicate LosersLost(w: World) {
    forall i :: 0 <= i < |w.procs| && (w.procs[i].phase == RollingBack || w.procs[i].phase == RolledBack) ==>
      w.procs[i].pane.id in w.ids
  }

  ghost predicate Balanced(w0: World, w: World) {
    && Sound(w.session)
    && SamePanes(w0, w)
    && LosersLost(w)
    && forall id :: Accounted(w0, w, id)
  }

  ghost predicate Start(w: World) {
    && WellFormed(w.session)
    && (forall id :: Count(w.session.windows, id) > 0 ==> id in w.ids)
    && forall i :: 0 <= i < |w.procs| ==> w.procs[i].phase == Waiting
  }

  lemma {:induction false} NoneInFlight(ps: seq<Proc>, id: TargetID)
    requires forall i :: 0 <= i < |ps| ==> !InFlight(ps[i])
    ensures Unsettled(ps, id) == 0
  {
    if ps != [] { NoneInFlight(ps[1..], id); }
  }

  lemma StartIsBalanced(w: World)
    requires Start(w)
    ensures Balanced(w, w)
  {
    forall id ensures Accounted(w, w, id) { NoneInFlight(w.procs, id); }
  }

  lemma WonAfter(w: World, i: nat, phase: Phase, id: TargetID)
    requires i < |w.procs| && w.procs[i].phase != Succeeded
    ensures Won(At(w, i, phase).procs, id) <==> Won(w.procs, id) || (phase == Succeeded && w.procs[i].pane.id == id)
  {
    var ps := At(w, i, phase).procs;
    if Won(w.procs, id) {
      var j :| 0 <= j < |w.procs| && w.procs[j].phase == Succeeded && w.procs[j].pane.id == id;
      assert ps[j] == w.procs[j];
    }
    if phase == Succeeded { assert ps[i].phase == Succeeded; }
  }

  lemma AddIsBalanced(w0: World, w: World, i: nat, name: string)
    requires Balanced(w0, w)
    ensures Balanced(w0, Step(w, Add(i, name)))
  {
    var w' := Step(w, Add(i, name));
    if w' != w {
      var p := w.procs[i].pane;
      var phase := w'.procs[i].phase;
      forall id ensures Accounted(w0, w', id) {
        assert Accounted(w0, w, id);
        UnsettledUpdate(w.procs, i, w'.procs[i], id);
        WonAfter(w, i, phase, id);
        if phase == Added { CountOfAdd(w.session, name, p, id); }
      }
      if phase == Added { AddKeepsShape(w.session, name, p); }
    }
  }

  lemma RegisterIsBalanced(w0: World, w: World, i: nat)
    requires Balanced(w0, w)
    ensures Balanced(w0, Step(w, Register(i)))
  {
    var w' := Step(w, Register(i));
    if w' != w {
      forall id ensures Accounted(w0, w', id) {
        assert Accounted(w0, w, id);
        UnsettledUpdate(w.procs, i, w'.procs[i], id);
        WonAfter(w, i, w'.procs[i].phase, id);
      }
    }
  }

  /** The rollback always finds a pane to remove. */
  lemma RollbackFindsAPane(w0: World, w: World, i: nat)
    requires Balanced(w0, w) && i < |w.procs| && w.procs[i].phase == RollingBack
    ensures RemovePane(w.session, w.procs[i].pane.id).Some?
  {
    var id := w.procs[i].pane.id;
    assert Accounted(w0, w, id);
    UnsettledUpdate(w.procs, i, w.procs[i], id);
    CountOfRemove(w.session, id, id);
  }

  lemma RollbackIsBalanced(w0: World, w: World, i: nat)
    requires Balanced(w0, w)
    ensures Balanced(w0, Step(w, Rollback(i)))
  {
    var w' := Step(w, Rollback(i));
    if w' != w {
      var lost := w.procs[i].pane.id;
      RollbackFindsAPane(w0, w, i);
      forall id ensures Accounted(w0, w', id) {
        assert Accounted(w0, w, id);
        UnsettledUpdate(w.procs, i, w'.procs[i], id);
        WonAfter(w, i, RolledBack, id);
        CountOfRemove(w.session, lost, id);
        CountOfRemove(w.session, lost, lost);
      }
      RemoveShrinks(w.session, lost);
      NoBiggerKeepsShape(w.session.windows, w'.session.windows);
    }
  }

  lemma OtherKeepsCounts(w: World, e: Event, id: TargetID)
    requires e.OtherCreate? || e.OtherRename? || e.OtherFocus?
    ensures Count(Step(w, e).session.windows, id) == Count(w.session.windows, id)
    ensures Step(w, e).procs == w.procs && Step(w, e).ids == w.ids
  {
    var s := w.session;
    match e
    case OtherCreate(name) => CountAppend(s.windows, Window(name, []), id);
    case OtherRename(name, newName) =>
      var k := WindowIndex(s.windows, name);
      if k < |s.windows| { CountUpdate(s.windows, k, s.windows[k].(name := newName), id); }
    case OtherFocus(name) =>
  }

  /** Names stay distinct, windows within their limit and the focus in range under every step. */
  lemma StepIsSound(w: World, e: Event)
    requires Sound(w.session)
    ensures Sound(Step(w, e).session)
  {
    hide Count;
    var s, s' := w.session, Step(w, e).session;
    match e
    case Add(i, name) =>
      if i < |w.procs| && AddPane(s, name, w.procs[i].pane).Some? { AddKeepsShape(s, name, w.procs[i].pane); }
    case Register(_) =>
    case Rollback(i) =>
      if i < |w.procs| {
        RemoveShrinks(s, w.procs[i].pane.id);
        NoBiggerKeepsShape(s.windows, RemovePane(s, w.procs[i].pane.id).GetOr(s).windows);
      }
    case OtherCreate(name) => assert Shaped(s'.windows);
    case OtherRename(name, newName) =>
      if RenameWindow(s, name, newName).Some? { RenameKeepsShape(s.windows, WindowIndex(s.windows, name), newName); }
    case OtherFocus(name) =>
  }

  lemma OtherIsBalanced(w0: World, w: World, e: Event)
    requires Balanced(w0, w) && (e.OtherCreate? || e.OtherRename? || e.OtherFocus?)
    ensures Balanced(w0, Step(w, e))
  {
    hide Step, Sound;
    StepIsSound(w, e);
    forall id ensures Accounted(w0, Step(w, e), id) {
      assert Accounted(w0, w, id);
      OtherKeepsCounts(w, e, id);
    }
    OtherKeepsCounts(w, e, "");
  }

  lemma StepIsBalanced(w0: World, w: World, e: Event)
    requires Balanced(w0, w)
    ensures Balanced(w0, Step(w, e))
  {
    match e
    case Add(i, name) => AddIsBalanced(w0, w, i, name);
    case Register(i) => RegisterIsBalanced(w0, w, i);
    case Rollback(i) => RollbackIsBalanced(w0, w, i);
    case OtherCreate(_) => OtherIsBalanced(w0, w, e);
    case OtherRename(_, _) => OtherIsBalanced(w0, w, e);
    case OtherFocus(_) => OtherIsBalanced(w0, w, e);
  }

  /** In every interleaving the panes with an id are those there before, one per split in flight, and one once
      registered. */
  lemma {:induction false} RunIsBalanced(w0: World, w: World, es: seq<Event>)
    requires Balanced(w0, w)
    ensures Balanced(w0, Run(w, es))
    decreases |es|
  {
    if es != [] {
      StepIsBalanced(w0, w, es[0]);
      RunIsBalanced(w0, Step(w, es[0]), es[1..]);
    }
  }

  /** No split is between adding its pane and settling. */
  ghost predicate Quiescent(w: World) {
    forall i :: 0 <= i < |w.procs| ==> !InFlight(w.procs[i])
  }

  ghost predicate SomeAdded(w: World, id: TargetID) {
    exists i ::
      0 <= i < |w.procs| && w.procs[i].pane.id == id &&
          (w.procs[i].phase == Succeeded || w.procs[i].phase == RolledBack)
  }

  /** Whatever splits ran, once none is in flight the session invariant holds again. */
  lemma QuiescenceRestoresInv(w0: World, es: seq<Event>, layouts: map<string, Session>)
    requires Start(w0) && Quiescent(Run(w0, es))
    requires forall name :: name in layouts ==> WellFormed(layouts[name])
    ensures var w := Run(w0, es); Inv(Core(w.session, w.ids, layouts))
  {
    var w := Run(w0, es);
    StartIsBalanced(w0);
    RunIsBalanced(w0, w0, es);
    forall id ensures Count(w.session.windows, id) <= 1 && (Count(w.session.windows, id) > 0 ==> id in w.ids) {
      assert Accounted(w0, w, id);
      NoneInFlight(w.procs, id);
      assert Count(w0.session.windows, id) <= 1;
    }
  }

  /** For a fresh id there is then exactly one pane and one pipeline if some split got its pane added, and else
      neither. */
  lemma FreshIdSettles(w0: World, es: seq<Event>, id: TargetID)
    requires Start(w0) && Quiescent(Run(w0, es)) && id !in w0.ids
    ensures var w := Run(w0, es);
            && Count(w.session.windows, id) == (if SomeAdded(w, id) then 1 else 0)
            && (id in w.ids <==> SomeAdded(w, id))
  {
    var w := Run(w0, es);
    StartIsBalanced(w0);
    RunIsBalanced(w0, w0, es);
    assert Accounted(w0, w, id);
    NoneInFlight(w.procs, id);
  }

  /** At any time: panes with a fresh id are the unsettled splits plus one if the id is registered. */
  lemma FreshIdCount(w0: World, es: seq<Event>, id: TargetID)
    requires Start(w0) && id !in w0.ids
    ensures var w := Run(w0, es);
            Count(w.session.windows, id) == Unsettled(w.procs, id) + (if id in w.ids then 1 else 0)
  {
    StartIsBalanced(w0);
    RunIsBalanced(w0, w0, es);
    assert Accounted(w0, Run(w0, es), id);
  }
}
