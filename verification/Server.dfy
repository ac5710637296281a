/** The request handlers, each a sequence of calls on the session manager, the router and the saved layouts. */
module Server {
  import opened Wrappers
  import opened SessionModel
  import opened SessionTheorems
  import opened Manager
  import opened Router
  import opened Pipeline

  class Server {
    const manager: Manager
    const router: Router
    const scrollbackCap: int
    var layouts: map<string, Session>

    ghost function View(): Core
      reads this, manager, router
    {
      Core(manager.session, router.pipes.Keys, layouts)
    }

    ghost predicate Valid()
      reads this, manager, manager.windowSet, manager.paneSet, router, router.kv
    {
      manager.Valid() && router.Valid() && Inv(View())
    }

    constructor (manager: Manager, router: Router, scrollbackCap: int)
      requires manager.Valid() && router.Valid() && Inv(Core(manager.session, router.pipes.Keys, map[]))
      ensures Valid() && View() == Core(manager.session, router.pipes.Keys, map[])
    {
      this.manager, this.router, this.scrollbackCap, layouts := manager, router, scrollbackCap, map[];
    }

    method WindowCreate(name: string) returns (status: Status)
      requires Valid()
      modifies manager
      ensures Valid() && (View(), status) == Step(old(View()), Op.WindowCreate(name))
    {
      StepKeepsInv(View(), Op.WindowCreate(name));
      var ok := manager.CreateWindow(name);
      status := if ok then Created else Conflict;
    }

    method WindowClose(name: string) returns (status: Status)
      requires Valid()
      modifies manager
      ensures Valid() && (View(), status) == Step(old(View()), Op.WindowClose(name))
    {
      StepKeepsInv(View(), Op.WindowClose(name));
      var ok := manager.CloseWindow(name);
      status := if ok then NoContent else NotFound;
    }

    method WindowRename(name: string, newName: string) returns (status: Status)
      requires Valid()
      modifies manager, manager.windowSet
      ensures Valid() && (View(), status) == Step(old(View()), Op.WindowRename(name, newName))
    {
      StepKeepsInv(View(), Op.WindowRename(name, newName));
      var ok := manager.RenameWindow(name, newName);
      status := if ok then NoContent else Conflict;
    }

    method WindowFocus(name: string) returns (status: Status)
      requires Valid()
      modifies manager
      ensures Valid() && (View(), status) == Step(old(View()), Op.WindowFocus(name))
    {
      StepKeepsInv(View(), Op.WindowFocus(name));
      var ok := manager.FocusWindow(name);
      status := if ok then NoContent else NotFound;
    }

    method PaneClose(id: string) returns (status: Status)
      requires Valid()
      modifies manager, manager.windowSet, router
      ensures Valid() && (View(), status) == ClosePane(old(View()), id)
      ensures forall j :: j in router.pipes ==> j in old(router.pipes) && router.pipes[j] == old(router.pipes)[j]
    {
      CloseKeepsInv(View(), id);
      if !IsTargetID(id) { return BadRequest; }
      var ok := manager.RemovePane(id);
      if !ok { return NotFound; }
      router.Deregister(id);
      return NoContent;
    }

    method PaneTitle(id: string, title: string) returns (status: Status)
      requires Valid()
      modifies manager, manager.windowSet, manager.paneSet
      ensures Valid() && (View(), status) == SetTitle(old(View()), id, title)
    {
      TitleKeepsInv(View(), id, title);
      if title == "" || !IsTargetID(id) { return BadRequest; }
      var ok := manager.SetTitle(id, title);
      status := if ok then NoContent else NotFound;
    }

    method PaneSwap(a: string, b: string) returns (status: Status)
      requires Valid()
      modifies manager, manager.windowSet, manager.paneSet
      ensures Valid() && (View(), status) == SwapPanes(old(View()), a, b)
    {
      SwapKeepsInv(View(), a, b);
      if !IsTargetID(a) || !IsTargetID(b) { return BadRequest; }
      var ok := manager.SwapPanes(a, b);
      status := if ok then NoContent else NotFound;
    }

    method PaneSplit(parent: string, direction: string, newID: string, group: string, isPrivate: bool, size: string)
        returns (status: Status)
      requires Valid()
      modifies manager, manager.windowSet, router
      ensures Valid() && (View(), status) ==
              Split(old(View()), Op.PaneSplit(parent, direction, newID, group, isPrivate, size))
      ensures forall j :: j in old(router.pipes) ==> j in router.pipes && router.pipes[j] == old(router.pipes)[j]
      ensures status == Created ==> newID in router.pipes && fresh(router.pipes[newID]) && Empty(router.pipes[newID])
      // A rejected split leaves every window its very panes exactly when nothing was added, or what the rollback took
      // out was the pane just added.
      ensures var ws := old(manager.session).windows;
              var k := OwnerIndex(ws, parent);
              status == Conflict ==>
                && k < |ws|
                && ((forall w :: w in old(manager.windowSet) ==> w.panes == old(w.panes)) <==>
                    |ws[k].panes| >= MAX_PANES_PER_WINDOW || OwnerIndex(ws, newID) > k)
    {
      hide Manager.Valid, Router.Valid, Inv, IsTargetID, Empty, SessionModel.AddPane, SessionModel.RemovePane,
          OwnerIndex;
      var op := Op.PaneSplit(parent, direction, newID, group, isPrivate, size);
      SplitKeepsInv(View(), op);
      if direction != "h" && direction != "v" { return BadRequest; }
      if !IsTargetID(newID) || !IsTargetID(parent) { return BadRequest; }
      var w, p, k, i := manager.FindPane(parent);
      if w == null { return NotFound; }
      status := SplitWindow(w.name, k, op);
    }

    /** The second half of a split, once the window of the parent is known. */
    method SplitWindow(windowName: string, ghost k: nat, op: Op) returns (status: Status)
      requires Valid() && op.PaneSplit? && (op.direction == "h" || op.direction == "v")
      requires IsTargetID(op.newID) && IsTargetID(op.parent)
      requires k == OwnerIndex(manager.session.windows, op.parent) && k < |manager.session.windows|
      requires windowName == manager.session.windows[k].name
      modifies manager, manager.windowSet, router
      ensures Valid() && (View(), status) == Split(old(View()), op)
      ensures Gained(old(router.pipes), router.pipes, op.newID, status == Created)
      ensures status == Created ==> fresh(router.pipes[op.newID]) && Empty(router.pipes[op.newID])
      ensures status == Created || status == Conflict
      ensures status == Conflict ==>
                ((forall w :: w in old(manager.windowSet) ==> w.panes == old(w.panes)) <==>
                 |old(manager.session).windows[k].panes| >= MAX_PANES_PER_WINDOW
                 || OwnerIndex(old(manager.session).windows, op.newID) > k)
    {
      hide Manager.Valid, Router.Valid, Inv, IsTargetID, Empty, SessionModel.AddPane, SessionModel.RemovePane,
           OwnerIndex, WindowIndex, Gained, Split;
      ghost var c := View();
      SplitKeepsInv(c, op);
      var pane := new PaneState(NewPane(op.newID, op));
      assert pane.Value() == NewPane(op.newID, op) && pane.targetID == op.newID;
      SplitIs(c, op, k);
      AddPaneAt(c, k, pane.Value());
      var ok := AddRegistered(windowName, pane);
      GainedKeys(old(router.pipes), router.pipes, op.newID, ok);
      assert manager.session == Split(c, op).0.session;
      status := if ok then Created else Conflict;
    }

    lemma GainedKeys(before: map<TargetID, Pipeline>, after: map<TargetID, Pipeline>, id: TargetID, gained: bool)
      requires Gained(before, after, id, gained)
      ensures after.Keys == before.Keys + (if gained then {id} else {})
      ensures gained ==> id in after
    {}

    /** Add a pane and register its pipeline, taking the first pane with its id out again when the id is taken. */
    method AddRegistered(windowName: string, pane: PaneState) returns (ok: bool)
      requires manager.Valid() && router.Valid() && pane !in manager.paneSet && pane.owner == null
      modifies manager, manager.windowSet, router, pane`owner
      ensures manager.Valid() && router.Valid()
      ensures var v := old(pane.Value());
              var added := SessionModel.AddPane(old(manager.session), windowName, v);
              && ok == (added.Some? && v.id !in old(router.pipes))
              && manager.session == if added.None? then old(manager.session)
                                    else if ok then added.value
                                    else SessionModel.RemovePane(added.value, v.id).GetOr(added.value)
      ensures Gained(old(router.pipes), router.pipes, pane.targetID, ok)
      ensures ok ==> fresh(router.pipes[pane.targetID]) && Empty(router.pipes[pane.targetID])
      ensures !ok ==>
                ((forall w :: w in old(manager.windowSet) ==> w.panes == old(w.panes)) <==>
                 SessionModel.AddPane(old(manager.session), windowName, old(pane.Value())).None?
                 || OwnerIndex(old(manager.session).windows, pane.targetID) >
                    WindowIndex(old(manager.session).windows, windowName))
    {
      hide Manager.Valid, Router.Valid, Empty, SessionModel.AddPane, SessionModel.RemovePane, OwnerIndex, WindowIndex,
          PaneIndex;
      ghost var s0 := manager.session;
      ghost var k := WindowIndex(s0.windows, windowName);
      ghost var before := if k < |manager.windows| then manager.windows[k].panes else [];
      ok := manager.AddPane(windowName, pane);
      if ok { ok := RegisterOrUndo(pane, s0, windowName, before); }
    }

    ghost predicate Gained(before: map<TargetID, Pipeline>, after: map<TargetID, Pipeline>, id: TargetID,
                           gained: bool) {
      && after.Keys == before.Keys + (if gained then {id} else {})
      && forall j :: j in before ==> after[j] == before[j]
    }

    /** The pipeline of the pane just added, or the rollback: it gives every window back the panes it had exactly when
        no window up to this one already held the id. */
    method RegisterOrUndo(pane: PaneState, ghost s0: Session, ghost windowName: string, ghost panes: seq<PaneState>)
        returns (ok: bool)
      requires manager.Valid() && router.Valid()
      requires var added := SessionModel.AddPane(s0, windowName, pane.Value());
               added.Some? && manager.session == added.value
      requires WindowIndex(s0.windows, windowName) < |manager.windows| && pane !in panes
      requires manager.windows[WindowIndex(s0.windows, windowName)].panes == panes + [pane] &&
               |panes| == |s0.windows[WindowIndex(s0.windows, windowName)].panes|
      modifies manager`session, manager.windowSet, router
      ensures manager.Valid() && router.Valid()
      ensures ok == (pane.targetID !in old(router.pipes))
      ensures Gained(old(router.pipes), router.pipes, pane.targetID, ok)
      ensures ok ==> fresh(router.pipes[pane.targetID]) && Empty(router.pipes[pane.targetID])
      ensures manager.session == if ok then old(manager.session)
                                 else
                                   SessionModel.RemovePane(old(manager.session), pane.targetID)
                                     .GetOr(old(manager.session))
      ensures !ok ==>
                var k := WindowIndex(s0.windows, windowName);
                && k < |manager.windows|
                && (manager.windows[k].panes == panes <==> OwnerIndex(s0.windows, pane.targetID) > k)
                && (OwnerIndex(s0.windows, pane.targetID) > k ==>
                      forall w :: w in manager.windowSet && w != manager.windows[k] ==> w.panes == old(w.panes))
    {
      hide Manager.Valid, Router.Valid, Empty, SessionModel.AddPane, SessionModel.RemovePane, OwnerIndex, WindowIndex,
          PaneIndex;
      var pipe := router.Register(pane.targetID, 0);
      ok := pipe != null;
      if !ok { Undo(pane, s0, windowName, panes); }
    }

    method Undo(pane: PaneState, ghost s0: Session, ghost windowName: string, ghost panes: seq<PaneState>)
      requires manager.Valid()
      requires var added := SessionModel.AddPane(s0, windowName, pane.Value());
               added.Some? && manager.session == added.value
      requires WindowIndex(s0.windows, windowName) < |manager.windows| && pane !in panes
      requires manager.windows[WindowIndex(s0.windows, windowName)].panes == panes + [pane] &&
               |panes| == |s0.windows[WindowIndex(s0.windows, windowName)].panes|
      modifies manager`session, manager.windowSet
      ensures manager.Valid()
      ensures manager.session ==
              SessionModel.RemovePane(old(manager.session), pane.targetID).GetOr(old(manager.session))
      ensures var k := WindowIndex(s0.windows, windowName);
              && k < |manager.windows|
              && (manager.windows[k].panes == panes <==> OwnerIndex(s0.windows, pane.targetID) > k)
              && (OwnerIndex(s0.windows, pane.targetID) > k ==>
                    forall w :: w in manager.windowSet && w != manager.windows[k] ==> w.panes == old(w.panes))
    {
      hide Manager.Valid, SessionModel.AddPane, SessionModel.RemovePane, OwnerIndex, WindowIndex, PaneIndex, Without;
      ghost var v := pane.Value();
      RollbackRemovesTheNewPaneIff(s0, windowName, v);
      ghost var k, o := WindowIndex(s0.windows, windowName), OwnerIndex(s0.windows, v.id);
      ghost var i := PaneIndex(manager.session.windows[if o > k then k else o].panes, v.id);
      AppendThenRemove(panes, pane, if o < k then |panes| else i);
      var _ := manager.RemovePane(pane.targetID);
    }

    method GroupKill(group: string) returns (status: Status)
      requires Valid()
      modifies manager, manager.windowSet, router
      ensures Valid() && (View(), status) == KillGroup(old(View()), group)
      ensures forall j :: j in router.pipes ==> j in old(router.pipes) && router.pipes[j] == old(router.pipes)[j]
    {
      hide Manager.Valid, Router.Valid, Inv, RemoveEach, AllGroupTargets, SetOf;
      KillKeepsInv(View(), group);
      if group == "" { return BadRequest; }
      var targets := manager.GroupPanes(group);
      if targets == [] { return NotFound; }
      Kill(targets);
      return NoContent;
    }

    /** Remove each pane and its pipeline in turn, ignoring panes that are not found. */
    method Kill(targets: seq<TargetID>)
      requires manager.Valid() && router.Valid()
      modifies manager, manager.windowSet, router
      ensures manager.Valid() && router.Valid()
      ensures manager.session == RemoveEach(old(manager.session), targets)
      ensures router.pipes == old(router.pipes) - SetOf(targets)
    {
      hide Manager.Valid, Router.Valid, SessionModel.RemovePane, SetOf, RemoveEach;
      SetOfNothing();
      RemoveEachNothing(manager.session);
      for i := 0 to |targets|
        invariant manager.Valid() && router.Valid() && manager.windowSet == old(manager.windowSet)
        invariant manager.session == RemoveEach(old(manager.session), targets[..i])
        invariant router.pipes == old(router.pipes) - SetOf(targets[..i])
      {
        RemoveEachSnoc(old(manager.session), targets, i);
        SetOfSnoc(targets, i);
        MinusTwice(old(router.pipes), SetOf(targets[..i]), targets[i]);
        var _ := manager.RemovePane(targets[i]);
        router.Deregister(targets[i]);
      }
      assert targets[..|targets|] == targets;
    }

    method LayoutSave(name: string) returns (status: Status)
      requires Valid()
      modifies this
      ensures Valid() && (View(), status) == SaveLayout(old(View()), name)
    {
      if name == "" { return BadRequest; }
      var snap := manager.Snapshot();
      layouts := layouts[name := snap];
      return Created;
    }

    /** Restores the saved windows and panes as new objects; pipelines of panes that stay are untouched. */
    method LayoutApply(name: string) returns (status: Status)
      requires Valid()
      modifies manager, router
      ensures Valid() && (View(), status) == ApplyLayout(old(View()), name)
      ensures forall j :: j in router.pipes && j in old(router.pipes) ==> router.pipes[j] == old(router.pipes)[j]
      ensures forall j :: j in router.pipes && j !in old(router.pipes) ==>
                fresh(router.pipes[j]) && Empty(router.pipes[j])
    {
      hide Manager.Valid, Router.Valid, Inv, Restore, SetOf, AllIds, Empty;
      ApplyKeepsInv(View(), name);
      if name !in layouts { return NotFound; }
      var before := manager.AllPaneIDs();
      manager.RestoreSnapshot(layouts[name]);
      var after := manager.AllPaneIDs();
      Reconcile(before, after);
      return NoContent;
    }

    /** Deregister the ids that went, register those that came. */
    method Reconcile(before: seq<TargetID>, ids: seq<TargetID>)
      requires router.Valid()
      modifies router
      ensures router.Valid()
      ensures router.pipes.Keys == old(router.pipes).Keys - (SetOf(before) - SetOf(ids)) + SetOf(ids)
      ensures forall j :: j in router.pipes && j in old(router.pipes) ==> router.pipes[j] == old(router.pipes)[j]
      ensures forall j :: j in router.pipes && j !in old(router.pipes) ==>
                fresh(router.pipes[j]) && Empty(router.pipes[j])
    {
      hide Router.Valid, SetOf, Empty;
      var after := SetOf(ids);
      SetOfNothing();
      for i := 0 to |before|
        invariant router.Valid() && router.pipes == old(router.pipes) - (SetOf(before[..i]) - after)
      {
        SetOfSnoc(before, i);
        if before[i] !in after { router.Deregister(before[i]); }
      }
      assert before[..|before|] == before;
      ghost var kept := router.pipes;
      var rest := after;
      while rest != {}
        invariant rest <= after && router.Valid()
        invariant router.pipes.Keys == kept.Keys + (after - rest)
        invariant forall j :: j in kept ==> router.pipes[j] == kept[j]
        invariant forall j :: j in router.pipes && j !in kept ==> fresh(router.pipes[j]) && Empty(router.pipes[j])
      {
        var id :| id in rest;
        rest := rest - {id};
        var p := router.Get(id);
        if p == null { var _ := router.Register(id, scrollbackCap); }
      }
    }
  }

  lemma AppendThenRemove<T>(ps: seq<T>, x: T, i: nat)
    requires x !in ps && i <= |ps|
    ensures Without(ps + [x], i) == ps <==> i == |ps|
    ensures ps + [x] != ps
  {
    if i < |ps| { assert Without(ps + [x], i)[|ps| - 1] == x; }
  }

  lemma SplitIs(c: Core, op: Op, k: nat)
    requires op.PaneSplit? && (op.direction == "h" || op.direction == "v") && IsTargetID(op.newID) &&
             IsTargetID(op.parent)
    requires k == OwnerIndex(c.session.windows, op.parent) && k < |c.session.windows|
    ensures var added := SessionModel.AddPane(c.session, c.session.windows[k].name, NewPane(op.newID, op));
            && (Split(c, op).1 == Created <==> added.Some? && op.newID !in c.ids)
            && (Split(c, op).1 == Created || Split(c, op).1 == Conflict)
            && Split(c, op).0.layouts == c.layouts
            && Split(c, op).0.ids == c.ids + (if Split(c, op).1 == Created then {op.newID} else {})
            && Split(c, op).0.session == if added.None? then c.session
                                         else if op.newID !in c.ids then added.value
                                         else SessionModel.RemovePane(added.value, op.newID).GetOr(added.value)
  {
    assert c.ids + {} == c.ids;
  }

  lemma AddPaneAt(c: Core, k: nat, p: Pane)
    requires Inv(c) && k < |c.session.windows|
    ensures WindowIndex(c.session.windows, c.session.windows[k].name) == k
    ensures SessionModel.AddPane(c.session, c.session.windows[k].name, p).None? <==>
              |c.session.windows[k].panes| >= MAX_PANES_PER_WINDOW
  {}

  lemma RemoveEachNothing(s: Session)
    ensures RemoveEach(s, []) == s
  {}

  lemma RemoveEachSnoc(s: Session, targets: seq<TargetID>, i: nat)
    requires i < |targets|
    ensures var s' := RemoveEach(s, targets[..i]);
            RemoveEach(s, targets[..i + 1]) == SessionModel.RemovePane(s', targets[i]).GetOr(s')
  {
    assert targets[..i + 1][..i] == targets[..i];
  }

  lemma MinusTwice<T>(m: map<TargetID, T>, ids: set<TargetID>, id: TargetID)
    ensures m - ids - {id} == m - (ids + {id})
  {}

  lemma SetOfNothing()
    ensures SetOf([]) == {}
  {}

  lemma SetOfSnoc(ids: seq<TargetID>, i: nat)
    requires i < |ids|
    ensures SetOf(ids[..i + 1]) == SetOf(ids[..i]) + {ids[i]}
  {
    assert ids[..i + 1] == ids[..i] + [ids[i]];
  }
}
