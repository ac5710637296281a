/** Which panes and pipelines belong together after a step, and what closing a window does to the focus. */
module SessionEffects {
  import opened Wrappers
  import opened SessionModel
  import opened SessionTheorems

  /** Exactly the panes have pipelines. */
  ghost predicate Tight(c: Core) {
    forall id :: id in c.ids <==> Count(c.session.windows, id) > 0
  }

  /** A window is closed that still holds panes. */
  predicate Strands(c: Core, op: Op) {
    && op.WindowClose?
    && CloseWindow(c.session, op.name).Some?
    && c.session.windows[WindowIndex(c.session.windows, op.name)].panes != []
  }

  lemma CreateKeepsTight(c: Core, name: string)
    requires Tight(c)
    ensures Tight(Step(c, WindowCreate(name)).0)
  {
    forall id ensures Count(c.session.windows + [Window(name, [])], id) == Count(c.session.windows, id) {
      CountAppend(c.session.windows, Window(name, []), id);
    }
  }

  lemma CloseKeepsTightIff(c: Core, name: string)
    requires Inv(c) && Tight(c)
    ensures Tight(Step(c, WindowClose(name)).0) <==> !Strands(c, WindowClose(name))
  {
    var ws := c.session.windows;
    var k := WindowIndex(ws, name);
    if CloseWindow(c.session, name).Some? {
      var rest := ws[..k] + ws[k + 1..];
      forall id ensures Count(rest, id) == Count(ws, id) - CountIn(ws[k].panes, id) { CountSplice(ws, k, id); }
      if ws[k].panes != [] {
        var id := ws[k].panes[0].id;
        assert CountIn(ws[k].panes, id) > 0 && Count(ws, id) <= 1;
      }
    }
  }

  lemma RenameKeepsTight(c: Core, name: string, newName: string)
    requires Inv(c) && Tight(c)
    ensures Tight(Step(c, WindowRename(name, newName)).0)
  {
    if RenameWindow(c.session, name, newName).Some? { RenameKeepsWellFormed(c.session, name, newName); }
  }

  lemma SplitKeepsTight(c: Core, op: Op)
    requires Inv(c) && Tight(c) && op.PaneSplit?
    ensures Tight(Split(c, op).0)
  {
    SplitKeepsInv(c, op);
  }

  lemma PaneCloseKeepsTight(c: Core, id: string)
    requires Inv(c) && Tight(c)
    ensures Tight(ClosePane(c, id).0)
  {
    forall j ensures Count(RemovePane(c.session, id).GetOr(c.session).windows, j) ==
                     Count(c.session.windows, j) - (if j == id && Count(c.session.windows, id) > 0 then 1 else 0)
    {
      CountOfRemove(c.session, id, j);
    }
    assert Count(c.session.windows, id) <= 1;
  }

  lemma {:induction false} RemoveEachKeepsOthers(s: Session, targets: seq<TargetID>, id: TargetID)
    requires id !in targets
    ensures Count(RemoveEach(s, targets).windows, id) == Count(s.windows, id)
    decreases |targets|
  {
    if targets != [] {
      var init, last := targets[..|targets| - 1], targets[|targets| - 1];
      RemoveEachKeepsOthers(s, init, id);
      CountOfRemove(RemoveEach(s, init), last, id);
    }
  }

  lemma KillKeepsTight(c: Core, group: string)
    requires Inv(c) && Tight(c)
    ensures Tight(KillGroup(c, group).0)
  {
    var targets := AllGroupTargets(c.session.windows, group);
    RemoveEachShrinks(c.session, targets);
    forall id | id !in targets
      ensures Count(RemoveEach(c.session, targets).windows, id) == Count(c.session.windows, id)
    {
      RemoveEachKeepsOthers(c.session, targets, id);
    }
  }

  lemma SwapKeepsTight(c: Core, a: string, b: string)
    requires Inv(c) && Tight(c)
    ensures Tight(SwapPanes(c, a, b).0)
  {
    if Present(c.session, a) && Present(c.session, b) { SwapKeepsWellFormed(c.session, a, b); }
  }

  lemma TitleKeepsTight(c: Core, id: string, title: string)
    requires Tight(c)
    ensures Tight(SetTitle(c, id, title).0)
  {
    var s := c.session;
    if Present(s, id) {
      var p := PaneOf(s, id).(title := title);
      forall j ensures Count(EditPane(s, id, p).windows, j) == Count(s.windows, j) {
        CountOfPut(s.windows, OwnerIndex(s.windows, id), id, p, j);
      }
    }
  }

  lemma ApplyKeepsTight(c: Core, name: string)
    requires Tight(c)
    ensures Tight(ApplyLayout(c, name).0)
  {
    if name in c.layouts {
      var before, after := c.session.windows, c.layouts[name].windows;
      forall id ensures id in SetOf(AllIds(before)) <==> Count(before, id) > 0 { AllIdsCounted(before, id); }
      forall id ensures id in SetOf(AllIds(after)) <==> Count(after, id) > 0 { AllIdsCounted(after, id); }
    }
  }

  /** Panes and pipelines stay in step under every handler but one: closing a window strands the pipelines of its
      panes. */
  lemma StepKeepsTightIff(c: Core, op: Op)
    requires Inv(c) && Tight(c)
    ensures Tight(Step(c, op).0) <==> !Strands(c, op)
  {
    hide Split, ClosePane, KillGroup, SwapPanes, SetTitle, ApplyLayout, Count, CloseWindow, CreateWindow, RenameWindow;
    match op
    case WindowCreate(name) => CreateKeepsTight(c, name);
    case WindowClose(name) => CloseKeepsTightIff(c, name);
    case WindowRename(name, newName) => RenameKeepsTight(c, name, newName);
    case WindowFocus(name) => FocusKeepsWindows(c, name);
    case PaneSplit(_, _, _, _, _, _) => SplitKeepsTight(c, op);
    case PaneClose(id) => PaneCloseKeepsTight(c, id);
    case GroupKill(group) => KillKeepsTight(c, group);
    case PaneSwap(a, b) => SwapKeepsTight(c, a, b);
    case PaneTitle(id, title) => TitleKeepsTight(c, id, title);
    case LayoutSave(name) =>
    case LayoutApply(name) => ApplyKeepsTight(c, name);
  }

  lemma FocusKeepsWindows(c: Core, name: string)
    ensures var c' := Step(c, WindowFocus(name)).0; c'.session.windows == c.session.windows && c'.ids == c.ids
  {}

  ghost predicate NeverStrands(c: Core, ops: seq<Op>)
    decreases |ops|
  {
    ops != [] ==> !Strands(c, ops[0]) && NeverStrands(Step(c, ops[0]).0, ops[1..])
  }

  /** So in a run that only closes empty windows the pipelines are always exactly the panes. */
  lemma {:induction false} RunStaysTight(c: Core, ops: seq<Op>)
    requires Inv(c) && Tight(c) && NeverStrands(c, ops)
    ensures Tight(Run(c, ops))
    decreases |ops|
  {
    hide Step, Tight;
    if ops != [] {
      StepKeepsInv(c, ops[0]);
      StepKeepsTightIff(c, ops[0]);
      RunStaysTight(Step(c, ops[0]).0, ops[1..]);
    }
  }

  /** A stranded id can not be used for a new pane: the split is rolled back, to the exact session before. */
  lemma StrandedIdIsRefused(c: Core, op: Op)
    requires Inv(c) && op.PaneSplit? && op.newID in c.ids && Count(c.session.windows, op.newID) == 0
    ensures Split(c, op).1 != Created && Split(c, op).0 == c
  {
    var ws := c.session.windows;
    var k := OwnerIndex(ws, op.parent);
    OwnerIffCounted(ws, op.newID);
    if k < |ws| {
      var p := NewPane(op.newID, op);
      if AddPane(c.session, ws[k].name, p).Some? { RollbackRemovesTheNewPaneIff(c.session, ws[k].name, p); }
    }
  }

  // ------------------------------------------------------------------ one handler at a time

  lemma {:induction false} WindowIndexIs(ws: seq<Window>, k: nat)
    requires k < |ws| && DistinctNames(ws)
    ensures WindowIndex(ws, ws[k].name) == k
  {
    if k > 0 { WindowIndexIs(ws[1..], k - 1); }
  }

  /** Closing a window keeps the focus exactly when that window stands behind the active one, or the active one is the
      last and not itself closed; closing any other window in front moves the focus one window on. */
  lemma CloseKeepsFocusIff(s: Session, name: string)
    requires WellFormed(s) && CloseWindow(s, name).Some?
    ensures var s' := CloseWindow(s, name).value;
            var k := WindowIndex(s.windows, name);
            && |s'.windows| == |s.windows| - 1 && k < |s.windows| && 0 <= s'.active < |s'.windows|
            && (forall j :: 0 <= j < |s'.windows| ==> s'.windows[j] == s.windows[if j < k then j else j + 1])
            && (s'.windows[s'.active] == s.windows[s.active] <==>
                k > s.active || (k < s.active && s.active == |s.windows| - 1))
            && (k <= s.active < |s.windows| - 1 ==> s'.windows[s'.active] == s.windows[s.active + 1])
  {
    assert DistinctNames(s.windows);
  }

  /** An accepted split puts one new pane behind the others of its parent's window and leaves the rest alone. */
  lemma SplitAppends(c: Core, op: Op)
    requires Inv(c) && op.PaneSplit? && Split(c, op).1 == Created
    ensures var ws, c' := c.session.windows, Split(c, op).0;
            var k := OwnerIndex(ws, op.parent);
            && k < |ws| && |ws[k].panes| < MAX_PANES_PER_WINDOW && Count(ws, op.newID) == 0
            && |c'.session.windows| == |ws|
            && c'.session.windows[k] == ws[k].(panes := ws[k].panes + [NewPane(op.newID, op)])
            && (forall j :: 0 <= j < |ws| && j != k ==> c'.session.windows[j] == ws[j])
            && c'.session.active == c.session.active && c'.ids == c.ids + {op.newID}
            && Present(c'.session, op.newID) && PaneOf(c'.session, op.newID) == NewPane(op.newID, op)
  {
    var ws := c.session.windows;
    var k := OwnerIndex(ws, op.parent);
    WindowIndexIs(ws, k);
    SplitKeepsInv(c, op);
    var ws' := Split(c, op).0.session.windows;
    assert Count(ws', op.newID) <= 1;
    assert ws'[k].panes[|ws[k].panes|].id == op.newID;
    SameSlot(ws', k, |ws[k].panes|);
    OwnerIffCounted(ws', op.newID);
  }

  /** A rename of a pane changes its title and nothing else anywhere. */
  lemma TitleChangesOneTitle(c: Core, id: string, title: string)
    requires Inv(c) && SetTitle(c, id, title).1 == NoContent
    ensures var ws, ws' := c.session.windows, SetTitle(c, id, title).0.session.windows;
            && |ws'| == |ws|
            && (forall k :: 0 <= k < |ws| ==> ws'[k].name == ws[k].name && |ws'[k].panes| == |ws[k].panes|)
            && forall k, i :: 0 <= k < |ws| && 0 <= i < |ws[k].panes| ==>
                 ws'[k].panes[i] == if ws[k].panes[i].id == id then ws[k].panes[i].(title := title) else ws[k].panes[i]
  {
    var ws := c.session.windows;
    forall k, i | 0 <= k < |ws| && 0 <= i < |ws[k].panes| && ws[k].panes[i].id == id
      ensures k == OwnerIndex(ws, id) && i == PaneIndex(ws[k].panes, id)
    {
      SameSlot(ws, k, i);
    }
  }

  /** Closing a pane takes out exactly that pane, and the others keep their order. */
  lemma PaneCloseDropsOne(c: Core, id: string)
    requires Inv(c) && ClosePane(c, id).1 == NoContent
    ensures ClosePane(c, id).0 ==
            c.(session := c.session.(windows := Drop(c.session.windows, {id})), ids := c.ids - {id})
    ensures Count(c.session.windows, id) == 1 && Count(ClosePane(c, id).0.session.windows, id) == 0
  {
    RemoveIsDrop(c.session, id);
    CountOfRemove(c.session, id, id);
    assert Count(c.session.windows, id) <= 1;
  }

  // ------------------------------------------------------------------ witnesses

  function PaneNamed(id: TargetID): Pane {
    NewPane(id, PaneSplit("", "h", id, "", false, ""))
  }

  function SplitOff(parent: string, newID: string): Op {
    PaneSplit(parent, "h", newID, "g", false, "")
  }

  /** A session that has one pane, x. */
  function OnePane(): Core {
    Core(Session([Window("w", [PaneNamed("x")])], 0), {"x"}, map[])
  }

  /** Split pane a off x, then ask for a second x beside a: the answer is a conflict, yet the old x is gone and the
      rejected one stands behind a. */
  lemma RejectedSplitReplacesAPane()
    ensures var c := Split(OnePane(), SplitOff("x", "a")).0;
            var (c', status) := Split(c, SplitOff("a", "x"));
            && Inv(OnePane()) && Split(OnePane(), SplitOff("x", "a")).1 == Created
            && status == Conflict
            && c.session.windows == [Window("w", [PaneNamed("x"), NewPane("a", SplitOff("x", "a"))])]
            && c'.session.windows == [Window("w", [NewPane("a", SplitOff("x", "a")), NewPane("x", SplitOff("a", "x"))])]
            && c'.session != c.session
  {
    OnePaneIsGood();
    FirstSplit();
    SecondSplit();
  }

  lemma OnePaneIsGood()
    ensures Inv(OnePane())
  {
    var ws := OnePane().session.windows;
    forall id ensures Count(ws, id) == (if id == "x" then 1 else 0) {
      assert ws[1..] == [] && ws[0].panes[1..] == [];
      assert CountIn(ws[0].panes, id) == (if id == "x" then 1 else 0);
    }
  }

  lemma AddedTo(ps: seq<Pane>, p: Pane)
    requires |ps| < MAX_PANES_PER_WINDOW
    ensures AddPane(Session([Window("w", ps)], 0), "w", p) == Some(Session([Window("w", ps + [p])], 0))
  {
    assert WindowIndex([Window("w", ps)], "w") == 0;
    assert [Window("w", ps)][0 := Window("w", ps + [p])] == [Window("w", ps + [p])];
  }

  lemma FirstSplit()
    ensures IsTargetID("x") && IsTargetID("a")
    ensures Split(OnePane(), SplitOff("x", "a")) ==
            (Core(Session([Window("w", [PaneNamed("x"), NewPane("a", SplitOff("x", "a"))])], 0), {"x", "a"}, map[]),
             Created)
  {
    var ws := OnePane().session.windows;
    assert PaneIndex(ws[0].panes, "x") == 0 && OwnerIndex(ws, "x") == 0 && WindowIndex(ws, "w") == 0;
    var x, a := PaneNamed("x"), NewPane("a", SplitOff("x", "a"));
    AddedTo([x], a);
    assert [x] + [a] == [x, a];
    assert {"x"} + {"a"} == {"x", "a"};
  }

  lemma SecondSplit()
    ensures var x, a, x' := PaneNamed("x"), NewPane("a", SplitOff("x", "a")), NewPane("x", SplitOff("a", "x"));
            Split(Core(Session([Window("w", [x, a])], 0), {"x", "a"}, map[]), SplitOff("a", "x")) ==
            (Core(Session([Window("w", [a, x'])], 0), {"x", "a"}, map[]), Conflict)
  {
    var x, a, x' := PaneNamed("x"), NewPane("a", SplitOff("x", "a")), NewPane("x", SplitOff("a", "x"));
    var s := Session([Window("w", [x, a])], 0);
    AddedTo([x, a], x');
    assert [x, a][1..] == [a];
    assert PaneIndex([x, a], "a") == 1;
    assert [x, a] + [x'] == [x, a, x'];
    assert OwnerIndex(s.windows, "a") == 0 && WindowIndex(s.windows, "w") == 0;
    assert PaneIndex([x, a, x'], "x") == 0;
    assert OwnerIndex([Window("w", [x, a, x'])], "x") == 0;
    assert [x, a, x'][..0] + [x, a, x'][1..] == [a, x'];
    assert [Window("w", [x, a, x'])][0 := Window("w", [a, x'])] == [Window("w", [a, x'])];
  }

  /** Closing a window that holds pane x leaves x's pipeline behind. */
  lemma ClosingStrandsAPipeline()
    ensures var c := Core(Session([Window("w", [PaneNamed("x")]), Window("v", [])], 0), {"x"}, map[]);
            var c' := Step(c, WindowClose("w")).0;
            Inv(c) && Tight(c) && Strands(c, WindowClose("w"))
            && "x" in c'.ids && Count(c'.session.windows, "x") == 0 && Inv(c') && !Tight(c')
  {
    hide Count, CountIn, WindowIndex;
    var c := Core(Session([Window("w", [PaneNamed("x")]), Window("v", [])], 0), {"x"}, map[]);
    ClosingCounts();
    StepKeepsInv(c, WindowClose("w"));
    assert Step(c, WindowClose("w")).0.session.windows == [Window("v", [])];
  }

  lemma ClosingCounts()
    ensures var ws := [Window("w", [PaneNamed("x")]), Window("v", [])];
            && WindowIndex(ws, "w") == 0
            && forall id :: Count(ws, id) == (if id == "x" then 1 else 0) && Count([Window("v", [])], id) == 0
  {
    var ws := [Window("w", [PaneNamed("x")]), Window("v", [])];
    assert ws[1..] == [Window("v", [])] && ws[1..][1..] == [] && ws[0].panes[1..] == [];
    forall id ensures Count(ws, id) == (if id == "x" then 1 else 0) && Count([Window("v", [])], id) == 0 {
      assert CountIn([PaneNamed("x")], id) == (if id == "x" then 1 else 0);
      assert Count(ws[1..], id) == 0;
    }
  }

  /** With the second of three windows in focus, closing the first moves the focus to the third. */
  lemma ClosingMovesTheFocus()
    ensures var s := Session([Window("a", []), Window("b", []), Window("c", [])], 1);
            && CloseWindow(s, "a") == Some(Session([Window("b", []), Window("c", [])], 1))
  {
    var ws := [Window("a", []), Window("b", []), Window("c", [])];
    assert WindowIndex(ws, "a") == 0;
    assert ws[..0] + ws[1..] == [Window("b", []), Window("c", [])];
  }
}
