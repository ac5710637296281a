/** What each handler answers, and what it does to the state, told by windows, slots and fields. */
module SessionAnswers {
  import opened Wrappers
  import opened SessionModel
  import opened SessionTheorems
  import opened SessionEffects

  ghost predicate Named(ws: seq<Window>, name: string) {
    exists k :: 0 <= k < |ws| && ws[k].name == name
  }

  lemma NamedIff(ws: seq<Window>, name: string)
    ensures WindowIndex(ws, name) < |ws| <==> Named(ws, name)
  {}

  /** A window is made, empty and behind the others, exactly when its name is neither empty nor taken. */
  lemma CreateAnswers(c: Core, name: string)
    ensures var (c', status) := Step(c, WindowCreate(name));
            && (status == Created <==> name != "" && !Named(c.session.windows, name))
            && (status == Created ==>
                  c' == c.(session := c.session.(windows := c.session.windows + [Window(name, [])])))
            && (status != Created ==> status == Conflict && c' == c)
  {
    NamedIff(c.session.windows, name);
  }

  /** A window is closed exactly when it exists and is not the only one; pipelines and layouts stay. */
  lemma CloseAnswers(c: Core, name: string)
    ensures var (c', status) := Step(c, WindowClose(name));
            && (status == NoContent <==> Named(c.session.windows, name) && |c.session.windows| > 1)
            && (status == NoContent ==>
                  CloseWindow(c.session, name) == Some(c'.session) && c'.ids == c.ids && c'.layouts == c.layouts)
            && (status != NoContent ==> status == NotFound && c' == c)
  {
    NamedIff(c.session.windows, name);
  }

  /** A window gets a new name exactly when it exists and the name is neither empty nor taken; nothing else changes. */
  lemma RenameAnswers(c: Core, name: string, newName: string)
    requires Inv(c)
    ensures var (c', status) := Step(c, WindowRename(name, newName));
            var ws, ws' := c.session.windows, c'.session.windows;
            && (status == NoContent <==> newName != "" && !Named(ws, newName) && Named(ws, name))
            && (status == NoContent ==>
                  && c' == c.(session := c.session.(windows := ws'))
                  && |ws'| == |ws|
                  && forall k :: 0 <= k < |ws| ==>
                       ws'[k] == if ws[k].name == name then Window(newName, ws[k].panes) else ws[k])
            && (status != NoContent ==> status == Conflict && c' == c)
  {
    var ws := c.session.windows;
    NamedIff(ws, name);
    NamedIff(ws, newName);
    assert DistinctNames(ws);
  }

  /** The focus goes to the window of the name, if there is one. */
  lemma FocusAnswers(c: Core, name: string)
    requires Inv(c)
    ensures var (c', status) := Step(c, WindowFocus(name));
            var ws := c.session.windows;
            && (status == NoContent <==> Named(ws, name))
            && (status == NoContent ==>
                  && c' == c.(session := c.session.(active := c'.session.active))
                  && 0 <= c'.session.active < |ws| && ws[c'.session.active].name == name)
            && (status != NoContent ==> status == NotFound && c' == c)
  {
    NamedIff(c.session.windows, name);
  }

  // ------------------------------------------------------------------ panes

  /** A split is refused for what is wrong with the request, and accepted exactly when the parent exists, its window has
      room and the new id has no pipeline. */
  lemma SplitAnswers(c: Core, op: Op)
    requires Inv(c) && op.PaneSplit?
    ensures var (c', status) := Split(c, op);
            var ws := c.session.windows;
            var valid := (op.direction == "h" || op.direction == "v") && IsTargetID(op.newID) && IsTargetID(op.parent);
            && (status == BadRequest <==> !valid)
            && (status == NotFound <==> valid && Count(ws, op.parent) == 0)
            && (status == BadRequest || status == NotFound ==> c' == c)
            && (status == Created <==>
                  && valid && op.newID !in c.ids
                  && exists k, i :: 0 <= k < |ws| && 0 <= i < |ws[k].panes| < MAX_PANES_PER_WINDOW
                       && ws[k].panes[i].id == op.parent)
            && (status == Created || status == Conflict || status == BadRequest || status == NotFound)
  {
    hide Count, AddPane, RemovePane;
    var ws := c.session.windows;
    var k := OwnerIndex(ws, op.parent);
    OwnerIffCounted(ws, op.parent);
    if k < |ws| {
      RoomIff(ws, k, NewPane(op.newID, op), c.session);
      assert ws[k].panes[PaneIndex(ws[k].panes, op.parent)].id == op.parent;
    }
    forall j, i | 0 <= j < |ws| && 0 <= i < |ws[j].panes| && ws[j].panes[i].id == op.parent ensures j == k {
      SameSlot(ws, j, i);
    }
  }

  lemma RoomIff(ws: seq<Window>, k: nat, p: Pane, s: Session)
    requires k < |ws| && s.windows == ws && DistinctNames(ws)
    ensures AddPane(s, ws[k].name, p).Some? <==> |ws[k].panes| < MAX_PANES_PER_WINDOW
  {
    WindowIndexIs(ws, k);
  }

  /** The new pane carries the request: its id, group, privacy, direction and size, and nothing else. */
  lemma NewPaneCarriesTheRequest(c: Core, op: Op)
    requires Inv(c) && op.PaneSplit? && Split(c, op).1 == Created
    ensures var s' := Split(c, op).0.session;
            && Present(s', op.newID)
            && var p := PaneOf(s', op.newID);
               && p.id == op.newID
               && p.group == op.group
               && p.isPrivate == op.isPrivate
               && p.split == op.direction
               && p.size == op.size
               && p.title == "" && p.formatter == "" && p.savedFormatter == ""
               && p.scrollbackCap == 0
  {
    hide Count, Inv;
    SplitAppends(c, op);
  }

  lemma PaneCloseAnswers(c: Core, id: string)
    ensures var (c', status) := ClosePane(c, id);
            && (status == BadRequest <==> !IsTargetID(id))
            && (status == NotFound <==> IsTargetID(id) && Count(c.session.windows, id) == 0)
            && (status == NoContent <==> IsTargetID(id) && Count(c.session.windows, id) > 0)
            && (status != NoContent ==> c' == c)
  {
    CountOfRemove(c.session, id, id);
  }

  lemma GroupKillAnswers(c: Core, group: string)
    ensures var (c', status) := KillGroup(c, group);
            && (status == BadRequest <==> group == "")
            && (status == NotFound <==> group != "" && forall id :: !InGroup(c.session.windows, group, id))
            && (status == NoContent <==> group != "" && exists id :: InGroup(c.session.windows, group, id))
            && (status != NoContent ==> c' == c)
  {
    var ws, targets := c.session.windows, AllGroupTargets(c.session.windows, group);
    forall id ensures id in targets <==> InGroup(ws, group, id) { TargetIffInGroup(ws, group, id); }
    if targets != [] { assert InGroup(ws, group, targets[0]); }
  }

  lemma TitleAnswers(c: Core, id: string, title: string)
    ensures var (c', status) := SetTitle(c, id, title);
            && (status == BadRequest <==> title == "" || !IsTargetID(id))
            && (status == NotFound <==> title != "" && IsTargetID(id) && Count(c.session.windows, id) == 0)
            && (status == NoContent <==> title != "" && IsTargetID(id) && Count(c.session.windows, id) > 0)
            && (status != NoContent ==> c' == c)
  {
    OwnerIffCounted(c.session.windows, id);
  }

  // ------------------------------------------------------------------ swap

  lemma SwapAnswers(c: Core, a: string, b: string)
    ensures var (c', status) := SwapPanes(c, a, b);
            var ws := c.session.windows;
            && (status == BadRequest <==> !IsTargetID(a) || !IsTargetID(b))
            && (status == NoContent <==>
                  IsTargetID(a) && IsTargetID(b) && Count(ws, a) > 0 && Count(ws, b) > 0)
            && (status != NoContent ==> c' == c && (status == BadRequest || status == NotFound))
  {
    OwnerIffCounted(c.session.windows, a);
    OwnerIffCounted(c.session.windows, b);
  }

  /** The pane in a slot after a swap of the panes `pa` and `pb`: across windows the panes trade places and every slot
      keeps its split and size; inside one window the panes stay and trade split and size. */
  function SlotAfter(p: Pane, pa: Pane, pb: Pane, across: bool): Pane {
    if p.id == pa.id then
      if across then pb.(split := pa.split, size := pa.size) else pa.(split := pb.split, size := pb.size)
    else if p.id == pb.id then
      if across then pa.(split := pb.split, size := pb.size) else pb.(split := pa.split, size := pa.size)
    else p
  }

  /** The swap of two panes wherever they are: every slot of every window, and all the rest as it was. */
  lemma SwapIs(c: Core, ka: nat, ia: nat, kb: nat, ib: nat)
    requires Inv(c)
    requires ka < |c.session.windows| && ia < |c.session.windows[ka].panes|
    requires kb < |c.session.windows| && ib < |c.session.windows[kb].panes|
    requires IsTargetID(c.session.windows[ka].panes[ia].id) && IsTargetID(c.session.windows[kb].panes[ib].id)
    ensures var ws := c.session.windows;
            var pa, pb := ws[ka].panes[ia], ws[kb].panes[ib];
            var (c', status) := SwapPanes(c, pa.id, pb.id);
            var ws' := c'.session.windows;
            && status == NoContent
            && c' == c.(session := c.session.(windows := ws'))
            && |ws'| == |ws|
            && (forall k :: 0 <= k < |ws| ==> ws'[k].name == ws[k].name && |ws'[k].panes| == |ws[k].panes|)
            && forall k, i :: 0 <= k < |ws| && 0 <= i < |ws[k].panes| ==>
                 ws'[k].panes[i] == SlotAfter(ws[k].panes[i], pa, pb, ka != kb)
  {
    hide Count, OwnerIndex, PaneIndex, Swap;
    var ws := c.session.windows;
    var a, b := ws[ka].panes[ia].id, ws[kb].panes[ib].id;
    SameSlot(ws, ka, ia);
    SameSlot(ws, kb, ib);
    SwapKeepsShape(c.session, a, b);
    SwapKeepsRest(c.session, a, b);
    assert ka != kb ==> ws[ka].name != ws[kb].name;
    forall k, i | 0 <= k < |ws| && 0 <= i < |ws[k].panes|
      ensures Swap(c.session, a, b).windows[k].panes[i] ==
              SlotAfter(ws[k].panes[i], ws[ka].panes[ia], ws[kb].panes[ib], ka != kb)
    {
      if ws[k].panes[i].id == a { SameSlot(ws, k, i); }
      if ws[k].panes[i].id == b { SameSlot(ws, k, i); }
      SwapAt(c.session, a, b, ka, ia, kb, ib, k, i);
    }
  }

  lemma SwapKeepsRest(s: Session, a: TargetID, b: TargetID)
    requires Present(s, a) && Present(s, b)
    ensures Swap(s, a, b) == s.(windows := Swap(s, a, b).windows)
  {
    hide OwnerIndex, PaneIndex;
  }

  /** One slot of a swap, where both panes have been found. */
  lemma SwapAt(s: Session, a: TargetID, b: TargetID, ka: nat, ia: nat, kb: nat, ib: nat, k: nat, i: nat)
    requires Present(s, a) && Present(s, b)
    requires ka == OwnerIndex(s.windows, a) && ia == PaneIndex(s.windows[ka].panes, a)
    requires kb == OwnerIndex(s.windows, b) && ib == PaneIndex(s.windows[kb].panes, b)
    requires ka != kb ==> s.windows[ka].name != s.windows[kb].name
    requires k < |s.windows| && i < |s.windows[k].panes|
    requires s.windows[k].panes[i].id == a ==> k == ka && i == ia
    requires s.windows[k].panes[i].id == b ==> k == kb && i == ib
    ensures |Swap(s, a, b).windows| == |s.windows| && |Swap(s, a, b).windows[k].panes| == |s.windows[k].panes|
    ensures var pa, pb := s.windows[ka].panes[ia], s.windows[kb].panes[ib];
            Swap(s, a, b).windows[k].panes[i] == SlotAfter(s.windows[k].panes[i], pa, pb, ka != kb)
  {
    hide OwnerIndex, PaneIndex;
  }

  // ------------------------------------------------------------------ layouts

  /** A layout is saved under any name but the empty one, over an older one of that name. */
  lemma SaveAnswers(c: Core, name: string)
    ensures var (c', status) := SaveLayout(c, name);
            && (status == Created <==> name != "") && (status == BadRequest <==> name == "")
            && c'.session == c.session && c'.ids == c.ids
            && (forall other :: other != name || name == "" ==>
                  (other in c'.layouts <==> other in c.layouts)
                  && (other in c.layouts ==> c'.layouts[other] == c.layouts[other]))
            && (name != "" ==> name in c'.layouts && c'.layouts[name] == c.session)
  {}

  /** An unknown layout changes nothing; a known one becomes the session, and exactly the pipelines of panes that are
      gone are dropped and those of its panes are there. */
  lemma ApplyAnswers(c: Core, name: string)
    requires Inv(c)
    ensures var (c', status) := ApplyLayout(c, name);
            && (status == NoContent <==> name in c.layouts)
            && (name !in c.layouts ==> status == NotFound && c' == c)
            && (name in c.layouts ==>
                  && c'.session == c.layouts[name] && c'.layouts == c.layouts
                  && forall id :: id in c'.ids <==>
                       Count(c.layouts[name].windows, id) > 0 || (id in c.ids && Count(c.session.windows, id) == 0))
  {
    if name in c.layouts {
      var before, after := c.session.windows, c.layouts[name].windows;
      forall id ensures id in SetOf(AllIds(before)) <==> Count(before, id) > 0 { AllIdsCounted(before, id); }
      forall id ensures id in SetOf(AllIds(after)) <==> Count(after, id) > 0 { AllIdsCounted(after, id); }
    }
  }
}
