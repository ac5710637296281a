/** The session as a value: ordered windows holding panes, the target ids that have a pipeline, and the
    saved layouts. Each request handler is one step of this state machine. */
module SessionModel {
  import opened Wrappers
  import Text

  const MAX_PANES_PER_WINDOW := 64
  const TARGET_ID_MAX_LEN := 64

  type TargetID = string

  datatype Pane = Pane(id: TargetID, title: string, group: string, isPrivate: bool, scrollbackCap: int,
                       split: string, size: string, formatter: string, savedFormatter: string)

  datatype Window = Window(name: string, panes: seq<Pane>)

  datatype Session = Session(windows: seq<Window>, active: int)

  /** `ids` is the set of registered pipelines. */
  datatype Core = Core(session: Session, ids: set<TargetID>, layouts: map<string, Session>)

  datatype Status = Created | NoContent | BadRequest | NotFound | Conflict

  datatype Op =
    | WindowCreate(name: string)
    | WindowClose(name: string)
    | WindowRename(name: string, newName: string)
    | WindowFocus(name: string)
    | PaneSplit(parent: string, direction: string, newID: string, group: string, isPrivate: bool, size: string)
    | PaneClose(id: string)
    | GroupKill(group: string)
    | PaneSwap(a: string, b: string)
    | PaneTitle(id: string, title: string)
    | LayoutSave(name: string)
    | LayoutApply(name: string)

  /** The pattern and length limit every target id must meet. */
  predicate IsTargetID(s: string) {
    && 0 < |s| <= TARGET_ID_MAX_LEN
    && Text.WordChar(s[0])
    && forall i :: 1 <= i < |s| ==> Text.WordChar(s[i]) || s[i] == ' ' || s[i] == '-'
  }

  // ------------------------------------------------------------------ lookups

  /** The first window called `name`, or |ws|. */
  function WindowIndex(ws: seq<Window>, name: string): (k: nat)
    ensures k <= |ws|
    ensures k < |ws| ==> ws[k].name == name
    ensures forall j :: 0 <= j < k ==> ws[j].name != name
  {
    if ws == [] || ws[0].name == name then 0 else 1 + WindowIndex(ws[1..], name)
  }

  /** The first pane with target id `id`, or |ps|. */
  function PaneIndex(ps: seq<Pane>, id: TargetID): (i: nat)
    ensures i <= |ps|
    ensures i < |ps| ==> ps[i].id == id
    ensures forall j :: 0 <= j < i ==> ps[j].id != id
  {
    if ps == [] || ps[0].id == id then 0 else 1 + PaneIndex(ps[1..], id)
  }

  predicate Holds(w: Window, id: TargetID) {
    PaneIndex(w.panes, id) < |w.panes|
  }

  /** The first window holding a pane with target id `id`, or |ws|. */
  function OwnerIndex(ws: seq<Window>, id: TargetID): (k: nat)
    ensures k <= |ws|
    ensures k < |ws| ==> Holds(ws[k], id)
    ensures forall j :: 0 <= j < k ==> !Holds(ws[j], id)
  {
    if ws == [] || Holds(ws[0], id) then 0 else 1 + OwnerIndex(ws[1..], id)
  }

  lemma {:induction false} FirstOwner(ws: seq<Window>, id: TargetID, k: nat)
    requires k <= |ws|
    requires forall j :: 0 <= j < k ==> !Holds(ws[j], id)
    requires k < |ws| ==> Holds(ws[k], id)
    ensures OwnerIndex(ws, id) == k
  {}

  predicate Present(s: Session, id: TargetID) {
    OwnerIndex(s.windows, id) < |s.windows|
  }

  function Ids(ps: seq<Pane>): (r: seq<TargetID>)
    ensures |r| == |ps|
    ensures forall i :: 0 <= i < |ps| ==> r[i] == ps[i].id
  {
    seq(|ps|, i requires 0 <= i < |ps| => ps[i].id)
  }

  /** Every pane's target id, window by window. */
  function AllIds(ws: seq<Window>): seq<TargetID> {
    if ws == [] then [] else Ids(ws[0].panes) + AllIds(ws[1..])
  }

  function CountIn(ps: seq<Pane>, id: TargetID): nat {
    if ps == [] then 0 else (if ps[0].id == id then 1 else 0) + CountIn(ps[1..], id)
  }

  /** How many panes carry a target id. */
  function Count(ws: seq<Window>, id: TargetID): nat {
    if ws == [] then 0 else CountIn(ws[0].panes, id) + Count(ws[1..], id)
  }

  // ------------------------------------------------------------------ session mutators; None is an error

  function CreateWindow(s: Session, name: string): Option<Session> {
    if name == "" || WindowIndex(s.windows, name) < |s.windows| then None
    else Some(s.(windows := s.windows + [Window(name, [])]))
  }

  function CloseWindow(s: Session, name: string): Option<Session> {
    var k := WindowIndex(s.windows, name);
    if |s.windows| <= 1 || k == |s.windows| then None
    else
      var rest := s.windows[..k] + s.windows[k + 1..];
      Some(Session(rest, if s.active >= |rest| then |rest| - 1 else s.active))
  }

  function RenameWindow(s: Session, oldName: string, newName: string): Option<Session> {
    var k := WindowIndex(s.windows, oldName);
    if newName == "" || WindowIndex(s.windows, newName) < |s.windows| || k == |s.windows| then None
    else Some(s.(windows := s.windows[k := s.windows[k].(name := newName)]))
  }

  function FocusWindow(s: Session, name: string): Option<Session> {
    var k := WindowIndex(s.windows, name);
    if k == |s.windows| then None else Some(s.(active := k))
  }

  function AddPane(s: Session, name: string, pane: Pane): Option<Session> {
    var k := WindowIndex(s.windows, name);
    if k == |s.windows| || |s.windows[k].panes| >= MAX_PANES_PER_WINDOW then None
    else Some(s.(windows := s.windows[k := s.windows[k].(panes := s.windows[k].panes + [pane])]))
  }

  function WithoutPane(w: Window, id: TargetID): Window
    requires Holds(w, id)
  {
    var i := PaneIndex(w.panes, id);
    w.(panes := w.panes[..i] + w.panes[i + 1..])
  }

  function RemovePane(s: Session, id: TargetID): Option<Session> {
    var k := OwnerIndex(s.windows, id);
    if k == |s.windows| then None
    else Some(s.(windows := s.windows[k := WithoutPane(s.windows[k], id)]))
  }

  /** What a snapshot restores: a stale active index falls back to the first window. */
  function Restore(s: Session): Session {
    if s.active >= |s.windows| then s.(active := 0) else s
  }

  // ------------------------------------------------------------------ pane edits

  /** The window with the first pane carrying `id` replaced by `p`. */
  function PutPane(w: Window, id: TargetID, p: Pane): Window
    requires Holds(w, id)
  {
    w.(panes := w.panes[PaneIndex(w.panes, id) := p])
  }

  function PaneOf(s: Session, id: TargetID): (p: Pane)
    requires Present(s, id)
    ensures p.id == id
  {
    var w := s.windows[OwnerIndex(s.windows, id)];
    w.panes[PaneIndex(w.panes, id)]
  }

  function EditPane(s: Session, id: TargetID, p: Pane): Session
    requires Present(s, id)
  {
    var k := OwnerIndex(s.windows, id);
    s.(windows := s.windows[k := PutPane(s.windows[k], id, p)])
  }

  /** Two panes exchange their split and size; when they live in differently named windows each also moves
      into the other's slot, so there a slot keeps its geometry and changes everything else. */
  function Swap(s: Session, a: TargetID, b: TargetID): Session
    requires Present(s, a) && Present(s, b)
  {
    var ka, kb := OwnerIndex(s.windows, a), OwnerIndex(s.windows, b);
    var pa, pb := PaneOf(s, a), PaneOf(s, b);
    var pa' := pa.(split := pb.split, size := pb.size);
    var pb' := pb.(split := pa.split, size := pa.size);
    if a == b then s
    else if s.windows[ka].name == s.windows[kb].name then
      var ws := s.windows[ka := PutPane(s.windows[ka], a, pa')];
      s.(windows := ws[kb := ws[kb].(panes := ws[kb].panes[PaneIndex(s.windows[kb].panes, b) := pb'])])
    else
      s.(windows := s.windows[ka := PutPane(s.windows[ka], a, pb')][kb := PutPane(s.windows[kb], b, pa')])
  }

  // ------------------------------------------------------------------ handlers

  function GroupTargets(ps: seq<Pane>, group: string): seq<TargetID> {
    if ps == [] then []
    else (if ps[0].group == group then [ps[0].id] else []) + GroupTargets(ps[1..], group)
  }

  function AllGroupTargets(ws: seq<Window>, group: string): seq<TargetID> {
    if ws == [] then [] else GroupTargets(ws[0].panes, group) + AllGroupTargets(ws[1..], group)
  }

  /** Remove each target in turn, ignoring targets that are not found. */
  function RemoveEach(s: Session, targets: seq<TargetID>): Session {
    if targets == [] then s
    else
      var s' := RemoveEach(s, targets[..|targets| - 1]);
      RemovePane(s', targets[|targets| - 1]).GetOr(s')
  }

  function NewPane(id: TargetID, op: Op): Pane
    requires op.PaneSplit?
  {
    Pane(id, "", op.group, op.isPrivate, 0, op.direction, op.size, "", "")
  }

  function Split(c: Core, op: Op): (Core, Status)
    requires op.PaneSplit?
  {
    var s := c.session;
    if (op.direction != "h" && op.direction != "v") || !IsTargetID(op.newID) || !IsTargetID(op.parent) then
      (c, BadRequest)
    else
      var k := OwnerIndex(s.windows, op.parent);
      if k == |s.windows| then (c, NotFound)
      else
        var added := AddPane(s, s.windows[k].name, NewPane(op.newID, op));
        if added.None? then (c, Conflict)
        else if op.newID in c.ids then (c.(session := RemovePane(added.value, op.newID).GetOr(added.value)), Conflict)
        else (c.(session := added.value, ids := c.ids + {op.newID}), Created)
  }

  function SetOf(ids: seq<TargetID>): set<TargetID> {
    set i | i in ids
  }

  function Answer(c: Core, r: Option<Session>, ok: Status, failed: Status): (Core, Status) {
    if r.None? then (c, failed) else (c.(session := r.value), ok)
  }

  function ClosePane(c: Core, id: string): (Core, Status) {
    if !IsTargetID(id) then (c, BadRequest)
    else
      var r := RemovePane(c.session, id);
      if r.None? then (c, NotFound) else (c.(session := r.value, ids := c.ids - {id}), NoContent)
  }

  function KillGroup(c: Core, group: string): (Core, Status) {
    var targets := AllGroupTargets(c.session.windows, group);
    if group == "" then (c, BadRequest)
    else if targets == [] then (c, NotFound)
    else (c.(session := RemoveEach(c.session, targets), ids := c.ids - SetOf(targets)), NoContent)
  }

  function SwapPanes(c: Core, a: string, b: string): (Core, Status) {
    if !IsTargetID(a) || !IsTargetID(b) then (c, BadRequest)
    else if !Present(c.session, a) || !Present(c.session, b) then (c, NotFound)
    else (c.(session := Swap(c.session, a, b)), NoContent)
  }

  function SetTitle(c: Core, id: string, title: string): (Core, Status) {
    if title == "" || !IsTargetID(id) then (c, BadRequest)
    else if !Present(c.session, id) then (c, NotFound)
    else (c.(session := EditPane(c.session, id, PaneOf(c.session, id).(title := title))), NoContent)
  }

  function SaveLayout(c: Core, name: string): (Core, Status) {
    if name == "" then (c, BadRequest) else (c.(layouts := c.layouts[name := c.session]), Created)
  }

  /** Pipelines of panes that disappear are dropped, and panes that appear without one get one. */
  function ApplyLayout(c: Core, name: string): (Core, Status) {
    if name !in c.layouts then (c, NotFound)
    else
      var restored := Restore(c.layouts[name]);
      var before, after := SetOf(AllIds(c.session.windows)), SetOf(AllIds(restored.windows));
      (c.(session := restored, ids := c.ids - (before - after) + after), NoContent)
  }

  function Step(c: Core, op: Op): (Core, Status) {
    match op
    case WindowCreate(name) => Answer(c, CreateWindow(c.session, name), Created, Conflict)
    case WindowClose(name) => Answer(c, CloseWindow(c.session, name), NoContent, NotFound)
    case WindowRename(name, newName) => Answer(c, RenameWindow(c.session, name, newName), NoContent, Conflict)
    case WindowFocus(name) => Answer(c, FocusWindow(c.session, name), NoContent, NotFound)
    case PaneSplit(_, _, _, _, _, _) => Split(c, op)
    case PaneClose(id) => ClosePane(c, id)
    case GroupKill(group) => KillGroup(c, group)
    case PaneSwap(a, b) => SwapPanes(c, a, b)
    case PaneTitle(id, title) => SetTitle(c, id, title)
    case LayoutSave(name) => SaveLayout(c, name)
    case LayoutApply(name) => ApplyLayout(c, name)
  }

  function Run(c: Core, ops: seq<Op>): Core
    decreases |ops|
  {
    if ops == [] then c else Run(Step(c, ops[0]).0, ops[1..])
  }

  // ------------------------------------------------------------------ the invariant

  ghost predicate DistinctNames(ws: seq<Window>) {
    forall j, k :: 0 <= j < k < |ws| ==> ws[j].name != ws[k].name
  }

  ghost predicate Shaped(ws: seq<Window>) {
    && DistinctNames(ws)
    && forall k :: 0 <= k < |ws| ==> ws[k].name != "" && |ws[k].panes| <= MAX_PANES_PER_WINDOW
  }

  ghost predicate DistinctIds(ws: seq<Window>) {
    forall id :: Count(ws, id) <= 1
  }

  ghost predicate WellFormed(s: Session) {
    && Shaped(s.windows)
    && DistinctIds(s.windows)
    && 0 <= s.active
    && (s.active < |s.windows| || (s.windows == [] && s.active == 0))
  }

  ghost predicate Inv(c: Core) {
    && WellFormed(c.session)
    && (forall id :: Count(c.session.windows, id) > 0 ==> id in c.ids)
    && (forall name :: name in c.layouts ==> WellFormed(c.layouts[name]))
  }
}
