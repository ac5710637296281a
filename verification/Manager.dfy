/** The session manager: windows own sequences of panes, and panes are shared objects that handlers edit in place. */
module Manager {
  import opened SessionModel
  import opened Wrappers

  class PaneState {
    const targetID: TargetID
    var title: string
    var group: string
    var isPrivate: bool
    var scrollbackCap: int
    var split: string
    var size: string
    var formatter: string
    var savedFormatter: string
    ghost var owner: WindowState? // the window it is in

    constructor (v: Pane)
      ensures Value() == v && owner == null
    {
      owner := null;
      targetID, title, group, isPrivate := v.id, v.title, v.group, v.isPrivate;
      scrollbackCap, split, size := v.scrollbackCap, v.split, v.size;
      formatter, savedFormatter := v.formatter, v.savedFormatter;
    }

    function Value(): Pane
      reads this
    {
      Pane(targetID, title, group, isPrivate, scrollbackCap, split, size, formatter, savedFormatter)
    }
  }

  class WindowState {
    var name: string
    var panes: seq<PaneState>
    ghost var value: Window // the window this object represents

    constructor (name: string)
      ensures Valid() && value == Window(name, []) && panes == []
    {
      this.name, panes, value := name, [], Window(name, []);
    }

    /** The fields and panes are those of `value`, and the panes are distinct objects found in no other window. */
    ghost predicate Valid()
      reads this, panes
      ensures Valid() ==> name == value.name && |panes| == |value.panes|
    {
      && name == value.name
      && |panes| == |value.panes|
      && (forall i :: 0 <= i < |panes| ==> panes[i].Value() == value.panes[i] && panes[i].owner == this)
      && (forall i, h :: 0 <= i < h < |panes| ==> panes[i] != panes[h])
    }

    ghost function OtherPanes(hole: nat): set<PaneState>
      reads this
    {
      set i: nat | i < |panes| && i != hole :: panes[i]
    }

    /** Valid, except that nothing is said of the fields of the pane at `hole`. */
    ghost predicate ValidBut(hole: nat)
      reads this, OtherPanes(hole)
    {
      && name == value.name
      && |panes| == |value.panes|
      && (forall i: nat :: i < |panes| && i != hole ==> panes[i].Value() == value.panes[i] && panes[i].owner == this)
      && (forall i, h :: 0 <= i < h < |panes| ==> panes[i] != panes[h])
    }

    lemma Open(i: nat)
      requires Valid() && i < |panes|
      ensures ValidBut(i) && panes[i] !in OtherPanes(i) && panes[i].Value() == value.panes[i]
      ensures panes[i].owner == this && forall q :: q in panes ==> q.owner == this
    {}

    method SetName(n: string)
      requires Valid()
      modifies this`name, this`value
      ensures Valid() && value == old(value).(name := n)
    {
      name, value := n, value.(name := n);
    }

    method Append(p: PaneState)
      requires Valid() && p.owner == null
      modifies this`panes, this`value, p`owner
      ensures Valid() && p.Value() == old(p.Value())
      ensures panes == old(panes) + [p] && value == old(value).(panes := old(value).panes + [p.Value()])
    {
      panes, p.owner := panes + [p], this;
      value := value.(panes := value.panes + [p.Value()]);
    }

    method RemoveAt(i: nat)
      requires Valid() && i < |panes|
      modifies this`panes, this`value
      ensures Valid()
      ensures panes == Without(old(panes), i)
      ensures value == old(value).(panes := old(value).panes[..i] + old(value).panes[i + 1..])
    {
      panes := panes[..i] + panes[i + 1..];
      value := value.(panes := value.panes[..i] + value.panes[i + 1..]);
    }

    /** Overwrite the first pane called `id`, found at `hole`, with `q`. */
    method Replace(id: TargetID, q: PaneState, ghost hole: nat)
      requires ValidBut(hole) && q !in panes
      requires hole < |panes| && hole == PaneIndex(value.panes, id) && panes[hole].targetID == id
      modifies this`panes, this`value, q`owner
      ensures Valid() && panes == old(panes)[hole := q] && q.owner == this && q.Value() == old(q.Value())
      ensures value == old(value).(panes := old(value).panes[hole := q.Value()])
    {
      var h := 0;
      while h < |panes|
        invariant h <= hole
        invariant unchanged(this) && unchanged(q)
      {
        if panes[h].targetID == id {
          panes, q.owner := panes[h := q], this;
          value := value.(panes := value.panes[h := q.Value()]);
          return;
        }
        h := h + 1;
      }
    }

    method SetTitle(p: PaneState, title: string, ghost i: nat)
      requires Valid() && i < |panes| && p == panes[i]
      modifies p`title, this`value
      ensures Valid() && panes == old(panes)
      ensures value == old(value).(panes := old(value).panes[i := old(value).panes[i].(title := title)])
    {
      p.title := title;
      value := value.(panes := value.panes[i := value.panes[i].(title := title)]);
    }

    /** Two panes of this window, possibly the same one, exchange their split and size. */
    method SwapGeometry(p: PaneState, q: PaneState, ghost i: nat, ghost h: nat)
      requires Valid() && i < |panes| && h < |panes| && p == panes[i] && q == panes[h]
      modifies p`split, p`size, q`split, q`size, this`value
      ensures Valid() && panes == old(panes)
      ensures var u, v := old(value).panes[i], old(value).panes[h];
              value == old(value).(panes := old(value).panes[i := u.(split := v.split, size := v.size)]
                                                              [h := v.(split := u.split, size := u.size)])
    {
      ghost var u, v := value.panes[i], value.panes[h];
      p.split, q.split := q.split, p.split;
      p.size, q.size := q.size, p.size;
      value := value.(panes := value.panes[i := u.(split := v.split, size := v.size)]
                                          [h := v.(split := u.split, size := u.size)]);
    }

    method InGroup(group: string) returns (ids: seq<TargetID>)
      requires Valid()
      ensures ids == GroupTargets(value.panes, group)
    {
      ids := [];
      for i := 0 to |panes|
        invariant ids == GroupTargets(value.panes[..i], group)
      {
        GroupTargetsSnoc(value.panes[..i], value.panes[i], group);
        assert value.panes[..i + 1] == value.panes[..i] + [value.panes[i]];
        if panes[i].group == group { ids := ids + [panes[i].targetID]; }
      }
      assert value.panes[..|panes|] == value.panes;
    }

    /** A copy that later edits do not reach. */
    method Copy() returns (v: Window)
      requires Valid()
      ensures v == value
    {
      var ps: seq<Pane> := [];
      for i := 0 to |panes|
        invariant ps == value.panes[..i]
      {
        ps := ps + [panes[i].Value()];
      }
      v := Window(name, ps);
    }
  }

  /** Panes of two windows exchange their split and size and then their places. */
  method SwapAcross(w: WindowState, a: TargetID, p: PaneState, v: WindowState, b: TargetID, q: PaneState, ghost i: nat,
                    ghost h: nat)
    requires w.Valid() && v.Valid() && w != v
    requires i == PaneIndex(w.value.panes, a) < |w.panes| && p == w.panes[i]
    requires h == PaneIndex(v.value.panes, b) < |v.panes| && q == v.panes[h]
    modifies p`split, p`size, p`owner, q`split, q`size, q`owner, w`panes, w`value, v`panes, v`value
    ensures w.Valid() && v.Valid() && w.panes == old(w.panes)[i := q] && v.panes == old(v.panes)[h := p]
    ensures var x, y := old(w.value).panes[i], old(v.value).panes[h];
            && w.value == PutPane(old(w.value), a, y.(split := x.split, size := x.size))
            && v.value == PutPane(old(v.value), b, x.(split := y.split, size := y.size))
  {
    hide WindowState.Valid, WindowState.ValidBut, WindowState.OtherPanes;
    w.Open(i);
    v.Open(h);
    p.split, q.split := q.split, p.split;
    p.size, q.size := q.size, p.size;
    w.Replace(a, q, i);
    v.Replace(b, p, h);
  }

  /** Distinct objects representing the windows `vs`. */
  ghost predicate Linked(ws: seq<WindowState>, vs: seq<Window>)
    reads ws
    ensures Linked(ws, vs) ==> |ws| == |vs|
  {
    && |ws| == |vs|
    && (forall k :: 0 <= k < |ws| ==> ws[k].value == vs[k])
    && (forall j, k :: 0 <= j < k < |ws| ==> ws[j] != ws[k])
  }

  ghost function Others(ws: seq<WindowState>, a: nat, b: nat): set<WindowState> {
    set j: nat | j < |ws| && j != a && j != b :: ws[j]
  }

  /** Linked, except that nothing is said of the values at `a` and `b`. */
  ghost predicate LinkedBut(ws: seq<WindowState>, vs: seq<Window>, a: nat, b: nat)
    reads Others(ws, a, b)
  {
    && |ws| == |vs|
    && (forall j: nat :: j < |ws| && j != a && j != b ==> ws[j].value == vs[j])
    && (forall i, j :: 0 <= i < j < |ws| ==> ws[i] != ws[j])
  }

  lemma LinkedOpen(ws: seq<WindowState>, vs: seq<Window>, a: nat, b: nat)
    requires Linked(ws, vs) && a < |ws| && b < |ws|
    ensures LinkedBut(ws, vs, a, b) && ws[a] !in Others(ws, a, b) && ws[b] !in Others(ws, a, b)
    ensures ws[a].value == vs[a] && ws[a] in ws && ws[b].value == vs[b] && ws[b] in ws
    ensures a != b ==> ws[a] != ws[b]
  {}

  lemma LinkedApart(ws: seq<WindowState>, vs: seq<Window>, k: nat)
    requires Linked(ws, vs) && k < |ws|
    ensures forall j :: 0 <= j < |ws| && j != k ==> ws[j] != ws[k]
  {}

  lemma LinkedClose(ws: seq<WindowState>, vs: seq<Window>, a: nat, b: nat)
    requires LinkedBut(ws, vs, a, b) && a < |ws| == |vs| && b < |ws|
    ensures Linked(ws, vs[a := ws[a].value][b := ws[b].value])
    ensures a == b ==> Linked(ws, vs[a := ws[a].value])
  {}

  lemma LinkedAppend(ws: seq<WindowState>, vs: seq<Window>, w: WindowState)
    requires Linked(ws, vs) && w !in ws
    ensures Linked(ws + [w], vs + [w.value])
  {}

  lemma LinkedSplice(ws: seq<WindowState>, vs: seq<Window>, k: nat)
    requires Linked(ws, vs) && k < |ws|
    ensures Linked(ws[..k] + ws[k + 1..], vs[..k] + vs[k + 1..])
    ensures forall w :: w in ws[..k] + ws[k + 1..] ==> w in ws
  {}

  lemma NotShared(w: WindowState, v: WindowState, p: PaneState)
    requires w.Valid() && v.Valid() && w != v && p in w.panes
    ensures p !in v.panes
  {}

  function Without<T>(s: seq<T>, i: nat): (r: seq<T>)
    requires i < |s|
    ensures forall x :: x in r ==> x in s
  {
    s[..i] + s[i + 1..]
  }

  class Manager {
    var windows: seq<WindowState>
    var active: int
    ghost var session: Session            // the session these objects represent
    ghost var windowSet: set<WindowState> // holds every window, and
    ghost var paneSet: set<PaneState>     // every pane

    ghost predicate Valid()
      reads this, windowSet, paneSet
      ensures Valid() ==> |windows| == |session.windows|
    {
      && active == session.active
      && (forall w :: w in windowSet ==> Within(w) && w.Valid())
      && (forall w :: w in windows ==> w in windowSet)
      && Linked(windows, session.windows)
    }

    ghost predicate Within(w: WindowState)
      reads this, w
    {
      forall p :: p in w.panes ==> p in paneSet
    }

    constructor ()
      ensures Valid() && session == Session([], 0) && windowSet == {} && paneSet == {}
    {
      windows, active, session := [], 0, Session([], 0);
      windowSet, paneSet := {}, {};
    }

    method FindWindow(name: string) returns (k: nat)
      requires Valid()
      ensures k == WindowIndex(session.windows, name)
    {
      k := 0;
      while k < |windows|
        invariant k <= |windows|
        invariant forall j :: 0 <= j < k ==> session.windows[j].name != name
      {
        assert windows[k] in windows;
        if windows[k].name == name { break; }
        k := k + 1;
      }
      FirstWindow(session.windows, name, k);
    }

    /** The first pane called `id` and its window, with their positions. */
    method FindPane(id: TargetID) returns (w: WindowState?, p: PaneState?, k: nat, i: nat)
      requires Valid()
      ensures k == OwnerIndex(session.windows, id) && (p == null <==> w == null) && (w == null <==> k == |windows|)
      ensures k < |windows| ==>
                && w == windows[k] && w.name == session.windows[k].name
                && i == PaneIndex(session.windows[k].panes, id) && i < |w.panes| && p == w.panes[i]
    {
      w, p, k, i := null, null, 0, 0;
      while k < |windows|
        invariant k <= |windows| && w == null && p == null
        invariant forall j :: 0 <= j < k ==> !Holds(session.windows[j], id)
      {
        var win := windows[k];
        assert win in windows;
        i := 0;
        while i < |win.panes|
          invariant i <= |win.panes|
          invariant forall h :: 0 <= h < i ==> session.windows[k].panes[h].id != id
        {
          if win.panes[i].targetID == id {
            FirstPane(session.windows[k].panes, id, i);
            FirstOwner(session.windows, id, k);
            return win, win.panes[i], k, i;
          }
          i := i + 1;
        }
        FirstPane(session.windows[k].panes, id, i);
        k := k + 1;
      }
      FirstOwner(session.windows, id, k);
    }

    method CreateWindow(name: string) returns (ok: bool)
      requires Valid()
      modifies this
      ensures Valid() && fresh(windowSet - old(windowSet)) && paneSet == old(paneSet)
      ensures ok == SessionModel.CreateWindow(old(session), name).Some?
      ensures session == SessionModel.CreateWindow(old(session), name).GetOr(old(session))
    {
      hide WindowState.Valid, Linked, LinkedBut, Others;
      if name == "" { return false; }
      var k := FindWindow(name);
      if k < |windows| { return false; }
      var w := new WindowState(name);
      LinkedAppend(windows, session.windows, w);
      windows, windowSet := windows + [w], windowSet + {w};
      session := SessionModel.CreateWindow(session, name).value;
      ok := true;
    }

    method CloseWindow(name: string) returns (ok: bool)
      requires Valid()
      modifies this
      ensures Valid() && windowSet == old(windowSet) && paneSet == old(paneSet)
      ensures ok == SessionModel.CloseWindow(old(session), name).Some?
      ensures session == SessionModel.CloseWindow(old(session), name).GetOr(old(session))
    {
      hide WindowState.Valid, Linked, LinkedBut, Others;
      if |windows| <= 1 { return false; }
      var k := FindWindow(name);
      if k == |windows| { return false; }
      LinkedSplice(windows, session.windows, k);
      windows := windows[..k] + windows[k + 1..];
      if active >= |windows| { active := |windows| - 1; }
      session := SessionModel.CloseWindow(session, name).value;
      ok := true;
    }

    method RenameWindow(oldName: string, newName: string) returns (ok: bool)
      requires Valid()
      modifies this`session, windowSet
      ensures Valid()
      ensures ok == SessionModel.RenameWindow(old(session), oldName, newName).Some?
      ensures session == SessionModel.RenameWindow(old(session), oldName, newName).GetOr(old(session))
    {
      hide WindowState.Valid, Linked, LinkedBut, Others;
      if newName == "" { return false; }
      var k := FindWindow(newName);
      if k < |windows| { return false; }
      k := FindWindow(oldName);
      if k == |windows| { return false; }
      LinkedOpen(windows, session.windows, k, k);
      windows[k].SetName(newName);
      LinkedClose(windows, session.windows, k, k);
      session := session.(windows := session.windows[k := windows[k].value]);
      ok := true;
    }

    method FocusWindow(name: string) returns (ok: bool)
      requires Valid()
      modifies this`session, this`active
      ensures Valid()
      ensures ok == SessionModel.FocusWindow(old(session), name).Some?
      ensures session == SessionModel.FocusWindow(old(session), name).GetOr(old(session))
    {
      var k := FindWindow(name);
      if k == |windows| { return false; }
      active, session := k, session.(active := k);
      ok := true;
    }

    method AddPane(windowName: string, pane: PaneState) returns (ok: bool)
      requires Valid() && pane !in paneSet && pane.owner == null
      modifies this`session, this`paneSet, windowSet, pane`owner
      ensures Valid() && paneSet == old(paneSet) + (if ok then {pane} else {})
      ensures ok == SessionModel.AddPane(old(session), windowName, old(pane.Value())).Some?
      ensures session == SessionModel.AddPane(old(session), windowName, old(pane.Value())).GetOr(old(session))
      ensures pane.Value() == old(pane.Value()) && windows == old(windows) && windowSet == old(windowSet)
      ensures ok ==>
                var k := WindowIndex(old(session).windows, windowName);
                && k < |windows| && windows[k].panes == old(windows[k].panes) + [pane] && pane !in old(windows[k].panes)
                && |old(windows[k].panes)| == |old(session).windows[k].panes|
                && forall w :: w in windowSet && w != windows[k] ==> w.panes == old(w.panes)
      ensures !ok ==> forall w :: w in windowSet ==> w.panes == old(w.panes)
    {
      hide WindowState.Valid, Linked, LinkedBut, Others;
      var k := FindWindow(windowName);
      if k == |windows| { return false; }
      var w := windows[k];
      LinkedOpen(windows, session.windows, k, k);
      if |w.panes| >= MAX_PANES_PER_WINDOW { return false; }
      w.Append(pane);
      LinkedClose(windows, session.windows, k, k);
      session, paneSet := session.(windows := session.windows[k := w.value]), paneSet + {pane};
      ok := true;
    }

    method RemovePane(id: TargetID) returns (ok: bool)
      requires Valid()
      modifies this`session, windowSet
      ensures Valid()
      ensures ok == SessionModel.RemovePane(old(session), id).Some?
      ensures session == SessionModel.RemovePane(old(session), id).GetOr(old(session))
      ensures ok ==>
                var k := OwnerIndex(old(session).windows, id);
                var i := PaneIndex(old(session).windows[k].panes, id);
                && k < |windows| && i < |old(windows[k].panes)|
                && windows[k].panes == Without(old(windows[k].panes), i)
                && (forall j :: 0 <= j < |windows| && j != k ==> windows[j].panes == old(windows[j].panes))
                && forall w :: w in windowSet && w != windows[k] ==> w.panes == old(w.panes)
    {
      hide WindowState.Valid, Linked, LinkedBut, Others, Without;
      var w, p, k, i := FindPane(id);
      if w == null { return false; }
      LinkedOpen(windows, session.windows, k, k);
      LinkedApart(windows, session.windows, k);
      w.RemoveAt(i);
      LinkedClose(windows, session.windows, k, k);
      session := session.(windows := session.windows[k := w.value]);
      ok := true;
    }

    /** Set a pane's title through the shared object a lookup returns. */
    method SetTitle(id: TargetID, title: string) returns (ok: bool)
      requires Valid()
      modifies this`session, windowSet, paneSet
      ensures Valid()
      ensures ok == Present(old(session), id)
      ensures session ==
              if ok then EditPane(old(session), id, PaneOf(old(session), id).(title := title)) else old(session)
    {
      hide WindowState.Valid, Linked, LinkedBut, Others;
      var w, p, k, i := FindPane(id);
      if w == null { return false; }
      LinkedOpen(windows, session.windows, k, k);
      forall v | v in windowSet && v != w ensures p !in v.panes { NotShared(w, v, p); }
      w.SetTitle(p, title, i);
      LinkedClose(windows, session.windows, k, k);
      session := session.(windows := session.windows[k := w.value]);
      ok := true;
    }

    method SwapBetween(a: TargetID, p: PaneState, b: TargetID, q: PaneState, ka: nat, kb: nat, ghost i: nat,
                       ghost h: nat)
      requires Valid() && ka < |windows| && kb < |windows| && ka != kb
      requires i == PaneIndex(session.windows[ka].panes, a) < |windows[ka].panes| && p == windows[ka].panes[i]
      requires h == PaneIndex(session.windows[kb].panes, b) < |windows[kb].panes| && q == windows[kb].panes[h]
      requires |windows| == |session.windows| && |windows[ka].panes| == |session.windows[ka].panes|
      requires |windows[kb].panes| == |session.windows[kb].panes|
      modifies this`session, windowSet, paneSet
      ensures Valid()
      ensures var ws := old(session).windows;
              var x, y := ws[ka].panes[i], ws[kb].panes[h];
              session == old(session).(windows := ws[ka := PutPane(ws[ka], a, y.(split := x.split, size := x.size))]
                                                    [kb := PutPane(ws[kb], b, x.(split := y.split, size := y.size))])
    {
      hide WindowState.Valid, Linked, LinkedBut, Others, PutPane;
      var w, v := windows[ka], windows[kb];
      LinkedOpen(windows, session.windows, ka, kb);
      forall u | u in windowSet && u != w ensures p !in u.panes { NotShared(w, u, p); }
      forall u | u in windowSet && u != v ensures q !in u.panes { NotShared(v, u, q); }
      SwapAcross(w, a, p, v, b, q, i, h);
      LinkedClose(windows, session.windows, ka, kb);
      session := session.(windows := session.windows[ka := w.value][kb := v.value]);
    }

    method SwapWithin(p: PaneState, q: PaneState, k: nat, ghost i: nat, ghost h: nat)
      requires Valid() && k < |windows|
      requires i < |windows[k].panes| && p == windows[k].panes[i]
      requires h < |windows[k].panes| && q == windows[k].panes[h]
      requires |windows| == |session.windows| && |windows[k].panes| == |session.windows[k].panes|
      modifies this`session, windowSet, paneSet
      ensures Valid()
      ensures var w := old(session).windows[k];
              var x, y := w.panes[i], w.panes[h];
              session == old(session).(windows := old(session).windows[k := w.(panes :=
                w.panes[i := x.(split := y.split, size := y.size)][h := y.(split := x.split, size := x.size)])])
    {
      hide WindowState.Valid, Linked, LinkedBut, Others;
      var w := windows[k];
      LinkedOpen(windows, session.windows, k, k);
      forall u | u in windowSet && u != w
        ensures p !in u.panes && q !in u.panes { NotShared(w, u, p); NotShared(w, u, q); }
      w.SwapGeometry(p, q, i, h);
      LinkedClose(windows, session.windows, k, k);
      session := session.(windows := session.windows[k := w.value]);
    }

    /** Panes exchange their geometry, and their places when their windows have different names. */
    method SwapPanes(a: TargetID, b: TargetID) returns (ok: bool)
      requires Valid() && DistinctNames(session.windows)
      modifies this`session, windowSet, paneSet
      ensures Valid()
      ensures ok == (Present(old(session), a) && Present(old(session), b))
      ensures session == if ok then Swap(old(session), a, b) else old(session)
    {
      hide WindowState.Valid, Linked, LinkedBut, Others, Swap, PutPane;
      var w, p, ka, i := FindPane(a);
      var v, q, kb, h := FindPane(b);
      if p == null || q == null { return false; }
      LinkedOpen(windows, session.windows, ka, kb);
      if w.name != v.name {
        SwapBetweenIs(session, a, b);
        SwapBetween(a, p, b, q, ka, kb, i, h);
      } else {
        SwapWithinIs(session, a, b);
        SwapWithin(p, q, ka, i, h);
      }
      ok := true;
    }

    method AllPaneIDs() returns (ids: seq<TargetID>)
      requires Valid()
      ensures ids == AllIds(session.windows)
    {
      ids := [];
      for k := 0 to |windows|
        invariant ids == AllIds(session.windows[..k])
      {
        var w := windows[k];
        assert w in windows;
        ghost var before := ids;
        for i := 0 to |w.panes|
          invariant ids == before + Ids(session.windows[k].panes)[..i]
        {
          ids := ids + [w.panes[i].targetID];
        }
        AllIdsSnoc(session.windows[..k], session.windows[k]);
        assert session.windows[..k + 1] == session.windows[..k] + [session.windows[k]];
      }
      assert session.windows[..|windows|] == session.windows;
    }

    /** The target ids of every pane in a group, window by window. */
    method GroupPanes(group: string) returns (ids: seq<TargetID>)
      requires Valid()
      ensures ids == AllGroupTargets(session.windows, group)
    {
      ids := [];
      for k := 0 to |windows|
        invariant ids == AllGroupTargets(session.windows[..k], group)
      {
        assert windows[k] in windows;
        var found := windows[k].InGroup(group);
        ids := ids + found;
        AllGroupTargetsSnoc(session.windows[..k], session.windows[k], group);
        assert session.windows[..k + 1] == session.windows[..k] + [session.windows[k]];
      }
      assert session.windows[..|windows|] == session.windows;
    }

    /** The session as a value that shares nothing with these objects. */
    method Snapshot() returns (s: Session)
      requires Valid()
      ensures s == session
    {
      var vs: seq<Window> := [];
      for k := 0 to |windows|
        invariant vs == session.windows[..k]
      {
        assert windows[k] in windows;
        var v := windows[k].Copy();
        vs := vs + [v];
      }
      s := Session(vs, active);
    }

    /** Append a window built from new objects. */
    method Adopt(v: Window)
      requires Valid()
      modifies this
      ensures Valid() && session == old(session).(windows := old(session).windows + [v])
      ensures fresh(windowSet - old(windowSet)) && fresh(paneSet - old(paneSet))
    {
      hide WindowState.Valid, Linked;
      var w, ps := Rebuild(v);
      LinkedAppend(windows, session.windows, w);
      windows, windowSet, paneSet := windows + [w], windowSet + {w}, paneSet + ps;
      session := session.(windows := session.windows + [v]);
    }

    /** Replace everything by new objects built from a snapshot. */
    method RestoreSnapshot(s: Session)
      requires Valid()
      modifies this
      ensures Valid() && session == Restore(s) && fresh(windowSet) && fresh(paneSet)
    {
      windows, session, windowSet, paneSet := [], Session([], active), {}, {};
      for k := 0 to |s.windows|
        invariant Valid() && fresh(windowSet) && fresh(paneSet)
        invariant session == Session(s.windows[..k], active)
      {
        Adopt(s.windows[k]);
      }
      active := if s.active >= |windows| then 0 else s.active;
      session := session.(active := active);
    }
  }

  /** New objects representing a window. */
  method Rebuild(v: Window) returns (w: WindowState, ghost ps: set<PaneState>)
    ensures w.Valid() && w.value == v && fresh(w) && fresh(ps) && forall p :: p in w.panes ==> p in ps
  {
    w := new WindowState(v.name);
    ps := {};
    for i := 0 to |v.panes|
      invariant w.Valid() && w.value == Window(v.name, v.panes[..i]) && fresh(w) && fresh(ps)
      invariant forall p :: p in w.panes ==> p in ps
    {
      var p := new PaneState(v.panes[i]);
      w.Append(p);
      ps := ps + {p};
    }
  }

  lemma {:induction false} AllIdsSnoc(ws: seq<Window>, w: Window)
    ensures AllIds(ws + [w]) == AllIds(ws) + Ids(w.panes)
  {
    if ws == [] {
      assert ws + [w] == [w] && [w][1..] == [];
    } else {
      AllIdsSnoc(ws[1..], w);
      assert (ws + [w])[1..] == ws[1..] + [w];
    }
  }

  lemma {:induction false} GroupTargetsSnoc(ps: seq<Pane>, p: Pane, group: string)
    ensures GroupTargets(ps + [p], group) == GroupTargets(ps, group) + (if p.group == group then [p.id] else [])
  {
    if ps == [] {
      assert ps + [p] == [p] && [p][1..] == [];
    } else {
      GroupTargetsSnoc(ps[1..], p, group);
      assert (ps + [p])[1..] == ps[1..] + [p];
    }
  }

  lemma {:induction false} AllGroupTargetsSnoc(ws: seq<Window>, w: Window, group: string)
    ensures AllGroupTargets(ws + [w], group) == AllGroupTargets(ws, group) + GroupTargets(w.panes, group)
  {
    hide GroupTargets;
    if ws == [] {
      assert ws + [w] == [w] && [w][1..] == [];
    } else {
      AllGroupTargetsSnoc(ws[1..], w, group);
      assert (ws + [w])[1..] == ws[1..] + [w];
    }
  }

  lemma SwapBetweenIs(s: Session, a: TargetID, b: TargetID)
    requires Present(s, a) && Present(s, b)
    requires s.windows[OwnerIndex(s.windows, a)].name != s.windows[OwnerIndex(s.windows, b)].name
    ensures var ka, kb := OwnerIndex(s.windows, a), OwnerIndex(s.windows, b);
            var x := s.windows[ka].panes[PaneIndex(s.windows[ka].panes, a)];
            var y := s.windows[kb].panes[PaneIndex(s.windows[kb].panes, b)];
            var x', y' := x.(split := y.split, size := y.size), y.(split := x.split, size := x.size);
            Swap(s, a, b) ==
            s.(windows := s.windows[ka := PutPane(s.windows[ka], a, y')][kb := PutPane(s.windows[kb], b, x')])
  {}

  lemma SwapWithinIs(s: Session, a: TargetID, b: TargetID)
    requires Present(s, a) && Present(s, b) && OwnerIndex(s.windows, a) == OwnerIndex(s.windows, b)
    ensures var k := OwnerIndex(s.windows, a);
            var w := s.windows[k];
            var i, h := PaneIndex(w.panes, a), PaneIndex(w.panes, b);
            var x, y := w.panes[i], w.panes[h];
            Swap(s, a, b) == s.(windows := s.windows[k := w.(panes :=
              w.panes[i := x.(split := y.split, size := y.size)][h := y.(split := x.split, size := x.size)])])
  {
    var k := OwnerIndex(s.windows, a);
    var w := s.windows[k];
    var i, h := PaneIndex(w.panes, a), PaneIndex(w.panes, b);
    var x, y := w.panes[i], w.panes[h];
    var ps := w.panes[i := x.(split := y.split, size := y.size)][h := y.(split := x.split, size := x.size)];
    if a == b { assert ps == w.panes; }
    assert Swap(s, a, b).windows == s.windows[k := w.(panes := ps)];
  }

  lemma {:induction false} FirstWindow(ws: seq<Window>, name: string, k: nat)
    requires k <= |ws|
    requires forall j :: 0 <= j < k ==> ws[j].name != name
    requires k < |ws| ==> ws[k].name == name
    ensures WindowIndex(ws, name) == k
  {}

  lemma {:induction false} FirstPane(ps: seq<Pane>, id: TargetID, i: nat)
    requires i <= |ps|
    requires forall h :: 0 <= h < i ==> ps[h].id != id
    requires i < |ps| ==> ps[i].id == id
    ensures PaneIndex(ps, id) == i
  {}
}
