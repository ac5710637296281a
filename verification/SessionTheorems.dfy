/** What every step, and so every run, of the session state machine keeps. */
module SessionTheorems {
  import opened Wrappers
  import opened SessionModel

  // ------------------------------------------------------------------ counting target ids

  lemma {:induction false} CountUpdate(ws: seq<Window>, k: nat, w: Window, j: TargetID)
    requires k < |ws|
    ensures Count(ws[k := w], j) == Count(ws, j) - CountIn(ws[k].panes, j) + CountIn(w.panes, j)
    ensures Count(ws, j) >= CountIn(ws[k].panes, j)
  {
    if k == 0 {
      assert ws[k := w][1..] == ws[1..];
    } else {
      CountUpdate(ws[1..], k - 1, w, j);
      assert ws[k := w][1..] == ws[1..][k - 1 := w];
    }
  }

  lemma {:induction false} CountSplice(ws: seq<Window>, k: nat, j: TargetID)
    requires k < |ws|
    ensures Count(ws[..k] + ws[k + 1..], j) == Count(ws, j) - CountIn(ws[k].panes, j)
  {
    if k == 0 {
      assert ws[..k] + ws[k + 1..] == ws[1..];
    } else {
      CountSplice(ws[1..], k - 1, j);
      assert (ws[..k] + ws[k + 1..])[1..] == ws[1..][..k - 1] + ws[1..][k..];
    }
  }

  lemma {:induction false} CountAppend(ws: seq<Window>, w: Window, j: TargetID)
    ensures Count(ws + [w], j) == Count(ws, j) + CountIn(w.panes, j)
  {
    if ws == [] {
      assert ws + [w] == [w] && [w][1..] == [];
    } else {
      CountAppend(ws[1..], w, j);
      assert (ws + [w])[1..] == ws[1..] + [w];
    }
  }

  lemma {:induction false} CountInAppend(ps: seq<Pane>, p: Pane, j: TargetID)
    ensures CountIn(ps + [p], j) == CountIn(ps, j) + (if p.id == j then 1 else 0)
  {
    if ps == [] {
      assert ps + [p] == [p] && [p][1..] == [];
    } else {
      CountInAppend(ps[1..], p, j);
      assert (ps + [p])[1..] == ps[1..] + [p];
    }
  }

  lemma {:induction false} CountInSplice(ps: seq<Pane>, i: nat, j: TargetID)
    requires i < |ps|
    ensures CountIn(ps[..i] + ps[i + 1..], j) == CountIn(ps, j) - (if ps[i].id == j then 1 else 0)
  {
    if i == 0 {
      assert ps[..i] + ps[i + 1..] == ps[1..];
    } else {
      CountInSplice(ps[1..], i - 1, j);
      assert (ps[..i] + ps[i + 1..])[1..] == ps[1..][..i - 1] + ps[1..][i..];
    }
  }

  lemma {:induction false} CountInPut(ps: seq<Pane>, i: nat, p: Pane, j: TargetID)
    requires i < |ps|
    ensures CountIn(ps[i := p], j) == CountIn(ps, j) - (if ps[i].id == j then 1 else 0) + (if p.id == j then 1 else 0)
  {
    if i == 0 {
      assert ps[i := p][1..] == ps[1..];
    } else {
      CountInPut(ps[1..], i - 1, p, j);
      assert ps[i := p][1..] == ps[1..][i - 1 := p];
    }
  }

  lemma {:induction false} HoldsIffCounted(ps: seq<Pane>, id: TargetID)
    ensures PaneIndex(ps, id) < |ps| <==> CountIn(ps, id) > 0
  {
    if ps != [] { HoldsIffCounted(ps[1..], id); }
  }

  lemma {:induction false} OwnerIffCounted(ws: seq<Window>, id: TargetID)
    ensures OwnerIndex(ws, id) < |ws| <==> Count(ws, id) > 0
  {
    if ws != [] {
      OwnerIffCounted(ws[1..], id);
      HoldsIffCounted(ws[0].panes, id);
    }
  }

  lemma {:induction false} IdsCounted(ps: seq<Pane>, id: TargetID)
    ensures id in Ids(ps) <==> CountIn(ps, id) > 0
  {
    if ps != [] {
      IdsCounted(ps[1..], id);
      assert Ids(ps) == [ps[0].id] + Ids(ps[1..]);
    }
  }

  lemma {:induction false} AllIdsCounted(ws: seq<Window>, id: TargetID)
    ensures id in AllIds(ws) <==> Count(ws, id) > 0
  {
    if ws != [] {
      AllIdsCounted(ws[1..], id);
      IdsCounted(ws[0].panes, id);
    }
  }

  // ------------------------------------------------------------------ effect of each mutator on the counts

  lemma CountWithout(ws: seq<Window>, k: nat, id: TargetID, j: TargetID)
    requires k < |ws| && Holds(ws[k], id)
    ensures Count(ws[k := WithoutPane(ws[k], id)], j) == Count(ws, j) - (if j == id then 1 else 0)
  {
    CountUpdate(ws, k, WithoutPane(ws[k], id), j);
    CountInSplice(ws[k].panes, PaneIndex(ws[k].panes, id), j);
  }

  lemma CountOfRemove(s: Session, id: TargetID, j: TargetID)
    ensures RemovePane(s, id).None? <==> Count(s.windows, id) == 0
    ensures Count(RemovePane(s, id).GetOr(s).windows, j) ==
            Count(s.windows, j) - (if j == id && Count(s.windows, id) > 0 then 1 else 0)
  {
    OwnerIffCounted(s.windows, id);
    if Present(s, id) { CountWithout(s.windows, OwnerIndex(s.windows, id), id, j); }
  }

  lemma CountOfAdd(s: Session, name: string, p: Pane, j: TargetID)
    requires AddPane(s, name, p).Some?
    ensures Count(AddPane(s, name, p).value.windows, j) == Count(s.windows, j) + (if p.id == j then 1 else 0)
  {
    var k := WindowIndex(s.windows, name);
    CountUpdate(s.windows, k, s.windows[k].(panes := s.windows[k].panes + [p]), j);
    CountInAppend(s.windows[k].panes, p, j);
  }

  lemma CountOfPut(ws: seq<Window>, k: nat, id: TargetID, p: Pane, j: TargetID)
    requires k < |ws| && Holds(ws[k], id)
    ensures Count(ws[k := PutPane(ws[k], id, p)], j) ==
            Count(ws, j) - (if j == id then 1 else 0) + (if j == p.id then 1 else 0)
  {
    CountUpdate(ws, k, PutPane(ws[k], id, p), j);
    CountInPut(ws[k].panes, PaneIndex(ws[k].panes, id), p, j);
  }

  // ------------------------------------------------------------------ distinct ids pin every pane down

  lemma {:induction false} HeldTwiceInside(ps: seq<Pane>, i: nat)
    requires i < |ps| && i != PaneIndex(ps, ps[i].id)
    ensures CountIn(ps, ps[i].id) >= 2
  {
    if ps[0].id == ps[i].id {
      HoldsIffCounted(ps[1..], ps[i].id);
      assert ps[1..][i - 1] == ps[i];
    } else {
      HeldTwiceInside(ps[1..], i - 1);
    }
  }

  lemma {:induction false} HeldTwiceAcross(ws: seq<Window>, j: nat, k: nat, id: TargetID)
    requires j < k < |ws| && Holds(ws[j], id) && Holds(ws[k], id)
    ensures Count(ws, id) >= 2
  {
    if j == 0 {
      HoldsIffCounted(ws[0].panes, id);
      OwnerIffCounted(ws[1..], id);
      assert Holds(ws[1..][k - 1], id);
    } else {
      HeldTwiceAcross(ws[1..], j - 1, k - 1, id);
    }
  }

  lemma TwoSlots(ws: seq<Window>, k: nat, i: nat)
    requires k < |ws| && i < |ws[k].panes|
    requires k != OwnerIndex(ws, ws[k].panes[i].id) || i != PaneIndex(ws[k].panes, ws[k].panes[i].id)
    ensures Count(ws, ws[k].panes[i].id) >= 2
  {
    var id := ws[k].panes[i].id;
    if i != PaneIndex(ws[k].panes, id) {
      HeldTwiceInside(ws[k].panes, i);
      CountUpdate(ws, k, ws[k], id);
    } else {
      HeldTwiceAcross(ws, OwnerIndex(ws, id), k, id);
    }
  }

  /** When ids are distinct a target id names one slot. */
  lemma SameSlot(ws: seq<Window>, k: nat, i: nat)
    requires DistinctIds(ws) && k < |ws| && i < |ws[k].panes|
    ensures k == OwnerIndex(ws, ws[k].panes[i].id) && i == PaneIndex(ws[k].panes, ws[k].panes[i].id)
  {
    if k != OwnerIndex(ws, ws[k].panes[i].id) || i != PaneIndex(ws[k].panes, ws[k].panes[i].id) {
      TwoSlots(ws, k, i);
    }
  }

  lemma OnlyOwnerHolds(ws: seq<Window>, k: nat, id: TargetID)
    requires DistinctIds(ws) && k < |ws| && Holds(ws[k], id)
    ensures k == OwnerIndex(ws, id)
  {
    SameSlot(ws, k, PaneIndex(ws[k].panes, id));
  }

  // ------------------------------------------------------------------ group kill

  /** The panes whose ids are outside `ids`, in order. */
  function DropFrom(ps: seq<Pane>, ids: set<TargetID>): seq<Pane> {
    if ps == [] then [] else (if ps[0].id in ids then [] else [ps[0]]) + DropFrom(ps[1..], ids)
  }

  function Drop(ws: seq<Window>, ids: set<TargetID>): (r: seq<Window>)
    ensures |r| == |ws|
    ensures forall k :: 0 <= k < |ws| ==> r[k] == ws[k].(panes := DropFrom(ws[k].panes, ids))
  {
    seq(|ws|, k requires 0 <= k < |ws| => ws[k].(panes := DropFrom(ws[k].panes, ids)))
  }

  lemma {:induction false} DropAbsent(ps: seq<Pane>, id: TargetID)
    requires forall i :: 0 <= i < |ps| ==> ps[i].id != id
    ensures DropFrom(ps, {id}) == ps
  {
    if ps != [] { DropAbsent(ps[1..], id); }
  }

  lemma {:induction false} DropConcat(a: seq<Pane>, b: seq<Pane>, ids: set<TargetID>)
    ensures DropFrom(a + b, ids) == DropFrom(a, ids) + DropFrom(b, ids)
  {
    if a == [] {
      assert a + b == b;
    } else {
      assert (a + b)[1..] == a[1..] + b;
      DropConcat(a[1..], b, ids);
    }
  }

  lemma DropOne(ps: seq<Pane>, id: TargetID)
    requires PaneIndex(ps, id) < |ps|
    requires forall i :: PaneIndex(ps, id) < i < |ps| ==> ps[i].id != id
    ensures var i := PaneIndex(ps, id); DropFrom(ps, {id}) == ps[..i] + ps[i + 1..]
  {
    hide PaneIndex, DropFrom;
    var i := PaneIndex(ps, id);
    var a, b := ps[..i], ps[i + 1..];
    assert ps == a + ([ps[i]] + b);
    DropConcat(a, [ps[i]] + b, {id});
    DropConcat([ps[i]], b, {id});
    DropAbsent(a, id);
    DropAbsent(b, id);
    DropHit(ps[i]);
  }

  lemma DropHit(p: Pane)
    ensures DropFrom([p], {p.id}) == []
  {
    assert [p][1..] == [];
  }

  lemma {:induction false} DropTwice(ps: seq<Pane>, a: set<TargetID>, b: set<TargetID>)
    ensures DropFrom(DropFrom(ps, a), b) == DropFrom(ps, a + b)
  {
    if ps != [] {
      DropTwice(ps[1..], a, b);
      if ps[0].id !in a {
        assert DropFrom(ps, a) == [ps[0]] + DropFrom(ps[1..], a);
        assert DropFrom(ps, a)[1..] == DropFrom(ps[1..], a);
      } else {
        assert DropFrom(ps, a) == DropFrom(ps[1..], a);
      }
    }
  }

  lemma RemoveIsDrop(s: Session, id: TargetID)
    requires DistinctIds(s.windows)
    ensures RemovePane(s, id).GetOr(s) == s.(windows := Drop(s.windows, {id}))
  {
    var ws := s.windows;
    var owner := OwnerIndex(ws, id);
    var r := RemovePane(s, id).GetOr(s).windows;
    forall k | 0 <= k < |ws| ensures r[k] == Drop(ws, {id})[k] {
      if k != owner {
        if Holds(ws[k], id) { OnlyOwnerHolds(ws, k, id); }
        DropAbsent(ws[k].panes, id);
      } else {
        forall i | PaneIndex(ws[k].panes, id) < i < |ws[k].panes| ensures ws[k].panes[i].id != id {
          SameSlot(ws, k, i);
        }
        DropOne(ws[k].panes, id);
      }
    }
    assert r == Drop(ws, {id});
  }

  lemma DropSets(ws: seq<Window>, a: set<TargetID>, b: set<TargetID>)
    ensures Drop(Drop(ws, a), b) == Drop(ws, a + b)
  {
    forall k | 0 <= k < |ws| ensures Drop(Drop(ws, a), b)[k] == Drop(ws, a + b)[k] {
      DropTwice(ws[k].panes, a, b);
    }
  }

  lemma DropNothing(ws: seq<Window>)
    ensures Drop(ws, {}) == ws
  {
    forall k | 0 <= k < |ws| ensures Drop(ws, {})[k] == ws[k] {
      DropNone(ws[k].panes);
    }
  }

  /** Removing targets one at a time, whatever their order or repetition, drops exactly the panes they name. */
  lemma {:induction false} RemoveEachIsDrop(s: Session, targets: seq<TargetID>)
    requires DistinctIds(s.windows)
    ensures RemoveEach(s, targets) == s.(windows := Drop(s.windows, SetOf(targets)))
    decreases |targets|
  {
    if targets == [] {
      DropNothing(s.windows);
      assert SetOf([]) == {};
    } else {
      var init, last := targets[..|targets| - 1], targets[|targets| - 1];
      RemoveEachIsDrop(s, init);
      RemoveEachShrinks(s, init);
      RemoveIsDrop(RemoveEach(s, init), last);
      assert SetOf(targets) == SetOf(init) + {last} by { assert targets == init + [last]; }
      DropSets(s.windows, SetOf(init), {last});
    }
  }

  lemma {:induction false} DropNone(ps: seq<Pane>)
    ensures DropFrom(ps, {}) == ps
  {
    if ps != [] { DropNone(ps[1..]); }
  }

  /** The panes of a window outside a group. */
  function Outside(ps: seq<Pane>, group: string): seq<Pane> {
    if ps == [] then [] else (if ps[0].group == group then [] else [ps[0]]) + Outside(ps[1..], group)
  }

  lemma {:induction false} TargetsOf(ps: seq<Pane>, group: string, id: TargetID)
    ensures id in GroupTargets(ps, group) <==> exists i :: 0 <= i < |ps| && ps[i].id == id && ps[i].group == group
  {
    if ps != [] {
      TargetsOf(ps[1..], group, id);
      if i :| 0 <= i < |ps[1..]| && ps[1..][i].id == id && ps[1..][i].group == group {
        assert ps[i + 1].id == id;
      }
      if i :| 0 < i < |ps| && ps[i].id == id && ps[i].group == group {
        assert ps[1..][i - 1] == ps[i];
      }
    }
  }

  lemma {:induction false} AllTargetsOf(ws: seq<Window>, group: string, id: TargetID)
    ensures id in AllGroupTargets(ws, group) <==>
            exists k :: 0 <= k < |ws| && id in GroupTargets(ws[k].panes, group)
  {
    if ws != [] {
      AllTargetsOf(ws[1..], group, id);
      if k :| 0 <= k < |ws[1..]| && id in GroupTargets(ws[1..][k].panes, group) {
        assert ws[k + 1] == ws[1..][k];
      }
      if k :| 0 < k < |ws| && id in GroupTargets(ws[k].panes, group) {
        assert ws[1..][k - 1] == ws[k];
      }
    }
  }

  lemma {:induction false} DropIsOutside(ps: seq<Pane>, ids: set<TargetID>, group: string)
    requires forall i :: 0 <= i < |ps| ==> (ps[i].id in ids <==> ps[i].group == group)
    ensures DropFrom(ps, ids) == Outside(ps, group)
  {
    if ps != [] { DropIsOutside(ps[1..], ids, group); }
  }

  ghost predicate InGroup(ws: seq<Window>, group: string, id: TargetID) {
    exists k, i :: 0 <= k < |ws| && 0 <= i < |ws[k].panes| && ws[k].panes[i].id == id && ws[k].panes[i].group == group
  }

  lemma TargetIffInGroup(ws: seq<Window>, group: string, id: TargetID)
    ensures id in AllGroupTargets(ws, group) <==> InGroup(ws, group, id)
  {
    AllTargetsOf(ws, group, id);
    forall k | 0 <= k < |ws|
      ensures id in GroupTargets(ws[k].panes, group) <==>
              (exists i :: 0 <= i < |ws[k].panes| && ws[k].panes[i].id == id && ws[k].panes[i].group == group)
    {
      TargetsOf(ws[k].panes, group, id);
    }
  }

  lemma DropTargetsIsOutside(s: Session, group: string, k: nat)
    requires WellFormed(s) && k < |s.windows|
    ensures DropFrom(s.windows[k].panes, SetOf(AllGroupTargets(s.windows, group))) == Outside(s.windows[k].panes, group)
  {
    var ps, targets := s.windows[k].panes, AllGroupTargets(s.windows, group);
    forall i | 0 <= i < |ps| ensures ps[i].id in SetOf(targets) <==> ps[i].group == group {
      TargetIffInGroup(s.windows, group, ps[i].id);
      if InGroup(s.windows, group, ps[i].id) {
        var k', i' :| 0 <= k' < |s.windows| && 0 <= i' < |s.windows[k'].panes|
          && s.windows[k'].panes[i'].id == ps[i].id && s.windows[k'].panes[i'].group == group;
        SameSlot(s.windows, k, i);
        SameSlot(s.windows, k', i');
      }
    }
    DropIsOutside(ps, SetOf(targets), group);
  }

  /** A group kill removes every pane of the group, and no other, from each window; only their pipelines go. */
  lemma GroupKillRemovesExactlyTheGroup(c: Core, group: string)
    requires Inv(c) && KillGroup(c, group).1 == NoContent
    ensures var c', ws := KillGroup(c, group).0, c.session.windows;
            && |c'.session.windows| == |ws|
            && c'.session.active == c.session.active
            && (forall k :: 0 <= k < |ws| ==> c'.session.windows[k] == ws[k].(panes := Outside(ws[k].panes, group)))
            && (forall id :: id in c.ids && id !in c'.ids <==> InGroup(ws, group, id))
  {
    var s, targets := c.session, AllGroupTargets(c.session.windows, group);
    RemoveEachIsDrop(s, targets);
    forall k | 0 <= k < |s.windows|
      ensures DropFrom(s.windows[k].panes, SetOf(targets)) == Outside(s.windows[k].panes, group)
    {
      DropTargetsIsOutside(s, group, k);
    }
    forall id ensures id in targets <==> InGroup(s.windows, group, id) {
      TargetIffInGroup(s.windows, group, id);
    }
    forall id | InGroup(s.windows, group, id) ensures id in c.ids {
      var k, i :| 0 <= k < |s.windows| && 0 <= i < |s.windows[k].panes| && s.windows[k].panes[i].id == id;
      SameSlot(s.windows, k, i);
      OwnerIffCounted(s.windows, id);
    }
  }

  // ------------------------------------------------------------------ swap

  lemma PutKeepsIndex(ps: seq<Pane>, i: nat, p: Pane, j: TargetID)
    requires i < |ps| && p.id == ps[i].id
    ensures PaneIndex(ps[i := p], j) == PaneIndex(ps, j)
  {
    assert forall h :: 0 <= h < |ps| ==> ps[i := p][h].id == ps[h].id;
  }

  lemma SwapKeepsCounts(s: Session, a: TargetID, b: TargetID, j: TargetID)
    requires Present(s, a) && Present(s, b)
    ensures Count(Swap(s, a, b).windows, j) == Count(s.windows, j)
  {
    var ws := s.windows;
    var ka, kb := OwnerIndex(ws, a), OwnerIndex(ws, b);
    var pa, pb := PaneOf(s, a), PaneOf(s, b);
    var pa' := pa.(split := pb.split, size := pb.size);
    var pb' := pb.(split := pa.split, size := pa.size);
    if a == b {
    } else if ws[ka].name == ws[kb].name {
      CountOfPut(ws, ka, a, pa', j);
      PutKeepsIndex(ws[ka].panes, PaneIndex(ws[ka].panes, a), pa', b);
      CountOfPut(ws[ka := PutPane(ws[ka], a, pa')], kb, b, pb', j);
    } else {
      CountOfPut(ws, ka, a, pb', j);
      CountOfPut(ws[ka := PutPane(ws[ka], a, pb')], kb, b, pa', j);
    }
  }

  lemma SwapKeepsShape(s: Session, a: TargetID, b: TargetID)
    requires Present(s, a) && Present(s, b)
    ensures var ws, ws' := s.windows, Swap(s, a, b).windows;
            |ws'| == |ws| && forall k :: 0 <= k < |ws| ==> ws'[k].name == ws[k].name && |ws'[k].panes| == |ws[k].panes|
  {}

  lemma SwapKeepsWellFormed(s: Session, a: TargetID, b: TargetID)
    requires WellFormed(s) && Present(s, a) && Present(s, b)
    ensures WellFormed(Swap(s, a, b))
    ensures forall j :: Count(Swap(s, a, b).windows, j) == Count(s.windows, j)
  {
    SwapKeepsShape(s, a, b);
    forall j ensures Count(Swap(s, a, b).windows, j) == Count(s.windows, j) { SwapKeepsCounts(s, a, b, j); }
    ShrinkKeepsWellFormed(s, Swap(s, a, b));
  }

  /** Where both panes are after a swap. */
  lemma SwapSlots(s: Session, a: TargetID, b: TargetID)
    requires WellFormed(s) && Present(s, a) && Present(s, b) && a != b
    ensures var ka, kb, s' := OwnerIndex(s.windows, a), OwnerIndex(s.windows, b), Swap(s, a, b);
            var ia, ib := PaneIndex(s.windows[ka].panes, a), PaneIndex(s.windows[kb].panes, b);
            if ka == kb then
              && OwnerIndex(s'.windows, a) == ka && OwnerIndex(s'.windows, b) == ka
              && PaneIndex(s'.windows[ka].panes, a) == ia && PaneIndex(s'.windows[ka].panes, b) == ib
            else
              && OwnerIndex(s'.windows, b) == ka && PaneIndex(s'.windows[ka].panes, b) == ia
              && OwnerIndex(s'.windows, a) == kb && PaneIndex(s'.windows[kb].panes, a) == ib
  {
    var s' := Swap(s, a, b);
    var ka, kb := OwnerIndex(s.windows, a), OwnerIndex(s.windows, b);
    SwapKeepsWellFormed(s, a, b);
    SameSlot(s'.windows, ka, PaneIndex(s.windows[ka].panes, a));
    SameSlot(s'.windows, kb, PaneIndex(s.windows[kb].panes, b));
  }

  lemma SwapAcross(s: Session, a: TargetID, b: TargetID)
    requires WellFormed(s) && Present(s, a) && Present(s, b)
    requires OwnerIndex(s.windows, a) != OwnerIndex(s.windows, b)
    ensures var ka, kb, s' := OwnerIndex(s.windows, a), OwnerIndex(s.windows, b), Swap(s, a, b);
            var pa, pb := PaneOf(s, a), PaneOf(s, b);
            && Present(s', a) && Present(s', b)
            && PaneOf(s', a) == pa.(split := pb.split, size := pb.size)
            && PaneOf(s', b) == pb.(split := pa.split, size := pa.size)
            && s' == s.(windows := s.windows[ka := PutPane(s.windows[ka], a, PaneOf(s', b))]
                                            [kb := PutPane(s.windows[kb], b, PaneOf(s', a))])
  {
    SwapSlots(s, a, b);
    assert s.windows[OwnerIndex(s.windows, a)].name != s.windows[OwnerIndex(s.windows, b)].name;
  }

  lemma PutsUndone(ws: seq<Window>, ka: nat, kb: nat, a: TargetID, b: TargetID, pa: Pane, pb: Pane)
    requires ka < |ws| && kb < |ws| && ka != kb && Holds(ws[ka], a) && Holds(ws[kb], b)
    requires var ws' := ws[ka := PutPane(ws[ka], a, pb)][kb := PutPane(ws[kb], b, pa)];
             && PaneIndex(ws'[ka].panes, b) == PaneIndex(ws[ka].panes, a)
             && PaneIndex(ws'[kb].panes, a) == PaneIndex(ws[kb].panes, b)
    ensures var ws' := ws[ka := PutPane(ws[ka], a, pb)][kb := PutPane(ws[kb], b, pa)];
            var a0, b0 := ws[ka].panes[PaneIndex(ws[ka].panes, a)], ws[kb].panes[PaneIndex(ws[kb].panes, b)];
            ws'[kb := PutPane(ws'[kb], a, b0)][ka := PutPane(ws'[ka], b, a0)] == ws
  {
    var ws' := ws[ka := PutPane(ws[ka], a, pb)][kb := PutPane(ws[kb], b, pa)];
    var a0, b0 := ws[ka].panes[PaneIndex(ws[ka].panes, a)], ws[kb].panes[PaneIndex(ws[kb].panes, b)];
    assert PutPane(ws'[kb], a, b0).panes == ws[kb].panes;
    assert PutPane(ws'[ka], b, a0).panes == ws[ka].panes;
  }

  lemma SwapUndoneAcross(s: Session, a: TargetID, b: TargetID)
    requires WellFormed(s) && Present(s, a) && Present(s, b)
    requires OwnerIndex(s.windows, a) != OwnerIndex(s.windows, b)
    ensures Present(Swap(s, a, b), a) && Present(Swap(s, a, b), b)
    ensures Swap(Swap(s, a, b), a, b) == s
  {
    var s', ka, kb := Swap(s, a, b), OwnerIndex(s.windows, a), OwnerIndex(s.windows, b);
    SwapSlots(s, a, b);
    SwapAcross(s, a, b);
    SwapKeepsShape(s, a, b);
    assert s.windows[ka].name != s.windows[kb].name;
    PutsUndone(s.windows, ka, kb, a, b, PaneOf(s', a), PaneOf(s', b));
  }

  lemma SwapUndoneInside(s: Session, a: TargetID, b: TargetID)
    requires WellFormed(s) && Present(s, a) && Present(s, b) && a != b
    requires OwnerIndex(s.windows, a) == OwnerIndex(s.windows, b)
    ensures Present(Swap(s, a, b), a) && Present(Swap(s, a, b), b)
    ensures Swap(Swap(s, a, b), a, b) == s
  {
    var s', k := Swap(s, a, b), OwnerIndex(s.windows, a);
    SwapSlots(s, a, b);
    var s'' := Swap(s', a, b);
    assert s''.windows[k].panes == s.windows[k].panes;
    assert s''.windows == s.windows;
  }

  /** Swapping two panes twice restores the session exactly. */
  lemma SwapUndoesItself(s: Session, a: TargetID, b: TargetID)
    requires WellFormed(s) && Present(s, a) && Present(s, b)
    ensures Present(Swap(s, a, b), a) && Present(Swap(s, a, b), b)
    ensures Swap(Swap(s, a, b), a, b) == s
  {
    if a != b {
      if OwnerIndex(s.windows, a) == OwnerIndex(s.windows, b) {
        SwapUndoneInside(s, a, b);
      } else {
        SwapUndoneAcross(s, a, b);
      }
    }
  }

  // ------------------------------------------------------------------ the invariant over steps and runs

  ghost predicate NoMoreIds(ws: seq<Window>, ws': seq<Window>) {
    forall j :: Count(ws', j) <= Count(ws, j)
  }

  ghost predicate SameIds(ws: seq<Window>, ws': seq<Window>) {
    forall j :: Count(ws', j) == Count(ws, j)
  }

  ghost predicate NoBigger(ws: seq<Window>, ws': seq<Window>) {
    |ws'| == |ws| && forall k :: 0 <= k < |ws| ==> ws'[k].name == ws[k].name && |ws'[k].panes| <= |ws[k].panes|
  }

  lemma NoBiggerKeepsShape(ws: seq<Window>, ws': seq<Window>)
    requires Shaped(ws) && NoBigger(ws, ws')
    ensures Shaped(ws')
  {}

  lemma ShrinkKeepsWellFormed(s: Session, s': Session)
    requires WellFormed(s) && NoBigger(s.windows, s'.windows) && NoMoreIds(s.windows, s'.windows) &&
             s'.active == s.active
    ensures WellFormed(s')
  {
    NoBiggerKeepsShape(s.windows, s'.windows);
  }

  lemma RemoveShrinks(s: Session, id: TargetID)
    ensures NoBigger(s.windows, RemovePane(s, id).GetOr(s).windows)
    ensures NoMoreIds(s.windows, RemovePane(s, id).GetOr(s).windows)
    ensures DistinctIds(s.windows) ==> Count(RemovePane(s, id).GetOr(s).windows, id) == 0
  {
    forall j ensures Count(RemovePane(s, id).GetOr(s).windows, j) <= Count(s.windows, j) { CountOfRemove(s, id, j); }
    if DistinctIds(s.windows) {
      CountOfRemove(s, id, id);
      assert Count(s.windows, id) <= 1;
    }
  }

  lemma RemoveKeepsFocus(s: Session, id: TargetID)
    ensures RemovePane(s, id).GetOr(s).active == s.active
  {}

  lemma {:induction false} RemoveEachShrinks(s: Session, targets: seq<TargetID>)
    requires DistinctIds(s.windows)
    ensures NoBigger(s.windows, RemoveEach(s, targets).windows) && RemoveEach(s, targets).active == s.active
    ensures NoMoreIds(s.windows, RemoveEach(s, targets).windows) && DistinctIds(RemoveEach(s, targets).windows)
    ensures forall j :: j in targets ==> Count(RemoveEach(s, targets).windows, j) == 0
    decreases |targets|
  {
    hide Count, RemovePane;
    if targets != [] {
      var init, last := targets[..|targets| - 1], targets[|targets| - 1];
      RemoveEachShrinks(s, init);
      RemoveShrinks(RemoveEach(s, init), last);
      RemoveKeepsFocus(RemoveEach(s, init), last);
      assert targets == init + [last];
    }
  }

  lemma CreateKeepsWellFormed(s: Session, name: string)
    requires WellFormed(s) && CreateWindow(s, name).Some?
    ensures WellFormed(CreateWindow(s, name).value)
    ensures SameIds(s.windows, CreateWindow(s, name).value.windows)
  {
    var ws' := s.windows + [Window(name, [])];
    forall j ensures Count(ws', j) == Count(s.windows, j) { CountAppend(s.windows, Window(name, []), j); }
    assert Shaped(ws');
  }

  lemma CloseKeepsWellFormed(s: Session, name: string)
    requires WellFormed(s) && CloseWindow(s, name).Some?
    ensures WellFormed(CloseWindow(s, name).value)
    ensures NoMoreIds(s.windows, CloseWindow(s, name).value.windows)
  {
    var k := WindowIndex(s.windows, name);
    var rest := s.windows[..k] + s.windows[k + 1..];
    SpliceKeepsShape(s.windows, k);
    forall j ensures Count(rest, j) <= Count(s.windows, j) { CountSplice(s.windows, k, j); }
  }

  lemma SpliceKeepsShape(ws: seq<Window>, k: nat)
    requires k < |ws| && Shaped(ws)
    ensures Shaped(ws[..k] + ws[k + 1..])
  {
    var rest := ws[..k] + ws[k + 1..];
    assert forall j :: 0 <= j < |rest| ==> rest[j] == ws[if j < k then j else j + 1];
  }

  lemma RenameKeepsWellFormed(s: Session, oldName: string, newName: string)
    requires WellFormed(s) && RenameWindow(s, oldName, newName).Some?
    ensures WellFormed(RenameWindow(s, oldName, newName).value)
    ensures SameIds(s.windows, RenameWindow(s, oldName, newName).value.windows)
  {
    var k := WindowIndex(s.windows, oldName);
    var w := s.windows[k].(name := newName);
    var ws' := RenameWindow(s, oldName, newName).value.windows;
    forall j ensures Count(ws', j) == Count(s.windows, j) { CountUpdate(s.windows, k, w, j); }
    assert DistinctIds(ws') by { assert forall j :: Count(s.windows, j) <= 1; }
    RenameKeepsShape(s.windows, k, newName);
  }

  lemma RenameKeepsShape(ws: seq<Window>, k: nat, name: string)
    requires Shaped(ws) && k < |ws| && name != "" && forall j :: 0 <= j < |ws| ==> ws[j].name != name
    ensures Shaped(ws[k := ws[k].(name := name)])
  {}

  lemma AddKeepsShape(s: Session, name: string, p: Pane)
    requires Shaped(s.windows) && AddPane(s, name, p).Some?
    ensures Shaped(AddPane(s, name, p).value.windows)
  {}

  /** Adding a pane and removing the first with its id leaves the count of every id as it was. */
  lemma RollbackKeepsIds(s: Session, name: string, p: Pane)
    requires AddPane(s, name, p).Some?
    ensures RemovePane(AddPane(s, name, p).value, p.id).Some?
    ensures SameIds(s.windows, RemovePane(AddPane(s, name, p).value, p.id).value.windows)
  {
    var added := AddPane(s, name, p).value;
    CountOfAdd(s, name, p, p.id);
    CountOfRemove(added, p.id, p.id);
    forall j ensures Count(RemovePane(added, p.id).value.windows, j) == Count(s.windows, j) {
      CountOfAdd(s, name, p, j);
      CountOfRemove(added, p.id, j);
    }
  }

  lemma RollbackKeepsWellFormed(s: Session, name: string, p: Pane)
    requires WellFormed(s) && AddPane(s, name, p).Some?
    ensures RemovePane(AddPane(s, name, p).value, p.id).Some?
    ensures WellFormed(RemovePane(AddPane(s, name, p).value, p.id).value)
    ensures SameIds(s.windows, RemovePane(AddPane(s, name, p).value, p.id).value.windows)
  {
    var added := AddPane(s, name, p).value;
    RollbackKeepsIds(s, name, p);
    RemoveShrinks(added, p.id);
    AddKeepsShape(s, name, p);
    NoBiggerKeepsShape(added.windows, RemovePane(added, p.id).value.windows);
  }

  lemma AddFreshKeepsWellFormed(s: Session, name: string, p: Pane)
    requires WellFormed(s) && AddPane(s, name, p).Some? && Count(s.windows, p.id) == 0
    ensures WellFormed(AddPane(s, name, p).value)
    ensures forall j ::
              Count(AddPane(s, name, p).value.windows, j) == Count(s.windows, j) + (if p.id == j then 1 else 0)
  {
    AddKeepsShape(s, name, p);
    forall j ensures Count(AddPane(s, name, p).value.windows, j) == Count(s.windows, j) + (if p.id == j then 1 else 0) {
      CountOfAdd(s, name, p, j);
    }
  }

  /** A rejected split keeps the set of target ids; an accepted one adds its own. */
  lemma SplitKeepsInv(c: Core, op: Op)
    requires Inv(c) && op.PaneSplit?
    ensures Inv(Split(c, op).0)
    ensures forall id :: Count(Split(c, op).0.session.windows, id) ==
              Count(c.session.windows, id) + (if Split(c, op).1 == Created && id == op.newID then 1 else 0)
  {
    var s := c.session;
    var k := OwnerIndex(s.windows, op.parent);
    if k < |s.windows| && AddPane(s, s.windows[k].name, NewPane(op.newID, op)).Some? {
      if op.newID in c.ids {
        RollbackKeepsWellFormed(s, s.windows[k].name, NewPane(op.newID, op));
      } else {
        AddFreshKeepsWellFormed(s, s.windows[k].name, NewPane(op.newID, op));
      }
    }
  }

  lemma CloseKeepsInv(c: Core, id: string)
    requires Inv(c)
    ensures Inv(ClosePane(c, id).0)
  {
    RemoveShrinks(c.session, id);
    ShrinkKeepsWellFormed(c.session, RemovePane(c.session, id).GetOr(c.session));
  }

  lemma KillKeepsInv(c: Core, group: string)
    requires Inv(c)
    ensures Inv(KillGroup(c, group).0)
  {
    var targets := AllGroupTargets(c.session.windows, group);
    RemoveEachShrinks(c.session, targets);
    ShrinkKeepsWellFormed(c.session, RemoveEach(c.session, targets));
  }

  lemma SwapKeepsInv(c: Core, a: string, b: string)
    requires Inv(c)
    ensures Inv(SwapPanes(c, a, b).0)
  {
    if Present(c.session, a) && Present(c.session, b) { SwapKeepsWellFormed(c.session, a, b); }
  }

  lemma TitleKeepsInv(c: Core, id: string, title: string)
    requires Inv(c)
    ensures Inv(SetTitle(c, id, title).0)
  {
    var s, k := c.session, OwnerIndex(c.session.windows, id);
    if k < |s.windows| {
      var p := PaneOf(s, id).(title := title);
      forall j ensures Count(EditPane(s, id, p).windows, j) == Count(s.windows, j) {
        CountOfPut(s.windows, k, id, p, j);
      }
      ShrinkKeepsWellFormed(s, EditPane(s, id, p));
    }
  }

  lemma ApplyKeepsInv(c: Core, name: string)
    requires Inv(c)
    ensures Inv(ApplyLayout(c, name).0)
  {
    if name in c.layouts {
      var ws := c.layouts[name].windows;
      forall id ensures id in AllIds(ws) <==> Count(ws, id) > 0 { AllIdsCounted(ws, id); }
    }
  }

  /** Every handler keeps the invariant. */
  lemma StepKeepsInv(c: Core, op: Op)
    requires Inv(c)
    ensures Inv(Step(c, op).0)
  {
    hide Split, ClosePane, KillGroup, SwapPanes, SetTitle, ApplyLayout, Count, CloseWindow, CreateWindow, RenameWindow,
        WindowIndex;
    match op
    case WindowCreate(name) => if CreateWindow(c.session, name).Some? { CreateKeepsWellFormed(c.session, name); }
    case WindowClose(name) => if CloseWindow(c.session, name).Some? { CloseKeepsWellFormed(c.session, name); }
    case WindowRename(name, newName) =>
      if RenameWindow(c.session, name, newName).Some? { RenameKeepsWellFormed(c.session, name, newName); }
    case WindowFocus(name) =>
    case PaneSplit(_, _, _, _, _, _) => SplitKeepsInv(c, op);
    case PaneClose(id) => CloseKeepsInv(c, id);
    case GroupKill(group) => KillKeepsInv(c, group);
    case PaneSwap(a, b) => SwapKeepsInv(c, a, b);
    case PaneTitle(id, title) => TitleKeepsInv(c, id, title);
    case LayoutSave(name) =>
    case LayoutApply(name) => ApplyKeepsInv(c, name);
  }

  /** So every run of handlers from a good state ends in a good state. */
  lemma {:induction false} RunKeepsInv(c: Core, ops: seq<Op>)
    requires Inv(c)
    ensures Inv(Run(c, ops))
    decreases |ops|
  {
    if ops != [] {
      StepKeepsInv(c, ops[0]);
      RunKeepsInv(Step(c, ops[0]).0, ops[1..]);
    }
  }

  // ------------------------------------------------------------------ the split's rollback

  /** The rollback takes out the pane just added exactly when no window up to the one it was added to already held its
      id, and then it restores the session; otherwise it takes out an older pane, in the slot it had before. */
  lemma RollbackRemovesTheNewPaneIff(s: Session, name: string, p: Pane)
    requires AddPane(s, name, p).Some?
    ensures var k, o := WindowIndex(s.windows, name), OwnerIndex(s.windows, p.id);
            var ws := AddPane(s, name, p).value.windows;
            && k < |s.windows|
            && OwnerIndex(ws, p.id) == (if o > k then k else o)
            && (if o > k then PaneIndex(ws[k].panes, p.id) == |s.windows[k].panes|
                else PaneIndex(ws[o].panes, p.id) == PaneIndex(s.windows[o].panes, p.id) < |s.windows[o].panes|)
    ensures RemovePane(AddPane(s, name, p).value, p.id).Some?
    ensures OwnerIndex(s.windows, p.id) > WindowIndex(s.windows, name) ==>
              RemovePane(AddPane(s, name, p).value, p.id) == Some(s)
  {
    hide OwnerIndex, PaneIndex, WindowIndex;
    var k, o := WindowIndex(s.windows, name), OwnerIndex(s.windows, p.id);
    var ws, w := AddPane(s, name, p).value.windows, s.windows[k];
    assert ws == s.windows[k := w.(panes := w.panes + [p])];
    PaneIndexSnoc(w.panes, p, p.id);
    if o > k {
      assert !Holds(w, p.id) && Holds(ws[k], p.id);
      FirstOwner(ws, p.id, k);
      assert (w.panes + [p])[..|w.panes|] + (w.panes + [p])[|w.panes| + 1..] == w.panes;
      assert RemovePane(AddPane(s, name, p).value, p.id).value.windows == s.windows;
    } else {
      FirstOwner(ws, p.id, o);
    }
  }

  lemma {:induction false} PaneIndexSnoc(ps: seq<Pane>, p: Pane, id: TargetID)
    ensures PaneIndex(ps + [p], id) ==
            if PaneIndex(ps, id) < |ps| then PaneIndex(ps, id) else if p.id == id then |ps| else |ps| + 1
  {
    var qs := ps + [p];
    var i := PaneIndex(ps, id);
    assert i < |ps| ==> qs[i].id == id;
    assert forall j :: 0 <= j < |ps| ==> qs[j] == ps[j];
    assert qs[|ps|] == p;
  }

  // ------------------------------------------------------------------ save, run, apply

  lemma {:induction false} LayoutSurvivesRun(c: Core, name: string, ops: seq<Op>)
    requires name in c.layouts
    requires forall i :: 0 <= i < |ops| ==> ops[i] != LayoutSave(name)
    ensures name in Run(c, ops).layouts && Run(c, ops).layouts[name] == c.layouts[name]
    decreases |ops|
  {
    if ops != [] {
      assert ops[0] != LayoutSave(name);
      LayoutSurvivesRun(Step(c, ops[0]).0, name, ops[1..]);
    }
  }

  /** Saving a layout, taking any run of steps that does not overwrite it, and applying it brings back the
      windows, every pane field and the active window of save time, and reconciles the pipelines. */
  lemma SaveRunApplyRestores(c: Core, name: string, ops: seq<Op>)
    requires Inv(c) && name != ""
    requires forall i :: 0 <= i < |ops| ==> ops[i] != LayoutSave(name)
    ensures var mid := Run(SaveLayout(c, name).0, ops);
            var end := ApplyLayout(mid, name);
            var before, after := SetOf(AllIds(mid.session.windows)), SetOf(AllIds(c.session.windows));
            && end.1 == NoContent
            && end.0 == Core(c.session, (mid.ids - (before - after)) + after, mid.layouts)
  {
    LayoutSurvivesRun(SaveLayout(c, name).0, name, ops);
  }
}
