/** Connecting (verify, then register) racing with two-part revocation (hub, then store). */
module Revocation {
  import opened HubModel

  /** `valid` are the ids in the token store, `issued` all ids ever handed out, `pending` the connects that were
      verified and have not registered yet. */
  datatype World = World(hub: Hub<nat>, valid: set<string>, issued: set<string>, pending: map<nat, string>)

  datatype Move =
    | Issue(id: string)
    | Verify(c: nat, id: string)
    | VerifyOwner(c: nat)
    | Connect(c: nat)
    | RevokeInHub(id: string)
    | RevokeInStore(id: string)
    | InHub(e: Event<nat>)

  predicate Allowed(w: World, m: Move) {
    match m
    case Issue(id) => id != "" && id !in w.issued
    case Verify(c, id) => id in w.valid && c !in w.pending && c !in w.hub.clients
    case VerifyOwner(c) => c !in w.pending && c !in w.hub.clients
    case Connect(c) => c in w.pending
    case InHub(e) => !e.Registers? && !e.Revokes?
    case _ => true
  }

  /** What a move is to the hub. */
  function HubEvents(w: World, m: Move): seq<Event<nat>> {
    if !Allowed(w, m) then []
    else
      match m
      case Connect(c) => [Registers(c, w.pending[c])]
      case RevokeInHub(id) => [Revokes(id)]
      case InHub(e) => [e]
      case _ => []
  }

  function Next(w: World, m: Move): World {
    var hub := HubModel.Run(w.hub, HubEvents(w, m));
    if !Allowed(w, m) then w
    else
      match m
      case Issue(id) => w.(valid := w.valid + {id}, issued := w.issued + {id})
      case Verify(c, id) => w.(pending := w.pending[c := id])
      case VerifyOwner(c) => w.(pending := w.pending[c := ""])
      case Connect(c) => w.(hub := hub, pending := w.pending - {c})
      case RevokeInStore(id) => w.(valid := w.valid - {id})
      case _ => w.(hub := hub)
  }

  function After(w: World, ms: seq<Move>): World
    decreases |ms|
  {
    if ms == [] then w else After(Next(w, ms[0]), ms[1..])
  }

  lemma HubFollows(w: World, m: Move)
    ensures Next(w, m).hub == HubModel.Run(w.hub, HubEvents(w, m))
  {}

  /** From the hub half of a revocation on, no connection of the token receives a broadcast, in any interleaving. */
  lemma {:induction false} NoBroadcastAfterHubHalf(w: World, ms: seq<Move>, c: nat)
    requires c in After(w, ms).hub.clients && IsRevoked(w.hub, After(w, ms).hub.clients[c].token)
    ensures Received(After(w, ms).hub.clients[c]) == if c in w.hub.clients then Received(w.hub.clients[c]) else []
    decreases |ms|
  {
    if ms != [] {
      var w', token := Next(w, ms[0]), After(w, ms).hub.clients[c].token;
      HubFollows(w, ms[0]);
      RevokedStaysRevoked(w.hub, HubEvents(w, ms[0]), token);
      NoBroadcastAfterHubHalf(w', ms[1..], c);
      if c in w'.hub.clients {
        ClientsStayAfter(w', ms[1..], c);
        NothingAfterRevocation(w.hub, HubEvents(w, ms[0]), c);
      } else if c in w.hub.clients {
        ClientsStay(w.hub, HubEvents(w, ms[0]), c);
      }
    }
  }

  lemma {:induction false} ClientsStayAfter(w: World, ms: seq<Move>, c: nat)
    requires c in w.hub.clients
    ensures c in After(w, ms).hub.clients && After(w, ms).hub.clients[c].token == w.hub.clients[c].token
    decreases |ms|
  {
    if ms != [] {
      HubFollows(w, ms[0]);
      ClientsStay(w.hub, HubEvents(w, ms[0]), c);
      ClientsStayAfter(Next(w, ms[0]), ms[1..], c);
    }
  }

  // ------------------------------------------------------------------ eventually the hub is clean

  /** Both halves have run and every connect that was verified before has registered. */
  ghost predicate Settled(w: World, id: string) {
    && id != "" && id in w.hub.revoked && id in w.issued && id !in w.valid
    && forall c :: c in w.pending ==> w.pending[c] != id
  }

  ghost predicate NoMember(h: Hub<nat>, id: string) {
    forall c :: c in h.members && c in h.clients ==> h.clients[c].token != id
  }

  lemma BroadcastClears(w: World, id: string, data: string)
    requires Settled(w, id)
    ensures var w' := Next(w, InHub(Broadcasts(data))); Settled(w', id) && NoMember(w'.hub, id)
  {
    var es: seq<Event<nat>> := HubEvents(w, InHub(Broadcasts(data)));
    assert es[0] == Broadcasts(data) && es[1..] == [];
    assert HubModel.Run(w.hub, es) == Broadcast(w.hub, data);
  }

  lemma CleanStaysClean(w: World, id: string, m: Move)
    requires Settled(w, id) && NoMember(w.hub, id)
    ensures Settled(Next(w, m), id) && NoMember(Next(w, m).hub, id)
  {
    var es := HubEvents(w, m);
    if es != [] {
      assert es[1..] == [];
      HubFollows(w, m);
      RevokedStaysRevoked(w.hub, es, id);
      StepKeepsNoMember(w.hub, es[0], id);
    }
  }

  lemma StepKeepsNoMember(h: Hub<nat>, e: Event<nat>, id: string)
    requires NoMember(h, id) && (e.Registers? ==> e.token != id)
    ensures NoMember(HubModel.Step(h, e), id)
  {}

  /** One broadcast after that leaves no connection of the token in the hub, and none ever comes back, as long as token
      ids are not reissued. */
  lemma {:induction false} GoneForever(w: World, id: string, ms: seq<Move>)
    requires Settled(w, id) && NoMember(w.hub, id)
    ensures NoMember(After(w, ms).hub, id)
    decreases |ms|
  {
    if ms != [] {
      CleanStaysClean(w, id, ms[0]);
      GoneForever(Next(w, ms[0]), id, ms[1..]);
    }
  }

  lemma OneBroadcastCleansForever(w: World, id: string, data: string, ms: seq<Move>)
    requires Settled(w, id)
    ensures NoMember(After(w, [InHub(Broadcasts(data))] + ms).hub, id)
  {
    BroadcastClears(w, id, data);
    var all := [InHub(Broadcasts(data))] + ms;
    assert all[1..] == ms;
    GoneForever(Next(w, InHub(Broadcasts(data))), id, ms);
  }

  // ------------------------------------------------------------------ both halves of a revocation settle its token

  lemma {:induction false} HubHalfStays(w: World, ms: seq<Move>, id: string)
    requires id != "" && (id in w.hub.revoked || RevokeInHub(id) in ms)
    ensures id in After(w, ms).hub.revoked
    decreases |ms|
  {
    if ms != [] {
      var w' := Next(w, ms[0]);
      HubFollows(w, ms[0]);
      if id in w.hub.revoked {
        RevokedStaysRevoked(w.hub, HubEvents(w, ms[0]), id);
      } else if ms[0] == RevokeInHub(id) {
        var es: seq<Event<nat>> := [Revokes(id)];
        assert es[1..] == [];
        assert w'.hub == RevokeToken(w.hub, id);
      }
      assert ms == [ms[0]] + ms[1..];
      HubHalfStays(w', ms[1..], id);
    }
  }

  lemma {:induction false} StoreHalfStays(w: World, ms: seq<Move>, id: string)
    requires id in w.issued && (id !in w.valid || RevokeInStore(id) in ms)
    ensures id in After(w, ms).issued && id !in After(w, ms).valid
    decreases |ms|
  {
    if ms != [] {
      assert ms == [ms[0]] + ms[1..];
      StoreHalfStays(Next(w, ms[0]), ms[1..], id);
    }
  }

  /** Any run with both halves, in either order and however interleaved, settles an issued token as soon as no verified
      connect of it is still to register. */
  lemma BothHalvesSettle(w: World, ms: seq<Move>, id: string)
    requires id != "" && id in w.issued && RevokeInHub(id) in ms && RevokeInStore(id) in ms
    ensures Settled(After(w, ms), id) <==> forall c :: c in After(w, ms).pending ==> After(w, ms).pending[c] != id
  {
    HubHalfStays(w, ms, id);
    StoreHalfStays(w, ms, id);
  }

  lemma {:induction false} AfterConcat(w: World, a: seq<Move>, b: seq<Move>)
    ensures After(w, a + b) == After(After(w, a), b)
    decreases |a|
  {
    if a == [] {
      assert a + b == b;
    } else {
      assert (a + b)[1..] == a[1..] + b;
      AfterConcat(Next(w, a[0]), a[1..], b);
    }
  }

  /** So after such a run one broadcast leaves no connection of the token in the hub, whatever follows. */
  lemma RevocationCleansUp(w: World, ms: seq<Move>, id: string, data: string, later: seq<Move>)
    requires id != "" && id in w.issued && RevokeInHub(id) in ms && RevokeInStore(id) in ms
    requires forall c :: c in After(w, ms).pending ==> After(w, ms).pending[c] != id
    ensures NoMember(After(w, ms + ([InHub(Broadcasts(data))] + later)).hub, id)
  {
    BothHalvesSettle(w, ms, id);
    AfterConcat(w, ms, [InHub(Broadcasts(data))] + later);
    OneBroadcastCleansForever(After(w, ms), id, data, later);
  }
}
