/** The hub and its connections as objects, each method one atomic step of the model. */
module Hub {
  import HubModel
  import opened Frames = HubModel

  class Conn {
    const tokenID: string // empty means an owner connection
    var send: seq<Frame>  // the buffered channel
    var closed: bool
    ghost var consumed: seq<Frame>
    ghost var closes: nat // how often close was called
    ghost var since: nat
    ghost var panics: nat // how often a send met the closed channel

    constructor (tokenID: string)
      ensures this.tokenID == tokenID && send == [] && !closed && consumed == [] && closes == 0 && panics == 0
    {
      this.tokenID, send, closed, consumed, closes, since, panics := tokenID, [], false, [], 0, 0, 0;
    }

    ghost function Value(): Client
      reads this
    {
      Client(tokenID, send, consumed, closes, since, panics)
    }

    /** Closes the channel, once however often it is called. */
    method Close()
      modifies this`closed, this`closes
      ensures closed && closes == old(closes) + 1
    {
      if !closed { closed := true; }
      closes := closes + 1;
    }
  }

  class Hub {
    var conns: set<Conn>
    var revokedTokens: set<string>
    ghost var known: set<Conn> // every connection that was ever registered
    ghost var history: seq<string>

    ghost function View(): HubModel.Hub<Conn>
      reads this, known
    {
      HubModel.Hub(conns, revokedTokens, map c | c in known :: c.Value(), history)
    }

    ghost predicate Valid()
      reads this, known
    {
      Good(View()) && forall c :: c in known ==> (c.closed <==> c.closes > 0)
    }

    constructor ()
      ensures Valid() && View() == Empty()
    {
      conns, revokedTokens, known, history := {}, {}, {}, [];
      new;
      assert View() == Empty();
    }

    method Register(c: Conn)
      requires Valid() && c !in known && c.send == [] && !c.closed && c.consumed == [] && c.closes == 0 && c.panics == 0
      modifies this`conns, this`known, c`since
      ensures Valid() && View() == HubModel.Register(old(View()), c, c.tokenID)
    {
      hide Good, HubModel.Register, View;
      ghost var before := View();
      ViewMeans();
      RegisterMeans(before, c);
      conns, known, c.since := conns + {c}, known + {c}, |history|;
      ViewIs(HubModel.Register(before, c, c.tokenID));
    }

    method Deregister(c: Conn)
      requires Valid() && c in known
      modifies this`conns
      ensures Valid() && View() == HubModel.Deregister(old(View()), c)
    {
      StepKeepsGood(View(), Deregisters(c));
      conns := conns - {c};
    }

    /** The reconnect marker, dropped when the queue is full; false when the send panics because the channel is
        closed. */
    method SendMarker(c: Conn) returns (ok: bool)
      requires Valid() && c in known
      modifies c`send, c`panics
      ensures Valid() && View() == HubModel.SendMarker(old(View()), c)
      ensures ok <==> !c.closed
    {
      hide Good;
      StepKeepsGood(View(), Marks(c));
      ok := !c.closed;
      if !ok {
        c.panics := c.panics + 1;
      } else if |c.send| < SEND_BUF_SIZE {
        c.send := c.send + [Reconnect];
      }
      assert View().clients == HubModel.SendMarker(old(View()), c).clients;
      assert View() == HubModel.SendMarker(old(View()), c);
    }

    /** The write pump forwards the oldest frame. */
    method Drain(c: Conn) returns (frame: seq<Frame>)
      requires Valid() && c in known
      modifies c`send, c`consumed
      ensures Valid() && View() == HubModel.Drain(old(View()), c)
      ensures frame == if old(c.send) == [] then [] else [old(c.send)[0]]
    {
      hide Good;
      StepKeepsGood(View(), Drains(c));
      if c.send == [] { return []; }
      frame := [c.send[0]];
      c.send, c.consumed := c.send[1..], c.consumed + frame;
      assert View().clients == HubModel.Drain(old(View()), c).clients;
      assert View() == HubModel.Drain(old(View()), c);
    }

    method IsRevoked(tokenID: string) returns (r: bool)
      ensures r == HubModel.IsRevoked(View(), tokenID)
    {
      r := tokenID != "" && tokenID in revokedTokens;
    }

    /** Send to one connection, or drop it when it is revoked or slow; a send never meets a closed channel. */
    method OfferTo(c: Conn, data: string, ghost before: HubModel.Hub<Conn>)
      requires c in before.clients && c in before.members && c.Value() == before.clients[c] &&
               before.revoked == revokedTokens
      requires !c.closed && c.closes == 0
      modifies this`conns, c
      ensures c.Value() == Offer(before, c, data) && (c.closed <==> c.closes > 0)
      ensures conns == if Dropped(before, c) then old(conns) - {c} else old(conns)
    {
      var revoked := IsRevoked(c.tokenID);
      if revoked {
        conns := conns - {c};
        c.Close();
      } else if |c.send| < SEND_BUF_SIZE {
        assert !c.closed;
        c.send := c.send + [Data(data)];
      } else {
        conns := conns - {c};
        c.Close();
      }
    }

    /** Offer one frame to every connection, in any order. */
    method OfferAll(data: string, ghost before: HubModel.Hub<Conn>)
      requires conns == before.members <= before.clients.Keys && before.revoked == revokedTokens
      requires forall c :: c in conns ==> c.Value() == before.clients[c] && !c.closed && c.closes == 0
      modifies this`conns, conns
      ensures conns == set c | c in before.members && !Dropped(before, c)
      ensures forall c :: c in before.members ==> c.Value() == Offer(before, c, data) && (c.closed <==> c.closes > 0)
    {
      hide Offer, Dropped;
      var rest := conns;
      while rest != {}
        invariant rest <= before.members
        invariant conns == set c | c in before.members && (c in rest || !Dropped(before, c))
        invariant forall c :: c in before.members && c !in rest ==>
                    c.Value() == Offer(before, c, data) && (c.closed <==> c.closes > 0)
        invariant forall c :: c in rest ==> c.Value() == before.clients[c] && !c.closed && c.closes == 0
      {
        var c :| c in rest;
        rest := rest - {c};
        OfferTo(c, data, before);
      }
    }

    /** One frame to every connection. */
    method Broadcast(data: string)
      requires Valid()
      modifies this, known
      ensures Valid() && View() == HubModel.Broadcast(old(View()), data) && known == old(known)
    {
      hide Good, Offer, Dropped, HubModel.Broadcast, View;
      ghost var before := View();
      ViewMeans();
      BroadcastKeepsGood(before, data);
      BroadcastMeans(before, data);
      MembersAreOpen(before);
      OfferAll(data, before);
      history := history + [data];
      ViewIs(HubModel.Broadcast(before, data));
    }

    /** Removes and closes every connection using the token. */
    method DropToken(tokenID: string)
      requires forall c :: c in conns ==> !c.closed && c.closes == 0
      modifies this`conns, conns
      ensures conns == set c | c in old(conns) && c.tokenID != tokenID
      ensures forall c :: c in old(conns) && c.tokenID == tokenID ==>
                c.closed && c.Value() == old(c.Value()).(closes := 1)
      ensures forall c :: c in old(conns) && c.tokenID != tokenID ==> unchanged(c)
    {
      hide Conn.Value;
      var victims := set c | c in conns && c.tokenID == tokenID;
      conns := conns - victims;
      CloseAll(victims);
    }

    /** Marks the token and closes every connection using it. */
    method RevokeToken(tokenID: string)
      requires Valid()
      modifies this, known
      ensures Valid() && View() == HubModel.RevokeToken(old(View()), tokenID) && known == old(known)
    {
      hide Good, HubModel.RevokeToken, View;
      ghost var before := View();
      ViewMeans();
      RevokeKeepsGood(before, tokenID);
      RevokeMeans(before, tokenID);
      MembersAreOpen(before);
      revokedTokens := revokedTokens + {tokenID};
      DropToken(tokenID);
      ViewIs(HubModel.RevokeToken(before, tokenID));
    }

    lemma ViewMeans()
      ensures View().members == conns && View().revoked == revokedTokens && View().history == history
      ensures View().clients.Keys == known && forall c :: c in known ==> View().clients[c] == c.Value()
    {}

    lemma ViewIs(h: HubModel.Hub<Conn>)
      requires h.members == conns && h.revoked == revokedTokens && h.history == history
      requires h.clients.Keys == known && forall c :: c in known ==> h.clients[c] == c.Value()
      ensures View() == h
    {
      assert View().clients == h.clients;
    }
  }

  method CloseAll(victims: set<Conn>)
    requires forall c :: c in victims ==> !c.closed && c.closes == 0
    modifies victims
    ensures forall c :: c in victims ==> c.closed && c.Value() == old(c.Value()).(closes := 1)
  {
    var rest := victims;
    while rest != {}
      invariant rest <= victims
      invariant forall c :: c in rest ==> unchanged(c)
      invariant forall c :: c in victims && c !in rest ==> c.closed && c.Value() == old(c.Value()).(closes := 1)
    {
      var c :| c in rest;
      rest := rest - {c};
      c.Close();
    }
  }

  lemma BroadcastMeans(h: HubModel.Hub<Conn>, data: string)
    requires Good(h)
    ensures var h' := HubModel.Broadcast(h, data);
            && h'.revoked == h.revoked && h'.history == h.history + [data] && h'.clients.Keys == h.clients.Keys
            && h.members <= h.clients.Keys
            && h'.members == (set c | c in h.members && !Dropped(h, c))
            && forall c :: c in h.clients ==>
                 h'.clients[c] == (if c in h.members then Offer(h, c, data) else h.clients[c])
  {
    hide GoodClient;
  }

  lemma RegisterMeans(h: HubModel.Hub<Conn>, c: Conn)
    requires Good(h) && c !in h.clients
    ensures var h' := HubModel.Register(h, c, c.tokenID);
            && Good(h') && h'.revoked == h.revoked && h'.history == h.history
            && h'.members == h.members + {c} && h'.clients.Keys == h.clients.Keys + {c}
            && h'.clients[c] == Client(c.tokenID, [], [], 0, |h.history|, 0)
            && forall d :: d in h.clients ==> h'.clients[d] == h.clients[d]
  {
    hide Good;
    StepKeepsGood(h, Registers(c, c.tokenID));
  }

  lemma RevokeMeans(h: HubModel.Hub<Conn>, token: string)
    requires Good(h)
    ensures var h' := HubModel.RevokeToken(h, token);
            && h'.revoked == h.revoked + {token} && h'.history == h.history && h'.clients.Keys == h.clients.Keys
            && h.members <= h.clients.Keys
            && h'.members == (set c | c in h.members && h.clients[c].token != token)
            && forall c :: c in h.clients ==>
                 h'.clients[c] ==
                 (if c in h.members && h.clients[c].token == token then h.clients[c].(closes := 1) else h.clients[c])
  {}

  lemma RevokeKeepsGood(h: HubModel.Hub<Conn>, token: string)
    requires Good(h)
    ensures Good(HubModel.RevokeToken(h, token))
  {
    StepKeepsGood(h, Revokes(token));
  }

  lemma MembersAreOpen(h: HubModel.Hub<Conn>)
    requires Good(h)
    ensures h.members <= h.clients.Keys && forall c :: c in h.members ==> h.clients[c].closes == 0
  {}
}
