/** The broadcast hub as a value: who is registered, which tokens are revoked, and every client's bounded queue. Each
    hub method is one atomic step. */
module HubModel {
  const SEND_BUF_SIZE := 256

  /** A broadcast payload, or the marker a client gets when it connects. */
  datatype Frame = Data(bytes: string) | Reconnect

  /** `closes` counts how often the send channel was closed, `panics` how often a send met it closed; `since` is the
      length of the history at registration. */
  datatype Client = Client(token: string, queue: seq<Frame>, consumed: seq<Frame>, closes: nat, since: nat, panics: nat)

  datatype Hub<C(==)> = Hub(members: set<C>, revoked: set<string>, clients: map<C, Client>, history: seq<string>)

  predicate IsRevoked<C>(h: Hub<C>, token: string) {
    token != "" && token in h.revoked
  }

  predicate Full(c: Client) {
    |c.queue| >= SEND_BUF_SIZE
  }

  /** A member is dropped from the hub when its token is revoked or its queue is full, and closed with that. */
  predicate Dropped<C>(h: Hub<C>, c: C)
    requires c in h.clients
  {
    IsRevoked(h, h.clients[c].token) || Full(h.clients[c])
  }

  function Offer<C>(h: Hub<C>, c: C, data: string): Client
    requires c in h.clients
  {
    var v := h.clients[c];
    if c !in h.members then v
    else if Dropped(h, c) then v.(closes := v.closes + 1)
    else v.(queue := v.queue + [Data(data)])
  }

  function Broadcast<C>(h: Hub<C>, data: string): Hub<C> {
    Hub((set c | c in h.members && c in h.clients && !Dropped(h, c)), h.revoked,
        map c | c in h.clients :: Offer(h, c, data), h.history + [data])
  }

  function RevokeToken<C>(h: Hub<C>, token: string): Hub<C> {
    Hub((set c | c in h.members && (c in h.clients ==> h.clients[c].token != token)), h.revoked + {token},
        map c | c in h.clients ::
          if c in h.members && h.clients[c].token == token then h.clients[c].(closes := h.clients[c].closes + 1)
          else h.clients[c],
        h.history)
  }

  function Register<C>(h: Hub<C>, c: C, token: string): Hub<C> {
    h.(members := h.members + {c}, clients := h.clients[c := Client(token, [], [], 0, |h.history|, 0)])
  }

  function Deregister<C>(h: Hub<C>, c: C): Hub<C> {
    h.(members := h.members - {c})
  }

  /** The marker is dropped when the queue is full. Sending it on a closed channel panics: nothing is queued. */
  function SendMarker<C>(h: Hub<C>, c: C): Hub<C>
    requires c in h.clients
  {
    var v := h.clients[c];
    if v.closes > 0 then h.(clients := h.clients[c := v.(panics := v.panics + 1)])
    else if Full(v) then h
    else h.(clients := h.clients[c := v.(queue := v.queue + [Reconnect])])
  }

  /** The write pump takes the oldest frame. */
  function Drain<C>(h: Hub<C>, c: C): Hub<C>
    requires c in h.clients
  {
    var v := h.clients[c];
    if v.queue == [] then h
    else h.(clients := h.clients[c := v.(queue := v.queue[1..], consumed := v.consumed + [v.queue[0]])])
  }

  datatype Event<C> =
    | Registers(c: C, token: string)
    | Deregisters(c: C)
    | Marks(c: C)
    | Drains(c: C)
    | Broadcasts(data: string)
    | Revokes(token: string)

  /** A connection is registered once; everything else about it comes later. */
  predicate Enabled<C(==)>(h: Hub<C>, e: Event<C>) {
    match e
    case Registers(c, _) => c !in h.clients
    case Deregisters(c) => c in h.clients
    case Marks(c) => c in h.clients
    case Drains(c) => c in h.clients
    case _ => true
  }

  function Step<C(==)>(h: Hub<C>, e: Event<C>): Hub<C> {
    if !Enabled(h, e) then h
    else
      match e
      case Registers(c, token) => Register(h, c, token)
      case Deregisters(c) => Deregister(h, c)
      case Marks(c) => SendMarker(h, c)
      case Drains(c) => Drain(h, c)
      case Broadcasts(data) => Broadcast(h, data)
      case Revokes(token) => RevokeToken(h, token)
  }

  function Run<C(==)>(h: Hub<C>, es: seq<Event<C>>): Hub<C>
    decreases |es|
  {
    if es == [] then h else Run(Step(h, es[0]), es[1..])
  }

  function Empty<C(==)>(): Hub<C> {
    Hub({}, {}, map[], [])
  }

  /** The broadcast payloads among the frames, in order. */
  function Payloads(fs: seq<Frame>): seq<string> {
    if fs == [] then []
    else Payloads(fs[..|fs| - 1]) + (match fs[|fs| - 1] case Data(bytes) => [bytes] case Reconnect => [])
  }

  /** Everything the hub ever delivered to a client, consumed or still queued. */
  function Received(v: Client): seq<string> {
    Payloads(v.consumed + v.queue)
  }

  lemma {:induction false} PayloadsConcat(a: seq<Frame>, b: seq<Frame>)
    ensures Payloads(a + b) == Payloads(a) + Payloads(b)
    decreases |b|
  {
    if b == [] {
      assert a + b == a;
    } else {
      PayloadsConcat(a, b[..|b| - 1]);
      assert (a + b)[..|a + b| - 1] == a + b[..|b| - 1];
    }
  }

  /** What a client received is the stretch of history from its registration on, without a gap, and reaches the present
      while it is a member; its queue is bounded, it is closed at most once and never while it is a member, and no send
      meets a channel that was never closed by the hub. */
  ghost predicate GoodClient(v: Client, member: bool, history: seq<string>) {
    && v.since + |Received(v)| <= |history|
    && Received(v) == history[v.since..v.since + |Received(v)|]
    && (member ==> v.since + |Received(v)| == |history|)
    && |v.queue| <= SEND_BUF_SIZE
    && v.closes <= 1
    && (member ==> v.closes == 0)
    && (v.panics > 0 ==> v.closes > 0)
  }

  ghost predicate Good<C>(h: Hub<C>) {
    && h.members <= h.clients.Keys
    && forall c :: c in h.clients ==> GoodClient(h.clients[c], c in h.members, h.history)
  }

  lemma DataIsPayload(fs: seq<Frame>, data: string)
    ensures Payloads(fs + [Data(data)]) == Payloads(fs) + [data]
  {
    assert (fs + [Data(data)])[..|fs|] == fs;
  }

  lemma OfferKeepsGood<C>(h: Hub<C>, c: C, data: string)
    requires c in h.clients && GoodClient(h.clients[c], c in h.members, h.history)
    ensures GoodClient(Offer(h, c, data), c in h.members && !Dropped(h, c), h.history + [data])
  {
    hide Payloads;
    var v := h.clients[c];
    if c in h.members && !Dropped(h, c) {
      assert v.consumed + (v.queue + [Data(data)]) == (v.consumed + v.queue) + [Data(data)];
      DataIsPayload(v.consumed + v.queue, data);
    }
  }

  lemma BroadcastKeepsGood<C>(h: Hub<C>, data: string)
    requires Good(h)
    ensures Good(Broadcast(h, data))
  {
    hide GoodClient, Offer, Dropped;
    var h' := Broadcast(h, data);
    forall c | c in h'.clients ensures GoodClient(h'.clients[c], c in h'.members, h'.history) {
      OfferKeepsGood(h, c, data);
    }
  }

  lemma MarkerIsNoPayload(fs: seq<Frame>)
    ensures Payloads(fs + [Reconnect]) == Payloads(fs)
  {
    assert (fs + [Reconnect])[..|fs|] == fs;
  }

  /** Only broadcasts deliver anything. */
  lemma OthersDeliverNothing<C>(h: Hub<C>, e: Event<C>, c: C)
    requires c in h.clients && Enabled(h, e) && !e.Broadcasts?
    ensures c in Step(h, e).clients && Received(Step(h, e).clients[c]) == Received(h.clients[c])
  {
    hide Payloads;
    var v := h.clients[c];
    if e == Marks(c) {
      assert v.consumed + (v.queue + [Reconnect]) == (v.consumed + v.queue) + [Reconnect];
      MarkerIsNoPayload(v.consumed + v.queue);
    } else if e == Drains(c) && v.queue != [] {
      assert (v.consumed + [v.queue[0]]) + v.queue[1..] == v.consumed + v.queue;
    }
  }

  /** Only broadcasts add to the history, nobody joins but by registering, and only members are closed. */
  lemma OthersKeep<C>(h: Hub<C>, e: Event<C>, c: C)
    requires c in h.clients && Enabled(h, e) && !e.Broadcasts?
    ensures var h' := Step(h, e);
            && h'.history == h.history && c in h'.clients
            && (c in h'.members ==> c in h.members && h'.clients[c].closes == h.clients[c].closes)
            && h'.clients[c].since == h.clients[c].since
            && h'.clients[c].closes <= h.clients[c].closes + (if c in h.members then 1 else 0)
            && h'.clients[c].closes >= h.clients[c].closes
            && (h'.clients[c].panics > 0 ==> h.clients[c].panics > 0 || h'.clients[c].closes > 0)
            && (|h'.clients[c].queue| <= |h.clients[c].queue| || |h'.clients[c].queue| <= SEND_BUF_SIZE)
  {}

  lemma ClientKeepsGood<C>(h: Hub<C>, e: Event<C>, c: C)
    requires c in h.clients && Enabled(h, e) && !e.Broadcasts? && GoodClient(h.clients[c], c in h.members, h.history)
    ensures var h' := Step(h, e); c in h'.clients && GoodClient(h'.clients[c], c in h'.members, h'.history)
  {
    hide Step, Enabled, Received;
    OthersDeliverNothing(h, e, c);
    OthersKeep(h, e, c);
  }

  lemma ClientStepKeepsGood<C>(h: Hub<C>, e: Event<C>)
    requires Good(h) && Enabled(h, e) && !e.Broadcasts?
    ensures Good(Step(h, e))
  {
    hide GoodClient, Received;
    var h' := Step(h, e);
    forall c | c in h'.clients ensures GoodClient(h'.clients[c], c in h'.members, h'.history) {
      if c in h.clients { ClientKeepsGood(h, e, c); } else { NewIsGood(h, c, h'.clients[c].token); }
    }
  }

  lemma NewIsGood<C>(h: Hub<C>, c: C, token: string)
    ensures var h' := Register(h, c, token); GoodClient(h'.clients[c], true, h'.history)
  {
    NothingReceivedYet(Register(h, c, token).clients[c]);
  }

  lemma NothingReceivedYet(v: Client)
    requires v.consumed == v.queue == []
    ensures Received(v) == []
  {}

  lemma StepKeepsGood<C>(h: Hub<C>, e: Event<C>)
    requires Good(h)
    ensures Good(Step(h, e))
  {
    if Enabled(h, e) {
      if e.Broadcasts? { BroadcastKeepsGood(h, e.data); } else { ClientStepKeepsGood(h, e); }
    }
  }

  /** Over every run of hub steps every client sees a gap-free stretch of the broadcasts. */
  lemma {:induction false} RunKeepsGood<C>(h: Hub<C>, es: seq<Event<C>>)
    requires Good(h)
    ensures Good(Run(h, es))
    decreases |es|
  {
    if es != [] {
      StepKeepsGood(h, es[0]);
      RunKeepsGood(Step(h, es[0]), es[1..]);
    }
  }

  // ------------------------------------------------------------------ the order of all frames, markers included

  /** Every frame a client was ever offered and got, in order. */
  function Frames(v: Client): seq<Frame> {
    v.consumed + v.queue
  }

  /** A step puts at most one frame behind all others, and the client reads from the front. */
  lemma StepAppends<C>(h: Hub<C>, e: Event<C>, c: C)
    requires c in h.clients
    ensures c in Step(h, e).clients
    ensures var v, v' := h.clients[c], Step(h, e).clients[c];
            && Frames(v') == Frames(v) +
                 (if e == Marks(c) && v.closes == 0 && |v.queue| < SEND_BUF_SIZE then [Reconnect]
                  else if e.Broadcasts? && c in h.members && !Dropped(h, c) then [Data(e.data)]
                  else [])
            && v'.consumed == v.consumed + (if e == Drains(c) && v.queue != [] then [Frames(v)[|v.consumed|]] else [])
  {
    var v := h.clients[c];
    assert v.consumed + (v.queue + [Reconnect]) == v.consumed + v.queue + [Reconnect];
    if e.Broadcasts? { assert v.consumed + (v.queue + [Data(e.data)]) == v.consumed + v.queue + [Data(e.data)]; }
    if v.queue != [] { assert (v.consumed + [v.queue[0]]) + v.queue[1..] == v.consumed + v.queue; }
    assert Frames(v) + [] == Frames(v) && v.consumed + [] == v.consumed;
  }

  /** Nothing is ever put in front of a frame that was there. */
  lemma {:induction false} RunAppends<C>(h: Hub<C>, es: seq<Event<C>>, c: C)
    requires c in h.clients
    ensures c in Run(h, es).clients && Frames(h.clients[c]) <= Frames(Run(h, es).clients[c])
    decreases |es|
  {
    hide Step, Frames;
    if es != [] {
      StepAppends(h, es[0], c);
      RunAppends(Step(h, es[0]), es[1..], c);
    }
  }

  /** The marker of an open channel with room stands, for good, behind exactly the frames offered before it. */
  lemma MarkerStandsBehind<C>(h: Hub<C>, c: C, later: seq<Event<C>>)
    requires c in h.clients && h.clients[c].closes == 0 && |h.clients[c].queue| < SEND_BUF_SIZE
    ensures c in Run(Step(h, Marks(c)), later).clients
    ensures Frames(h.clients[c]) + [Reconnect] <= Frames(Run(Step(h, Marks(c)), later).clients[c])
  {
    hide Step, Frames, Run;
    StepAppends(h, Marks(c), c);
    RunAppends(Step(h, Marks(c)), later, c);
  }

  // ------------------------------------------------------------------ revocation

  /** No client, now or later, receives anything while its token is revoked. */
  lemma RevokedReceivesNothing<C>(h: Hub<C>, e: Event<C>, c: C)
    requires c in Step(h, e).clients && IsRevoked(h, Step(h, e).clients[c].token)
    ensures IsRevoked(Step(h, e), Step(h, e).clients[c].token)
    ensures Received(Step(h, e).clients[c]) == if c in h.clients then Received(h.clients[c]) else []
    ensures c in h.clients ==> Step(h, e).clients[c].token == h.clients[c].token
  {
    if c in h.clients && Enabled(h, e) && !e.Broadcasts? { OthersDeliverNothing(h, e, c); }
  }

  lemma {:induction false} RevokedStaysRevoked<C>(h: Hub<C>, es: seq<Event<C>>, token: string)
    requires IsRevoked(h, token)
    ensures IsRevoked(Run(h, es), token)
    decreases |es|
  {
    if es != [] { RevokedStaysRevoked(Step(h, es[0]), es[1..], token); }
  }

  lemma {:induction false} ClientsStay<C>(h: Hub<C>, es: seq<Event<C>>, c: C)
    requires c in h.clients
    ensures c in Run(h, es).clients && Run(h, es).clients[c].token == h.clients[c].token
    decreases |es|
  {
    if es != [] { ClientsStay(Step(h, es[0]), es[1..], c); }
  }

  /** Once a token is revoked in the hub, no broadcast of any later run reaches a connection of that token, whether it
      was there already or registers afterwards. */
  lemma {:induction false} NothingAfterRevocation<C>(h: Hub<C>, es: seq<Event<C>>, c: C)
    requires c in Run(h, es).clients && IsRevoked(h, Run(h, es).clients[c].token)
    ensures Received(Run(h, es).clients[c]) == if c in h.clients then Received(h.clients[c]) else []
    decreases |es|
  {
    if es != [] {
      var h' := Step(h, es[0]);
      var token := Run(h, es).clients[c].token;
      RevokedStaysRevoked(h, [es[0]], token);
      assert Run(h, [es[0]]) == h' by { assert [es[0]][1..] == []; }
      NothingAfterRevocation(h', es[1..], c);
      if c in h'.clients {
        ClientsStay(h', es[1..], c);
        RevokedReceivesNothing(h, es[0], c);
      }
    }
  }

  // ------------------------------------------------------------------ what closes a channel, and the reconnect marker

  /** The step closes the channel of `c`: it revokes its token, or broadcasts while it is revoked or slow. */
  predicate Closes<C>(h: Hub<C>, e: Event<C>, c: C)
    requires c in h.clients
  {
    c in h.members && (e == Revokes(h.clients[c].token) || (e.Broadcasts? && Dropped(h, c)))
  }

  /** Some step of the run closes the channel of `c`. */
  ghost predicate Met<C>(h: Hub<C>, es: seq<Event<C>>, c: C)
    requires c in h.clients
    decreases |es|
  {
    es != [] && (Closes(h, es[0], c) || (c in Step(h, es[0]).clients && Met(Step(h, es[0]), es[1..], c)))
  }

  lemma StepCloses<C>(h: Hub<C>, e: Event<C>, c: C)
    requires c in h.clients
    ensures c in Step(h, e).clients &&
            Step(h, e).clients[c].closes == h.clients[c].closes + (if Closes(h, e, c) then 1 else 0)
  {}

  /** A channel is closed at the end of a run exactly when it was before or some step of the run closed it. */
  lemma {:induction false} ClosedIff<C>(h: Hub<C>, es: seq<Event<C>>, c: C)
    requires c in h.clients
    ensures c in Run(h, es).clients
    ensures Run(h, es).clients[c].closes > 0 <==> h.clients[c].closes > 0 || Met(h, es, c)
    decreases |es|
  {
    hide Step, Closes;
    if es != [] {
      StepCloses(h, es[0], c);
      ClosedIff(Step(h, es[0]), es[1..], c);
    }
  }

  /** The reconnect marker of a connection panics exactly when something closed the channel since it registered. */
  lemma MarkerPanicsIff<C>(h: Hub<C>, c: C, token: string, es: seq<Event<C>>)
    requires c !in h.clients
    ensures var h1 := Step(h, Registers(c, token));
            && c in h1.clients && c in Run(h1, es).clients
            && (Step(Run(h1, es), Marks(c)).clients[c].panics > Run(h1, es).clients[c].panics <==> Met(h1, es, c))
  {
    hide Met, Run;
    ClosedIff(Step(h, Registers(c, token)), es, c);
  }

  /** What the events alone tell of a channel: open, with so many frames queued, or shut. */
  datatype Fate = Open(member: bool, queued: nat) | Shut

  function FateStep<C(==)>(f: Fate, c: C, token: string, revoked: bool, e: Event<C>): Fate {
    match f
    case Shut => Shut
    case Open(member, queued) =>
      match e
      case Deregisters(d) => if d == c then Open(false, queued) else f
      case Drains(d) => if d == c && queued > 0 then Open(member, queued - 1) else f
      case Marks(d) => if d == c && queued < SEND_BUF_SIZE then Open(member, queued + 1) else f
      case Broadcasts(_) =>
        if !member then f else if revoked || queued >= SEND_BUF_SIZE then Shut else Open(true, queued + 1)
      case Revokes(t) => if member && t == token then Shut else f
      case Registers(_, _) => f
  }

  function FateOf<C(==)>(f: Fate, c: C, token: string, revoked: bool, es: seq<Event<C>>): Fate
    decreases |es|
  {
    if es == [] then f else FateOf(FateStep(f, c, token, revoked, es[0]), c, token, revoked, es[1..])
  }

  ghost predicate HasFate<C>(h: Hub<C>, c: C, f: Fate, revoked: bool) {
    && c in h.clients
    && (f.Shut? <==> h.clients[c].closes > 0)
    && (f.Open? ==> |h.clients[c].queue| == f.queued && (c in h.members <==> f.member))
    && (f.Open? && f.member ==> (IsRevoked(h, h.clients[c].token) <==> revoked))
  }

  lemma FateStepIs<C>(h: Hub<C>, c: C, f: Fate, revoked: bool, e: Event<C>)
    requires HasFate(h, c, f, revoked)
    ensures HasFate(Step(h, e), c, FateStep(f, c, h.clients[c].token, revoked, e), revoked)
    ensures Step(h, e).clients[c].token == h.clients[c].token
  {}

  lemma {:induction false} FateIs<C>(h: Hub<C>, c: C, f: Fate, revoked: bool, es: seq<Event<C>>)
    requires HasFate(h, c, f, revoked)
    ensures HasFate(Run(h, es), c, FateOf(f, c, h.clients[c].token, revoked, es), revoked)
    decreases |es|
  {
    hide Step, FateStep;
    if es != [] {
      var f' := FateStep(f, c, h.clients[c].token, revoked, es[0]);
      FateStepIs(h, c, f, revoked, es[0]);
      FateIs(Step(h, es[0]), c, f', revoked, es[1..]);
    }
  }

  /** So whether the marker panics can be read off the events since the registration: the channel shuts when the token
      of a connection still in the hub is revoked, or a broadcast finds it revoked before or 256 frames not yet
      drained. */
  lemma MarkerFateIff<C>(h: Hub<C>, c: C, token: string, es: seq<Event<C>>)
    requires c !in h.clients
    ensures var h2 := Run(Step(h, Registers(c, token)), es);
            && c in h2.clients
            && (Step(h2, Marks(c)).clients[c].panics > h2.clients[c].panics <==>
                FateOf(Open(true, 0), c, token, IsRevoked(h, token), es) == Shut)
  {
    hide Run, FateOf;
    var h1 := Step(h, Registers(c, token));
    assert h1.clients[c] == Client(token, [], [], 0, |h.history|, 0);
    FateIs(h1, c, Open(true, 0), IsRevoked(h, token), es);
  }

  function BroadcastsIn<C>(es: seq<Event<C>>): nat {
    if es == [] then 0 else (if es[0].Broadcasts? then 1 else 0) + BroadcastsIn(es[1..])
  }

  /** An open channel with room for all broadcasts stays open while its token is not revoked. */
  lemma {:induction false} StaysOpen<C>(h: Hub<C>, es: seq<Event<C>>, c: C)
    requires c in h.clients && !IsRevoked(h, h.clients[c].token)
    requires forall i :: 0 <= i < |es| ==> es[i] != Marks(c) && es[i] != Revokes(h.clients[c].token)
    requires |h.clients[c].queue| + BroadcastsIn(es) <= SEND_BUF_SIZE
    ensures !Met(h, es, c)
    decreases |es|
  {
    if es != [] {
      var e, h' := es[0], Step(h, es[0]);
      assert e != Marks(c) && e != Revokes(h.clients[c].token);
      assert forall i :: 0 <= i < |es[1..]| ==> es[1..][i] == es[i + 1];
      QueueGrows(h, e, c);
      StaysOpen(h', es[1..], c);
    }
  }

  lemma QueueGrows<C>(h: Hub<C>, e: Event<C>, c: C)
    requires c in h.clients && e != Marks(c)
    ensures c in Step(h, e).clients && Step(h, e).clients[c].token == h.clients[c].token
    ensures |Step(h, e).clients[c].queue| <= |h.clients[c].queue| + (if e.Broadcasts? then 1 else 0)
  {}

  /** So a marker sent before the token is revoked, and before more than 256 broadcasts, meets an open channel. */
  lemma MarkerIsSafe<C>(h: Hub<C>, c: C, token: string, es: seq<Event<C>>)
    requires c !in h.clients && !IsRevoked(h, token) && BroadcastsIn(es) <= SEND_BUF_SIZE
    requires forall i :: 0 <= i < |es| ==> es[i] != Marks(c) && es[i] != Revokes(token)
    ensures var h2 := Run(Step(h, Registers(c, token)), es);
            c in h2.clients && h2.clients[c].closes == 0 && Step(h2, Marks(c)).clients[c].panics == h2.clients[c].panics
  {
    var h1 := Step(h, Registers(c, token));
    assert h1.clients[c] == Client(token, [], [], 0, |h.history|, 0);
    StaysOpen(h1, es, c);
    ClosedIff(h1, es, c);
  }

  /** A revocation between registration and marker closes the channel the marker is about to be sent on. */
  lemma ClosedBeforeItsMarker()
    ensures var h := Run(Empty<nat>(), [Registers(7, "t"), Revokes("t"), Marks(7)]);
            7 in h.clients && h.clients[7].closes == 1 && h.clients[7].panics == 1
  {
    var es: seq<Event<nat>> := [Registers(7, "t"), Revokes("t"), Marks(7)];
    assert es[1..] == [Revokes("t"), Marks(7)];
    assert es[1..][1..] == [Marks(7)];
    assert es[1..][1..][1..] == [];
  }
}
