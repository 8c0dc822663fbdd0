/** The per-node broker: one event loop owning the client map, one bounded channel per connection. */
module Broker {
  import opened FlagModel
  import opened SseText

  const SLOTS := 16

  /** A client channel: its buffer outlives its closing. */
  datatype Chan = Chan(open: bool, buf: seq<Message>)

  /** What the loop owns: the registered clients, by the identity of their channel, and the done signal. */
  datatype Hub = Hub(clients: set<int>, chans: map<int, Chan>, done: bool)

  predicate HubInv(h: Hub) {
    && (forall c :: c in h.clients ==> c in h.chans && h.chans[c].open)
    && (forall c :: c in h.chans ==> |h.chans[c].buf| <= SLOTS)
    && (h.done ==> h.clients == {})
  }

  function Offered(ch: Chan, e: Message): Chan {
    if |ch.buf| < SLOTS then ch.(buf := ch.buf + [e]) else ch.(open := false)
  }

  function Registered(h: Hub, c: int): Hub { h.(clients := h.clients + {c}) }

  function Closed(h: Hub, gone: set<int>): Hub {
    Hub(h.clients - gone,
        (map c | c in h.chans :: if c in gone then h.chans[c].(open := false) else h.chans[c]),
        h.done)
  }

  function Unregistered(h: Hub, c: int): Hub {
    if c in h.clients then Closed(h, {c}) else h
  }

  /** Every client with room gets the event; every other one is dropped and its channel closed. */
  function Broadcasted(h: Hub, e: Message): Hub {
    Hub((set c | c in h.clients && c in h.chans && |h.chans[c].buf| < SLOTS),
        (map c | c in h.chans :: if c in h.clients then Offered(h.chans[c], e) else h.chans[c]),
        h.done)
  }

  function Drained(h: Hub): Hub { Closed(h, h.clients).(done := true) }

  lemma HasMember(s: set<int>)
    ensures s == {} || exists c :: c in s
  {
    if forall c :: c !in s { assert s == {}; }
  }

  lemma SameClients(a: set<int>, b: set<int>)
    requires forall c :: c in a <==> c in b
    ensures a == b
  {
    forall c | c in a ensures c in b {}
    forall c | c in b ensures c in a {}
  }

  lemma SameChans(a: map<int, Chan>, b: map<int, Chan>)
    requires forall c :: c in a <==> c in b
    requires forall c :: c in a ==> a[c] == b[c]
    ensures a == b
  {
    forall c | c in a ensures c in b && a[c] == b[c] {}
    forall c | c in b ensures c in a {}
  }

  /** The arms of the loop, in place. Closing a closed channel or sending on one would be a panic. */
  class EventLoop {
    var clients: set<int>
    var chans: map<int, Chan>
    var done: bool

    ghost function State(): Hub
      reads this
    {
      Hub(clients, chans, done)
    }

    constructor ()
      ensures State() == Hub({}, map[], false)
    {
      clients, chans, done := {}, map[], false;
    }

    method Close(c: int)
      requires c in chans && chans[c].open
      modifies `chans
      ensures chans == old(chans)[c := old(chans)[c].(open := false)]
    {
      chans := chans[c := chans[c].(open := false)];
    }

    method OnRegister(c: int)
      modifies this
      ensures State() == Registered(old(State()), c)
      ensures clients == old(clients) + {c} && chans == old(chans) && done == old(done)
    {
      clients := clients + {c};
    }

    method OnUnregister(c: int)
      requires HubInv(State())
      modifies this
      ensures State() == Unregistered(old(State()), c)
      ensures clients == old(clients) - {c} && done == old(done) && chans.Keys == old(chans).Keys
      ensures forall d :: d in chans ==>
        && chans[d].buf == old(chans)[d].buf
        && (chans[d].open <==> old(chans)[d].open && (d == c ==> c !in old(clients)))
    {
      if c in clients {
        clients := clients - {c};
        Close(c);
        SameChans(chans, Closed(old(State()), {c}).chans);
      }
    }

    method OnBroadcast(e: Message)
      requires HubInv(State())
      modifies this
      ensures State() == Broadcasted(old(State()), e)
      ensures forall c :: c in clients <==> c in old(clients) && |old(chans)[c].buf| < 16
      ensures done == old(done) && chans.Keys == old(chans).Keys
      ensures forall c :: c in chans ==>
        && chans[c].buf == (if c in clients then old(chans)[c].buf + [e] else old(chans)[c].buf)
        && (chans[c].open <==> old(chans)[c].open && (c in old(clients) ==> c in clients))
    {
      var rest := clients;
      while rest != {}
        invariant rest <= clients <= old(clients) && done == old(done)
        invariant forall c :: c in clients <==> c in rest || (c in old(clients) && |old(chans)[c].buf| < SLOTS)
        invariant forall c :: c in chans <==> c in old(chans)
        invariant forall c :: c in chans ==>
          chans[c] == if c in old(clients) && c !in rest then Offered(old(chans)[c], e) else old(chans)[c]
        decreases rest
      {
        HasMember(rest);
        var c :| c in rest;
        rest := rest - {c};
        if |chans[c].buf| < SLOTS {
          assert chans[c].open;
          chans := chans[c := chans[c].(buf := chans[c].buf + [e])];
        } else {
          clients := clients - {c};
          Close(c);
        }
      }
      SameChans(chans, Broadcasted(old(State()), e).chans);
      SameClients(clients, Broadcasted(old(State()), e).clients);
    }

    method OnShutdown()
      requires HubInv(State())
      modifies this
      ensures State() == Drained(old(State()))
      ensures clients == {} && done && chans.Keys == old(chans).Keys
      ensures forall c :: c in chans ==>
        && chans[c].buf == old(chans)[c].buf
        && (chans[c].open <==> old(chans)[c].open && c !in old(clients))
    {
      while clients != {}
        invariant clients <= old(clients) && done == old(done)
        invariant forall c :: c in chans <==> c in old(chans)
        invariant forall c :: c in chans ==>
          chans[c] == if c in old(clients) && c !in clients then old(chans)[c].(open := false) else old(chans)[c]
        decreases clients
      {
        HasMember(clients);
        var c :| c in clients;
        clients := clients - {c};
        Close(c);
      }
      done := true;
      SameChans(chans, Drained(old(State())).chans);
    }

    method Count() returns (n: nat)
      ensures n == |clients|
    {
      n := |clients|;
    }
  }

  // The loop together with its connection handlers.

  datatype Phase = Registering | Serving | Leaving | Gone

  /**
   * One connection: `taken` is what its handler has received, `start` how many broadcasts preceded its registration,
   * `missed` the broadcast it was dropped for.
   */
  datatype Conn = Conn(phase: Phase, registered: bool, taken: seq<Message>, start: nat, missed: Option<nat>)

  /** `history` is every broadcast the loop has handled; `panicked` records a send or close on a closed channel. */
  datatype Node = Node(hub: Hub, running: bool, shutdown: bool, conns: map<int, Conn>, history: seq<Message>,
                       panicked: bool)

  datatype Step =
    | Connect(c: int) | Register(c: int) | RegisterDone(c: int)
    | Take(c: int) | SeeClosed(c: int) | Leave(c: int)
    | Unregister(c: int) | UnregisterDone(c: int)
    | Broadcast(e: Message) | RequestShutdown | Drain

  const INITIAL_NODE := Node(Hub({}, map[], false), true, false, map[], [], false)

  predicate In(n: Node, c: int, phase: Phase) { c in n.conns && c in n.hub.chans && n.conns[c].phase == phase }

  predicate Enabled(n: Node, step: Step) {
    match step
    case Connect(c) => c !in n.conns && c !in n.hub.chans
    case Register(c) => n.running && In(n, c, Registering)
    case RegisterDone(c) => n.hub.done && In(n, c, Registering)
    case Take(c) => In(n, c, Serving) && n.hub.chans[c].buf != []
    case SeeClosed(c) => In(n, c, Serving) && n.hub.chans[c] == Chan(false, [])
    case Leave(c) => In(n, c, Serving)
    case Unregister(c) => n.running && In(n, c, Leaving)
    case UnregisterDone(c) => n.hub.done && In(n, c, Leaving)
    case Broadcast(_) => n.running
    case RequestShutdown => true
    case Drain => n.running && n.shutdown
  }

  function MoveTo(n: Node, c: int, phase: Phase): Node
    requires c in n.conns
  {
    n.(conns := n.conns[c := n.conns[c].(phase := phase)])
  }

  /** Some channel of the set is already closed: touching it panics. */
  predicate Touches(n: Node, cs: set<int>) { exists c :: c in cs && c in n.hub.chans && !n.hub.chans[c].open }

  function After(n: Node, step: Step): Node
    requires Enabled(n, step)
  {
    match step
    case Connect(c) =>
      n.(hub := n.hub.(chans := n.hub.chans[c := Chan(true, [])]),
         conns := n.conns[c := Conn(Registering, false, [], 0, None)])
    case Register(c) =>
      n.(hub := Registered(n.hub, c),
         conns := n.conns[c := n.conns[c].(phase := Serving, registered := true, start := |n.history|)])
    case RegisterDone(c) => MoveTo(n, c, Gone)
    case Take(c) =>
      var ch := n.hub.chans[c];
      n.(hub := n.hub.(chans := n.hub.chans[c := ch.(buf := ch.buf[1..])]),
         conns := n.conns[c := n.conns[c].(taken := n.conns[c].taken + [ch.buf[0]])])
    case SeeClosed(c) => MoveTo(n, c, Leaving)
    case Leave(c) => MoveTo(n, c, Leaving)
    case Unregister(c) =>
      MoveTo(n, c, Gone).(hub := Unregistered(n.hub, c), panicked := n.panicked || Touches(n, n.hub.clients * {c}))
    case UnregisterDone(c) => MoveTo(n, c, Gone)
    case Broadcast(e) =>
      n.(hub := Broadcasted(n.hub, e), history := n.history + [e], panicked := n.panicked || Touches(n, n.hub.clients),
         conns := (map c | c in n.conns ::
           if c in n.hub.clients && c in n.hub.chans && |n.hub.chans[c].buf| >= SLOTS
           then n.conns[c].(missed := Some(|n.history|)) else n.conns[c]))
    case RequestShutdown => n.(shutdown := true)
    case Drain => n.(hub := Drained(n.hub), running := false, panicked := n.panicked || Touches(n, n.hub.clients))
  }

  /** What a connection has been given: taken by its handler, then still buffered. */
  function Given(k: Conn, ch: Chan): seq<Message> { k.taken + ch.buf }

  /** One unbroken piece of the broadcasts, from registration to the end, the drop, or the client's own leaving. */
  predicate Contiguous(k: Conn, ch: Chan, history: seq<Message>, inMap: bool) {
    var end := k.start + |Given(k, ch)|;
    && end <= |history|
    && Given(k, ch) == history[k.start..end]
    && (inMap ==> end == |history|)
    && (k.missed.Some? ==> k.missed == Some(end) && end < |history| && SLOTS <= |Given(k, ch)| && !ch.open)
  }

  /** A connection that was not dropped for a broadcast has been given all of them, also by a shutdown. */
  predicate Complete(n: Node, c: int)
    requires c in n.conns && c in n.hub.chans
  {
    var k, ch := n.conns[c], n.hub.chans[c];
    && (k.missed.None? ==> c in n.hub.clients || n.hub.done)
    && (k.missed.None? <==> k.start + |Given(k, ch)| == |n.history|)
  }

  predicate ConnInv(n: Node, c: int)
    requires c in n.conns && c in n.hub.chans
  {
    var k, ch := n.conns[c], n.hub.chans[c];
    && (c in n.hub.clients <==> k.registered && ch.open)
    && (k.phase.Registering? ==> !k.registered)
    && (k.phase.Serving? || k.phase.Leaving? ==> k.registered)
    && (k.registered ==> Contiguous(k, ch, n.history, c in n.hub.clients))
    && (k.phase.Serving? || k.phase.Leaving? ==> Complete(n, c))
    && (!k.registered ==> ch == Chan(true, []) && k.taken == [] && k.missed.None?)
  }

  predicate NodeInv(n: Node) {
    && HubInv(n.hub)
    && n.conns.Keys == n.hub.chans.Keys
    && (n.running <==> !n.hub.done)
    && (n.hub.done ==> n.shutdown)
    && !n.panicked
    && forall c :: c in n.conns ==> ConnInv(n, c)
  }

  lemma BroadcastKeepsConn(n: Node, e: Message, c: int)
    requires NodeInv(n) && n.running && c in n.conns
    ensures c in After(n, Broadcast(e)).hub.chans && ConnInv(After(n, Broadcast(e)), c)
  {
    var t := After(n, Broadcast(e));
    assert ConnInv(n, c);
    var k, ch := n.conns[c], n.hub.chans[c];
    var end := k.start + |Given(k, ch)|;
    if k.registered { assert t.history[k.start..end] == n.history[k.start..end]; }
    if c in n.hub.clients && |ch.buf| < SLOTS {
      assert k.taken + (ch.buf + [e]) == Given(k, ch) + [e];
      assert t.history[k.start..end + 1] == n.history[k.start..end] + [e];
    }
  }

  lemma BroadcastKeepsInv(n: Node, e: Message)
    requires NodeInv(n) && n.running
    ensures NodeInv(After(n, Broadcast(e)))
  {
    hide ConnInv;
    var t := After(n, Broadcast(e));
    forall c | c in t.conns ensures c in t.hub.chans && ConnInv(t, c) { BroadcastKeepsConn(n, e, c); }
  }

  lemma TakeKeepsConn(n: Node, c: int, d: int)
    requires NodeInv(n) && Enabled(n, Take(c)) && d in n.conns
    ensures d in After(n, Take(c)).hub.chans && ConnInv(After(n, Take(c)), d)
  {
    var t := After(n, Take(c));
    assert ConnInv(n, d);
    assert Given(t.conns[d], t.hub.chans[d]) == Given(n.conns[d], n.hub.chans[d]);
  }

  lemma TakeKeepsInv(n: Node, c: int)
    requires NodeInv(n) && Enabled(n, Take(c))
    ensures NodeInv(After(n, Take(c)))
  {
    hide ConnInv;
    var t := After(n, Take(c));
    forall d | d in t.conns ensures d in t.hub.chans && ConnInv(t, d) { TakeKeepsConn(n, c, d); }
  }

  lemma UnregisterKeepsConn(n: Node, c: int, d: int)
    requires NodeInv(n) && Enabled(n, Unregister(c)) && d in n.conns
    ensures d in After(n, Unregister(c)).hub.chans && ConnInv(After(n, Unregister(c)), d)
  {
    assert ConnInv(n, d) && ConnInv(n, c);
  }

  lemma UnregisterKeepsInv(n: Node, c: int)
    requires NodeInv(n) && Enabled(n, Unregister(c))
    ensures NodeInv(After(n, Unregister(c)))
  {
    var t := After(n, Unregister(c));
    assert ConnInv(n, c);
    hide ConnInv;
    forall d | d in t.conns ensures d in t.hub.chans && ConnInv(t, d) { UnregisterKeepsConn(n, c, d); }
  }

  lemma DrainKeepsInv(n: Node)
    requires NodeInv(n) && Enabled(n, Drain)
    ensures NodeInv(After(n, Drain))
  {
    var t := After(n, Drain);
    forall d | d in t.conns ensures ConnInv(t, d) { assert ConnInv(n, d); }
  }

  /** A handler that only moves on leaves every channel and every other connection alone. */
  lemma MoveToKeepsInv(n: Node, c: int, phase: Phase)
    requires NodeInv(n) && c in n.conns && (phase.Gone? || (phase.Leaving? && n.conns[c].phase.Serving?))
    ensures NodeInv(MoveTo(n, c, phase))
  {
    var t := MoveTo(n, c, phase);
    forall d | d in t.conns ensures ConnInv(t, d) { assert ConnInv(n, d); }
  }

  lemma JoiningKeepsInv(n: Node, step: Step)
    requires NodeInv(n) && Enabled(n, step) && (step.Connect? || step.Register?)
    ensures NodeInv(After(n, step))
  {
    var t := After(n, step);
    forall d | d in t.conns ensures ConnInv(t, d) { if d in n.conns { assert ConnInv(n, d); } }
  }

  lemma StepKeepsInv(n: Node, step: Step)
    requires NodeInv(n) && Enabled(n, step)
    ensures NodeInv(After(n, step))
  {
    match step
    case Broadcast(e) => BroadcastKeepsInv(n, e);
    case Take(c) => TakeKeepsInv(n, c);
    case Unregister(c) => UnregisterKeepsInv(n, c);
    case Drain => DrainKeepsInv(n);
    case Connect(_) => JoiningKeepsInv(n, step);
    case Register(_) => JoiningKeepsInv(n, step);
    case RegisterDone(c) => MoveToKeepsInv(n, c, Gone);
    case SeeClosed(c) => assert ConnInv(n, c); MoveToKeepsInv(n, c, Leaving);
    case Leave(c) => assert ConnInv(n, c); MoveToKeepsInv(n, c, Leaving);
    case UnregisterDone(c) => MoveToKeepsInv(n, c, Gone);
    case RequestShutdown => assert forall d :: d in n.conns ==> ConnInv(n, d);
  }

  predicate Run(states: seq<Node>, steps: seq<Step>) {
    && |states| == |steps| + 1 && states[0] == INITIAL_NODE
    && forall i :: 0 <= i < |steps| ==>
      Enabled(states[i], steps[i]) && states[i + 1] == After(states[i], steps[i])
  }

  lemma {:induction false} RunKeepsInv(states: seq<Node>, steps: seq<Step>, i: nat)
    requires Run(states, steps) && i < |states|
    ensures NodeInv(states[i])
  {
    if i > 0 {
      RunKeepsInv(states, steps, i - 1);
      assert states[i] == After(states[i - 1], steps[i - 1]);
      StepKeepsInv(states[i - 1], steps[i - 1]);
    }
  }

  /**
   * Stream contiguity: in every state of every run, what a registered connection has taken and still has buffered is
   * one unbroken piece of the broadcasts from its registration on, with at most 16 buffered. While it is served the
   * piece reaches the newest broadcast exactly if it was not dropped for one, whether or not the node shuts down; a
   * dropped client's piece ends right before the one it could not take.
   */
  lemma StreamContiguity(states: seq<Node>, steps: seq<Step>, i: nat, c: int)
    requires Run(states, steps) && i < |states| && c in states[i].conns && states[i].conns[c].registered
    ensures c in states[i].hub.chans
    ensures var n, k, ch := states[i], states[i].conns[c], states[i].hub.chans[c];
      var end := k.start + |k.taken + ch.buf|;
      && |ch.buf| <= 16 && end <= |n.history| && k.taken + ch.buf == n.history[k.start..end]
      && (c in n.hub.clients ==> end == |n.history|)
      && (k.phase.Serving? || k.phase.Leaving? ==> (k.missed.None? <==> end == |n.history|))
      && (k.missed.Some? ==> k.missed.value == end < |n.history| && |k.taken + ch.buf| >= 16 && c !in n.hub.clients)
  {
    RunKeepsInv(states, steps, i);
    assert ConnInv(states[i], c);
  }

  /** A handler that ends because its channel was closed has received all it was due: nothing buffered is lost. */
  lemma CompleteAtClose(states: seq<Node>, steps: seq<Step>, i: nat, c: int)
    requires Run(states, steps) && i < |steps| && steps[i] == SeeClosed(c)
    ensures c in states[i].conns
    ensures var k, history := states[i].conns[c], states[i].history;
      && k.start + |k.taken| == (if k.missed.None? then |history| else k.missed.value) <= |history|
      && k.taken == history[k.start..k.start + |k.taken|]
  {
    assert Enabled(states[i], steps[i]);
    RunKeepsInv(states, steps, i);
    assert ConnInv(states[i], c);
    StreamContiguity(states, steps, i, c);
    var k, ch := states[i].conns[c], states[i].hub.chans[c];
    assert k.taken + ch.buf == k.taken;
  }

  /** A client is in the map exactly while it is registered and its channel open, and nothing ever panics. */
  lemma MapIsOpenClients(states: seq<Node>, steps: seq<Step>, i: nat, c: int)
    requires Run(states, steps) && i < |states|
    ensures !states[i].panicked
    ensures c in states[i].hub.clients <==>
            && c in states[i].conns && c in states[i].hub.chans
            && states[i].conns[c].registered && states[i].hub.chans[c].open
  {
    RunKeepsInv(states, steps, i);
    if c in states[i].conns { assert ConnInv(states[i], c); }
  }

  lemma ClosedIsOut(n: Node, c: int)
    requires NodeInv(n) && c in n.conns && !n.hub.chans[c].open
    ensures c !in n.hub.clients && !n.conns[c].phase.Registering?
  {
    assert ConnInv(n, c);
  }

  lemma ClosedTake(n: Node, c: int)
    requires Enabled(n, Take(c)) && c in n.conns && !n.hub.chans[c].open
    ensures var t := After(n, Take(c));
      && c in t.conns && c in t.hub.chans && !t.hub.chans[c].open
      && Given(t.conns[c], t.hub.chans[c]) == Given(n.conns[c], n.hub.chans[c])
  {
    var k, ch := n.conns[c], n.hub.chans[c];
    TakeMoves(k.taken, ch.buf);
  }

  lemma TakeMoves(taken: seq<Message>, buf: seq<Message>)
    requires buf != []
    ensures taken + [buf[0]] + buf[1..] == taken + buf
  {
  }

  lemma ClosedStep(n: Node, step: Step, c: int)
    requires NodeInv(n) && Enabled(n, step) && c in n.conns && !n.hub.chans[c].open
    ensures var t := After(n, step);
      && c in t.conns && c in t.hub.chans && !t.hub.chans[c].open
      && Given(t.conns[c], t.hub.chans[c]) == Given(n.conns[c], n.hub.chans[c])
  {
    ClosedIsOut(n, c);
    hide ConnInv, Given;
    if step.Take? && step.c == c { ClosedTake(n, c); }
  }

  /** A closed channel stays closed, is closed no second time, and is never given another event. */
  lemma {:induction false} ClosedForGood(states: seq<Node>, steps: seq<Step>, i: nat, j: nat, c: int)
    requires Run(states, steps) && i <= j < |states| && c in states[i].conns && c in states[i].hub.chans
    requires !states[i].hub.chans[c].open
    ensures !states[j].panicked && c in states[j].conns && c in states[j].hub.chans && c !in states[j].hub.clients
    ensures !states[j].hub.chans[c].open
    ensures Given(states[j].conns[c], states[j].hub.chans[c]) == Given(states[i].conns[c], states[i].hub.chans[c])
    decreases j
  {
    RunKeepsInv(states, steps, j);
    if i < j {
      ClosedForGood(states, steps, i, j - 1, c);
      RunKeepsInv(states, steps, j - 1);
      assert states[j] == After(states[j - 1], steps[j - 1]);
      ClosedStep(states[j - 1], steps[j - 1], c);
    }
  }

  /**
   * Nothing blocks: the loop answers or `done` is closed, so every Broadcast and ClientCount returns; every pending
   * register and unregister has an enabled arm; a served client whose channel is closed can move on; and once
   * shutdown is requested the drain can run. After `done` every registered channel is closed.
   */
  lemma NothingBlocks(states: seq<Node>, steps: seq<Step>, i: nat, c: int)
    requires Run(states, steps) && i < |states|
    ensures var n := states[i];
      && (n.running || n.hub.done)
      && (n.shutdown && !n.hub.done ==> Enabled(n, Drain))
      && (c in n.conns && n.conns[c].phase.Registering? ==> Enabled(n, Register(c)) || Enabled(n, RegisterDone(c)))
      && (c in n.conns && n.conns[c].phase.Leaving? ==> Enabled(n, Unregister(c)) || Enabled(n, UnregisterDone(c)))
      && (n.hub.done && c in n.conns && n.conns[c].registered ==> c in n.hub.chans && !n.hub.chans[c].open)
      && (n.hub.done && c in n.conns && n.conns[c].phase.Serving? ==> Enabled(n, Take(c)) || Enabled(n, SeeClosed(c)))
  {
    RunKeepsInv(states, steps, i);
    if c in states[i].conns { assert ConnInv(states[i], c); }
  }

  /** The connection a step belongs to. */
  predicate StepOf(step: Step, c: int) {
    !step.Broadcast? && !step.RequestShutdown? && !step.Drain? && step.c == c
  }

  /** A bound on the steps a connection has left once `done` is closed. */
  function StepsLeft(k: Conn, ch: Chan): nat {
    match k.phase
    case Registering => 1
    case Serving => |ch.buf| + 2
    case Leaving => 1
    case Gone => 0
  }

  /** After shutdown every connection winds down: its own steps use up at most 18, nobody else's add to them. */
  lemma WindsDown(n: Node, step: Step, c: int)
    requires NodeInv(n) && n.hub.done && Enabled(n, step) && c in n.conns
    ensures After(n, step).hub.done && c in After(n, step).conns && c in After(n, step).hub.chans
    ensures StepsLeft(n.conns[c], n.hub.chans[c]) <= 18
    ensures var t := After(n, step);
      if StepOf(step, c) then StepsLeft(t.conns[c], t.hub.chans[c]) < StepsLeft(n.conns[c], n.hub.chans[c])
      else StepsLeft(t.conns[c], t.hub.chans[c]) == StepsLeft(n.conns[c], n.hub.chans[c])
  {
    assert ConnInv(n, c);
  }

  // From the broadcasts to the client, across the wire.

  lemma TakenIsHistory(states: seq<Node>, steps: seq<Step>, i: nat, c: int)
    requires Run(states, steps) && i < |states| && c in states[i].conns && states[i].conns[c].registered
    ensures var k, history := states[i].conns[c], states[i].history;
      k.start + |k.taken| <= |history| && forall j :: 0 <= j < |k.taken| ==> k.taken[j] == history[k.start + j]
  {
    StreamContiguity(states, steps, i, c);
    var k, ch, history := states[i].conns[c], states[i].hub.chans[c], states[i].history;
    forall j | 0 <= j < |k.taken| ensures k.taken[j] == history[k.start + j] {
      assert k.taken[j] == (k.taken + ch.buf)[j];
    }
  }

  /**
   * End to end: whatever comments the handler interleaves and wherever the byte stream is cut, the Go client
   * dispatches the broadcasts since registration, each whole and in order, without a hole.
   */
  lemma ClientSeesBroadcasts(states: seq<Node>, steps: seq<Step>, i: nat, c: int, items: seq<Item>, received: string,
                             d: seq<Dispatched>)
    requires Run(states, steps) && i < |states| && c in states[i].conns && states[i].conns[c].registered
    requires Notes(items) == states[i].conns[c].taken && received <= Print(items) && Deliverable(items)
    requires d == Parse(NO_FIELDS, received, 0).dispatched
    ensures var start, history := states[i].conns[c].start, states[i].history;
      start + |d| <= |history| && forall k :: 0 <= k < |d| ==> d[k] == Triple(history[start + k])
  {
    TakenIsHistory(states, steps, i, c);
    CutNotes(items, received);
  }
}
