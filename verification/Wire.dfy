/** The bus subscriber of a node: every envelope that can be decoded is broadcast, in the order received. */
module Wire {
  import opened SseText
  import opened Broker

  datatype Received = Envelope(msg: Message) | Garbled

  function Decoded(received: seq<Received>): seq<Message> {
    if received == [] then []
    else
      var init, last := Decoded(received[..|received| - 1]), received[|received| - 1];
      if last.Envelope? then init + [last.msg] else init
  }

  /** Decoding goes envelope by envelope: nothing is reordered, repeated or made up. */
  lemma {:induction false} DecodedParts(a: seq<Received>, b: seq<Received>)
    ensures Decoded(a + b) == Decoded(a) + Decoded(b)
    ensures forall m :: Decoded([Envelope(m)]) == [m]
    ensures Decoded([Garbled]) == []
  {
    if b == [] {
      assert a + b == a;
    } else {
      assert (a + b)[..|a + b| - 1] == a + b[..|b| - 1];
      DecodedParts(a, b[..|b| - 1]);
    }
  }

  /** The hub after broadcasting a sequence of messages with nobody taking any. */
  function BroadcastAll(h: Hub, ms: seq<Message>): Hub {
    if ms == [] then h else Broadcasted(BroadcastAll(h, ms[..|ms| - 1]), ms[|ms| - 1])
  }

  lemma BroadcastKeepsHub(h: Hub, m: Message)
    requires HubInv(h)
    ensures HubInv(Broadcasted(h, m))
  {
    if h.done { SameClients(Broadcasted(h, m).clients, {}); }
  }

  /** What a client that takes nothing ends up with: all of the burst if it fits, else what fits, and it is dropped. */
  function Burst(ch: Chan, ms: seq<Message>): Chan {
    var room := SLOTS - |ch.buf|;
    if |ms| <= room then Chan(true, ch.buf + ms)
    else if room < 0 then ch
    else Chan(false, ch.buf + ms[..room])
  }

  /** A burst reaches every client alike: the first events that fit, in order, and the end if any did not. */
  lemma {:induction false} BurstFillsThenDrops(h: Hub, ms: seq<Message>, c: int)
    requires HubInv(h) && c in h.clients
    ensures HubInv(BroadcastAll(h, ms)) && c in BroadcastAll(h, ms).chans
    ensures BroadcastAll(h, ms).chans[c] == Burst(h.chans[c], ms)
    ensures c in BroadcastAll(h, ms).clients <==> |h.chans[c].buf| + |ms| <= 16
  {
    if ms == [] {
      assert h.chans[c].buf + ms == h.chans[c].buf;
    } else {
      var init, last := ms[..|ms| - 1], ms[|ms| - 1];
      BurstFillsThenDrops(h, init, c);
      BroadcastKeepsHub(BroadcastAll(h, init), last);
      BurstGrows(h.chans[c], init, last);
      assert ms == init + [last];
    }
  }

  lemma BurstGrows(ch: Chan, init: seq<Message>, last: Message)
    requires ch.open && |ch.buf| <= SLOTS
    ensures Burst(ch, init + [last]) == if Burst(ch, init).open then Offered(Burst(ch, init), last) else Burst(ch, init)
  {
    var room := SLOTS - |ch.buf|;
    if |init| < room {
      assert ch.buf + (init + [last]) == ch.buf + init + [last];
    } else {
      assert (init + [last])[..room] == init[..room];
      if |init| == room { assert init[..room] == init; }
    }
  }

  class Subscriber {
    const loop: EventLoop

    constructor (loop: EventLoop)
      ensures this.loop == loop
    {
      this.loop := loop;
    }

    /** A broadcast to a loop that is done returns without effect. */
    method Broadcast(m: Message)
      requires HubInv(loop.State())
      modifies loop
      ensures loop.State() == Broadcasted(old(loop.State()), m) && HubInv(loop.State())
    {
      BroadcastKeepsHub(loop.State(), m);
      if loop.done {
        SameClients(loop.clients, Broadcasted(loop.State(), m).clients);
        SameChans(loop.chans, Broadcasted(loop.State(), m).chans);
      } else {
        loop.OnBroadcast(m);
      }
    }

    /** An envelope that cannot be decoded is skipped. */
    method Subscribe(received: seq<Received>)
      requires HubInv(loop.State())
      modifies loop
      ensures loop.State() == BroadcastAll(old(loop.State()), Decoded(received)) && HubInv(loop.State())
    {
      for i := 0 to |received|
        invariant loop.State() == BroadcastAll(old(loop.State()), Decoded(received[..i])) && HubInv(loop.State())
      {
        assert received[..i + 1][..i] == received[..i];
        match received[i] {
          case Garbled =>
          case Envelope(m) =>
            assert (Decoded(received[..i]) + [m])[..|Decoded(received[..i])|] == Decoded(received[..i]);
            Broadcast(m);
        }
      }
      assert received[..|received|] == received;
    }
  }
}
