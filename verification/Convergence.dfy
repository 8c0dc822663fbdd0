/** Whole connections: what a client ends up with after connecting, and what a busy TypeScript client can miss. */
module Convergence {
  import opened FlagModel
  import opened EventLog
  import opened FlagService
  import opened Sdk

  /** What a client hears on its streams, and each reconcile a connection attempt begins with. */
  datatype Arrival = Live(frame: Frame) | Reconnect

  function Handle(kind: Kind, v: View, a: Arrival, server: Server): View {
    match a
    case Live(f) => ProcessFrame(kind, v, f, Serving(server))
    case Reconnect => ReconcileFrom(kind, v, Serving(server), 0, Guard(kind)).view
  }

  /** The client handles what arrives in order; servers[i] answers the i-th reconcile, if there is one. */
  function HandleFirst(kind: Kind, v: View, arrivals: seq<Arrival>, servers: seq<Server>, n: nat): View
    requires n <= |arrivals| == |servers|
  {
    if n == 0 then v
    else Handle(kind, HandleFirst(kind, v, arrivals, servers, n - 1), arrivals[n - 1], servers[n - 1])
  }

  /** The version an arrival is to take the client to: the frame's, or all there was when a reconnect began. */
  function Target(a: Arrival, server: Server): int {
    match a case Live(f) => f.version case Reconnect => MaxVersion(server.log(0))
  }

  /** The highest version among the client's own and the first n arrivals' targets. */
  function Floor(version: int, arrivals: seq<Arrival>, servers: seq<Server>, n: nat): int
    requires n <= |arrivals| == |servers|
  {
    if n == 0 then version
    else Max(Floor(version, arrivals, servers, n - 1), Target(arrivals[n - 1], servers[n - 1]))
  }

  lemma {:induction false} FloorCovers(version: int, arrivals: seq<Arrival>, servers: seq<Server>, n: nat)
    requires n <= |arrivals| == |servers|
    ensures Floor(version, arrivals, servers, n) >= version
    ensures forall i :: 0 <= i < n ==> Floor(version, arrivals, servers, n) >= Target(arrivals[i], servers[i])
  {
    if n > 0 { FloorCovers(version, arrivals, servers, n - 1); }
  }

  /**
   * Any frames at all, lost, repeated and reordered as the bus pleases, with any reconnects in between: each frame
   * announces something that was committed when it was handled, and the log only grows from one arrival to the next.
   */
  ghost predicate Heard(start: seq<Event>, arrivals: seq<Arrival>, servers: seq<Server>) {
    && |arrivals| == |servers|
    && (forall i :: 0 <= i < |servers| ==> Growing(servers[i].log) && Possible(arrivals[i], servers[i]))
    && TimeFlows(start, servers)
  }

  predicate Possible(a: Arrival, server: Server) { a.Live? ==> AgreesWithLog(server.log(0), a.frame) }

  ghost predicate TimeFlows(start: seq<Event>, servers: seq<Server>) {
    && (|servers| > 0 ==> Extends(servers[0].log(0), start))
    && (forall i, k, j: nat :: 0 <= i < k < |servers| ==> Extends(servers[k].log(0), servers[i].log(j)))
  }

  /** The next frame in line, or a target within the pages brought before a refused request or the guard. */
  predicate WithinReach(kind: Kind, server: Server, version: int, a: Arrival) {
    || (a.Live? && a.frame.version <= version + 1)
    || CountUpTo(server.log(0), Target(a, server)) - CountUpTo(server.log(0), version)
       <= 500 * Rounds(server.refuses, Guard(kind))
  }

  ghost predicate AllWithinReach(kind: Kind, version: int, arrivals: seq<Arrival>, servers: seq<Server>)
    requires |arrivals| == |servers|
  {
    forall i :: 0 <= i < |arrivals| ==>
      WithinReach(kind, servers[i], Floor(version, arrivals, servers, i), arrivals[i])
  }

  function LogAfter(kind: Kind, start: seq<Event>, servers: seq<Server>, n: nat): seq<Event>
    requires n <= |servers|
  {
    if n == 0 then start else servers[n - 1].log(Guard(kind))
  }

  lemma {:induction false} ReconcileNeverFalls(kind: Kind, v: View, fetch: (nat, int) -> Fetch, i: nat, guard: nat)
    ensures ReconcileFrom(kind, v, fetch, i, guard).view.version >= v.version
    decreases guard - i
  {
    if i < guard && fetch(i, v.version).Page? {
      var page := fetch(i, v.version).events;
      PageNeverFalls(kind, v, page);
      ReconcileNeverFalls(kind, ApplyPage(kind, v, page), fetch, i + 1, guard);
    }
  }

  /** One arrival: in step, never back, and exactly when the target is within reach, there. */
  lemma ArrivalHandled(kind: Kind, server: Server, v: View, a: Arrival)
    requires Growing(server.log) && InStep(server.log(0), v) && Possible(a, server)
    ensures var w := Handle(kind, v, a, server);
      && InStep(server.log(Guard(kind)), w) && w.version >= v.version
      && (w.version >= Target(a, server) <==> WithinReach(kind, server, v.version, a))
  {
    hide ReconcileFrom, InStep;
    ReconcileNeverFalls(kind, v, Serving(server), 0, Guard(kind));
    match a
    case Live(f) => GapHealing(kind, server, v, f);
    case Reconnect =>
      ReconcileCatchesUp(kind, server, v, Guard(kind));
      StateAtMax(server.log(0));
  }

  lemma LaterArrival(kind: Kind, before: seq<Event>, server: Server, v: View, floor: int, a: Arrival)
    requires Growing(server.log) && Extends(server.log(0), before) && Possible(a, server)
    requires InStep(before, v)
    ensures var w := Handle(kind, v, a, server);
      && InStep(server.log(Guard(kind)), w) && w.version >= v.version
      && (v.version >= floor && WithinReach(kind, server, floor, a) ==> w.version >= Target(a, server))
  {
    hide Handle, Possible;
    InStepLater(before, server.log(0), v);
    ArrivalHandled(kind, server, v, a);
    if v.version >= floor { CountMonotone(server.log(0), floor, v.version); }
  }

  /**
   * Whatever arrives and whatever requests are refused, the client stays in step; and it is never behind any frame it
   * has handled, or any log it has reconnected to, if each was within reach.
   */
  lemma {:induction false} FramesReached(kind: Kind, start: seq<Event>, v: View, arrivals: seq<Arrival>,
                                         servers: seq<Server>, n: nat)
    requires Heard(start, arrivals, servers) && n <= |arrivals| && InStep(start, v)
    ensures var w := HandleFirst(kind, v, arrivals, servers, n);
      && InStep(LogAfter(kind, start, servers, n), w) && w.version >= v.version
      && (AllWithinReach(kind, v.version, arrivals, servers) ==> w.version >= Floor(v.version, arrivals, servers, n))
  {
    hide InStep, Growing, Possible, Handle, Extends;
    if n > 0 {
      FramesReached(kind, start, v, arrivals, servers, n - 1);
      var w := HandleFirst(kind, v, arrivals, servers, n - 1);
      var floor := Floor(v.version, arrivals, servers, n - 1);
      LaterArrival(kind, LogAfter(kind, start, servers, n - 1), servers[n - 1], w, floor, arrivals[n - 1]);
    }
  }

  /**
   * One frame for the newest event, or one reconnect after it was committed, whatever else was lost, repeated or
   * reordered, and the client has everything.
   */
  lemma NewestFrameSuffices(kind: Kind, log: seq<Event>, start: seq<Event>, v: View, arrivals: seq<Arrival>,
                            servers: seq<Server>, i: nat)
    requires Heard(start, arrivals, servers) && AllWithinReach(kind, v.version, arrivals, servers) && InStep(start, v)
    requires GoodLog(log) && i < |arrivals| && Target(arrivals[i], servers[i]) == MaxVersion(log)
    requires Extends(log, LogAfter(kind, start, servers, |servers|))
    ensures HandleFirst(kind, v, arrivals, servers, |arrivals|) == View(Replay(log), MaxVersion(log))
  {
    var w := HandleFirst(kind, v, arrivals, servers, |arrivals|);
    FramesReached(kind, start, v, arrivals, servers, |arrivals|);
    FloorCovers(v.version, arrivals, servers, |arrivals|);
    InStepLater(LogAfter(kind, start, servers, |servers|), log, w);
    AtEndIsReplay(log, w);
  }

  /** The frames announce, in order, everything committed after the first `from` events, each once it is committed. */
  ghost predicate Announces(log: seq<Event>, from: nat, arrivals: seq<Arrival>, servers: seq<Server>) {
    && from + |arrivals| == |log| && |servers| == |arrivals|
    && (forall i :: 0 <= i < |arrivals| ==> arrivals[i].Live? && Carries(arrivals[i].frame, log[from + i]))
    && (forall i :: 0 <= i < |servers| ==> Growing(servers[i].log) && from + i < |servers[i].log(0)|)
    && (forall i, j: nat :: 0 <= i < |servers| ==> Extends(log, servers[i].log(j)))
  }

  /** A loss-free stream is a special case of what can be heard, and its i-th frame is event from + i. */
  lemma AnnouncedIsHeard(log: seq<Event>, from: nat, arrivals: seq<Arrival>, servers: seq<Server>)
    requires GoodLog(log) && Announces(log, from, arrivals, servers) && TimeFlows(log[..from], servers)
    ensures Heard(log[..from], arrivals, servers)
    ensures forall i :: 0 <= i < |arrivals| ==> arrivals[i].Live?
    ensures forall i :: 0 <= i < |arrivals| ==> CountUpTo(servers[i].log(0), arrivals[i].frame.version) == from + i + 1
  {
    forall i | 0 <= i < |arrivals|
      ensures AgreesWithLog(servers[i].log(0), arrivals[i].frame)
      ensures CountUpTo(servers[i].log(0), arrivals[i].frame.version) == from + i + 1
    {
      var now := servers[i].log(0);
      assert now[from + i] == log[from + i] by { assert log[..|now|][from + i] == log[from + i]; }
      CountAt(now, from + i);
    }
  }

  /** What is seen by the time of frame i: what the reconcile drained, then every earlier frame. */
  lemma SeenByFrame(log: seq<Event>, seen: nat, from: nat, v: View, arrivals: seq<Arrival>, servers: seq<Server>,
                    i: nat)
    requires GoodLog(log) && Announces(log, from, arrivals, servers) && TimeFlows(log[..from], servers)
    requires seen <= from <= |log| && v.version == MaxVersion(log[..seen]) && i < |arrivals|
    ensures arrivals[i].Live? && CountUpTo(servers[i].log(0), arrivals[i].frame.version) == from + i + 1
    ensures CountUpTo(servers[i].log(0), Floor(v.version, arrivals, servers, i)) >= if i == 0 then seen else from + i
  {
    AnnouncedIsHeard(log, from, arrivals, servers);
    var now := servers[i].log(0);
    assert Growing(servers[i].log);
    if i == 0 {
      assert now[..seen] == log[..seen] by { assert now[..from][..seen] == log[..from][..seen] == log[..seen]; }
      CountStable(log[..seen], now, v.version);
      OrderedPrefix(log[..seen], now);
      StateAtMax(log[..seen]);
    } else {
      FloorCovers(v.version, arrivals, servers, i);
      assert Extends(now, servers[i - 1].log(0)) && Growing(servers[i - 1].log);
      FrameCountLasts(servers[i - 1].log(0), now, arrivals[i - 1].frame);
      CountMonotone(now, arrivals[i - 1].frame.version, Floor(v.version, arrivals, servers, i));
    }
  }

  lemma StreamWithinReach(kind: Kind, log: seq<Event>, seen: nat, from: nat, v: View, arrivals: seq<Arrival>,
                          servers: seq<Server>)
    requires GoodLog(log) && Announces(log, from, arrivals, servers) && TimeFlows(log[..from], servers)
    requires seen <= from <= |log| && v.version == MaxVersion(log[..seen])
    requires forall i :: 0 <= i < |servers| ==> !servers[i].refuses(0)
    requires arrivals != [] ==> from - seen < 500 * Rounds(servers[0].refuses, Guard(kind))
    ensures AllWithinReach(kind, v.version, arrivals, servers)
  {
    hide CountUpTo, Floor, TimeFlows, Ordered;
    forall i | 0 <= i < |arrivals|
      ensures WithinReach(kind, servers[i], Floor(v.version, arrivals, servers, i), arrivals[i])
    {
      SeenByFrame(log, seen, from, v, arrivals, servers, i);
      assert Rounds(servers[i].refuses, Guard(kind)) >= 1;
    }
  }

  lemma FrameCountLasts(log: seq<Event>, longer: seq<Event>, f: Frame)
    requires GoodLog(longer) && Extends(longer, log) && AgreesWithLog(log, f)
    ensures CountUpTo(longer, f.version) == CountUpTo(log, f.version)
  {
    OrderedPrefix(log, longer);
    var k :| 0 <= k < |log| && Carries(f, log[k]);
    CountAt(log, k);
    CountStable(log, longer, f.version);
  }

  lemma PrefixInStep(log: seq<Event>, seen: nat, registered: nat, v: View)
    requires GoodLog(log) && seen <= registered <= |log| && InStep(log[..seen], v)
    ensures InStep(log[..registered], v)
  {
    GoodPrefix(log, registered);
    assert log[..registered][..seen] == log[..seen];
    InStepLater(log[..seen], log[..registered], v);
  }

  lemma LastFrameIsNewest(kind: Kind, log: seq<Event>, from: nat, arrivals: seq<Arrival>, servers: seq<Server>)
    requires Announces(log, from, arrivals, servers) && from < |log|
    ensures |arrivals| == |servers| > 0 && Extends(log, LogAfter(kind, log[..from], servers, |servers|))
    ensures arrivals[|arrivals| - 1].Live? && arrivals[|arrivals| - 1].frame.version == MaxVersion(log)
  {
    assert Carries(arrivals[|arrivals| - 1].frame, log[from + (|arrivals| - 1)]);
  }

  lemma GoodPrefix(log: seq<Event>, n: nat)
    requires GoodLog(log) && n <= |log|
    ensures GoodLog(log[..n])
  {
    OrderedPrefix(log[..n], log);
  }

  lemma DrainedCount(log: seq<Event>, seen: nat, v: View)
    requires GoodLog(log) && seen <= |log| && v.version == MaxVersion(log[..seen])
    ensures v.version == MaxVersion(log) <==> seen == |log|
  {
    OrderedPairs(log, |log|);
    if seen == |log| { assert log[..seen] == log; }
  }

  /**
   * The Go client reconciles and only then connects. After that reconcile drained the first `seen` events and the
   * broker registered the connection at event `registered`, a loss-free stream leaves the client at the end of the
   * log exactly when nothing was committed in between, or something was committed afterwards. Each frame's reconcile,
   * should it need one, has to get its first page, and the first frame's what was committed in between.
   */
  lemma ConnectionConverges(kind: Kind, log: seq<Event>, seen: nat, registered: nat, v: View, arrivals: seq<Arrival>,
                            servers: seq<Server>)
    requires GoodLog(log) && seen <= registered <= |log|
    requires forall i :: 0 <= i < |servers| ==> !servers[i].refuses(0)
    requires servers != [] ==> registered - seen < 500 * Rounds(servers[0].refuses, Guard(kind))
    requires InStep(log[..seen], v) && v.version == MaxVersion(log[..seen])
    requires Announces(log, registered, arrivals, servers) && TimeFlows(log[..registered], servers)
    ensures var w := HandleFirst(kind, v, arrivals, servers, |arrivals|);
      && InStep(log, w)
      && (w == View(Replay(log), MaxVersion(log)) <==> seen == registered || registered < |log|)
  {
    hide Heard, AllWithinReach, TimeFlows, Announces, InStep;
    PrefixInStep(log, seen, registered, v);
    if registered < |log| {
      StreamDelivers(kind, log, seen, registered, v, arrivals, servers);
    } else {
      SilentStream(log, seen, v, arrivals, servers);
    }
  }

  lemma {:induction false} StreamDelivers(kind: Kind, log: seq<Event>, seen: nat, registered: nat, v: View,
                                          arrivals: seq<Arrival>, servers: seq<Server>)
    requires GoodLog(log) && seen <= registered < |log|
    requires forall i :: 0 <= i < |servers| ==> !servers[i].refuses(0)
    requires servers != [] ==> registered - seen < 500 * Rounds(servers[0].refuses, Guard(kind))
    requires InStep(log[..registered], v) && v.version == MaxVersion(log[..seen])
    requires Announces(log, registered, arrivals, servers) && TimeFlows(log[..registered], servers)
    ensures var w := HandleFirst(kind, v, arrivals, servers, |arrivals|);
      w == View(Replay(log), MaxVersion(log)) && InStep(log, w)
  {
    hide Heard, AllWithinReach, HandleFirst, Announces, TimeFlows, Extends, LogAfter, Rounds, InStep, Ordered;
    AnnouncedIsHeard(log, registered, arrivals, servers);
    StreamWithinReach(kind, log, seen, registered, v, arrivals, servers);
    LastFrameIsNewest(kind, log, registered, arrivals, servers);
    NewestFrameSuffices(kind, log, log[..registered], v, arrivals, servers, |arrivals| - 1);
    WholeLogInStep(log);
  }

  lemma WholeLogInStep(log: seq<Event>)
    requires GoodLog(log)
    ensures InStep(log, View(Replay(log), MaxVersion(log)))
  {
    StateAtMax(log);
    OrderedPairs(log, |log|);
  }

  lemma SilentStream(log: seq<Event>, seen: nat, v: View, arrivals: seq<Arrival>, servers: seq<Server>)
    requires GoodLog(log) && seen <= |log| && Announces(log, |log|, arrivals, servers)
    requires InStep(log[..|log|], v) && v.version == MaxVersion(log[..seen])
    ensures arrivals == [] && InStep(log, v)
    ensures v == View(Replay(log), MaxVersion(log)) <==> seen == |log|
  {
    assert log[..|log|] == log;
    DrainedCount(log, seen, v);
    AtEndIsReplay(log, v);
  }

  /** The failing side: a flag committed after the reconcile and before the registration is not seen. */
  lemma UnseenCommit(kind: Kind, f: Flag)
    requires ValidKey(f.key) && f.version == 1
    ensures var log, v := [Event(1, f.key, Created(f))], View(map[], 0);
      && GoodLog(log) && InStep(log[..0], v) && v.version == MaxVersion(log[..0])
      && Announces(log, 1, [], []) && TimeFlows(log[..1], [])
      && HandleFirst(kind, v, [], [], 0) == v && v.version < MaxVersion(log) && f.key in Replay(log)
  {
    var log := [Event(1, f.key, Created(f))];
    assert f.key in ReplayTo(log, 1) && OrderedTo(log, 0) && Ordered(log);
  }

  /** The TypeScript client between two turns of its event loop: at most one reconcile, `left` pages to go. */
  datatype Tab = Tab(view: View, reconciling: bool, left: nat)

  /** A turn's result and, if it sends one, the `since` of the next request. */
  datatype Turn = Turn(tab: Tab, ask: Option<int>)

  /** `reconcile()` up to its first await: a second call while one is running does nothing. */
  function StartReconcile(t: Tab): Turn {
    if t.reconciling then Turn(t, None)
    else Turn(Tab(t.view, true, Guard(Ts)), Some(t.view.version))
  }

  /** The rest of one loop round, when the answer arrives. */
  function OnAnswer(t: Tab, answer: Fetch): Turn {
    match answer
    case Refused => Turn(Tab(t.view, false, 0), None)
    case Page(events) =>
      var next := ApplyPage(Ts, t.view, events);
      if events == [] || next.version == t.view.version || t.left <= 1 then Turn(Tab(next, false, 0), None)
      else Turn(Tab(next, t.reconciling, t.left - 1), Some(next.version))
  }

  function OnFrame(t: Tab, f: Frame): Turn {
    var live := ApplyLive(Ts, t.view, f);
    if live.gap then StartReconcile(t) else Turn(t.(view := live.view), None)
  }

  /** Runs a reconcile to its end, with no frame in between. */
  function Finish(t: Turn, fetch: (nat, int) -> Fetch, i: nat): Tab
    decreases t.tab.left
  {
    if t.ask.None? || !t.tab.reconciling || t.tab.left == 0 then t.tab
    else
      var next := OnAnswer(t.tab, fetch(i, t.ask.value));
      if next.tab.left < t.tab.left then Finish(next, fetch, i + 1) else next.tab
  }

  /** Undisturbed, the awaited rounds compute the plain loop. */
  lemma {:induction false} FinishIsReconcile(v: View, left: nat, fetch: (nat, int) -> Fetch, i: nat)
    requires left > 0
    ensures Finish(Turn(Tab(v, true, left), Some(v.version)), fetch, i)
            == Tab(ReconcileFrom(Ts, v, fetch, i, i + left).view, false, 0)
    decreases left
  {
    var next := OnAnswer(Tab(v, true, left), fetch(i, v.version));
    if next.tab.reconciling {
      FinishIsReconcile(next.tab.view, left - 1, fetch, i + 1);
    }
  }

  /** The browser's whole reconcile, undisturbed, from start to end: it drains 5 million events and no more. */
  lemma BrowserDrains(log: seq<Event>, t: Tab)
    requires GoodLog(log) && InStep(log, t.view) && !t.reconciling
    ensures StartReconcile(t).ask == Some(t.view.version)
    ensures var end := Finish(StartReconcile(t), ServeLog(log), 0);
      && !end.reconciling && InStep(log, end.view)
      && (end.view == View(Replay(log), MaxVersion(log)) <==> |log| - CountUpTo(log, t.view.version) <= 5_000_000)
  {
    hide Finish, ReconcileFrom, InStep;
    FinishIsReconcile(t.view, Guard(Ts), ServeLog(log), 0);
    ReconcileDrains(Ts, log, t.view, Guard(Ts));
  }

  /**
   * A gap seen while a reconcile waits for an answer is swallowed. If no frame is heard before that reconcile ends,
   * then whatever the awaited answer, whatever requests are refused after it, and however the log grows, the client
   * reaches the frame exactly when the awaited page moves it forward and the rest fits what is left before a refusal.
   */
  lemma SwallowedGap(server: Server, t: Tab, since: int, answer: Fetch, f: Frame)
    requires Growing(server.log) && InStep(server.log(0), t.view) && t.reconciling && t.left > 0
    requires answer.Page? ==> since <= t.view.version && SegmentAfter(server.log(0), since, answer.events)
    requires AgreesWithLog(server.log(0), f) && f.version > t.view.version
    ensures f.version > t.view.version + 1 ==> OnFrame(t, f) == Turn(t, None)
    ensures var log, next, rounds := server.log(0), OnAnswer(t, answer), Rounds(server.refuses, t.left - 1);
      var end := Finish(next, Serving(server), 0);
      && !end.reconciling && InStep(server.log(t.left - 1), end.view)
      && (end.view.version >= f.version <==>
          next.tab.view.version > t.view.version
          && CountUpTo(log, f.version) <= CountUpTo(log, next.tab.view.version) + 500 * rounds)
  {
    hide Finish, InStep, SegmentAfter, ApplyPage, Growing;
    var fetch := Serving(server);
    if answer.Refused? {
      FinishStops(t.view, fetch);
      LaterStep(server.log, t.view, t.left - 1);
    } else {
      LaterStep(server.log, t.view, 0);
      StalePage(Ts, server.log(0), t.view, since, answer.events);
      var w := ApplyPage(Ts, t.view, answer.events);
      PageNeverFalls(Ts, t.view, answer.events);
      if w.version > t.view.version && t.left > 1 {
        RestHeals(server, w, t.left - 1, f);
      } else {
        FinishStops(w, fetch);
        LaterStep(server.log, w, t.left - 1);
        if w.version > t.view.version { FrameReachedIff(server.log(0), w.version, f); }
      }
    }
  }

  lemma FinishStops(v: View, fetch: (nat, int) -> Fetch)
    ensures Finish(Turn(Tab(v, false, 0), None), fetch, 0) == Tab(v, false, 0)
  {
  }

  lemma LaterStep(logs: nat -> seq<Event>, v: View, n: nat)
    requires Growing(logs) && InStep(logs(0), v)
    ensures InStep(logs(n), v) && GoodLog(logs(0))
  {
    InStepLater(logs(0), logs(n), v);
  }

  lemma FrameReachedIff(log: seq<Event>, version: int, f: Frame)
    requires GoodLog(log) && AgreesWithLog(log, f)
    ensures HasVersion(log, f.version)
    ensures version >= f.version <==> CountUpTo(log, f.version) <= CountUpTo(log, version)
  {
    var k :| 0 <= k < |log| && Carries(f, log[k]);
    assert log[k].version == f.version;
    ReachedMeansCounted(log, version, f.version);
  }

  lemma RestHeals(server: Server, w: View, left: nat, f: Frame)
    requires Growing(server.log) && InStep(server.log(0), w) && left > 0 && AgreesWithLog(server.log(0), f)
    ensures var log, end := server.log(0), Finish(Turn(Tab(w, true, left), Some(w.version)), Serving(server), 0);
      && !end.reconciling && InStep(server.log(left), end.view)
      && (end.view.version >= f.version <==>
          CountUpTo(log, f.version) <= CountUpTo(log, w.version) + 500 * Rounds(server.refuses, left))
  {
    hide InStep, ReconcileFrom, Finish;
    var log, rounds := server.log(0), Rounds(server.refuses, left);
    FinishIsReconcile(w, left, Serving(server), 0);
    FrameReachedIff(log, w.version, f);
    HealFrom(Ts, server, w, 0, left, f.version, rounds, Reachable(log, w.version, f.version, rounds),
             ReconcileFrom(Ts, w, Serving(server), 0, left));
    CapacityIsProduct(rounds);
  }

  // The same with everything that can happen in between.

  /** A turn of the event loop while a reconcile waits: a live frame, or the answer to the request. */
  datatype Input = Heard(frame: Frame) | Answered(answer: Fetch)

  /** The tab and the version the request it waits for asked from. */
  datatype Wait = Wait(tab: Tab, since: int)

  function NextWait(w: Wait, input: Input): Wait {
    var turn := match input case Heard(f) => OnFrame(w.tab, f) case Answered(a) => OnAnswer(w.tab, a);
    Wait(turn.tab, if turn.ask.Some? then turn.ask.value else w.since)
  }

  function WaitAfter(w: Wait, inputs: seq<Input>, n: nat): Wait
    requires n <= |inputs|
  {
    if n == 0 then w else NextWait(WaitAfter(w, inputs, n - 1), inputs[n - 1])
  }

  /** `logs[i]` is the log at turn i; `read[i]` the log an answer's page was read from, some time after its request. */
  ghost predicate Happens(start: seq<Event>, w: Wait, inputs: seq<Input>, logs: seq<seq<Event>>,
                          read: seq<seq<Event>>) {
    && |inputs| == |logs| == |read|
    && (forall i :: 0 <= i < |inputs| ==> GoodLog(logs[i]) && Extends(logs[i], LogBefore(start, logs, i)))
    && (forall i :: 0 <= i < |inputs| && inputs[i].Heard? ==> AgreesWithLog(logs[i], inputs[i].frame))
    && (forall i :: 0 <= i < |inputs| && inputs[i].Answered? && inputs[i].answer.Page? ==>
          PageRead(logs[i], WaitAfter(w, inputs, i).since, read[i], inputs[i].answer.events))
  }

  function LogBefore(start: seq<Event>, logs: seq<seq<Event>>, i: nat): seq<Event>
    requires i <= |logs|
  {
    if i == 0 then start else logs[i - 1]
  }

  /** The page was read from a log that already held the version asked from, and is part of the log by now. */
  predicate PageRead(now: seq<Event>, since: int, read: seq<Event>, page: seq<Event>) {
    Extends(now, read) && 0 <= since <= MaxVersion(read) && page == PageOf(read, since, 500)
  }

  /** Through all these turns the reconcile goes on. */
  predicate StillWaiting(w: Wait, inputs: seq<Input>) {
    forall i :: 0 <= i <= |inputs| ==> WaitAfter(w, inputs, i).tab.reconciling
  }

  lemma PieceOfPrefix(now: seq<Event>, read: seq<Event>, m: nat, n: nat)
    requires Extends(now, read) && m <= n <= |read|
    ensures now[m..n] == read[m..n]
  {
    assert now[..|read|][m..n] == now[m..n];
  }

  lemma ReadPageFits(now: seq<Event>, since: int, read: seq<Event>, page: seq<Event>)
    requires GoodLog(now) && PageRead(now, since, read, page)
    ensures Ordered(read) && SegmentAfter(now, since, page) && CountUpTo(now, since) == CountUpTo(read, since)
  {
    OrderedPrefix(read, now);
    CountStable(read, now, since);
    var from := CountUpTo(now, since);
    PieceOfPrefix(now, read, from, from + |page|);
    assert page == read[from..from + |page|];
  }

  /** The highest version an answer brings, 0 if it brings none. */
  function Brought(answer: Fetch): int { if answer.Page? then MaxVersion(answer.events) else 0 }

  lemma OneTurn(log: seq<Event>, w: Wait, input: Input, read: seq<Event>)
    requires GoodLog(log) && InStep(log, w.tab.view) && w.tab.reconciling && w.since <= w.tab.view.version
    requires input.Heard? ==> AgreesWithLog(log, input.frame)
    requires input.Answered? && input.answer.Page? ==> PageRead(log, w.since, read, input.answer.events)
    ensures var next := NextWait(w, input);
      && InStep(log, next.tab.view) && next.since <= next.tab.view.version
      && w.tab.view.version <= next.tab.view.version
      && (input.Heard? ==> next.tab.reconciling)
      && (input.Answered? ==> next.tab.view.version == Max(w.tab.view.version, Brought(input.answer)))
  {
    hide PageRead;
    match input
    case Heard(f) => LiveFrameKeepsStep(Ts, log, w.tab.view, f);
    case Answered(Refused) =>
    case Answered(Page(page)) =>
      ReadPageFits(log, w.since, read, page);
      StalePage(Ts, log, w.tab.view, w.since, page);
  }

  lemma {:induction false} TurnsKeepStep(start: seq<Event>, w: Wait, inputs: seq<Input>, logs: seq<seq<Event>>,
                                         read: seq<seq<Event>>, n: nat)
    requires Happens(start, w, inputs, logs, read) && n <= |inputs|
    requires GoodLog(start) && InStep(start, w.tab.view) && w.since <= w.tab.view.version
    requires forall i :: 0 <= i < n ==> WaitAfter(w, inputs, i).tab.reconciling
    ensures var t := WaitAfter(w, inputs, n);
      && GoodLog(LogBefore(start, logs, n)) && InStep(LogBefore(start, logs, n), t.tab.view)
      && t.since <= t.tab.view.version && w.tab.view.version <= t.tab.view.version
  {
    hide InStep, GoodLog, Extends, AgreesWithLog, PageRead, NextWait;
    if n > 0 {
      TurnsKeepStep(start, w, inputs, logs, read, n - 1);
      var t := WaitAfter(w, inputs, n - 1);
      InStepLater(LogBefore(start, logs, n - 1), logs[n - 1], t.tab.view);
      OneTurn(logs[n - 1], t, inputs[n - 1], read[n - 1]);
    }
  }

  /** A page read from an older log covers a frame exactly if that log had its event and the page gets there. */
  lemma PageCoversIff(now: seq<Event>, since: int, read: seq<Event>, page: seq<Event>, f: Frame)
    requires GoodLog(now) && PageRead(now, since, read, page) && AgreesWithLog(now, f) && f.version > since
    ensures MaxVersion(page) >= f.version <==>
            HasVersion(read, f.version) && CountUpTo(read, f.version) <= CountUpTo(read, since) + 500
  {
    ReadPageFits(now, since, read, page);
    var k :| 0 <= k < |now| && Carries(f, now[k]);
    var a := CountUpTo(read, since);
    SeenIff(now, k, since);
    if k < |read| {
      assert read[k] == now[..|read|][k] == now[k];
      CountAt(read, k);
      LastOfPage(read, a, page, k);
    } else {
      OrderedPairs(now, |now|);
      NotYetThere(now, read, k);
      if page != [] { assert page[|page| - 1] == read[a + |page| - 1] == now[a + |page| - 1]; }
    }
  }

  lemma LastOfPage(read: seq<Event>, a: nat, page: seq<Event>, k: nat)
    requires Ordered(read) && a <= k < |read|
    requires page == read[a..if a + 500 <= |read| then a + 500 else |read|]
    ensures MaxVersion(page) >= read[k].version <==> k < a + 500
  {
    OrderedPairs(read, |read|);
    assert page[|page| - 1] == read[a + |page| - 1];
  }

  lemma NotYetThere(now: seq<Event>, read: seq<Event>, k: nat)
    requires Ordered(now) && Extends(now, read) && |read| <= k < |now|
    ensures !HasVersion(read, now[k].version)
  {
    OrderedPairs(now, |now|);
    forall j | 0 <= j < |read| ensures read[j].version != now[k].version { assert read[j] == now[..|read|][j]; }
  }

  /**
   * From the turn that swallowed a frame's gap to the answer that ends the reconcile, through any frames and any
   * answers in between, pages of a growing log or refusals: the frame is reached exactly if live frames and earlier
   * pages had already brought the client there, or the last answer is a page that had the event to give and gets to it.
   */
  lemma SwallowedFrameReachedIff(start: seq<Event>, w: Wait, f: Frame, inputs: seq<Input>, logs: seq<seq<Event>>,
                                 read: seq<seq<Event>>, t: Wait, answer: Fetch, now: seq<Event>, from: seq<Event>)
    requires GoodLog(start) && InStep(start, w.tab.view) && w.tab.reconciling && w.since <= w.tab.view.version
    requires AgreesWithLog(start, f) && f.version > w.tab.view.version + 1
    requires Happens(start, w, inputs, logs, read) && StillWaiting(w, inputs) && t == WaitAfter(w, inputs, |inputs|)
    requires GoodLog(now) && Extends(now, LogBefore(start, logs, |logs|))
    requires answer.Page? ==> PageRead(now, t.since, from, answer.events)
    requires !OnAnswer(t.tab, answer).tab.reconciling
    ensures OnFrame(w.tab, f) == Turn(w.tab, None)
    ensures InStep(now, OnAnswer(t.tab, answer).tab.view)
    ensures OnAnswer(t.tab, answer).tab.view.version >= f.version <==>
            || t.tab.view.version >= f.version
            || (answer.Page? && HasVersion(from, f.version)
                && CountUpTo(from, f.version) <= CountUpTo(from, t.since) + 500)
  {
    hide InStep, GoodLog, PageRead, AgreesWithLog, HasVersion, CountUpTo, Extends, NextWait, OnAnswer;
    TurnsKeepStep(start, w, inputs, logs, read, |inputs|);
    InStepLater(LogBefore(start, logs, |logs|), now, t.tab.view);
    FrameStaysKnown(start, logs, f, |logs|);
    FrameLasts(LogBefore(start, logs, |logs|), now, f);
    LastTurn(now, t, answer, from, f);
  }

  lemma LastTurn(log: seq<Event>, t: Wait, answer: Fetch, read: seq<Event>, f: Frame)
    requires GoodLog(log) && InStep(log, t.tab.view) && t.tab.reconciling && t.since <= t.tab.view.version
    requires AgreesWithLog(log, f) && (answer.Page? ==> PageRead(log, t.since, read, answer.events))
    ensures InStep(log, OnAnswer(t.tab, answer).tab.view)
    ensures OnAnswer(t.tab, answer).tab.view.version >= f.version <==>
            || t.tab.view.version >= f.version
            || (answer.Page? && HasVersion(read, f.version)
                && CountUpTo(read, f.version) <= CountUpTo(read, t.since) + 500)
  {
    hide GoodLog, PageRead, HasVersion, CountUpTo;
    OneTurn(log, t, Answered(answer), read);
    var k :| 0 <= k < |log| && Carries(f, log[k]);
    VersionsPositive(log, k);
    if answer.Page? && t.tab.view.version < f.version { PageCoversIff(log, t.since, read, answer.events, f); }
  }

  lemma VersionsPositive(log: seq<Event>, k: nat)
    requires GoodLog(log) && k < |log|
    ensures log[k].version >= 1
  {
    assert WellFormed(log[k]);
  }

  lemma FrameLasts(log: seq<Event>, longer: seq<Event>, f: Frame)
    requires Extends(longer, log) && AgreesWithLog(log, f)
    ensures AgreesWithLog(longer, f)
  {
    var k :| 0 <= k < |log| && Carries(f, log[k]);
    assert longer[k] == longer[..|log|][k];
  }

  lemma {:induction false} FrameStaysKnown(start: seq<Event>, logs: seq<seq<Event>>, f: Frame, n: nat)
    requires n <= |logs| && AgreesWithLog(start, f)
    requires forall i :: 0 <= i < |logs| ==> Extends(logs[i], LogBefore(start, logs, i))
    ensures AgreesWithLog(LogBefore(start, logs, n), f)
  {
    hide AgreesWithLog, Extends;
    if n > 0 {
      FrameStaysKnown(start, logs, f, n - 1);
      FrameLasts(LogBefore(start, logs, n - 1), logs[n - 1], f);
    }
  }

  /**
   * "No new version applied, so caught up" is not what a page that brings nothing new means: live frames, or another
   * caller, may have taken the client past the whole page. It is caught up exactly if the page was not a full one that
   * the client has overtaken.
   */
  lemma NothingNewIff(kind: Kind, log: seq<Event>, v: View, since: int)
    requires GoodLog(log) && InStep(log, v) && since <= v.version
    ensures ApplyPage(kind, v, PageOf(log, since, 500)).version == v.version <==>
            v.version == MaxVersion(log) || CountUpTo(log, since) + 500 <= CountUpTo(log, v.version)
  {
    var page := PageOf(log, since, 500);
    StalePage(kind, log, v, since, page);
    AtEndIsReplay(log, v);
    var a := CountUpTo(log, since);
    if page != [] {
      assert page[|page| - 1] == log[a + |page| - 1];
      SeenIff(log, a + |page| - 1, v.version);
    }
  }

  // Failing cases: a log of any length, and two ways to miss its end.

  function Updates(key: string, n: nat): seq<Event> {
    seq(n, i requires 0 <= i < n => Event(i + 1, key, Updated(Flag("", key, "", false, 0, [], i + 1))))
  }

  lemma {:induction false} UpdatesOrdered(key: string, n: nat, m: nat)
    requires m <= n
    ensures OrderedTo(Updates(key, n), m)
  {
    if m > 0 { UpdatesOrdered(key, n, m - 1); }
  }

  lemma UpdatesAreGood(key: string, n: nat, v: nat)
    requires ValidKey(key) && v <= n
    ensures GoodLog(Updates(key, n)) && MaxVersion(Updates(key, n)) == n
    ensures CountUpTo(Updates(key, n), v) == v && InStep(Updates(key, n), View(StateAt(Updates(key, n), v), v))
  {
    var log := Updates(key, n);
    UpdatesOrdered(key, n, n);
    assert n > 0 ==> log[n - 1].version == n;
    CountIs(log, v, v);
  }

  lemma LastUpdate(key: string, n: nat) returns (f: Frame)
    requires n > 0
    ensures f.version == n && AgreesWithLog(Updates(key, n), f)
  {
    var log := Updates(key, n);
    f := Frame(n, FlagUpdated(log[n - 1].change.flag));
    assert Carries(f, log[n - 1]);
  }

  /** Live frames took the client past the page it waits for: the reconcile ends as if caught up, one event short. */
  lemma OvertakenPageStops(key: string, left: nat) returns (t: Tab, log: seq<Event>, f: Frame)
    requires ValidKey(key)
    ensures GoodLog(log) && InStep(log, t.view) && t.reconciling && t.left == left
    ensures AgreesWithLog(log, f) && f.version > t.view.version
    ensures OnAnswer(t, Page(PageOf(log, 0, 500))) == Turn(Tab(t.view, false, 0), None)
  {
    log := Updates(key, 501);
    t := Tab(View(StateAt(log, 500), 500), true, left);
    UpdatesAreGood(key, 501, 500);
    UpdatesAreGood(key, 501, 0);
    f := LastUpdate(key, 501);
    NothingNewIff(Ts, log, t.view, 0);
    PageNeverFalls(Ts, t.view, PageOf(log, 0, 500));
  }

  /** The awaited page moves the client on, the next request is refused: the reconcile ends short of the frame. */
  lemma RefusedRestStops(key: string) returns (t: Tab, log: seq<Event>, page: seq<Event>, f: Frame, next: Turn)
    requires ValidKey(key)
    ensures GoodLog(log) && InStep(log, t.view) && t.reconciling && AgreesWithLog(log, f)
    ensures SegmentAfter(log, t.view.version, page) && OnFrame(t, f) == Turn(t, None)
    ensures next == OnAnswer(t, Page(page)) && next.tab.view.version > t.view.version && next.ask.Some?
    ensures CountUpTo(log, f.version) <= CountUpTo(log, next.tab.view.version) + 500
    ensures OnAnswer(next.tab, Refused).ask.None? && OnAnswer(next.tab, Refused).tab.view.version < f.version
  {
    log := Updates(key, 3);
    t := Tab(View(StateAt(log, 0), 0), true, Guard(Ts));
    page := log[..1];
    UpdatesAreGood(key, 3, 0);
    UpdatesAreGood(key, 3, 1);
    UpdatesAreGood(key, 3, 3);
    f := LastUpdate(key, 3);
    next := OnAnswer(t, Page(page));
    assert log[0..1] == page;
    StalePage(Ts, log, t.view, 0, page);
    assert MaxVersion(page) == 1;
  }

  /** The failing side: the page was served before both commits, the first frame is lost and the second swallowed. */
  lemma SwallowedFrameIsMissed(a: Flag, b: Flag)
    requires ValidKey(a.key) && ValidKey(b.key) && a.version == 1 && b.version == 2
    ensures var log := [Event(1, a.key, Created(a)), Event(2, b.key, Created(b))];
      var t, f := Tab(View(map[], 0), true, Guard(Ts)), Frame(2, FlagUpdated(b));
      && GoodLog(log) && AgreesWithLog(log, f) && SegmentAfter(log, 0, [])
      && OnFrame(t, f) == Turn(t, None)
      && OnAnswer(t, Page([])) == Turn(Tab(View(map[], 0), false, 0), None)
  {
    var log := [Event(1, a.key, Created(a)), Event(2, b.key, Created(b))];
    assert OrderedTo(log, 0) && OrderedTo(log, 1) && Ordered(log);
    assert Carries(Frame(2, FlagUpdated(b)), log[1]);
    CountIs(log, 0, 0);
    assert log[0..0] == [];
  }
}
