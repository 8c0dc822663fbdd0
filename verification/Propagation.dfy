/**
 * The whole system as one transition system: atomic transactions on the store, a bus that may drop, repeat and
 * reorder, and any number of clients with any number of requests, answers and snapshots in flight.
 */
module Propagation {
  import opened FlagModel
  import opened EventLog
  import opened Repository
  import opened FlagService
  import opened Sdk
  import opened Snapshots
  import opened Evaluation

  datatype Client = Client(kind: Kind, view: View)

  /** What a delete call has read before it deletes. */
  datatype Sighting = Sighting(id: string, key: string)

  datatype Ask = Ask(client: int, since: int)
  datatype Answer = Answer(client: int, since: int, page: seq<Event>)

  /** The snapshot endpoint's first read, made when the log held `at` events, and its answer after the second. */
  datatype Listing = Listing(client: int, flags: seq<Flag>, at: nat)
  datatype Snapshot = Snapshot(listing: Listing, version: int)

  /** `bus` holds every frame ever published; `lookups` every row lookup a delete call has made. */
  datatype System = System(store: Store, bus: set<Frame>, lookups: set<Sighting>, clients: map<int, Client>,
                           asks: set<Ask>, answers: set<Answer>, listings: set<Listing>, snapshots: set<Snapshot>)

  datatype Step =
    | Call(call: FlagService.Call)
    | Lookup(id: string)
    | Join(client: int, kind: Kind)
    | ReadTable(client: int, list: seq<Flag>)
    | ReadVersion(listing: Listing)
    | Boot(snapshot: Snapshot)
    | SendAsk(client: int)
    | ServeAsk(ask: Ask)
    | ApplyAnswer(answer: Answer)
    | Deliver(client: int, frame: Frame)

  const INITIAL_SYSTEM := System(EMPTY_STORE, {}, {}, map[], {}, {}, {}, {})

  /** Losing a message is never taking its step; repeating or reordering is taking it again or later. */
  predicate Enabled(s: System, step: Step) {
    match step
    case Call(call) =>
      match call {
        case CreateFlag(id, _, _, _) => UnusedId(s.store.log, id)
        case DeleteFlag(id, key, _) => Sighting(id, key) in s.lookups
        case _ => true
      }
    case Lookup(id) => id in s.store.rows
    case Join(c, _) => c !in s.clients
    case ReadTable(_, list) => Lists(s.store.rows, list)
    case ReadVersion(listing) => listing in s.listings
    case Boot(snap) => snap in s.snapshots && snap.listing.client in s.clients
    case SendAsk(c) => c in s.clients
    case ServeAsk(ask) => ask in s.asks
    case ApplyAnswer(a) => a in s.answers && a.client in s.clients
    case Deliver(c, f) => c in s.clients && f in s.bus
  }

  function SetView(s: System, c: int, v: View): System
    requires c in s.clients
  {
    s.(clients := s.clients[c := s.clients[c].(view := v)])
  }

  function After(s: System, step: Step): System
    requires Enabled(s, step)
  {
    match step
    case Call(call) =>
      var served := Serve(s.store, call);
      s.(store := served.store, bus := s.bus + if served.frame.Some? then {served.frame.value} else {})
    case Lookup(id) => s.(lookups := s.lookups + {Sighting(id, s.store.rows[id].key)})
    case Join(c, kind) => s.(clients := s.clients[c := Client(kind, View(map[], 0))])
    case ReadTable(c, list) => s.(listings := s.listings + {Listing(c, list, |s.store.log|)})
    case ReadVersion(listing) => s.(snapshots := s.snapshots + {Snapshot(listing, MaxVersion(s.store.log))})
    case Boot(snap) => SetView(s, snap.listing.client, View(FlagsOf(snap.listing.flags), snap.version))
    case SendAsk(c) => s.(asks := s.asks + {Ask(c, s.clients[c].view.version)})
    case ServeAsk(ask) =>
      s.(answers := s.answers + {Answer(ask.client, ask.since, PageOf(s.store.log, ask.since, 500))})
    case ApplyAnswer(a) => SetView(s, a.client, ApplyPage(s.clients[a.client].kind, s.clients[a.client].view, a.page))
    case Deliver(c, f) => SetView(s, c, ApplyLive(s.clients[c].kind, s.clients[c].view, f).view)
  }

  // What holds whatever clients do, part by part.

  ghost predicate BusInv(log: seq<Event>, bus: set<Frame>) {
    forall f :: f in bus ==> f.version >= 1 && AgreesWithLog(log, f)
  }

  ghost predicate LookupInv(log: seq<Event>, lookups: set<Sighting>) {
    forall p :: p in lookups ==> KnownId(log, p.id, p.key)
  }

  predicate InRange(log: seq<Event>, version: int) { 0 <= version <= MaxVersion(log) }

  ghost predicate ClientInv(log: seq<Event>, clients: map<int, Client>) {
    forall c :: c in clients ==> InRange(log, clients[c].view.version)
  }

  ghost predicate FlightInv(log: seq<Event>, asks: set<Ask>, answers: set<Answer>) {
    && (forall a :: a in asks ==> InRange(log, a.since))
    && (forall a :: a in answers ==> InRange(log, a.since) && SegmentAfter(log, a.since, a.page))
  }

  predicate ListingOk(log: seq<Event>, l: Listing) { l.at <= |log| && FlagsOf(l.flags) == ReplayTo(log, l.at) }

  predicate SnapshotOk(log: seq<Event>, n: Snapshot) {
    ListingOk(log, n.listing) && InRange(log, n.version) && n.listing.at <= CountUpTo(log, n.version)
  }

  ghost predicate SnapshotInv(log: seq<Event>, listings: set<Listing>, snapshots: set<Snapshot>) {
    && (forall l :: l in listings ==> ListingOk(log, l))
    && (forall n :: n in snapshots ==> SnapshotOk(log, n))
  }

  ghost predicate Inv(s: System) {
    && StoreInv(s.store)
    && BusInv(s.store.log, s.bus)
    && LookupInv(s.store.log, s.lookups)
    && ClientInv(s.store.log, s.clients)
    && FlightInv(s.store.log, s.asks, s.answers)
    && SnapshotInv(s.store.log, s.listings, s.snapshots)
  }

  lemma AgreementLasts(log: seq<Event>, longer: seq<Event>, f: Frame)
    requires Extends(longer, log) && AgreesWithLog(log, f)
    ensures AgreesWithLog(longer, f)
  {
    var i :| 0 <= i < |log| && Carries(f, log[i]);
    assert longer[i] == longer[..|log|][i];
  }

  lemma KnownIdLasts(log: seq<Event>, longer: seq<Event>, id: string, key: string)
    requires Extends(longer, log) && KnownId(log, id, key)
    ensures KnownId(longer, id, key)
  {
    var i :| 0 <= i < |log| && EventId(log[i]) == id && log[i].key == key;
    assert longer[i] == longer[..|log|][i];
  }

  lemma SegmentLasts(log: seq<Event>, longer: seq<Event>, since: int, page: seq<Event>)
    requires Ordered(longer) && Extends(longer, log) && since <= MaxVersion(log) && SegmentAfter(log, since, page)
    ensures SegmentAfter(longer, since, page)
  {
    CountStable(log, longer, since);
    var from := CountUpTo(log, since);
    assert longer[from..from + |page|] == longer[..|log|][from..from + |page|];
  }

  lemma RangeLasts(log: seq<Event>, longer: seq<Event>, version: int)
    requires Ordered(longer) && Extends(longer, log) && InRange(log, version)
    ensures InRange(longer, version)
  {
    OrderedPrefix(log, longer);
  }

  lemma ListingLasts(log: seq<Event>, longer: seq<Event>, l: Listing)
    requires Extends(longer, log) && ListingOk(log, l)
    ensures ListingOk(longer, l)
  {
    PrefixAgrees(log, longer, l.at, 0);
  }

  lemma SnapshotLasts(log: seq<Event>, longer: seq<Event>, n: Snapshot)
    requires Ordered(longer) && Extends(longer, log) && SnapshotOk(log, n)
    ensures SnapshotOk(longer, n)
  {
    ListingLasts(log, longer, n.listing);
    RangeLasts(log, longer, n.version);
    CountStable(log, longer, n.version);
  }

  /** Everything the rest of the system relies on survives a longer log. */
  lemma LongerLog(s: System, longer: seq<Event>)
    requires Inv(s) && GoodLog(longer) && Extends(longer, s.store.log)
    ensures BusInv(longer, s.bus) && LookupInv(longer, s.lookups) && ClientInv(longer, s.clients)
    ensures FlightInv(longer, s.asks, s.answers) && SnapshotInv(longer, s.listings, s.snapshots)
  {
    hide AgreesWithLog, KnownId, SegmentAfter, ListingOk, SnapshotOk, InRange;
    var log := s.store.log;
    forall f | f in s.bus ensures AgreesWithLog(longer, f) { AgreementLasts(log, longer, f); }
    forall p | p in s.lookups ensures KnownId(longer, p.id, p.key) { KnownIdLasts(log, longer, p.id, p.key); }
    forall c | c in s.clients ensures InRange(longer, s.clients[c].view.version) {
      RangeLasts(log, longer, s.clients[c].view.version);
    }
    forall a | a in s.asks ensures InRange(longer, a.since) { RangeLasts(log, longer, a.since); }
    forall a | a in s.answers ensures InRange(longer, a.since) && SegmentAfter(longer, a.since, a.page) {
      RangeLasts(log, longer, a.since);
      SegmentInRangeLasts(log, longer, a);
    }
    forall l | l in s.listings ensures ListingOk(longer, l) { ListingLasts(log, longer, l); }
    forall n | n in s.snapshots ensures SnapshotOk(longer, n) { SnapshotLasts(log, longer, n); }
  }

  lemma SegmentInRangeLasts(log: seq<Event>, longer: seq<Event>, a: Answer)
    requires Ordered(longer) && Extends(longer, log) && InRange(log, a.since) && SegmentAfter(log, a.since, a.page)
    ensures SegmentAfter(longer, a.since, a.page)
  {
    SegmentLasts(log, longer, a.since, a.page);
  }

  lemma CallKeepsInv(s: System, call: FlagService.Call)
    requires Inv(s) && Enabled(s, Call(call))
    ensures Inv(After(s, Call(call)))
  {
    var t := After(s, Call(call));
    assert CallFits(s.store, call);
    ServeKeepsInv(s.store, call);
    LongerLog(s, t.store.log);
    if Serve(s.store, call).frame.Some? { ServedFrameAgrees(s.store, call); }
  }

  /** The view a step gives to the client it moves stays within the log; only a snapshot can take it back. */
  lemma MovedView(s: System, step: Step) returns (c: int, v: View)
    requires Inv(s) && Enabled(s, step) && (step.Boot? || step.ApplyAnswer? || step.Deliver?)
    ensures c in s.clients && InRange(s.store.log, v.version) && After(s, step) == SetView(s, c, v)
    ensures if step.Boot? then c == step.snapshot.listing.client && v.version == step.snapshot.version
            else v.version >= s.clients[c].view.version
  {
    var log := s.store.log;
    match step
    case Boot(snap) =>
      c, v := snap.listing.client, View(FlagsOf(snap.listing.flags), snap.version);
    case ApplyAnswer(a) =>
      c, v := a.client, ApplyPage(s.clients[a.client].kind, s.clients[a.client].view, a.page);
      PageKeepsRange(s.clients[c].kind, log, s.clients[c].view, a.page, CountUpTo(log, a.since), |a.page|);
    case Deliver(d, f) =>
      c, v := d, ApplyLive(s.clients[d].kind, s.clients[d].view, f).view;
      FrameInRange(log, f);
  }

  lemma FrameInRange(log: seq<Event>, f: Frame)
    requires Ordered(log) && AgreesWithLog(log, f)
    ensures InRange(log, f.version)
  {
    var i :| 0 <= i < |log| && Carries(f, log[i]);
    CountAt(log, i);
  }

  lemma ReadsKeepInv(s: System, step: Step)
    requires Inv(s) && Enabled(s, step)
    requires step.Lookup? || step.Join? || step.ReadTable? || step.ReadVersion? || step.SendAsk? || step.ServeAsk?
    ensures Inv(After(s, step))
  {
    OrderedPairs(s.store.log, |s.store.log|);
    match step
    case Lookup(id) => RowHasEvent(s.store, id);
    case ReadTable(c, list) => SnapshotIsReplay(s.store, list);
    case ReadVersion(listing) => StateAtMax(s.store.log);
    case _ =>
  }

  lemma StepKeepsInv(s: System, step: Step)
    requires Inv(s) && Enabled(s, step)
    ensures Inv(After(s, step))
  {
    if step.Call? {
      CallKeepsInv(s, step.call);
    } else if step.Boot? || step.ApplyAnswer? || step.Deliver? {
      var c, v := MovedView(s, step);
    } else {
      ReadsKeepInv(s, step);
    }
  }

  /** A run: each step is enabled in its state and leads to the next one. */
  predicate Run(states: seq<System>, steps: seq<Step>) {
    && |states| == |steps| + 1 && states[0] == INITIAL_SYSTEM
    && forall i :: 0 <= i < |steps| ==> Enabled(states[i], steps[i]) && states[i + 1] == After(states[i], steps[i])
  }

  lemma {:induction false} RunKeepsInv(states: seq<System>, steps: seq<Step>, i: nat)
    requires Run(states, steps) && i < |states|
    ensures Inv(states[i])
  {
    if i > 0 {
      RunKeepsInv(states, steps, i - 1);
      assert states[i] == After(states[i - 1], steps[i - 1]);
      StepKeepsInv(states[i - 1], steps[i - 1]);
    }
  }

  // The replay invariant.

  /** The client, if it is there, holds exactly the replay of the log up to its own version. */
  predicate Replays(s: System, c: int) { c in s.clients ==> InStep(s.store.log, s.clients[c].view) }

  /** Whatever was committed between the snapshot's two reads left nothing behind. */
  predicate Whole(log: seq<Event>, n: Snapshot) {
    n.listing.at <= CountUpTo(log, n.version) && NothingLeft(log, n.listing.at, CountUpTo(log, n.version))
  }

  /** What the step may not do to the client: install a torn snapshot, or a page whose distance to it matters. */
  predicate Sound(s: System, step: Step, c: int) {
    match step
    case Boot(snap) => snap.listing.client == c ==> Whole(s.store.log, snap)
    case ApplyAnswer(a) => a.client == c && c in s.clients ==>
      Harmless(s.store.log, s.clients[c].view.version, a.since, a.page)
    case _ => true
  }

  lemma BootReplaysIff(log: seq<Event>, n: Snapshot)
    requires GoodLog(log) && SnapshotOk(log, n)
    ensures InStep(log, View(FlagsOf(n.listing.flags), n.version)) <==> Whole(log, n)
  {
    ReplaysEqualIff(log, n.listing.at, CountUpTo(log, n.version));
  }

  /** From a state where the client replays, the step leads to another one exactly when it is sound. */
  lemma StepReplaysIff(s: System, step: Step, c: int)
    requires Inv(s) && Enabled(s, step) && Replays(s, c)
    ensures Replays(After(s, step), c) <==> Sound(s, step, c)
  {
    hide InStep, Whole, Harmless, Serve, ApplyLive, ApplyPage, StateAt;
    var log := s.store.log;
    match step
    case Call(call) => LaterReplays(s, call, c);
    case Boot(snap) => if snap.listing.client == c { BootReplaysIff(log, snap); }
    case ApplyAnswer(a) =>
      if a.client == c { PageKeepsStepIff(s.clients[c].kind, log, s.clients[c].view, a.since, a.page); }
    case Deliver(d, f) => if d == c { LiveFrameKeepsStep(s.clients[c].kind, log, s.clients[c].view, f); }
    case Join(d, _) => EmptyClientInStep(log);
    case _ =>
  }

  lemma LaterReplays(s: System, call: FlagService.Call, c: int)
    requires Inv(s) && Enabled(s, Call(call)) && Replays(s, c)
    ensures Replays(After(s, Call(call)), c)
  {
    assert CallFits(s.store, call);
    ServeKeepsInv(s.store, call);
    if c in s.clients { InStepLater(s.store.log, Serve(s.store, call).store.log, s.clients[c].view); }
  }

  predicate SoundUpTo(states: seq<System>, steps: seq<Step>, n: nat, c: int)
    requires n <= |steps| < |states|
  {
    forall i :: 0 <= i < n ==> Sound(states[i], steps[i], c)
  }

  lemma {:induction false} SoundRunReplays(states: seq<System>, steps: seq<Step>, i: nat, c: int)
    requires Run(states, steps) && i < |states| && SoundUpTo(states, steps, i, c)
    ensures Replays(states[i], c)
  {
    if i > 0 {
      SoundRunReplays(states, steps, i - 1, c);
      RunKeepsInv(states, steps, i - 1);
      assert states[i] == After(states[i - 1], steps[i - 1]);
      StepReplaysIff(states[i - 1], steps[i - 1], c);
    }
  }

  /**
   * The replay invariant: through any run of commits, losses, repeats, reordered frames, pages and snapshots, a client
   * holds the replay of the log up to its version in every state exactly when each snapshot it installed was whole
   * and each page it applied was harmless.
   */
  lemma ReplayInvariant(states: seq<System>, steps: seq<Step>, c: int)
    requires Run(states, steps)
    ensures (forall i :: 0 <= i < |states| ==> Replays(states[i], c)) <==> SoundUpTo(states, steps, |steps|, c)
  {
    if SoundUpTo(states, steps, |steps|, c) {
      forall i | 0 <= i < |states| ensures Replays(states[i], c) { SoundRunReplays(states, steps, i, c); }
    }
    if forall i :: 0 <= i < |states| ==> Replays(states[i], c) {
      forall i | 0 <= i < |steps| ensures Sound(states[i], steps[i], c) {
        RunKeepsInv(states, steps, i);
        assert Replays(states[i], c) && Replays(states[i + 1], c) && states[i + 1] == After(states[i], steps[i]);
        StepReplaysIff(states[i], steps[i], c);
      }
    }
  }

  /** The step takes the client back: it installs a snapshot older than what the client has. */
  predicate GoesBack(s: System, step: Step, c: int) {
    && step.Boot? && step.snapshot.listing.client == c
    && c in s.clients && step.snapshot.version < s.clients[c].view.version
  }

  /** A step keeps every client and its kind, only appends to the log, and lowers a version exactly by going back. */
  lemma StepMonotone(s: System, step: Step, c: int)
    requires Inv(s) && Enabled(s, step)
    ensures Extends(After(s, step).store.log, s.store.log)
    ensures c in s.clients ==> var t := After(s, step);
      && c in t.clients && t.clients[c].kind == s.clients[c].kind
      && (t.clients[c].view.version >= s.clients[c].view.version <==> !GoesBack(s, step, c))
  {
    if step.Call? {
      assert CallFits(s.store, step.call);
      ServeKeepsInv(s.store, step.call);
    } else if step.Boot? || step.ApplyAnswer? || step.Deliver? {
      var d, v := MovedView(s, step);
    }
  }

  /** Where a step takes a client's version: one further by the next frame, to a new page's end, to the snapshot's. */
  function Reached(was: int, step: Step, c: int): int {
    match step
    case Deliver(d, f) => if d == c && f.version == was + 1 then f.version else was
    case ApplyAnswer(a) => if a.client == c && MaxVersion(a.page) > was then MaxVersion(a.page) else was
    case Boot(snap) => if snap.listing.client == c then snap.version else was
    case _ => was
  }

  /** Every step does what it is for: nobody stands still who could move, and a request gets the whole page after it. */
  lemma StepMoves(s: System, step: Step, c: int)
    requires Inv(s) && Enabled(s, step)
    ensures c in s.clients ==>
            && c in After(s, step).clients
            && After(s, step).clients[c].view.version == Reached(s.clients[c].view.version, step, c)
    ensures step.Call? ==> var served := Serve(s.store, step.call);
            After(s, step).store == served.store && (served.frame.Some? ==> served.frame.value in After(s, step).bus)
    ensures step.SendAsk? ==> Ask(step.client, s.clients[step.client].view.version) in After(s, step).asks
    ensures step.ServeAsk? ==> exists a :: a in After(s, step).answers && AnswersAsk(s.store.log, step.ask, a)
    ensures step.ReadVersion? ==> Snapshot(step.listing, MaxVersion(s.store.log)) in After(s, step).snapshots
  {
    hide Serve, AgreesWithLog, KnownId, ListingOk, SnapshotOk, WellFormed;
    var log := s.store.log;
    match step
    case ApplyAnswer(a) =>
      OrderedPairs(log, |log|);
      PageReaches(s.clients[a.client].kind, s.clients[a.client].view, a.page, |a.page|);
    case ServeAsk(ask) =>
      assert AnswersAsk(log, ask, Answer(ask.client, ask.since, PageOf(log, ask.since, 500)));
    case _ =>
  }

  /** All there is after the version asked from, up to 500 events. */
  predicate AnswersAsk(log: seq<Event>, ask: Ask, a: Answer) {
    && a.client == ask.client && a.since == ask.since && SegmentAfter(log, ask.since, a.page)
    && |a.page| <= 500
    && (|a.page| == 500 || CountUpTo(log, ask.since) + |a.page| == |log|)
  }

  lemma ExtendsOn(a: seq<Event>, b: seq<Event>, c: seq<Event>)
    requires Extends(b, a) && Extends(c, b)
    ensures Extends(c, a)
  {
    assert c[..|a|] == c[..|b|][..|a|];
  }

  lemma {:induction false} LogGrows(states: seq<System>, steps: seq<Step>, i: nat, j: nat, c: int)
    requires Run(states, steps) && i <= j < |states|
    ensures Extends(states[j].store.log, states[i].store.log)
    ensures c in states[i].clients ==> c in states[j].clients && states[j].clients[c].kind == states[i].clients[c].kind
    decreases j
  {
    if i < j {
      LogGrows(states, steps, i, j - 1, c);
      RunKeepsInv(states, steps, j - 1);
      StepMonotone(states[j - 1], steps[j - 1], c);
      assert states[j] == After(states[j - 1], steps[j - 1]);
      ExtendsOn(states[i].store.log, states[j - 1].store.log, states[j].store.log);
    }
  }

  /** Along a run a client that never goes back never loses version; clients keep their kind, the log only grows. */
  lemma {:induction false} VersionsNeverFall(states: seq<System>, steps: seq<Step>, i: nat, j: nat, c: int)
    requires Run(states, steps) && i <= j < |states| && c in states[i].clients
    requires forall n :: i <= n < j ==> !GoesBack(states[n], steps[n], c)
    ensures Extends(states[j].store.log, states[i].store.log)
    ensures c in states[j].clients && states[j].clients[c].kind == states[i].clients[c].kind
    ensures states[j].clients[c].view.version >= states[i].clients[c].view.version
    decreases j
  {
    hide Inv, GoesBack, Extends;
    LogGrows(states, steps, i, j, c);
    if i < j {
      VersionsNeverFall(states, steps, i, j - 1, c);
      RunKeepsInv(states, steps, j - 1);
      StepMonotone(states[j - 1], steps[j - 1], c);
      assert states[j] == After(states[j - 1], steps[j - 1]);
    }
  }

  // The usual client: snapshots that were not torn, and none older than what it has.

  predicate Steady(s: System, step: Step, c: int) {
    !GoesBack(s, step, c)
    && (step.Boot? && step.snapshot.listing.client == c ==>
        step.snapshot.listing.at == CountUpTo(s.store.log, step.snapshot.version))
  }

  /** Nothing of the client's own asks from beyond where it is. */
  predicate AsksBehind(s: System, c: int) {
    && (forall a :: a in s.asks && a.client == c ==> c in s.clients && a.since <= s.clients[c].view.version)
    && (forall a :: a in s.answers && a.client == c ==> c in s.clients && a.since <= s.clients[c].view.version)
  }

  lemma SteadyStep(s: System, step: Step, c: int)
    requires Inv(s) && Enabled(s, step) && AsksBehind(s, c) && Steady(s, step, c)
    ensures AsksBehind(After(s, step), c) && Sound(s, step, c)
  {
    StepMonotone(s, step, c);
    if step.ApplyAnswer? && step.answer.client == c {
      CountMonotone(s.store.log, step.answer.since, s.clients[c].view.version);
    }
  }

  lemma {:induction false} SteadyRunBehind(states: seq<System>, steps: seq<Step>, n: nat, c: int)
    requires Run(states, steps) && n <= |steps| && forall i :: 0 <= i < n ==> Steady(states[i], steps[i], c)
    ensures AsksBehind(states[n], c) && SoundUpTo(states, steps, n, c)
  {
    if n > 0 {
      SteadyRunBehind(states, steps, n - 1, c);
      RunKeepsInv(states, steps, n - 1);
      assert states[n] == After(states[n - 1], steps[n - 1]);
      SteadyStep(states[n - 1], steps[n - 1], c);
    }
  }

  /**
   * A client that bootstraps from untorn snapshots and never from an older one, in particular only once and first of
   * all, replays the log in every state, and its version never falls.
   */
  lemma SteadyClientReplays(states: seq<System>, steps: seq<Step>, i: nat, j: nat, c: int)
    requires Run(states, steps) && i <= j < |states| && c in states[i].clients
    requires forall n :: 0 <= n < |steps| ==> Steady(states[n], steps[n], c)
    ensures Replays(states[j], c)
    ensures c in states[j].clients && states[j].clients[c].view.version >= states[i].clients[c].view.version
  {
    SteadyRunBehind(states, steps, |steps|, c);
    ReplayInvariant(states, steps, c);
    VersionsNeverFall(states, steps, i, j, c);
  }

  /** Every frame ever published names a committed version and changes any flag map as that version's event does. */
  lemma FramesAgreeWithLog(states: seq<System>, steps: seq<Step>, i: nat, f: Frame)
    requires Run(states, steps) && i < |states| && f in states[i].bus
    ensures f.version >= 1
    ensures exists k :: 0 <= k < |states[i].store.log| && states[i].store.log[k].version == f.version
              && forall flags: Flags :: NoticeEffect(flags, f.notice) == Effect(flags, states[i].store.log[k])
  {
    RunKeepsInv(states, steps, i);
    var log := states[i].store.log;
    var k :| 0 <= k < |log| && Carries(f, log[k]);
    forall flags: Flags ensures NoticeEffect(flags, f.notice) == Effect(flags, log[k]) {
      CarriesSameEffect(f, log[k], flags);
    }
  }

  /** Keys in a replay are valid and name their own flag. */
  lemma ReplayKeys(log: seq<Event>, n: nat)
    requires GoodLog(log) && n <= |log|
    ensures forall k :: k in ReplayTo(log, n) ==> ValidKey(k) && ReplayTo(log, n)[k].key == k
  {
    forall k | k in ReplayTo(log, n) ensures ValidKey(k) && ReplayTo(log, n)[k].key == k {
      var i := LastWriter(log, n, k);
      assert WellFormed(log[i]);
    }
  }

  /**
   * Evaluation is determined by key, user and version: any two soundly fed clients of either kind, at any two moments
   * of a run, that have reached the same version hold the same flags and so give every ASCII user the same verdict.
   */
  lemma VerdictDeterminedByVersion(states: seq<System>, steps: seq<Step>, i: nat, j: nat, c: int, d: int,
                                   key: string, user: string)
    requires Run(states, steps) && i <= j < |states| && c in states[i].clients && d in states[j].clients
    requires SoundUpTo(states, steps, i, c) && SoundUpTo(states, steps, j, d)
    requires states[i].clients[c].view.version == states[j].clients[d].view.version
    ensures var v, w := states[i].clients[c].view, states[j].clients[d].view;
      && v.flags == w.flags
      && (Ascii(user) ==> TsIsEnabled(v.flags, key, user) == GoIsEnabled(w.flags, key, user))
  {
    SoundRunReplays(states, steps, i, c);
    SoundRunReplays(states, steps, j, d);
    RunKeepsInv(states, steps, j);
    LogGrows(states, steps, i, j, c);
    var log, v := states[j].store.log, states[i].clients[c].view;
    InStepLater(states[i].store.log, log, v);
    ReplayKeys(log, CountUpTo(log, v.version));
    if Ascii(user) { VerdictParity(v.flags, key, user); }
  }

  /** The event keeps its flag on and takes it from nobody: not deleted, enabled, percentage and targets not shrunk. */
  predicate Widens(before: Flags, e: Event) {
    e.key in before ==>
      && !e.change.Deleted?
      && e.change.flag.enabled
      && e.change.flag.rollout >= before[e.key].rollout
      && forall u :: u in before[e.key].targeted ==> u in e.change.flag.targeted
  }

  lemma {:induction false} StaysOn(log: seq<Event>, m: nat, n: nat, key: string, user: string, bucket: int)
    requires m <= n <= |log|
    requires forall i :: m <= i < n && log[i].key == key ==> Widens(ReplayTo(log, i), log[i])
    requires key in ReplayTo(log, m) && On(ReplayTo(log, m)[key], user, bucket)
    ensures key in ReplayTo(log, n) && On(ReplayTo(log, n)[key], user, bucket)
    decreases n
  {
    if m < n { StaysOn(log, m, n - 1, key, user, bucket); }
  }

  /**
   * Sticky cohorts: while every event for a key only widens it, no soundly fed client that moves forward, by any mix
   * of live frames, pages, stale pages and snapshots, ever turns any user of that key off.
   */
  lemma StickyCohort(states: seq<System>, steps: seq<Step>, i: nat, j: nat, c: int, key: string, user: string)
    requires Run(states, steps) && i <= j < |states| && c in states[i].clients && c in states[j].clients
    requires SoundUpTo(states, steps, j, c)
    requires states[i].clients[c].view.version <= states[j].clients[c].view.version
    requires var log := states[j].store.log;
      var from := CountUpTo(log, states[i].clients[c].view.version);
      var to := CountUpTo(log, states[j].clients[c].view.version);
      forall n :: from <= n < to && log[n].key == key ==> Widens(ReplayTo(log, n), log[n])
    ensures var v, w := states[i].clients[c].view.flags, states[j].clients[c].view.flags;
      && (GoIsEnabled(v, key, user) ==> GoIsEnabled(w, key, user))
      && (TsIsEnabled(v, key, user) ==> TsIsEnabled(w, key, user))
  {
    SoundRunReplays(states, steps, i, c);
    SoundRunReplays(states, steps, j, c);
    RunKeepsInv(states, steps, j);
    LogGrows(states, steps, i, j, c);
    var log, v, w := states[j].store.log, states[i].clients[c].view, states[j].clients[c].view;
    InStepLater(states[i].store.log, log, v);
    var from, to := CountUpTo(log, v.version), CountUpTo(log, w.version);
    CountMonotone(log, v.version, w.version);
    VerdictMeaning(v.flags, key, user);
    VerdictMeaning(w.flags, key, user);
    if GoIsEnabled(v.flags, key, user) { StaysOn(log, from, to, key, user, GoBucket(key, user)); }
    if TsIsEnabled(v.flags, key, user) { StaysOn(log, from, to, key, user, TsBucket(key, user)); }
  }

  // Two runs that show what the condition excludes.

  /**
   * Why a client must bootstrap only once: a second snapshot, read when the table was empty and installed while a
   * reconcile waits for its page, makes the client skip an event for good.
   */
  lemma SecondBootstrapLosesEvents(kind: Kind, a: Flag, b: Flag)
    requires ValidKey(a.key) && ValidKey(b.key) && a.key != b.key && a.version == 1 && b.version == 2
    ensures var log := [Event(1, a.key, Created(a)), Event(2, b.key, Created(b))];
      && GoodLog(log)
      && InStep(log[..0], View(map[], 0)) && InStep(log, View(map[a.key := a], 1))
      && SegmentAfter(log, 1, log[1..])
      && ApplyPage(kind, View(map[], 0), log[1..]) == View(map[b.key := b], 2)
      && !InStep(log, View(map[b.key := b], 2))
  {
    var log := [Event(1, a.key, Created(a)), Event(2, b.key, Created(b))];
    assert ReplayTo(log, 1) == map[a.key := a];
    assert OrderedTo(log, 1) && OrderedTo(log, 2);
    CountIs(log, 1, 1);
    assert a.key in ReplayTo(log, 2) && a.key !in map[b.key := b];
    CountIs(log, 2, 2);
    assert ApplyFirst(kind, View(map[], 0), log[1..], 1) == View(map[b.key := b], 2);
  }

  datatype History = History(states: seq<System>, steps: seq<Step>)

  predicate FromStart(r: History) { Run(r.states, r.steps) }

  function Last(r: History): System
    requires |r.states| > 0
  {
    r.states[|r.states| - 1]
  }

  lemma Extend(r: History, step: Step) returns (next: History)
    requires FromStart(r) && Enabled(Last(r), step)
    ensures FromStart(next) && Last(next) == After(Last(r), step)
  {
    next := History(r.states + [After(Last(r), step)], r.steps + [step]);
    forall i | 0 <= i < |next.steps|
      ensures Enabled(next.states[i], next.steps[i]) && next.states[i + 1] == After(next.states[i], next.steps[i]) {
      if i < |r.steps| { assert next.states[i] == r.states[i] && next.states[i + 1] == r.states[i + 1]; }
    }
  }

  lemma CreateNew(r: History, id: string, d: Draft) returns (next: History)
    requires FromStart(r) && DraftAllowed(d) && UnusedId(Last(r).store.log, id) && !KeyTaken(Last(r).store.rows, d.key)
    ensures FromStart(next)
    ensures var s, f := Last(r), DraftRow(id, d, Last(r).store.counter + 1);
      Last(next) == s.(store := Committed(s.store, Event(f.version, d.key, Created(f))),
                       bus := s.bus + {Frame(f.version, FlagUpdated(f))})
  {
    next := Extend(r, Call(CreateFlag(id, d, false, NoFault)));
  }

  /** A client that has joined, with a snapshot of the empty table under way to it. */
  lemma WithEmptySnapshot(kind: Kind) returns (r: History)
    ensures FromStart(r)
    ensures Last(r) == INITIAL_SYSTEM.(clients := map[0 := Client(kind, View(map[], 0))],
                                       listings := {Listing(0, [], 0)},
                                       snapshots := {Snapshot(Listing(0, [], 0), 0)})
  {
    var r0 := History([INITIAL_SYSTEM], []);
    var r1 := Extend(r0, Join(0, kind));
    var r2 := Extend(r1, ReadTable(0, []));
    r := Extend(r2, ReadVersion(Listing(0, [], 0)));
  }

  lemma OneEventPage(log: seq<Event>)
    requires |log| == 2 && Ordered(log) && log[0].version == 1
    ensures PageOf(log, 1, 500) == [log[1]]
  {
    CountAt(log, 0);
  }

  lemma WithAsk(kind: Kind, id: string, d: Draft) returns (r: History)
    requires DraftAllowed(d)
    ensures FromStart(r)
    ensures var f := DraftRow(id, d, 1);
      && Last(r).store == Store(1, map[id := f], [Event(1, d.key, Created(f))])
      && Last(r).clients == map[0 := Client(kind, View(map[d.key := f], 1))]
      && Snapshot(Listing(0, [], 0), 0) in Last(r).snapshots && Ask(0, 1) in Last(r).asks
  {
    var f := DraftRow(id, d, 1);
    var r0 := WithEmptySnapshot(kind);
    var r1 := CreateNew(r0, id, d);
    var r2 := Extend(r1, Deliver(0, Frame(1, FlagUpdated(f))));
    assert ApplyLive(kind, View(map[], 0), Frame(1, FlagUpdated(f))).view == View(map[d.key := f], 1);
    r := Extend(r2, SendAsk(0));
  }

  lemma WithPageUnderWay(kind: Kind, ida: string, a: Draft, idb: string, b: Draft) returns (r: History)
    requires DraftAllowed(a) && DraftAllowed(b) && a.key != b.key && ida != idb
    ensures FromStart(r)
    ensures var fa, fb := DraftRow(ida, a, 1), DraftRow(idb, b, 2);
      && Last(r).store.log == [Event(1, a.key, Created(fa)), Event(2, b.key, Created(fb))]
      && Last(r).clients == map[0 := Client(kind, View(map[a.key := fa], 1))]
      && Snapshot(Listing(0, [], 0), 0) in Last(r).snapshots
      && Answer(0, 1, [Event(2, b.key, Created(fb))]) in Last(r).answers
  {
    var r1 := WithAsk(kind, ida, a);
    var r2 := CreateNew(r1, idb, b);
    var log := Last(r2).store.log;
    TwoOrdered(log);
    OneEventPage(log);
    r := Extend(r2, ServeAsk(Ask(0, 1)));
  }

  lemma TwoOrdered(log: seq<Event>)
    requires |log| == 2 && log[0].version == 1 && log[1].version == 2
    ensures Ordered(log)
  {
    assert OrderedTo(log, 1);
  }

  /** A snapshot of the empty table installed while a page is awaited: the client skips an event for good. */
  lemma SecondBootstrapRun(kind: Kind, ida: string, a: Draft, idb: string, b: Draft) returns (end: History)
    requires DraftAllowed(a) && DraftAllowed(b) && a.key != b.key && ida != idb
    ensures FromStart(end) && !Replays(Last(end), 0)
    ensures Last(end).clients[0].view == View(map[b.key := DraftRow(idb, b, 2)], MaxVersion(Last(end).store.log))
    ensures a.key in Replay(Last(end).store.log)
  {
    var fa, fb := DraftRow(ida, a, 1), DraftRow(idb, b, 2);
    var r := WithPageUnderWay(kind, ida, a, idb, b);
    var r1 := Extend(r, Boot(Snapshot(Listing(0, [], 0), 0)));
    assert Last(r1).clients[0].view == View(map[], 0);
    end := Extend(r1, ApplyAnswer(Answer(0, 1, [Event(2, b.key, Created(fb))])));
    SecondBootstrapLosesEvents(kind, fa, fb);
    assert Last(end).store.log[1..] == [Event(2, b.key, Created(fb))];
    assert a.key in ReplayTo(Last(end).store.log, 1);
  }

  /** A flag committed between the two reads of a snapshot: the client has its version but never the flag. */
  lemma TornSnapshotRun(kind: Kind, id: string, d: Draft) returns (end: History)
    requires DraftAllowed(d)
    ensures FromStart(end) && !Replays(Last(end), 0)
    ensures Last(end).clients[0].view == View(map[], MaxVersion(Last(end).store.log))
    ensures d.key in Replay(Last(end).store.log)
  {
    var f := DraftRow(id, d, 1);
    var r0 := WithEmptySnapshot(kind);
    var r1 := CreateNew(r0, id, d);
    assert Last(r1).store.log == [Event(1, d.key, Created(f))];
    var r2 := Extend(r1, ReadVersion(Listing(0, [], 0)));
    end := Extend(r2, Boot(Snapshot(Listing(0, [], 0), 1)));
    EmptyMissesFlag(Last(end).store.log, f);
  }

  lemma EmptyMissesFlag(log: seq<Event>, f: Flag)
    requires log == [Event(1, f.key, Created(f))]
    ensures MaxVersion(log) == 1 && f.key in Replay(log) && !InStep(log, View(map[], 1))
  {
    assert OrderedTo(log, 0) && Ordered(log);
    assert f.key in ReplayTo(log, 1);
    StateAtMax(log);
  }
}
