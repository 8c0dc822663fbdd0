/** The two client SDKs: what a page and a live frame do, and the reconcile loop. */
module Sdk {
  import opened FlagModel
  import opened EventLog
  import opened FlagService

  datatype Kind = Go | Ts

  /** What a client holds: its flags and the highest version it has applied. */
  datatype View = View(flags: Flags, version: int)

  /** The Go client trusts the payload's key, the TypeScript client the event's. */
  function ApplyChange(kind: Kind, v: View, e: Event): View {
    View(if e.change.Deleted? then v.flags - {e.key}
         else if kind.Ts? then v.flags[e.key := e.change.flag]
         else if e.change.flag.key != "" then v.flags[e.change.flag.key := e.change.flag]
         else v.flags,
         e.version)
  }

  function ApplyNew(kind: Kind, v: View, e: Event): View {
    if e.version <= v.version then v else ApplyChange(kind, v, e)
  }

  function ApplyFirst(kind: Kind, v: View, page: seq<Event>, n: nat): View
    requires n <= |page|
  {
    if n == 0 then v else ApplyNew(kind, ApplyFirst(kind, v, page, n - 1), page[n - 1])
  }

  /** A page is applied event by event, skipping what the client already has. */
  function ApplyPage(kind: Kind, v: View, page: seq<Event>): View { ApplyFirst(kind, v, page, |page|) }

  datatype LiveResult = LiveResult(view: View, gap: bool)

  /** One live frame: stale ones are ignored, the exact next one is applied, anything further is a gap. */
  function ApplyLive(kind: Kind, v: View, f: Frame): LiveResult {
    if f.version <= v.version then LiveResult(v, false)
    else if f.version > v.version + 1 then LiveResult(v, true)
    else LiveResult(View(
      match f.notice
      case FlagDeleted(k) => v.flags - {k}
      case FlagUpdated(g) => if kind.Ts? || g.key != "" then v.flags[g.key := g] else v.flags,
      f.version), false)
  }

  datatype Fetch = Page(events: seq<Event>) | Refused

  datatype Reconciled = Reconciled(view: View, ok: bool, requests: nat)

  /** The reconcile loop; `fetch` answers the i-th request, which asks for everything after a version. */
  function ReconcileFrom(kind: Kind, v: View, fetch: (nat, int) -> Fetch, i: nat, guard: nat): Reconciled
    decreases guard - i
  {
    if i >= guard then Reconciled(v, true, i)
    else match fetch(i, v.version)
      case Refused => Reconciled(v, false, i + 1)
      case Page(events) =>
        var next := ApplyPage(kind, v, events);
        if events == [] || next.version == v.version then Reconciled(next, true, i + 1)
        else ReconcileFrom(kind, next, fetch, i + 1, guard)
  }

  function Guard(kind: Kind): nat { if kind.Go? then 100000 else 10000 }

  /** What every log of the durable store satisfies. */
  predicate GoodLog(log: seq<Event>) {
    Ordered(log) && forall i :: 0 <= i < |log| ==> WellFormed(log[i])
  }

  /** The client is exactly at the replay of the log up to its version. */
  predicate InStep(log: seq<Event>, v: View) {
    0 <= v.version <= MaxVersion(log) && v.flags == StateAt(log, v.version)
  }

  function Max(a: int, b: int): int { if a >= b then a else b }

  function AtMost(a: int, bound: int): int { if a <= bound then a else bound }

  lemma {:induction false} VersionNeverFalls(kind: Kind, v: View, page: seq<Event>, n: nat)
    requires n <= |page|
    ensures ApplyFirst(kind, v, page, n).version >= v.version
    ensures ApplyFirst(kind, v, page, n).version == v.version ==> ApplyFirst(kind, v, page, n) == v
  {
    if n > 0 { VersionNeverFalls(kind, v, page, n - 1); }
  }

  lemma PageNeverFalls(kind: Kind, v: View, page: seq<Event>)
    ensures ApplyPage(kind, v, page).version >= v.version
    ensures ApplyPage(kind, v, page).version == v.version ==> ApplyPage(kind, v, page) == v
    ensures ApplyPage(kind, v, []) == v
  {
    VersionNeverFalls(kind, v, page, |page|);
  }

  /** A page of increasing versions takes the client to its last one, unless it is further already. */
  lemma {:induction false} PageReaches(kind: Kind, v: View, page: seq<Event>, n: nat)
    requires n <= |page| && v.version >= 0
    requires forall i :: 0 <= i < |page| ==> page[i].version >= 1
    requires forall i, j :: 0 <= i < j < |page| ==> page[i].version < page[j].version
    ensures ApplyFirst(kind, v, page, n).version == Max(v.version, VersionBefore(page, n))
  {
    if n > 0 { PageReaches(kind, v, page, n - 1); }
  }

  lemma NextEvent(kind: Kind, log: seq<Event>, v: View, i: nat)
    requires GoodLog(log) && InStep(log, v) && i < |log| && CountUpTo(log, v.version) == i
    ensures InStep(log, ApplyNew(kind, v, log[i]))
    ensures ApplyNew(kind, v, log[i]).version == log[i].version
    ensures CountUpTo(log, log[i].version) == i + 1
  {
    assert WellFormed(log[i]);
    CountAt(log, i);
    SeenIff(log, i, v.version);
  }

  /** An event no later than the client's next one is applied if new and skipped if seen. */
  lemma NextOrSeen(kind: Kind, log: seq<Event>, v: View, i: nat)
    requires GoodLog(log) && InStep(log, v) && i < |log| && i <= CountUpTo(log, v.version)
    ensures InStep(log, ApplyNew(kind, v, log[i]))
    ensures ApplyNew(kind, v, log[i]).version == Max(v.version, log[i].version)
    ensures CountUpTo(log, ApplyNew(kind, v, log[i]).version) == Max(CountUpTo(log, v.version), i + 1)
  {
    SeenIff(log, i, v.version);
    if i == CountUpTo(log, v.version) { NextEvent(kind, log, v, i); }
  }

  lemma {:induction false} StalePrefix(kind: Kind, log: seq<Event>, v: View, since: int, page: seq<Event>, n: nat)
    requires GoodLog(log) && InStep(log, v) && since <= v.version && SegmentAfter(log, since, page) && n <= |page|
    ensures InStep(log, ApplyFirst(kind, v, page, n))
    ensures ApplyFirst(kind, v, page, n).version == Max(v.version, VersionBefore(page, n))
    ensures CountUpTo(log, ApplyFirst(kind, v, page, n).version)
            == Max(CountUpTo(log, v.version), CountUpTo(log, since) + n)
  {
    if n == 0 {
      CountMonotone(log, since, v.version);
    } else {
      var i := CountUpTo(log, since) + n - 1;
      assert page[n - 1] == log[i];
      StalePrefix(kind, log, v, since, page, n - 1);
      NextOrSeen(kind, log, ApplyFirst(kind, v, page, n - 1), i);
      if n > 1 {
        assert page[n - 2] == log[i - 1];
        OrderedPairs(log, |log|);
      }
      CountAt(log, i);
    }
  }

  /**
   * Stale-page safety: a page asked for at an older version, fetched from an older log and applied late,
   * leaves the client exactly at the replay up to the larger of its version and the page's last one.
   */
  lemma StalePage(kind: Kind, log: seq<Event>, v: View, since: int, page: seq<Event>)
    requires GoodLog(log) && InStep(log, v) && since <= v.version && SegmentAfter(log, since, page)
    ensures InStep(log, ApplyPage(kind, v, page))
    ensures ApplyPage(kind, v, page).version == Max(v.version, MaxVersion(page))
    ensures CountUpTo(log, ApplyPage(kind, v, page).version)
            == Max(CountUpTo(log, v.version), CountUpTo(log, since) + |page|)
  {
    StalePrefix(kind, log, v, since, page, |page|);
  }

  /** A frame that announces a logged event keeps the client in step, and only a real gap asks for a reconcile. */
  lemma LiveFrameKeepsStep(kind: Kind, log: seq<Event>, v: View, f: Frame)
    requires GoodLog(log) && InStep(log, v) && AgreesWithLog(log, f)
    ensures var r := ApplyLive(kind, v, f);
      && InStep(log, r.view)
      && (r.gap <==> f.version > v.version + 1)
      && r.view.version == if r.gap then v.version else Max(v.version, f.version)
  {
    if f.version == v.version + 1 {
      var i :| 0 <= i < |log| && Carries(f, log[i]);
      CountBefore(log, i);
      NextEvent(kind, log, v, i);
    }
  }

  lemma InStepLater(log: seq<Event>, longer: seq<Event>, v: View)
    requires GoodLog(longer) && Extends(longer, log) && InStep(log, v)
    ensures GoodLog(log) && InStep(longer, v) && CountUpTo(longer, v.version) == CountUpTo(log, v.version)
  {
    OrderedPrefix(log, longer);
    forall i | 0 <= i < |log| ensures log[i] == longer[i] { assert longer[..|log|][i] == longer[i]; }
    CountStable(log, longer, v.version);
    assert MaxVersion(log) <= MaxVersion(longer);
  }

  /** A client that has read nothing is in step with every log. */
  lemma EmptyClientInStep(log: seq<Event>)
    requires Ordered(log)
    ensures InStep(log, View(map[], 0))
  {
    OrderedPairs(log, |log|);
    CountIs(log, 0, 0);
  }

  /** A client at the log's end has everything. */
  lemma AtEndIsReplay(log: seq<Event>, v: View)
    requires GoodLog(log) && InStep(log, v)
    ensures CountUpTo(log, v.version) == |log| <==> v.version == MaxVersion(log)
    ensures v.version == MaxVersion(log) ==> v.flags == Replay(log)
  {
    StateAtMax(log);
    if log != [] { SeenIff(log, |log| - 1, v.version); }
  }

  lemma FreshPage(kind: Kind, log: seq<Event>, v: View)
    requires GoodLog(log) && InStep(log, v)
    ensures var n := CountUpTo(log, v.version);
      var next := ApplyPage(kind, v, PageOf(log, v.version, 500));
      && InStep(log, next)
      && CountUpTo(log, next.version) == AtMost(n + 500, |log|)
      && (next.version == v.version <==> n == |log|)
      && (PageOf(log, v.version, 500) == [] <==> n == |log|)
  {
    StalePage(kind, log, v, v.version, PageOf(log, v.version, 500));
  }

  function ServeLog(log: seq<Event>): (nat, int) -> Fetch {
    (i: nat, since: int) => Page(PageOf(log, since, 500))
  }

  /** What answers a client's requests: the log as request i finds it, and the requests that fail. */
  datatype Server = Server(log: nat -> seq<Event>, refuses: nat -> bool)

  function Serving(s: Server): (nat, int) -> Fetch {
    (i: nat, since: int) => if s.refuses(i) then Refused else Page(PageOf(s.log(i), since, 500))
  }

  /** How many requests are answered before the first refused one, `most` at most. */
  function Rounds(refuses: nat -> bool, most: nat): (n: nat)
    ensures n <= most && forall j: nat :: j < n ==> !refuses(j)
    ensures n < most ==> refuses(n)
  {
    if most == 0 then 0
    else
      var n := Rounds(refuses, most - 1);
      if n < most - 1 || refuses(most - 1) then n else most
  }

  /** The client after the first n requests, each of which brought a page. */
  function ViewAfter(kind: Kind, v: View, fetch: (nat, int) -> Fetch, n: nat): View {
    if n == 0 then v
    else
      var w := ViewAfter(kind, v, fetch, n - 1);
      var answer := fetch(n - 1, w.version);
      if answer.Page? then ApplyPage(kind, w, answer.events) else w
  }

  /** Each of the first n requests brought a page, and each page took the client forward. */
  predicate Advances(kind: Kind, v: View, fetch: (nat, int) -> Fetch, n: nat) {
    forall j: nat :: j < n ==>
      && fetch(j, ViewAfter(kind, v, fetch, j).version).Page?
      && ViewAfter(kind, v, fetch, j).version < ViewAfter(kind, v, fetch, j + 1).version
  }

  /**
   * The loop, whatever answers it: the client ends as the pages before the first refused request have made it, no less
   * and no more, and the loop fails exactly at such a request. Else it stops at the guard or at a page without news.
   */
  lemma ReconcileLaw(kind: Kind, v: View, fetch: (nat, int) -> Fetch, guard: nat) returns (n: nat)
    ensures var r := ReconcileFrom(kind, v, fetch, 0, guard);
      && n <= guard && r.view == ViewAfter(kind, v, fetch, n) && Advances(kind, v, fetch, n)
      && (!r.ok <==> n < guard && fetch(n, r.view.version).Refused?)
      && r.requests == AtMost(n + 1, guard)
      && (r.ok && n < guard ==> fetch(n, r.view.version).Page? && ViewAfter(kind, v, fetch, n + 1) == r.view)
  {
    n := LawFrom(kind, v, fetch, 0, guard);
  }

  lemma OneRequest(kind: Kind, v: View, fetch: (nat, int) -> Fetch, n: nat, guard: nat)
    requires n < guard && Advances(kind, v, fetch, n)
    ensures var w, next := ViewAfter(kind, v, fetch, n), ViewAfter(kind, v, fetch, n + 1);
      var r, answer := ReconcileFrom(kind, w, fetch, n, guard), fetch(n, w.version);
      if answer.Refused? then r == Reconciled(w, false, n + 1)
      else if next.version > w.version then
        Advances(kind, v, fetch, n + 1) && r == ReconcileFrom(kind, next, fetch, n + 1, guard)
      else next == w && r == Reconciled(w, true, n + 1)
  {
    hide ApplyPage;
    var w := ViewAfter(kind, v, fetch, n);
    if fetch(n, w.version).Page? { PageNeverFalls(kind, w, fetch(n, w.version).events); }
  }

  /** The loop has come through n requests. */
  lemma {:induction false} LawFrom(kind: Kind, v: View, fetch: (nat, int) -> Fetch, n: nat, guard: nat)
    returns (end: nat)
    requires n <= guard && Advances(kind, v, fetch, n)
    requires ReconcileFrom(kind, v, fetch, 0, guard)
             == ReconcileFrom(kind, ViewAfter(kind, v, fetch, n), fetch, n, guard)
    ensures var r := ReconcileFrom(kind, v, fetch, 0, guard);
      && end <= guard && r.view == ViewAfter(kind, v, fetch, end) && Advances(kind, v, fetch, end)
      && (!r.ok <==> end < guard && fetch(end, r.view.version).Refused?)
      && r.requests == AtMost(end + 1, guard)
      && (r.ok && end < guard ==> fetch(end, r.view.version).Page? && ViewAfter(kind, v, fetch, end + 1) == r.view)
    decreases guard - n
  {
    var w, next := ViewAfter(kind, v, fetch, n), ViewAfter(kind, v, fetch, n + 1);
    end := n;
    if n == guard {
      assert ReconcileFrom(kind, w, fetch, n, guard) == Reconciled(w, true, n);
    } else {
      hide ViewAfter, Advances, ReconcileFrom;
      OneRequest(kind, v, fetch, n, guard);
      if fetch(n, w.version).Page? && next.version > w.version { end := LawFrom(kind, v, fetch, n + 1, guard); }
    }
  }

  function Pages(n: nat): nat { if n == 0 then 0 else if n <= 500 then 1 else 1 + Pages(n - 500) }

  lemma {:induction false} PagesIsCeiling(n: nat)
    ensures Pages(n) == (n + 499) / 500
  {
    if n > 500 { PagesIsCeiling(n - 500); }
  }

  /** One round against a given log: either it was the last one, or it moved the client on by a page. */
  lemma OneRound(kind: Kind, log: seq<Event>, v: View, fetch: (nat, int) -> Fetch, i: nat, guard: nat)
    returns (next: View)
    requires GoodLog(log) && InStep(log, v) && i < guard
    requires fetch(i, v.version) == Page(PageOf(log, v.version, 500))
    ensures InStep(log, next)
    ensures CountUpTo(log, next.version) == AtMost(CountUpTo(log, v.version) + 500, |log|)
    ensures ReconcileFrom(kind, v, fetch, i, guard)
            == if CountUpTo(log, v.version) == |log| then Reconciled(v, true, i + 1)
               else ReconcileFrom(kind, next, fetch, i + 1, guard)
  {
    next := ApplyPage(kind, v, PageOf(log, v.version, 500));
    FreshPage(kind, log, v);
    VersionNeverFalls(kind, v, PageOf(log, v.version, 500), |PageOf(log, v.version, 500)|);
  }

  /** How many events `rounds` full pages hold. */
  function Capacity(rounds: nat): nat { if rounds == 0 then 0 else 500 + Capacity(rounds - 1) }

  lemma {:induction false} CapacityIsProduct(rounds: nat)
    ensures Capacity(rounds) == 500 * rounds
  {
    if rounds > 0 { CapacityIsProduct(rounds - 1); }
  }

  /** Bookkeeping of one round that takes the client from `at` to `next`, out of `size` events. */
  lemma RoundTakesPage(size: nat, at: nat, next: nat, rounds: nat, count: nat)
    requires at < size && rounds > 0 && next == AtMost(at + 500, size) && count <= size
    ensures AtMost(next + Capacity(rounds - 1), size) == AtMost(at + Capacity(rounds), size)
    ensures count <= next + Capacity(rounds - 1) <==> count <= at + Capacity(rounds)
    ensures 1 + AtMost(Pages(size - next) + 1, rounds - 1) == AtMost(Pages(size - at) + 1, rounds)
  {
    assert Capacity(rounds) == 500 + Capacity(rounds - 1);
  }

  /** A loop at version `version` with `rounds` to go ends in `end`, after exactly the requests the backlog takes. */
  predicate Drains(log: seq<Event>, version: int, end: View, rounds: nat, requests: nat) {
    var at := CountUpTo(log, version);
    && InStep(log, end)
    && CountUpTo(log, end.version) == AtMost(at + Capacity(rounds), |log|)
    && requests == AtMost(Pages(|log| - at) + 1, rounds)
  }

  lemma DrainsOneMore(log: seq<Event>, version: int, next: int, end: View, rounds: nat, more: nat)
    requires CountUpTo(log, version) < |log| && CountUpTo(log, next) == AtMost(CountUpTo(log, version) + 500, |log|)
    requires rounds > 0 && Drains(log, next, end, rounds - 1, more)
    ensures Drains(log, version, end, rounds, more + 1)
  {
    RoundTakesPage(|log|, CountUpTo(log, version), CountUpTo(log, next), rounds, 0);
  }

  lemma DrainEnds(kind: Kind, log: seq<Event>, v: View, fetch: (nat, int) -> Fetch, i: nat, guard: nat)
    requires GoodLog(log) && InStep(log, v) && i <= guard
    requires i < guard ==>
      fetch(i, v.version) == Page(PageOf(log, v.version, 500)) && CountUpTo(log, v.version) == |log|
    ensures ReconcileFrom(kind, v, fetch, i, guard) == Reconciled(v, true, AtMost(i + 1, guard))
    ensures Drains(log, v.version, v, guard - i, AtMost(i + 1, guard) - i)
  {
    if i < guard { var _ := OneRound(kind, log, v, fetch, i, guard); }
  }

  lemma {:induction false} DrainFrom(kind: Kind, log: seq<Event>, v: View, fetch: (nat, int) -> Fetch,
                                    i: nat, guard: nat)
    returns (end: View, requests: nat)
    requires GoodLog(log) && InStep(log, v) && i <= guard
    requires forall j: nat, since :: fetch(j, since) == Page(PageOf(log, since, 500))
    ensures Drains(log, v.version, end, guard - i, requests)
    ensures ReconcileFrom(kind, v, fetch, i, guard) == Reconciled(end, true, i + requests)
    decreases guard - i
  {
    hide Drains, ReconcileFrom, InStep;
    if i < guard && CountUpTo(log, v.version) < |log| {
      var next := OneRound(kind, log, v, fetch, i, guard);
      end, requests := DrainFrom(kind, log, next, fetch, i + 1, guard);
      DrainsOneMore(log, v.version, next.version, end, guard - i, requests);
      requests := requests + 1;
    } else {
      DrainEnds(kind, log, v, fetch, i, guard);
      end, requests := v, AtMost(i + 1, guard) - i;
    }
  }

  /** Reconcile on a log that stands still: the exact number of requests, and exactly when it drains the backlog. */
  lemma ReconcileDrains(kind: Kind, log: seq<Event>, v: View, guard: nat)
    requires GoodLog(log) && InStep(log, v)
    ensures var n := |log| - CountUpTo(log, v.version);
      var r := ReconcileFrom(kind, v, ServeLog(log), 0, guard);
      && r.ok && InStep(log, r.view)
      && r.requests == AtMost((n + 499) / 500 + 1, guard)
      && (r.view == View(Replay(log), MaxVersion(log)) <==> n <= 500 * guard)
  {
    var end, _ := DrainFrom(kind, log, v, ServeLog(log), 0, guard);
    CapacityIsProduct(guard);
    PagesIsCeiling(|log| - CountUpTo(log, v.version));
    AtEndIsReplay(log, end);
  }

  /** A whole reconcile drains 50 million events in the Go client, 5 million in the browser. */
  lemma GuardDrains(kind: Kind, log: seq<Event>, v: View)
    requires GoodLog(log) && InStep(log, v)
    ensures var r := ReconcileFrom(kind, v, ServeLog(log), 0, Guard(kind));
      r.view == View(Replay(log), MaxVersion(log)) <==>
      |log| - CountUpTo(log, v.version) <= if kind.Go? then 50_000_000 else 5_000_000
  {
    ReconcileDrains(kind, log, v, Guard(kind));
  }

  /** The log only grows from one request to the next. */
  ghost predicate Growing(logs: nat -> seq<Event>) {
    && (forall i: nat :: GoodLog(logs(i)))
    && (forall i: nat, j: nat :: i <= j ==> Extends(logs(j), logs(i)))
  }

  predicate HasVersion(log: seq<Event>, target: int) {
    exists k :: 0 <= k < |log| && log[k].version == target
  }

  lemma ReachedMeansCounted(log: seq<Event>, version: int, target: int)
    requires Ordered(log) && HasVersion(log, target)
    ensures version >= target <==> CountUpTo(log, target) <= CountUpTo(log, version)
  {
    var k :| 0 <= k < |log| && log[k].version == target;
    CountAt(log, k);
    SeenIff(log, k, version);
  }

  lemma HasVersionLater(log: seq<Event>, longer: seq<Event>, target: int)
    requires GoodLog(longer) && Extends(longer, log) && HasVersion(log, target) && Ordered(log)
    ensures HasVersion(longer, target) && CountUpTo(longer, target) == CountUpTo(log, target)
  {
    var k :| 0 <= k < |log| && log[k].version == target;
    assert longer[k] == longer[..|log|][k];
    CountAt(log, k);
    CountStable(log, longer, target);
  }

  lemma LaterLog(log: seq<Event>, longer: seq<Event>, v: View, target: int)
    requires GoodLog(longer) && Extends(longer, log) && InStep(log, v) && HasVersion(log, target)
    ensures InStep(longer, v) && HasVersion(longer, target)
    ensures CountUpTo(longer, v.version) == CountUpTo(log, v.version)
    ensures CountUpTo(longer, target) == CountUpTo(log, target)
  {
    InStepLater(log, longer, v);
    HasVersionLater(log, longer, target);
  }

  /** The backlog up to `target` fits the pages that the remaining rounds can bring. */
  predicate Reachable(log: seq<Event>, version: int, target: int, rounds: nat) {
    CountUpTo(log, target) <= CountUpTo(log, version) + Capacity(rounds)
  }

  /** A round that is not the last one keeps in step with the next log and changes nothing about what is reachable. */
  lemma HealRound(kind: Kind, log: seq<Event>, longer: seq<Event>, v: View, fetch: (nat, int) -> Fetch,
                  i: nat, guard: nat, target: int, rounds: nat) returns (next: View)
    requires fetch(i, v.version) == Page(PageOf(log, v.version, 500))
    requires GoodLog(log) && InStep(log, v) && i < guard && HasVersion(log, target) && CountUpTo(log, v.version) < |log|
    requires GoodLog(longer) && Extends(longer, log) && rounds > 0
    ensures InStep(longer, next) && HasVersion(longer, target)
    ensures ReconcileFrom(kind, v, fetch, i, guard) == ReconcileFrom(kind, next, fetch, i + 1, guard)
    ensures Reachable(longer, next.version, target, rounds - 1) <==> Reachable(log, v.version, target, rounds)
  {
    next := OneRound(kind, log, v, fetch, i, guard);
    RoundTakesPage(|log|, CountUpTo(log, v.version), CountUpTo(log, next.version), rounds, CountUpTo(log, target));
    LaterLog(log, longer, next, target);
  }

  /** A client at the end of the log, refused or out of rounds, stays where it is. */
  lemma HealEnds(kind: Kind, log: seq<Event>, longer: seq<Event>, v: View, fetch: (nat, int) -> Fetch,
                 i: nat, guard: nat, target: int, rounds: nat)
    requires i < guard && rounds > 0 ==>
      fetch(i, v.version) == Page(PageOf(log, v.version, 500)) && CountUpTo(log, v.version) == |log|
    requires i < guard && rounds == 0 ==> fetch(i, v.version).Refused?
    requires GoodLog(log) && InStep(log, v) && i + rounds <= guard && HasVersion(log, target)
    requires GoodLog(longer) && Extends(longer, log)
    ensures InStep(longer, v)
    ensures ReconcileFrom(kind, v, fetch, i, guard)
            == Reconciled(v, rounds > 0 || i == guard, AtMost(i + 1, guard))
    ensures v.version >= target <==> Reachable(log, v.version, target, rounds)
  {
    if i < guard && rounds > 0 { var _ := OneRound(kind, log, v, fetch, i, guard); }
    ReachedMeansCounted(log, v.version, target);
    InStepLater(log, longer, v);
  }

  /**
   * A whole loop against a server whose log grows: `r` is its result, `rounds` says how many requests are left before
   * the first refused one or the guard, `fits` whether the backlog fits them.
   */
  lemma {:induction false} HealFrom(kind: Kind, server: Server, v: View, i: nat, guard: nat, target: int,
                                   rounds: nat, fits: bool, r: Reconciled)
    requires Growing(server.log) && InStep(server.log(i), v) && HasVersion(server.log(i), target)
    requires i + rounds <= guard && (forall j: nat :: i <= j < i + rounds ==> !server.refuses(j))
    requires i + rounds < guard ==> server.refuses(i + rounds)
    requires fits <==> Reachable(server.log(i), v.version, target, rounds)
    requires r == ReconcileFrom(kind, v, Serving(server), i, guard)
    ensures InStep(server.log(guard), r.view) && (i + rounds == guard ==> r.ok)
    ensures r.view.version >= target <==> fits
    decreases guard - i
  {
    hide Reachable, ReconcileFrom, InStep;
    var fetch := Serving(server);
    var log := server.log(i);
    assert !server.refuses(i) ==> fetch(i, v.version) == Page(PageOf(log, v.version, 500));
    if rounds > 0 && CountUpTo(log, v.version) < |log| {
      assert Extends(server.log(i + 1), log);
      var next := HealRound(kind, log, server.log(i + 1), v, fetch, i, guard, target, rounds);
      HealFrom(kind, server, next, i + 1, guard, target, rounds - 1, fits, r);
    } else {
      assert Extends(server.log(guard), log);
      HealEnds(kind, log, server.log(guard), v, fetch, i, guard, target, rounds);
    }
  }

  /**
   * A whole reconcile, such as every connection attempt starts with: in step with the growing log whatever is refused,
   * and with everything that was committed when it began exactly if that fits the requests that were answered.
   */
  lemma ReconcileCatchesUp(kind: Kind, server: Server, v: View, guard: nat)
    requires Growing(server.log) && InStep(server.log(0), v)
    ensures var log, w := server.log(0), ReconcileFrom(kind, v, Serving(server), 0, guard).view;
      && InStep(server.log(guard), w)
      && (w.version >= MaxVersion(log) <==>
          |log| - CountUpTo(log, v.version) <= 500 * Rounds(server.refuses, guard))
  {
    var log, rounds := server.log(0), Rounds(server.refuses, guard);
    if log == [] {
      NothingToReconcile(kind, server, v, guard);
    } else {
      var target := MaxVersion(log);
      assert log[|log| - 1].version == target;
      StateAtMax(log);
      CapacityIsProduct(rounds);
      HealFrom(kind, server, v, 0, guard, target, rounds, Reachable(log, v.version, target, rounds),
               ReconcileFrom(kind, v, Serving(server), 0, guard));
    }
  }

  lemma NothingToReconcile(kind: Kind, server: Server, v: View, guard: nat)
    requires Growing(server.log) && InStep(server.log(0), v) && server.log(0) == []
    ensures ReconcileFrom(kind, v, Serving(server), 0, guard).view == v && v.version == 0
    ensures InStep(server.log(guard), v)
  {
    InStepLater(server.log(0), server.log(guard), v);
    if guard > 0 && !server.refuses(0) {
      assert PageOf(server.log(0), 0, 500) == [];
      PageNeverFalls(kind, v, []);
      assert ReconcileFrom(kind, v, Serving(server), 0, guard).view == ApplyPage(kind, v, []);
    }
  }

  /** One stream goroutine handling one frame: apply it, or reconcile inline over a gap. */
  function ProcessFrame(kind: Kind, v: View, f: Frame, fetch: (nat, int) -> Fetch): View {
    var live := ApplyLive(kind, v, f);
    if live.gap then ReconcileFrom(kind, live.view, fetch, 0, Guard(kind)).view else live.view
  }

  /**
   * Gap healing, whatever was lost before, whatever versions were burned and whatever requests are refused: the client
   * stays in step, and is at least at a processed frame's version exactly when there was no gap or the backlog up to
   * the frame fits the requests answered before the first refused one or the guard.
   */
  lemma GapHealing(kind: Kind, server: Server, v: View, f: Frame)
    requires Growing(server.log) && InStep(server.log(0), v) && AgreesWithLog(server.log(0), f)
    ensures var after := ProcessFrame(kind, v, f, Serving(server));
      && InStep(server.log(Guard(kind)), after)
      && (after.version >= f.version <==>
          || f.version <= v.version + 1
          || CountUpTo(server.log(0), f.version) - CountUpTo(server.log(0), v.version)
             <= 500 * Rounds(server.refuses, Guard(kind)))
  {
    var log, rounds := server.log(0), Rounds(server.refuses, Guard(kind));
    var k :| 0 <= k < |log| && Carries(f, log[k]);
    assert log[k].version == f.version;
    CapacityIsProduct(rounds);
    LiveFrameKeepsStep(kind, log, v, f);
    var live := ApplyLive(kind, v, f);
    InStepLater(log, server.log(Guard(kind)), live.view);
    if live.gap {
      HealFrom(kind, server, v, 0, Guard(kind), f.version, rounds, Reachable(log, v.version, f.version, rounds),
               ReconcileFrom(kind, v, Serving(server), 0, Guard(kind)));
    }
  }
}
