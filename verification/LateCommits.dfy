/**
 * Clients over the statement-level store: what a commit below a version a client has already passed does to it. Such an
 * event is never served to that client again.
 */
module LateCommits {
  import opened FlagModel
  import opened EventLog
  import opened Repository
  import opened FlagService
  import opened Sdk
  import opened Snapshots
  import opened Transactions
  import opened Unseen

  // What a run of the store offers to read.

  predicate DistinctVersions(commits: seq<Write>) {
    forall i, j :: 0 <= i < j < |commits| ==> commits[i].event.version != commits[j].event.version
  }

  lemma {:induction false} CommitsGrow(base: int, states: seq<Db>, steps: seq<Step>, s: nat, t: nat)
    requires Run(map[], base, states, steps) && s <= t < |states|
    ensures |states[s].commits| <= |states[t].commits|
    ensures forall i :: 0 <= i < |states[s].commits| ==> states[t].commits[i] == states[s].commits[i]
    decreases t
  {
    if s < t {
      CommitsGrow(base, states, steps, s, t - 1);
      assert states[t] == After(states[t - 1], steps[t - 1]);
    }
  }

  predicate NamesInv(db: Db) {
    && (forall t :: t in db.txs && Remembers(db.txs[t]) ==> ValidKey(KeyOf(db.txs[t])))
    && (forall t :: t in db.txs && db.txs[t].Written? ==> ValidKey(db.txs[t].write.event.key))
    && (forall i :: 0 <= i < |db.commits| ==> ValidKey(db.commits[i].event.key))
  }

  lemma ExecuteKeepsNames(db: Db, t: int)
    requires NamesInv(db) && KeysInv(db) && FreshInv(db) && Enabled(db, Execute(t))
    ensures NamesInv(After(db, Execute(t)))
  {
    var tx := db.txs[t];
    assert OpOf(tx) == tx.op;
    if tx.op.Delete? { assert Remembers(tx) && KeyOf(tx) == tx.key; }
    assert ValidKey(Effected(db, tx).value.event.key);
  }

  lemma StepKeepsNames(db: Db, step: Step)
    requires NamesInv(db) && KeysInv(db) && FreshInv(db) && Enabled(db, step)
    ensures NamesInv(After(db, step))
  {
    hide ValidKey;
    match step
    case Execute(t) => ExecuteKeepsNames(db, t);
    case Number(t) =>
      if db.txs[t].op.Delete? { assert Remembers(db.txs[t]) && KeyOf(db.txs[t]) == db.txs[t].key; }
    case _ =>
  }

  lemma {:induction false} RunKeepsNames(base: int, states: seq<Db>, steps: seq<Step>, s: nat)
    requires Run(map[], base, states, steps) && s < |states|
    ensures NamesInv(states[s])
  {
    hide KeysInv, FreshInv, VersionsInv, LocksInv, ChainInv, IdsInv, Effected;
    if s > 0 {
      hide NamesInv;
      RunKeepsNames(base, states, steps, s - 1);
      RunKeepsInv(map[], base, states, steps, s - 1);
      RunKeepsTable(base, states, steps, s - 1);
      assert states[s] == After(states[s - 1], steps[s - 1]);
      StepKeepsNames(states[s - 1], steps[s - 1]);
    }
  }

  /** Whatever the commit order, what a run offers to read is a good log. */
  lemma ReadIsGood(base: int, states: seq<Db>, steps: seq<Step>, s: nat, log: seq<Event>)
    requires Run(map[], base, states, steps) && s < |states| && VersionOrder(log, states[s].commits)
    ensures GoodLog(log)
  {
    RunKeepsInv(map[], base, states, steps, s);
    RunKeepsNames(base, states, steps, s);
    var commits := states[s].commits;
    forall k | 0 <= k < |log| ensures WellFormed(log[k]) {
      var i :| 0 <= i < |commits| && commits[i].event == log[k];
      assert Chained(map[], commits, i);
    }
  }

  lemma VersionsDistinct(base: int, states: seq<Db>, steps: seq<Step>, s: nat)
    requires Run(map[], base, states, steps) && s < |states|
    ensures DistinctVersions(states[s].commits)
  {
    RunKeepsInv(map[], base, states, steps, s);
  }

  /** A commit is late to the earlier log exactly when it was made after it. */
  lemma LateIffAfter(commits: seq<Write>, from: nat, log: seq<Event>, i: nat)
    requires from <= |commits| && i < |commits| && VersionOrder(log, commits[..from])
    requires DistinctVersions(commits)
    ensures commits[i].event !in log <==> i >= from
  {
    if i < from { assert commits[..from][i] == commits[i]; }
    if commits[i].event in log {
      var k :| 0 <= k < |log| && log[k] == commits[i].event;
      var j :| 0 <= j < |commits[..from]| && commits[..from][j].event == log[k];
    }
  }

  lemma EarlierWithin(commits: seq<Write>, from: nat, log: seq<Event>, later: seq<Event>)
    requires from <= |commits| && VersionOrder(log, commits[..from]) && VersionOrder(later, commits)
    ensures Within(log, later)
  {
    forall k | 0 <= k < |log| ensures log[k] in later {
      var i :| 0 <= i < |commits[..from]| && commits[..from][i].event == log[k];
      assert commits[i].event in later;
    }
  }

  // What the commits made in between do.

  /** Some other commit of the key lies above, still at or below the version. */
  predicate Overtaken(commits: seq<Write>, i: nat, version: int)
    requires i < |commits|
  {
    exists j :: 0 <= j < |commits| && commits[j].event.key == commits[i].event.key
                && commits[i].event.version < commits[j].event.version <= version
  }

  /**
   * Every commit after the first `from` at or below `passed`, which the client has left behind unseen, is overtaken at
   * or below where the client now is, or deletes what it does not have.
   */
  predicate Undisturbed(from: nat, commits: seq<Write>, passed: int, now: View) {
    forall i :: from <= i < |commits| && commits[i].event.version <= passed ==>
      Overtaken(commits, i, now.version) || NoEffect(commits[i].event, now)
  }

  lemma OvertakenIsWritten(commits: seq<Write>, later: seq<Event>, i: nat, k: nat, version: int)
    requires VersionOrder(later, commits) && i < |commits| && k < |later| && later[k] == commits[i].event
    requires Overtaken(commits, i, version)
    ensures k + 1 <= CountUpTo(later, version) && WrittenIn(later, k + 1, CountUpTo(later, version), later[k].key)
  {
    hide ReplayTo, CountUpTo;
    var j :| 0 <= j < |commits| && commits[j].event.key == commits[i].event.key
             && commits[i].event.version < commits[j].event.version <= version;
    assert commits[j].event in later;
    var p :| 0 <= p < |later| && later[p] == commits[j].event;
    OrderedPairs(later, |later|);
    SeenIff(later, p, version);
  }

  lemma WrittenIsOvertaken(commits: seq<Write>, later: seq<Event>, i: nat, k: nat, version: int)
    requires VersionOrder(later, commits) && i < |commits| && k < CountUpTo(later, version)
    requires later[k] == commits[i].event && WrittenIn(later, k + 1, CountUpTo(later, version), later[k].key)
    ensures Overtaken(commits, i, version)
  {
    hide ReplayTo, CountUpTo;
    var p :| k + 1 <= p < CountUpTo(later, version) && later[p].key == later[k].key;
    OrderedPairs(later, |later|);
    SeenIff(later, p, version);
    var j :| 0 <= j < |commits| && commits[j].event == later[p];
  }

  /** Of the later log a client that reads on from where it is misses exactly the late commits it has passed. */
  lemma MissedAreLate(commits: seq<Write>, from: nat, log: seq<Event>, later: seq<Event>, version: int,
                      page: seq<Event>, i: nat, now: int)
    requires from <= |commits| && VersionOrder(log, commits[..from]) && VersionOrder(later, commits)
    requires DistinctVersions(commits) && i < |commits| && commits[i].event.version <= now
    requires forall e :: e in later && version < e.version <= now ==> e in page
    ensures Seen(log, version, page, commits[i].event) <==> commits[i].event.version > version || i < from
  {
    LateIffAfter(commits, from, log, i);
    assert commits[i].event in later;
  }

  lemma MissedIffDisturbed(commits: seq<Write>, from: nat, log: seq<Event>, later: seq<Event>, version: int,
                           page: seq<Event>, w: View)
    requires from <= |commits| && VersionOrder(log, commits[..from]) && VersionOrder(later, commits)
    requires DistinctVersions(commits) && version <= w.version
    requires forall e :: e in later && version < e.version <= w.version ==> e in page
    ensures NothingMissed(log, later, version, page, w) <==> Undisturbed(from, commits, version, w)
  {
    hide Overtaken, NoEffect, Seen;
    var m := CountUpTo(later, w.version);
    if NothingMissed(log, later, version, page, w) {
      forall i | from <= i < |commits| && commits[i].event.version <= version
        ensures Overtaken(commits, i, w.version) || NoEffect(commits[i].event, w) {
        MissedAreLate(commits, from, log, later, version, page, i, w.version);
        assert commits[i].event in later;
        var k :| 0 <= k < |later| && later[k] == commits[i].event;
        SeenIff(later, k, w.version);
        if !NoEffect(later[k], w) { WrittenIsOvertaken(commits, later, i, k, w.version); }
      }
    }
    if Undisturbed(from, commits, version, w) {
      forall k | 0 <= k < m && !Seen(log, version, page, later[k])
        ensures WrittenIn(later, k + 1, m, later[k].key) || NoEffect(later[k], w) {
        var i :| 0 <= i < |commits| && commits[i].event == later[k];
        SeenIff(later, k, w.version);
        MissedAreLate(commits, from, log, later, version, page, i, w.version);
        if !NoEffect(later[k], w) { OvertakenIsWritten(commits, later, i, k, w.version); }
      }
    }
  }

  /** What two states of a run, one after the other, offer to read. */
  lemma TwoReads(base: int, states: seq<Db>, steps: seq<Step>, s: nat, t: nat, log: seq<Event>, later: seq<Event>)
    requires Run(map[], base, states, steps) && s <= t < |states|
    requires VersionOrder(log, states[s].commits) && VersionOrder(later, states[t].commits)
    ensures GoodLog(log) && GoodLog(later) && Within(log, later) && DistinctVersions(states[t].commits)
    ensures |states[s].commits| <= |states[t].commits|
    ensures states[t].commits[..|states[s].commits|] == states[s].commits
  {
    hide VersionOrder, Run;
    var from, commits := |states[s].commits|, states[t].commits;
    CommitsGrow(base, states, steps, s, t);
    assert commits[..from] == states[s].commits;
    VersionsDistinct(base, states, steps, t);
    EarlierWithin(commits, from, log, later);
    ReadIsGood(base, states, steps, s, log);
    ReadIsGood(base, states, steps, t, later);
  }

  /**
   * What out-of-order commits do to a client: in step with the log of one state of a run, it is in step with the log of
   * a later state exactly when every commit made in between at or below its version is overtaken on its key, still at
   * or below that version, or deletes what the client does not have.
   */
  lemma ClientInStepIff(base: int, states: seq<Db>, steps: seq<Step>, s: nat, t: nat, log: seq<Event>,
                        later: seq<Event>, v: View)
    requires Run(map[], base, states, steps) && s <= t < |states|
    requires VersionOrder(log, states[s].commits) && VersionOrder(later, states[t].commits) && InStep(log, v)
    ensures InStep(later, v) <==> Undisturbed(|states[s].commits|, states[t].commits, v.version, v)
  {
    hide InStep, Undisturbed, VersionOrder, Run, NothingMissed, Within;
    TwoReads(base, states, steps, s, t, log, later);
    StaysInStepIff(log, later, v);
    MissedIffDisturbed(states[t].commits, |states[s].commits|, log, later, v.version, [], v);
  }

  lemma PageServesAll(kind: Kind, later: seq<Event>, v: View)
    requires GoodLog(later) && v.version >= 0
    ensures var page := PageOf(later, v.version, 500);
      var w := ApplyPage(kind, v, page);
      && Ordered(page) && Within(page, later) && w.version >= v.version
      && forall e :: e in later && v.version < e.version <= w.version ==> e in page
  {
    var m, page := CountUpTo(later, v.version), PageOf(later, v.version, 500);
    var w := ApplyPage(kind, v, page);
    VersionNeverFalls(kind, v, page, |page|);
    SliceOrdered(later, m, m + |page|, page);
    FromGood(page, later);
    var q := PageDecides(kind, v, page, |page|, "");
    forall e | e in later && v.version < e.version <= w.version ensures e in page {
      var k :| 0 <= k < |later| && later[k] == e;
      SeenIff(later, k, v.version);
      if page != [] { SamePlace(later, k, m + |page| - 1); }
      assert later[k] == page[k - m];
    }
  }

  lemma SliceOrdered(log: seq<Event>, m: nat, n: nat, page: seq<Event>)
    requires Ordered(log) && m <= n <= |log| && page == log[m..n]
    ensures Ordered(page) && Within(page, log)
  {
    OrderedPairs(log, |log|);
    IncreasingIsOrdered(page, |page|);
  }

  lemma {:induction false} IncreasingIsOrdered(page: seq<Event>, n: nat)
    requires n <= |page|
    requires forall i :: 0 <= i < |page| ==> page[i].version >= 1
    requires forall i, j :: 0 <= i < j < |page| ==> page[i].version < page[j].version
    ensures OrderedTo(page, n)
  {
    if n > 0 { IncreasingIsOrdered(page, n - 1); }
  }

  /**
   * The same for a client that reads its next page from the later log: it is in step afterwards exactly when what it
   * had passed is overtaken at or below where the page takes it, or deletes what it does not have.
   */
  lemma ReadInStepIff(base: int, states: seq<Db>, steps: seq<Step>, s: nat, t: nat, log: seq<Event>, later: seq<Event>,
                      kind: Kind, v: View)
    requires Run(map[], base, states, steps) && s <= t < |states|
    requires VersionOrder(log, states[s].commits) && VersionOrder(later, states[t].commits) && InStep(log, v)
    ensures var w := ApplyPage(kind, v, PageOf(later, v.version, 500));
      InStep(later, w) <==> Undisturbed(|states[s].commits|, states[t].commits, v.version, w)
  {
    hide Undisturbed, VersionOrder, Run, NothingMissed, Within, ApplyPage, PageOf;
    var page := PageOf(later, v.version, 500);
    var w := ApplyPage(kind, v, page);
    TwoReads(base, states, steps, s, t, log, later);
    PageServesAll(kind, later, v);
    InStepIffNothingMissed(kind, log, later, v, page);
    MissedIffDisturbed(states[t].commits, |states[s].commits|, log, later, v.version, page, w);
  }

  // A client that keeps reading pages while transactions commit.

  /** The client after its first n page reads; logs[i] is what read i finds. */
  function Polled(kind: Kind, logs: seq<seq<Event>>, n: nat): View
    requires n <= |logs|
  {
    if n == 0 then View(map[], 0)
    else var v := Polled(kind, logs, n - 1); ApplyPage(kind, v, PageOf(logs[n - 1], v.version, 500))
  }

  /** Read i happens in state at[i], in the order of the run. */
  predicate Reads(states: seq<Db>, at: seq<nat>, logs: seq<seq<Event>>) {
    && |at| == |logs|
    && (forall i :: 0 <= i < |at| ==> at[i] < |states| && VersionOrder(logs[i], states[at[i]].commits))
    && (forall i :: 0 < i < |at| ==> at[i - 1] <= at[i])
  }

  /** Between read i and the next nothing was committed that the client passes for good. */
  predicate ReadUndisturbed(states: seq<Db>, kind: Kind, at: seq<nat>, logs: seq<seq<Event>>, i: nat)
    requires Reads(states, at, logs) && 0 < i < |logs|
  {
    Undisturbed(|states[at[i - 1]].commits|, states[at[i]].commits, Polled(kind, logs, i).version,
                Polled(kind, logs, i + 1))
  }

  /** After its n-th read the client is in step with what that read found. */
  predicate ReadInStep(kind: Kind, logs: seq<seq<Event>>, n: nat)
    requires 0 < n <= |logs|
  {
    InStep(logs[n - 1], Polled(kind, logs, n))
  }

  lemma FirstRead(base: int, states: seq<Db>, steps: seq<Step>, kind: Kind, at: seq<nat>, logs: seq<seq<Event>>)
    requires Run(map[], base, states, steps) && Reads(states, at, logs) && |logs| > 0
    ensures ReadInStep(kind, logs, 1)
  {
    hide InStep, Run, VersionOrder, PageOf, ApplyPage;
    ReadIsGood(base, states, steps, at[0], logs[0]);
    EmptyClientInStep(logs[0]);
    assert Polled(kind, logs, 0) == View(map[], 0);
    FreshPage(kind, logs[0], View(map[], 0));
  }

  lemma NextRead(base: int, states: seq<Db>, steps: seq<Step>, kind: Kind, at: seq<nat>, logs: seq<seq<Event>>, i: nat)
    requires Run(map[], base, states, steps) && Reads(states, at, logs) && 0 < i < |logs|
    requires ReadInStep(kind, logs, i)
    ensures ReadInStep(kind, logs, i + 1) <==> ReadUndisturbed(states, kind, at, logs, i)
  {
    hide InStep, Run, VersionOrder, PageOf, ApplyPage, Undisturbed;
    ReadInStepIff(base, states, steps, at[i - 1], at[i], logs[i - 1], logs[i], kind, Polled(kind, logs, i));
  }

  lemma {:induction false} UndisturbedReads(base: int, states: seq<Db>, steps: seq<Step>, kind: Kind, at: seq<nat>,
                                            logs: seq<seq<Event>>, n: nat)
    requires Run(map[], base, states, steps) && Reads(states, at, logs) && 0 < n <= |logs|
    requires forall i :: 0 < i < n ==> ReadUndisturbed(states, kind, at, logs, i)
    ensures ReadInStep(kind, logs, n)
  {
    hide ReadInStep, Run, ReadUndisturbed;
    if n == 1 {
      FirstRead(base, states, steps, kind, at, logs);
    } else {
      UndisturbedReads(base, states, steps, kind, at, logs, n - 1);
      NextRead(base, states, steps, kind, at, logs, n - 1);
    }
  }

  /**
   * A client that pages through the log while transactions commit in any order is in step with it at every read exactly
   * when every read is undisturbed.
   */
  lemma PollingInStepIff(base: int, states: seq<Db>, steps: seq<Step>, kind: Kind, at: seq<nat>, logs: seq<seq<Event>>)
    requires Run(map[], base, states, steps) && Reads(states, at, logs)
    ensures (forall n :: 0 < n <= |logs| ==> ReadInStep(kind, logs, n)) <==>
            (forall i :: 0 < i < |logs| ==> ReadUndisturbed(states, kind, at, logs, i))
  {
    hide ReadInStep, Run, ReadUndisturbed;
    if forall i :: 0 < i < |logs| ==> ReadUndisturbed(states, kind, at, logs, i) {
      forall n | 0 < n <= |logs| ensures ReadInStep(kind, logs, n) {
        UndisturbedReads(base, states, steps, kind, at, logs, n);
      }
    }
    if forall n :: 0 < n <= |logs| ==> ReadInStep(kind, logs, n) {
      forall i | 0 < i < |logs| ensures ReadUndisturbed(states, kind, at, logs, i) {
        assert ReadInStep(kind, logs, i) && ReadInStep(kind, logs, i + 1);
        NextRead(base, states, steps, kind, at, logs, i);
      }
    }
  }

  /**
   * While nothing commits at or below a version a client has already been served, a client that pages through the log
   * is in step with it at every read, whatever the order of commits otherwise.
   */
  lemma ServedInOrder(base: int, states: seq<Db>, steps: seq<Step>, kind: Kind, at: seq<nat>, logs: seq<seq<Event>>,
                      n: nat)
    requires Run(map[], base, states, steps) && Reads(states, at, logs) && 0 < n <= |logs|
    requires forall i, c :: 0 < i < |logs| && |states[at[i - 1]].commits| <= c < |states[at[i]].commits| ==>
      states[at[i]].commits[c].event.version > Polled(kind, logs, i).version
    ensures ReadInStep(kind, logs, n)
  {
    PollingInStepIff(base, states, steps, kind, at, logs);
  }

  // A run in which a client passes a version that is not committed yet.

  lemma TwoCreatesPending(x: string, dx: Draft, y: string, dy: Draft) returns (r: Trace)
    requires DraftAllowed(dx) && DraftAllowed(dy) && x != y
    ensures FromEmpty(r)
    ensures Last(r) == Db(2, map[], map[1 := Numbered(Create(x, dx), "", 1), 2 := Numbered(Create(y, dy), "", 2)], [])
  {
    var r0 := Trace([Db(0, map[], map[], [])], []);
    var r1 := NumberCreate(r0, 1, x, dx);
    r := NumberCreate(r1, 2, y, dy);
  }

  lemma TwoEventLog(log: seq<Event>, x: Flag, y: Flag)
    requires log == [Event(1, x.key, Created(x)), Event(2, y.key, Created(y))]
    ensures Ordered(log) && CountUpTo(log, 2) == 2 && Replay(log) == map[x.key := x][y.key := y]
  {
    assert OrderedTo(log, 0) && OrderedTo(log, 1);
    assert ReplayTo(log, 0) == map[] && ReplayTo(log, 1) == map[x.key := x];
    StateAtMax(log);
  }

  lemma OneEventRead(kind: Kind, log: seq<Event>, y: Flag)
    requires log == [Event(2, y.key, Created(y))] && y.key != ""
    ensures Ordered(log) && InStep(log, View(map[y.key := y], 2))
    ensures ApplyPage(kind, View(map[], 0), PageOf(log, 0, 500)) == View(map[y.key := y], 2)
  {
    assert OrderedTo(log, 0) && ReplayTo(log, 0) == map[] && ReplayTo(log, 1) == map[y.key := y];
    CountIs(log, 0, 0);
    StateAtMax(log);
    assert PageOf(log, 0, 500) == log;
    assert ApplyFirst(kind, View(map[], 0), log, 0) == View(map[], 0);
  }

  lemma LateCreate(x: string, dx: Draft, y: string, dy: Draft) returns (mid: Trace, end: Trace)
    requires DraftAllowed(dx) && DraftAllowed(dy) && x != y && dx.key != dy.key
    ensures FromEmpty(mid) && FromEmpty(end) && |mid.states| > 0
    ensures |end.states| > |mid.states| && end.states[|mid.states| - 1] == Last(mid)
    ensures var fx, fy := DraftRow(x, dx, 1), DraftRow(y, dy, 2);
      && Last(mid).commits == [Write(Create(y, dy), None, Some(fy), Event(2, dy.key, Created(fy)))]
      && Last(end).table == map[y := fy, x := fx]
      && Last(end).commits == Last(mid).commits + [Write(Create(x, dx), None, Some(fx), Event(1, dx.key, Created(fx)))]
  {
    var r := TwoCreatesPending(x, dx, y, dy);
    mid := FinishCreate(r, 2, y, dy, 2);
    end := FinishCreate(mid, 1, x, dx, 1);
    assert Last(end).table == map[y := DraftRow(y, dy, 2), x := DraftRow(x, dx, 1)];
  }

  lemma TwoRows(x: string, y: string, fx: Flag, fy: Flag)
    requires fx.id == x && fy.id == y && x != y && fx.key != fy.key
    ensures Mirror(map[y := fy, x := fx], map[fx.key := fx][fy.key := fy])
  {
  }

  lemma BothOrders(first: seq<Write>, early: seq<Event>, both: seq<Write>, log: seq<Event>)
    requires |first| == 1 && early == [first[0].event] && |both| == 2 && log == [both[1].event, both[0].event]
    requires Ordered(early) && Ordered(log)
    ensures VersionOrder(early, first) && VersionOrder(log, both)
  {
    assert early[0] == first[0].event && log[0] == both[1].event && log[1] == both[0].event;
  }

  lemma PassedClient(log: seq<Event>, x: Flag, y: Flag)
    requires log == [Event(1, x.key, Created(x)), Event(2, y.key, Created(y))] && x.key != y.key
    requires Replay(log) == map[x.key := x][y.key := y] && CountUpTo(log, 2) == 2
    ensures !InStep(log, View(map[y.key := y], 2)) && PageOf(log, 2, 500) == []
  {
    assert x.key in Replay(log);
  }

  /**
   * Version 2 commits before version 1. The log ends up complete and equal to the table, but a client that read it in
   * between has passed version 1: it holds the newest version, its next page is empty, a late frame is stale, and it
   * never sees the flag.
   */
  lemma OvertakenClient(kind: Kind, x: string, dx: Draft, y: string, dy: Draft)
    returns (end: Trace, s: nat, early: seq<Event>, log: seq<Event>, v: View)
    requires DraftAllowed(dx) && DraftAllowed(dy) && x != y && dx.key != dy.key
    ensures FromEmpty(end) && s < |end.states| && VersionOrder(early, end.states[s].commits)
    ensures InStep(early, v) && v == ApplyPage(kind, View(map[], 0), PageOf(early, 0, 500))
    ensures VersionOrder(log, Last(end).commits) && Mirror(Last(end).table, Replay(log))
    ensures dx.key in Replay(log) && dx.key !in v.flags && v.version == MaxVersion(log) && !InStep(log, v)
    ensures PageOf(log, v.version, 500) == []
    ensures ApplyLive(kind, v, Frame(1, FlagUpdated(DraftRow(x, dx, 1)))) == LiveResult(v, false)
  {
    hide InStep, FromEmpty, PageOf, ApplyPage, KeyTaken, VersionOrder, Mirror, Replay;
    var fx, fy := DraftRow(x, dx, 1), DraftRow(y, dy, 2);
    var mid;
    mid, end := LateCreate(x, dx, y, dy);
    s := |mid.states| - 1;
    early, v := [Event(2, fy.key, Created(fy))], View(map[fy.key := fy], 2);
    log := [Event(1, fx.key, Created(fx)), Event(2, fy.key, Created(fy))];
    OneEventRead(kind, early, fy);
    TwoEventLog(log, fx, fy);
    BothOrders(Last(mid).commits, early, Last(end).commits, log);
    TwoRows(x, y, fx, fy);
    PassedClient(log, fx, fy);
  }
}
