/**
 * The whole system over the statement-level store: transactions interleave statement by statement and commit in any
 * order, while clients install snapshots, apply pages and hear frames, with any number of each under way.
 */
module StatementSystem {
  import opened FlagModel
  import opened EventLog
  import opened Repository
  import opened FlagService
  import opened Sdk
  import opened Snapshots
  import opened Unseen
  import opened LateCommits
  import T = Transactions

  datatype Client = Client(kind: Kind, view: View)
  datatype Ask = Ask(client: int, since: int)
  datatype Answer = Answer(client: int, page: seq<Event>)

  /** The snapshot endpoint's first read, made after `from` commits, and its answer with the version of the second. */
  datatype Listing = Listing(client: int, flags: seq<Flag>, from: nat)
  datatype Snapshot = Snapshot(listing: Listing, version: int)

  /** `log` is the event table as queries read it, in version order. */
  datatype System = System(db: T.Db, log: seq<Event>, clients: map<int, Client>, asks: set<Ask>, answers: set<Answer>,
                           listings: set<Listing>, snapshots: set<Snapshot>)

  datatype Step =
    | Database(step: T.Step)
    | Join(client: int, kind: Kind)
    | ReadTable(client: int, list: seq<Flag>)
    | ReadVersion(listing: Listing)
    | Boot(snapshot: Snapshot)
    | SendAsk(client: int)
    | ServeAsk(ask: Ask)
    | ApplyAnswer(answer: Answer)
    | Deliver(client: int, frame: Frame)

  const INITIAL_SYSTEM := System(T.Db(0, map[], map[], []), [], map[], {}, {}, {}, {})

  /** What is published of a committed write. */
  function FrameOf(w: T.Write): Frame {
    Frame(w.event.version, if w.row.Some? then FlagUpdated(w.row.value) else FlagDeleted(w.event.key))
  }

  predicate Published(commits: seq<T.Write>, f: Frame) {
    exists i :: 0 <= i < |commits| && f == FrameOf(commits[i])
  }

  /** Frames are published after their commit and may be lost, repeated and reordered. */
  predicate Enabled(s: System, step: Step) {
    match step
    case Database(step) => T.Enabled(s.db, step)
    case Join(c, _) => c !in s.clients
    case ReadTable(_, list) => Lists(s.db.table, list)
    case ReadVersion(listing) => listing in s.listings
    case Boot(snap) => snap in s.snapshots && snap.listing.client in s.clients
    case SendAsk(c) => c in s.clients
    case ServeAsk(ask) => ask in s.asks
    case ApplyAnswer(a) => a in s.answers && a.client in s.clients
    case Deliver(c, f) => c in s.clients && Published(s.db.commits, f)
  }

  function SetView(s: System, c: int, v: View): System
    requires c in s.clients
  {
    s.(clients := s.clients[c := s.clients[c].(view := v)])
  }

  /** The log with one more event, put where its version belongs. */
  function Inserted(log: seq<Event>, e: Event): seq<Event> {
    var n := CountUpTo(log, e.version);
    log[..n] + [e] + log[n..]
  }

  function After(s: System, step: Step): System
    requires Enabled(s, step)
  {
    match step
    case Database(step) =>
      s.(db := T.After(s.db, step),
         log := if step.Commit? then Inserted(s.log, s.db.txs[step.t].write.event) else s.log)
    case Join(c, kind) => s.(clients := s.clients[c := Client(kind, View(map[], 0))])
    case ReadTable(c, list) => s.(listings := s.listings + {Listing(c, list, |s.db.commits|)})
    case ReadVersion(listing) => s.(snapshots := s.snapshots + {Snapshot(listing, MaxVersion(s.log))})
    case Boot(snap) => SetView(s, snap.listing.client, View(FlagsOf(snap.listing.flags), snap.version))
    case SendAsk(c) => s.(asks := s.asks + {Ask(c, s.clients[c].view.version)})
    case ServeAsk(ask) => s.(answers := s.answers + {Answer(ask.client, PageOf(s.log, ask.since, 500))})
    case ApplyAnswer(a) => SetView(s, a.client, ApplyPage(s.clients[a.client].kind, s.clients[a.client].view, a.page))
    case Deliver(c, f) => SetView(s, c, ApplyLive(s.clients[c].kind, s.clients[c].view, f).view)
  }

  // What holds whatever clients do.

  predicate DbInv(db: T.Db) { T.Inv(map[], 0, db) && T.TableInv(db) && NamesInv(db) }

  predicate InRange(log: seq<Event>, version: int) { 0 <= version <= MaxVersion(log) }

  predicate PageOk(log: seq<Event>, page: seq<Event>) { Ordered(page) && Within(page, log) }

  /** The listing is the table as the first `from` commits left it. */
  predicate ListingOk(commits: seq<T.Write>, l: Listing) {
    l.from <= |commits| && FlagsOf(l.flags) == T.RealReplay(commits[..l.from], l.from)
  }

  predicate SnapshotOk(commits: seq<T.Write>, log: seq<Event>, n: Snapshot) {
    && ListingOk(commits, n.listing) && InRange(log, n.version)
    && forall i :: 0 <= i < n.listing.from ==> commits[i].event.version <= n.version
  }

  ghost predicate Inv(s: System) {
    && DbInv(s.db)
    && T.VersionOrder(s.log, s.db.commits) && GoodLog(s.log)
    && (forall c :: c in s.clients ==> InRange(s.log, s.clients[c].view.version))
    && (forall a :: a in s.answers ==> PageOk(s.log, a.page))
    && (forall l :: l in s.listings ==> ListingOk(s.db.commits, l))
    && (forall n :: n in s.snapshots ==> SnapshotOk(s.db.commits, s.log, n))
  }

  // Inserting an event.

  lemma InsertedMembers(log: seq<Event>, e: Event)
    ensures forall x :: x in Inserted(log, e) <==> x in log || x == e
  {
    var n := CountUpTo(log, e.version);
    assert log == log[..n] + log[n..];
  }

  lemma InsertedAt(log: seq<Event>, e: Event, i: nat)
    requires i <= |log|
    ensures |Inserted(log, e)| == |log| + 1
    ensures var n := CountUpTo(log, e.version);
      Inserted(log, e)[i] == if i < n then log[i] else if i == n then e else log[i - 1]
  {
  }

  lemma InsertedIncreases(log: seq<Event>, e: Event, i: nat, j: nat)
    requires Ordered(log) && i < j <= |log| && forall k :: 0 <= k < |log| ==> log[k].version != e.version
    ensures |Inserted(log, e)| == |log| + 1 && Inserted(log, e)[i].version < Inserted(log, e)[j].version
  {
    hide Inserted;
    var n := CountUpTo(log, e.version);
    InsertedAt(log, e, i);
    InsertedAt(log, e, j);
    OrderedPairs(log, |log|);
    CountSplits(log, e.version, |log|);
  }

  lemma InsertedIsOrdered(log: seq<Event>, e: Event)
    requires Ordered(log) && e.version >= 1 && forall k :: 0 <= k < |log| ==> log[k].version != e.version
    ensures Ordered(Inserted(log, e)) && Within(log, Inserted(log, e))
    ensures MaxVersion(log) <= MaxVersion(Inserted(log, e))
  {
    hide Inserted;
    var more := Inserted(log, e);
    InsertedAt(log, e, 0);
    OrderedPairs(log, |log|);
    forall i | 0 <= i < |more| ensures more[i].version >= 1 { InsertedAt(log, e, i); }
    forall i, j | 0 <= i < j < |more| ensures more[i].version < more[j].version { InsertedIncreases(log, e, i, j); }
    IncreasingIsOrdered(more, |more|);
    InsertedMembers(log, e);
    RangeWithin(log, more);
  }

  lemma CommitFacts(db: T.Db, t: int)
    requires DbInv(db) && T.Enabled(db, T.Commit(t))
    ensures var e := db.txs[t].write.event;
      WellFormed(e) && forall i :: 0 <= i < |db.commits| ==> db.commits[i].event.version != e.version
  {
    assert T.Versioned(db.txs[t]) && T.VersionOf(db.txs[t]) == db.txs[t].write.event.version;
    assert T.WriteOk(db.txs[t].write);
  }

  lemma CommitKeepsLog(s: System, t: int)
    requires Inv(s) && Enabled(s, Database(T.Commit(t)))
    ensures var u := After(s, Database(T.Commit(t)));
      && T.VersionOrder(u.log, u.db.commits) && GoodLog(u.log) && Within(s.log, u.log)
      && MaxVersion(s.log) <= MaxVersion(u.log)
      && (forall x :: x in u.log <==> x in s.log || x == s.db.txs[t].write.event)
      && s.db.txs[t].write.event !in s.log
  {
    hide DbInv, Inserted;
    var e, u := s.db.txs[t].write.event, After(s, Database(T.Commit(t)));
    CommitFacts(s.db, t);
    forall k | 0 <= k < |s.log| ensures s.log[k].version != e.version {
      var i :| 0 <= i < |s.db.commits| && s.db.commits[i].event == s.log[k];
    }
    InsertedIsOrdered(s.log, e);
    InsertedMembers(s.log, e);
    forall k | 0 <= k < |u.log| ensures WellFormed(u.log[k]) {
      if u.log[k] in s.log { var j :| 0 <= j < |s.log| && s.log[j] == u.log[k]; }
    }
    OrderGrows(s.log, s.db.commits, u.log, u.db.commits, e);
  }

  lemma OrderGrows(log: seq<Event>, commits: seq<T.Write>, more: seq<Event>, now: seq<T.Write>, e: Event)
    requires T.VersionOrder(log, commits) && Ordered(more) && (forall x :: x in more <==> x in log || x == e)
    requires |now| == |commits| + 1 && now[..|commits|] == commits && now[|commits|].event == e
    ensures T.VersionOrder(more, now)
  {
    forall i | 0 <= i < |now| ensures now[i].event in more {
      if i < |commits| { assert now[i] == now[..|commits|][i]; }
    }
    forall k | 0 <= k < |more| ensures exists i :: 0 <= i < |now| && now[i].event == more[k] {
      if more[k] in log {
        var j :| 0 <= j < |log| && log[j] == more[k];
        var i :| 0 <= i < |commits| && commits[i].event == log[j];
        assert now[i] == now[..|commits|][i];
      } else {
        assert now[|commits|].event == more[k];
      }
    }
  }

  lemma DatabaseKeepsInv(db: T.Db, step: T.Step)
    requires DbInv(db) && T.Enabled(db, step)
    ensures DbInv(T.After(db, step))
    ensures T.After(db, step).commits == if step.Commit? then db.commits + [db.txs[step.t].write] else db.commits
  {
    hide T.Inv;
    hide NamesInv;
    InvGives(db);
    T.StepKeepsInv(map[], 0, db, step);
    StepKeepsNames(db, step);
    if step.Commit? { T.CommitKeepsMirror(db, step.t); } else { TableUntouched(db, step); }
  }

  lemma InvGives(db: T.Db)
    requires T.Inv(map[], 0, db)
    ensures T.VersionsInv(0, db) && T.FreshInv(db) && T.LocksInv(db) && T.IdsInv(db.table)
  {
  }

  lemma TableUntouched(db: T.Db, step: T.Step)
    requires T.TableInv(db) && T.VersionsInv(0, db) && T.FreshInv(db) && T.LocksInv(db) && T.IdsInv(db.table)
    requires T.Enabled(db, step) && !step.Commit?
    ensures T.TableInv(T.After(db, step))
  {
    T.StepKeepsKeys(0, db, step);
  }

  lemma ListingLasts(commits: seq<T.Write>, more: seq<T.Write>, l: Listing)
    requires ListingOk(commits, l) && |commits| <= |more| && more[..|commits|] == commits
    ensures ListingOk(more, l)
  {
    assert more[..l.from] == more[..|commits|][..l.from];
  }

  lemma SnapshotLasts(commits: seq<T.Write>, more: seq<T.Write>, log: seq<Event>, later: seq<Event>, n: Snapshot)
    requires SnapshotOk(commits, log, n) && |commits| <= |more| && more[..|commits|] == commits
    requires MaxVersion(log) <= MaxVersion(later)
    ensures SnapshotOk(more, later, n)
  {
    ListingLasts(commits, more, n.listing);
    forall i | 0 <= i < n.listing.from ensures more[i].event.version <= n.version {
      assert more[..|commits|][i] == commits[i];
    }
  }

  lemma CommitKeepsInv(s: System, t: int)
    requires Inv(s) && Enabled(s, Database(T.Commit(t)))
    ensures Inv(After(s, Database(T.Commit(t))))
  {
    hide DbInv, ListingOk, SnapshotOk, T.VersionOrder, GoodLog, Inserted;
    var u := After(s, Database(T.Commit(t)));
    DatabaseKeepsInv(s.db, T.Commit(t));
    CommitKeepsLog(s, t);
    assert u.db.commits[..|s.db.commits|] == s.db.commits;
    forall l | l in u.listings ensures ListingOk(u.db.commits, l) { ListingLasts(s.db.commits, u.db.commits, l); }
    forall n | n in u.snapshots ensures SnapshotOk(u.db.commits, u.log, n) {
      SnapshotLasts(s.db.commits, u.db.commits, s.log, u.log, n);
    }
  }

  lemma ListingIsReal(s: System, c: int, list: seq<Flag>)
    requires DbInv(s.db) && Lists(s.db.table, list)
    ensures ListingOk(s.db.commits, Listing(c, list, |s.db.commits|))
  {
    assert s.db.commits[..|s.db.commits|] == s.db.commits;
    ListingIsMirrored(s.db.table, T.RealReplay(s.db.commits, |s.db.commits|), list);
  }

  lemma SnapshotIsOk(s: System, l: Listing)
    requires T.VersionOrder(s.log, s.db.commits) && ListingOk(s.db.commits, l)
    ensures SnapshotOk(s.db.commits, s.log, Snapshot(l, MaxVersion(s.log)))
  {
    OrderedPairs(s.log, |s.log|);
    forall i | 0 <= i < l.from ensures s.db.commits[i].event.version <= MaxVersion(s.log) {
      var k :| 0 <= k < |s.log| && s.log[k] == s.db.commits[i].event;
      CountAt(s.log, k);
    }
  }

  lemma PublishedAgrees(s: System, f: Frame)
    requires DbInv(s.db) && T.VersionOrder(s.log, s.db.commits) && Published(s.db.commits, f)
    ensures AgreesWithLog(s.log, f)
  {
    var i :| 0 <= i < |s.db.commits| && f == FrameOf(s.db.commits[i]);
    assert T.Chained(map[], s.db.commits, i);
    var k :| 0 <= k < |s.log| && s.log[k] == s.db.commits[i].event;
    assert Carries(f, s.log[k]);
  }

  /** An update without fields publishes a stored row again: that is the frame of the commit that wrote it. */
  lemma StoredRowIsPublished(s: System, id: string)
    requires DbInv(s.db) && id in s.db.table
    ensures Published(s.db.commits, Frame(s.db.table[id].version, FlagUpdated(s.db.table[id])))
  {
    var commits := s.db.commits;
    var k := T.RowSource(map[], commits, |commits|, id);
    assert FrameOf(commits[k]) == Frame(s.db.table[id].version, FlagUpdated(s.db.table[id]));
  }

  lemma FrameInRange(log: seq<Event>, f: Frame)
    requires Ordered(log) && AgreesWithLog(log, f)
    ensures InRange(log, f.version)
  {
    var i :| 0 <= i < |log| && Carries(f, log[i]);
    CountAt(log, i);
  }

  lemma AppliedInRange(kind: Kind, log: seq<Event>, v: View, page: seq<Event>)
    requires GoodLog(log) && InRange(log, v.version) && PageOk(log, page)
    ensures InRange(log, ApplyPage(kind, v, page).version)
  {
    FromGood(page, log);
    var q := PageDecides(kind, v, page, |page|, "");
    RangeWithin(page, log);
  }

  lemma ClientStepKeepsInv(s: System, step: Step)
    requires Inv(s) && Enabled(s, step) && !step.Database?
    ensures Inv(After(s, step))
  {
    hide DbInv, ListingOk, SnapshotOk, T.VersionOrder, ApplyPage, PageOk;
    match step
    case Join(c, kind) => OrderedPairs(s.log, |s.log|);
    case ReadTable(c, list) => ListingIsReal(s, c, list);
    case ReadVersion(listing) => SnapshotIsOk(s, listing);
    case Boot(snap) => SnapshotInRange(s, snap);
    case SendAsk(c) =>
    case ServeAsk(ask) => PageIsOk(s.log, ask.since);
    case ApplyAnswer(a) => AppliedInRange(s.clients[a.client].kind, s.log, s.clients[a.client].view, a.page);
    case Deliver(c, f) =>
      PublishedAgrees(s, f);
      FrameInRange(s.log, f);
  }

  lemma SnapshotInRange(s: System, n: Snapshot)
    requires SnapshotOk(s.db.commits, s.log, n)
    ensures InRange(s.log, n.version)
  {
  }

  lemma PageIsOk(log: seq<Event>, since: int)
    requires Ordered(log)
    ensures PageOk(log, PageOf(log, since, 500))
  {
    var m, page := CountUpTo(log, since), PageOf(log, since, 500);
    SliceOrdered(log, m, m + |page|, page);
  }

  lemma StepKeepsInv(s: System, step: Step)
    requires Inv(s) && Enabled(s, step)
    ensures Inv(After(s, step))
  {
    if step.Database? {
      if step.step.Commit? {
        CommitKeepsInv(s, step.step.t);
      } else {
        DatabaseKeepsInv(s.db, step.step);
      }
    } else {
      ClientStepKeepsInv(s, step);
    }
  }

  /** Where a step takes a client's version: one further by the next frame, to a new page's end, to the snapshot's. */
  function Reached(was: int, step: Step, c: int): int {
    match step
    case Deliver(d, f) => if d == c && f.version == was + 1 then f.version else was
    case ApplyAnswer(a) => if a.client == c && MaxVersion(a.page) > was then MaxVersion(a.page) else was
    case Boot(snap) => if snap.listing.client == c then snap.version else was
    case _ => was
  }

  /** Every step does what it is for; in particular a commit's event joins the log, in version order. */
  lemma StepMoves(s: System, step: Step, c: int)
    requires Inv(s) && Enabled(s, step)
    ensures c in s.clients ==>
            && c in After(s, step).clients && After(s, step).clients[c].kind == s.clients[c].kind
            && After(s, step).clients[c].view.version == Reached(s.clients[c].view.version, step, c)
    ensures step.Database? && step.step.Commit? ==>
            && Ordered(After(s, step).log)
            && forall e :: e in After(s, step).log <==> e in s.log || e == s.db.txs[step.step.t].write.event
    ensures step.SendAsk? ==> Ask(step.client, s.clients[step.client].view.version) in After(s, step).asks
    ensures step.ServeAsk? ==> exists a :: a in After(s, step).answers && AnswersAsk(s.log, step.ask, a)
    ensures step.ReadVersion? ==> Snapshot(step.listing, MaxVersion(s.log)) in After(s, step).snapshots
  {
    hide DbInv, Inserted, WellFormed, ListingOk, SnapshotOk, T.After, T.Enabled, T.VersionOrder;
    match step
    case Database(step) => if step.Commit? { CommitKeepsLog(s, step.t); }
    case ApplyAnswer(a) =>
      OrderedPairs(a.page, |a.page|);
      PageReaches(s.clients[a.client].kind, s.clients[a.client].view, a.page, |a.page|);
    case ServeAsk(ask) => assert AnswersAsk(s.log, ask, Answer(ask.client, PageOf(s.log, ask.since, 500)));
    case _ =>
  }

  /** All there is after the version asked from, up to 500 events. */
  predicate AnswersAsk(log: seq<Event>, ask: Ask, a: Answer) {
    && a.client == ask.client && SegmentAfter(log, ask.since, a.page) && |a.page| <= 500
    && (|a.page| == 500 || CountUpTo(log, ask.since) + |a.page| == |log|)
  }

  predicate Run(states: seq<System>, steps: seq<Step>) {
    && |states| == |steps| + 1 && states[0] == INITIAL_SYSTEM
    && forall i :: 0 <= i < |steps| ==> Enabled(states[i], steps[i]) && states[i + 1] == After(states[i], steps[i])
  }

  lemma InitialInv()
    ensures Inv(INITIAL_SYSTEM)
  {
    assert T.VersionsInv(0, INITIAL_SYSTEM.db) && T.KeysInv(INITIAL_SYSTEM.db);
    assert Mirror(map[], T.RealReplay([], 0));
  }

  lemma {:induction false} RunKeepsInv(states: seq<System>, steps: seq<Step>, i: nat)
    requires Run(states, steps) && i < |states|
    ensures Inv(states[i])
  {
    hide Inv;
    if i == 0 {
      InitialInv();
    } else {
      RunKeepsInv(states, steps, i - 1);
      assert states[i] == After(states[i - 1], steps[i - 1]);
      StepKeepsInv(states[i - 1], steps[i - 1]);
    }
  }

  // Snapshots over commits in any order.

  /** No commit of the key at or below the version carries a higher one. */
  predicate NewestUpTo(commits: seq<T.Write>, i: nat, version: int)
    requires i < |commits|
  {
    && commits[i].event.version <= version
    && forall j :: 0 <= j < |commits| && commits[j].event.key == commits[i].event.key ==>
         commits[j].event.version <= commits[i].event.version || commits[j].event.version > version
  }

  /**
   * What the table said after the first `from` commits is the last word of the version: a flag the table had and
   * nothing real had followed; or a deletion, where the table had no flag of the key.
   */
  predicate SettledIn(commits: seq<T.Write>, from: nat, i: nat)
    requires from <= |commits| && i < |commits|
  {
    var past := commits[..from];
    if commits[i].event.change.Deleted? then
      forall j :: 0 <= j < from && T.LastHit(past, j) && past[j].event.key == commits[i].event.key ==>
        past[j].event.change.Deleted?
    else i < from && T.LastHit(past, i)
  }

  /** The snapshot agrees with every key's newest commit up to its version. */
  predicate Whole(commits: seq<T.Write>, n: Snapshot) {
    && n.listing.from <= |commits|
    && forall i :: 0 <= i < |commits| && NewestUpTo(commits, i, n.version) ==> SettledIn(commits, n.listing.from, i)
  }

  lemma {:induction false} HasNewestUpTo(commits: seq<T.Write>, n: nat, key: string, version: int) returns (i: nat)
    requires n <= |commits|
    requires exists j :: 0 <= j < n && commits[j].event.key == key && commits[j].event.version <= version
    ensures i < n && commits[i].event.key == key && commits[i].event.version <= version
    ensures forall j :: 0 <= j < n && commits[j].event.key == key && commits[j].event.version <= version ==>
              commits[j].event.version <= commits[i].event.version
  {
    if exists j :: 0 <= j < n - 1 && commits[j].event.key == key && commits[j].event.version <= version {
      i := HasNewestUpTo(commits, n - 1, key, version);
      var e := commits[n - 1].event;
      if e.key == key && commits[i].event.version < e.version <= version { i := n - 1; }
    } else {
      i := n - 1;
    }
  }

  lemma NewestDecidesUpTo(log: seq<Event>, commits: seq<T.Write>, i: nat, version: int)
    requires T.VersionOrder(log, commits) && i < |commits| && NewestUpTo(commits, i, version)
    ensures ReadsAs(StateAt(log, version), commits[i].event)
  {
    var e, n := commits[i].event, CountUpTo(log, version);
    var k :| 0 <= k < |log| && log[k] == e;
    SeenIff(log, k, version);
    forall j | k < j < n ensures log[j].key != e.key {
      SeenIff(log, j, version);
      SamePlace(log, k, j);
      var m :| 0 <= m < |commits| && commits[m].event == log[j];
    }
    LastEventDecides(log, n, k);
  }

  lemma SettledIffSame(commits: seq<T.Write>, from: nat, log: seq<Event>, version: int, i: nat)
    requires T.VersionOrder(log, commits) && from <= |commits| && i < |commits| && NewestUpTo(commits, i, version)
    requires DistinctVersions(commits) && forall j :: 0 <= j < |commits| ==> T.WriteOk(commits[j])
    ensures SameAt(T.RealReplay(commits[..from], from), StateAt(log, version), commits[i].event.key) <==>
            SettledIn(commits, from, i)
  {
    hide StateAt, T.RealReplay;
    var past, e := commits[..from], commits[i].event;
    var truth := T.RealReplay(past, from);
    NewestDecidesUpTo(log, commits, i, version);
    assert T.WriteOk(commits[i]);
    if e.change.Deleted? {
      T.GoneIff(past, e.key);
    } else {
      if SettledIn(commits, from, i) { T.RealLast(past, from, i); }
      if e.key in truth {
        var j := T.RealWriter(past, from, e.key);
        assert past[j] == commits[j] && T.WriteOk(commits[j]);
        if truth[e.key] == e.change.flag { assert j == i; }
      }
    }
  }

  lemma UnnamedKey(commits: seq<T.Write>, from: nat, log: seq<Event>, version: int, k: string)
    requires T.VersionOrder(log, commits) && from <= |commits|
    requires forall i :: 0 <= i < from ==> commits[i].event.version <= version
    requires k in T.RealReplay(commits[..from], from) || k in StateAt(log, version)
    ensures exists j :: 0 <= j < |commits| && commits[j].event.key == k && commits[j].event.version <= version
  {
    if k in T.RealReplay(commits[..from], from) {
      var i := T.RealWriter(commits[..from], from, k);
      assert commits[..from][i] == commits[i];
    } else {
      var p := LastWriter(log, CountUpTo(log, version), k);
      SeenIff(log, p, version);
      var j :| 0 <= j < |commits| && commits[j].event == log[p];
    }
  }

  /** A snapshot, whenever it is installed and whatever has committed since, is in step exactly if it is whole. */
  lemma BootReplaysIff(commits: seq<T.Write>, log: seq<Event>, n: Snapshot)
    requires T.VersionOrder(log, commits) && SnapshotOk(commits, log, n)
    requires DistinctVersions(commits) && forall j :: 0 <= j < |commits| ==> T.WriteOk(commits[j])
    ensures InStep(log, View(FlagsOf(n.listing.flags), n.version)) <==> Whole(commits, n)
  {
    hide StateAt, T.RealReplay, T.VersionOrder, NewestUpTo, SettledIn;
    var from := n.listing.from;
    var made, truth := T.RealReplay(commits[..from], from), StateAt(log, n.version);
    SameEverywhere(made, truth);
    if made == truth {
      forall i | 0 <= i < |commits| && NewestUpTo(commits, i, n.version) ensures SettledIn(commits, from, i) {
        SettledIffSame(commits, from, log, n.version, i);
      }
    }
    if Whole(commits, n) {
      forall k | k in made || k in truth ensures SameAt(made, truth, k) {
        UnnamedKey(commits, from, log, n.version, k);
        var i := HasNewestUpTo(commits, |commits|, k, n.version);
        IsNewest(commits, i, k, n.version);
        SettledIffSame(commits, from, log, n.version, i);
      }
    }
  }

  lemma IsNewest(commits: seq<T.Write>, i: nat, k: string, version: int)
    requires i < |commits| && commits[i].event.key == k && commits[i].event.version <= version
    requires forall j :: 0 <= j < |commits| && commits[j].event.key == k && commits[j].event.version <= version ==>
               commits[j].event.version <= commits[i].event.version
    ensures NewestUpTo(commits, i, version)
  {
  }

  // The replay invariant.

  /** The client, if it is there, holds exactly the replay of the log up to its own version. */
  predicate Replays(s: System, c: int) { c in s.clients ==> InStep(s.log, s.clients[c].view) }

  /** Some event of the key lies above the version, still at or below the other. */
  predicate OvertakenIn(log: seq<Event>, e: Event, version: int) {
    exists k :: 0 <= k < |log| && log[k].key == e.key && e.version < log[k].version <= version
  }

  /** Whatever the page takes the client past without serving it is written again below, or deletes what it lacks. */
  predicate Harmless(log: seq<Event>, version: int, page: seq<Event>, w: View) {
    forall k :: 0 <= k < |log| && version < log[k].version <= w.version && log[k] !in page ==>
      OvertakenIn(log, log[k], w.version) || NoEffect(log[k], w)
  }

  /**
   * What may happen to the client: no commit slips in at or below its version, unless overtaken or without effect; no
   * page skips what matters; no snapshot is torn.
   */
  predicate Sound(s: System, step: Step, c: int) {
    c in s.clients ==>
      match step
      case Database(Commit(t)) =>
        t in s.db.txs && s.db.txs[t].Written? ==>
          var e, v := s.db.txs[t].write.event, s.clients[c].view;
          e.version > v.version || OvertakenIn(s.log, e, v.version) || NoEffect(e, v)
      case ApplyAnswer(a) =>
        a.client == c ==>
          var v := s.clients[c].view; Harmless(s.log, v.version, a.page, ApplyPage(s.clients[c].kind, v, a.page))
      case Boot(snap) => snap.listing.client == c ==> Whole(s.db.commits, snap)
      case _ => true
  }

  lemma OvertakenIffWritten(log: seq<Event>, k: nat, version: int)
    requires Ordered(log) && k < CountUpTo(log, version)
    ensures OvertakenIn(log, log[k], version) <==> WrittenIn(log, k + 1, CountUpTo(log, version), log[k].key)
  {
    var m := CountUpTo(log, version);
    if OvertakenIn(log, log[k], version) {
      var p :| 0 <= p < |log| && log[p].key == log[k].key && log[k].version < log[p].version <= version;
      SeenIff(log, p, version);
      SamePlace(log, k, p);
    }
    if WrittenIn(log, k + 1, m, log[k].key) {
      var p :| k + 1 <= p < m && log[p].key == log[k].key;
      SeenIff(log, p, version);
      SamePlace(log, k, p);
    }
  }

  lemma PageReplaysIff(kind: Kind, log: seq<Event>, v: View, page: seq<Event>)
    requires GoodLog(log) && InStep(log, v) && PageOk(log, page)
    ensures var w := ApplyPage(kind, v, page); InStep(log, w) <==> Harmless(log, v.version, page, w)
  {
    hide InStep, NoEffect, OvertakenIn, ApplyPage;
    var w := ApplyPage(kind, v, page);
    InStepIffNothingMissed(kind, log, log, v, page);
    var m := CountUpTo(log, w.version);
    if NothingMissed(log, log, v.version, page, w) {
      forall k | 0 <= k < |log| && v.version < log[k].version <= w.version && log[k] !in page
        ensures OvertakenIn(log, log[k], w.version) || NoEffect(log[k], w) {
        SeenIff(log, k, w.version);
        OvertakenIffWritten(log, k, w.version);
      }
    }
    if Harmless(log, v.version, page, w) {
      forall k | 0 <= k < m && !Seen(log, v.version, page, log[k])
        ensures WrittenIn(log, k + 1, m, log[k].key) || NoEffect(log[k], w) {
        SeenIff(log, k, w.version);
        OvertakenIffWritten(log, k, w.version);
      }
    }
  }

  /** One more event in the log: the client is in step with it exactly if the event does not matter to it. */
  lemma InsertReplaysIff(log: seq<Event>, e: Event, later: seq<Event>, v: View)
    requires Ordered(log) && GoodLog(later) && Within(log, later) && InStep(log, v) && e !in log
    requires forall x :: x in later <==> x in log || x == e
    ensures InStep(later, v) <==> e.version > v.version || OvertakenIn(log, e, v.version) || NoEffect(e, v)
  {
    hide InStep, NoEffect;
    StaysInStepIff(log, later, v);
    var m := CountUpTo(later, v.version);
    assert e in later;
    var p :| 0 <= p < |later| && later[p] == e;
    SeenIff(later, p, v.version);
    OvertakenEither(log, e, later, v.version);
    if p < m { OvertakenIffWritten(later, p, v.version); }
    forall k | 0 <= k < m && !Seen(log, v.version, [], later[k]) ensures k == p {
      SeenIff(later, k, v.version);
      assert later[k] in later;
      SamePlace(later, k, p);
    }
  }

  lemma OvertakenEither(log: seq<Event>, e: Event, later: seq<Event>, version: int)
    requires forall x :: x in later <==> x in log || x == e
    ensures OvertakenIn(log, e, version) <==> OvertakenIn(later, e, version)
  {
    if OvertakenIn(log, e, version) {
      var k :| 0 <= k < |log| && log[k].key == e.key && e.version < log[k].version <= version;
      assert log[k] in later;
      var p :| 0 <= p < |later| && later[p] == log[k];
    }
    if OvertakenIn(later, e, version) {
      var p :| 0 <= p < |later| && later[p].key == e.key && e.version < later[p].version <= version;
      assert later[p] in log;
      var k :| 0 <= k < |log| && log[k] == later[p];
    }
  }

  lemma CommitReplaysIff(s: System, t: int, c: int)
    requires Inv(s) && Enabled(s, Database(T.Commit(t))) && Replays(s, c)
    ensures Replays(After(s, Database(T.Commit(t))), c) <==> Sound(s, Database(T.Commit(t)), c)
  {
    if c in s.clients {
      var e, u := s.db.txs[t].write.event, After(s, Database(T.Commit(t)));
      CommitKeepsLog(s, t);
      CommitFacts(s.db, t);
      InsertReplaysIff(s.log, e, u.log, s.clients[c].view);
    }
  }

  lemma CommitsAreOk(db: T.Db)
    requires DbInv(db)
    ensures DistinctVersions(db.commits) && forall j :: 0 <= j < |db.commits| ==> T.WriteOk(db.commits[j])
  {
    forall j | 0 <= j < |db.commits| ensures T.WriteOk(db.commits[j]) { assert T.Chained(map[], db.commits, j); }
  }

  /** From a state where the client replays the log, the step leads to another one exactly when it is sound. */
  lemma StepReplaysIff(s: System, step: Step, c: int)
    requires Inv(s) && Enabled(s, step) && Replays(s, c)
    ensures Replays(After(s, step), c) <==> Sound(s, step, c)
  {
    hide InStep, Whole, Harmless, DbInv, ApplyPage, ApplyLive, T.VersionOrder, SnapshotOk, PageOk, OvertakenIn;
    match step
    case Database(d) => if d.Commit? { CommitReplaysIff(s, d.t, c); }
    case Join(d, _) => EmptyClientInStep(s.log);
    case Boot(snap) =>
      CommitsAreOk(s.db);
      BootReplaysIff(s.db.commits, s.log, snap);
    case ApplyAnswer(a) =>
      if a.client == c { PageReplaysIff(s.clients[c].kind, s.log, s.clients[c].view, a.page); }
    case Deliver(d, f) =>
      PublishedAgrees(s, f);
      if d == c { LiveFrameKeepsStep(s.clients[c].kind, s.log, s.clients[c].view, f); }
    case _ =>
  }

  predicate SoundUpTo(states: seq<System>, steps: seq<Step>, n: nat, c: int)
    requires n <= |steps| < |states|
  {
    forall i :: 0 <= i < n ==> Sound(states[i], steps[i], c)
  }

  lemma {:induction false} SoundRunReplays(states: seq<System>, steps: seq<Step>, i: nat, c: int)
    requires Run(states, steps) && i < |states| && SoundUpTo(states, steps, i, c)
    ensures Replays(states[i], c)
  {
    if i > 0 {
      SoundRunReplays(states, steps, i - 1, c);
      RunKeepsInv(states, steps, i - 1);
      assert states[i] == After(states[i - 1], steps[i - 1]);
      StepReplaysIff(states[i - 1], steps[i - 1], c);
    }
  }

  /**
   * The replay invariant without any hypothesis on commit order: through any run a client holds the replay of the log
   * up to its version in every state exactly when every commit, page and snapshot was sound for it.
   */
  lemma ReplayInvariant(states: seq<System>, steps: seq<Step>, c: int)
    requires Run(states, steps)
    ensures (forall i :: 0 <= i < |states| ==> Replays(states[i], c)) <==> SoundUpTo(states, steps, |steps|, c)
  {
    if SoundUpTo(states, steps, |steps|, c) {
      forall i | 0 <= i < |states| ensures Replays(states[i], c) { SoundRunReplays(states, steps, i, c); }
    }
    if forall i :: 0 <= i < |states| ==> Replays(states[i], c) {
      forall i | 0 <= i < |steps| ensures Sound(states[i], steps[i], c) {
        RunKeepsInv(states, steps, i);
        assert Replays(states[i], c) && Replays(states[i + 1], c) && states[i + 1] == After(states[i], steps[i]);
        StepReplaysIff(states[i], steps[i], c);
      }
    }
  }
}
