/** Snapshots that do not fit what follows them: a table read before its version, a page asked for before a snapshot. */
module Snapshots {
  import opened FlagModel
  import opened EventLog
  import opened Repository
  import opened FlagService
  import opened Sdk

  /** The two maps say the same about a key. */
  predicate SameAt(x: Flags, y: Flags, k: string) {
    (k in x <==> k in y) && (k in x ==> x[k] == y[k])
  }

  lemma SameEverywhere(x: Flags, y: Flags)
    ensures x == y <==> forall k :: k in x || k in y ==> SameAt(x, y, k)
  {
    if forall k :: k in x || k in y ==> SameAt(x, y, k) {
      forall k | k in x ensures k in y && x[k] == y[k] { assert SameAt(x, y, k); }
      forall k | k in y ensures k in x { assert SameAt(x, y, k); }
    }
  }

  predicate WrittenIn(log: seq<Event>, m: nat, n: nat, k: string)
    requires m <= n <= |log|
  {
    exists i :: m <= i < n && log[i].key == k
  }

  lemma {:induction false} Untouched(log: seq<Event>, m: nat, n: nat, k: string)
    requires m <= n <= |log| && !WrittenIn(log, m, n, k)
    ensures SameAt(ReplayTo(log, m), ReplayTo(log, n), k)
    decreases n
  {
    if m < n {
      assert log[n - 1].key != k;
      assert forall i :: m <= i < n - 1 ==> log[i].key != k;
      Untouched(log, m, n - 1, k);
    }
  }

  /** A key that is written between two moments reads the same at both exactly if it is absent at both. */
  lemma TouchedDiffers(log: seq<Event>, m: nat, n: nat, i: nat)
    requires GoodLog(log) && m <= i < n <= |log|
    ensures var k := log[i].key;
      SameAt(ReplayTo(log, m), ReplayTo(log, n), k) <==> k !in ReplayTo(log, m) && k !in ReplayTo(log, n)
  {
    var k := log[i].key;
    if k in ReplayTo(log, m) && k in ReplayTo(log, n) {
      var last := LastWriter(log, n, k);
      var first := LastWriter(log, m, k);
      assert WellFormed(log[last]) && WellFormed(log[first]);
      OrderedPairs(log, |log|);
      assert log[first].version < log[last].version;
    }
  }

  /** Every key written between the two moments is absent at both. */
  predicate NothingLeft(log: seq<Event>, m: nat, n: nat)
    requires m <= n <= |log|
  {
    forall i :: m <= i < n ==> log[i].key !in ReplayTo(log, m) && log[i].key !in ReplayTo(log, n)
  }

  lemma ReplaysEqualIff(log: seq<Event>, m: nat, n: nat)
    requires GoodLog(log) && m <= n <= |log|
    ensures ReplayTo(log, m) == ReplayTo(log, n) <==> NothingLeft(log, m, n)
  {
    hide ReplayTo;
    var first, last := ReplayTo(log, m), ReplayTo(log, n);
    SameEverywhere(first, last);
    if first == last {
      forall i | m <= i < n ensures log[i].key !in first && log[i].key !in last { TouchedDiffers(log, m, n, i); }
    }
    if NothingLeft(log, m, n) {
      forall k | k in first || k in last ensures SameAt(first, last, k) { Untouched(log, m, n, k); }
    }
  }

  /**
   * The snapshot endpoint reads the table and then the version. With commits in between, the answer is a true
   * snapshot exactly when every key they touched is absent both before and after.
   */
  lemma TwoReadSnapshot(before: Store, after: Store, list: seq<Flag>)
    requires StoreInv(before) && StoreInv(after) && Extends(after.log, before.log) && Lists(before.rows, list)
    ensures InStep(after.log, View(FlagsOf(list), MaxVersion(after.log))) <==>
            forall i :: |before.log| <= i < |after.log| ==>
              after.log[i].key !in Replay(before.log) && after.log[i].key !in Replay(after.log)
  {
    var log, m := after.log, |before.log|;
    SnapshotIsReplay(before, list);
    StateAtMax(log);
    OrderedPairs(log, |log|);
    PrefixAgrees(before.log, log, m, 0);
    ReplaysEqualIff(log, m, |log|);
  }

  // A page meets a client that has since gone back.

  /** Every key written in [m, a) is written again in the next n events, or absent on both sides of that gap. */
  predicate GapHarmless(log: seq<Event>, m: nat, a: nat, n: nat)
    requires a + n <= |log|
  {
    forall i :: m <= i < a ==>
      WrittenIn(log, a, a + n, log[i].key) || (log[i].key !in ReplayTo(log, m) && log[i].key !in ReplayTo(log, a))
  }

  /** What lies between the client and the page does not matter, or is nothing. */
  predicate Harmless(log: seq<Event>, version: int, since: int, page: seq<Event>) {
    var m, a := CountUpTo(log, version), CountUpTo(log, since);
    page == [] || (a + |page| <= |log| && GapHarmless(log, m, a, |page|))
  }

  lemma PageIsNew(kind: Kind, log: seq<Event>, v: View, page: seq<Event>, a: nat, n: nat)
    requires GoodLog(log) && CountUpTo(log, v.version) <= a && a + |page| <= |log| && page == log[a..a + |page|]
    requires n < |page|
    requires ApplyFirst(kind, v, page, n).version == if n == 0 then v.version else log[a + n - 1].version
    ensures page[n] == log[a + n] && log[a + n].version > ApplyFirst(kind, v, page, n).version
    ensures ApplyFirst(kind, v, page, n + 1).flags == Effect(ApplyFirst(kind, v, page, n).flags, log[a + n])
    ensures ApplyFirst(kind, v, page, n + 1).version == log[a + n].version
  {
    SeenIff(log, a + n, v.version);
    OrderedPairs(log, |log|);
    assert WellFormed(log[a + n]);
  }

  /** After n events of the page a key they wrote is right; any other reads as the client had it. */
  lemma {:induction false} PageOverlays(kind: Kind, log: seq<Event>, v: View, page: seq<Event>, a: nat, n: nat,
                                       k: string)
    requires GoodLog(log) && InStep(log, v) && CountUpTo(log, v.version) <= a
    requires a + |page| <= |log| && page == log[a..a + |page|] && n <= |page|
    ensures ApplyFirst(kind, v, page, n).version == if n == 0 then v.version else log[a + n - 1].version
    ensures var made := ApplyFirst(kind, v, page, n).flags;
      if WrittenIn(log, a, a + n, k) then SameAt(made, ReplayTo(log, a + n), k)
      else SameAt(made, v.flags, k) && SameAt(ReplayTo(log, a), ReplayTo(log, a + n), k)
  {
    if n > 0 {
      PageOverlays(kind, log, v, page, a, n - 1, k);
      PageIsNew(kind, log, v, page, a, n - 1);
      var e := log[a + n - 1];
      assert ReplayTo(log, a + n) == Effect(ReplayTo(log, a + (n - 1)), e);
      assert WrittenIn(log, a, a + n, k) <==> e.key == k || WrittenIn(log, a, a + (n - 1), k);
    }
  }

  lemma AheadPage(kind: Kind, log: seq<Event>, v: View, since: int, page: seq<Event>)
    requires GoodLog(log) && InStep(log, v) && SegmentAfter(log, since, page) && page != []
    requires CountUpTo(log, v.version) < CountUpTo(log, since)
    ensures InStep(log, ApplyPage(kind, v, page)) <==> Harmless(log, v.version, since, page)
  {
    hide ReplayTo;
    var m, a, n := CountUpTo(log, v.version), CountUpTo(log, since), |page|;
    var made, truth := ApplyPage(kind, v, page).flags, ReplayTo(log, a + n);
    PageOverlays(kind, log, v, page, a, n, "");
    CountAt(log, a + n - 1);
    SameEverywhere(made, truth);
    forall k ensures if WrittenIn(log, a, a + n, k) then SameAt(made, truth, k)
                     else SameAt(made, truth, k) == SameAt(v.flags, ReplayTo(log, a), k) {
      PageOverlays(kind, log, v, page, a, n, k);
    }
    if made == truth {
      forall i | m <= i < a && !WrittenIn(log, a, a + n, log[i].key)
        ensures log[i].key !in ReplayTo(log, m) && log[i].key !in ReplayTo(log, a) {
        assert SameAt(made, truth, log[i].key);
        TouchedDiffers(log, m, a, i);
      }
    }
    if Harmless(log, v.version, since, page) {
      forall k | k in made || k in truth ensures SameAt(made, truth, k) {
        if !WrittenIn(log, a, a + n, k) { GapReadsTheSame(log, m, a, n, k); }
      }
    }
  }

  lemma GapReadsTheSame(log: seq<Event>, m: nat, a: nat, n: nat, k: string)
    requires m <= a && a + n <= |log| && !WrittenIn(log, a, a + n, k) && GapHarmless(log, m, a, n)
    ensures SameAt(ReplayTo(log, m), ReplayTo(log, a), k)
  {
    if !WrittenIn(log, m, a, k) { Untouched(log, m, a, k); }
  }

  /**
   * A page applied to any client in step, ahead of it or behind: the client is in step afterwards exactly when what
   * lies between the two does not matter.
   */
  lemma PageKeepsStepIff(kind: Kind, log: seq<Event>, v: View, since: int, page: seq<Event>)
    requires GoodLog(log) && InStep(log, v) && SegmentAfter(log, since, page)
    ensures InStep(log, ApplyPage(kind, v, page)) <==> Harmless(log, v.version, since, page)
  {
    if page != [] {
      if CountUpTo(log, v.version) < CountUpTo(log, since) {
        AheadPage(kind, log, v, since, page);
      } else {
        if since > v.version { CountMonotone(log, v.version, since); }
        StalePage(kind, log, v, if since > v.version then v.version else since, page);
      }
    }
  }

  /** Whatever it finds, a page of the log never takes a client's version out of the log's range or back. */
  lemma {:induction false} PageKeepsRange(kind: Kind, log: seq<Event>, v: View, page: seq<Event>, a: nat, n: nat)
    requires GoodLog(log) && 0 <= v.version <= MaxVersion(log)
    requires a + |page| <= |log| && page == log[a..a + |page|] && n <= |page|
    ensures v.version <= ApplyFirst(kind, v, page, n).version <= MaxVersion(log)
  {
    if n > 0 {
      PageKeepsRange(kind, log, v, page, a, n - 1);
      assert page[n - 1] == log[a + n - 1];
      CountAt(log, a + n - 1);
    }
  }
}
