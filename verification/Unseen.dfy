/**
 * What a client misses when it passes versions it was never served: exactly when a client, fed with one page after
 * another, reads like a log that has grown in the middle.
 */
module Unseen {
  import opened FlagModel
  import opened EventLog
  import opened Repository
  import opened Sdk
  import opened Snapshots

  /** The later log holds everything the earlier one does, wherever its versions put it. */
  predicate Within(log: seq<Event>, later: seq<Event>) {
    forall k :: 0 <= k < |log| ==> log[k] in later
  }

  /** The event came to the client: in the log it was in step with, or in the page and not skipped as old. */
  predicate Seen(log: seq<Event>, version: int, page: seq<Event>, e: Event) {
    (e in log && e.version <= version) || (e in page && e.version > version)
  }

  predicate NoEffect(e: Event, v: View) { e.change.Deleted? && e.key !in v.flags }

  /** Whatever the client has passed unseen is written again at or below its version, or deletes what it lacks. */
  predicate NothingMissed(log: seq<Event>, later: seq<Event>, version: int, page: seq<Event>, w: View) {
    var m := CountUpTo(later, w.version);
    forall k :: 0 <= k < m && !Seen(log, version, page, later[k]) ==>
      WrittenIn(later, k + 1, m, later[k].key) || NoEffect(later[k], w)
  }

  /** A client in step with a log, a later log, and a page read from anywhere within it. */
  ghost predicate Fed(log: seq<Event>, later: seq<Event>, v: View, page: seq<Event>) {
    && Ordered(log) && GoodLog(later) && Within(log, later) && InStep(log, v)
    && Ordered(page) && Within(page, later)
  }

  predicate ReadsAs(flags: Flags, e: Event) {
    && (e.key in flags <==> !e.change.Deleted?)
    && (!e.change.Deleted? ==> flags[e.key] == e.change.flag)
  }

  lemma {:induction false} LastTouch(log: seq<Event>, m: nat, k: string) returns (p: nat)
    requires m <= |log| && WrittenIn(log, 0, m, k)
    ensures p < m && log[p].key == k && forall j :: p < j < m ==> log[j].key != k
  {
    if log[m - 1].key == k {
      p := m - 1;
    } else {
      assert WrittenIn(log, 0, m - 1, k);
      p := LastTouch(log, m - 1, k);
    }
  }

  lemma PlaceOf(log: seq<Event>, later: seq<Event>, e: Event, version: int) returns (p: nat)
    requires Ordered(later) && Within(log, later) && e in log && e.version <= version
    ensures p < CountUpTo(later, version) && later[p] == e
  {
    var q :| 0 <= q < |log| && log[q] == e;
    assert log[q] in later;
    p :| 0 <= p < |later| && later[p] == e;
    SeenIff(later, p, version);
  }

  lemma SamePlace(log: seq<Event>, p: nat, q: nat)
    requires Ordered(log) && p < |log| && q < |log|
    ensures log[p].version == log[q].version ==> p == q
    ensures log[p].version < log[q].version <==> p < q
  {
    OrderedPairs(log, |log|);
  }

  lemma FromGood(log: seq<Event>, later: seq<Event>)
    requires GoodLog(later) && Within(log, later)
    ensures forall k :: 0 <= k < |log| ==> WellFormed(log[k])
  {
    forall k | 0 <= k < |log| ensures WellFormed(log[k]) { assert log[k] in later; }
  }

  /** A key reads as the last event of the page that was not skipped, or as before if there is none. */
  lemma {:induction false} PageDecides(kind: Kind, v: View, page: seq<Event>, n: nat, k: string) returns (q: int)
    requires v.version >= 0 && n <= |page| && OrderedTo(page, n)
    requires forall i :: 0 <= i < |page| ==> WellFormed(page[i])
    ensures ApplyFirst(kind, v, page, n).version == Max(v.version, VersionBefore(page, n))
    ensures -1 <= q < n
    ensures q >= 0 ==> page[q].key == k && page[q].version > v.version
                       && ReadsAs(ApplyFirst(kind, v, page, n).flags, page[q])
    ensures q < 0 ==> SameAt(ApplyFirst(kind, v, page, n).flags, v.flags, k)
    ensures forall j :: q < j < n && page[j].version > v.version ==> page[j].key != k
  {
    if n == 0 {
      q := -1;
    } else {
      q := PageDecides(kind, v, page, n - 1, k);
      if page[n - 1].version > v.version && page[n - 1].key == k { q := n - 1; }
    }
  }

  lemma PageInRange(kind: Kind, log: seq<Event>, later: seq<Event>, v: View, page: seq<Event>)
    requires Fed(log, later, v, page)
    ensures ApplyPage(kind, v, page).version == Max(v.version, MaxVersion(page))
    ensures 0 <= v.version <= ApplyPage(kind, v, page).version <= MaxVersion(later)
  {
    FromGood(page, later);
    var q := PageDecides(kind, v, page, |page|, "");
    RangeWithin(log, later);
    RangeWithin(page, later);
  }

  lemma RangeWithin(log: seq<Event>, later: seq<Event>)
    requires Ordered(later) && Within(log, later)
    ensures MaxVersion(log) <= MaxVersion(later)
  {
    OrderedPairs(later, |later|);
    if log != [] {
      assert log[|log| - 1] in later;
      var p :| 0 <= p < |later| && later[p] == log[|log| - 1];
      CountAt(later, p);
    }
  }

  /** If the page wrote the key, the client reads like the log exactly if that was the last word, or deleted nothing. */
  lemma PageWordIff(kind: Kind, log: seq<Event>, later: seq<Event>, v: View, page: seq<Event>, p: nat, q: nat)
    requires Fed(log, later, v, page) && q < |page| && page[q].version > v.version
    requires var w := ApplyPage(kind, v, page);
      && p < CountUpTo(later, w.version) && page[q].key == later[p].key && page[q].version <= w.version
      && ReadsAs(w.flags, page[q])
    requires forall j :: p < j < CountUpTo(later, ApplyPage(kind, v, page).version) ==> later[j].key != later[p].key
    requires forall j :: q < j < |page| && page[j].version > v.version ==> page[j].key != page[q].key
    ensures var w := ApplyPage(kind, v, page);
      ReadsAs(w.flags, later[p]) <==> Seen(log, v.version, page, later[p]) || NoEffect(later[p], w)
  {
    hide ApplyPage, InStep, ReplayTo;
    var w := ApplyPage(kind, v, page);
    var r := PlaceOf(page, later, page[q], w.version);
    SamePlace(later, r, p);
    assert WellFormed(later[p]) && WellFormed(later[r]);
    if Seen(log, v.version, page, later[p]) && later[p] in page {
      var j :| 0 <= j < |page| && page[j] == later[p];
      if j != q { SamePlace(page, j, q); }
    }
  }

  /** If it did not, the same goes for what the client had before. */
  lemma OldWordIff(log: seq<Event>, later: seq<Event>, v: View, page: seq<Event>, version: int, p: nat)
    requires Fed(log, later, v, page) && v.version <= version && p < CountUpTo(later, version)
    requires forall j :: p < j < CountUpTo(later, version) ==> later[j].key != later[p].key
    requires later[p] !in page || later[p].version <= v.version
    ensures var e := later[p];
      ReadsAs(v.flags, e) <==> (e in log && e.version <= v.version) || (e.change.Deleted? && e.key !in v.flags)
  {
    var n, e := CountUpTo(log, v.version), later[p];
    FromGood(log, later);
    if e in log && e.version <= v.version {
      var q :| 0 <= q < |log| && log[q] == e;
      SeenIff(log, q, v.version);
      forall i | q < i < n ensures log[i].key != log[q].key { LaterElsewhere(log, later, v.version, version, p, q, i); }
      LastEventDecides(log, n, q);
    } else if !e.change.Deleted? && e.key in v.flags {
      var q := LastWriter(log, n, e.key);
      SeenIff(log, q, v.version);
      var r := PlaceOf(log, later, log[q], v.version);
      SamePlace(later, r, p);
      assert WellFormed(log[q]) && WellFormed(e);
    }
  }

  lemma LaterElsewhere(log: seq<Event>, later: seq<Event>, below: int, version: int, p: nat, q: nat, i: nat)
    requires Ordered(log) && Ordered(later) && Within(log, later) && below <= version
    requires p < CountUpTo(later, version)
    requires forall j :: p < j < CountUpTo(later, version) ==> later[j].key != later[p].key
    requires q < i < CountUpTo(log, below) && log[q] == later[p]
    ensures log[i].key != log[q].key
  {
    SeenIff(log, i, below);
    SamePlace(log, q, i);
    var r := PlaceOf(log, later, log[i], version);
    SamePlace(later, p, r);
  }

  lemma LastWordIff(kind: Kind, log: seq<Event>, later: seq<Event>, v: View, page: seq<Event>, p: nat)
    requires Fed(log, later, v, page)
    requires var m := CountUpTo(later, ApplyPage(kind, v, page).version);
      p < m && forall j :: p < j < m ==> later[j].key != later[p].key
    ensures var w := ApplyPage(kind, v, page);
      SameAt(w.flags, StateAt(later, w.version), later[p].key) <==>
      Seen(log, v.version, page, later[p]) || NoEffect(later[p], w)
  {
    hide InStep, Within;
    var w, k := ApplyPage(kind, v, page), later[p].key;
    LastEventDecides(later, CountUpTo(later, w.version), p);
    PageInRange(kind, log, later, v, page);
    FromGood(page, later);
    var q := PageDecides(kind, v, page, |page|, k);
    if q >= 0 {
      SeenIff(page, q, w.version);
      CountAt(page, q);
      PageWordIff(kind, log, later, v, page, p, q);
    } else {
      OldWordIff(log, later, v, page, w.version, p);
    }
  }

  lemma NoWordAtAll(kind: Kind, log: seq<Event>, later: seq<Event>, v: View, page: seq<Event>, k: string)
    requires Fed(log, later, v, page)
    requires !WrittenIn(later, 0, CountUpTo(later, ApplyPage(kind, v, page).version), k)
    ensures var w := ApplyPage(kind, v, page); k !in w.flags && k !in StateAt(later, w.version)
  {
    var w := ApplyPage(kind, v, page);
    PageInRange(kind, log, later, v, page);
    FromGood(page, later);
    var q := PageDecides(kind, v, page, |page|, k);
    if q >= 0 {
      CountAt(page, q);
      var p := PlaceOf(page, later, page[q], w.version);
    } else if k in v.flags {
      var i := LastWriter(log, CountUpTo(log, v.version), k);
      SeenIff(log, i, v.version);
      var p := PlaceOf(log, later, log[i], w.version);
    }
    if k in StateAt(later, w.version) { var p := LastWriter(later, CountUpTo(later, w.version), k); }
  }

  /**
   * A client in step with one log applies a page while the log has become another one: it is in step with that one
   * exactly when it has missed nothing.
   */
  lemma InStepIffNothingMissed(kind: Kind, log: seq<Event>, later: seq<Event>, v: View, page: seq<Event>)
    requires Fed(log, later, v, page)
    ensures var w := ApplyPage(kind, v, page);
      InStep(later, w) <==> NothingMissed(log, later, v.version, page, w)
  {
    hide StateAt, ApplyPage, Fed, Seen, NoEffect;
    var w := ApplyPage(kind, v, page);
    var m, truth := CountUpTo(later, w.version), StateAt(later, w.version);
    PageInRange(kind, log, later, v, page);
    SameEverywhere(w.flags, truth);
    if w.flags == truth {
      forall k | 0 <= k < m && !Seen(log, v.version, page, later[k])
        ensures WrittenIn(later, k + 1, m, later[k].key) || NoEffect(later[k], w) {
        if !WrittenIn(later, k + 1, m, later[k].key) { LastWordIff(kind, log, later, v, page, k); }
      }
    }
    if NothingMissed(log, later, v.version, page, w) {
      forall k | k in w.flags || k in truth ensures SameAt(w.flags, truth, k) {
        if WrittenIn(later, 0, m, k) {
          var p := LastTouch(later, m, k);
          LastWordIff(kind, log, later, v, page, p);
        } else {
          NoWordAtAll(kind, log, later, v, page, k);
        }
      }
    }
  }

  /** Without a page: a client in step with one log is in step with a fuller one exactly when it has missed nothing. */
  lemma StaysInStepIff(log: seq<Event>, later: seq<Event>, v: View)
    requires Ordered(log) && GoodLog(later) && Within(log, later) && InStep(log, v)
    ensures InStep(later, v) <==> NothingMissed(log, later, v.version, [], v)
  {
    InStepIffNothingMissed(Go, log, later, v, []);
  }
}
