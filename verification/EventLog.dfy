/** The durable event log and its replay: the reference meaning every other part is compared with. */
module EventLog {
  import opened FlagModel

  /** What one event does to a flag map. */
  function Effect(flags: Flags, e: Event): Flags {
    if e.change.Deleted? then flags - {e.key} else flags[e.key := e.change.flag]
  }

  /** The flags after the first n events. */
  function ReplayTo(log: seq<Event>, n: nat): Flags
    requires n <= |log|
  {
    if n == 0 then map[] else Effect(ReplayTo(log, n - 1), log[n - 1])
  }

  function Replay(log: seq<Event>): Flags { ReplayTo(log, |log|) }

  function VersionBefore(log: seq<Event>, n: nat): int
    requires n <= |log|
  {
    if n == 0 then 0 else log[n - 1].version
  }

  predicate OrderedTo(log: seq<Event>, n: nat)
    requires n <= |log|
  {
    n == 0 || (OrderedTo(log, n - 1) && log[n - 1].version > VersionBefore(log, n - 1))
  }

  /** Versions strictly increase along the log and start at 1. */
  predicate Ordered(log: seq<Event>) { OrderedTo(log, |log|) }

  function CountWithin(log: seq<Event>, v: int, n: nat): (c: nat)
    requires n <= |log|
    ensures c <= n
  {
    if n == 0 then 0 else if log[n - 1].version <= v then n else CountWithin(log, v, n - 1)
  }

  /** The number of events with a version up to v; in an ordered log they are its first events. */
  function CountUpTo(log: seq<Event>, v: int): (n: nat)
    ensures n <= |log|
  {
    CountWithin(log, v, |log|)
  }

  /** The flags as they were at config version v. */
  function StateAt(log: seq<Event>, v: int): Flags {
    ReplayTo(log, CountUpTo(log, v))
  }

  /** The highest committed version, 0 for an empty log. */
  function MaxVersion(log: seq<Event>): int { VersionBefore(log, |log|) }

  /** The events after `since`, oldest first, at most `limit` of them. */
  function PageOf(log: seq<Event>, since: int, limit: nat): seq<Event> {
    var from := CountUpTo(log, since);
    log[from..if from + limit <= |log| then from + limit else |log|]
  }

  /** `events` is a piece of the log that starts right after version `since`. */
  predicate SegmentAfter(log: seq<Event>, since: int, events: seq<Event>) {
    var from := CountUpTo(log, since);
    from + |events| <= |log| && events == log[from..from + |events|]
  }

  predicate Extends(longer: seq<Event>, log: seq<Event>) {
    |log| <= |longer| && longer[..|log|] == log
  }

  lemma {:induction false} OrderedPairs(log: seq<Event>, n: nat)
    requires n <= |log| && OrderedTo(log, n)
    ensures forall i :: 0 <= i < n ==> log[i].version >= 1
    ensures forall i, j :: 0 <= i < j < n ==> log[i].version < log[j].version
  {
    if n > 0 {
      OrderedPairs(log, n - 1);
      if n > 1 { assert log[n - 2].version < log[n - 1].version; }
    }
  }

  lemma {:induction false} CountSplits(log: seq<Event>, v: int, n: nat)
    requires n <= |log| && OrderedTo(log, n)
    ensures forall i :: 0 <= i < CountWithin(log, v, n) ==> log[i].version <= v
    ensures forall i :: CountWithin(log, v, n) <= i < n ==> log[i].version > v
  {
    OrderedPairs(log, n);
    if n > 0 && log[n - 1].version > v { CountSplits(log, v, n - 1); }
  }

  lemma CountIs(log: seq<Event>, v: int, n: nat)
    requires Ordered(log) && n <= |log|
    requires n > 0 ==> log[n - 1].version <= v
    requires n < |log| ==> log[n].version > v
    ensures CountUpTo(log, v) == n
  {
    CountSplits(log, v, |log|);
    OrderedPairs(log, |log|);
  }

  lemma CountAt(log: seq<Event>, i: nat)
    requires Ordered(log) && i < |log|
    ensures CountUpTo(log, log[i].version) == i + 1
    ensures 1 <= log[i].version <= MaxVersion(log)
  {
    OrderedPairs(log, |log|);
    CountIs(log, log[i].version, i + 1);
  }

  /** The event at position i is seen at version v exactly when i is below the count. */
  lemma SeenIff(log: seq<Event>, i: nat, v: int)
    requires Ordered(log) && i < |log|
    ensures log[i].version <= v <==> i < CountUpTo(log, v)
  {
    CountSplits(log, v, |log|);
  }

  /** Between an event and its predecessor lies no other. */
  lemma CountBefore(log: seq<Event>, i: nat)
    requires Ordered(log) && i < |log|
    ensures CountUpTo(log, log[i].version - 1) == i
  {
    OrderedPairs(log, |log|);
    CountIs(log, log[i].version - 1, i);
  }

  lemma CountMonotone(log: seq<Event>, v: int, w: int)
    requires Ordered(log) && v <= w
    ensures CountUpTo(log, v) <= CountUpTo(log, w)
  {
    var c := CountUpTo(log, v);
    if c > 0 {
      SeenIff(log, c - 1, v);
      SeenIff(log, c - 1, w);
    }
  }

  /** Appending events changes nothing about a prefix. */
  lemma {:induction false} PrefixAgrees(log: seq<Event>, longer: seq<Event>, n: nat, v: int)
    requires n <= |log| <= |longer| && longer[..|log|] == log
    ensures OrderedTo(log, n) == OrderedTo(longer, n)
    ensures ReplayTo(log, n) == ReplayTo(longer, n)
    ensures VersionBefore(log, n) == VersionBefore(longer, n)
    ensures CountWithin(log, v, n) == CountWithin(longer, v, n)
  {
    if n > 0 {
      assert log[n - 1] == longer[..|log|][n - 1] == longer[n - 1];
      PrefixAgrees(log, longer, n - 1, v);
    }
  }

  lemma {:induction false} OrderedShorter(log: seq<Event>, m: nat, n: nat)
    requires m <= n <= |log| && OrderedTo(log, n)
    ensures OrderedTo(log, m) && VersionBefore(log, m) <= VersionBefore(log, n)
    decreases n
  {
    if m < n { OrderedShorter(log, m, n - 1); }
  }

  lemma OrderedPrefix(log: seq<Event>, longer: seq<Event>)
    requires Ordered(longer) && Extends(longer, log)
    ensures Ordered(log) && MaxVersion(log) <= MaxVersion(longer)
  {
    PrefixAgrees(log, longer, |log|, 0);
    OrderedShorter(longer, |log|, |longer|);
  }

  lemma {:induction false} CountIgnoresNewer(log: seq<Event>, v: int, m: nat, n: nat)
    requires m <= n <= |log| && OrderedTo(log, n) && v <= VersionBefore(log, m)
    ensures CountWithin(log, v, n) == CountWithin(log, v, m)
  {
    if m < n {
      OrderedShorter(log, m, n - 1);
      CountIgnoresNewer(log, v, m, n - 1);
    }
  }

  /** Appending newer events never changes what lies at or below a version already in the log. */
  lemma CountStable(log: seq<Event>, longer: seq<Event>, v: int)
    requires Ordered(longer) && Extends(longer, log)
    requires v <= MaxVersion(log)
    ensures CountUpTo(longer, v) == CountUpTo(log, v)
    ensures StateAt(longer, v) == StateAt(log, v)
  {
    PrefixAgrees(log, longer, |log|, v);
    CountIgnoresNewer(longer, v, |log|, |longer|);
    PrefixAgrees(log, longer, CountUpTo(log, v), v);
  }

  lemma StateAtMax(log: seq<Event>)
    requires Ordered(log)
    ensures CountUpTo(log, MaxVersion(log)) == |log|
    ensures StateAt(log, MaxVersion(log)) == Replay(log)
  {
  }

  lemma ReplayAppend(log: seq<Event>, e: Event)
    ensures Replay(log + [e]) == Effect(Replay(log), e)
    ensures Ordered(log + [e]) <==> Ordered(log) && e.version > MaxVersion(log)
  {
    assert (log + [e])[..|log|] == log;
    PrefixAgrees(log, log + [e], |log|, 0);
  }

  /** Every flag of a replay was put there by its key's last event, unchanged since. */
  lemma {:induction false} LastWriter(log: seq<Event>, n: nat, k: string) returns (i: nat)
    requires n <= |log| && k in ReplayTo(log, n)
    ensures i < n && log[i].key == k && !log[i].change.Deleted?
    ensures ReplayTo(log, n)[k] == log[i].change.flag
    ensures forall j :: i < j < n ==> log[j].key != k
  {
    if log[n - 1].key == k { i := n - 1; } else { i := LastWriter(log, n - 1, k); }
  }

  /** A key is present exactly when its last event is no deletion, and then it holds that event's flag. */
  lemma {:induction false} LastEventDecides(log: seq<Event>, n: nat, i: nat)
    requires i < n <= |log|
    requires forall j :: i < j < n ==> log[j].key != log[i].key
    ensures log[i].key in ReplayTo(log, n) <==> !log[i].change.Deleted?
    ensures !log[i].change.Deleted? ==> ReplayTo(log, n)[log[i].key] == log[i].change.flag
  {
    if i < n - 1 { LastEventDecides(log, n - 1, i); }
  }
}
