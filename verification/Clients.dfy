/** The two SDK clients as the objects they are: fields updated in place, method by method. */
module Clients {
  import opened FlagModel
  import opened Repository
  import opened Sdk
  import opened Convergence

  datatype Snapshot = Snapshot(flags: seq<Flag>, version: int)

  /** The Go client. Holding the lock is what makes each method one step. */
  class GoClient {
    var flags: Flags
    var configVersion: int

    ghost function State(): View
      reads this
    {
      View(flags, configVersion)
    }

    constructor ()
      ensures State() == View(map[], 0)
    {
      flags, configVersion := map[], 0;
    }

    /** A failed request leaves the client as it was. */
    method Bootstrap(answer: Option<Snapshot>) returns (ok: bool)
      modifies this
      ensures ok == answer.Some?
      ensures State() == if ok then View(FlagsOf(answer.value.flags), answer.value.version) else old(State())
    {
      if answer.None? { return false; }
      var list := answer.value.flags;
      flags := map[];
      for i := 0 to |list|
        invariant flags == FlagsOf(list[..i])
      {
        assert list[..i + 1][..i] == list[..i];
        flags := flags[list[i].key := list[i]];
      }
      assert list[..|list|] == list;
      configVersion := answer.value.version;
      ok := true;
    }

    method ApplyLocked(e: Event)
      modifies this
      ensures State() == ApplyChange(Go, old(State()), e)
      ensures configVersion == e.version
      ensures e.change.Deleted? ==> flags == old(flags) - {e.key}
      ensures !e.change.Deleted? ==> var g := e.change.flag;
        flags == if g.key == "" then old(flags) else old(flags)[g.key := g]
    {
      if e.change.Deleted? {
        flags := flags - {e.key};
      } else if e.change.flag.key != "" {
        flags := flags[e.change.flag.key := e.change.flag];
      }
      configVersion := e.version;
    }

    method ApplyEvents(page: seq<Event>) returns (advanced: bool)
      modifies this
      ensures State() == ApplyPage(Go, old(State()), page)
      ensures advanced <==> configVersion != old(configVersion)
    {
      advanced := false;
      for i := 0 to |page|
        invariant State() == ApplyFirst(Go, old(State()), page, i)
        invariant configVersion >= old(configVersion)
        invariant advanced <==> configVersion != old(configVersion)
      {
        if page[i].version > configVersion {
          ApplyLocked(page[i]);
          advanced := true;
        }
      }
    }

    /** Pages through the backlog; a refused request keeps what earlier pages brought. */
    method Reconcile(fetch: (nat, int) -> Fetch) returns (ok: bool, requests: nat)
      modifies this
      ensures Reconciled(State(), ok, requests) == ReconcileFrom(Go, old(State()), fetch, 0, 100000)
    {
      requests := 0;
      while requests < 100000
        invariant requests <= 100000
        invariant ReconcileFrom(Go, State(), fetch, requests, 100000)
                  == ReconcileFrom(Go, old(State()), fetch, 0, 100000)
      {
        var since := configVersion;
        var answer := fetch(requests, since);
        requests := requests + 1;
        if answer.Refused? { return false, requests; }
        if |answer.events| == 0 { return true, requests; }
        var advanced := ApplyEvents(answer.events);
        if !advanced { return true, requests; }
      }
      ok := true;
    }

    method ApplyLiveEvent(f: Frame) returns (needsReconcile: bool)
      modifies this
      ensures LiveResult(State(), needsReconcile) == ApplyLive(Go, old(State()), f)
      ensures needsReconcile <==> f.version > old(configVersion) + 1
      ensures f.version != old(configVersion) + 1 ==> State() == old(State())
      ensures f.version == old(configVersion) + 1 ==>
        && configVersion == f.version
        && (f.notice.FlagDeleted? ==> flags == old(flags) - {f.notice.key})
        && (f.notice.FlagUpdated? ==> var g := f.notice.flag;
            flags == if g.key == "" then old(flags) else old(flags)[g.key := g])
    {
      if f.version <= configVersion { return false; }
      if f.version > configVersion + 1 { return true; }
      match f.notice {
        case FlagDeleted(k) => flags := flags - {k};
        case FlagUpdated(g) => if g.key != "" { flags := flags[g.key := g]; }
      }
      configVersion := f.version;
      needsReconcile := false;
    }

    /** One frame off the stream: apply it, or reconcile inline over a gap. */
    method Dispatch(f: Frame, fetch: (nat, int) -> Fetch) returns (ok: bool)
      modifies this
      ensures State() == ProcessFrame(Go, old(State()), f, fetch)
    {
      var needsReconcile := ApplyLiveEvent(f);
      ok := true;
      if needsReconcile {
        var requests;
        ok, requests := Reconcile(fetch);
      }
    }
  }

  /** The browser client, its reconcile cut at each await: a method runs one turn and returns what to ask for next. */
  class TsClient {
    var flags: Flags
    var configVersion: int
    var reconciling: bool
    var left: nat

    ghost function State(): Tab
      reads this
    {
      Tab(View(flags, configVersion), reconciling, left)
    }

    constructor ()
      ensures State() == Tab(View(map[], 0), false, 0)
    {
      flags, configVersion, reconciling, left := map[], 0, false, 0;
    }

    /** A failed request leaves the client as it was; a snapshot without a version keeps the version it had. */
    method Bootstrap(answer: Option<seq<Flag>>, version: Option<int>) returns (ok: bool)
      modifies this
      ensures ok == answer.Some?
      ensures State() == if !ok then old(State())
                         else old(State()).(view := View(FlagsOf(answer.value), Or(version, old(configVersion))))
      ensures ok && version.Some? ==> configVersion == version.value
      ensures !ok || version.None? ==> configVersion == old(configVersion)
    {
      if answer.None? { return false; }
      var list := answer.value;
      flags := map[];
      for i := 0 to |list|
        invariant State() == old(State()).(view := View(FlagsOf(list[..i]), old(configVersion)))
      {
        assert list[..i + 1][..i] == list[..i];
        flags := flags[list[i].key := list[i]];
      }
      assert list[..|list|] == list;
      if version.Some? { configVersion := version.value; }
      ok := true;
    }

    method Reconcile() returns (ask: Option<int>)
      modifies this
      ensures Turn(State(), ask) == StartReconcile(old(State()))
      ensures old(reconciling) ==> ask.None? && State() == old(State())
      ensures !old(reconciling) ==> ask == Some(configVersion) && reconciling && left == 10000
      ensures flags == old(flags) && configVersion == old(configVersion)
    {
      if reconciling { return None; }
      reconciling, left := true, 10000;
      ask := Some(configVersion);
    }

    method OnResponse(answer: Fetch) returns (ask: Option<int>)
      modifies this
      ensures Turn(State(), ask) == OnAnswer(old(State()), answer)
    {
      if answer.Refused? {
        reconciling, left := false, 0;
        return None;
      }
      var page := answer.events;
      var advanced := false;
      for i := 0 to |page|
        invariant State() == old(State()).(view := ApplyFirst(Ts, old(State()).view, page, i))
        invariant configVersion >= old(configVersion)
        invariant advanced <==> configVersion != old(configVersion)
      {
        var e := page[i];
        if e.version > configVersion {
          if e.change.Deleted? { flags := flags - {e.key}; } else { flags := flags[e.key := e.change.flag]; }
          configVersion := e.version;
          advanced := true;
        }
      }
      if |page| == 0 || !advanced || left <= 1 {
        reconciling, left := false, 0;
        return None;
      }
      left := left - 1;
      ask := Some(configVersion);
    }

    method ApplyEvent(f: Frame) returns (ask: Option<int>)
      modifies this
      ensures Turn(State(), ask) == OnFrame(old(State()), f)
      ensures ask.Some? <==> f.version > old(configVersion) + 1 && !old(reconciling)
      ensures f.version != old(configVersion) + 1 ==> flags == old(flags) && configVersion == old(configVersion)
      ensures f.version == old(configVersion) + 1 ==>
        && configVersion == f.version && reconciling == old(reconciling)
        && (f.notice.FlagDeleted? ==> flags == old(flags) - {f.notice.key})
        && (f.notice.FlagUpdated? ==> flags == old(flags)[f.notice.flag.key := f.notice.flag])
    {
      if f.version <= configVersion { return None; }
      if f.version > configVersion + 1 {
        ask := Reconcile();
        return;
      }
      match f.notice {
        case FlagDeleted(k) => flags := flags - {k};
        case FlagUpdated(g) => flags := flags[g.key := g];
      }
      configVersion := f.version;
      ask := None;
    }
  }
}
