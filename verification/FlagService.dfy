/** The service: validate, write, and only then publish. */
module FlagService {
  import opened FlagModel
  import opened EventLog
  import opened Repository

  /**
   * One service call. `known` and `key` are what an earlier, separate read returned:
   * the duplicate-key check of a create and the row lookup of a delete.
   */
  datatype Call =
    | CreateFlag(id: string, draft: Draft, known: bool, fault: Fault)
    | UpdateFlag(id: string, patch: Patch, fault: Fault)
    | ToggleFlag(id: string, fault: Fault)
    | DeleteFlag(id: string, key: string, fault: Fault)

  datatype Verdict = Invalid | Duplicate | Stored(reply: Reply)

  datatype Served = Served(store: Store, verdict: Verdict, frame: Option<Frame>)

  function UpdateFrame(reply: Reply): Option<Frame> {
    if reply.Row? then Some(Frame(reply.flag.version, FlagUpdated(reply.flag))) else None
  }

  function DeleteFrame(reply: Reply, key: string): Option<Frame> {
    if reply.Removed? then Some(Frame(reply.version, FlagDeleted(key))) else None
  }

  function Serve(s: Store, call: Call): Served {
    match call
    case CreateFlag(id, d, known, fault) =>
      if !ValidKey(d.key) || d.rollout < 0 || d.rollout > 100 then Served(s, Invalid, None)
      else if known then Served(s, Duplicate, None)
      else var o := CreateTx(s, id, d, fault); Served(o.store, Stored(o.reply), UpdateFrame(o.reply))
    case UpdateFlag(id, p, fault) =>
      if p.rollout.Some? && (p.rollout.value < 0 || p.rollout.value > 100) then Served(s, Invalid, None)
      else var o := UpdateTx(s, id, p, fault); Served(o.store, Stored(o.reply), UpdateFrame(o.reply))
    case ToggleFlag(id, fault) =>
      var o := ToggleTx(s, id, fault); Served(o.store, Stored(o.reply), UpdateFrame(o.reply))
    case DeleteFlag(id, key, fault) =>
      var o := DeleteTx(s, id, fault); Served(o.store, Stored(o.reply), DeleteFrame(o.reply, key))
  }

  /** The log knows this id under this key: what a lookup by id has once returned. */
  predicate KnownId(log: seq<Event>, id: string, key: string) {
    exists i :: 0 <= i < |log| && EventId(log[i]) == id && log[i].key == key
  }

  /** What the database and earlier reads guarantee: new ids are unused, remembered keys were read. */
  predicate CallFits(s: Store, call: Call) {
    match call
    case CreateFlag(id, _, _, _) => UnusedId(s.log, id)
    case DeleteFlag(id, key, _) => KnownId(s.log, id, key)
    case _ => true
  }

  lemma ServeKeepsInv(s: Store, call: Call)
    requires StoreInv(s) && CallFits(s, call)
    ensures var t := Serve(s, call).store; StoreInv(t) && Extends(t.log, s.log) && t.counter >= s.counter
  {
    match call
    case CreateFlag(id, d, known, fault) =>
      if ValidKey(d.key) { CreateSteps(s, id, d, fault); }
      StepKeepsInv(s, Serve(s, call).store);
    case UpdateFlag(id, p, fault) => UpdateSteps(s, id, p, fault); StepKeepsInv(s, Serve(s, call).store);
    case ToggleFlag(id, fault) => ToggleSteps(s, id, fault); StepKeepsInv(s, Serve(s, call).store);
    case DeleteFlag(id, _, fault) => DeleteSteps(s, id, fault); StepKeepsInv(s, Serve(s, call).store);
  }

  /** What a live notice does to a flag map. */
  function NoticeEffect(flags: Flags, n: Notice): Flags {
    match n
    case FlagDeleted(k) => flags - {k}
    case FlagUpdated(f) => flags[f.key := f]
  }

  /** The frame and the event carry the same version and the same change. */
  predicate Carries(f: Frame, e: Event) {
    && f.version == e.version
    && match f.notice
       case FlagUpdated(g) => !e.change.Deleted? && g == e.change.flag && g.key == e.key
       case FlagDeleted(k) => e.change.Deleted? && k == e.key
  }

  /** Some committed event is the one the frame announces. */
  predicate AgreesWithLog(log: seq<Event>, f: Frame) {
    exists i :: 0 <= i < |log| && Carries(f, log[i])
  }

  lemma CarriesSameEffect(f: Frame, e: Event, flags: Flags)
    requires Carries(f, e)
    ensures NoticeEffect(flags, f.notice) == Effect(flags, e)
  {
  }

  /** An update without fields publishes the stored row again, under its old version. */
  lemma RepublishedRowAgrees(s: Store, id: string)
    requires StoreInv(s) && id in s.rows
    ensures s.rows[id].version >= 1
    ensures AgreesWithLog(s.log, Frame(s.rows[id].version, FlagUpdated(s.rows[id])))
  {
    var i := LastWriter(s.log, |s.log|, s.rows[id].key);
    assert WellFormed(s.log[i]);
    assert Carries(Frame(s.rows[id].version, FlagUpdated(s.rows[id])), s.log[i]);
  }

  lemma DeletedRowKey(s: Store, id: string, key: string)
    requires StoreInv(s) && id in s.rows && KnownId(s.log, id, key)
    ensures s.rows[id].key == key
  {
    RowHasEvent(s, id);
  }

  lemma NewestAgrees(log: seq<Event>, f: Frame)
    requires log != [] && Carries(f, log[|log| - 1])
    ensures AgreesWithLog(log, f)
  {
  }

  /** Whatever a call publishes is already committed, under that version and with that change. */
  lemma ServedFrameAgrees(s: Store, call: Call)
    requires StoreInv(s) && CallFits(s, call) && Serve(s, call).frame.Some?
    ensures Serve(s, call).frame.value.version >= 1
    ensures AgreesWithLog(Serve(s, call).store.log, Serve(s, call).frame.value)
  {
    var log, f := Serve(s, call).store.log, Serve(s, call).frame.value;
    ServeKeepsInv(s, call);
    match call
    case CreateFlag(_, _, _, _) => NewestAgrees(log, f);
    case UpdateFlag(id, p, _) => if p.Empty() { RepublishedRowAgrees(s, id); } else { NewestAgrees(log, f); }
    case ToggleFlag(id, _) => NewestAgrees(log, f);
    case DeleteFlag(id, key, _) => DeletedRowKey(s, id, key); NewestAgrees(log, f);
  }

  /**
   * What is published of a call: whenever the log grew and the caller was told, one frame that carries the log's last
   * event; of an update without fields that found its row, that row; of anything else, nothing.
   */
  predicate Announced(before: seq<Event>, after: seq<Event>, verdict: Verdict, reread: bool, frames: seq<Frame>) {
    if |after| > |before| && verdict != Stored(Failed) then
      |frames| == 1 && Carries(frames[0], after[|after| - 1])
    else if reread && verdict.Stored? && verdict.reply.Row? then
      frames == [Frame(verdict.reply.flag.version, FlagUpdated(verdict.reply.flag))]
    else
      frames == []
  }

  predicate Rereads(call: Call) {
    call.UpdateFlag? && call.patch.description.None? && call.patch.enabled.None? && call.patch.rollout.None?
    && call.patch.targeted.None?
  }

  /** Which calls are turned away before the store is asked, and why. */
  predicate Screened(call: Call, verdict: Verdict) {
    match call
    case CreateFlag(_, d, known, _) =>
      var bad := d.key == "" || |d.key| > 64 || !(0 <= d.rollout <= 100)
                 || exists i :: 0 <= i < |d.key| && !KeyChar(d.key[i]);
      (verdict.Invalid? <==> bad) && (verdict.Duplicate? <==> !bad && known)
    case UpdateFlag(_, p, _) =>
      (verdict.Invalid? <==> p.rollout.Some? && !(0 <= p.rollout.value <= 100)) && !verdict.Duplicate?
    case _ => verdict.Stored?
  }

  /** What the store did and answered is what the call asked for. */
  ghost predicate CarriedOut(s: Store, call: Call, t: Store, reply: Reply) {
    match call
    case CreateFlag(id, d, _, fault) => CreateMeans(s, id, d, fault, t, reply)
    case UpdateFlag(id, p, fault) => UpdateMeans(s, id, p, fault, t, reply)
    case ToggleFlag(id, fault) => ToggleMeans(s, id, fault, t, reply)
    case DeleteFlag(id, _, fault) => DeleteMeans(s, id, fault, t, reply)
  }

  /** Every change is published, once, as what the log says; nothing else is; and a call turned away changes nothing. */
  lemma ServeAnnounces(s: Store, call: Call)
    requires StoreInv(s) && CallFits(s, call)
    ensures var served := Serve(s, call);
      && Announced(s.log, served.store.log, served.verdict, Rereads(call),
                   if served.frame.Some? then [served.frame.value] else [])
      && Screened(call, served.verdict)
      && (if served.verdict.Stored? then CarriedOut(s, call, served.store, served.verdict.reply) else served.store == s)
  {
    hide CreateMeans, UpdateMeans, ToggleMeans, DeleteMeans;
    match call
    case CreateFlag(id, d, _, fault) => CreateIsMeant(s, id, d, fault);
    case UpdateFlag(id, p, fault) => UpdateIsMeant(s, id, p, fault);
    case ToggleFlag(id, fault) => ToggleIsMeant(s, id, fault);
    case DeleteFlag(id, key, fault) =>
      DeleteIsMeant(s, id, fault);
      if id in s.rows { DeletedRowKey(s, id, key); }
  }

  /** A history of calls on an initially empty store. */
  function AfterCalls(calls: seq<Call>): Store {
    if calls == [] then EMPTY_STORE else Serve(AfterCalls(calls[..|calls| - 1]), calls[|calls| - 1]).store
  }

  predicate LegalCalls(calls: seq<Call>) {
    calls == [] || (LegalCalls(calls[..|calls| - 1]) && CallFits(AfterCalls(calls[..|calls| - 1]), calls[|calls| - 1]))
  }

  /** Table equals log, after any history of calls, failed and burned ones included. */
  lemma {:induction false} TableEqualsLog(calls: seq<Call>)
    requires LegalCalls(calls)
    ensures StoreInv(AfterCalls(calls))
    ensures var s := AfterCalls(calls);
      && Mirror(s.rows, Replay(s.log)) && Ordered(s.log) && MaxVersion(s.log) <= s.counter
      && forall id :: id in s.rows ==>
        exists i :: 0 <= i < |s.log| && s.log[i].key == s.rows[id].key && s.log[i].version == s.rows[id].version
                    && forall j :: i < j < |s.log| ==> s.log[j].key != s.log[i].key
  {
    var s := AfterCalls(calls);
    if calls != [] {
      TableEqualsLog(calls[..|calls| - 1]);
      ServeKeepsInv(AfterCalls(calls[..|calls| - 1]), calls[|calls| - 1]);
    }
    forall id | id in s.rows
      ensures exists i :: 0 <= i < |s.log| && s.log[i].key == s.rows[id].key && s.log[i].version == s.rows[id].version
                    && forall j :: i < j < |s.log| ==> s.log[j].key != s.log[i].key {
      RowIsLastEvent(s, id);
    }
  }

  class Service {
    const repo: FlagRepository
    var published: seq<Frame>

    constructor (repo: FlagRepository)
      ensures this.repo == repo && published == []
    {
      this.repo := repo;
      published := [];
    }

    /** What a call has published since is what `Announced` asks for. */
    ghost predicate Publishes(before: seq<Frame>, log: seq<Event>, verdict: Verdict, reread: bool)
      reads this, repo
    {
      before <= published && Announced(log, repo.log, verdict, reread, published[|before|..])
    }

    /** Publishing is best effort and never undoes the write. */
    method Publish(frame: Option<Frame>)
      modifies `published
      ensures published == old(published) + (if frame.Some? then [frame.value] else [])
    {
      if frame.Some? { published := published + [frame.value]; }
    }

    method CreateFlag(id: string, d: Draft, lookup: Fault, fault: Fault) returns (verdict: Verdict)
      modifies this, repo
      ensures var known := KeyTaken(old(repo.State()).rows, d.key);
        var served := Serve(old(repo.State()), Call.CreateFlag(id, d, known, fault));
        if lookup.NoFault? || served.verdict.Invalid? then
          && repo.State() == served.store && verdict == served.verdict
          && published == old(published) + (if served.frame.Some? then [served.frame.value] else [])
        else verdict == Stored(Failed) && repo.State() == old(repo.State()) && published == old(published)
      ensures Publishes(old(published), old(repo.log), verdict, false)
    {
      if d.key == "" || |d.key| > 64 { return Invalid; }
      if !ValidKey(d.key) { return Invalid; }
      if d.rollout < 0 || d.rollout > 100 { return Invalid; }
      var existing := repo.GetByKey(d.key, lookup);
      if existing.Failed? { return Stored(Failed); }
      if existing.Row? { return Duplicate; }
      var reply := repo.Create(id, d, fault);
      Publish(UpdateFrame(reply));
      verdict := Stored(reply);
    }

    method UpdateFlag(id: string, p: Patch, fault: Fault) returns (verdict: Verdict)
      modifies this, repo
      ensures var served := Serve(old(repo.State()), Call.UpdateFlag(id, p, fault));
        && repo.State() == served.store && verdict == served.verdict
        && published == old(published) + (if served.frame.Some? then [served.frame.value] else [])
      ensures Publishes(old(published), old(repo.log), verdict, Rereads(Call.UpdateFlag(id, p, fault)))
    {
      if p.rollout.Some? && (p.rollout.value < 0 || p.rollout.value > 100) { return Invalid; }
      var reply := repo.Update(id, p, fault);
      Publish(UpdateFrame(reply));
      verdict := Stored(reply);
    }

    method ToggleFlag(id: string, fault: Fault) returns (verdict: Verdict)
      modifies this, repo
      ensures var served := Serve(old(repo.State()), Call.ToggleFlag(id, fault));
        && repo.State() == served.store && verdict == served.verdict
        && published == old(published) + (if served.frame.Some? then [served.frame.value] else [])
      ensures Publishes(old(published), old(repo.log), verdict, false)
    {
      var reply := repo.Toggle(id, fault);
      Publish(UpdateFrame(reply));
      verdict := Stored(reply);
    }

    method DeleteFlag(id: string, lookup: Fault, fault: Fault) returns (verdict: Verdict)
      modifies this, repo
      ensures var seen := ReadById(old(repo.State()), id, lookup);
        if seen.Row? then
          var served := Serve(old(repo.State()), Call.DeleteFlag(id, seen.flag.key, fault));
          && repo.State() == served.store && verdict == served.verdict
          && published == old(published) + (if served.frame.Some? then [served.frame.value] else [])
        else verdict == Stored(seen) && repo.State() == old(repo.State()) && published == old(published)
      ensures Publishes(old(published), old(repo.log), verdict, false)
    {
      var seen := repo.GetByID(id, lookup);
      if !seen.Row? { return Stored(seen); }
      var reply := repo.Delete(id, fault);
      Publish(DeleteFrame(reply, seen.flag.key));
      verdict := Stored(reply);
    }
  }
}
