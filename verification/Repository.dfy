/** The durable store: a version counter that never rolls back, the flags table and the event log. */
module Repository {
  import opened FlagModel
  import opened EventLog

  /** `rows` is the flags table by id; `counter` is the last value the sequence handed out. */
  datatype Store = Store(counter: int, rows: map<string, Flag>, log: seq<Event>)

  /**
   * Where the database lets a call down: before its sequence call; later, so that it rolls back; or in the answer to
   * a commit that took effect.
   */
  datatype Fault = NoFault | EarlyFault | LateFault | LostReply

  datatype Reply = Row(flag: Flag) | Removed(version: int) | NotFound | Conflict | Failed

  datatype Outcome = Outcome(store: Store, reply: Reply)

  datatype Draft = Draft(key: string, description: string, enabled: bool, rollout: int, targeted: seq<string>)

  datatype Patch = Patch(description: Option<string>, enabled: Option<bool>, rollout: Option<int>,
                         targeted: Option<seq<string>>, expected: Option<int>)
  {
    predicate Empty() { description.None? && enabled.None? && rollout.None? && targeted.None? }
  }

  /** The table's own length and range constraints. */
  predicate RowAllowed(f: Flag) {
    |f.key| <= 64 && |f.description| <= 256 && 0 <= f.rollout <= 100
  }

  /** What the service and the table accept of a new flag. */
  predicate DraftAllowed(d: Draft) { ValidKey(d.key) && |d.description| <= 256 && 0 <= d.rollout <= 100 }

  predicate KeyTaken(rows: map<string, Flag>, key: string) {
    exists id :: id in rows && rows[id].key == key
  }

  /** No event ever named this id: what a fresh random id means. */
  predicate UnusedId(log: seq<Event>, id: string) {
    forall i :: 0 <= i < |log| ==> EventId(log[i]) != id
  }

  function Or<T>(o: Option<T>, default: T): T { if o.Some? then o.value else default }

  function WithFields(f: Flag, p: Patch): Flag {
    f.(description := Or(p.description, f.description), enabled := Or(p.enabled, f.enabled),
       rollout := Or(p.rollout, f.rollout), targeted := Or(p.targeted, f.targeted))
  }

  function Patched(f: Flag, p: Patch, version: int): Flag {
    WithFields(f, p).(version := version)
  }

  function Burned(s: Store): Store { s.(counter := s.counter + 1) }

  function RowsAfter(rows: map<string, Flag>, e: Event): map<string, Flag> {
    if e.change.Deleted? then rows - {e.change.id} else rows[e.change.flag.id := e.change.flag]
  }

  function Committed(s: Store, e: Event): Store {
    Store(s.counter + 1, RowsAfter(s.rows, e), s.log + [e])
  }

  function DraftRow(id: string, d: Draft, version: int): Flag {
    Flag(id, d.key, d.description, d.enabled, d.rollout, d.targeted, version)
  }

  /** What the caller hears of a commit. */
  function Told(reply: Reply, fault: Fault): Reply { if fault.LostReply? then Failed else reply }

  function CreateTx(s: Store, id: string, d: Draft, fault: Fault): Outcome {
    var f := DraftRow(id, d, s.counter + 1);
    if fault.EarlyFault? then Outcome(s, Failed)
    else if fault.LateFault? || KeyTaken(s.rows, d.key) || !RowAllowed(f) then Outcome(Burned(s), Failed)
    else Outcome(Committed(s, Event(f.version, f.key, Created(f))), Told(Row(f), fault))
  }

  function ReadById(s: Store, id: string, fault: Fault): Reply {
    if !fault.NoFault? then Failed else if id in s.rows then Row(s.rows[id]) else NotFound
  }

  function UpdateTx(s: Store, id: string, p: Patch, fault: Fault): Outcome {
    if p.Empty() then Outcome(s, ReadById(s, id, fault))
    else if fault.EarlyFault? then Outcome(s, Failed)
    else if fault.LateFault? then Outcome(Burned(s), Failed)
    else if id !in s.rows then Outcome(Burned(s), NotFound)
    else if p.expected.Some? && s.rows[id].version != p.expected.value then Outcome(Burned(s), Conflict)
    else
      var f := Patched(s.rows[id], p, s.counter + 1);
      if !RowAllowed(f) then Outcome(Burned(s), Failed)
      else Outcome(Committed(s, Event(f.version, f.key, Updated(f))), Told(Row(f), fault))
  }

  function ToggleTx(s: Store, id: string, fault: Fault): Outcome {
    if fault.EarlyFault? then Outcome(s, Failed)
    else if fault.LateFault? then Outcome(Burned(s), Failed)
    else if id !in s.rows then Outcome(Burned(s), NotFound)
    else
      var f := s.rows[id].(enabled := !s.rows[id].enabled, version := s.counter + 1);
      Outcome(Committed(s, Event(f.version, f.key, Updated(f))), Told(Row(f), fault))
  }

  function DeleteTx(s: Store, id: string, fault: Fault): Outcome {
    if fault.EarlyFault? then Outcome(s, Failed)
    else if id !in s.rows then Outcome(s, NotFound)
    else if fault.LateFault? then Outcome(Burned(s), Failed)
    else Outcome(Committed(s, Event(s.counter + 1, s.rows[id].key, Deleted(id))), Told(Removed(s.counter + 1), fault))
  }

  /** The table and the replayed log hold the same flags, one by id and one by key. */
  predicate Mirror(rows: map<string, Flag>, flags: Flags) {
    && (forall id :: id in rows ==> rows[id].id == id && rows[id].key in flags && flags[rows[id].key] == rows[id])
    && (forall k :: k in flags ==> flags[k].key == k && flags[k].id in rows && rows[flags[k].id] == flags[k])
  }

  /** An id belongs to one key for good, even across deletion. */
  predicate IdsKeepTheirKey(log: seq<Event>) {
    forall i, j :: 0 <= i < |log| && 0 <= j < |log| && EventId(log[i]) == EventId(log[j]) ==> log[i].key == log[j].key
  }

  predicate StoreInv(s: Store) {
    && Ordered(s.log)
    && MaxVersion(s.log) <= s.counter
    && (forall i :: 0 <= i < |s.log| ==> WellFormed(s.log[i]))
    && IdsKeepTheirKey(s.log)
    && Mirror(s.rows, Replay(s.log))
  }

  const EMPTY_STORE := Store(0, map[], [])

  /** A transition is a no-op, a burned version, or exactly one committed event. */
  ghost predicate TxStep(s: Store, t: Store) {
    t == s || t == Burned(s) || exists e :: FitsStore(s, e) && t == Committed(s, e)
  }

  /** The event carries the next version and acts on the row its id names. */
  predicate FitsStore(s: Store, e: Event) {
    && e.version == s.counter + 1
    && WellFormed(e)
    && (if EventId(e) in s.rows then s.rows[EventId(e)].key == e.key
        else !e.change.Deleted? && UnusedId(s.log, EventId(e)) && !KeyTaken(s.rows, e.key))
  }

  lemma MirrorKeepsCommit(rows: map<string, Flag>, flags: Flags, e: Event)
    requires Mirror(rows, flags) && WellFormed(e)
    requires if EventId(e) in rows then rows[EventId(e)].key == e.key
             else !e.change.Deleted? && !KeyTaken(rows, e.key)
    ensures Mirror(RowsAfter(rows, e), Effect(flags, e))
  {
    var rows', flags' := RowsAfter(rows, e), Effect(flags, e);
    forall id | id in rows'
      ensures rows'[id].id == id && rows'[id].key in flags' && flags'[rows'[id].key] == rows'[id] {
      if id != EventId(e) { assert rows[id].key != e.key; }
    }
    forall k | k in flags'
      ensures flags'[k].key == k && flags'[k].id in rows' && rows'[flags'[k].id] == flags'[k] {
      if k != e.key { assert flags[k].id != EventId(e); }
    }
  }

  lemma CommitKeepsInv(s: Store, e: Event)
    requires StoreInv(s) && FitsStore(s, e)
    ensures StoreInv(Committed(s, e))
  {
    var t := Committed(s, e);
    ReplayAppend(s.log, e);
    assert t.log[..|s.log|] == s.log;
    MirrorKeepsCommit(s.rows, Replay(s.log), e);
    forall i | 0 <= i < |s.log| && EventId(s.log[i]) == EventId(e) ensures s.log[i].key == e.key {
      if EventId(e) in s.rows { RowHasEvent(s, EventId(e)); }
    }
  }

  lemma RowHasEvent(s: Store, id: string)
    requires Mirror(s.rows, Replay(s.log)) && id in s.rows
    ensures exists i :: 0 <= i < |s.log| && EventId(s.log[i]) == id && s.log[i].key == s.rows[id].key
  {
    var i := LastWriter(s.log, |s.log|, s.rows[id].key);
    assert EventId(s.log[i]) == id;
  }

  lemma StepKeepsInv(s: Store, t: Store)
    requires StoreInv(s) && TxStep(s, t)
    ensures StoreInv(t) && Extends(t.log, s.log) && t.counter >= s.counter
  {
    if t != s && t != Burned(s) {
      var e :| FitsStore(s, e) && t == Committed(s, e);
      CommitKeepsInv(s, e);
    }
  }

  lemma CreateSteps(s: Store, id: string, d: Draft, fault: Fault)
    requires StoreInv(s) && ValidKey(d.key) && UnusedId(s.log, id)
    ensures TxStep(s, CreateTx(s, id, d, fault).store)
  {
    var o := CreateTx(s, id, d, fault);
    if o.store != s && o.store != Burned(s) {
      if id in s.rows { RowHasEvent(s, id); }
      var f := DraftRow(id, d, s.counter + 1);
      assert FitsStore(s, Event(f.version, d.key, Created(f)));
    }
  }

  lemma UpdateSteps(s: Store, id: string, p: Patch, fault: Fault)
    requires StoreInv(s)
    ensures TxStep(s, UpdateTx(s, id, p, fault).store)
  {
    var o := UpdateTx(s, id, p, fault);
    if o.store != s && o.store != Burned(s) {
      var i := LastWriter(s.log, |s.log|, s.rows[id].key);
      assert WellFormed(s.log[i]);
      var f := Patched(s.rows[id], p, s.counter + 1);
      assert FitsStore(s, Event(f.version, f.key, Updated(f)));
    }
  }

  lemma ToggleSteps(s: Store, id: string, fault: Fault)
    requires StoreInv(s)
    ensures TxStep(s, ToggleTx(s, id, fault).store)
  {
    var o := ToggleTx(s, id, fault);
    if o.store != s && o.store != Burned(s) {
      var i := LastWriter(s.log, |s.log|, s.rows[id].key);
      assert WellFormed(s.log[i]);
      var f := s.rows[id].(enabled := !s.rows[id].enabled, version := s.counter + 1);
      assert FitsStore(s, Event(f.version, f.key, Updated(f)));
    }
  }

  lemma DeleteSteps(s: Store, id: string, fault: Fault)
    requires StoreInv(s)
    ensures TxStep(s, DeleteTx(s, id, fault).store)
  {
    var o := DeleteTx(s, id, fault);
    if o.store != s && o.store != Burned(s) {
      var i := LastWriter(s.log, |s.log|, s.rows[id].key);
      assert WellFormed(s.log[i]);
      assert FitsStore(s, Event(s.counter + 1, s.rows[id].key, Deleted(id)));
    }
  }

  /** Each row is its key's last event: same content, same version, nothing newer for that key. */
  lemma RowIsLastEvent(s: Store, id: string)
    requires StoreInv(s) && id in s.rows
    ensures exists i :: 0 <= i < |s.log| && s.log[i].version == s.rows[id].version && s.log[i].key == s.rows[id].key
                        && !s.log[i].change.Deleted? && s.log[i].change.flag == s.rows[id]
                        && forall j :: i < j < |s.log| ==> s.log[j].key != s.log[i].key
  {
    var i := LastWriter(s.log, |s.log|, s.rows[id].key);
    assert WellFormed(s.log[i]);
  }

  // What a transaction means for its caller, field by field.

  predicate RowsNamed(rows: map<string, Flag>) { forall id :: id in rows ==> rows[id].id == id }

  /** Nothing changed; `burned` says whether a version was used up. */
  predicate Untouched(s: Store, t: Store, burned: bool) {
    t.rows == s.rows && t.log == s.log && t.counter == s.counter + (if burned then 1 else 0)
  }

  /** Exactly one version was used, one event added, and only the row of this id can differ. */
  ghost predicate OneChange(s: Store, t: Store, id: string, e: Event) {
    && t.counter == s.counter + 1 == e.version && t.log == s.log + [e]
    && forall other :: other != id ==>
         (other in t.rows <==> other in s.rows) && (other in s.rows ==> t.rows[other] == s.rows[other])
  }

  /** The reply names the row, unless it was lost. */
  predicate Tells(reply: Reply, row: Reply, fault: Fault) {
    if fault.LostReply? then reply == Failed else reply == row
  }

  ghost predicate CreateMeans(s: Store, id: string, d: Draft, fault: Fault, t: Store, reply: Reply) {
    var refused := |d.key| > 64 || |d.description| > 256 || d.rollout < 0 || d.rollout > 100
                   || exists other :: other in s.rows && s.rows[other].key == d.key;
    if fault.EarlyFault? then reply == Failed && Untouched(s, t, false)
    else if fault.LateFault? || refused then reply == Failed && Untouched(s, t, true)
    else
      && id in t.rows
      && var f := t.rows[id];
      && f.id == id && f.key == d.key && f.description == d.description && f.enabled == d.enabled
      && f.rollout == d.rollout && f.targeted == d.targeted && f.version == s.counter + 1
      && OneChange(s, t, id, Event(s.counter + 1, d.key, Created(f))) && Tells(reply, Row(f), fault)
  }

  /** The row as an update leaves it: given fields from the patch, all others as they were, and the new version. */
  predicate Updates(f: Flag, was: Flag, p: Patch, version: int) {
    && f.id == was.id && f.key == was.key && f.version == version
    && (if p.description.Some? then f.description == p.description.value else f.description == was.description)
    && (if p.enabled.Some? then f.enabled == p.enabled.value else f.enabled == was.enabled)
    && (if p.rollout.Some? then f.rollout == p.rollout.value else f.rollout == was.rollout)
    && (if p.targeted.Some? then f.targeted == p.targeted.value else f.targeted == was.targeted)
  }

  ghost predicate UpdateMeans(s: Store, id: string, p: Patch, fault: Fault, t: Store, reply: Reply) {
    if p.description.None? && p.enabled.None? && p.rollout.None? && p.targeted.None? then
      && Untouched(s, t, false)
      && (if !fault.NoFault? then reply == Failed
          else if id in s.rows then reply == Row(s.rows[id]) else reply == NotFound)
    else if fault.EarlyFault? then reply == Failed && Untouched(s, t, false)
    else if fault.LateFault? then reply == Failed && Untouched(s, t, true)
    else
      && (reply == NotFound <==> id !in s.rows)
      && (reply == Conflict <==> id in s.rows && p.expected.Some? && p.expected.value != s.rows[id].version)
      && (reply == NotFound || reply == Conflict || PatchRefused(s, id, p) ==> Untouched(s, t, true))
      && (reply != NotFound && reply != Conflict ==>
            if PatchRefused(s, id, p) then reply == Failed
            else
              && id in t.rows && Updates(t.rows[id], s.rows[id], p, s.counter + 1)
              && OneChange(s, t, id, Event(s.counter + 1, s.rows[id].key, Updated(t.rows[id])))
              && Tells(reply, Row(t.rows[id]), fault))
  }

  /** The table's constraints do not take the patched row. */
  predicate PatchRefused(s: Store, id: string, p: Patch) {
    id in s.rows ==>
      || |s.rows[id].key| > 64
      || |Or(p.description, s.rows[id].description)| > 256
      || Or(p.rollout, s.rows[id].rollout) < 0 || Or(p.rollout, s.rows[id].rollout) > 100
  }

  ghost predicate ToggleMeans(s: Store, id: string, fault: Fault, t: Store, reply: Reply) {
    if fault.EarlyFault? then reply == Failed && Untouched(s, t, false)
    else if fault.LateFault? then reply == Failed && Untouched(s, t, true)
    else if id !in s.rows then reply == NotFound && Untouched(s, t, true)
    else
      && id in t.rows
      && var f, was := t.rows[id], s.rows[id];
      && f.enabled != was.enabled && f.version == s.counter + 1
      && f.id == was.id && f.key == was.key && f.description == was.description
      && f.rollout == was.rollout && f.targeted == was.targeted
      && OneChange(s, t, id, Event(s.counter + 1, was.key, Updated(f))) && Tells(reply, Row(f), fault)
  }

  ghost predicate DeleteMeans(s: Store, id: string, fault: Fault, t: Store, reply: Reply) {
    if fault.EarlyFault? then reply == Failed && Untouched(s, t, false)
    else if id !in s.rows then reply == NotFound && Untouched(s, t, false)
    else if fault.LateFault? then reply == Failed && Untouched(s, t, true)
    else
      && id !in t.rows
      && OneChange(s, t, id, Event(s.counter + 1, s.rows[id].key, Deleted(id)))
      && Tells(reply, Removed(s.counter + 1), fault)
  }

  /** A new flag gets the draft's fields and the next version, or nothing but a version is lost. */
  lemma CreateIsMeant(s: Store, id: string, d: Draft, fault: Fault)
    ensures var o := CreateTx(s, id, d, fault); CreateMeans(s, id, d, fault, o.store, o.reply)
  {
  }

  /** An update tells a lost race from a missing flag, changes exactly what it was given, and only where it may. */
  lemma UpdateIsMeant(s: Store, id: string, p: Patch, fault: Fault)
    requires RowsNamed(s.rows)
    ensures var o := UpdateTx(s, id, p, fault); UpdateMeans(s, id, p, fault, o.store, o.reply)
  {
  }

  /** A toggle flips the switch and keeps everything else. */
  lemma ToggleIsMeant(s: Store, id: string, fault: Fault)
    requires RowsNamed(s.rows)
    ensures var o := ToggleTx(s, id, fault); ToggleMeans(s, id, fault, o.store, o.reply)
  {
  }

  /** A delete removes the row it found and logs that under the row's key. */
  lemma DeleteIsMeant(s: Store, id: string, fault: Fault)
    ensures var o := DeleteTx(s, id, fault); DeleteMeans(s, id, fault, o.store, o.reply)
  {
  }

  /** A snapshot list names every row once, in whatever order the query returned. */
  predicate Lists(rows: map<string, Flag>, list: seq<Flag>) {
    && (forall i :: 0 <= i < |list| ==> list[i].id in rows && rows[list[i].id] == list[i])
    && (forall id :: id in rows ==> rows[id] in list)
  }

  /** The flag map a client builds from a snapshot list. */
  function FlagsOf(list: seq<Flag>): Flags {
    if list == [] then map[] else FlagsOf(list[..|list| - 1])[list[|list| - 1].key := list[|list| - 1]]
  }

  lemma {:induction false} FlagsOfMembers(list: seq<Flag>)
    ensures forall k :: k in FlagsOf(list) ==> FlagsOf(list)[k] in list && FlagsOf(list)[k].key == k
    ensures forall i :: 0 <= i < |list| ==> list[i].key in FlagsOf(list)
  {
    if list != [] {
      var init := list[..|list| - 1];
      FlagsOfMembers(init);
      forall i | 0 <= i < |list| ensures list[i].key in FlagsOf(list) {
        if i < |list| - 1 { assert init[i] == list[i]; }
      }
    }
  }

  /** A full listing in any order builds the flags the table mirrors. */
  lemma ListingIsMirrored(rows: map<string, Flag>, flags: Flags, list: seq<Flag>)
    requires Mirror(rows, flags) && Lists(rows, list)
    ensures FlagsOf(list) == flags
  {
    FlagsOfMembers(list);
    var made := FlagsOf(list);
    forall k | k in flags ensures k in made && made[k] == flags[k] {
      var f := flags[k];
      assert rows[f.id] in list;
      var i :| 0 <= i < |list| && list[i] == f;
      assert list[i].key in made;
    }
    forall k | k in made ensures k in flags {
      assert made[k] in list;
    }
  }

  /** The table read as a snapshot is the replay of the whole log. */
  lemma SnapshotIsReplay(s: Store, list: seq<Flag>)
    requires StoreInv(s) && Lists(s.rows, list)
    ensures FlagsOf(list) == Replay(s.log)
  {
    ListingIsMirrored(s.rows, Replay(s.log), list);
  }

  /** One `column = value` clause of an UPDATE. */
  datatype Assignment = SetDescription(s: string) | SetEnabled(b: bool) | SetRollout(n: int)
                      | SetTargeted(users: seq<string>) | SetVersion(v: int)

  function Assign(f: Flag, a: Assignment): Flag {
    match a
    case SetDescription(s) => f.(description := s)
    case SetEnabled(b) => f.(enabled := b)
    case SetRollout(n) => f.(rollout := n)
    case SetTargeted(us) => f.(targeted := us)
    case SetVersion(v) => f.(version := v)
  }

  function AssignAll(f: Flag, sets: seq<Assignment>): Flag {
    if sets == [] then f else Assign(AssignAll(f, sets[..|sets| - 1]), sets[|sets| - 1])
  }

  lemma AssignOneMore(f: Flag, sets: seq<Assignment>, a: Assignment)
    ensures AssignAll(f, sets + [a]) == Assign(AssignAll(f, sets), a)
  {
    assert (sets + [a])[..|sets|] == sets;
  }

  method Add(sets: seq<Assignment>, a: Assignment, ghost row: Flag) returns (more: seq<Assignment>)
    ensures |more| == |sets| + 1 && AssignAll(row, more) == Assign(AssignAll(row, sets), a)
  {
    more := sets + [a];
    AssignOneMore(row, sets, a);
  }

  /** Builds the SET list clause by clause; run on any row it changes exactly the fields given. */
  method SetClauses(p: Patch, ghost row: Flag) returns (sets: seq<Assignment>)
    ensures |sets| == 0 <==> p.Empty()
    ensures AssignAll(row, sets) == WithFields(row, p)
  {
    sets := [];
    if p.description.Some? { sets := Add(sets, SetDescription(p.description.value), row); }
    if p.enabled.Some? { sets := Add(sets, SetEnabled(p.enabled.value), row); }
    if p.rollout.Some? { sets := Add(sets, SetRollout(p.rollout.value), row); }
    if p.targeted.Some? { sets := Add(sets, SetTargeted(p.targeted.value), row); }
  }

  /** The repository over its database. A method runs one transaction; what it changed before a rollback is dropped. */
  class FlagRepository {
    var counter: int
    var rows: map<string, Flag>
    var log: seq<Event>

    ghost function State(): Store
      reads this
    {
      Store(counter, rows, log)
    }

    constructor ()
      ensures State() == EMPTY_STORE
    {
      counter, rows, log := 0, map[], [];
    }

    /** The sequence moves on whether or not the transaction later commits. */
    method NextVersion() returns (version: int)
      modifies `counter
      ensures version == counter == old(counter) + 1
    {
      counter := counter + 1;
      version := counter;
    }

    method Create(id: string, d: Draft, fault: Fault) returns (reply: Reply)
      modifies this
      ensures Outcome(State(), reply) == CreateTx(old(State()), id, d, fault)
      ensures CreateMeans(old(State()), id, d, fault, State(), reply)
    {
      CreateIsMeant(State(), id, d, fault);
      if fault.EarlyFault? { return Failed; }
      var version := NextVersion();
      var f := DraftRow(id, d, version);
      if fault.LateFault? || KeyTaken(rows, d.key) || !RowAllowed(f) { return Failed; }
      rows := rows[id := f];
      log := log + [Event(version, f.key, Created(f))];
      reply := Told(Row(f), fault);
    }

    method GetByID(id: string, fault: Fault) returns (reply: Reply)
      ensures reply == ReadById(State(), id, fault)
      ensures reply == if !fault.NoFault? then Failed else if id in rows then Row(rows[id]) else NotFound
    {
      if !fault.NoFault? { return Failed; }
      if id in rows { return Row(rows[id]); }
      reply := NotFound;
    }

    method GetByKey(key: string, fault: Fault) returns (reply: Reply)
      ensures !fault.NoFault? ==> reply == Failed
      ensures fault.NoFault? ==> reply == NotFound || reply.Row?
      ensures fault.NoFault? ==> (reply.Row? <==> KeyTaken(rows, key))
      ensures reply.Row? ==> reply.flag.key == key && exists id :: id in rows && rows[id] == reply.flag
    {
      if !fault.NoFault? { return Failed; }
      if KeyTaken(rows, key) {
        var id :| id in rows && rows[id].key == key;
        return Row(rows[id]);
      }
      reply := NotFound;
    }

    method Update(id: string, p: Patch, fault: Fault) returns (reply: Reply)
      modifies this
      ensures Outcome(State(), reply) == UpdateTx(old(State()), id, p, fault)
      ensures RowsNamed(old(rows)) ==> UpdateMeans(old(State()), id, p, fault, State(), reply)
    {
      if RowsNamed(rows) { UpdateIsMeant(State(), id, p, fault); }
      ghost var row := if id in rows then rows[id] else Flag("", "", "", false, 0, [], 0);
      var sets := SetClauses(p, row);
      if |sets| == 0 {
        reply := GetByID(id, fault);
        return;
      }
      if fault.EarlyFault? { return Failed; }
      var version := NextVersion();
      sets := Add(sets, SetVersion(version), row);
      if fault.LateFault? { return Failed; }
      if id !in rows || (p.expected.Some? && rows[id].version != p.expected.value) {
        // No row matched; a second query tells a lost race from a missing flag.
        if p.expected.Some? && id in rows { return Conflict; }
        return NotFound;
      }
      var f := AssignAll(rows[id], sets);
      if !RowAllowed(f) { return Failed; }
      rows := rows[f.id := f];
      log := log + [Event(version, f.key, Updated(f))];
      reply := Told(Row(f), fault);
    }

    method Toggle(id: string, fault: Fault) returns (reply: Reply)
      modifies this
      ensures Outcome(State(), reply) == ToggleTx(old(State()), id, fault)
      ensures RowsNamed(old(rows)) ==> ToggleMeans(old(State()), id, fault, State(), reply)
    {
      if RowsNamed(rows) { ToggleIsMeant(State(), id, fault); }
      if fault.EarlyFault? { return Failed; }
      var version := NextVersion();
      if fault.LateFault? { return Failed; }
      if id !in rows { return NotFound; }
      var f := rows[id].(enabled := !rows[id].enabled, version := version);
      rows := rows[f.id := f];
      log := log + [Event(version, f.key, Updated(f))];
      reply := Told(Row(f), fault);
    }

    method Delete(id: string, fault: Fault) returns (reply: Reply)
      modifies this
      ensures Outcome(State(), reply) == DeleteTx(old(State()), id, fault)
      ensures DeleteMeans(old(State()), id, fault, State(), reply)
    {
      DeleteIsMeant(State(), id, fault);
      if fault.EarlyFault? { return Failed; }
      if id !in rows { return NotFound; }
      var key := rows[id].key;
      var version := NextVersion();
      if fault.LateFault? { return Failed; }
      rows := rows - {id};
      log := log + [Event(version, key, Deleted(id))];
      reply := Told(Removed(version), fault);
    }

    method GetLatestVersion(fails: bool) returns (v: Option<int>)
      requires Ordered(log)
      ensures v == if fails then None else Some(MaxVersion(log))
    {
      if fails { return None; }
      var highest := 0;
      OrderedPairs(log, |log|);
      for i := 0 to |log|
        invariant i == 0 ==> highest == 0
        invariant i > 0 ==> highest == log[i - 1].version
      {
        if log[i].version > highest { highest := log[i].version; }
      }
      v := Some(highest);
    }

    /** The handler always asks with limit 0, which means 500. */
    method ListEventsSince(since: int, limit: int, fails: bool) returns (result: Option<seq<Event>>)
      requires Ordered(log)
      ensures fails ==> result == None
      ensures !fails && limit <= 0 ==> result == Some(PageOf(log, since, 500))
      ensures !fails && 0 < limit <= 1000 ==> result == Some(PageOf(log, since, limit))
      ensures !fails && limit > 1000 ==> result == Some(PageOf(log, since, 1000))
    {
      if fails { return None; }
      var cap := if limit <= 0 then 500 else if limit > 1000 then 1000 else limit;
      var page := Query(since, cap);
      result := Some(page);
    }

    /** The rows of the query: later versions in order, at most `cap` of them. */
    method Query(since: int, cap: nat) returns (page: seq<Event>)
      requires Ordered(log)
      ensures page == PageOf(log, since, cap)
    {
      ghost var from := CountUpTo(log, since);
      page := [];
      CountSplits(log, since, |log|);
      for i := 0 to |log|
        invariant |page| == if i <= from then 0 else if i - from <= cap then i - from else cap
        invariant from + |page| <= |log| && page == log[from..from + |page|]
      {
        if log[i].version > since && |page| < cap { page := page + [log[i]]; }
      }
    }
  }
}
