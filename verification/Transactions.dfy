/**
 * The store at statement level: several transactions in flight under READ COMMITTED. A version is taken before the
 * row is written; a write waits for the row's lock and then sees the committed row; commits publish row and event.
 */
module Transactions {
  import opened FlagModel
  import opened EventLog
  import opened Repository

  datatype Op =
    | Create(id: string, draft: Draft)
    | Update(id: string, patch: Patch)
    | Toggle(id: string)
    | Delete(id: string)

  /** A statement's effect, private until commit. A delete may find no row and still appends its event. */
  datatype Write = Write(op: Op, base: Option<Flag>, row: Option<Flag>, event: Event)
  {
    predicate Hit() { base.Some? || row.Some? }
  }

  /** `key` is what a delete has read; `version` is allocated before the row statement runs. */
  datatype Tx =
    | Begun(op: Op) | Read(op: Op, key: string) | Numbered(op: Op, key: string, version: int) | Written(write: Write)

  /** `table` is committed; `txs` are in flight; `commits` lists committed writes in commit order. */
  datatype Db = Db(counter: int, table: map<string, Flag>, txs: map<int, Tx>, commits: seq<Write>)

  datatype Step =
    | Begin(t: int, op: Op) | ReadKey(t: int) | Number(t: int) | Execute(t: int) | Commit(t: int) | Abort(t: int)

  function OpOf(tx: Tx): Op { if tx.Written? then tx.write.op else tx.op }

  function Lookup(table: map<string, Flag>, id: string): Option<Flag> {
    if id in table then Some(table[id]) else None
  }

  /** The transaction has written its row and keeps it locked until it ends. */
  predicate Holds(tx: Tx) { tx.Written? && tx.write.Hit() }

  predicate Locked(db: Db, id: string) {
    exists t :: t in db.txs && Holds(db.txs[t]) && db.txs[t].write.op.id == id
  }

  predicate KeyReserved(db: Db, key: string) {
    exists t :: t in db.txs && db.txs[t].Written? && db.txs[t].write.op.Create? && db.txs[t].write.op.draft.key == key
  }

  /** A random id that nothing in the database has ever carried. */
  predicate FreshId(db: Db, id: string) {
    && id !in db.table
    && (forall t :: t in db.txs ==> OpOf(db.txs[t]).id != id)
    && (forall i :: 0 <= i < |db.commits| ==> db.commits[i].op.id != id)
  }

  /** The write the row statement makes on the committed row, if it applies. */
  function Effected(db: Db, tx: Tx): Option<Write>
    requires tx.Numbered?
  {
    var op, v := tx.op, tx.version;
    match op
    case Create(id, d) =>
      var f := DraftRow(id, d, v);
      if KeyTaken(db.table, d.key) || KeyReserved(db, d.key) || !RowAllowed(f) then None
      else Some(Write(op, None, Some(f), Event(v, d.key, Created(f))))
    case Update(id, p) =>
      if id !in db.table || Locked(db, id) then None
      else
        var row := db.table[id];
        var f := Patched(row, p, v);
        if (p.expected.Some? && row.version != p.expected.value) || !RowAllowed(f) then None
        else Some(Write(op, Some(row), Some(f), Event(v, f.key, Updated(f))))
    case Toggle(id) =>
      if id !in db.table || Locked(db, id) then None
      else
        var row := db.table[id];
        var f := row.(enabled := !row.enabled, version := v);
        Some(Write(op, Some(row), Some(f), Event(v, f.key, Updated(f))))
    case Delete(id) =>
      if Locked(db, id) then None
      else Some(Write(op, Lookup(db.table, id), None, Event(v, tx.key, Deleted(id))))
  }

  /** A statement that does not apply waits for a lock, or its transaction aborts. Updates without fields begin none. */
  predicate Enabled(db: Db, step: Step) {
    match step
    case Begin(t, op) =>
      && t !in db.txs
      && (op.Create? ==> ValidKey(op.draft.key) && FreshId(db, op.id))
      && (op.Update? ==> !op.patch.Empty())
    case ReadKey(t) => t in db.txs && db.txs[t].Begun? && db.txs[t].op.Delete? && db.txs[t].op.id in db.table
    case Number(t) => t in db.txs && (db.txs[t].Read? || (db.txs[t].Begun? && !db.txs[t].op.Delete?))
    case Execute(t) => t in db.txs && db.txs[t].Numbered? && Effected(db, db.txs[t]).Some?
    case Commit(t) => t in db.txs && db.txs[t].Written?
    case Abort(t) => t in db.txs
  }

  function ApplyWrite(table: map<string, Flag>, w: Write): map<string, Flag> {
    if w.row.Some? then table[w.op.id := w.row.value] else if w.base.Some? then table - {w.op.id} else table
  }

  function After(db: Db, step: Step): Db
    requires Enabled(db, step)
  {
    match step
    case Begin(t, op) => db.(txs := db.txs[t := Begun(op)])
    case ReadKey(t) => db.(txs := db.txs[t := Read(db.txs[t].op, db.table[db.txs[t].op.id].key)])
    case Number(t) =>
      var tx := db.txs[t];
      db.(counter := db.counter + 1,
          txs := db.txs[t := Numbered(tx.op, if tx.Read? then tx.key else "", db.counter + 1)])
    case Execute(t) => db.(txs := db.txs[t := Written(Effected(db, db.txs[t]).value)])
    case Commit(t) =>
      var w := db.txs[t].write;
      db.(table := ApplyWrite(db.table, w), txs := db.txs - {t}, commits := db.commits + [w])
    case Abort(t) => db.(txs := db.txs - {t})
  }

  /** The table after the first n commits. */
  function TableAt(initial: map<string, Flag>, commits: seq<Write>, n: nat): map<string, Flag>
    requires n <= |commits|
  {
    if n == 0 then initial else ApplyWrite(TableAt(initial, commits, n - 1), commits[n - 1])
  }

  // The invariant.

  /** What a write says on its own: it acts on one id, keeps the row's key, and carries its version. */
  predicate WriteOk(w: Write) {
    && EventId(w.event) == w.op.id
    && w.event.version >= 1
    && (w.row.Some? ==> w.row.value.id == w.op.id && w.row.value.version == w.event.version
                        && !w.event.change.Deleted? && w.event.change.flag == w.row.value
                        && w.event.key == w.row.value.key)
    && (w.row.None? ==> w.event.change.Deleted?)
    && match w.op
       case Create(_, d) => w.base.None? && w.row.Some? && w.row.value.key == d.key && ValidKey(d.key)
       case Update(_, p) => w.base.Some? && w.row == Some(Patched(w.base.value, p, w.event.version))
                            && (p.expected.None? || w.base.value.version == p.expected.value)
       case Toggle(_) => w.base.Some?
                         && w.row == Some(w.base.value.(enabled := !w.base.value.enabled, version := w.event.version))
       case Delete(_) => w.row.None?
  }

  predicate Versioned(tx: Tx) { tx.Numbered? || tx.Written? }

  function VersionOf(tx: Tx): int
    requires Versioned(tx)
  {
    if tx.Numbered? then tx.version else tx.write.event.version
  }

  /** Every allocated version is in one place only, and above `base`, the counter at the start. */
  predicate VersionsInv(base: int, db: Db) {
    && 0 <= base <= db.counter
    && (forall t :: t in db.txs && Versioned(db.txs[t]) ==> base < VersionOf(db.txs[t]) <= db.counter)
    && (forall i :: 0 <= i < |db.commits| ==> base < db.commits[i].event.version <= db.counter)
    && (forall t, u :: t in db.txs && u in db.txs && t != u && Versioned(db.txs[t]) && Versioned(db.txs[u]) ==>
          VersionOf(db.txs[t]) != VersionOf(db.txs[u]))
    && (forall t, i :: t in db.txs && Versioned(db.txs[t]) && 0 <= i < |db.commits| ==>
          VersionOf(db.txs[t]) != db.commits[i].event.version)
    && (forall i, j :: 0 <= i < j < |db.commits| ==> db.commits[i].event.version != db.commits[j].event.version)
  }

  /** Locks: a pending write's base is the committed row, and no two pending writes share a row. */
  predicate LocksInv(db: Db) {
    && (forall t :: t in db.txs && db.txs[t].Written? ==> WriteOk(db.txs[t].write))
    && (forall t :: t in db.txs && Holds(db.txs[t]) ==>
          db.txs[t].write.base == Lookup(db.table, db.txs[t].write.op.id))
    && (forall t, u :: t in db.txs && u in db.txs && t != u && Holds(db.txs[t]) && Holds(db.txs[u]) ==>
          db.txs[t].write.op.id != db.txs[u].write.op.id)
  }

  /** A creating transaction's id is its own. */
  predicate FreshInv(db: Db) {
    forall t :: t in db.txs && OpOf(db.txs[t]).Create? ==>
      && OpOf(db.txs[t]).id !in db.table
      && ValidKey(OpOf(db.txs[t]).draft.key)
      && (forall u :: u in db.txs && u != t && OpOf(db.txs[u]).Create? ==> OpOf(db.txs[u]).id != OpOf(db.txs[t]).id)
  }

  /** Commits form, per row, an unbroken chain: each write's base is the row the previous one left. */
  predicate ChainInv(initial: map<string, Flag>, db: Db) {
    && db.table == TableAt(initial, db.commits, |db.commits|)
    && (forall i :: 0 <= i < |db.commits| ==> Chained(initial, db.commits, i))
  }

  predicate Chained(initial: map<string, Flag>, commits: seq<Write>, i: nat)
    requires i < |commits|
  {
    && WriteOk(commits[i])
    && (commits[i].Hit() ==> commits[i].base == Lookup(TableAt(initial, commits, i), commits[i].op.id))
  }

  predicate IdsInv(table: map<string, Flag>) { forall id :: id in table ==> table[id].id == id }

  predicate Inv(initial: map<string, Flag>, base: int, db: Db) {
    VersionsInv(base, db) && LocksInv(db) && FreshInv(db) && IdsInv(db.table) && ChainInv(initial, db)
  }

  lemma {:induction false} TableAtPrefix(initial: map<string, Flag>, commits: seq<Write>, w: Write, n: nat)
    requires n <= |commits|
    ensures TableAt(initial, commits + [w], n) == TableAt(initial, commits, n)
  {
    if n > 0 { TableAtPrefix(initial, commits, w, n - 1); }
  }

  lemma EffectedOk(db: Db, tx: Tx)
    requires IdsInv(db.table) && tx.Numbered? && tx.version >= 1 && Effected(db, tx).Some?
    requires tx.op.Create? ==> ValidKey(tx.op.draft.key) && tx.op.id !in db.table
    ensures var w := Effected(db, tx).value;
      && WriteOk(w) && w.op == tx.op && w.event.version == tx.version
      && (w.Hit() ==> w.base == Lookup(db.table, w.op.id) && (w.op.Create? || !Locked(db, w.op.id)))
  {
  }

  /** A step that leaves commits alone and gives a transaction its own old version, none, or the next one. */
  lemma VersionMove(base: int, db: Db, d: Db, t: int)
    requires VersionsInv(base, db) && t in d.txs && d.txs == db.txs[t := d.txs[t]] && d.commits == db.commits
    requires d.counter >= db.counter
    requires Versioned(d.txs[t]) ==>
      (t in db.txs && Versioned(db.txs[t]) && VersionOf(d.txs[t]) == VersionOf(db.txs[t]))
      || VersionOf(d.txs[t]) == db.counter + 1 == d.counter
    ensures VersionsInv(base, d)
  {
  }

  lemma CommitKeepsVersions(base: int, db: Db, t: int)
    requires VersionsInv(base, db) && Enabled(db, Commit(t))
    ensures VersionsInv(base, After(db, Commit(t)))
  {
    assert Versioned(db.txs[t]) && VersionOf(db.txs[t]) == db.txs[t].write.event.version;
  }

  lemma VersionsKept(base: int, db: Db, step: Step)
    requires VersionsInv(base, db) && Enabled(db, step)
    ensures VersionsInv(base, After(db, step))
  {
    match step
    case Commit(t) => CommitKeepsVersions(base, db, t);
    case Abort(t) =>
    case _ => VersionMove(base, db, After(db, step), step.t);
  }

  lemma FreshKept(db: Db, step: Step)
    requires FreshInv(db) && LocksInv(db) && Enabled(db, step)
    ensures FreshInv(After(db, step))
  {
    match step
    case Begin(t, op) =>
    case Commit(t) => assert OpOf(db.txs[t]) == db.txs[t].write.op;
    case Execute(t) => assert OpOf(After(db, step).txs[t]) == OpOf(db.txs[t]);
    case Number(t) => assert OpOf(After(db, step).txs[t]) == OpOf(db.txs[t]);
    case ReadKey(t) => assert OpOf(After(db, step).txs[t]) == OpOf(db.txs[t]);
    case _ =>
  }

  lemma ExecuteKeepsLocks(base: int, db: Db, t: int)
    requires VersionsInv(base, db) && FreshInv(db) && LocksInv(db) && IdsInv(db.table) && Enabled(db, Execute(t))
    ensures LocksInv(After(db, Execute(t)))
  {
    var d, w := After(db, Execute(t)), Effected(db, db.txs[t]).value;
    assert Versioned(db.txs[t]) && OpOf(db.txs[t]) == db.txs[t].op;
    EffectedOk(db, db.txs[t]);
    forall u | u in d.txs && u != t && w.Hit() && Holds(d.txs[u]) ensures d.txs[u].write.op.id != w.op.id {
      assert OpOf(db.txs[u]) == d.txs[u].write.op;
      assert d.txs[u].write.op.id == w.op.id ==> Locked(db, w.op.id);
    }
  }

  lemma CommitKeepsLocks(db: Db, t: int)
    requires FreshInv(db) && LocksInv(db) && IdsInv(db.table) && Enabled(db, Commit(t))
    ensures LocksInv(After(db, Commit(t))) && IdsInv(After(db, Commit(t)).table)
  {
    var d, w := After(db, Commit(t)), db.txs[t].write;
    forall u | u in d.txs && Holds(d.txs[u])
      ensures d.txs[u].write.base == Lookup(d.table, d.txs[u].write.op.id) {
      if w.Hit() { assert d.txs[u].write.op.id != w.op.id; }
    }
  }

  lemma CommitKeepsChain(initial: map<string, Flag>, db: Db, t: int)
    requires LocksInv(db) && ChainInv(initial, db) && Enabled(db, Commit(t))
    ensures ChainInv(initial, After(db, Commit(t)))
  {
    var d, w := After(db, Commit(t)), db.txs[t].write;
    forall i | 0 <= i <= |db.commits| ensures TableAt(initial, d.commits, i) == TableAt(initial, db.commits, i) {
      TableAtPrefix(initial, db.commits, w, i);
    }
    forall i | 0 <= i < |d.commits| ensures Chained(initial, d.commits, i) {
      if i < |db.commits| { assert Chained(initial, db.commits, i); }
    }
  }

  lemma StepKeepsInv(initial: map<string, Flag>, base: int, db: Db, step: Step)
    requires Inv(initial, base, db) && Enabled(db, step)
    ensures Inv(initial, base, After(db, step))
  {
    VersionsKept(base, db, step);
    FreshKept(db, step);
    match step
    case Execute(t) => ExecuteKeepsLocks(base, db, t);
    case Commit(t) => CommitKeepsLocks(db, t); CommitKeepsChain(initial, db, t);
    case _ =>
  }

  /** A run from any starting table: every row's version was handed out before it began. */
  predicate Run(initial: map<string, Flag>, base: int, states: seq<Db>, steps: seq<Step>) {
    && |states| == |steps| + 1 && states[0] == Db(base, initial, map[], [])
    && (forall i :: 0 <= i < |steps| ==> Enabled(states[i], steps[i]) && states[i + 1] == After(states[i], steps[i]))
    && 0 <= base && IdsInv(initial) && forall id :: id in initial ==> initial[id].version <= base
  }

  lemma {:induction false} RunKeepsInv(initial: map<string, Flag>, base: int, states: seq<Db>, steps: seq<Step>, i: nat)
    requires Run(initial, base, states, steps) && i < |states|
    ensures Inv(initial, base, states[i])
  {
    if i > 0 {
      RunKeepsInv(initial, base, states, steps, i - 1);
      assert states[i] == After(states[i - 1], steps[i - 1]);
      StepKeepsInv(initial, base, states[i - 1], steps[i - 1]);
    }
  }

  predicate Touches(w: Write, id: string) { w.Hit() && w.op.id == id }

  /** A committed row is the one its last touching commit wrote, or the initial one if none did. */
  lemma {:induction false} RowSource(initial: map<string, Flag>, commits: seq<Write>, n: nat, id: string)
    returns (k: int)
    requires n <= |commits| && (forall i :: 0 <= i < |commits| ==> Chained(initial, commits, i))
    requires id in TableAt(initial, commits, n)
    ensures -1 <= k < n
    ensures k >= 0 ==> Touches(commits[k], id) && commits[k].row == Some(TableAt(initial, commits, n)[id])
                       && TableAt(initial, commits, n)[id].version == commits[k].event.version
    ensures k < 0 ==> id in initial && TableAt(initial, commits, n)[id] == initial[id]
    ensures forall j :: k < j < n ==> !Touches(commits[j], id)
  {
    if n == 0 {
      k := -1;
    } else {
      assert Chained(initial, commits, n - 1);
      if Touches(commits[n - 1], id) { k := n - 1; } else { k := RowSource(initial, commits, n - 1, id); }
    }
  }

  /** No row ever returns to a version it has left, even when commits happen out of version order. */
  lemma NoReturn(initial: map<string, Flag>, base: int, states: seq<Db>, steps: seq<Step>, s: nat, i: nat, j: nat,
                 id: string)
    requires Run(initial, base, states, steps) && s < |states| && i <= j <= |states[s].commits|
    requires var commits := states[s].commits;
      && id in TableAt(initial, commits, i) && id in TableAt(initial, commits, j)
      && TableAt(initial, commits, i)[id].version == TableAt(initial, commits, j)[id].version
    ensures forall k :: i <= k < j ==> !Touches(states[s].commits[k], id)
    ensures TableAt(initial, states[s].commits, i)[id] == TableAt(initial, states[s].commits, j)[id]
  {
    RunKeepsInv(initial, base, states, steps, s);
    var commits := states[s].commits;
    var a := RowSource(initial, commits, i, id);
    var b := RowSource(initial, commits, j, id);
  }

  predicate ConditionalOn(w: Write, id: string, expected: int) {
    w.op.Update? && w.op.id == id && w.op.patch.expected == Some(expected)
  }

  /**
   * Optimistic writes: for each flag and expected version at most one conditional update commits, and it is applied to
   * exactly the committed row that carried that version.
   */
  lemma OptimisticOnce(initial: map<string, Flag>, base: int, states: seq<Db>, steps: seq<Step>, s: nat, i: nat, j: nat,
                       id: string, expected: int)
    requires Run(initial, base, states, steps) && s < |states|
    requires i < |states[s].commits| && j < |states[s].commits|
    requires ConditionalOn(states[s].commits[i], id, expected) && ConditionalOn(states[s].commits[j], id, expected)
    ensures i == j
    ensures var w, before := states[s].commits[i], TableAt(initial, states[s].commits, i);
      && id in before && before[id].version == expected && w.base == Some(before[id])
      && w.row == Some(Patched(before[id], w.op.patch, w.event.version))
  {
    RunKeepsInv(initial, base, states, steps, s);
    var commits := states[s].commits;
    assert Chained(initial, commits, i) && Chained(initial, commits, j);
    if i < j {
      NoReturn(initial, base, states, steps, s, i, j, id);
      assert Touches(commits[i], id);
    }
    if j < i {
      NoReturn(initial, base, states, steps, s, j, i, id);
      assert Touches(commits[j], id);
    }
  }

  /** Every committed write has its own event, and all event versions are distinct. */
  lemma EventVersionsDistinct(initial: map<string, Flag>, base: int, states: seq<Db>, steps: seq<Step>, s: nat,
                              i: nat, j: nat)
    requires Run(initial, base, states, steps) && s < |states| && i < j < |states[s].commits|
    ensures states[s].commits[i].event.version != states[s].commits[j].event.version
    ensures states[s].commits[i].event.version <= states[s].counter
  {
    RunKeepsInv(initial, base, states, steps, s);
  }

  /** How many of the first n commits touched the row. */
  function TouchCount(commits: seq<Write>, n: nat, id: string): nat
    requires n <= |commits|
  {
    if n == 0 then 0 else TouchCount(commits, n - 1, id) + if Touches(commits[n - 1], id) then 1 else 0
  }

  lemma {:induction false} TogglesFlip(initial: map<string, Flag>, commits: seq<Write>, n: nat, id: string)
    requires n <= |commits| && id in initial && (forall i :: 0 <= i < |commits| ==> Chained(initial, commits, i))
    requires forall i :: 0 <= i < n && Touches(commits[i], id) ==> commits[i].op.Toggle?
    ensures id in TableAt(initial, commits, n)
    ensures var f := TableAt(initial, commits, n)[id];
      var even := TouchCount(commits, n, id) % 2 == 0;
      f == initial[id].(enabled := if even then initial[id].enabled else !initial[id].enabled, version := f.version)
  {
    if n > 0 {
      TogglesFlip(initial, commits, n - 1, id);
      assert Chained(initial, commits, n - 1);
    }
  }

  /**
   * No lost toggles: a flag changed only by toggles is its initial value flipped once per committed toggle, whatever
   * the interleaving and even when commit order differs from version order.
   */
  lemma NoLostToggles(initial: map<string, Flag>, base: int, states: seq<Db>, steps: seq<Step>, s: nat, id: string)
    requires Run(initial, base, states, steps) && s < |states| && id in initial
    requires forall i :: 0 <= i < |states[s].commits| && Touches(states[s].commits[i], id) ==>
                           states[s].commits[i].op.Toggle?
    ensures id in states[s].table
    ensures var toggles := TouchCount(states[s].commits, |states[s].commits|, id);
      states[s].table[id].enabled == if toggles % 2 == 0 then initial[id].enabled else !initial[id].enabled
  {
    RunKeepsInv(initial, base, states, steps, s);
    TogglesFlip(initial, states[s].commits, |states[s].commits|, id);
  }

  // Left alone, the statements are the atomic transaction.

  function Atomic(s: Store, op: Op): Outcome {
    match op
    case Create(id, d) => CreateTx(s, id, d, NoFault)
    case Update(id, p) => UpdateTx(s, id, p, NoFault)
    case Toggle(id) => ToggleTx(s, id, NoFault)
    case Delete(id) => DeleteTx(s, id, NoFault)
  }

  /** Both kept the same table and counter, and the one event the store logged is the one committed here. */
  predicate SameEnd(o: Outcome, log: seq<Event>, db: Db, d: Db) {
    && d.table == o.store.rows && d.counter == o.store.counter && d.txs == db.txs
    && |d.commits| == |db.commits| + 1 && o.store.log == log + [d.commits[|db.commits|].event]
  }

  /** A transaction with nothing else in flight: its row statement applies exactly when the atomic one answers a row. */
  lemma AloneIsAtomic(db: Db, log: seq<Event>, t: int, op: Op)
    requires db.txs == map[] && IdsInv(db.table) && Enabled(db, Begin(t, op)) && !op.Delete?
    ensures Enabled(After(db, Begin(t, op)), Number(t))
    ensures var d, o := After(After(db, Begin(t, op)), Number(t)), Atomic(Store(db.counter, db.table, log), op);
      && (Enabled(d, Execute(t)) <==> o.reply.Row?)
      && (Enabled(d, Execute(t)) ==>
            && Enabled(After(d, Execute(t)), Commit(t))
            && SameEnd(o, log, db, After(After(d, Execute(t)), Commit(t))))
      && (!Enabled(d, Execute(t)) ==> o.store == Store(d.counter, d.table, log))
  {
    var d1 := After(db, Begin(t, op));
    var d := After(d1, Number(t));
    assert !KeyReserved(d, if op.Create? then op.draft.key else "") && !Locked(d, op.id);
    if Enabled(d, Execute(t)) { assert After(After(d, Execute(t)), Commit(t)).txs == db.txs; }
  }

  lemma DeleteAloneIsAtomic(db: Db, log: seq<Event>, t: int, id: string)
    requires db.txs == map[] && IdsInv(db.table)
    ensures var d, o := After(db, Begin(t, Delete(id))), Atomic(Store(db.counter, db.table, log), Delete(id));
      && (Enabled(d, ReadKey(t)) <==> o.reply.Removed?)
      && (Enabled(d, ReadKey(t)) ==>
            && Enabled(After(d, ReadKey(t)), Number(t))
            && var numbered := After(After(d, ReadKey(t)), Number(t));
            && Enabled(numbered, Execute(t)) && Enabled(After(numbered, Execute(t)), Commit(t))
            && SameEnd(o, log, db, After(After(numbered, Execute(t)), Commit(t))))
      && (!Enabled(d, ReadKey(t)) ==> o.store == Store(d.counter, d.table, log))
  {
    var d := After(db, Begin(t, Delete(id)));
    if Enabled(d, ReadKey(t)) {
      var numbered := After(After(d, ReadKey(t)), Number(t));
      assert !Locked(numbered, id);
      var written := After(numbered, Execute(t));
      assert After(written, Commit(t)).txs == db.txs;
    }
  }

  // The table and the log, both started empty.

  /** The key a delete carries with it once it has read it. */
  predicate Remembers(tx: Tx) { OpOf(tx).Delete? && !tx.Begun? }

  function KeyOf(tx: Tx): string
    requires Remembers(tx)
  {
    if tx.Written? then tx.write.event.key else tx.key
  }

  predicate Creating(tx: Tx) { tx.Written? && tx.write.op.Create? }

  predicate KeysInv(db: Db) {
    && (forall id :: id in db.table ==> ValidKey(db.table[id].key))
    && (forall t :: t in db.txs && Creating(db.txs[t]) ==> !KeyTaken(db.table, db.txs[t].write.op.draft.key))
    && (forall t, u :: t in db.txs && u in db.txs && t != u && Creating(db.txs[t]) && Creating(db.txs[u]) ==>
          db.txs[t].write.op.draft.key != db.txs[u].write.op.draft.key)
    && (forall t :: t in db.txs && Remembers(db.txs[t]) && OpOf(db.txs[t]).id in db.table ==>
          db.table[OpOf(db.txs[t]).id].key == KeyOf(db.txs[t]))
    && (forall t, u :: t in db.txs && u in db.txs && Remembers(db.txs[t]) && OpOf(db.txs[u]).Create? ==>
          OpOf(db.txs[u]).id != OpOf(db.txs[t]).id)
  }

  /** The commits replayed in commit order, leaving out deletes that removed no row. */
  function RealReplay(commits: seq<Write>, n: nat): Flags
    requires n <= |commits|
  {
    if n == 0 then map[]
    else if commits[n - 1].Hit() then Effect(RealReplay(commits, n - 1), commits[n - 1].event)
    else RealReplay(commits, n - 1)
  }

  lemma {:induction false} RealReplayPrefix(commits: seq<Write>, w: Write, n: nat)
    requires n <= |commits|
    ensures RealReplay(commits + [w], n) == RealReplay(commits, n)
  {
    if n > 0 { RealReplayPrefix(commits, w, n - 1); }
  }

  predicate TableInv(db: Db) { KeysInv(db) && Mirror(db.table, RealReplay(db.commits, |db.commits|)) }

  lemma CommitKeepsKeys(db: Db, t: int)
    requires KeysInv(db) && FreshInv(db) && LocksInv(db) && IdsInv(db.table) && Enabled(db, Commit(t))
    ensures KeysInv(After(db, Commit(t)))
  {
    var d, w := After(db, Commit(t)), db.txs[t].write;
    assert OpOf(db.txs[t]) == w.op;
    forall u | u in d.txs && Creating(d.txs[u]) ensures !KeyTaken(d.table, d.txs[u].write.op.draft.key) {
      var key := d.txs[u].write.op.draft.key;
      assert !KeyTaken(db.table, key);
      forall id | id in d.table ensures d.table[id].key != key {
        if id == w.op.id && w.Hit() { assert w.row.Some? && (w.op.Create? || w.row.value.key == w.base.value.key); }
      }
    }
  }

  lemma CommitKeepsMirror(db: Db, t: int)
    requires TableInv(db) && FreshInv(db) && LocksInv(db) && IdsInv(db.table) && Enabled(db, Commit(t))
    ensures TableInv(After(db, Commit(t)))
  {
    var d, w := After(db, Commit(t)), db.txs[t].write;
    CommitKeepsKeys(db, t);
    RealReplayPrefix(db.commits, w, |db.commits|);
    if w.Hit() {
      assert OpOf(db.txs[t]) == w.op;
      assert WriteOk(w) && w.base == Lookup(db.table, w.op.id);
      if w.op.Delete? { assert Remembers(db.txs[t]) && KeyOf(db.txs[t]) == w.event.key; }
      if w.op.Create? { assert Creating(db.txs[t]); }
      if w.base.Some? { assert w.op.id in db.table && ValidKey(db.table[w.op.id].key); }
      MirrorKeepsCommit(db.table, RealReplay(db.commits, |db.commits|), w.event);
      assert RowsAfter(db.table, w.event) == d.table;
    }
  }

  lemma EffectedKeys(db: Db, tx: Tx)
    requires tx.Numbered? && Effected(db, tx).Some?
    ensures var w := Effected(db, tx).value;
      && w.op == tx.op
      && (w.op.Create? ==> !KeyTaken(db.table, w.op.draft.key) && !KeyReserved(db, w.op.draft.key))
      && (w.op.Delete? ==> w.event.key == tx.key)
  {
  }

  /** What a transaction has to remember does not change when its row statement runs. */
  lemma SameMemory(tx: Tx, w: Write)
    requires tx.Numbered? && w.op == tx.op && (w.op.Delete? ==> w.event.key == tx.key)
    ensures OpOf(Written(w)) == OpOf(tx) && Remembers(Written(w)) == Remembers(tx)
    ensures Remembers(tx) ==> KeyOf(Written(w)) == KeyOf(tx)
    ensures OpOf(Written(w)) == w.op
  {
  }

  lemma ExecuteKeepsKeys(base: int, db: Db, t: int)
    requires KeysInv(db) && VersionsInv(base, db) && FreshInv(db) && IdsInv(db.table) && Enabled(db, Execute(t))
    ensures KeysInv(After(db, Execute(t)))
  {
    EffectedKeys(db, db.txs[t]);
    SameMemory(db.txs[t], Effected(db, db.txs[t]).value);
    hide Effected, VersionsInv, FreshInv, KeyTaken, OpOf, Remembers, KeyOf;
  }

  lemma BeginKeepsKeys(db: Db, t: int, op: Op)
    requires KeysInv(db) && Enabled(db, Begin(t, op))
    ensures KeysInv(After(db, Begin(t, op)))
  {
    assert !Remembers(Begun(op)) && !Creating(Begun(op));
  }

  lemma NumberKeepsKeys(db: Db, t: int)
    requires KeysInv(db) && Enabled(db, Number(t))
    ensures KeysInv(After(db, Number(t)))
  {
    assert OpOf(After(db, Number(t)).txs[t]) == OpOf(db.txs[t]);
  }

  lemma ReadKeepsKeys(db: Db, t: int)
    requires KeysInv(db) && FreshInv(db) && Enabled(db, ReadKey(t))
    ensures KeysInv(After(db, ReadKey(t)))
  {
    assert OpOf(After(db, ReadKey(t)).txs[t]) == OpOf(db.txs[t]);
  }

  lemma StepKeepsKeys(base: int, db: Db, step: Step)
    requires KeysInv(db) && VersionsInv(base, db) && FreshInv(db) && LocksInv(db) && IdsInv(db.table)
    requires Enabled(db, step) && !step.Commit?
    ensures KeysInv(After(db, step))
  {
    match step
    case Begin(t, op) => BeginKeepsKeys(db, t, op);
    case Execute(t) => ExecuteKeepsKeys(base, db, t);
    case Number(t) => NumberKeepsKeys(db, t);
    case ReadKey(t) => ReadKeepsKeys(db, t);
    case Abort(_) =>
  }

  lemma {:induction false} RunKeepsTable(base: int, states: seq<Db>, steps: seq<Step>, i: nat)
    requires Run(map[], base, states, steps) && i < |states|
    ensures TableInv(states[i])
  {
    if i > 0 {
      RunKeepsTable(base, states, steps, i - 1);
      RunKeepsInv(map[], base, states, steps, i - 1);
      var db, step := states[i - 1], steps[i - 1];
      assert states[i] == After(db, step);
      if step.Commit? { CommitKeepsMirror(db, step.t); } else { StepKeepsKeys(base, db, step); }
    }
  }

  /** In commit order the table is always the replay of the commits that hit a row. */
  lemma TableIsRealReplay(base: int, states: seq<Db>, steps: seq<Step>, s: nat)
    requires Run(map[], base, states, steps) && s < |states|
    ensures Mirror(states[s].table, RealReplay(states[s].commits, |states[s].commits|))
  {
    RunKeepsTable(base, states, steps, s);
  }

  /** `log` is the event table read in version order. */
  predicate VersionOrder(log: seq<Event>, commits: seq<Write>) {
    && Ordered(log)
    && (forall i :: 0 <= i < |commits| ==> commits[i].event in log)
    && (forall k :: 0 <= k < |log| ==> exists i :: 0 <= i < |commits| && commits[i].event == log[k])
  }

  /** No commit of the key carries a higher version. */
  predicate Newest(commits: seq<Write>, i: nat)
    requires i < |commits|
  {
    forall j :: 0 <= j < |commits| && commits[j].event.key == commits[i].event.key ==>
      commits[j].event.version <= commits[i].event.version
  }

  /** The commit hit a row, and no later one of the same key did. */
  predicate LastHit(commits: seq<Write>, i: nat)
    requires i < |commits|
  {
    && commits[i].Hit()
    && forall j :: i < j < |commits| && commits[j].Hit() ==> commits[j].event.key != commits[i].event.key
  }

  /**
   * The key's highest version is also its last word: a flag that nothing real was committed for later; or a deletion,
   * and so is the key's last commit that hit a row, if there is one.
   */
  predicate Settled(commits: seq<Write>, i: nat)
    requires i < |commits|
  {
    if commits[i].event.change.Deleted? then
      forall j :: 0 <= j < |commits| && LastHit(commits, j) && commits[j].event.key == commits[i].event.key ==>
        commits[j].event.change.Deleted?
    else LastHit(commits, i)
  }

  lemma {:induction false} RealWriter(commits: seq<Write>, n: nat, k: string) returns (i: nat)
    requires n <= |commits| && k in RealReplay(commits, n)
    ensures i < n && commits[i].Hit() && commits[i].event.key == k && !commits[i].event.change.Deleted?
    ensures RealReplay(commits, n)[k] == commits[i].event.change.flag
    ensures forall j :: i < j < n && commits[j].Hit() ==> commits[j].event.key != k
  {
    if commits[n - 1].Hit() && commits[n - 1].event.key == k {
      i := n - 1;
    } else {
      i := RealWriter(commits, n - 1, k);
    }
  }

  lemma {:induction false} RealLast(commits: seq<Write>, n: nat, i: nat)
    requires i < n <= |commits| && commits[i].Hit() && !commits[i].event.change.Deleted?
    requires forall j :: i < j < n && commits[j].Hit() ==> commits[j].event.key != commits[i].event.key
    ensures commits[i].event.key in RealReplay(commits, n)
    ensures RealReplay(commits, n)[commits[i].event.key] == commits[i].event.change.flag
  {
    if i < n - 1 { RealLast(commits, n - 1, i); }
  }

  /** Some commit of a named key carries its highest version. */
  lemma {:induction false} HasNewest(commits: seq<Write>, n: nat, key: string) returns (i: nat)
    requires n <= |commits| && exists j :: 0 <= j < n && commits[j].event.key == key
    ensures i < n && commits[i].event.key == key
    ensures forall j :: 0 <= j < n && commits[j].event.key == key ==>
              commits[j].event.version <= commits[i].event.version
  {
    if exists j :: 0 <= j < n - 1 && commits[j].event.key == key {
      i := HasNewest(commits, n - 1, key);
      if commits[n - 1].event.key == key && commits[n - 1].event.version > commits[i].event.version { i := n - 1; }
    } else {
      i := n - 1;
    }
  }

  /** In version order, a key's newest commit decides what a client ends up with. */
  lemma {:induction false} NewestDecides(log: seq<Event>, commits: seq<Write>, i: nat)
    requires VersionOrder(log, commits) && i < |commits| && Newest(commits, i)
    ensures var e := commits[i].event;
      && (e.key in Replay(log) <==> !e.change.Deleted?)
      && (!e.change.Deleted? ==> Replay(log)[e.key] == e.change.flag)
  {
    hide ReplayTo;
    var e := commits[i].event;
    var k :| 0 <= k < |log| && log[k] == e;
    OrderedPairs(log, |log|);
    forall j | k < j < |log| ensures log[j].key != e.key {
      var m :| 0 <= m < |commits| && commits[m].event == log[j];
      assert log[j].version > e.version;
    }
    LastEventDecides(log, |log|, k);
  }

  lemma MirrorIsUnique(rows: map<string, Flag>, a: Flags, b: Flags)
    requires Mirror(rows, a) && Mirror(rows, b)
    ensures a == b
  {
    forall k | k in a ensures k in b && a[k] == b[k] { assert rows[a[k].id] == a[k]; }
    forall k | k in b ensures k in a && a[k] == b[k] { assert rows[b[k].id] == b[k]; }
  }

  /** A key is gone from the real replay exactly when its last hit, if any, deleted it. */
  lemma {:induction false} GoneIff(commits: seq<Write>, key: string)
    ensures key !in RealReplay(commits, |commits|) <==>
            forall j :: 0 <= j < |commits| && LastHit(commits, j) && commits[j].event.key == key ==>
              commits[j].event.change.Deleted?
  {
    if key in RealReplay(commits, |commits|) {
      var i := RealWriter(commits, |commits|, key);
      assert LastHit(commits, i);
    } else {
      forall j | 0 <= j < |commits| && LastHit(commits, j) && commits[j].event.key == key
        ensures commits[j].event.change.Deleted? {
        if !commits[j].event.change.Deleted? { RealLast(commits, |commits|, j); }
      }
    }
  }

  /** The key is settled exactly when both replays say the same about it. */
  lemma {:induction false} SettledKey(commits: seq<Write>, log: seq<Event>, i: nat)
    requires VersionOrder(log, commits) && i < |commits| && Newest(commits, i)
    requires forall j :: 0 <= j < |commits| ==> WriteOk(commits[j])
    requires forall a, b :: 0 <= a < b < |commits| ==> commits[a].event.version != commits[b].event.version
    ensures var key, truth, read := commits[i].event.key, RealReplay(commits, |commits|), Replay(log);
      Settled(commits, i) <==> ((key in truth <==> key in read) && (key in truth ==> truth[key] == read[key]))
  {
    var e, truth, read := commits[i].event, RealReplay(commits, |commits|), Replay(log);
    NewestDecides(log, commits, i);
    assert WriteOk(commits[i]);
    if e.change.Deleted? {
      GoneIff(commits, e.key);
    } else {
      if Settled(commits, i) { RealLast(commits, |commits|, i); }
      if e.key in truth {
        var w := RealWriter(commits, |commits|, e.key);
        assert WriteOk(commits[w]);
        if truth[e.key] == read[e.key] { assert w == i; }
      }
    }
  }

  lemma {:induction false} SettledKeysAgree(commits: seq<Write>, log: seq<Event>)
    requires VersionOrder(log, commits) && forall j :: 0 <= j < |commits| ==> WriteOk(commits[j])
    requires forall a, b :: 0 <= a < b < |commits| ==> commits[a].event.version != commits[b].event.version
    ensures RealReplay(commits, |commits|) == Replay(log) <==>
            forall i :: 0 <= i < |commits| && Newest(commits, i) ==> Settled(commits, i)
  {
    hide Settled, Replay, RealReplay;
    var truth, read := RealReplay(commits, |commits|), Replay(log);
    if truth == read {
      forall i | 0 <= i < |commits| && Newest(commits, i) ensures Settled(commits, i) { SettledKey(commits, log, i); }
    }
    if forall i :: 0 <= i < |commits| && Newest(commits, i) ==> Settled(commits, i) {
      forall k | k in truth || k in read ensures k in truth && k in read && truth[k] == read[k] {
        KeyIsNamed(commits, log, k);
        var i := HasNewest(commits, |commits|, k);
        assert Newest(commits, i);
        SettledKey(commits, log, i);
      }
      assert truth == read;
    }
  }

  /**
   * What out-of-order commits do to the log itself: read as a whole in version order, as a client that starts late
   * reads it, it agrees with the table exactly when each key's highest version is its last word.
   */
  lemma {:induction false} LogAgreesIff(base: int, states: seq<Db>, steps: seq<Step>, s: nat, log: seq<Event>)
    requires Run(map[], base, states, steps) && s < |states| && VersionOrder(log, states[s].commits)
    ensures Mirror(states[s].table, Replay(log)) <==>
            forall i :: 0 <= i < |states[s].commits| && Newest(states[s].commits, i) ==> Settled(states[s].commits, i)
  {
    RunKeepsInv(map[], base, states, steps, s);
    RunKeepsTable(base, states, steps, s);
    var db := states[s];
    forall j | 0 <= j < |db.commits| ensures WriteOk(db.commits[j]) { assert Chained(map[], db.commits, j); }
    SettledKeysAgree(db.commits, log);
    if Mirror(db.table, Replay(log)) { MirrorIsUnique(db.table, RealReplay(db.commits, |db.commits|), Replay(log)); }
  }

  /** Commits in version order, with every delete removing its row, are all it takes: then log and table agree. */
  lemma {:induction false} InOrderCommitsAgree(base: int, states: seq<Db>, steps: seq<Step>, s: nat, log: seq<Event>)
    requires Run(map[], base, states, steps) && s < |states| && VersionOrder(log, states[s].commits)
    requires var commits := states[s].commits;
      && (forall i :: 0 <= i < |commits| ==> commits[i].Hit())
      && (forall i, j :: 0 <= i < j < |commits| ==> commits[i].event.version < commits[j].event.version)
    ensures Mirror(states[s].table, Replay(log))
  {
    LogAgreesIff(base, states, steps, s, log);
    var commits := states[s].commits;
    forall i | 0 <= i < |commits| && Newest(commits, i) ensures Settled(commits, i) { LastIsSettled(commits, i); }
  }

  lemma {:induction false} LastIsSettled(commits: seq<Write>, i: nat)
    requires i < |commits| && Newest(commits, i)
    requires forall j :: 0 <= j < |commits| ==> commits[j].Hit()
    requires forall a, b :: 0 <= a < b < |commits| ==> commits[a].event.version < commits[b].event.version
    ensures Settled(commits, i)
  {
    assert LastHit(commits, i);
    forall j | 0 <= j < |commits| && LastHit(commits, j) && commits[j].event.key == commits[i].event.key
      ensures j == i {
    }
  }

  lemma {:induction false} KeyIsNamed(commits: seq<Write>, log: seq<Event>, k: string)
    requires VersionOrder(log, commits) && (k in RealReplay(commits, |commits|) || k in Replay(log))
    ensures exists j :: 0 <= j < |commits| && commits[j].event.key == k
  {
    if k in RealReplay(commits, |commits|) {
      var i := RealWriter(commits, |commits|, k);
    } else {
      var p := LastWriter(log, |log|, k);
      var j :| 0 <= j < |commits| && commits[j].event == log[p];
    }
  }

  // Two runs that show what the condition excludes.

  datatype Trace = Trace(states: seq<Db>, steps: seq<Step>)

  predicate FromEmpty(r: Trace) { Run(map[], 0, r.states, r.steps) }

  function Last(r: Trace): Db
    requires |r.states| > 0
  {
    r.states[|r.states| - 1]
  }

  lemma Extend(r: Trace, step: Step) returns (next: Trace)
    requires FromEmpty(r) && Enabled(Last(r), step)
    ensures FromEmpty(next) && Last(next) == After(Last(r), step)
    ensures |next.states| == |r.states| + 1 && forall i :: 0 <= i < |r.states| ==> next.states[i] == r.states[i]
  {
    next := Trace(r.states + [After(Last(r), step)], r.steps + [step]);
    forall i | 0 <= i < |next.steps|
      ensures Enabled(next.states[i], next.steps[i]) && next.states[i + 1] == After(next.states[i], next.steps[i]) {
      if i < |r.steps| { assert next.states[i] == r.states[i] && next.states[i + 1] == r.states[i + 1]; }
    }
  }

  predicate NoneWritten(db: Db, but: int) { forall u :: u in db.txs && u != but ==> !db.txs[u].Written? }

  lemma NumberCreate(r: Trace, t: int, id: string, d: Draft) returns (next: Trace)
    requires FromEmpty(r) && t !in Last(r).txs && ValidKey(d.key) && FreshId(Last(r), id)
    ensures FromEmpty(next)
    ensures var db := Last(r);
      Last(next) == Db(db.counter + 1, db.table, db.txs[t := Numbered(Create(id, d), "", db.counter + 1)], db.commits)
  {
    var r1 := Extend(r, Begin(t, Create(id, d)));
    next := Extend(r1, Number(t));
    assert Last(next).txs == Last(r).txs[t := Numbered(Create(id, d), "", Last(r).counter + 1)];
  }

  lemma FinishCreate(r: Trace, t: int, id: string, d: Draft, v: int) returns (next: Trace)
    requires FromEmpty(r) && t in Last(r).txs && Last(r).txs[t] == Numbered(Create(id, d), "", v)
    requires DraftAllowed(d) && !KeyTaken(Last(r).table, d.key) && NoneWritten(Last(r), t)
    ensures FromEmpty(next) && |next.states| > |r.states| && next.states[|r.states| - 1] == Last(r)
    ensures var db, f := Last(r), DraftRow(id, d, v);
      Last(next) == Db(db.counter, db.table[id := f], db.txs - {t},
                       db.commits + [Write(Create(id, d), None, Some(f), Event(v, d.key, Created(f)))])
  {
    var r1 := Extend(r, Execute(t));
    next := Extend(r1, Commit(t));
    assert Last(next).txs == Last(r).txs - {t};
  }

  /** A flag is created and nothing else is in flight. */
  lemma CreateAlone(r: Trace, t: int, id: string, d: Draft) returns (next: Trace)
    requires FromEmpty(r) && DraftAllowed(d) && FreshId(Last(r), id) && !KeyTaken(Last(r).table, d.key)
    requires t !in Last(r).txs && forall u :: u in Last(r).txs ==> !Last(r).txs[u].Written?
    ensures FromEmpty(next)
    ensures var db, f := Last(r), DraftRow(id, d, Last(r).counter + 1);
      Last(next) == Db(db.counter + 1, db.table[id := f], db.txs,
                       db.commits + [Write(Create(id, d), None, Some(f), Event(f.version, d.key, Created(f)))])
  {
    var r1 := NumberCreate(r, t, id, d);
    next := FinishCreate(r1, t, id, d, Last(r).counter + 1);
    assert Last(next).txs == Last(r).txs;
  }

  lemma NumberToggle(r: Trace, t: int, id: string) returns (next: Trace)
    requires FromEmpty(r) && t !in Last(r).txs
    ensures FromEmpty(next)
    ensures var db := Last(r);
      Last(next) == Db(db.counter + 1, db.table, db.txs[t := Numbered(Toggle(id), "", db.counter + 1)], db.commits)
  {
    var r1 := Extend(r, Begin(t, Toggle(id)));
    next := Extend(r1, Number(t));
    assert Last(next).txs == Last(r).txs[t := Numbered(Toggle(id), "", Last(r).counter + 1)];
  }

  lemma FinishToggle(r: Trace, t: int, id: string, v: int) returns (next: Trace)
    requires FromEmpty(r) && t in Last(r).txs && Last(r).txs[t] == Numbered(Toggle(id), "", v)
    requires id in Last(r).table && NoneWritten(Last(r), t)
    ensures FromEmpty(next)
    ensures var db := Last(r);
      var f := db.table[id].(enabled := !db.table[id].enabled, version := v);
      Last(next) == Db(db.counter, db.table[id := f], db.txs - {t},
                       db.commits + [Write(Toggle(id), Some(db.table[id]), Some(f), Event(v, f.key, Updated(f)))])
  {
    var r1 := Extend(r, Execute(t));
    next := Extend(r1, Commit(t));
    assert Last(next).txs == Last(r).txs - {t};
  }

  lemma ReadForDelete(r: Trace, t: int, id: string) returns (next: Trace)
    requires FromEmpty(r) && t !in Last(r).txs && id in Last(r).table
    ensures FromEmpty(next)
    ensures Last(next) == Last(r).(txs := Last(r).txs[t := Read(Delete(id), Last(r).table[id].key)])
  {
    var r1 := Extend(r, Begin(t, Delete(id)));
    next := Extend(r1, ReadKey(t));
    assert Last(next).txs == Last(r).txs[t := Read(Delete(id), Last(r).table[id].key)];
  }

  lemma FinishDelete(r: Trace, t: int, id: string, key: string) returns (next: Trace)
    requires FromEmpty(r) && t in Last(r).txs && Last(r).txs[t] == Read(Delete(id), key) && NoneWritten(Last(r), t)
    ensures FromEmpty(next)
    ensures var db := Last(r);
      Last(next) == Db(db.counter + 1, db.table - {id}, db.txs - {t},
                       db.commits + [Write(Delete(id), Lookup(db.table, id), None,
                                           Event(db.counter + 1, key, Deleted(id)))])
  {
    var r1 := Extend(r, Number(t));
    var r2 := Extend(r1, Execute(t));
    next := Extend(r2, Commit(t));
    assert Last(next).txs == Last(r).txs - {t};
    assert Last(next).table == Last(r).table - {id};
  }

  function FirstCommit(id: string, d: Draft): Write {
    var f := DraftRow(id, d, 1);
    Write(Create(id, d), None, Some(f), Event(1, d.key, Created(f)))
  }

  lemma TwoTogglesPending(id: string, d: Draft) returns (r: Trace)
    requires DraftAllowed(d)
    ensures FromEmpty(r)
    ensures Last(r) == Db(3, map[id := DraftRow(id, d, 1)],
                          map[2 := Numbered(Toggle(id), "", 2), 3 := Numbered(Toggle(id), "", 3)], [FirstCommit(id, d)])
  {
    var r0 := Trace([Db(0, map[], map[], [])], []);
    var r1 := CreateAlone(r0, 1, id, d);
    var r2 := NumberToggle(r1, 2, id);
    r := NumberToggle(r2, 3, id);
  }

  /**
   * Two toggles whose commits swap: the table ends with the older version's row, while every replay of the whole log
   * ends with the newer one's.
   */
  lemma {:induction false} LateCommitSplitsClients(id: string, d: Draft) returns (end: Trace, log: seq<Event>)
    requires DraftAllowed(d)
    ensures FromEmpty(end) && VersionOrder(log, Last(end).commits)
    ensures id in Last(end).table && Last(end).table[id].version == 2 && Last(end).table[id].enabled == d.enabled
    ensures forall read :: VersionOrder(read, Last(end).commits) ==>
              d.key in Replay(read) && Replay(read)[d.key].version == 3 && Replay(read)[d.key].enabled != d.enabled
  {
    var r := TwoTogglesPending(id, d);
    var r1 := FinishToggle(r, 3, id, 3);
    end := FinishToggle(r1, 2, id, 2);
    var commits := Last(end).commits;
    assert |commits| == 3;
    log := [commits[0].event, commits[2].event, commits[1].event];
    ThreeOrdered(log);
    assert commits[0].event in log && commits[1].event in log && commits[2].event in log;
    forall read | VersionOrder(read, commits)
      ensures d.key in Replay(read) && Replay(read)[d.key].version == 3 && Replay(read)[d.key].enabled != d.enabled {
      NewestDecides(read, commits, 1);
    }
  }

  lemma {:induction false} ThreeOrdered(log: seq<Event>)
    requires |log| == 3 && log[0].version == 1 && log[1].version == 2 && log[2].version == 3
    ensures Ordered(log)
  {
    assert OrderedTo(log, 1) && OrderedTo(log, 2);
  }

  lemma DeletePending(id: string, d: Draft) returns (r: Trace)
    requires DraftAllowed(d)
    ensures FromEmpty(r)
    ensures var f := DraftRow(id, d, 1);
      Last(r) == Db(2, map[], map[2 := Read(Delete(id), d.key)],
                    [FirstCommit(id, d), Write(Delete(id), Some(f), None, Event(2, d.key, Deleted(id)))])
  {
    var r0 := Trace([Db(0, map[], map[], [])], []);
    var r1 := CreateAlone(r0, 1, id, d);
    var r2 := ReadForDelete(r1, 2, id);
    var r3 := ReadForDelete(r2, 3, id);
    r := FinishDelete(r3, 3, id, d.key);
    assert Last(r).table == map[];
    assert Last(r).txs == map[2 := Read(Delete(id), d.key)];
  }

  lemma PhantomRun(id: string, other: string, d: Draft) returns (end: Trace)
    requires DraftAllowed(d) && id != other
    ensures FromEmpty(end)
    ensures Last(end).table == map[other := DraftRow(other, d, 3)]
    ensures |Last(end).commits| == 4 && Last(end).commits[3].event == Event(4, d.key, Deleted(id))
    ensures forall i :: 0 <= i < 4 ==> Last(end).commits[i].event.version == i + 1
  {
    var r := DeletePending(id, d);
    var r1 := CreateAlone(r, 4, other, d);
    end := FinishDelete(r1, 2, id, d.key);
  }

  /**
   * A second delete of a flag that is deleted and created again meanwhile: it removes no row, yet its event removes the
   * new flag from every client, although all commits happen in version order.
   */
  lemma PhantomDeleteSplitsClients(id: string, other: string, d: Draft) returns (end: Trace)
    requires DraftAllowed(d) && id != other
    ensures FromEmpty(end) && other in Last(end).table && Last(end).table[other].key == d.key
    ensures |Last(end).commits| == 4 && forall i :: 0 <= i < 4 ==> Last(end).commits[i].event.version == i + 1
    ensures forall log :: VersionOrder(log, Last(end).commits) ==> d.key !in Replay(log)
  {
    end := PhantomRun(id, other, d);
    forall log | VersionOrder(log, Last(end).commits) ensures d.key !in Replay(log) {
      NewestDecides(log, Last(end).commits, 3);
    }
  }
}
