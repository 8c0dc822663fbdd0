/** The migration runner: ordered, run once, under racing replicas, crashes and a lock that can be lost. */
module Migrations {
  import opened FlagModel

  predicate Distinct(names: seq<string>) {
    forall i, j :: 0 <= i < j < |names| ==> names[i] != names[j]
  }

  /** One replica's run against its database; `schema` lists the bodies that took effect, in order. */
  class Migrator {
    var applied: set<string>
    var schema: seq<string>

    constructor ()
      ensures applied == {} && schema == []
    {
      applied, schema := {}, [];
    }

    /** Body and bookkeeping row are one transaction: both take effect or neither does. */
    method ApplyOne(name: string, fails: bool) returns (ok: bool)
      modifies this
      ensures ok <==> !fails && name !in old(applied)
      ensures applied == if ok then old(applied) + {name} else old(applied)
      ensures schema == if ok then old(schema) + [name] else old(schema)
    {
      if fails || name in applied { return false; }
      schema := schema + [name];
      applied := applied + {name};
      ok := true;
    }

    /**
     * Started on any prefix of the sorted names, a run extends it in order. It succeeds, with everything applied,
     * exactly if nothing fails: not the setup (lock and bookkeeping table), no file's check, no unapplied file.
     * Otherwise it stops at the first thing that does.
     */
    method Run(names: seq<string>, setupFails: bool, checkFails: string -> bool, fails: string -> bool, ghost done: nat)
      returns (ok: bool)
      requires Distinct(names) && done <= |names|
      requires schema == names[..done] && (forall n :: n in applied <==> n in names[..done])
      modifies this
      ensures ok <==> !setupFails && FirstFailure(names, checkFails, fails, done) == |names|
      ensures var k := if setupFails then done else Reached(names, checkFails, fails, done);
        schema == names[..k] && forall n :: n in applied <==> n in names[..k]
      ensures ok <==> !setupFails && forall i :: 0 <= i < |names| ==>
        !checkFails(names[i]) && (i < done || !fails(names[i]))
      ensures forall i :: done <= i < |schema| ==> i < |names| && !checkFails(names[i]) && !fails(names[i])
      ensures done == |names| ==> schema == old(schema) && applied == old(applied)
    {
      if setupFails { return false; }
      ghost var reached := done;
      for i := 0 to |names|
        invariant forall j :: 0 <= j < i ==> !StopsAt(names, checkFails, fails, done, j)
        invariant done <= reached <= |names| && i <= reached && (reached == done || reached == i)
        invariant schema == names[..reached] && (forall n :: n in applied <==> n in names[..reached])
        invariant reached == done ==> applied == old(applied)
      {
        assert i < reached ==> names[..reached][i] == names[i];
        assert names[i] in applied <==> i < reached;
        if checkFails(names[i]) {
          FirstFailureIs(names, checkFails, fails, done, i);
          return false;
        }
        if names[i] !in applied {
          ok := ApplyOne(names[i], fails(names[i]));
          if !ok {
            FirstFailureIs(names, checkFails, fails, done, i);
            return;
          }
          assert names[..i + 1] == names[..i] + [names[i]];
          reached := i + 1;
        }
      }
      FirstFailureIs(names, checkFails, fails, done, |names|);
      assert names[..|names|] == names;
      ok := true;
    }
  }

  /** A run that finds the first `done` files applied stops at file j. */
  predicate StopsAt(names: seq<string>, checkFails: string -> bool, fails: string -> bool, done: nat, j: nat)
    requires j < |names|
  {
    checkFails(names[j]) || (j >= done && fails(names[j]))
  }

  function FirstFailureFrom(names: seq<string>, checkFails: string -> bool, fails: string -> bool, done: nat, j: nat)
    : (k: nat)
    requires j <= |names|
    ensures j <= k <= |names|
    ensures forall i :: j <= i < k ==> !StopsAt(names, checkFails, fails, done, i)
    ensures k < |names| ==> StopsAt(names, checkFails, fails, done, k)
    decreases |names| - j
  {
    if j == |names| || StopsAt(names, checkFails, fails, done, j) then j
    else FirstFailureFrom(names, checkFails, fails, done, j + 1)
  }

  function FirstFailure(names: seq<string>, checkFails: string -> bool, fails: string -> bool, done: nat): (k: nat)
    ensures k <= |names|
  {
    FirstFailureFrom(names, checkFails, fails, done, 0)
  }

  /** How many files are applied when the run stops there. */
  function Reached(names: seq<string>, checkFails: string -> bool, fails: string -> bool, done: nat): (k: nat)
    requires done <= |names|
    ensures done <= k <= |names|
  {
    var first := FirstFailure(names, checkFails, fails, done);
    if first < done then done else first
  }

  lemma FirstFailureIs(names: seq<string>, checkFails: string -> bool, fails: string -> bool, done: nat, i: nat)
    requires i <= |names| && forall j :: 0 <= j < i ==> !StopsAt(names, checkFails, fails, done, j)
    requires i < |names| ==> StopsAt(names, checkFails, fails, done, i)
    ensures FirstFailure(names, checkFails, fails, done) == i
    ensures forall j :: 0 <= j < i ==> !checkFails(names[j]) && (j < done || !fails(names[j]))
  {
    forall j | 0 <= j < i ensures !checkFails(names[j]) && (j < done || !fails(names[j])) {
      assert !StopsAt(names, checkFails, fails, done, j);
    }
  }

  // Many replicas. A file is known by its position in the sorted list, which all replicas share.

  datatype Pc = Waiting | Checking(i: nat) | Applying(i: nat) | Ended(ok: bool)

  /**
   * `applied` is the bookkeeping table and `schema` the bodies in effect, both in commit order; `orphans` are commits
   * already sent by a replica that then died.
   */
  datatype Cluster = Cluster(files: nat, applied: seq<nat>, schema: seq<nat>, lock: Option<int>,
                             replicas: map<int, Pc>, orphans: multiset<nat>)

  datatype Step =
    | Start(r: int) | Acquire(r: int) | Check(r: int) | Commit(r: int) | Fail(r: int)
    | Crash(r: int) | CrashCommitting(r: int) | LoseLock | Land(i: nat) | Vanish(i: nat)

  function Begin(files: nat): Cluster { Cluster(files, [], [], None, map[], multiset{}) }

  predicate At(c: Cluster, r: int) { r in c.replicas }

  predicate Enabled(c: Cluster, step: Step) {
    match step
    case Start(r) => At(c, r) ==> c.replicas[r].Ended?
    case Acquire(r) => At(c, r) && c.replicas[r].Waiting? && c.lock.None?
    case Check(r) => At(c, r) && c.replicas[r].Checking?
    case Commit(r) => At(c, r) && c.replicas[r].Applying?
    case Fail(r) => At(c, r) && (c.replicas[r].Applying? || c.replicas[r].Checking?)
    case Crash(r) => At(c, r)
    case CrashCommitting(r) => At(c, r) && c.replicas[r].Applying?
    case LoseLock => true
    case Land(i) => i in c.orphans
    case Vanish(i) => i in c.orphans
  }

  function Released(c: Cluster, r: int): Cluster { if c.lock == Some(r) then c.(lock := None) else c }

  function Move(c: Cluster, r: int, pc: Pc): Cluster { c.(replicas := c.replicas[r := pc]) }

  /** The bookkeeping row's primary key lets a second commit of the same file fail as a whole. */
  function Record(c: Cluster, i: nat): Cluster {
    if i in c.applied then c else c.(applied := c.applied + [i], schema := c.schema + [i])
  }

  function After(c: Cluster, step: Step): Cluster
    requires Enabled(c, step)
  {
    match step
    case Start(r) => Move(c, r, Waiting)
    case Acquire(r) => Move(c, r, Checking(0)).(lock := Some(r))
    case Check(r) =>
      var i := c.replicas[r].i;
      if i >= c.files then Released(Move(c, r, Ended(true)), r)
      else if i in c.applied then Move(c, r, Checking(i + 1))
      else Move(c, r, Applying(i))
    case Commit(r) =>
      var i := c.replicas[r].i;
      if i in c.applied then Released(Move(c, r, Ended(false)), r) else Move(Record(c, i), r, Checking(i + 1))
    case Fail(r) => Released(Move(c, r, Ended(false)), r)
    case Crash(r) => Released(c, r).(replicas := c.replicas - {r})
    case CrashCommitting(r) =>
      Released(c, r).(replicas := c.replicas - {r}, orphans := c.orphans + multiset{c.replicas[r].i})
    case LoseLock => c.(lock := None)
    case Land(i) => Record(c, i).(orphans := c.orphans - multiset{i})
    case Vanish(i) => c.(orphans := c.orphans - multiset{i})
  }

  /** Exactly the first |s| files, in order. */
  predicate FirstFiles(s: seq<nat>) { forall k :: 0 <= k < |s| ==> s[k] == k }

  predicate ReplicaOk(pc: Pc, done: nat, files: nat) {
    match pc
    case Checking(i) => i <= done
    case Applying(i) => i <= done && i < files
    case Ended(ok) => ok ==> done == files
    case Waiting => true
  }

  /** Nobody applies a file before all earlier ones are in. */
  predicate Inv(c: Cluster) {
    && FirstFiles(c.applied) && c.schema == c.applied && |c.applied| <= c.files
    && (forall r :: r in c.replicas ==> ReplicaOk(c.replicas[r], |c.applied|, c.files))
    && (forall i :: i in c.orphans ==> i <= |c.applied| && i < c.files)
  }

  lemma RecordKeepsInv(c: Cluster, i: nat)
    requires Inv(c) && i <= |c.applied| && i < c.files
    ensures Inv(Record(c, i)) && |Record(c, i).applied| >= |c.applied|
    ensures i < |Record(c, i).applied| && (i in c.applied <==> i < |c.applied|)
  {
    if i < |c.applied| { assert c.applied[i] == i; }
  }

  lemma CommitKeepsInv(c: Cluster, r: int)
    requires Inv(c) && Enabled(c, Commit(r))
    ensures Inv(After(c, Commit(r))) && |After(c, Commit(r)).applied| >= |c.applied|
  {
    RecordKeepsInv(c, c.replicas[r].i);
  }

  lemma CheckKeepsInv(c: Cluster, r: int)
    requires Inv(c) && Enabled(c, Check(r))
    ensures Inv(After(c, Check(r))) && After(c, Check(r)).applied == c.applied
  {
    var i := c.replicas[r].i;
    if i < |c.applied| { assert c.applied[i] == i; }
  }

  lemma LandKeepsInv(c: Cluster, i: nat)
    requires Inv(c) && Enabled(c, Land(i))
    ensures Inv(After(c, Land(i))) && |After(c, Land(i)).applied| >= |c.applied|
  {
    RecordKeepsInv(c, i);
  }

  lemma MoveKeepsInv(c: Cluster, r: int, pc: Pc)
    requires Inv(c) && ReplicaOk(pc, |c.applied|, c.files)
    ensures Inv(Move(c, r, pc))
  {
    hide ReplicaOk, FirstFiles;
  }

  lemma GoneKeepsInv(c: Cluster, r: int, orphans: multiset<nat>)
    requires Inv(c) && forall i :: i in orphans ==> i <= |c.applied| && i < c.files
    ensures Inv(c.(replicas := c.replicas - {r}, orphans := orphans))
  {
    hide ReplicaOk, FirstFiles;
  }

  lemma LockIsNoMatter(c: Cluster, lock: Option<int>)
    requires Inv(c)
    ensures Inv(c.(lock := lock))
  {
  }

  lemma CrashKeepsInv(c: Cluster, r: int, committing: bool)
    requires Inv(c) && Enabled(c, if committing then CrashCommitting(r) else Crash(r))
    ensures Inv(After(c, if committing then CrashCommitting(r) else Crash(r)))
  {
    var free := Released(c, r).lock;
    LockIsNoMatter(c, free);
    if committing { assert ReplicaOk(c.replicas[r], |c.applied|, c.files); }
    GoneKeepsInv(c.(lock := free), r, if committing then c.orphans + multiset{c.replicas[r].i} else c.orphans);
  }

  lemma VanishKeepsInv(c: Cluster, i: nat)
    requires Inv(c) && Enabled(c, Vanish(i))
    ensures Inv(After(c, Vanish(i)))
  {
    hide ReplicaOk, FirstFiles;
    assert forall j :: j in c.orphans - multiset{i} ==> j in c.orphans;
  }

  /** All other steps leave the database alone. */
  lemma QuietStepKeepsInv(c: Cluster, step: Step)
    requires Inv(c) && Enabled(c, step) && !step.Commit? && !step.Land? && !step.Check?
    ensures Inv(After(c, step)) && After(c, step).applied == c.applied
  {
    var n, free := |c.applied|, After(c, step).lock;
    assert ReplicaOk(Waiting, n, c.files) && ReplicaOk(Checking(0), n, c.files) && ReplicaOk(Ended(false), n, c.files);
    hide Inv, ReplicaOk;
    match step
    case Start(r) => MoveKeepsInv(c, r, Waiting);
    case Acquire(r) => MoveKeepsInv(c, r, Checking(0)); LockIsNoMatter(Move(c, r, Checking(0)), free);
    case Fail(r) => MoveKeepsInv(c, r, Ended(false)); LockIsNoMatter(Move(c, r, Ended(false)), free);
    case Crash(r) => CrashKeepsInv(c, r, false);
    case CrashCommitting(r) => CrashKeepsInv(c, r, true);
    case LoseLock => LockIsNoMatter(c, None);
    case Vanish(i) => VanishKeepsInv(c, i);
  }

  lemma FilesStay(c: Cluster, step: Step)
    requires Enabled(c, step)
    ensures After(c, step).files == c.files
  {
  }

  lemma StepKeepsInv(c: Cluster, step: Step)
    requires Inv(c) && Enabled(c, step)
    ensures Inv(After(c, step)) && |After(c, step).applied| >= |c.applied| && After(c, step).files == c.files
  {
    FilesStay(c, step);
    hide Inv, After, Enabled;
    match step
    case Commit(r) => CommitKeepsInv(c, r);
    case Land(i) => LandKeepsInv(c, i);
    case Check(r) => CheckKeepsInv(c, r);
    case _ => QuietStepKeepsInv(c, step);
  }

  predicate Run(files: nat, states: seq<Cluster>, steps: seq<Step>) {
    && |states| == |steps| + 1 && states[0] == Begin(files)
    && forall i :: 0 <= i < |steps| ==> Enabled(states[i], steps[i]) && states[i + 1] == After(states[i], steps[i])
  }

  lemma {:induction false} RunKeepsInv(files: nat, states: seq<Cluster>, steps: seq<Step>, i: nat)
    requires Run(files, states, steps) && i < |states|
    ensures Inv(states[i]) && states[i].files == files
  {
    if i > 0 {
      RunKeepsInv(files, states, steps, i - 1);
      assert states[i] == After(states[i - 1], steps[i - 1]);
      StepKeepsInv(states[i - 1], steps[i - 1]);
    }
  }

  /**
   * However replicas race, crash, lose the lock or die while committing: the bodies in effect are always the first
   * files in order, each once, exactly those recorded; and a run that ends well leaves all of them applied.
   */
  lemma AppliedIsPrefix(files: nat, states: seq<Cluster>, steps: seq<Step>, i: nat)
    requires Run(files, states, steps) && i < |states|
    ensures states[i].schema == states[i].applied && FirstFiles(states[i].schema) && |states[i].schema| <= files
    ensures forall r :: r in states[i].replicas && states[i].replicas[r] == Ended(true) ==> |states[i].schema| == files
  {
    RunKeepsInv(files, states, steps, i);
  }

  lemma FullStaysFull(c: Cluster, step: Step)
    requires Inv(c) && Enabled(c, step) && |c.applied| == c.files
    ensures After(c, step).applied == c.applied && After(c, step).schema == c.schema
  {
    StepKeepsInv(c, step);
    assert After(c, step).applied == c.applied;
  }

  /** Once everything is applied, no further run, whatever happens to it, changes anything. */
  lemma {:induction false} FurtherRunsChangeNothing(files: nat, states: seq<Cluster>, steps: seq<Step>, i: nat, j: nat)
    requires Run(files, states, steps) && i <= j < |states| && |states[i].applied| == files
    ensures states[j].applied == states[i].applied && states[j].schema == states[i].schema
    decreases j
  {
    hide After, Inv, Enabled;
    if i < j {
      FurtherRunsChangeNothing(files, states, steps, i, j - 1);
      RunKeepsInv(files, states, steps, j - 1);
      var c, step := states[j - 1], steps[j - 1];
      FullStaysFull(c, step);
      assert states[j] == After(c, step);
    }
  }

  /** A replica that works on without a failure, whatever the others have done, leaves every file applied. */
  lemma {:induction false} SoloFinishes(c: Cluster, r: int, i: nat) returns (states: seq<Cluster>, steps: seq<Step>)
    requires Inv(c) && r in c.replicas && c.replicas[r] == Checking(i)
    ensures |states| == |steps| + 1 && states[0] == c
    ensures forall k :: 0 <= k < |steps| ==>
      && Enabled(states[k], steps[k]) && states[k + 1] == After(states[k], steps[k])
      && steps[k] in {Check(r), Commit(r)}
    ensures var end := states[|steps|];
      && end.schema == end.applied && |end.applied| == c.files && FirstFiles(end.applied)
      && r in end.replicas && end.replicas[r] == Ended(true) && end.lock != Some(r)
    decreases c.files - i
  {
    assert ReplicaOk(c.replicas[r], |c.applied|, c.files);
    var next := After(c, Check(r));
    StepKeepsInv(c, Check(r));
    states, steps := [c, next], [Check(r)];
    if i < c.files {
      var ready := next;
      if i < |c.applied| {
        assert c.applied[i] == i;
      } else {
        ready := After(next, Commit(r));
        StepKeepsInv(next, Commit(r));
        states, steps := states + [ready], steps + [Commit(r)];
      }
      var more, rest := SoloFinishes(ready, r, i + 1);
      states, steps := states[..|steps|] + more, steps + rest;
    }
  }

  /** Unless the lock is lost or a replica dies inside a commit, only its holder works, on a file not yet applied. */
  predicate LockInv(c: Cluster) {
    && c.orphans == multiset{}
    && forall r :: r in c.replicas ==>
         match c.replicas[r]
         case Checking(_) => c.lock == Some(r)
         case Applying(i) => c.lock == Some(r) && i == |c.applied|
         case _ => c.lock != Some(r)
  }

  predicate Orderly(step: Step) { !step.LoseLock? && !step.CrashCommitting? }

  lemma StepKeepsLock(c: Cluster, step: Step)
    requires Inv(c) && LockInv(c) && Enabled(c, step) && Orderly(step)
    requires forall r :: c.lock == Some(r) ==> r in c.replicas
    ensures LockInv(After(c, step)) && forall r :: After(c, step).lock == Some(r) ==> r in After(c, step).replicas
  {
    match step
    case Commit(r) => RecordKeepsInv(c, c.replicas[r].i);
    case Check(r) =>
      var i := c.replicas[r].i;
      if i < |c.applied| { assert c.applied[i] == i; }
    case _ =>
  }

  lemma {:induction false} LockHeld(files: nat, states: seq<Cluster>, steps: seq<Step>, i: nat)
    requires Run(files, states, steps) && i < |states| && forall k :: 0 <= k < |steps| ==> Orderly(steps[k])
    ensures LockInv(states[i]) && forall r :: states[i].lock == Some(r) ==> r in states[i].replicas
  {
    if i > 0 {
      LockHeld(files, states, steps, i - 1);
      RunKeepsInv(files, states, steps, i - 1);
      assert states[i] == After(states[i - 1], steps[i - 1]);
      StepKeepsLock(states[i - 1], steps[i - 1]);
    }
  }

  /** What the lock adds: no commit ever collides, and no two replicas ever work at the same time. */
  lemma LockPreventsCollisions(files: nat, states: seq<Cluster>, steps: seq<Step>, i: nat, r: int, q: int)
    requires Run(files, states, steps) && i < |states| && forall k :: 0 <= k < |steps| ==> Orderly(steps[k])
    requires r in states[i].replicas && q in states[i].replicas && r != q && states[i].replicas[r].Applying?
    ensures states[i].replicas[r].i !in states[i].applied
    ensures !states[i].replicas[q].Applying? && !states[i].replicas[q].Checking?
  {
    LockHeld(files, states, steps, i);
    RunKeepsInv(files, states, steps, i);
  }
}
