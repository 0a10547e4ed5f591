/** Runs of single processes through the interleaved steps: an uninterrupted `prepare-env`, and one that dies. */
module ProtocolRuns {
  import opened Wrappers
  import opened VarNames
  import opened EnvDelta
  import opened Bus
  import opened Generation
  import opened SessionState
  import opened Session
  import opened Protocol

  /** `k` steps of a relation lead from `s` to `t`. */
  ghost predicate Iterates<T(!new)>(r: (T, T) -> bool, s: T, k: nat, t: T) {
    if k == 0 then s == t else exists m :: r(s, m) && Iterates(r, m, k - 1, t)
  }

  lemma {:induction false} IteratesConcat<T(!new)>(r: (T, T) -> bool, s: T, k: nat, t: T, l: nat, u: T)
    requires Iterates(r, s, k, t) && Iterates(r, t, l, u)
    ensures Iterates(r, s, k + l, u)
    decreases k
  {
    if k > 0 {
      var m :| r(s, m) && Iterates(r, m, k - 1, t);
      IteratesConcat(r, m, k - 1, t, l, u);
    }
  }

  /** Some number of steps of `r` leads from `s` to `t`. */
  ghost predicate Leads<T(!new)>(r: (T, T) -> bool, s: T, t: T) {
    exists k: nat :: Iterates(r, s, k, t)
  }

  lemma LeadsOnce<T(!new)>(r: (T, T) -> bool, s: T, t: T)
    requires r(s, t)
    ensures Leads(r, s, t)
  {
    assert Iterates(r, t, 0, t);
    assert Iterates(r, s, 1, t);
  }

  lemma LeadsOn<T(!new)>(r: (T, T) -> bool, s: T, t: T, u: T)
    requires Leads(r, s, t) && Leads(r, t, u)
    ensures Leads(r, s, u)
  {
    var k: nat :| Iterates(r, s, k, t);
    var l: nat :| Iterates(r, t, l, u);
    IteratesConcat(r, s, k, t, l, u);
  }

  lemma LeadsTwice<T(!new)>(r: (T, T) -> bool, s: T, t: T, u: T)
    requires r(s, t) && r(t, u)
    ensures Leads(r, s, u)
  {
    LeadsOnce(r, s, t);
    LeadsOnce(r, t, u);
    LeadsOn(r, s, t, u);
  }

  ghost predicate Next(s: Sys, t: Sys) {
    exists e :: Enabled(s, e) && Apply(s, e) == t
  }

  /** `r` is the step relation; taken as a parameter, it is looked into one step at a time. */
  ghost predicate IsStep(r: (Sys, Sys) -> bool) {
    forall s, t {:trigger Next(s, t)} :: r(s, t) <==> Next(s, t)
  }

  lemma OneMove(r: (Sys, Sys) -> bool, s: Sys, pid: nat, t: Sys)
    requires IsStep(r) && Enabled(s, Advances(pid)) && Step(s, pid) == t
    ensures r(s, t)
  {
    assert Apply(s, Advances(pid)) == t;
    assert Next(s, t);
  }

  lemma EventOf(s: Sys, t: Sys) returns (e: Event)
    requires Next(s, t)
    ensures Enabled(s, e) && Apply(s, e) == t
  {
    e :| Enabled(s, e) && Apply(s, e) == t;
  }

  lemma {:induction false} IteratesReaches(r: (Sys, Sys) -> bool, s: Sys, k: nat, t: Sys) returns (es: seq<Event>)
    requires IsStep(r) && Iterates(r, s, k, t)
    ensures Reaches(s, es, t)
    decreases k
  {
    if k == 0 {
      es := [];
    } else {
      var m :| r(s, m) && Iterates(r, m, k - 1, t);
      assert Next(s, m);
      var rest := IteratesReaches(r, m, k - 1, t);
      es := FirstStep(s, m, rest, t);
    }
  }

  lemma FirstStep(s: Sys, m: Sys, rest: seq<Event>, t: Sys) returns (es: seq<Event>)
    requires Next(s, m) && Reaches(m, rest, t)
    ensures Reaches(s, es, t)
  {
    var e := EventOf(s, m);
    es := [e] + rest;
    assert es[1..] == rest;
  }

  lemma LastUpdateWins<K, V>(m: map<K, V>, k: K, a: V, b: V)
    ensures m[k := a][k := b] == m[k := b]
  {
  }

  // ----- a restore -----

  function Called(s: Sys, pid: nat, w: World, k: Updates, next: Option<Begin>, stores: Stores): Sys {
    Move(s, pid, Restoring(w, k, next)).(stores := stores)
  }

  lemma CallStep(s: Sys, pid: nat, w: World, k: Updates, next: Option<Begin>, after: Stores)
    requires pid in s.procs && s.procs[pid] == Restoring(w, k, next) && k < 4
    requires RestoreCall(s.stores, ToUnset(w), Snapshot(w.files), k) == after
    ensures Enabled(s, Advances(pid)) && Step(s, pid) == Move(s, pid, Restoring(w, k + 1, next)).(stores := after)
  {
  }

  lemma CallMove(r: (Sys, Sys) -> bool, s: Sys, pid: nat, w: World, k: Updates, next: Option<Begin>, a: Stores, b: Stores)
    requires IsStep(r) && k < 4 && RestoreCall(a, ToUnset(w), Snapshot(w.files), k) == b
    ensures r(Called(s, pid, w, k, next, a), Called(s, pid, w, k + 1, next, b))
  {
    var from, to := Called(s, pid, w, k, next, a), Called(s, pid, w, k + 1, next, b);
    CallStep(from, pid, w, k, next, b);
    LastUpdateWins(s.procs, pid, Restoring(w, k, next), Restoring(w, k + 1, next));
    OneMove(r, from, pid, to);
  }

  lemma CallStores(w: World, k: Updates)
    requires k < 4
    ensures RestoreCall(Progress(w, k), ToUnset(w), Snapshot(w.files), k) == Progress(w, k + 1)
  {
    RestoreCallAdvances(w.stores, ToUnset(w), Snapshot(w.files), k);
  }

  lemma TwoCalls(r: (Sys, Sys) -> bool, s: Sys, pid: nat, w: World, k: Updates, next: Option<Begin>,
                 a: Stores, b: Stores, c: Stores)
    requires IsStep(r) && k < 3
    requires RestoreCall(a, ToUnset(w), Snapshot(w.files), k) == b
    requires RestoreCall(b, ToUnset(w), Snapshot(w.files), k + 1) == c
    ensures Leads(r, Called(s, pid, w, k, next, a), Called(s, pid, w, k + 2, next, c))
  {
    CallMove(r, s, pid, w, k, next, a, b);
    CallMove(r, s, pid, w, k + 1, next, b, c);
    LeadsTwice(r, Called(s, pid, w, k, next, a), Called(s, pid, w, k + 1, next, b), Called(s, pid, w, k + 2, next, c));
  }

  lemma CallsRun(r: (Sys, Sys) -> bool, s: Sys, pid: nat, w: World, next: Option<Begin>)
    requires IsStep(r)
    ensures Leads(r, Called(s, pid, w, 0, next, Progress(w, 0)), Called(s, pid, w, 4, next, Progress(w, 4)))
  {
    CallStores(w, 0);
    CallStores(w, 1);
    CallStores(w, 2);
    CallStores(w, 3);
    TwoCalls(r, s, pid, w, 0, next, Progress(w, 0), Progress(w, 1), Progress(w, 2));
    TwoCalls(r, s, pid, w, 2, next, Progress(w, 2), Progress(w, 3), Progress(w, 4));
    LeadsOn(r, Called(s, pid, w, 0, next, Progress(w, 0)), Called(s, pid, w, 2, next, Progress(w, 2)),
            Called(s, pid, w, 4, next, Progress(w, 4)));
  }

  lemma ListRemoval(r: (Sys, Sys) -> bool, s: Sys, pid: nat, w: World, next: Option<Begin>) returns (t: Sys)
    requires IsStep(r) && pid in s.procs && s.procs[pid] == Restoring(w, 4, next)
    ensures r(s, t) && t.procs == s.procs[pid := ListRemoved(w, next)] && t.lock == s.lock && t.stores == s.stores
    ensures t.files == s.files.(cleanup := None)
  {
    t := Step(s, pid);
    OneMove(r, s, pid, t);
  }

  lemma SnapshotRemoval(r: (Sys, Sys) -> bool, s: Sys, pid: nat, w: World, next: Option<Begin>) returns (t: Sys)
    requires IsStep(r) && pid in s.procs && s.procs[pid] == ListRemoved(w, next)
    ensures r(s, t) && t.procs == s.procs[pid := SnapshotRemoved(w, next)] && t.lock == s.lock && t.stores == s.stores
    ensures t.files == s.files.(envPre := None)
  {
    t := Step(s, pid);
    OneMove(r, s, pid, t);
  }

  lemma GenerationRemoval(r: (Sys, Sys) -> bool, s: Sys, pid: nat, w: World, next: Option<Begin>) returns (t: Sys)
    requires IsStep(r) && pid in s.procs && s.procs[pid] == SnapshotRemoved(w, next)
    ensures r(s, t) && t.procs == s.procs[pid := Cleared(next)] && t.lock == s.lock && t.stores == s.stores
    ensures t.files == s.files.(generation := None)
  {
    t := Step(s, pid);
    OneMove(r, s, pid, t);
  }

  lemma RemovalsRun(r: (Sys, Sys) -> bool, s: Sys, pid: nat, w: World, next: Option<Begin>) returns (t: Sys)
    requires IsStep(r) && pid in s.procs && s.procs[pid] == Restoring(w, 4, next)
    ensures Leads(r, s, t) && t.procs == s.procs[pid := Cleared(next)] && t.lock == s.lock
    ensures t.files == NO_FILES && t.stores == s.stores
  {
    var s1 := ListRemoval(r, s, pid, w, next);
    var s2 := SnapshotRemoval(r, s1, pid, w, next);
    t := GenerationRemoval(r, s2, pid, w, next);
    LastUpdateWins(s.procs, pid, ListRemoved(w, next), SnapshotRemoved(w, next));
    LastUpdateWins(s.procs, pid, SnapshotRemoved(w, next), Cleared(next));
    LeadsTwice(r, s, s1, s2);
    LeadsOnce(r, s2, t);
    LeadsOn(r, s, s2, t);
  }

  /** A restore or begin has taken the lock. */
  function Entered(s: Sys, pid: nat): Sys {
    s.(lock := Some(pid))
  }

  lemma Entering(r: (Sys, Sys) -> bool, s: Sys, pid: nat, next: Option<Begin>)
    requires IsStep(r) && pid in s.procs && s.procs[pid] == EndQueued(next) && Enabled(s, Advances(pid))
    ensures s.files == NO_FILES ==> r(s, Move(Entered(s, pid), pid, Cleared(next)))
    ensures s.files != NO_FILES ==> r(s, Called(Entered(s, pid), pid, World(s.files, s.stores), 0, next, s.stores))
  {
    OneMove(r, s, pid, Step(s, pid));
  }

  /** The bus updates of a restore that starts from `s` lead to `after`. */
  ghost predicate Restores(r: (Sys, Sys) -> bool, s: Sys, pid: nat, next: Option<Begin>, after: Stores) {
    if s.files == NO_FILES then after == s.stores
    else
      var w, locked := World(s.files, s.stores), Entered(s, pid);
      Leads(r, Called(locked, pid, w, 0, next, s.stores), Called(locked, pid, w, 4, next, after))
  }

  lemma RestoresAll(r: (Sys, Sys) -> bool, s: Sys, pid: nat, next: Option<Begin>) returns (after: Stores)
    requires IsStep(r)
    ensures Restores(r, s, pid, next, after) && after == Restored(World(s.files, s.stores)).stores
  {
    var w := World(s.files, s.stores);
    after := Progress(w, 4);
    if s.files == NO_FILES {
      NothingToRestore(w);
    } else {
      CallsRun(r, Entered(s, pid), pid, w, next);
      assert Progress(w, 0) == s.stores;
    }
  }

  /** From the queue to the point where the files are gone and the environment is restored. */
  lemma EndRun(r: (Sys, Sys) -> bool, s: Sys, pid: nat, next: Option<Begin>, after: Stores) returns (t: Sys)
    requires IsStep(r) && pid in s.procs && s.procs[pid] == EndQueued(next) && Enabled(s, Advances(pid))
    requires Restores(r, s, pid, next, after)
    ensures Leads(r, s, t) && t.lock == Some(pid) && t.procs == s.procs[pid := Cleared(next)]
    ensures t.files == NO_FILES && t.stores == after
  {
    Entering(r, s, pid, next);
    if s.files == NO_FILES {
      t := Move(Entered(s, pid), pid, Cleared(next));
      LeadsOnce(r, s, t);
    } else {
      var w, locked := World(s.files, s.stores), Entered(s, pid);
      t := EndFrom(r, s, pid, next, Called(locked, pid, w, 0, next, s.stores), Called(locked, pid, w, 4, next, after), w);
    }
  }

  lemma EndFrom(r: (Sys, Sys) -> bool, s: Sys, pid: nat, next: Option<Begin>, first: Sys, last: Sys, w: World)
    returns (t: Sys)
    requires IsStep(r) && r(s, first) && Leads(r, first, last)
    requires pid in last.procs && last.procs == s.procs[pid := Restoring(w, 4, next)]
    ensures Leads(r, s, t) && t.lock == last.lock && t.procs == s.procs[pid := Cleared(next)]
    ensures t.files == NO_FILES && t.stores == last.stores
  {
    LeadsOnce(r, s, first);
    LeadsOn(r, s, first, last);
    t := RemovalsRun(r, last, pid, w, next);
    LeadsOn(r, s, last, t);
  }

  // ----- a begin -----

  lemma IdWriting(r: (Sys, Sys) -> bool, s: Sys, pid: nat, b: Begin) returns (t: Sys)
    requires IsStep(r) && pid in s.procs && s.procs[pid] == Cleared(Some(b))
    ensures r(s, t) && t.procs == s.procs[pid := IdWritten(b)] && t.lock == s.lock && t.stores == s.stores
    ensures t.files == s.files.(generation := Some(b.id))
  {
    t := Step(s, pid);
    OneMove(r, s, pid, t);
  }

  lemma SnapshotWriting(r: (Sys, Sys) -> bool, s: Sys, pid: nat, b: Begin) returns (t: Sys)
    requires IsStep(r) && pid in s.procs && s.procs[pid] == IdWritten(b)
    ensures r(s, t) && t.procs == s.procs[pid := SnapshotWritten(b)] && t.lock == s.lock && t.stores == s.stores
    ensures t.files == s.files.(envPre := Some(b.pre))
  {
    t := Step(s, pid);
    OneMove(r, s, pid, t);
  }

  lemma ListWriting(r: (Sys, Sys) -> bool, s: Sys, pid: nat, b: Begin) returns (t: Sys)
    requires IsStep(r) && pid in s.procs && s.procs[pid] == SnapshotWritten(b)
    ensures r(s, t) && t.procs == s.procs[pid := Queued(TaskOf(b))] && t.lock == None && t.stores == s.stores
    ensures t.files == s.files.(cleanup := Some({}))
  {
    t := Step(s, pid);
    OneMove(r, s, pid, t);
  }

  lemma BeginRun(r: (Sys, Sys) -> bool, s: Sys, pid: nat, b: Begin) returns (t: Sys)
    requires IsStep(r) && pid in s.procs && s.procs[pid] == Cleared(Some(b)) && s.files == NO_FILES
    ensures Leads(r, s, t) && t.procs == s.procs[pid := Queued(TaskOf(b))] && t.lock == None
    ensures t.files == Files(Some(b.id), Some(b.pre), Some({})) && t.stores == s.stores
  {
    var s1 := IdWriting(r, s, pid, b);
    var s2 := SnapshotWriting(r, s1, pid, b);
    t := ListWriting(r, s2, pid, b);
    LastUpdateWins(s.procs, pid, IdWritten(b), SnapshotWritten(b));
    LastUpdateWins(s.procs, pid, SnapshotWritten(b), Queued(TaskOf(b)));
    LeadsTwice(r, s, s1, s2);
    LeadsOnce(r, s2, t);
    LeadsOn(r, s, s2, t);
  }

  // ----- recording and exporting -----

  lemma LockAndRead(r: (Sys, Sys) -> bool, s: Sys, pid: nat, task: Task) returns (t: Sys)
    requires IsStep(r) && pid in s.procs && s.procs[pid] == Queued(task) && s.lock == None && CurrentGeneration(s.files).Some?
    ensures Leads(r, s, t) && t.lock == Some(pid) && t.files == s.files && t.stores == s.stores
    ensures t.procs == s.procs[pid := Loaded(task, CurrentGeneration(s.files).value, Entries(s.files))]
  {
    var m := Move(s, pid, Locked(task)).(lock := Some(pid));
    OneMove(r, s, pid, m);
    t := Move(m, pid, Loaded(task, CurrentGeneration(s.files).value, Entries(s.files)));
    OneMove(r, m, pid, t);
    LeadsTwice(r, s, m, t);
    assert t.procs == s.procs[pid := Loaded(task, CurrentGeneration(s.files).value, Entries(s.files))];
  }

  lemma WriteAndRelease(r: (Sys, Sys) -> bool, s: Sys, pid: nat, task: Task) returns (t: Sys)
    requires IsStep(r) && pid in s.procs && CurrentGeneration(s.files).Some?
    requires s.procs[pid] == Loaded(task, CurrentGeneration(s.files).value, Entries(s.files))
    ensures Leads(r, s, t) && t.lock == None && t.procs == s.procs[pid := Recorded(task)]
    ensures t.files == Appended(s.files, task.record) && t.stores == s.stores
  {
    var m := Step(s, pid);
    OneMove(r, s, pid, m);
    t := Move(m, pid, Recorded(task)).(lock := None);
    OneMove(r, m, pid, t);
    LeadsTwice(r, s, m, t);
    LastUpdateWins(s.procs, pid, Stored(task), Recorded(task));
  }

  lemma ExportHalf(r: (Sys, Sys) -> bool, s: Sys, pid: nat, task: Task) returns (t: Sys)
    requires IsStep(r) && pid in s.procs && s.procs[pid] == Recorded(task)
    ensures Leads(r, s, t) && t.procs == s.procs[pid := Assigned(task)] && t.lock == s.lock && t.files == s.files
    ensures t.stores == AfterSet(s.stores, task.exports)
  {
    var m := Move(s, pid, SystemdSet(task)).(
      stores := s.stores.(systemd := s.stores.systemd + task.exports));
    OneMove(r, s, pid, m);
    t := SecondMove(r, s, pid, m, Assigned(task), m.stores.WithDbus(task.exports));
  }

  lemma UnsetHalf(r: (Sys, Sys) -> bool, s: Sys, pid: nat, task: Task) returns (t: Sys)
    requires IsStep(r) && pid in s.procs && s.procs[pid] == Assigned(task)
    ensures Leads(r, s, t) && t.procs == s.procs[pid := Gone] && t.lock == s.lock && t.files == s.files
    ensures t.stores == AfterUnset(s.stores, task.unset)
  {
    var m := Move(s, pid, DbusCleared(task)).(stores := s.stores.WithDbus(Blank(task.unset)));
    OneMove(r, s, pid, m);
    t := SecondMove(r, s, pid, m, Gone, m.stores.(systemd := m.stores.systemd - task.unset));
  }

  lemma SecondMove(r: (Sys, Sys) -> bool, s: Sys, pid: nat, m: Sys, p: Proc, stores: Stores) returns (t: Sys)
    requires IsStep(r) && r(s, m) && pid in m.procs && m.procs == s.procs[pid := m.procs[pid]]
    requires InFlight(m.procs[pid])
    requires Step(m, pid) == Move(m, pid, p).(stores := stores)
    ensures Leads(r, s, t) && t == m.(procs := s.procs[pid := p], stores := stores)
  {
    t := Move(m, pid, p).(stores := stores);
    OneMove(r, m, pid, t);
    LeadsTwice(r, s, m, t);
    LastUpdateWins(s.procs, pid, m.procs[pid], p);
  }

  lemma TaskRun(r: (Sys, Sys) -> bool, s: Sys, pid: nat, task: Task) returns (t: Sys)
    requires IsStep(r) && pid in s.procs && s.procs[pid] == Queued(task) && s.lock == None && CurrentGeneration(s.files).Some?
    ensures Leads(r, s, t) && t.procs == s.procs[pid := Gone] && t.lock == None
    ensures t.files == Appended(s.files, task.record)
    ensures t.stores == AfterUnset(AfterSet(s.stores, task.exports), task.unset)
  {
    var s1 := LockAndRead(r, s, pid, task);
    var s2 := WriteAndRelease(r, s1, pid, task);
    var s3 := ExportHalf(r, s2, pid, task);
    t := UnsetHalf(r, s3, pid, task);
    LeadsOn(r, s, s1, s2);
    LeadsOn(r, s, s2, s3);
    LeadsOn(r, s, s3, t);
    assert t.procs == s.procs[pid := Gone];
  }

  // ----- whole runs -----

  lemma Spawning(r: (Sys, Sys) -> bool, s: Sys, pid: nat, p: Proc)
    requires IsStep(r) && (pid !in s.procs || s.procs[pid] == Gone) && CanSpawn(s, p)
    ensures r(s, Move(s, pid, p))
  {
    assert Enabled(s, Spawn(pid, p));
    assert Apply(s, Spawn(pid, p)) == Move(s, pid, p);
    assert Next(s, Move(s, pid, p));
  }

  lemma BeginAndTask(r: (Sys, Sys) -> bool, s: Sys, pid: nat, b: Begin, task: Task) returns (t: Sys)
    requires IsStep(r) && pid in s.procs && s.procs[pid] == Cleared(Some(b)) && s.files == NO_FILES
    requires task == TaskOf(b) && b.id != ""
    ensures Leads(r, s, t) && t.lock == None && t.procs == s.procs[pid := Gone]
    ensures t.files == Appended(Files(Some(b.id), Some(b.pre), Some({})), task.record)
    ensures t.stores == AfterUnset(AfterSet(s.stores, task.exports), task.unset)
  {
    var s1 := BeginRun(r, s, pid, b);
    t := TaskRun(r, s1, pid, task);
    LeadsOn(r, s, s1, t);
  }

  lemma PrepareSteps(r: (Sys, Sys) -> bool, s: Sys, pid: nat, b: Begin, task: Task, after: Stores)
    returns (t: Sys)
    requires IsStep(r) && pid in s.procs && s.procs[pid] == EndQueued(Some(b)) && Enabled(s, Advances(pid))
    requires task == TaskOf(b) && b.id != "" && Restores(r, s, pid, Some(b), after)
    ensures Leads(r, s, t) && t.lock == None && t.procs == s.procs[pid := Gone]
    ensures t.files == Appended(Files(Some(b.id), Some(b.pre), Some({})), task.record)
    ensures t.stores == AfterUnset(AfterSet(after, task.exports), task.unset)
  {
    var s1 := EndRun(r, s, pid, Some(b), after);
    t := BeginAndTask(r, s1, pid, b, task);
    LeadsOn(r, s, s1, t);
  }

  lemma StepRelation() returns (r: (Sys, Sys) -> bool)
    ensures IsStep(r)
  {
    r := (s, t) => Next(s, t);
  }

  lemma PrepareFrom(r: (Sys, Sys) -> bool, s: Sys, pid: nat, b: Begin, task: Task, after: Stores)
    returns (es: seq<Event>, t: Sys)
    requires IsStep(r) && s.lock == None && r(s, Move(s, pid, EndQueued(Some(b))))
    requires pid !in s.procs || s.procs[pid] == Gone
    requires task == TaskOf(b) && b.id != "" && Restores(r, Move(s, pid, EndQueued(Some(b))), pid, Some(b), after)
    ensures Reaches(s, es, t) && t.lock == None && t.procs == s.procs[pid := Gone]
    ensures t.files == Appended(Files(Some(b.id), Some(b.pre), Some({})), task.record)
    ensures t.stores == AfterUnset(AfterSet(after, task.exports), task.unset)
  {
    var s0 := Move(s, pid, EndQueued(Some(b)));
    t := PrepareSteps(r, s0, pid, b, task, after);
    LastUpdateWins(s.procs, pid, EndQueued(Some(b)), Gone);
    es := SpawnThen(r, s, s0, t);
  }

  /** An uninterrupted `prepare-env` among any other processes ends in the prepared session of the value-level model. */
  lemma PrepareRun(s: Sys, pid: nat, b: Begin) returns (es: seq<Event>, t: Sys)
    requires (pid !in s.procs || s.procs[pid] == Gone) && s.lock == None
    requires ValidBegin(b) && b.pre == FilterEnv(s.stores.systemd)
    ensures Reaches(s, es, t) && t.lock == None && t.procs == s.procs[pid := Gone]
    ensures World(t.files, t.stores) == Prepared(World(s.files, s.stores), b.id, Changes(b.pre, b.post))
  {
    var r := StepRelation();
    Spawning(r, s, pid, EndQueued(Some(b)));
    var after := RestoresAll(r, Move(s, pid, EndQueued(Some(b))), pid, Some(b));
    es, t := PrepareFrom(r, s, pid, b, TaskOf(b), after);
    PreparedParts(World(s.files, s.stores), b);
  }

  lemma SpawnThen(r: (Sys, Sys) -> bool, s: Sys, s0: Sys, t: Sys) returns (es: seq<Event>)
    requires IsStep(r) && r(s, s0) && Leads(r, s0, t)
    ensures Reaches(s, es, t)
  {
    LeadsOnce(r, s, s0);
    LeadsOn(r, s, s0, t);
    var k: nat :| Iterates(r, s, k, t);
    es := IteratesReaches(r, s, k, t);
  }

  lemma TaskFrom(r: (Sys, Sys) -> bool, s: Sys, pid: nat, task: Task) returns (es: seq<Event>, t: Sys)
    requires IsStep(r) && s.lock == None && r(s, Move(s, pid, Queued(task))) && CurrentGeneration(s.files).Some?
    ensures Reaches(s, es, t) && t.lock == None && t.procs == s.procs[pid := Gone]
    ensures t.files == Appended(s.files, task.record)
    ensures t.stores == AfterUnset(AfterSet(s.stores, task.exports), task.unset)
  {
    var s0 := Move(s, pid, Queued(task));
    t := TaskRun(r, s0, pid, task);
    LastUpdateWins(s.procs, pid, Queued(task), Gone);
    es := SpawnThen(r, s, s0, t);
  }

  lemma RefusedFrom(r: (Sys, Sys) -> bool, s: Sys, pid: nat, task: Task) returns (es: seq<Event>, t: Sys)
    requires IsStep(r) && s.lock == None && r(s, Move(s, pid, Queued(task))) && CurrentGeneration(s.files).None?
    ensures Reaches(s, es, t) && t.lock == None && t.procs == s.procs[pid := Gone]
    ensures t.files == s.files && t.stores == s.stores
  {
    var s0 := Move(s, pid, Queued(task));
    var s1 := Move(s0, pid, Locked(task)).(lock := Some(pid));
    OneMove(r, s0, pid, s1);
    t := Move(s1, pid, Gone).(lock := None);
    OneMove(r, s1, pid, t);
    LeadsTwice(r, s0, s1, t);
    LastUpdateWins(s.procs, pid, Queued(task), Locked(task));
    LastUpdateWins(s.procs, pid, Locked(task), Gone);
    es := SpawnThen(r, s, s0, t);
  }

  /** An uninterrupted `finalize` or readiness watcher, among any other processes, records and exports as the value-level
      model says, and does nothing when no generation is on record. */
  lemma RecordRun(s: Sys, pid: nat, vars: Env) returns (es: seq<Event>, t: Sys)
    requires (pid !in s.procs || s.procs[pid] == Gone) && s.lock == None
    requires forall n | n in vars :: KeepName(n)
    ensures Reaches(s, es, t) && t.lock == None && t.procs == s.procs[pid := Gone]
    ensures RecordThenExport(World(s.files, s.stores), vars.Keys, vars, World(t.files, t.stores),
                             CurrentGeneration(s.files).Some?)
  {
    var r := StepRelation();
    var task := Task(vars.Keys, vars, {});
    Spawning(r, s, pid, Queued(task));
    if CurrentGeneration(s.files).Some? {
      es, t := TaskFrom(r, s, pid, task);
      UnsetNothing(AfterSet(s.stores, vars));
    } else {
      es, t := RefusedFrom(r, s, pid, task);
    }
  }

  lemma EndAlone(r: (Sys, Sys) -> bool, s: Sys, pid: nat, after: Stores) returns (es: seq<Event>, t: Sys)
    requires IsStep(r) && s.lock == None && r(s, Move(s, pid, EndQueued(None)))
    requires Restores(r, Move(s, pid, EndQueued(None)), pid, None, after)
    ensures Reaches(s, es, t) && t.lock == None && t.procs == s.procs[pid := Gone]
    ensures t.files == NO_FILES && t.stores == after
  {
    var s0 := Move(s, pid, EndQueued(None));
    var s1 := EndRun(r, s0, pid, None, after);
    t := Release(r, s1, pid);
    LeadsOn(r, s0, s1, t);
    LastUpdateWins(s.procs, pid, EndQueued(None), Cleared(None));
    LastUpdateWins(s.procs, pid, Cleared(None), Gone);
    es := SpawnThen(r, s, s0, t);
  }

  lemma Release(r: (Sys, Sys) -> bool, s: Sys, pid: nat) returns (t: Sys)
    requires IsStep(r) && pid in s.procs && s.procs[pid] == Cleared(None)
    ensures Leads(r, s, t) && t == s.(procs := s.procs[pid := Gone], lock := None)
  {
    t := Move(s, pid, Gone).(lock := None);
    OneMove(r, s, pid, t);
    LeadsOnce(r, s, t);
  }

  /** An uninterrupted `cleanup-env`, among any other processes, is the restore of the value-level model. */
  lemma CleanupRun(s: Sys, pid: nat) returns (es: seq<Event>, t: Sys)
    requires (pid !in s.procs || s.procs[pid] == Gone) && s.lock == None
    ensures Reaches(s, es, t) && t.lock == None && t.procs == s.procs[pid := Gone]
    ensures World(t.files, t.stores) == Restored(World(s.files, s.stores))
  {
    var r := StepRelation();
    Spawning(r, s, pid, EndQueued(None));
    var after := RestoresAll(r, Move(s, pid, EndQueued(None)), pid, None);
    es, t := EndAlone(r, s, pid, after);
  }

  lemma PreparedParts(w: World, b: Begin)
    requires b.id != "" && b.pre == FilterEnv(w.stores.systemd)
    ensures Prepared(w, b.id, Changes(b.pre, b.post))
            == World(Appended(Files(Some(b.id), Some(b.pre), Some({})), TaskOf(b).record),
                     AfterUnset(AfterSet(Restored(w).stores, TaskOf(b).exports), TaskOf(b).unset))
  {
  }

  lemma Dying(r: (Sys, Sys) -> bool, s: Sys, pid: nat)
    requires IsStep(r) && pid in s.procs && s.lock == Some(pid)
    ensures r(s, Move(s, pid, Gone).(lock := None))
  {
    assert Enabled(s, Dies(pid));
    assert Apply(s, Dies(pid)) == Move(s, pid, Gone).(lock := None);
    assert Next(s, Move(s, pid, Gone).(lock := None));
  }

  lemma DyingSteps(r: (Sys, Sys) -> bool, s: Sys, pid: nat, b: Begin) returns (t: Sys)
    requires IsStep(r) && s.files == NO_FILES
    requires pid in s.procs && s.procs[pid] == EndQueued(Some(b)) && Enabled(s, Advances(pid))
    ensures Leads(r, s, t) && t.lock == None && t.procs == s.procs[pid := Gone]
    ensures t.files == Files(Some(b.id), None, None) && t.stores == s.stores
  {
    var s1 := EndRun(r, s, pid, Some(b), s.stores);
    var s2 := IdWriting(r, s1, pid, b);
    t := Move(s2, pid, Gone).(lock := None);
    Dying(r, s2, pid);
    LeadsTwice(r, s1, s2, t);
    LeadsOn(r, s, s1, t);
  }

  /** A `prepare-env` that dies right after writing its id leaves the generation file alone on disk, and the next restore
      takes away a `PATH` that had been live before any session. */
  lemma CrashWindowIsReached(s: Sys, id: string) returns (es: seq<Event>, t: Sys)
    requires Initial(s) && s.stores == Stores(map["PATH" := "/bin"], map[], true) && id != ""
    ensures Reaches(s, es, t) && t.files == Files(Some(id), None, None) && t.stores == s.stores
    ensures "PATH" !in Restored(World(t.files, t.stores)).stores.systemd
  {
    var pre := FilterEnv(s.stores.systemd);
    assert FilterEnv(pre) == pre && FilterEnv(map[]) == map[];
    var r := StepRelation();
    var s0 := Move(s, 0, EndQueued(Some(Begin(id, pre, map[]))));
    Spawning(r, s, 0, EndQueued(Some(Begin(id, pre, map[]))));
    t := DyingSteps(r, s0, 0, Begin(id, pre, map[]));
    es := SpawnThen(r, s, s0, t);
    CrashTakesPath(id, t.stores);
  }

  lemma CrashTakesPath(id: string, stores: Stores)
    requires "PATH" in stores.systemd
    ensures "PATH" !in Restored(World(Files(Some(id), None, None), stores)).stores.systemd
  {
    PathIsOrdinary();
    var w := World(Files(Some(id), None, None), stores);
    assert Snapshot(w.files) == map[];
    RestoreMeaning(w, "PATH");
  }

  lemma PathIsOrdinary()
    ensures KeepName("PATH") && "PATH" !in NEVER_CLEANUP && "PATH" in ALWAYS_CLEANUP
  {
    var path := "PATH";
    assert path[0] == 'P' && path[1] == 'A' && path[2] == 'T' && path[3] == 'H';
    assert forall i | 0 <= i < 4 :: IsWordChar(path[i]);
    assert "SSH_AGENT_LAUNCHER"[0] == 'S' && "SSH_AUTH_SOCK"[0] == 'S' && "SSH_AGENT_PID"[0] == 'S';
    assert "SHELL"[0] == 'S' && "OLDWD"[0] == 'O' && "PWD"[1] == 'W';
  }
}
