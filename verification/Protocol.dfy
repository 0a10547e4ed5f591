/** All processes of all sessions interleaved: lock acquisition, file read, file write, lock release and every bus call
    are separate steps, and a process may die between any two of them. */
module Protocol {
  import opened Wrappers
  import opened VarNames
  import opened EnvDelta
  import opened Bus
  import opened Generation

  /** What `finalize`, the readiness watcher or `prepare-env` records and then does to the environments. */
  datatype Task = Task(record: set<string>, exports: Env, unset: set<string>)

  /** A `prepare-env` about to begin: its id, the snapshot it took and what its loader will return. */
  datatype Begin = Begin(id: string, pre: Env, post: Env)

  datatype Proc =
    | Queued(task: Task)
    | Locked(task: Task)
    | Loaded(task: Task, generation: string, entries: set<CleanupEntry>)
    | Stored(task: Task)
    | Recorded(task: Task)
    | SystemdSet(task: Task)
    | Assigned(task: Task)
    | DbusCleared(task: Task)
    | EndQueued(next: Option<Begin>)
    | Restoring(start: World, done: Updates, next: Option<Begin>)
    | ListRemoved(start: World, next: Option<Begin>)
    | SnapshotRemoved(start: World, next: Option<Begin>)
    | Cleared(next: Option<Begin>)
    | IdWritten(begin: Begin)
    | SnapshotWritten(begin: Begin)
    | Gone

  datatype Sys = Sys(files: Files, stores: Stores, lock: Option<nat>, procs: map<nat, Proc>)

  datatype Event =
    | Spawn(pid: nat, proc: Proc)
    | Advances(pid: nat)
    | RemovalFails(pid: nat)
    | Dies(pid: nat)
    | Outside(systemd: Env, dbus: Env)

  // ----- the steps -----

  predicate Appending(p: Proc) {
    p.Locked? || p.Loaded? || p.Stored?
  }

  predicate InFlight(p: Proc) {
    p.Recorded? || p.SystemdSet? || p.Assigned? || p.DbusCleared?
  }

  predicate Ending(p: Proc) {
    p.Restoring? || p.ListRemoved? || p.SnapshotRemoved? || p.Cleared? || p.IdWritten? || p.SnapshotWritten?
  }

  predicate HoldsLock(p: Proc) {
    Appending(p) || Ending(p)
  }

  predicate ValidTask(t: Task) {
    forall n | n in t.exports :: KeepName(n) && (n in t.record || n in NEVER_CLEANUP)
  }

  predicate ValidBegin(b: Begin) {
    b.id != "" && FilterEnv(b.pre) == b.pre && FilterEnv(b.post) == b.post
  }

  predicate CanSpawn(s: Sys, p: Proc) {
    match p
    case Queued(t) => ValidTask(t)
    case EndQueued(None) => true
    case EndQueued(Some(b)) => ValidBegin(b) && b.pre == FilterEnv(s.stores.systemd)
    case _ => false
  }

  /** About to remove one of the three files. */
  predicate Removing(p: Proc) {
    (p.Restoring? && p.done == 4) || p.ListRemoved? || p.SnapshotRemoved?
  }

  predicate Enabled(s: Sys, e: Event) {
    match e
    case Spawn(pid, p) => (pid !in s.procs || s.procs[pid] == Gone) && CanSpawn(s, p)
    case Advances(pid) =>
      pid in s.procs && s.procs[pid] != Gone && (s.procs[pid].Queued? || s.procs[pid].EndQueued? ==> s.lock == None)
    case RemovalFails(pid) => pid in s.procs && Removing(s.procs[pid])
    case Dies(pid) => pid in s.procs
    case Outside(_, _) => true
  }

  /** One of the four updates of a restore. */
  function RestoreCall(s: Stores, names: set<string>, pre: Env, k: Updates): Stores
    requires k < 4
  {
    match k
    case 0 => s.WithDbus(Blank(names))
    case 1 => s.(systemd := s.systemd - names)
    case 2 => s.(systemd := s.systemd + pre)
    case _ => s.WithDbus(pre)
  }

  function TaskOf(b: Begin): Task {
    var c := Changes(b.pre, b.post);
    Task(c.cleanup, c.assign, c.unset)
  }

  function Move(s: Sys, pid: nat, p: Proc): Sys {
    s.(procs := s.procs[pid := p])
  }

  /** Only the process that moves changes, and a restore or begin exports nothing. */
  function Step(s: Sys, pid: nat): (s': Sys)
    requires Enabled(s, Advances(pid))
    ensures pid in s'.procs && s'.procs == s.procs[pid := s'.procs[pid]]
    ensures Ending(s.procs[pid]) ==> !InFlight(s'.procs[pid])
  {
    match s.procs[pid]
    case Queued(t) => Move(s, pid, Locked(t)).(lock := Some(pid))
    case Locked(t) =>
      (match CurrentGeneration(s.files)
       case None => Move(s, pid, Gone).(lock := None)
       case Some(g) => Move(s, pid, Loaded(t, g, Entries(s.files))))
    case Loaded(t, g, entries) =>
      var added := Tagged(g, t.record);
      Move(s, pid, Stored(t)).(
        files := if added <= entries then s.files else s.files.(cleanup := Some(entries + added)))
    case Stored(t) => Move(s, pid, Recorded(t)).(lock := None)
    case Recorded(t) => Move(s, pid, SystemdSet(t)).(stores := s.stores.(systemd := s.stores.systemd + t.exports))
    case SystemdSet(t) => Move(s, pid, Assigned(t)).(stores := s.stores.WithDbus(t.exports))
    case Assigned(t) => Move(s, pid, DbusCleared(t)).(stores := s.stores.WithDbus(Blank(t.unset)))
    case DbusCleared(t) => Move(s, pid, Gone).(stores := s.stores.(systemd := s.stores.systemd - t.unset))
    case EndQueued(next) =>
      Move(s, pid, if s.files == NO_FILES then Cleared(next) else Restoring(World(s.files, s.stores), 0, next))
        .(lock := Some(pid))
    case Restoring(w, k, next) =>
      if k < 4 then
        Move(s, pid, Restoring(w, k + 1, next)).(stores := RestoreCall(s.stores, ToUnset(w), Snapshot(w.files), k))
      else Passed(s, pid).(files := s.files.(cleanup := None))
    case ListRemoved(_, _) => Passed(s, pid).(files := s.files.(envPre := None))
    case SnapshotRemoved(_, _) => Passed(s, pid).(files := s.files.(generation := None))
    case Cleared(None) => Move(s, pid, Gone).(lock := None)
    case Cleared(Some(b)) => Move(s, pid, IdWritten(b)).(files := s.files.(generation := Some(b.id)))
    case IdWritten(b) => Move(s, pid, SnapshotWritten(b)).(files := s.files.(envPre := Some(b.pre)))
    case SnapshotWritten(b) =>
      Move(s, pid, Queued(TaskOf(b))).(files := s.files.(cleanup := Some({})), lock := None)
  }

  /** Past the removal of a file, whether or not it succeeded. */
  function Passed(s: Sys, pid: nat): Sys
    requires pid in s.procs && Removing(s.procs[pid])
  {
    match s.procs[pid]
    case Restoring(w, _, next) => Move(s, pid, ListRemoved(w, next))
    case ListRemoved(w, next) => Move(s, pid, SnapshotRemoved(w, next))
    case SnapshotRemoved(_, next) => Move(s, pid, Cleared(next))
  }

  function Apply(s: Sys, e: Event): Sys
    requires Enabled(s, e)
  {
    match e
    case Spawn(pid, p) => Move(s, pid, p)
    case Advances(pid) => Step(s, pid)
    case RemovalFails(pid) => Passed(s, pid)
    case Dies(pid) => Move(s, pid, Gone).(lock := if s.lock == Some(pid) then None else s.lock)
    case Outside(systemd, dbus) => s.(stores := s.stores.(systemd := systemd, dbus := dbus))
  }

  ghost predicate Reaches(s: Sys, es: seq<Event>, s': Sys)
    decreases |es|
  {
    if es == [] then s == s'
    else Enabled(s, es[0]) && Reaches(Apply(s, es[0]), es[1..], s')
  }

  ghost predicate Initial(s: Sys) {
    s.files == NO_FILES && s.lock == None && s.procs == map[]
  }

  // ----- the invariant -----

  /** The names of the task are listed under the generation on record. */
  ghost predicate HasRecorded(f: Files, t: Task) {
    CurrentGeneration(f).Some? && Tagged(CurrentGeneration(f).value, t.record) <= Entries(f)
  }

  ghost predicate ValidNext(next: Option<Begin>) {
    next.Some? ==> ValidBegin(next.value)
  }

  /** What each program counter knows about the files. */
  ghost predicate ProcInv(s: Sys, p: Proc) {
    match p
    case Queued(t) => ValidTask(t)
    case Locked(t) => ValidTask(t)
    case Loaded(t, g, entries) =>
      ValidTask(t) && CurrentGeneration(s.files) == Some(g) && entries == Entries(s.files)
    case Stored(t) => ValidTask(t) && HasRecorded(s.files, t)
    case Recorded(t) => ValidTask(t)
    case SystemdSet(t) => ValidTask(t)
    case Assigned(t) => ValidTask(t)
    case DbusCleared(t) => ValidTask(t)
    case EndQueued(next) => ValidNext(next)
    case Restoring(w, k, next) => ValidNext(next) && w.files != NO_FILES && s.files == w.files
    case ListRemoved(_, next) => ValidNext(next)
    case SnapshotRemoved(_, next) => ValidNext(next)
    case Cleared(next) => ValidNext(next)
    case IdWritten(b) => ValidBegin(b) && s.files.generation == Some(b.id)
    case SnapshotWritten(b) =>
      ValidBegin(b) && s.files.generation == Some(b.id) && s.files.envPre == Some(b.pre)
    case Gone => true
  }

  /** Mutual exclusion. */
  ghost predicate LockInv(s: Sys) {
    && (forall q | q in s.procs :: HoldsLock(s.procs[q]) <==> s.lock == Some(q))
    && (s.lock.Some? ==> s.lock.value in s.procs)
  }

  ghost predicate Inv(s: Sys) {
    LockInv(s) && forall q | q in s.procs :: ProcInv(s, s.procs[q])
  }

  lemma InitialInv(s: Sys)
    requires Initial(s)
    ensures Inv(s)
  {
  }

  // ----- every step keeps it -----

  lemma RestoreCallAdvances(s: Stores, names: set<string>, pre: Env, k: Updates)
    requires k < 4
    ensures RestoreCall(Advance(s, names, pre, k), names, pre, k) == Advance(s, names, pre, k + 1)
  {
  }

  lemma TaskOfIsValid(b: Begin)
    requires ValidBegin(b)
    ensures ValidTask(TaskOf(b))
  {
    ChangesAreAccountedFor(b.pre, b.post);
  }

  ghost predicate OnlyMoved(s: Sys, s': Sys, pid: nat) {
    pid in s'.procs && s'.procs.Keys == s.procs.Keys + {pid}
    && forall q | q in s.procs && q != pid :: s'.procs[q] == s.procs[q]
  }

  /** Only the holder of the lock touches the files. */
  lemma OthersKeep(s: Sys, s': Sys, pid: nat)
    requires Inv(s) && OnlyMoved(s, s', pid)
    requires s'.files == s.files || s.lock == Some(pid)
    ensures forall q | q in s.procs && q != pid :: ProcInv(s', s'.procs[q])
  {
    forall q | q in s.procs && q != pid
      ensures ProcInv(s', s'.procs[q])
    {
      assert ProcInv(s, s.procs[q]);
      assert HoldsLock(s.procs[q]) ==> s.lock == Some(q);
    }
  }

  /** How the lock may change hands. */
  ghost predicate LawfulMove(s: Sys, s': Sys, pid: nat)
    requires pid in s.procs && pid in s'.procs
  {
    || (s'.lock == s.lock && (HoldsLock(s'.procs[pid]) <==> HoldsLock(s.procs[pid])))
    || (s.lock == None && s'.lock == Some(pid) && HoldsLock(s'.procs[pid]))
    || (s.lock == Some(pid) && s'.lock == None && !HoldsLock(s'.procs[pid]))
  }

  /** A process moved: what is left to show is its own new knowledge. */
  lemma MoveKeepsInv(s: Sys, s': Sys, pid: nat)
    requires Inv(s) && OnlyMoved(s, s', pid) && pid in s.procs && LawfulMove(s, s', pid)
    requires s'.files == s.files || s.lock == Some(pid)
    requires ProcInv(s', s'.procs[pid])
    ensures Inv(s')
  {
    OthersKeep(s, s', pid);
  }

  /** The write of one append: nothing read under the lock can have changed since, so nothing is lost. */
  lemma WritingKeepsInv(s: Sys, pid: nat)
    requires Inv(s) && pid in s.procs && s.procs[pid].Loaded?
    ensures Inv(Step(s, pid))
    ensures CurrentGeneration(s.files).Some? && Step(s, pid).files == Appended(s.files, s.procs[pid].task.record)
  {
    assert ProcInv(s, s.procs[pid]);
    MoveKeepsInv(s, Step(s, pid), pid);
  }

  lemma LockingKeepsInv(s: Sys, pid: nat)
    requires Inv(s) && Enabled(s, Advances(pid)) && (s.procs[pid].Queued? || s.procs[pid].Locked?)
    ensures Inv(Step(s, pid))
  {
    assert ProcInv(s, s.procs[pid]);
    MoveKeepsInv(s, Step(s, pid), pid);
  }

  lemma UnlockingKeepsInv(s: Sys, pid: nat)
    requires Inv(s) && Enabled(s, Advances(pid)) && s.procs[pid].Stored?
    ensures Inv(Step(s, pid))
  {
    assert ProcInv(s, s.procs[pid]);
    MoveKeepsInv(s, Step(s, pid), pid);
  }

  lemma ExportMoves(s: Sys, pid: nat)
    requires Enabled(s, Advances(pid)) && InFlight(s.procs[pid]) && ProcInv(s, s.procs[pid])
    ensures OnlyMoved(s, Step(s, pid), pid) && LawfulMove(s, Step(s, pid), pid)
    ensures Step(s, pid).files == s.files && ProcInv(Step(s, pid), Step(s, pid).procs[pid])
  {
  }

  lemma ExportKeepsInv(s: Sys, pid: nat)
    requires Inv(s) && Enabled(s, Advances(pid)) && InFlight(s.procs[pid])
    ensures Inv(Step(s, pid))
  {
    ExportMoves(s, pid);
    MoveKeepsInv(s, Step(s, pid), pid);
  }

  lemma RestoreKeepsInv(s: Sys, pid: nat)
    requires Inv(s) && Enabled(s, Advances(pid)) && (s.procs[pid].EndQueued? || s.procs[pid].Restoring?)
    ensures Inv(Step(s, pid))
  {
    assert ProcInv(s, s.procs[pid]);
    MoveKeepsInv(s, Step(s, pid), pid);
  }

  lemma RemovalKeepsInv(s: Sys, pid: nat)
    requires Inv(s) && Enabled(s, Advances(pid)) && (s.procs[pid].ListRemoved? || s.procs[pid].SnapshotRemoved?)
    ensures Inv(Step(s, pid))
  {
    assert ProcInv(s, s.procs[pid]);
    MoveKeepsInv(s, Step(s, pid), pid);
  }

  lemma FailedRemovalKeepsInv(s: Sys, pid: nat)
    requires Inv(s) && pid in s.procs && Removing(s.procs[pid])
    ensures Inv(Passed(s, pid))
  {
    assert ProcInv(s, s.procs[pid]);
    MoveKeepsInv(s, Passed(s, pid), pid);
  }

  lemma ClearedKeepsInv(s: Sys, pid: nat)
    requires Inv(s) && Enabled(s, Advances(pid)) && s.procs[pid].Cleared?
    ensures Inv(Step(s, pid))
  {
    assert ProcInv(s, s.procs[pid]);
    MoveKeepsInv(s, Step(s, pid), pid);
  }

  lemma SnapshotKeepsInv(s: Sys, pid: nat)
    requires Inv(s) && Enabled(s, Advances(pid)) && s.procs[pid].IdWritten?
    ensures Inv(Step(s, pid))
  {
    assert ProcInv(s, s.procs[pid]);
    MoveKeepsInv(s, Step(s, pid), pid);
  }

  lemma BeginEnds(s: Sys, pid: nat)
    requires Enabled(s, Advances(pid)) && s.procs[pid].SnapshotWritten? && s.lock == Some(pid) && ProcInv(s, s.procs[pid])
    ensures OnlyMoved(s, Step(s, pid), pid) && LawfulMove(s, Step(s, pid), pid)
    ensures ProcInv(Step(s, pid), Step(s, pid).procs[pid])
  {
    TaskOfIsValid(s.procs[pid].begin);
  }

  lemma EmptyListKeepsInv(s: Sys, pid: nat)
    requires Inv(s) && Enabled(s, Advances(pid)) && s.procs[pid].SnapshotWritten?
    ensures Inv(Step(s, pid))
  {
    BeginEnds(s, pid);
    MoveKeepsInv(s, Step(s, pid), pid);
  }

  lemma DyingKeepsInv(s: Sys, pid: nat)
    requires Inv(s) && Enabled(s, Dies(pid))
    ensures Inv(Apply(s, Dies(pid)))
  {
    assert HoldsLock(s.procs[pid]) <==> s.lock == Some(pid);
    MoveKeepsInv(s, Apply(s, Dies(pid)), pid);
  }

  lemma SpawningKeepsInv(s: Sys, pid: nat, p: Proc)
    requires Inv(s) && Enabled(s, Spawn(pid, p))
    ensures Inv(Apply(s, Spawn(pid, p)))
  {
    assert s.lock != Some(pid) && !HoldsLock(p) && ProcInv(s, p);
    OthersKeep(s, Move(s, pid, p), pid);
  }

  lemma OutsideKeepsInv(s: Sys, systemd: Env, dbus: Env)
    requires Inv(s) && Enabled(s, Outside(systemd, dbus))
    ensures Inv(Apply(s, Outside(systemd, dbus)))
  {
    forall q | q in s.procs
      ensures ProcInv(Apply(s, Outside(systemd, dbus)), s.procs[q])
    {
      assert ProcInv(s, s.procs[q]);
    }
  }

  lemma AdvanceKeepsInv(s: Sys, pid: nat)
    requires Inv(s) && Enabled(s, Advances(pid))
    ensures Inv(Step(s, pid))
  {
    var p := s.procs[pid];
    if p.Loaded? {
      WritingKeepsInv(s, pid);
    } else if p.Queued? || p.Locked? {
      LockingKeepsInv(s, pid);
    } else if p.Stored? {
      UnlockingKeepsInv(s, pid);
    } else if InFlight(p) {
      ExportKeepsInv(s, pid);
    } else if p.EndQueued? || p.Restoring? {
      RestoreKeepsInv(s, pid);
    } else if p.ListRemoved? || p.SnapshotRemoved? {
      RemovalKeepsInv(s, pid);
    } else if p.Cleared? {
      ClearedKeepsInv(s, pid);
    } else if p.IdWritten? {
      SnapshotKeepsInv(s, pid);
    } else {
      EmptyListKeepsInv(s, pid);
    }
  }

  lemma ApplyKeepsInv(s: Sys, e: Event)
    requires Inv(s) && Enabled(s, e)
    ensures Inv(Apply(s, e))
  {
    match e
    case Spawn(pid, p) => SpawningKeepsInv(s, pid, p);
    case Advances(pid) => AdvanceKeepsInv(s, pid);
    case RemovalFails(pid) => FailedRemovalKeepsInv(s, pid);
    case Dies(pid) => DyingKeepsInv(s, pid);
    case Outside(systemd, dbus) => OutsideKeepsInv(s, systemd, dbus);
  }

  lemma {:induction false} RunKeepsInv(s: Sys, es: seq<Event>, s': Sys)
    requires Inv(s) && Reaches(s, es, s')
    ensures Inv(s')
    decreases |es|
  {
    if es != [] {
      ApplyKeepsInv(s, es[0]);
      RunKeepsInv(Apply(s, es[0]), es[1..], s');
    }
  }

  // ----- within a session -----

  /** Some process starts a restore or begin. */
  predicate StartsEnd(s: Sys, e: Event) {
    e.Advances? && e.pid in s.procs && s.procs[e.pid].EndQueued?
  }

  predicate NobodyEnding(s: Sys) {
    forall q | q in s.procs :: !Ending(s.procs[q])
  }

  /** Nobody is in a restore or begin, and nobody starts one. */
  ghost predicate WithinSession(s: Sys, es: seq<Event>)
    decreases |es|
  {
    NobodyEnding(s) && (es != [] ==> Enabled(s, es[0]) && !StartsEnd(s, es[0]) && WithinSession(Apply(s, es[0]), es[1..]))
  }

  /** The generation and the snapshot stay, and the list only grows. */
  ghost predicate SessionGoesOn(a: Files, b: Files) {
    && b.generation == a.generation && b.envPre == a.envPre
    && Entries(a) <= Entries(b)
  }

  lemma EventKeepsSession(s: Sys, e: Event)
    requires Inv(s) && NobodyEnding(s) && Enabled(s, e) && !StartsEnd(s, e)
    ensures SessionGoesOn(s.files, Apply(s, e).files)
  {
    if e.Advances? {
      assert ProcInv(s, s.procs[e.pid]);
    }
  }

  lemma {:induction false} SessionStays(s: Sys, es: seq<Event>, s': Sys)
    requires Inv(s) && Reaches(s, es, s') && WithinSession(s, es)
    ensures SessionGoesOn(s.files, s'.files) && NobodyEnding(s')
    decreases |es|
  {
    if es != [] {
      EventKeepsSession(s, es[0]);
      ApplyKeepsInv(s, es[0]);
      SessionStays(Apply(s, es[0]), es[1..], s');
    }
  }

  /** Concurrent appends lose nothing. From any reachable state in which a process has just written its names, whatever
      the others do until a restore or begin starts, the list keeps all entries of every generation, and the names of the
      process are listed under the generation on record. */
  lemma NoUpdateIsLost(s0: Sys, es0: seq<Event>, s: Sys, pid: nat, es: seq<Event>, s': Sys)
    requires Initial(s0) && Reaches(s0, es0, s) && pid in s.procs && s.procs[pid].Stored?
    requires Reaches(s, es, s') && WithinSession(s, es)
    ensures Entries(s.files) <= Entries(s'.files) && CurrentGeneration(s'.files) == CurrentGeneration(s.files)
    ensures FilterNames(s.procs[pid].task.record) <= Listed(s'.files)
  {
    InitialInv(s0);
    RunKeepsInv(s0, es0, s);
    SessionStays(s, es, s');
    assert ProcInv(s, s.procs[pid]);
    RecordedIsListed(s'.files, s.procs[pid].task);
  }

  lemma RecordedIsListed(f: Files, t: Task)
    requires HasRecorded(f, t)
    ensures FilterNames(t.record) <= Listed(f)
  {
    var g := CurrentGeneration(f).value;
    forall n | n in FilterNames(t.record)
      ensures n in Listed(f)
    {
      assert CleanupEntry(g, n) in Tagged(g, t.record);
      NamesOfMember(Entries(f), g, n);
    }
  }

  /** Every name a process is to export is listed under the generation on record, or protected, from the moment it has
      recorded its names until a restore or begin starts; that covers the export itself, also if the process dies. */
  lemma ExportsAreCovered(s0: Sys, es0: seq<Event>, s: Sys, pid: nat, es: seq<Event>, s': Sys, n: string)
    requires Initial(s0) && Reaches(s0, es0, s) && pid in s.procs && s.procs[pid].Stored?
    requires Reaches(s, es, s') && WithinSession(s, es) && n in s.procs[pid].task.exports
    ensures KeepName(n) && (n in NEVER_CLEANUP || n in Listed(s'.files))
  {
    NoUpdateIsLost(s0, es0, s, pid, es, s');
    InitialInv(s0);
    RunKeepsInv(s0, es0, s);
    assert ProcInv(s, s.procs[pid]);
  }

  // ----- a restore -----

  /** Somebody other than `pid` writes to the stores. */
  predicate Disturbs(s: Sys, e: Event, pid: nat) {
    e.Outside? || (e.Advances? && e.pid != pid && e.pid in s.procs && InFlight(s.procs[e.pid]))
  }

  /** `pid` is restoring all the time, and nobody else writes to the stores. */
  ghost predicate Undisturbed(s: Sys, es: seq<Event>, pid: nat)
    decreases |es|
  {
    && pid in s.procs && s.procs[pid].Restoring?
    && (es != [] ==> Enabled(s, es[0]) && !Disturbs(s, es[0], pid) && Undisturbed(Apply(s, es[0]), es[1..], pid))
  }

  /** So far the restore has made its updates and nothing else has happened to the stores. */
  ghost predicate OnItsWay(s: Sys, pid: nat, w: World) {
    && pid in s.procs && s.procs[pid].Restoring? && s.procs[pid].start == w
    && s.stores == Progress(w, s.procs[pid].done)
  }

  lemma OthersLeaveStores(s: Sys, e: Event, pid: nat)
    requires Inv(s) && Enabled(s, e) && pid in s.procs && s.procs[pid].Restoring? && !Disturbs(s, e, pid)
    requires e != Advances(pid)
    ensures Apply(s, e).stores == s.stores
    ensures pid in Apply(s, e).procs && Apply(s, e).procs[pid].Restoring? ==> Apply(s, e).procs[pid] == s.procs[pid]
  {
    assert HoldsLock(s.procs[pid]) && s.lock == Some(pid);
  }

  lemma CallGoesOn(s: Sys, pid: nat, w: World)
    requires Enabled(s, Advances(pid)) && OnItsWay(s, pid, w) && Step(s, pid).procs[pid].Restoring?
    ensures OnItsWay(Step(s, pid), pid, w)
  {
    RestoreCallAdvances(w.stores, ToUnset(w), Snapshot(w.files), s.procs[pid].done);
  }

  lemma {:induction false} RestoreGoesOn(s: Sys, es: seq<Event>, s': Sys, pid: nat, w: World)
    requires Inv(s) && OnItsWay(s, pid, w) && Reaches(s, es, s') && Undisturbed(s, es, pid)
    ensures OnItsWay(s', pid, w)
    decreases |es|
  {
    if es != [] {
      ApplyKeepsInv(s, es[0]);
      if es[0] == Advances(pid) {
        CallGoesOn(s, pid, w);
      } else {
        OthersLeaveStores(s, es[0], pid);
      }
      RestoreGoesOn(Apply(s, es[0]), es[1..], s', pid, w);
    }
  }

  /** A restore starts from what is on disk and in the stores at that moment. */
  lemma RestoreStarts(s: Sys, pid: nat)
    requires Inv(s) && Enabled(s, Advances(pid)) && s.procs[pid].EndQueued? && s.files != NO_FILES
    ensures OnItsWay(Step(s, pid), pid, World(s.files, s.stores)) && Step(s, pid).procs[pid].done == 0
  {
  }

  /** All four updates are made, and no file is removed yet. */
  ghost predicate RestoreDone(s: Sys, pid: nat) {
    pid in s.procs && s.procs[pid].Restoring? && s.procs[pid].done == 4
  }

  /** What a restore that starts from `w` makes of the value of `n`. */
  ghost predicate ComesBack(pre: Env, w: World, after: Env, n: string) {
    if n in pre then n in after && after[n] == pre[n]
    else (n in after <==> SurvivesRestore(w, n)) && (n in after ==> after[n] == w.stores.systemd[n])
  }

  /** A whole session, in any run. At `a` the snapshot is on disk and a process has just recorded its names; at `c`, in the
      same session, a restore is about to start; at `d` it has made its four updates undisturbed. Then every name of the
      snapshot has its value back; any other survives exactly if it was live at `c` and is protected, invisible, or neither
      listed nor fixed for cleanup; D-Bus agrees; and none of the names the process was to export is left outside the
      snapshot unless it is protected. */
  lemma EndRestoresSession(s0: Sys, es0: seq<Event>, a: Sys, recorder: nat, es1: seq<Event>, c: Sys, pid: nat,
                           es2: seq<Event>, d: Sys, n: string)
    requires Initial(s0) && Reaches(s0, es0, a) && a.files.envPre.Some?
    requires recorder in a.procs && a.procs[recorder].Stored?
    requires Reaches(a, es1, c) && WithinSession(a, es1)
    requires Enabled(c, Advances(pid)) && c.procs[pid].EndQueued?
    requires Reaches(Step(c, pid), es2, d) && Undisturbed(Step(c, pid), es2, pid) && RestoreDone(d, pid)
    ensures ComesBack(FilterEnv(a.files.envPre.value), World(c.files, c.stores), d.stores.systemd, n)
    ensures n in a.procs[recorder].task.exports && n in d.stores.systemd
            ==> n in NEVER_CLEANUP || n in FilterEnv(a.files.envPre.value)
    ensures d.stores.dbus == Restored(World(c.files, c.stores)).stores.dbus && RestoredInDbus(World(c.files, c.stores), n)
    ensures DbusWithinSystemd(c.stores) ==> DbusWithinSystemd(d.stores)
  {
    var w := World(c.files, c.stores);
    InitialInv(s0);
    RunKeepsInv(s0, es0, a);
    SessionStays(a, es1, c);
    RunKeepsInv(a, es1, c);
    RestoreStarts(c, pid);
    ApplyKeepsInv(c, Advances(pid));
    RestoreGoesOn(Step(c, pid), es2, d, pid, w);
    RestoreMeaning(w, n);
    if DbusWithinSystemd(c.stores) {
      ProgressKeepsDbusWithinSystemd(w, 4);
    }
    if n in a.procs[recorder].task.exports {
      ExportsAreCovered(s0, es0, a, recorder, es1, c, n);
    }
  }

  // ----- what the ordering of the units is for -----

  /** No restore or begin starts while a process sits between recording and exporting. */
  predicate Orderly(s: Sys, e: Event) {
    StartsEnd(s, e) ==> forall q | q in s.procs :: !InFlight(s.procs[q])
  }

  ghost predicate OrderlyRun(s: Sys, es: seq<Event>)
    decreases |es|
  {
    es != [] ==> Enabled(s, es[0]) && Orderly(s, es[0]) && OrderlyRun(Apply(s, es[0]), es[1..])
  }

  /** Whoever is about to export has its names on the list, and nobody is while a restore or begin is under way. */
  ghost predicate InTime(s: Sys) {
    && (forall q | q in s.procs && InFlight(s.procs[q]) :: HasRecorded(s.files, s.procs[q].task))
    && (forall q, r | q in s.procs && r in s.procs :: Ending(s.procs[q]) ==> !InFlight(s.procs[r]))
  }

  lemma MoveInTime(s: Sys, s': Sys, pid: nat)
    requires LockInv(s) && InTime(s) && OnlyMoved(s, s', pid)
    requires || (CurrentGeneration(s'.files) == CurrentGeneration(s.files) && Entries(s.files) <= Entries(s'.files))
             || forall q | q in s.procs && q != pid :: !InFlight(s.procs[q])
    requires InFlight(s'.procs[pid]) ==>
               HasRecorded(s'.files, s'.procs[pid].task) && forall q | q in s.procs && q != pid :: !Ending(s.procs[q])
    requires Ending(s'.procs[pid]) ==> forall q | q in s.procs && q != pid :: !InFlight(s.procs[q])
    ensures InTime(s')
  {
  }

  lemma ExportInTime(s: Sys, pid: nat)
    requires LockInv(s) && InTime(s) && Enabled(s, Advances(pid)) && InFlight(s.procs[pid])
    ensures InTime(Step(s, pid))
  {
    MoveInTime(s, Step(s, pid), pid);
  }

  lemma AppendInTime(s: Sys, pid: nat)
    requires Inv(s) && InTime(s) && Enabled(s, Advances(pid)) && Appending(s.procs[pid])
    ensures InTime(Step(s, pid))
  {
    assert ProcInv(s, s.procs[pid]) && HoldsLock(s.procs[pid]) && s.lock == Some(pid);
    assert forall q | q in s.procs && q != pid :: !HoldsLock(s.procs[q]);
    MoveInTime(s, Step(s, pid), pid);
  }

  lemma EndInTime(s: Sys, pid: nat)
    requires LockInv(s) && InTime(s) && Enabled(s, Advances(pid)) && Ending(s.procs[pid])
    ensures InTime(Step(s, pid))
  {
    MoveInTime(s, Step(s, pid), pid);
  }

  lemma StartInTime(s: Sys, pid: nat)
    requires LockInv(s) && InTime(s) && Enabled(s, Advances(pid)) && Orderly(s, Advances(pid))
    requires s.procs[pid].EndQueued? || s.procs[pid].Queued?
    ensures InTime(Step(s, pid))
  {
    MoveInTime(s, Step(s, pid), pid);
  }

  lemma EventInTime(s: Sys, e: Event)
    requires Inv(s) && InTime(s) && Enabled(s, e) && Orderly(s, e)
    ensures InTime(Apply(s, e))
  {
    if e.Advances? {
      var p := s.procs[e.pid];
      if InFlight(p) {
        ExportInTime(s, e.pid);
      } else if Appending(p) {
        AppendInTime(s, e.pid);
      } else if Ending(p) {
        EndInTime(s, e.pid);
      } else {
        StartInTime(s, e.pid);
      }
    } else if !e.Outside? {
      MoveInTime(s, Apply(s, e), e.pid);
    }
  }

  lemma {:induction false} OrderlyRunsAreInTime(s: Sys, es: seq<Event>, s': Sys)
    requires Inv(s) && InTime(s) && Reaches(s, es, s') && OrderlyRun(s, es)
    ensures InTime(s')
    decreases |es|
  {
    if es != [] {
      ApplyKeepsInv(s, es[0]);
      EventInTime(s, es[0]);
      OrderlyRunsAreInTime(Apply(s, es[0]), es[1..], s');
    }
  }

  /** In a run that keeps the ordering, no export is ever late: whoever sits between recording and the end of its export
      has its names listed under the generation on record, and no restore or begin is under way. */
  lemma NoLateExports(s0: Sys, es: seq<Event>, s: Sys, pid: nat)
    requires Initial(s0) && Reaches(s0, es, s) && OrderlyRun(s0, es) && pid in s.procs && InFlight(s.procs[pid])
    ensures FilterNames(s.procs[pid].task.record) <= Listed(s.files) && NobodyEnding(s)
    ensures forall n | n in s.procs[pid].task.exports :: n in NEVER_CLEANUP || n in Listed(s.files)
  {
    InitialInv(s0);
    RunKeepsInv(s0, es, s);
    OrderlyRunsAreInTime(s0, es, s);
    RecordedIsListed(s.files, s.procs[pid].task);
    assert ProcInv(s, s.procs[pid]);
  }
}
