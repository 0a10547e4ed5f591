/** The state files and the restore algebra of `state.rs`, on values: what a generation lists, what a restore
    unsets, and what every prefix of its bus calls leaves behind. */
module Generation {
  import opened Wrappers
  import opened VarNames
  import opened Bus
  import opened EnvDelta

  datatype CleanupEntry = CleanupEntry(generation: string, name: string)

  /** The three files; `None` is an absent file. */
  datatype Files = Files(generation: Option<string>, envPre: Option<Env>, cleanup: Option<set<CleanupEntry>>)

  const NO_FILES := Files(None, None, None)

  datatype World = World(files: Files, stores: Stores)

  /** A blank generation file counts as no generation. */
  function CurrentGeneration(f: Files): Option<string> {
    if f.generation == Some("") then None else f.generation
  }

  function Entries(f: Files): set<CleanupEntry> {
    if f.cleanup.Some? then f.cleanup.value else {}
  }

  function Snapshot(f: Files): Env {
    if f.envPre.Some? then FilterEnv(f.envPre.value) else map[]
  }

  function NamesOf(entries: set<CleanupEntry>, g: string): set<string> {
    set e | e in entries && e.generation == g :: e.name
  }

  function Listed(f: Files): set<string> {
    match CurrentGeneration(f)
    case Some(g) => NamesOf(Entries(f), g)
    case None => {}
  }

  /** Nothing on disk means nothing to restore: not even `ALWAYS_CLEANUP` is touched. */
  function ToUnset(w: World): set<string> {
    if w.files == NO_FILES then {}
    else
      set k | k in Listed(w.files) + ALWAYS_CLEANUP
              && k !in NEVER_CLEANUP && k in FilterEnv(w.stores.systemd) && k !in Snapshot(w.files)
  }

  function Tagged(g: string, names: set<string>): set<CleanupEntry> {
    set n | n in names && KeepName(n) :: CleanupEntry(g, n)
  }

  /** The files after recording `names`; the list is rewritten only when something is new. */
  function Appended(f: Files, names: set<string>): Files
    requires CurrentGeneration(f).Some?
  {
    var added := Tagged(CurrentGeneration(f).value, names);
    if added <= Entries(f) then f else f.(cleanup := Some(Entries(f) + added))
  }

  /** How many of a restore's four updates have taken effect. */
  type Updates = k: nat | k <= 4

  /** The stores after the first `k` of the four updates of a restore: D-Bus cleared, systemd unset,
      systemd restored, D-Bus restored. */
  function Advance(s: Stores, names: set<string>, pre: Env, k: Updates): Stores {
    match k
    case 0 => s
    case 1 => s.WithDbus(Blank(names))
    case 2 => AfterUnset(s, names)
    case 3 => AfterUnset(s, names).(systemd := s.systemd - names + pre)
    case _ => AfterSet(AfterUnset(s, names), pre)
  }

  function Progress(w: World, k: Updates): Stores {
    Advance(w.stores, ToUnset(w), Snapshot(w.files), k)
  }

  datatype StateFile = GenerationFile | SnapshotFile | ListFile

  /** Every file but the kept ones is gone. */
  function Remaining(f: Files, kept: set<StateFile>): Files {
    Files(if GenerationFile in kept then f.generation else None,
          if SnapshotFile in kept then f.envPre else None,
          if ListFile in kept then f.cleanup else None)
  }

  function Restored(w: World): World {
    World(NO_FILES, Progress(w, 4))
  }

  ghost predicate SurvivesRestore(w: World, n: string) {
    n in w.stores.systemd &&
    (n in NEVER_CLEANUP || !KeepName(n) || (n !in Listed(w.files) && n !in ALWAYS_CLEANUP))
  }

  /** What a classic D-Bus daemon holds for a name afterwards: the snapshot's value, nothing for a name that was unset, and
      otherwise what it held before. */
  ghost predicate RestoredInDbus(w: World, n: string) {
    var before, after := w.stores.dbus, Restored(w).stores.dbus;
    if w.stores.broker then after == before
    else if n in Snapshot(w.files) then n in after && after[n] == Snapshot(w.files)[n]
    else if n in w.stores.systemd && !SurvivesRestore(w, n) then n in after && after[n] == ""
    else (n in after <==> n in before) && (n in after ==> after[n] == before[n])
  }

  /** What a successful restore means for any one name: the snapshot is back, and outside it exactly the
      protected, invisible and unlisted names survive, with their values. */
  lemma RestoreMeaning(w: World, n: string)
    requires w.files != NO_FILES
    ensures var after := Restored(w).stores.systemd;
            if n in Snapshot(w.files) then n in after && after[n] == Snapshot(w.files)[n]
            else (n in after <==> SurvivesRestore(w, n)) && (n in after ==> after[n] == w.stores.systemd[n])
    ensures RestoredInDbus(w, n)
  {
    assert n in FilterEnv(w.stores.systemd) <==> n in w.stores.systemd && KeepName(n);
  }

  /** If D-Bus knew no value systemd did not know, then after a restore every value left in D-Bus belongs to a name of the
      snapshot or one that survived. */
  lemma NothingLeftInDbus(w: World, n: string)
    requires w.files != NO_FILES && DbusWithinSystemd(w.stores)
    requires n in Restored(w).stores.DbusView() && Restored(w).stores.DbusView()[n] != ""
    ensures n in Snapshot(w.files) || SurvivesRestore(w, n)
  {
    ProgressKeepsDbusWithinSystemd(w, 4);
    RestoreMeaning(w, n);
  }

  /** What a restore unsets is decided by the current generation alone. */
  lemma OtherGenerationsDoNotMatter(w: World, other: set<CleanupEntry>)
    requires w.files.cleanup.Some?
    requires forall e | e in other :: Some(e.generation) != w.files.generation
    ensures var w' := w.(files := w.files.(cleanup := Some(Entries(w.files) + other)));
            ToUnset(w') == ToUnset(w) && Restored(w') == Restored(w)
  {
    var w' := w.(files := w.files.(cleanup := Some(Entries(w.files) + other)));
    assert Listed(w'.files) == Listed(w.files) by {
      match CurrentGeneration(w.files)
      case None =>
      case Some(g) =>
        assert forall n :: CleanupEntry(g, n) in Entries(w'.files) <==> CleanupEntry(g, n) in Entries(w.files);
        forall n
          ensures n in NamesOf(Entries(w'.files), g) <==> n in NamesOf(Entries(w.files), g)
        {
          NamesOfMember(Entries(w'.files), g, n);
          NamesOfMember(Entries(w.files), g, n);
        }
    }
    assert ToUnset(w') == ToUnset(w);
  }

  lemma NamesOfMember(entries: set<CleanupEntry>, g: string, n: string)
    ensures n in NamesOf(entries, g) <==> CleanupEntry(g, n) in entries
  {
    if CleanupEntry(g, n) in entries {
      assert CleanupEntry(g, n).name in NamesOf(entries, g);
    }
    if n in NamesOf(entries, g) {
      var e :| e in entries && e.generation == g && e.name == n;
      assert e == CleanupEntry(g, n);
    }
  }

  /** Recording makes the kept names listed and touches nothing else. */
  lemma AppendedMeaning(f: Files, names: set<string>)
    requires CurrentGeneration(f).Some?
    ensures var f' := Appended(f, names); var g := CurrentGeneration(f).value;
            && f'.generation == f.generation && f'.envPre == f.envPre
            && Entries(f') == Entries(f) + Tagged(g, names)
            && Listed(f') == Listed(f) + FilterNames(names)
            && (forall e: CleanupEntry | e.generation != g :: e in Entries(f') <==> e in Entries(f))
  {
    var f' := Appended(f, names);
    var g := CurrentGeneration(f).value;
    forall n
      ensures n in Listed(f') <==> n in Listed(f) + FilterNames(names)
    {
      NamesOfMember(Entries(f'), g, n);
      NamesOfMember(Entries(f), g, n);
      assert n in FilterNames(names) <==> CleanupEntry(g, n) in Tagged(g, names);
    }
  }

  /** Once the names are gone from systemd there is nothing left to unset; before that, nothing has changed. */
  lemma WorkLeft(w: World, k: Updates)
    ensures ToUnset(World(w.files, Progress(w, k))) == if k <= 1 then ToUnset(w) else {}
  {
    var w1 := World(w.files, Progress(w, k));
    if k <= 1 {
      assert w1.stores.systemd == w.stores.systemd;
    } else {
      forall n | n in w1.stores.systemd && n !in Snapshot(w.files)
        ensures n in w.stores.systemd && n !in ToUnset(w)
      {
      }
      forall n
        ensures n !in ToUnset(w1)
      {
      }
    }
  }

  lemma MapUpdatesAbsorb(m: Env, names: set<string>, pre: Env)
    ensures m - names - names == m - names
    ensures m - {} == m
    ensures m + Blank(names) + Blank(names) == m + Blank(names)
    ensures m + map[] == m && m + Blank({}) == m
    ensures m + pre + pre == m + pre
  {
  }

  lemma AdvanceAgain(s: Stores, names: set<string>, pre: Env, k: Updates)
    ensures Advance(Advance(s, names, pre, k), if k <= 1 then names else {}, pre, 4) == Advance(s, names, pre, 4)
  {
    MapUpdatesAbsorb(s.systemd, names, pre);
    MapUpdatesAbsorb(s.systemd - names, names, pre);
    MapUpdatesAbsorb(s.systemd - names + pre, names, pre);
    MapUpdatesAbsorb(s.dbus, names, pre);
    MapUpdatesAbsorb(s.dbus + Blank(names), names, pre);
    MapUpdatesAbsorb(s.dbus + Blank(names) + pre, names, pre);
    match k case 0 => case 1 => case 2 => case 3 => case 4 =>
  }

  /** A restore that stopped after any of its updates left exactly the work that a later one completes. */
  lemma RetryFinishesTheJob(w: World, k: Updates)
    ensures Restored(World(w.files, Progress(w, k))) == Restored(w)
  {
    WorkLeft(w, k);
    AdvanceAgain(w.stores, ToUnset(w), Snapshot(w.files), k);
  }

  /** The world after failed restores that each completed the given number of updates. */
  function AfterAttempts(w: World, attempts: seq<Updates>): World
    decreases |attempts|
  {
    if attempts == [] then w
    else AfterAttempts(World(w.files, Progress(w, attempts[0])), attempts[1..])
  }

  /** Any number of failed restores followed by a successful one ends where a failure-free one ends, and the
      state files survive every failure. */
  lemma {:induction false} FailedRestoresConverge(w: World, attempts: seq<Updates>)
    ensures AfterAttempts(w, attempts).files == w.files
    ensures Restored(AfterAttempts(w, attempts)) == Restored(w)
    decreases |attempts|
  {
    if attempts != [] {
      RetryFinishesTheJob(w, attempts[0]);
      FailedRestoresConverge(World(w.files, Progress(w, attempts[0])), attempts[1..]);
    }
  }

  lemma ProgressKeepsDbusWithinSystemd(w: World, k: Updates)
    requires DbusWithinSystemd(w.stores)
    ensures DbusWithinSystemd(Progress(w, k))
  {
  }

  // ----- a session on values -----

  /** What a session may do to the environment: it unsets only names of the snapshot, and whatever it assigns
      is visible and either recorded for cleanup or protected from it. */
  ghost predicate Accounted(pre: Env, c: EnvChanges) {
    && c.unset <= pre.Keys
    && (forall n | n in c.assign :: KeepName(n) && (n in c.cleanup <==> n !in NEVER_CLEANUP))
    && c.cleanup <= c.assign.Keys
  }

  /** The files and stores after a `prepare-env` that succeeded with the given delta. */
  function Prepared(w: World, id: string, c: EnvChanges): World
    requires id != ""
  {
    var begun := Files(Some(id), Some(FilterEnv(w.stores.systemd)), Some({}));
    World(Appended(begun, c.cleanup), AfterUnset(AfterSet(Restored(w).stores, c.assign), c.unset))
  }

  /** The files of a prepared session: its snapshot is the environment seen on entry and its list is the
      recorded part of the delta. */
  lemma PreparedMeaning(w: World, id: string, c: EnvChanges)
    requires id != ""
    ensures var p := Prepared(w, id, c);
            && p.files != NO_FILES
            && Snapshot(p.files) == FilterEnv(w.stores.systemd)
            && Listed(p.files) == FilterNames(c.cleanup)
            && p.stores.systemd == Restored(w).stores.systemd + c.assign - c.unset
  {
    var pre := FilterEnv(w.stores.systemd);
    var begun := Files(Some(id), Some(pre), Some({}));
    AppendedMeaning(begun, c.cleanup);
    assert FilterEnv(pre) == pre;
    assert Listed(begun) == {};
  }

  /** Ending a session that started from `sys` and applied `c`. */
  lemma EndOfSession(p: World, sys: Env, c: EnvChanges, n: string)
    requires Accounted(FilterEnv(sys), c)
    requires p.files != NO_FILES && Snapshot(p.files) == FilterEnv(sys) && Listed(p.files) == FilterNames(c.cleanup)
    requires p.stores.systemd == sys + c.assign - c.unset
    ensures var after := Restored(p).stores.systemd;
            if n in sys then n in after && after[n] == sys[n]
            else if n in c.assign && n in NEVER_CLEANUP then n in after && after[n] == c.assign[n]
            else n !in after
  {
    RestoreMeaning(p, n);
    if n !in FilterEnv(sys) {
      assert n in sys ==> !KeepName(n) && n !in c.assign;
      assert n in p.stores.systemd <==> n in sys || n in c.assign;
      assert SurvivesRestore(p, n) <==> n in sys || (n in c.assign && n in NEVER_CLEANUP);
    }
  }

  lemma EndOfSessionEnv(p: World, sys: Env, c: EnvChanges)
    requires Accounted(FilterEnv(sys), c)
    requires p.files != NO_FILES && Snapshot(p.files) == FilterEnv(sys) && Listed(p.files) == FilterNames(c.cleanup)
    requires p.stores.systemd == sys + c.assign - c.unset
    ensures Restored(p).stores.systemd == (map n | n in c.assign && n in NEVER_CLEANUP :: c.assign[n]) + sys
  {
    var after := Restored(p).stores.systemd;
    var goal := (map n | n in c.assign && n in NEVER_CLEANUP :: c.assign[n]) + sys;
    forall n
      ensures n in after <==> n in goal
      ensures n in after ==> after[n] == goal[n]
    {
      EndOfSession(p, sys, c, n);
    }
  }

  /** With no state on disk a restore is the identity. */
  lemma NothingToRestore(w: World)
    requires w.files == NO_FILES
    ensures Restored(w) == w
  {
    MapUpdatesAbsorb(w.stores.systemd, {}, map[]);
    MapUpdatesAbsorb(w.stores.dbus, {}, map[]);
    assert w.stores.systemd + map[] == w.stores.systemd;
    assert w.stores.dbus + Blank({}) + map[] == w.stores.dbus;
  }

  /** With no state on disk, preparing and then ending is the identity on systemd's environment, except for
      newly exported protected names. */
  lemma SessionIsIdentity(w: World, id: string, c: EnvChanges)
    requires w.files == NO_FILES && id != "" && Accounted(FilterEnv(w.stores.systemd), c)
    ensures Restored(Prepared(w, id, c)).stores.systemd
            == (map n | n in c.assign && n in NEVER_CLEANUP :: c.assign[n]) + w.stores.systemd
  {
    PreparedMeaning(w, id, c);
    NothingToRestore(w);
    EndOfSessionEnv(Prepared(w, id, c), w.stores.systemd, c);
  }

  /** The delta `compute_changes` produces satisfies what the session lemmas need. */
  lemma ChangesAccounted(pre: Env, post: Env)
    requires FilterEnv(post) == post
    ensures Accounted(pre, Changes(pre, post))
  {
    ChangesAreAccountedFor(pre, post);
  }
}
