/** Starting a session over abandoned state. `prepare_env` takes its snapshot before the abandoned state is resolved,
    so the session may end in an environment other than the one the resolution had produced. */
module Abandoned {
  import opened Wrappers
  import opened VarNames
  import opened EnvDelta
  import opened Bus
  import opened Generation

  ghost predicate AgreeOn(a: Env, b: Env, n: string) {
    (n in a <==> n in b) && (n in a ==> a[n] == b[n])
  }

  /** Ending the session gives back what resolving the abandoned state had produced, up to protected names. */
  ghost predicate SessionReturns(w: World, id: string, c: EnvChanges)
    requires id != ""
  {
    forall n | n !in NEVER_CLEANUP ::
      AgreeOn(Restored(Prepared(w, id, c)).stores.systemd, Restored(w).stores.systemd, n)
  }

  /** The early snapshot is still right about `n` after the resolution, or the resolution brought `n` back and
      neither the delta nor the fixed cleanup list will take it away again. */
  ghost predicate SnapshotStillRight(w: World, c: EnvChanges, n: string) {
    var pre := FilterEnv(w.stores.systemd);
    var resolved := Restored(w).stores.systemd;
    if n in pre then AgreeOn(pre, resolved, n)
    else KeepName(n) && n in resolved ==> n !in c.assign && n !in ALWAYS_CLEANUP
  }

  lemma EndOverResolved(p: World, pre: Env, resolved: Env, c: EnvChanges, n: string)
    requires Accounted(pre, c) && n !in NEVER_CLEANUP
    requires p.files != NO_FILES && Snapshot(p.files) == pre && Listed(p.files) == FilterNames(c.cleanup)
    requires p.stores.systemd == resolved + c.assign - c.unset
    ensures AgreeOn(Restored(p).stores.systemd, resolved, n) <==>
            if n in pre then AgreeOn(pre, resolved, n)
            else KeepName(n) && n in resolved ==> n !in c.assign && n !in ALWAYS_CLEANUP
  {
    RestoreMeaning(p, n);
    if n !in pre {
      assert n in p.stores.systemd <==> n in resolved || n in c.assign;
      assert n in Listed(p.files) <==> n in c.assign;
    }
  }

  /** Exactly when a session over abandoned state is undone completely. */
  lemma SessionReturnsIff(w: World, id: string, c: EnvChanges)
    requires id != "" && Accounted(FilterEnv(w.stores.systemd), c)
    ensures SessionReturns(w, id, c) <==> forall n | n !in NEVER_CLEANUP :: SnapshotStillRight(w, c, n)
  {
    PreparedMeaning(w, id, c);
    forall n | n !in NEVER_CLEANUP
      ensures AgreeOn(Restored(Prepared(w, id, c)).stores.systemd, Restored(w).stores.systemd, n)
              <==> SnapshotStillRight(w, c, n)
    {
      EndOverResolved(Prepared(w, id, c), FilterEnv(w.stores.systemd), Restored(w).stores.systemd, c, n);
    }
  }

  /** Nothing about a visible, unprotected name stands in the way of a new session: a live one has the value of the old
      snapshot, or is outside it and neither listed nor fixed for cleanup; one that only the old snapshot has can be
      neither exported nor cleaned up. */
  predicate SafeName(w: World, n: string) {
    var live, snapshot := w.stores.systemd, Snapshot(w.files);
    if n in live then
      if n in snapshot then live[n] == snapshot[n] else n !in Listed(w.files) && n !in ALWAYS_CLEANUP
    else n in snapshot ==> n in NEVER_EXPORT + ALWAYS_UNSET && n !in ALWAYS_CLEANUP
  }

  /** What a caller can check on the files and the environment before preparing, whatever the loader will return. */
  ghost predicate SafeToPrepare(w: World) {
    w.files == NO_FILES || forall n | KeepName(n) && n !in NEVER_CLEANUP :: SafeName(w, n)
  }

  /** Resolving changes no visible name of the snapshot and brings back only names that can be neither exported nor
      cleaned up. */
  ghost predicate ResolvesSafely(w: World) {
    forall n | n !in NEVER_CLEANUP :: ResolvesName(w, n)
  }

  ghost predicate ResolvesName(w: World, n: string) {
    var pre := FilterEnv(w.stores.systemd);
    var resolved := Restored(w).stores.systemd;
    if n in pre then AgreeOn(pre, resolved, n)
    else KeepName(n) && n in resolved ==> n in NEVER_EXPORT + ALWAYS_UNSET && n !in ALWAYS_CLEANUP
  }

  lemma SafeNameResolves(w: World, n: string)
    requires w.files != NO_FILES && n !in NEVER_CLEANUP
    ensures ResolvesName(w, n) <==> (KeepName(n) ==> SafeName(w, n))
  {
    RestoreMeaning(w, n);
    assert n in FilterEnv(w.stores.systemd) <==> n in w.stores.systemd && KeepName(n);
    assert n in Snapshot(w.files) ==> KeepName(n);
  }

  lemma SafeIffResolvesSafely(w: World)
    ensures SafeToPrepare(w) <==> ResolvesSafely(w)
  {
    if w.files == NO_FILES {
      NothingToRestore(w);
    } else {
      forall n | n !in NEVER_CLEANUP
        ensures ResolvesName(w, n) <==> (KeepName(n) ==> SafeName(w, n))
      {
        SafeNameResolves(w, n);
      }
    }
  }

  lemma SafeForOneLoader(w: World, post: Env)
    requires ResolvesSafely(w)
    ensures forall n | n !in NEVER_CLEANUP :: SnapshotStillRight(w, Changes(FilterEnv(w.stores.systemd), post), n)
  {
    var c := Changes(FilterEnv(w.stores.systemd), post);
    forall n | n !in NEVER_CLEANUP
      ensures SnapshotStillRight(w, c, n)
    {
      assert ResolvesName(w, n);
      assert n in c.assign ==> n !in NEVER_EXPORT + ALWAYS_UNSET;
    }
  }

  /** The session is undone for every environment the loader may return if and only if that check passes. */
  lemma SafeToPrepareIff(w: World, id: string)
    requires id != ""
    ensures SafeToPrepare(w) <==>
            forall post: Env | FilterEnv(post) == post :: SessionReturns(w, id, Changes(FilterEnv(w.stores.systemd), post))
  {
    var pre := FilterEnv(w.stores.systemd);
    SafeIffResolvesSafely(w);
    if SafeToPrepare(w) {
      forall post: Env | FilterEnv(post) == post
        ensures SessionReturns(w, id, Changes(pre, post))
      {
        ChangesAccounted(pre, post);
        SafeForOneLoader(w, post);
        SessionReturnsIff(w, id, Changes(pre, post));
      }
    } else {
      var n :| n !in NEVER_CLEANUP && !ResolvesName(w, n);
      var post: Env := if KeepName(n) then map[n := "x"] else map[];
      assert FilterEnv(post) == post;
      ChangesAccounted(pre, post);
      SessionReturnsIff(w, id, Changes(pre, post));
      if n !in pre && n !in NEVER_EXPORT + ALWAYS_UNSET {
        assert n in post && n in Changes(pre, post).assign;
      }
      assert !SnapshotStillRight(w, Changes(pre, post), n);
    }
  }

  /** An abandoned session that leaked FOO: resolving removes it, yet the next session ends with it live again. */
  lemma LeakedNameComesBack(id: string)
    requires id != ""
    ensures var w := World(Files(Some("old"), Some(map[]), Some({CleanupEntry("old", "FOO")})),
                           Stores(map["FOO" := "1"], map[], true));
            var c := Changes(FilterEnv(w.stores.systemd), map["FOO" := "1"]);
            && "FOO" !in Restored(w).stores.systemd
            && "FOO" in Restored(Prepared(w, id, c)).stores.systemd
  {
    var w := World(Files(Some("old"), Some(map[]), Some({CleanupEntry("old", "FOO")})),
                   Stores(map["FOO" := "1"], map[], true));
    var c := Changes(FilterEnv(w.stores.systemd), map["FOO" := "1"]);
    FooIsOrdinary();
    NamesOfMember(Entries(w.files), "old", "FOO");
    RestoreMeaning(w, "FOO");
    PreparedMeaning(w, id, c);
    RestoreMeaning(Prepared(w, id, c), "FOO");
  }

  /** Files that a completed restore could not remove, or did not live to remove, are harmless while the snapshot is among
      them, and otherwise exactly if no name of the snapshot is listed by what is left or fixed for cleanup. */
  lemma LeftoverIsHarmlessIff(w: World, kept: set<StateFile>)
    requires w.files != NO_FILES
    ensures var left := Remaining(w.files, kept);
            Restored(World(left, Progress(w, 4))).stores.systemd == Restored(w).stores.systemd
            <==> || left == NO_FILES || left.envPre == w.files.envPre
                 || forall n | n in Snapshot(w.files) :: n in Listed(left) + ALWAYS_CLEANUP ==> n in NEVER_CLEANUP
  {
    var left := Remaining(w.files, kept);
    var w1 := World(left, Progress(w, 4));
    if left == NO_FILES {
      NothingToRestore(w1);
    } else {
      forall n
        ensures n in ToUnset(w1) <==>
                  n in Snapshot(w.files) && n !in Snapshot(left) && n in Listed(left) + ALWAYS_CLEANUP && n !in NEVER_CLEANUP
      {
        LeftoverUnsets(w, kept, n);
      }
      LeftoverRestores(w, kept);
      if n :| n in ToUnset(w1) {
        RestoreMeaning(w, n);
      } else {
        assert ToUnset(w1) == {};
      }
    }
  }

  lemma LeftoverUnsets(w: World, kept: set<StateFile>, n: string)
    requires w.files != NO_FILES && Remaining(w.files, kept) != NO_FILES
    ensures var left := Remaining(w.files, kept);
            n in ToUnset(World(left, Progress(w, 4))) <==>
              n in Snapshot(w.files) && n !in Snapshot(left) && n in Listed(left) + ALWAYS_CLEANUP && n !in NEVER_CLEANUP
  {
    var left := Remaining(w.files, kept);
    RestoreMeaning(w, n);
    assert n in Listed(left) ==> n in Listed(w.files);
    assert n in Snapshot(w.files) ==> KeepName(n);
    assert n in FilterEnv(w.stores.systemd) <==> n in w.stores.systemd && KeepName(n);
  }

  /** Setting the snapshot again adds nothing to what the restore has set already. */
  lemma LeftoverRestores(w: World, kept: set<StateFile>)
    requires w.files != NO_FILES && Remaining(w.files, kept) != NO_FILES
    ensures var w1 := World(Remaining(w.files, kept), Progress(w, 4));
            Restored(w1).stores.systemd == Restored(w).stores.systemd - ToUnset(w1)
  {
    var left := Remaining(w.files, kept);
    var w1 := World(left, Progress(w, 4));
    var s, pre := Restored(w).stores.systemd, Snapshot(left);
    assert s == w.stores.systemd - ToUnset(w) + Snapshot(w.files);
    assert pre == Snapshot(w.files) || pre == map[];
    SetAgain(w.stores.systemd - ToUnset(w), Snapshot(w.files), pre, ToUnset(w1));
  }

  lemma SetAgain(m: Env, snapshot: Env, pre: Env, names: set<string>)
    requires pre == snapshot || pre == map[]
    requires forall n | n in names :: n !in pre
    ensures m + snapshot - names + pre == m + snapshot - names
  {
  }

  /** Dying between the removal of the list and of the snapshot, in particular, is harmless. */
  lemma CrashAfterListRemoved(w: World)
    requires w.files.envPre.Some?
    ensures Restored(World(w.files.(cleanup := None), Progress(w, 4))).stores.systemd == Restored(w).stores.systemd
  {
    var kept := {GenerationFile, SnapshotFile};
    assert Remaining(w.files, kept) == w.files.(cleanup := None);
    LeftoverIsHarmlessIff(w, kept);
  }

  /** Recording and exporting are not one critical section. What a late export has set survives the next restore, whatever
      that finds on disk, if and only if nothing is on disk, or the snapshot has that value, or the name is outside the
      snapshot and protected, invisible, or neither listed nor fixed for cleanup. */
  lemma LateExportSurvivesIff(files: Files, stores: Stores, vars: Env, n: string)
    requires n in vars
    ensures var after := Restored(World(files, AfterSet(stores, vars))).stores.systemd;
            n in after && after[n] == vars[n]
            <==> || files == NO_FILES
                 || (if n in Snapshot(files) then Snapshot(files)[n] == vars[n]
                     else n in NEVER_CLEANUP || !KeepName(n) || (n !in Listed(files) && n !in ALWAYS_CLEANUP))
  {
    var late := World(files, AfterSet(stores, vars));
    if files == NO_FILES {
      NothingToRestore(late);
    } else {
      RestoreMeaning(late, n);
    }
  }

  /** So an export that comes after the end of its session stays until a new generation begins: nothing on disk knows of
      it any more. */
  lemma LateExportStays(w: World, vars: Env, n: string)
    requires n in vars
    ensures var late := World(NO_FILES, AfterSet(Restored(w).stores, vars));
            Restored(late) == late && n in late.stores.systemd && late.stores.systemd[n] == vars[n]
  {
    NothingToRestore(World(NO_FILES, AfterSet(Restored(w).stores, vars)));
  }

  /** Dying while only the generation file exists is not: the next restore has nothing to put back, and it leaves
      the environment alone if and only if no name of the fixed cleanup list is live. */
  lemma CrashWindowIff(id: string, s: Stores)
    ensures var w := World(Files(Some(id), None, None), s);
            Restored(w).stores.systemd == s.systemd
            <==> forall n | n in FilterEnv(s.systemd) :: n in ALWAYS_CLEANUP ==> n in NEVER_CLEANUP
  {
    var w := World(Files(Some(id), None, None), s);
    OrphanUnsets(id, s);
    if n :| n in ToUnset(w) {
      assert n in s.systemd && n !in Restored(w).stores.systemd;
    } else {
      assert ToUnset(w) == {};
    }
  }

  lemma OrphanUnsets(id: string, s: Stores)
    ensures var w := World(Files(Some(id), None, None), s);
            && Restored(w).stores.systemd == s.systemd - ToUnset(w)
            && forall n :: n in ToUnset(w) <==> n in FilterEnv(s.systemd) && n in ALWAYS_CLEANUP && n !in NEVER_CLEANUP
  {
    var w := World(Files(Some(id), None, None), s);
    assert Listed(w.files) == {};
    assert Snapshot(w.files) == map[];
    MapUpdatesAbsorb(s.systemd - ToUnset(w), {}, map[]);
  }

  lemma FooIsOrdinary()
    ensures KeepName("FOO") && "FOO" !in NEVER_CLEANUP
  {
    assert "FOO"[0] == 'F';
    assert forall s | s in NEVER_CLEANUP + DROP_SH_VARS :: s[0] != 'F';
  }
}
