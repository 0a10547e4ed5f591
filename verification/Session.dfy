/** The processes of one session: `prepare-env`, `finalize` and the readiness watcher as step sequences over the
    state files and the bus. */
module Session {
  import opened Wrappers
  import opened VarNames
  import opened EnvDelta
  import opened Bus
  import opened Generation
  import opened SessionState
  import opened Abandoned

  /** Recording always comes before exporting: whatever was exported, at least in part, is on the list. */
  ghost predicate RecordThenExport(w: World, names: set<string>, vars: Env, w': World, ok: bool) {
    if ok then
      CurrentGeneration(w.files).Some? && w' == World(Appended(w.files, names), AfterSet(w.stores, vars))
    else
      || w' == w
      || (CurrentGeneration(w.files).Some? && w'.files == Appended(w.files, names)
          && exists r :: SetOutcome(w.stores, vars, w'.stores, r))
  }

  /** No access to a file and no bus call fails. */
  predicate Dependable(f: StateFiles) {
    f.reliable && f.bus.reliable
  }

  method RecordAndExport(f: StateFiles, names: set<string>, vars: Env) returns (ok: bool)
    modifies f, f.bus
    ensures RecordThenExport(old(f.Contents()), names, vars, f.Contents(), ok)
    ensures Dependable(f) && CurrentGeneration(old(f.Disk())).Some? ==> ok
  {
    ok := f.AppendCleanup(names);
    if ok {
      var r := f.bus.SetSystemdVars(vars);
      ok := r == Done;
    }
  }

  /** What `finalize` exports from its own environment. */
  function Exported(env: Env, extra: seq<string>): Env {
    map n | n in env && (n in {"WAYLAND_DISPLAY", "DISPLAY"} || n in extra) && KeepName(n) :: env[n]
  }

  /** The displays and every extra name that is visible and present end up in systemd with the value of the process and on
      the cleanup list; every other variable stays as it was. */
  lemma FinalizeMeaning(w: World, env: Env, extra: seq<string>, w': World, n: string)
    requires RecordThenExport(w, Exported(env, extra).Keys, Exported(env, extra), w', true)
    ensures n in env && KeepName(n) && (n == "WAYLAND_DISPLAY" || n == "DISPLAY" || n in extra) ==>
              n in w'.stores.systemd && w'.stores.systemd[n] == env[n] && n in Listed(w'.files)
    ensures !(n in env && KeepName(n) && (n == "WAYLAND_DISPLAY" || n == "DISPLAY" || n in extra)) ==>
              && (n in w'.stores.systemd <==> n in w.stores.systemd)
              && (n in w.stores.systemd ==> w'.stores.systemd[n] == w.stores.systemd[n])
              && (n in Listed(w'.files) <==> n in Listed(w.files))
    ensures n in {"WAYLAND_DISPLAY", "DISPLAY"} ==> KeepName(n)
  {
    AppendedMeaning(w.files, Exported(env, extra).Keys);
    DisplaysAreVisible();
  }

  lemma DisplaysAreVisible()
    ensures KeepName("WAYLAND_DISPLAY") && KeepName("DISPLAY")
  {
    var wayland, display := "WAYLAND_DISPLAY", "DISPLAY";
    assert wayland[0] == 'W' && display[0] == 'D';
    assert "_"[0] == '_' && "SHELL"[0] == 'S' && "PWD"[0] == 'P' && "OLDWD"[0] == 'O';
    assert |wayland| == 15 && |display| == 7;
    assert forall i | 0 <= i < 15 :: IsWordChar(wayland[i]);
    assert forall i | 0 <= i < 7 :: IsWordChar(display[i]);
  }

  method Finalize(f: StateFiles, env: Env, extra: seq<string>) returns (ok: bool)
    modifies f, f.bus
    ensures RecordThenExport(old(f.Contents()), Exported(env, extra).Keys, Exported(env, extra), f.Contents(), ok)
    ensures ok ==> "WAYLAND_DISPLAY" in env && env["WAYLAND_DISPLAY"] != ""
    ensures ("WAYLAND_DISPLAY" !in env || env["WAYLAND_DISPLAY"] == "") ==> f.Contents() == old(f.Contents())
    ensures Dependable(f) && CurrentGeneration(old(f.Disk())).Some? ==>
              (ok <==> "WAYLAND_DISPLAY" in env && env["WAYLAND_DISPLAY"] != "")
  {
    if "WAYLAND_DISPLAY" !in env || env["WAYLAND_DISPLAY"] == "" {
      return false;
    }
    var names := ["WAYLAND_DISPLAY", "DISPLAY"] + extra;
    var exports: Env := map[];
    for i := 0 to |names|
      invariant exports == map n | n in env && n in names[..i] && KeepName(n) :: env[n]
    {
      if KeepName(names[i]) && names[i] in env {
        exports := exports[names[i] := env[names[i]]];
      }
    }
    assert names[..|names|] == names;
    assert exports == Exported(env, extra);
    ok := RecordAndExport(f, exports.Keys, exports);
  }

  function NewOrChanged(before: Env, now: Env): Env {
    map k | k in now && (k !in before || before[k] != now[k]) :: now[k]
  }

  /** A visible variable that systemd has and `before` had not, or had with another value. */
  predicate IsNews(before: Env, systemd: Env, n: string) {
    KeepName(n) && n in systemd && (n in before ==> before[n] != systemd[n])
  }

  /** Exactly the news is added to the cleanup list and passed on to D-Bus; systemd has it already. */
  lemma WatchMeaning(w: World, before: Env, w': World, n: string)
    requires var delta := NewOrChanged(before, FilterEnv(w.stores.systemd));
             RecordThenExport(w, delta.Keys, delta, w', true)
    ensures n in Listed(w'.files) <==> n in Listed(w.files) || IsNews(before, w.stores.systemd, n)
    ensures w'.stores.systemd == w.stores.systemd
    ensures if IsNews(before, w.stores.systemd, n)
            then n in w'.stores.DbusView() && w'.stores.DbusView()[n] == w.stores.systemd[n]
            else (n in w'.stores.dbus <==> n in w.stores.dbus)
                 && (n in w.stores.dbus ==> w'.stores.dbus[n] == w.stores.dbus[n])
  {
    AppendedMeaning(w.files, NewOrChanged(before, FilterEnv(w.stores.systemd)).Keys);
    assert n in FilterEnv(w.stores.systemd) <==> n in w.stores.systemd && KeepName(n);
  }

  /** The delta steps of the readiness watcher, given the snapshot it took before waiting. */
  method ReadinessWatch(f: StateFiles, before: Env) returns (ok: bool)
    modifies f, f.bus
    ensures var now := FilterEnv(old(f.bus.systemd));
            var delta := NewOrChanged(before, now);
            if delta == map[] then f.Contents() == old(f.Contents())
            else RecordThenExport(old(f.Contents()), delta.Keys, delta, f.Contents(), ok)
    ensures Dependable(f) && CurrentGeneration(old(f.Disk())).Some? ==> ok
    ensures f.bus.systemd == old(f.bus.systemd)
  {
    var vars := f.bus.SystemdVars();
    if vars.None? {
      return false;
    }
    var now := vars.value;
    var delta: Env := map[];
    var rest := now.Keys;
    while rest != {}
      invariant rest <= now.Keys
      invariant delta == map k | k in now && k !in rest && (k !in before || before[k] != now[k]) :: now[k]
      decreases rest
    {
      var k :| k in rest;
      rest := rest - {k};
      if k !in before || before[k] != now[k] {
        delta := delta[k := now[k]];
      }
    }
    assert delta == NewOrChanged(before, now);
    if delta == map[] {
      return true;
    }
    assert f.bus.systemd + delta == f.bus.systemd;
    ok := RecordAndExport(f, delta.Keys, delta);
  }

  /** Where a `prepare-env` that did not finish may have stopped. */
  ghost predicate PrepareStopped(w: World, id: string, c: EnvChanges, w': World)
    requires id != ""
  {
    var pre := FilterEnv(w.stores.systemd);
    var begun := Files(Some(id), Some(pre), Some({}));
    var start := Restored(w).stores;
    || w' == w
    || (exists kept :: BeginOutcome(w, pre, id, w', kept, false))
    || w' == World(begun, start)
    || StoppedExporting(w, id, c, w')
  }

  ghost predicate StoppedExporting(w: World, id: string, c: EnvChanges, w': World)
    requires id != ""
  {
    var begun := Files(Some(id), Some(FilterEnv(w.stores.systemd)), Some({}));
    var start := Restored(w).stores;
    w'.files == Appended(begun, c.cleanup) && PartlyApplied(start, c, w'.stores)
  }

  ghost predicate PartlyApplied(s: Stores, c: EnvChanges, s': Stores) {
    (exists r :: SetOutcome(s, c.assign, s', r)) || exists r :: UnsetOutcome(AfterSet(s, c.assign), c.unset, s', r)
  }

  /** The login environment over systemd's: a login value wins, every other name is as in systemd. */
  ghost predicate LoginOver(pre: Env, login: Env, merged: Env) {
    && (forall n | n in login :: n in merged && merged[n] == login[n])
    && (forall n | n !in login :: (n in merged <==> n in pre) && (n in merged ==> merged[n] == pre[n]))
  }

  /** What becomes of a `prepare-env` whose loader returns `loaded`, if anything. */
  ghost predicate PrepareOutcome(w: World, id: string, loaded: Option<Env>, w': World, ok: bool)
    requires id != ""
  {
    var c := Changes(FilterEnv(w.stores.systemd), if loaded.Some? then loaded.value else map[]);
    if ok then loaded.Some? && w' == Prepared(w, id, c) else PrepareStopped(w, id, c, w')
  }

  /** `prepare_env`: `login` is the login environment completed by the session deduction, if that succeeded, and `loader`
      is what the shell loader makes of the environment it is given, if it succeeds. */
  method PrepareEnv(f: StateFiles, id: string, login: Option<Env>, loader: Env -> Option<Env>) returns (ok: bool)
    requires id != ""
    requires forall e: Env :: loader(e).Some? ==> FilterEnv(loader(e).value) == loader(e).value
    modifies f, f.bus
    ensures login.None? ==> !ok && f.Contents() == old(f.Contents())
    ensures login.Some? ==>
              exists e ::
                && LoginOver(FilterEnv(old(f.bus.systemd)), login.value, e)
                && PrepareOutcome(old(f.Contents()), id, loader(e), f.Contents(), ok)
                && (Dependable(f) && loader(e).Some? ==> ok)
  {
    if login.None? {
      return false;
    }
    ghost var w := f.Contents();
    assert LoginOver(FilterEnv(f.bus.systemd), login.value, FilterEnv(f.bus.systemd) + login.value);
    var pre := f.bus.SystemdVars();
    if pre.None? {
      return false;
    }
    ghost var begun := Files(Some(id), Some(pre.value), Some({}));
    assert FilterEnv(pre.value) == pre.value;
    ghost var kept;
    ok, kept := f.BeginGeneration(pre.value, id);
    if !ok {
      return;
    }
    var merged := pre.value + login.value;
    var loaded := loader(merged);
    if loaded.None? {
      return false;
    }
    var changes := ComputeChanges(pre.value, loaded.value);
    ok := f.AppendCleanup(changes.cleanup);
    if !ok {
      return;
    }
    ok := ApplyChanges(f.bus, changes);
  }

  /** The bus half of `prepare_env`: empty updates are not sent at all. */
  method ApplyChanges(bus: SessionBus, c: EnvChanges) returns (ok: bool)
    modifies bus
    ensures if ok then bus.Contents() == AfterUnset(AfterSet(old(bus.Contents()), c.assign), c.unset)
            else PartlyApplied(old(bus.Contents()), c, bus.Contents())
    ensures bus.reliable ==> ok
  {
    ghost var start := bus.Contents();
    if c.assign != map[] {
      var r := bus.SetSystemdVars(c.assign);
      if r != Done {
        return false;
      }
    } else {
      SetNothing(start);
    }
    assert bus.Contents() == AfterSet(start, c.assign);
    if c.unset != {} {
      var r := bus.UnsetSystemdVars(c.unset);
      if r != Done {
        return false;
      }
    } else {
      UnsetNothing(AfterSet(start, c.assign));
    }
    return true;
  }

  lemma StoppedExport(start: Stores, c: EnvChanges, s: Stores)
    requires PartlyApplied(start, c, s)
    ensures s.systemd == start.systemd || s.systemd == start.systemd + c.assign
            || s.systemd == start.systemd + c.assign - c.unset
  {
  }

  /** A session whose `prepare-env` stopped anywhere after beginning is still undone by its end. */
  lemma StoppedPrepareIsUndone(w: World, id: string, c: EnvChanges, w': World, n: string)
    requires id != "" && w.files == NO_FILES && Accounted(FilterEnv(w.stores.systemd), c)
    requires PrepareStopped(w, id, c, w')
    requires w'.files.generation.Some? ==> w'.files.envPre.Some?
    requires n !in NEVER_CLEANUP
    ensures AgreeOn(Restored(w').stores.systemd, w.stores.systemd, n)
  {
    var pre := FilterEnv(w.stores.systemd);
    var begun := Files(Some(id), Some(pre), Some({}));
    assert FilterEnv(pre) == pre;
    if StoppedExporting(w, id, c, w') {
      assert Restored(w).stores == w.stores by { NothingToRestore(w); }
      StoppedExport(w.stores, c, w'.stores);
      AppendedMeaning(begun, c.cleanup);
      assert Listed(begun) == {};
      StoppedSession(w', w.stores.systemd, c, n);
    } else {
      StoppedEarly(w, id, c, w');
      if w'.files == NO_FILES {
        NothingToRestore(w');
      } else {
        StoppedBeforeExport(w', w.stores.systemd, n);
      }
    }
  }

  /** Before the export nothing in the environment has moved, and any state on disk holds the snapshot. */
  lemma StoppedEarly(w: World, id: string, c: EnvChanges, w': World)
    requires id != "" && w.files == NO_FILES
    requires PrepareStopped(w, id, c, w') && !StoppedExporting(w, id, c, w')
    requires w'.files.generation.Some? ==> w'.files.envPre.Some?
    ensures w'.stores.systemd == w.stores.systemd
    ensures w'.files != NO_FILES ==> Snapshot(w'.files) == FilterEnv(w.stores.systemd)
  {
    var pre := FilterEnv(w.stores.systemd);
    NothingToRestore(w);
    assert FilterEnv(pre) == pre;
  }

  lemma StoppedBeforeExport(p: World, sys: Env, n: string)
    requires p.files != NO_FILES && Snapshot(p.files) == FilterEnv(sys) && p.stores.systemd == sys
    ensures AgreeOn(Restored(p).stores.systemd, sys, n)
  {
    RestoreMeaning(p, n);
  }

  lemma StoppedSession(p: World, sys: Env, c: EnvChanges, n: string)
    requires Accounted(FilterEnv(sys), c) && n !in NEVER_CLEANUP
    requires p.files != NO_FILES && Snapshot(p.files) == FilterEnv(sys) && Listed(p.files) == FilterNames(c.cleanup)
    requires p.stores.systemd == sys || p.stores.systemd == sys + c.assign
             || p.stores.systemd == sys + c.assign - c.unset
    ensures AgreeOn(Restored(p).stores.systemd, sys, n)
  {
    RestoreMeaning(p, n);
    if n !in FilterEnv(sys) {
      assert n in sys ==> !KeepName(n) && n !in c.assign;
      assert n in p.stores.systemd ==> n in sys || n in c.assign;
      assert n in sys ==> n in p.stores.systemd;
    }
  }
}
