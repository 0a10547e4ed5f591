/** The lock-protected operations of `state.rs` on the files and the session bus. Every file read or write and every
    bus call may fail; the contracts say what each failure leaves behind. */
module SessionState {
  import opened Wrappers
  import opened VarNames
  import opened Bus
  import opened Generation

  /** A restore that ends has made its four updates and left no file but those whose removal failed; one that stops early
      has completed some of the updates and kept every file. */
  ghost predicate RestoreOutcome(w: World, w': World, kept: set<StateFile>, ok: bool) {
    if ok then w' == Restored(w).(files := Remaining(w.files, kept))
    else w'.files == w.files && exists k: Updates :: k < 4 && w'.stores == Progress(w, k)
  }

  /** A begin that ends has replaced all three files. A failed one either failed in the restore, or wrote nothing over
      what was left of the files, or the generation file, or also the snapshot. */
  ghost predicate BeginOutcome(w: World, pre: Env, id: string, w': World, kept: set<StateFile>, ok: bool) {
    var begun := Files(Some(id), Some(FilterEnv(pre)), Some({}));
    var left := Remaining(w.files, kept);
    if ok then w' == World(begun, Restored(w).stores)
    else
      || RestoreOutcome(w, w', kept, false)
      || (w'.stores == Restored(w).stores
          && w'.files in {left, left.(generation := Some(id)), begun.(cleanup := left.cleanup)})
  }

  ghost predicate AppendOutcome(f: Files, names: set<string>, f': Files, ok: bool) {
    if ok then CurrentGeneration(f).Some? && f' == Appended(f, names) else f' == f
  }

  /** The state files of a session and its bus; `reliable` tells that no read, write or removal fails. */
  class StateFiles {
    var generation: Option<string>
    var envPre: Option<Env>
    var cleanup: Option<set<CleanupEntry>>
    const bus: SessionBus
    const reliable: bool

    constructor (bus: SessionBus, reliable: bool)
      ensures Contents() == World(NO_FILES, bus.Contents())
      ensures this.bus == bus && this.reliable == reliable
    {
      generation, envPre, cleanup := None, None, None;
      this.bus, this.reliable := bus, reliable;
    }

    /** Whether one access to a file comes off. */
    method Attempt() returns (ok: bool)
      ensures reliable ==> ok
    {
      ok := *;
      ok := ok || reliable;
    }

    ghost function Disk(): Files
      reads this
    {
      Files(generation, envPre, cleanup)
    }

    ghost function Contents(): World
      reads this, bus
    {
      World(Disk(), bus.Contents())
    }

    /** `append_cleanup`: merge the kept names under the generation on record. */
    method AppendCleanup(names: set<string>) returns (ok: bool)
      modifies this`cleanup
      ensures AppendOutcome(old(Disk()), names, Disk(), ok)
      ensures reliable ==> (ok <==> CurrentGeneration(old(Disk())).Some?)
    {
      ok := Attempt();
      if !ok {
        return;
      }
      if generation.None? || generation.value == "" {
        return false;
      }
      var g := generation.value;
      ok := Attempt();
      if !ok {
        return;
      }
      var entries := if cleanup.Some? then cleanup.value else {};
      ghost var before := entries;
      var added := false;
      var rest := names;
      while rest != {}
        invariant rest <= names
        invariant entries == before + Tagged(g, names - rest)
        invariant added <==> entries != before
        decreases rest
      {
        var name :| name in rest;
        rest := rest - {name};
        assert names - rest == names - (rest + {name}) + {name};
        if KeepName(name) && CleanupEntry(g, name) !in entries {
          entries := entries + {CleanupEntry(g, name)};
          added := true;
        }
      }
      assert names - rest == names;
      if added {
        ok := Attempt();
        if ok {
          cleanup := Some(entries);
        }
      }
    }

    /** `restore_and_clear_locked`. */
    method RestoreAndClear() returns (ok: bool, ghost kept: set<StateFile>)
      modifies this, bus
      ensures RestoreOutcome(old(Contents()), Contents(), kept, ok)
      ensures reliable ==> kept == {}
      ensures reliable && bus.reliable ==> ok
    {
      ghost var w := Contents();
      kept := {};
      if generation.None? && cleanup.None? && envPre.None? {
        NothingToRestore(w);
        return true, {};
      }
      ok := Attempt();
      if !ok {
        assert bus.Contents() == Progress(w, 0);
        return;
      }
      var current := if generation == Some("") then None else generation;
      var entries := if cleanup.Some? then cleanup.value else {};
      var toUnset: set<string> := {};
      if current.Some? {
        toUnset := set e | e in entries && e.generation == current.value :: e.name;
      }
      assert toUnset == Listed(w.files);
      var pre := if envPre.Some? then FilterEnv(envPre.value) else map[];
      var vars := bus.SystemdVars();
      if vars.None? {
        assert bus.Contents() == Progress(w, 0);
        return false, {};
      }
      toUnset := toUnset + ALWAYS_CLEANUP;
      toUnset := set k | k in toUnset && k !in NEVER_CLEANUP && k in vars.value && k !in pre;
      assert toUnset == ToUnset(w);

      ok := UnsetThenSet(toUnset, pre, w);
      if ok {
        kept := RemoveFiles();
      }
    }

    /** A failed removal is ignored; `kept` names the files it leaves. */
    method RemoveFiles() returns (ghost kept: set<StateFile>)
      modifies this`cleanup, this`envPre, this`generation
      ensures Disk() == Remaining(old(Disk()), kept)
      ensures reliable ==> kept == {}
    {
      kept := {};
      var removed := Attempt();
      if removed {
        cleanup := None;
      } else {
        kept := kept + {ListFile};
      }
      removed := Attempt();
      if removed {
        envPre := None;
      } else {
        kept := kept + {SnapshotFile};
      }
      removed := Attempt();
      if removed {
        generation := None;
      } else {
        kept := kept + {GenerationFile};
      }
    }

    /** The bus half of a restore: empty updates are not sent at all. */
    method UnsetThenSet(names: set<string>, pre: Env, ghost w: World) returns (ok: bool)
      requires w == Contents() && names == ToUnset(w) && pre == Snapshot(w.files)
      modifies bus
      ensures if ok then bus.Contents() == Progress(w, 4)
              else exists k: Updates :: k < 4 && bus.Contents() == Progress(w, k)
      ensures bus.reliable ==> ok
    {
      if names != {} {
        var r := bus.UnsetSystemdVars(names);
        if r != Done {
          assert bus.Contents() == Progress(w, 0) || bus.Contents() == Progress(w, 1);
          return false;
        }
      } else {
        UnsetNothing(w.stores);
      }
      assert bus.Contents() == Progress(w, 2);
      if pre != map[] {
        var r := bus.SetSystemdVars(pre);
        if r != Done {
          assert bus.Contents() == Progress(w, 2) || bus.Contents() == Progress(w, 3);
          return false;
        }
      } else {
        SetNothing(bus.Contents());
      }
      assert bus.Contents() == Progress(w, 4);
      return true;
    }

    /** `begin_generation` with the freshly drawn `id`. */
    method BeginGeneration(pre: Env, id: string) returns (ok: bool, ghost kept: set<StateFile>)
      modifies this, bus
      ensures BeginOutcome(old(Contents()), pre, id, Contents(), kept, ok)
      ensures reliable && bus.reliable ==> ok
    {
      ok, kept := RestoreAndClear();
      if !ok {
        return;
      }
      ok := Attempt();
      if !ok {
        return;
      }
      generation := Some(id);
      ok := Attempt();
      if !ok {
        return;
      }
      envPre := Some(FilterEnv(pre));
      ok := Attempt();
      if !ok {
        return;
      }
      cleanup := Some({});
    }

    /** `end_generation`. */
    method EndGeneration() returns (ok: bool, ghost kept: set<StateFile>)
      modifies this, bus
      ensures RestoreOutcome(old(Contents()), Contents(), kept, ok)
      ensures reliable ==> kept == {}
      ensures reliable && bus.reliable ==> ok && Contents() == Restored(old(Contents()))
    {
      ok, kept := RestoreAndClear();
    }
  }

  lemma UnsetNothing(s: Stores)
    ensures AfterUnset(s, {}) == s
  {
    MapUpdatesAbsorb(s.systemd, {}, map[]);
    MapUpdatesAbsorb(s.dbus, {}, map[]);
  }

  lemma SetNothing(s: Stores)
    ensures AfterSet(s, map[]) == s
  {
    MapUpdatesAbsorb(s.systemd, {}, map[]);
    MapUpdatesAbsorb(s.dbus, {}, map[]);
  }
}
