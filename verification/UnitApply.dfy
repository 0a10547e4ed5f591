/** Applying plans to the unit directory, with an undo log (`generate.rs`), and planning removals against it. */
module UnitApply {
  import opened Wrappers
  import opened Fingerprints
  import opened Ownership
  import opened UnitPlan
  import opened UnitEffect

  datatype ApplyError = Refused | StepFailed | SaveFailed

  datatype Outcome = Outcome(written: seq<string>, removed: seq<string>)

  datatype RemovalPlan = RemovalPlan(removes: seq<string>, skipped: seq<string>, ledger: Ledger)

  /** One applied step and what could be read at its path before; an unreadable file reads as nothing. */
  datatype Applied = Applied(relname: string, previous: Option<string>)

  function TextAt(files: Dir, r: string): Option<string> {
    if r in files && files[r].Text? then Some(files[r].content) else None
  }

  function PutBack(files: Dir, a: Applied): Dir {
    match a.previous
    case Some(content) => files[a.relname := Text(content)]
    case None => files - {a.relname}
  }

  /** Walking the log backwards. */
  function Undone(files: Dir, log: seq<Applied>): Dir
    decreases |log|
  {
    if log == [] then files else Undone(PutBack(files, log[|log| - 1]), log[..|log| - 1])
  }

  function Touched(log: seq<Applied>): set<string> {
    set a | a in log :: a.relname
  }

  /** The touched paths whose earlier file no log entry can bring back. */
  function Lost(files: Dir, touched: set<string>): set<string> {
    set r | r in touched && r in files && files[r].Unreadable?
  }

  /** The log describes a batch that led from `before` to `now`. */
  ghost predicate Logged(before: Dir, now: Dir, log: seq<Applied>) {
    && Undone(now, log) == before - Lost(before, Touched(log))
    && (forall r | r in Touched(log) :: Readable(now, r))
    && (forall r | r !in Touched(log) :: (r in now <==> r in before) && (r in now ==> now[r] == before[r]))
  }

  lemma {:induction false} UndoneWithout(files: Dir, log: seq<Applied>, r: string)
    requires r !in Touched(log)
    ensures Undone(files - {r}, log) == Undone(files, log) - {r}
    decreases |log|
  {
    if log != [] {
      var init, last := log[..|log| - 1], log[|log| - 1];
      assert last in log && forall a | a in init :: a in log;
      assert last.relname in Touched(log);
      assert PutBack(files - {r}, last) == PutBack(files, last) - {r};
      assert r !in Touched(init);
      UndoneWithout(PutBack(files, last), init, r);
    }
  }

  lemma TouchedMore(log: seq<Applied>, a: Applied)
    ensures Touched(log + [a]) == Touched(log) + {a.relname}
  {
    forall r
      ensures r in Touched(log + [a]) <==> r in Touched(log) + {a.relname}
    {
      if r in Touched(log) {
        var b :| b in log && b.relname == r;
        assert b in log + [a];
      }
      assert a in log + [a];
    }
  }

  function Stepped(files: Dir, r: string, file: Option<string>): Dir {
    if file.Some? then files[r := Text(file.value)] else files - {r}
  }

  lemma PutBackStep(files: Dir, r: string, file: Option<string>)
    ensures PutBack(Stepped(files, r, file), Applied(r, TextAt(files, r)))
            == if Readable(files, r) then files else files - {r}
  {
  }

  lemma LostStep(before: Dir, now: Dir, log: seq<Applied>, r: string)
    requires Logged(before, now, log)
    ensures Readable(now, r) ==> Lost(before, Touched(log) + {r}) == Lost(before, Touched(log))
    ensures !Readable(now, r) ==> r !in Touched(log) && Lost(before, Touched(log) + {r}) == Lost(before, Touched(log)) + {r}
  {
    assert Readable(now, r) && r in before && before[r].Unreadable? ==> r in Touched(log);
  }

  lemma UndoStep(before: Dir, now: Dir, log: seq<Applied>, r: string, file: Option<string>)
    requires Logged(before, now, log)
    ensures Undone(Stepped(now, r, file), log + [Applied(r, TextAt(now, r))]) == before - Lost(before, Touched(log) + {r})
  {
    var a := Applied(r, TextAt(now, r));
    assert (log + [a])[..|log|] == log;
    PutBackStep(now, r, file);
    LostStep(before, now, log, r);
    if !Readable(now, r) {
      UndoneWithout(now, log, r);
    }
  }

  /** One more write (`file` present) or removal keeps the log faithful. */
  lemma LogStep(before: Dir, now: Dir, log: seq<Applied>, r: string, file: Option<string>)
    requires Logged(before, now, log)
    ensures Logged(before, Stepped(now, r, file), log + [Applied(r, TextAt(now, r))])
  {
    UndoStep(before, now, log, r, file);
    TouchedMore(log, Applied(r, TextAt(now, r)));
  }

  /** What a batch that failed half-way leaves: the directory as before, except that an unreadable file it had
      already replaced or removed is gone. */
  ghost predicate RolledBack(before: Dir, now: Dir, targets: set<string>) {
    exists touched: set<string> :: touched <= targets && now == before - Lost(before, touched)
  }

  lemma UndoneIsRolledBack(before: Dir, now: Dir, log: seq<Applied>, targets: set<string>)
    requires Logged(before, now, log) && Touched(log) <= targets
    ensures RolledBack(before, Undone(now, log), targets)
  {
  }

  /** One more removal on the log, within the paths of the batch. */
  lemma LogRemoval(before: Dir, now: Dir, log: seq<Applied>, r: string, targets: set<string>)
    requires Logged(before, now, log) && Touched(log) <= targets && r in targets
    ensures var log' := log + [Applied(r, TextAt(now, r))];
            Logged(before, now - {r}, log') && Touched(log') <= targets
  {
    LogStep(before, now, log, r, None);
    TouchedMore(log, Applied(r, TextAt(now, r)));
  }

  /** One more write on the log, within the paths of the batch. */
  lemma LogWrite(before: Dir, now: Dir, log: seq<Applied>, w: Write, targets: set<string>)
    requires Logged(before, now, log) && Touched(log) <= targets && w.relname in targets
    ensures var log' := log + [Applied(w.relname, TextAt(now, w.relname))];
            Logged(before, now[w.relname := Text(w.content)], log') && Touched(log') <= targets
  {
    LogStep(before, now, log, w.relname, Some(w.content));
    TouchedMore(log, Applied(w.relname, TextAt(now, w.relname)));
  }

  lemma NamesSnoc(removes: seq<string>, i: nat)
    requires i < |removes|
    ensures Names(removes[..i + 1]) == Names(removes[..i]) + {removes[i]} && removes[i] in Names(removes)
    ensures removes[..i] + [removes[i]] == removes[..i + 1]
  {
  }

  /** The unit directory and its manifest; `reliable` tells that no write or removal fails. */
  class UnitDir {
    var files: Dir
    var manifest: Ledger
    const reliable: bool

    constructor (files: Dir, manifest: Ledger, reliable: bool)
      ensures this.files == files && this.manifest == manifest && this.reliable == reliable
    {
      this.files, this.manifest, this.reliable := files, manifest, reliable;
    }

    /** Whether one write or removal comes off. */
    method Attempt() returns (ok: bool)
      ensures reliable ==> ok
    {
      ok := *;
      ok := ok || reliable;
    }

    method AtomicWrite(relname: string, content: string) returns (ok: bool)
      modifies this`files
      ensures files == if ok then old(files)[relname := Text(content)] else old(files)
      ensures reliable ==> ok
    {
      ok := Attempt();
      if ok {
        files := files[relname := Text(content)];
      }
    }

    /** A missing file counts as removed. */
    method RemoveFile(relname: string) returns (ok: bool)
      modifies this`files
      ensures files == if ok then old(files) - {relname} else old(files)
      ensures reliable ==> ok
    {
      ok := Attempt();
      if ok {
        files := files - {relname};
      }
    }

    method SaveManifest(entries: Ledger) returns (ok: bool)
      modifies this`manifest
      ensures manifest == if ok then entries else old(manifest)
      ensures reliable ==> ok
    {
      ok := Attempt();
      if ok {
        manifest := entries;
      }
    }

    method Rollback(log: seq<Applied>)
      modifies this`files
      ensures files == Undone(old(files), log)
    {
      var i := |log|;
      assert log[..i] == log;
      while i > 0
        invariant 0 <= i <= |log|
        invariant Undone(files, log[..i]) == Undone(old(files), log)
      {
        assert log[..i][..i - 1] == log[..i - 1];
        i := i - 1;
        match log[i].previous {
          case Some(content) => files := files[log[i].relname := Text(content)];
          case None => files := files - {log[i].relname};
        }
      }
    }

    /** The write loop; `ok` is false after the rollback of a failed step. */
    method WriteAll(writes: seq<Write>, entries: Manifest) returns (ok: bool, log: seq<Applied>, names: seq<string>)
      modifies this`files, entries
      ensures ok ==> files == Written(old(files), writes) && Logged(old(files), files, log)
      ensures ok ==> entries.entries == Recorded(old(entries.entries), writes) && Touched(log) <= WriteNames(writes)
      ensures ok ==> names == seq(|writes|, i requires 0 <= i < |writes| => writes[i].relname)
      ensures !ok ==> RolledBack(old(files), files, WriteNames(writes))
      ensures reliable ==> ok
    {
      ok, log, names := true, [], [];
      for i := 0 to |writes|
        invariant files == Written(old(files), writes[..i])
        invariant entries.entries == Recorded(old(entries.entries), writes[..i])
        invariant Logged(old(files), files, log) && Touched(log) <= WriteNames(writes)
        invariant |names| == i && forall j | 0 <= j < i :: names[j] == writes[j].relname
      {
        var w := writes[i];
        var previous := TextAt(files, w.relname);
        ghost var now := files;
        var done := AtomicWrite(w.relname, w.content);
        if !done {
          UndoneIsRolledBack(old(files), files, log, WriteNames(writes));
          Rollback(log);
          return false, log, names;
        }
        LogWrite(old(files), now, log, w, WriteNames(writes));
        log := log + [Applied(w.relname, previous)];
        entries.Record(w.relname, w.content);
        names := names + [w.relname];
        assert writes[..i + 1][..i] == writes[..i];
      }
      assert writes[..|writes|] == writes;
    }

    /** The remove loop, continuing the log of the writes. */
    method RemoveAll(removes: seq<string>, entries: Manifest, log0: seq<Applied>, ghost before: Dir)
      returns (ok: bool, names: seq<string>)
      requires Logged(before, files, log0)
      modifies this`files, entries
      ensures ok ==> files == old(files) - Names(removes)
      ensures ok ==> entries.entries == old(entries.entries) - Names(removes) && names == removes
      ensures !ok ==> RolledBack(before, files, Touched(log0) + Names(removes))
      ensures reliable ==> ok
    {
      var log := log0;
      ghost var targets := Touched(log0) + Names(removes);
      ok, names := true, [];
      for i := 0 to |removes|
        invariant files == old(files) - Names(removes[..i])
        invariant entries.entries == old(entries.entries) - Names(removes[..i])
        invariant Logged(before, files, log) && Touched(log) <= targets
        invariant names == removes[..i]
      {
        var r := removes[i];
        var previous := TextAt(files, r);
        ghost var now := files;
        var done := RemoveFile(r);
        if !done {
          UndoneIsRolledBack(before, files, log, targets);
          Rollback(log);
          return false, names;
        }
        NamesSnoc(removes, i);
        LogRemoval(before, now, log, r, targets);
        log := log + [Applied(r, previous)];
        entries.Forget(r);
        names := names + [r];
      }
      assert removes[..|removes|] == removes;
    }

    /** `apply_generate` */
    method ApplyGenerate(plan: Plan) returns (r: Result<Outcome, ApplyError>)
      modifies this
      ensures plan.conflicts != [] <==> r == Err(Refused)
      ensures reliable && plan.conflicts == [] ==> r.Ok?
      ensures match r
              case Ok(out) =>
                && files == AppliedDir(old(files), plan)
                && manifest == (if plan.writes == [] && plan.removes == [] then old(manifest) else AppliedLedger(plan))
                && out.removed == plan.removes
                && out.written == seq(|plan.writes|, i requires 0 <= i < |plan.writes| => plan.writes[i].relname)
              case Err(Refused) => files == old(files) && manifest == old(manifest)
              case Err(StepFailed) =>
                && RolledBack(old(files), files, WriteNames(plan.writes) + Names(plan.removes))
                && manifest == old(manifest)
              case Err(SaveFailed) =>
                && files == AppliedDir(old(files), plan) && manifest == old(manifest)
                && !(plan.writes == [] && plan.removes == [])
    {
      if plan.conflicts != [] {
        return Err(Refused);
      }
      var entries := new Manifest(plan.ledger);
      var ok, log, written := WriteAll(plan.writes, entries);
      if !ok {
        WidenRollback(old(files), files, WriteNames(plan.writes), Names(plan.removes));
        return Err(StepFailed);
      }
      var done, removed := RemoveAll(plan.removes, entries, log, old(files));
      if !done {
        assert RolledBack(old(files), files, WriteNames(plan.writes) + Names(plan.removes)) by {
          var touched: set<string> :|
            touched <= Touched(log) + Names(plan.removes) && files == old(files) - Lost(old(files), touched);
          assert touched <= WriteNames(plan.writes) + Names(plan.removes);
        }
        return Err(StepFailed);
      }
      if written != [] || removed != [] {
        var saved := SaveManifest(entries.entries);
        if !saved {
          return Err(SaveFailed);
        }
      }
      return Ok(Outcome(written, removed));
    }

    /** `apply_removal`: skipped entries stay on disk and are only forgotten. */
    method ApplyRemoval(plan: RemovalPlan) returns (r: Result<Outcome, ApplyError>)
      modifies this
      ensures reliable ==> r.Ok?
      ensures match r
              case Ok(out) =>
                && files == old(files) - Names(plan.removes)
                && manifest == (if plan.removes == [] && plan.skipped == [] then old(manifest)
                                else plan.ledger - Names(plan.removes) - Names(plan.skipped))
                && out == Outcome([], plan.removes)
              case Err(Refused) => false
              case Err(StepFailed) => RolledBack(old(files), files, Names(plan.removes)) && manifest == old(manifest)
              case Err(SaveFailed) => files == old(files) - Names(plan.removes) && manifest == old(manifest)
    {
      var entries := new Manifest(plan.ledger);
      assert Logged(old(files), files, []);
      var done, removed := RemoveAll(plan.removes, entries, [], old(files));
      if !done {
        assert Touched([]) + Names(plan.removes) == Names(plan.removes);
        return Err(StepFailed);
      }
      for i := 0 to |plan.skipped|
        invariant files == old(files) - Names(plan.removes) && manifest == old(manifest)
        invariant entries.entries == plan.ledger - Names(plan.removes) - Names(plan.skipped[..i])
        invariant fresh(entries)
      {
        entries.Forget(plan.skipped[i]);
        assert Names(plan.skipped[..i + 1]) == Names(plan.skipped[..i]) + {plan.skipped[i]};
      }
      assert plan.skipped[..|plan.skipped|] == plan.skipped;
      if removed != [] || plan.skipped != [] {
        var saved := SaveManifest(entries.entries);
        if !saved {
          return Err(SaveFailed);
        }
      }
      return Ok(Outcome([], removed));
    }
  }

  lemma WidenRollback(before: Dir, now: Dir, targets: set<string>, more: set<string>)
    requires RolledBack(before, now, targets)
    ensures RolledBack(before, now, targets + more)
  {
    var touched: set<string> :| touched <= targets && now == before - Lost(before, touched);
    assert touched <= targets + more;
  }

  /** A rollback is exact whenever no target is an unreadable file. */
  lemma RollbackIsExact(before: Dir, now: Dir, targets: set<string>)
    requires RolledBack(before, now, targets)
    requires forall r | r in targets :: Readable(before, r)
    ensures now == before
  {
    var touched: set<string> :| touched <= targets && now == before - Lost(before, touched);
    assert Lost(before, touched) == {};
  }

  /** The undo of any applied batch restores the directory exactly if and only if none of the paths it touched was
      an unreadable file. */
  lemma UndoIsExactIff(before: Dir, now: Dir, log: seq<Applied>)
    requires Logged(before, now, log)
    ensures Undone(now, log) == before <==> forall r | r in Touched(log) :: Readable(before, r)
  {
    var lost := Lost(before, Touched(log));
    if r :| r in lost {
      assert r in before && r !in before - lost;
    } else {
      assert lost == {};
    }
  }

  /** A batch that had written over an unreadable file before a later step failed: the file is gone afterwards. */
  lemma UnreadableFileIsLost(r: string, content: string)
    ensures var before: Dir := map[r := Unreadable];
            var now, log := before[r := Text(content)], [Applied(r, TextAt(before, r))];
            Logged(before, now, log) && Undone(now, log) == map[] && Undone(now, log) != before
  {
    var before: Dir := map[r := Unreadable];
    LogStep(before, before, [], r, Some(content));
    assert [] + [Applied(r, None)] == [Applied(r, None)];
    UndoIsExactIff(before, before[r := Text(content)], [Applied(r, None)]);
    assert Applied(r, None) in [Applied(r, None)];
    assert [Applied(r, None)][..0] == [];
  }
}
