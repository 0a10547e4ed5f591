/** All histories of a unit directory: generations, removals and foreign edits in any order, with any outcome. */
module UnitRuns {
  import opened Wrappers
  import opened Fingerprints
  import opened Ownership
  import opened UnitPlan
  import opened UnitNames
  import opened UnitEffect
  import opened UnitApply
  import opened UnitRemoval
  import opened Marks

  /** `wrote` records every (path, fingerprint) pair wsmr has put into the directory. */
  datatype Store = Store(dir: Dir, ledger: Ledger, wrote: set<(string, Word)>)

  datatype Action = Foreign | Generate(inputs: Inputs) | Remove(marks: Option<seq<string>>)

  function WrotePairs(writes: seq<Write>): set<(string, Word)> {
    set w | w in writes :: (w.relname, Fingerprint(w.content))
  }

  ghost predicate GenerateStep(s: Store, inputs: Inputs, s': Store)
    requires inputs.Complete()
  {
    || s' == s
    || exists p :: PlanFor(s.dir, s.ledger, inputs) == Some(p) && p.conflicts == [] && AppliedStep(s, p, s')
  }

  /** Applied and saved, applied but not saved, or rolled back. */
  ghost predicate AppliedStep(s: Store, p: Plan, s': Store) {
    || (s'.dir == AppliedDir(s.dir, p) && s'.wrote == s.wrote + WrotePairs(p.writes)
        && (s'.ledger == s.ledger || s'.ledger == AppliedLedger(p)))
    || (RolledBack(s.dir, s'.dir, WriteNames(p.writes) + Names(p.removes))
        && s'.ledger == s.ledger && s'.wrote == s.wrote)
  }

  ghost predicate RemoveStep(s: Store, marks: Option<seq<string>>, s': Store) {
    || s' == s
    || exists p :: IsRemovalPlan(s.dir, s.ledger, marks, p) && RemovedStep(s, p, s')
  }

  ghost predicate RemovedStep(s: Store, p: RemovalPlan, s': Store) {
    s'.wrote == s.wrote
    && (|| (s'.dir == s.dir - Names(p.removes)
            && s'.ledger in {s.ledger, s.ledger - Names(p.removes) - Names(p.skipped)})
        || (RolledBack(s.dir, s'.dir, Names(p.removes)) && s'.ledger == s.ledger))
  }

  ghost predicate Step(s: Store, a: Action, s': Store) {
    match a
    case Foreign => s'.ledger == s.ledger && s'.wrote == s.wrote
    case Generate(inputs) => inputs.Complete() && GenerateStep(s, inputs, s')
    case Remove(marks) => RemoveStep(s, marks, s')
  }

  /** How a `start` went up to the generation of its units. */
  datatype StartOutcome = Busy | Unplanned | Conflicting | Dry | Failed | Unsaved | Generated | NotReloaded

  /** The plan is applied, and planning again finds nothing left to do. */
  ghost predicate Generation(before: Dir, after: Dir, ledger: Ledger, inputs: Inputs, p: Plan)
    requires inputs.Complete()
  {
    after == AppliedDir(before, p) && PlanFor(after, ledger, inputs) == Some(EmptyPlan(ledger))
  }

  /** What a `start` that is not busy returns, given its plan: a dry run stops before the apply, and a failing reload shows
      only after a change. */
  ghost predicate StartReturns(plan: Option<Plan>, dryRun: bool, reloads: bool, reliable: bool, r: StartOutcome) {
    match plan
    case None => r == Unplanned
    case Some(p) =>
      if p.conflicts != [] then r == Conflicting
      else if dryRun then r == Dry
      else
        && (reliable ==> r in {Generated, NotReloaded})
        && r in {Failed, Unsaved, Generated, NotReloaded}
        && (r == NotReloaded ==> (p.writes != [] || p.removes != []) && !reloads)
        && (r == Generated ==> (p.writes == [] && p.removes == []) || reloads)
  }

  /** The part of `start` that plans and applies the units: it refuses while a session is active or cannot tell, and
      reloads the manager after a change; `reloads` tells whether that would succeed. */
  method Start(u: UnitDir, inputs: Inputs, active: Option<bool>, dryRun: bool, reloads: bool,
               ghost wrote: set<(string, Word)>)
    returns (r: StartOutcome, ghost wrote': set<(string, Word)>)
    requires inputs.Complete()
    modifies u
    ensures Step(Store(old(u.files), old(u.manifest), wrote), Generate(inputs), Store(u.files, u.manifest, wrote'))
    ensures if active != Some(false) then r == Busy
            else StartReturns(PlanFor(old(u.files), old(u.manifest), inputs), dryRun, reloads, u.reliable, r)
    ensures r in {Busy, Unplanned, Conflicting, Dry, Failed} ==> u.files == old(u.files) && u.manifest == old(u.manifest)
    ensures var plan := PlanFor(old(u.files), old(u.manifest), inputs);
            match r
            case Unsaved => plan.Some? && u.files == AppliedDir(old(u.files), plan.value) && u.manifest == old(u.manifest)
            case Generated => plan.Some? && Generation(old(u.files), u.files, u.manifest, inputs, plan.value)
            case NotReloaded => plan.Some? && Generation(old(u.files), u.files, u.manifest, inputs, plan.value)
            case _ => true
  {
    wrote' := wrote;
    if active != Some(false) {
      return Busy, wrote;
    }
    var plan := PlanGenerate(u.files, u.manifest, inputs);
    if plan.None? {
      return Unplanned, wrote;
    }
    if plan.value.conflicts != [] {
      return Conflicting, wrote;
    }
    if dryRun {
      return Dry, wrote;
    }
    ghost var s := Store(u.files, u.manifest, wrote);
    var applied := u.ApplyGenerate(plan.value);
    PlanKeepsLedger(s.dir, s.ledger, inputs, plan.value);
    if applied == Err(StepFailed) {
      FailedStepIsUndone(s, inputs, plan.value, u.files);
      return Failed, wrote;
    }
    wrote' := wrote + WrotePairs(plan.value.writes);
    assert AppliedStep(s, plan.value, Store(u.files, u.manifest, wrote'));
    if applied == Err(SaveFailed) {
      return Unsaved, wrote';
    }
    SecondPlanIsEmpty(s.dir, s.ledger, inputs, plan.value);
    if plan.value.writes == [] && plan.value.removes == [] {
      assert AppliedLedger(plan.value) == s.ledger;
    }
    r := Generated;
    if applied.value.written != [] || applied.value.removed != [] {
      r := if reloads then Generated else NotReloaded;
    }
  }

  lemma {:induction false} PlanFromKeepsLedger(dir: Dir, reclaim: bool, dests: seq<Dest>, before: Plan)
    ensures var p := PlanFrom(dir, reclaim, dests, before); p.Some? ==> p.value.ledger == before.ledger
    decreases |dests|
  {
    if dests != [] && Readable(dir, dests[0].relname) {
      PlanFromKeepsLedger(dir, reclaim, dests[1..],
                          Add(before, dests[0].relname, Judge(dir, before.ledger, reclaim, dests[0])));
    }
  }

  lemma PlanKeepsLedger(dir: Dir, ledger: Ledger, inputs: Inputs, p: Plan)
    requires inputs.Complete() && PlanFor(dir, ledger, inputs) == Some(p)
    ensures p.ledger == ledger
  {
    PlanFromKeepsLedger(dir, inputs.reclaim, Dests(inputs), EmptyPlan(ledger));
  }

  /** How a `stop` went. */
  datatype StopOutcome =
    NotStopped | NothingAsked | NoPlan | DryRemoval | FailedRemoval | UnsavedRemoval | Removed | RemovedNotReloaded

  function MarksAsked(remove: Option<string>): Option<seq<string>> {
    if remove.Some? then ParseMarks(remove.value) else None
  }

  /** What a removal returns and removes: there is a plan exactly if every selected file is readable, everything selected
      that is not foreign goes, and a failing reload shows only after a removal. */
  ghost predicate RemovalReturns(dir: Dir, ledger: Ledger, marks: Option<seq<string>>, dir': Dir, reloads: bool,
                                 reliable: bool, r: StopOutcome)
  {
    var going := set n | n in Selected(ledger, marks) && GoneOrOwned(dir, ledger, n);
    && (r == NoPlan <==> exists n :: n in Selected(ledger, marks) && !Readable(dir, n))
    && (reliable ==> r in {NoPlan, Removed, RemovedNotReloaded})
    && (r in {UnsavedRemoval, Removed, RemovedNotReloaded} ==> dir' == dir - going)
    && (r == RemovedNotReloaded ==> going != {} && !reloads)
    && (r == Removed ==> going == {} || reloads)
  }

  /** `run_stop`: `stopped` tells whether stopping the compositor came off, and `remove` is the value of `-r`. */
  method Stop(u: UnitDir, stopped: bool, remove: Option<string>, dryRun: bool, reloads: bool,
              ghost wrote: set<(string, Word)>)
    returns (r: StopOutcome)
    modifies u
    ensures Step(Store(old(u.files), old(u.manifest), wrote), Remove(MarksAsked(remove)), Store(u.files, u.manifest, wrote))
    ensures (r.NotStopped? <==> !stopped) && (r.NothingAsked? <==> stopped && remove.None?)
    ensures r in {NotStopped, NothingAsked, NoPlan, DryRemoval, FailedRemoval} ==>
              u.files == old(u.files) && u.manifest == old(u.manifest)
    ensures r == UnsavedRemoval ==> u.manifest == old(u.manifest)
    ensures r in {Removed, RemovedNotReloaded} ==> Selected(u.manifest, MarksAsked(remove)) == {}
    ensures dryRun ==> r in {NotStopped, NothingAsked, NoPlan, DryRemoval}
    ensures stopped && remove.Some? && !dryRun ==>
              RemovalReturns(old(u.files), old(u.manifest), MarksAsked(remove), u.files, reloads, u.reliable, r)
  {
    if !stopped {
      return NotStopped;
    }
    if remove.None? {
      return NothingAsked;
    }
    r := RemoveDropins(u, ParseMarks(remove.value), dryRun, reloads, wrote);
  }

  /** The part of `run_stop` that plans and applies a removal. */
  method RemoveDropins(u: UnitDir, marks: Option<seq<string>>, dryRun: bool, reloads: bool,
                       ghost wrote: set<(string, Word)>)
    returns (r: StopOutcome)
    modifies u
    ensures Step(Store(old(u.files), old(u.manifest), wrote), Remove(marks), Store(u.files, u.manifest, wrote))
    ensures r != NotStopped && r != NothingAsked
    ensures r in {NoPlan, DryRemoval, FailedRemoval} ==> u.files == old(u.files) && u.manifest == old(u.manifest)
    ensures r == UnsavedRemoval ==> u.manifest == old(u.manifest)
    ensures r in {Removed, RemovedNotReloaded} ==> Selected(u.manifest, marks) == {}
    ensures dryRun ==> r in {NoPlan, DryRemoval}
    ensures !dryRun ==> RemovalReturns(old(u.files), old(u.manifest), marks, u.files, reloads, u.reliable, r)
  {
    var plan := PlanRemoveAll(u.files, u.manifest, marks);
    if plan.None? {
      return NoPlan;
    }
    if dryRun {
      return DryRemoval;
    }
    ghost var s := Store(u.files, u.manifest, wrote);
    var applied := u.ApplyRemoval(plan.value);
    assert RemovedStep(s, plan.value, Store(u.files, u.manifest, wrote)) by {
      if plan.value.removes == [] && plan.value.skipped == [] {
        assert s.dir - Names([]) == s.dir;
      }
    }
    if applied == Err(StepFailed) {
      FailedRemovalIsUndone(s, marks, plan.value, u.files);
      return FailedRemoval;
    }
    if applied == Err(SaveFailed) {
      return UnsavedRemoval;
    }
    forall n | n in Selected(s.ledger, marks)
      ensures n in Names(plan.value.removes) + Names(plan.value.skipped)
    {
    }
    assert plan.value.removes != [] ==> plan.value.removes[0] in Names(plan.value.removes);
    r := Removed;
    if applied.value.removed != [] {
      r := if reloads then Removed else RemovedNotReloaded;
    }
  }

  // ----- what holds over every run -----

  /** Every manifest entry is the fingerprint of something wsmr wrote at that path. */
  ghost predicate Honest(s: Store) {
    forall r | r in s.ledger :: (r, s.ledger[r]) in s.wrote
  }

  ghost predicate IsRun(trace: seq<Store>, actions: seq<Action>) {
    && |trace| == |actions| + 1
    && forall i | 0 <= i < |actions| :: Step(trace[i], actions[i], trace[i + 1])
  }

  lemma {:induction false} RecordedIsHonest(ledger: Ledger, writes: seq<Write>, r: string)
    requires r in Recorded(ledger, writes)
    ensures (r in ledger && Recorded(ledger, writes)[r] == ledger[r])
            || (r, Recorded(ledger, writes)[r]) in WrotePairs(writes)
    decreases |writes|
  {
    if writes != [] {
      var init, last := writes[..|writes| - 1], writes[|writes| - 1];
      assert last in writes && (last.relname, Fingerprint(last.content)) in WrotePairs(writes);
      if last.relname != r {
        RecordedIsHonest(ledger, init, r);
        assert forall w | w in init :: w in writes;
      }
    }
  }

  lemma StepKeepsHonest(s: Store, a: Action, s': Store)
    requires Honest(s) && Step(s, a, s')
    ensures Honest(s') && s.wrote <= s'.wrote
  {
    if a.Generate? && s' != s {
      var p :| PlanFor(s.dir, s.ledger, a.inputs) == Some(p) && p.conflicts == [] && AppliedStep(s, p, s');
      PlanKeepsLedger(s.dir, s.ledger, a.inputs, p);
      if s'.ledger != s.ledger {
        forall r | r in s'.ledger
          ensures (r, s'.ledger[r]) in s'.wrote
        {
          RecordedIsHonest(s.ledger, p.writes, r);
        }
      }
    }
  }

  ghost predicate ChangedAt(s: Store, s': Store, r: string) {
    !(r in s.dir <==> r in s'.dir) || (r in s.dir && s'.dir[r] != s.dir[r])
  }

  /** A file wsmr wrote there itself and that still carries the fingerprint on record. */
  ghost predicate OwnFile(s: Store, r: string) {
    r in s.dir && s.dir[r].Text?
    && Verifies(s.ledger, r, s.dir[r].content) && (r, Fingerprint(s.dir[r].content)) in s.wrote
  }

  lemma GenerateChangesOnlyTargets(s: Store, p: Plan, s': Store, r: string)
    requires AppliedStep(s, p, s') && ChangedAt(s, s', r)
    ensures r in WriteNames(p.writes) + Names(p.removes)
  {
    if r !in WriteNames(p.writes) + Names(p.removes) {
      assert forall w | w in p.writes :: w.relname in WriteNames(p.writes);
      WrittenElsewhere(s.dir, p.ledger, p.writes, r);
    }
  }

  /** One action of wsmr changes a path only if it was absent, its own, or a drop-in reclaimed on request. */
  lemma StepRespectsOwnership(s: Store, a: Action, s': Store, r: string)
    requires Honest(s) && Step(s, a, s') && !a.Foreign? && ChangedAt(s, s', r)
    ensures r !in s.dir || OwnFile(s, r)
            || (a.Generate? && a.inputs.reclaim && IsRemovableDropin(r) && r !in GRAPH_NAMES)
    ensures a.Remove? ==> IsRemovableDropin(r) && r !in GRAPH_NAMES && OwnFile(s, r) && MarkSelected(r, a.marks)
  {
    match a
    case Generate(inputs) =>
      var p :| PlanFor(s.dir, s.ledger, inputs) == Some(p) && p.conflicts == [] && AppliedStep(s, p, s');
      GenerateChangesOnlyTargets(s, p, s', r);
      PlanRespectsOwnership(s.dir, s.ledger, inputs, p, r);
    case Remove(marks) =>
      var p :| IsRemovalPlan(s.dir, s.ledger, marks, p) && RemovedStep(s, p, s');
      assert r in Names(p.removes);
      RemovalRespectsOwnership(s.dir, s.ledger, marks, p, r);
  }

  lemma {:induction false} RunKeepsHonest(trace: seq<Store>, actions: seq<Action>, i: nat)
    requires IsRun(trace, actions) && Honest(trace[0]) && i < |trace|
    ensures Honest(trace[i])
  {
    if i > 0 {
      RunKeepsHonest(trace, actions, i - 1);
      StepKeepsHonest(trace[i - 1], actions[i - 1], trace[i]);
    }
  }

  /** Ownership over all histories that start without a manifest. */
  lemma RunRespectsOwnership(trace: seq<Store>, actions: seq<Action>, i: nat, r: string)
    requires IsRun(trace, actions) && trace[0].ledger == map[]
    requires i < |actions| && !actions[i].Foreign? && ChangedAt(trace[i], trace[i + 1], r)
    ensures r !in trace[i].dir || OwnFile(trace[i], r)
            || (actions[i].Generate? && actions[i].inputs.reclaim && IsRemovableDropin(r) && r !in GRAPH_NAMES)
    ensures actions[i].Remove? ==> IsRemovableDropin(r) && r !in GRAPH_NAMES && OwnFile(trace[i], r)
  {
    RunKeepsHonest(trace, actions, i);
    StepRespectsOwnership(trace[i], actions[i], trace[i + 1], r);
  }

  /** A failed batch of a run is rolled back exactly: what was planned was readable. */
  lemma FailedStepIsUndone(s: Store, inputs: Inputs, p: Plan, dir: Dir)
    requires inputs.Complete() && PlanFor(s.dir, s.ledger, inputs) == Some(p)
    requires RolledBack(s.dir, dir, WriteNames(p.writes) + Names(p.removes))
    ensures dir == s.dir
  {
    forall r | r in WriteNames(p.writes) + Names(p.removes)
      ensures Readable(s.dir, r)
    {
      PlanRespectsOwnership(s.dir, s.ledger, inputs, p, r);
    }
    RollbackIsExact(s.dir, dir, WriteNames(p.writes) + Names(p.removes));
  }

  /** So is a failed removal. */
  lemma FailedRemovalIsUndone(s: Store, marks: Option<seq<string>>, p: RemovalPlan, dir: Dir)
    requires IsRemovalPlan(s.dir, s.ledger, marks, p) && RolledBack(s.dir, dir, Names(p.removes))
    ensures dir == s.dir
  {
    RollbackIsExact(s.dir, dir, Names(p.removes));
  }
}
