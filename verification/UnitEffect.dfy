/** What a generation plan does to the directory and the manifest, destination by destination. */
module UnitEffect {
  import opened Wrappers
  import opened Fingerprints
  import opened Ownership
  import opened UnitPlan
  import opened UnitNames

  function Written(dir: Dir, writes: seq<Write>): Dir
    decreases |writes|
  {
    if writes == [] then dir
    else
      var last := writes[|writes| - 1];
      Written(dir, writes[..|writes| - 1])[last.relname := Text(last.content)]
  }

  function Recorded(ledger: Ledger, writes: seq<Write>): Ledger
    decreases |writes|
  {
    if writes == [] then ledger
    else
      var last := writes[|writes| - 1];
      Recorded(ledger, writes[..|writes| - 1])[last.relname := Fingerprint(last.content)]
  }

  function Names(names: seq<string>): set<string> {
    set n | n in names
  }

  function WriteNames(writes: seq<Write>): set<string> {
    set w | w in writes :: w.relname
  }

  /** The directory and the ledger after a plan was applied completely. */
  function AppliedDir(dir: Dir, p: Plan): Dir {
    Written(dir, p.writes) - Names(p.removes)
  }

  function AppliedLedger(p: Plan): Ledger {
    Recorded(p.ledger, p.writes) - Names(p.removes)
  }

  lemma {:induction false} WrittenElsewhere(dir: Dir, ledger: Ledger, writes: seq<Write>, r: string)
    requires forall w | w in writes :: w.relname != r
    ensures r in Written(dir, writes) <==> r in dir
    ensures r in dir ==> Written(dir, writes)[r] == dir[r]
    ensures r in Recorded(ledger, writes) <==> r in ledger
    ensures r in ledger ==> Recorded(ledger, writes)[r] == ledger[r]
    decreases |writes|
  {
    if writes != [] {
      var init := writes[..|writes| - 1];
      assert forall w | w in init :: w in writes;
      assert writes[|writes| - 1] in writes;
      WrittenElsewhere(dir, ledger, init, r);
    }
  }

  lemma {:induction false} WrittenHere(dir: Dir, ledger: Ledger, writes: seq<Write>, r: string, c: string)
    requires Write(r, c) in writes
    requires forall w | w in writes && w.relname == r :: w.content == c
    ensures r in Written(dir, writes) && Written(dir, writes)[r] == Text(c)
    ensures r in Recorded(ledger, writes) && Recorded(ledger, writes)[r] == Fingerprint(c)
    decreases |writes|
  {
    var init, last := writes[..|writes| - 1], writes[|writes| - 1];
    assert last in writes;
    if last.relname != r {
      assert forall w | w in writes :: w == last || w in init;
      assert forall w | w in init :: w in writes;
      WrittenHere(dir, ledger, init, r, c);
    }
  }

  // ----- what a plan says about one path -----

  predicate Writes(v: Verdict, c: string) {
    v == Overwrite(c) || v == Reclaim(c)
  }

  /** Everything `p` says about path `r`, given what it said before and the verdict on `r`. */
  ghost predicate Says(p: Plan, before: Plan, r: string, v: Verdict) {
    && (forall c :: Write(r, c) in p.writes <==> Write(r, c) in before.writes || Writes(v, c))
    && (r in p.removes <==> r in before.removes || v == Delete)
    && (r in p.conflicts <==> r in before.conflicts || v == Refuse)
    && (r in p.reclaimed <==> r in before.reclaimed || v.Reclaim?)
  }

  lemma AddSays(plan: Plan, d: string, v: Verdict, r: string)
    ensures Says(Add(plan, d, v), plan, r, if r == d then v else Leave)
  {
  }

  lemma {:induction false} PlanElsewhere(dir: Dir, reclaim: bool, dests: seq<Dest>, before: Plan, p: Plan, r: string)
    requires PlanFrom(dir, reclaim, dests, before) == Some(p)
    requires forall d | d in dests :: d.relname != r
    ensures Says(p, before, r, Leave) && p.ledger == before.ledger
    decreases |dests|
  {
    if dests != [] {
      assert dests[0] in dests;
      var v := Judge(dir, before.ledger, reclaim, dests[0]);
      AddSays(before, dests[0].relname, v, r);
      assert forall d | d in dests[1..] :: d in dests;
      PlanElsewhere(dir, reclaim, dests[1..], Add(before, dests[0].relname, v), p, r);
    }
  }

  lemma {:induction false} PlanHere(dir: Dir, reclaim: bool, dests: seq<Dest>, before: Plan, p: Plan, i: nat)
    requires PlanFrom(dir, reclaim, dests, before) == Some(p)
    requires Distinct(dests) && i < |dests|
    ensures Readable(dir, dests[i].relname) && p.ledger == before.ledger
    ensures Says(p, before, dests[i].relname, Judge(dir, before.ledger, reclaim, dests[i]))
    decreases |dests|
  {
    var d := dests[0];
    var v := Judge(dir, before.ledger, reclaim, d);
    var next := Add(before, d.relname, v);
    AddSays(before, d.relname, v, dests[i].relname);
    if i == 0 {
      PlanElsewhere(dir, reclaim, dests[1..], next, p, d.relname);
    } else {
      PlanHere(dir, reclaim, dests[1..], next, p, i - 1);
    }
  }

  lemma {:induction false} NothingToPlan(dir: Dir, reclaim: bool, dests: seq<Dest>, plan: Plan)
    requires forall d | d in dests :: Readable(dir, d.relname) && Judge(dir, plan.ledger, reclaim, d) == Leave
    ensures PlanFrom(dir, reclaim, dests, plan) == Some(plan)
    decreases |dests|
  {
    if dests != [] {
      assert dests[0] in dests;
      assert forall d | d in dests[1..] :: d in dests;
      NothingToPlan(dir, reclaim, dests[1..], plan);
    }
  }

  // ----- what a plan decides -----

  /** Something else than the wanted content is in the way at `r`, and the manifest does not vouch for it. */
  predicate ForeignAt(dir: Dir, ledger: Ledger, r: string, wanted: Option<string>)
    requires Readable(dir, r)
  {
    wanted.Some? && r in dir && dir[r].content != wanted.value && !Verifies(ledger, r, dir[r].content)
  }

  /** The decision on one readable path: what is missing or outdated is written, what is foreign is reclaimed or refused,
      and what is no longer wanted is removed if the manifest vouches for it. */
  ghost predicate Decided(dir: Dir, ledger: Ledger, p: Plan, r: string, wanted: Option<string>, reclaim: bool) {
    && Readable(dir, r)
    && (r in p.conflicts <==> ForeignAt(dir, ledger, r, wanted) && !reclaim)
    && (r in p.reclaimed <==> ForeignAt(dir, ledger, r, wanted) && reclaim)
    && (r in p.removes <==> wanted.None? && r in dir && Verifies(ledger, r, dir[r].content))
    && (forall c :: Write(r, c) in p.writes <==>
          && wanted == Some(c)
          && (r in dir ==> dir[r].content != c && (Verifies(ledger, r, dir[r].content) || reclaim)))
  }

  function WantedOf(d: Dest): Option<string> {
    if d.Graph? then Some(d.content) else d.wanted
  }

  lemma JudgedIsDecided(dir: Dir, ledger: Ledger, reclaim: bool, p: Plan, d: Dest)
    requires Readable(dir, d.relname) && Says(p, EmptyPlan(ledger), d.relname, Judge(dir, ledger, reclaim, d))
    ensures Decided(dir, ledger, p, d.relname, WantedOf(d), d.Dropin? && reclaim)
  {
  }

  lemma DestDecided(dir: Dir, ledger: Ledger, inputs: Inputs, p: Plan, i: nat, d: Dest)
    requires inputs.Complete() && PlanFor(dir, ledger, inputs) == Some(p) && i < |Dests(inputs)| && Dests(inputs)[i] == d
    ensures Decided(dir, ledger, p, d.relname, WantedOf(d), d.Dropin? && inputs.reclaim)
  {
    DestsDistinct(inputs);
    PlanHere(dir, inputs.reclaim, Dests(inputs), EmptyPlan(ledger), p, i);
    JudgedIsDecided(dir, ledger, inputs.reclaim, p, d);
  }

  predicate IsDestination(inputs: Inputs, r: string) {
    r in GRAPH_NAMES || r in TWEAK_NAMES || r == PreloaderPath(inputs.idUnit) || r == ServicePath(inputs.idUnit)
  }

  lemma DestinationsAreDests(inputs: Inputs, d: Dest)
    requires inputs.Complete() && d in Dests(inputs)
    ensures IsDestination(inputs, d.relname)
  {
    var i :| 0 <= i < |Dests(inputs)| && Dests(inputs)[i] == d;
    DestKinds(inputs, i);
  }

  /** A plan decides on every graph unit, which is always wanted and never reclaimed, on every tweak, and on the two drop-ins
      of the compositor, and says nothing about any other path. */
  lemma PlanDecides(dir: Dir, ledger: Ledger, inputs: Inputs, p: Plan)
    requires inputs.Complete() && PlanFor(dir, ledger, inputs) == Some(p)
    ensures forall i | 0 <= i < |GRAPH_NAMES| :: Decided(dir, ledger, p, GRAPH_NAMES[i], Some(inputs.graph[i]), false)
    ensures forall i | 0 <= i < |TWEAK_NAMES| ::
              Decided(dir, ledger, p, TWEAK_NAMES[i], if inputs.tweaksEnabled then Some(inputs.tweaks[i]) else None,
                      inputs.reclaim)
    ensures Decided(dir, ledger, p, PreloaderPath(inputs.idUnit), inputs.preloader, inputs.reclaim)
    ensures Decided(dir, ledger, p, ServicePath(inputs.idUnit), inputs.service, inputs.reclaim)
    ensures forall r | r in WriteNames(p.writes) + Names(p.removes) + Names(p.conflicts) + Names(p.reclaimed) ::
              IsDestination(inputs, r)
  {
    var g, t := |GRAPH_NAMES|, |TWEAK_NAMES|;
    forall i | 0 <= i < g
      ensures Decided(dir, ledger, p, GRAPH_NAMES[i], Some(inputs.graph[i]), false)
    {
      DestDecided(dir, ledger, inputs, p, i, Graph(GRAPH_NAMES[i], inputs.graph[i]));
    }
    forall i | 0 <= i < t
      ensures Decided(dir, ledger, p, TWEAK_NAMES[i], if inputs.tweaksEnabled then Some(inputs.tweaks[i]) else None,
                      inputs.reclaim)
    {
      DestDecided(dir, ledger, inputs, p, g + i, TweakDests(inputs)[i]);
    }
    DestDecided(dir, ledger, inputs, p, g + t, DropinDests(inputs)[0]);
    DestDecided(dir, ledger, inputs, p, g + t + 1, DropinDests(inputs)[1]);
    forall r | r in WriteNames(p.writes) + Names(p.removes) + Names(p.conflicts) + Names(p.reclaimed)
      ensures IsDestination(inputs, r)
    {
      MentionedIsDest(dir, ledger, inputs, p, r);
    }
  }

  /** With reclaiming on, as `start` plans, only a graph unit can stand in the way: one whose file is neither the rendered
      unit nor vouched for by the manifest. */
  lemma OnlyGraphUnitsConflict(dir: Dir, ledger: Ledger, inputs: Inputs, p: Plan)
    requires inputs.Complete() && inputs.reclaim && PlanFor(dir, ledger, inputs) == Some(p)
    ensures p.conflicts != [] <==>
            exists i :: 0 <= i < |GRAPH_NAMES| && Readable(dir, GRAPH_NAMES[i])
                        && ForeignAt(dir, ledger, GRAPH_NAMES[i], Some(inputs.graph[i]))
  {
    PlanDecides(dir, ledger, inputs, p);
    if p.conflicts != [] {
      var r := p.conflicts[0];
      assert r in p.conflicts && r in Names(p.conflicts);
      MentionedIsDest(dir, ledger, inputs, p, r);
      if j :| 0 <= j < |TWEAK_NAMES| && TWEAK_NAMES[j] == r {
        assert Decided(dir, ledger, p, TWEAK_NAMES[j], if inputs.tweaksEnabled then Some(inputs.tweaks[j]) else None, true);
      }
      var i :| 0 <= i < |GRAPH_NAMES| && GRAPH_NAMES[i] == r;
    }
  }

  lemma MentionedIsDest(dir: Dir, ledger: Ledger, inputs: Inputs, p: Plan, r: string)
    requires inputs.Complete() && PlanFor(dir, ledger, inputs) == Some(p)
    requires r in WriteNames(p.writes) + Names(p.removes) + Names(p.conflicts) + Names(p.reclaimed)
    ensures IsDestination(inputs, r)
  {
    if d :| d in Dests(inputs) && d.relname == r {
      DestinationsAreDests(inputs, d);
    } else {
      PlanElsewhere(dir, inputs.reclaim, Dests(inputs), EmptyPlan(ledger), p, r);
      NotWritten(p, r, Leave);
      assert false;
    }
  }

  lemma {:induction false} PlannedIffReadable(dir: Dir, reclaim: bool, dests: seq<Dest>, before: Plan)
    ensures PlanFrom(dir, reclaim, dests, before).Some? <==> forall d | d in dests :: Readable(dir, d.relname)
    decreases |dests|
  {
    if dests != [] {
      assert forall d :: d in dests <==> d == dests[0] || d in dests[1..];
      if Readable(dir, dests[0].relname) {
        var v := Judge(dir, before.ledger, reclaim, dests[0]);
        PlannedIffReadable(dir, reclaim, dests[1..], Add(before, dests[0].relname, v));
      } else {
        assert dests[0] in dests;
      }
    }
  }

  /** There is a plan exactly if no destination holds an unreadable file. */
  lemma PlanExistsIff(dir: Dir, ledger: Ledger, inputs: Inputs)
    requires inputs.Complete()
    ensures PlanFor(dir, ledger, inputs).Some? <==> forall r | IsDestination(inputs, r) :: Readable(dir, r)
  {
    var dests := Dests(inputs);
    var g, t := |GRAPH_NAMES|, |TWEAK_NAMES|;
    PlannedIffReadable(dir, inputs.reclaim, dests, EmptyPlan(ledger));
    forall r | IsDestination(inputs, r)
      ensures exists d :: d in dests && d.relname == r
    {
      if i :| 0 <= i < g && GRAPH_NAMES[i] == r {
        assert dests[i].relname == r;
      } else if i :| 0 <= i < t && TWEAK_NAMES[i] == r {
        assert dests[g + i].relname == r;
      } else {
        assert dests[g + t].relname == PreloaderPath(inputs.idUnit);
        assert dests[g + t + 1].relname == ServicePath(inputs.idUnit);
      }
    }
    forall d | d in dests
      ensures IsDestination(inputs, d.relname)
    {
      DestinationsAreDests(inputs, d);
    }
  }

  // ----- the effect -----

  ghost predicate SameAt(dir: Dir, ledger: Ledger, dir': Dir, ledger': Ledger, r: string) {
    && (r in dir' <==> r in dir) && (r in dir ==> dir'[r] == dir[r])
    && (r in ledger' <==> r in ledger) && (r in ledger ==> ledger'[r] == ledger[r])
  }

  lemma NotWritten(p: Plan, r: string, v: Verdict)
    requires Says(p, EmptyPlan(p.ledger), r, v) && !v.Overwrite? && !v.Reclaim?
    ensures r !in WriteNames(p.writes)
    ensures forall w | w in p.writes :: w.relname != r
  {
    forall w | w in p.writes
      ensures w.relname != r
    {
      assert w == Write(w.relname, w.content);
    }
  }

  lemma EffectOfVerdict(dir: Dir, p: Plan, ledger: Ledger, r: string, v: Verdict)
    requires p.ledger == ledger && Says(p, EmptyPlan(ledger), r, v)
    ensures var dir' := AppliedDir(dir, p);
            var ledger' := AppliedLedger(p);
            match v
            case Leave => SameAt(dir, ledger, dir', ledger', r)
            case Overwrite(c) => r in dir' && dir'[r] == Text(c) && Verifies(ledger', r, c)
            case Reclaim(c) => r in dir' && dir'[r] == Text(c) && Verifies(ledger', r, c)
            case Delete => r !in dir' && r !in ledger'
            case Refuse => SameAt(dir, ledger, dir', ledger', r)
  {
    match v
    case Overwrite(c) =>
      assert Writes(v, c);
      WrittenHere(dir, ledger, p.writes, r, c);
    case Reclaim(c) =>
      assert Writes(v, c);
      WrittenHere(dir, ledger, p.writes, r, c);
    case _ =>
      NotWritten(p, r, v);
      WrittenElsewhere(dir, ledger, p.writes, r);
  }

  /** A conflict-free plan gives every wanted destination its rendered content; an unwanted drop-in disappears
      exactly if it was owned, and is otherwise untouched. */
  lemma PlanEffect(dir: Dir, ledger: Ledger, inputs: Inputs, p: Plan, d: Dest)
    requires inputs.Complete() && PlanFor(dir, ledger, inputs) == Some(p) && p.conflicts == []
    requires d in Dests(inputs)
    ensures var dir' := AppliedDir(dir, p);
            match WantedOf(d)
            case Some(c) => d.relname in dir' && dir'[d.relname] == Text(c)
            case None =>
              if d.relname in dir && dir[d.relname].Text? && Verifies(ledger, d.relname, dir[d.relname].content)
              then d.relname !in dir'
              else SameAt(dir, ledger, dir', AppliedLedger(p), d.relname)
  {
    var dests := Dests(inputs);
    DestsDistinct(inputs);
    var i :| 0 <= i < |dests| && dests[i] == d;
    PlanHere(dir, inputs.reclaim, dests, EmptyPlan(ledger), p, i);
    EffectOfVerdict(dir, p, ledger, d.relname, Judge(dir, ledger, inputs.reclaim, d));
  }

  /** No other path is touched. */
  lemma PlanTouchesOnlyItsDestinations(dir: Dir, ledger: Ledger, inputs: Inputs, p: Plan, r: string)
    requires inputs.Complete() && PlanFor(dir, ledger, inputs) == Some(p)
    requires forall d | d in Dests(inputs) :: d.relname != r
    ensures SameAt(dir, ledger, AppliedDir(dir, p), AppliedLedger(p), r)
  {
    PlanElsewhere(dir, inputs.reclaim, Dests(inputs), EmptyPlan(ledger), p, r);
    EffectOfVerdict(dir, p, ledger, r, Leave);
  }

  /** Planning again with the same inputs finds nothing to write, remove, refuse or reclaim. */
  lemma SecondPlanIsEmpty(dir: Dir, ledger: Ledger, inputs: Inputs, p: Plan)
    requires inputs.Complete() && PlanFor(dir, ledger, inputs) == Some(p) && p.conflicts == []
    ensures PlanFor(AppliedDir(dir, p), AppliedLedger(p), inputs) == Some(EmptyPlan(AppliedLedger(p)))
  {
    var dests := Dests(inputs);
    var dir', ledger' := AppliedDir(dir, p), AppliedLedger(p);
    forall d | d in dests
      ensures Readable(dir', d.relname) && Judge(dir', ledger', inputs.reclaim, d) == Leave
    {
      PlanEffect(dir, ledger, inputs, p, d);
      DestsDistinct(inputs);
      var i :| 0 <= i < |dests| && dests[i] == d;
      PlanHere(dir, inputs.reclaim, dests, EmptyPlan(ledger), p, i);
    }
    NothingToPlan(dir', inputs.reclaim, dests, EmptyPlan(ledger'));
  }

  /** A plan says something about a path only where that path was absent, or verifiably owned, or is a drop-in
      reclaimed on request; graph units are never reclaimed, and nothing unreadable is touched. */
  lemma PlanRespectsOwnership(dir: Dir, ledger: Ledger, inputs: Inputs, p: Plan, r: string)
    requires inputs.Complete() && PlanFor(dir, ledger, inputs) == Some(p)
    requires r in WriteNames(p.writes) + Names(p.removes)
    ensures || r !in dir
            || (dir[r].Text? && Verifies(ledger, r, dir[r].content))
            || (dir[r].Text? && inputs.reclaim && r in p.reclaimed && IsRemovableDropin(r) && r !in GRAPH_NAMES)
    ensures r in p.removes ==> r in dir && dir[r].Text? && Verifies(ledger, r, dir[r].content)
    ensures r in p.removes ==> IsRemovableDropin(r)
  {
    var dests := Dests(inputs);
    if forall d | d in dests :: d.relname != r {
      PlanElsewhere(dir, inputs.reclaim, dests, EmptyPlan(ledger), p, r);
      NotWritten(p, r, Leave);
    } else {
      var d :| d in dests && d.relname == r;
      var i :| 0 <= i < |dests| && dests[i] == d;
      DestsDistinct(inputs);
      PlanHere(dir, inputs.reclaim, dests, EmptyPlan(ledger), p, i);
      var v := Judge(dir, ledger, inputs.reclaim, d);
      DropinIsNoGraphUnit(inputs, i);
      if !v.Overwrite? && !v.Reclaim? {
        NotWritten(p, r, v);
      }
    }
  }

  lemma DropinIsNoGraphUnit(inputs: Inputs, i: nat)
    requires inputs.Complete() && i < |Dests(inputs)|
    ensures var d := Dests(inputs)[i];
            d.Dropin? ==> IsRemovableDropin(d.relname) && d.relname !in GRAPH_NAMES
  {
    DestKinds(inputs, i);
    if Dests(inputs)[i].relname in GRAPH_NAMES {
      GraphIsNotRemovable(Dests(inputs)[i].relname);
    }
  }
}
