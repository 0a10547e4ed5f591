/** Planning the removal of owned drop-ins (`plan_remove_all`) with the `-r` mark filter. */
module UnitRemoval {
  import opened Wrappers
  import opened Strings
  import opened Ownership
  import opened UnitPlan
  import opened UnitNames
  import opened UnitEffect
  import opened UnitApply

  function IdBetween(relname: string, prefix: string): Option<string> {
    match StripPrefix(relname, prefix)
    case None => None
    case Some(rest) => StripSuffix(rest, DROPIN_SUFFIX)
  }

  /** The mark of a tracked path: the escaped compositor id in its name, or `tweaks`. */
  function MarkOf(relname: string): Option<string> {
    if IsTweak(relname) then Some("tweaks")
    else
      match IdBetween(relname, ENV_PREFIX)
      case Some(id) => Some(id)
      case None => IdBetween(relname, WM_PREFIX)
  }

  predicate MarkSelected(relname: string, marks: Option<seq<string>>) {
    marks.Some? ==> MarkOf(relname).Some? && MarkOf(relname).value in marks.value
  }

  function Selected(ledger: Ledger, marks: Option<seq<string>>): set<string> {
    set n | n in ledger && IsRemovableDropin(n) && MarkSelected(n, marks)
  }

  predicate GoneOrOwned(dir: Dir, ledger: Ledger, n: string) {
    n in dir ==> dir[n].Text? && Verifies(ledger, n, dir[n].content)
  }

  ghost predicate IsRemovalPlan(dir: Dir, ledger: Ledger, marks: Option<seq<string>>, p: RemovalPlan) {
    && p.ledger == ledger
    && (forall n | n in Selected(ledger, marks) :: Readable(dir, n))
    && Names(p.removes) == (set n | n in Selected(ledger, marks) && GoneOrOwned(dir, ledger, n))
    && Names(p.skipped) == (set n | n in Selected(ledger, marks) && !GoneOrOwned(dir, ledger, n))
    && |p.removes| + |p.skipped| == |Selected(ledger, marks)|
  }

  /** `plan_remove_all` */
  method PlanRemoveAll(dir: Dir, ledger: Ledger, marks: Option<seq<string>>) returns (r: Option<RemovalPlan>)
    ensures r.None? <==> exists n :: n in Selected(ledger, marks) && !Readable(dir, n)
    ensures r.Some? ==> IsRemovalPlan(dir, ledger, marks, r.value)
  {
    var ok, removes, skipped := SortOwned(dir, ledger, Selected(ledger, marks));
    if !ok {
      return None;
    }
    EveryNameJudged(dir, ledger, marks, removes, skipped);
    return Some(RemovalPlan(removes, skipped, ledger));
  }

  ghost predicate SortedInto(dir: Dir, ledger: Ledger, seen: set<string>, removes: seq<string>, skipped: seq<string>) {
    && Names(removes) + Names(skipped) == seen
    && |removes| + |skipped| == |seen|
    && (forall n | n in seen :: Readable(dir, n))
    && (forall n | n in removes :: GoneOrOwned(dir, ledger, n))
    && (forall n | n in skipped :: !GoneOrOwned(dir, ledger, n))
  }

  lemma SortOne(dir: Dir, ledger: Ledger, seen: set<string>, removes: seq<string>, skipped: seq<string>, n: string)
    requires SortedInto(dir, ledger, seen, removes, skipped) && n !in seen && Readable(dir, n)
    ensures if GoneOrOwned(dir, ledger, n) then SortedInto(dir, ledger, seen + {n}, removes + [n], skipped)
            else SortedInto(dir, ledger, seen + {n}, removes, skipped + [n])
  {
    NamesMore(removes, n);
    NamesMore(skipped, n);
  }

  method SortOwned(dir: Dir, ledger: Ledger, owned: set<string>)
    returns (ok: bool, removes: seq<string>, skipped: seq<string>)
    ensures !ok ==> exists n :: n in owned && !Readable(dir, n)
    ensures ok ==> SortedInto(dir, ledger, owned, removes, skipped)
  {
    ok, removes, skipped := true, [], [];
    var rest := owned;
    ghost var seen: set<string> := {};
    while rest != {}
      invariant rest <= owned && seen == owned - rest
      invariant SortedInto(dir, ledger, seen, removes, skipped)
      decreases rest
    {
      var n :| n in rest;
      SeenGainsOne(owned, rest, n);
      rest := rest - {n};
      if Readable(dir, n) {
        SortOne(dir, ledger, seen, removes, skipped, n);
      }
      seen := seen + {n};
      if n !in dir {
        removes := removes + [n];
        continue;
      }
      match dir[n]
      case Unreadable => return false, removes, skipped;
      case Text(existing) =>
        if Verifies(ledger, n, existing) {
          removes := removes + [n];
        } else {
          skipped := skipped + [n];
        }
    }
  }

  lemma SeenGainsOne(owned: set<string>, rest: set<string>, n: string)
    requires n in rest && rest <= owned
    ensures owned - (rest - {n}) == owned - rest + {n} && n !in owned - rest
  {
  }

  lemma NamesMore(names: seq<string>, n: string)
    ensures Names(names + [n]) == Names(names) + {n}
  {
  }

  lemma EveryNameJudged(dir: Dir, ledger: Ledger, marks: Option<seq<string>>, removes: seq<string>, skipped: seq<string>)
    requires SortedInto(dir, ledger, Selected(ledger, marks), removes, skipped)
    ensures IsRemovalPlan(dir, ledger, marks, RemovalPlan(removes, skipped, ledger))
  {
    forall n | n in Selected(ledger, marks)
      ensures n in Names(removes) <==> GoneOrOwned(dir, ledger, n)
      ensures n in Names(skipped) <==> !GoneOrOwned(dir, ledger, n)
    {
      assert n in Names(removes) + Names(skipped);
    }
  }

  /** Removal touches drop-ins only, and only what wsmr verifiably owns. */
  lemma RemovalRespectsOwnership(dir: Dir, ledger: Ledger, marks: Option<seq<string>>, p: RemovalPlan, r: string)
    requires IsRemovalPlan(dir, ledger, marks, p) && r in p.removes
    ensures IsRemovableDropin(r) && r !in GRAPH_NAMES && MarkSelected(r, marks)
    ensures r in dir ==> dir[r].Text? && Verifies(ledger, r, dir[r].content)
  {
    assert r in Names(p.removes);
    if r in GRAPH_NAMES {
      GraphIsNotRemovable(r);
    }
  }

  /** After a successful removal a second one with the same marks has nothing left to remove or to skip. */
  lemma SecondRemovalIsEmpty(dir: Dir, ledger: Ledger, marks: Option<seq<string>>, p: RemovalPlan, dir': Dir, p': RemovalPlan)
    requires IsRemovalPlan(dir, ledger, marks, p)
    requires IsRemovalPlan(dir', ledger - Names(p.removes) - Names(p.skipped), marks, p')
    ensures p'.removes == [] && p'.skipped == []
  {
    var ledger' := ledger - Names(p.removes) - Names(p.skipped);
    forall n
      ensures n !in Selected(ledger', marks)
    {
      if n in Selected(ledger, marks) {
        assert n in Names(p.removes) + Names(p.skipped);
      }
    }
    assert Selected(ledger', marks) == {};
  }

  /** Exactly the removable paths have a mark. */
  lemma MarkedIffRemovable(relname: string)
    ensures MarkOf(relname).Some? <==> IsRemovableDropin(relname)
  {
    if !IsTweak(relname) {
      BetweenIff(relname, ENV_PREFIX);
      BetweenIff(relname, WM_PREFIX);
    }
  }

  lemma BetweenIff(relname: string, prefix: string)
    requires prefix == ENV_PREFIX || prefix == WM_PREFIX
    ensures IdBetween(relname, prefix).Some? <==> HasPrefix(relname, prefix) && HasSuffix(relname, DROPIN_SUFFIX)
  {
    var n, m, k := |relname|, |DROPIN_SUFFIX|, |prefix|;
    if HasPrefix(relname, prefix) && HasSuffix(relname, DROPIN_SUFFIX) {
      NoOverlap(relname, prefix);
      assert relname[k..][n - k - m..] == relname[n - m..];
    }
    if IdBetween(relname, prefix).Some? {
      assert relname[k..][n - k - m..] == relname[n - m..];
    }
  }

  /** The suffix starts with a dot and no prefix has one. */
  lemma NoOverlap(relname: string, prefix: string)
    requires prefix == ENV_PREFIX || prefix == WM_PREFIX
    requires HasPrefix(relname, prefix) && HasSuffix(relname, DROPIN_SUFFIX)
    ensures |relname| - |DROPIN_SUFFIX| >= |prefix|
  {
    assert relname[|relname| - |DROPIN_SUFFIX|] == DROPIN_SUFFIX[0] == '.';
    assert forall i | 0 <= i < |prefix| :: relname[i] == prefix[i] && prefix[i] != '.';
  }

  /** The mark of a drop-in is the unit string in its path. */
  lemma MarkOfDropins(idUnit: string)
    ensures MarkOf(PreloaderPath(idUnit)) == Some(idUnit)
    ensures MarkOf(ServicePath(idUnit)) == Some(idUnit)
  {
    DropinsAreNoTweaks(idUnit);
    var p, q := PreloaderPath(idUnit), ServicePath(idUnit);
    assert p[|ENV_PREFIX|..] == idUnit + DROPIN_SUFFIX;
    assert q[|WM_PREFIX|..] == idUnit + DROPIN_SUFFIX;
    assert q[10] == WM_PREFIX[10] == '@' && ENV_PREFIX[10] == '-';
    assert !HasPrefix(q, ENV_PREFIX);
  }

  lemma DropinsAreNoTweaks(idUnit: string)
    ensures !IsTweak(PreloaderPath(idUnit)) && !IsTweak(ServicePath(idUnit))
  {
    DropinPathShape(ENV_PREFIX, idUnit);
    DropinPathShape(WM_PREFIX, idUnit);
    DropinSuffixShape(PreloaderPath(idUnit));
    DropinSuffixShape(ServicePath(idUnit));
    forall j | 0 <= j < |TWEAK_NAMES|
      ensures TWEAK_NAMES[j] != PreloaderPath(idUnit) && TWEAK_NAMES[j] != ServicePath(idUnit)
    {
      TweakNamesEndings(j);
    }
  }
}
