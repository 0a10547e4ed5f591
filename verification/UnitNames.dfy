/** The destinations of one generation never collide, and graph units are told apart from drop-ins by their names. */
module UnitNames {
  import opened Wrappers
  import opened Strings
  import opened Escape
  import opened UnitPlan

  /** The character `k` places from the end. */
  predicate EndsAs(s: string, k: nat, c: char) {
    0 < k <= |s| && s[|s| - k] == c
  }

  /** Graph units end in `.target`, `.service` or `.slice`; every drop-in ends in `.conf`. */
  lemma GraphNamesEndings(i: nat)
    requires i < |GRAPH_NAMES|
    ensures !EndsAs(GRAPH_NAMES[i], 1, 'f')
  {
  }

  lemma TweakNamesEndings(i: nat)
    requires i < |TWEAK_NAMES|
    ensures EndsAs(TWEAK_NAMES[i], 1, 'f') && EndsAs(TWEAK_NAMES[i], 6, 'k')
  {
  }

  lemma DropinSuffixShape(p: string)
    requires HasSuffix(p, DROPIN_SUFFIX)
    ensures EndsAs(p, 1, 'f') && EndsAs(p, 6, 'm')
  {
    var n, m := |p|, |DROPIN_SUFFIX|;
    assert p[n - m..][m - 1] == DROPIN_SUFFIX[m - 1] == 'f';
    assert p[n - m..][m - 6] == DROPIN_SUFFIX[m - 6] == 'm';
  }

  lemma DropinPathShape(prefix: string, idUnit: string)
    ensures HasPrefix(prefix + idUnit + DROPIN_SUFFIX, prefix)
    ensures HasSuffix(prefix + idUnit + DROPIN_SUFFIX, DROPIN_SUFFIX)
  {
  }

  lemma DropinPathsDiffer(idUnit: string)
    ensures PreloaderPath(idUnit) != ServicePath(idUnit)
    ensures IsCompositorDropin(PreloaderPath(idUnit)) && IsCompositorDropin(ServicePath(idUnit))
  {
    DropinPathShape(ENV_PREFIX, idUnit);
    DropinPathShape(WM_PREFIX, idUnit);
    assert PreloaderPath(idUnit)[10] == ENV_PREFIX[10] == '-';
    assert ServicePath(idUnit)[10] == WM_PREFIX[10] == '@';
  }

  /** No graph unit is ever a removable or reclaimable drop-in. */
  lemma GraphIsNotRemovable(p: string)
    requires p in GRAPH_NAMES
    ensures !IsRemovableDropin(p)
  {
    var i :| 0 <= i < |GRAPH_NAMES| && GRAPH_NAMES[i] == p;
    GraphNamesEndings(i);
    if IsTweak(p) {
      var j :| 0 <= j < |TWEAK_NAMES| && TWEAK_NAMES[j] == p;
      TweakNamesEndings(j);
    }
    if IsCompositorDropin(p) {
      DropinSuffixShape(p);
    }
  }

  lemma GraphNamesDistinct(i: nat, j: nat)
    requires i < j < |GRAPH_NAMES|
    ensures GRAPH_NAMES[i] != GRAPH_NAMES[j]
  {
    var lengths := [32, 27, 23, 37, 31, 19, 23, 31, 32, 29, 23, 19, 26];
    assert forall k | 0 <= k < |GRAPH_NAMES| :: |GRAPH_NAMES[k]| == lengths[k];
    assert GRAPH_NAMES[0][16] == 'e' && GRAPH_NAMES[8][16] == 'b';
    assert GRAPH_NAMES[2][8] == 's' && GRAPH_NAMES[6][8] == 'w' && GRAPH_NAMES[10][8] == 'g';
    assert GRAPH_NAMES[2][0] == 'w' && GRAPH_NAMES[10][0] == 's';
    assert GRAPH_NAMES[4][16] == 's' && GRAPH_NAMES[7][16] == 'w';
    assert GRAPH_NAMES[5][0] == 'w' && GRAPH_NAMES[11][0] == 'a';
  }

  lemma TweakNamesDistinct(i: nat, j: nat)
    requires i < j < |TWEAK_NAMES|
    ensures TWEAK_NAMES[i] != TWEAK_NAMES[j]
  {
    assert TWEAK_NAMES[0][4] == '@' && TWEAK_NAMES[1][4] == 'f' && TWEAK_NAMES[2][4] == 'm';
  }

  ghost predicate Distinct(dests: seq<Dest>) {
    forall i, j | 0 <= i < j < |dests| :: dests[i].relname != dests[j].relname
  }

  /** The destinations of one generation are pairwise different, and only those after the graph are removable. */
  lemma DestsDistinct(inputs: Inputs)
    requires inputs.Complete()
    ensures Distinct(Dests(inputs))
  {
    var dests := Dests(inputs);
    var g, t := |GRAPH_NAMES|, |TWEAK_NAMES|;
    forall i, j | 0 <= i < j < |dests|
      ensures dests[i].relname != dests[j].relname
    {
      DestKinds(inputs, i);
      DestKinds(inputs, j);
      if j < g {
        GraphNamesDistinct(i, j);
      } else if i >= g && j < g + t {
        TweakNamesDistinct(i - g, j - g);
      } else if i >= g + t {
        DropinPathsDiffer(inputs.idUnit);
      }
    }
  }

  lemma DestKinds(inputs: Inputs, i: nat)
    requires inputs.Complete() && i < |Dests(inputs)|
    ensures var d := Dests(inputs)[i];
            var g, t := |GRAPH_NAMES|, |TWEAK_NAMES|;
            && (d.Graph? <==> i < g)
            && (d.Graph? ==> d.relname == GRAPH_NAMES[i] && !EndsAs(d.relname, 1, 'f'))
            && (d.Dropin? ==> EndsAs(d.relname, 1, 'f') && IsRemovableDropin(d.relname))
            && (g <= i < g + t ==> d.relname == TWEAK_NAMES[i - g] && EndsAs(d.relname, 6, 'k'))
            && (g + t <= i ==> EndsAs(d.relname, 6, 'm') && d == DropinDests(inputs)[i - g - t])
  {
    var dests := Dests(inputs);
    var g, t := |GRAPH_NAMES|, |TWEAK_NAMES|;
    if i < g {
      assert dests[i] == GraphDests(inputs)[i];
      GraphNamesEndings(i);
    } else if i < g + t {
      assert dests[i] == TweakDests(inputs)[i - g];
      TweakNamesEndings(i - g);
    } else {
      assert dests[i] == DropinDests(inputs)[i - g - t];
      DropinPathsDiffer(inputs.idUnit);
      DropinSuffixShape(dests[i].relname);
    }
  }

  lemma GraphNamesFit(i: nat)
    requires i < |GRAPH_NAMES|
    ensures GRAPH_NAMES[i] != "" && LineSafe(GRAPH_NAMES[i])
  {
  }

  lemma TweakNamesFit(i: nat)
    requires i < |TWEAK_NAMES|
    ensures TWEAK_NAMES[i] != "" && LineSafe(TWEAK_NAMES[i])
  {
  }

  lemma DropinPathFits(prefix: string, idUnit: string)
    requires '\n' !in prefix && '\n' !in idUnit
    ensures LineSafe(prefix + idUnit + DROPIN_SUFFIX)
  {
    DropinSuffixFits();
    var p := prefix + idUnit + DROPIN_SUFFIX;
    assert p[|p| - 1] == DROPIN_SUFFIX[|DROPIN_SUFFIX| - 1];
  }

  lemma DropinSuffixFits()
    ensures '\n' !in DROPIN_SUFFIX && DROPIN_SUFFIX[|DROPIN_SUFFIX| - 1] == 'f'
    ensures '\n' !in ENV_PREFIX && '\n' !in WM_PREFIX
  {
  }

  /** Every destination of a compositor's unit string is the path of a manifest line. */
  lemma DestsFitTheManifest(inputs: Inputs, id: string, i: nat)
    requires inputs.Complete() && inputs.idUnit == Escaped(id, false) && i < |Dests(inputs)|
    ensures var relname := Dests(inputs)[i].relname; relname != "" && LineSafe(relname)
  {
    DestKinds(inputs, i);
    var g, t := |GRAPH_NAMES|, |TWEAK_NAMES|;
    if i < g {
      GraphNamesFit(i);
    } else if i < g + t {
      TweakNamesFit(i - g);
    } else {
      EscapedIsUnitName(id, false);
      assert '\n' !in inputs.idUnit;
      DropinSuffixFits();
      DropinPathFits(ENV_PREFIX, inputs.idUnit);
      DropinPathFits(WM_PREFIX, inputs.idUnit);
    }
  }
}
