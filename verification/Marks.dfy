/** `stop -r <id>`: the mark stored in a path is the escaped unit string, not the compositor id itself. */
module Marks {
  import opened Wrappers
  import opened Strings
  import opened Escape
  import opened ExecField
  import opened Ownership
  import opened UnitPlan
  import opened UnitRemoval

  /** `is_wm_id` of `comp.rs` */
  predicate IsWmId(s: string) {
    s != "" && forall i | 0 <= i < |s| :: IsAllowed(s[i]) || s[i] == '-'
  }

  /** Asking for the removal of a compositor's drop-ins by its id selects them if and only if the id has no dash. */
  lemma IdSelectsItsDropinsIff(id: string)
    requires IsWmId(id)
    ensures var marks := Some([id]);
            && (MarkSelected(PreloaderPath(Escaped(id, false)), marks) <==> '-' !in id)
            && (MarkSelected(ServicePath(Escaped(id, false)), marks) <==> '-' !in id)
  {
    MarkOfDropins(Escaped(id, false));
    if '-' in id {
      EscapeGrowsAt(id);
    } else {
      assert forall i | 0 <= i < |id| :: id[i] in id;
      AllowedStays(id);
    }
  }

  lemma IdBetweenIff(relname: string, prefix: string, id: string)
    ensures IdBetween(relname, prefix) == Some(id) <==> relname == prefix + id + DROPIN_SUFFIX
  {
    var rest := id + DROPIN_SUFFIX;
    if relname == prefix + id + DROPIN_SUFFIX {
      assert relname[|prefix|..] == rest && rest[|rest| - |DROPIN_SUFFIX|..] == DROPIN_SUFFIX;
      assert rest[..|rest| - |DROPIN_SUFFIX|] == id;
    }
    if IdBetween(relname, prefix) == Some(id) {
      var tail := relname[|prefix|..];
      assert relname == prefix + tail && tail == id + tail[|id|..];
    }
  }

  /** The paths a mark selects, exactly: the two drop-ins with that unit string in their names, and the tweaks for the
      mark `tweaks`. */
  lemma MarkSelectsIff(relname: string, mark: string)
    ensures MarkSelected(relname, Some([mark]))
            <==> || relname == PreloaderPath(mark) || relname == ServicePath(mark)
                 || (IsTweak(relname) && mark == "tweaks")
  {
    MarkOfDropins(mark);
    DropinsAreNoTweaks(mark);
    IdBetweenIff(relname, ENV_PREFIX, mark);
    IdBetweenIff(relname, WM_PREFIX, mark);
  }

  /** Without a mark every tracked removable path is selected; a list of marks selects the tracked paths of each mark. */
  lemma SelectionMeaning(ledger: Ledger, marks: seq<string>, n: string)
    ensures n in Selected(ledger, None) <==> n in ledger && (IsTweak(n) || IsCompositorDropin(n))
    ensures n in Selected(ledger, Some(marks)) <==>
              n in ledger
              && exists m :: m in marks
                   && (n == PreloaderPath(m) || n == ServicePath(m) || (IsTweak(n) && m == "tweaks"))
  {
    MarkedIffRemovable(n);
    forall m
      ensures MarkOf(n) == Some(m) <==> n == PreloaderPath(m) || n == ServicePath(m) || (IsTweak(n) && m == "tweaks")
    {
      MarkSelectsIff(n, m);
    }
  }

  /** Asking by the unit string of a compositor selects its own drop-ins, none of another compositor, and the tweaks if
      and only if the unit string is `tweaks`. */
  lemma UnitStringSelects(id: string, relname: string)
    ensures var u := Escaped(id, false);
            MarkSelected(relname, Some([u]))
            <==> relname == PreloaderPath(u) || relname == ServicePath(u) || (IsTweak(relname) && u == "tweaks")
    ensures forall other | MarkSelected(ServicePath(Escaped(other, false)), Some([Escaped(id, false)])) :: other == id
    ensures forall other | MarkSelected(PreloaderPath(Escaped(other, false)), Some([Escaped(id, false)])) :: other == id
  {
    MarkSelectsIff(relname, Escaped(id, false));
    forall other | MarkSelected(ServicePath(Escaped(other, false)), Some([Escaped(id, false)]))
                   || MarkSelected(PreloaderPath(Escaped(other, false)), Some([Escaped(id, false)]))
      ensures other == id
    {
      MarkOfDropins(Escaped(other, false));
      EscapeInjective(id, other, false);
    }
  }

  /** A compositor may be called `tweaks`, and asking for its drop-ins also selects every tweak. */
  lemma TweaksIdCollides(i: nat)
    requires i < |TWEAK_NAMES|
    ensures IsWmId("tweaks") && MarkSelected(TWEAK_NAMES[i], Some([Escaped("tweaks", false)]))
  {
    assert IsWmId("tweaks");
    AllowedStays("tweaks");
    MarkSelectsIff(TWEAK_NAMES[i], "tweaks");
  }

  lemma DashedIdIsMissed()
    ensures IsWmId("my-wm") && !MarkSelected(ServicePath(Escaped("my-wm", false)), Some(["my-wm"]))
  {
    assert "my-wm"[2] == '-';
    IdSelectsItsDropinsIff("my-wm");
  }

  // ----- the value of `-r` -----

  function Trimmed(parts: seq<string>): seq<string>
    decreases |parts|
  {
    if parts == [] then []
    else (if Trim(parts[0]) == "" then [] else [Trim(parts[0])]) + Trimmed(parts[1..])
  }

  /** `parse_marks`: no mark at all is no filter. */
  function ParseMarks(raw: string): Option<seq<string>> {
    var marks := Trimmed(Split(raw, ','));
    if marks == [] then None else Some(marks)
  }

  lemma {:induction false} TrimmedMembers(parts: seq<string>, m: string)
    ensures m in Trimmed(parts) <==> m != "" && exists part :: part in parts && Trim(part) == m
    decreases |parts|
  {
    if parts != [] {
      TrimmedMembers(parts[1..], m);
      assert forall part :: part in parts <==> part == parts[0] || part in parts[1..];
    }
  }

  /** The marks are what stands between the commas without the blanks around it, leaving out what is blank; a value with
      nothing else is no filter. */
  lemma MarksMeaning(raw: string, m: string)
    ensures ParseMarks(raw).Some? && m in ParseMarks(raw).value
            <==> m != "" && exists part :: part in Split(raw, ',') && Trim(part) == m
    ensures ParseMarks(raw).None? <==> forall part | part in Split(raw, ',') :: Trim(part) == ""
  {
    var parts := Split(raw, ',');
    TrimmedMembers(parts, m);
    if part :| part in parts && Trim(part) != "" {
      TrimmedMembers(parts, Trim(part));
    }
    if Trimmed(parts) != [] {
      TrimmedMembers(parts, Trimmed(parts)[0]);
    }
  }

  /** A mark that a list of marks can carry. */
  predicate IsMark(m: string) {
    m != "" && ',' !in m && Trim(m) == m
  }

  lemma {:induction false} MarksStay(marks: seq<string>)
    requires forall m | m in marks :: IsMark(m)
    ensures Trimmed(marks) == marks
    decreases |marks|
  {
    if marks != [] {
      assert marks[0] in marks && forall m | m in marks[1..] :: m in marks;
      MarksStay(marks[1..]);
    }
  }

  /** Marks listed with commas are read back as that list; the empty value means everything. */
  lemma MarksRoundTrip(marks: seq<string>)
    requires forall m | m in marks :: IsMark(m)
    ensures ParseMarks(Join(marks, ",")) == if marks == [] then None else Some(marks)
  {
    assert "," == [','];
    if marks == [] {
      assert Split("", ',') == [""] && Trimmed([""]) == Trimmed([]);
    } else {
      SplitJoin(marks, ',');
      MarksStay(marks);
    }
  }
}
