/** Read-only planning of `plan.rs`: every destination is classified before anything is written. */
module UnitPlan {
  import opened Wrappers
  import opened Strings
  import opened Fingerprints
  import opened Ownership

  /** A file that exists but cannot be read as UTF-8 text is `Unreadable`. */
  datatype File = Text(content: string) | Unreadable

  type Dir = map<string, File>

  const GRAPH_NAMES: seq<string> :=
    ["wayland-session-envelope@.target", "wayland-session-pre@.target", "wayland-session@.target",
     "wayland-session-xdg-autostart@.target", "wayland-session-shutdown.target", "wayland-wm@.service",
     "wayland-wm-env@.service", "wayland-session-waitenv.service", "wayland-session-bindpid@.service",
     "wayland-wm-app-daemon.service", "session-graphical.slice", "app-graphical.slice",
     "background-graphical.slice"]

  const TWEAK_NAMES: seq<string> :=
    ["app-@autostart.service.d/slice-tweak.conf", "app-flatpak-.scope.d/order-tweak.conf",
     "plasma-xdg-desktop-portal-kde.service.d/" + "order-tweak.conf"]

  const ENV_PREFIX := "wayland-wm-env@"
  const WM_PREFIX := "wayland-wm@"
  const DROPIN_SUFFIX := ".service.d/50_custom.conf"

  function PreloaderPath(idUnit: string): string {
    ENV_PREFIX + idUnit + DROPIN_SUFFIX
  }

  function ServicePath(idUnit: string): string {
    WM_PREFIX + idUnit + DROPIN_SUFFIX
  }

  predicate IsTweak(relname: string) {
    relname in TWEAK_NAMES
  }

  predicate IsCompositorDropin(relname: string) {
    HasSuffix(relname, DROPIN_SUFFIX) && (HasPrefix(relname, WM_PREFIX) || HasPrefix(relname, ENV_PREFIX))
  }

  predicate IsRemovableDropin(relname: string) {
    IsTweak(relname) || IsCompositorDropin(relname)
  }

  /** The rendered contents and switches of one `start`: graph bodies, tweak bodies, and the drop-ins of the
      compositor, each absent when no customisation is needed. */
  datatype Inputs = Inputs(graph: seq<string>, tweaks: seq<string>, idUnit: string,
                           preloader: Option<string>, service: Option<string>,
                           tweaksEnabled: bool, reclaim: bool)
  {
    predicate Complete() {
      |graph| == |GRAPH_NAMES| && |tweaks| == |TWEAK_NAMES|
    }
  }

  /** A destination: a graph unit is always wanted, a drop-in may be unwanted. */
  datatype Dest = Graph(relname: string, content: string) | Dropin(relname: string, wanted: Option<string>)

  datatype Write = Write(relname: string, content: string)

  datatype Plan = Plan(writes: seq<Write>, removes: seq<string>, conflicts: seq<string>, reclaimed: seq<string>,
                       ledger: Ledger)

  function GraphDests(inputs: Inputs): seq<Dest>
    requires inputs.Complete()
  {
    seq(|GRAPH_NAMES|, i requires 0 <= i < |GRAPH_NAMES| => Graph(GRAPH_NAMES[i], inputs.graph[i]))
  }

  function TweakDests(inputs: Inputs): seq<Dest>
    requires inputs.Complete()
  {
    seq(|TWEAK_NAMES|, i requires 0 <= i < |TWEAK_NAMES| =>
      Dropin(TWEAK_NAMES[i], if inputs.tweaksEnabled then Some(inputs.tweaks[i]) else None))
  }

  function DropinDests(inputs: Inputs): seq<Dest> {
    [Dropin(PreloaderPath(inputs.idUnit), inputs.preloader), Dropin(ServicePath(inputs.idUnit), inputs.service)]
  }

  function Dests(inputs: Inputs): seq<Dest>
    requires inputs.Complete()
  {
    GraphDests(inputs) + TweakDests(inputs) + DropinDests(inputs)
  }

  // ----- classification -----

  datatype Verdict = Leave | Overwrite(content: string) | Reclaim(content: string) | Delete | Refuse

  predicate Readable(dir: Dir, relname: string) {
    relname in dir ==> dir[relname].Text?
  }

  /** What planning decides about one destination. */
  function Judge(dir: Dir, ledger: Ledger, reclaim: bool, d: Dest): Verdict
    requires Readable(dir, d.relname)
  {
    var wanted := if d.Graph? then Some(d.content) else d.wanted;
    if d.relname !in dir then
      if wanted.Some? then Overwrite(wanted.value) else Leave
    else
      var existing := dir[d.relname].content;
      var owned := Verifies(ledger, d.relname, existing);
      match wanted
      case Some(content) =>
        if existing == content then Leave
        else if owned then Overwrite(content)
        else if d.Dropin? && reclaim then Reclaim(content)
        else Refuse
      case None => if owned then Delete else Leave
  }

  function Add(plan: Plan, relname: string, v: Verdict): Plan {
    match v
    case Leave => plan
    case Overwrite(c) => plan.(writes := plan.writes + [Write(relname, c)])
    case Reclaim(c) => plan.(writes := plan.writes + [Write(relname, c)], reclaimed := plan.reclaimed + [relname])
    case Delete => plan.(removes := plan.removes + [relname])
    case Refuse => plan.(conflicts := plan.conflicts + [relname])
  }

  /** Planning the destinations in order; `None` when one of them cannot be read. */
  function PlanFrom(dir: Dir, reclaim: bool, dests: seq<Dest>, plan: Plan): Option<Plan>
    decreases |dests|
  {
    if dests == [] then Some(plan)
    else if !Readable(dir, dests[0].relname) then None
    else
      PlanFrom(dir, reclaim, dests[1..], Add(plan, dests[0].relname, Judge(dir, plan.ledger, reclaim, dests[0])))
  }

  function EmptyPlan(ledger: Ledger): Plan {
    Plan([], [], [], [], ledger)
  }

  function PlanFor(dir: Dir, ledger: Ledger, inputs: Inputs): Option<Plan>
    requires inputs.Complete()
  {
    PlanFrom(dir, inputs.reclaim, Dests(inputs), EmptyPlan(ledger))
  }

  class GenerationPlan {
    var writes: seq<Write>
    var removes: seq<string>
    var conflicts: seq<string>
    var reclaimed: seq<string>
    const manifest: Ledger

    constructor (ledger: Ledger)
      ensures Contents() == EmptyPlan(ledger)
    {
      writes, removes, conflicts, reclaimed := [], [], [], [];
      manifest := ledger;
    }

    function Contents(): Plan
      reads this
    {
      Plan(writes, removes, conflicts, reclaimed, manifest)
    }

    /** `classify_write` */
    method ClassifyWrite(dir: Dir, relname: string, content: string) returns (ok: bool)
      modifies this
      ensures ok <==> Readable(dir, relname)
      ensures forall reclaim: bool ::
                Contents() == if ok then Add(old(Contents()), relname,
                                             Judge(dir, manifest, reclaim, Graph(relname, content)))
                              else old(Contents())
    {
      if relname !in dir {
        writes := writes + [Write(relname, content)];
        return true;
      }
      match dir[relname]
      case Unreadable => return false;
      case Text(existing) =>
        if existing == content {
        } else if Verifies(manifest, relname, existing) {
          writes := writes + [Write(relname, content)];
        } else {
          conflicts := conflicts + [relname];
        }
        return true;
    }

    /** `classify_dropin` */
    method ClassifyDropin(dir: Dir, relname: string, wanted: Option<string>, reclaim: bool) returns (ok: bool)
      modifies this
      ensures ok <==> Readable(dir, relname)
      ensures Contents() == if ok then Add(old(Contents()), relname,
                                           Judge(dir, manifest, reclaim, Dropin(relname, wanted)))
                            else old(Contents())
    {
      if relname in dir && dir[relname].Unreadable? {
        return false;
      }
      ok := true;
      if relname !in dir {
        if wanted.Some? {
          writes := writes + [Write(relname, wanted.value)];
        }
      } else if wanted.Some? {
        if dir[relname].content == wanted.value {
        } else if Verifies(manifest, relname, dir[relname].content) {
          writes := writes + [Write(relname, wanted.value)];
        } else if reclaim {
          reclaimed := reclaimed + [relname];
          writes := writes + [Write(relname, wanted.value)];
        } else {
          conflicts := conflicts + [relname];
        }
      } else if Verifies(manifest, relname, dir[relname].content) {
        removes := removes + [relname];
      }
    }
  }


  /** `plan_generate` */
  method PlanGenerate(dir: Dir, ledger: Ledger, inputs: Inputs) returns (r: Option<Plan>)
    requires inputs.Complete()
    ensures r == PlanFor(dir, ledger, inputs)
  {
    var plan := new GenerationPlan(ledger);
    ghost var dests := Dests(inputs);
    ghost var goal := PlanFor(dir, ledger, inputs);
    var n := |GRAPH_NAMES|;
    for i := 0 to n
      invariant plan.manifest == ledger
      invariant PlanFrom(dir, inputs.reclaim, dests[i..], plan.Contents()) == goal
    {
      assert dests[i..] == [dests[i]] + dests[i + 1..];
      assert dests[i] == Graph(GRAPH_NAMES[i], inputs.graph[i]);
      var ok := plan.ClassifyWrite(dir, GRAPH_NAMES[i], inputs.graph[i]);
      if !ok {
        return None;
      }
    }
    for i := 0 to |TWEAK_NAMES|
      invariant plan.manifest == ledger
      invariant PlanFrom(dir, inputs.reclaim, dests[n + i..], plan.Contents()) == goal
    {
      assert dests[n + i..] == [dests[n + i]] + dests[n + i + 1..];
      var wanted := if inputs.tweaksEnabled then Some(inputs.tweaks[i]) else None;
      assert dests[n + i] == Dropin(TWEAK_NAMES[i], wanted);
      var ok := plan.ClassifyDropin(dir, TWEAK_NAMES[i], wanted, inputs.reclaim);
      if !ok {
        return None;
      }
    }
    assert dests[n + |TWEAK_NAMES|..] == DropinDests(inputs);
    r := PlanDropins(plan, dir, inputs);
  }

  /** The last two classifications of `plan_generate`: the drop-ins of the compositor itself. */
  method PlanDropins(plan: GenerationPlan, dir: Dir, inputs: Inputs) returns (r: Option<Plan>)
    modifies plan
    ensures r == PlanFrom(dir, inputs.reclaim, DropinDests(inputs), old(plan.Contents()))
  {
    ghost var dests := DropinDests(inputs);
    assert dests[1..] == [Dropin(ServicePath(inputs.idUnit), inputs.service)] && dests[1..][1..] == [];
    var ok := plan.ClassifyDropin(dir, PreloaderPath(inputs.idUnit), inputs.preloader, inputs.reclaim);
    if !ok {
      return None;
    }
    ghost var first := plan.Contents();
    assert PlanFrom(dir, inputs.reclaim, dests, old(plan.Contents())) == PlanFrom(dir, inputs.reclaim, dests[1..], first);
    ok := plan.ClassifyDropin(dir, ServicePath(inputs.idUnit), inputs.service, inputs.reclaim);
    if !ok {
      return None;
    }
    assert PlanFrom(dir, inputs.reclaim, dests[1..], first) == PlanFrom(dir, inputs.reclaim, [], plan.Contents());
    return Some(plan.Contents());
  }
}
