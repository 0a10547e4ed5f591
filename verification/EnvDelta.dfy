/** The environment delta of `delta.rs`: the loops, the set algebra they compute, and what applying it does. */
module EnvDelta {
  import opened VarNames

  datatype EnvChanges = EnvChanges(assign: Env, unset: set<string>, cleanup: set<string>)

  function Changes(pre: Env, post: Env): EnvChanges {
    var assign :=
      map k | k in post && k !in NEVER_EXPORT + ALWAYS_UNSET && (k !in pre || pre[k] != post[k] || k in ALWAYS_EXPORT)
        :: post[k];
    var unset := set k | k in pre && (k !in post || k in ALWAYS_UNSET);
    EnvChanges(assign, unset, assign.Keys - NEVER_CLEANUP)
  }

  method ComputeChanges(pre: Env, post: Env) returns (c: EnvChanges)
    ensures c == Changes(pre, post)
  {
    var assign := ComputeAssign(pre, post);
    var unset := ComputeUnset(pre, post);
    c := EnvChanges(assign, unset, set k | k in assign.Keys && k !in NEVER_CLEANUP);
  }

  method ComputeAssign(pre: Env, post: Env) returns (assign: Env)
    ensures assign == Changes(pre, post).assign
  {
    assign := map[];
    var rest := post.Keys;
    while rest != {}
      invariant rest <= post.Keys
      invariant assign == map k | k in post && k !in rest && (k !in pre || pre[k] != post[k]) :: post[k]
      decreases rest
    {
      var k :| k in rest;
      rest := rest - {k};
      if k !in pre || pre[k] != post[k] {
        assign := assign[k := post[k]];
      }
    }
    ghost var changed := assign;
    assign := ForceExports(pre, post, assign);
    DroppingGivesChanges(pre, post, changed, assign);
    assign := DropNames(assign, NEVER_EXPORT + ALWAYS_UNSET);
  }

  lemma DroppingGivesChanges(pre: Env, post: Env, changed: Env, assign: Env)
    requires changed == map k | k in post && (k !in pre || pre[k] != post[k]) :: post[k]
    requires assign.Keys <= post.Keys && forall k | k in assign :: assign[k] == post[k]
    requires forall k | k in post && k !in NEVER_EXPORT && k !in ALWAYS_UNSET ::
               k in assign <==> k in changed || k in ALWAYS_EXPORT
    ensures assign - (NEVER_EXPORT + ALWAYS_UNSET) == Changes(pre, post).assign
  {
  }

  method ForceExports(pre: Env, post: Env, changed: Env) returns (assign: Env)
    requires changed == map k | k in post && (k !in pre || pre[k] != post[k]) :: post[k]
    ensures assign.Keys <= post.Keys && forall k | k in assign :: assign[k] == post[k]
    ensures forall k | k in post && k !in NEVER_EXPORT && k !in ALWAYS_UNSET ::
              k in assign <==> k in changed || k in ALWAYS_EXPORT
  {
    assign := changed;
    var rest := ALWAYS_EXPORT;
    ghost var forced: set<string> := {};
    while rest != {}
      invariant forced + rest == ALWAYS_EXPORT
      invariant assign.Keys <= post.Keys && forall k | k in assign :: assign[k] == post[k]
      invariant forall k | k in post && k !in NEVER_EXPORT && k !in ALWAYS_UNSET ::
                  k in assign <==> k in changed || k in forced
      decreases rest
    {
      var k :| k in rest;
      rest := rest - {k};
      forced := forced + {k};
      if k !in NEVER_EXPORT && k !in ALWAYS_UNSET && k in post {
        assign := assign[k := post[k]];
      }
    }
  }

  method DropNames(env: Env, names: set<string>) returns (r: Env)
    ensures r == env - names
  {
    r := env;
    var rest := names;
    while rest != {}
      invariant rest <= names && r == env - (names - rest)
      decreases rest
    {
      var k :| k in rest;
      rest := rest - {k};
      r := r - {k};
    }
  }

  method ComputeUnset(pre: Env, post: Env) returns (unset: set<string>)
    ensures unset == Changes(pre, post).unset
  {
    unset := {};
    var rest := pre.Keys;
    while rest != {}
      invariant rest <= pre.Keys
      invariant unset == set k | k in pre && k !in rest && k !in post
      decreases rest
    {
      var k :| k in rest;
      rest := rest - {k};
      if k !in post {
        unset := unset + {k};
      }
    }
    ghost var gone := unset;
    rest := ALWAYS_UNSET;
    ghost var forced: set<string> := {};
    while rest != {}
      invariant forced + rest == ALWAYS_UNSET
      invariant unset == gone + forced * pre.Keys
      decreases rest
    {
      var k :| k in rest;
      rest := rest - {k};
      forced := forced + {k};
      if k in pre {
        unset := unset + {k};
      }
    }
  }

  /** The environment a session should see: the loader's values for everything that may be shared,
      nothing of what must never be shared, and the earlier value of what is merely not exported. */
  function Merged(pre: Env, post: Env): Env {
    map k | k in pre.Keys + post.Keys && k !in ALWAYS_UNSET && k in post && (k !in NEVER_EXPORT || k in pre)
      :: if k in NEVER_EXPORT then pre[k] else post[k]
  }

  /** Applying the delta on top of the earlier environment reaches exactly `Merged`. */
  lemma ApplyingChangesMerges(pre: Env, post: Env)
    ensures var c := Changes(pre, post); (pre + c.assign) - c.unset == Merged(pre, post)
  {
    var c := Changes(pre, post);
    var applied := (pre + c.assign) - c.unset;
    forall k
      ensures k in applied <==> k in Merged(pre, post)
      ensures k in applied ==> applied[k] == Merged(pre, post)[k]
    {
    }
  }

  /** Every assigned name is either recorded for cleanup or protected from it, and only a name of the
      earlier environment is ever unset. */
  lemma ChangesAreAccountedFor(pre: Env, post: Env)
    ensures var c := Changes(pre, post);
            && c.assign.Keys == c.cleanup + c.assign.Keys * NEVER_CLEANUP
            && c.unset <= pre.Keys
            && c.unset !! c.assign.Keys
            && (FilterEnv(post) == post ==> forall k | k in c.assign :: KeepName(k))
  {
    var c := Changes(pre, post);
    forall k | k in c.assign && FilterEnv(post) == post
      ensures KeepName(k)
    {
      assert k in FilterEnv(post);
    }
  }
}
