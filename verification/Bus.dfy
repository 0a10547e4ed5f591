/** The two activation environments behind `dbus.rs` and its ordered, individually fallible updates. */
module Bus {
  import opened Wrappers
  import opened VarNames

  /** `broker` tells whether the daemon is dbus-broker, which shares systemd's environment;
      `dbus` is the copy a classic dbus-daemon keeps. */
  datatype Stores = Stores(systemd: Env, dbus: Env, broker: bool) {
    function DbusView(): Env {
      if broker then systemd else dbus
    }

    function WithDbus(update: Env): Stores {
      if broker then this else this.(dbus := dbus + update)
    }
  }

  datatype BusCall = SettingSystemd | UnsettingSystemd | QueryingBroker | UpdatingDbus

  /** A plain error of one of the calls, or the error naming the side that was already updated. */
  datatype BusResult = Done | Failed(call: BusCall) | Partial

  function Blank(names: set<string>): Env {
    map n | n in names :: ""
  }

  function AfterSet(s: Stores, vars: Env): Stores {
    s.(systemd := s.systemd + vars).WithDbus(vars)
  }

  function AfterUnset(s: Stores, names: set<string>): Stores {
    s.WithDbus(Blank(names)).(systemd := s.systemd - names)
  }

  /** systemd first, then D-Bus. A plain error does not mean that nothing was applied: the query
      between the two updates may be what failed. */
  ghost predicate SetOutcome(s: Stores, vars: Env, s': Stores, r: BusResult) {
    match r
    case Done => s' == AfterSet(s, vars)
    case Partial => !s.broker && s' == s.(systemd := s.systemd + vars)
    case Failed(call) =>
      || (call == SettingSystemd && s' == s)
      || (call == QueryingBroker && s' == s.(systemd := s.systemd + vars))
  }

  /** D-Bus first, then systemd; here a plain error does mean that nothing was applied. */
  ghost predicate UnsetOutcome(s: Stores, names: set<string>, s': Stores, r: BusResult) {
    match r
    case Done => s' == AfterUnset(s, names)
    case Partial => !s.broker && s' == s.WithDbus(Blank(names))
    case Failed(call) => s' == s && call != SettingSystemd && (call == UnsettingSystemd ==> s.broker)
  }

  /** Which plain errors of a set leave nothing applied: those of the first call, and any when there was nothing new
      to apply. */
  lemma PlainErrorLeavesNothingIff(s: Stores, vars: Env, s': Stores, call: BusCall)
    requires SetOutcome(s, vars, s', Failed(call))
    ensures s' == s <==> call == SettingSystemd || s.systemd + vars == s.systemd
  {
  }

  /** A caller who does not know which call failed can rely on it only when systemd has all the values already. */
  lemma EveryPlainErrorLeavesNothingIff(s: Stores, vars: Env)
    ensures (forall s', call | SetOutcome(s, vars, s', Failed(call)) :: s' == s) <==> s.systemd + vars == s.systemd
  {
    assert SetOutcome(s, vars, s.(systemd := s.systemd + vars), Failed(QueryingBroker));
  }

  /** A plain error behind which systemd has been updated and D-Bus has not. */
  lemma PlainErrorAfterUpdate()
    ensures var s, vars := Stores(map[], map[], false), map["DISPLAY" := ":0"];
            var s' := Stores(vars, map[], false);
            SetOutcome(s, vars, s', Failed(QueryingBroker)) && s' != s
  {
    var vars: Env := map["DISPLAY" := ":0"];
    assert map[] + vars == vars && "DISPLAY" in vars;
  }

  /** Every name with a non-empty D-Bus value is known to systemd. */
  ghost predicate DbusWithinSystemd(s: Stores) {
    forall n | n in s.DbusView() && s.DbusView()[n] != "" :: n in s.systemd
  }

  lemma SetKeepsDbusWithinSystemd(s: Stores, vars: Env, s': Stores, r: BusResult)
    requires DbusWithinSystemd(s) && SetOutcome(s, vars, s', r)
    ensures DbusWithinSystemd(s')
  {
  }

  lemma UnsetKeepsDbusWithinSystemd(s: Stores, names: set<string>, s': Stores, r: BusResult)
    requires DbusWithinSystemd(s) && UnsetOutcome(s, names, s', r)
    ensures DbusWithinSystemd(s')
  {
  }

  /** The session bus. Each primitive either takes effect or fails and changes nothing; on a reliable bus none fails. */
  class SessionBus {
    var systemd: Env
    var dbus: Env
    const broker: bool
    const reliable: bool

    constructor (stores: Stores, reliable: bool)
      ensures Contents() == stores && this.reliable == reliable
    {
      systemd, dbus, broker := stores.systemd, stores.dbus, stores.broker;
      this.reliable := reliable;
    }

    /** Whether one call takes effect. */
    method Attempt() returns (ok: bool)
      ensures reliable ==> ok
    {
      ok := *;
      ok := ok || reliable;
    }

    ghost function Contents(): Stores
      reads this
    {
      Stores(systemd, dbus, broker)
    }

    method SystemdVars() returns (r: Option<Env>)
      ensures r.Some? ==> r.value == FilterEnv(systemd)
      ensures reliable ==> r.Some?
    {
      var ok := Attempt();
      if !ok {
        return None;
      }
      return Some(FilterEnv(systemd));
    }

    method SetEnvironment(vars: Env) returns (ok: bool)
      modifies this`systemd
      ensures systemd == if ok then old(systemd) + vars else old(systemd)
      ensures reliable ==> ok
    {
      ok := Attempt();
      if ok {
        systemd := systemd + vars;
      }
    }

    method UnsetEnvironment(names: set<string>) returns (ok: bool)
      modifies this`systemd
      ensures systemd == if ok then old(systemd) - names else old(systemd)
      ensures reliable ==> ok
    {
      ok := Attempt();
      if ok {
        systemd := systemd - names;
      }
    }

    method IsDbusBroker() returns (r: Option<bool>)
      ensures r.Some? ==> r.value == broker
      ensures reliable ==> r.Some?
    {
      var ok := Attempt();
      if !ok {
        return None;
      }
      return Some(broker);
    }

    method UpdateActivationEnvironment(vars: Env) returns (ok: bool)
      modifies this`dbus
      ensures dbus == if ok then old(dbus) + vars else old(dbus)
      ensures reliable ==> ok
    {
      ok := Attempt();
      if ok {
        dbus := dbus + vars;
      }
    }

    method SetSystemdVars(vars: Env) returns (r: BusResult)
      modifies this
      ensures SetOutcome(old(Contents()), vars, Contents(), r)
      ensures reliable ==> r == Done
    {
      var ok := SetEnvironment(vars);
      if !ok {
        return Failed(SettingSystemd);
      }
      var sharesEnvironment := IsDbusBroker();
      if sharesEnvironment.None? {
        return Failed(QueryingBroker);
      }
      if !sharesEnvironment.value {
        ok := UpdateActivationEnvironment(vars);
        if !ok {
          return Partial;
        }
      }
      return Done;
    }

    method UnsetSystemdVars(names: set<string>) returns (r: BusResult)
      modifies this
      ensures UnsetOutcome(old(Contents()), names, Contents(), r)
      ensures reliable ==> r == Done
    {
      var sharesEnvironment := IsDbusBroker();
      if sharesEnvironment.None? {
        return Failed(QueryingBroker);
      }
      if !sharesEnvironment.value {
        var cleared := UpdateActivationEnvironment(Blank(names));
        if !cleared {
          return Failed(UpdatingDbus);
        }
      }
      var ok := UnsetEnvironment(names);
      if !ok {
        return if sharesEnvironment.value then Failed(UnsettingSystemd) else Partial;
      }
      return Done;
    }
  }
}
