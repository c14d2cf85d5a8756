/** The alerter registry: a name-keyed map of notification sinks. Alerting
    returns nothing, so it can never fail its caller. */
module Alerters {
  import opened Common
  import opened Backend

  /** A registered alerter: the name its `Name()` returns and which
      implementation it is. */
  datatype Alerter = Alerter(name: string, impl: nat)

  /** One notification per alerter name, in the order given, all carrying `alert`. */
  function Alerts(names: seq<string>, alert: Alert): seq<Event>
  {
    seq(|names|, i requires 0 <= i < |names| => AlertSent(names[i], alert))
  }

  /** Alerting an enumeration of the registered names notifies every
      registered alerter exactly once, with the same alert, and nobody else. */
  lemma AlertsReachEveryone(order: seq<string>, keys: set<string>, alert: Alert)
    requires IsEnumeration(order, keys)
    ensures NoDuplicates(Alerts(order, alert))
    ensures forall n, a :: AlertSent(n, a) in Alerts(order, alert) <==> n in keys && a == alert
  {
    var sent := Alerts(order, alert);
    forall n, a ensures AlertSent(n, a) in sent <==> n in keys && a == alert {
      if AlertSent(n, a) in sent {
        var i :| 0 <= i < |sent| && sent[i] == AlertSent(n, a);
        assert order[i] == n;
      }
      if n in keys && a == alert {
        var i :| 0 <= i < |order| && order[i] == n;
        assert sent[i] == AlertSent(n, a);
      }
    }
  }

  /** The package-level alerter map. */
  class Registry {
    var alerters: map<string, Alerter>

    /** Every alerter is stored under its own name. */
    ghost predicate Valid()
      reads this
    {
      forall n :: n in alerters ==> alerters[n].name == n
    }

    constructor ()
      ensures alerters == map[] && Valid()
    {
      alerters := map[];
    }

    /** `Register`: the first alerter registered under a name keeps it. */
    method Register(a: Alerter)
      requires Valid()
      modifies this
      ensures Valid()
      ensures alerters == FirstWins(old(alerters), a.name, a)
    {
      if a.name !in alerters {
        alerters := alerters[a.name := a];
      }
    }

    /** `AlertOnAll`, visiting the alerters in the map order `order`. */
    method AlertOnAll(env: Env, alert: Alert, order: seq<string>)
      requires Valid() && IsEnumeration(order, alerters.Keys)
      modifies env
      ensures env.log == old(env.log) + Alerts(order, alert)
    {
      var i := 0;
      while i < |order|
        invariant 0 <= i <= |order|
        invariant env.log == old(env.log) + Alerts(order[..i], alert)
      {
        var alerter := alerters[order[i]];
        env.Notify(AlertSent(alerter.name, alert));
        assert Alerts(order[..i], alert) + [AlertSent(order[i], alert)] == Alerts(order[..i + 1], alert);
        i := i + 1;
      }
      assert order[..i] == order;
    }

    /** `AlertOnOne`: notifies the named alerter, or nobody when no alerter
        has that name. */
    method AlertOnOne(env: Env, alert: Alert, name: string)
      requires Valid()
      modifies env
      ensures env.log == old(env.log) + if name in alerters then [AlertSent(name, alert)] else []
    {
      if name in alerters {
        env.Notify(AlertSent(alerters[name].name, alert));
      }
    }
  }
}
