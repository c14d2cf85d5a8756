/** The endpoint registry: a name-keyed map of enforcement backends, and the
    fan-out that runs one action on every registered endpoint, stopping at the
    first failure. */
module Endpoints {
  import opened Common
  import opened Backend

  /** A registered endpoint: the name its `Name()` returns, and which
      implementation it is (two implementations may report the same name). */
  datatype Endpoint = Endpoint(name: string, impl: nat)

  /** What a fan-out did: the calls it made, in order, and the error it returned. */
  datatype Outcome = Outcome(calls: seq<Event>, err: Option<Error>)

  /** One `op` call per endpoint name, in the order given. */
  function Calls(names: seq<string>, op: Op, ip: string): seq<Event>
  {
    seq(|names|, i requires 0 <= i < |names| => EndpointCall(names[i], op, ip))
  }

  lemma CallsCons(name: string, names: seq<string>, op: Op, ip: string)
    ensures [EndpointCall(name, op, ip)] + Calls(names, op, ip) == Calls([name] + names, op, ip)
  {
  }

  /** The fan-out of `op` over the endpoints named in `order`, when the first
      call sits at log position `at`: call the endpoints one after the other
      and stop at the first that fails, returning its error tagged with the
      endpoint's name. */
  function FanOut(order: seq<string>, op: Op, ip: string, at: nat, faulty: set<nat>): Outcome
    decreases |order|
  {
    if |order| == 0 then Outcome([], None)
    else
      var call := EndpointCall(order[0], op, ip);
      if at in faulty then Outcome([call], Some(Tagged(op, order[0], Failed(call))))
      else
        var rest := FanOut(order[1..], op, ip, at + 1, faulty);
        Outcome([call] + rest.calls, rest.err)
  }

  /** The fan-out succeeds iff no call fails, and then every endpoint was
      called once, in order; otherwise it has called the endpoints up to the
      first failing one, nothing after it, and returns that failure tagged
      with the failing endpoint's name. */
  lemma {:induction false} FanOutShape(order: seq<string>, op: Op, ip: string, at: nat, faulty: set<nat>)
    ensures var o := FanOut(order, op, ip, at, faulty);
      && |o.calls| <= |order|
      && o.calls == Calls(order[..|o.calls|], op, ip)
      && (o.err.None? <==> NoFault(faulty, at, at + |order|))
      && (o.err.None? ==> |o.calls| == |order|)
      && (o.err.Some? ==>
            var n := |o.calls|;
            && 1 <= n
            && NoFault(faulty, at, at + n - 1)
            && at + n - 1 in faulty
            && o.err.value == Tagged(op, order[n - 1], Failed(EndpointCall(order[n - 1], op, ip))))
    decreases |order|
  {
    if |order| > 0 && at !in faulty {
      var call := EndpointCall(order[0], op, ip);
      var rest := FanOut(order[1..], op, ip, at + 1, faulty);
      FanOutShape(order[1..], op, ip, at + 1, faulty);
      var m := |rest.calls|;
      assert order[..m + 1] == [order[0]] + order[1..][..m];
      CallsCons(order[0], order[1..][..m], op, ip);
      if rest.err.None? {
        assert NoFault(faulty, at, at + |order|);
      } else {
        assert NoFault(faulty, at, at + m) by {
          assert NoFault(faulty, at + 1, at + m);
        }
      }
      if NoFault(faulty, at, at + |order|) {
        assert NoFault(faulty, at + 1, at + |order|);
      }
    }
  }

  /** `ExecuteOnAll`'s effect: the fan-out of the operation `action` selects,
      or nothing at all for an action that selects none. */
  function Execute(order: seq<string>, action: string, ip: string, at: nat, faulty: set<nat>): Outcome
  {
    match ParseAction(action)
    case None => Outcome([], None)
    case Some(op) => FanOut(order, op, ip, at, faulty)
  }

  /** After `i` successful calls the fan-out continues as the fan-out of the
      rest of the order. */
  lemma {:induction false} FanOutSkip(order: seq<string>, op: Op, ip: string, at: nat, faulty: set<nat>, i: nat)
    requires i <= |order| && NoFault(faulty, at, at + i)
    ensures FanOut(order, op, ip, at, faulty)
      == var rest := FanOut(order[i..], op, ip, at + i, faulty);
         Outcome(Calls(order[..i], op, ip) + rest.calls, rest.err)
    decreases i
  {
    if i > 0 {
      var j := i - 1;
      var done := Calls(order[..j], op, ip);
      var mid := FanOut(order[j..], op, ip, at + j, faulty);
      assert FanOut(order, op, ip, at, faulty) == Outcome(done + mid.calls, mid.err) by {
        FanOutSkip(order, op, ip, at, faulty, j);
      }
      var call := EndpointCall(order[j], op, ip);
      var rest := FanOut(order[i..], op, ip, at + i, faulty);
      assert mid == Outcome([call] + rest.calls, rest.err) by {
        assert at + j !in faulty;
        assert order[j..][0] == order[j] && order[j..][1..] == order[i..];
      }
      assert Calls(order[..i], op, ip) == done + [call];
      assert done + ([call] + rest.calls) == (done + [call]) + rest.calls;
    } else {
      assert order[i..] == order;
      assert Calls(order[..i], op, ip) == [];
    }
  }

  /** A fan-out over an enumeration of the registered names that succeeds has
      called every registered endpoint exactly once and nothing else. */
  lemma FanOutCoversAll(order: seq<string>, keys: set<string>, op: Op, ip: string, at: nat, faulty: set<nat>)
    requires IsEnumeration(order, keys)
    requires FanOut(order, op, ip, at, faulty).err.None?
    ensures var calls := FanOut(order, op, ip, at, faulty).calls;
      && NoDuplicates(calls)
      && forall n :: EndpointCall(n, op, ip) in calls <==> n in keys
  {
    var calls := FanOut(order, op, ip, at, faulty).calls;
    FanOutShape(order, op, ip, at, faulty);
    assert order[..|order|] == order;
    forall n ensures EndpointCall(n, op, ip) in calls <==> n in keys {
      if EndpointCall(n, op, ip) in calls {
        var i :| 0 <= i < |calls| && calls[i] == EndpointCall(n, op, ip);
        assert order[i] == n;
      }
      if n in keys {
        var i :| 0 <= i < |order| && order[i] == n;
        assert calls[i] == EndpointCall(n, op, ip);
      }
    }
  }

  /** The package-level endpoint map. */
  class Registry {
    var endpoints: map<string, Endpoint>

    /** Every endpoint is stored under its own name. */
    ghost predicate Valid()
      reads this
    {
      forall n :: n in endpoints ==> endpoints[n].name == n
    }

    constructor ()
      ensures endpoints == map[] && Valid()
    {
      endpoints := map[];
    }

    /** `Register`: the first endpoint registered under a name keeps it. */
    method Register(e: Endpoint)
      requires Valid()
      modifies this
      ensures Valid()
      ensures endpoints == FirstWins(old(endpoints), e.name, e)
    {
      if e.name !in endpoints {
        endpoints := endpoints[e.name := e];
      }
    }

    /** `ExecuteOnAll`, visiting the endpoints in the map order `order`. */
    method ExecuteOnAll(env: Env, ip: string, action: string, order: seq<string>) returns (err: Option<Error>)
      requires Valid() && IsEnumeration(order, endpoints.Keys)
      modifies env
      ensures var o := Execute(order, action, ip, |old(env.log)|, env.faulty);
        env.log == old(env.log) + o.calls && err == o.err
    {
      var op := ParseAction(action);
      ghost var at := |env.log|;
      var i := 0;
      while i < |order|
        invariant 0 <= i <= |order|
        invariant op.None? ==> env.log == old(env.log)
        invariant op.Some? ==> env.log == old(env.log) + Calls(order[..i], op.value, ip)
        invariant op.Some? ==> NoFault(env.faulty, at, at + i)
      {
        var endpoint := endpoints[order[i]];
        match op {
          case None =>
          case Some(o) =>
            var call := EndpointCall(endpoint.name, o, ip);
            var ok := env.Call(call);
            if !ok {
              FanOutSkip(order, o, ip, at, env.faulty, i);
              assert Calls(order[..i], o, ip) + [call] == Calls(order[..i + 1], o, ip);
              return Some(Tagged(o, endpoint.name, Failed(call)));
            }
            assert Calls(order[..i], o, ip) + [call] == Calls(order[..i + 1], o, ip);
        }
        i := i + 1;
      }
      if op.Some? {
        FanOutSkip(order, op.value, ip, at, env.faulty, |order|);
        assert order[..|order|] == order;
      }
      return None;
    }

    /** `ExecuteOnOne`: the action on the named endpoint alone, or nothing
        when no endpoint has that name. */
    method ExecuteOnOne(env: Env, ip: string, action: string, name: string) returns (err: Option<Error>)
      requires Valid()
      modifies env
      ensures name !in endpoints ==> env.log == old(env.log) && err == None
      ensures name in endpoints ==>
        var o := Execute([name], action, ip, |old(env.log)|, env.faulty);
        env.log == old(env.log) + o.calls && err == o.err
    {
      err := None;
      ghost var at := |env.log|;
      if name in endpoints {
        var endpoint := endpoints[name];
        assert endpoint.name == name;
        match ParseAction(action) {
          case None =>
          case Some(o) =>
            var call := EndpointCall(endpoint.name, o, ip);
            var ok := env.Call(call);
            if !ok {
              err := Some(Tagged(o, endpoint.name, Failed(call)));
            }
            assert [name][1..] == [];
            assert FanOut([name][1..], o, ip, at + 1, env.faulty) == Outcome([], None);
        }
      }
    }
  }
}
