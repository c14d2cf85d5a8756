/** The checker registry: a name-keyed map of reputation checkers, queried one
    at a time by name. */
module Checkers {
  import opened Common
  import opened Reputation
  import opened Backend

  /** A registered checker: the name its `Name()` returns and which
      implementation it is. */
  datatype Checker = Checker(name: string, impl: nat)

  /** The package-level checker map. */
  class Registry {
    var checkers: map<string, Checker>

    /** Every checker is stored under its own name. */
    ghost predicate Valid()
      reads this
    {
      forall n :: n in checkers ==> checkers[n].name == n
    }

    constructor ()
      ensures checkers == map[] && Valid()
    {
      checkers := map[];
    }

    /** `Register`: the first checker registered under a name keeps it. */
    method Register(c: Checker)
      requires Valid()
      modifies this
      ensures Valid()
      ensures checkers == FirstWins(old(checkers), c.name, c)
    {
      if c.name !in checkers {
        checkers := checkers[c.name := c];
      }
    }

    /** `CheckOnOne`: an unknown name yields neither a result nor an error and
        calls nothing; a known name calls that checker once and returns its
        result unchanged, or no result and the checker's error. */
    method CheckOnOne(env: Env, ip: string, name: string) returns (result: Option<Report>, err: Option<Error>)
      requires Valid()
      modifies env
      ensures name !in checkers ==> result == None && err == None && env.log == old(env.log)
      ensures name in checkers ==> env.log == old(env.log) + [CheckerCall(name, ip)]
      ensures name in checkers && |old(env.log)| in env.faulty ==>
        result == None && err == Some(Failed(CheckerCall(name, ip)))
      ensures name in checkers && |old(env.log)| !in env.faulty ==>
        result == env.answer(|old(env.log)|).result && err == None
    {
      if name in checkers {
        var checker := checkers[name];
        var call := CheckerCall(checker.name, ip);
        var answer := env.Query(call);
        if answer.None? {
          return None, Some(Failed(call));
        }
        return answer.value.result, None;
      }
      return None, None;
    }
  }
}
