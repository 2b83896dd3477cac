/** Waiting for an object to appear or to disappear: the outcome, the error and the references. */
module Waiting {
  import opened OptionType

  type Object = nat

  /** `answers(k)` is what the k-th call of the wait function finds. The time-out fires while the
      caller waits after `rounds` checks; zero seconds mean that it never waits. */
  datatype Env = Env(answers: nat -> Option<Object>, timeoutSeconds: nat, rounds: nat)

  /** The check that ends the wait is the one that finds what is waited for. */
  predicate Settles(answer: Option<Object>, toDisappear: bool)
  {
    answer.None? == toDisappear
  }

  /** How many checks are allowed. */
  function Checks(env: Env): (n: nat)
    ensures n > 0
  {
    if env.timeoutSeconds == 0 || env.rounds == 0 then 1 else env.rounds
  }

  /** Which check is the last one, from check `k` on. */
  function LastCheck(env: Env, toDisappear: bool, k: nat): nat
    decreases Checks(env) - k
  {
    if Settles(env.answers(k), toDisappear) || k + 1 >= Checks(env) then k else LastCheck(env, toDisappear, k + 1)
  }

  /** What is waited for is found by one of the checks that are allowed. */
  ghost predicate Settled(env: Env, toDisappear: bool)
  {
    exists k: nat :: k < Checks(env) && Settles(env.answers(k), toDisappear)
  }

  lemma {:induction false} LastCheckFrom(env: Env, toDisappear: bool, k: nat)
    requires k < Checks(env)
    ensures k <= LastCheck(env, toDisappear, k) < Checks(env)
    ensures forall j: nat :: k <= j < LastCheck(env, toDisappear, k) ==> !Settles(env.answers(j), toDisappear)
    ensures !Settles(env.answers(LastCheck(env, toDisappear, k)), toDisappear) ==>
            LastCheck(env, toDisappear, k) == Checks(env) - 1
    decreases Checks(env) - k
  {
    if !Settles(env.answers(k), toDisappear) && k + 1 < Checks(env) {
      LastCheckFrom(env, toDisappear, k + 1);
    }
  }

  /** The wait ends with the first check that finds what is waited for, if any of them does. */
  lemma {:induction false} LastCheckSettles(env: Env, toDisappear: bool)
    ensures Settles(env.answers(LastCheck(env, toDisappear, 0)), toDisappear) <==> Settled(env, toDisappear)
    ensures forall j: nat :: j < LastCheck(env, toDisappear, 0) ==> !Settles(env.answers(j), toDisappear)
  {
    LastCheckFrom(env, toDisappear, 0);
  }

  /** Check `k` is the first that finds something, and is allowed. */
  ghost predicate FirstFound(env: Env, k: nat)
  {
    k < Checks(env) && env.answers(k).Some? && forall j: nat :: j < k ==> env.answers(j).None?
  }

  /** Waiting for an object to appear gives what the first check that finds something finds. */
  lemma {:induction false} FoundFirst(env: Env)
    ensures var last := LastCheck(env, false, 0);
            && (env.answers(last).Some? <==> exists k: nat :: k < Checks(env) && env.answers(k).Some?)
            && (env.answers(last).Some? ==> FirstFound(env, last))
  {
    LastCheckFrom(env, false, 0);
    LastCheckSettles(env, false);
    if k: nat :| k < Checks(env) && env.answers(k).Some? {
      assert Settles(env.answers(k), false);
    }
  }

  /** Waiting for one to disappear ends well exactly when one of the checks allowed finds nothing. */
  lemma {:induction false} GoneOnce(env: Env)
    ensures env.answers(LastCheck(env, true, 0)).None? <==> exists k: nat :: k < Checks(env) && env.answers(k).None?
  {
    LastCheckFrom(env, true, 0);
    LastCheckSettles(env, true);
    if k: nat :| k < Checks(env) && env.answers(k).None? {
      assert Settles(env.answers(k), true);
    }
  }

  /** An object that stays, waited for with a time-out of zero: it has not disappeared, and this is
      the one failure for which no error is set. */
  lemma {:induction false} StillThereWithoutTimeout(o: Object, rounds: nat)
    ensures var env := Env(_ => Some(o), 0, rounds);
            !Settled(env, true) && env.timeoutSeconds == 0 && env.answers(LastCheck(env, true, 0)) == Some(o)
  {
  }

  class Waiter {
    /** References to objects held by the calling thread. */
    var references: multiset<Object>
    var errorSet: bool
    /** Calls of user_data_free_func. */
    var freed: nat

    constructor ()
      ensures references == multiset{} && !errorSet && freed == 0
    {
      references, errorSet, freed := multiset{}, false, 0;
    }

    /** The wait function returns a full reference. */
    method WaitFunc(env: Env, check: nat) returns (ret: Option<Object>)
      modifies this`references
      ensures ret == env.answers(check)
      ensures references == old(references) + Of(ret)
    {
      ret := env.answers(check);
      if ret.Some? {
        references := references + multiset{ret.value};
      }
    }

    method Unref(o: Object)
      requires o in references
      modifies this`references
      ensures references == old(references) - multiset{o}
    {
      references := references - multiset{o};
    }

    /** Gives up the reference found by the check before. */
    method CheckAgain(env: Env, check: nat, found: Option<Object>, ghost before: multiset<Object>)
      returns (ret: Option<Object>)
      requires references == before + Of(found)
      modifies this`references
      ensures ret == env.answers(check)
      ensures references == before + Of(ret)
    {
      if found.Some? {
        Unref(found.value);
      }
      assert references == before;
      ret := WaitFunc(env, check);
    }

    /** wait_for_objects: besides the outcome, exactly the reference that is returned is added, and
        the user data is freed once. */
    method WaitForObjects(env: Env, toDisappear: bool) returns (ret: Option<Object>)
      requires !errorSet
      modifies this
      ensures ret == env.answers(LastCheck(env, toDisappear, 0))
      ensures errorSet <==> !Settles(ret, toDisappear) && env.timeoutSeconds > 0
      ensures references == old(references) + Of(ret)
      ensures freed == old(freed) + 1
    {
      var check := 0;
      ghost var last := LastCheck(env, toDisappear, 0);
      ghost var before := references;
      ret := WaitFunc(env, check);
      while !Settles(ret, toDisappear) && env.timeoutSeconds > 0
        invariant check < Checks(env) && ret == env.answers(check) && !errorSet
        invariant last == LastCheck(env, toDisappear, check)
        invariant references == before + Of(ret)
        invariant freed == old(freed)
        decreases Checks(env) - check
      {
        var timedOut := check + 1 >= env.rounds;
        if timedOut {
          assert last == check;
          errorSet := true;
          break;
        }
        assert last == LastCheck(env, toDisappear, check + 1);
        check := check + 1;
        ret := CheckAgain(env, check, ret, before);
      }
      assert last == check;
      freed := freed + 1;
    }

    /** udisks_daemon_wait_for_object_sync: the first object found by one of the checks allowed, if any. */
    method WaitForObject(env: Env) returns (ret: Option<Object>)
      requires !errorSet
      modifies this
      ensures ret.Some? <==> exists k: nat :: k < Checks(env) && env.answers(k).Some?
      ensures ret.Some? ==> exists k: nat :: FirstFound(env, k) && ret == env.answers(k)
      ensures references == old(references) + Of(ret)
      ensures errorSet <==> ret.None? && env.timeoutSeconds > 0
    {
      ret := WaitForObjects(env, false);
      FoundFirst(env);
    }

    /** udisks_daemon_wait_for_object_to_disappear_sync: no reference is left. */
    method WaitToDisappear(env: Env) returns (gone: bool)
      requires !errorSet
      modifies this
      ensures gone <==> exists k: nat :: k < Checks(env) && env.answers(k).None?
      ensures references == old(references)
      ensures errorSet <==> !gone && env.timeoutSeconds > 0
    {
      var found := WaitForObjects(env, true);
      if found.Some? {
        Unref(found.value);
      }
      GoneOnce(env);
      gone := found.None?;
    }
  }

  function Of(ret: Option<Object>): multiset<Object>
  {
    if ret.Some? then multiset{ret.value} else multiset{}
  }
}
