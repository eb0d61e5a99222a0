/** A bounded retry of a fallible action: at most `budget` strictly sequential attempts,
    stopping at the first success. */
module RetryUtil {
  import opened Wrappers

  /** The outcome of the last attempt made, and how many attempts were made. */
  datatype Attempts<+T, +E> = Attempts(outcome: Result<T, E>, count: nat)

  /** Retrying `action` from attempt number `k` on (attempts are numbered from 0). */
  function RetryFrom<T, E>(budget: nat, action: nat -> Result<T, E>, k: nat): (a: Attempts<T, E>)
    requires k < budget
    ensures k < a.count <= budget
    ensures a.outcome == action(a.count - 1)
    ensures forall j :: k <= j < a.count - 1 ==> action(j).Failure?
    ensures a.outcome.Failure? ==> a.count == budget
    decreases budget - k
  {
    if action(k).Success? || k + 1 == budget then Attempts(action(k), k + 1)
    else RetryFrom(budget, action, k + 1)
  }

  /** The retry loop: try, and on failure try again while the budget lasts. */
  method Retry<T, E>(budget: nat, action: nat -> Result<T, E>) returns (r: Result<T, E>, attempts: nat)
    requires 0 < budget
    ensures Attempts(r, attempts) == RetryFrom(budget, action, 0)
  {
    r := action(0);
    attempts := 1;
    while r.Failure? && attempts < budget
      invariant 1 <= attempts <= budget
      invariant r == action(attempts - 1)
      invariant RetryFrom(budget, action, attempts - 1) == RetryFrom(budget, action, 0)
    {
      r := action(attempts);
      attempts := attempts + 1;
    }
  }

  /** An action that fails four times and then succeeds succeeds within a budget of five,
      after exactly five attempts. */
  lemma SucceedsOnFifthAttempt<T, E>(action: nat -> Result<T, E>)
    requires forall j :: 0 <= j < 4 ==> action(j).Failure?
    requires action(4).Success?
    ensures RetryFrom(5, action, 0) == Attempts(action(4), 5)
  {
  }

  /** An action that fails every time exhausts the budget and reports its last error. */
  lemma ExhaustsBudget<T, E>(budget: nat, action: nat -> Result<T, E>)
    requires 0 < budget
    requires forall j :: 0 <= j < budget ==> action(j).Failure?
    ensures RetryFrom(budget, action, 0) == Attempts(action(budget - 1), budget)
  {
  }
}
