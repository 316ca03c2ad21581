/** The fetch loop of `stack()`: up to three executions of the query, where an
    `OperationalError` leads to another attempt and any other exception leaves
    the function. What each execution does is given, in order, as a sequence
    of attempt outcomes. */
module FetchRetry {
  import opened Values

  /** `for _ in range(3)`. */
  const MaxAttempts: nat := 3

  /** What one execution of the query does. */
  datatype Attempt =
    | Fetched(tuples: seq<seq<Value>>)   // execute and fetchall return the tuples
    | OperationalError                   // swallowed by `except OperationalError: pass`
    | Failed(exception: string)          // any other exception, re-raised

  /** How the loop ends, and after how many attempts. */
  datatype FetchOutcome =
    | Rows(tuples: seq<seq<Value>>, attempts: nat)   // `break` after a success
    | Propagated(exception: string, attempts: nat)   // a non-operational error escaped
    | Exhausted                                      // every attempt failed: `res` is never bound

  /** Attempt `a` is the first one that did not fail with an OperationalError. */
  ghost predicate FirstDecisive(outcomes: seq<Attempt>, a: nat) {
    && a < MaxAttempts
    && a < |outcomes|
    && !outcomes[a].OperationalError?
    && forall b :: 0 <= b < a ==> outcomes[b].OperationalError?
  }

  /** The loop from attempt number `made` on. */
  function FetchFrom(outcomes: seq<Attempt>, made: nat): (r: FetchOutcome)
    requires made <= MaxAttempts <= |outcomes|
    ensures r.Exhausted? <==> forall a :: made <= a < MaxAttempts ==> outcomes[a].OperationalError?
    ensures !r.Exhausted? ==>
              && made < r.attempts <= MaxAttempts
              && !outcomes[r.attempts - 1].OperationalError?
              && (forall a :: made <= a < r.attempts - 1 ==> outcomes[a].OperationalError?)
              && (r.Rows? <==> outcomes[r.attempts - 1].Fetched?)
              && (r.Rows? ==> r.tuples == outcomes[r.attempts - 1].tuples)
              && (r.Propagated? ==> r.exception == outcomes[r.attempts - 1].exception)
    decreases MaxAttempts - made
  {
    if made == MaxAttempts then Exhausted
    else
      match outcomes[made]
      case Fetched(tuples) => Rows(tuples, made + 1)
      case OperationalError => FetchFrom(outcomes, made + 1)
      case Failed(e) => Propagated(e, made + 1)
  }

  /** The whole loop. It stops at the first attempt that is not an
      OperationalError, with that attempt's rows or exception; when all three
      attempts fail that way it ends without rows. */
  function Fetch(outcomes: seq<Attempt>): (r: FetchOutcome)
    requires |outcomes| >= MaxAttempts
    ensures r.Exhausted? <==> forall a :: 0 <= a < MaxAttempts ==> outcomes[a].OperationalError?
    ensures forall a: nat :: FirstDecisive(outcomes, a) ==>
              && r.attempts == a + 1
              && (outcomes[a].Fetched? ==> r == Rows(outcomes[a].tuples, a + 1))
              && (outcomes[a].Failed? ==> r == Propagated(outcomes[a].exception, a + 1))
  {
    var r := FetchFrom(outcomes, 0);
    assert !r.Exhausted? ==> FirstDecisive(outcomes, r.attempts - 1);
    assert forall a: nat :: FirstDecisive(outcomes, a) ==> !r.Exhausted? && a == r.attempts - 1;
    r
  }
}
