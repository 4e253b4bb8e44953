/** The division strategies: the policy an actor consults on every admission
    to decide between its own queue and its child. */
module Division {

  /** NoDivision never divides; NumberBasedDivison divides once the queue
      holds `queueLimit` messages. */
  datatype DivisionStrategy = NoDivision | NumberBasedDivison(queueLimit: int)

  /** isConditionValid: whether a queue of `queueSize` messages is overloaded.
      It reads only the size, so it cannot change any state. */
  predicate IsConditionValid(s: DivisionStrategy, queueSize: nat)
    ensures IsConditionValid(s, queueSize) ==> s.NumberBasedDivison?
    ensures s.NumberBasedDivison? ==> (IsConditionValid(s, queueSize) <==> queueSize >= s.queueLimit)
  {
    match s
    case NoDivision => false
    case NumberBasedDivison(limit) => queueSize >= limit
  }

  /** Whether the strategy's executeSendingStrategy/executeLoadingStrategy
      forward the batch to the child (NumberBasedDivison) rather than doing
      nothing (NoDivision). */
  predicate ForwardsToChild(s: DivisionStrategy)
  {
    s.NumberBasedDivison?
  }

  /** A strategy under which a freshly created child, whose queue is empty,
      accepts a message locally. Forwarding down the chain ends only for
      such strategies. */
  predicate ValidStrategy(s: DivisionStrategy)
  {
    s.NumberBasedDivison? ==> s.queueLimit >= 1
  }

  /** An empty queue is never overloaded under a well-formed strategy. */
  lemma EmptyQueueAccepts(s: DivisionStrategy)
    requires ValidStrategy(s)
    ensures !IsConditionValid(s, 0)
  {
  }

  /** With a limit of at most zero every queue is overloaded, the empty queue
      of a new child included: each load would create a child and forward to
      it again, without end. */
  lemma NonPositiveLimitAlwaysDivides(limit: int, n: nat)
    requires limit <= 0
    ensures IsConditionValid(NumberBasedDivison(limit), n)
    ensures !ValidStrategy(NumberBasedDivison(limit))
  {
  }
}
