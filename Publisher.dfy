/** The publisher behind `IKafkaProducerService`: a call either completes or
    throws. Which calls fail is not something the core decides, so it is an
    oracle fixed when the publisher is built: call number `n` (counting from
    0) succeeds unless `outcomes[n]` is false; calls past the end of the
    oracle succeed. */
module Publisher {
  import opened Models

  /** Whether call number `call` succeeds under the oracle. */
  predicate Accepts(outcomes: seq<bool>, call: nat)
  {
    call >= |outcomes| || outcomes[call]
  }

  /** Of `n` calls starting at call number `from`, how many succeed before the
      first failure (`n` when none fails). */
  function FirstRejection(outcomes: seq<bool>, from: nat, n: nat): (k: nat)
    ensures k <= n
    ensures forall call :: from <= call < from + k ==> Accepts(outcomes, call)
    ensures k < n ==> !Accepts(outcomes, from + k)
    decreases n
  {
    if n == 0 then 0
    else if !Accepts(outcomes, from) then 0
    else 1 + FirstRejection(outcomes, from + 1, n - 1)
  }

  /** A run of calls with no failing call is accepted in full. */
  lemma {:induction false} FirstRejectionAllAccepted(outcomes: seq<bool>, from: nat, n: nat)
    requires forall call :: from <= call < from + n ==> Accepts(outcomes, call)
    ensures FirstRejection(outcomes, from, n) == n
    decreases n
  {
    if n > 0 {
      assert Accepts(outcomes, from);
      FirstRejectionAllAccepted(outcomes, from + 1, n - 1);
    }
  }

  /** A publisher that has run out of failures accepts every further call. */
  lemma ExhaustedOracleAccepts(outcomes: seq<bool>, from: nat, n: nat)
    requires from >= |outcomes|
    ensures FirstRejection(outcomes, from, n) == n
  {
    FirstRejectionAllAccepted(outcomes, from, n);
  }

  class KafkaProducer {
    const outcomes: seq<bool>
    /** The number of calls made so far. */
    var calls: nat
    /** The cards whose notification went out, in order. */
    var delivered: seq<PaymentCard>

    constructor (outcomes: seq<bool>)
      ensures this.outcomes == outcomes && calls == 0 && delivered == []
    {
      this.outcomes := outcomes;
      calls := 0;
      delivered := [];
    }

    /** `SendCardExpirationNotificationAsync`: `ok` is false where the source throws. */
    method SendCardExpirationNotification(card: PaymentCard) returns (ok: bool)
      modifies this
      ensures ok == Accepts(outcomes, old(calls))
      ensures calls == old(calls) + 1
      ensures delivered == old(delivered) + if ok then [card] else []
    {
      ok := Accepts(outcomes, calls);
      calls := calls + 1;
      if ok {
        delivered := delivered + [card];
      }
    }
  }
}
