/** The per-share tests of the importer, on integer cents: which participants
    of a row get an allocation, when a share forces the row to BY_AMOUNT, and
    the explicit amount such a share receives. */
module Split {

  function Abs(x: int): (r: nat)
    ensures r == x || r == -x
  {
    if x < 0 then -x else x
  }

  /** Math.floor of half the cost: the largest whole cent not above c / 2. */
  function HalfFloor(c: int): (r: int)
    ensures 2 * r <= c < 2 * r + 2
  {
    c / 2
  }

  /** Math.ceil of half the cost: the smallest whole cent not below c / 2. */
  function HalfCeil(c: int): (r: int)
    ensures 2 * r - 2 < c <= 2 * r
  {
    (c + 1) / 2
  }

  /** Math.round of half the cost: the nearest whole cent to c / 2, a tie
      going upward. */
  function HalfRound(c: int): (r: int)
    ensures c <= 2 * r <= c + 1
  {
    (c + 1) / 2
  }

  /** The BY_AMOUNT test exactly as the importer writes it, eight conjuncts
      over the share, its absolute value and the three halves of the cost. */
  predicate TriggersAsWritten(share: int, cost: int) {
    var absVal, halfRound, halfFloor, halfCeil := Abs(share), HalfRound(cost), HalfFloor(cost), HalfCeil(cost);
    && share != 0
    && (absVal != halfRound || absVal != halfCeil || absVal == halfFloor)
    && (absVal != halfFloor || absVal != halfCeil || absVal == halfRound)
    && (absVal != halfFloor || absVal != halfRound || absVal == halfCeil)
    && absVal != cost
    && absVal != halfRound
    && absVal != halfFloor
    && absVal != halfCeil
  }

  /** The effective BY_AMOUNT test: a nonzero share whose magnitude is
      neither the cost nor one of the halves of the cost. */
  predicate TriggersByAmount(share: int, cost: int) {
    share != 0 && Abs(share) != cost
    && Abs(share) != HalfRound(cost) && Abs(share) != HalfFloor(cost) && Abs(share) != HalfCeil(cost)
  }

  /** The three disjunctive conjuncts of the written test add nothing. */
  lemma AsWrittenIsEffective(share: int, cost: int)
    ensures TriggersAsWritten(share, cost) <==> TriggersByAmount(share, cost)
  {
  }

  /** On cents the candidates collapse: a share triggers iff it is nonzero,
      its magnitude is not the cost, and twice its magnitude is more than one
      cent away from the cost. */
  lemma TriggersByAmountOnCents(share: int, cost: int)
    ensures TriggersByAmount(share, cost) <==>
              share != 0 && Abs(share) != cost && !(cost - 1 <= 2 * Abs(share) <= cost + 1)
  {
    var a := Abs(share);
    if cost - 1 <= 2 * a <= cost + 1 {
      assert a == HalfFloor(cost) || a == HalfCeil(cost);
    }
  }

  /** The three half-cost candidates agree exactly when the cost is a whole
      number of double cents. */
  lemma HalvesAgreeIffEven(cost: int)
    ensures (HalfFloor(cost) == HalfRound(cost) == HalfCeil(cost)) <==> cost % 2 == 0
  {
  }

  /** A clean half of an even cost never triggers BY_AMOUNT. */
  lemma EvenHalfStaysEvenly(share: int, cost: int)
    requires cost % 2 == 0 && Abs(share) == cost / 2
    ensures !TriggersByAmount(share, cost)
  {
  }

  /** Who gets an allocation record: on a reimbursement the participants who
      received money, otherwise everyone with a nonzero share other than one
      equal to the whole cost. */
  predicate IsRecipient(share: int, cost: int, isPayment: bool) {
    if isPayment then share < 0 else share != 0 && share != cost
  }

  /** A triggering share has an allocation except on a reimbursement when it
      is positive, or on an ordinary row when it equals a negative cost. */
  lemma TriggerHasAllocation(share: int, cost: int, isPayment: bool)
    requires TriggersByAmount(share, cost)
    ensures IsRecipient(share, cost, isPayment) <==>
              (if isPayment then share < 0 else share != cost)
    ensures !isPayment && cost >= 0 ==> IsRecipient(share, cost, isPayment)
  {
  }

  /** The explicit amount, in cents, of a share that forced BY_AMOUNT: what
      the payer did not cover, or what any other participant owes. */
  function ExplicitShare(share: int, cost: int): int {
    if share > 0 then cost - share else Abs(share)
  }

  /** An export's share is what a participant paid minus what they owe, and
      on an ordinary row only the payer paid, the whole cost. The explicit
      amount is then exactly what the participant owes, payer included. */
  lemma ExplicitShareIsOwed(paid: int, owed: int, cost: int)
    requires paid == 0 || paid == cost
    requires (paid - owed > 0) <==> paid == cost
    ensures ExplicitShare(paid - owed, cost) == owed
  {
  }
}
