/**
 * One hashlock's record on one chain (`getSwap`), and the only ways the HTLCv3
 * contract lets it change. Addresses and secrets are words; word zero is the
 * contract's "unset" marker for both.
 */
module Leg {

  type Address = nat
  type Secret = nat
  type Hash = nat

  datatype Status = NoSwap | Open | Claimed | Refunded

  datatype LegState = LegState(
    status: Status,
    initiator: Address,
    recipient: Address,
    token: Address,
    amount: nat,
    timeout: int,
    preimage: Secret)

  const NO_SWAP := LegState(NoSwap, 0, 0, 0, 0, 0, 0)

  predicate Terminal(s: LegState) {
    s.status == Claimed || s.status == Refunded
  }

  /** Everything fixed once a lock has a recipient. */
  predicate SameTerms(s: LegState, t: LegState) {
    && s.initiator == t.initiator && s.recipient == t.recipient && s.token == t.token
    && s.amount == t.amount && s.timeout == t.timeout
  }

  /** A lock lands on an unused hashlock. Only its sender becomes the initiator. */
  predicate LockStep(s: LegState, t: LegState, now: int) {
    && s.status == NoSwap
    && t.status == Open && t.amount > 0 && t.timeout > now && t.preimage == 0
  }

  predicate AssignStep(s: LegState, t: LegState, now: int) {
    && s.status == Open && s.recipient == 0 && now < s.timeout
    && t.recipient != 0 && t == s.(recipient := t.recipient)
  }

  predicate ClaimStep(H: Secret -> Hash, h: Hash, s: LegState, t: LegState, now: int) {
    && s.status == Open && s.recipient != 0 && now < s.timeout
    && H(t.preimage) == h && t == s.(status := Claimed, preimage := t.preimage)
  }

  predicate RefundStep(s: LegState, t: LegState, now: int) {
    && s.status == Open && (now >= s.timeout || s.recipient == 0)
    && t == s.(status := Refunded)
  }

  /** Any move the contract allows at time `now`; claiming needs the secret. */
  predicate Step(H: Secret -> Hash, h: Hash, s: LegState, t: LegState, now: int, known: bool) {
    || LockStep(s, t, now)
    || AssignStep(s, t, now)
    || (known && ClaimStep(H, h, s, t, now))
    || RefundStep(s, t, now)
  }

  // ---- a record over time ----

  /** What a later view `b` of the record can be, once it was seen as `a`. */
  predicate Later(a: LegState, b: LegState, now: int, revealed: bool) {
    && (Terminal(a) ==> b == a)
    && (b.status == Claimed ==> revealed)
    && (a.status != NoSwap ==> b.status != NoSwap && b.initiator == a.initiator)
    && (a.status == Open && a.recipient != 0 ==>
          (SameTerms(a, b) && (b.status == Refunded ==> now >= a.timeout)))
  }

  lemma LaterThenStep(H: Secret -> Hash, h: Hash, a: LegState, b: LegState, c: LegState, now: int, revealed: bool)
    requires Later(a, b, now, revealed) && Step(H, h, b, c, now, revealed)
    ensures Later(a, c, now, revealed)
  {
  }

  /** A claim transaction against this record would go through at `now`. */
  predicate Claimable(s: LegState, now: int) {
    s.status == Open && s.recipient != 0 && now < s.timeout
  }
}
