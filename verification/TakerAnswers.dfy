/**
 * When the taker's core gives each of its answers, written out in the fields of its
 * input and in the accounts, amounts and deadlines of the signed order.
 */
module TakerAnswers {
  import opened Common
  import opened Leg
  import opened TakerPolicy

  // ---- the plan is the order ----

  /** Who is paid what, where and until when, said of the order's own fields: the maker
      escrows `fromAmount` for the taker, the taker `toAmount` for the maker, each on the
      leg the direction names, in the asset on Ethereum and the native coin on QRL. */
  lemma PlansAreTheOrder(x: PlanInput)
    ensures var p := TakerLegPlans(x);
      && p.initiator.amount == x.fromAmount && p.responder.amount == x.toAmount
      && p.initiator.timeout == x.initiatorTimeout && p.responder.timeout == x.responderTimeout
      && (x.ethToQrl ==>
            p.initiator.leg == Eth && p.initiator.recipient == x.takerEthAccount
            && p.initiator.expectedToken == x.assetToken
            && p.responder.leg == Qrl && p.responder.recipient == x.makerQrlAccount && p.responder.expectedToken == 0)
      && (!x.ethToQrl ==>
            p.initiator.leg == Qrl && p.initiator.recipient == x.takerQrlAccount && p.initiator.expectedToken == 0
            && p.responder.leg == Eth && p.responder.recipient == x.makerEthAccount
            && p.responder.expectedToken == x.assetToken)
  {
  }

  /** Reversing the direction swaps the legs and keeps everybody's own accounts. */
  lemma DirectionsMirror(x: PlanInput)
    ensures var p, q := TakerLegPlans(x), TakerLegPlans(x.(ethToQrl := !x.ethToQrl));
      p.initiator.leg == q.responder.leg != p.responder.leg == q.initiator.leg
  {
  }

  // ---- the escrow checks ----

  /** An escrow that pays this plan and outlives `until`. */
  predicate PaysPlan(s: LegState, plan: LegPlan, until: int) {
    && s.status == Open && s.recipient != 0 && s.recipient == plan.recipient
    && s.token == plan.expectedToken && s.amount == plan.amount && s.timeout >= until
  }

  lemma MakerLockExactly(s: Option<LegState>, plan: LegPlan, t2: int, margin: int, prelocked: bool)
    ensures var c := CheckMakerLock(s, plan, t2, margin, prelocked);
      && (c == MakerOk <==> s.Some? && PaysPlan(s.value, plan, t2 + margin))
      && (c == MakerAbsent <==> s.Some? ==> s.value.status == NoSwap)
      && (c == MakerSettled <==> s.Some? && Terminal(s.value))
      && (c == AwaitingAssign <==> s.Some? && s.value.status == Open && s.value.recipient == 0 && prelocked)
  {
  }

  lemma OwnLockExactly(s: Option<LegState>, plan: LegPlan, us: Address)
    ensures var c := CheckOwnLock(s, plan, us);
      && (c == OwnAbsent <==> s.Some? ==> s.value.status == NoSwap)
      && (c == Foreign <==> s.Some? && s.value.status != NoSwap && s.value.initiator != us)
      && (c == OwnSettled <==> s.Some? && Terminal(s.value) && s.value.initiator == us)
      && (c == Ours <==> s.Some? && s.value.status == Open && s.value.initiator == us
                         && s.value.token == plan.expectedToken && s.value.recipient == plan.recipient
                         && s.value.amount == plan.amount)
  {
  }

  /** What the verdict reports about the two escrows, with or without a fill. */
  lemma ReportsExactly(x: Input)
    ensures DecideTaker(x).makerLock == MakerOk <==>
      && x.iConfirmed.Some?
      && PaysPlan(x.iConfirmed.value, x.plans.initiator,
                  (if x.fill.Some? then x.fill.value.responderTimeout else 0) + x.claimSafetyS)
    ensures DecideTaker(x).ownLock == CheckOwnLock(x.rState, x.plans.responder, x.ourResponderAddress)
  {
  }

  // ---- before there is a fill ----

  predicate MaySend(sentAt: Option<int>, now: int, after: int) {
    sentAt.Some? ==> now > sentAt.value + after
  }

  /** An escrow of ours is or may be on our leg. */
  predicate Committed(x: Input) {
    || x.record.lockSentAt.Some?
    || (x.rState.Some? && x.rState.value.status != NoSwap && x.rState.value.initiator == x.ourResponderAddress)
  }

  /** The take is over before anything moved. */
  predicate Over(x: Input) {
    && !Committed(x)
    && (x.abandonRequested || x.cancelled || x.released || x.bookStatus == BookCancelled || x.bookStatus == BookGone)
  }

  lemma ReleaseExactly(x: Input)
    ensures Decide(x) == Release <==>
      !Committed(x) && x.abandonRequested && x.record.releaseSentAt.None? && x.record.intentSubmittedAt.Some?
  {
  }

  lemma ProposeExactly(x: Input)
    ensures Decide(x) == Propose <==>
      && !Committed(x) && !Over(x) && x.fill.None? && x.bookStatus != BookLocking
      && (x.intentExpiresAt.Some? ==> x.intentExpiresAt.value <= x.now)
  {
  }

  // ---- with a fill ----

  /** The terms are signed, our own leg was read, and the take is not over. */
  predicate ChainGoverns(x: Input) { x.fill.Some? && x.rState.Some? && !Over(x) }

  predicate MakerOpen(x: Input) { x.iState.Some? && x.iState.value.status == Open }

  predicate MakerIsSettled(x: Input) { x.iState.Some? && Terminal(x.iState.value) }

  predicate CreditDue(x: Input) {
    && ((x.initiatorCredit.Some? && x.initiatorCredit.value > 0)
        || (x.responderCredit.Some? && x.responderCredit.value > 0))
    && MaySend(x.record.withdrawSentAt, x.now, x.resendAfterS)
  }

  /** The secret is public and the maker escrow still open. */
  predicate PayoutOpen(x: Input) { x.rState.Some? && x.rState.value.preimage != 0 && MakerOpen(x) }

  lemma ClaimExactly(x: Input)
    requires ChainGoverns(x)
    ensures Decide(x) == Claim <==>
      && PayoutOpen(x) && x.now + x.claimSubmitMarginS < x.iState.value.timeout
      && MaySend(x.record.claimSentAt, x.now, x.resendAfterS)
    ensures DecideTaker(x).revealedPreimage ==
      (if x.rState.value.preimage == 0 then None else Some(x.rState.value.preimage))
  {
  }

  lemma WithdrawExactly(x: Input)
    requires ChainGoverns(x)
    ensures Decide(x) == Withdraw <==>
      && CreditDue(x)
      && (PayoutOpen(x) ==> x.now + x.claimSubmitMarginS < x.iState.value.timeout
                            && !MaySend(x.record.claimSentAt, x.now, x.resendAfterS))
    ensures DecideTaker(x).creditLeg ==
      (if x.initiatorCredit.Some? && x.initiatorCredit.value > 0 then Some(x.plans.initiator.leg)
       else if x.responderCredit.Some? && x.responderCredit.value > 0 then Some(x.plans.responder.leg) else None)
  {
  }

  lemma FinishExactly(x: Input)
    requires ChainGoverns(x) && x.claimSubmitMarginS >= 0
    ensures Decide(x) == Finish <==>
      && Terminal(x.rState.value) && x.initiatorCredit == Some(0) && x.responderCredit == Some(0)
      && (MakerIsSettled(x) || (MakerOpen(x) && x.rState.value.preimage == 0 && x.now >= x.iState.value.timeout))
  {
  }

  /** Any open escrow of ours, whatever its terms, and whatever was sent before. */
  lemma RefundExactly(x: Input)
    requires ChainGoverns(x) && (x.rState.value.status == Open ==> x.rState.value.preimage == 0)
    ensures Decide(x) == Refund <==>
      && x.rState.value.status == Open && x.rState.value.initiator == x.ourResponderAddress
      && x.now >= x.rState.value.timeout && !CreditDue(x)
      && MaySend(x.record.refundSentAt, x.now, x.resendAfterS)
  {
  }

  lemma LockExactly(x: Input)
    requires ChainGoverns(x) && (x.rState.value.status == NoSwap ==> x.rState.value.preimage == 0)
    ensures Decide(x) == Lock <==>
      && x.rState.value.status == NoSwap && !CreditDue(x) && !MakerIsSettled(x)
      && x.record.fillAcknowledged && !x.released && !x.cancelled
      && x.now + x.lockRunwayS < x.fill.value.responderTimeout
      && x.iConfirmed.Some?
      && PaysPlan(x.iConfirmed.value, x.plans.initiator, x.fill.value.responderTimeout + x.claimSafetyS)
      && MaySend(x.record.lockSentAt, x.now, x.resendAfterS)
  {
  }

  /** Present at depth but not what was agreed. */
  predicate WrongEscrow(x: Input) {
    && x.fill.Some? && x.iConfirmed.Some? && x.iConfirmed.value.status != NoSwap
    && !PaysPlan(x.iConfirmed.value, x.plans.initiator, x.fill.value.responderTimeout + x.claimSafetyS)
    && !(x.iConfirmed.value.status == Open && x.iConfirmed.value.recipient == 0 && x.prelocked)
  }

  lemma AbortExactly(x: Input)
    requires x.rState.Some? && x.rState.value.status == NoSwap ==> x.rState.value.preimage == 0
    ensures Decide(x) == Abort <==>
      || (Over(x) && !(x.abandonRequested && x.record.releaseSentAt.None? && x.record.intentSubmittedAt.Some?))
      || (!Over(x) && !Committed(x) && x.fill.None? && x.bookStatus == BookLocking)
      || (ChainGoverns(x) && ForeignLeg(x) && !CreditDue(x)
          && !(PayoutOpen(x)
               && (x.now + x.claimSubmitMarginS >= x.iState.value.timeout
                   || MaySend(x.record.claimSentAt, x.now, x.resendAfterS)))
          && !(Terminal(x.rState.value)
               && (MakerIsSettled(x) || (MakerOpen(x) && x.now >= x.iState.value.timeout))))
      || (ChainGoverns(x) && !Committed(x) && x.rState.value.status == NoSwap && !CreditDue(x)
          && (MakerIsSettled(x)
              || (x.record.fillAcknowledged && !x.released && !x.cancelled
                  && (x.now + x.lockRunwayS >= x.fill.value.responderTimeout || WrongEscrow(x)))))
  {
  }

  predicate ForeignLeg(x: Input) {
    x.rState.Some? && x.rState.value.status != NoSwap && x.rState.value.initiator != x.ourResponderAddress
  }

  // ---- configuration ----

  /** The margin is the transaction timeout in whole seconds, rounded up, plus a minute. */
  lemma MarginCoversTimeout(txTimeoutMs: nat)
    ensures var m := ClaimSubmitMarginS(txTimeoutMs); (m - 61) * 1000 < txTimeoutMs <= (m - 60) * 1000
  {
  }
}
