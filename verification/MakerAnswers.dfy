/**
 * When the maker's core gives each of its answers, written out in the fields of its
 * input: an answer for every attempt marker, so that whatever was sent and lost is
 * sent again.
 */
module MakerAnswers {
  import opened Common
  import opened Leg
  import opened Chains
  import opened Orders
  import opened MakerPolicy
  import MakerRun

  /** Never sent, or sent more than `after` seconds ago. */
  predicate MaySend(sentAt: Option<int>, now: int, after: int) {
    sentAt.Some? ==> now > sentAt.value + after
  }

  predicate HasTerms(m: Managed) {
    m.preimage.Some? && m.hashlock.Some? && m.initiatorTimeout.Some? && m.responderTimeout.Some?
  }

  predicate TakerLeft(x: Input) { x.released || x.managed.Released() }

  predicate BookIsOver(x: Input) { x.bookStatus == BookGone || x.bookStatus == BookCancelled }

  /** No lock was ever sent, and the leg, if it has a hashlock, reads empty. */
  predicate Untouched(x: Input) {
    && x.managed.lockSentAt == None
    && (x.managed.hashlock.Some? ==> x.iState.Some? && x.iState.value.status == NoSwap)
  }

  /** The chain decides: the terms are stored, the leg was read, and the order was
      neither dropped early nor is it still being coordinated. */
  predicate ChainGoverns(x: Input) {
    && HasTerms(x.managed) && x.iState.Some? && x.bookStatus != BookOpen && x.bookStatus != BookAccepted
    && (BookIsOver(x) || TakerLeft(x) ==> !Untouched(x))
  }

  /** Rejected five times, the first time at least a day ago. */
  predicate GivenUp(rejections: nat, first: Option<int>, now: int) {
    rejections >= 5 && first.Some? && now >= first.value + 86400
  }

  // ---- before the chain decides ----

  /** The book's own phases, incomplete records and unread legs never move anything. */
  lemma CoordinationAnswers(x: Input)
    requires !(BookIsOver(x) && Untouched(x)) && !(TakerLeft(x) && Untouched(x))
    ensures x.bookStatus == BookOpen ==> Decide(x) == Wait
    ensures x.bookStatus == BookAccepted ==> Decide(x) == Announce
    ensures x.bookStatus != BookOpen && x.bookStatus != BookAccepted && (!HasTerms(x.managed) || x.iState.None?) ==>
              Decide(x) == Wait
  {
  }

  // ---- claims, locks, refunds ----

  lemma ClaimExactly(x: Input)
    requires ChainGoverns(x)
    ensures Decide(x) == ClaimLeg <==>
      && x.iState.value.status == Open && x.rState.Some? && x.rState.value.status == Open
      && x.rConfirmed.Some? && x.rConfirmed.value.status == Open
      && x.rConfirmed.value.recipient == x.expectedRecipient && x.rConfirmed.value.amount == x.expectedAmount
      && x.rConfirmed.value.token == x.expectedToken
      && x.now + x.claimSafetyS < x.rConfirmed.value.timeout
      && x.now + x.claimSafetyS < x.managed.responderTimeout.value
      && MaySend(x.managed.claimSentAt, x.now, x.resendAfterS)
  {
  }

  lemma SponsorExactly(x: Input)
    requires ChainGoverns(x)
    ensures Decide(x) == Sponsor <==>
      && x.sponsorClaims && x.iState.value.status == Open
      && x.iState.value.initiator == x.ourInitiator && Some(x.iState.value.recipient) == x.takerOnInitiatorLeg
      && x.rConfirmed.Some? && x.rConfirmed.value.status == Claimed
      && x.now + x.sponsorMarginS < x.iState.value.timeout
      && MaySend(x.managed.sponsorSentAt, x.now, x.resendAfterS)
  {
  }

  lemma LockExactly(x: Input)
    requires ChainGoverns(x)
    ensures Decide(x) == LockLeg <==>
      && x.iState.value.status == NoSwap && x.bookStatus == BookLocking && !TakerLeft(x)
      && (x.managed.protocol.Some? ==> x.managed.protocol.value.fillAcknowledged)
      && (if x.managed.announcedAt.Some? then x.now >= x.managed.announcedAt.value + x.lockGraceS
          else x.now >= x.lockGraceS)
      && x.now + x.claimSafetyS < x.managed.responderTimeout.value
      && MaySend(x.managed.lockSentAt, x.now, x.resendAfterS)
  {
  }

  /** On its own or anybody's open lock, past the record's deadline; under the window
      rules a claim or a sponsored claim is over by then. */
  lemma RefundExactly(x: Input)
    requires ChainGoverns(x) && x.claimSafetyS >= 0 && x.sponsorMarginS >= 0
    requires x.managed.responderTimeout.value <= x.managed.initiatorTimeout.value
    requires x.iState.value.initiator == x.ourInitiator ==> x.iState.value.timeout <= x.managed.initiatorTimeout.value
    ensures Decide(x) == RefundLeg <==>
      && x.iState.value.status == Open && x.now >= x.managed.initiatorTimeout.value
      && MaySend(x.managed.refundSentAt, x.now, x.resendAfterS)
  {
  }

  // ---- credits and retirement ----

  predicate OwnCreditWaits(x: Input) {
    && ((x.ourResponderCredit.Some? && x.ourResponderCredit.value > 0)
        || (x.ourInitiatorCredit.Some? && x.ourInitiatorCredit.value > 0))
    && !GivenUp(x.managed.withdrawAttempts, x.managed.withdrawFirstRejectedAt, x.now)
  }

  predicate FundedForTaker(x: Input) {
    && x.iState.Some? && x.iState.value.initiator == x.ourInitiator
    && Some(x.iState.value.recipient) == x.takerOnInitiatorLeg
  }

  predicate TakerCreditIsOurs(x: Input) { x.sponsorClaims && FundedForTaker(x) && x.iState.value.status == Claimed }

  /** A settled order first collects what can still be collected for the maker, then
      what it owes the taker, each in its own spacing. */
  lemma CreditMovesExactly(x: Input)
    requires ChainGoverns(x) && Terminal(x.iState.value)
    ensures Decide(x) == WithdrawCredit <==>
      && OwnCreditWaits(x)
      && MaySend(x.managed.withdrawSentAt, x.now, CreditRetryAfterS(x.managed.withdrawAttempts, x.resendAfterS))
    ensures Decide(x) == PushCredit <==>
      && Decide(x) != WithdrawCredit
      && TakerCreditIsOurs(x) && x.takerCredit.Some? && x.takerCredit.value > 0
      && !GivenUp(x.managed.pushAttempts, x.managed.pushFirstRejectedAt, x.now)
      && MaySend(x.managed.pushSentAt, x.now, CreditRetryAfterS(x.managed.pushAttempts, x.resendAfterS))
  {
  }

  /** Finished: our leg settled, the other one settled or untouched past its window, and
      every credit the maker answers for read as zero or given up. */
  lemma FinishExactly(x: Input)
    requires ChainGoverns(x)
    ensures Decide(x) == Finish <==>
      && Terminal(x.iState.value) && x.rState.Some?
      && (Terminal(x.rState.value)
          || (x.rState.value.status == NoSwap && x.now >= x.managed.responderTimeout.value))
      && (GivenUp(x.managed.withdrawAttempts, x.managed.withdrawFirstRejectedAt, x.now)
          || (x.ourResponderCredit == Some(0) && x.ourInitiatorCredit == Some(0)))
      && (TakerCreditIsOurs(x) ==>
            GivenUp(x.managed.pushAttempts, x.managed.pushFirstRejectedAt, x.now) || x.takerCredit == Some(0))
  {
  }

  /** Dropped: nothing of ours can be on chain, and the listing is over, the taker left,
      or the taker's window closed on an empty leg with nothing to collect. */
  lemma AbortExactly(x: Input)
    requires x.claimSafetyS >= 0
    ensures Decide(x) == Abort <==>
      && Untouched(x)
      && (BookIsOver(x) || TakerLeft(x)
          || (HasTerms(x.managed) && x.bookStatus == BookLocking && x.now >= x.managed.responderTimeout.value
              && !(OwnCreditWaits(x)
                   && MaySend(x.managed.withdrawSentAt, x.now,
                              CreditRetryAfterS(x.managed.withdrawAttempts, x.resendAfterS)))))
  {
  }

  /** The spacing of credit moves starts at the resend interval and doubles with every
      rejection up to an hour. */
  lemma {:induction false} RetryDoubles(rejections: nat, resendAfterS: nat)
    ensures CreditRetryAfterS(0, resendAfterS) == Min(resendAfterS, 3600)
    ensures CreditRetryAfterS(rejections + 1, resendAfterS)
         == Min(2 * CreditRetryAfterS(rejections, resendAfterS), 3600)
  {
    assert Pow2(rejections + 1) == 2 * Pow2(rejections);
    assert resendAfterS * (2 * Pow2(rejections)) == 2 * (resendAfterS * Pow2(rejections));
    assert resendAfterS * Pow2(0) == resendAfterS;
  }

  // ---- a lost claim is sent again ----

  /** This tick's honest reads of a run's state. */
  predicate HonestReads(e: MakerRun.Setup, w: MakerRun.World, x: Input) {
    && w.disk == Some(x.managed) && x.now == w.now && w.initiator.Ok() && w.responder.Ok()
    && x.iState == Some(w.initiator.Head()) && x.rState == Some(w.responder.Head())
    && x.rConfirmed == Some(w.responder.Deep())
    && x.expectedRecipient == e.payee && x.expectedAmount == e.toAmount && x.expectedToken == e.toToken
    && x.claimSafetyS == e.claimSafetyS && x.bookStatus == BookLocking
  }

  /** In any run: a claim was marked as sent, but nothing left the process. The confirmed
      escrow still pays the maker and our own leg still stands. Then every tick past the
      spacing and inside both margins answers with the claim again, and none before it. */
  lemma LostClaimIsResent(e: MakerRun.Setup, ws: seq<MakerRun.World>, steps: seq<MakerRun.Event>, n: nat, x: Input)
    requires MakerRun.Run(e, ws, steps) && n < |ws| && HonestReads(e, ws[n], x)
    requires x.managed.Filled() && x.managed.hashlock == Some(e.h) && x.managed.claimSentAt.Some?
    requires !ws[n].revealed
    requires x.iState.value.status == Open
    requires x.rConfirmed.value.status == Open && MakerRun.PaysMaker(e, x.rConfirmed.value)
    requires x.now + x.claimSafetyS < Min(x.rConfirmed.value.timeout, x.managed.responderTimeout.GetOr(0))
    requires x.claimSafetyS >= 0
    ensures Decide(x) == ClaimLeg <==> x.now > x.managed.claimSentAt.value + x.resendAfterS
  {
    MakerRun.RunKeeps(e, ws, steps, n);
    Views(ws[n].responder, ws[n].responder.final, ws[n].now, ws[n].revealed);
    ClaimExactly(x);
  }

  /** The same for a lock, a refund and a sponsored claim: the marker only spaces the
      answer, whatever happened to the transaction. */
  lemma MarkersOnlySpace(x: Input, y: Input, d: Decision)
    requires ChainGoverns(x) && d == Decide(x) && (d == ClaimLeg || d == LockLeg || d == RefundLeg || d == Sponsor)
    requires y == x.(managed := x.managed.(claimSentAt := y.managed.claimSentAt, lockSentAt := y.managed.lockSentAt,
                                           refundSentAt := y.managed.refundSentAt,
                                           sponsorSentAt := y.managed.sponsorSentAt))
    requires MaySend(y.managed.claimSentAt, y.now, y.resendAfterS)
    requires MaySend(y.managed.lockSentAt, y.now, y.resendAfterS)
    requires MaySend(y.managed.refundSentAt, y.now, y.resendAfterS)
    requires MaySend(y.managed.sponsorSentAt, y.now, y.resendAfterS)
    requires d == RefundLeg ==> MaySend(x.managed.claimSentAt, x.now, x.resendAfterS)
                                && MaySend(x.managed.sponsorSentAt, x.now, x.resendAfterS)
    ensures Decide(y) == d
  {
  }

  // ---- the book ----

  /** While money is or may be locked the order needs no book to be settled. */
  lemma ExposedNeedsNoBook(e: MakerRun.Setup, ws: seq<MakerRun.World>, steps: seq<MakerRun.Event>, n: nat,
                           iState: Option<LegState>)
    requires MakerRun.Run(e, ws, steps) && n < |ws| && ws[n].disk.Some? && MakerRun.Exposed(e, ws[n])
    ensures CanContinueWithoutBook(ws[n].disk.value, iState)
  {
    MakerRun.RunKeeps(e, ws, steps, n);
    assert MakerRun.OurEntry(e, ws[n], ws[n].initiator.Head());
  }

  /** An order with nothing acknowledged, sent or seen on chain waits for its book. */
  lemma UnexposedNeedsBook(m: Managed, iState: Option<LegState>)
    ensures CanContinueWithoutBook(m, iState) <==>
      !( m.lockSentAt.None? && (m.protocol.Some? ==> !m.protocol.value.fillAcknowledged)
         && (iState.Some? ==> iState.value.status == NoSwap) )
  {
  }

  /** A listing nothing ever happened to. */
  function Pristine(m: Managed): Managed
    requires m.protocol.Some?
  {
    m.(protocol := Some(m.protocol.value.(prelock := None, fillAcknowledged := false, releaseObserved := false,
                                          selectedIntent := None, fillProof := None, cancelProof := None)),
       preimage := None, hashlock := None, initiatorTimeout := None, responderTimeout := None, announcedAt := None,
       takerEthAccount := None, takerQrlAccount := None, lockSentAt := None, claimSentAt := None, refundSentAt := None)
  }

  /** Only such listings expire by themselves. */
  lemma OnlyPristineExpire(m: Managed, now: int)
    ensures CanRetireExpiredUnfundedQuote(m, now) <==>
      m.protocol.Some? && now >= m.protocol.value.orderExpiresAt && m == Pristine(m)
  {
  }

  /** Retention is the least time that covers the listing's grace, a cancellation's grace
      from now, and a day past a fill's own deadline. */
  lemma RetentionIsLeast(m: Managed, now: int, until: int)
    requires m.protocol.Some?
    ensures RetentionUntil(m, now).Some?
    ensures RetentionUntil(m, now).value <= until <==>
      && m.protocol.value.orderExpiresAt + 300 < until
      && (m.Cancelled() ==> now + 300 < until)
      && (m.Filled() ==> m.protocol.value.fillProof.value.initiatorTimeout + 86400 < until)
  {
  }
}
