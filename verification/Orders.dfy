/** The maker's durable record of one listing, and the signed artifacts it keeps. */
module Orders {
  import opened Common
  import opened Leg

  /** A taker's signed proposal as the book handed it over. */
  datatype Intent = Intent(
    digest: nat,
    orderDigest: nat,
    takerEthAccount: Address,
    takerQrlAccount: Address,
    releaseCommitment: nat,
    issuedAt: int,
    expiresAt: int,
    receivedAt: int)

  /** A maker-signed FillV2: body plus authorization (`respondBy` is its expiry). */
  datatype Fill = Fill(
    orderDigest: nat,
    intentDigest: nat,
    takerEthAccount: Address,
    takerQrlAccount: Address,
    releaseCommitment: nat,
    hashlock: Hash,
    initiatorTimeout: int,
    responderTimeout: int,
    issuedAt: int,
    respondBy: int,
    nonce: nat)

  /** A maker-signed CancelV2. */
  datatype Cancel = Cancel(orderDigest: nat, reasonCode: nat, issuedAt: int, expiresAt: int, nonce: nat)

  datatype Prelock = Prelock(hashlock: Hash, initiatorTimeout: int)

  datatype Protocol = Protocol(
    orderDigest: nat,
    orderIssuedAt: int,
    orderExpiresAt: int,
    prelock: Option<Prelock>,
    fillAcknowledged: bool,
    releaseObserved: bool,
    selectedIntent: Option<Intent>,
    fillProof: Option<Fill>,
    cancelProof: Option<Cancel>)

  datatype Managed = Managed(
    id: nat,
    deployment: nat,
    protocol: Option<Protocol>,
    ethToQrl: bool,
    preimage: Option<Secret>,
    hashlock: Option<Hash>,
    initiatorTimeout: Option<int>,
    responderTimeout: Option<int>,
    announcedAt: Option<int>,
    takerEthAccount: Option<Address>,
    takerQrlAccount: Option<Address>,
    lockSentAt: Option<int>,
    claimSentAt: Option<int>,
    sponsorSentAt: Option<int>,
    refundSentAt: Option<int>,
    withdrawSentAt: Option<int>,
    pushSentAt: Option<int>,
    withdrawAttempts: nat,
    pushAttempts: nat,
    withdrawFirstRejectedAt: Option<int>,
    pushFirstRejectedAt: Option<int>)
  {
    predicate Filled() { protocol.Some? && protocol.value.fillProof.Some? }
    predicate Cancelled() { protocol.Some? && protocol.value.cancelProof.Some? }
    predicate Acknowledged() { protocol.Some? && protocol.value.fillAcknowledged }
    predicate Released() { protocol.Some? && protocol.value.releaseObserved }

    function TakerOnInitiatorLeg(): Option<Address> {
      if ethToQrl then takerEthAccount else takerQrlAccount
    }
  }

  // ---- admission accounting (admission.ts) ----

  const RETENTION_GRACE_S := 5 * 60
  const FILLED_LINGER_S := 24 * 3600

  function RetentionUntil(m: Managed, now: int): Option<int> {
    if m.protocol.None? then None else
      var p := m.protocol.value;
      var base := p.orderExpiresAt + RETENTION_GRACE_S + 1;
      var afterCancel := if p.cancelProof.Some? then Max(base, now + RETENTION_GRACE_S + 1) else base;
      Some(if p.fillProof.Some?
           then Max(afterCancel, p.fillProof.value.initiatorTimeout + FILLED_LINGER_S + 1)
           else afterCancel)
  }

  predicate CanRetireExpiredUnfundedQuote(m: Managed, now: int) {
    && m.protocol.Some?
    && var p := m.protocol.value;
    && p.orderExpiresAt <= now
    && p.selectedIntent.None? && p.fillProof.None? && p.cancelProof.None?
    && !p.fillAcknowledged && !p.releaseObserved && p.prelock.None?
    && m.preimage.None? && m.hashlock.None? && m.initiatorTimeout.None? && m.responderTimeout.None?
    && m.announcedAt.None? && m.takerEthAccount.None? && m.takerQrlAccount.None?
    && m.lockSentAt.None? && m.claimSentAt.None? && m.refundSentAt.None?
  }
}
