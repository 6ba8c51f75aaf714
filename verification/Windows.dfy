/**
 * The FillV2 window rules. Three places state them: the signer (protocol-signing.ts),
 * the maker's hydration (state.ts) and the taker's binding check (taker-proofs.ts).
 */
module Windows {
  import opened Common
  import opened Leg
  import opened Orders

  const MIN_FILL_RESPONSE_S := 60
  const MAX_FILL_RESPONSE_S := 900
  const MAX_INTENT_LIFETIME_S := 120
  const MAX_CLOCK_SKEW_S := 300
  const MAX_RESPONDER_WINDOW_S := 7200
  const MAX_INITIATOR_WINDOW_S := 14400
  const MIN_RUNWAY_AFTER_RESPONSE_S := 600
  const MIN_PRELOCK_RUNWAY_S := 9000
  const FILL_RESPONSE_TARGET_S := 300

  // ---- selection ----

  function Priority(i: Intent): int { Max(i.issuedAt, i.receivedAt) }

  /** The sort order: clamped arrival, then issuance, then digest. */
  predicate Before(a: Intent, b: Intent) {
    || Priority(a) < Priority(b)
    || (Priority(a) == Priority(b) && a.issuedAt < b.issuedAt)
    || (Priority(a) == Priority(b) && a.issuedAt == b.issuedAt && a.digest < b.digest)
  }

  predicate Eligible(i: Intent, orderDigest: nat, now: int, verify: Intent -> bool) {
    i.orderDigest == orderDigest && i.issuedAt <= now < i.expiresAt && verify(i)
  }

  /** The first of the eligible intents in the sort order. */
  function EarliestValidFillIntent(intents: seq<Intent>, orderDigest: nat, now: int, verify: Intent -> bool)
    : (r: Option<Intent>)
    ensures r.None? <==> forall i :: i in intents ==> !Eligible(i, orderDigest, now, verify)
    ensures r.Some? ==> r.value in intents && Eligible(r.value, orderDigest, now, verify)
    ensures r.Some? ==>
      forall i :: i in intents && Eligible(i, orderDigest, now, verify) ==> !Before(i, r.value)
  {
    if intents == [] then None else
      var last, best := intents[|intents| - 1],
                        EarliestValidFillIntent(intents[..|intents| - 1], orderDigest, now, verify);
      if Eligible(last, orderDigest, now, verify) && (best.None? || Before(last, best.value)) then Some(last)
      else best
  }

  /** The time rules of `verifyFillIntentV1` at `now`; signatures are taken as given. */
  predicate IntentTimesOk(i: Intent, now: int, orderIssuedAt: int, orderExpiresAt: int) {
    && i.issuedAt < i.expiresAt && i.expiresAt - i.issuedAt <= MAX_INTENT_LIFETIME_S
    && i.issuedAt <= now + MAX_CLOCK_SKEW_S && now < i.expiresAt
    && orderIssuedAt <= i.issuedAt && i.expiresAt <= orderExpiresAt
    && orderIssuedAt < orderExpiresAt
  }

  // ---- the three copies ----

  predicate Selects(f: Fill, i: Intent) {
    && f.orderDigest == i.orderDigest && f.intentDigest == i.digest
    && f.takerEthAccount == i.takerEthAccount && f.takerQrlAccount == i.takerQrlAccount
    && f.releaseCommitment == i.releaseCommitment
  }

  predicate EchoesPrelock(f: Fill, prelock: Option<Prelock>) {
    prelock.Some? ==> f.hashlock == prelock.value.hashlock && f.initiatorTimeout == prelock.value.initiatorTimeout
  }

  /** `signFillV1` goes through. Word 0 is the empty hashlock. */
  predicate SignerAccepts(p: Protocol, i: Intent, f: Fill) {
    && MIN_FILL_RESPONSE_S <= f.respondBy - f.issuedAt <= MAX_FILL_RESPONSE_S
    && f.orderDigest == p.orderDigest && Selects(f, i)
    && IntentTimesOk(i, f.issuedAt, p.orderIssuedAt, p.orderExpiresAt)
    && f.issuedAt < i.expiresAt && f.respondBy <= p.orderExpiresAt
    && f.hashlock != 0
    && var initiatorWindow, responderWindow := f.initiatorTimeout - f.issuedAt, f.responderTimeout - f.issuedAt;
    && responderWindow > 0 && initiatorWindow >= responderWindow && responderWindow <= initiatorWindow / 2
    && responderWindow <= MAX_RESPONDER_WINDOW_S
    && (p.prelock.None? ==> initiatorWindow <= MAX_INITIATOR_WINDOW_S)
    && EchoesPrelock(f, p.prelock)
    && f.responderTimeout - f.respondBy > MIN_RUNWAY_AFTER_RESPONSE_S
  }

  /** `parseFillProof` accepts the persisted proof. */
  predicate HydrationAccepts(p: Protocol, i: Intent, f: Fill) {
    && Selects(f, i) && f.hashlock != 0
    && !(f.issuedAt < i.issuedAt) && !(f.issuedAt >= i.expiresAt)
    && !(f.respondBy > p.orderExpiresAt)
    && !(f.respondBy - f.issuedAt < 60) && !(f.respondBy - f.issuedAt > 900)
    && !(f.responderTimeout - f.respondBy <= 600)
    && var initiatorWindow, responderWindow := f.initiatorTimeout - f.issuedAt, f.responderTimeout - f.issuedAt;
    && !(responderWindow <= 0) && !(initiatorWindow < responderWindow)
    && !(responderWindow > initiatorWindow / 2)
    && !(responderWindow > 2 * 60 * 60)
    && !(p.prelock.None? && initiatorWindow > 4 * 60 * 60)
    && EchoesPrelock(f, p.prelock)
  }

  /** `fillBindingIsValid`: the taker's copy. */
  predicate TakerAccepts(p: Protocol, i: Intent, f: Fill) {
    && f.hashlock != 0 && f.orderDigest == p.orderDigest && Selects(f, i)
    && MIN_FILL_RESPONSE_S <= f.respondBy - f.issuedAt <= MAX_FILL_RESPONSE_S
    && f.respondBy <= p.orderExpiresAt
    && i.issuedAt <= f.issuedAt < i.expiresAt
    && var initiatorWindow, responderWindow := f.initiatorTimeout - f.issuedAt, f.responderTimeout - f.issuedAt;
    && 0 < responderWindow <= MAX_RESPONDER_WINDOW_S
    && f.responderTimeout - f.respondBy > MIN_RUNWAY_AFTER_RESPONSE_S
    && initiatorWindow >= responderWindow && responderWindow <= initiatorWindow / 2
    && (p.prelock.Some? || initiatorWindow <= MAX_INITIATOR_WINDOW_S)
    && (p.prelock.Some? ==> EchoesPrelock(f, p.prelock) && initiatorWindow >= MIN_PRELOCK_RUNWAY_S)
  }

  // ---- what each copy promises about any fill, signed by anybody ----

  /** The numbers of a fill: the response takes one to fifteen minutes and ends within the
      order's life, ten minutes more remain after it, the responder window is at most two
      hours and the initiator window at least twice as long, and four hours unless the
      maker escrowed up front, in which case the fill repeats that escrow. */
  predicate SoundFill(p: Protocol, f: Fill) {
    && 60 <= f.respondBy - f.issuedAt <= 900 && f.respondBy <= p.orderExpiresAt
    && f.responderTimeout > f.respondBy + 600
    && 0 < f.responderTimeout - f.issuedAt <= 7200
    && 2 * (f.responderTimeout - f.issuedAt) <= f.initiatorTimeout - f.issuedAt
    && (p.prelock.None? ==> f.initiatorTimeout - f.issuedAt <= 14400)
    && (p.prelock.Some? ==> p.prelock == Some(Prelock(f.hashlock, f.initiatorTimeout)))
    && f.hashlock != 0
  }

  /** The fill answers this proposal, within its life. */
  predicate AnswersIntent(i: Intent, f: Fill) {
    && f == f.(orderDigest := i.orderDigest, intentDigest := i.digest, takerEthAccount := i.takerEthAccount,
               takerQrlAccount := i.takerQrlAccount, releaseCommitment := i.releaseCommitment)
    && f.issuedAt < i.expiresAt
  }

  /** The proposal's own rules: within the order's life, at most two minutes long. */
  predicate SoundIntent(p: Protocol, i: Intent) {
    && p.orderIssuedAt <= i.issuedAt < i.expiresAt <= p.orderExpiresAt && i.expiresAt - i.issuedAt <= 120
  }

  lemma TakerAcceptsExactly(p: Protocol, i: Intent, f: Fill)
    ensures TakerAccepts(p, i, f) <==>
      && SoundFill(p, f) && AnswersIntent(i, f) && f.orderDigest == p.orderDigest && i.issuedAt <= f.issuedAt
      && (p.prelock.Some? ==> f.initiatorTimeout - f.issuedAt >= 9000)
  {
  }

  lemma HydrationAcceptsExactly(p: Protocol, i: Intent, f: Fill)
    ensures HydrationAccepts(p, i, f) <==> SoundFill(p, f) && AnswersIntent(i, f) && i.issuedAt <= f.issuedAt
  {
  }

  lemma SignerAcceptsExactly(p: Protocol, i: Intent, f: Fill)
    ensures SignerAccepts(p, i, f) <==>
      && SoundFill(p, f) && AnswersIntent(i, f) && f.orderDigest == p.orderDigest && SoundIntent(p, i)
      && i.issuedAt <= f.issuedAt + 300
  {
  }

  /** The three copies agree on every fill that is not issued before its proposal, given
      the proposal's own rules, which the signer checks as well; the taker alone asks a
      runway of an up-front escrow. */
  lemma ThreeCopies(p: Protocol, i: Intent, f: Fill)
    requires SoundIntent(p, i) && i.orderDigest == p.orderDigest && i.issuedAt <= f.issuedAt
    ensures SignerAccepts(p, i, f) <==> HydrationAccepts(p, i, f)
    ensures TakerAccepts(p, i, f) <==>
      HydrationAccepts(p, i, f) && (p.prelock.Some? ==> f.initiatorTimeout - f.issuedAt >= 9000)
  {
    TakerAcceptsExactly(p, i, f);
    HydrationAcceptsExactly(p, i, f);
    SignerAcceptsExactly(p, i, f);
  }

  /** Whoever signed it: in a fill the taker accepts, the maker's lock outlives the taker's
      by at least the whole responder window, which is more than eleven minutes. */
  lemma AcceptedFillsLeaveRoom(p: Protocol, i: Intent, f: Fill)
    requires TakerAccepts(p, i, f)
    ensures f.initiatorTimeout - f.responderTimeout >= f.responderTimeout - f.issuedAt > 660
  {
    TakerAcceptsExactly(p, i, f);
  }

  // ---- the order of selection ----

  /** A proposal is found exactly while one is live: issued by now, not yet expired, for
      this order, and verified. */
  lemma LiveIntentsAreSelected(intents: seq<Intent>, orderDigest: nat, now: int, verify: Intent -> bool)
    ensures EarliestValidFillIntent(intents, orderDigest, now, verify).Some? <==>
      exists i :: i in intents && i.orderDigest == orderDigest && i.issuedAt <= now && now < i.expiresAt && verify(i)
  {
    if i :| i in intents && i.orderDigest == orderDigest && i.issuedAt <= now && now < i.expiresAt && verify(i) {
      assert Eligible(i, orderDigest, now, verify);
    }
  }

  /** Verification adds: at most two minutes long, within the order's life, and at most
      five minutes ahead of the clock. */
  lemma IntentTimesExactly(i: Intent, now: int, orderIssuedAt: int, orderExpiresAt: int)
    ensures IntentTimesOk(i, now, orderIssuedAt, orderExpiresAt) <==>
      && i.issuedAt - 300 <= now && now < i.expiresAt
      && orderIssuedAt <= i.issuedAt && i.issuedAt < i.expiresAt && i.expiresAt <= orderExpiresAt
      && i.expiresAt <= i.issuedAt + 120
  {
  }

  /** Backdating a proposal does not move it past one that arrived earlier; a book that
      hides arrivals falls back to issuance. */
  lemma ArrivalDecides(a: Intent, b: Intent)
    ensures a.issuedAt <= a.receivedAt && b.issuedAt <= b.receivedAt && a.receivedAt < b.receivedAt ==> Before(a, b)
    ensures a.receivedAt <= a.issuedAt && b.receivedAt <= b.issuedAt && a.issuedAt < b.issuedAt ==> Before(a, b)
    ensures a.receivedAt <= b.receivedAt && a.issuedAt < b.issuedAt ==> Before(a, b)
  {
  }

  /** The sort order is total on distinct proposals. */
  lemma BeforeIsStrict(a: Intent, b: Intent, c: Intent)
    ensures !(Before(a, b) && Before(b, a))
    ensures a.digest != b.digest ==> Before(a, b) || Before(b, a)
    ensures Before(a, b) && Before(b, c) ==> Before(a, c)
  {
  }

  /** What the signer accepts, the other two accept exactly when the fill is not
      issued before the intent it selects, plus, for the taker, when a pre-funded
      escrow still carries its runway floor. */
  lemma CopiesAgree(p: Protocol, i: Intent, f: Fill)
    requires SignerAccepts(p, i, f)
    ensures HydrationAccepts(p, i, f) <==> i.issuedAt <= f.issuedAt
    ensures TakerAccepts(p, i, f) <==>
      i.issuedAt <= f.issuedAt
      && (p.prelock.Some? ==> f.initiatorTimeout - f.issuedAt >= MIN_PRELOCK_RUNWAY_S)
  {
  }

  /** A clock stepped back between selection and signing is signed and persisted but
      would then be refused at restart. */
  lemma BackwardClockStrandsFill()
    ensures exists p: Protocol, i: Intent, f: Fill ::
      p.prelock.None? && SignerAccepts(p, i, f) && !HydrationAccepts(p, i, f) && !TakerAccepts(p, i, f)
  {
    var p := Protocol(1, 0, 5000, None, false, false, None, None, None);
    var i := Intent(2, 1, 3, 4, 5, 1000, 1100, 1000);
    var f := Fill(1, 2, 3, 4, 5, 9, 8000, 4000, 900, 1200, 0);
    assert SignerAccepts(p, i, f) && !HydrationAccepts(p, i, f) && !TakerAccepts(p, i, f);
  }

  // ---- from selection to signature ----

  datatype Config = Config(initiatorWindowS: int, responderWindowS: int)

  /** The response window `advance` signs with. */
  function ResponseWindow(cfg: Config): int { Min(FILL_RESPONSE_TARGET_S, cfg.responderWindowS - 601) }

  /** The fill `advance` hands to the signer: timeouts fixed at selection, response
      window measured from signing. */
  function SignedFill(cfg: Config, p: Protocol, i: Intent, hashlock: Hash, selectedAt: int, issuedAt: int,
                      nonce: nat): Fill
  {
    Fill(p.orderDigest, i.digest, i.takerEthAccount, i.takerQrlAccount, i.releaseCommitment, hashlock,
         selectedAt + cfg.initiatorWindowS, selectedAt + cfg.responderWindowS,
         issuedAt, Min(issuedAt + ResponseWindow(cfg), p.orderExpiresAt), nonce)
  }

  /** `advance` reaches the signature: the intent is still live, the response window is
      long enough in configuration, and the order's own expiry leaves it long enough. */
  predicate ReachesSigner(cfg: Config, p: Protocol, i: Intent, issuedAt: int) {
    && issuedAt < i.expiresAt
    && ResponseWindow(cfg) >= 60
    && Min(issuedAt + ResponseWindow(cfg), p.orderExpiresAt) - issuedAt >= 60
  }

  /** The response window is the longest up to five minutes that leaves more than ten
      minutes of the responder window. */
  lemma ResponseWindowExactly(cfg: Config, s: int)
    ensures s <= ResponseWindow(cfg) <==> s <= 300 && cfg.responderWindowS - s > 600
  {
  }

  /** A fill is signed exactly while its proposal lives, under a responder window of at
      least 661 seconds and with a minute of the order left. */
  lemma ReachesSignerExactly(cfg: Config, p: Protocol, i: Intent, issuedAt: int)
    ensures ReachesSigner(cfg, p, i, issuedAt) <==>
      issuedAt < i.expiresAt && cfg.responderWindowS >= 661 && issuedAt + 60 <= p.orderExpiresAt
  {
  }

  /** Bounds the protocol itself puts on the two windows. */
  predicate WithinCaps(cfg: Config) {
    && cfg.responderWindowS <= MAX_RESPONDER_WINDOW_S && cfg.initiatorWindowS <= MAX_INITIATOR_WINDOW_S
    && cfg.initiatorWindowS >= 2 * cfg.responderWindowS
  }

  /** Every fill for the earliest valid intent that the signer accepted, at any later
      moment of a nondecreasing clock and under any configuration, passes hydration and
      the taker's check. */
  lemma SelectedFillsPassEverywhere(p: Protocol, intents: seq<Intent>, verify: Intent -> bool, filteredAt: int,
                                    i: Intent, f: Fill)
    requires p.prelock.None? && filteredAt <= f.issuedAt
    requires EarliestValidFillIntent(intents, p.orderDigest, filteredAt, verify) == Some(i)
    requires SignerAccepts(p, i, f)
    ensures HydrationAccepts(p, i, f) && TakerAccepts(p, i, f)
  {
    CopiesAgree(p, i, f);
  }

  /** With 1020 seconds and the protocol's caps the signer does accept what `advance`
      hands it, whenever `advance` gets that far. */
  lemma ReachedFillsAreSigned(cfg: Config, p: Protocol, intents: seq<Intent>, verify: Intent -> bool,
                              i: Intent, hashlock: Hash,
                              filteredAt: int, verifiedAt: int, selectedAt: int, issuedAt: int, nonce: nat)
    requires WithinCaps(cfg) && cfg.responderWindowS >= 1020
    requires p.prelock.None? && hashlock != 0
    requires filteredAt <= verifiedAt <= selectedAt <= issuedAt
    requires EarliestValidFillIntent(intents, p.orderDigest, filteredAt, verify) == Some(i)
    requires forall j :: verify(j) ==> IntentTimesOk(j, verifiedAt, p.orderIssuedAt, p.orderExpiresAt)
    requires ReachesSigner(cfg, p, i, issuedAt)
    ensures SignerAccepts(p, i, SignedFill(cfg, p, i, hashlock, selectedAt, issuedAt, nonce))
  {
    var f := SignedFill(cfg, p, i, hashlock, selectedAt, issuedAt, nonce);
    assert IntentTimesOk(i, verifiedAt, p.orderIssuedAt, p.orderExpiresAt);
    assert issuedAt - selectedAt < MAX_INTENT_LIFETIME_S;
    HalfOf(f.responderTimeout - f.issuedAt, f.initiatorTimeout - f.issuedAt);
  }

  lemma HalfOf(r: int, i: int)
    requires 2 * r <= i
    ensures r <= i / 2
  {
  }

  /** A delay between selection and signing is legal while the intent lives. */
  predicate DelayBreaksNothing(cfg: Config, delay: int) {
    // timeout windows measured from signing, response window unclamped by the order
    && cfg.responderWindowS - delay > 0
    && cfg.responderWindowS - delay <= (cfg.initiatorWindowS - delay) / 2
    && cfg.responderWindowS - delay - ResponseWindow(cfg) > MIN_RUNWAY_AFTER_RESPONSE_S
  }

  /** 1020 seconds is exactly the responder window that survives every delay an
      intent's life allows, among windows long enough to be used at all. */
  lemma DelayToleranceIsExact(cfg: Config)
    requires WithinCaps(cfg) && ResponseWindow(cfg) >= 60
    ensures (forall delay :: 0 <= delay < MAX_INTENT_LIFETIME_S ==> DelayBreaksNothing(cfg, delay))
            <==> cfg.responderWindowS >= 1020
  {
    if cfg.responderWindowS >= 1020 {
      forall delay | 0 <= delay < MAX_INTENT_LIFETIME_S ensures DelayBreaksNothing(cfg, delay) {
        HalfOf(cfg.responderWindowS - delay, cfg.initiatorWindowS - delay);
      }
    } else {
      assert !DelayBreaksNothing(cfg, 119);
    }
  }
}
