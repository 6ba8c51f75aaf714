/**
 * One portable order under every schedule: the maker's durable and outward
 * effects (index.ts), the two chain legs, the clock, and everybody else. The
 * run properties are stated at one hashlock `h`, which is arbitrary: effects
 * under other hashlocks are steps that do not touch the two legs shown here.
 */
module MakerRun {
  import opened Common
  import opened Leg
  import opened Chains
  import opened Orders

  /** `H` is SHA-256, uninterpreted; `self` funds the initiator leg and `payee`
      is the maker's account on the responder leg. */
  datatype Setup = Setup(
    H: Secret -> Hash,
    h: Hash,
    ethToQrl: bool,
    self: Address,
    payee: Address,
    fromToken: Address,
    fromAmount: nat,
    toToken: Address,
    toAmount: nat,
    claimSafetyS: int,
    initiatorWindowS: int,
    responderWindowS: int)
  {
    predicate Ok() { self != 0 && payee != 0 }
  }

  datatype Artifact = FillArtifact(fill: Fill) | CancelArtifact(cancel: Cancel)

  /** The first claim that carried the secret: the confirmed escrow it answered
      and the second by which it is expected on chain. */
  datatype Claim = Claim(index: nat, due: int)

  /** `initiator` and `responder` are the legs under `h` on the chain the maker funds
      and on the taker's. `settled`: some head of the initiator leg was terminal.
      `late`: a broadcast claim was not final within the margin of its deadline check. */
  datatype World = World(
    now: int,
    disk: Option<Managed>,
    initiator: Chain,
    lockPending: Option<LegState>,
    responder: Chain,
    revealed: bool,
    claim: Option<Claim>,
    published: set<Artifact>,
    acked: set<Fill>,
    settled: bool,
    late: bool)

  /** What stands between a claim decision and its broadcast: the re-read of the
      escrow with the clock it was checked against, and the sender's own gas
      estimate of the very transaction. */
  datatype Check = Check(seen: LegState, checkedAt: int, estimated: LegState, estimatedAt: int)

  datatype Event =
    // the maker's durable writes
    | Select(secret: Secret, intent: Intent, at: int)
    | ForgetSelection
    | SignFill(fill: Fill)
    | SignCancel(cancel: Cancel)
    | Observe(released: bool)
    | MarkLock(at: int)
    | MarkAttempt(marked: Managed)
    | Retire
    // the maker's outward effects
    | PublishFill
    | PublishCancel
    | SendLock
    | SendClaim(index: nat, decidedAt: int, check: Check)
    | SendSponsor(index: nat)
    // everybody else
    | Tick(until: int)
    | Acknowledge(fill: Fill)
    | MoveInitiator(move: Move)
    | MoveResponder(move: Move)

  // ---- the record ----

  predicate Undecided(m: Managed) {
    m.protocol.Some? && m.protocol.value.fillProof.None? && m.protocol.value.cancelProof.None?
  }

  function Selected(e: Setup, m: Managed, secret: Secret, intent: Intent, at: int): Managed
    requires m.protocol.Some?
  {
    m.(preimage := Some(secret), hashlock := Some(e.H(secret)),
       initiatorTimeout := Some(at + e.initiatorWindowS), responderTimeout := Some(at + e.responderWindowS),
       announcedAt := Some(at),
       takerEthAccount := Some(intent.takerEthAccount), takerQrlAccount := Some(intent.takerQrlAccount),
       protocol := Some(m.protocol.value.(selectedIntent := Some(intent))))
  }

  function Forgotten(m: Managed): Managed
    requires m.protocol.Some?
  {
    m.(preimage := None, hashlock := None, initiatorTimeout := None, responderTimeout := None,
       announcedAt := None, takerEthAccount := None, takerQrlAccount := None,
       protocol := Some(m.protocol.value.(selectedIntent := None)))
  }

  /** A fill states the record's own terms. */
  predicate Binds(m: Managed, f: Fill) {
    && m.hashlock == Some(f.hashlock)
    && m.initiatorTimeout == Some(f.initiatorTimeout) && m.responderTimeout == Some(f.responderTimeout)
    && m.takerEthAccount == Some(f.takerEthAccount) && m.takerQrlAccount == Some(f.takerQrlAccount)
  }

  /** The record carries the selected taker, a secret and both timeouts. */
  predicate CarriesIntent(m: Managed, i: Intent) {
    && m.hashlock.Some? && m.initiatorTimeout.Some? && m.responderTimeout.Some?
    && m.takerEthAccount == Some(i.takerEthAccount) && m.takerQrlAccount == Some(i.takerQrlAccount)
  }

  /** Only attempt markers and rejection counters differ. */
  predicate OnlyMarkers(m: Managed, n: Managed) {
    n == m.(claimSentAt := n.claimSentAt, sponsorSentAt := n.sponsorSentAt, refundSentAt := n.refundSentAt,
            withdrawSentAt := n.withdrawSentAt, pushSentAt := n.pushSentAt,
            withdrawAttempts := n.withdrawAttempts, pushAttempts := n.pushAttempts,
            withdrawFirstRejectedAt := n.withdrawFirstRejectedAt, pushFirstRejectedAt := n.pushFirstRejectedAt)
  }

  predicate MayFund(m: Managed) { m.Filled() && m.Acknowledged() && !m.Released() }

  /** The escrow a lock transaction of this record creates. */
  function LockTerms(e: Setup, m: Managed): LegState {
    LegState(Open, e.self, m.TakerOnInitiatorLeg().GetOr(0), e.fromToken, e.fromAmount, m.initiatorTimeout.GetOr(0), 0)
  }

  /** The same escrow as the signed fill announces it. */
  function FillTerms(e: Setup, f: Fill): LegState {
    LegState(Open, e.self, if e.ethToQrl then f.takerEthAccount else f.takerQrlAccount,
             e.fromToken, e.fromAmount, f.initiatorTimeout, 0)
  }

  // ---- the responder chain ----

  /** The escrow pays the maker exactly what the order asks. */
  predicate PaysMaker(e: Setup, s: LegState) {
    s.recipient == e.payee && s.token == e.toToken && s.amount == e.toAmount
  }

  // ---- steps ----

  predicate HoldsSecret(e: Setup, w: World) {
    && w.disk.Some? && w.disk.value.Filled() && w.disk.value.hashlock == Some(e.h)
    && w.disk.value.preimage.Some? && e.H(w.disk.value.preimage.value) == e.h
  }

  predicate UnderH(e: Setup, m: Managed) { m.hashlock == Some(e.h) }

  /** Secrets are random: a new one was never used by this maker. */
  predicate Unused(e: Setup, w: World) {
    !w.revealed && w.lockPending.None?
  }

  /** The claim answers a confirmed escrow that pays the maker. The re-read passed the
      deadline cutoff, which only looks at Open escrows, and the estimate went through. */
  predicate MaySendClaim(e: Setup, w: World, index: nat, decidedAt: int, c: Check) {
    && index <= w.responder.final < |w.responder.hist|
    && var r := w.responder.hist[index];
    && r.status == Open && PaysMaker(e, r)
    && decidedAt < r.timeout - e.claimSafetyS
    && decidedAt <= c.checkedAt <= c.estimatedAt <= w.now
    && Later(r, c.seen, c.checkedAt, w.revealed)
    && (c.seen.status == Open ==> c.checkedAt < c.seen.timeout - e.claimSafetyS)
    && Later(r, c.estimated, c.estimatedAt, w.revealed) && Claimable(c.estimated, c.estimatedAt)
  }

  predicate Writes(s: Event) {
    || s.Select? || s.ForgetSelection? || s.SignFill? || s.SignCancel?
    || s.Observe? || s.MarkLock? || s.MarkAttempt? || s.Retire?
  }

  /** What the record itself must allow. */
  predicate RecordAllows(m: Managed, s: Event) {
    match s
    case Select(_, _, _) => Undecided(m)
    case ForgetSelection => Undecided(m)
    case SignFill(f) => Undecided(m) && Binds(m, f)
    case SignCancel(c) => Undecided(m)
    case Observe(released) => m.Filled()
    case MarkLock(at) => MayFund(m)
    case MarkAttempt(n) => OnlyMarkers(m, n)
    case PublishFill => m.Filled()
    case PublishCancel => m.Cancelled()
    case SendLock => MayFund(m) && m.lockSentAt.Some?
    case _ => true
  }

  /** What the rest of the world must allow. */
  predicate WorldAllows(e: Setup, w: World, m: Managed, s: Event) {
    match s
    case Select(secret, intent, at) => e.H(secret) == e.h ==> Unused(e, w)
    case Observe(released) => m.Filled() && m.protocol.value.fillProof.value in w.acked
    case Retire =>
      || !m.Filled() || m.lockSentAt.None?
      || (UnderH(e, m) ==> w.settled)
    case SendClaim(k, d, c) => UnderH(e, m) ==> MaySendClaim(e, w, k, d, c)
    case SendSponsor(k) =>
      UnderH(e, m) ==> (k <= w.responder.final < |w.responder.hist| && w.responder.hist[k].status == Claimed)
    case _ => Writes(s) || s.PublishFill? || s.PublishCancel? || s.SendLock?
  }

  predicate MakerEnabled(e: Setup, w: World, m: Managed, s: Event) {
    RecordAllows(m, s) && WorldAllows(e, w, m, s)
  }

  predicate OthersEnabled(e: Setup, w: World, s: Event) {
    match s
    case Tick(until) => w.now <= until
    case Acknowledge(f) => FillArtifact(f) in w.published
    case MoveInitiator(move) =>
      && Allowed(e.H, e.h, w.initiator, move, w.now, w.revealed)
      && (move.Append? && w.initiator.Head().status == NoSwap && move.to.initiator == e.self ==>
            (w.lockPending == Some(move.to) && move.to.recipient != 0))
    case MoveResponder(move) => Allowed(e.H, e.h, w.responder, move, w.now, w.revealed)
    case _ => false
  }

  predicate Enabled(e: Setup, w: World, s: Event) {
    OthersEnabled(e, w, s) || (w.disk.Some? && MakerEnabled(e, w, w.disk.value, s))
  }

  function AfterReveal(e: Setup, w: World, index: nat, checkedAt: int): World {
    if w.revealed then w else
      var due := checkedAt + e.claimSafetyS;
      w.(revealed := true, claim := Some(Claim(index, due)), late := w.late || w.now > due)
  }

  /** The record after a durable write. */
  function Written(e: Setup, m: Managed, s: Event): Option<Managed>
    requires Writes(s) && RecordAllows(m, s)
  {
    match s
    case Select(secret, intent, at) => Some(Selected(e, m, secret, intent, at))
    case ForgetSelection => Some(Forgotten(m))
    case SignFill(f) => Some(m.(protocol := Some(m.protocol.value.(fillProof := Some(f)))))
    case SignCancel(c) => Some(m.(protocol := Some(m.protocol.value.(cancelProof := Some(c)))))
    case Observe(released) =>
      var p := m.protocol.value;
      Some(m.(protocol := Some(p.(fillAcknowledged := true, releaseObserved := p.releaseObserved || released))))
    case MarkLock(at) => Some(m.(lockSentAt := Some(at)))
    case MarkAttempt(n) => Some(n)
    case Retire => None
  }

  function MakerNext(e: Setup, w: World, m: Managed, s: Event): World
    requires MakerEnabled(e, w, m, s)
  {
    if Writes(s) then w.(disk := Written(e, m, s)) else
      match s
      case PublishFill => w.(published := w.published + {FillArtifact(m.protocol.value.fillProof.value)})
      case PublishCancel => w.(published := w.published + {CancelArtifact(m.protocol.value.cancelProof.value)})
      case SendLock => if UnderH(e, m) then w.(lockPending := Some(LockTerms(e, m))) else w
      case SendClaim(k, d, c) => if UnderH(e, m) then AfterReveal(e, w, k, c.checkedAt) else w
      case SendSponsor(k) => if UnderH(e, m) then w.(revealed := true) else w
  }

  function OthersNext(e: Setup, w: World, s: Event): World
    requires OthersEnabled(e, w, s)
  {
    match s
    case Tick(until) =>
      var missed := w.claim.Some? && until > w.claim.value.due
                    && !(w.responder.Ok() && w.responder.Deep().status == Claimed);
      w.(now := until, late := w.late || missed)
    case Acknowledge(f) => w.(acked := w.acked + {f})
    case MoveInitiator(move) =>
      var c := Moved(w.initiator, move);
      w.(initiator := c, settled := w.settled || (c.Ok() && Terminal(c.Head())))
    case MoveResponder(move) => w.(responder := Moved(w.responder, move))
  }

  function Next(e: Setup, w: World, s: Event): World
    requires Enabled(e, w, s)
  {
    if OthersEnabled(e, w, s) then OthersNext(e, w, s) else MakerNext(e, w, w.disk.value, s)
  }

  /** A listing just persisted, before its first publication. */
  predicate Start(e: Setup, w: World) {
    && e.Ok()
    && w.disk.Some? && Undecided(w.disk.value)
    && var m := w.disk.value;
    && m.ethToQrl == e.ethToQrl && m.protocol.value.selectedIntent.None?
    && m.preimage.None? && m.hashlock.None? && m.lockSentAt.None?
    && !m.Acknowledged() && !m.Released()
    && w.initiator == UNUSED && w.responder == UNUSED
    && w.lockPending.None? && !w.revealed && w.claim.None?
    && w.published == {} && w.acked == {}
    && !w.settled && !w.late
  }

  predicate Follows(e: Setup, w: World, s: Event, v: World) {
    Enabled(e, w, s) && v == Next(e, w, s)
  }

  ghost predicate Path(e: Setup, ws: seq<World>, steps: seq<Event>) {
    && |ws| == |steps| + 1
    && forall n :: 0 <= n < |steps| ==> Follows(e, ws[n], steps[n], ws[n + 1])
  }

  ghost predicate Run(e: Setup, ws: seq<World>, steps: seq<Event>) {
    Path(e, ws, steps) && Start(e, ws[0])
  }

  // ---- invariants ----

  /** The durable record is always usable, and carries one decision at most. */
  predicate RecordOk(e: Setup, m: Managed) {
    && m.protocol.Some? && m.ethToQrl == e.ethToQrl
    && (m.hashlock.Some? <==> m.preimage.Some?)
    && (m.hashlock.Some? ==> m.hashlock == Some(e.H(m.preimage.value)))
    && (m.Filled() ==> !m.Cancelled() && Binds(m, m.protocol.value.fillProof.value))
    && (m.protocol.value.selectedIntent.Some? ==> CarriesIntent(m, m.protocol.value.selectedIntent.value))
    && (m.lockSentAt.Some? ==> m.Acknowledged())
    && (m.Released() ==> m.Acknowledged())
    && (m.Acknowledged() ==> m.Filled())
  }

  function DurableDecision(m: Managed): Option<Artifact> {
    if m.Filled() then Some(FillArtifact(m.protocol.value.fillProof.value))
    else if m.Cancelled() then Some(CancelArtifact(m.protocol.value.cancelProof.value))
    else None
  }

  /** Everything published so far is the one durable decision. */
  predicate OneDecision(w: World) {
    && (forall a, b :: a in w.published && b in w.published ==> a == b)
    && (w.disk.Some? ==> forall a :: a in w.published ==> DurableDecision(w.disk.value) == Some(a))
    && (forall f :: f in w.acked ==> FillArtifact(f) in w.published)
    && (w.disk.Some? && w.disk.value.Acknowledged() && w.disk.value.Filled() ==>
          w.disk.value.protocol.value.fillProof.value in w.acked)
  }

  /** With the initiator leg at `s`, money of ours is or may still become locked. */
  predicate ExposedAt(e: Setup, w: World, s: LegState) {
    || (s.status == Open && s.initiator == e.self)
    || (s.status == NoSwap && w.lockPending.Some?)
  }

  predicate Exposed(e: Setup, w: World) { w.initiator.Ok() && ExposedAt(e, w, w.initiator.Head()) }

  predicate ExposedAtDepth(e: Setup, w: World) { w.initiator.Ok() && ExposedAt(e, w, w.initiator.Deep()) }

  /** These are the terms of a fill under `h` that the book acknowledged. */
  predicate Authorised(e: Setup, w: World, s: LegState) {
    exists f :: f in w.acked && f.hashlock == e.h && s == FillTerms(e, f)
  }

  /** The maker's name stands only on locks it sent, with their terms. */
  predicate OurEntry(e: Setup, w: World, s: LegState) {
    && (s.initiator == e.self ==>
          (w.lockPending.Some? && SameTerms(s, w.lockPending.value) && s.recipient != 0))
    && (s.status == NoSwap ==> s == NO_SWAP)
  }

  predicate EntriesOk(e: Setup, w: World) {
    && w.initiator.Ok()
    && (forall n :: 0 <= n < |w.initiator.hist| ==> OurEntry(e, w, w.initiator.hist[n]))
    && (Terminal(w.initiator.Head()) ==> w.settled)
  }

  predicate EscrowOk(e: Setup, w: World) {
    && (w.lockPending.Some? ==> Authorised(e, w, w.lockPending.value))
    && (w.lockPending.Some? && w.disk.Some? ==> HoldsSecret(e, w) && w.disk.value.lockSentAt.Some?)
  }

  predicate ChainsOk(w: World) {
    Consistent(w.initiator, w.now, w.revealed) && Consistent(w.responder, w.now, w.revealed)
  }

  predicate ClaimOk(e: Setup, w: World) {
    && (w.revealed ==> w.claim.Some?)
    && (w.claim.Some? ==>
          var c := w.claim.value;
          && w.revealed && c.index <= w.responder.final < |w.responder.hist|
          && w.responder.hist[c.index].status == Open && PaysMaker(e, w.responder.hist[c.index])
          && c.due < w.responder.hist[c.index].timeout
          && (!w.late ==> w.now <= c.due || w.responder.Deep().status == Claimed))
  }

  predicate Inv(e: Setup, w: World) {
    && e.Ok()
    && (w.disk.Some? ==> RecordOk(e, w.disk.value))
    && OneDecision(w) && EntriesOk(e, w) && EscrowOk(e, w) && ChainsOk(w) && ClaimOk(e, w)
  }

  // ---- every step keeps every invariant ----

  /** What a write keeps of the record: its shape, its decision, its release, and
      once filled its secret and its lock marker. */
  lemma WriteKeeps(e: Setup, m: Managed, s: Event)
    requires RecordOk(e, m) && Writes(s) && RecordAllows(m, s) && Written(e, m, s).Some?
    ensures var n := Written(e, m, s).value;
            && RecordOk(e, n)
            && (DurableDecision(m).Some? ==> DurableDecision(n) == DurableDecision(m))
            && (m.Released() ==> n.Released())
            && (n.Acknowledged() ==> m.Acknowledged() || s.Observe?)
            && (m.lockSentAt.Some? ==> n.lockSentAt.Some?)
            && (m.Filled() ==> n.hashlock == m.hashlock && n.preimage == m.preimage && n.Filled())
            && (n.Filled() && !m.Filled() ==> s.SignFill?)
  {
  }

  lemma RecordKept(e: Setup, w: World, s: Event)
    requires Inv(e, w) && w.disk.Some? && MakerEnabled(e, w, w.disk.value, s)
    ensures var v := MakerNext(e, w, w.disk.value, s); v.disk.Some? ==> RecordOk(e, v.disk.value)
  {
    if Writes(s) && !s.Retire? { WriteKeeps(e, w.disk.value, s); }
  }

  /** The maker's own steps move neither chain nor the clock. */
  lemma MakerFrame(e: Setup, w: World, s: Event)
    requires w.disk.Some? && MakerEnabled(e, w, w.disk.value, s)
    ensures var v := MakerNext(e, w, w.disk.value, s);
            && v.now == w.now && v.initiator == w.initiator && v.responder == w.responder
            && v.settled == w.settled && v.acked == w.acked && w.published <= v.published && (w.revealed ==> v.revealed)
            && (v.lockPending == w.lockPending || (s.SendLock? && UnderH(e, w.disk.value)))
  {
  }

  /** Nobody else touches the disk, the artifacts or the secret. */
  lemma OthersFrame(e: Setup, w: World, s: Event)
    requires OthersEnabled(e, w, s)
    ensures var v := OthersNext(e, w, s);
            && v.disk == w.disk && v.published == w.published && v.lockPending == w.lockPending
            && v.revealed == w.revealed && v.claim == w.claim && (w.settled ==> v.settled)
            && w.acked <= v.acked && w.now <= v.now
            && (forall f :: f in v.acked ==> f in w.acked || FillArtifact(f) in w.published)
  {
  }

  lemma DecisionKeptByOthers(e: Setup, w: World, s: Event)
    requires OneDecision(w) && OthersEnabled(e, w, s)
    ensures OneDecision(OthersNext(e, w, s))
  {
    OthersFrame(e, w, s);
  }

  /** A record that keeps the decision and gains no unearned acknowledgment. */
  lemma DecisionCarries(w: World, m: Managed, n: Managed)
    requires OneDecision(w) && w.disk == Some(m)
    requires DurableDecision(m).Some? ==> DurableDecision(n) == DurableDecision(m)
    requires n.Acknowledged() && n.Filled() ==> m.Filled() && m.protocol.value.fillProof.value in w.acked
    ensures OneDecision(w.(disk := Some(n)))
  {
    var v := w.(disk := Some(n));
    forall a | a in v.published ensures DurableDecision(n) == Some(a) {
      assert DurableDecision(m) == Some(a);
    }
    if n.Acknowledged() && n.Filled() {
      assert DurableDecision(m) == Some(FillArtifact(m.protocol.value.fillProof.value));
    }
  }

  lemma DecisionKeptByWrite(e: Setup, w: World, s: Event)
    requires Inv(e, w) && w.disk.Some? && MakerEnabled(e, w, w.disk.value, s) && Writes(s)
    ensures OneDecision(MakerNext(e, w, w.disk.value, s))
  {
    if !s.Retire? {
      WriteKeeps(e, w.disk.value, s);
      DecisionCarries(w, w.disk.value, Written(e, w.disk.value, s).value);
    }
  }

  lemma DecisionKeptBySend(e: Setup, w: World, s: Event)
    requires Inv(e, w) && w.disk.Some? && MakerEnabled(e, w, w.disk.value, s) && !Writes(s)
    ensures OneDecision(MakerNext(e, w, w.disk.value, s))
  {
    MakerFrame(e, w, s);
    var m, v := w.disk.value, MakerNext(e, w, w.disk.value, s);
    if s.PublishFill? || s.PublishCancel? {
      assert DurableDecision(m).Some? && v.published == w.published + {DurableDecision(m).value};
    }
  }

  lemma AuthorityKeptByMaker(e: Setup, w: World, s: Event)
    requires Inv(e, w) && w.disk.Some? && MakerEnabled(e, w, w.disk.value, s)
    ensures var v := MakerNext(e, w, w.disk.value, s);
            v.lockPending.Some? ==> Authorised(e, v, v.lockPending.value)
  {
    MakerFrame(e, w, s);
    var v := MakerNext(e, w, w.disk.value, s);
    if s.SendLock? && UnderH(e, w.disk.value) {
      var f := w.disk.value.protocol.value.fillProof.value;
      assert f in v.acked && f.hashlock == e.h && v.lockPending.value == FillTerms(e, f);
    }
  }

  lemma AuthorityKeptByOthers(e: Setup, w: World, s: Event)
    requires OthersEnabled(e, w, s) && w.lockPending.Some? && Authorised(e, w, w.lockPending.value)
    ensures Authorised(e, OthersNext(e, w, s), w.lockPending.value)
  {
    OthersFrame(e, w, s);
    var f :| f in w.acked && f.hashlock == e.h && w.lockPending.value == FillTerms(e, f);
    assert f in OthersNext(e, w, s).acked;
  }

  /** Two acknowledged fills are the same fill, so a resent lock repeats its terms. */
  lemma LockTermsAgree(e: Setup, w: World, s: LegState, t: LegState)
    requires OneDecision(w) && Authorised(e, w, s) && Authorised(e, w, t)
    ensures s == t
  {
    var f :| f in w.acked && f.hashlock == e.h && s == FillTerms(e, f);
    var g :| g in w.acked && g.hashlock == e.h && t == FillTerms(e, g);
    assert FillArtifact(f) in w.published && FillArtifact(g) in w.published;
  }

  lemma EscrowKeptByOthers(e: Setup, w: World, s: Event)
    requires Inv(e, w) && OthersEnabled(e, w, s)
    ensures EscrowOk(e, OthersNext(e, w, s))
  {
    OthersFrame(e, w, s);
    if w.lockPending.Some? { AuthorityKeptByOthers(e, w, s); }
  }

  lemma EntriesKeptByOthers(e: Setup, w: World, s: Event)
    requires Inv(e, w) && OthersEnabled(e, w, s)
    ensures EntriesOk(e, OthersNext(e, w, s))
  {
    OthersFrame(e, w, s);
    var v := OthersNext(e, w, s);
    if s.MoveInitiator? {
      assert OurEntry(e, w, w.initiator.Head());
    }
    forall n | 0 <= n < |v.initiator.hist| ensures OurEntry(e, v, v.initiator.hist[n]) {
      if n < |w.initiator.hist| { assert OurEntry(e, w, w.initiator.hist[n]); }
    }
  }

  lemma EntriesKeptByMaker(e: Setup, w: World, s: Event)
    requires Inv(e, w) && w.disk.Some? && MakerEnabled(e, w, w.disk.value, s)
    ensures EntriesOk(e, MakerNext(e, w, w.disk.value, s))
  {
    MakerFrame(e, w, s);
    var v := MakerNext(e, w, w.disk.value, s);
    if s.SendLock? && UnderH(e, w.disk.value) && w.lockPending.Some? {
      AuthorityKeptByMaker(e, w, s);
      LockTermsAgree(e, v, w.lockPending.value, v.lockPending.value);
    }
    forall n | 0 <= n < |v.initiator.hist| ensures OurEntry(e, v, v.initiator.hist[n]) {
      assert OurEntry(e, w, w.initiator.hist[n]);
    }
  }

  lemma EscrowKeptByWrite(e: Setup, w: World, s: Event)
    requires Inv(e, w) && w.disk.Some? && MakerEnabled(e, w, w.disk.value, s) && Writes(s)
    ensures EscrowOk(e, MakerNext(e, w, w.disk.value, s))
  {
    AuthorityKeptByMaker(e, w, s);
    if !s.Retire? { WriteKeeps(e, w.disk.value, s); }
  }

  lemma EscrowKeptBySend(e: Setup, w: World, s: Event)
    requires Inv(e, w) && w.disk.Some? && MakerEnabled(e, w, w.disk.value, s) && !Writes(s)
    ensures EscrowOk(e, MakerNext(e, w, w.disk.value, s))
  {
    AuthorityKeptByMaker(e, w, s);
    MakerFrame(e, w, s);
  }

  lemma ChainsKeptByMaker(e: Setup, w: World, s: Event)
    requires ChainsOk(w) && w.disk.Some? && MakerEnabled(e, w, w.disk.value, s)
    ensures ChainsOk(MakerNext(e, w, w.disk.value, s))
  {
    MakerFrame(e, w, s);
    var v := MakerNext(e, w, w.disk.value, s);
    TimeKeeps(w.initiator, w.now, w.revealed, v.now, v.revealed);
    TimeKeeps(w.responder, w.now, w.revealed, v.now, v.revealed);
  }

  lemma ChainsKeptByOthers(e: Setup, w: World, s: Event)
    requires ChainsOk(w) && OthersEnabled(e, w, s)
    ensures ChainsOk(OthersNext(e, w, s))
  {
    OthersFrame(e, w, s);
    var v := OthersNext(e, w, s);
    if s.MoveInitiator? {
      MoveKeeps(e.H, e.h, w.initiator, s.move, w.now, w.revealed);
    } else if s.MoveResponder? {
      MoveKeeps(e.H, e.h, w.responder, s.move, w.now, w.revealed);
    } else {
      TimeKeeps(w.initiator, w.now, w.revealed, v.now, v.revealed);
      TimeKeeps(w.responder, w.now, w.revealed, v.now, v.revealed);
    }
  }

  lemma ClaimKeptByOthers(e: Setup, w: World, s: Event)
    requires Inv(e, w) && OthersEnabled(e, w, s)
    ensures ClaimOk(e, OthersNext(e, w, s))
  {
    if w.claim.Some? && s.MoveResponder? && s.move.Confirm? {
      assert Later(w.responder.Deep(), w.responder.hist[s.move.upTo], w.now, w.revealed);
    }
  }

  /** A first reveal goes only to an escrow that re-read Open, with the whole margin
      left at the check. The cutoff alone lets a settled re-read through; the
      estimate that follows does not. Until the escrow's own timeout it is then
      still there to be claimed, and only until then. */
  lemma FirstRevealIsClaimable(e: Setup, w: World, k: nat, decidedAt: int, c: Check)
    requires e.Ok() && ChainsOk(w) && !w.revealed && MaySendClaim(e, w, k, decidedAt, c)
    ensures c.seen.status == Open && PaysMaker(e, c.seen)
    ensures c.checkedAt + e.claimSafetyS < w.responder.hist[k].timeout
    ensures w.now < w.responder.hist[k].timeout ==> PaysMaker(e, w.responder.Head())
    ensures Claimable(w.responder.Head(), w.now) <==> w.now < w.responder.hist[k].timeout
  {
    Views(w.responder, k, w.now, w.revealed);
  }

  lemma ClaimKeptByMaker(e: Setup, w: World, s: Event)
    requires Inv(e, w) && w.disk.Some? && MakerEnabled(e, w, w.disk.value, s)
    ensures ClaimOk(e, MakerNext(e, w, w.disk.value, s))
  {
    if s.SendSponsor? && UnderH(e, w.disk.value) {
      assert Later(w.responder.hist[s.index], w.responder.hist[s.index], w.now, w.revealed);
    }
    if s.SendClaim? && UnderH(e, w.disk.value) && !w.revealed {
      FirstRevealIsClaimable(e, w, s.index, s.decidedAt, s.check);
    }
  }

  lemma OthersKeep(e: Setup, w: World, s: Event)
    requires Inv(e, w) && OthersEnabled(e, w, s)
    ensures Inv(e, OthersNext(e, w, s))
  {
    OthersFrame(e, w, s);
    DecisionKeptByOthers(e, w, s);
    ChainsKeptByOthers(e, w, s);
    EntriesKeptByOthers(e, w, s);
    EscrowKeptByOthers(e, w, s);
    ClaimKeptByOthers(e, w, s);
  }

  lemma MakerKeeps(e: Setup, w: World, s: Event)
    requires Inv(e, w) && w.disk.Some? && MakerEnabled(e, w, w.disk.value, s)
    ensures Inv(e, MakerNext(e, w, w.disk.value, s))
  {
    RecordKept(e, w, s);
    ChainsKeptByMaker(e, w, s);
    EntriesKeptByMaker(e, w, s);
    ClaimKeptByMaker(e, w, s);
    if Writes(s) {
      DecisionKeptByWrite(e, w, s);
      EscrowKeptByWrite(e, w, s);
    } else {
      DecisionKeptBySend(e, w, s);
      EscrowKeptBySend(e, w, s);
    }
  }

  lemma StepKeeps(e: Setup, w: World, s: Event)
    requires Inv(e, w) && Enabled(e, w, s)
    ensures Inv(e, Next(e, w, s))
  {
    if OthersEnabled(e, w, s) { OthersKeep(e, w, s); } else { MakerKeeps(e, w, s); }
  }

  lemma {:induction false} RunKeeps(e: Setup, ws: seq<World>, steps: seq<Event>, n: nat)
    requires Run(e, ws, steps) && n < |ws|
    ensures Inv(e, ws[n])
  {
    if n > 0 {
      RunKeeps(e, ws, steps, n - 1);
      assert Follows(e, ws[n - 1], steps[n - 1], ws[n]);
      StepKeeps(e, ws[n - 1], steps[n - 1]);
    }
  }

  // ---- no orphaned escrow ----

  /** An unexposed record at depth stays unexposed, at depth and at head. */
  lemma DepthDecides(e: Setup, w: World)
    requires Inv(e, w) && !ExposedAtDepth(e, w)
    ensures !Exposed(e, w)
  {
    Views(w.initiator, w.initiator.final, w.now, w.revealed);
    assert OurEntry(e, w, w.initiator.Head());
  }

  lemma RetiredStaysSafe(e: Setup, w: World, s: Event)
    requires Inv(e, w) && w.disk.None? && !ExposedAtDepth(e, w) && Enabled(e, w, s)
    ensures Next(e, w, s).disk.None? && !ExposedAtDepth(e, Next(e, w, s))
  {
    OthersFrame(e, w, s);
    if s.MoveInitiator? && s.move.Confirm? {
      var deeper := w.initiator.hist[s.move.upTo];
      assert Later(w.initiator.Deep(), deeper, w.now, w.revealed);
      assert OurEntry(e, w, deeper);
    }
  }

  lemma {:induction false} SafePath(e: Setup, ws: seq<World>, steps: seq<Event>, n: nat)
    requires Path(e, ws, steps) && n < |ws|
    requires Inv(e, ws[0]) && ws[0].disk.None? && !ExposedAtDepth(e, ws[0])
    ensures Inv(e, ws[n]) && ws[n].disk.None? && !ExposedAtDepth(e, ws[n])
  {
    if n > 0 {
      SafePath(e, ws, steps, n - 1);
      assert Follows(e, ws[n - 1], steps[n - 1], ws[n]);
      StepKeeps(e, ws[n - 1], steps[n - 1]);
      RetiredStaysSafe(e, ws[n - 1], steps[n - 1]);
    }
  }

  /** Above depth everything can be reorganised away. */
  lemma ReorgExposes(e: Setup, w: World) returns (ws: seq<World>, steps: seq<Event>)
    requires ExposedAtDepth(e, w)
    ensures Path(e, ws, steps) && ws[0] == w && Exposed(e, ws[|ws| - 1])
  {
    var back := MoveInitiator(Reorg(w.initiator.final + 1));
    ws, steps := [w, Next(e, w, back)], [back];
    assert Follows(e, ws[0], steps[0], ws[1]);
  }

  /** Dropping the record is safe, whatever happens afterwards, exactly when the
      initiator leg read at confirmation depth shows no exposure: settled, or taken by
      somebody else, or empty with no lock of ours on the way. */
  lemma RetireIsSafeExactly(e: Setup, w: World)
    requires Inv(e, w) && Enabled(e, w, Retire)
    ensures (forall ws, steps :: Path(e, ws, steps) && ws[0] == Next(e, w, Retire) ==> !Exposed(e, ws[|ws| - 1]))
            <==> !ExposedAtDepth(e, w)
  {
    var v := Next(e, w, Retire);
    StepKeeps(e, w, Retire);
    if ExposedAtDepth(e, w) {
      var ws, steps := ReorgExposes(e, v);
    } else {
      forall ws, steps | Path(e, ws, steps) && ws[0] == v ensures !Exposed(e, ws[|ws| - 1]) {
        SafePath(e, ws, steps, |ws| - 1);
        DepthDecides(e, ws[|ws| - 1]);
      }
    }
  }

  /** A record dropped before it was filled or before its lock was marked is never a
      risk: only a finish can be. */
  lemma OnlyFinishCanRisk(e: Setup, w: World)
    requires Inv(e, w) && w.disk.Some? && (!w.disk.value.Filled() || w.disk.value.lockSentAt.None?)
    ensures !ExposedAtDepth(e, w)
  {
    assert OurEntry(e, w, w.initiator.Deep());
  }

  /** The step at which the record went away. */
  lemma {:induction false} RetiredWhen(e: Setup, ws: seq<World>, steps: seq<Event>, n: nat) returns (j: nat)
    requires Run(e, ws, steps) && n < |ws| && ws[n].disk.None?
    ensures j < n && steps[j].Retire? && ws[j].disk.Some? && ws[j + 1].disk.None?
  {
    assert Follows(e, ws[n - 1], steps[n - 1], ws[n]);
    if ws[n - 1].disk.None? {
      j := RetiredWhen(e, ws, steps, n - 1);
    } else {
      j := n - 1;
      if OthersEnabled(e, ws[j], steps[j]) { OthersFrame(e, ws[j], steps[j]); }
    }
  }

  /** While the maker's money is locked under `h`, or a lock it broadcast can still
      land there, the state file holds the fill, the secret and the lock marker; the
      one way out is a retirement over an exposure at depth, after some head read of
      the leg was terminal. */
  lemma NoOrphanedEscrow(e: Setup, ws: seq<World>, steps: seq<Event>, n: nat)
    requires Run(e, ws, steps) && n < |ws| && Exposed(e, ws[n])
    ensures (HoldsSecret(e, ws[n]) && ws[n].disk.value.lockSentAt.Some?)
            || exists j :: 0 <= j < n && steps[j].Retire? && ExposedAtDepth(e, ws[j]) && ws[j].settled
  {
    RunKeeps(e, ws, steps, n);
    assert OurEntry(e, ws[n], ws[n].initiator.Head());
    if ws[n].disk.None? {
      var j := RetiredWhen(e, ws, steps, n);
      RunKeeps(e, ws, steps, j);
      RunKeeps(e, ws, steps, j + 1);
      assert Follows(e, ws[j], steps[j], ws[j + 1]);
      if !ExposedAtDepth(e, ws[j]) {
        assert Path(e, ws[j + 1..], steps[j + 1..]) by { Suffix(e, ws, steps, j + 1); }
        SafePath(e, ws[j + 1..], steps[j + 1..], n - j - 1);
        DepthDecides(e, ws[n]);
      } else {
        RetireNeedsSettlement(e, ws[j]);
      }
    }
  }

  lemma RetireNeedsSettlement(e: Setup, w: World)
    requires Inv(e, w) && w.disk.Some? && Enabled(e, w, Retire) && ExposedAtDepth(e, w)
    ensures w.settled
  {
    assert OurEntry(e, w, w.initiator.Deep());
  }

  lemma Suffix(e: Setup, ws: seq<World>, steps: seq<Event>, k: nat)
    requires Path(e, ws, steps) && k < |ws|
    ensures Path(e, ws[k..], steps[k..])
  {
    forall n | 0 <= n < |steps[k..]| ensures Follows(e, ws[k..][n], steps[k..][n], ws[k..][n + 1]) {
      assert Follows(e, ws[k + n], steps[k + n], ws[k + n + 1]);
    }
  }

  // ---- one terminal decision ----

  lemma PublishedKept(e: Setup, ws: seq<World>, steps: seq<Event>, n: nat)
    requires Run(e, ws, steps) && n < |steps|
    ensures ws[n].published <= ws[n + 1].published
  {
    var w, s := ws[n], steps[n];
    assert Follows(e, w, s, ws[n + 1]);
    if OthersEnabled(e, w, s) { OthersFrame(e, w, s); } else { MakerFrame(e, w, s); }
  }

  lemma {:induction false} PublishedGrows(e: Setup, ws: seq<World>, steps: seq<Event>, n: nat, m: nat)
    requires Run(e, ws, steps) && n <= m < |ws|
    ensures ws[n].published <= ws[m].published
    decreases m - n
  {
    if n < m {
      PublishedGrows(e, ws, steps, n, m - 1);
      PublishedKept(e, ws, steps, m - 1);
    }
  }

  /** Whatever a run publishes, at whatever moments, is one and the same artifact. */
  lemma OneTerminalDecision(e: Setup, ws: seq<World>, steps: seq<Event>, n: nat, m: nat, a: Artifact, b: Artifact)
    requires Run(e, ws, steps) && n < |ws| && m < |ws| && a in ws[n].published && b in ws[m].published
    ensures a == b
  {
    var last := if n < m then m else n;
    PublishedGrows(e, ws, steps, n, last);
    PublishedGrows(e, ws, steps, m, last);
    RunKeeps(e, ws, steps, last);
  }

  // ---- funding authority ----

  lemma ReleaseKept(e: Setup, ws: seq<World>, steps: seq<Event>, n: nat)
    requires Run(e, ws, steps) && n < |steps|
    requires ws[n].disk.None? || ws[n].disk.value.Released()
    ensures ws[n + 1].disk.None? || ws[n + 1].disk.value.Released()
  {
    RunKeeps(e, ws, steps, n);
    var w, s := ws[n], steps[n];
    assert Follows(e, w, s, ws[n + 1]);
    if OthersEnabled(e, w, s) {
      OthersFrame(e, w, s);
    } else if Writes(s) && !s.Retire? {
      WriteKeeps(e, w.disk.value, s);
    }
  }

  lemma {:induction false} ReleaseSticks(e: Setup, ws: seq<World>, steps: seq<Event>, n: nat, m: nat)
    requires Run(e, ws, steps) && n <= m < |ws|
    requires ws[n].disk.None? || ws[n].disk.value.Released()
    ensures ws[m].disk.None? || ws[m].disk.value.Released()
    decreases m - n
  {
    if n < m {
      ReleaseSticks(e, ws, steps, n, m - 1);
      ReleaseKept(e, ws, steps, m - 1);
    }
  }

  /** A lock goes out only under a durable acknowledgment of the published fill
      whose terms it carries, and never after a release or a retirement. */
  lemma FundingAuthority(e: Setup, ws: seq<World>, steps: seq<Event>, m: nat)
    requires Run(e, ws, steps) && m < |steps| && steps[m].SendLock?
    ensures ws[m].disk.Some? && ws[m].disk.value.Acknowledged() && ws[m].disk.value.Filled()
    ensures var f := ws[m].disk.value.protocol.value.fillProof.value;
            && f in ws[m].acked && FillArtifact(f) in ws[m].published
            && LockTerms(e, ws[m].disk.value) == FillTerms(e, f) && ws[m].disk.value.hashlock == Some(f.hashlock)
    ensures forall n :: 0 <= n <= m ==> ws[n].disk.Some? && !ws[n].disk.value.Released()
  {
    RunKeeps(e, ws, steps, m);
    assert Follows(e, ws[m], steps[m], ws[m + 1]);
    forall n | 0 <= n <= m ensures ws[n].disk.Some? && !ws[n].disk.value.Released() {
      if ws[n].disk.None? || ws[n].disk.value.Released() { ReleaseSticks(e, ws, steps, n, m); }
    }
  }

  /** What stands on chain in the maker's name, now or at any earlier moment, is what
      the acknowledged fill says. */
  lemma EscrowCarriesTheFill(e: Setup, ws: seq<World>, steps: seq<Event>, n: nat, k: nat)
    requires Run(e, ws, steps) && n < |ws| && k < |ws[n].initiator.hist| && ws[n].initiator.hist[k].initiator == e.self
    ensures exists f :: f in ws[n].acked && f.hashlock == e.h && SameTerms(ws[n].initiator.hist[k], FillTerms(e, f))
  {
    RunKeeps(e, ws, steps, n);
    assert OurEntry(e, ws[n], ws[n].initiator.hist[k]);
    var f :| f in ws[n].acked && f.hashlock == e.h && ws[n].lockPending.value == FillTerms(e, f);
    assert SameTerms(ws[n].initiator.hist[k], FillTerms(e, f));
  }

  // ---- maker atomicity ----

  /** The maker holds the responder payout at depth. */
  predicate Paid(e: Setup, w: World) {
    w.responder.Ok() && w.responder.Deep().status == Claimed && PaysMaker(e, w.responder.Deep())
  }

  /** The claim is under way on a confirmed escrow, before that escrow's own timeout. */
  predicate ClaimUnderWay(e: Setup, w: World) {
    && w.claim.Some? && w.claim.value.index <= w.responder.final < |w.responder.hist|
    && var r := w.responder.hist[w.claim.value.index];
    && r.status == Open && PaysMaker(e, r) && w.now <= w.claim.value.due < r.timeout
  }

  lemma RevealedIsSafe(e: Setup, w: World)
    requires Inv(e, w) && w.revealed && !w.late
    ensures Paid(e, w) || ClaimUnderWay(e, w)
    ensures forall m :: 0 <= m < |w.responder.hist| ==> w.responder.hist[m].status != Refunded
  {
    var c, k := w.responder, w.claim.value.index;
    assert Later(c.hist[k], c.Deep(), w.now, w.revealed);
    forall m | 0 <= m < |c.hist| ensures c.hist[m].status != Refunded {
      if m <= k {
        assert Later(c.hist[m], c.hist[k], w.now, w.revealed);
      } else {
        assert Later(c.hist[k], c.hist[m], w.now, w.revealed);
        if m <= c.final {
          assert Later(c.hist[m], c.Deep(), w.now, w.revealed);
        } else {
          assert Later(c.Deep(), c.hist[m], w.now, w.revealed);
        }
      }
    }
  }

  /** Whenever the taker has been paid from the maker's lock, even in a block that may
      yet be reorganised, the maker has been paid or its claim is still in time; no such
      state has the other leg refunded. */
  lemma MakerAtomicity(e: Setup, ws: seq<World>, steps: seq<Event>, n: nat, k: nat)
    requires Run(e, ws, steps) && n < |ws| && !ws[n].late
    requires k < |ws[n].initiator.hist| && ws[n].initiator.hist[k].status == Claimed
    ensures Paid(e, ws[n]) || ClaimUnderWay(e, ws[n])
    ensures ws[n].responder.Ok() && ws[n].responder.Head().status != Refunded
  {
    RunKeeps(e, ws, steps, n);
    var i := ws[n].initiator;
    assert Later(i.hist[k], i.hist[k], ws[n].now, ws[n].revealed);
    RevealedIsSafe(e, ws[n]);
  }

  lemma Extend(e: Setup, ws: seq<World>, steps: seq<Event>, s: Event)
    returns (ws': seq<World>, steps': seq<Event>)
    requires Run(e, ws, steps) && Enabled(e, ws[|ws| - 1], s)
    ensures ws' == ws + [Next(e, ws[|ws| - 1], s)] && steps' == steps + [s] && Run(e, ws', steps')
  {
    ws', steps' := ws + [Next(e, ws[|ws| - 1], s)], steps + [s];
    forall n | 0 <= n < |steps'| ensures Follows(e, ws'[n], steps'[n], ws'[n + 1]) {
      if n < |steps| { assert Follows(e, ws[n], steps[n], ws[n + 1]); }
    }
  }
}
