/**
 * What it means, on the two ledgers, that the maker retires a settled order. Legs,
 * balances and logs are separate reads at separate moments of each chain's history.
 */
module Retirement {
  import opened Common
  import opened Leg
  import opened MakerPolicy
  import opened Htlc
  import opened Credit

  // ---- one account's ledger over a whole history ----

  /** A contract's transactions, with some attribution of one account's withdrawals
      to the swaps that credited it. */
  datatype Ledger = Ledger(
    instance: Instance,
    calls: seq<Call>,
    owes: seq<Owed>,
    token: Address,
    account: Address)
  {
    ghost predicate Ok() { Attribution(instance, calls, owes, token, account) }

    function At(k: nat): Contract
      requires k <= |calls|
    {
      Run(instance, EMPTY, calls[..k])
    }

    /** What this attribution owes the account from swap `h` after `k` transactions. */
    function Due(h: Hash, k: nat): nat
      requires |owes| == |calls| + 1 && k <= |calls|
    {
      OwedTo(owes[k], h)
    }

    function Credited(h: Hash, k: nat): nat
      requires k <= |calls|
    {
      CreditedBy(At(k).log, token, account, h)
    }
  }

  lemma AtNext(l: Ledger, k: nat)
    requires k < |l.calls|
    ensures l.At(k + 1) == Next(l.instance, l.At(k), l.calls[k])
  {
    assert l.calls[..k + 1][..k] == l.calls[..k];
  }

  /** One transaction as this ledger and one swap see it. */
  lemma StepFacts(l: Ledger, h: Hash, k: nat)
    requires k < |l.calls|
    ensures LedgerStep(l.At(k), l.At(k + 1), l.token, l.account)
    ensures Terminal(l.At(k).SwapOf(h)) ==> l.At(k + 1).SwapOf(h) == l.At(k).SwapOf(h)
  {
    AtNext(l, k);
    NextIsLegStep(l.instance, l.At(k), l.calls[k], h);
    NextLedger(l.instance, l.At(k), l.calls[k], l.token, l.account);
  }

  lemma CreditedNext(c: Contract, d: Contract, t: Address, a: Address, h: Hash)
    requires LedgerStep(c, d, t, a)
    ensures CreditedBy(c.log, t, a, h) <= CreditedBy(d.log, t, a, h)
    ensures c.SwapOf(h).status != Open ==> CreditedBy(d.log, t, a, h) == CreditedBy(c.log, t, a, h)
  {
    if |d.log| == |c.log| + 1 {
      assert d.log == c.log + [d.log[|c.log|]];
      CreditedByAppend(c.log, d.log[|c.log|], t, a, h);
    }
  }

  lemma DueNext(c: Contract, d: Contract, owed: Owed, owed': Owed, t: Address, a: Address, h: Hash)
    requires LedgerStep(c, d, t, a) && Attributes(c, d, owed, owed', t, a) && c.SwapOf(h).status != Open
    ensures OwedTo(owed', h) <= OwedTo(owed, h)
  {
  }

  /** One transaction after the swap is settled: no new credit names it, and no
      attribution can owe more for it. */
  lemma SettledStep(l: Ledger, h: Hash, k: nat)
    requires l.Ok() && k < |l.calls| && Terminal(l.At(k).SwapOf(h))
    ensures l.At(k + 1).SwapOf(h) == l.At(k).SwapOf(h)
    ensures l.Credited(h, k + 1) == l.Credited(h, k) && l.Due(h, k + 1) <= l.Due(h, k)
  {
    StepFacts(l, h, k);
    CreditedNext(l.At(k), l.At(k + 1), l.token, l.account, h);
    assert Attributes(l.At(k), l.At(k + 1), l.owes[k], l.owes[k + 1], l.token, l.account);
    DueNext(l.At(k), l.At(k + 1), l.owes[k], l.owes[k + 1], l.token, l.account, h);
  }

  lemma {:induction false} SettledForGood(l: Ledger, h: Hash, a: nat, c: nat)
    requires l.Ok() && a <= c <= |l.calls| && Terminal(l.At(a).SwapOf(h))
    ensures Terminal(l.At(c).SwapOf(h)) && l.Credited(h, c) == l.Credited(h, a) && l.Due(h, c) <= l.Due(h, a)
    decreases c - a
  {
    if a < c {
      SettledForGood(l, h, a, c - 1);
      SettledStep(l, h, c - 1);
    }
  }

  lemma {:induction false} CreditsOnlyAdd(l: Ledger, h: Hash, b: nat, q: nat)
    requires b <= q <= |l.calls|
    ensures l.Credited(h, b) <= l.Credited(h, q)
    decreases q - b
  {
    if b < q {
      CreditsOnlyAdd(l, h, b, q - 1);
      StepFacts(l, h, q - 1);
      CreditedNext(l.At(q - 1), l.At(q), l.token, l.account, h);
    }
  }

  /** At every moment a swap is owed at most its events and at most the balance. */
  lemma DueIsBounded(l: Ledger, h: Hash, k: nat)
    requires l.Ok() && k <= |l.calls|
    ensures l.Due(h, k) <= l.Credited(h, k) && l.Due(h, k) <= l.At(k).CreditOf(l.token, l.account)
  {
    AttributionInvariant(l.instance, l.calls, l.owes, l.token, l.account, k);
    var owed := l.owes[k];
    assert OwedTo(owed, h) <= CreditedBy(l.At(k).log, l.token, l.account, h);
    if h in owed { SumBounds(owed.Keys, h, g => OwedTo(owed, g)); }
  }

  // ---- one credit read ----

  /** A failed read, or a balance and the raw answer to the log query; an answer that
      is no list is None, and words that do not decode are None. */
  datatype CreditRead = Failed | Answered(balance: nat, raw: Option<seq<Word>>)

  /** What `creditOrNull` makes of it: an answer that cannot be read counts as zero,
      not as a failure. */
  function Amount(r: CreditRead): Option<nat> {
    match r
    case Failed => None
    case Answered(balance, raw) => Some(if balance > 0 then Min(Total(raw.GetOr([])), balance) else 0)
  }

  /** When a leg and a credit of one chain were read, in numbers of transactions. The
      log query only runs on a nonzero balance, and after it. */
  datatype Sight = Sight(ledger: Ledger, legAt: nat, balanceAt: nat, logAt: nat, read: CreditRead)
  {
    /** The node answered truthfully at those moments. */
    ghost predicate Ok(h: Hash, leg: Option<LegState>) {
      && ledger.Ok() && legAt <= |ledger.calls| && balanceAt <= logAt <= |ledger.calls|
      && (leg.Some? ==> leg.value == ledger.At(legAt).SwapOf(h))
      && (read.Answered? ==>
            && read.balance == ledger.At(balanceAt).CreditOf(ledger.token, ledger.account)
            && (read.balance > 0 ==> read.raw == Some(Answer(ledger.At(logAt).log, ledger.token, ledger.account, h))))
    }

    predicate LegFirst() { legAt <= balanceAt }

    /** Nothing owed from the balance read on, over the rest of the history. */
    ghost predicate NothingDue(h: Hash)
      requires |ledger.owes| == |ledger.calls| + 1
    {
      forall c :: balanceAt <= c <= |ledger.calls| ==> ledger.Due(h, c) == 0
    }
  }

  /** A zero is right at the moment of the balance read. */
  lemma ZeroIsRightThen(s: Sight, h: Hash)
    requires s.Ok(h, None) && Amount(s.read) == Some(0)
    ensures s.ledger.Due(h, s.balanceAt) == 0
    ensures s.read.balance > 0 ==> s.ledger.Credited(h, s.logAt) == 0
  {
    var l := s.ledger;
    DueIsBounded(l, h, s.balanceAt);
    AnswerTotals(l.At(s.logAt).log, l.token, l.account, h);
    CreditsOnlyAdd(l, h, s.balanceAt, s.logAt);
  }

  /** On a leg that was settled no later than the balance was read, a zero is right
      for good. */
  lemma ZeroIsRightForGood(s: Sight, h: Hash)
    requires s.Ok(h, None) && s.LegFirst() && Terminal(s.ledger.At(s.legAt).SwapOf(h)) && Amount(s.read) == Some(0)
    ensures s.NothingDue(h)
  {
    var l := s.ledger;
    ZeroIsRightThen(s, h);
    SettledForGood(l, h, s.legAt, s.balanceAt);
    forall c | s.balanceAt <= c <= |l.calls| ensures l.Due(h, c) == 0 {
      SettledForGood(l, h, s.balanceAt, c);
    }
  }

  // ---- retirement ----

  /** `ours`, `funded` and `taker` are the three credit reads: ours on the responder
      chain, ours and the taker's on the initiator chain. If every leg was read no later
      than the balances that go with it, a finish leaves nothing owed that the maker
      answers for, then and after any continuation, unless the order's withdrawals or its
      pushes are parked; the withdrawals of both legs are parked together. A responder
      leg that was never locked is vouched for at its read only. */
  lemma FinishOwesNothing(x: Input, h: Hash, ours: Sight, funded: Sight, taker: Sight)
    requires Decide(x) == Finish
    requires ours.Ok(h, x.rState) && funded.Ok(h, x.iState) && taker.Ok(h, x.iState)
    requires x.ourResponderCredit == Amount(ours.read) && x.ourInitiatorCredit == Amount(funded.read)
    requires x.takerCredit == Amount(taker.read)
    requires ours.LegFirst() && funded.LegFirst() && taker.LegFirst()
    ensures WithdrawParked(x.managed, x.now)
            || (funded.NothingDue(h) && ours.ledger.Due(h, ours.balanceAt) == 0
                && (MakerPolicy.Settled(x.rState) ==> ours.NothingDue(h)))
    ensures x.iState.Some?
    ensures PushableTakerCredit(x, x.iState.value) ==> PushParked(x.managed, x.now) || taker.NothingDue(h)
  {
    if !WithdrawParked(x.managed, x.now) {
      ZeroIsRightForGood(funded, h);
      ZeroIsRightThen(ours, h);
      if MakerPolicy.Settled(x.rState) { ZeroIsRightForGood(ours, h); }
    }
    if PushableTakerCredit(x, x.iState.value) && !PushParked(x.managed, x.now) { ZeroIsRightForGood(taker, h); }
  }

  /** With both legs settled and three zero readings the order is finished, in whatever
      order they were taken. */
  lemma ZeroReadingsFinish(x: Input)
    requires x.bookStatus == BookLocking && x.managed.lockSentAt.Some?
    requires x.managed.preimage.Some? && x.managed.hashlock.Some?
    requires x.managed.initiatorTimeout.Some? && x.managed.responderTimeout.Some?
    requires MakerPolicy.Settled(x.iState) && MakerPolicy.Settled(x.rState) && x.rConfirmed.Some?
    requires x.ourResponderCredit == Some(0) && x.ourInitiatorCredit == Some(0) && x.takerCredit == Some(0)
    ensures Decide(x) == Finish
  {
  }

  /** A credit other swaps left for the same account never holds this order, nor does one
      this swap left for another account or in another token: without an event of its own
      for the account it reads zero whatever the balance. */
  lemma OthersCreditsNeverPin(s: Sight, h: Hash)
    requires s.Ok(h, None) && s.read.Answered?
    requires !EverCredited(s.ledger.At(s.logAt).log, s.ledger.token, s.ledger.account, h)
    ensures Amount(s.read) == Some(0)
  {
    NeverCreditedReadsZero(s.ledger.At(s.logAt), s.ledger.token, s.ledger.account, h);
  }

  // ---- the read order is the exact condition ----

  const IDLE := Call(0, 0, Op.PushCredit(0, 0), false)
  const LOCKING := Call(5, 0, Op.Lock(1, 6, 0, 100, 10, false, false, None), true)
  const REFUNDING := Call(0, 10, Op.Refund(1), false)

  lemma {:induction false} IdleCalls(i: Instance, calls: seq<Call>)
    requires forall n :: 0 <= n < |calls| ==> calls[n] == IDLE
    ensures Run(i, EMPTY, calls) == EMPTY
  {
    if calls != [] {
      assert calls[|calls| - 1] == IDLE;
      IdleCalls(i, calls[..|calls| - 1]);
    }
  }

  const LOCKED := LegState(Open, 5, 6, 0, 100, 10, 0)
  const OPENED := Contract(map[1 := LOCKED], map[], map[], map[0 := 100], [])
  const CLOSED :=
    Contract(map[1 := LOCKED.(status := Refunded)], map[(0, 5) := 100], map[0 := 100], map[0 := 100],
             [Credited(0, 5, 1, 100)])

  lemma LockThenRefund(i: Instance)
    requires i.self == 9
    ensures Next(i, EMPTY, LOCKING) == OPENED && Next(i, OPENED, REFUNDING) == CLOSED
  {
    assert Next(i, EMPTY, LOCKING) == Locked(EMPTY, 5, LOCKING.op);
    assert OPENED.SwapOf(1) == LOCKED;
    var refunded := OPENED.(swaps := OPENED.swaps[1 := LOCKED.(status := Refunded)]);
    assert Next(i, OPENED, REFUNDING) == Htlc.Settled(refunded, 1, 0, 5, 100, false);
  }

  /** Whatever is idle first, then locks, then settles without delivery. */
  lemma LateHistory(i: Instance, a: nat, calls: seq<Call>, k: nat)
    requires i.self == 9 && a >= 2 && k <= a && calls == seq(a - 2, n => IDLE) + [LOCKING, REFUNDING]
    ensures Run(i, EMPTY, calls[..k]) == (if k == a then CLOSED else if k == a - 1 then OPENED else EMPTY)
  {
    IdleCalls(i, calls[..a - 2]);
    LockThenRefund(i);
    assert calls[..a - 1][..a - 2] == calls[..a - 2] && calls[..a][..a - 1] == calls[..a - 1];
    if k <= a - 2 { IdleCalls(i, calls[..k]); }
  }

  /** The leg settles in transaction `a - 1`, its refund cannot be delivered, and nothing
      happened to the account before. */
  lemma LateCredit(a: nat) returns (l: Ledger)
    requires a >= 2
    ensures l.Ok() && |l.calls| == a && l.token == 0 && l.account == 5
    ensures Terminal(l.At(a).SwapOf(1)) && l.Due(1, a) == 100
    ensures forall b :: 0 <= b < a ==> l.At(b).CreditOf(0, 5) == 0
  {
    var i := Instance(9, (s: Secret) => s);
    var calls := seq(a - 2, n => IDLE) + [LOCKING, REFUNDING];
    l := Ledger(i, calls, seq(a, n => map[]) + [map[1 := 100]], 0, 5);
    forall k | 0 <= k <= a
      ensures l.At(k) == (if k == a then CLOSED else if k == a - 1 then OPENED else EMPTY)
    {
      LateHistory(i, a, calls, k);
    }
    forall n | 0 <= n < a ensures Attributes(l.At(n), l.At(n + 1), l.owes[n], l.owes[n + 1], 0, 5) {
      assert n == a - 1 || n == a - 2 || n < a - 2;
    }
  }

  /** A leg read after `a` transactions and a balance read after `b`: a zero reading of a
      settled leg guarantees that nothing is owed, over all histories, exactly when the
      leg was read first. Reading all of them at once, unordered, does not. */
  lemma ReadOrderIsExact(a: nat, b: nat)
    requires a >= 2
    ensures (forall s: Sight, h: Hash ::
               (s.Ok(h, None) && s.legAt == a && s.balanceAt == b && Amount(s.read) == Some(0)
                && Terminal(s.ledger.At(a).SwapOf(h)))
               ==> s.ledger.Due(h, Max(a, b)) == 0)
            <==> a <= b
  {
    if a <= b {
      forall s: Sight, h: Hash | s.Ok(h, None) && s.legAt == a && s.balanceAt == b && Amount(s.read) == Some(0)
                                 && Terminal(s.ledger.At(a).SwapOf(h))
        ensures s.ledger.Due(h, Max(a, b)) == 0
      {
        ZeroIsRightForGood(s, h);
      }
    } else {
      var l := LateCredit(a);
      var s := Sight(l, a, b, b, Answered(0, None));
      assert s.Ok(1, None) && s.legAt == a && s.balanceAt == b && Amount(s.read) == Some(0);
      assert s.ledger.Due(1, Max(a, b)) == 100;
    }
  }

  /** The other exact condition: while something is owed and the balance is truthful, the
      reading is zero exactly when the log answer yields no amount, because it is no list
      or nothing in it decodes. */
  lemma UnreadableAnswerHides(l: Ledger, h: Hash, b: nat, raw: Option<seq<Word>>)
    requires l.Ok() && b <= |l.calls| && l.Due(h, b) > 0
    ensures Amount(Answered(l.At(b).CreditOf(l.token, l.account), raw)) == Some(0) <==> Total(raw.GetOr([])) == 0
  {
    DueIsBounded(l, h, b);
  }
}
