/**
 * Who may do what in HTLCv3, and exactly when a transaction goes through, said of any
 * transaction's effect and not of the operation that has it.
 */
module Authority {
  import opened Common
  import opened Leg
  import opened Htlc

  // ---- what each kind of transaction can do to one escrow ----

  lemma LockEffect(i: Instance, c: Contract, call: Call, h: Hash)
    ensures var s, s', d := c.SwapOf(h), Next(i, c, call).SwapOf(h), Next(i, c, call);
      call.op.Lock? && s' != s ==>
        && s.status == NoSwap && h == call.op.hashlock && h != 0 && call.op.timeout > call.now
        && 0 < call.op.amount <= MAX_AMOUNT
        && s' == LegState(Open, call.sender, call.op.recipient, call.op.token, call.op.amount, call.op.timeout, 0)
        && (if call.op.open then s'.recipient == 0 else s'.recipient != 0 && s'.recipient != i.self)
        && d.Held(s'.token) == c.Held(s'.token) + s'.amount
        && (s'.token != 0 ==> call.op.hasCode && call.op.pulled == Some(s'.amount))
  {
    if call.op.Lock? { assert Execute(i, c, call) == LockOp(i, c, call.sender, call.now, call.op); }
  }

  lemma AssignEffect(i: Instance, c: Contract, call: Call, h: Hash)
    ensures var s, s' := c.SwapOf(h), Next(i, c, call).SwapOf(h);
      call.op.Assign? && s' != s ==>
        && h == call.op.hashlock && s.status == Open && s.recipient == 0 && call.now < s.timeout
        && call.sender == s.initiator && s' == s.(recipient := call.op.recipient)
        && s'.recipient != 0 && s'.recipient != i.self
  {
    if call.op.Assign? {
      assert Execute(i, c, call) == AssignOp(i, c, call.sender, call.now, call.op.hashlock, call.op.recipient);
    }
  }

  lemma ReleaseEffect(i: Instance, c: Contract, call: Call, h: Hash)
    ensures var s, s' := c.SwapOf(h), Next(i, c, call).SwapOf(h);
      call.op.Release? && s' != s ==>
        && h == call.op.hashlock && s.status == Open && s.recipient == 0 && call.sender == s.initiator
        && s' == s.(status := Refunded)
  {
    if call.op.Release? { assert Execute(i, c, call) == ReleaseOp(c, call.sender, call.op.hashlock, call.pays); }
  }

  lemma ClaimEffect(i: Instance, c: Contract, call: Call, h: Hash)
    ensures var s, s' := c.SwapOf(h), Next(i, c, call).SwapOf(h);
      call.op.Claim? && s' != s ==>
        && h == call.op.hashlock && s.status == Open && s.recipient != 0 && call.now < s.timeout
        && i.hash(call.op.preimage) == h && s' == s.(status := Claimed, preimage := call.op.preimage)
  {
    if call.op.Claim? {
      assert Execute(i, c, call) == ClaimOp(i, c, call.now, call.op.hashlock, call.op.preimage, call.pays);
    }
  }

  lemma RefundEffect(i: Instance, c: Contract, call: Call, h: Hash)
    ensures var s, s' := c.SwapOf(h), Next(i, c, call).SwapOf(h);
      call.op.Refund? && s' != s ==>
        h == call.op.hashlock && s.status == Open && call.now >= s.timeout && s' == s.(status := Refunded)
  {
    if call.op.Refund? { assert Execute(i, c, call) == RefundOp(c, call.now, call.op.hashlock, call.pays); }
  }

  lemma SpendEffect(i: Instance, c: Contract, call: Call)
    ensures call.op.Withdraw? || call.op.WithdrawAll? || call.op.PushCredit? ==> Next(i, c, call).swaps == c.swaps
  {
  }

  lemma AllEffects(i: Instance, c: Contract, call: Call, h: Hash)
    ensures var s, s' := c.SwapOf(h), Next(i, c, call).SwapOf(h);
      s' != s ==>
        || (call.op.Lock? && s.status == NoSwap && s'.status == Open)
        || (call.op.Assign? && s.status == Open && s'.status == Open)
        || (call.op.Release? && s.status == Open && s' == s.(status := Refunded))
        || (call.op.Claim? && s.status == Open && s'.status == Claimed && s'.recipient == s.recipient)
        || (call.op.Refund? && s.status == Open && s' == s.(status := Refunded))
  {
    LockEffect(i, c, call, h);
    AssignEffect(i, c, call, h);
    ReleaseEffect(i, c, call, h);
    ClaimEffect(i, c, call, h);
    RefundEffect(i, c, call, h);
    SpendEffect(i, c, call);
  }

  // ---- who may do it ----

  /** An open escrow's recipient changes once, by its initiator, to a real account. */
  lemma OnlyInitiatorAssigns(i: Instance, c: Contract, call: Call, h: Hash)
    requires c.SwapOf(h).status == Open && Next(i, c, call).SwapOf(h).recipient != c.SwapOf(h).recipient
    ensures call.sender == c.SwapOf(h).initiator && call.now < c.SwapOf(h).timeout && c.SwapOf(h).recipient == 0
    ensures Next(i, c, call).SwapOf(h).recipient != 0 && Next(i, c, call).SwapOf(h).recipient != i.self
  {
    AllEffects(i, c, call, h);
    AssignEffect(i, c, call, h);
  }

  /** Before its timeout an escrow goes back only by its initiator, and only unassigned. */
  lemma OnlyInitiatorReleases(i: Instance, c: Contract, call: Call, h: Hash)
    requires c.SwapOf(h).status == Open && Next(i, c, call).SwapOf(h).status == Refunded
    requires call.now < c.SwapOf(h).timeout
    ensures call.sender == c.SwapOf(h).initiator && c.SwapOf(h).recipient == 0
  {
    AllEffects(i, c, call, h);
    ReleaseEffect(i, c, call, h);
    RefundEffect(i, c, call, h);
  }

  /** An escrow is claimed only assigned, in time, with its preimage, which is kept. */
  lemma OnlyPreimageClaims(i: Instance, c: Contract, call: Call, h: Hash)
    requires c.SwapOf(h).status == Open && Next(i, c, call).SwapOf(h).status == Claimed
    ensures c.SwapOf(h).recipient != 0 && call.now < c.SwapOf(h).timeout
    ensures i.hash(Next(i, c, call).SwapOf(h).preimage) == h
  {
    AllEffects(i, c, call, h);
    ClaimEffect(i, c, call, h);
  }

  /** A new escrow is the sender's own, positive, capped, unexpired, under a fresh nonzero
      hashlock, and exactly its amount came in. */
  lemma LocksAreFunded(i: Instance, c: Contract, call: Call, h: Hash)
    requires c.SwapOf(h).status == NoSwap && Next(i, c, call).SwapOf(h).status != NoSwap
    ensures var s, d := Next(i, c, call).SwapOf(h), Next(i, c, call);
      && s.status == Open && s.initiator == call.sender && h != 0
      && 0 < s.amount <= MAX_AMOUNT && s.timeout > call.now && s.preimage == 0
      && (s.recipient != 0 ==> s.recipient != i.self)
      && d.Held(s.token) == c.Held(s.token) + s.amount
      && (s.token != 0 ==> call.op.Lock? && call.op.hasCode && call.op.pulled == Some(s.amount))
  {
    AllEffects(i, c, call, h);
    LockEffect(i, c, call, h);
  }

  /** A balance of credit falls only by its owner, or by paying its owner in full. */
  lemma OnlyOwnerSpends(i: Instance, c: Contract, call: Call, t: Address, a: Address)
    requires Next(i, c, call).CreditOf(t, a) < c.CreditOf(t, a)
    ensures call.pays
    ensures || (call.sender == a && (call.op.Withdraw? || call.op.WithdrawAll?)
                && call.op.token == t && call.op.to != 0 && call.op.to != i.self)
            || (call.op == PushCredit(t, a) && Next(i, c, call).CreditOf(t, a) == 0)
    ensures c.Held(t) - Next(i, c, call).Held(t) == c.CreditOf(t, a) - Next(i, c, call).CreditOf(t, a)
  {
    match call.op
    case Withdraw(token, to, amount) =>
    case WithdrawAll(token, to) =>
    case PushCredit(token, account) =>
    case _ => SettlementsKeepCredit(i, c, call, t, a);
  }

  /** No lock, assignment or settlement takes credit from anybody. */
  lemma SettlementsKeepCredit(i: Instance, c: Contract, call: Call, t: Address, a: Address)
    requires !call.op.Withdraw? && !call.op.WithdrawAll? && !call.op.PushCredit?
    ensures Next(i, c, call).CreditOf(t, a) >= c.CreditOf(t, a)
  {
  }

  /** It rises only when one of its own escrows is settled and the payout fails: the
      recipient's by a claim, the initiator's by a refund or release, by the amount. */
  lemma OnlySettlementsCredit(i: Instance, c: Contract, call: Call, t: Address, a: Address)
    requires Next(i, c, call).CreditOf(t, a) > c.CreditOf(t, a)
    ensures call.op.Claim? || call.op.Refund? || call.op.Release?
    ensures var h := call.op.hashlock;
      && c.SwapOf(h).status == Open && c.SwapOf(h).token == t && Terminal(Next(i, c, call).SwapOf(h))
      && a == (if Next(i, c, call).SwapOf(h).status == Claimed then c.SwapOf(h).recipient else c.SwapOf(h).initiator)
      && Next(i, c, call).CreditOf(t, a) == c.CreditOf(t, a) + c.SwapOf(h).amount
  {
  }

  // ---- exactly when a transaction goes through ----

  lemma LockSucceedsExactly(i: Instance, c: Contract, call: Call)
    requires call.op.Lock?
    ensures var o := call.op;
      Execute(i, c, call).Done? <==>
      && o.hashlock != 0 && c.SwapOf(o.hashlock).status == NoSwap
      && 0 < o.amount <= MAX_AMOUNT && call.now < o.timeout
      && (if o.open then o.recipient == 0 else o.recipient != 0 && o.recipient != i.self)
      && (o.token != 0 ==> o.hasCode && o.pulled == Some(o.amount))
  {
  }

  lemma SettlementSucceedsExactly(i: Instance, c: Contract, call: Call)
    ensures call.op.Assign? ==>
      var s := c.SwapOf(call.op.hashlock);
      (Execute(i, c, call).Done? <==>
        s.status == Open && call.sender == s.initiator && s.recipient == 0 && call.now < s.timeout
        && call.op.recipient != 0 && call.op.recipient != i.self)
    ensures call.op.Release? ==>
      var s := c.SwapOf(call.op.hashlock);
      (Execute(i, c, call).Done? <==> s.status == Open && call.sender == s.initiator && s.recipient == 0)
    ensures call.op.Claim? ==>
      var s := c.SwapOf(call.op.hashlock);
      (Execute(i, c, call).Done? <==>
        s.status == Open && s.recipient != 0 && call.now < s.timeout && i.hash(call.op.preimage) == call.op.hashlock)
    ensures call.op.Refund? ==>
      var s := c.SwapOf(call.op.hashlock);
      (Execute(i, c, call).Done? <==> s.status == Open && call.now >= s.timeout)
  {
  }

  /** In a contract whose books balance, credit moves exactly when it covers the amount
      and the payee accepts it. */
  lemma CreditMovesExactly(i: Instance, c: Contract, call: Call)
    requires Conserved(c)
    ensures call.op.Withdraw? ==>
      (Execute(i, c, call).Done? <==>
        && call.op.to != 0 && call.op.to != i.self && call.pays
        && 0 < call.op.amount <= c.CreditOf(call.op.token, call.sender))
    ensures call.op.WithdrawAll? ==>
      (Execute(i, c, call).Done? <==>
        call.op.to != 0 && call.op.to != i.self && call.pays && c.CreditOf(call.op.token, call.sender) > 0)
    ensures call.op.PushCredit? ==>
      (Execute(i, c, call).Done? <==> call.pays && c.CreditOf(call.op.token, call.op.account) > 0)
  {
    if call.op.Withdraw? || call.op.WithdrawAll? {
      Backed(c, call.op.token, call.sender, 0);
    } else if call.op.PushCredit? {
      Backed(c, call.op.token, call.op.account, 0);
    }
  }

  /** A transaction that does not go through changes nothing. */
  lemma RevertsChangeNothing(i: Instance, c: Contract, call: Call)
    requires Execute(i, c, call).Revert?
    ensures Next(i, c, call) == c
  {
  }
}
