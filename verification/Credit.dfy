/**
 * What one swap still owes one payee. The contract's ledger is shared by every
 * swap of an account, so a withdrawal names no swap; the clients answer with
 * min(credited by this swap's events, ledger balance).
 */
module Credit {
  import opened Common
  import opened Leg
  import opened Htlc

  predicate Names(e: Credited, t: Address, a: Address, h: Hash) {
    e.token == t && e.account == a && e.hashlock == h
  }

  /** Everything the PayoutCredited events of this swap ever credited. */
  function CreditedBy(log: seq<Credited>, t: Address, a: Address, h: Hash): nat {
    if log == [] then 0
    else
      var e := log[|log| - 1];
      CreditedBy(log[..|log| - 1], t, a, h) + (if Names(e, t, a, h) then e.amount else 0)
  }

  // ---- the client's reading ----

  /** One data word of a log answer; None when it does not decode. */
  type Word = Option<nat>

  /** A node's faithful answer to the four-topic query. */
  function Answer(log: seq<Credited>, t: Address, a: Address, h: Hash): seq<Word> {
    if log == [] then []
    else
      var e := log[|log| - 1];
      Answer(log[..|log| - 1], t, a, h) + (if Names(e, t, a, h) then [Some(e.amount)] else [])
  }

  function Total(raw: seq<Word>): nat {
    if raw == [] then 0 else Total(raw[..|raw| - 1]) + raw[|raw| - 1].GetOr(0)
  }

  /** Words that do not decode are skipped; an answer that is no list counts as nothing. */
  method GetCreditedForSwap(raw: Option<seq<Word>>) returns (total: nat)
    ensures total == Total(raw.GetOr([]))
  {
    total := 0;
    if raw.None? { return; }
    var words := raw.value;
    for n := 0 to |words|
      invariant total == Total(words[..n])
    {
      assert words[..n + 1][..n] == words[..n];
      if words[n].Some? {
        total := total + words[n].value;
      }
    }
    assert words[..|words|] == words;
  }

  /** The reading both clients act on: the query only runs on a nonzero balance. */
  method ReadSwapCredit(global: nat, raw: Option<seq<Word>>) returns (reading: nat)
    ensures reading == (if global > 0 then Min(Total(raw.GetOr([])), global) else 0)
  {
    var credited := 0;
    if global > 0 {
      credited := GetCreditedForSwap(raw);
    }
    reading := if credited < global then credited else global;
  }

  lemma {:induction false} AnswerTotals(log: seq<Credited>, t: Address, a: Address, h: Hash)
    ensures Total(Answer(log, t, a, h)) == CreditedBy(log, t, a, h)
  {
    if log != [] {
      var front := log[..|log| - 1];
      AnswerTotals(front, t, a, h);
      var e := log[|log| - 1];
      if Names(e, t, a, h) {
        var words := Answer(front, t, a, h) + [Some(e.amount)];
        assert words[..|words| - 1] == Answer(front, t, a, h);
      } else {
        assert Answer(front, t, a, h) + [] == Answer(front, t, a, h);
      }
    }
  }

  function Reading(c: Contract, t: Address, a: Address, h: Hash): nat {
    Min(CreditedBy(c.log, t, a, h), c.CreditOf(t, a))
  }

  /** Against a faithful node the method computes exactly that reading. */
  lemma ReadingIsExact(c: Contract, t: Address, a: Address, h: Hash)
    ensures Reading(c, t, a, h) ==
      (if c.CreditOf(t, a) > 0 then Min(Total(Answer(c.log, t, a, h)), c.CreditOf(t, a)) else 0)
  {
    AnswerTotals(c.log, t, a, h);
  }

  // ---- the reading, said of the log ----

  /** Some event credited this account in this token for this swap. */
  predicate EverCredited(log: seq<Credited>, t: Address, a: Address, h: Hash) {
    exists n :: 0 <= n < |log| && log[n].token == t && log[n].account == a && log[n].hashlock == h
  }

  /** Whatever other accounts, tokens and swaps did, a swap that never credited the
      account reads zero. */
  lemma {:induction false} NeverCreditedReadsZero(c: Contract, t: Address, a: Address, h: Hash)
    requires !EverCredited(c.log, t, a, h)
    ensures Reading(c, t, a, h) == 0 && Answer(c.log, t, a, h) == []
    decreases |c.log|
  {
    if c.log != [] {
      var front := c.log[..|c.log| - 1];
      forall n | 0 <= n < |front| ensures !(front[n].token == t && front[n].account == a && front[n].hashlock == h) {
        assert front[n] == c.log[n];
      }
      NeverCreditedReadsZero(c.(log := front), t, a, h);
    }
  }

  /** And with one event the reading is its amount, as far as the balance covers it. */
  lemma OneEventReadsItsAmount(c: Contract, e: Credited, t: Address, a: Address, h: Hash)
    requires c.log != [] && c.log[|c.log| - 1] == e && e.token == t && e.account == a && e.hashlock == h
    requires !EverCredited(c.log[..|c.log| - 1], t, a, h)
    ensures Reading(c, t, a, h) == Min(e.amount, c.CreditOf(t, a))
  {
    NeverCreditedReadsZero(c.(log := c.log[..|c.log| - 1]), t, a, h);
    NeverCreditedMeansNone(c.log[..|c.log| - 1], t, a, h);
  }

  lemma {:induction false} NeverCreditedMeansNone(log: seq<Credited>, t: Address, a: Address, h: Hash)
    requires !EverCredited(log, t, a, h)
    ensures CreditedBy(log, t, a, h) == 0
  {
    if log != [] {
      var front := log[..|log| - 1];
      forall n | 0 <= n < |front| ensures !(front[n].token == t && front[n].account == a && front[n].hashlock == h) {
        assert front[n] == log[n];
      }
      NeverCreditedMeansNone(front, t, a, h);
    }
  }

  // ---- any attribution of withdrawals to swaps ----

  /** How much of the account's balance each swap is still owed. */
  type Owed = map<Hash, nat>

  function OwedTo(owed: Owed, h: Hash): nat { if h in owed then owed[h] else 0 }

  ghost function OwedSum(owed: Owed): nat { Sum(owed.Keys, h => OwedTo(owed, h)) }

  /** A new credit is owed under its own hashlock; a withdrawal is split over the
      swaps in any way at all that takes no more than each is owed. */
  ghost predicate Attributes(c: Contract, c': Contract, owed: Owed, owed': Owed, t: Address, a: Address) {
    if |c'.log| == |c.log| + 1 then
      var e := c'.log[|c.log|];
      owed' == (if e.token == t && e.account == a
                then owed[e.hashlock := OwedTo(owed, e.hashlock) + e.amount] else owed)
    else
      && owed'.Keys == owed.Keys
      && (forall h :: h in owed ==> owed'[h] <= owed[h])
      && OwedSum(owed') + c.CreditOf(t, a) == OwedSum(owed) + c'.CreditOf(t, a)
  }

  ghost predicate Attribution(i: Instance, calls: seq<Call>, owes: seq<Owed>, t: Address, a: Address) {
    && |owes| == |calls| + 1
    && owes[0] == map[]
    && (forall n :: 0 <= n < |calls| ==>
          Attributes(Run(i, EMPTY, calls[..n]), Run(i, EMPTY, calls[..n + 1]), owes[n], owes[n + 1], t, a))
  }

  /** Either the log is untouched and the balance can only have been drawn on, or
      one event was appended, naming a swap that was open, and exactly its account was
      credited. */
  ghost predicate LedgerStep(c: Contract, d: Contract, t: Address, a: Address) {
    || (d.log == c.log && d.CreditOf(t, a) <= c.CreditOf(t, a))
    || (|d.log| == |c.log| + 1 && d.log[..|c.log|] == c.log
        && var e := d.log[|c.log|];
           && c.SwapOf(e.hashlock).status == Open
           && d.CreditOf(t, a) == c.CreditOf(t, a) + (if e.token == t && e.account == a then e.amount else 0))
  }

  lemma SettleLedger(c: Contract, h: Hash, s': LegState, token: Address, payee: Address, amount: nat, pays: bool,
                     t: Address, a: Address)
    requires c.SwapOf(h).status == Open
    ensures LedgerStep(c, Settled(c.(swaps := c.swaps[h := s']), h, token, payee, amount, pays), t, a)
  {
  }

  lemma SpendLedger(c: Contract, token: Address, account: Address, amount: nat, pays: bool, t: Address, a: Address)
    ensures LedgerStep(c, After(c, Spent(c, token, account, amount, pays)), t, a)
  {
  }

  lemma NextLedger(i: Instance, c: Contract, call: Call, t: Address, a: Address)
    ensures LedgerStep(c, Next(i, c, call), t, a)
  {
    match call.op
    case Lock(_, _, _, _, _, _, _, _) =>
    case Assign(h, r) =>
    case Release(h) =>
      if ReleaseOp(c, call.sender, h, call.pays).Done? {
        var s := c.SwapOf(h);
        SettleLedger(c, h, s.(status := Refunded), s.token, s.initiator, s.amount, call.pays, t, a);
      }
    case Claim(h, p) =>
      if ClaimOp(i, c, call.now, h, p, call.pays).Done? {
        var s := c.SwapOf(h);
        SettleLedger(c, h, s.(status := Claimed, preimage := p), s.token, s.recipient, s.amount, call.pays, t, a);
      }
    case Refund(h) =>
      if RefundOp(c, call.now, h, call.pays).Done? {
        var s := c.SwapOf(h);
        SettleLedger(c, h, s.(status := Refunded), s.token, s.initiator, s.amount, call.pays, t, a);
      }
    case Withdraw(token, _, amount) => SpendLedger(c, token, call.sender, amount, call.pays, t, a);
    case WithdrawAll(token, _) =>
      SpendLedger(c, token, call.sender, c.CreditOf(token, call.sender), call.pays, t, a);
    case PushCredit(token, account) =>
      SpendLedger(c, token, account, c.CreditOf(token, account), call.pays, t, a);
  }

  lemma CreditedByAppend(log: seq<Credited>, e: Credited, t: Address, a: Address, h: Hash)
    ensures CreditedBy(log + [e], t, a, h) == CreditedBy(log, t, a, h) + (if Names(e, t, a, h) then e.amount else 0)
  {
    assert (log + [e])[..|log|] == log;
  }

  /** Whatever the attribution: shares add up to the ledger balance, and no share
      exceeds what its own swap's events credited. */
  lemma {:induction false} AttributionInvariant(i: Instance, calls: seq<Call>, owes: seq<Owed>,
                                                t: Address, a: Address, n: nat)
    requires Attribution(i, calls, owes, t, a) && n <= |calls|
    ensures var c := Run(i, EMPTY, calls[..n]);
      && OwedSum(owes[n]) == c.CreditOf(t, a)
      && forall h :: OwedTo(owes[n], h) <= CreditedBy(c.log, t, a, h)
  {
    if n > 0 {
      AttributionInvariant(i, calls, owes, t, a, n - 1);
      assert calls[..n][..n - 1] == calls[..n - 1];
      var c, d := Run(i, EMPTY, calls[..n - 1]), Run(i, EMPTY, calls[..n]);
      assert d == Next(i, c, calls[n - 1]);
      NextLedger(i, c, calls[n - 1], t, a);
      assert Attributes(c, d, owes[n - 1], owes[n], t, a);
      if |d.log| == |c.log| + 1 {
        var e := d.log[|c.log|];
        assert d.log == c.log + [e];
        forall h ensures OwedTo(owes[n], h) <= CreditedBy(d.log, t, a, h) {
          CreditedByAppend(c.log, e, t, a, h);
        }
        if e.token == t && e.account == a {
          SumUpdate(owes[n - 1].Keys, e.hashlock, owes[n].Keys,
                    (h: Hash) => OwedTo(owes[n - 1], h), (h: Hash) => OwedTo(owes[n], h));
        }
      }
    } else {
      assert calls[..0] == [];
      assert owes[0].Keys == {};
    }
  }

  /** Under any attribution, a swap is owed at most the reading; so a zero reading
      means nothing is owed, and a swap with no event for the account reads zero
      whatever other swaps did. */
  lemma ReadingIsSound(i: Instance, calls: seq<Call>, owes: seq<Owed>, t: Address, a: Address, h: Hash)
    requires Attribution(i, calls, owes, t, a)
    ensures var c := Run(i, EMPTY, calls);
      && OwedTo(owes[|calls|], h) <= Reading(c, t, a, h)
      && (!EverCredited(c.log, t, a, h) ==> Reading(c, t, a, h) == 0)
  {
    if !EverCredited(Run(i, EMPTY, calls).log, t, a, h) { NeverCreditedReadsZero(Run(i, EMPTY, calls), t, a, h); }
    assert calls[..|calls|] == calls;
    AttributionInvariant(i, calls, owes, t, a, |calls|);
    var owed := owes[|calls|];
    assert OwedTo(owed, h) <= CreditedBy(Run(i, EMPTY, calls).log, t, a, h);
    if h in owed {
      SumBounds(owed.Keys, h, g => OwedTo(owed, g));
    }
  }

  /** When no other swap ever credited the account, the reading is not just a
      bound: every attribution leaves exactly that much owed. */
  lemma ReadingIsTight(i: Instance, calls: seq<Call>, owes: seq<Owed>, t: Address, a: Address, h: Hash)
    requires Attribution(i, calls, owes, t, a)
    requires forall g :: g != h ==> CreditedBy(Run(i, EMPTY, calls).log, t, a, g) == 0
    ensures OwedTo(owes[|calls|], h) == Reading(Run(i, EMPTY, calls), t, a, h)
  {
    assert calls[..|calls|] == calls;
    AttributionInvariant(i, calls, owes, t, a, |calls|);
    var c, owed := Run(i, EMPTY, calls), owes[|calls|];
    forall g | g in owed.Keys && g != h ensures OwedTo(owed, g) == 0 {
      assert OwedTo(owed, g) <= CreditedBy(c.log, t, a, g);
    }
    assert OwedTo(owed, h) <= CreditedBy(c.log, t, a, h);
    OnlyOne(owed.Keys, h, g => OwedTo(owed, g));
  }

  lemma {:induction false} OnlyOne(ks: set<Hash>, h: Hash, f: Hash -> nat)
    requires forall g :: g in ks && g != h ==> f(g) == 0
    ensures Sum(ks, f) == if h in ks then f(h) else 0
    decreases ks
  {
    if ks != {} {
      var k :| k in ks && (h in ks ==> k == h);
      SumTake(ks, k, f);
      OnlyOne(ks - {k}, h, f);
    }
  }
}
