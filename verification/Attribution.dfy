/**
 * How much a swap can be owed at most, over all the ways withdrawals can be
 * attributed, and when the client's reading is exactly that.
 */
module Attribution {
  import opened Common
  import opened Leg
  import opened Htlc
  import opened Credit

  // ---- the most a swap can be owed ----

  function At(i: Instance, calls: seq<Call>, k: nat): Contract
    requires k <= |calls|
  {
    Run(i, EMPTY, calls[..k])
  }

  /** Each credit of the swap adds to it; each withdrawal is charged to other swaps for
      as long as they are owed anything. */
  function Most(i: Instance, calls: seq<Call>, t: Address, a: Address, h: Hash): nat {
    if calls == [] then 0 else
      var front := calls[..|calls| - 1];
      var c, d, most := Run(i, EMPTY, front), Run(i, EMPTY, calls), Most(i, front, t, a, h);
      if |d.log| == |c.log| + 1 then most + (if Names(d.log[|c.log|], t, a, h) then d.log[|c.log|].amount else 0)
      else Min(most, d.CreditOf(t, a))
  }

  lemma Prefix(calls: seq<Call>, n: nat)
    requires 0 < n <= |calls|
    ensures calls[..n][..n - 1] == calls[..n - 1] && calls[..n][n - 1] == calls[n - 1]
  {
  }

  /** No attribution owes more. */
  lemma {:induction false} MostBounds(i: Instance, calls: seq<Call>, owes: seq<Owed>,
                                     t: Address, a: Address, h: Hash, n: nat)
    requires Attribution(i, calls, owes, t, a) && n <= |calls|
    ensures OwedTo(owes[n], h) <= Most(i, calls[..n], t, a, h)
  {
    if n > 0 {
      MostBounds(i, calls, owes, t, a, h, n - 1);
      Prefix(calls, n);
      var c, d := At(i, calls, n - 1), At(i, calls, n);
      assert Attributes(Run(i, EMPTY, calls[..n - 1]), Run(i, EMPTY, calls[..n - 1 + 1]), owes[n - 1], owes[n], t, a);
      AttributionInvariant(i, calls, owes, t, a, n);
      if |d.log| != |c.log| + 1 && h in owes[n] {
        SumBounds(owes[n].Keys, h, g => OwedTo(owes[n], g));
      }
    }
  }

  // ---- some attribution owes that much ----

  lemma OwedSumPut(o: Owed, k: Hash, v: nat)
    requires k !in o
    ensures OwedSum(o[k := v]) == OwedSum(o) + v
  {
    var p := o[k := v];
    SumTake(p.Keys, k, g => OwedTo(p, g));
    assert p.Keys - {k} == o.Keys;
    SumSame(o.Keys, g => OwedTo(p, g), g => OwedTo(o, g));
  }

  lemma OwedSumSplit(o: Owed, k: Hash)
    requires k in o
    ensures OwedSum(o) == o[k] + OwedSum(o - {k})
  {
    assert (o - {k})[k := o[k]] == o;
    OwedSumPut(o - {k}, k, o[k]);
  }

  /** Any smaller total can be reached by lowering entries. */
  lemma {:induction false} LowerTo(o: Owed, total: nat) returns (p: Owed)
    requires total <= OwedSum(o)
    ensures p.Keys == o.Keys && (forall k :: k in o ==> p[k] <= o[k]) && OwedSum(p) == total
    decreases |o.Keys|
  {
    if o.Keys == {} {
      p := o;
    } else {
      var k :| k in o;
      OwedSumSplit(o, k);
      var x := Min(o[k], total);
      var rest := LowerTo(o - {k}, total - x);
      p := rest[k := x];
      OwedSumPut(rest, k, x);
    }
  }

  /** A withdrawal down to `balance` that spares `h` as long as it can. */
  lemma SpareOne(o: Owed, h: Hash, balance: nat) returns (p: Owed)
    requires balance <= OwedSum(o)
    ensures p.Keys == o.Keys && (forall k :: k in o ==> p[k] <= o[k]) && OwedSum(p) == balance
    ensures OwedTo(p, h) == Min(OwedTo(o, h), balance)
  {
    if h in o {
      OwedSumSplit(o, h);
      var x := Min(o[h], balance);
      var rest := LowerTo(o - {h}, balance - x);
      p := rest[h := x];
      OwedSumPut(rest, h, x);
    } else {
      p := LowerTo(o, balance);
    }
  }

  /** One transaction: the next entry of an attribution that favours `h`. */
  lemma FavourStep(i: Instance, c: Contract, d: Contract, o: Owed, t: Address, a: Address, h: Hash) returns (p: Owed)
    requires LedgerStep(c, d, t, a) && OwedSum(o) == c.CreditOf(t, a)
    ensures Attributes(c, d, o, p, t, a) && OwedSum(p) == d.CreditOf(t, a)
    ensures OwedTo(p, h) ==
      (if |d.log| == |c.log| + 1
       then OwedTo(o, h) + (if Names(d.log[|c.log|], t, a, h) then d.log[|c.log|].amount else 0)
       else Min(OwedTo(o, h), d.CreditOf(t, a)))
  {
    if |d.log| == |c.log| + 1 {
      var e := d.log[|c.log|];
      if e.token == t && e.account == a {
        p := o[e.hashlock := OwedTo(o, e.hashlock) + e.amount];
        SumUpdate(o.Keys, e.hashlock, p.Keys, (g: Hash) => OwedTo(o, g), (g: Hash) => OwedTo(p, g));
      } else {
        p := o;
      }
    } else {
      p := SpareOne(o, h, d.CreditOf(t, a));
    }
  }

  lemma {:induction false} MostIsReached(i: Instance, calls: seq<Call>, t: Address, a: Address, h: Hash)
    returns (owes: seq<Owed>)
    ensures Attribution(i, calls, owes, t, a) && OwedTo(owes[|calls|], h) == Most(i, calls, t, a, h)
  {
    if calls == [] {
      owes := [map[]];
    } else {
      var last := |calls| - 1;
      var front := calls[..last];
      var before := MostIsReached(i, front, t, a, h);
      AttributionInvariant(i, front, before, t, a, last);
      assert front[..last] == front;
      var c, d := Run(i, EMPTY, front), Run(i, EMPTY, calls);
      NextLedger(i, c, calls[last], t, a);
      var p := FavourStep(i, c, d, before[last], t, a, h);
      owes := before + [p];
      forall n | 0 <= n < |calls|
        ensures Attributes(Run(i, EMPTY, calls[..n]), Run(i, EMPTY, calls[..n + 1]), owes[n], owes[n + 1], t, a)
      {
        if n < last {
          assert front[..n] == calls[..n] && front[..n + 1] == calls[..n + 1];
        } else {
          assert calls[..n + 1] == calls;
        }
      }
    }
  }

  // ---- when the reading is that much ----

  /** At every earlier moment the balance, with what the swap credited since, was enough. */
  ghost predicate NeverShort(i: Instance, calls: seq<Call>, t: Address, a: Address, h: Hash, amount: nat) {
    forall k :: 0 <= k <= |calls| ==>
      amount + CreditedBy(At(i, calls, k).log, t, a, h)
      <= At(i, calls, k).CreditOf(t, a) + CreditedBy(Run(i, EMPTY, calls).log, t, a, h)
  }

  lemma NeverShortFront(i: Instance, calls: seq<Call>, t: Address, a: Address, h: Hash, amount: nat, less: nat)
    requires calls != []
    requires var c, d := Run(i, EMPTY, calls[..|calls| - 1]), Run(i, EMPTY, calls);
      less + CreditedBy(d.log, t, a, h) == amount + CreditedBy(c.log, t, a, h)
    ensures NeverShort(i, calls, t, a, h, amount) <==>
      && NeverShort(i, calls[..|calls| - 1], t, a, h, less)
      && amount <= Run(i, EMPTY, calls).CreditOf(t, a)
  {
    var front := calls[..|calls| - 1];
    var c, d := Run(i, EMPTY, front), Run(i, EMPTY, calls);
    assert calls[..|calls|] == calls;
    if NeverShort(i, calls, t, a, h, amount) {
      forall k | 0 <= k <= |front|
        ensures less + CreditedBy(At(i, front, k).log, t, a, h)
             <= At(i, front, k).CreditOf(t, a) + CreditedBy(c.log, t, a, h)
      {
        assert At(i, front, k) == At(i, calls, k) by { assert front[..k] == calls[..k]; }
      }
      assert At(i, calls, |calls|) == d;
    }
    if NeverShort(i, front, t, a, h, less) && amount <= d.CreditOf(t, a) {
      forall k | 0 <= k <= |calls|
        ensures amount + CreditedBy(At(i, calls, k).log, t, a, h)
             <= At(i, calls, k).CreditOf(t, a) + CreditedBy(d.log, t, a, h)
      {
        if k <= |front| {
          assert At(i, front, k) == At(i, calls, k) by { assert front[..k] == calls[..k]; }
        } else {
          assert At(i, calls, k) == d;
        }
      }
    }
  }

  /** What one step adds to a swap's credits, and what of it is still there. */
  lemma LastCredit(c: Contract, d: Contract, t: Address, a: Address, h: Hash) returns (credited: nat)
    requires LedgerStep(c, d, t, a)
    ensures credited == (if |d.log| == |c.log| + 1 && Names(d.log[|c.log|], t, a, h) then d.log[|c.log|].amount else 0)
    ensures CreditedBy(d.log, t, a, h) == CreditedBy(c.log, t, a, h) + credited
    ensures credited <= d.CreditOf(t, a)
    ensures |d.log| == |c.log| + 1 ==> c.CreditOf(t, a) + credited <= d.CreditOf(t, a)
    ensures |d.log| != |c.log| + 1 ==> d.CreditOf(t, a) <= c.CreditOf(t, a)
  {
    credited := if |d.log| == |c.log| + 1 && Names(d.log[|c.log|], t, a, h) then d.log[|c.log|].amount else 0;
    if |d.log| == |c.log| + 1 {
      assert d.log == c.log + [d.log[|c.log|]];
      CreditedByAppend(c.log, d.log[|c.log|], t, a, h);
    }
  }

  /** The most after one more transaction, in terms of what that one credited. */
  lemma MostStep(i: Instance, calls: seq<Call>, t: Address, a: Address, h: Hash) returns (credited: nat)
    requires calls != []
    ensures var c, d := Run(i, EMPTY, calls[..|calls| - 1]), Run(i, EMPTY, calls);
      && CreditedBy(d.log, t, a, h) == CreditedBy(c.log, t, a, h) + credited && credited <= d.CreditOf(t, a)
      && Most(i, calls, t, a, h) == (if |d.log| == |c.log| + 1 then Most(i, calls[..|calls| - 1], t, a, h) + credited
                                     else Min(Most(i, calls[..|calls| - 1], t, a, h), d.CreditOf(t, a)))
      && (|d.log| == |c.log| + 1 ==> c.CreditOf(t, a) + credited <= d.CreditOf(t, a))
      && (|d.log| != |c.log| + 1 ==> credited == 0 && d.CreditOf(t, a) <= c.CreditOf(t, a))
  {
    var c, d := Run(i, EMPTY, calls[..|calls| - 1]), Run(i, EMPTY, calls);
    NextLedger(i, c, calls[|calls| - 1], t, a);
    credited := LastCredit(c, d, t, a, h);
  }

  lemma {:induction false} MostExactly(i: Instance, calls: seq<Call>, t: Address, a: Address, h: Hash, amount: nat)
    requires amount <= CreditedBy(Run(i, EMPTY, calls).log, t, a, h)
    ensures amount <= Most(i, calls, t, a, h) <==> NeverShort(i, calls, t, a, h, amount)
  {
    if calls == [] {
      assert forall k :: 0 <= k <= |calls| ==> At(i, calls, k) == EMPTY;
    } else {
      var front := calls[..|calls| - 1];
      var credited := MostStep(i, calls, t, a, h);
      if amount >= credited {
        MostExactly(i, front, t, a, h, amount - credited);
        NeverShortFront(i, calls, t, a, h, amount, amount - credited);
        NeverShortLast(i, front, t, a, h, amount - credited);
      } else {
        SmallIsNeverShort(i, calls, t, a, h, amount, credited);
      }
    }
  }

  /** The last balance is among those that were enough. */
  lemma NeverShortLast(i: Instance, calls: seq<Call>, t: Address, a: Address, h: Hash, amount: nat)
    ensures NeverShort(i, calls, t, a, h, amount) ==> amount <= Run(i, EMPTY, calls).CreditOf(t, a)
  {
    if NeverShort(i, calls, t, a, h, amount) {
      assert At(i, calls, |calls|) == Run(i, EMPTY, calls) by { assert calls[..|calls|] == calls; }
    }
  }

  /** Less than the last credit is always still there. */
  lemma SmallIsNeverShort(i: Instance, calls: seq<Call>, t: Address, a: Address, h: Hash, amount: nat, credited: nat)
    requires calls != []
    requires var c, d := Run(i, EMPTY, calls[..|calls| - 1]), Run(i, EMPTY, calls);
      && CreditedBy(d.log, t, a, h) == CreditedBy(c.log, t, a, h) + credited
      && credited <= d.CreditOf(t, a)
    requires amount <= credited
    ensures NeverShort(i, calls, t, a, h, amount)
  {
    var front := calls[..|calls| - 1];
    var d := Run(i, EMPTY, calls);
    forall k | 0 <= k <= |calls|
      ensures amount + CreditedBy(At(i, calls, k).log, t, a, h)
           <= At(i, calls, k).CreditOf(t, a) + CreditedBy(d.log, t, a, h)
    {
      if k <= |front| {
        CreditsOnlyGrow(i, front, t, a, h, k);
        assert front[..k] == calls[..k];
      } else {
        assert calls[..k] == calls;
      }
    }
  }

  lemma {:induction false} CreditsOnlyGrow(i: Instance, calls: seq<Call>, t: Address, a: Address, h: Hash, k: nat)
    requires k <= |calls|
    ensures CreditedBy(At(i, calls, k).log, t, a, h) <= CreditedBy(Run(i, EMPTY, calls).log, t, a, h)
  {
    if k == |calls| {
      assert calls[..k] == calls;
    } else {
      var front := calls[..|calls| - 1];
      CreditsOnlyGrow(i, front, t, a, h, k);
      assert front[..k] == calls[..k];
      var c, d := Run(i, EMPTY, front), Run(i, EMPTY, calls);
      NextLedger(i, c, calls[|calls| - 1], t, a);
      if |d.log| == |c.log| + 1 {
        assert d.log == c.log + [d.log[|c.log|]];
        CreditedByAppend(c.log, d.log[|c.log|], t, a, h);
      }
    }
  }

  /** The reading is what some attribution owes, and so not a unit too large, exactly when
      the balance never fell short of it. */
  lemma ReadingIsReachedExactly(i: Instance, calls: seq<Call>, t: Address, a: Address, h: Hash)
    ensures var r := Reading(Run(i, EMPTY, calls), t, a, h);
      (exists owes :: Attribution(i, calls, owes, t, a) && OwedTo(owes[|calls|], h) == r)
      <==> NeverShort(i, calls, t, a, h, r)
  {
    var r := Reading(Run(i, EMPTY, calls), t, a, h);
    MostExactly(i, calls, t, a, h, r);
    var best := MostIsReached(i, calls, t, a, h);
    ReadingIsSound(i, calls, best, t, a, h);
    if owes :| Attribution(i, calls, owes, t, a) && OwedTo(owes[|calls|], h) == r {
      MostBounds(i, calls, owes, t, a, h, |calls|);
      assert calls[..|calls|] == calls;
    }
  }

  // ---- a reading that is too large ----

  function LockCall(h: Hash): Call { Call(5, 0, Lock(h, 6, 0, 100, 10, false, false, None), true) }
  function RefundCall(h: Hash): Call { Call(0, 10, Refund(h), false) }
  const COLLECT := Call(5, 10, WithdrawAll(0, 5), true)

  const LOCKED := LegState(Open, 5, 6, 0, 100, 10, 0)
  const BACK := LOCKED.(status := Refunded)
  const EVENT_1 := Credited(0, 5, 1, 100)
  const EVENT_2 := Credited(0, 5, 2, 100)

  const C1 := Contract(map[1 := LOCKED], map[], map[], map[0 := 100], [])
  const C2 := Contract(map[1 := BACK], map[(0, 5) := 100], map[0 := 100], map[0 := 100], [EVENT_1])
  const C3 := Contract(map[1 := BACK], map[(0, 5) := 0], map[0 := 0], map[0 := 0], [EVENT_1])
  const C4 := Contract(map[1 := BACK, 2 := LOCKED], map[(0, 5) := 0], map[0 := 0], map[0 := 100], [EVENT_1])
  const C5 :=
    Contract(map[1 := BACK, 2 := BACK], map[(0, 5) := 100], map[0 := 100], map[0 := 100], [EVENT_1, EVENT_2])

  lemma FirstSteps(i: Instance)
    requires i.self == 9
    ensures Next(i, EMPTY, LockCall(1)) == C1 && Next(i, C1, RefundCall(1)) == C2
  {
    assert Next(i, EMPTY, LockCall(1)) == Locked(EMPTY, 5, LockCall(1).op);
    assert C1.SwapOf(1) == LOCKED;
    assert Next(i, C1, RefundCall(1)) == Settled(C1.(swaps := C1.swaps[1 := BACK]), 1, 0, 5, 100, false);
  }

  lemma CollectStep(i: Instance)
    requires i.self == 9
    ensures Next(i, C2, COLLECT) == C3
  {
    assert C2.CreditOf(0, 5) == 100;
    assert Execute(i, C2, COLLECT) == Spent(C2, 0, 5, 100, true);
  }

  lemma LastSteps(i: Instance)
    requires i.self == 9
    ensures Next(i, C3, LockCall(2)) == C4 && Next(i, C4, RefundCall(2)) == C5
  {
    assert Next(i, C3, LockCall(2)) == Locked(C3, 5, LockCall(2).op);
    assert C4.SwapOf(2) == LOCKED;
    assert Next(i, C4, RefundCall(2)) == Settled(C4.(swaps := C4.swaps[2 := BACK]), 2, 0, 5, 100, false);
    assert C4.log + [EVENT_2] == C5.log;
  }

  lemma RunNext(i: Instance, calls: seq<Call>, call: Call, c: Contract, t: Address, a: Address, h: Hash)
    requires Run(i, EMPTY, calls) == c
    ensures var d := Next(i, c, call);
      && Run(i, EMPTY, calls + [call]) == d
      && Most(i, calls + [call], t, a, h) ==
           (if |d.log| == |c.log| + 1
            then Most(i, calls, t, a, h) + (if Names(d.log[|c.log|], t, a, h) then d.log[|c.log|].amount else 0)
            else Min(Most(i, calls, t, a, h), d.CreditOf(t, a)))
  {
    assert (calls + [call])[..|calls|] == calls;
  }

  /** The maker collected swap 1's credit, and later swap 2 credited the same account.
      Swap 1 reads 100 again, though every attribution owes it nothing. */
  lemma SpentCreditReadsAgain() returns (i: Instance, calls: seq<Call>)
    ensures Reading(Run(i, EMPTY, calls), 0, 5, 1) == 100
    ensures forall owes :: Attribution(i, calls, owes, 0, 5) ==> OwedTo(owes[|calls|], 1) == 0
  {
    i := Instance(9, (s: Secret) => s);
    FirstSteps(i);
    CollectStep(i);
    LastSteps(i);
    var c1 := [LockCall(1)];
    RunNext(i, [], LockCall(1), EMPTY, 0, 5, 1);
    assert [] + [LockCall(1)] == c1;
    RunNext(i, c1, RefundCall(1), C1, 0, 5, 1);
    var c2 := c1 + [RefundCall(1)];
    RunNext(i, c2, COLLECT, C2, 0, 5, 1);
    var c3 := c2 + [COLLECT];
    RunNext(i, c3, LockCall(2), C3, 0, 5, 1);
    var c4 := c3 + [LockCall(2)];
    RunNext(i, c4, RefundCall(2), C4, 0, 5, 1);
    calls := c4 + [RefundCall(2)];
    assert CreditedBy(C5.log, 0, 5, 1) == 100 by { LogOfFive(); }
    forall owes | Attribution(i, calls, owes, 0, 5) ensures OwedTo(owes[|calls|], 1) == 0 {
      MostBounds(i, calls, owes, 0, 5, 1, |calls|);
      assert calls[..|calls|] == calls;
    }
  }

  lemma LogOfFive()
    ensures CreditedBy(C5.log, 0, 5, 1) == 100
  {
    CreditedByAppend([], EVENT_1, 0, 5, 1);
    CreditedByAppend([EVENT_1], EVENT_2, 0, 5, 1);
    assert [] + [EVENT_1] == [EVENT_1] && [EVENT_1] + [EVENT_2] == C5.log;
  }
}
