/** Small vocabulary shared by every module. */
module Common {

  datatype Option<+T> = None | Some(value: T) {
    function GetOr(default: T): T {
      if Some? then value else default
    }
  }

  function Max(a: int, b: int): int { if a < b then b else a }

  function Min(a: int, b: int): int { if a < b then a else b }

  // ---- sums over a finite set of keys ----

  ghost function Sum<K(!new)>(ks: set<K>, f: K -> nat): nat {
    if ks == {} then 0 else
      var k :| k in ks;
      f(k) + Sum(ks - {k}, f)
  }

  /** The sum does not depend on the order in which keys are drawn. */
  lemma {:induction false} SumTake<K(!new)>(ks: set<K>, k: K, f: K -> nat)
    requires k in ks
    ensures Sum(ks, f) == f(k) + Sum(ks - {k}, f)
    decreases ks
  {
    var j :| j in ks && Sum(ks, f) == f(j) + Sum(ks - {j}, f);
    if j != k {
      SumTake(ks - {j}, k, f);
      SumTake(ks - {k}, j, f);
      assert ks - {j} - {k} == ks - {k} - {j};
    }
  }

  lemma {:induction false} SumSame<K(!new)>(ks: set<K>, f: K -> nat, g: K -> nat)
    requires forall k :: k in ks ==> f(k) == g(k)
    ensures Sum(ks, f) == Sum(ks, g)
    decreases ks
  {
    if ks != {} {
      var k :| k in ks;
      SumTake(ks, k, f);
      SumTake(ks, k, g);
      SumSame(ks - {k}, f, g);
    }
  }

  /** One key changes its contribution; every other key keeps its own. */
  lemma SumUpdate<K(!new)>(ks: set<K>, k: K, ls: set<K>, f: K -> nat, g: K -> nat)
    requires ls == ks + {k}
    requires k !in ks ==> f(k) == 0
    requires forall j :: j in ks && j != k ==> f(j) == g(j)
    ensures Sum(ls, g) == Sum(ks, f) - f(k) + g(k)
  {
    SumTake(ls, k, g);
    if k in ks {
      SumTake(ks, k, f);
      assert ls == ks;
    } else {
      assert ls - {k} == ks;
    }
    SumSame(ks - {k}, f, g);
    assert ks - {k} == ls - {k};
  }

  /** No single contribution exceeds the sum. */
  lemma SumBounds<K(!new)>(ks: set<K>, k: K, f: K -> nat)
    requires k in ks
    ensures f(k) <= Sum(ks, f)
  {
    SumTake(ks, k, f);
  }
}
