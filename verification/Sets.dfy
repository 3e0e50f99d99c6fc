// Sets of numbers below a bound.

module Sets {
  ghost predicate Below(s: set<nat>, n: nat) { forall x {:trigger x in s} :: x in s ==> x < n }

  lemma {:induction false} BelowBound(s: set<nat>, n: nat)
    requires Below(s, n)
    ensures |s| <= n
    decreases n
  {
    if n > 0 {
      assert s <= (s - {n - 1}) + {n - 1};
      BelowBound(s - {n - 1}, n - 1);
      if n - 1 in s {
        assert |s| == |s - {n - 1}| + 1;
      } else {
        assert s == s - {n - 1};
      }
    } else {
      assert s == {};
    }
  }
}
