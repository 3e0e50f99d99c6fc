// Stack effects (SType.cs).

module StackEffect {
  import opened Wrappers

  datatype Pair = Pair(din: int, dout: int) {
    predicate IsKnown() { din >= 0 }

    predicate NoExit() { din >= 0 && dout < 0 }

    predicate IsSubOf(s: Pair) {
      if !IsKnown() || !s.IsKnown() then false
      else if din > s.din then false
      else if NoExit() then true
      else if s.NoExit() then false
      else din - dout == s.din - s.dout
    }
  }

  /** din is -1 when the effect is unknown, dout is -1 when the word never exits. */
  type SType = s: Pair | s.din >= -1 && s.dout >= -1 witness Pair(-1, -1)

  const UNKNOWN: SType := Pair(-1, -1)

  function MakeSType(din: int, dout: int): SType {
    Pair(if din < 0 then -1 else din, if dout < 0 then -1 else dout)
  }

  /** How one call behaves: how far below its entry depth it reaches, and by how much it
      changes the depth if it returns. */
  datatype Behaviour = Behaviour(reach: nat, net: Option<int>)

  predicate Covers(s: SType, b: Behaviour) {
    && s.IsKnown()
    && b.reach <= s.din
    && (b.net.Some? ==> !s.NoExit() && b.net.value == s.dout - s.din)
  }

  /** IsSubOf is exactly inclusion of the covered behaviours. */
  lemma SubEffectIsInclusion(s: SType, t: SType)
    requires s.IsKnown() && t.IsKnown()
    ensures s.IsSubOf(t) <==> forall b :: Covers(s, b) ==> Covers(t, b)
  {
    var silent := Behaviour(s.din, None);
    var returning := Behaviour(s.din, Some(s.dout - s.din));
    assert Covers(s, silent);
    assert !s.NoExit() ==> Covers(s, returning);
    if forall b :: Covers(s, b) ==> Covers(t, b) {
      assert Covers(t, silent);
      assert !s.NoExit() ==> Covers(t, returning);
    }
  }

  lemma SubEffectOrder(s: SType, t: SType, u: SType)
    ensures s.IsKnown() ==> s.IsSubOf(s)
    ensures s.IsSubOf(t) && t.IsSubOf(u) ==> s.IsSubOf(u)
    ensures s.IsSubOf(t) && t.IsSubOf(s) ==> s == t
  {}
}
