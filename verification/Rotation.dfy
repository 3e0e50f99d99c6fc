// Stack rotation, as the compile-time machine and the emitted C macros do it.

module Rotation {
  import opened Arith

  /** Move the element at depth d to the top (the top is last). */
  function Rotated<T>(s: seq<T>, d: nat): (r: seq<T>)
    requires d < |s|
    ensures |r| == |s|
  {
    var k := |s| - 1 - d;
    s[..k] + s[k + 1..] + [s[k]]
  }

  /** Move the top to depth d. */
  function Unrotated<T>(s: seq<T>, d: nat): (r: seq<T>)
    requires d < |s|
    ensures |r| == |s|
  {
    var k := |s| - 1 - d;
    s[..k] + [s[|s| - 1]] + s[k..|s| - 1]
  }

  lemma RotatedParts<T>(a: seq<T>, x: T, b: seq<T>)
    ensures Rotated(a + [x] + b, |b|) == a + b + [x]
    ensures Unrotated(a + b + [x], |b|) == a + [x] + b
  {
    assert (a + [x] + b)[|a| + 1..] == b;
    assert (a + b + [x])[|a|..|a| + |b|] == b;
  }

  /** The two rotations are inverse to each other, keep everything below depth d in place, and
      lose no element. */
  lemma RotationsInverse<T>(s: seq<T>, d: nat)
    requires d < |s|
    ensures Unrotated(Rotated(s, d), d) == s && Rotated(Unrotated(s, d), d) == s
    ensures Rotated(s, d)[..|s| - 1 - d] == s[..|s| - 1 - d] == Unrotated(s, d)[..|s| - 1 - d]
    ensures multiset(Rotated(s, d)) == multiset(s) == multiset(Unrotated(s, d))
  {
    hide Rotated, Unrotated;
    var k := |s| - 1 - d;
    var a, b, c := s[..k], s[k + 1..], s[k..|s| - 1];
    assert s == a + [s[k]] + b;
    RotatedParts(a, s[k], b);
    SameElements(a, [s[k]], b);
    assert s == a + c + [s[|s| - 1]];
    RotatedParts(a, s[|s| - 1], c);
    SameElements(a, c, [s[|s| - 1]]);
  }

  lemma SameElements<T>(a: seq<T>, b: seq<T>, c: seq<T>)
    ensures multiset(a + b + c) == multiset(a + c + b)
  {}

  function Times<T>(s: seq<T>, d: nat, n: nat): (r: seq<T>)
    requires d < |s|
    ensures |r| == |s|
  {
    if n == 0 then s else Rotated(Times(s, d, n - 1), d)
  }

  function Turned<T>(s: seq<T>, k: nat, n: nat): seq<T>
    requires k + n <= |s|
  {
    s[..k] + s[k + n..] + s[k..k + n]
  }

  /** After n <= d + 1 rotations, the top d + 1 elements have turned by n places. */
  lemma {:induction false} TurnedBy<T>(s: seq<T>, d: nat, n: nat)
    requires d < |s| && n <= d + 1
    ensures Times(s, d, n) == Turned(s, |s| - 1 - d, n)
  {
    hide Rotated, Turned;
    var k := |s| - 1 - d;
    if n == 0 {
      NotTurned(s, k);
    } else {
      TurnedBy(s, d, n - 1);
      TurnStep(s, k, n);
      RotatedParts(s[..k], s[k + n - 1], s[k + n..] + s[k..k + n - 1]);
    }
  }

  lemma NotTurned<T>(s: seq<T>, k: nat)
    requires k <= |s|
    ensures Turned(s, k, 0) == s
  {
    assert s[k..k] == [];
    assert s[..k] + s[k..] == s;
  }

  lemma TurnStep<T>(s: seq<T>, k: nat, n: nat)
    requires 0 < n && k + n <= |s|
    ensures var b := s[k + n..] + s[k..k + n - 1];
            Turned(s, k, n - 1) == s[..k] + [s[k + n - 1]] + b && Turned(s, k, n) == s[..k] + b + [s[k + n - 1]]
  {
    assert s[k + n - 1..] == [s[k + n - 1]] + s[k + n..];
    assert s[k..k + n] == s[k..k + n - 1] + [s[k + n - 1]];
  }

  /** Rotating d + 1 times at depth d changes nothing, so -rot is rot twice. */
  lemma FullTurn<T>(s: seq<T>, d: nat)
    requires d < |s|
    ensures Times(s, d, d + 1) == s && Times(s, d, d) == Unrotated(s, d)
  {
    hide Times;
    var k := |s| - 1 - d;
    TurnedBy(s, d, d + 1);
    TurnedBy(s, d, d);
    assert s[k + d + 1..] == [] && s[k + d..] == [s[|s| - 1]];
    assert s[..k] + [] + s[k..k + d + 1] == s;
  }

  lemma RotatedCells<T>(s: seq<T>, d: nat, r: seq<T>)
    requires d < |s| == |r|
    requires var k := |s| - 1 - d;
             forall i {:trigger r[i]} :: 0 <= i < |r| ==>
               r[i] == if i < k then s[i] else if i < |s| - 1 then s[i + 1] else s[k]
    ensures r == Rotated(s, d)
  {}

  lemma UnrotatedCells<T>(s: seq<T>, d: nat, r: seq<T>)
    requires d < |s| == |r|
    requires var k := |s| - 1 - d;
             forall i {:trigger r[i]} :: 0 <= i < |r| ==>
               r[i] == if i < k then s[i] else if i == k then s[|s| - 1] else s[i - 1]
    ensures r == Unrotated(s, d)
  {}

  // ----- the emitted macros -----

  /** T0_ROLL, with the length of the move as its argument; dp is the first free cell. */
  method Roll(mem: array<Word32>, dp: nat, len: nat)
    requires len < dp <= mem.Length
    modifies mem
    ensures mem[..dp] == Rotated(old(mem[..dp]), len) && mem[dp..] == old(mem[dp..])
  {
    hide Rotated;
    var tmp := mem[dp - 1 - len];
    forall i | dp - len - 1 <= i < dp - 1 { mem[i] := mem[i + 1]; }
    mem[dp - 1] := tmp;
    RotatedCells(old(mem[..dp]), len, mem[..dp]);
    SameAbove(old(mem[..]), mem[..], dp);
  }

  lemma SameAbove(a: seq<Word32>, b: seq<Word32>, dp: nat)
    requires |a| == |b| && dp <= |a| && forall i :: dp <= i < |a| ==> a[i] == b[i]
    ensures a[dp..] == b[dp..]
  {}

  method Swap(mem: array<Word32>, dp: nat)
    requires 2 <= dp <= mem.Length
    modifies mem
    ensures mem[..dp] == Rotated(old(mem[..dp]), 1) && mem[dp..] == old(mem[dp..])
  {
    hide Rotated;
    var tmp := mem[dp - 2];
    mem[dp - 2] := mem[dp - 1];
    mem[dp - 1] := tmp;
    RotatedCells(old(mem[..dp]), 1, mem[..dp]);
    SameAbove(old(mem[..]), mem[..], dp);
  }

  method Rot(mem: array<Word32>, dp: nat)
    requires 3 <= dp <= mem.Length
    modifies mem
    ensures mem[..dp] == Rotated(old(mem[..dp]), 2) && mem[dp..] == old(mem[dp..])
  {
    hide Rotated;
    var tmp := mem[dp - 3];
    mem[dp - 3] := mem[dp - 2];
    mem[dp - 2] := mem[dp - 1];
    mem[dp - 1] := tmp;
    RotatedCells(old(mem[..dp]), 2, mem[..dp]);
    SameAbove(old(mem[..]), mem[..], dp);
  }

  method NRot(mem: array<Word32>, dp: nat)
    requires 3 <= dp <= mem.Length
    modifies mem
    ensures mem[..dp] == Unrotated(old(mem[..dp]), 2) && mem[dp..] == old(mem[dp..])
  {
    hide Unrotated;
    var tmp := mem[dp - 1];
    mem[dp - 1] := mem[dp - 2];
    mem[dp - 2] := mem[dp - 3];
    mem[dp - 3] := tmp;
    UnrotatedCells(old(mem[..dp]), 2, mem[..dp]);
    SameAbove(old(mem[..]), mem[..], dp);
  }
}
