// Data words (WordData.Resolve): a word names a place in a data block, directly or relative to
// another data word.

module DataWords {
  import opened Wrappers
  import opened Arith
  import opened Sets

  /** How a data word was declared: on a block of its own, or on the word of another name, which
      is None when no data word has that name. */
  datatype Decl = Direct(block: nat, offset: Int32) | Based(base: Option<nat>, offset: Int32)

  datatype Place = Place(block: nat, offset: Int32)

  function Plus(a: int, b: int): Int32 { I32(a + b) }

  /** Where word w ends up, following at most fuel base words; offsets add up with int
      wrap-around. */
  function Follow(decls: seq<Decl>, w: nat, fuel: nat): Option<Place>
    decreases fuel
  {
    if w >= |decls| then None
    else
      match decls[w]
      case Direct(block, offset) => Some(Place(block, offset))
      case Based(base, offset) =>
        if base.None? || fuel == 0 then None
        else
          match Follow(decls, base.value, fuel - 1)
          case None => None
          case Some(p) => Some(Place(p.block, Plus(offset, p.offset)))
  }

  /** The chain of base words of w ends at a block. */
  ghost predicate Grounded(decls: seq<Decl>, w: nat) { exists fuel: nat :: Follow(decls, w, fuel).Some? }

  lemma {:induction false} MoreFuel(decls: seq<Decl>, w: nat, f: nat, g: nat)
    requires Follow(decls, w, f).Some? && f <= g
    ensures Follow(decls, w, g) == Follow(decls, w, f)
    decreases f
  {
    if decls[w].Based? { MoreFuel(decls, decls[w].base.value, f - 1, g - 1); }
  }

  lemma FollowUnique(decls: seq<Decl>, w: nat, f: nat, g: nat)
    requires Follow(decls, w, f).Some? && Follow(decls, w, g).Some?
    ensures Follow(decls, w, f) == Follow(decls, w, g)
  {
    if f <= g { MoreFuel(decls, w, f, g); } else { MoreFuel(decls, w, g, f); }
  }

  /** Each word of the path is based on the next one. */
  ghost predicate BasePath(decls: seq<Decl>, path: seq<nat>) {
    forall i {:trigger path[i]} :: 0 <= i < |path| - 1 ==>
      path[i] < |decls| && decls[path[i]].Based? && decls[path[i]].base == Some(path[i + 1])
  }

  lemma {:induction false} FuelAlong(decls: seq<Decl>, path: seq<nat>, f: nat)
    requires BasePath(decls, path) && |path| > 0 && Follow(decls, path[0], f).Some?
    ensures |path| - 1 <= f && Follow(decls, path[|path| - 1], f - (|path| - 1)).Some?
    decreases |path|
  {
    if |path| > 1 {
      assert decls[path[0]].base == Some(path[1]);
      forall i | 0 <= i < |path[1..]| - 1
        ensures decls[path[1..][i]].Based? && decls[path[1..][i]].base == Some(path[1..][i + 1])
      {
        assert path[1..][i] == path[i + 1];
      }
      FuelAlong(decls, path[1..], f - 1);
    }
  }

  /** A circle of base words has no place. */
  lemma {:induction false} CircleUngrounded(decls: seq<Decl>, path: seq<nat>, f: nat)
    requires BasePath(decls, path) && |path| > 1 && path[0] == path[|path| - 1]
    ensures Follow(decls, path[0], f).None?
    decreases f
  {
    if Follow(decls, path[0], f).Some? {
      FuelAlong(decls, path, f);
      CircleUngrounded(decls, path, f - (|path| - 1));
    }
  }

  /** The offsets of all words on the path, unwrapped. */
  function OffsetSum(decls: seq<Decl>, path: seq<nat>): int {
    if path == [] then 0
    else (if path[0] < |decls| then decls[path[0]].offset as int else 0) + OffsetSum(decls, path[1..])
  }

  /** The path goes from w, base by base, to a word declared on a block. */
  ghost predicate EndsAt(decls: seq<Decl>, w: nat, path: seq<nat>) {
    && |path| > 0 && path[0] == w && BasePath(decls, path)
    && path[|path| - 1] < |decls| && decls[path[|path| - 1]].Direct?
  }

  lemma PathRest(decls: seq<Decl>, w: nat, path: seq<nat>)
    requires EndsAt(decls, w, path) && |path| > 1
    ensures w < |decls| && decls[w].Based? && decls[w].base == Some(path[1]) && EndsAt(decls, path[1], path[1..])
  {
    assert path[0] == w && decls[path[0]].base == Some(path[0 + 1]);
    forall i | 0 <= i < |path[1..]| - 1
      ensures path[1..][i] < |decls| && decls[path[1..][i]].Based? && decls[path[1..][i]].base == Some(path[1..][i + 1])
    {
      assert path[1..][i] == path[i + 1];
    }
  }

  lemma WrapsOnce(a: int, b: int)
    ensures I32(a + I32(b)) == I32(a + b)
  {}

  lemma {:induction false} SumAlong(decls: seq<Decl>, w: nat, path: seq<nat>)
    requires EndsAt(decls, w, path)
    ensures Follow(decls, w, |path| - 1)
         == Some(Place(decls[path[|path| - 1]].block, I32(OffsetSum(decls, path))))
    decreases |path|
  {
    if |path| > 1 {
      PathRest(decls, w, path);
      SumAlong(decls, path[1], path[1..]);
      WrapsOnce(decls[w].offset, OffsetSum(decls, path[1..]));
    } else {
      assert path[1..] == [];
    }
  }

  lemma {:induction false} PathFollowed(decls: seq<Decl>, w: nat, f: nat) returns (path: seq<nat>)
    requires Follow(decls, w, f).Some?
    ensures EndsAt(decls, w, path)
    decreases f
  {
    if decls[w].Direct? {
      path := [w];
    } else {
      var rest := PathFollowed(decls, decls[w].base.value, f - 1);
      path := [w] + rest;
    }
  }

  /** The place of a data word: the block at the end of its chain of base words, and the sum of all
      offsets on the way as an int. */
  lemma PlaceExactly(decls: seq<Decl>, w: nat, p: Place)
    ensures Leads(decls, w, p) <==>
            exists path :: EndsAt(decls, w, path) && p.block == decls[path[|path| - 1]].block
                           && p.offset == I32(OffsetSum(decls, path))
  {
    if f: nat :| Follow(decls, w, f) == Some(p) {
      var path := PathFollowed(decls, w, f);
      SumAlong(decls, w, path);
      FollowUnique(decls, w, f, |path| - 1);
    }
    if path :| EndsAt(decls, w, path) && p.block == decls[path[|path| - 1]].block
                && p.offset == I32(OffsetSum(decls, path)) {
      SumAlong(decls, w, path);
    }
  }

  /** The words still waiting for the word they are based on, outermost first. */
  ghost predicate Waiting(decls: seq<Decl>, active: seq<nat>, ongoing: set<nat>) {
    && BasePath(decls, active)
    && (forall w {:trigger w in active} {:trigger w in ongoing} :: w in active <==> w in ongoing)
    && (forall w {:trigger w in ongoing} :: w in ongoing ==> w < |decls|)
  }

  lemma ReturnsToActive(decls: seq<Decl>, active: seq<nat>, w: nat)
    requires BasePath(decls, active + [w]) && w in active
    ensures !Grounded(decls, w)
  {
    var k :| 0 <= k < |active| && active[k] == w;
    var path := (active + [w])[k..];
    forall i | 0 <= i < |path| - 1
      ensures path[i] < |decls| && decls[path[i]].Based? && decls[path[i]].base == Some(path[i + 1])
    {
      assert path[i] == (active + [w])[k + i] && path[i + 1] == (active + [w])[k + i + 1];
    }
    forall f: nat
      ensures Follow(decls, w, f).None?
    {
      CircleUngrounded(decls, path, f);
    }
  }

  lemma BaseDecides(decls: seq<Decl>, w: nat)
    requires w < |decls| && decls[w].Based?
    ensures Grounded(decls, w) <==> decls[w].base.Some? && Grounded(decls, decls[w].base.value)
  {
    if Grounded(decls, w) {
      var f: nat :| Follow(decls, w, f).Some?;
      assert Follow(decls, decls[w].base.value, f - 1).Some?;
    }
    if decls[w].base.Some? && Grounded(decls, decls[w].base.value) {
      var f: nat :| Follow(decls, decls[w].base.value, f).Some?;
      assert Follow(decls, w, f + 1).Some?;
    }
  }

  /** The chain of w leads to place p. */
  ghost predicate Leads(decls: seq<Decl>, w: nat, p: Place) { exists f: nat :: Follow(decls, w, f) == Some(p) }

  lemma LeadsGrounded(decls: seq<Decl>, w: nat, p: Place)
    requires Leads(decls, w, p)
    ensures Grounded(decls, w)
  {
    var f: nat :| Follow(decls, w, f) == Some(p);
    assert Follow(decls, w, f).Some?;
  }

  lemma LeadsThrough(decls: seq<Decl>, w: nat, b: nat, offset: Int32, p: Place)
    requires w < |decls| && decls[w] == Based(Some(b), offset) && Leads(decls, b, p)
    ensures Leads(decls, w, Place(p.block, Plus(offset, p.offset)))
  {
    var f: nat :| Follow(decls, b, f) == Some(p);
    assert Follow(decls, w, f + 1) == Some(Place(p.block, Plus(offset, p.offset)));
  }

  /** A word either has its place already or still its declaration. */
  ghost predicate Held(decls: seq<Decl>, base: seq<Option<nat>>, blob: seq<Option<nat>>, offset: seq<Int32>, w: nat)
    requires |blob| == |offset| == |base| == |decls| && w < |decls|
  {
    if blob[w].Some? then Leads(decls, w, Place(blob[w].value, offset[w])) else decls[w] == Based(base[w], offset[w])
  }

  ghost predicate AllHeld(decls: seq<Decl>, base: seq<Option<nat>>, blob: seq<Option<nat>>, offset: seq<Int32>) {
    && |blob| == |offset| == |base| == |decls|
    && forall w: nat {:trigger blob[w]} :: w < |decls| ==> Held(decls, base, blob, offset, w)
  }

  lemma HeldAt(decls: seq<Decl>, base: seq<Option<nat>>, blob: seq<Option<nat>>, offset: seq<Int32>, w: nat)
    requires AllHeld(decls, base, blob, offset) && w < |decls|
    ensures |blob| == |offset| == |base| == |decls| && Held(decls, base, blob, offset, w)
  {
    assert blob[w] == blob[w];
  }

  lemma HeldAtStart(decls: seq<Decl>, base: seq<Option<nat>>, blob: seq<Option<nat>>, offset: seq<Int32>)
    requires |blob| == |offset| == |base| == |decls|
    requires forall w: nat {:trigger decls[w]} :: w < |decls| ==>
               match decls[w]
               case Direct(b, o) => blob[w] == Some(b) && offset[w] == o
               case Based(n, o) => blob[w] == None && base[w] == n && offset[w] == o
    ensures AllHeld(decls, base, blob, offset)
  {
    forall w: nat | w < |decls|
      ensures Held(decls, base, blob, offset, w)
    {
      if decls[w].Direct? { assert Follow(decls, w, 0) == Some(Place(blob[w].value, offset[w])); }
    }
  }

  lemma HeldSettled(decls: seq<Decl>, base: seq<Option<nat>>, blob: seq<Option<nat>>, offset: seq<Int32>, w: nat,
                    p: Place)
    requires AllHeld(decls, base, blob, offset) && w < |decls| && Leads(decls, w, p)
    ensures |blob| == |offset| == |decls| && AllHeld(decls, base, blob[w := Some(p.block)], offset[w := p.offset])
  {
    hide Leads;
    var blob', offset' := blob[w := Some(p.block)], offset[w := p.offset];
    forall v: nat | v < |decls|
      ensures Held(decls, base, blob', offset', v)
    {
      HeldAt(decls, base, blob, offset, v);
    }
  }

  /** The fields blob, offset and ongoingResolution of all data words. */
  class DataTable {
    ghost const decls: seq<Decl>
    const base: seq<Option<nat>>
    var blob: seq<Option<nat>>
    var offset: seq<Int32>
    var ongoing: set<nat>
    ghost var active: seq<nat>

    ghost predicate Valid()
      reads this
    {
      AllHeld(decls, base, blob, offset) && Waiting(decls, active, ongoing)
    }

    constructor (decls: seq<Decl>)
      ensures Valid() && active == [] && this.decls == decls
    {
      this.decls := decls;
      base := seq(|decls|, i requires 0 <= i < |decls| => if decls[i].Based? then decls[i].base else None);
      blob := seq(|decls|, i requires 0 <= i < |decls| => if decls[i].Direct? then Some(decls[i].block) else None);
      offset := seq(|decls|, i requires 0 <= i < |decls| => decls[i].offset);
      ongoing := {};
      active := [];
      new;
      HeldAtStart(decls, base, blob, offset);
    }

    /** Succeeds exactly when the chain of base words ends at a block, and then holds the place
        the chain leads to; a circle of base words and an unknown base are refused. */
    method Resolve(w: nat) returns (ok: bool)
      requires Valid() && w < |decls| && BasePath(decls, active + [w])
      modifies this`blob, this`offset, this`ongoing, this`active
      ensures ok <==> Grounded(decls, w)
      ensures ok ==> Valid() && active == old(active) && ongoing == old(ongoing) && |blob| == |offset| == |decls|
      ensures ok ==> blob[w].Some? && Leads(decls, w, Place(blob[w].value, offset[w]))
      ensures ok ==> forall v {:trigger v in ongoing} :: v in ongoing && v < |decls| ==>
                    blob[v] == old(blob[v]) && offset[v] == old(offset[v])
      decreases |decls| - |ongoing|
    {
      hide Grounded, AllHeld, Waiting, BasePath, Leads, Plus;
      HeldAt(decls, base, blob, offset, w);
      if w in ongoing {
        InPath(decls, active, ongoing, w);
        ReturnsToActive(decls, active, w);
      }
      if blob[w].Some? {
        LeadsGrounded(decls, w, Place(blob[w].value, offset[w]));
        return true;
      }
      if w in ongoing {
        return false;
      }
      BaseDecides(decls, w);
      if base[w].None? || base[w].value >= |base| {
        if base[w].Some? { NoSuchWord(decls, base[w].value); }
        return false;
      }
      var b := base[w].value;
      ghost var before, marked, off := active, ongoing, offset[w];
      OneMore(decls, active, ongoing, w, b);
      ongoing := ongoing + {w};
      active := active + [w];
      ok := Resolve(b);
      if !ok {
        return;
      }
      ghost var p := Place(blob[b].value, offset[b]);
      assert w in ongoing;
      LeadsThrough(decls, w, b, off, p);
      HeldSettled(decls, base, blob, offset, w, Place(p.block, Plus(off, p.offset)));
      WaitingPop(decls, before, w, ongoing);
      assert marked + {w} - {w} == marked;
      blob := blob[w := blob[b]];
      offset := offset[w := Plus(offset[w], offset[b])];
      ongoing := ongoing - {w};
      active := before;
    }
  }

  lemma InPath(decls: seq<Decl>, active: seq<nat>, ongoing: set<nat>, w: nat)
    requires Waiting(decls, active, ongoing)
    ensures w in active <==> w in ongoing
  {}

  lemma NoSuchWord(decls: seq<Decl>, w: nat)
    requires w >= |decls|
    ensures !Grounded(decls, w)
  {}

  /** w joins the waiting words, and there is room for it. */
  lemma OneMore(decls: seq<Decl>, active: seq<nat>, ongoing: set<nat>, w: nat, b: nat)
    requires Waiting(decls, active, ongoing) && BasePath(decls, active + [w]) && w !in ongoing
    requires w < |decls| && decls[w].Based? && decls[w].base == Some(b)
    ensures Waiting(decls, active + [w], ongoing + {w}) && BasePath(decls, active + [w] + [b])
    ensures |ongoing + {w}| == |ongoing| + 1 <= |decls| && w !in active
  {
    BelowBound(ongoing + {w}, |decls|);
    var path := active + [w] + [b];
    forall i | 0 <= i < |path| - 1
      ensures path[i] < |decls| && decls[path[i]].Based? && decls[path[i]].base == Some(path[i + 1])
    {
      assert path[i] == (active + [w])[i];
      if i < |active| { assert path[i + 1] == (active + [w])[i + 1]; }
    }
  }

  lemma WaitingPop(decls: seq<Decl>, before: seq<nat>, w: nat, ongoing: set<nat>)
    requires Waiting(decls, before + [w], ongoing) && w !in before
    ensures Waiting(decls, before, ongoing - {w})
  {
    forall i | 0 <= i < |before| - 1
      ensures before[i] < |decls| && decls[before[i]].Based? && decls[before[i]].base == Some(before[i + 1])
    {
      assert before[i] == (before + [w])[i] && before[i + 1] == (before + [w])[i + 1];
    }
    forall v
      ensures v in before <==> v in ongoing - {w}
    {
      assert v in before + [w] <==> v in before || v == w;
    }
  }
}
