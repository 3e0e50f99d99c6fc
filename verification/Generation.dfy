// T0Comp.Generate from slots to bytes: element objects, relaxation, code block and table.

module Generation {
  import opened Arith
  import opened Wrappers
  import opened Programs
  import opened Codec
  import opened Layout
  import opened Relaxation
  import opened Linking
  import opened Slots
  import opened ByteMachine
  import opened Simulation

  // ----- element objects -----

  /** Jumps among the elements of one word, which start at index start of the whole list. */
  ghost predicate LocalJumps(elems: seq<Elem>, start: nat) {
    forall i {:trigger elems[i]} :: 0 <= i < |elems| ==>
      && (elems[i].EJump? ==> start <= elems[i].target < start + |elems|)
      && (elems[i].EUIntExpr? ==> 1 <= elems[i].width <= 5)
  }

  ghost predicate Objects(g: seq<CodeElement>, elems: seq<Elem>)
    reads g
  {
    && |g| == |elems| && Distinct(g)
    && (forall i {:trigger g[i]} :: 0 <= i < |g| ==> g[i].elem == elems[i] && g[i].address == -1)
  }

  /** The element that element i of a word has to jump to. */
  ghost function AimOf(g: seq<CodeElement>, e: Elem, start: nat): CodeElement? {
    if e.EJump? && start <= e.target < start + |g| then g[e.target - start] else null
  }

  ghost predicate Aimed(g: seq<CodeElement>, elems: seq<Elem>, start: nat, n: nat)
    requires |g| == |elems|
    reads g
  {
    forall i {:trigger g[i]} :: 0 <= i < |g| ==> g[i].target == if i < n then AimOf(g, elems[i], start) else null
  }

  /** ToCodeElement for every opcode. */
  method NewObjects(elems: seq<Elem>) returns (g: seq<CodeElement>)
    ensures fresh(g) && Objects(g, elems) && forall i {:trigger g[i]} :: 0 <= i < |g| ==> g[i].target == null
  {
    g := [];
    for i := 0 to |elems|
      invariant fresh(g) && |g| == i && Distinct(g)
      invariant forall k {:trigger g[k]} :: 0 <= k < i ==>
                  g[k].elem == elems[k] && g[k].address == -1 && g[k].target == null
    {
      var e := new CodeElement(elems[i]);
      g := g + [e];
    }
  }

  /** Then FixUp for every opcode. */
  method WordObjects(elems: seq<Elem>, start: nat) returns (g: seq<CodeElement>)
    requires LocalJumps(elems, start)
    ensures fresh(g) && Objects(g, elems) && Aimed(g, elems, start, |elems|)
  {
    hide AimOf, LocalJumps;
    g := NewObjects(elems);
    for i := 0 to |elems|
      invariant Objects(g, elems) && Aimed(g, elems, start, i)
    {
      AimsInside(g, elems, start, i);
      match elems[i]
      case EJump(_, t) => g[i].SetJumpTarget(g[t - start]);
      case _ =>
    }
  }

  lemma AimsInside(g: seq<CodeElement>, elems: seq<Elem>, start: nat, i: nat)
    requires LocalJumps(elems, start) && |g| == |elems| && i < |g|
    ensures elems[i].EJump? ==> start <= elems[i].target < start + |g|
    ensures AimOf(g, elems[i], start) == if elems[i].EJump? then g[elems[i].target - start] else null
  {}

  lemma GcodeLocal(P: Program, L: Link, w: nat, start: nat)
    requires ClosedJumps(P) && P.IsWord(w)
    ensures LocalJumps(WordElems(P, L, w, start), start)
  {
    match P.words[w]
    case Interpreted(_, code, _) =>
      forall p: nat | p < |code|
        ensures ElemOf(L, code[p], start, p).EJump? ==>
                  start <= ElemOf(L, code[p], start, p).target < start + 1 + |code|
      {
        assert P.Code(w)[p] == code[p];
      }
    case _ =>
  }

  lemma Joined(g: seq<CodeElement>, code: seq<Elem>, h: seq<CodeElement>, elems: seq<Elem>)
    requires Represents(g, code) && Blank(g) && LocalJumps(elems, |code|)
    requires Objects(h, elems) && Aimed(h, elems, |code|, |elems|)
    requires forall i, j :: 0 <= i < |g| && 0 <= j < |h| ==> g[i] != h[j]
    ensures Represents(g + h, code + elems) && Blank(g + h)
  {
    forall i: nat | i < |g + h|
      ensures JoinedAt(g + h, code + elems, i)
    {
      if i < |g| { FrontJoined(g, code, h, elems, i); } else { BackJoined(g, code, h, elems, i - |g|); }
    }
    AllJoined(g + h, code + elems);
  }

  /** What Represents and Blank ask of one element. */
  ghost predicate JoinedAt(g: seq<CodeElement>, code: seq<Elem>, i: nat)
    requires |g| == |code| && i < |g|
    reads g
  {
    && g[i].elem == code[i] && g[i].address == -1
    && (code[i].EJump? ==> code[i].target < |code| && g[i].target == g[code[i].target])
    && (!code[i].EJump? ==> g[i].target == null)
    && (code[i].EUIntExpr? ==> 1 <= code[i].width <= 5)
  }

  lemma FrontJoined(g: seq<CodeElement>, code: seq<Elem>, h: seq<CodeElement>, elems: seq<Elem>, i: nat)
    requires Represents(g, code) && Blank(g) && |h| == |elems| && i < |g|
    ensures JoinedAt(g + h, code + elems, i)
  {
    assert (g + h)[i] == g[i] && (code + elems)[i] == code[i];
    if code[i].EJump? { assert (g + h)[code[i].target] == g[code[i].target]; }
  }

  lemma BackJoined(g: seq<CodeElement>, code: seq<Elem>, h: seq<CodeElement>, elems: seq<Elem>, i: nat)
    requires |g| == |code| && LocalJumps(elems, |code|) && i < |h|
    requires Objects(h, elems) && Aimed(h, elems, |code|, |elems|)
    ensures JoinedAt(g + h, code + elems, |g| + i)
  {
    assert (g + h)[|g| + i] == h[i] && (code + elems)[|g| + i] == elems[i];
    if elems[i].EJump? { assert (g + h)[elems[i].target] == h[elems[i].target - |g|]; }
  }

  lemma AllJoined(g: seq<CodeElement>, code: seq<Elem>)
    requires |g| == |code| && Distinct(g)
    requires forall i: nat {:trigger g[i]} {:trigger code[i]} :: i < |g| ==> JoinedAt(g, code, i)
    ensures Represents(g, code) && Blank(g)
  {}

  // ----- all words -----

  /** The table of first elements: entry k belongs to the k-th word with a slot of its own. */
  ghost predicate EntriesOf(P: Program, L: Link, gcode: seq<CodeElement>, entry: seq<CodeElement?>, n: nat)
    requires n <= |P.words|
  {
    && |entry| == Rank(P, |P.words|)
    && forall w: nat {:trigger P.words[w]} :: w < n && !P.words[w].Native? ==>
         && Rank(P, w) < |entry| && StartOf(P, L, w) < |gcode|
         && entry[Rank(P, w)] == gcode[StartOf(P, L, w)]
  }

  lemma EntriesStep(P: Program, L: Link, gcode: seq<CodeElement>, entry: seq<CodeElement?>, n: nat,
                    h: seq<CodeElement>, entry': seq<CodeElement?>)
    requires n < |P.words| && EntriesOf(P, L, gcode, entry, n)
    requires |gcode| == StartOf(P, L, n)
    requires if P.words[n].Native? then entry' == entry
             else Rank(P, n) < |entry| && |h| > 0 && entry' == entry[Rank(P, n) := h[0]]
    ensures EntriesOf(P, L, gcode + h, entry', n + 1)
  {
    hide WordElems, Gcode, StartOf, Rank;
    forall w: nat | w < n + 1 && !P.words[w].Native?
      ensures Rank(P, w) < |entry'| && StartOf(P, L, w) < |gcode + h|
      ensures entry'[Rank(P, w)] == (gcode + h)[StartOf(P, L, w)]
    {
      if w < n {
        EarlierEntry(P, L, gcode, entry, n, w);
      } else {
        assert (gcode + h)[|gcode|] == h[0];
      }
    }
  }

  lemma EarlierEntry(P: Program, L: Link, gcode: seq<CodeElement>, entry: seq<CodeElement?>, n: nat, w: nat)
    requires w < n < |P.words| && EntriesOf(P, L, gcode, entry, n) && !P.words[w].Native?
    ensures Rank(P, w) < |entry| && StartOf(P, L, w) < |gcode|
    ensures entry[Rank(P, w)] == gcode[StartOf(P, L, w)] && Rank(P, w) < Rank(P, n)
  {
    hide StartOf;
    RankOrder(P, w, n);
  }

  lemma WordHasElems(P: Program, L: Link, w: nat, start: nat)
    requires P.IsWord(w)
    ensures P.words[w].Native? ==> WordElems(P, L, w, start) == []
    ensures !P.words[w].Native? ==> |WordElems(P, L, w, start)| > 0
  {}

  method CollectElements(P: Program, L: Link, num: nat) returns (gcode: seq<CodeElement>, entry: seq<CodeElement?>)
    requires ClosedJumps(P) && num == Rank(P, |P.words|)
    requires |L.slots| == |P.words|
    requires forall w: nat {:trigger L.slots[w]} :: w < |P.words| && !P.words[w].Native? ==>
        L.slots[w] == L.base + Rank(P, w)
    ensures fresh(gcode) && Represents(gcode, Gcode(P, L, |P.words|)) && Blank(gcode)
    ensures |entry| == num && EntriesOf(P, L, gcode, entry, |P.words|)
  {
    hide WordElems, Represents, Blank, Objects, Aimed, EntriesOf, LocalJumps, ClosedJumps;
    gcode := [];
    entry := seq(num, _ => null);
    NoElements(P, L, entry);
    for w := 0 to |P.words|
      invariant fresh(gcode) && Represents(gcode, Gcode(P, L, w)) && Blank(gcode)
      invariant |gcode| == StartOf(P, L, w) && |entry| == num
      invariant EntriesOf(P, L, gcode, entry, w)
    {
      ghost var entry0 := entry;
      GcodeLocal(P, L, w, |gcode|);
      WordHasElems(P, L, w, |gcode|);
      RankOrder(P, w, |P.words|);
      var h := WordObjects(WordElems(P, L, w, |gcode|), |gcode|);
      ObjectsCount(h, WordElems(P, L, w, |gcode|));
      Joined(gcode, Gcode(P, L, w), h, WordElems(P, L, w, |gcode|));
      if !P.words[w].Native? {
        entry := entry[L.slots[w] - L.base := h[0]];
      }
      EntriesStep(P, L, gcode, entry0, w, h, entry);
      gcode := gcode + h;
    }
  }

  lemma NoElements(P: Program, L: Link, entry: seq<CodeElement?>)
    requires |entry| == Rank(P, |P.words|)
    ensures Represents([], []) && Blank([]) && EntriesOf(P, L, [], entry, 0)
  {}

  lemma ObjectsCount(g: seq<CodeElement>, elems: seq<Elem>)
    requires Objects(g, elems)
    ensures |g| == |elems|
  {}

  // ----- bytes -----

  /** The loop that writes the code block; it fails on an opcode, slot or number of locals
      over one byte. */
  method EncodeAll(gcode: seq<CodeElement>, one: bool, ghost code: seq<Elem>, ghost lens: seq<nat>)
    returns (ok: bool, bytes: seq<Byte>)
    requires Represents(gcode, code) && LaidOut(gcode, lens) && Fits(code) && AtMostTen(lens)
    ensures ok <==> OneByteFits(code, one)
    ensures ok ==> bytes == CodeBytes(code, lens, one, |code|)
  {
    hide ArgOf, Sum, OpBytes;
    var bw := new BlobWriter();
    for i := 0 to |gcode|
      invariant fresh(bw)
      invariant one ==> forall k {:trigger code[k]} :: 0 <= k < i ==> code[k].val <= 255
      invariant bw.out == CodeBytes(code, lens, one, i)
    {
      ObjectReady(gcode, code, lens, i);
      var good := gcode[i].Encode(bw, one);
      if !good {
        return false, [];
      }
    }
    return true, bw.out;
  }

  lemma ObjectReady(gcode: seq<CodeElement>, code: seq<Elem>, lens: seq<nat>, i: nat)
    requires Represents(gcode, code) && LaidOut(gcode, lens) && Fits(code) && AtMostTen(lens) && i < |code|
    ensures gcode[i].OffsetIs32() && gcode[i].elem == code[i]
    ensures gcode[i].elem.EUIntExpr? ==> 1 <= gcode[i].elem.width <= 5
    ensures gcode[i].JumpOffset() == OffsetIn(code[i], i, lens)
  {
    OffsetOf(gcode, code, lens, i);
    if code[i].EJump? { OffsetFits(code, lens, i, code[i].target); }
  }

  // ----- Generate -----

  /** The numbers of locals that Encode accepts over one byte. */
  ghost predicate LocalsAreBytes(P: Program) {
    forall w: nat {:trigger P.words[w]} :: P.IsInterpreted(w) ==> P.words[w].numLocals <= 255
  }

  lemma OpcodeOneByte(L: Link, op: Opcode, start: nat, p: nat)
    requires forall v: nat {:trigger L.slots[v]} :: v < |L.slots| ==> L.slots[v] <= 255
    ensures ElemOf(L, op, start, p).val <= 255
  {
    hide Link.Lower, I32;
    if op.Call? && op.target < |L.slots| { assert L.slots[op.target] <= 255; }
  }

  lemma WordOneByte(P: Program, L: Link, w: nat, start: nat, k: nat)
    requires P.IsWord(w) && k < |WordElems(P, L, w, start)|
    requires forall v: nat {:trigger L.slots[v]} :: v < |L.slots| ==> L.slots[v] <= 255
    requires P.words[w].Interpreted? ==> P.words[w].numLocals <= 255
    ensures WordElems(P, L, w, start)[k].val <= 255
  {
    hide ElemOf, I32;
    if P.words[w].Interpreted? && k > 0 { OpcodeOneByte(L, P.words[w].code[k - 1], start, k - 1); }
  }

  lemma OneByteJoined(x: seq<Elem>, y: seq<Elem>)
    requires OneByteFits(x, true) && OneByteFits(y, true)
    ensures OneByteFits(x + y, true)
  {
    forall i | 0 <= i < |x + y|
      ensures (x + y)[i].val <= 255
    {
      assert (x + y)[i] == if i < |x| then x[i] else y[i - |x|];
    }
  }

  lemma {:induction false} SmallIsOneByte(P: Program, L: Link, n: nat)
    requires n <= |P.words| && LocalsAreBytes(P)
    requires forall v: nat {:trigger L.slots[v]} :: v < |L.slots| ==> L.slots[v] <= 255
    ensures OneByteFits(Gcode(P, L, n), true)
  {
    hide WordElems;
    if n > 0 {
      SmallIsOneByte(P, L, n - 1);
      var front := Gcode(P, L, n - 1);
      var word := WordElems(P, L, n - 1, |front|);
      forall i: nat | i < |word|
        ensures word[i].val <= 255
      {
        WordOneByte(P, L, n - 1, |front|, i);
      }
      OneByteJoined(front, word);
    }
  }

  lemma AnyIsMultiByte(code: seq<Elem>)
    ensures OneByteFits(code, false)
  {}

  /** What remains to be checked of a generated image: conditions on the input that Generate
      itself never tests. */
  ghost predicate Loadable(B: Build) {
    LocalsFit(B.P, B.one) && WellScoped(B.P) && AddressesFit(B)
  }

  lemma TableLinked(B: Build, ccode: Texts, gcode: seq<CodeElement>, entry: seq<CodeElement?>, num: nat)
    requires Covers(B.P, ccode) && Assigned(B.P, ccode, B.L.slots, B.L.base, num)
    requires |B.P.words| < 0x7000_0000 && B.L.base + num < 0x8000_0000
    requires LaidOut(gcode, B.lens) && EntriesOf(B.P, B.L, gcode, entry, |B.P.words|)
    requires |B.caddr| == num && num == |entry|
    requires forall k :: 0 <= k < num ==>
        entry[k] != null && entry[k].address >= 0 && B.caddr[k] == entry[k].address % 0x1_0000
    ensures SlotsLinked(B)
  {
    hide Gcode, Sum, Rank, StartOf;
    forall w: nat | w < |B.P.words|
      ensures B.L.slots[w] < 0x8000_0000
      ensures if B.P.words[w].Native? then 7 <= B.L.slots[w] < B.L.base
              else
                && B.L.base <= B.L.slots[w] < B.L.base + |B.caddr|
                && StartOf(B.P, B.L, w) <= |B.lens|
                && B.caddr[B.L.slots[w] - B.L.base] == Sum(B.lens, StartOf(B.P, B.L, w)) % 0x1_0000
    {
      assert B.P.words[w].Native? <==> ccode[w].Some?;
      if !B.P.words[w].Native? {
        assert entry[Rank(B.P, w)] == gcode[StartOf(B.P, B.L, w)];
      }
    }
  }

  lemma BaseBound(ccode: Texts, n: nat)
    requires n <= |ccode|
    ensures |TextsUpTo(ccode, n)| <= n
  {
    if n > 0 { BaseBound(ccode, n - 1); }
  }

  lemma RankBound(P: Program, n: nat)
    requires n <= |P.words|
    ensures Rank(P, n) <= n
  {}

  lemma SlotBounds(P: Program, ccode: Texts, slots: seq<nat>, base: nat, num: nat)
    requires Covers(P, ccode) && Assigned(P, ccode, slots, base, num)
    ensures |slots| == |P.words| && 7 <= base <= 7 + |P.words| && num == Rank(P, |P.words|) <= |P.words|
    ensures forall w: nat {:trigger slots[w]} :: w < |P.words| && !P.words[w].Native? ==> slots[w] == base + Rank(P, w)
    ensures forall w: nat {:trigger slots[w]} :: w < |P.words| ==> slots[w] < base + num
  {
    BaseBound(ccode, |ccode|);
    RankBound(P, |P.words|);
    forall w: nat | w < |P.words|
      ensures !P.words[w].Native? ==> slots[w] == base + Rank(P, w)
      ensures slots[w] < base + num
    {
      assert P.words[w].Native? <==> ccode[w].Some?;
      RankOrder(P, w, |P.words|);
    }
  }

  /** t0_caddr: what the C compiler keeps of each address in a uint16_t. */
  method ReadTable(entry: seq<CodeElement?>) returns (caddr: seq<nat>)
    requires forall k :: 0 <= k < |entry| ==> entry[k] != null && entry[k].address >= 0
    ensures |caddr| == |entry| && forall k :: 0 <= k < |entry| ==> caddr[k] == entry[k].address % 0x1_0000
  {
    caddr := [];
    for i := 0 to |entry|
      invariant |caddr| == i && forall k :: 0 <= k < i ==> caddr[k] == entry[k].address % 0x1_0000
    {
      caddr := caddr + [entry[i].address % 0x1_0000];
    }
  }

  lemma EntriesPlaced(P: Program, L: Link, gcode: seq<CodeElement>, lens: seq<nat>, entry: seq<CodeElement?>)
    requires EntriesOf(P, L, gcode, entry, |P.words|) && LaidOut(gcode, lens)
    ensures forall k :: 0 <= k < |entry| ==> entry[k] != null && entry[k].address >= 0
  {
    hide StartOf, Sum;
    forall k | 0 <= k < |entry|
      ensures entry[k] != null && entry[k].address >= 0
    {
      var w := RankOnto(P, |P.words|, k);
      assert entry[k] == gcode[StartOf(P, L, w)];
    }
  }

  /** The parts that Generate established make an image well built but for Loadable. */
  lemma Assembled(B: Build)
    requires WellFormed(B.Elems()) && SelfConsistent(B.Elems(), B.one, B.lens) && OneByteFits(B.Elems(), B.one)
    requires SlotsLinked(B) && ClosedJumps(B.P) && Sum(B.lens, |B.lens|) < 0x8000_0000
    ensures Coded(B) <==> LocalsFit(B.P, B.one) && WellScoped(B.P)
    ensures WellBuilt(B) <==> Loadable(B)
  {
    hide Gcode, SelfConsistent, OneByteFits, SlotsLinked, ClosedJumps, Sum, WellScoped, LocalsFit, AddressesFit;
  }

  /** From the gathered words, in name order, to the code block and its table. Everything the
      byte machine needs then holds, except what Loadable says of the input. */
  method Generate(P: Program, ccode: Texts, blocks: seq<seq<Byte>>) returns (ok: bool, img: Image, ghost B: Build)
    requires |ccode| == |P.words| < 0x3000_0000
    requires forall w: nat {:trigger P.words[w]} :: w < |ccode| && ccode[w].Some? ==> P.words[w].Native?
    requires ClosedJumps(P) && 10 * ElemTotal(P, |P.words|) < 0x8000_0000
    ensures ok ==> Covers(P, ccode)
    ensures Covers(P, ccode) && LocalsAreBytes(P) ==> ok
    ensures ok ==> B.P == P && img == B.Img() && B.L.blocks == Addresses(blocks)
    ensures ok ==> Linked(P, ccode, blocks, B.L.slots, B.L.base, B.L.blocks)
    ensures ok ==> B.one == (B.L.base + |B.caddr| < 256)
    ensures ok ==> Least(B.Elems(), B.one, B.lens)
    ensures ok ==> (Coded(B) <==> LocalsFit(P, B.one) && WellScoped(P))
    ensures ok ==> (WellBuilt(B) <==> Loadable(B))
  {
    hide Gcode, WellScoped, LocalsFit, AddressesFit, ClosedJumps, Represents, LaidOut, SelfConsistent, EntriesOf,
         Least, CodeBytes,
        Growing,
         Assigned, Covers, SlotsLinked, LocalsAreBytes, Rank, OneByteFits;
    img := Image([], [], 0, false);
    B := Build(P, Link([], 0, []), false, [], []);
    var slots, base, num;
    ok, slots, base, num := AssignSlots(P, ccode);
    if !ok {
      return;
    }
    SlotBounds(P, ccode, slots, base, num);
    var address, dataLen := PlaceData(blocks);
    var L := Link(slots, base, address);
    var gcode, entry := CollectElements(P, L, num);
    var one := base + num < 256;
    ghost var code := Gcode(P, L, |P.words|);
    GcodeLength(P, L, |P.words|);
    var totalLen;
    ghost var lens, passes;
    totalLen, lens, passes := Relax(gcode, one, code);
    SumBound(lens, |lens|, 10);
    var bytes;
    ok, bytes := EncodeAll(gcode, one, code, lens);
    if !one { AnyIsMultiByte(code); } else if LocalsAreBytes(P) { SmallIsOneByte(P, L, |P.words|); }
    if !ok {
      return;
    }
    EntriesPlaced(P, L, gcode, lens, entry);
    var caddr := ReadTable(entry);
    img := Image(bytes, caddr, base, one);
    B := Build(P, L, one, lens, caddr);
    TableLinked(B, ccode, gcode, entry, num);
    Assembled(B);
  }
}
