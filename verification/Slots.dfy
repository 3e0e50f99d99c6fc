// Slot numbers and data addresses (T0Comp.Generate).

module Slots {
  import opened Wrappers
  import opened Arith
  import opened Programs

  /** C code by word; a word without C code is interpreted or data. */
  type Texts = seq<Option<string>>

  /** Each native word has C code and no other word has. */
  predicate Covers(P: Program, ccode: Texts) {
    && |ccode| == |P.words|
    && forall w: nat {:trigger P.words[w]} :: w < |P.words| ==> (P.words[w].Native? <==> ccode[w].Some?)
  }

  /** How many of the first n words get a slot of their own above the C snippets. */
  function Rank(P: Program, n: nat): nat
    requires n <= |P.words|
  {
    if n == 0 then 0 else Rank(P, n - 1) + (if P.words[n - 1].Native? then 0 else 1)
  }

  lemma {:induction false} RankOrder(P: Program, v: nat, w: nat)
    requires v <= w <= |P.words|
    ensures Rank(P, v) <= Rank(P, w)
    ensures v < w && !P.words[v].Native? ==> Rank(P, v) < Rank(P, w)
    decreases w
  {
    if v < w { RankOrder(P, v, w - 1); }
  }

  lemma {:induction false} RankOnto(P: Program, n: nat, k: nat) returns (w: nat)
    requires n <= |P.words| && k < Rank(P, n)
    ensures w < n && !P.words[w].Native? && Rank(P, w) == k
  {
    if k < Rank(P, n - 1) {
      w := RankOnto(P, n - 1, k);
    } else {
      w := n - 1;
    }
  }

  /** Snippets share a slot exactly when their text is the same; every other word has the slot
      of its rank above them. */
  ghost predicate Assigned(P: Program, ccode: Texts, slots: seq<nat>, base: nat, num: nat) {
    && |slots| == |ccode| == |P.words|
    && (forall w: nat {:trigger slots[w]} :: w < |slots| && ccode[w].Some? ==> 7 <= slots[w] < base)
    && (forall v: nat, w: nat {:trigger slots[v], slots[w]} ::
          v < |slots| && w < |slots| && ccode[v].Some? && ccode[w].Some? ==>
            (slots[v] == slots[w] <==> ccode[v] == ccode[w]))
    && (forall w: nat {:trigger slots[w]} :: w < |slots| && ccode[w].None? ==> slots[w] == base + Rank(P, w))
    && base == 7 + |TextsUpTo(ccode, |ccode|)|
    && num == Rank(P, |P.words|)
  }

  /** No two words share a slot unless both run the same C text, and no slot is one of the
      seven built-in opcodes. */
  lemma SlotsDistinct(P: Program, ccode: Texts, slots: seq<nat>, base: nat, num: nat, v: nat, w: nat)
    requires Covers(P, ccode) && Assigned(P, ccode, slots, base, num)
    requires v < w < |P.words|
    ensures slots[v] == slots[w] <==> ccode[v].Some? && ccode[v] == ccode[w]
    ensures 7 <= slots[w] < base + num
  {
    assert P.words[v].Native? <==> ccode[v].Some?;
    assert P.words[w].Native? <==> ccode[w].Some?;
    RankOrder(P, v, w);
    RankOrder(P, w, |P.words|);
    if ccode[v].None? && ccode[w].Some? { assert slots[v] >= base > slots[w]; }
  }

  function TextsUpTo(ccode: Texts, n: nat): set<string>
    requires n <= |ccode|
  {
    if n == 0 then {}
    else TextsUpTo(ccode, n - 1) + (if ccode[n - 1].Some? then {ccode[n - 1].value} else {})
  }

  /** The C texts met so far have slots 7, 8, ... in order of appearance. */
  ghost predicate Unified(uni: map<string, nat>, next: nat) {
    && next == 7 + |uni|
    && (forall t {:trigger uni[t]} :: t in uni ==> 7 <= uni[t] < next)
    && (forall t, u {:trigger uni[t], uni[u]} :: t in uni && u in uni && uni[t] == uni[u] ==> t == u)
  }

  lemma UnifiedAdd(uni: map<string, nat>, next: nat, t: string)
    requires Unified(uni, next) && t !in uni
    ensures Unified(uni[t := next], next + 1)
  {
    assert |uni[t := next]| == |uni| + 1;
  }

  ghost predicate SnippetSlots(ccode: Texts, slots: seq<nat>, uni: map<string, nat>, n: nat) {
    && |slots| == |ccode| && n <= |ccode|
    && (forall w: nat {:trigger slots[w]} :: w < n && ccode[w].Some? ==>
          ccode[w].value in uni && slots[w] == uni[ccode[w].value])
  }

  /** The natives among the first n words have C code. */
  ghost predicate NativesCovered(P: Program, ccode: Texts, n: nat)
    requires |ccode| == |P.words|
  {
    forall w: nat {:trigger P.words[w]} :: w < n && w < |P.words| && P.words[w].Native? ==> ccode[w].Some?
  }

  lemma NotCovered(P: Program, ccode: Texts, i: nat)
    requires |ccode| == |P.words| && i < |P.words| && P.words[i].Native? && ccode[i].None?
    ensures !NativesCovered(P, ccode, |P.words|)
  {}

  lemma NothingScanned(P: Program, ccode: Texts)
    requires |ccode| == |P.words|
    ensures NativesCovered(P, ccode, 0)
  {}

  lemma ScanStep(P: Program, ccode: Texts, i: nat)
    requires |ccode| == |P.words| && i < |P.words|
    ensures TextsUpTo(ccode, i + 1) == TextsUpTo(ccode, i) + (if ccode[i].Some? then {ccode[i].value} else {})
    ensures NativesCovered(P, ccode, i) && (P.words[i].Native? ==> ccode[i].Some?) ==> NativesCovered(P, ccode, i + 1)
  {}

  lemma SnippetsStart(ccode: Texts, slots: seq<nat>)
    requires |slots| == |ccode|
    ensures SnippetSlots(ccode, slots, map[], 0) && Unified(map[], 7) && TextsUpTo(ccode, 0) == {}
  {}

  lemma SnippetsStep(ccode: Texts, slots: seq<nat>, uni: map<string, nat>, n: nat, uni': map<string, nat>,
                     slots': seq<nat>)
    requires SnippetSlots(ccode, slots, uni, n) && n < |ccode|
    requires forall t :: t in uni ==> t in uni' && uni'[t] == uni[t]
    requires if ccode[n].Some? then ccode[n].value in uni'
        && slots' == slots[n := uni'[ccode[n].value]] else slots' == slots
    ensures SnippetSlots(ccode, slots', uni', n + 1)
  {
    forall w: nat | w < n + 1 && ccode[w].Some?
      ensures ccode[w].value in uni' && slots'[w] == uni'[ccode[w].value]
    {
      if w < n { assert slots'[w] == slots[w]; }
    }
  }

  method Share(uni: map<string, nat>, curSlot: nat, text: string) returns (uni': map<string, nat>, curSlot': nat)
    requires Unified(uni, curSlot)
    ensures Unified(uni', curSlot') && uni'.Keys == uni.Keys + {text}
    ensures forall t :: t in uni ==> t in uni' && uni'[t] == uni[t]
  {
    uni', curSlot' := uni, curSlot;
    if text !in uni {
      UnifiedAdd(uni, curSlot, text);
      uni' := uni[text := curSlot];
      curSlot' := curSlot + 1;
    }
  }

  /** The first loop: one slot for each C text. */
  method ShareSnippets(P: Program, ccode: Texts)
    returns (ok: bool, slots: seq<nat>, ghost uni: map<string, nat>, curSlot: nat)
    requires |ccode| == |P.words|
    ensures ok <==> NativesCovered(P, ccode, |P.words|)
    ensures ok ==> SnippetSlots(ccode, slots, uni, |ccode|) && Unified(uni, curSlot)
                   && uni.Keys == TextsUpTo(ccode, |ccode|)
  {
    hide SnippetSlots, Unified, TextsUpTo, NativesCovered;
    var n := |P.words|;
    slots := seq(n, _ => 0);
    SnippetsStart(ccode, slots);
    NothingScanned(P, ccode);
    curSlot := 7;
    var ccodeUni: map<string, nat> := map[];
    uni := map[];
    for i := 0 to n
      invariant Unified(ccodeUni, curSlot) && ccodeUni.Keys == TextsUpTo(ccode, i)
      invariant |slots| == n && SnippetSlots(ccode, slots, ccodeUni, i)
      invariant NativesCovered(P, ccode, i)
    {
      ScanStep(P, ccode, i);
      ghost var uni0, slots0 := ccodeUni, slots;
      if ccode[i].None? {
        if P.words[i].Native? {
          NotCovered(P, ccode, i);
          return false, slots, ccodeUni, curSlot;
        }
      } else {
        ccodeUni, curSlot := Share(ccodeUni, curSlot, ccode[i].value);
        slots := slots[i := ccodeUni[ccode[i].value]];
      }
      SnippetsStep(ccode, slots0, uni0, i, ccodeUni, slots);
    }
    return true, slots, ccodeUni, curSlot;
  }

  lemma SnippetsAssigned(P: Program, ccode: Texts, slots: seq<nat>, uni: map<string, nat>, base: nat, slots': seq<nat>)
    requires SnippetSlots(ccode, slots, uni, |ccode|) && Unified(uni, base) && uni.Keys == TextsUpTo(ccode, |ccode|)
    requires |slots'| == |slots| == |P.words|
    requires forall w: nat {:trigger slots'[w]} :: w < |slots'| && ccode[w].Some? ==> slots'[w] == slots[w]
    requires forall w: nat {:trigger slots'[w]} :: w < |slots'| && ccode[w].None? ==> slots'[w] == base + Rank(P, w)
    ensures Assigned(P, ccode, slots', base, Rank(P, |P.words|))
  {
    assert |uni| == |uni.Keys|;
    forall w: nat | w < |slots'| && ccode[w].Some?
      ensures ccode[w].value in uni && slots'[w] == uni[ccode[w].value]
    {
      assert slots'[w] == slots[w];
    }
  }

  /** Slots for the C snippets from 7 up, then for all other words; fails on a native word
      without C code. */
  method AssignSlots(P: Program, ccode: Texts) returns (ok: bool, slots: seq<nat>, base: nat, num: nat)
    requires |ccode| == |P.words|
    requires forall w: nat {:trigger P.words[w]} :: w < |ccode| && ccode[w].Some? ==> P.words[w].Native?
    ensures ok <==> Covers(P, ccode)
    ensures ok ==> Assigned(P, ccode, slots, base, num)
  {
    var curSlot;
    ghost var uni;
    ok, slots, uni, curSlot := ShareSnippets(P, ccode);
    base, num := curSlot, 0;
    if !ok {
      return;
    }
    ghost var shared := slots;
    for i := 0 to |P.words|
      invariant |slots| == |shared| && curSlot == base + Rank(P, i)
      invariant forall w: nat {:trigger slots[w]} :: w < |slots| && (w >= i || ccode[w].Some?) ==> slots[w] == shared[w]
      invariant forall w: nat {:trigger slots[w]} :: w < i && ccode[w].None? ==> slots[w] == base + Rank(P, w)
    {
      assert P.words[i].Native? <==> ccode[i].Some?;
      if ccode[i].None? {
        slots := slots[i := curSlot];
        curSlot := curSlot + 1;
      }
    }
    num := curSlot - base;
    SnippetsAssigned(P, ccode, shared, uni, base, slots);
  }

  // ----- the data block -----

  /** The data block: a zero byte, then every block in order. */
  function DataBytes(blocks: seq<seq<Byte>>, n: nat): seq<Byte>
    requires n <= |blocks|
  {
    if n == 0 then [0] else DataBytes(blocks, n - 1) + blocks[n - 1]
  }

  function Addresses(blocks: seq<seq<Byte>>): seq<nat> {
    seq(|blocks|, i requires 0 <= i < |blocks| => |DataBytes(blocks, i)|)
  }

  method PlaceData(blocks: seq<seq<Byte>>) returns (address: seq<nat>, dataLen: nat)
    ensures address == Addresses(blocks) && dataLen == |DataBytes(blocks, |blocks|)|
  {
    address := [];
    dataLen := 1;
    for i := 0 to |blocks|
      invariant |address| == i && dataLen == |DataBytes(blocks, i)|
      invariant forall k :: 0 <= k < i ==> address[k] == |DataBytes(blocks, k)|
    {
      address := address + [dataLen];
      dataLen := dataLen + |blocks[i]|;
    }
  }

  /** Each block's bytes stand at its address, no address is 0, and blocks do not overlap. */
  lemma {:induction false} BlocksPlaced(blocks: seq<seq<Byte>>, n: nat, i: nat)
    requires i < n <= |blocks|
    ensures var a := Addresses(blocks)[i];
            && 1 <= a && a + |blocks[i]| <= |DataBytes(blocks, n)|
            && DataBytes(blocks, n)[a..a + |blocks[i]|] == blocks[i]
    ensures i + 1 < n ==> Addresses(blocks)[i] + |blocks[i]| == Addresses(blocks)[i + 1]
  {
    DataStarts(blocks, i);
    if i < n - 1 {
      BlocksPlaced(blocks, n - 1, i);
    }
  }

  lemma {:induction false} DataStarts(blocks: seq<seq<Byte>>, n: nat)
    requires n <= |blocks|
    ensures |DataBytes(blocks, n)| >= 1 && DataBytes(blocks, n)[0] == 0
  {
    if n > 0 { DataStarts(blocks, n - 1); }
  }

  /** Later blocks lie behind earlier ones, and right behind them exactly when nothing is between. */
  lemma {:induction false} BlocksInOrder(blocks: seq<seq<Byte>>, i: nat, j: nat)
    requires i < j < |blocks|
    ensures Addresses(blocks)[i] + |blocks[i]| <= Addresses(blocks)[j]
    ensures Addresses(blocks)[i] + |blocks[i]| == Addresses(blocks)[j] <==> forall k :: i < k < j ==> blocks[k] == []
    decreases j
  {
    hide Addresses, DataBytes;
    BlocksPlaced(blocks, j + 1, j - 1);
    if i < j - 1 { BlocksInOrder(blocks, i, j - 1); }
  }

  /** What a program has to do with before it can be compiled: integers, execution tokens of its
      words, pointers into its data blocks or to their ends. */
  predicate Resolved(P: Program, blocks: seq<seq<Byte>>, v: Value) {
    match v
    case IntV(_) => true
    case XT(w) => P.IsWord(w)
    case Blob(block, off) => block < |blocks| && 0 <= off <= |blocks[block]|
  }

  /** The slots and addresses that Generate assigns. */
  ghost predicate Linked(P: Program, ccode: Texts, blocks: seq<seq<Byte>>, slots: seq<nat>, base: nat,
                         address: seq<nat>) {
    && Covers(P, ccode) && Assigned(P, ccode, slots, base, Rank(P, |P.words|))
    && base + Rank(P, |P.words|) < 0x8000_0000
    && address == Addresses(blocks)
  }

  /** A pointer into a block is never null in the generated code. */
  lemma PointersTrue(blocks: seq<seq<Byte>>, i: nat, off: nat)
    requires i < |blocks| && off <= |blocks[i]| && |DataBytes(blocks, |blocks|)| < 0x8000_0000
    ensures U32(Addresses(blocks)[i] + off) != 0
  {
    BlocksPlaced(blocks, |blocks|, i);
  }
}
