// The words that are part of the generated code: a transitive closure over references.

module Reachability {
  import opened Programs
  import opened Sets

  /** Opcode.GetReference. */
  function Referred(op: Opcode): seq<nat> {
    match op
    case Call(w) => [w]
    case Const(XT(w)) => [w]
    case _ => []
  }

  function RefsOf(code: seq<Opcode>): seq<nat> {
    if code == [] then [] else Referred(code[0]) + RefsOf(code[1..])
  }

  /** Word.GetReferences: data words and native words refer to no other word. */
  function References(P: Program, w: nat): seq<nat> {
    if P.IsInterpreted(w) then RefsOf(P.Code(w)) else []
  }

  /** path leads from an entry point, reference by reference, to its last word. */
  ghost predicate Leads(P: Program, entries: seq<nat>, path: seq<nat>) {
    && |path| > 0 && path[0] in entries
    && forall i {:trigger path[i]} :: 0 < i < |path| ==> path[i] in References(P, path[i - 1])
  }

  ghost predicate Needed(P: Program, entries: seq<nat>, w: nat) {
    exists path :: Leads(P, entries, path) && path[|path| - 1] == w
  }

  ghost predicate ClosedUnder(P: Program, entries: seq<nat>, s: set<nat>) {
    && (forall e {:trigger e in entries} :: e in entries ==> e in s)
    && (forall w, v {:trigger v in References(P, w)} :: w in s && v in References(P, w) ==> v in s)
  }

  lemma NeededEntry(P: Program, entries: seq<nat>, w: nat)
    requires w in entries
    ensures Needed(P, entries, w)
  {
    assert Leads(P, entries, [w]);
  }

  lemma NeededNext(P: Program, entries: seq<nat>, w: nat, v: nat)
    requires Needed(P, entries, w) && v in References(P, w)
    ensures Needed(P, entries, v)
  {
    var path :| Leads(P, entries, path) && path[|path| - 1] == w;
    assert Leads(P, entries, path + [v]);
  }

  /** Every closed set holds every word that is needed. */
  lemma {:induction false} NeededInside(P: Program, entries: seq<nat>, s: set<nat>, path: seq<nat>)
    requires ClosedUnder(P, entries, s) && Leads(P, entries, path)
    ensures path[|path| - 1] in s
    decreases |path|
  {
    hide References;
    if |path| > 1 {
      var front := path[..|path| - 1];
      forall i | 0 < i < |front|
        ensures front[i] in References(P, front[i - 1])
      {
        assert path[i] in References(P, path[i - 1]);
      }
      NeededInside(P, entries, s, front);
      assert path[|path| - 1] in References(P, path[|path| - 2]);
    }
  }

  /** The gathered set is contained in every set that holds the entry points and is closed
      under references. */
  lemma GatheredIsLeast(P: Program, entries: seq<nat>, gathered: set<nat>, s: set<nat>)
    requires forall w :: w in gathered ==> Needed(P, entries, w)
    requires ClosedUnder(P, entries, s)
    ensures gathered <= s
  {
    forall w | w in gathered
      ensures w in s
    {
      var path :| Leads(P, entries, path) && path[|path| - 1] == w;
      NeededInside(P, entries, s, path);
    }
  }

  /** What the exploration keeps: only needed words are marked, and the references of a marked
      word that has left the queue are marked too. */
  ghost predicate Exploring(P: Program, entries: seq<nat>, wordSet: set<nat>, tx: seq<nat>) {
    && Below(wordSet, |P.words|)
    && (forall w {:trigger w in wordSet} :: w in wordSet ==> Needed(P, entries, w))
    && (forall i {:trigger tx[i]} :: 0 <= i < |tx| ==> tx[i] in wordSet)
  }

  ghost predicate Explored(P: Program, wordSet: set<nat>, tx: seq<nat>) {
    forall w, v {:trigger v in References(P, w)} :: w in wordSet && w !in tx && v in References(P, w) ==> v in wordSet
  }

  /** Mark and enqueue one word unless it is marked; Lookup fails on an unknown one. */
  method Visit(P: Program, entries: seq<nat>, wordSet: set<nat>, tx: seq<nat>, v: nat)
    returns (ok: bool, wordSet': set<nat>, tx': seq<nat>)
    requires Exploring(P, entries, wordSet, tx) && Needed(P, entries, v)
    ensures ok <==> v < |P.words|
    ensures ok ==> Exploring(P, entries, wordSet', tx') && wordSet' == wordSet + {v}
    ensures ok ==>
              if v in wordSet then tx' == tx && wordSet' == wordSet
              else tx' == tx + [v] && |wordSet'| == |wordSet| + 1
  {
    if v in wordSet {
      return true, wordSet, tx;
    }
    if v >= |P.words| {
      return false, wordSet, tx;
    }
    return true, wordSet + {v}, tx + [v];
  }

  /** All references of a word taken from the queue. */
  method VisitAll(P: Program, entries: seq<nat>, wordSet: set<nat>, tx: seq<nat>, refs: seq<nat>)
    returns (ok: bool, wordSet': set<nat>, tx': seq<nat>)
    requires Exploring(P, entries, wordSet, tx) && forall v :: v in refs ==> Needed(P, entries, v)
    ensures ok <==> forall v :: v in refs ==> v < |P.words|
    ensures ok ==> Exploring(P, entries, wordSet', tx') && wordSet <= wordSet'
    ensures ok ==> (forall v :: v in refs ==> v in wordSet')
    ensures ok ==> (forall v :: v in tx || v in wordSet' - wordSet ==> v in tx') && (forall v :: v in tx' ==>
        v in tx || v in wordSet' - wordSet)
    ensures ok ==> |wordSet'| > |wordSet| || (wordSet' == wordSet && tx' == tx)
  {
    hide Exploring, Needed;
    wordSet', tx' := wordSet, tx;
    for i := 0 to |refs|
      invariant Exploring(P, entries, wordSet', tx') && wordSet <= wordSet'
      invariant forall k :: 0 <= k < i ==> refs[k] in wordSet' && refs[k] < |P.words|
      invariant forall v :: v in tx || v in wordSet' - wordSet ==> v in tx'
      invariant forall v :: v in tx' ==> v in tx || v in wordSet' - wordSet
      invariant |wordSet'| > |wordSet| || (wordSet' == wordSet && tx' == tx)
    {
      assert Needed(P, entries, refs[i]);
      ok, wordSet', tx' := Visit(P, entries, wordSet', tx', refs[i]);
      if !ok {
        assert refs[i] in refs;
        return;
      }
    }
    ok := true;
  }

  /** The words of the generated code: exactly those that are needed, and so the least set that
      holds the entry points and is closed under references. It fails exactly when a needed word
      is unknown; references in a circle are no obstacle. */
  method Gather(P: Program, entries: seq<nat>) returns (ok: bool, wordSet: set<nat>)
    ensures ok <==> forall w: nat :: Needed(P, entries, w) ==> w < |P.words|
    ensures ok ==> ClosedUnder(P, entries, wordSet) && forall w: nat :: w in wordSet <==> Needed(P, entries, w)
  {
    hide Leads, Needed, References, Exploring;
    var tx: seq<nat>;
    forall v | v in entries ensures Needed(P, entries, v) { NeededEntry(P, entries, v); }
    NothingYet(P, entries);
    ok, wordSet, tx := VisitAll(P, entries, {}, [], entries);
    if !ok {
      return;
    }
    while |tx| > 0
      invariant Exploring(P, entries, wordSet, tx) && Explored(P, wordSet, tx)
      invariant forall e :: e in entries ==> e in wordSet
      decreases |P.words| - |wordSet|, |tx|
    {
      var w := tx[0];
      ghost var set0, rest := wordSet, tx[1..];
      Bounded(P, entries, wordSet, tx);
      Dequeued(P, entries, wordSet, tx);
      forall v | v in References(P, w) ensures Needed(P, entries, v) { NeededNext(P, entries, w, v); }
      ok, wordSet, tx := VisitAll(P, entries, wordSet, tx[1..], References(P, w));
      if !ok {
        return;
      }
      Bounded(P, entries, wordSet, tx);
    }
    AllKnown(P, entries, wordSet);
    ok := true;
  }

  lemma NothingYet(P: Program, entries: seq<nat>)
    ensures Exploring(P, entries, {}, [])
  {}

  lemma Bounded(P: Program, entries: seq<nat>, wordSet: set<nat>, tx: seq<nat>)
    requires Exploring(P, entries, wordSet, tx)
    ensures |wordSet| <= |P.words|
  {
    BelowBound(wordSet, |P.words|);
  }

  lemma Dequeued(P: Program, entries: seq<nat>, wordSet: set<nat>, tx: seq<nat>)
    requires Exploring(P, entries, wordSet, tx) && |tx| > 0
    ensures Exploring(P, entries, wordSet, tx[1..]) && Needed(P, entries, tx[0])
  {
    assert tx[0] in wordSet;
  }

  /** With an empty queue the marked words are closed, so they are all the needed ones. */
  lemma AllKnown(P: Program, entries: seq<nat>, wordSet: set<nat>)
    requires Exploring(P, entries, wordSet, []) && Explored(P, wordSet, [])
    requires forall e :: e in entries ==> e in wordSet
    ensures ClosedUnder(P, entries, wordSet)
    ensures forall w: nat :: w in wordSet <==> Needed(P, entries, w)
    ensures forall w: nat :: Needed(P, entries, w) ==> w < |P.words|
  {
    hide References;
    forall w: nat | Needed(P, entries, w)
      ensures w in wordSet
    {
      var path :| Leads(P, entries, path) && path[|path| - 1] == w;
      NeededInside(P, entries, wordSet, path);
    }
  }
}
