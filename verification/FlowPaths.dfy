// Paths through one word: what any consistent annotation must say, and when none exists.

module FlowPaths {
  import opened Wrappers
  import opened StackEffect
  import opened Programs
  import opened FlowSpec
  import opened Arith

  /** More words analysed, nothing changed for those that were. */
  ghost predicate Extends(M: Summaries, M': Summaries) {
    forall w :: w in M ==> w in M' && M'[w] == M[w]
  }

  lemma ReachedStart(P: Program, M: Summaries, code: seq<Opcode>)
    ensures Reached(P, M, code, 0, 0)
  {
    assert Walk(P, M, code, [0], 0);
  }

  lemma ReachedSucc(P: Program, M: Summaries, code: seq<Opcode>, p: nat, c: int, q: int)
    requires Reached(P, M, code, p, c) && p < |code| && Ready(P, M, code[p]) && Succ(P, M, code, p, q)
    ensures Reached(P, M, code, q, c + Action(P, M, code[p]))
  {
    var path :| Walk(P, M, code, path, c) && path[|path| - 1] == p;
    var path' := path + [q];
    assert path'[..|path|] == path;
    assert Walk(P, M, code, path', c + Action(P, M, code[p]));
  }

  lemma ReadyExtends(P: Program, M: Summaries, M': Summaries, op: Opcode)
    requires Extends(M, M') && Ready(P, M, op)
    ensures Ready(P, M', op)
    ensures Action(P, M', op) == Action(P, M, op) && (Continues(P, M', op) <==> Continues(P, M, op))
    ensures forall c :: Lowest(P, M', op, c) == Lowest(P, M, op, c)
    ensures forall c :: Highest(P, M', op, c) == Highest(P, M, op, c)
    ensures ReturnUse(P, M', op) == ReturnUse(P, M, op)
  {}

  lemma {:induction false} WalkExtends(P: Program, M: Summaries, M': Summaries, code: seq<Opcode>, path: seq<int>,
                                       c: int)
    requires Extends(M, M') && Walk(P, M, code, path, c)
    ensures Walk(P, M', code, path, c)
    decreases |path|
  {
    var last := |path| - 1;
    if last > 0 {
      ReadyExtends(P, M, M', code[path[last - 1]]);
      WalkExtends(P, M, M', code, path[..last], c - Action(P, M, code[path[last - 1]]));
    }
  }

  lemma ReachedExtends(P: Program, M: Summaries, M': Summaries, code: seq<Opcode>, q: int, c: int)
    requires Extends(M, M') && Reached(P, M, code, q, c)
    ensures Reached(P, M', code, q, c)
  {
    var path :| Walk(P, M, code, path, c) && path[|path| - 1] == q;
    WalkExtends(P, M, M', code, path, c);
  }

  /** A consistent annotation gives every reached offset the depth of the path. */
  lemma {:induction false} WalkMarked(P: Program, M: Summaries, code: seq<Opcode>, sa: Annotation, path: seq<int>,
                                      c: int)
    requires Consistent(P, M, code, sa) && Walk(P, M, code, path, c)
    ensures Marked(sa, path[|path| - 1], c)
    decreases |path|
  {
    var last := |path| - 1;
    if last > 0 {
      var p := path[last - 1];
      WalkMarked(P, M, code, sa, path[..last], c - Action(P, M, code[p]));
      assert Live(sa, p);
    }
  }

  lemma ReachedMarked(P: Program, M: Summaries, code: seq<Opcode>, sa: Annotation, q: int, c: int)
    requires Consistent(P, M, code, sa) && Reached(P, M, code, q, c)
    ensures Marked(sa, q, c)
  {
    var path :| Walk(P, M, code, path, c) && path[|path| - 1] == q;
    WalkMarked(P, M, code, sa, path, c);
  }

  /** A consistent annotation of reached offsets only is the least one. */
  lemma ReachedIsLeast(P: Program, M: Summaries, code: seq<Opcode>, sa: Annotation)
    requires Consistent(P, M, code, sa)
    requires forall p: nat {:trigger Live(sa, p)} :: Live(sa, p) ==> Reached(P, M, code, p, sa[p].value)
    ensures LiveIsReached(P, M, code, sa)
  {
    forall p, c | Reached(P, M, code, p, c)
      ensures Marked(sa, p, c)
    {
      ReachedMarked(P, M, code, sa, p, c);
    }
  }

  // ----- more words analysed -----

  lemma ConsistentExtends(P: Program, M: Summaries, M': Summaries, code: seq<Opcode>, sa: Annotation)
    requires Extends(M, M') && Consistent(P, M, code, sa)
    ensures Consistent(P, M', code, sa)
  {
    forall p: nat | Live(sa, p)
      ensures Flows(P, M', code, sa, p)
    {
      ReadyExtends(P, M, M', code[p]);
    }
  }

  lemma LeastExtends(P: Program, M: Summaries, M': Summaries, code: seq<Opcode>, sa: Annotation)
    requires Extends(M, M') && Consistent(P, M, code, sa) && LiveIsReached(P, M, code, sa)
    ensures LiveIsReached(P, M', code, sa)
  {
    ConsistentExtends(P, M, M', code, sa);
    forall p: nat | Live(sa, p)
      ensures Reached(P, M', code, p, sa[p].value)
    {
      ReachedExtends(P, M, M', code, p, sa[p].value);
    }
    ReachedIsLeast(P, M', code, sa);
  }

  /** Every live opcode means the same under M'. */
  lemma LiveSame(P: Program, M: Summaries, M': Summaries, code: seq<Opcode>, sa: Annotation)
    requires Extends(M, M') && Consistent(P, M, code, sa)
    ensures forall p: nat {:trigger Live(sa, p)} :: Live(sa, p) ==>
              && p < |code| && Ready(P, M, code[p]) && Ready(P, M', code[p])
              && Lowest(P, M', code[p], sa[p].value) == Lowest(P, M, code[p], sa[p].value)
              && Highest(P, M', code[p], sa[p].value) == Highest(P, M, code[p], sa[p].value)
              && ReturnUse(P, M', code[p]) == ReturnUse(P, M, code[p])
  {
    forall p: nat | Live(sa, p)
      ensures p < |code| && Ready(P, M, code[p]) && Ready(P, M', code[p])
      ensures Lowest(P, M', code[p], sa[p].value) == Lowest(P, M, code[p], sa[p].value)
      ensures Highest(P, M', code[p], sa[p].value) == Highest(P, M, code[p], sa[p].value)
      ensures ReturnUse(P, M', code[p]) == ReturnUse(P, M, code[p])
    {
      assert Flows(P, M, code, sa, p);
      ReadyExtends(P, M, M', code[p]);
    }
  }

  lemma ExtremesExtend(P: Program, M: Summaries, M': Summaries, code: seq<Opcode>, sa: Annotation, x: Extremes)
    requires Extends(M, M') && Consistent(P, M, code, sa)
    requires forall p: nat {:trigger Live(sa, p)} :: Live(sa, p) ==> Bounds(P, M, code, sa, x, p)
    requires Attains(P, M, code, sa, x)
    ensures Consistent(P, M', code, sa)
    ensures forall p: nat {:trigger Live(sa, p)} :: Live(sa, p) ==> Bounds(P, M', code, sa, x, p)
    ensures Attains(P, M', code, sa, x)
  {
    hide Lowest, Highest, ReturnUse, Ready, Flows, Extends;
    ConsistentExtends(P, M, M', code, sa);
    LiveSame(P, M, M', code, sa);
  }

  lemma DescribesExtends(P: Program, M: Summaries, M': Summaries, w: nat, sa: Annotation, x: Extremes, sum: Summary)
    requires Extends(M, M') && Describes(P, M, w, sa, x, sum)
    ensures Describes(P, M', w, sa, x, sum)
  {
    hide Consistent, LiveIsReached, Bounds, Attains, Extends, Computed;
    LeastExtends(P, M, M', P.Code(w), sa);
    ExtremesExtend(P, M, M', P.Code(w), sa, x);
  }

  // ----- when no analysis can succeed -----

  /** Whatever else gets analysed, w cannot be given a justified summary. */
  ghost predicate Hopeless(P: Program, M: Summaries, w: nat) {
    forall M' :: Extends(M, M') && Coherent(P, M') ==> w !in M'
  }

  /** What any coherent M' containing w says of an offset reached in w. */
  lemma ReachedInCoherent(P: Program, M: Summaries, M': Summaries, w: nat, q: int, c: int)
    returns (sa: Annotation, x: Extremes)
    requires P.IsInterpreted(w) && Reached(P, M, P.Code(w), q, c)
    requires Extends(M, M') && Coherent(P, M') && w in M'
    ensures Describes(P, M', w, sa, x, M'[w]) && Marked(sa, q, c)
  {
    assert Justified(P, M', w);
    sa, x :| Describes(P, M', w, sa, x, M'[w]);
    ReachedExtends(P, M, M', P.Code(w), q, c);
    ReachedMarked(P, M', P.Code(w), sa, q, c);
  }

  lemma HopelessOutside(P: Program, M: Summaries, w: nat, q: int, c: int)
    requires P.IsInterpreted(w) && Reached(P, M, P.Code(w), q, c) && !(0 <= q < |P.Code(w)|)
    ensures Hopeless(P, M, w)
  {
    forall M' | Extends(M, M') && Coherent(P, M')
      ensures w !in M'
    {
      if w in M' {
        var sa, x := ReachedInCoherent(P, M, M', w, q, c);
      }
    }
  }

  lemma HopelessMismatch(P: Program, M: Summaries, w: nat, q: int, c: int, d: int)
    requires P.IsInterpreted(w) && c != d
    requires Reached(P, M, P.Code(w), q, c) && Reached(P, M, P.Code(w), q, d)
    ensures Hopeless(P, M, w)
  {
    forall M' | Extends(M, M') && Coherent(P, M')
      ensures w !in M'
    {
      if w in M' {
        var sa, x := ReachedInCoherent(P, M, M', w, q, c);
        ReachedExtends(P, M, M', P.Code(w), q, d);
        ReachedMarked(P, M', P.Code(w), sa, q, d);
      }
    }
  }

  lemma HopelessExits(P: Program, M: Summaries, w: nat, p: nat, c: int, q: nat, d: int)
    requires P.IsInterpreted(w) && c != d
    requires p < |P.Code(w)| && q < |P.Code(w)| && P.Code(w)[p].Ret? && P.Code(w)[q].Ret?
    requires Reached(P, M, P.Code(w), p, c) && Reached(P, M, P.Code(w), q, d)
    ensures Hopeless(P, M, w)
  {
    forall M' | Extends(M, M') && Coherent(P, M')
      ensures w !in M'
    {
      if w in M' {
        var sa, x := ReachedInCoherent(P, M, M', w, p, c);
        ReachedExtends(P, M, M', P.Code(w), q, d);
        ReachedMarked(P, M', P.Code(w), sa, q, d);
        ExitsAgree(P, M', w, sa, x, p, q);
      }
    }
  }

  lemma ExitsAgree(P: Program, M: Summaries, w: nat, sa: Annotation, x: Extremes, p: nat, q: nat)
    requires w in M && Describes(P, M, w, sa, x, M[w]) && Live(sa, p) && Live(sa, q)
    requires P.Code(w)[p].Ret? && P.Code(w)[q].Ret?
    ensures sa[p] == sa[q]
  {
    assert Bounds(P, M, P.Code(w), sa, x, p) && Bounds(P, M, P.Code(w), sa, x, q);
  }

  /** w reaches a call of callee. */
  ghost predicate ReachesCall(P: Program, M: Summaries, w: nat, callee: nat) {
    && P.IsInterpreted(w)
    && exists p: nat, c :: p < |P.Code(w)| && P.Code(w)[p] == Call(callee) && Reached(P, M, P.Code(w), p, c)
  }

  lemma ReachesCallExtends(P: Program, M: Summaries, M': Summaries, w: nat, callee: nat)
    requires Extends(M, M') && ReachesCall(P, M, w, callee)
    ensures ReachesCall(P, M', w, callee)
  {
    var p: nat, c :| p < |P.Code(w)| && P.Code(w)[p] == Call(callee) && Reached(P, M, P.Code(w), p, c);
    ReachedExtends(P, M, M', P.Code(w), p, c);
  }

  /** A coherent M' containing w contains every interpreted word w reaches a call of, with a
      strictly smaller return-stack need. */
  lemma CalleeCoherent(P: Program, M: Summaries, M': Summaries, w: nat, callee: nat)
    requires ReachesCall(P, M, w, callee)
    requires Extends(M, M') && Coherent(P, M') && w in M'
    ensures Analysed(P, M', callee) && EffectOf(P, M', callee).IsKnown()
    ensures P.IsInterpreted(callee) ==> M'[callee].maxReturn < M'[w].maxReturn
  {
    var p: nat, c :| p < |P.Code(w)| && P.Code(w)[p] == Call(callee) && Reached(P, M, P.Code(w), p, c);
    var sa, x := ReachedInCoherent(P, M, M', w, p, c);
    assert Live(sa, p);
    assert Flows(P, M', P.Code(w), sa, p);
    assert Bounds(P, M', P.Code(w), sa, x, p);
  }

  lemma HopelessCallee(P: Program, M: Summaries, w: nat, callee: nat)
    requires ReachesCall(P, M, w, callee)
    requires P.IsInterpreted(callee) && Hopeless(P, M, callee)
    ensures Hopeless(P, M, w)
  {
    forall M' | Extends(M, M') && Coherent(P, M')
      ensures w !in M'
    {
      if w in M' {
        CalleeCoherent(P, M, M', w, callee);
      }
    }
  }

  lemma HopelessUnknown(P: Program, M: Summaries, w: nat, callee: nat)
    requires ReachesCall(P, M, w, callee)
    requires P.IsWord(callee) && !P.words[callee].Interpreted? && !EffectOf(P, M, callee).IsKnown()
    ensures Hopeless(P, M, w)
  {
    forall M' | Extends(M, M') && Coherent(P, M')
      ensures w !in M'
    {
      if w in M' {
        CalleeCoherent(P, M, M', w, callee);
      }
    }
  }

  lemma HopelessNoWord(P: Program, M: Summaries, w: nat, callee: nat)
    requires ReachesCall(P, M, w, callee) && !P.IsWord(callee)
    ensures Hopeless(P, M, w)
  {
    forall M' | Extends(M, M') && Coherent(P, M')
      ensures w !in M'
    {
      if w in M' {
        CalleeCoherent(P, M, M', w, callee);
      }
    }
  }

  /** The words under analysis: each reaches a call of the next. */
  ghost predicate CallStack(P: Program, M: Summaries, active: seq<nat>) {
    forall i {:trigger active[i]} :: 0 <= i < |active| - 1 ==> ReachesCall(P, M, active[i], active[i + 1])
  }

  lemma CallStackExtends(P: Program, M: Summaries, M': Summaries, active: seq<nat>)
    requires Extends(M, M') && CallStack(P, M, active)
    ensures CallStack(P, M', active)
  {
    forall i | 0 <= i < |active| - 1
      ensures ReachesCall(P, M', active[i], active[i + 1])
    {
      ReachesCallExtends(P, M, M', active[i], active[i + 1]);
    }
  }

  /** Along path, membership in M is passed on and the return-stack need drops. */
  ghost predicate Descends(M: Summaries, path: seq<nat>) {
    forall i {:trigger path[i]} :: 0 <= i < |path| - 1 && path[i] in M ==>
      path[i + 1] in M && M[path[i + 1]].maxReturn < M[path[i]].maxReturn
  }

  lemma {:induction false} DescendsFar(M: Summaries, path: seq<nat>, i: nat, j: nat)
    requires Descends(M, path) && i < j < |path| && path[i] in M
    ensures path[j] in M && M[path[j]].maxReturn < M[path[i]].maxReturn
    decreases j - i
  {
    if i + 1 < j {
      DescendsFar(M, path, i, j - 1);
      assert path[j - 1 + 1] == path[j];
    }
  }

  lemma CallStackDescends(P: Program, M: Summaries, M': Summaries, path: seq<nat>)
    requires CallStack(P, M, path)
    requires forall k {:trigger path[k]} :: 0 <= k < |path| ==> P.IsInterpreted(path[k])
    requires Extends(M, M') && Coherent(P, M')
    ensures Descends(M', path)
  {
    forall i | 0 <= i < |path| - 1 && path[i] in M'
      ensures path[i + 1] in M' && M'[path[i + 1]].maxReturn < M'[path[i]].maxReturn
    {
      CalleeCoherent(P, M, M', path[i], path[i + 1]);
    }
  }

  /** A word called while it is itself under analysis can never be analysed. */
  lemma HopelessRecursion(P: Program, M: Summaries, active: seq<nat>, w: nat)
    requires CallStack(P, M, active + [w]) && w in active
    requires forall k {:trigger active[k]} :: 0 <= k < |active| ==> P.IsInterpreted(active[k])
    ensures Hopeless(P, M, w)
  {
    var path := active + [w];
    var i :| 0 <= i < |active| && active[i] == w;
    assert path[i] == w && path[|active|] == w;
    forall M' | Extends(M, M') && Coherent(P, M')
      ensures w !in M'
    {
      CallStackDescends(P, M, M', path);
      if w in M' {
        DescendsFar(M', path, i, |active|);
      }
    }
  }
}
