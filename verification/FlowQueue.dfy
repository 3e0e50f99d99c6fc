// The bounded queue of jump targets in AnalyseFlow: how often the loop runs, when the queue
// can overflow, and what a drained queue shows.

module FlowQueue {
  import opened Wrappers
  import opened Programs
  import opened FlowSpec

  /** Offsets not annotated yet. */
  function Unmarked(sa: Annotation): nat {
    if sa == [] then 0 else Unmarked(sa[..|sa| - 1]) + (if sa[|sa| - 1].None? then 1 else 0)
  }

  lemma {:induction false} UnmarkedUpdate(sa: Annotation, j: nat, c: int)
    requires j < |sa| && sa[j].None?
    ensures Unmarked(sa[j := Some(c)]) == Unmarked(sa) - 1
    decreases |sa|
  {
    var last := |sa| - 1;
    if j == last {
      assert sa[j := Some(c)][..last] == sa[..last];
    } else {
      UnmarkedUpdate(sa[..last], j, c);
      assert sa[j := Some(c)][..last] == sa[..last][j := Some(c)];
    }
  }

  lemma {:induction false} UnmarkedBound(sa: Annotation)
    ensures Unmarked(sa) <= |sa|
    ensures |sa| > 0 && sa[0].Some? ==> Unmarked(sa) < |sa|
    decreases |sa|
  {
    if |sa| > 0 {
      UnmarkedBound(sa[..|sa| - 1]);
    }
  }

  function Elems(s: seq<int>): set<int> { set q | q in s }

  lemma ElemsPush(s: seq<int>, j: int)
    ensures Elems(s + [j]) == Elems(s) + {j}
  {}

  lemma ElemsPop(s: seq<int>)
    requires |s| > 0
    ensures Elems(s) == {s[0]} + Elems(s[1..])
  {
    assert s == [s[0]] + s[1..];
  }

  predicate Jumps(code: seq<Opcode>, p: int) { 0 <= p < |code| && code[p].JumpDisp() != 0 }

  function JumpTarget(code: seq<Opcode>, p: nat): int
    requires p < |code|
  {
    p + 1 + code[p].JumpDisp()
  }

  // ----- how often the queue is filled -----

  /** How many jumps are taken one after the other from p, up to the given number. */
  function Chain(code: seq<Opcode>, p: int, fuel: nat): (n: nat)
    ensures n <= fuel
    decreases fuel
  {
    if fuel == 0 || !Jumps(code, p) then 0 else 1 + Chain(code, JumpTarget(code, p), fuel - 1)
  }

  /** The length of the chain of jumps that starts at p; more than |code| on a circle. */
  function ChainLength(code: seq<Opcode>, p: int): nat { Chain(code, p, |code| + 1) }

  /** Control may come to p from the opcode before it. */
  predicate Enterable(code: seq<Opcode>, p: nat)
    requires p < |code|
  {
    p == 0 || code[p - 1].MayFallThrough()
  }

  /** The chains that start at the first n offsets, where control may come from above. */
  function Budget(code: seq<Opcode>, n: nat): nat
    requires n <= |code|
  {
    if n == 0 then 0 else Budget(code, n - 1) + (if Enterable(code, n - 1) then ChainLength(code, n - 1) else 0)
  }

  /** All chains of jumps together fit in the queue. */
  predicate Roomy(code: seq<Opcode>) { Budget(code, |code|) <= |code| }

  lemma {:induction false} ChainSettled(code: seq<Opcode>, p: int, fuel: nat)
    requires Chain(code, p, fuel) < fuel
    ensures Chain(code, p, fuel + 1) == Chain(code, p, fuel)
    decreases fuel
  {
    if Jumps(code, p) { ChainSettled(code, JumpTarget(code, p), fuel - 1); }
  }

  /** Visiting a jump uses up one jump of its chain. */
  lemma ChainStep(code: seq<Opcode>, p: nat)
    requires Jumps(code, p) && ChainLength(code, p) <= |code|
    ensures ChainLength(code, p) == 1 + ChainLength(code, JumpTarget(code, p))
  {
    ChainSettled(code, JumpTarget(code, p), |code|);
  }

  /** The chains that start at entered offsets below n. */
  function Spent(code: seq<Opcode>, entered: set<nat>, n: nat): nat {
    if n == 0 then 0 else Spent(code, entered, n - 1) + (if n - 1 in entered then ChainLength(code, n - 1) else 0)
  }

  lemma {:induction false} SpentMore(code: seq<Opcode>, entered: set<nat>, p: nat, n: nat)
    requires p !in entered
    ensures Spent(code, entered + {p}, n) == Spent(code, entered, n) + (if p < n then ChainLength(code, p) else 0)
  {
    hide ChainLength;
    if n > 0 { SpentMore(code, entered, p, n - 1); }
  }

  lemma {:induction false} SpentInBudget(code: seq<Opcode>, entered: set<nat>, n: nat)
    requires n <= |code| && forall p {:trigger p in entered} :: p in entered ==> p < |code| && Enterable(code, p)
    ensures Spent(code, entered, n) <= Budget(code, n)
  {
    hide ChainLength;
    if n > 0 { SpentInBudget(code, entered, n - 1); }
  }

  /** The chains that still start at the queued offsets. */
  function Load(code: seq<Opcode>, queue: seq<int>): nat {
    if queue == [] then 0 else Load(code, queue[..|queue| - 1]) + ChainLength(code, queue[|queue| - 1])
  }

  lemma LoadPush(code: seq<Opcode>, queue: seq<int>, q: int)
    ensures Load(code, queue + [q]) == Load(code, queue) + ChainLength(code, q)
  {
    assert (queue + [q])[..|queue|] == queue;
  }

  lemma {:induction false} LoadPop(code: seq<Opcode>, queue: seq<int>)
    requires |queue| > 0
    ensures Load(code, queue) == ChainLength(code, queue[0]) + Load(code, queue[1..])
    decreases |queue|
  {
    hide ChainLength;
    var last := |queue| - 1;
    if last == 0 {
      assert queue[..0] == [] && queue[1..] == [];
    } else {
      LoadPop(code, queue[..last]);
      assert queue[..last][1..] == queue[1..][..last - 1];
    }
  }

  /** The offsets still to be visited: the current one and the queue. */
  function Waiting(off: int, queue: seq<int>): set<int> { {off} + Elems(queue) }

  /** entered holds the offsets that control came to from above, each only once. What was pushed
      and what the waiting offsets will still push belongs to the chains that start there. */
  ghost predicate QueueFits(code: seq<Opcode>, entered: set<nat>, done: set<nat>, off: nat, queue: seq<int>,
                            count: nat) {
    Roomy(code) ==>
      && entered <= done + {off}
      && (forall p {:trigger p in entered} :: p in entered ==> p < |code| && Enterable(code, p))
      && count + ChainLength(code, off) + Load(code, queue) <= Spent(code, entered, |code|)
  }

  /** As long as the chains of jumps fit, the queue of |code| slots has room for each target. */
  lemma QueueRoom(code: seq<Opcode>, entered: set<nat>, done: set<nat>, off: nat, queue: seq<int>, count: nat)
    requires QueueFits(code, entered, done, off, queue, count)
    requires off < |code| && Jumps(code, off) && Roomy(code)
    ensures count < |code|
  {
    SpentInBudget(code, entered, |code|);
  }

  lemma QueueFitsStart(code: seq<Opcode>)
    requires |code| > 0
    ensures QueueFits(code, {0}, {}, 0, [], 0)
  {
    SpentMore(code, {}, 0, |code|);
    SpentNothing(code, |code|);
    assert {} + {0} == {0};
  }

  lemma {:induction false} SpentNothing(code: seq<Opcode>, n: nat)
    ensures Spent(code, {}, n) == 0
  {
    if n > 0 { SpentNothing(code, n - 1); }
  }

  /** Before the next offset is chosen: the visit of off moved one jump of its chain from the
      future into the queue. */
  lemma QueueFitsVisit(code: seq<Opcode>, entered: set<nat>, done: set<nat>, off: nat, queue: seq<int>, count: nat,
                       queue': seq<int>)
    requires QueueFits(code, entered, done, off, queue, count) && off < |code|
    requires Appended(code, off, queue, queue')
    ensures Roomy(code) ==> count + |queue'| - |queue| + Load(code, queue') <= Spent(code, entered, |code|)
  {
    hide ChainLength;
    if Roomy(code) && Jumps(code, off) {
      SpentInBudget(code, entered, |code|);
      ChainStep(code, off);
      LoadPush(code, queue, JumpTarget(code, off));
    }
  }

  /** Chains of length one: without a jump to a jump there is always room. */
  lemma SingleJumpsRoomy(code: seq<Opcode>)
    requires forall p: nat {:trigger Jumps(code, p)} :: Jumps(code, p) ==> !Jumps(code, JumpTarget(code, p))
    ensures Roomy(code)
  {
    SingleJumpsBudget(code, |code|);
  }

  lemma {:induction false} SingleJumpsBudget(code: seq<Opcode>, n: nat)
    requires forall p: nat {:trigger Jumps(code, p)} :: Jumps(code, p) ==> !Jumps(code, JumpTarget(code, p))
    requires n <= |code|
    ensures Budget(code, n) <= n
  {
    if n > 0 {
      SingleJumpsBudget(code, n - 1);
      if Jumps(code, n - 1) { assert Chain(code, JumpTarget(code, n - 1), |code|) == 0; }
    }
  }

  /** The queue after off was visited: its jump target, if any, was appended. */
  ghost predicate Appended(code: seq<Opcode>, off: nat, queue: seq<int>, queue': seq<int>)
    requires off < |code|
  {
    queue' == if Jumps(code, off) then queue + [JumpTarget(code, off)] else queue
  }

  /** On to the offset below, which is new to control. */
  lemma QueueFitsNext(code: seq<Opcode>, entered: set<nat>, done: set<nat>, off: nat, queue: seq<int>, count: nat,
                      queue': seq<int>)
    requires QueueFits(code, entered, done, off, queue, count) && off + 1 < |code|
    requires Appended(code, off, queue, queue') && off + 1 !in done && code[off].MayFallThrough()
    ensures QueueFits(code, entered + {off + 1}, done + {off}, off + 1, queue', count + |queue'| - |queue|)
  {
    hide ChainLength;
    QueueFitsVisit(code, entered, done, off, queue, count, queue');
    if Roomy(code) { SpentMore(code, entered, off + 1, |code|); }
  }

  /** On to the head of the queue. */
  lemma QueueFitsPop(code: seq<Opcode>, entered: set<nat>, done: set<nat>, off: nat, queue: seq<int>, count: nat,
                     queue': seq<int>)
    requires QueueFits(code, entered, done, off, queue, count) && off < |code|
    requires Appended(code, off, queue, queue') && |queue'| > 0 && queue'[0] >= 0
    ensures QueueFits(code, entered, done + {off}, queue'[0], queue'[1..], count + |queue'| - |queue|)
  {
    hide ChainLength;
    QueueFitsVisit(code, entered, done, off, queue, count, queue');
    LoadPop(code, queue');
  }

  // ----- a drained queue -----

  /** rank orders the live jumps: each comes before the opcode it jumps to. */
  ghost predicate JumpsRise(code: seq<Opcode>, sa: Annotation, rank: seq<nat>) {
    && |sa| == |code| == |rank|
    && forall p: nat {:trigger Live(sa, p)} :: Live(sa, p) && Jumps(code, p) ==>
         0 <= JumpTarget(code, p) < |code| && rank[p] < rank[JumpTarget(code, p)]
  }

  /** The same while the loop runs: the target of an explored jump is waiting or was visited later. */
  ghost predicate Rising(code: seq<Opcode>, rank: seq<nat>, done: set<nat>, todo: set<int>, clock: nat) {
    && |rank| == |code|
    && (forall p {:trigger rank[p]} :: 0 <= p < |rank| ==> rank[p] < clock)
    && (forall p: nat {:trigger p in done} :: p in done && Jumps(code, p) ==>
         0 <= JumpTarget(code, p) < |code|
         && (JumpTarget(code, p) in todo || rank[p] < rank[JumpTarget(code, p)]))
  }

  lemma RisingVisit(code: seq<Opcode>, rank: seq<nat>, done: set<nat>, todo: set<int>, clock: nat, off: nat,
                    todo': set<int>)
    requires Rising(code, rank, done, todo, clock) && off < |code|
    requires todo <= todo' + {off}
    requires Jumps(code, off) ==> 0 <= JumpTarget(code, off) < |code| && JumpTarget(code, off) in todo'
    ensures Rising(code, rank[off := clock], done + {off}, todo', clock + 1)
  {}

  ghost predicate DrainedAt(P: Program, M: Summaries, w: nat) {
    P.IsInterpreted(w) && exists sa, rank :: Consistent(P, M, P.Code(w), sa) && JumpsRise(P.Code(w), sa, rank)
  }

  ghost predicate Drained(P: Program, M: Summaries) {
    forall w {:trigger DrainedAt(P, M, w)} :: w in M ==> DrainedAt(P, M, w)
  }
}
