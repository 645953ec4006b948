/**
 The order the pipeline runs its tasks in: Kahn's algorithm with ties broken by declaration rank,
 fed by containers whose iteration order is arbitrary.
 */
module TopoSort {
  import opened StableSort

  /** `requires` lists each task's prerequisites, those outside `tasks` included; `ordinal` is the
      task's discriminant, which ranks tasks that were not declared. */
  datatype Graph<!T(==)> = Graph(declared: seq<T>, tasks: set<T>, prerequisites: T -> seq<T>, ordinal: T -> nat)

  function FirstIndex<T(==)>(s: seq<T>, t: T): (i: nat)
    requires t in s
    ensures i < |s| && s[i] == t && t !in s[..i]
  {
    if s[0] == t then 0
    else
      var i := FirstIndex(s[1..], t);
      assert s[..i + 1] == [s[0]] + s[1..][..i];
      i + 1
  }

  function Rank<T(==)>(g: Graph<T>, t: T): nat {
    if t in g.declared then FirstIndex(g.declared, t) else |g.declared| + g.ordinal(t)
  }

  ghost predicate DistinctOrdinals<T(!new)>(g: Graph<T>) {
    forall t, u :: g.ordinal(t) == g.ordinal(u) ==> t == u
  }

  function Elems<T>(s: seq<T>): set<T> {
    set x | x in s
  }

  lemma ElemsSnoc<T>(s: seq<T>, n: nat)
    requires n < |s|
    ensures Elems(s[..n + 1]) == Elems(s[..n]) + {s[n]}
  {
    assert s[..n + 1] == s[..n] + [s[n]];
  }

  lemma AllElems<T>(s: seq<T>)
    ensures Elems(s[..|s|]) == Elems(s)
  {
    assert s[..|s|] == s;
  }

  lemma RanksDistinct<T(!new)>(g: Graph<T>, t: T, u: T)
    requires DistinctOrdinals(g) && Rank(g, t) == Rank(g, u)
    ensures t == u
  {
  }

  // ----- What a schedule is

  ghost predicate Available<T>(g: Graph<T>, done: set<T>, t: T) {
    t in g.tasks && t !in done && forall r :: r in g.prerequisites(t) && r in g.tasks ==> r in done
  }

  /** Every task comes once, after all its prerequisites in the set. */
  ghost predicate IsSchedule<T>(g: Graph<T>, out: seq<T>) {
    forall i :: 0 <= i < |out| ==> Available(g, Elems(out[..i]), out[i])
  }

  /** A schedule of the whole set. */
  ghost predicate IsOrder<T>(g: Graph<T>, out: seq<T>) {
    IsSchedule(g, out) && Elems(out) == g.tasks
  }

  ghost predicate IsLeast<T(!new)>(g: Graph<T>, done: set<T>, t: T) {
    Available(g, done, t) && forall u :: Available(g, done, u) ==> Rank(g, t) <= Rank(g, u)
  }

  /** Each position holds the available task declared earliest, until none is available. */
  ghost predicate IsGreedy<T(!new)>(g: Graph<T>, out: seq<T>) {
    && (forall i :: 0 <= i < |out| ==> IsLeast(g, Elems(out[..i]), out[i]))
    && (forall u :: !Available(g, Elems(out), u))
  }

  /** A non-empty part of the set in which every task waits for another one of the part. */
  ghost predicate IsDeadlock<T(!new)>(g: Graph<T>, s: set<T>) {
    s != {} && s <= g.tasks && forall t {:trigger g.prerequisites(t)} :: t in s ==>
      exists r :: r in g.prerequisites(t) && r in s
  }

  // ----- Properties of the greedy schedule

  lemma GreedyIsSchedule<T(!new)>(g: Graph<T>, out: seq<T>)
    requires IsGreedy(g, out)
    ensures IsSchedule(g, out) && Elems(out) <= g.tasks
    ensures forall i, j :: 0 <= i < j < |out| ==> out[i] != out[j]
  {
    forall i | 0 <= i < |out|
      ensures Available(g, Elems(out[..i]), out[i])
    {
      assert IsLeast(g, Elems(out[..i]), out[i]);
    }
    forall i, j | 0 <= i < j < |out|
      ensures out[i] != out[j]
    {
      assert out[..j][i] == out[i];
    }
  }

  /** The greedy schedule is unique, so no iteration order can change it. */
  lemma GreedyIsUnique<T(!new)>(g: Graph<T>, a: seq<T>, b: seq<T>)
    requires DistinctOrdinals(g) && IsGreedy(g, a) && IsGreedy(g, b)
    ensures a == b
  {
    GreedyPrefix(g, a, b, |a|);
    GreedyPrefix(g, b, a, |b|);
    assert a[..|a|] == a && b[..|b|] == b;
  }

  lemma TakeSnoc<T>(s: seq<T>, n: nat)
    requires 0 < n <= |s|
    ensures s[..n] == s[..n - 1] + [s[n - 1]]
  {
  }

  lemma {:induction false} GreedyPrefix<T(!new)>(g: Graph<T>, a: seq<T>, b: seq<T>, n: nat)
    requires DistinctOrdinals(g) && IsGreedy(g, a) && IsGreedy(g, b) && n <= |a|
    ensures n <= |b| && a[..n] == b[..n]
    decreases n
  {
    if n > 0 {
      GreedyPrefix(g, a, b, n - 1);
      GreedyStep(g, a, b, n - 1);
      TakeSnoc(a, n);
      TakeSnoc(b, n);
    }
  }

  lemma GreedyStep<T(!new)>(g: Graph<T>, a: seq<T>, b: seq<T>, i: nat)
    requires DistinctOrdinals(g) && IsGreedy(g, a) && IsGreedy(g, b)
    requires i < |a| && i <= |b| && a[..i] == b[..i]
    ensures i < |b| && a[i] == b[i]
  {
    assert IsLeast(g, Elems(a[..i]), a[i]);
    AllElems(b);
    if i < |b| {
      assert IsLeast(g, Elems(b[..i]), b[i]);
      RanksDistinct(g, a[i], b[i]);
    }
  }

  /** The schedule covers the whole set exactly when nothing in it waits in a circle. */
  lemma GreedyCompleteIffNoDeadlock<T(!new)>(g: Graph<T>, out: seq<T>)
    requires IsGreedy(g, out)
    ensures IsOrder(g, out) <==> forall s :: !IsDeadlock(g, s)
  {
    GreedyIsSchedule(g, out);
    if Elems(out) != g.tasks {
      UnscheduledIsDeadlock(g, out);
    } else {
      forall s
        ensures !IsDeadlock(g, s)
      {
        DeadlockBlocks(g, out, s);
      }
    }
  }

  lemma UnscheduledIsDeadlock<T(!new)>(g: Graph<T>, out: seq<T>)
    requires IsGreedy(g, out) && Elems(out) < g.tasks
    ensures IsDeadlock(g, g.tasks - Elems(out))
  {
    var done := Elems(out);
    forall t | t in g.tasks - done
      ensures exists r :: r in g.prerequisites(t) && r in g.tasks - done
    {
      assert !Available(g, done, t);
    }
    var t :| t in g.tasks && t !in done;
    assert t in g.tasks - done;
  }

  lemma DeadlockBlocks<T(!new)>(g: Graph<T>, out: seq<T>, s: set<T>)
    requires IsOrder(g, out)
    ensures !IsDeadlock(g, s)
  {
    if IsDeadlock(g, s) {
      NothingFromDeadlock(g, out, s, |out|);
      AllElems(out);
    }
  }

  lemma {:induction false} NothingFromDeadlock<T(!new)>(g: Graph<T>, out: seq<T>, s: set<T>, n: nat)
    requires IsSchedule(g, out) && IsDeadlock(g, s) && n <= |out|
    ensures Elems(out[..n]) !! s
    decreases n
  {
    if n > 0 {
      NothingFromDeadlock(g, out, s, n - 1);
      ElemsSnoc(out, n - 1);
      DeadlockedNotAvailable(g, Elems(out[..n - 1]), s, out[n - 1]);
    }
  }

  lemma DeadlockedNotAvailable<T(!new)>(g: Graph<T>, done: set<T>, s: set<T>, t: T)
    requires IsDeadlock(g, s) && done !! s && Available(g, done, t)
    ensures t !in s
  {
  }

  ghost predicate LexAtMost<T(!new)>(g: Graph<T>, a: seq<T>, b: seq<T>) {
    a == b || exists i :: 0 <= i < |a| && i < |b| && a[..i] == b[..i] && Rank(g, a[i]) < Rank(g, b[i])
  }

  /** No valid order is smaller than the greedy one, comparing declaration ranks left to right. */
  lemma GreedyIsLexLeast<T(!new)>(g: Graph<T>, out: seq<T>, other: seq<T>)
    requires DistinctOrdinals(g) && IsGreedy(g, out) && IsOrder(g, other)
    ensures IsOrder(g, out) && LexAtMost(g, out, other)
  {
    forall s
      ensures !IsDeadlock(g, s)
    {
      DeadlockBlocks(g, other, s);
    }
    GreedyCompleteIffNoDeadlock(g, out);
    var i := FirstDifference(out, other);
    if i < |out| && i < |other| {
      assert IsLeast(g, Elems(out[..i]), out[i]);
      assert Available(g, Elems(other[..i]), other[i]);
      if Rank(g, out[i]) == Rank(g, other[i]) { RanksDistinct(g, out[i], other[i]); }
    } else {
      OrderPrefix(g, out, other, i);
    }
  }

  lemma FirstDifference<T>(a: seq<T>, b: seq<T>) returns (i: nat)
    ensures i <= |a| && i <= |b| && a[..i] == b[..i]
    ensures i < |a| && i < |b| ==> a[i] != b[i]
  {
    i := 0;
    while i < |a| && i < |b| && a[i] == b[i]
      invariant i <= |a| && i <= |b| && a[..i] == b[..i]
    {
      i := i + 1;
    }
  }

  lemma OrderPrefix<T(!new)>(g: Graph<T>, a: seq<T>, b: seq<T>, i: nat)
    requires IsOrder(g, a) && IsOrder(g, b) && (i == |a| || i == |b|)
    requires i <= |a| && i <= |b| && a[..i] == b[..i]
    ensures a == b
  {
  }

  /** A declaration that is already a valid order comes back unchanged. */
  lemma ConsistentDeclarationIsKept<T(!new)>(g: Graph<T>, out: seq<T>)
    requires DistinctOrdinals(g) && IsGreedy(g, out) && IsOrder(g, g.declared)
    ensures out == g.declared
  {
    var d := g.declared;
    forall i | 0 <= i < |d|
      ensures IsLeast(g, Elems(d[..i]), d[i])
    {
      assert d[i] !in Elems(d[..i]);
      forall u | Available(g, Elems(d[..i]), u)
        ensures Rank(g, d[i]) <= Rank(g, u)
      {
        assert u in Elems(d);
        var k, k' := FirstIndex(d, u), FirstIndex(d, d[i]);
      }
    }
    assert d[..|d|] == d;
    GreedyIsUnique(g, out, d);
  }

  // ----- Kahn's algorithm

  /** How often `t` waits: its prerequisites in the set that are not done, with repetitions. */
  function Unmet<T(==)>(reqs: seq<T>, tasks: set<T>, done: set<T>): nat {
    if |reqs| == 0 then 0
    else (if reqs[0] in tasks && reqs[0] !in done then 1 else 0) + Unmet(reqs[1..], tasks, done)
  }

  lemma {:induction false} UnmetZero<T>(reqs: seq<T>, tasks: set<T>, done: set<T>)
    ensures Unmet(reqs, tasks, done) == 0 <==> forall r :: r in reqs && r in tasks ==> r in done
    decreases |reqs|
  {
    if |reqs| > 0 {
      UnmetZero(reqs[1..], tasks, done);
      assert reqs == [reqs[0]] + reqs[1..];
    }
  }

  lemma {:induction false} UnmetAfter<T>(reqs: seq<T>, tasks: set<T>, done: set<T>, p: T)
    requires p in tasks && p !in done
    ensures Unmet(reqs, tasks, done) == Unmet(reqs, tasks, done + {p}) + multiset(reqs)[p]
    decreases |reqs|
  {
    if |reqs| > 0 {
      UnmetAfter(reqs[1..], tasks, done, p);
      assert reqs == [reqs[0]] + reqs[1..];
    }
  }

  lemma {:induction false} UnmetSnoc<T>(reqs: seq<T>, r: T, tasks: set<T>, done: set<T>)
    ensures Unmet(reqs + [r], tasks, done) == Unmet(reqs, tasks, done) + if r in tasks && r !in done then 1 else 0
    decreases |reqs|
  {
    if |reqs| > 0 {
      UnmetSnoc(reqs[1..], r, tasks, done);
      assert (reqs + [r])[1..] == reqs[1..] + [r];
    }
  }

  ghost predicate IsPermutation<T(!new)>(s: seq<T>, tasks: set<T>) {
    forall t :: multiset(s)[t] == if t in tasks then 1 else 0
  }

  /** The tasks in `among` that name `p`, once for each time they name it. */
  ghost predicate SuccessorsAmong<T(!new)>(g: Graph<T>, succs: seq<T>, p: T, among: set<T>) {
    forall t :: multiset(succs)[t] == if t in among then multiset(g.prerequisites(t))[p] else 0
  }

  ghost predicate SuccessorsOf<T(!new)>(g: Graph<T>, succs: seq<T>, p: T) {
    SuccessorsAmong(g, succs, p, g.tasks)
  }

  ghost predicate EdgesFor<T(!new)>(g: Graph<T>, edges: map<T, seq<T>>, keys: set<T>) {
    edges.Keys == keys && forall p :: p in keys ==> SuccessorsOf(g, edges[p], p)
  }

  ghost predicate IndegreesFor<T(!new)>(g: Graph<T>, indegree: map<T, nat>, done: set<T>) {
    indegree.Keys == g.tasks && forall t :: t in g.tasks ==> indegree[t] == Unmet(g.prerequisites(t), g.tasks, done)
  }

  /** The prerequisites of `t` entered so far: all of those of the tasks in `before`, and the first `k`
      of those of `current`. */
  function Entered<T(==)>(g: Graph<T>, before: set<T>, current: T, k: nat, t: T): seq<T>
    requires k <= |g.prerequisites(current)|
  {
    if t in before then g.prerequisites(t) else if t == current then g.prerequisites(t)[..k] else []
  }

  ghost predicate EdgesSoFar<T(!new)>(g: Graph<T>, edges: map<T, seq<T>>, before: set<T>, current: T, k: nat)
    requires k <= |g.prerequisites(current)|
  {
    edges.Keys == g.tasks &&
    forall p, t :: p in g.tasks ==> multiset(edges[p])[t] == multiset(Entered(g, before, current, k, t))[p]
  }

  ghost predicate IndegreesSoFar<T(!new)>(g: Graph<T>, indegree: map<T, nat>, before: set<T>, current: T, k: nat)
    requires k <= |g.prerequisites(current)|
  {
    indegree.Keys == g.tasks &&
    forall t :: t in g.tasks ==> indegree[t] == Unmet(Entered(g, before, current, k, t), g.tasks, {})
  }

  /** All prerequisites of the tasks in `before` are entered, and no others. */
  ghost predicate EnteredAll<T(!new)>(g: Graph<T>, edges: map<T, seq<T>>, indegree: map<T, nat>, before: set<T>) {
    && edges.Keys == g.tasks == indegree.Keys
    && (forall p :: p in g.tasks ==> SuccessorsAmong(g, edges[p], p, before))
    && (forall t :: t in g.tasks ==> indegree[t] == if t in before then Unmet(g.prerequisites(t), g.tasks, {}) else 0)
  }

  lemma StartNode<T(!new)>(g: Graph<T>, edges: map<T, seq<T>>, indegree: map<T, nat>, before: set<T>, current: T)
    requires EnteredAll(g, edges, indegree, before) && current !in before
    ensures EdgesSoFar(g, edges, before, current, 0)
    ensures IndegreesSoFar(g, indegree, before, current, 0)
  {
    assert g.prerequisites(current)[..0] == [];
    forall t
      ensures Entered(g, before, current, 0, t) == if t in before then g.prerequisites(t) else []
    {
    }
    forall p, t | p in g.tasks
      ensures multiset(edges[p])[t] == multiset(Entered(g, before, current, 0, t))[p]
    {
      assert SuccessorsAmong(g, edges[p], p, before);
    }
  }

  lemma NothingEntered<T(!new)>(g: Graph<T>, edges: map<T, seq<T>>, indegree: map<T, nat>)
    requires edges.Keys == g.tasks == indegree.Keys
    requires forall t :: t in g.tasks ==> edges[t] == [] && indegree[t] == 0
    ensures EnteredAll(g, edges, indegree, {})
  {
  }

  lemma EverythingEntered<T(!new)>(g: Graph<T>, edges: map<T, seq<T>>, indegree: map<T, nat>)
    requires EnteredAll(g, edges, indegree, g.tasks)
    ensures EdgesFor(g, edges, g.tasks) && IndegreesFor(g, indegree, {})
  {
    forall p | p in g.tasks
      ensures SuccessorsOf(g, edges[p], p)
    {
      assert SuccessorsAmong(g, edges[p], p, g.tasks);
    }
  }

  lemma FinishNode<T(!new)>(g: Graph<T>, edges: map<T, seq<T>>, indegree: map<T, nat>, before: set<T>, current: T)
    requires EdgesSoFar(g, edges, before, current, |g.prerequisites(current)|)
    requires IndegreesSoFar(g, indegree, before, current, |g.prerequisites(current)|)
    ensures EnteredAll(g, edges, indegree, before + {current})
  {
    var reqs := g.prerequisites(current);
    assert reqs[..|reqs|] == reqs;
    forall t
      ensures Entered(g, before, current, |reqs|, t) == if t in before + {current} then g.prerequisites(t) else []
    {
    }
    forall p | p in g.tasks
      ensures SuccessorsAmong(g, edges[p], p, before + {current})
    {
      forall t
        ensures multiset(edges[p])[t] == if t in before + {current} then multiset(g.prerequisites(t))[p] else 0
      {
        assert multiset(edges[p])[t] == multiset(Entered(g, before, current, |reqs|, t))[p];
      }
    }
  }

  lemma EnterOne<T(!new)>(g: Graph<T>, edges: map<T, seq<T>>, indegree: map<T, nat>, before: set<T>, current: T, k: nat)
    requires k < |g.prerequisites(current)| && current in g.tasks && current !in before
    requires EdgesSoFar(g, edges, before, current, k) && IndegreesSoFar(g, indegree, before, current, k)
    ensures var r := g.prerequisites(current)[k];
            if r in g.tasks then
              EdgesSoFar(g, edges[r := edges[r] + [current]], before, current, k + 1) &&
              IndegreesSoFar(g, indegree[current := indegree[current] + 1], before, current, k + 1)
            else
              EdgesSoFar(g, edges, before, current, k + 1) && IndegreesSoFar(g, indegree, before, current, k + 1)
  {
    EnterEdge(g, edges, before, current, k);
    EnterIndegree(g, indegree, before, current, k);
  }

  lemma EnterEdge<T(!new)>(g: Graph<T>, edges: map<T, seq<T>>, before: set<T>, current: T, k: nat)
    requires k < |g.prerequisites(current)| && current in g.tasks && current !in before
    requires EdgesSoFar(g, edges, before, current, k)
    ensures var r := g.prerequisites(current)[k];
            EdgesSoFar(g, if r in g.tasks then edges[r := edges[r] + [current]] else edges, before, current, k + 1)
  {
    var reqs := g.prerequisites(current);
    var r := reqs[k];
    var edges' := if r in g.tasks then edges[r := edges[r] + [current]] else edges;
    assert reqs[..k + 1] == reqs[..k] + [r];
    forall p, t | p in g.tasks
      ensures multiset(edges'[p])[t] == multiset(Entered(g, before, current, k + 1, t))[p]
    {
      assert multiset(edges[p])[t] == multiset(Entered(g, before, current, k, t))[p];
    }
  }

  lemma EnterIndegree<T(!new)>(g: Graph<T>, indegree: map<T, nat>, before: set<T>, current: T, k: nat)
    requires k < |g.prerequisites(current)| && current in g.tasks && current !in before
    requires IndegreesSoFar(g, indegree, before, current, k)
    ensures var r := g.prerequisites(current)[k];
            IndegreesSoFar(g, if r in g.tasks then indegree[current := indegree[current] + 1]
                           else indegree, before, current, k + 1)
  {
    var reqs := g.prerequisites(current);
    UnmetSnoc(reqs[..k], reqs[k], g.tasks, {});
    assert reqs[..k + 1] == reqs[..k] + [reqs[k]];
  }

  method EnterNode<T(==, !new)>(g: Graph<T>, indegree0: map<T, nat>, edges0: map<T, seq<T>>, t: T, ghost before: set<T>)
    returns (indegree: map<T, nat>, edges: map<T, seq<T>>)
    requires EnteredAll(g, edges0, indegree0, before) && t in g.tasks && t !in before
    ensures EnteredAll(g, edges, indegree, before + {t})
  {
    indegree, edges := indegree0, edges0;
    StartNode(g, edges, indegree, before, t);
    var reqs := g.prerequisites(t);
    for k := 0 to |reqs|
      invariant EdgesSoFar(g, edges, before, t, k)
      invariant IndegreesSoFar(g, indegree, before, t, k)
    {
      EnterOne(g, edges, indegree, before, t, k);
      if reqs[k] in g.tasks {
        edges := edges[reqs[k] := edges[reqs[k]] + [t]];
        indegree := indegree[t := indegree[t] + 1];
      }
    }
    FinishNode(g, edges, indegree, before, t);
  }

  method BuildEdges<T(==, !new)>(g: Graph<T>, nodes: seq<T>) returns (indegree: map<T, nat>, edges: map<T, seq<T>>)
    requires IsPermutation(nodes, g.tasks)
    ensures EdgesFor(g, edges, g.tasks)
    ensures IndegreesFor(g, indegree, {})
  {
    indegree := map t | t in g.tasks :: 0;
    edges := map t | t in g.tasks :: [];
    NothingEntered(g, edges, indegree);
    for n := 0 to |nodes|
      invariant EnteredAll(g, edges, indegree, Elems(nodes[..n]))
    {
      NotBefore(nodes, g.tasks, n);
      indegree, edges := EnterNode(g, indegree, edges, nodes[n], Elems(nodes[..n]));
      ElemsSnoc(nodes, n);
    }
    AllElems(nodes);
    PermutationElems(nodes, g.tasks);
    EverythingEntered(g, edges, indegree);
  }

  lemma PermutationElems<T(!new)>(s: seq<T>, tasks: set<T>)
    requires IsPermutation(s, tasks)
    ensures Elems(s) == tasks
  {
    forall t ensures t in s <==> t in tasks { assert t in s <==> multiset(s)[t] > 0; }
  }

  lemma NotBefore<T(!new)>(s: seq<T>, tasks: set<T>, n: nat)
    requires IsPermutation(s, tasks) && n < |s|
    ensures s[n] in tasks && s[n] !in s[..n]
  {
    assert s == s[..n] + [s[n]] + s[n + 1..];
    assert multiset(s)[s[n]] >= multiset(s[..n])[s[n]] + 1;
  }

  ghost predicate SortedByRank<T>(g: Graph<T>, s: seq<T>) {
    forall i, j :: 0 <= i < j < |s| ==> Rank(g, s[i]) <= Rank(g, s[j])
  }

  function SortByRank<T(==)>(g: Graph<T>, s: seq<T>): (r: seq<T>)
    ensures multiset(r) == multiset(s)
    ensures SortedByRank(g, r)
  {
    Sort(t => Rank(g, t), s)
  }

  /** The ready list holds, once each, the tasks not done whose indegree is zero. */
  ghost predicate ReadyFor<T(!new)>(g: Graph<T>, ready: seq<T>, indegree: map<T, nat>, done: set<T>)
    requires indegree.Keys == g.tasks
  {
    forall t :: multiset(ready)[t] == if t in g.tasks && t !in done && indegree[t] == 0 then 1 else 0
  }

  /** What every step of the algorithm keeps. */
  ghost predicate Progress<T(!new)>(g: Graph<T>, indegree: map<T, nat>, edges: map<T, seq<T>>, ready: seq<T>,
                                    out: seq<T>)
  {
    && (forall i :: 0 <= i < |out| ==> IsLeast(g, Elems(out[..i]), out[i]))
    && Closed(g, Elems(out))
    && IndegreesFor(g, indegree, Elems(out))
    && EdgesFor(g, edges, g.tasks - Elems(out))
    && ReadyFor(g, ready, indegree, Elems(out))
  }

  method PickNext<T(==, !new)>(g: Graph<T>, indegree0: map<T, nat>, edges0: map<T, seq<T>>, ready0: seq<T>,
                               out0: seq<T>)
    returns (indegree: map<T, nat>, edges: map<T, seq<T>>, ready: seq<T>, out: seq<T>)
    requires Progress(g, indegree0, edges0, ready0, out0) && |ready0| > 0
    ensures Progress(g, indegree, edges, ready, out)
    ensures |out| == |out0| + 1 && out0 == out[..|out0|] && IsLeast(g, Elems(out0), out[|out0|])
  {
    ready := SortByRank(g, ready0);
    var pick := ready[0];
    PickIsLeast(g, ready, indegree0, Elems(out0));
    ready := ready[1..];
    out := out0 + [pick];
    SnocLeast(g, out0, pick);
    EdgesWithout(g, edges0, g.tasks - Elems(out0), pick);
    assert g.tasks - Elems(out0) - {pick} == g.tasks - Elems(out);
    var succs := edges0[pick];
    edges := edges0 - {pick};
    indegree, ready := Release(g, indegree0, ready, succs, pick, Elems(out0));
  }

  /** Whatever order the hash containers are walked in (`nodes`, `initial`), the result is the greedy
      schedule. */
  method TopoSortStable<T(==, !new)>(g: Graph<T>, nodes: seq<T>, initial: seq<T>) returns (out: seq<T>)
    requires IsPermutation(nodes, g.tasks) && IsPermutation(initial, g.tasks)
    ensures IsGreedy(g, out)
  {
    var indegree, edges := BuildEdges(g, nodes);
    var ready := InitialReady(g, indegree, initial);
    out := [];
    assert Elems(out) == {} && g.tasks - {} == g.tasks;
    while |ready| > 0
      invariant Progress(g, indegree, edges, ready, out)
      decreases g.tasks - Elems(out)
    {
      ghost var before := out;
      indegree, edges, ready, out := PickNext(g, indegree, edges, ready, out);
      ElemsSnoc(out, |before|);
      AllElems(out);
    }
    NothingReady(g, indegree, Elems(out), ready);
  }

  method InitialReady<T(==, !new)>(g: Graph<T>, indegree: map<T, nat>, initial: seq<T>) returns (ready: seq<T>)
    requires IsPermutation(initial, g.tasks) && indegree.Keys == g.tasks
    ensures ReadyFor(g, ready, indegree, {})
  {
    ready := [];
    for n := 0 to |initial|
      invariant forall t :: multiset(ready)[t] == if t in initial[..n] && t in g.tasks && indegree[t] == 0 then 1 else 0
    {
      NotBefore(initial, g.tasks, n);
      assert initial[..n + 1] == initial[..n] + [initial[n]];
      if indegree[initial[n]] == 0 {
        ready := ready + [initial[n]];
      }
    }
    assert initial[..|initial|] == initial;
    forall t | t in g.tasks ensures t in initial { assert multiset(initial)[t] == 1; }
  }

  lemma PickIsLeast<T(!new)>(g: Graph<T>, ready: seq<T>, indegree: map<T, nat>, done: set<T>)
    requires |ready| > 0 && IndegreesFor(g, indegree, done) && ReadyFor(g, ready, indegree, done)
    requires SortedByRank(g, ready)
    ensures IsLeast(g, done, ready[0])
    ensures ReadyFor(g, ready[1..], indegree, done + {ready[0]})
  {
    var pick := ready[0];
    assert ready == [pick] + ready[1..];
    assert multiset(ready)[pick] >= 1;
    UnmetZero(g.prerequisites(pick), g.tasks, done);
    forall u | Available(g, done, u)
      ensures Rank(g, pick) <= Rank(g, u)
    {
      UnmetZero(g.prerequisites(u), g.tasks, done);
      assert multiset(ready)[u] == 1;
      assert u in ready;
    }
  }

  lemma SnocLeast<T(!new)>(g: Graph<T>, out: seq<T>, pick: T)
    requires forall i :: 0 <= i < |out| ==> IsLeast(g, Elems(out[..i]), out[i])
    requires IsLeast(g, Elems(out), pick)
    ensures Elems(out + [pick]) == Elems(out) + {pick}
    ensures forall i :: 0 <= i < |out + [pick]| ==> IsLeast(g, Elems((out + [pick])[..i]), (out + [pick])[i])
  {
    forall i | 0 <= i < |out + [pick]|
      ensures IsLeast(g, Elems((out + [pick])[..i]), (out + [pick])[i])
    {
      if i < |out| { assert (out + [pick])[..i] == out[..i]; } else { assert (out + [pick])[..i] == out; }
    }
  }

  lemma NothingReady<T(!new)>(g: Graph<T>, indegree: map<T, nat>, done: set<T>, ready: seq<T>)
    requires IndegreesFor(g, indegree, done) && ReadyFor(g, ready, indegree, done) && |ready| == 0
    ensures forall u :: !Available(g, done, u)
  {
    forall u
      ensures !Available(g, done, u)
    {
      UnmetZero(g.prerequisites(u), g.tasks, done);
    }
  }

  lemma EdgesWithout<T(!new)>(g: Graph<T>, edges: map<T, seq<T>>, keys: set<T>, pick: T)
    requires EdgesFor(g, edges, keys)
    ensures EdgesFor(g, edges - {pick}, keys - {pick})
  {
    assert (edges - {pick}).Keys == keys - {pick};
  }

  /** The indegrees while the successors from `k` on are still to be released. */
  ghost predicate Releasing<T(!new)>(g: Graph<T>, indegree: map<T, nat>, pending: seq<T>, done: set<T>) {
    indegree.Keys == g.tasks &&
    forall t :: t in g.tasks ==> indegree[t] == Unmet(g.prerequisites(t), g.tasks, done) + multiset(pending)[t]
  }

  lemma ReleaseOne<T(!new)>(g: Graph<T>, indegree: map<T, nat>, ready: seq<T>, s: T, pending: seq<T>, done: set<T>)
    requires Releasing(g, indegree, [s] + pending, done) && s in g.tasks && ReadyFor(g, ready, indegree, done)
    ensures indegree[s] > 0
    ensures Releasing(g, indegree[s := indegree[s] - 1], pending, done)
    ensures s !in done ==>
            ReadyFor(g, if indegree[s] == 1 then ready + [s] else ready, indegree[s := indegree[s] - 1], done)
  {
    assert multiset([s] + pending) == multiset{s} + multiset(pending);
  }

  ghost predicate Closed<T(!new)>(g: Graph<T>, done: set<T>) {
    forall t, r :: t in done && r in g.prerequisites(t) && r in g.tasks ==> r in done
  }

  lemma SuccessorsWait<T(!new)>(g: Graph<T>, indegree: map<T, nat>, succs: seq<T>, pick: T, done: set<T>)
    requires IndegreesFor(g, indegree, done) && IsLeast(g, done, pick) && SuccessorsOf(g, succs, pick) &&
             Closed(g, done)
    ensures Releasing(g, indegree, succs, done + {pick})
    ensures forall s :: s in succs ==> s in g.tasks && s !in done + {pick}
  {
    forall t | t in g.tasks
      ensures indegree[t] == Unmet(g.prerequisites(t), g.tasks, done + {pick}) + multiset(succs)[t]
    {
      UnmetAfter(g.prerequisites(t), g.tasks, done, pick);
    }
    forall s | s in succs
      ensures s in g.tasks && s !in done + {pick}
    {
      assert multiset(succs)[s] > 0;
      assert pick in multiset(g.prerequisites(s));
    }
  }

  lemma HeadAndRest<T>(s: seq<T>, k: nat)
    requires k < |s|
    ensures s[k..] == [s[k]] + s[k + 1..]
  {
  }

  /** The successors of `pick` each lose one prerequisite per edge. */
  method Release<T(==, !new)>(g: Graph<T>, indegree0: map<T, nat>, ready0: seq<T>, succs: seq<T>, pick: T,
                              ghost done: set<T>)
    returns (indegree: map<T, nat>, ready: seq<T>)
    requires IndegreesFor(g, indegree0, done) && IsLeast(g, done, pick) && Closed(g, done)
    requires ReadyFor(g, ready0, indegree0, done + {pick})
    requires SuccessorsOf(g, succs, pick)
    ensures IndegreesFor(g, indegree, done + {pick})
    ensures ReadyFor(g, ready, indegree, done + {pick})
  {
    indegree, ready := indegree0, ready0;
    SuccessorsWait(g, indegree, succs, pick, done);
    assert succs[0..] == succs;
    for k := 0 to |succs|
      invariant Releasing(g, indegree, succs[k..], done + {pick})
      invariant ReadyFor(g, ready, indegree, done + {pick})
    {
      var s := succs[k];
      HeadAndRest(succs, k);
      ReleaseOne(g, indegree, ready, s, succs[k + 1..], done + {pick});
      indegree := indegree[s := indegree[s] - 1];
      if indegree[s] == 0 {
        ready := ready + [s];
      }
    }
    assert succs[|succs|..] == [];
  }
}
