/** The order the queue gives, pinned down without the queue: roots as the caller has them, then every node by the
    place of its last source and, among nodes with the same last source, by its last edge from there. */
module GraphFifo {
  import opened GraphOrder
  import opened GraphTheorems

  ghost predicate IsLast<T>(s: seq<T>, i: nat, x: T) {
    i < |s| && s[i] == x && forall k :: i < k < |s| ==> s[k] != x
  }

  /** The last source of `x` stands at `i` in `q`, and its last edge to `x` is number `e`. */
  ghost predicate Releases(keys: seq<string>, edges: seq<Edge>, q: seq<string>, i: nat, e: nat, x: string) {
    && i < |q| && Arc(keys, edges, q[i], x)
    && (forall j :: i < j < |q| ==> !Arc(keys, edges, q[j], x))
    && IsLast(edges, e, (q[i], x))
  }

  ghost predicate ReleasedBefore(keys: seq<string>, edges: seq<Edge>, q: seq<string>, a: nat)
    requires a < |q|
  {
    exists i: nat, e: nat :: i < a && Releases(keys, edges, q, i, e, q[a])
  }

  /** Nodes stand by the place of their last source, then by the edge from there. */
  ghost predicate ByRelease(keys: seq<string>, edges: seq<Edge>, q: seq<string>) {
    forall a: nat, b: nat, i: nat, j: nat, e: nat, f: nat ::
      a < b < |q| && Releases(keys, edges, q, i, e, q[a]) && Releases(keys, edges, q, j, f, q[b]) ==>
        i < j || (i == j && e < f)
  }

  /** All the keys: the roots in the caller's order, then the others, each after its last source, by release. */
  ghost predicate QueueOrder(keys: seq<string>, edges: seq<Edge>, q: seq<string>) {
    && multiset(q) == multiset(keys)
    && Roots(keys, edges) <= q
    && (forall a :: |Roots(keys, edges)| <= a < |q| ==> ReleasedBefore(keys, edges, q, a))
    && ByRelease(keys, edges, q)
  }

  // ---------------------------------------------------------------------
  // The order in which one node's targets are released
  // ---------------------------------------------------------------------

  /** What is freed ends at zero. */
  ghost predicate EndAtZero(m: map<string, int>, freed: seq<string>) {
    forall x :: x in freed ==> x in m && m[x] == 0
  }

  /** One decrement: the target is freed if that takes it to zero, and stays there only if it does not occur again. */
  lemma RelaxStep(targets: seq<string>, j: nat, indegree: map<string, int>)
    requires j <= |targets|
    requires forall t :: t in targets ==> t in indegree
    requires Relax(targets, j, indegree).1 != []
    requires EndAtZero(Relax(targets, j, indegree).0, Relax(targets, j, indegree).1)
    ensures j < |targets|
    ensures
      var t := targets[j];
      var next := indegree[t := indegree[t] - 1];
      var (m, freed) := Relax(targets, j, indegree);
      && m == Relax(targets, j + 1, next).0
      && freed == (if next[t] == 0 then [t] else []) + Relax(targets, j + 1, next).1
      && EndAtZero(m, Relax(targets, j + 1, next).1)
      && (next[t] == 0 ==> forall k :: j + 1 <= k < |targets| ==> targets[k] != t)
  {
    var t := targets[j];
    var next := indegree[t := indegree[t] - 1];
    RelaxCounts(targets, j + 1, next);
    CountZero(targets, j + 1, t);
    hide Positive, Count;
    var rest := Relax(targets, j + 1, next).1;
    assert [] + rest == rest;
    assert forall x :: x in rest ==> x in Relax(targets, j, indegree).1;
    if next[t] == 0 { assert ([t] + rest)[0] == t && t in [t] + rest; }
  }

  lemma LastIsBehind(targets: seq<string>, j: nat, indegree: map<string, int>, t: string, i: nat, x: string, k: nat)
    requires j <= |targets|
    requires forall t :: t in targets ==> t in indegree
    requires IsLast(targets, i, t) && forall k :: j <= k < |targets| ==> targets[k] != t
    requires x in Relax(targets, j, indegree).1 && IsLast(targets, k, x)
    ensures i < k
  {
    RelaxCounts(targets, j, indegree);
    CountZero(targets, j, x);
  }

  lemma {:induction false} CountZero(s: seq<string>, j: nat, x: string)
    requires j <= |s|
    ensures Count(s, j, x) == 0 <==> forall k :: j <= k < |s| ==> s[k] != x
    decreases |s| - j
  {
    if j < |s| { CountZero(s, j + 1, x); }
  }

  /** The freed nodes whose degree ends at zero come in the order of their last occurrences. */
  lemma {:induction false} FreedByLast(targets: seq<string>, j: nat, indegree: map<string, int>,
                                       a: nat, b: nat, i: nat, k: nat)
    requires j <= |targets|
    requires forall t :: t in targets ==> t in indegree
    requires a < b < |Relax(targets, j, indegree).1|
    requires EndAtZero(Relax(targets, j, indegree).0, Relax(targets, j, indegree).1)
    requires IsLast(targets, i, Relax(targets, j, indegree).1[a]) && IsLast(targets, k, Relax(targets, j, indegree).1[b])
    ensures i < k
    decreases |targets| - j
  {
    hide *;
    RelaxStep(targets, j, indegree);
    var t := targets[j];
    var next := indegree[t := indegree[t] - 1];
    var rest, freed := Relax(targets, j + 1, next).1, Relax(targets, j, indegree).1;
    var skip := if next[t] == 0 then 1 else 0;
    if a < skip {
      assert freed[b] == rest[b - 1];
      LastIsBehind(targets, j + 1, next, t, i, rest[b - 1], k);
    } else {
      FreedByLast(targets, j + 1, next, a - skip, b - skip, i, k);
    }
  }

  /** Which edges the targets of `from` come from. */
  ghost predicate ComeFrom(edges: seq<Edge>, n: nat, known: set<string>, from: string, at: seq<nat>)
    requires n <= |edges|
  {
    var targets := Targets(edges, n, known, from);
    && |at| == |targets|
    && (forall k :: 0 <= k < |at| ==> at[k] < n && edges[at[k]] == (from, targets[k]))
    && (forall k, l :: 0 <= k < l < |at| ==> at[k] < at[l])
    && (forall e :: 0 <= e < n && Usable(edges[e], known) && edges[e].0 == from ==> e in at)
  }

  lemma {:induction false} TargetEdges(edges: seq<Edge>, n: nat, known: set<string>, from: string) returns (at: seq<nat>)
    requires n <= |edges|
    ensures ComeFrom(edges, n, known, from, at)
  {
    at := [];
    if n != 0 {
      var before := TargetEdges(edges, n - 1, known, from);
      at := before;
      if Usable(edges[n - 1], known) && edges[n - 1].0 == from {
        at := before + [n - 1];
        assert at[|before|] == n - 1;
      }
    }
  }

  lemma LastTarget(keys: seq<string>, edges: seq<Edge>, from: string, at: seq<nat>, e: nat, x: string) returns (k: nat)
    requires ComeFrom(edges, |edges|, Known(keys), from, at)
    requires Arc(keys, edges, from, x) && IsLast(edges, e, (from, x))
    ensures k < |at| && at[k] == e && IsLast(Targets(edges, |edges|, Known(keys), from), k, x)
  {
    hide Targets;
    assert e in at;
    k :| 0 <= k < |at| && at[k] == e;
  }

  /** What relaxing the front frees comes in the order of the last edges from it. */
  lemma FreedByEdge(keys: seq<string>, edges: seq<Edge>, q: seq<string>, done: nat, indegree: map<string, int>,
                    a: nat, b: nat, e: nat, f: nat)
    requires Tame(keys, edges) && Frontier(keys, edges, q, done, indegree) && done < |q|
    requires forall t :: t in Targets(edges, |edges|, Known(keys), q[done]) ==> t in indegree
    requires
      var freed := Relax(Targets(edges, |edges|, Known(keys), q[done]), 0, indegree).1;
      a < b < |freed| && IsLast(edges, e, (q[done], freed[a])) && IsLast(edges, f, (q[done], freed[b]))
    ensures e < f
  {
    var targets := Targets(edges, |edges|, Known(keys), q[done]);
    var freed := Relax(targets, 0, indegree).1;
    FreedNodes(keys, edges, q, done, indegree);
    FreedSources(keys, edges, q, done, indegree, freed[a]);
    FreedSources(keys, edges, q, done, indegree, freed[b]);
    var at := TargetEdges(edges, |edges|, Known(keys), q[done]);
    var i := LastTarget(keys, edges, q[done], at, e, freed[a]);
    var k := LastTarget(keys, edges, q[done], at, f, freed[b]);
    hide Tame, Frontier, Relax, Targets, Pending, Arc;
    FreedByLast(targets, 0, indegree, a, b, i, k);
  }

  // ---------------------------------------------------------------------
  // The queue keeps that order
  // ---------------------------------------------------------------------

  /** So far: sources of what is queued are done, and the queue is in order of release. */
  ghost predicate InOrder(keys: seq<string>, edges: seq<Edge>, q: seq<string>, done: nat) {
    && (forall a, j :: 0 <= a < |q| && 0 <= j < |q| && Arc(keys, edges, q[j], q[a]) ==> j < done)
    && ByRelease(keys, edges, q)
  }

  /** The sources of a freed node are done, and its last one is the node just taken. */
  lemma FreedRelease(keys: seq<string>, edges: seq<Edge>, q: seq<string>, done: nat, x: string, j: nat)
    requires Tame(keys, edges) && multiset(q) <= multiset(keys) && done < |q| && j < |q|
    requires forall u :: Arc(keys, edges, u, x) ==> u in q[..done + 1]
    requires Arc(keys, edges, q[j], x)
    ensures j <= done
  {
    var c :| 0 <= c < done + 1 && q[c] == q[j];
    BusyIsOnce(keys, edges, q, c, j);
  }

  /** Growing the queue does not change what released a node already in it. */
  lemma ReleaseInPrefix(keys: seq<string>, edges: seq<Edge>, q: seq<string>, longer: seq<string>, i: nat, e: nat, x: string)
    requires q <= longer && i < |q| && Releases(keys, edges, longer, i, e, x)
    ensures Releases(keys, edges, q, i, e, x)
  {
    hide Arc, IsLast;
    assert forall j :: 0 <= j < |q| ==> q[j] == longer[j];
  }

  lemma StepInOrder(keys: seq<string>, edges: seq<Edge>, q: seq<string>, done: nat, freed: seq<string>, lev: seq<nat>)
    requires Tame(keys, edges) && multiset(q + freed) <= multiset(keys) && done < |q|
    requires InOrder(keys, edges, q, done) && Layered(keys, edges, q + freed, done + 1, lev)
    requires forall x :: x in freed ==> Arc(keys, edges, q[done], x)
    requires forall x, u :: x in freed && Arc(keys, edges, u, x) ==> u in q[..done + 1]
    requires forall a, b, e: nat, f: nat ::
      0 <= a < b < |freed| && IsLast(edges, e, (q[done], freed[a])) && IsLast(edges, f, (q[done], freed[b])) ==> e < f
    ensures InOrder(keys, edges, q + freed, done + 1)
  {
    hide Arc, IsLast, Tame;
    var q' := q + freed;
    forall a, j | 0 <= a < |q'| && 0 <= j < |q'| && Arc(keys, edges, q'[j], q'[a])
      ensures j < done + 1
      ensures a < |q| ==> j < done
    {
      if a >= |q| {
        assert q'[a] in freed && q'[..done + 1] == q[..done + 1];
        FreedRelease(keys, edges, q', done, q'[a], j);
      }
    }
    forall a: nat, b: nat, i: nat, j: nat, e: nat, f: nat |
      a < b < |q'| && Releases(keys, edges, q', i, e, q'[a]) && Releases(keys, edges, q', j, f, q'[b])
      ensures i < j || (i == j && e < f)
    {
      if b < |q| {
        ReleaseInPrefix(keys, edges, q, q', i, e, q[a]);
        ReleaseInPrefix(keys, edges, q, q', j, f, q[b]);
      } else {
        assert q'[b] in freed && Arc(keys, edges, q'[done], q'[b]);
        if a >= |q| { assert q'[a] in freed && Arc(keys, edges, q'[done], q'[a]); }
      }
    }
  }

  /** One turn of the loop keeps the order. */
  lemma QueueStepInOrder(keys: seq<string>, edges: seq<Edge>, q: seq<string>, done: nat, indegree: map<string, int>,
                         lev: seq<nat>)
    requires Tame(keys, edges) && Frontier(keys, edges, q, done, indegree) && done < |q|
    requires Layered(keys, edges, q, done, lev) && InOrder(keys, edges, q, done)
    ensures forall t :: t in Targets(edges, |edges|, Known(keys), q[done]) ==> t in indegree
    ensures InOrder(keys, edges, q + Relax(Targets(edges, |edges|, Known(keys), q[done]), 0, indegree).1, done + 1)
  {
    QueueStep(keys, edges, q, done, indegree, lev);
    var (m, freed) := Relax(Targets(edges, |edges|, Known(keys), q[done]), 0, indegree);
    forall x | x in freed
      ensures Arc(keys, edges, q[done], x)
      ensures forall u :: Arc(keys, edges, u, x) ==> u in q[..done + 1]
    {
      FreedSources(keys, edges, q, done, indegree, x);
    }
    forall a, b, e: nat, f: nat |
      0 <= a < b < |freed| && IsLast(edges, e, (q[done], freed[a])) && IsLast(edges, f, (q[done], freed[b]))
      ensures e < f
    {
      FreedByEdge(keys, edges, q, done, indegree, a, b, e, f);
    }
    hide Tame, Layered, Relax, Targets, Arc, IsLast, InOrder;
    StepInOrder(keys, edges, q, done, freed, lev + seq(|freed|, _ => lev[done] + 1));
  }

  lemma {:induction false} DrainInOrder(keys: seq<string>, edges: seq<Edge>, indegree: map<string, int>,
                                        ready: seq<string>, ordered: seq<string>, lev: seq<nat>)
    requires Tame(keys, edges) && ClosedOut(OutOf(keys, edges), indegree)
    requires Frontier(keys, edges, ordered + ready, |ordered|, indegree)
    requires Layered(keys, edges, ordered + ready, |ordered|, lev)
    requires InOrder(keys, edges, ordered + ready, |ordered|)
    ensures ByRelease(keys, edges, Drain(OutOf(keys, edges), indegree, ready, ordered))
    decreases |Positive(indegree)| + |ready|
  {
    var out, q, done := OutOf(keys, edges), ordered + ready, |ordered|;
    if ready == [] {
      assert q == ordered;
    } else {
      QueueStep(keys, edges, q, done, indegree, lev);
      QueueStepInOrder(keys, edges, q, done, indegree, lev);
      var key := ready[0];
      assert q[done] == key && key in q;
      var (m, freed) := Relax(Adjacent(out, key), 0, indegree);
      var ordered', ready' := ordered + [key], ready[1..] + freed;
      Requeue(ordered, ready, freed);
      hide InOrder, Layered, Tame, ByRelease;
      DrainInOrder(keys, edges, m, ready', ordered', lev + seq(|freed|, _ => lev[done] + 1));
    }
  }

  lemma DrainedInOrder(keys: seq<string>, edges: seq<Edge>)
    requires Tame(keys, edges)
    ensures ByRelease(keys, edges, Drained(keys, edges))
  {
    OutOfClosed(keys, edges);
    var d := Degrees(keys, edges);
    var seeds := Seeds(keys, |keys|, d);
    SeededQueue(keys, edges);
    assert [] + seeds == seeds;
    forall a, j | 0 <= a < |seeds| && 0 <= j < |seeds|
      ensures !Arc(keys, edges, seeds[j], seeds[a])
    {
      assert seeds[a] in seeds;
      SeedsAre(keys, |keys|, d);
      SeedsHaveNoSource(keys, edges, seeds[a]);
    }
    assert InOrder(keys, edges, seeds, 0) by {
      forall a: nat, i: nat, e: nat | a < |seeds|
        ensures !Releases(keys, edges, seeds, i, e, seeds[a])
      {
      }
    }
    DrainInOrder(keys, edges, d, seeds, [], seq(|seeds|, _ => 0));
  }

  // ---------------------------------------------------------------------
  // Main theorems
  // ---------------------------------------------------------------------

  lemma LastOf<T>(s: seq<T>, x: T) returns (i: nat)
    requires x in s
    ensures IsLast(s, i, x)
  {
    i := |s| - 1;
    while s[i] != x
      invariant 0 <= i < |s| && forall k :: i < k < |s| ==> s[k] != x
      decreases i
    {
      assert exists k :: 0 <= k < i && s[k] == x;
      i := i - 1;
    }
  }

  /** A node with a source in `q` has a last one, and a last edge from it. */
  lemma ReleaseOf(keys: seq<string>, edges: seq<Edge>, q: seq<string>, j: nat, x: string) returns (i: nat, e: nat)
    requires j < |q| && Arc(keys, edges, q[j], x)
    ensures Releases(keys, edges, q, i, e, x)
  {
    i := |q| - 1;
    while !Arc(keys, edges, q[i], x)
      invariant j <= i < |q| && forall k :: i < k < |q| ==> !Arc(keys, edges, q[k], x)
      decreases i
    {
      i := i - 1;
    }
    e := LastOf(edges, (q[i], x));
  }

  /** On an acyclic graph the order is such an order. */
  lemma OrderIsQueueOrder(keys: seq<string>, edges: seq<Edge>)
    requires Tame(keys, edges) && Acyclic(keys, edges)
    ensures QueueOrder(keys, edges, OrderOf(keys, edges))
  {
    var r := OrderOf(keys, edges);
    StuckIffCyclic(keys, edges);
    DrainedInOrder(keys, edges);
    OrderIsPermutation(keys, edges);
    OrderIsTopological(keys, edges);
    RootsComeFirst(keys, edges);
    hide Tame, Acyclic, OrderOf, Roots, ByRelease;
    forall a | |Roots(keys, edges)| <= a < |r|
      ensures ReleasedBefore(keys, edges, r, a)
    {
      assert r[a] in multiset(r);
      NoSourceIsDepthZero(keys, edges, r[a]);
      var u :| Arc(keys, edges, u, r[a]);
      var j :| 0 <= j < a && r[j] == u;
      var i, e := ReleaseOf(keys, edges, r, j, r[a]);
    }
  }

  lemma NoSourceIsDepthZero(keys: seq<string>, edges: seq<Edge>, k: string)
    requires k in keys && !HasDepth(keys, edges, k, 0)
    ensures exists u :: Arc(keys, edges, u, k)
  {
    assert PathTo(keys, edges, [k], k);
    var p :| PathTo(keys, edges, p, k) && |p| > 1;
    assert Arc(keys, edges, p[|p| - 2], p[|p| - 2 + 1]);
  }

  /** A node released before its place in one order stands no earlier in another that starts the same way. */
  lemma StandsLater(keys: seq<string>, edges: seq<Edge>, r: seq<string>, s: seq<string>, n: nat) returns (b: nat)
    requires Tame(keys, edges) && QueueOrder(keys, edges, r) && QueueOrder(keys, edges, s)
    requires n < |r| && n < |s| && r[..n] == s[..n] && r[n] != s[n] && ReleasedBefore(keys, edges, r, n)
    ensures n < b < |s| && s[b] == r[n]
  {
    assert r[n] in multiset(r) && r[n] in multiset(s);
    assert forall k :: 0 <= k < n ==> r[..n][k] == s[..n][k];
    b :| 0 <= b < |s| && s[b] == r[n];
    if b < n { BusyIsOnce(keys, edges, r, b, n); }
  }

  /** What releases a node is the same in both orders, if both agree up to a place after it. */
  lemma SameRelease(keys: seq<string>, edges: seq<Edge>, r: seq<string>, s: seq<string>, n: nat, b: nat, i: nat, e: nat)
    requires Tame(keys, edges) && QueueOrder(keys, edges, s) && multiset(r) == multiset(keys)
    requires n < |r| && n < |s| && r[..n] == s[..n] && i < n
    requires Releases(keys, edges, r, i, e, r[n]) && b < |s| && s[b] == r[n]
    ensures Releases(keys, edges, s, i, e, s[b])
  {
    assert s[i] == r[..n][i];
    forall j | i < j < |s|
      ensures !Arc(keys, edges, s[j], s[b])
    {
      assert s[j] in multiset(s) && s[j] in multiset(r);
      var c :| 0 <= c < |r| && r[c] == s[j];
      if Arc(keys, edges, r[c], r[n]) {
        assert s[c] == r[..n][c];
        BusyIsOnce(keys, edges, s, c, j);
      }
    }
  }

  lemma {:induction false} SameUpTo(keys: seq<string>, edges: seq<Edge>, r: seq<string>, s: seq<string>, n: nat)
    requires Tame(keys, edges) && QueueOrder(keys, edges, r) && QueueOrder(keys, edges, s)
    requires n <= |r| && n <= |s|
    ensures r[..n] == s[..n]
  {
    if n > 0 {
      SameUpTo(keys, edges, r, s, n - 1);
      if n - 1 < |Roots(keys, edges)| {
        assert r[n - 1] == Roots(keys, edges)[n - 1];
      } else {
        SameNext(keys, edges, r, s, n - 1);
      }
    }
  }

  /** Two such orders cannot part: each would have the other's next node released before its own. */
  lemma SameNext(keys: seq<string>, edges: seq<Edge>, r: seq<string>, s: seq<string>, n: nat)
    requires Tame(keys, edges) && QueueOrder(keys, edges, r) && QueueOrder(keys, edges, s)
    requires |Roots(keys, edges)| <= n < |r| && n < |s| && r[..n] == s[..n]
    ensures r[n] == s[n]
  {
    assert ReleasedBefore(keys, edges, r, n) && ReleasedBefore(keys, edges, s, n);
    var i: nat, e: nat :| i < n && Releases(keys, edges, r, i, e, r[n]);
    var j: nat, f: nat :| j < n && Releases(keys, edges, s, j, f, s[n]);
    if r[n] != s[n] {
      var b := StandsLater(keys, edges, r, s, n);
      var c := StandsLater(keys, edges, s, r, n);
      SameRelease(keys, edges, r, s, n, b, i, e);
      SameRelease(keys, edges, s, r, n, c, j, f);
      hide Tame, Releases, Roots;
      ReleasedInOrder(keys, edges, s, n, b, j, i, f, e);
      ReleasedInOrder(keys, edges, r, n, c, i, j, e, f);
    }
  }

  lemma ReleasedInOrder(keys: seq<string>, edges: seq<Edge>, q: seq<string>, a: nat, b: nat, i: nat, j: nat, e: nat, f: nat)
    requires ByRelease(keys, edges, q) && a < b < |q|
    requires Releases(keys, edges, q, i, e, q[a]) && Releases(keys, edges, q, j, f, q[b])
    ensures i < j || (i == j && e < f)
  {
  }

  /** And it is the only one: on an acyclic graph these rules leave no choice. */
  lemma OrderIsDetermined(keys: seq<string>, edges: seq<Edge>, r: seq<string>)
    requires Tame(keys, edges) && Acyclic(keys, edges)
    ensures QueueOrder(keys, edges, r) <==> r == OrderOf(keys, edges)
  {
    OrderIsQueueOrder(keys, edges);
    if QueueOrder(keys, edges, r) {
      var s := OrderOf(keys, edges);
      assert |multiset(r)| == |r| && |multiset(s)| == |s|;
      SameUpTo(keys, edges, r, s, |r|);
      assert r[..|r|] == r && s[..|r|] == s;
    }
  }
}
