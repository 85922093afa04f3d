/** What the FIFO queue order means: a permutation, topological, layered by depth, and stuck exactly on a cycle.
    Node keys are distinct, as the schema's unique index on (workflowId, nodeKey) has it, or at least no repeated one
    has an edge to another node. */
module GraphTheorems {
  import opened GraphOrder

  // ---------------------------------------------------------------------
  // Counting
  // ---------------------------------------------------------------------

  /** Occurrences of `x` in `s` from position `j` on. */
  ghost function Count(s: seq<string>, j: nat, x: string): nat
    requires j <= |s|
    decreases |s| - j
  {
    if j == |s| then 0 else (if s[j] == x then 1 else 0) + Count(s, j + 1, x)
  }

  lemma {:induction false} CountAppend(s: seq<string>, j: nat, y: string, x: string)
    requires j <= |s|
    ensures Count(s + [y], j, x) == Count(s, j, x) + if x == y then 1 else 0
    decreases |s| - j
  {
    if j < |s| { CountAppend(s, j + 1, y, x); }
  }

  /** Every node loses one degree per occurrence, and is freed once, when it passes through zero. */
  lemma {:induction false} RelaxCounts(targets: seq<string>, j: nat, indegree: map<string, int>)
    requires j <= |targets|
    requires forall t :: t in targets ==> t in indegree
    ensures forall k :: k in indegree ==> Relax(targets, j, indegree).0[k] == indegree[k] - Count(targets, j, k)
    ensures forall k :: k in Relax(targets, j, indegree).1 <==>
                        k in indegree && 0 < indegree[k] <= Count(targets, j, k)
    ensures Distinct(Relax(targets, j, indegree).1)
    decreases |targets| - j
  {
    hide Positive;
    if j < |targets| {
      RelaxCounts(targets, j + 1, indegree[targets[j] := indegree[targets[j]] - 1]);
    }
  }

  /** Taking `key` out of the waiting sources removes exactly its own edges from the count. */
  lemma {:induction false} PendingWithout(edges: seq<Edge>, n: nat, known: set<string>,
                                          done: set<string>, key: string, k: string)
    requires n <= |edges|
    requires key !in done
    ensures Pending(edges, n, known, done + {key}, k) ==
            Pending(edges, n, known, done, k) - Count(Targets(edges, n, known, key), 0, k)
  {
    if n != 0 {
      PendingWithout(edges, n - 1, known, done, key, k);
      CountAppend(Targets(edges, n - 1, known, key), 0, edges[n - 1].1, k);
    }
  }

  lemma {:induction false} PendingZero(edges: seq<Edge>, n: nat, known: set<string>, done: set<string>, k: string)
    requires n <= |edges|
    ensures Pending(edges, n, known, done, k) == 0 <==>
            forall i :: 0 <= i < n && Usable(edges[i], known) && edges[i].1 == k ==> edges[i].0 in done
  {
    if n != 0 { PendingZero(edges, n - 1, known, done, k); }
  }

  /** No edge is pending exactly when every arc into `k` has its source done. */
  lemma NothingPending(keys: seq<string>, edges: seq<Edge>, done: set<string>, k: string)
    requires k in keys
    ensures Pending(edges, |edges|, Known(keys), done, k) == 0 <==>
            forall u :: Arc(keys, edges, u, k) ==> u in done
  {
    PendingZero(edges, |edges|, Known(keys), done, k);
  }

  // ---------------------------------------------------------------------
  // Repeated keys
  // ---------------------------------------------------------------------

  ghost predicate Idle(keys: seq<string>, edges: seq<Edge>, k: string) {
    forall u :: !Arc(keys, edges, u, k) && !Arc(keys, edges, k, u)
  }

  /** No repeated key has an arc. */
  ghost predicate Tame(keys: seq<string>, edges: seq<Edge>) {
    forall k :: multiset(keys)[k] > 1 ==> Idle(keys, edges, k)
  }

  lemma DistinctIsTame(keys: seq<string>, edges: seq<Edge>)
    requires Distinct(keys)
    ensures Tame(keys, edges)
  {
    KnownSize(keys);
  }

  lemma TwiceInSeq(q: seq<string>, i: nat, j: nat)
    requires i < j < |q| && q[i] == q[j]
    ensures multiset(q)[q[i]] > 1
  {
    assert q == q[..j] + [q[j]] + q[j + 1..];
    assert q[..j][i] == q[i];
  }

  /** A node with an arc stands at one place only. */
  lemma BusyIsOnce(keys: seq<string>, edges: seq<Edge>, q: seq<string>, i: nat, j: nat)
    requires Tame(keys, edges) && multiset(q) <= multiset(keys)
    requires i < |q| && j < |q| && q[i] == q[j] && !Idle(keys, edges, q[i])
    ensures i == j
  {
    if i < j { TwiceInSeq(q, i, j); }
    if j < i { TwiceInSeq(q, j, i); }
  }

  lemma {:induction false} TargetsAreArcs(keys: seq<string>, edges: seq<Edge>, n: nat, from: string)
    requires n <= |edges|
    ensures forall t :: t in Targets(edges, n, Known(keys), from) ==> Arc(keys, edges, from, t)
  {
    if n != 0 { TargetsAreArcs(keys, edges, n - 1, from); }
  }

  // ---------------------------------------------------------------------
  // The invariant of the queue
  // ---------------------------------------------------------------------

  ghost function Elements(q: seq<string>): set<string> {
    set k | k in q
  }

  /** `q` is `ordered + ready`, its first `done` elements being `ordered`. */
  ghost predicate Frontier(keys: seq<string>, edges: seq<Edge>, q: seq<string>, done: nat, indegree: map<string, int>) {
    && done <= |q|
    && multiset(q) <= multiset(keys)
    && (forall k :: k in q ==> k in keys)
    && indegree.Keys == Known(keys)
    && (forall k :: k in keys ==> indegree[k] == Pending(edges, |edges|, Known(keys), Elements(q[..done]), k))
    && (forall k :: k in keys ==> (k in q <==> indegree[k] == 0))
  }

  /** Levels along `q` rise by longest path, and the queue never holds more than two of them. */
  ghost predicate Layered(keys: seq<string>, edges: seq<Edge>, q: seq<string>, done: nat, lev: seq<nat>) {
    && |lev| == |q|
    && (forall i, j :: 0 <= i <= j < |q| ==> lev[i] <= lev[j])
    && (done < |q| ==> lev[|q| - 1] <= lev[done] + 1)
    && (forall i, j :: 0 <= i < |q| && 0 <= j < |q| && Arc(keys, edges, q[j], q[i]) ==> j < i && lev[j] < lev[i])
    && (forall i {:trigger HasParent(keys, edges, q, lev, i)} ::
          0 <= i < |q| && lev[i] > 0 ==> HasParent(keys, edges, q, lev, i))
    && SourcesFirst(keys, edges, q)
  }

  ghost predicate HasParent(keys: seq<string>, edges: seq<Edge>, q: seq<string>, lev: seq<nat>, i: nat)
    requires i < |q| == |lev|
  {
    exists j :: 0 <= j < i && Arc(keys, edges, q[j], q[i]) && lev[j] + 1 == lev[i]
  }

  /** What relaxing the front of the queue frees: the nodes whose last open source it was. */
  lemma FreedNodes(keys: seq<string>, edges: seq<Edge>, q: seq<string>, done: nat, indegree: map<string, int>)
    requires Tame(keys, edges) && Frontier(keys, edges, q, done, indegree) && done < |q|
    ensures forall t :: t in Targets(edges, |edges|, Known(keys), q[done]) ==> t in indegree
    ensures
      var (m, freed) := Relax(Targets(edges, |edges|, Known(keys), q[done]), 0, indegree);
      && Distinct(freed)
      && (forall k :: k in m ==> m[k] == Pending(edges, |edges|, Known(keys), Elements(q[..done + 1]), k))
      && (forall k :: k in freed <==> k in keys && indegree[k] > 0 && m[k] == 0)
  {
    var targets := Targets(edges, |edges|, Known(keys), q[done]);
    TargetsKnown(edges, |edges|, Known(keys), q[done]);
    RelaxCounts(targets, 0, indegree);
    assert Elements(q[..done + 1]) == Elements(q[..done]) + {q[done]};
    forall k | k in indegree
      ensures Pending(edges, |edges|, Known(keys), Elements(q[..done + 1]), k) ==
              indegree[k] - Count(targets, 0, k)
    {
      TakenFromPending(keys, edges, q, done, k);
    }
    hide Tame, Pending, Targets, Relax, Count;
  }

  /** Taking the front of the queue out of the waiting sources; a repeat has nothing to take out. */
  lemma TakenFromPending(keys: seq<string>, edges: seq<Edge>, q: seq<string>, done: nat, k: string)
    requires Tame(keys, edges) && multiset(q) <= multiset(keys) && done < |q|
    ensures Pending(edges, |edges|, Known(keys), Elements(q[..done + 1]), k) ==
            Pending(edges, |edges|, Known(keys), Elements(q[..done]), k)
            - Count(Targets(edges, |edges|, Known(keys), q[done]), 0, k)
  {
    assert Elements(q[..done + 1]) == Elements(q[..done]) + {q[done]};
    if q[done] in q[..done] {
      RepeatHasNoTargets(keys, edges, q, done);
      assert Elements(q[..done + 1]) == Elements(q[..done]);
    } else {
      PendingWithout(edges, |edges|, Known(keys), Elements(q[..done]), q[done], k);
    }
  }

  lemma RepeatHasNoTargets(keys: seq<string>, edges: seq<Edge>, q: seq<string>, done: nat)
    requires Tame(keys, edges) && multiset(q) <= multiset(keys) && done < |q| && q[done] in q[..done]
    ensures Targets(edges, |edges|, Known(keys), q[done]) == []
  {
    var i :| 0 <= i < done && q[i] == q[done];
    TwiceInSeq(q, i, done);
    var targets := Targets(edges, |edges|, Known(keys), q[done]);
    assert targets != [] ==> targets[0] in targets;
    TargetsAreArcs(keys, edges, |edges|, q[done]);
  }

  lemma WithinAppend(a: seq<string>, b: seq<string>, bound: multiset<string>)
    requires multiset(a) <= bound && Distinct(b)
    requires forall x :: x in b ==> x !in a && x in bound
    ensures multiset(a + b) <= bound
  {
    KnownSize(b);
    assert multiset(a + b) == multiset(a) + multiset(b);
  }

  lemma FrontierStep(keys: seq<string>, edges: seq<Edge>, q: seq<string>, done: nat, indegree: map<string, int>)
    requires Tame(keys, edges) && Frontier(keys, edges, q, done, indegree) && done < |q|
    requires forall t :: t in Targets(edges, |edges|, Known(keys), q[done]) ==> t in indegree
    ensures
      var (m, freed) := Relax(Targets(edges, |edges|, Known(keys), q[done]), 0, indegree);
      Frontier(keys, edges, q + freed, done + 1, m)
  {
    FreedNodes(keys, edges, q, done, indegree);
    var (m, freed) := Relax(Targets(edges, |edges|, Known(keys), q[done]), 0, indegree);
    assert (q + freed)[..done + 1] == q[..done + 1];
    WithinAppend(q, freed, multiset(keys));
    forall k | k in keys
      ensures k in q + freed <==> m[k] == 0
    {
      assert 0 <= m[k] <= indegree[k] by {
        RelaxCounts(Targets(edges, |edges|, Known(keys), q[done]), 0, indegree);
      }
      assert k in q + freed <==> k in q || k in freed;
    }
  }

  /** The sources of a freed node are all done, and the node just taken is one of them. */
  lemma FreedSources(keys: seq<string>, edges: seq<Edge>, q: seq<string>, done: nat, indegree: map<string, int>, x: string)
    requires Tame(keys, edges) && Frontier(keys, edges, q, done, indegree) && done < |q|
    requires forall t :: t in Targets(edges, |edges|, Known(keys), q[done]) ==> t in indegree
    requires x in Relax(Targets(edges, |edges|, Known(keys), q[done]), 0, indegree).1
    ensures x in keys && x !in q
    ensures Arc(keys, edges, q[done], x)
    ensures forall u :: Arc(keys, edges, u, x) ==> u in q[..done + 1]
  {
    FreedNodes(keys, edges, q, done, indegree);
    NothingPending(keys, edges, Elements(q[..done]), x);
    NothingPending(keys, edges, Elements(q[..done + 1]), x);
  }

  lemma StepSourcesFirst(keys: seq<string>, edges: seq<Edge>, q: seq<string>, done: nat, freed: seq<string>)
    requires done < |q|
    requires SourcesFirst(keys, edges, q)
    requires forall x, u :: x in freed && Arc(keys, edges, u, x) ==> u in q[..done + 1]
    ensures SourcesFirst(keys, edges, q + freed)
  {
    var q' := q + freed;
    forall i, u | 0 <= i < |q'| && Arc(keys, edges, u, q'[i])
      ensures u in q'[..i]
    {
      if i < |q| {
        assert q'[..i] == q[..i];
      } else {
        assert q'[i] in freed;
        assert q[..done + 1] <= q'[..i];
      }
    }
  }

  lemma StepArc(keys: seq<string>, edges: seq<Edge>, q: seq<string>, done: nat, lev: seq<nat>, freed: seq<string>, i: nat, j: nat)
    requires done < |q| && Tame(keys, edges) && multiset(q + freed) <= multiset(keys)
    requires Layered(keys, edges, q, done, lev)
    requires forall x, u :: x in freed && Arc(keys, edges, u, x) ==> u in q[..done + 1]
    requires i < |q + freed| && j < |q + freed|
    requires Arc(keys, edges, (q + freed)[j], (q + freed)[i])
    ensures j < i
    ensures var lev' := lev + seq(|freed|, _ => lev[done] + 1); lev'[j] < lev'[i]
  {
    var q' := q + freed;
    if i < |q| {
      assert q'[j] in q[..i];
      var a :| 0 <= a < i && q[a] == q'[j];
      BusyIsOnce(keys, edges, q', a, j);
    } else {
      assert q'[i] in freed;
      assert q'[j] in q[..done + 1];
      var b :| 0 <= b < done + 1 && q[b] == q'[j];
      BusyIsOnce(keys, edges, q', b, j);
    }
  }

  lemma StepParent(keys: seq<string>, edges: seq<Edge>, q: seq<string>, done: nat, lev: seq<nat>, freed: seq<string>, i: nat)
    requires done < |q|
    requires Layered(keys, edges, q, done, lev)
    requires forall x :: x in freed ==> Arc(keys, edges, q[done], x)
    requires i < |q + freed| && (lev + seq(|freed|, _ => lev[done] + 1))[i] > 0
    ensures HasParent(keys, edges, q + freed, lev + seq(|freed|, _ => lev[done] + 1), i)
  {
    var q', lev' := q + freed, lev + seq(|freed|, _ => lev[done] + 1);
    if i < |q| {
      assert HasParent(keys, edges, q, lev, i);
      var j :| 0 <= j < i && Arc(keys, edges, q[j], q[i]) && lev[j] + 1 == lev[i];
      assert Arc(keys, edges, q'[j], q'[i]) && lev'[j] + 1 == lev'[i];
    } else {
      assert q'[i] in freed;
      assert Arc(keys, edges, q'[done], q'[i]) && lev'[done] + 1 == lev'[i];
    }
  }

  lemma LayeredStep(keys: seq<string>, edges: seq<Edge>, q: seq<string>, done: nat, lev: seq<nat>, freed: seq<string>)
    requires done < |q| && Tame(keys, edges) && multiset(q + freed) <= multiset(keys)
    requires Layered(keys, edges, q, done, lev)
    requires forall x :: x in freed ==> Arc(keys, edges, q[done], x)
    requires forall x, u :: x in freed && Arc(keys, edges, u, x) ==> u in q[..done + 1]
    ensures Layered(keys, edges, q + freed, done + 1, lev + seq(|freed|, _ => lev[done] + 1))
  {
    hide Arc, HasParent, Tame;
    var q', lev' := q + freed, lev + seq(|freed|, _ => lev[done] + 1);
    StepSourcesFirst(keys, edges, q, done, freed);
    forall i, j | 0 <= i < |q'| && 0 <= j < |q'| && Arc(keys, edges, q'[j], q'[i])
      ensures j < i && lev'[j] < lev'[i]
    {
      StepArc(keys, edges, q, done, lev, freed, i, j);
    }
    forall i | 0 <= i < |q'| && lev'[i] > 0
      ensures HasParent(keys, edges, q', lev', i)
    {
      StepParent(keys, edges, q, done, lev, freed, i);
    }
  }

  // ---------------------------------------------------------------------
  // The whole queue loop
  // ---------------------------------------------------------------------

  /** One turn of the loop keeps both invariants. */
  lemma QueueStep(keys: seq<string>, edges: seq<Edge>, q: seq<string>, done: nat, indegree: map<string, int>, lev: seq<nat>)
    requires Tame(keys, edges) && Frontier(keys, edges, q, done, indegree) && done < |q|
    requires Layered(keys, edges, q, done, lev)
    ensures forall t :: t in Targets(edges, |edges|, Known(keys), q[done]) ==> t in indegree
    ensures
      var (m, freed) := Relax(Targets(edges, |edges|, Known(keys), q[done]), 0, indegree);
      && Frontier(keys, edges, q + freed, done + 1, m)
      && Layered(keys, edges, q + freed, done + 1, lev + seq(|freed|, _ => lev[done] + 1))
  {
    TargetsKnown(edges, |edges|, Known(keys), q[done]);
    var (m, freed) := Relax(Targets(edges, |edges|, Known(keys), q[done]), 0, indegree);
    FrontierStep(keys, edges, q, done, indegree);
    forall x | x in freed
      ensures Arc(keys, edges, q[done], x)
      ensures forall u :: Arc(keys, edges, u, x) ==> u in q[..done + 1]
    {
      FreedSources(keys, edges, q, done, indegree, x);
    }
    LayeredStep(keys, edges, q, done, lev, freed);
  }

  lemma PrefixTrans<T>(a: seq<T>, b: seq<T>, c: seq<T>)
    requires a <= b <= c
    ensures a <= c
  {
  }

  lemma Requeue(ordered: seq<string>, ready: seq<string>, freed: seq<string>)
    requires ready != []
    ensures (ordered + [ready[0]]) + (ready[1..] + freed) == (ordered + ready) + freed
  {
  }

  lemma {:induction false} DrainInvariant(keys: seq<string>, edges: seq<Edge>, indegree: map<string, int>,
                                          ready: seq<string>, ordered: seq<string>, lev: seq<nat>)
    returns (final: map<string, int>, levels: seq<nat>)
    requires Tame(keys, edges) && ClosedOut(OutOf(keys, edges), indegree)
    requires Frontier(keys, edges, ordered + ready, |ordered|, indegree)
    requires Layered(keys, edges, ordered + ready, |ordered|, lev)
    ensures
      var r := Drain(OutOf(keys, edges), indegree, ready, ordered);
      && Frontier(keys, edges, r, |r|, final)
      && Layered(keys, edges, r, |r|, levels)
      && ordered + ready <= r
      && lev <= levels
    decreases |Positive(indegree)| + |ready|
  {
    var out, q, done := OutOf(keys, edges), ordered + ready, |ordered|;
    if ready == [] {
      assert q == ordered;
      final, levels := indegree, lev;
    } else {
      QueueStep(keys, edges, q, done, indegree, lev);
      var key := ready[0];
      assert q[done] == key && key in q;
      var (m, freed) := Relax(Adjacent(out, key), 0, indegree);
      var ordered', ready' := ordered + [key], ready[1..] + freed;
      var lev' := lev + seq(|freed|, _ => lev[done] + 1);
      Requeue(ordered, ready, freed);
      assert Frontier(keys, edges, ordered' + ready', |ordered'|, m);
      assert Layered(keys, edges, ordered' + ready', |ordered'|, lev');
      final, levels := DrainInvariant(keys, edges, m, ready', ordered', lev');
      PrefixTrans(q, q + freed, Drain(out, m, ready', ordered'));
      PrefixTrans(lev, lev', levels);
    }
  }

  lemma {:induction false} SeedsAre(keys: seq<string>, n: nat, indegree: map<string, int>)
    requires n <= |keys|
    requires forall k :: k in keys ==> k in indegree
    ensures forall k {:trigger multiset(Seeds(keys, n, indegree))[k]} ::
              multiset(Seeds(keys, n, indegree))[k] ==
              if k in indegree && indegree[k] == 0 then multiset(keys[..n])[k] else 0
    ensures forall k :: k in Seeds(keys, n, indegree) <==> k in keys[..n] && indegree[k] == 0
  {
    if n != 0 {
      SeedsAre(keys, n - 1, indegree);
      assert keys[..n] == keys[..n - 1] + [keys[n - 1]];
    }
  }

  lemma SeedsHaveNoSource(keys: seq<string>, edges: seq<Edge>, k: string)
    requires k in keys
    ensures k in Seeds(keys, |keys|, Degrees(keys, edges)) <==> forall u :: !Arc(keys, edges, u, k)
  {
    SeedsAre(keys, |keys|, Degrees(keys, edges));
    assert keys[..|keys|] == keys;
    NothingPending(keys, edges, {}, k);
  }

  lemma SeededQueue(keys: seq<string>, edges: seq<Edge>)
    ensures var seeds := Seeds(keys, |keys|, Degrees(keys, edges));
            && Frontier(keys, edges, seeds, 0, Degrees(keys, edges))
            && Layered(keys, edges, seeds, 0, seq(|seeds|, _ => 0))
  {
    var d := Degrees(keys, edges);
    var seeds := Seeds(keys, |keys|, d);
    SeedsAre(keys, |keys|, d);
    assert keys[..|keys|] == keys;
    assert Elements(seeds[..0]) == {};
    forall i, u | 0 <= i < |seeds|
      ensures !Arc(keys, edges, u, seeds[i])
    {
      assert seeds[i] in seeds;
      SeedsHaveNoSource(keys, edges, seeds[i]);
    }
  }

  /** Everything known about the queue order, with the level of each position. */
  lemma DrainedShape(keys: seq<string>, edges: seq<Edge>) returns (final: map<string, int>, levels: seq<nat>)
    requires Tame(keys, edges)
    ensures
      var r := Drained(keys, edges);
      && Frontier(keys, edges, r, |r|, final)
      && Layered(keys, edges, r, |r|, levels)
      && Seeds(keys, |keys|, Degrees(keys, edges)) <= r
  {
    OutOfClosed(keys, edges);
    var d := Degrees(keys, edges);
    var seeds := Seeds(keys, |keys|, d);
    SeededQueue(keys, edges);
    assert [] + seeds == seeds;
    final, levels := DrainInvariant(keys, edges, d, seeds, [], seq(|seeds|, _ => 0));
  }

  // ---------------------------------------------------------------------
  // Paths and cycles
  // ---------------------------------------------------------------------

  /** Along a path inside the order, levels rise by at least one per step. */
  lemma {:induction false} PathRises(keys: seq<string>, edges: seq<Edge>, q: seq<string>, lev: seq<nat>,
                                     p: seq<string>, b: nat)
    requires Layered(keys, edges, q, |q|, lev)
    requires IsPath(keys, edges, p) && b < |q| && q[b] == p[|p| - 1]
    ensures |p| - 1 <= lev[b]
    ensures exists a :: 0 <= a <= b && q[a] == p[0] && lev[a] + |p| - 1 <= lev[b]
  {
    if |p| > 1 {
      var front := p[..|p| - 1];
      assert Arc(keys, edges, p[|p| - 2], p[|p| - 2 + 1]);
      assert front[|front| - 1] in q[..b];
      var c :| 0 <= c < b && q[c] == front[|front| - 1];
      PathRises(keys, edges, q, lev, front, c);
    }
  }

  /** A path as long as the level says really exists. */
  lemma {:induction false} LevelPath(keys: seq<string>, edges: seq<Edge>, q: seq<string>, lev: seq<nat>, i: nat)
    returns (p: seq<string>)
    requires Layered(keys, edges, q, |q|, lev) && i < |q|
    requires forall k :: k in q ==> k in keys
    ensures PathTo(keys, edges, p, q[i]) && |p| == lev[i] + 1
  {
    if lev[i] == 0 {
      p := [q[i]];
    } else {
      assert HasParent(keys, edges, q, lev, i);
      var j :| 0 <= j < i && Arc(keys, edges, q[j], q[i]) && lev[j] + 1 == lev[i];
      var front := LevelPath(keys, edges, q, lev, j);
      p := front + [q[i]];
    }
  }

  lemma LevelIsDepth(keys: seq<string>, edges: seq<Edge>, q: seq<string>, lev: seq<nat>, i: nat)
    requires Layered(keys, edges, q, |q|, lev) && i < |q|
    requires forall k :: k in q ==> k in keys
    ensures HasDepth(keys, edges, q[i], lev[i])
  {
    var p := LevelPath(keys, edges, q, lev, i);
    forall p | PathTo(keys, edges, p, q[i])
      ensures |p| <= lev[i] + 1
    {
      PathRises(keys, edges, q, lev, p, i);
    }
  }

  lemma {:induction false} Pigeonhole(p: seq<string>, s: set<string>) returns (i: nat, j: nat)
    requires forall x :: x in p ==> x in s
    requires |p| > |s|
    ensures i < j < |p| && p[i] == p[j]
  {
    var n := |p| - 1;
    if p[n] in p[..n] {
      i :| 0 <= i < n && p[i] == p[n];
      j := n;
    } else {
      i, j := Pigeonhole(p[..n], s - {p[n]});
    }
  }

  ghost predicate HasSourceIn(keys: seq<string>, edges: seq<Edge>, left: set<string>, k: string) {
    exists u :: u in left && Arc(keys, edges, u, k)
  }

  /** Every node of `left` has a source in `left`: nothing in it can ever become ready. */
  ghost predicate SelfFed(keys: seq<string>, edges: seq<Edge>, left: set<string>) {
    && (forall k :: k in left ==> k in keys)
    && (forall k {:trigger HasSourceIn(keys, edges, left, k)} :: k in left ==> HasSourceIn(keys, edges, left, k))
  }

  /** From a set of nodes each with a source inside the set, paths of any length lead back. */
  lemma {:induction false} WalkBack(keys: seq<string>, edges: seq<Edge>, left: set<string>, n: nat) returns (p: seq<string>)
    requires left != {}
    requires SelfFed(keys, edges, left)
    ensures IsPath(keys, edges, p) && |p| == n + 1 && p[0] in left
  {
    if n == 0 {
      var k :| k in left;
      p := [k];
    } else {
      var rest := WalkBack(keys, edges, left, n - 1);
      assert HasSourceIn(keys, edges, left, rest[0]);
      var u :| u in left && Arc(keys, edges, u, rest[0]);
      p := [u] + rest;
    }
  }

  lemma {:induction false} PathKeys(keys: seq<string>, edges: seq<Edge>, p: seq<string>)
    requires IsPath(keys, edges, p)
    ensures forall x :: x in p ==> x in Known(keys)
  {
    forall i | 0 <= i < |p| ensures p[i] in keys {
      if i > 0 { assert Arc(keys, edges, p[i - 1], p[i - 1 + 1]); }
    }
  }

  lemma CycleFrom(keys: seq<string>, edges: seq<Edge>, left: set<string>)
    requires left != {}
    requires SelfFed(keys, edges, left)
    ensures !Acyclic(keys, edges)
  {
    var p := WalkBack(keys, edges, left, |Known(keys)|);
    PathKeys(keys, edges, p);
    var i, j := Pigeonhole(p, Known(keys));
    var c := p[i..j + 1];
    assert c[0] in Known(keys);
    assert IsCycle(keys, edges, c);
  }

  lemma {:induction false} KnownSize(keys: seq<string>)
    requires Distinct(keys)
    ensures |Known(keys)| == |keys|
    ensures multiset(keys) == multiset(Known(keys))
  {
    if keys != [] {
      var n := |keys| - 1;
      KnownSize(keys[..n]);
      assert keys == keys[..n] + [keys[n]];
      assert Known(keys) == Known(keys[..n]) + {keys[n]};
    }
  }

  /** A cycle cannot lie inside a layered order: its levels would rise all the way round. */
  lemma NoCycleInside(keys: seq<string>, edges: seq<Edge>, r: seq<string>, lev: seq<nat>, p: seq<string>)
    requires Tame(keys, edges) && multiset(r) <= multiset(keys) && Layered(keys, edges, r, |r|, lev)
    requires IsCycle(keys, edges, p)
    ensures p[0] !in r
  {
    if p[0] in r {
      var b :| 0 <= b < |r| && r[b] == p[0];
      PathRises(keys, edges, r, lev, p, b);
      var a :| 0 <= a <= b && r[a] == p[0] && lev[a] + |p| - 1 <= lev[b];
      assert Arc(keys, edges, p[0], p[0 + 1]);
      BusyIsOnce(keys, edges, r, a, b);
    }
  }

  lemma OrderedAreKnown(keys: seq<string>, edges: seq<Edge>, r: seq<string>, final: map<string, int>)
    requires Frontier(keys, edges, r, |r|, final)
    ensures Known(r) <= Known(keys)
    ensures Known(keys) - Known(r) == {} <==> Known(r) == Known(keys)
  {
    if Known(keys) - Known(r) == {} {
      forall k | k in Known(keys) ensures k in Known(r) {
        assert k !in Known(keys) - Known(r);
      }
    }
  }

  /** The nodes the queue never reaches feed each other. */
  lemma UnreachedFeedEachOther(keys: seq<string>, edges: seq<Edge>, r: seq<string>, final: map<string, int>)
    requires Frontier(keys, edges, r, |r|, final)
    ensures SelfFed(keys, edges, Known(keys) - Known(r))
  {
    assert r[..|r|] == r;
    var left := Known(keys) - Known(r);
    forall k | k in left
      ensures HasSourceIn(keys, edges, left, k)
    {
      NothingPending(keys, edges, Elements(r), k);
    }
  }

  /** The size test fails exactly on a cyclic graph. */
  lemma StuckIffCyclic(keys: seq<string>, edges: seq<Edge>)
    requires Tame(keys, edges)
    ensures |Drained(keys, edges)| != |keys| <==> !Acyclic(keys, edges)
    ensures |Drained(keys, edges)| == |keys| ==> Known(Drained(keys, edges)) == Known(keys)
  {
    var final, lev := DrainedShape(keys, edges);
    var r := Drained(keys, edges);
    OrderedAreKnown(keys, edges, r, final);
    var left := Known(keys) - Known(r);
    if left == {} {
      AllOccurrences(keys, edges, r);
      forall p | IsCycle(keys, edges, p)
        ensures false
      {
        NoCycleInside(keys, edges, r, lev, p);
      }
    } else {
      var k :| k in left;
      assert multiset(r)[k] == 0;
      SmallerMultiset(multiset(r), multiset(keys), k);
      UnreachedFeedEachOther(keys, edges, r, final);
      CycleFrom(keys, edges, left);
    }
  }

  lemma SmallerMultiset(a: multiset<string>, b: multiset<string>, k: string)
    requires a <= b && a[k] < b[k]
    ensures |a| < |b|
  {
    assert b == a + (b - a);
    assert k in b - a;
  }

  /** An order that holds every key holds every occurrence: repeated keys are all queued at the start. */
  lemma AllOccurrences(keys: seq<string>, edges: seq<Edge>, r: seq<string>)
    requires Tame(keys, edges) && multiset(r) <= multiset(keys) && Known(keys) <= Known(r)
    requires Seeds(keys, |keys|, Degrees(keys, edges)) <= r
    ensures multiset(r) == multiset(keys) && |r| == |keys|
  {
    forall k
      ensures multiset(keys)[k] <= multiset(r)[k]
    {
      KeyOccurrences(keys, edges, r, k);
    }
    assert multiset(r) == multiset(keys);
    assert |multiset(r)| == |r| && |multiset(keys)| == |keys|;
  }

  lemma KeyOccurrences(keys: seq<string>, edges: seq<Edge>, r: seq<string>, k: string)
    requires Tame(keys, edges) && Known(keys) <= Known(r)
    requires Seeds(keys, |keys|, Degrees(keys, edges)) <= r
    ensures multiset(keys)[k] <= multiset(r)[k]
  {
    if multiset(keys)[k] == 1 {
      assert k in multiset(keys) && k in Known(keys) && k in Known(r);
    } else if multiset(keys)[k] > 1 {
      assert k in multiset(keys) && k in keys;
      RootOccurrences(keys, edges, k);
      PrefixOccurrences(Seeds(keys, |keys|, Degrees(keys, edges)), r, k);
    }
  }

  lemma PrefixOccurrences(a: seq<string>, b: seq<string>, k: string)
    requires a <= b
    ensures multiset(a)[k] <= multiset(b)[k]
  {
    assert b == a + b[|a|..];
  }

  /** A node without sources is seeded as often as it is a key. */
  lemma RootOccurrences(keys: seq<string>, edges: seq<Edge>, k: string)
    requires k in keys && forall u :: !Arc(keys, edges, u, k)
    ensures multiset(Seeds(keys, |keys|, Degrees(keys, edges)))[k] == multiset(keys)[k]
  {
    SeedsAre(keys, |keys|, Degrees(keys, edges));
    assert keys[..|keys|] == keys;
    NothingPending(keys, edges, {}, k);
  }

  // ---------------------------------------------------------------------
  // Main theorems
  // ---------------------------------------------------------------------

  lemma {:induction false} DrainWithin(out: map<string, seq<string>>, indegree: map<string, int>, ready: seq<string>,
                                       ordered: seq<string>, bound: multiset<string>)
    requires ClosedOut(out, indegree) && multiset(ordered + ready) <= bound
    requires forall k :: k in indegree ==> k in bound && (indegree[k] > 0 ==> k !in ordered + ready)
    ensures multiset(Drain(out, indegree, ready, ordered)) <= bound
    decreases |Positive(indegree)| + |ready|
  {
    if ready == [] {
      assert ordered + ready == ordered;
    } else {
      var (m, freed) := Relax(Adjacent(out, ready[0]), 0, indegree);
      RelaxCounts(Adjacent(out, ready[0]), 0, indegree);
      WithinAppend(ordered + ready, freed, bound);
      Requeue(ordered, ready, freed);
      DrainWithin(out, m, ready[1..] + freed, ordered + [ready[0]], bound);
    }
  }

  /** Whatever the keys and edges, repeats and cycles included, every key comes out as often as it went in. */
  lemma OrderIsPermutation(keys: seq<string>, edges: seq<Edge>)
    ensures multiset(OrderOf(keys, edges)) == multiset(keys)
  {
    var r, d := Drained(keys, edges), Degrees(keys, edges);
    var seeds := Seeds(keys, |keys|, d);
    SeedsAre(keys, |keys|, d);
    assert keys[..|keys|] == keys && [] + seeds == seeds;
    OutOfClosed(keys, edges);
    DrainWithin(OutOf(keys, edges), d, seeds, [], multiset(keys));
    if |r| == |keys| && multiset(r) != multiset(keys) {
      var k :| multiset(r)[k] < multiset(keys)[k];
      SmallerMultiset(multiset(r), multiset(keys), k);
      assert false;
    }
  }

  /** On an acyclic graph every arc runs from an earlier to a later position. */
  lemma OrderIsTopological(keys: seq<string>, edges: seq<Edge>)
    requires Tame(keys, edges) && Acyclic(keys, edges)
    ensures SourcesFirst(keys, edges, OrderOf(keys, edges))
    ensures var r := OrderOf(keys, edges);
            forall i, j :: 0 <= i < |r| && 0 <= j < |r| && Arc(keys, edges, r[i], r[j]) ==> i < j
  {
    hide Tame, Acyclic, Frontier, Drained, Seeds, Degrees, HasParent, Arc, SourcesFirst;
    StuckIffCyclic(keys, edges);
    var _, _ := DrainedShape(keys, edges);
  }

  /** On a cyclic graph the input order comes back unchanged, and no order could have done better. */
  lemma CycleKeepsInput(keys: seq<string>, edges: seq<Edge>)
    requires Tame(keys, edges) && !Acyclic(keys, edges)
    ensures |Drained(keys, edges)| != |keys|
    ensures OrderOf(keys, edges) == keys
    ensures forall r :: multiset(r) == multiset(keys) ==> !SourcesFirst(keys, edges, r)
  {
    StuckIffCyclic(keys, edges);
    var p :| IsCycle(keys, edges, p);
    forall r | multiset(r) == multiset(keys)
      ensures !SourcesFirst(keys, edges, r)
    {
      if SourcesFirst(keys, edges, r) {
        assert p[0] in multiset(keys) && p[0] in multiset(r);
        assert Arc(keys, edges, p[0], p[0 + 1]);
        var b :| 0 <= b < |r| && r[b] == p[|p| - 1];
        var a := PathGoesBack(keys, edges, r, p, b);
        BusyIsOnce(keys, edges, r, a, b);
      }
    }
  }

  /** In any sources-first order a path of at least one step starts strictly before it ends. */
  lemma {:induction false} PathGoesBack(keys: seq<string>, edges: seq<Edge>, r: seq<string>, p: seq<string>, b: nat) returns (a: nat)
    requires SourcesFirst(keys, edges, r)
    requires IsPath(keys, edges, p) && b < |r| && r[b] == p[|p| - 1]
    ensures a <= b && r[a] == p[0] && (|p| > 1 ==> a < b)
  {
    a := b;
    if |p| > 1 {
      var front := p[..|p| - 1];
      assert Arc(keys, edges, p[|p| - 2], p[|p| - 2 + 1]);
      var c :| 0 <= c < b && r[c] == front[|front| - 1];
      a := PathGoesBack(keys, edges, r, front, c);
    }
  }

  /** Depth never falls along the FIFO order, and every position has a depth. */
  lemma OrderIsLayered(keys: seq<string>, edges: seq<Edge>) returns (depth: seq<nat>)
    requires Tame(keys, edges) && Acyclic(keys, edges)
    ensures
      var r := OrderOf(keys, edges);
      && |depth| == |r|
      && (forall i :: 0 <= i < |r| ==> HasDepth(keys, edges, r[i], depth[i]))
      && (forall i, j :: 0 <= i <= j < |r| ==> depth[i] <= depth[j])
  {
    StuckIffCyclic(keys, edges);
    var final, lev := DrainedShape(keys, edges);
    depth := lev;
    var r := OrderOf(keys, edges);
    forall i | 0 <= i < |r|
      ensures HasDepth(keys, edges, r[i], depth[i])
    {
      LevelIsDepth(keys, edges, r, lev, i);
    }
  }

  /** The nodes without incoming arcs, in the caller's order. */
  ghost function Roots(keys: seq<string>, edges: seq<Edge>): seq<string> {
    RootsOf(keys, keys, edges)
  }

  ghost function RootsOf(some: seq<string>, keys: seq<string>, edges: seq<Edge>): seq<string> {
    if some == [] then []
    else
      var k, rest := some[|some| - 1], RootsOf(some[..|some| - 1], keys, edges);
      if exists u :: Arc(keys, edges, u, k) then rest else rest + [k]
  }

  lemma {:induction false} SeedsAreRoots(n: nat, keys: seq<string>, edges: seq<Edge>)
    requires n <= |keys|
    ensures Seeds(keys, n, Degrees(keys, edges)) == RootsOf(keys[..n], keys, edges)
  {
    if n != 0 {
      SeedsAreRoots(n - 1, keys, edges);
      assert keys[..n][..n - 1] == keys[..n - 1];
      NothingPending(keys, edges, {}, keys[n - 1]);
    }
  }

  /** The depth-zero prefix of the order is exactly the roots, in the caller's order. */
  lemma RootsComeFirst(keys: seq<string>, edges: seq<Edge>)
    requires Tame(keys, edges) && Acyclic(keys, edges)
    ensures Roots(keys, edges) <= OrderOf(keys, edges)
    ensures
      var r := OrderOf(keys, edges);
      forall i :: 0 <= i < |r| ==> (HasDepth(keys, edges, r[i], 0) <==> i < |Roots(keys, edges)|)
  {
    StuckIffCyclic(keys, edges);
    var final, lev := DrainedShape(keys, edges);
    var r := OrderOf(keys, edges);
    SeedsAreRoots(|keys|, keys, edges);
    assert keys[..|keys|] == keys;
    var roots := Roots(keys, edges);
    forall i | 0 <= i < |r|
      ensures HasDepth(keys, edges, r[i], 0) <==> i < |roots|
    {
      LevelIsDepth(keys, edges, r, lev, i);
      RootLevel(keys, edges, r, lev, i);
      if HasDepth(keys, edges, r[i], 0) { DepthUnique(keys, edges, r[i], 0, lev[i]); }
    }
  }

  lemma DepthUnique(keys: seq<string>, edges: seq<Edge>, v: string, d: nat, e: nat)
    requires HasDepth(keys, edges, v, d) && HasDepth(keys, edges, v, e)
    ensures d == e
  {
  }

  /** The seeds are all the occurrences of the roots. */
  lemma SeedsArePrefix(keys: seq<string>, edges: seq<Edge>, r: seq<string>, i: nat)
    requires multiset(r) <= multiset(keys) && i < |r|
    requires Seeds(keys, |keys|, Degrees(keys, edges)) <= r
    ensures r[i] in Seeds(keys, |keys|, Degrees(keys, edges)) <==> i < |Seeds(keys, |keys|, Degrees(keys, edges))|
  {
    var d := Degrees(keys, edges);
    var seeds := Seeds(keys, |keys|, d);
    SeedsAre(keys, |keys|, d);
    hide Seeds, Degrees;
    assert keys[..|keys|] == keys;
    if i < |seeds| {
      assert seeds[i] == r[i];
    } else {
      PastPrefix(seeds, r, i);
    }
  }

  lemma PastPrefix(a: seq<string>, b: seq<string>, i: nat)
    requires a <= b && |a| <= i < |b|
    ensures multiset(b)[b[i]] > multiset(a)[b[i]]
  {
    var rest := b[|a|..];
    assert b == a + rest && rest[i - |a|] == b[i];
    assert b[i] in multiset(rest);
    assert multiset(b) == multiset(a) + multiset(rest);
  }

  lemma RootLevel(keys: seq<string>, edges: seq<Edge>, r: seq<string>, lev: seq<nat>, i: nat)
    requires multiset(r) <= multiset(keys) && i < |r|
    requires Layered(keys, edges, r, |r|, lev)
    requires forall k :: k in r ==> k in keys
    requires Seeds(keys, |keys|, Degrees(keys, edges)) <= r
    ensures lev[i] == 0 <==> i < |Seeds(keys, |keys|, Degrees(keys, edges))|
  {
    SeedsHaveNoSource(keys, edges, r[i]);
    SeedsArePrefix(keys, edges, r, i);
    if lev[i] > 0 {
      assert HasParent(keys, edges, r, lev, i);
    } else if u :| Arc(keys, edges, u, r[i]) {
      assert false;
    }
  }

  // ---------------------------------------------------------------------
  // Repeated keys
  // ---------------------------------------------------------------------

  /** A sources-first order without repeats leaves no room for a cycle. */
  lemma SourcesFirstIsAcyclic(keys: seq<string>, edges: seq<Edge>, r: seq<string>)
    requires Distinct(r) && SourcesFirst(keys, edges, r) && forall k :: k in keys ==> k in r
    ensures Acyclic(keys, edges)
  {
    forall p | IsCycle(keys, edges, p)
      ensures false
    {
      assert Arc(keys, edges, p[|p| - 2], p[|p| - 2 + 1]);
      var b :| 0 <= b < |r| && r[b] == p[|p| - 1];
      var a := PathGoesBack(keys, edges, r, p, b);
      assert false;
    }
  }

  lemma DrainPop(out: map<string, seq<string>>, indegree: map<string, int>, ready: seq<string>, ordered: seq<string>,
                 key: string, rest: seq<string>)
    requires ClosedOut(out, indegree) && key in out && |out[key]| == 1 && ready == [key] + rest
    ensures
      var t := out[key][0];
      var m := indegree[t := indegree[t] - 1];
      && ClosedOut(out, m)
      && Drain(out, indegree, ready, ordered) == Drain(out, m, if m[t] == 0 then rest + [t] else rest, ordered + [key])
  {
    var targets := out[key];
    var t := targets[0];
    var m := indegree[t := indegree[t] - 1];
    assert Relax(targets, 1, m) == (m, []);
    assert [t] + [] == [t] && rest + [] == rest;
    assert Relax(targets, 0, indegree) == (m, if m[t] == 0 then [t] else []);
    assert ready[1..] == rest;
  }

  lemma DrainLeaf(out: map<string, seq<string>>, indegree: map<string, int>, ready: seq<string>, ordered: seq<string>,
                  key: string, rest: seq<string>)
    requires ClosedOut(out, indegree) && key in out && out[key] == [] && ready == [key] + rest
    ensures Drain(out, indegree, ready, ordered) == Drain(out, indegree, rest, ordered + [key])
  {
    assert ready[1..] == rest && rest + [] == rest;
  }

  lemma SmallDrain(out: map<string, seq<string>>, deg: map<string, int>)
    requires out.Keys == {"a", "b", "c", "d"} && out["a"] == out["b"] == ["c"] && out["c"] == [] && out["d"] == ["b"]
    requires deg.Keys == {"a", "b", "c", "d"} && deg["a"] == deg["d"] == 0 && deg["b"] == 1 && deg["c"] == 2
    ensures ClosedOut(out, deg) && Drain(out, deg, ["a", "a", "d"], []) == ["a", "a", "d", "c", "b"]
  {
    hide Drain, Relax;
    var deg1 := deg["c" := 1];
    var deg2 := deg1["c" := 0];
    var deg3 := deg2["b" := 0];
    var deg4 := deg3["c" := -1];
    assert [] + ["a"] == ["a"] && ["a"] + ["a"] == ["a", "a"] && ["a", "a"] + ["d"] == ["a", "a", "d"];
    assert ["a", "a", "d"] + ["c"] == ["a", "a", "d", "c"] && ["a", "a", "d", "c"] + ["b"] == ["a", "a", "d", "c", "b"];
    assert ["d"] + ["c"] == ["d", "c"] && ["c"] + ["b"] == ["c", "b"];
    DrainPop(out, deg, ["a", "a", "d"], [], "a", ["a", "d"]);
    DrainPop(out, deg1, ["a", "d"], ["a"], "a", ["d"]);
    DrainPop(out, deg2, ["d", "c"], ["a", "a"], "d", ["c"]);
    DrainLeaf(out, deg3, ["c", "b"], ["a", "a", "d"], "c", ["b"]);
    DrainPop(out, deg3, ["b"], ["a", "a", "d", "c"], "b", []);
    DrainEnds(out, deg4, ["a", "a", "d", "c", "b"]);
  }

  lemma DrainEnds(out: map<string, seq<string>>, indegree: map<string, int>, ordered: seq<string>)
    requires ClosedOut(out, indegree)
    ensures Drain(out, indegree, [], ordered) == ordered
  {
  }

  lemma SmallTargets(edges: seq<Edge>, known: set<string>, k: string)
    requires edges == [("a", "c"), ("d", "b"), ("b", "c")] && known == {"a", "b", "c", "d"} && k in known
    ensures Targets(edges, 3, known, k) == if k == "a" || k == "b" then ["c"] else if k == "d" then ["b"] else []
    ensures Pending(edges, 3, known, {}, k) == if k == "b" then 1 else if k == "c" then 2 else 0
  {
    assert Targets(edges, 0, known, k) == [] && Pending(edges, 0, known, {}, k) == 0;
    assert Targets(edges, 1, known, k) == if k == "a" then ["c"] else [];
    assert Targets(edges, 2, known, k) == if k == "a" then ["c"] else if k == "d" then ["b"] else [];
    assert Pending(edges, 1, known, {}, k) == if k == "c" then 1 else 0;
    assert Pending(edges, 2, known, {}, k) == if k == "c" || k == "b" then 1 else 0;
  }

  lemma SmallGraph(keys: seq<string>, edges: seq<Edge>)
    requires keys == ["a", "a", "d", "b", "c"] && edges == [("a", "c"), ("d", "b"), ("b", "c")]
    ensures
      var out, deg := OutOf(keys, edges), Degrees(keys, edges);
      && out.Keys == {"a", "b", "c", "d"} && out["a"] == out["b"] == ["c"] && out["c"] == [] && out["d"] == ["b"]
      && deg.Keys == {"a", "b", "c", "d"} && deg["a"] == deg["d"] == 0 && deg["b"] == 1 && deg["c"] == 2
  {
    hide Targets, Pending;
    var known := Known(keys);
    SmallKnown(keys);
    SmallTargets(edges, known, "a");
    SmallTargets(edges, known, "b");
    SmallTargets(edges, known, "c");
    SmallTargets(edges, known, "d");
    hide Known;
  }

  lemma SmallKnown(keys: seq<string>)
    requires keys == ["a", "a", "d", "b", "c"]
    ensures Known(keys) == {"a", "b", "c", "d"}
  {
    assert keys[0] == "a" && keys[2] == "d" && keys[3] == "b" && keys[4] == "c";
  }

  lemma SmallSeeds(keys: seq<string>, deg: map<string, int>)
    requires keys == ["a", "a", "d", "b", "c"]
    requires deg.Keys == {"a", "b", "c", "d"} && deg["a"] == deg["d"] == 0 && deg["b"] == 1 && deg["c"] == 2
    ensures forall k :: k in keys ==> k in deg
    ensures Seeds(keys, 5, deg) == ["a", "a", "d"]
  {
    assert Seeds(keys, 0, deg) == [];
    assert Seeds(keys, 1, deg) == ["a"];
    assert Seeds(keys, 2, deg) == ["a", "a"];
    assert Seeds(keys, 3, deg) == ["a", "a", "d"];
    assert Seeds(keys, 4, deg) == ["a", "a", "d"];
  }

  lemma SmallIsAcyclic(keys: seq<string>, edges: seq<Edge>)
    requires keys == ["a", "a", "d", "b", "c"] && edges == [("a", "c"), ("d", "b"), ("b", "c")]
    ensures Acyclic(keys, edges)
  {
    var r := ["a", "d", "b", "c"];
    forall i, u | 0 <= i < |r| && Arc(keys, edges, u, r[i])
      ensures u in r[..i]
    {
      assert (u, r[i]) == ("a", "c") || (u, r[i]) == ("d", "b") || (u, r[i]) == ("b", "c");
      assert r[0] in r[..3] && r[2] in r[..3] && r[1] in r[..2];
    }
    SourcesFirstIsAcyclic(keys, edges, r);
  }

  /** With a key repeated an acyclic graph can pass the size test in an order that breaks an edge: every repeat of a
      root releases its targets once more. */
  lemma RepeatsCanMisorder()
    ensures
      var keys, edges := ["a", "a", "d", "b", "c"], [("a", "c"), ("d", "b"), ("b", "c")];
      && Acyclic(keys, edges)
      && OrderOf(keys, edges) == ["a", "a", "d", "c", "b"]
      && Arc(keys, edges, "b", "c")
  {
    var keys, edges: seq<Edge> := ["a", "a", "d", "b", "c"], [("a", "c"), ("d", "b"), ("b", "c")];
    SmallIsAcyclic(keys, edges);
    SmallGraph(keys, edges);
    SmallSeeds(keys, Degrees(keys, edges));
    SmallDrain(OutOf(keys, edges), Degrees(keys, edges));
    hide Drain, Seeds, OutOf, Degrees;
    assert keys[3] == "b" && keys[4] == "c" && edges[2] == ("b", "c");
  }
}
