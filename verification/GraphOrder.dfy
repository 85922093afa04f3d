/** Ordering the nodes of a canvas-drawn workflow: Kahn's algorithm with a FIFO
    queue, seeded in the caller's order, falling back to the input on a cycle. */
module GraphOrder {

  type Edge = (string, string)

  // ---------------------------------------------------------------------
  // Vocabulary of the specification
  // ---------------------------------------------------------------------

  ghost predicate Distinct<T>(s: seq<T>) {
    forall i, j :: 0 <= i < j < |s| ==> s[i] != s[j]
  }

  function Known(keys: seq<string>): set<string> {
    set k | k in keys
  }

  /** An edge between two nodes that are really there. */
  ghost predicate Arc(keys: seq<string>, edges: seq<Edge>, u: string, v: string) {
    u in keys && v in keys && (u, v) in edges
  }

  /** A walk along arcs; its length in edges is one less than its length in nodes. */
  ghost predicate IsPath(keys: seq<string>, edges: seq<Edge>, p: seq<string>) {
    && |p| > 0
    && p[0] in keys
    && forall i :: 0 <= i < |p| - 1 ==> Arc(keys, edges, p[i], p[i + 1])
  }

  ghost predicate IsCycle(keys: seq<string>, edges: seq<Edge>, p: seq<string>) {
    IsPath(keys, edges, p) && |p| > 1 && p[0] == p[|p| - 1]
  }

  ghost predicate Acyclic(keys: seq<string>, edges: seq<Edge>) {
    forall p :: !IsCycle(keys, edges, p)
  }

  ghost predicate PathTo(keys: seq<string>, edges: seq<Edge>, p: seq<string>, v: string) {
    IsPath(keys, edges, p) && p[|p| - 1] == v
  }

  /** `d` is the length, in edges, of the longest path that ends at `v`. */
  ghost predicate HasDepth(keys: seq<string>, edges: seq<Edge>, v: string, d: nat) {
    && (exists p :: PathTo(keys, edges, p, v) && |p| == d + 1)
    && (forall p :: PathTo(keys, edges, p, v) ==> |p| <= d + 1)
  }

  /** Every arc into an element of `q` comes from an earlier element of `q`. */
  ghost predicate SourcesFirst(keys: seq<string>, edges: seq<Edge>, q: seq<string>) {
    forall i, u :: 0 <= i < |q| && Arc(keys, edges, u, q[i]) ==> u in q[..i]
  }

  // ---------------------------------------------------------------------
  // The algorithm on values
  // ---------------------------------------------------------------------

  /** Both ends of the edge are nodes of this workflow. */
  predicate Usable(e: Edge, known: set<string>) {
    e.0 in known && e.1 in known
  }

  /** The adjacency list of `from` over the first `n` edges: targets in edge order, repeats kept. */
  function Targets(edges: seq<Edge>, n: nat, known: set<string>, from: string): seq<string>
    requires n <= |edges|
  {
    if n == 0 then []
    else
      var e, rest := edges[n - 1], Targets(edges, n - 1, known, from);
      if Usable(e, known) && e.0 == from then rest + [e.1] else rest
  }

  /** How many of the first `n` edges are usable and enter `to` from a source outside `done`. */
  function Pending(edges: seq<Edge>, n: nat, known: set<string>, done: set<string>, to: string): nat
    requires n <= |edges|
  {
    if n == 0 then 0
    else
      var e := edges[n - 1];
      Pending(edges, n - 1, known, done, to) + if Usable(e, known) && e.1 == to && e.0 !in done then 1 else 0
  }

  /** The first `n` keys without incoming edges, in the caller's order. */
  function Seeds(keys: seq<string>, n: nat, indegree: map<string, int>): seq<string>
    requires n <= |keys|
    requires forall k :: k in keys ==> k in indegree
  {
    if n == 0 then []
    else
      var rest := Seeds(keys, n - 1, indegree);
      if indegree[keys[n - 1]] == 0 then rest + [keys[n - 1]] else rest
  }

  function Positive(indegree: map<string, int>): set<string> {
    set k | k in indegree && indegree[k] > 0
  }

  /** Decrements every target from position `j` on; returns the new degrees and the nodes that hit zero. */
  function Relax(targets: seq<string>, j: nat, indegree: map<string, int>): (r: (map<string, int>, seq<string>))
    requires j <= |targets|
    requires forall t :: t in targets ==> t in indegree
    ensures r.0.Keys == indegree.Keys
    ensures |Positive(r.0)| + |r.1| <= |Positive(indegree)|
    decreases |targets| - j
  {
    if j == |targets| then (indegree, [])
    else
      var t := targets[j];
      var next := indegree[t := indegree[t] - 1];
      var (m, freed) := Relax(targets, j + 1, next);
      assert Positive(next) == if next[t] == 0 then Positive(indegree) - {t} else Positive(indegree);
      (m, if next[t] == 0 then [t] + freed else freed)
  }

  ghost predicate ClosedOut(out: map<string, seq<string>>, indegree: map<string, int>) {
    forall k, t :: k in out && t in out[k] ==> t in indegree
  }

  function Adjacent(out: map<string, seq<string>>, k: string): seq<string> {
    if k in out then out[k] else []
  }

  /** The queue loop: what `ordered` holds once `ready` has run dry. */
  function Drain(out: map<string, seq<string>>, indegree: map<string, int>,
                 ready: seq<string>, ordered: seq<string>): seq<string>
    requires ClosedOut(out, indegree)
    decreases |Positive(indegree)| + |ready|
  {
    if ready == [] then ordered
    else
      var (m, freed) := Relax(Adjacent(out, ready[0]), 0, indegree);
      Drain(out, m, ready[1..] + freed, ordered + [ready[0]])
  }

  function OutOf(keys: seq<string>, edges: seq<Edge>): map<string, seq<string>> {
    map k | k in Known(keys) :: Targets(edges, |edges|, Known(keys), k)
  }

  function Degrees(keys: seq<string>, edges: seq<Edge>): map<string, int> {
    map k | k in Known(keys) :: Pending(edges, |edges|, Known(keys), {}, k)
  }

  lemma {:induction false} TargetsKnown(edges: seq<Edge>, n: nat, known: set<string>, from: string)
    requires n <= |edges|
    ensures forall t :: t in Targets(edges, n, known, from) ==> t in known
  {
    if n != 0 { TargetsKnown(edges, n - 1, known, from); }
  }

  lemma OutOfClosed(keys: seq<string>, edges: seq<Edge>)
    ensures ClosedOut(OutOf(keys, edges), Degrees(keys, edges))
  {
    forall k | k in Known(keys) { TargetsKnown(edges, |edges|, Known(keys), k); }
  }

  /** The order the queue produces, before the size test. */
  function Drained(keys: seq<string>, edges: seq<Edge>): seq<string> {
    OutOfClosed(keys, edges);
    var d := Degrees(keys, edges);
    Drain(OutOf(keys, edges), d, Seeds(keys, |keys|, d), [])
  }

  function OrderOf(keys: seq<string>, edges: seq<Edge>): seq<string> {
    var ordered := Drained(keys, edges);
    if |ordered| != |keys| then keys else ordered
  }

  // ---------------------------------------------------------------------
  // The source's loops
  // ---------------------------------------------------------------------

  method ZeroDegrees(nodeKeys: seq<string>) returns (indegree: map<string, int>)
    ensures indegree.Keys == Known(nodeKeys)
    ensures forall k :: k in indegree ==> indegree[k] == 0
  {
    indegree := map[];
    for i := 0 to |nodeKeys|
      invariant indegree.Keys == set k | k in nodeKeys[..i]
      invariant forall k :: k in indegree ==> indegree[k] == 0
    {
      indegree := indegree[nodeKeys[i] := 0];
    }
    assert nodeKeys[..|nodeKeys|] == nodeKeys;
  }

  /** The adjacency lists and in-degrees over the first `i` edges. */
  ghost predicate BuiltTo(edges: seq<Edge>, i: nat, known: set<string>, out: map<string, seq<string>>,
                          indegree: map<string, int>)
    requires i <= |edges|
  {
    && indegree.Keys == known && out.Keys <= known
    && forall k :: k in known ==>
         indegree[k] == Pending(edges, i, known, {}, k) && Adjacent(out, k) == Targets(edges, i, known, k)
  }

  lemma EdgeAdded(edges: seq<Edge>, i: nat, known: set<string>, out: map<string, seq<string>>, indegree: map<string, int>)
    requires i < |edges| && BuiltTo(edges, i, known, out, indegree)
    ensures
      var (from, to) := edges[i];
      if from in known && to in known then
        BuiltTo(edges, i + 1, known, out[from := Adjacent(out, from) + [to]], indegree[to := indegree[to] + 1])
      else BuiltTo(edges, i + 1, known, out, indegree)
  {
  }

  method BuildGraph(nodeKeys: seq<string>, edges: seq<Edge>)
    returns (out: map<string, seq<string>>, indegree: map<string, int>)
    ensures indegree == Degrees(nodeKeys, edges)
    ensures forall k :: Adjacent(out, k) == Adjacent(OutOf(nodeKeys, edges), k)
  {
    var known := Known(nodeKeys);
    out := map[];
    indegree := ZeroDegrees(nodeKeys);
    for i := 0 to |edges|
      invariant indegree.Keys == known
      invariant BuiltTo(edges, i, known, out, indegree)
    {
      hide BuiltTo;
      EdgeAdded(edges, i, known, out, indegree);
      var (from, to) := edges[i];
      if from in known && to in known {
        out := out[from := Adjacent(out, from) + [to]];
        indegree := indegree[to := indegree[to] + 1];
      }
    }
  }

  method SeedQueue(nodeKeys: seq<string>, indegree: map<string, int>) returns (ready: seq<string>)
    requires indegree.Keys == Known(nodeKeys)
    ensures ready == Seeds(nodeKeys, |nodeKeys|, indegree)
  {
    ready := [];
    for i := 0 to |nodeKeys|
      invariant ready == Seeds(nodeKeys, i, indegree)
    {
      if indegree[nodeKeys[i]] == 0 { ready := ready + [nodeKeys[i]]; }
    }
  }

  method ReleaseTargets(targets: seq<string>, degrees: map<string, int>, queue: seq<string>)
    returns (indegree: map<string, int>, ready: seq<string>)
    requires forall t :: t in targets ==> t in degrees
    ensures indegree == Relax(targets, 0, degrees).0
    ensures ready == queue + Relax(targets, 0, degrees).1
  {
    indegree, ready := degrees, queue;
    for j := 0 to |targets|
      invariant indegree.Keys == degrees.Keys
      invariant Relax(targets, j, indegree).0 == Relax(targets, 0, degrees).0
      invariant ready + Relax(targets, j, indegree).1 == queue + Relax(targets, 0, degrees).1
    {
      indegree := indegree[targets[j] := indegree[targets[j]] - 1];
      if indegree[targets[j]] == 0 { ready := ready + [targets[j]]; }
    }
  }

  method TopologicalOrder(nodeKeys: seq<string>, edges: seq<Edge>) returns (result: seq<string>)
    ensures result == OrderOf(nodeKeys, edges)
  {
    var out, indegree := BuildGraph(nodeKeys, edges);
    var ready := SeedQueue(nodeKeys, indegree);
    var ordered: seq<string> := [];
    ghost var outs := OutOf(nodeKeys, edges);
    OutOfClosed(nodeKeys, edges);
    while ready != []
      invariant indegree.Keys == Known(nodeKeys)
      invariant Drain(outs, indegree, ready, ordered) == Drained(nodeKeys, edges)
      decreases |Positive(indegree)| + |ready|
    {
      var key := ready[0];
      ready := ready[1..];
      ordered := ordered + [key];
      assert Adjacent(out, key) == Adjacent(outs, key);
      indegree, ready := ReleaseTargets(Adjacent(out, key), indegree, ready);
    }
    if |ordered| != |nodeKeys| { return nodeKeys; }
    return ordered;
  }
}
