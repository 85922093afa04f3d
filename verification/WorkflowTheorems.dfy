/** From stored rows to a run: what loading conserves, and what a run of a loaded workflow may rely on. */
module WorkflowTheorems {
  import opened Text
  import opened Json
  import opened GraphOrder
  import opened GraphTheorems
  import opened GraphFifo
  import opened GraphLoader
  import opened Executor

  // ---------------------------------------------------------------------
  // Loading
  // ---------------------------------------------------------------------

  /** What the schema guarantees of a workflow's node rows: keys present and unique. */
  ghost predicate KeyedRows(codec: Codec, rows: seq<Json>) {
    && (forall r :: 0 <= r < |rows| ==> Field(codec, rows[r], "nodeKey") != "")
    && (forall r, s :: 0 <= r < s < |rows| ==> Field(codec, rows[r], "nodeKey") != Field(codec, rows[s], "nodeKey"))
  }

  /** A row's field as text: its string as it is, nothing for null or no field at all, else the JSON text. */
  ghost predicate FieldShows(codec: Codec, row: Json, key: string, text: string) {
    if row.Obj? && key in row.fields && row.fields[key] != Null then
      row.fields[key] == Str(text) || (!row.fields[key].Str? && text == codec.dump(row.fields[key]))
    else text == ""
  }

  /** What a stored text of a given type means: a number only if all of it reads as one, a boolean for that type alone,
      whatever JSON it is for that type, and otherwise just the text. */
  ghost predicate TextMeans(codec: Codec, text: string, kind: string, value: Json) {
    match value
    case Num(n) => (kind == "number" && codec.number(text) == Some(n)) || (kind == "json" && codec.parse(text) == Some(value))
    case Bool(b) => (kind == "boolean" && (b <==> text == "true")) || (kind == "json" && codec.parse(text) == Some(value))
    case Str(s) =>
      || (kind == "json" && codec.parse(text) == Some(value))
      || (s == text && kind != "boolean" && (kind == "number" ==> codec.number(text) == None)
          && (kind == "json" ==> codec.parse(text) == None))
    case _ => kind == "json" && codec.parse(text) == Some(value)
  }

  /** The value a parameter row carries, by its "value" and "valueType". */
  ghost predicate Carries(codec: Codec, row: Json, value: Json) {
    exists text, kind ::
      FieldShows(codec, row, "value", text) && FieldShows(codec, row, "valueType", kind) && TextMeans(codec, text, kind, value)
  }

  /** A row carries exactly one value: the decoded one. */
  lemma DecodedIff(codec: Codec, row: Json, value: Json)
    ensures Decoded(codec, row) == value <==> Carries(codec, row, value)
  {
    var text, kind := Field(codec, row, "value"), Field(codec, row, "valueType");
    assert FieldShows(codec, row, "value", text) && FieldShows(codec, row, "valueType", kind);
    assert Decoded(codec, row) == value <==> TextMeans(codec, text, kind, value);
    if Carries(codec, row, value) {
      var t, k :| FieldShows(codec, row, "value", t) && FieldShows(codec, row, "valueType", k) && TextMeans(codec, t, k, value);
      assert t == text && k == kind;
    }
  }

  // ---------------------------------------------------------------------
  // Keys and edges, in the order of their rows
  // ---------------------------------------------------------------------

  /** at[k] is the row of the k-th key: every row with a key counts, once, in row order. */
  ghost predicate KeysInOrder(codec: Codec, rows: seq<Json>, n: nat, keys: seq<string>, at: seq<nat>)
    requires n <= |rows|
  {
    && |at| == |keys|
    && (forall k :: 0 <= k < |at| ==> at[k] < n && keys[k] != "" && FieldShows(codec, rows[at[k]], "nodeKey", keys[k]))
    && (forall k, l :: 0 <= k < l < |at| ==> at[k] < at[l])
    && (forall r: nat :: r < n && r !in at ==> FieldShows(codec, rows[r], "nodeKey", ""))
  }

  /** at[k] is the row of the k-th edge: every row that names both ends counts, once, in row order. */
  ghost predicate EdgesInOrder(codec: Codec, rows: seq<Json>, n: nat, edges: seq<Edge>, at: seq<nat>)
    requires n <= |rows|
  {
    && |at| == |edges|
    && (forall k :: 0 <= k < |at| ==> at[k] < n && NamesEdge(codec, rows[at[k]], edges[k].0, edges[k].1))
    && (forall k, l :: 0 <= k < l < |at| ==> at[k] < at[l])
    && (forall r: nat, from, to :: r < n && NamesEdge(codec, rows[r], from, to) ==> r in at)
  }

  lemma FieldIff(codec: Codec, row: Json, key: string)
    ensures forall text :: Field(codec, row, key) == text <==> FieldShows(codec, row, key, text)
  {
  }

  lemma KeysMore(codec: Codec, rows: seq<Json>, n: nat, keys: seq<string>, at: seq<nat>, key: string)
    requires n < |rows| && KeysInOrder(codec, rows, n, keys, at)
    requires key != "" && FieldShows(codec, rows[n], "nodeKey", key)
    ensures KeysInOrder(codec, rows, n + 1, keys + [key], at + [n])
  {
    hide FieldShows;
    var more, ats := keys + [key], at + [n];
    assert forall k :: 0 <= k < |at| ==> more[k] == keys[k] && ats[k] == at[k];
    assert more[|at|] == key && ats[|at|] == n;
  }

  lemma {:induction false} KeysAreRows(codec: Codec, rows: seq<Json>, n: nat) returns (at: seq<nat>)
    requires n <= |rows|
    ensures KeysInOrder(codec, rows, n, KeysOf(codec, rows, n), at)
  {
    hide Field, FieldShows;
    at := [];
    if n != 0 {
      var before := KeysAreRows(codec, rows, n - 1);
      FieldIff(codec, rows[n - 1], "nodeKey");
      at := before;
      var key := Field(codec, rows[n - 1], "nodeKey");
      if key != "" {
        at := before + [n - 1];
        KeysMore(codec, rows, n - 1, KeysOf(codec, rows, n - 1), before, key);
      }
    }
  }

  lemma {:induction false} EdgesFollowRows(codec: Codec, rows: seq<Json>, n: nat) returns (at: seq<nat>)
    requires n <= |rows|
    ensures EdgesInOrder(codec, rows, n, EdgesOf(codec, rows, n), at)
  {
    hide Field;
    at := [];
    if n != 0 {
      var before := EdgesFollowRows(codec, rows, n - 1);
      at := before;
      if Field(codec, rows[n - 1], "sourceKey") != "" && Field(codec, rows[n - 1], "targetKey") != "" {
        at := before + [n - 1];
        assert at[|before|] == n - 1;
      }
    }
  }

  /** A key's row is the last one that has it. */
  lemma {:induction false} RowIsLast(codec: Codec, rows: seq<Json>, n: nat, key: string, row: Json)
    requires n <= |rows|
    ensures
      RowFor(codec, rows, n, key) == Some(row) <==>
      exists r :: 0 <= r < n && rows[r] == row && FieldShows(codec, row, "nodeKey", key) &&
                  forall q :: r < q < n ==> !FieldShows(codec, rows[q], "nodeKey", key)
  {
    if n != 0 { RowIsLast(codec, rows, n - 1, key, row); }
  }

  lemma {:induction false} KeyPerRow(codec: Codec, rows: seq<Json>, n: nat)
    requires n <= |rows| && KeyedRows(codec, rows)
    ensures |KeysOf(codec, rows, n)| == n
    ensures forall r :: 0 <= r < n ==> KeysOf(codec, rows, n)[r] == Field(codec, rows[r], "nodeKey")
  {
    if n != 0 { KeyPerRow(codec, rows, n - 1); }
  }

  lemma {:induction false} OwnRow(codec: Codec, rows: seq<Json>, n: nat, r: nat)
    requires r < n <= |rows| && KeyedRows(codec, rows)
    ensures RowFor(codec, rows, n, Field(codec, rows[r], "nodeKey")) == Some(rows[r])
  {
    if n - 1 != r { OwnRow(codec, rows, n - 1, r); }
  }

  /** The nodes that loading produced from these rows, as BuildWorkflow promises them. */
  ghost predicate Loaded(codec: Codec, nodeRows: seq<Json>, paramRows: seq<Json>, edgeRows: seq<Json>, nodes: seq<WfNode>) {
    BuiltInOrder(codec, nodeRows, paramRows,
                 OrderOf(KeysOf(codec, nodeRows, |nodeRows|), EdgesOf(codec, edgeRows, |edgeRows|)), nodes)
  }

  lemma {:induction false} Positions(keys: seq<string>, order: seq<string>, n: nat) returns (at: seq<nat>)
    requires n <= |keys| && multiset(order) == multiset(keys)
    ensures |at| == n
    ensures forall r :: 0 <= r < n ==> at[r] < |order| && order[at[r]] == keys[r]
  {
    at := [];
    if n != 0 {
      at := Positions(keys, order, n - 1);
      assert keys[n - 1] in multiset(keys);
      var i :| 0 <= i < |order| && order[i] == keys[n - 1];
      at := at + [i];
    }
  }

  /** One node per row: `at[r]` is where row r's node stands, and no two rows share a place. */
  lemma OneNodePerRow(codec: Codec, nodeRows: seq<Json>, paramRows: seq<Json>, edgeRows: seq<Json>, nodes: seq<WfNode>)
    returns (at: seq<nat>)
    requires KeyedRows(codec, nodeRows)
    requires Loaded(codec, nodeRows, paramRows, edgeRows, nodes)
    ensures |at| == |nodes| == |nodeRows|
    ensures forall r :: 0 <= r < |at| ==> at[r] < |nodes| && BuiltFrom(codec, paramRows, nodeRows[r], nodes[at[r]])
    ensures forall r, s :: 0 <= r < s < |at| ==> at[r] != at[s]
  {
    var keys, edges := KeysOf(codec, nodeRows, |nodeRows|), EdgesOf(codec, edgeRows, |edgeRows|);
    var order := OrderOf(keys, edges);
    KeyPerRow(codec, nodeRows, |nodeRows|);
    OrderIsPermutation(keys, edges);
    hide KeysOf, EdgesOf, OrderOf, BuiltFrom;
    assert |order| == |multiset(order)| == |multiset(keys)|;
    at := Positions(keys, order, |keys|);
    forall r | 0 <= r < |at|
      ensures BuiltFrom(codec, paramRows, nodeRows[r], nodes[at[r]])
    {
      OwnRow(codec, nodeRows, |nodeRows|, r);
      assert BuiltAt(codec, nodeRows, paramRows, order[at[r]], nodes[at[r]]);
    }
  }

  /** Row `p` is the last one that sets `name` for `id`. */
  ghost predicate LastSetting(codec: Codec, rows: seq<Json>, n: nat, p: nat, id: string, name: string)
    requires n <= |rows|
  {
    p < n && Sets(codec, rows[p], id, name) && forall q :: p < q < n ==> !Sets(codec, rows[q], id, name)
  }

  lemma {:induction false} LastSettingWins(codec: Codec, rows: seq<Json>, n: nat, p: nat, id: string, name: string)
    requires n <= |rows| && LastSetting(codec, rows, n, p, id, name)
    ensures LastValue(codec, rows, n, id, name) == Some(Decoded(codec, rows[p]))
  {
    if p != n - 1 { LastSettingWins(codec, rows, n - 1, p, id, name); }
  }

  lemma {:induction false} LastSettingExists(codec: Codec, rows: seq<Json>, n: nat, q: nat, id: string, name: string) returns (p: nat)
    requires q < n <= |rows| && Sets(codec, rows[q], id, name)
    ensures LastSetting(codec, rows, n, p, id, name)
  {
    if Sets(codec, rows[n - 1], id, name) {
      p := n - 1;
    } else {
      p := LastSettingExists(codec, rows, n - 1, q, id, name);
    }
  }

  lemma {:induction false} LastValueOrigin(codec: Codec, rows: seq<Json>, n: nat, id: string, name: string) returns (q: nat)
    requires n <= |rows| && LastValue(codec, rows, n, id, name).Some?
    ensures q < n && Sets(codec, rows[q], id, name)
  {
    if Sets(codec, rows[n - 1], id, name) {
      q := n - 1;
    } else {
      q := LastValueOrigin(codec, rows, n - 1, id, name);
    }
  }

  /** Regrouping conserves parameters. A node has a parameter exactly when some row with its id sets it, and
      then its value is the one of the last such row; "outputs" is never among them. */
  lemma ParametersConserved(codec: Codec, paramRows: seq<Json>, row: Json, node: WfNode, name: string)
    requires BuiltFrom(codec, paramRows, row, node)
    ensures var id, m := Field(codec, row, "id"), node.parameters.fields;
            if name != "outputs" && exists q :: 0 <= q < |paramRows| && Sets(codec, paramRows[q], id, name)
            then exists p: nat :: LastSetting(codec, paramRows, |paramRows|, p, id, name) &&
                                  name in m && Carries(codec, paramRows[p], m[name])
            else name !in m
  {
    var id, m, n := Field(codec, row, "id"), node.parameters.fields, |paramRows|;
    assert (if name in m then Some(m[name]) else None) ==
           (if name == "outputs" then None else LastValue(codec, paramRows, n, id, name));
    if q :| 0 <= q < n && Sets(codec, paramRows[q], id, name) {
      var p := LastSettingExists(codec, paramRows, n, q, id, name);
      LastSettingWins(codec, paramRows, n, p, id, name);
      if name != "outputs" { DecodedIff(codec, paramRows[p], m[name]); }
    } else if LastValue(codec, paramRows, n, id, name).Some? {
      var q := LastValueOrigin(codec, paramRows, n, id, name);
    }
  }

  /** Row `p` is the last "outputs" row for `id` whose value is an object. */
  ghost predicate LastOutputsRow(codec: Codec, rows: seq<Json>, n: nat, p: nat, id: string)
    requires n <= |rows|
  {
    && p < n && Sets(codec, rows[p], id, "outputs") && Decoded(codec, rows[p]).Obj?
    && forall q :: p < q < n && Sets(codec, rows[q], id, "outputs") ==> !Decoded(codec, rows[q]).Obj?
  }

  lemma {:induction false} LastOutputsOrigin(codec: Codec, rows: seq<Json>, n: nat, id: string)
    requires n <= |rows|
    ensures
      match LastOutputs(codec, rows, n, id)
      case None => forall q :: 0 <= q < n && Sets(codec, rows[q], id, "outputs") ==> !Decoded(codec, rows[q]).Obj?
      case Some(o) => exists p: nat :: LastOutputsRow(codec, rows, n, p, id) && o == Decoded(codec, rows[p])
  {
    hide Sets, Decoded;
    if n != 0 {
      LastOutputsOrigin(codec, rows, n - 1, id);
      if Sets(codec, rows[n - 1], id, "outputs") && Decoded(codec, rows[n - 1]).Obj? {
        assert LastOutputsRow(codec, rows, n, n - 1, id);
      } else if LastOutputs(codec, rows, n - 1, id).Some? {
        var p: nat :| LastOutputsRow(codec, rows, n - 1, p, id) && LastOutputs(codec, rows, n - 1, id).value == Decoded(codec, rows[p]);
        assert LastOutputsRow(codec, rows, n, p, id);
      }
    }
  }

  /** A node's outputs are the last object some "outputs" row gave its id, or empty when none did. */
  lemma OutputsConserved(codec: Codec, paramRows: seq<Json>, row: Json, node: WfNode)
    requires BuiltFrom(codec, paramRows, row, node)
    ensures
      var id, n := Field(codec, row, "id"), |paramRows|;
      || (exists p: nat :: LastOutputsRow(codec, paramRows, n, p, id) && node.outputs == Decoded(codec, paramRows[p]))
      || (node.outputs == Obj(map[]) &&
          forall q :: 0 <= q < n && Sets(codec, paramRows[q], id, "outputs") ==> !Decoded(codec, paramRows[q]).Obj?)
  {
    LastOutputsOrigin(codec, paramRows, |paramRows|, Field(codec, row, "id"));
  }

  /** With distinct row ids, a parameter row lands on exactly the node of the row it names, if there is one. */
  lemma ParameterLandsOnce(codec: Codec, nodeRows: seq<Json>, paramRows: seq<Json>, edgeRows: seq<Json>, nodes: seq<WfNode>,
                           p: nat, name: string, r: nat)
    returns (i: nat)
    requires KeyedRows(codec, nodeRows)
    requires forall r, s :: 0 <= r < s < |nodeRows| ==> Field(codec, nodeRows[r], "id") != Field(codec, nodeRows[s], "id")
    requires Loaded(codec, nodeRows, paramRows, edgeRows, nodes)
    requires r < |nodeRows| && name != "outputs"
    requires LastSetting(codec, paramRows, |paramRows|, p, Field(codec, nodeRows[r], "id"), name)
    ensures i < |nodes| && nodes[i].id == Field(codec, nodeRows[r], "nodeKey")
    ensures nodes[i].parameters.Obj? && name in nodes[i].parameters.fields
    ensures nodes[i].parameters.fields[name] == Decoded(codec, paramRows[p])
    ensures forall s :: 0 <= s < |nodeRows| && s != r ==> !Sets(codec, paramRows[p], Field(codec, nodeRows[s], "id"), name)
  {
    var at := OneNodePerRow(codec, nodeRows, paramRows, edgeRows, nodes);
    i := at[r];
    var m := nodes[i].parameters.fields;
    LastSettingWins(codec, paramRows, |paramRows|, p, Field(codec, nodeRows[r], "id"), name);
    assert (if name in m then Some(m[name]) else None) ==
           LastValue(codec, paramRows, |paramRows|, Field(codec, nodeRows[r], "id"), name);
  }

  // ---------------------------------------------------------------------
  // Running
  // ---------------------------------------------------------------------

  /** Node `u` stands before node `k` and has run to normal completion, or is of a type nobody registered. */
  ghost predicate RanBefore<C>(steps: map<string, Step<C>>, nodes: seq<WfNode>, log: seq<Entry>, k: nat, u: string) {
    exists j :: 0 <= j < k && j < |nodes| && j < |log| && nodes[j].id == u &&
                log[j] == if nodes[j].kind in steps then Succeeded else Skipped
  }

  /** In terms of rows, an arc is an edge row between the keys of two node rows. */
  lemma ArcsAreRows(codec: Codec, nodeRows: seq<Json>, edgeRows: seq<Json>, u: string, v: string)
    requires KeyedRows(codec, nodeRows)
    ensures
      Arc(KeysOf(codec, nodeRows, |nodeRows|), EdgesOf(codec, edgeRows, |edgeRows|), u, v) <==>
      && (exists r :: 0 <= r < |nodeRows| && Field(codec, nodeRows[r], "nodeKey") == u)
      && (exists r :: 0 <= r < |nodeRows| && Field(codec, nodeRows[r], "nodeKey") == v)
      && (exists r :: 0 <= r < |edgeRows| && NamesEdge(codec, edgeRows[r], u, v))
  {
    KeyPerRow(codec, nodeRows, |nodeRows|);
    EdgesAreRows(codec, edgeRows, |edgeRows|, u, v);
    hide KeysOf, EdgesOf, Field, NamesEdge;
    var keys := KeysOf(codec, nodeRows, |nodeRows|);
    forall k
      ensures k in keys <==> exists r :: 0 <= r < |nodeRows| && Field(codec, nodeRows[r], "nodeKey") == k
    {
      if r :| 0 <= r < |nodeRows| && Field(codec, nodeRows[r], "nodeKey") == k { assert keys[r] == k; }
    }
  }

  lemma PredecessorsStandFirst(codec: Codec, nodeRows: seq<Json>, paramRows: seq<Json>, edgeRows: seq<Json>,
                               nodes: seq<WfNode>, k: nat, u: string)
    returns (j: nat)
    requires KeyedRows(codec, nodeRows)
    requires Acyclic(KeysOf(codec, nodeRows, |nodeRows|), EdgesOf(codec, edgeRows, |edgeRows|))
    requires Loaded(codec, nodeRows, paramRows, edgeRows, nodes)
    requires k < |nodes|
    requires Arc(KeysOf(codec, nodeRows, |nodeRows|), EdgesOf(codec, edgeRows, |edgeRows|), u, nodes[k].id)
    ensures j < k && nodes[j].id == u
  {
    var keys, edges := KeysOf(codec, nodeRows, |nodeRows|), EdgesOf(codec, edgeRows, |edgeRows|);
    var order := OrderOf(keys, edges);
    KeyPerRow(codec, nodeRows, |nodeRows|);
    DistinctIsTame(keys, edges);
    OrderIsTopological(keys, edges);
    hide KeysOf, EdgesOf, OrderOf, BuiltFrom, Arc;
    assert BuiltAt(codec, nodeRows, paramRows, order[k], nodes[k]);
    assert u in order[..k];
    j :| 0 <= j < k && order[j] == u;
    assert BuiltAt(codec, nodeRows, paramRows, order[j], nodes[j]);
  }

  function Ids(nodes: seq<WfNode>): seq<string> {
    seq(|nodes|, i requires 0 <= i < |nodes| => nodes[i].id)
  }

  /** On an acyclic graph the nodes stand in the one order that `QueueOrder` allows. */
  lemma NodesInQueueOrder(codec: Codec, nodeRows: seq<Json>, paramRows: seq<Json>, edgeRows: seq<Json>, nodes: seq<WfNode>)
    requires KeyedRows(codec, nodeRows)
    requires Acyclic(KeysOf(codec, nodeRows, |nodeRows|), EdgesOf(codec, edgeRows, |edgeRows|))
    requires Loaded(codec, nodeRows, paramRows, edgeRows, nodes)
    ensures QueueOrder(KeysOf(codec, nodeRows, |nodeRows|), EdgesOf(codec, edgeRows, |edgeRows|), Ids(nodes))
  {
    hide *;
    var keys, edges := KeysOf(codec, nodeRows, |nodeRows|), EdgesOf(codec, edgeRows, |edgeRows|);
    KeysAreDistinct(codec, nodeRows);
    DistinctIsTame(keys, edges);
    OrderIsDetermined(keys, edges, Ids(nodes));
    NodesCarryKeys(codec, nodeRows, paramRows, edgeRows, nodes);
  }

  lemma KeysAreDistinct(codec: Codec, nodeRows: seq<Json>)
    requires KeyedRows(codec, nodeRows)
    ensures Distinct(KeysOf(codec, nodeRows, |nodeRows|))
  {
    KeyPerRow(codec, nodeRows, |nodeRows|);
    hide KeysOf, Field;
  }

  lemma NodesCarryKeys(codec: Codec, nodeRows: seq<Json>, paramRows: seq<Json>, edgeRows: seq<Json>, nodes: seq<WfNode>)
    requires Loaded(codec, nodeRows, paramRows, edgeRows, nodes)
    ensures Ids(nodes) == OrderOf(KeysOf(codec, nodeRows, |nodeRows|), EdgesOf(codec, edgeRows, |edgeRows|))
  {
    hide KeysOf, EdgesOf, OrderOf, BuiltFrom;
    var order := OrderOf(KeysOf(codec, nodeRows, |nodeRows|), EdgesOf(codec, edgeRows, |edgeRows|));
    assert forall i :: 0 <= i < |nodes| ==> BuiltAt(codec, nodeRows, paramRows, order[i], nodes[i]);
  }

  /** Whenever a run of a loaded workflow reaches a node, every predecessor of a registered type has already
      run to normal completion. */
  lemma PredecessorsRanFirst<C>(steps: map<string, Step<C>>, codec: Codec, w: World<C>, nodeRows: seq<Json>,
                                paramRows: seq<Json>, edgeRows: seq<Json>, nodes: seq<WfNode>, k: nat, u: string)
    requires KeyedRows(codec, nodeRows)
    requires Acyclic(KeysOf(codec, nodeRows, |nodeRows|), EdgesOf(codec, edgeRows, |edgeRows|))
    requires Loaded(codec, nodeRows, paramRows, edgeRows, nodes)
    requires k < |nodes| && k < |RunFrom(steps, codec, nodes, 0, w).log|
    requires Arc(KeysOf(codec, nodeRows, |nodeRows|), EdgesOf(codec, edgeRows, |edgeRows|), u, nodes[k].id)
    ensures RanBefore(steps, nodes, RunFrom(steps, codec, nodes, 0, w).log, k, u)
  {
    var j := PredecessorsStandFirst(codec, nodeRows, paramRows, edgeRows, nodes, k, u);
    EarlierNodesRan(steps, codec, nodes, w, k, j);
    hide KeysOf, EdgesOf, Loaded, Arc, RunFrom, Acyclic, KeyedRows;
  }
}
