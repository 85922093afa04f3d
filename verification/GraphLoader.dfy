/** Rebuilding a workflow from its rows: parameters regrouped per node, nodes in graph order. */
module GraphLoader {
  import opened Text
  import opened Json
  import opened GraphOrder

  /** A row's field as text: missing or null is empty, anything not a string is dumped. */
  function Field(codec: Codec, row: Json, key: string): string {
    if !row.Obj? || key !in row.fields || row.fields[key].Null? then ""
    else if row.fields[key].Str? then row.fields[key].s
    else codec.dump(row.fields[key])
  }

  /** The type column decides how a stored value is read; unreadable text stays text. */
  function DecodeParam(codec: Codec, value: string, kind: string): Json {
    if kind == "number" then
      match codec.number(value)
      case Some(n) => Num(n)
      case None => Str(value)
    else if kind == "boolean" then Bool(value == "true")
    else if kind == "json" then
      match codec.parse(value)
      case Some(j) => j
      case None => Str(value)
    else Str(value)
  }

  function Decoded(codec: Codec, row: Json): Json {
    DecodeParam(codec, Field(codec, row, "value"), Field(codec, row, "valueType"))
  }

  /** The row carries a value called `name` for the node row `id`. */
  predicate Sets(codec: Codec, row: Json, id: string, name: string) {
    id != "" && name != "" && Field(codec, row, "nodeId") == id && Field(codec, row, "name") == name
  }

  // ---------------------------------------------------------------------
  // Which workflow a form's submission runs
  // ---------------------------------------------------------------------

  predicate IsDraft(row: Json) {
    row.Obj? && "isPublished" in row.fields && row.fields["isPublished"] == Bool(false)
  }

  function FormNameOf(row: Json): string {
    if row.Obj? && "formName" in row.fields && row.fields["formName"].Str? then row.fields["formName"].s else ""
  }

  /** A published row that names this very form. */
  predicate NamesForm(row: Json, form: string) {
    !IsDraft(row) && FormNameOf(row) != "" && FormNameOf(row) == form
  }

  /** A published row that names no form, and so answers any. */
  predicate AnswersAny(row: Json) {
    !IsDraft(row) && FormNameOf(row) == "" && !row.Null?
  }

  /** The first row that names the form; failing that, the first that answers any; failing that, null. */
  method BestForForm(rows: seq<Json>, form: string) returns (best: Json)
    ensures forall i :: 0 <= i < |rows| && NamesForm(rows[i], form) && (forall k :: 0 <= k < i ==> !NamesForm(rows[k], form))
              ==> best == rows[i]
    ensures (forall i :: 0 <= i < |rows| ==> !NamesForm(rows[i], form)) ==>
              && (forall i :: 0 <= i < |rows| && AnswersAny(rows[i]) && (forall k :: 0 <= k < i ==> !AnswersAny(rows[k]))
                    ==> best == rows[i])
              && ((forall i :: 0 <= i < |rows| ==> !AnswersAny(rows[i])) ==> best == Null)
  {
    var anyForm := Null;
    for i := 0 to |rows|
      invariant forall k :: 0 <= k < i ==> !NamesForm(rows[k], form)
      invariant anyForm.Null? <==> forall k :: 0 <= k < i ==> !AnswersAny(rows[k])
      invariant forall j :: 0 <= j < i && AnswersAny(rows[j]) && (forall k :: 0 <= k < j ==> !AnswersAny(rows[k]))
                  ==> anyForm == rows[j]
    {
      var row := rows[i];
      if IsDraft(row) { continue; }
      var wants := FormNameOf(row);
      if wants != "" && wants == form { return row; }
      if wants == "" && anyForm.Null? { anyForm := row; }
    }
    return anyForm;
  }

  // ---------------------------------------------------------------------
  // What the regrouped parameters are, one node and one name at a time
  // ---------------------------------------------------------------------

  /** The last decoded value for `name` among the first `n` rows that carry `id`. */
  function LastValue(codec: Codec, rows: seq<Json>, n: nat, id: string, name: string): Option<Json>
    requires n <= |rows|
  {
    if n == 0 then None
    else if Sets(codec, rows[n - 1], id, name) then Some(Decoded(codec, rows[n - 1]))
    else LastValue(codec, rows, n - 1, id, name)
  }

  /** The last "outputs" value that is an object. */
  function LastOutputs(codec: Codec, rows: seq<Json>, n: nat, id: string): Option<Json>
    requires n <= |rows|
  {
    if n == 0 then None
    else if Sets(codec, rows[n - 1], id, "outputs") && Decoded(codec, rows[n - 1]).Obj?
    then Some(Decoded(codec, rows[n - 1]))
    else LastOutputs(codec, rows, n - 1, id)
  }

  /** `m` holds, under every name but "outputs", exactly the last value some row gave it for `id`. */
  ghost predicate ParametersOf(codec: Codec, rows: seq<Json>, n: nat, id: string, m: map<string, Json>)
    requires n <= |rows|
  {
    forall name :: (if name in m then Some(m[name]) else None) ==
                   (if name == "outputs" then None else LastValue(codec, rows, n, id, name))
  }

  // ---------------------------------------------------------------------
  // Loaded workflows
  // ---------------------------------------------------------------------

  datatype WfNode = WfNode(id: string, kind: string, parameters: Json, outputs: Json)

  datatype LoadedWorkflow = LoadedWorkflow(id: string, name: string, nodes: seq<WfNode>)

  function KeysOf(codec: Codec, rows: seq<Json>, n: nat): seq<string>
    requires n <= |rows|
  {
    if n == 0 then []
    else
      var key, rest := Field(codec, rows[n - 1], "nodeKey"), KeysOf(codec, rows, n - 1);
      if key == "" then rest else rest + [key]
  }

  function EdgesOf(codec: Codec, rows: seq<Json>, n: nat): seq<Edge>
    requires n <= |rows|
  {
    if n == 0 then []
    else
      var from, to := Field(codec, rows[n - 1], "sourceKey"), Field(codec, rows[n - 1], "targetKey");
      var rest := EdgesOf(codec, rows, n - 1);
      if from == "" || to == "" then rest else rest + [(from, to)]
  }

  /** The last of the first `n` rows with this key. */
  function RowFor(codec: Codec, rows: seq<Json>, n: nat, key: string): Option<Json>
    requires n <= |rows|
  {
    if n == 0 then None
    else if Field(codec, rows[n - 1], "nodeKey") == key then Some(rows[n - 1])
    else RowFor(codec, rows, n - 1, key)
  }

  /** The node built for one row: its own parameters, its own outputs, nobody else's. */
  ghost predicate BuiltFrom(codec: Codec, paramRows: seq<Json>, row: Json, node: WfNode) {
    var id := Field(codec, row, "id");
    && node.id == Field(codec, row, "nodeKey")
    && node.kind == Field(codec, row, "type")
    && node.parameters.Obj?
    && ParametersOf(codec, paramRows, |paramRows|, id, node.parameters.fields)
    && node.outputs == match LastOutputs(codec, paramRows, |paramRows|, id) {
                         case Some(o) => o
                         case None => Obj(map[])
                       }
  }

  /** An edge row that names both its ends. */
  predicate NamesEdge(codec: Codec, row: Json, from: string, to: string) {
    from != "" && to != "" && Field(codec, row, "sourceKey") == from && Field(codec, row, "targetKey") == to
  }

  /** The edges are exactly those that some row names. */
  lemma {:induction false} EdgesAreRows(codec: Codec, rows: seq<Json>, n: nat, from: string, to: string)
    requires n <= |rows|
    ensures (from, to) in EdgesOf(codec, rows, n) <==> exists r :: 0 <= r < n && NamesEdge(codec, rows[r], from, to)
  {
    if n != 0 {
      EdgesAreRows(codec, rows, n - 1, from, to);
      assert NamesEdge(codec, rows[n - 1], from, to) <==>
             from != "" && to != "" && (from, to) == (Field(codec, rows[n - 1], "sourceKey"), Field(codec, rows[n - 1], "targetKey"));
    }
  }

  method Regroup(codec: Codec, rows: seq<Json>)
    returns (params: map<string, map<string, Json>>, outputs: map<string, Json>)
    ensures forall id :: ParametersOf(codec, rows, |rows|, id, if id in params then params[id] else map[])
    ensures forall id :: (if id in outputs then Some(outputs[id]) else None) == LastOutputs(codec, rows, |rows|, id)
  {
    params, outputs := map[], map[];
    for i := 0 to |rows|
      invariant forall id :: ParametersOf(codec, rows, i, id, if id in params then params[id] else map[])
      invariant forall id :: (if id in outputs then Some(outputs[id]) else None) == LastOutputs(codec, rows, i, id)
    {
      var nodeId := Field(codec, rows[i], "nodeId");
      var name := Field(codec, rows[i], "name");
      if nodeId == "" || name == "" { continue; }
      var value := Decoded(codec, rows[i]);
      if name == "outputs" {
        if value.Obj? { outputs := outputs[nodeId := value]; }
        continue;
      }
      if nodeId !in params { params := params[nodeId := map[]]; }
      params := params[nodeId := params[nodeId][name := value]];
    }
  }

  method CollectKeys(codec: Codec, rows: seq<Json>) returns (keys: seq<string>, rowByKey: map<string, Json>)
    ensures keys == KeysOf(codec, rows, |rows|)
    ensures forall k :: k in keys ==> k in rowByKey && RowFor(codec, rows, |rows|, k) == Some(rowByKey[k])
  {
    keys, rowByKey := [], map[];
    for i := 0 to |rows|
      invariant keys == KeysOf(codec, rows, i) && "" !in keys
      invariant forall k :: k in keys ==> k in rowByKey && RowFor(codec, rows, i, k) == Some(rowByKey[k])
    {
      var key := Field(codec, rows[i], "nodeKey");
      if key == "" { continue; }
      keys := keys + [key];
      rowByKey := rowByKey[key := rows[i]];
    }
  }

  method CollectEdges(codec: Codec, rows: seq<Json>) returns (edges: seq<Edge>)
    ensures edges == EdgesOf(codec, rows, |rows|)
  {
    edges := [];
    for i := 0 to |rows|
      invariant edges == EdgesOf(codec, rows, i)
    {
      var from, to := Field(codec, rows[i], "sourceKey"), Field(codec, rows[i], "targetKey");
      if from != "" && to != "" { edges := edges + [(from, to)]; }
    }
  }

  ghost predicate BuiltAt(codec: Codec, nodeRows: seq<Json>, paramRows: seq<Json>, key: string, node: WfNode) {
    var row := RowFor(codec, nodeRows, |nodeRows|, key);
    node.id == key && row.Some? && BuiltFrom(codec, paramRows, row.value, node)
  }

  /** The nodes of the workflow in graph order, each built from the row that carries its key. */
  ghost predicate BuiltInOrder(codec: Codec, nodeRows: seq<Json>, paramRows: seq<Json>, order: seq<string>, nodes: seq<WfNode>) {
    && |nodes| == |order|
    && forall i :: 0 <= i < |nodes| ==> BuiltAt(codec, nodeRows, paramRows, order[i], nodes[i])
  }

  method MakeNode(codec: Codec, ghost nodeRows: seq<Json>, ghost paramRows: seq<Json>, key: string, row: Json,
                  params: map<string, map<string, Json>>, outputs: map<string, Json>)
    returns (node: WfNode)
    requires RowFor(codec, nodeRows, |nodeRows|, key) == Some(row)
    requires forall id :: ParametersOf(codec, paramRows, |paramRows|, id, if id in params then params[id] else map[])
    requires forall id :: (if id in outputs then Some(outputs[id]) else None) ==
                          LastOutputs(codec, paramRows, |paramRows|, id)
    ensures node.id == key && BuiltFrom(codec, paramRows, row, node)
  {
    RowForHasKey(codec, nodeRows, |nodeRows|, key);
    var nodeId := Field(codec, row, "id");
    node := WfNode(key, Field(codec, row, "type"),
                   if nodeId in params then Obj(params[nodeId]) else Obj(map[]),
                   if nodeId in outputs then outputs[nodeId] else Obj(map[]));
  }

  method MakeNodes(codec: Codec, ghost nodeRows: seq<Json>, ghost paramRows: seq<Json>, order: seq<string>,
                   rowByKey: map<string, Json>, params: map<string, map<string, Json>>, outputs: map<string, Json>)
    returns (nodes: seq<WfNode>)
    requires forall k :: k in order ==> k in rowByKey && RowFor(codec, nodeRows, |nodeRows|, k) == Some(rowByKey[k])
    requires forall id :: ParametersOf(codec, paramRows, |paramRows|, id, if id in params then params[id] else map[])
    requires forall id :: (if id in outputs then Some(outputs[id]) else None) ==
                          LastOutputs(codec, paramRows, |paramRows|, id)
    ensures BuiltInOrder(codec, nodeRows, paramRows, order, nodes)
  {
    nodes := [];
    for i := 0 to |order|
      invariant |nodes| == i
      invariant forall j :: 0 <= j < i ==> BuiltAt(codec, nodeRows, paramRows, order[j], nodes[j])
    {
      var node := MakeNode(codec, nodeRows, paramRows, order[i], rowByKey[order[i]], params, outputs);
      nodes := nodes + [node];
    }
  }

  /** The rows are what the client's three queries returned; a failed query returns none. */
  method BuildWorkflow(codec: Codec, chosen: Json, nodeRows: seq<Json>, paramRows: seq<Json>, edgeRows: seq<Json>)
    returns (result: Option<LoadedWorkflow>)
    ensures result.None? <==> chosen.Null? || Field(codec, chosen, "id") == "" || nodeRows == []
    ensures result.Some? ==>
              && result.value.id == Field(codec, chosen, "id")
              && result.value.name == Field(codec, chosen, "name")
              && BuiltInOrder(codec, nodeRows, paramRows,
                              OrderOf(KeysOf(codec, nodeRows, |nodeRows|), EdgesOf(codec, edgeRows, |edgeRows|)),
                              result.value.nodes)
  {
    if chosen.Null? { return None; }
    var id, name := Field(codec, chosen, "id"), Field(codec, chosen, "name");
    if id == "" { return None; }
    if nodeRows == [] { return None; }
    var params, outputs := Regroup(codec, paramRows);
    var keys, rowByKey := CollectKeys(codec, nodeRows);
    var edges := CollectEdges(codec, edgeRows);
    var order := TopologicalOrder(keys, edges);
    OrderKeepsKeys(keys, edges);
    var nodes := MakeNodes(codec, nodeRows, paramRows, order, rowByKey, params, outputs);
    return Some(LoadedWorkflow(id, name, nodes));
  }

  lemma {:induction false} RowForHasKey(codec: Codec, rows: seq<Json>, n: nat, key: string)
    requires n <= |rows| && RowFor(codec, rows, n, key).Some?
    ensures Field(codec, RowFor(codec, rows, n, key).value, "nodeKey") == key
  {
    if Field(codec, rows[n - 1], "nodeKey") != key { RowForHasKey(codec, rows, n - 1, key); }
  }

  /** Whatever the graph, the order only ever holds keys it was given. */
  lemma OrderKeepsKeys(keys: seq<string>, edges: seq<Edge>)
    ensures forall k :: k in OrderOf(keys, edges) ==> k in keys
  {
    var d := Degrees(keys, edges);
    OutOfClosed(keys, edges);
    SeedsFrom(keys, |keys|, d);
    DrainKnown(OutOf(keys, edges), d, Seeds(keys, |keys|, d), [], Known(keys));
  }

  lemma {:induction false} SeedsFrom(keys: seq<string>, n: nat, indegree: map<string, int>)
    requires n <= |keys|
    requires forall k :: k in keys ==> k in indegree
    ensures forall k :: k in Seeds(keys, n, indegree) ==> k in keys
  {
    if n != 0 { SeedsFrom(keys, n - 1, indegree); }
  }

  lemma {:induction false} FreedFrom(targets: seq<string>, j: nat, indegree: map<string, int>)
    requires j <= |targets|
    requires forall t :: t in targets ==> t in indegree
    ensures forall k :: k in Relax(targets, j, indegree).1 ==> k in targets
    decreases |targets| - j
  {
    if j < |targets| { FreedFrom(targets, j + 1, indegree[targets[j] := indegree[targets[j]] - 1]); }
  }

  lemma {:induction false} DrainKnown(out: map<string, seq<string>>, indegree: map<string, int>,
                                      ready: seq<string>, ordered: seq<string>, known: set<string>)
    requires ClosedOut(out, indegree) && indegree.Keys <= known
    requires forall k :: k in ready ==> k in known
    requires forall k :: k in ordered ==> k in known
    ensures forall k :: k in Drain(out, indegree, ready, ordered) ==> k in known
    decreases |Positive(indegree)| + |ready|
  {
    if ready != [] {
      var (m, freed) := Relax(Adjacent(out, ready[0]), 0, indegree);
      FreedFrom(Adjacent(out, ready[0]), 0, indegree);
      DrainKnown(out, m, ready[1..] + freed, ordered + [ready[0]], known);
    }
  }
}
