/** Bulk create, update and delete over the compensating store: one transaction around a loop of items, rolled
    back at the first item that fails. */
module BulkHandler {
  import opened Text
  import opened Json
  import opened CompensatingStore
  import opened RollbackTheorems
  import opened ElasticsearchAdapter

  /** What the caller is told: how many items were applied and their results, or an HTTP status. */
  datatype Response = Done(count: nat, data: seq<Json>) | Rejected(status: int)

  /** One element of the request array: an operation, or an element of the wrong shape. */
  datatype Item = Bad | Op(op: TxOp)

  // ---------------------------------------------------------------------
  // The three kinds of request
  // ---------------------------------------------------------------------

  /** The route's tenant goes into a new record that names none. */
  function Tenanted(tenant: string, data: Doc): Doc {
    if tenant != "" && "tenantId" !in data then data["tenantId" := Str(tenant)] else data
  }

  function CreateItem(entity: string, tenant: string, data: Doc): Item {
    Op(Create(entity, Tenanted(tenant, data)))
  }

  /** An element without "id" or "data" is None; an empty id is refused too. */
  function UpdateItem(entity: string, item: Option<(string, Doc)>): Item {
    if item.None? || item.value.0 == "" then Bad else Op(Update(entity, item.value.0, item.value.1))
  }

  /** An element that is not text is None. */
  function DeleteItem(entity: string, item: Option<string>): Item {
    if item.None? || item.value == "" then Bad else Op(Remove(entity, item.value))
  }

  function CreateItems(entity: string, tenant: string, body: seq<Doc>): seq<Item> {
    seq(|body|, i requires 0 <= i < |body| => CreateItem(entity, tenant, body[i]))
  }

  function UpdateItems(entity: string, body: seq<Option<(string, Doc)>>): seq<Item> {
    seq(|body|, i requires 0 <= i < |body| => UpdateItem(entity, body[i]))
  }

  function DeleteItems(entity: string, body: seq<Option<string>>): seq<Item> {
    seq(|body|, i requires 0 <= i < |body| => DeleteItem(entity, body[i]))
  }

  // ---------------------------------------------------------------------
  // What a request does
  // ---------------------------------------------------------------------

  /** What the response shows for an operation that succeeded: the stored record, or the id deleted. */
  function Reply(env: Env, w: World, op: TxOp): Json
    requires AfterOp(env, w, op).1
  {
    match op
    case Create(entity, data) => Obj(AfterCreate(env, w, entity, data).1.value)
    case Update(entity, id, data) => Obj(AfterUpdate(env, w, entity, id, data).1.value)
    case Remove(entity, id) => Str(id)
  }

  /** The first `n` items, up to the first that fails: the results so far, or None after a failure. */
  function RunItems(env: Env, w: World, items: seq<Item>, n: nat): (World, Option<seq<Json>>)
    requires n <= |items|
    decreases n
  {
    if n == 0 then (w, Some([]))
    else
      match RunItems(env, w, items, n - 1)
      case (w', None) => (w', None)
      case (w', Some(data)) => RunItem(env, w', items[n - 1], data)
  }

  function RunItem(env: Env, w: World, item: Item, data: seq<Json>): (World, Option<seq<Json>>) {
    match item
    case Bad => (w, None)
    case Op(op) =>
      var (w', ok) := AfterOp(env, w, op);
      (w', if ok then Some(data + [Reply(env, w, op)]) else None)
  }

  /** None is a body that is no array. */
  function AfterBulk(env: Env, w: World, body: Option<seq<Item>>): (World, Response) {
    if body.None? || body.value == [] then (w, Rejected(400))
    else
      var (begun, ok) := AfterBegin(w);
      if !ok then (begun, Rejected(500))
      else Finish(env, RunItems(env, begun, body.value, |body.value|))
  }

  function Finish(env: Env, run: (World, Option<seq<Json>>)): (World, Response) {
    match run.1
    case None => (AfterRollback(env, run.0).0, Rejected(400))
    case Some(data) =>
      var (end, ok) := AfterCommit(run.0);
      (end, if ok then Done(|data|, data) else Rejected(500))
  }

  lemma {:induction false} FailureStops(env: Env, w: World, items: seq<Item>, n: nat, m: nat)
    requires n <= m <= |items| && RunItems(env, w, items, n).1.None?
    ensures RunItems(env, w, items, m) == RunItems(env, w, items, n)
    decreases m
  {
    if n < m { FailureStops(env, w, items, n, m - 1); }
  }

  // ---------------------------------------------------------------------
  // The handlers
  // ---------------------------------------------------------------------

  method HandleBulkCreate(client: ElasticsearchAdapter, entity: string, tenant: string, body: Option<seq<Doc>>)
    returns (response: Response)
    requires client.Valid()
    modifies client, client.tx
    ensures client.Valid()
    ensures
      (client.Now(), response) ==
      AfterBulk(client.env, old(client.Now()),
                if body.None? then None else Some(CreateItems(entity, tenant, body.value)))
  {
    hide AfterCreate, AfterRollback;
    if body.None? { return Rejected(400); }
    if body.value == [] { return Rejected(400); }
    var begun := client.BeginTransaction();
    if !begun { return Rejected(500); }
    ghost var items := CreateItems(entity, tenant, body.value);
    ghost var start := client.Now();
    var inserted := 0;
    var results: seq<Json> := [];
    for i := 0 to |body.value|
      invariant client.Valid() && client.tx != null && client.tx.active
      invariant client.tx == old(client.tx) || fresh(client.tx)
      invariant inserted == i == |results|
      invariant (client.Now(), Some(results)) == RunItems(client.env, start, items, i)
    {
      var item := body.value[i];
      if tenant != "" && "tenantId" !in item { item := item["tenantId" := Str(tenant)]; }
      var result := client.Create(entity, item);
      if result.Err? {
        FailureStops(client.env, start, items, i + 1, |items|);
        var _ := client.RollbackTransaction();
        return Rejected(400);
      }
      results := results + [Obj(result.value)];
      inserted := inserted + 1;
    }
    var committed := client.CommitTransaction();
    if !committed { return Rejected(500); }
    return Done(inserted, results);
  }

  method HandleBulkUpdate(client: ElasticsearchAdapter, entity: string, body: Option<seq<Option<(string, Doc)>>>)
    returns (response: Response)
    requires client.Valid()
    modifies client, client.tx
    ensures client.Valid()
    ensures
      (client.Now(), response) ==
      AfterBulk(client.env, old(client.Now()), if body.None? then None else Some(UpdateItems(entity, body.value)))
  {
    hide AfterUpdate, AfterRollback;
    if body.None? { return Rejected(400); }
    if body.value == [] { return Rejected(400); }
    var begun := client.BeginTransaction();
    if !begun { return Rejected(500); }
    ghost var items := UpdateItems(entity, body.value);
    ghost var start := client.Now();
    var updated := 0;
    var results: seq<Json> := [];
    for i := 0 to |body.value|
      invariant client.Valid() && client.tx != null && client.tx.active
      invariant client.tx == old(client.tx) || fresh(client.tx)
      invariant updated == i == |results|
      invariant (client.Now(), Some(results)) == RunItems(client.env, start, items, i)
    {
      if body.value[i].None? || body.value[i].value.0 == "" {
        FailureStops(client.env, start, items, i + 1, |items|);
        var _ := client.RollbackTransaction();
        return Rejected(400);
      }
      var (id, data) := body.value[i].value;
      var result := client.Update(entity, id, data);
      if result.Err? {
        FailureStops(client.env, start, items, i + 1, |items|);
        var _ := client.RollbackTransaction();
        return Rejected(400);
      }
      results := results + [Obj(result.value)];
      updated := updated + 1;
    }
    var committed := client.CommitTransaction();
    if !committed { return Rejected(500); }
    return Done(updated, results);
  }

  method HandleBulkDelete(client: ElasticsearchAdapter, entity: string, body: Option<seq<Option<string>>>)
    returns (response: Response)
    requires client.Valid()
    modifies client, client.tx
    ensures client.Valid()
    ensures
      (client.Now(), response) ==
      AfterBulk(client.env, old(client.Now()), if body.None? then None else Some(DeleteItems(entity, body.value)))
  {
    hide AfterRemove, AfterRollback;
    if body.None? { return Rejected(400); }
    if body.value == [] { return Rejected(400); }
    var begun := client.BeginTransaction();
    if !begun { return Rejected(500); }
    ghost var items := DeleteItems(entity, body.value);
    ghost var start := client.Now();
    var deleted := 0;
    var ids: seq<Json> := [];
    for i := 0 to |body.value|
      invariant client.Valid() && client.tx != null && client.tx.active
      invariant client.tx == old(client.tx) || fresh(client.tx)
      invariant deleted == i == |ids|
      invariant (client.Now(), Some(ids)) == RunItems(client.env, start, items, i)
    {
      if body.value[i].None? || body.value[i].value == "" {
        FailureStops(client.env, start, items, i + 1, |items|);
        var _ := client.RollbackTransaction();
        return Rejected(400);
      }
      var id := body.value[i].value;
      var result := client.Remove(entity, id);
      if result.Err? {
        FailureStops(client.env, start, items, i + 1, |items|);
        var _ := client.RollbackTransaction();
        return Rejected(400);
      }
      ids := ids + [Str(id)];
      deleted := deleted + 1;
    }
    var committed := client.CommitTransaction();
    if !committed { return Rejected(500); }
    return Done(deleted, ids);
  }

  // ---------------------------------------------------------------------
  // All or nothing
  // ---------------------------------------------------------------------

  /** The operations that were tried among the first `n` items: those up to the one that failed or was malformed. */
  function TriedOps(env: Env, w: World, items: seq<Item>, n: nat): seq<TxOp>
    requires n <= |items|
    decreases n
  {
    if n == 0 then []
    else
      var before := TriedOps(env, w, items, n - 1);
      if RunItems(env, w, items, n - 1).1.None? || items[n - 1].Bad? then before else before + [items[n - 1].op]
  }

  /** Every item is well formed, and its operation succeeds where its turn comes. */
  predicate AllSucceed(env: Env, w: World, items: seq<Item>) {
    && (forall i :: 0 <= i < |items| ==> items[i].Op?)
    && forall i :: 0 <= i < |items| ==> AfterOp(env, AfterOps(env, w, Ops(items), i), Ops(items)[i]).1
  }

  /** One result per item, in order: what its operation answered where its turn came. */
  ghost predicate Replies(env: Env, w: World, items: seq<Item>, data: seq<Json>)
    requires AllSucceed(env, w, items)
  {
    && |data| == |items|
    && forall i :: 0 <= i < |items| ==> data[i] == Reply(env, AfterOps(env, w, Ops(items), i), Ops(items)[i])
  }

  function Ops(items: seq<Item>): seq<TxOp>
    requires forall i :: 0 <= i < |items| ==> items[i].Op?
  {
    seq(|items|, i requires 0 <= i < |items| => items[i].op)
  }

  lemma {:induction false} OpsPrefix(env: Env, w: World, ops: seq<TxOp>, more: seq<TxOp>, n: nat)
    requires n <= |ops|
    ensures AfterOps(env, w, ops + more, n) == AfterOps(env, w, ops, n)
    decreases n
  {
    hide AfterOp;
    if n > 0 { OpsPrefix(env, w, ops, more, n - 1); }
  }

  lemma OpsSnoc(env: Env, w: World, ops: seq<TxOp>, op: TxOp)
    ensures AfterOps(env, w, ops + [op], |ops| + 1) == AfterOp(env, AfterOps(env, w, ops, |ops|), op).0
  {
    hide AfterOp;
    OpsPrefix(env, w, ops, [op], |ops|);
  }

  /** A run leaves what the operations it tried leave, one after the other. */
  lemma {:induction false} RunIsTried(env: Env, w: World, items: seq<Item>, n: nat)
    requires n <= |items|
    ensures
      var tried := TriedOps(env, w, items, n);
      && RunItems(env, w, items, n).0 == AfterOps(env, w, tried, |tried|)
      && forall op :: op in tried ==> Op(op) in items
    decreases n
  {
    hide AfterOp;
    if n > 0 {
      RunIsTried(env, w, items, n - 1);
      if RunItems(env, w, items, n - 1).1.Some? && items[n - 1].Op? {
        OpsSnoc(env, w, TriedOps(env, w, items, n - 1), items[n - 1].op);
      }
    }
  }

  /** A run that gets through is the operations one after the other; it gets through when they all succeed. */
  lemma {:induction false} RunIsOps(env: Env, w: World, items: seq<Item>, n: nat)
    requires n <= |items| && forall i :: 0 <= i < |items| ==> items[i].Op?
    ensures
      var (end, data) := RunItems(env, w, items, n);
      && (data.Some? <==> forall i :: 0 <= i < n ==> AfterOp(env, AfterOps(env, w, Ops(items), i), Ops(items)[i]).1)
      && (data.Some? ==>
           && end == AfterOps(env, w, Ops(items), n) && |data.value| == n
           && forall i :: 0 <= i < n ==> data.value[i] == Reply(env, AfterOps(env, w, Ops(items), i), Ops(items)[i]))
    decreases n
  {
    hide AfterOp, AfterOps, Ops, Reply;
    OpsUnfold(env, w, items, n);
    if n > 0 { RunIsOps(env, w, items, n - 1); }
  }

  lemma OpsUnfold(env: Env, w: World, items: seq<Item>, n: nat)
    requires n <= |items| && forall i :: 0 <= i < |items| ==> items[i].Op?
    ensures |Ops(items)| == |items|
    ensures AfterOps(env, w, Ops(items), 0) == w
    ensures n > 0 ==> Ops(items)[n - 1] == items[n - 1].op
    ensures
      n > 0 ==> AfterOps(env, w, Ops(items), n) == AfterOp(env, AfterOps(env, w, Ops(items), n - 1), items[n - 1].op).0
  {
  }

  lemma {:induction false} BadItemStops(env: Env, w: World, items: seq<Item>, i: nat)
    requires i < |items| && items[i].Bad?
    ensures RunItems(env, w, items, |items|).1.None?
  {
    FailureStops(env, w, items, i + 1, |items|);
  }

  /** Either every item's operation succeeds, and all are applied and counted, or no transaction is open and the store
      has the records it had, each with every field it had: exactly as it was if and only if no update that was tried
      added a field to a record in place. The undos must succeed; they do when the network holds from the first of
      them on. */
  lemma BulkIsAllOrNothing(env: Env, w: World, items: seq<Item>)
    requires items != [] && w.tx == None && SaysItsId(w.docs)
    requires AllFair(env, AfterBegin(w).0, TriedOps(env, AfterBegin(w).0, items, |items|))
    requires
      var (stopped, data) := RunItems(env, AfterBegin(w).0, items, |items|);
      data.None? ==> AfterRollback(env, stopped).1 || Quiet(env, stopped.calls)
    ensures
      var begun := AfterBegin(w).0;
      var (end, response) := AfterBulk(env, w, Some(items));
      && end.tx == None
      && if AllSucceed(env, begun, items) then
           && response.Done? && response.count == |items|
           && Replies(env, begun, items, response.data)
           && end.docs == AfterOps(env, begun, Ops(items), |items|).docs
         else
           && response == Rejected(400)
           && Extends(w.docs, end.docs)
           && (end.docs == w.docs <==> !AddsField(env, begun, TriedOps(env, begun, items, |items|)))
  {
    hide *;
    var begun := AfterBegin(w).0;
    var tried := TriedOps(env, begun, items, |items|);
    BeginOpens(w);
    RunIsTried(env, begun, items, |items|);
    StaysOpen(env, begun, tried);
    RunGetsThrough(env, begun, items);
    var run := RunItems(env, begun, items, |items|);
    BulkEnds(env, w, items);
    if run.1.None? {
      if Quiet(env, run.0.calls) { QuietRollbackSucceeds(env, w, tried); }
      RollbackRestores(env, w, tried);
    }
  }

  lemma BeginOpens(w: World)
    requires w.tx == None
    ensures AfterBegin(w).0.tx == Some([]) && AfterBegin(w).0.docs == w.docs
  {
  }

  lemma StaysOpen(env: Env, begun: World, ops: seq<TxOp>)
    requires begun.tx == Some([]) && SaysItsId(begun.docs) && AllFair(env, begun, ops)
    ensures AfterOps(env, begun, ops, |ops|).tx.Some?
  {
    hide SaysItsId, AllFair, AfterOps;
    OpsKeepRestorable(env, begun, ops, |ops|);
  }

  /** What a request that begins its transaction answers and leaves, given how its items ran. */
  lemma BulkEnds(env: Env, w: World, items: seq<Item>)
    requires items != [] && w.tx == None
    requires RunItems(env, AfterBegin(w).0, items, |items|).0.tx.Some?
    ensures
      var run := RunItems(env, AfterBegin(w).0, items, |items|);
      AfterBulk(env, w, Some(items)) ==
      match run.1 {
        case None => (AfterRollback(env, run.0).0, Rejected(400))
        case Some(data) => (run.0.(tx := None), Done(|data|, data))
      }
  {
    hide RunItems, AfterRollback;
  }

  lemma RunGetsThrough(env: Env, w: World, items: seq<Item>)
    ensures
      var (end, data) := RunItems(env, w, items, |items|);
      && (data.Some? <==> AllSucceed(env, w, items))
      && (data.Some? ==> end == AfterOps(env, w, Ops(items), |items|) && |data.value| == |items| && Replies(env, w, items, data.value))
  {
    hide AfterOp, Reply;
    if forall i :: 0 <= i < |items| ==> items[i].Op? {
      RunIsOps(env, w, items, |items|);
    } else {
      var i :| 0 <= i < |items| && items[i].Bad?;
      BadItemStops(env, w, items, i);
    }
  }

  /** Bulk create into free ids and bulk delete are exactly all or nothing. */
  lemma BulkCreateAndDeleteAreAtomic(env: Env, w: World, items: seq<Item>)
    requires items != [] && w.tx == None && SaysItsId(w.docs)
    requires forall i :: 0 <= i < |items| && items[i].Op? ==> !items[i].op.Update?
    requires AllFair(env, AfterBegin(w).0, TriedOps(env, AfterBegin(w).0, items, |items|))
    requires
      var (stopped, data) := RunItems(env, AfterBegin(w).0, items, |items|);
      data.None? ==> AfterRollback(env, stopped).1 || Quiet(env, stopped.calls)
    ensures
      var (end, response) := AfterBulk(env, w, Some(items));
      && end.tx == None
      && (response.Done? <==> AllSucceed(env, AfterBegin(w).0, items))
      && (response.Done? ==> response.count == |items|)
      && (response.Rejected? ==> end.docs == w.docs)
  {
    hide *;
    BulkIsAllOrNothing(env, w, items);
    var begun := AfterBegin(w).0;
    RunIsTried(env, begun, items, |items|);
    NoUpdateAddsNoField(env, begun, TriedOps(env, begun, items, |items|));
  }

  lemma NoUpdateAddsNoField(env: Env, w: World, ops: seq<TxOp>)
    requires forall op :: op in ops ==> !op.Update?
    ensures !AddsField(env, w, ops)
  {
    hide AfterOps, InPlace;
  }

  // ---------------------------------------------------------------------
  // From request bodies to what is stored
  // ---------------------------------------------------------------------

  /** `made` is `given`, with the route's tenant in it when there is one and `given` names none. */
  ghost predicate WithTenant(tenant: string, given: Doc, made: Doc) {
    && made.Keys == given.Keys + (if tenant == "" then {} else {"tenantId"})
    && (forall k :: k in given ==> made[k] == given[k])
    && ("tenantId" in made && "tenantId" !in given ==> made["tenantId"] == Str(tenant))
  }

  ghost predicate Creates(entity: string, tenant: string, given: Doc, item: Item) {
    item.Op? && item.op.Create? && item.op.entity == entity && WithTenant(tenant, given, item.op.data)
  }

  /** The element names an id, and the item is the operation on that record; or it does not, and the item is bad. */
  ghost predicate Updates(entity: string, given: Option<(string, Doc)>, item: Item) {
    match given
    case None => item == Bad
    case Some((id, data)) => item == if id == "" then Bad else Op(Update(entity, id, data))
  }

  ghost predicate Deletes(entity: string, given: Option<string>, item: Item) {
    match given
    case None => item == Bad
    case Some(id) => item == if id == "" then Bad else Op(Remove(entity, id))
  }

  /** Every element of a request becomes one item, at its own place: a create of just that document, the route's
      tenant added if it names none; an update or a delete of the record it names; or a bad item if it names none. */
  lemma ItemsAreRequests(entity: string, tenant: string, creates: seq<Doc>, updates: seq<Option<(string, Doc)>>,
                         deletes: seq<Option<string>>)
    ensures
      var items := CreateItems(entity, tenant, creates);
      |items| == |creates| && forall i :: 0 <= i < |items| ==> Creates(entity, tenant, creates[i], items[i])
    ensures
      var items := UpdateItems(entity, updates);
      |items| == |updates| && forall i :: 0 <= i < |items| ==> Updates(entity, updates[i], items[i])
    ensures
      var items := DeleteItems(entity, deletes);
      |items| == |deletes| && forall i :: 0 <= i < |items| ==> Deletes(entity, deletes[i], items[i])
  {
  }

  /** What the response shows of an operation that succeeded is what is then stored, or the id that is stored no more. */
  lemma ReplyIsStored(env: Env, w: World, op: TxOp)
    requires AfterOp(env, w, op).1
    ensures
      var docs := AfterOp(env, w, op).0.docs;
      match op
      case Create(entity, data) =>
        exists id :: GetsId(data, env.newId(w.calls), id) && PlaceOf(entity, id) in docs &&
                     Reply(env, w, op) == Obj(docs[PlaceOf(entity, id)])
      case Update(entity, id, _) => PlaceOf(entity, id) in docs && Reply(env, w, op) == Obj(docs[PlaceOf(entity, id)])
      case Remove(entity, id) => PlaceOf(entity, id) !in docs && Reply(env, w, op) == Str(id)
  {
    match op
    case Create(entity, data) =>
      var id := NewId(data, env.newId(w.calls));
      assert GetsId(data, env.newId(w.calls), id);
      CreateMeaning(env, w, entity, data, id);
    case Update(entity, id, data) => UpdateMeaning(env, w, entity, id, data);
    case Remove(entity, id) => RemoveMeaning(env, w, entity, id);
  }

  lemma {:induction false} RunStaysOpen(env: Env, w: World, items: seq<Item>, n: nat)
    requires n <= |items| && w.tx.Some?
    ensures RunItems(env, w, items, n).0.tx.Some?
    decreases n
  {
    hide AfterOp, Reply;
    if n > 0 {
      RunStaysOpen(env, w, items, n - 1);
      if items[n - 1].Op? { OpStaysOpen(env, RunItems(env, w, items, n - 1).0, items[n - 1].op); }
    }
  }

  lemma OpStaysOpen(env: Env, w: World, op: TxOp)
    requires w.tx.Some?
    ensures AfterOp(env, w, op).0.tx.Some?
  {
  }

  /** Which status a request is answered with, whatever state it finds: 400 for an empty or malformed body, 500 while
      a transaction is open -- both before anything is touched -- and otherwise 400 exactly when some item fails. */
  lemma BulkAnswers(env: Env, w: World, body: Option<seq<Item>>)
    ensures
      var (end, response) := AfterBulk(env, w, body);
      && (body.None? || body.value == [] ==> end == w && response == Rejected(400))
      && (body.Some? && body.value != [] && w.tx.Some? ==> end == w && response == Rejected(500))
      && (body.Some? && body.value != [] && w.tx.None? ==>
            if AllSucceed(env, AfterBegin(w).0, body.value) then response.Done? else response == Rejected(400))
  {
    hide RunItems, AfterRollback, AllSucceed;
    if body.Some? {
      RunGetsThrough(env, AfterBegin(w).0, body.value);
      if w.tx.None? { RunStaysOpen(env, AfterBegin(w).0, body.value, |body.value|); }
    }
  }
}
