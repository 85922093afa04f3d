/** A document store without transactions, and the undo log that compensates for it: every operation as a
    function of the store, the log, and what the network does at each call. */
module CompensatingStore {
  import opened Text
  import opened Json

  type Doc = map<string, Json>

  /** Where a document lives: the lower-cased entity name is the index. */
  type Place = (string, string)

  function PlaceOf(entity: string, id: string): Place {
    (Lower(entity), id)
  }

  datatype UndoOp =
    | UndoCreate(entity: string, id: string)
    | UndoUpdate(entity: string, id: string, data: Doc)
    | UndoDelete(entity: string, id: string, data: Doc)

  datatype Verb = GET | PUT | DELETE

  /** The entities with a schema, which of the numbered HTTP calls fail, and the id a create generates when that
      many calls have been made. A call that fails changes nothing. */
  datatype Env = Env(schemas: set<string>, down: (Verb, nat) -> bool, newId: nat -> string)

  /** The documents, how many HTTP calls were made, and the undo log while a transaction is active. */
  datatype World = World(docs: map<Place, Doc>, calls: nat, tx: Option<seq<UndoOp>>)

  // ---------------------------------------------------------------------
  // HTTP calls; without an id the path names no document
  // ---------------------------------------------------------------------

  function HttpGet(env: Env, w: World, p: Place): (World, Result<Doc>) {
    (w.(calls := w.calls + 1),
     if env.down(GET, w.calls) || p.1 == "" || p !in w.docs then Err else Ok(w.docs[p]))
  }

  function HttpPut(env: Env, w: World, p: Place, doc: Doc): (World, bool) {
    if env.down(PUT, w.calls) || p.1 == "" then (w.(calls := w.calls + 1), false)
    else (w.(calls := w.calls + 1, docs := w.docs[p := doc]), true)
  }

  function HttpDelete(env: Env, w: World, p: Place): (World, bool) {
    if env.down(DELETE, w.calls) || p.1 == "" || p !in w.docs then (w.(calls := w.calls + 1), false)
    else (w.(calls := w.calls + 1, docs := w.docs - {p}), true)
  }

  // ---------------------------------------------------------------------
  // The adapter's operations, hooks included
  // ---------------------------------------------------------------------

  function Recorded(w: World, op: UndoOp): World {
    match w.tx
    case None => w
    case Some(log) => w.(tx := Some(log + [op]))
  }

  /** The id a document says it has; absent or not text, it is the empty text. */
  function IdIn(doc: Doc): string {
    if "id" in doc && doc["id"].Str? then doc["id"].s else ""
  }

  /** The id a new document gets: its own, or a generated one when it has none. */
  function NewId(data: Doc, generated: string): string {
    if "id" in data && !data["id"].Null? then IdIn(data) else generated
  }

  function AfterRead(env: Env, w: World, entity: string, id: string): (World, Result<Doc>) {
    if entity !in env.schemas then (w, Err) else HttpGet(env, w, PlaceOf(entity, id))
  }

  function AfterCreate(env: Env, w: World, entity: string, data: Doc): (World, Result<Doc>) {
    if entity !in env.schemas then (w, Err)
    else
      var id := NewId(data, env.newId(w.calls));
      var (put, ok) := HttpPut(env, w, PlaceOf(entity, id), data["id" := Str(id)]);
      if !ok then (put, Err) else (Recorded(put, UndoCreate(entity, id)), Ok(data["id" := Str(id)]))
  }

  /** The old document is recorded before the write; the new fields are merged over it. */
  function AfterUpdate(env: Env, w: World, entity: string, id: string, data: Doc): (World, Result<Doc>) {
    match AfterRead(env, w, entity, id)
    case (read, Err) => (read, Err)
    case (read, Ok(old_)) =>
      var logged := Recorded(read, UndoUpdate(entity, id, old_));
      var (put, ok) := HttpPut(env, logged, PlaceOf(entity, id), old_ + data);
      (put, if ok then Ok(old_ + data) else Err)
  }

  /** Inside a transaction the old document is read first, and recorded if that read succeeds. */
  function AfterRemove(env: Env, w: World, entity: string, id: string): (World, Result<bool>) {
    var logged :=
      if w.tx.None? then w
      else
        match AfterRead(env, w, entity, id)
        case (read, Err) => read
        case (read, Ok(old_)) => Recorded(read, UndoDelete(entity, IdIn(old_), old_));
    var (gone, ok) := HttpDelete(env, logged, PlaceOf(entity, id));
    (gone, if ok then Ok(true) else Err)
  }

  // ---------------------------------------------------------------------
  // Transactions
  // ---------------------------------------------------------------------

  function AfterBegin(w: World): (World, bool) {
    if w.tx.Some? then (w, false) else (w.(tx := Some([])), true)
  }

  function AfterCommit(w: World): (World, bool) {
    if w.tx.None? then (w, false) else (w.(tx := None), true)
  }

  /** One undo, through the adapter's own operations: their hooks log it again. */
  function AfterUndo(env: Env, w: World, op: UndoOp): (World, bool) {
    match op
    case UndoCreate(entity, id) =>
      var (w', r) := AfterRemove(env, w, entity, id);
      (w', r.Ok?)
    case UndoUpdate(entity, id, data) =>
      var (w', r) := AfterUpdate(env, w, entity, id, data);
      (w', r.Ok?)
    case UndoDelete(entity, id, data) =>
      var (w', r) := AfterCreate(env, w, entity, data);
      (w', r.Ok?)
  }

  /** The first `n` entries undone, last first; how many undos failed. */
  function AfterUndos(env: Env, w: World, ops: seq<UndoOp>, n: nat): (World, nat)
    requires n <= |ops|
    decreases n
  {
    if n == 0 then (w, 0)
    else
      var (w', ok) := AfterUndo(env, w, ops[n - 1]);
      var (w'', failed) := AfterUndos(env, w', ops, n - 1);
      (w'', if ok then failed else failed + 1)
  }

  /** The log as it stood at entry is undone; whatever the undos appended is dropped with it. */
  function AfterRollback(env: Env, w: World): (World, bool) {
    match w.tx
    case None => (w, false)
    case Some(log) =>
      var (undone, failed) := AfterUndos(env, w, log, |log|);
      (undone.(tx := None), failed == 0)
  }
}
