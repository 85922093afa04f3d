/** The adapter and its compensating transaction as the objects they are: the transaction keeps the log, and
    calls back into the adapter to undo it. */
module ElasticsearchAdapter {
  import opened Text
  import opened Json
  import opened CompensatingStore

  class CompensatingTransaction {
    const adapter: ElasticsearchAdapter
    var undoLog: seq<UndoOp>
    var active: bool

    constructor (adapter: ElasticsearchAdapter)
      ensures this.adapter == adapter && undoLog == [] && active
    {
      this.adapter := adapter;
      undoLog := [];
      active := true;
    }

    method Record(op: UndoOp)
      modifies this`undoLog
      ensures undoLog == if active then old(undoLog) + [op] else old(undoLog)
    {
      if !active { return; }
      undoLog := undoLog + [op];
    }

    /** Walks the log backwards from its length at entry; the transaction stays active meanwhile, so the
        adapter's hooks append to the log being walked. */
    method Rollback() returns (ok: bool)
      requires adapter.tx == this
      modifies this, adapter
      ensures adapter.tx == this
      ensures old(active) ==> (adapter.Now(), ok) == AfterRollback(adapter.env, old(adapter.Now())) && !active
      ensures !old(active) ==> !ok && adapter.Now() == old(adapter.Now()) && !active
    {
      hide AfterRemove, AfterUpdate, AfterCreate;
      if !active { return false; }
      var failed := 0;
      var i := |undoLog|;
      ghost var entry := undoLog;
      ghost var start := adapter.Now();
      while i > 0
        invariant 0 <= i <= |entry| <= |undoLog| && undoLog[..|entry|] == entry
        invariant active && adapter.tx == this
        invariant AfterUndos(adapter.env, start, entry, |entry|) ==
                  (AfterUndos(adapter.env, adapter.Now(), entry, i).0,
                   failed + AfterUndos(adapter.env, adapter.Now(), entry, i).1)
      {
        i := i - 1;
        var op := undoLog[i];
        assert op == undoLog[..|entry|][i];
        ghost var before := adapter.Now();
        UndoKeepsLog(adapter.env, before, op);
        var done: bool;
        match op {
          case UndoCreate(entity, id) =>
            var r := adapter.Remove(entity, id);
            done := r.Ok?;
          case UndoUpdate(entity, id, data) =>
            var r := adapter.Update(entity, id, data);
            done := r.Ok?;
          case UndoDelete(entity, id, data) =>
            var r := adapter.Create(entity, data);
            done := r.Ok?;
        }
        if !done { failed := failed + 1; }
      }
      active := false;
      undoLog := [];
      return failed == 0;
    }

    method Commit()
      modifies this
      ensures !active
      ensures undoLog == if old(active) then [] else old(undoLog)
    {
      if !active { return; }
      active := false;
      undoLog := [];
    }

    /** The destructor: a transaction still active rolls back. */
    method Destroy()
      requires adapter.tx == this
      modifies this, adapter
      ensures !active
      ensures adapter.Now() == if old(active) then AfterRollback(adapter.env, old(adapter.Now())).0 else old(adapter.Now())
    {
      if active { var _ := Rollback(); }
    }
  }

  /** The hooks only ever append: the log an undo leaves starts with the log it found. */
  lemma UndoKeepsLog(env: Env, w: World, op: UndoOp)
    requires w.tx.Some?
    ensures AfterUndo(env, w, op).0.tx.Some?
    ensures w.tx.value <= AfterUndo(env, w, op).0.tx.value
  {
  }

  class ElasticsearchAdapter {
    const env: Env
    var docs: map<Place, Doc>
    var calls: nat
    var tx: CompensatingTransaction?

    constructor (env: Env)
      ensures this.env == env && docs == map[] && tx == null
    {
      this.env := env;
      docs, calls, tx := map[], 0, null;
    }

    ghost predicate Valid()
      reads this
    {
      tx != null ==> tx.adapter == this
    }

    ghost function Now(): World
      reads this, tx
    {
      World(docs, calls, if tx == null || !tx.active then None else Some(tx.undoLog))
    }

    method Get(p: Place) returns (r: Result<Doc>)
      modifies this`calls
      ensures (Now(), r) == HttpGet(env, old(Now()), p)
    {
      r := if env.down(GET, calls) || p.1 == "" || p !in docs then Err else Ok(docs[p]);
      calls := calls + 1;
    }

    method Put(p: Place, doc: Doc) returns (ok: bool)
      modifies this`calls, this`docs
      ensures (Now(), ok) == HttpPut(env, old(Now()), p, doc)
    {
      ok := !(env.down(PUT, calls) || p.1 == "");
      calls := calls + 1;
      if ok { docs := docs[p := doc]; }
    }

    method Delete(p: Place) returns (ok: bool)
      modifies this`calls, this`docs
      ensures (Now(), ok) == HttpDelete(env, old(Now()), p)
    {
      ok := !(env.down(DELETE, calls) || p.1 == "" || p !in docs);
      calls := calls + 1;
      if ok { docs := docs - {p}; }
    }

    method Read(entity: string, id: string) returns (r: Result<Doc>)
      modifies this`calls
      ensures (Now(), r) == AfterRead(env, old(Now()), entity, id)
    {
      if entity !in env.schemas { return Err; }
      r := Get(PlaceOf(entity, id));
    }

    method Create(entity: string, data: Doc) returns (r: Result<Doc>)
      requires Valid()
      modifies this`calls, this`docs, tx
      ensures Valid() && tx == old(tx) && (tx != null ==> tx.active == old(tx.active))
      ensures (Now(), r) == AfterCreate(env, old(Now()), entity, data)
    {
      if entity !in env.schemas { return Err; }
      var id := NewId(data, env.newId(calls));
      var record := data["id" := Str(id)];
      var ok := Put(PlaceOf(entity, id), record);
      if !ok { return Err; }
      if tx != null && tx.active { tx.Record(UndoCreate(entity, id)); }
      return Ok(record);
    }

    method Update(entity: string, id: string, data: Doc) returns (r: Result<Doc>)
      requires Valid()
      modifies this`calls, this`docs, tx
      ensures Valid() && tx == old(tx) && (tx != null ==> tx.active == old(tx.active))
      ensures (Now(), r) == AfterUpdate(env, old(Now()), entity, id, data)
    {
      var read := Read(entity, id);
      if read.Err? { return Err; }
      if tx != null && tx.active { tx.Record(UndoUpdate(entity, id, read.value)); }
      var record := Merge(read.value, data);
      var ok := Put(PlaceOf(entity, id), record);
      if !ok { return Err; }
      return Ok(record);
    }

    method Remove(entity: string, id: string) returns (r: Result<bool>)
      requires Valid()
      modifies this`calls, this`docs, tx
      ensures Valid() && tx == old(tx) && (tx != null ==> tx.active == old(tx.active))
      ensures (Now(), r) == AfterRemove(env, old(Now()), entity, id)
    {
      if tx != null && tx.active {
        var oldData := Read(entity, id);
        if oldData.Ok? { tx.Record(UndoDelete(entity, IdIn(oldData.value), oldData.value)); }
      }
      var ok := Delete(PlaceOf(entity, id));
      if !ok { return Err; }
      return Ok(true);
    }

    method BeginTransaction() returns (ok: bool)
      requires Valid()
      modifies this`tx
      ensures Valid() && (tx == old(tx) || fresh(tx))
      ensures (Now(), ok) == AfterBegin(old(Now()))
    {
      if tx != null && tx.active { return false; }
      tx := new CompensatingTransaction(this);
      return true;
    }

    method CommitTransaction() returns (ok: bool)
      requires Valid()
      modifies this`tx, tx
      ensures Valid() && (tx == old(tx) || tx == null)
      ensures (Now(), ok) == AfterCommit(old(Now()))
    {
      if tx == null || !tx.active { return false; }
      tx.Commit();
      tx := null;
      return true;
    }

    method RollbackTransaction() returns (ok: bool)
      requires Valid()
      modifies this, tx
      ensures Valid() && (tx == old(tx) || tx == null)
      ensures (Now(), ok) == AfterRollback(env, old(Now()))
    {
      if tx == null || !tx.active { return false; }
      ok := tx.Rollback();
      tx := null;
    }
  }

  /** The merge loop: each field of `data` in turn over the old document, in any order. */
  method Merge(old_: Doc, data: Doc) returns (record: Doc)
    ensures record == old_ + data
  {
    record := old_;
    var left := data.Keys;
    while left != {}
      invariant left <= data.Keys
      invariant record == old_ + (data - left)
      decreases left
    {
      var k :| k in left;
      record := record[k := data[k]];
      left := left - {k};
    }
    assert data - {} == data;
  }
}
