/** What a rollback gives back: undoing the log in reverse over the documents alone, and how close to the
    documents before the transaction that comes. */
module RollbackTheorems {
  import opened Text
  import opened Json
  import opened CompensatingStore

  type Docs = map<Place, Doc>

  // ---------------------------------------------------------------------
  // Undoing over documents, network aside
  // ---------------------------------------------------------------------

  function UndoDocs(op: UndoOp, docs: Docs): Docs {
    match op
    case UndoCreate(entity, id) => docs - {PlaceOf(entity, id)}
    case UndoUpdate(entity, id, data) =>
      var p := PlaceOf(entity, id);
      if p in docs then docs[p := docs[p] + data] else docs
    case UndoDelete(entity, id, data) => docs[PlaceOf(entity, id) := data]
  }

  function UndoAll(log: seq<UndoOp>, n: nat, docs: Docs): Docs
    requires n <= |log|
    decreases n
  {
    if n == 0 then docs else UndoAll(log, n - 1, UndoDocs(log[n - 1], docs))
  }

  /** What a log entry needs for its undo to succeed on a network that does not fail. */
  predicate Undoable(env: Env, op: UndoOp, docs: Docs) {
    match op
    case UndoCreate(entity, id) => id != "" && PlaceOf(entity, id) in docs
    case UndoUpdate(entity, id, data) => id != "" && entity in env.schemas && PlaceOf(entity, id) in docs
    case UndoDelete(entity, id, data) => id != "" && entity in env.schemas
  }

  predicate AllUndoable(env: Env, log: seq<UndoOp>, n: nat, docs: Docs)
    requires n <= |log|
    decreases n
  {
    n == 0 || (Undoable(env, log[n - 1], docs) && AllUndoable(env, log, n - 1, UndoDocs(log[n - 1], docs)))
  }

  /** A deleted document is re-created under the id it carries: its entry must hold that id. */
  predicate Addressed(op: UndoOp) {
    op.UndoDelete? ==> "id" in op.data && op.data["id"] == Str(op.id)
  }

  ghost predicate AllAddressed(log: seq<UndoOp>) {
    forall i :: 0 <= i < |log| ==> Addressed(log[i])
  }

  // ---------------------------------------------------------------------
  // "The same records, each agreeing with its earlier self on every field it had then"
  // ---------------------------------------------------------------------

  predicate Keeps(old_: Doc, new_: Doc) {
    forall k :: k in old_ ==> k in new_ && new_[k] == old_[k]
  }

  ghost predicate Extends(old_: Docs, new_: Docs) {
    old_.Keys == new_.Keys && forall p :: p in old_ ==> Keeps(old_[p], new_[p])
  }

  lemma ExtendsTrans(a: Docs, b: Docs, c: Docs)
    requires Extends(a, b) && Extends(b, c)
    ensures Extends(a, c)
  {
  }

  lemma UndoKeepsExtends(op: UndoOp, a: Docs, b: Docs)
    requires Extends(a, b)
    ensures Extends(UndoDocs(op, a), UndoDocs(op, b))
  {
  }

  lemma {:induction false} UndoAllKeepsExtends(env: Env, log: seq<UndoOp>, n: nat, a: Docs, b: Docs)
    requires n <= |log| && Extends(a, b)
    ensures Extends(UndoAll(log, n, a), UndoAll(log, n, b))
    ensures AllUndoable(env, log, n, a) ==> AllUndoable(env, log, n, b)
    decreases n
  {
    if n > 0 {
      UndoKeepsExtends(log[n - 1], a, b);
      UndoAllKeepsExtends(env, log, n - 1, UndoDocs(log[n - 1], a), UndoDocs(log[n - 1], b));
    }
  }

  /** Only the first `n` entries matter. */
  lemma {:induction false} UndoPrefix(env: Env, log: seq<UndoOp>, longer: seq<UndoOp>, n: nat, docs: Docs)
    requires n <= |log| && log <= longer
    ensures UndoAll(longer, n, docs) == UndoAll(log, n, docs)
    ensures AllUndoable(env, longer, n, docs) == AllUndoable(env, log, n, docs)
    decreases n
  {
    if n > 0 { UndoPrefix(env, log, longer, n - 1, UndoDocs(log[n - 1], docs)); }
  }

  // ---------------------------------------------------------------------
  // The adapter's rollback does exactly that to the documents
  // ---------------------------------------------------------------------

  /** An undo that reports success has done its work; on a network that does not fail, an undoable entry succeeds. */
  lemma UndoDoes(env: Env, w: World, op: UndoOp)
    requires Addressed(op)
    ensures AfterUndo(env, w, op).1 ==> AfterUndo(env, w, op).0.docs == UndoDocs(op, w.docs)
    ensures Quiet(env, w.calls) && Undoable(env, op, w.docs) ==> AfterUndo(env, w, op).1
    ensures AfterUndo(env, w, op).0.calls >= w.calls
  {
    match op
    case UndoCreate(entity, id) =>
    case UndoUpdate(entity, id, data) =>
    case UndoDelete(entity, id, data) =>
      assert data["id" := Str(id)] == data;
  }

  /** No HTTP call fails from call number `from` on. */
  ghost predicate Quiet(env: Env, from: nat) {
    forall v, n :: n >= from ==> !env.down(v, n)
  }

  lemma {:induction false} UndosDo(env: Env, w: World, log: seq<UndoOp>, n: nat)
    requires n <= |log| && AllAddressed(log)
    ensures AfterUndos(env, w, log, n).1 == 0 ==> AfterUndos(env, w, log, n).0.docs == UndoAll(log, n, w.docs)
    ensures Quiet(env, w.calls) && AllUndoable(env, log, n, w.docs) ==> AfterUndos(env, w, log, n).1 == 0
    decreases n
  {
    if n > 0 {
      UndoDoes(env, w, log[n - 1]);
      UndosDo(env, AfterUndo(env, w, log[n - 1]).0, log, n - 1);
    }
  }

  // ---------------------------------------------------------------------
  // A transaction: any operations, any of whose calls may fail
  // ---------------------------------------------------------------------

  datatype TxOp =
    | Create(entity: string, data: Doc)
    | Update(entity: string, id: string, data: Doc)
    | Remove(entity: string, id: string)

  function AfterOp(env: Env, w: World, op: TxOp): (World, bool) {
    match op
    case Create(entity, data) => var (w', r) := AfterCreate(env, w, entity, data); (w', r.Ok?)
    case Update(entity, id, data) => var (w', r) := AfterUpdate(env, w, entity, id, data); (w', r.Ok?)
    case Remove(entity, id) => var (w', r) := AfterRemove(env, w, entity, id); (w', r.Ok?)
  }

  function AfterOps(env: Env, w: World, ops: seq<TxOp>, n: nat): World
    requires n <= |ops|
    decreases n
  {
    if n == 0 then w else AfterOp(env, AfterOps(env, w, ops, n - 1), ops[n - 1]).0
  }

  /** Creates go to free places, updates leave "id" alone, and a delete that succeeds was recorded first. */
  predicate Fair(env: Env, w: World, op: TxOp) {
    match op
    case Create(entity, data) => PlaceOf(entity, NewId(data, env.newId(w.calls))) !in w.docs
    case Update(entity, id, data) => "id" in data ==> data["id"] == Str(id)
    case Remove(entity, id) => AfterRemove(env, w, entity, id).1.Ok? ==> AfterRead(env, w, entity, id).1.Ok?
  }

  ghost predicate AllFair(env: Env, w: World, ops: seq<TxOp>) {
    forall i :: 0 <= i < |ops| ==> Fair(env, AfterOps(env, w, ops, i), ops[i])
  }

  /** Every document says where it is. */
  ghost predicate SaysItsId(docs: Docs) {
    forall p :: p in docs ==> p.1 != "" && "id" in docs[p] && docs[p]["id"] == Str(p.1)
  }

  /** The log grew by `u`, and undoing `u` brings back the documents before, up to fields they gained. */
  ghost predicate Undoes(env: Env, u: UndoOp, before: World, after: World) {
    && before.tx.Some?
    && after.tx == Some(before.tx.value + [u])
    && Addressed(u)
    && Undoable(env, u, after.docs)
    && Extends(before.docs, UndoDocs(u, after.docs))
  }

  /** One operation either leaves documents and log alone, or appends one entry that undoes it. */
  ghost predicate Covered(env: Env, before: World, after: World) {
    || (after.tx == before.tx && after.docs == before.docs)
    || exists u {:trigger Undoes(env, u, before, after)} :: Undoes(env, u, before, after)
  }

  // ---------------------------------------------------------------------
  // What each operation does, and exactly when it succeeds
  // ---------------------------------------------------------------------

  /** The id a new document gets: its own text, the generated one if it says none, and otherwise no id at all. */
  ghost predicate GetsId(data: Doc, generated: string, id: string) {
    if "id" !in data || data["id"] == Null then id == generated
    else if data["id"].Str? then data["id"] == Str(id)
    else id == ""
  }

  /** Inside a transaction the log grows by these entries; outside there is none. */
  ghost predicate Logs(before: World, after: World, entries: seq<UndoOp>) {
    after.tx == match before.tx
                case None => None
                case Some(log) => Some(log + entries)
  }

  /** A read answers the stored document; it needs a schema, an id, a document, and its one call to go through. */
  lemma ReadMeaning(env: Env, w: World, entity: string, id: string)
    ensures
      var ((after, r), p) := (AfterRead(env, w, entity, id), (Lower(entity), id));
      && after.docs == w.docs && after.tx == w.tx
      && (r.Ok? <==> entity in env.schemas && id != "" && p in w.docs && !env.down(GET, w.calls))
      && (r.Ok? ==> r.value == w.docs[p])
  {
  }

  /** A create stores the document, with its id in it, at its place, and logs that. */
  lemma CreateMeaning(env: Env, w: World, entity: string, data: Doc, id: string)
    requires GetsId(data, env.newId(w.calls), id)
    ensures
      var ((after, r), p, doc) := (AfterCreate(env, w, entity, data), (Lower(entity), id), data["id" := Str(id)]);
      && (r.Ok? <==> entity in env.schemas && id != "" && !env.down(PUT, w.calls))
      && if r.Ok? then r.value == doc && after.docs == w.docs[p := doc] && Logs(w, after, [UndoCreate(entity, id)])
         else after.docs == w.docs && after.tx == w.tx
  {
  }

  /** An update stores the old document with the new fields over it, and logs the old one once it has read it. */
  lemma UpdateMeaning(env: Env, w: World, entity: string, id: string, data: Doc)
    ensures
      var ((after, r), p) := (AfterUpdate(env, w, entity, id, data), (Lower(entity), id));
      var found := entity in env.schemas && id != "" && p in w.docs && !env.down(GET, w.calls);
      && (r.Ok? <==> found && !env.down(PUT, w.calls + 1))
      && (if found then Logs(w, after, [UndoUpdate(entity, id, w.docs[p])]) else after.tx == w.tx)
      && (r.Ok? ==> p in w.docs && r.value == w.docs[p] + data)
      && after.docs == if r.Ok? then w.docs[p := r.value] else w.docs
  {
  }

  /** A delete drops the document; inside a transaction it reads it first, and logs it if that read succeeds. */
  lemma RemoveMeaning(env: Env, w: World, entity: string, id: string)
    ensures
      var ((after, r), p) := (AfterRemove(env, w, entity, id), (Lower(entity), id));
      var looks := w.tx.Some? && entity in env.schemas;
      var found := looks && id != "" && p in w.docs && !env.down(GET, w.calls);
      && (r.Ok? <==> id != "" && p in w.docs && !env.down(DELETE, if looks then w.calls + 1 else w.calls))
      && after.docs == (if r.Ok? then w.docs - {p} else w.docs)
      && if found then Logs(w, after, [UndoDelete(entity, IdIn(w.docs[p]), w.docs[p])]) else after.tx == w.tx
  {
  }

  /** What each operation does to documents and log, network aside. */
  lemma CreateEffect(env: Env, w: World, entity: string, data: Doc)
    requires w.tx.Some?
    ensures
      var (after, r) := AfterCreate(env, w, entity, data);
      var id := NewId(data, env.newId(w.calls));
      if r.Ok? then
        && id != ""
        && after.docs == w.docs[PlaceOf(entity, id) := data["id" := Str(id)]]
        && after.tx == Some(w.tx.value + [UndoCreate(entity, id)])
      else after.docs == w.docs && after.tx == w.tx
  {
  }

  lemma UpdateEffect(env: Env, w: World, entity: string, id: string, data: Doc)
    requires w.tx.Some?
    ensures
      var (after, r) := AfterUpdate(env, w, entity, id, data);
      var p := PlaceOf(entity, id);
      match AfterRead(env, w, entity, id).1
      case Err => r.Err? && after.docs == w.docs && after.tx == w.tx
      case Ok(old_) =>
        && id != "" && entity in env.schemas && p in w.docs && w.docs[p] == old_
        && after.docs == (if r.Ok? then w.docs[p := old_ + data] else w.docs)
        && after.tx == Some(w.tx.value + [UndoUpdate(entity, id, old_)])
  {
  }

  lemma RemoveEffect(env: Env, w: World, entity: string, id: string)
    requires w.tx.Some? && SaysItsId(w.docs)
    ensures
      var (after, r) := AfterRemove(env, w, entity, id);
      var p := PlaceOf(entity, id);
      && (r.Ok? ==> p in w.docs)
      && after.docs == (if r.Ok? then w.docs - {p} else w.docs)
      && match AfterRead(env, w, entity, id).1
         case Err => after.tx == w.tx
         case Ok(old_) =>
           && id != "" && entity in env.schemas && p in w.docs && w.docs[p] == old_
           && after.tx == Some(w.tx.value + [UndoDelete(entity, id, old_)])
  {
  }

  lemma CreateIsCovered(env: Env, w: World, entity: string, data: Doc)
    requires w.tx.Some? && SaysItsId(w.docs) && Fair(env, w, Create(entity, data))
    ensures SaysItsId(AfterCreate(env, w, entity, data).0.docs)
    ensures Covered(env, w, AfterCreate(env, w, entity, data).0)
  {
    hide AfterCreate, NewId;
    CreateEffect(env, w, entity, data);
    var after := AfterCreate(env, w, entity, data).0;
    var id := NewId(data, env.newId(w.calls));
    if AfterCreate(env, w, entity, data).1.Ok? {
      assert after.docs - {PlaceOf(entity, id)} == w.docs;
      assert Undoes(env, UndoCreate(entity, id), w, after);
    }
  }

  /** Merging the old document over a merge of it keeps its fields, and gives it back exactly when none was added. */
  lemma UndoneMerge(old_: Doc, data: Doc)
    ensures old_ + old_ == old_
    ensures Keeps(old_, (old_ + data) + old_)
    ensures (old_ + data) + old_ == old_ <==> data.Keys <= old_.Keys
  {
    if data.Keys <= old_.Keys {
      assert (old_ + data) + old_ == old_;
    } else {
      var k :| k in data && k !in old_;
      assert k in (old_ + data) + old_;
    }
  }

  /** Undoing an update over the documents, whether or not its write went through. */
  lemma UndoneUpdate(docs: Docs, entity: string, id: string, data: Doc)
    requires PlaceOf(entity, id) in docs
    ensures
      var p := PlaceOf(entity, id);
      var u := UndoUpdate(entity, id, docs[p]);
      && UndoDocs(u, docs) == docs
      && Extends(docs, UndoDocs(u, docs[p := docs[p] + data]))
      && (UndoDocs(u, docs[p := docs[p] + data]) == docs <==> data.Keys <= docs[p].Keys)
  {
    var p := PlaceOf(entity, id);
    var merged := docs[p := docs[p] + data];
    UndoneMerge(docs[p], data);
    var undone := UndoDocs(UndoUpdate(entity, id, docs[p]), merged);
    assert undone == merged[p := (docs[p] + data) + docs[p]];
    assert undone[p] == docs[p] ==> undone == docs;
  }

  lemma UpdateKeepsIds(env: Env, w: World, entity: string, id: string, data: Doc)
    requires w.tx.Some? && SaysItsId(w.docs) && Fair(env, w, Update(entity, id, data))
    ensures SaysItsId(AfterUpdate(env, w, entity, id, data).0.docs)
  {
    hide AfterUpdate, AfterRead;
    UpdateEffect(env, w, entity, id, data);
  }

  lemma UpdateIsCovered(env: Env, w: World, entity: string, id: string, data: Doc)
    requires w.tx.Some? && SaysItsId(w.docs) && Fair(env, w, Update(entity, id, data))
    ensures SaysItsId(AfterUpdate(env, w, entity, id, data).0.docs)
    ensures Covered(env, w, AfterUpdate(env, w, entity, id, data).0)
  {
    hide AfterUpdate, AfterRead, SaysItsId, UndoDocs;
    UpdateKeepsIds(env, w, entity, id, data);
    UpdateEffect(env, w, entity, id, data);
    var after := AfterUpdate(env, w, entity, id, data).0;
    match AfterRead(env, w, entity, id).1 {
      case Err =>
      case Ok(old_) =>
        UndoneUpdate(w.docs, entity, id, data);
        assert Undoes(env, UndoUpdate(entity, id, old_), w, after);
    }
  }

  lemma RemoveIsCovered(env: Env, w: World, entity: string, id: string)
    requires w.tx.Some? && SaysItsId(w.docs) && Fair(env, w, Remove(entity, id))
    ensures SaysItsId(AfterRemove(env, w, entity, id).0.docs)
    ensures Covered(env, w, AfterRemove(env, w, entity, id).0)
  {
    hide AfterRemove, AfterRead;
    RemoveEffect(env, w, entity, id);
    var after := AfterRemove(env, w, entity, id).0;
    match AfterRead(env, w, entity, id).1 {
      case Err =>
      case Ok(old_) =>
        var p := PlaceOf(entity, id);
        assert after.docs[p := old_] == w.docs;
        assert Undoes(env, UndoDelete(entity, id, old_), w, after);
    }
  }

  // ---------------------------------------------------------------------
  // Whole transactions
  // ---------------------------------------------------------------------

  /** At every moment of a transaction that began with the documents `start`, undoing the log gives them back. */
  ghost predicate Restorable(env: Env, start: Docs, w: World) {
    && w.tx.Some?
    && SaysItsId(w.docs)
    && AllAddressed(w.tx.value)
    && AllUndoable(env, w.tx.value, |w.tx.value|, w.docs)
    && Extends(start, UndoAll(w.tx.value, |w.tx.value|, w.docs))
  }

  lemma BeginIsRestorable(env: Env, w: World)
    requires w.tx == Some([]) && SaysItsId(w.docs)
    ensures Restorable(env, w.docs, w)
  {
  }

  lemma EntryKeepsRestorable(env: Env, start: Docs, before: World, after: World, u: UndoOp)
    requires Restorable(env, start, before) && SaysItsId(after.docs)
    requires Undoes(env, u, before, after)
    ensures Restorable(env, start, after)
  {
    hide UndoDocs, SaysItsId, Undoable, Extends;
    var log, undone := before.tx.value, UndoDocs(u, after.docs);
    var n := |log|;
    UndoPrefix(env, log, log + [u], n, undone);
    UndoAllKeepsExtends(env, log, n, before.docs, undone);
    ExtendsTrans(start, UndoAll(log, n, before.docs), UndoAll(log, n, undone));
  }

  lemma OpKeepsRestorable(env: Env, start: Docs, w: World, op: TxOp)
    requires Restorable(env, start, w) && Fair(env, w, op)
    ensures Restorable(env, start, AfterOp(env, w, op).0)
  {
    hide AfterCreate, AfterUpdate, AfterRemove, Fair, Undoes, AllUndoable, UndoAll, SaysItsId, Extends, AllAddressed;
    match op {
      case Create(entity, data) => CreateIsCovered(env, w, entity, data);
      case Update(entity, id, data) => UpdateIsCovered(env, w, entity, id, data);
      case Remove(entity, id) => RemoveIsCovered(env, w, entity, id);
    }
    var after := AfterOp(env, w, op).0;
    assert Covered(env, w, after);
    if after.tx != w.tx || after.docs != w.docs {
      var u :| Undoes(env, u, w, after);
      EntryKeepsRestorable(env, start, w, after, u);
    }
  }

  lemma {:induction false} OpsKeepRestorable(env: Env, w: World, ops: seq<TxOp>, n: nat)
    requires n <= |ops| && w.tx == Some([]) && SaysItsId(w.docs) && AllFair(env, w, ops)
    ensures Restorable(env, w.docs, AfterOps(env, w, ops, n))
    decreases n
  {
    hide Restorable, Fair, AfterOp, SaysItsId;
    if n == 0 {
      BeginIsRestorable(env, w);
    } else {
      OpsKeepRestorable(env, w, ops, n - 1);
      OpKeepsRestorable(env, w.docs, AfterOps(env, w, ops, n - 1), ops[n - 1]);
    }
  }

  /** A rollback that reports success has given the documents back; it does report success when no call fails
      from its first on. */
  lemma RestorableRollsBack(env: Env, start: Docs, w: World)
    requires Restorable(env, start, w)
    ensures AfterRollback(env, w).0.tx == None
    ensures AfterRollback(env, w).1 ==> AfterRollback(env, w).0.docs == UndoAll(w.tx.value, |w.tx.value|, w.docs)
    ensures AfterRollback(env, w).1 ==> Extends(start, AfterRollback(env, w).0.docs)
    ensures Quiet(env, w.calls) ==> AfterRollback(env, w).1
  {
    UndosDo(env, w, w.tx.value, |w.tx.value|);
  }

  // ---------------------------------------------------------------------
  // Exactly what a rollback leaves
  // ---------------------------------------------------------------------

  function At(u: UndoOp): Place {
    PlaceOf(u.entity, u.id)
  }

  /** The operation is a delete of what is at `p`, and its snapshot went into the log, whether or not the delete
      itself then succeeded. */
  predicate RecordsDelete(env: Env, w: World, op: TxOp, p: Place) {
    op.Remove? && PlaceOf(op.entity, op.id) == p && AfterRead(env, w, op.entity, op.id).1.Ok?
  }

  /** No delete of what is at `p` was recorded before operation `n`. */
  ghost predicate InPlace(env: Env, w: World, ops: seq<TxOp>, n: nat, p: Place)
    requires n <= |ops|
  {
    forall i :: 0 <= i < n ==> !RecordsDelete(env, AfterOps(env, w, ops, i), ops[i], p)
  }

  predicate UpdatesField(op: TxOp, p: Place, field: string) {
    op.Update? && PlaceOf(op.entity, op.id) == p && field in op.data
  }

  /** Operation `i` is a successful update that sets the field of what is at `p`, no delete of it recorded before. */
  ghost predicate SetsInPlace(env: Env, w: World, ops: seq<TxOp>, i: nat, p: Place, field: string)
    requires i < |ops|
  {
    UpdatesField(ops[i], p, field) && AfterOp(env, AfterOps(env, w, ops, i), ops[i]).1 && InPlace(env, w, ops, i, p)
  }

  ghost predicate WasSet(env: Env, w: World, ops: seq<TxOp>, n: nat, p: Place, field: string)
    requires n <= |ops|
  {
    exists i :: 0 <= i < n && SetsInPlace(env, w, ops, i, p, field)
  }

  /** Some successful update gave a document that was there at the start, and of which no delete had been recorded,
      a field that it did not have at the start. */
  ghost predicate AddsField(env: Env, w: World, ops: seq<TxOp>) {
    exists p, field :: p in w.docs && field !in w.docs[p] && WasSet(env, w, ops, |ops|, p, field)
  }

  predicate OnlyUpdates(log: seq<UndoOp>, n: nat, p: Place)
    requires n <= |log|
  {
    forall i :: 0 <= i < n && At(log[i]) == p ==> log[i].UndoUpdate?
  }

  ghost predicate SameOff(p: Place, a: Docs, b: Docs) {
    a.Keys == b.Keys && forall q :: q in a && q != p ==> a[q] == b[q]
  }

  /** A difference at one place stays there, and is gone once a create or a delete there is undone. */
  lemma {:induction false} UndoElsewhere(log: seq<UndoOp>, n: nat, a: Docs, b: Docs, p: Place)
    requires n <= |log| && SameOff(p, a, b)
    ensures SameOff(p, UndoAll(log, n, a), UndoAll(log, n, b))
    ensures !OnlyUpdates(log, n, p) ==> UndoAll(log, n, a) == UndoAll(log, n, b)
    decreases n
  {
    if n > 0 {
      var u := log[n - 1];
      UndoElsewhere(log, n - 1, UndoDocs(u, a), UndoDocs(u, b), p);
      if At(u) == p && !u.UndoUpdate? { assert UndoDocs(u, a) == UndoDocs(u, b); }
    }
  }

  /** Where only updates are undone, fields a document has more before it has more after. */
  lemma {:induction false} UndoKeepsFields(log: seq<UndoOp>, n: nat, a: Docs, b: Docs, p: Place, more: set<string>)
    requires n <= |log| && OnlyUpdates(log, n, p)
    requires p in a && p in b && b[p].Keys == a[p].Keys + more
    ensures p in UndoAll(log, n, a) && p in UndoAll(log, n, b)
    ensures UndoAll(log, n, b)[p].Keys == UndoAll(log, n, a)[p].Keys + more
    decreases n
  {
    if n > 0 {
      var u := log[n - 1];
      assert At(u) == p ==> u.UndoUpdate?;
      UndoKeepsFields(log, n - 1, UndoDocs(u, a), UndoDocs(u, b), p, more);
    }
  }

  /** What undoing the whole log would leave at this moment. */
  function Undone(w: World): Docs {
    if w.tx.None? then w.docs else UndoAll(w.tx.value, |w.tx.value|, w.docs)
  }

  lemma EntryUndone(env: Env, before: World, after: World, u: UndoOp, p: Place)
    requires before.tx.Some? && after.tx == Some(before.tx.value + [u])
    ensures
      var log := before.tx.value;
      && Undone(after) == UndoAll(log, |log|, UndoDocs(u, after.docs))
      && (OnlyUpdates(after.tx.value, |after.tx.value|, p) <==>
          OnlyUpdates(log, |log|, p) && (At(u) == p ==> u.UndoUpdate?))
  {
    hide UndoDocs;
    var log := before.tx.value;
    var longer, n := log + [u], |log|;
    assert longer[n] == u && forall i :: 0 <= i < n ==> longer[i] == log[i];
    UndoPrefix(env, log, longer, n, UndoDocs(u, after.docs));
  }

  /** What one operation means for `p`: whether only updates of it are in the log, and which fields undoing the log
      would leave it with. */
  ghost predicate Moves(env: Env, before: World, after: World, op: TxOp, ok: bool, p: Place)
    requires before.tx.Some? && p in Undone(before)
  {
    var inPlace := OnlyUpdates(before.tx.value, |before.tx.value|, p);
    && after.tx.Some?
    && (OnlyUpdates(after.tx.value, |after.tx.value|, p) <==> inPlace && !RecordsDelete(env, before, op, p))
    && (OnlyUpdates(after.tx.value, |after.tx.value|, p) ==> p in after.docs)
    && p in Undone(after)
    && forall field ::
         field in Undone(after)[p] <==> field in Undone(before)[p] || (inPlace && ok && UpdatesField(op, p, field))
  }

  lemma CreateMoves(env: Env, w: World, entity: string, data: Doc, p: Place)
    requires w.tx.Some? && Fair(env, w, Create(entity, data)) && p in Undone(w)
    requires OnlyUpdates(w.tx.value, |w.tx.value|, p) ==> p in w.docs
    ensures
      var (after, r) := AfterCreate(env, w, entity, data);
      Moves(env, w, after, Create(entity, data), r.Ok?, p)
  {
    hide AfterCreate, NewId, OnlyUpdates, UndoAll;
    CreateEffect(env, w, entity, data);
    var (after, r) := AfterCreate(env, w, entity, data);
    if r.Ok? {
      var u := UndoCreate(entity, NewId(data, env.newId(w.calls)));
      EntryUndone(env, w, after, u, p);
      assert UndoDocs(u, after.docs) == w.docs;
    }
  }

  lemma RemoveMoves(env: Env, w: World, entity: string, id: string, p: Place)
    requires w.tx.Some? && SaysItsId(w.docs) && Fair(env, w, Remove(entity, id)) && p in Undone(w)
    requires OnlyUpdates(w.tx.value, |w.tx.value|, p) ==> p in w.docs
    ensures
      var (after, r) := AfterRemove(env, w, entity, id);
      Moves(env, w, after, Remove(entity, id), r.Ok?, p)
  {
    hide AfterRemove, AfterRead, OnlyUpdates, UndoAll;
    RemoveEffect(env, w, entity, id);
    var (after, r) := AfterRemove(env, w, entity, id);
    match AfterRead(env, w, entity, id).1 {
      case Err =>
      case Ok(old_) =>
        var u := UndoDelete(entity, id, old_);
        EntryUndone(env, w, after, u, p);
        assert UndoDocs(u, after.docs) == w.docs;
    }
  }

  lemma UpdateMoves(env: Env, w: World, entity: string, id: string, data: Doc, p: Place)
    requires w.tx.Some? && p in Undone(w)
    requires OnlyUpdates(w.tx.value, |w.tx.value|, p) ==> p in w.docs
    ensures
      var (after, r) := AfterUpdate(env, w, entity, id, data);
      Moves(env, w, after, Update(entity, id, data), r.Ok?, p)
  {
    hide AfterUpdate, AfterRead, OnlyUpdates, UndoAll;
    UpdateEffect(env, w, entity, id, data);
    var (after, r) := AfterUpdate(env, w, entity, id, data);
    match AfterRead(env, w, entity, id).1 {
      case Err =>
      case Ok(old_) =>
        var q, u := PlaceOf(entity, id), UndoUpdate(entity, id, old_);
        EntryUndone(env, w, after, u, p);
        UndoneUpdate(w.docs, entity, id, data);
        if r.Ok? {
          MergeMoves(w.tx.value, w.docs, UndoDocs(u, after.docs), q, data.Keys, p);
        }
    }
  }

  /** Fields more at `q` now are fields more there once all is undone, if `q` is in place; else they are lost. */
  lemma MergeMoves(log: seq<UndoOp>, a: Docs, b: Docs, q: Place, more: set<string>, p: Place)
    requires q in a && SameOff(q, a, b) && b[q].Keys == a[q].Keys + more
    requires p in UndoAll(log, |log|, a)
    ensures
      var before, after := UndoAll(log, |log|, a), UndoAll(log, |log|, b);
      && p in after
      && after[p].Keys == if q == p && OnlyUpdates(log, |log|, p) then before[p].Keys + more else before[p].Keys
  {
    hide OnlyUpdates;
    UndoElsewhere(log, |log|, a, b, q);
    if OnlyUpdates(log, |log|, q) { UndoKeepsFields(log, |log|, a, b, q, more); }
  }

  /** After `n` operations: which documents are in place, and which fields undoing the log would leave them with. */
  ghost predicate Tracked(env: Env, w: World, ops: seq<TxOp>, n: nat, p: Place)
    requires n <= |ops| && p in w.docs
  {
    var now := AfterOps(env, w, ops, n);
    && now.tx.Some?
    && (OnlyUpdates(now.tx.value, |now.tx.value|, p) <==> InPlace(env, w, ops, n, p))
    && (InPlace(env, w, ops, n, p) ==> p in now.docs)
    && p in Undone(now)
    && forall field :: field in Undone(now)[p] <==> field in w.docs[p] || WasSet(env, w, ops, n, p, field)
  }

  lemma OpMoves(env: Env, w: World, op: TxOp, p: Place)
    requires w.tx.Some? && SaysItsId(w.docs) && Fair(env, w, op) && p in Undone(w)
    requires OnlyUpdates(w.tx.value, |w.tx.value|, p) ==> p in w.docs
    ensures Moves(env, w, AfterOp(env, w, op).0, op, AfterOp(env, w, op).1, p)
  {
    hide Fair, Undone, OnlyUpdates, SaysItsId, Moves, AfterCreate, AfterUpdate, AfterRemove;
    match op
    case Create(entity, data) => CreateMoves(env, w, entity, data, p);
    case Update(entity, id, data) => UpdateMoves(env, w, entity, id, data, p);
    case Remove(entity, id) => RemoveMoves(env, w, entity, id, p);
  }

  /** One operation more of history. */
  lemma HistoryGrows(env: Env, w: World, ops: seq<TxOp>, n: nat, p: Place)
    requires n < |ops|
    ensures
      InPlace(env, w, ops, n + 1, p) <==>
      InPlace(env, w, ops, n, p) && !RecordsDelete(env, AfterOps(env, w, ops, n), ops[n], p)
    ensures forall field ::
              WasSet(env, w, ops, n + 1, p, field) <==>
              WasSet(env, w, ops, n, p, field) || SetsInPlace(env, w, ops, n, p, field)
  {
    hide RecordsDelete, AfterOps, SetsInPlace;
  }

  lemma TrackStart(env: Env, w: World, ops: seq<TxOp>, p: Place)
    requires w.tx == Some([]) && p in w.docs
    ensures Tracked(env, w, ops, 0, p)
  {
  }

  lemma TrackStep(env: Env, w: World, ops: seq<TxOp>, n: nat, p: Place)
    requires n < |ops| && p in w.docs && Tracked(env, w, ops, n, p)
    requires
      var (after, ok) := AfterOp(env, AfterOps(env, w, ops, n), ops[n]);
      Moves(env, AfterOps(env, w, ops, n), after, ops[n], ok, p)
    ensures Tracked(env, w, ops, n + 1, p)
  {
    HistoryGrows(env, w, ops, n, p);
    hide OnlyUpdates, Undone, RecordsDelete, UpdatesField, AfterOp, InPlace, WasSet;
  }

  lemma {:induction false} OpsTrack(env: Env, w: World, ops: seq<TxOp>, n: nat, p: Place)
    requires n <= |ops| && w.tx == Some([]) && SaysItsId(w.docs) && AllFair(env, w, ops) && p in w.docs
    ensures Tracked(env, w, ops, n, p)
    decreases n
  {
    hide *;
    if n == 0 {
      TrackStart(env, w, ops, p);
    } else {
      OpsTrack(env, w, ops, n - 1, p);
      OpsKeepRestorable(env, w, ops, n - 1);
      ReadyToMove(env, w, ops, n - 1, p);
      OpMoves(env, AfterOps(env, w, ops, n - 1), ops[n - 1], p);
      TrackStep(env, w, ops, n - 1, p);
    }
  }

  lemma ReadyToMove(env: Env, w: World, ops: seq<TxOp>, n: nat, p: Place)
    requires n < |ops| && AllFair(env, w, ops) && p in w.docs && Tracked(env, w, ops, n, p)
    requires Restorable(env, w.docs, AfterOps(env, w, ops, n))
    ensures
      var now := AfterOps(env, w, ops, n);
      && now.tx.Some? && SaysItsId(now.docs) && Fair(env, now, ops[n]) && p in Undone(now)
      && (OnlyUpdates(now.tx.value, |now.tx.value|, p) ==> p in now.docs)
  {
  }

  /** After any operations of a transaction, whichever of their calls failed, a rollback whose undos all succeed
      leaves the same records, each with every field it had; with precisely the fields more that successful updates
      set while it was in place; and so exactly the same if and only if none of those was new to it. */
  lemma RollbackRestores(env: Env, w: World, ops: seq<TxOp>)
    requires w.tx == None && SaysItsId(w.docs)
    requires AllFair(env, AfterBegin(w).0, ops)
    ensures
      var begun := AfterBegin(w).0;
      var (end, ok) := AfterRollback(env, AfterOps(env, begun, ops, |ops|));
      && end.tx == None
      && (ok ==>
           && Extends(w.docs, end.docs)
           && (forall p, field :: p in w.docs ==>
                 (field in end.docs[p] <==> field in w.docs[p] || WasSet(env, begun, ops, |ops|, p, field)))
           && (end.docs == w.docs <==> !AddsField(env, begun, ops)))
  {
    hide WasSet, AfterOps, SaysItsId, AllFair, OnlyUpdates;
    var begun := AfterBegin(w).0;
    var last := AfterOps(env, begun, ops, |ops|);
    OpsKeepRestorable(env, begun, ops, |ops|);
    RestorableRollsBack(env, w.docs, last);
    forall p | p in w.docs
      ensures Tracked(env, begun, ops, |ops|, p)
    {
      OpsTrack(env, begun, ops, |ops|, p);
    }
    var (end, ok) := AfterRollback(env, last);
    if ok {
      assert end.docs == Undone(last);
      SameFieldsSameDocs(w.docs, end.docs);
    }
  }

  lemma SameFieldsSameDocs(a: Docs, b: Docs)
    requires Extends(a, b)
    ensures a == b <==> forall p, field :: p in a && field in b[p] ==> field in a[p]
  {
    if forall p, field :: p in a && field in b[p] ==> field in a[p] {
      forall p | p in a
        ensures a[p] == b[p]
      {
      }
    }
  }

  // ---------------------------------------------------------------------
  // When some undos fail
  // ---------------------------------------------------------------------

  /** The worlds a walk through the first `n` entries passes, last entry first: every entry is undone in the world the
      one after it left, whether or not that one's undo succeeded; `done` says which did. */
  ghost predicate UndoRun(env: Env, log: seq<UndoOp>, n: nat, worlds: seq<World>, done: seq<bool>) {
    && n <= |log| && |worlds| == n + 1 && |done| == n
    && forall k :: 0 <= k < n ==> (worlds[k + 1], done[k]) == AfterUndo(env, worlds[k], log[n - 1 - k])
  }

  lemma {:induction false} UndosRun(env: Env, w: World, log: seq<UndoOp>, n: nat)
    returns (worlds: seq<World>, done: seq<bool>)
    requires n <= |log|
    ensures UndoRun(env, log, n, worlds, done) && worlds[0] == w && worlds[n] == AfterUndos(env, w, log, n).0
    ensures AfterUndos(env, w, log, n).1 == 0 <==> forall k :: 0 <= k < n ==> done[k]
    decreases n
  {
    hide AfterUndo;
    worlds, done := [w], [];
    if n > 0 {
      var (next, ok) := AfterUndo(env, w, log[n - 1]);
      var rest, oks := UndosRun(env, next, log, n - 1);
      worlds, done := [w] + rest, [ok] + oks;
      forall k | 0 <= k < n
        ensures (worlds[k + 1], done[k]) == AfterUndo(env, worlds[k], log[n - 1 - k])
      {
        if k > 0 { assert (rest[k - 1 + 1], oks[k - 1]) == AfterUndo(env, rest[k - 1], log[n - 1 - 1 - (k - 1)]); }
      }
      assert done[0] == ok && forall k :: 0 <= k < n - 1 ==> done[k + 1] == oks[k];
    }
  }

  /** A rollback tries every entry of the log, last first, however many undos fail on the way; it leaves the world the
      last of them left, the transaction over, and reports success exactly when none failed. */
  lemma RollbackTriesEveryEntry(env: Env, w: World) returns (worlds: seq<World>, done: seq<bool>)
    requires w.tx.Some?
    ensures UndoRun(env, w.tx.value, |w.tx.value|, worlds, done) && worlds[0] == w
    ensures AfterRollback(env, w).0 == worlds[|w.tx.value|].(tx := None)
    ensures AfterRollback(env, w).1 <==> forall k :: 0 <= k < |done| ==> done[k]
  {
    worlds, done := UndosRun(env, w, w.tx.value, |w.tx.value|);
  }

  /** The same document at `p` in both, or none in either. */
  ghost predicate AgreeAt(p: Place, a: Docs, b: Docs) {
    (p in a <==> p in b) && (p in a ==> a[p] == b[p])
  }

  /** An undo that fails changes no document, and one that succeeds only the one its entry names. */
  lemma UndoTouchesItsPlace(env: Env, w: World, op: UndoOp, p: Place)
    requires Addressed(op)
    ensures !AfterUndo(env, w, op).1 ==> AfterUndo(env, w, op).0.docs == w.docs
    ensures p != At(op) ==> AgreeAt(p, AfterUndo(env, w, op).0.docs, w.docs)
  {
  }

  lemma {:induction false} RunAgreesAt(env: Env, log: seq<UndoOp>, n: nat, worlds: seq<World>, done: seq<bool>, docs: Docs,
                                       p: Place)
    requires UndoRun(env, log, n, worlds, done) && AllAddressed(log) && AgreeAt(p, worlds[0].docs, docs)
    requires forall k :: 0 <= k < n && At(log[n - 1 - k]) == p ==> done[k]
    ensures AgreeAt(p, worlds[n].docs, UndoAll(log, n, docs))
    decreases n
  {
    hide AfterUndo;
    if n > 0 {
      var u := log[n - 1];
      assert (worlds[0 + 1], done[0]) == AfterUndo(env, worlds[0], log[n - 1 - 0]);
      UndoTouchesItsPlace(env, worlds[0], u, p);
      UndoDoes(env, worlds[0], u);
      forall k | 0 <= k < n - 1
        ensures (worlds[1..][k + 1], done[1..][k]) == AfterUndo(env, worlds[1..][k], log[n - 1 - 1 - k])
      {
        assert (worlds[k + 1 + 1], done[k + 1]) == AfterUndo(env, worlds[k + 1], log[n - 1 - (k + 1)]);
      }
      RunAgreesAt(env, log, n - 1, worlds[1..], done[1..], UndoDocs(u, docs), p);
    }
  }

  /** Even when undos fail elsewhere, a place whose own undos all succeed is restored: a record stands there exactly
      when one did before, with every field it had and just the fields more that `RollbackRestores` names. */
  lemma PlaceIsRestored(env: Env, w: World, ops: seq<TxOp>, worlds: seq<World>, done: seq<bool>, p: Place)
    requires w.tx == None && SaysItsId(w.docs)
    requires AllFair(env, AfterBegin(w).0, ops)
    requires
      var last := AfterOps(env, AfterBegin(w).0, ops, |ops|);
      && last.tx.Some? && UndoRun(env, last.tx.value, |last.tx.value|, worlds, done) && worlds[0] == last
      && forall k :: 0 <= k < |done| && At(last.tx.value[|done| - 1 - k]) == p ==> done[k]
    ensures
      var begun := AfterBegin(w).0;
      var end := AfterRollback(env, AfterOps(env, begun, ops, |ops|)).0;
      && (p in end.docs <==> p in w.docs)
      && (p in w.docs ==>
            && Keeps(w.docs[p], end.docs[p])
            && forall field :: field in end.docs[p] <==> field in w.docs[p] || WasSet(env, begun, ops, |ops|, p, field))
  {
    hide WasSet, AfterOps, SaysItsId, AllFair, OnlyUpdates, AfterUndo, UndoAll, AllUndoable, AfterUndos;
    var begun := AfterBegin(w).0;
    var last := AfterOps(env, begun, ops, |ops|);
    OpsKeepRestorable(env, begun, ops, |ops|);
    RunAgreesAt(env, last.tx.value, |last.tx.value|, worlds, done, last.docs, p);
    var again, dones := RollbackTriesEveryEntry(env, last);
    SameRun(env, last.tx.value, |last.tx.value|, worlds, done, again, dones);
    assert AgreeAt(p, AfterRollback(env, last).0.docs, Undone(last));
    if p in w.docs { OpsTrack(env, begun, ops, |ops|, p); }
  }

  lemma {:induction false} SameRun(env: Env, log: seq<UndoOp>, n: nat, a: seq<World>, oks: seq<bool>, b: seq<World>,
                                   dones: seq<bool>)
    requires UndoRun(env, log, n, a, oks) && UndoRun(env, log, n, b, dones) && a[0] == b[0]
    ensures a == b && oks == dones
  {
    hide AfterUndo;
    var k := 0;
    while k < n
      invariant 0 <= k <= n && a[k] == b[k]
      invariant forall j :: 0 <= j < k ==> a[j] == b[j] && oks[j] == dones[j]
    {
      assert (a[k + 1], oks[k]) == (b[k + 1], dones[k]);
      k := k + 1;
    }
  }

  /** A network that lets every call through but deletes. */
  predicate DeletesFail(verb: Verb, call: nat) {
    verb == DELETE
  }

  function NoId(call: nat): string {
    ""
  }

  /** The log after a delete that fails and an update that adds a field. */
  lemma FailedDeleteIsLogged(env: Env, w: World, doc: Doc)
    requires env == Env({"e"}, DeletesFail, NoId) && doc == map["id" := Str("1")]
    requires w == World(map[("e", "1") := doc], 0, Some([]))
    ensures
      var last := AfterOps(env, w, [Remove("e", "1"), Update("e", "1", map["x" := Null])], 2);
      && last.docs == map[("e", "1") := doc + map["x" := Null]]
      && last.tx == Some([UndoDelete("e", "1", doc), UndoUpdate("e", "1", doc)])
  {
    LowerCaseIsKept();
    var ops := [Remove("e", "1"), Update("e", "1", map["x" := Null])];
    assert AfterOps(env, w, ops, 0) == w;
    var first := AfterOps(env, w, ops, 1);
    assert first == AfterOp(env, w, ops[0]).0;
    assert AfterRead(env, w, "e", "1").1 == Ok(doc);
    RemoveEffect(env, w, "e", "1");
    assert [] + [UndoDelete("e", "1", doc)] == [UndoDelete("e", "1", doc)];
    assert AfterRead(env, first, "e", "1").1 == Ok(doc);
    UpdateEffect(env, first, "e", "1", map["x" := Null]);
    assert [UndoDelete("e", "1", doc)] + [UndoUpdate("e", "1", doc)] == [UndoDelete("e", "1", doc), UndoUpdate("e", "1", doc)];
  }

  /** While only deletes fail, undoing an update or a delete succeeds. */
  lemma UndoneWithoutDeletes(env: Env, w: World, op: UndoOp)
    requires forall call :: !env.down(GET, call) && !env.down(PUT, call)
    requires Undoable(env, op, w.docs) && Addressed(op) && !op.UndoCreate?
    ensures AfterUndo(env, w, op).1 && AfterUndo(env, w, op).0.docs == UndoDocs(op, w.docs)
  {
    UndoDoes(env, w, op);
  }

  lemma TwoUndone(env: Env, w: World, log: seq<UndoOp>)
    requires |log| == 2 && w.tx == Some(log)
    requires AfterUndo(env, w, log[1]).1 && AfterUndo(env, AfterUndo(env, w, log[1]).0, log[0]).1
    ensures AfterRollback(env, w).1
    ensures AfterRollback(env, w).0.docs == AfterUndo(env, AfterUndo(env, w, log[1]).0, log[0]).0.docs
  {
    hide AfterUndo;
    var undone := AfterUndo(env, w, log[1]).0;
    var end := AfterUndo(env, undone, log[0]).0;
    assert AfterUndos(env, end, log, 0) == (end, 0);
    assert AfterUndos(env, undone, log, 1) == (end, 0);
  }

  /** Why a recorded delete counts even when it failed: undoing it writes the snapshot back, and with that takes away
      a field that was added after it. */
  lemma FailedDeleteTakesFieldBack()
    ensures
      var env := Env({"e"}, DeletesFail, NoId);
      var w := World(map[("e", "1") := map["id" := Str("1")]], 0, None);
      var ops := [Remove("e", "1"), Update("e", "1", map["x" := Null])];
      var (end, ok) := AfterRollback(env, AfterOps(env, AfterBegin(w).0, ops, 2));
      ok && end.docs == w.docs
  {
    var env := Env({"e"}, DeletesFail, NoId);
    var doc: Doc := map["id" := Str("1")];
    var w := World(map[("e", "1") := doc], 0, None);
    LowerCaseIsKept();
    FailedDeleteIsLogged(env, AfterBegin(w).0, doc);
    TakenBackAgain(doc, doc + map["x" := Null]);
    hide AfterOps, AfterUndo, AfterRollback, UndoDocs, PlaceOf;
    var last := AfterOps(env, AfterBegin(w).0, [Remove("e", "1"), Update("e", "1", map["x" := Null])], 2);
    var log := last.tx.value;
    UndoneWithoutDeletes(env, last, log[1]);
    var undone := AfterUndo(env, last, log[1]).0;
    UndoneWithoutDeletes(env, undone, log[0]);
    TwoUndone(env, last, log);
  }

  lemma TakenBackAgain(doc: Doc, more: Doc)
    ensures
      var merged := UndoDocs(UndoUpdate("e", "1", doc), map[("e", "1") := more]);
      && ("e", "1") in merged
      && UndoDocs(UndoDelete("e", "1", doc), merged) == map[("e", "1") := doc]
  {
    LowerCaseIsKept();
  }

  lemma LowerCaseIsKept()
    ensures PlaceOf("e", "1") == ("e", "1")
  {
    assert Lower("e") == "e";
  }

  /** When the network holds from the first undo on, all undos do succeed. */
  lemma QuietRollbackSucceeds(env: Env, w: World, ops: seq<TxOp>)
    requires w.tx == None && SaysItsId(w.docs)
    requires AllFair(env, AfterBegin(w).0, ops)
    requires Quiet(env, AfterOps(env, AfterBegin(w).0, ops, |ops|).calls)
    ensures AfterRollback(env, AfterOps(env, AfterBegin(w).0, ops, |ops|)).1
  {
    var begun := AfterBegin(w).0;
    OpsKeepRestorable(env, begun, ops, |ops|);
    RestorableRollsBack(env, w.docs, AfterOps(env, begun, ops, |ops|));
  }

  // ---------------------------------------------------------------------
  // Exactly when one successful operation is undone exactly
  // ---------------------------------------------------------------------

  /** The operation adds no field to a document it reads. */
  predicate AddsNoField(env: Env, w: World, op: TxOp) {
    op.Update? ==>
      (var r := AfterRead(env, w, op.entity, op.id).1;
       r.Ok? ==> op.data.Keys <= r.value.Keys)
  }

  /** A create must not replace a document, an update must add no field, a delete's snapshot read must succeed. */
  predicate UndoneExactly(env: Env, w: World, op: TxOp) {
    match op
    case Create(entity, data) => PlaceOf(entity, NewId(data, env.newId(w.calls))) !in w.docs
    case Update(_, _, _) => AddsNoField(env, w, op)
    case Remove(entity, id) => AfterRead(env, w, entity, id).1.Ok?
  }

  /** A transaction of one operation that succeeded, rolled back without a failed undo, leaves exactly the documents
      it found if and only if the operation met that condition. */
  lemma OneOpUndoneExactly(env: Env, w: World, op: TxOp)
    requires w.tx == None && SaysItsId(w.docs)
    requires AfterOp(env, AfterBegin(w).0, op).1
    requires AfterRollback(env, AfterOp(env, AfterBegin(w).0, op).0).1
    ensures
      AfterRollback(env, AfterOp(env, AfterBegin(w).0, op).0).0.docs == w.docs
      <==> UndoneExactly(env, AfterBegin(w).0, op)
  {
    var begun := AfterBegin(w).0;
    var (after, _) := AfterOp(env, begun, op);
    OneEntryUndone(env, begun, op);
    if after.tx.value == [] {
      assert AfterUndos(env, after, [], 0).0 == after;
    } else {
      hide AfterOp, UndoneExactly, AfterUndo, UndoDocs;
      UndosDo(env, after, after.tx.value, 1);
    }
  }

  /** The log after one successful operation: at most one entry, undone exactly when the condition holds. */
  lemma OneEntryUndone(env: Env, begun: World, op: TxOp)
    requires begun.tx == Some([]) && SaysItsId(begun.docs) && AfterOp(env, begun, op).1
    ensures
      var after := AfterOp(env, begun, op).0;
      && after.tx.Some?
      && (after.tx.value == [] ==> after.docs != begun.docs && !UndoneExactly(env, begun, op))
      && (after.tx.value != [] ==>
           && |after.tx.value| == 1
           && Addressed(after.tx.value[0])
           && (UndoDocs(after.tx.value[0], after.docs) == begun.docs <==> UndoneExactly(env, begun, op)))
  {
    hide AfterCreate, AfterUpdate, AfterRemove, AfterRead, NewId;
    var after := AfterOp(env, begun, op).0;
    match op {
      case Create(entity, data) =>
        CreateEffect(env, begun, entity, data);
        var p := PlaceOf(entity, NewId(data, env.newId(begun.calls)));
        assert p in begun.docs || after.docs - {p} == begun.docs;
      case Update(entity, id, data) =>
        UpdateEffect(env, begun, entity, id, data);
        UndoneUpdate(begun.docs, entity, id, data);
      case Remove(entity, id) =>
        RemoveEffect(env, begun, entity, id);
        var p := PlaceOf(entity, id);
        assert (begun.docs - {p})[p := begun.docs[p]] == begun.docs;
    }
  }
}
