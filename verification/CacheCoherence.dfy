/** Exact coherence: one operation at a time, nothing failing, no rollback -- every read through the cache
    is the wrapped adapter's own read. */
module CacheCoherence {
  import opened Text
  import opened Json
  import opened CacheKey
  import opened CachingAdapter

  /** The record is cached under text that parses. */
  predicate Cached(codec: Codec, redis: Redis, entity: string, id: string) {
    RecordKey(entity, id) in redis && codec.parse(redis[RecordKey(entity, id)].text).Some?
  }

  /** Any cached record, expired or not, is what the wrapped adapter would return. */
  ghost predicate Coherent<S>(codec: Codec, reader: Reader<S>, st: State<S>) {
    forall e, id :: Routed(e) && Cached(codec, st.redis, e, id) ==>
      reader(st.inner, e, id) == Ok(codec.parse(st.redis[RecordKey(e, id)].text).value)
  }

  /** No record outside `changed` reads differently in the new state. */
  ghost predicate OnlyChanges<S(!new)>(reader: Reader<S>, before: S, after: S, changed: (string, string) -> bool) {
    forall e, id :: !changed(e, id) ==> reader(after, e, id) == reader(before, e, id)
  }

  ghost predicate Unchanged<S(!new)>(reader: Reader<S>, before: S, after: S) {
    forall e, id :: reader(after, e, id) == reader(before, e, id)
  }

  /** One operation, with everything its environment does. */
  datatype Op<S> =
    | ReadOp(entity: string, id: string, get: Lookup, set_: Backfill)
    | CreateOp(entity: string, written: Effect<S, Json>, deleted: bool)
    | UpdateOp(entity: string, id: string, written: Effect<S, Json>, deleted: bool)
    | RemoveOp(entity: string, id: string, removed: Effect<S, bool>, deleted: bool)
    | UpsertOp(entity: string, written: Effect<S, Json>, deleted: bool)
    | ManyOp(entity: string, counted: Effect<S, int>, turns: seq<ScanTurn>)
    | ForwardOp(forwarded: Effect<S, bool>)

  /** The state an operation leaves and, for a read, what it returned. */
  function Apply<S>(codec: Codec, ttl: int, reader: Reader<S>, st: State<S>, op: Op<S>): (State<S>, Option<Result<Json>>) {
    match op
    case ReadOp(e, id, get, set_) =>
      var (next, r) := AfterRead(codec, ttl, reader, st, e, id, get, set_);
      (next, Some(r))
    case CreateOp(e, w, deleted) => (AfterWrite(st, w, e, WrittenId(w.result), deleted), None)
    case UpdateOp(e, id, w, deleted) => (AfterWrite(st, w, e, id, deleted), None)
    case RemoveOp(e, id, w, deleted) => (AfterWrite(st, w, e, id, deleted), None)
    case UpsertOp(e, w, deleted) => (AfterWrite(st, w, e, WrittenId(w.result), deleted), None)
    case ManyOp(e, w, turns) => (AfterBulk(st, w, e, turns), None)
    case ForwardOp(w) => (State(w.inner, st.redis), None)
  }

  /** SCAN's guarantee for a run in which no call throws: it visits every matching key that was there throughout. */
  ghost predicate CompleteScan(redis: Redis, entity: string, turns: seq<ScanTurn>) {
    && (forall i :: 0 <= i < |turns| ==> turns[i].Scanned? && turns[i].unlinked && !turns[i].threw)
    && (forall k :: k in redis && GlobMatch(EntityScanPattern(entity), k) ==> ScannedSomewhere(turns, k))
  }

  ghost predicate ScannedSomewhere(turns: seq<ScanTurn>, k: string) {
    exists i :: 0 <= i < |turns| && turns[i].Scanned? && k in turns[i].keys
  }

  /** The wrapped adapter's side of a write of one record: a failure changes nothing, a success at most
      the record under a non-empty id. */
  ghost predicate HonestWrite<S(!new), T>(reader: Reader<S>, before: S, w: Effect<S, T>, entity: string, id: string) {
    if w.result.Ok? then id != "" && OnlyChanges(reader, before, w.inner, (e, i) => e == entity && i == id)
    else Unchanged(reader, before, w.inner)
  }

  ghost predicate HonestMany<S(!new), T>(reader: Reader<S>, before: S, w: Effect<S, T>, entity: string) {
    if w.result.Ok? then OnlyChanges(reader, before, w.inner, (e, i) => e == entity)
    else Unchanged(reader, before, w.inner)
  }

  /** The operation runs without failures, on a routed entity, and is not a rollback: a forwarded begin or
      commit changes no record. */
  ghost predicate Clean<S(!new)>(reader: Reader<S>, st: State<S>, op: Op<S>) {
    match op
    case ReadOp(e, id, get, set_) => Routed(e)
    case CreateOp(e, w, deleted) => Routed(e) && deleted && HonestWrite(reader, st.inner, w, e, WrittenId(w.result))
    case UpdateOp(e, id, w, deleted) => Routed(e) && deleted && HonestWrite(reader, st.inner, w, e, id)
    case RemoveOp(e, id, w, deleted) => Routed(e) && deleted && HonestWrite(reader, st.inner, w, e, id)
    case UpsertOp(e, w, deleted) => Routed(e) && deleted && HonestWrite(reader, st.inner, w, e, WrittenId(w.result))
    case ManyOp(e, w, turns) => Routed(e) && HonestMany(reader, st.inner, w, e) && CompleteScan(st.redis, e, turns)
    case ForwardOp(w) => Unchanged(reader, st.inner, w.inner)
  }

  // ---------------------------------------------------------------------
  // Every clean operation keeps the cache coherent
  // ---------------------------------------------------------------------

  lemma ReadIsInnerRead<S>(codec: Codec, ttl: int, reader: Reader<S>, st: State<S>, e: string, id: string,
                           get: Lookup, set_: Backfill)
    requires Coherent(codec, reader, st) && Routed(e)
    ensures AfterRead(codec, ttl, reader, st, e, id, get, set_).1 == reader(st.inner, e, id)
  {
    assert RecordKey(e, id) == RecordKey(e, id);
  }

  /** A read answers from the cache exactly when GET answers and finds an entry that is live and parses, and then
      changes nothing. A throw, a miss, an expired or a corrupt entry all lead to the wrapped adapter, whose answer it
      passes on, and stores for the time to live if it has one and SETEX goes through. */
  lemma ReadMeaning<S>(codec: Codec, ttl: int, reader: Reader<S>, st: State<S>, e: string, id: string, get: Lookup,
                       set_: Backfill)
    ensures
      var ((after, r), key) := (AfterRead(codec, ttl, reader, st, e, id, get, set_), RecordKey(e, id));
      if get.Answered? && key in st.redis && get.now < st.redis[key].expires && codec.parse(st.redis[key].text) != None then
        after == st && r.Ok? && codec.parse(st.redis[key].text) == Some(r.value)
      else
        && r == reader(st.inner, e, id) && after.inner == st.inner
        && if r.Ok? && set_.Stored? && ttl > 0 then
             key in after.redis && after.redis[key] == Entry(codec.dump(r.value), set_.now + ttl) &&
             after.redis - {key} == st.redis - {key}
           else after.redis == st.redis
  {
  }

  /** Turn `i` unlinks the key: it visits it, no turn before it threw, and its own throw, if any, comes later. */
  ghost predicate Unlinks(turns: seq<ScanTurn>, i: nat, entity: string, key: string) {
    && i < |turns| && turns[i].Scanned? && turns[i].unlinked
    && key in turns[i].keys && GlobMatch(EntityScanPattern(entity), key)
    && forall j :: 0 <= j < i ==> turns[j].Scanned? && !turns[j].threw
  }

  ghost predicate IsUnlinked(turns: seq<ScanTurn>, entity: string, key: string) {
    exists i: nat :: Unlinks(turns, i, entity, key)
  }

  /** A scan drops a key exactly when some turn unlinks it. */
  lemma {:induction false} ScanMeaning(redis: Redis, entity: string, turns: seq<ScanTurn>)
    ensures forall k :: k in WithoutScanned(redis, entity, turns) <==> k in redis && !IsUnlinked(turns, entity, k)
    ensures forall k :: k in WithoutScanned(redis, entity, turns) ==> WithoutScanned(redis, entity, turns)[k] == redis[k]
    decreases |turns|
  {
    hide GlobMatch, EntityScanPattern;
    if turns != [] && turns[0].Scanned? {
      var batch := Matching(EntityScanPattern(entity), turns[0].keys);
      var left := if turns[0].unlinked then redis - batch else redis;
      if !turns[0].threw { ScanMeaning(left, entity, turns[1..]); }
      forall k
        ensures IsUnlinked(turns, entity, k) <==>
                (turns[0].unlinked && k in batch) || (!turns[0].threw && IsUnlinked(turns[1..], entity, k))
      {
        FirstTurn(turns, entity, k);
      }
    }
  }

  lemma FirstTurn(turns: seq<ScanTurn>, entity: string, k: string)
    requires turns != [] && turns[0].Scanned?
    ensures IsUnlinked(turns, entity, k) <==>
            || (turns[0].unlinked && k in Matching(EntityScanPattern(entity), turns[0].keys))
            || (!turns[0].threw && IsUnlinked(turns[1..], entity, k))
  {
    hide GlobMatch, EntityScanPattern;
    if turns[0].unlinked && k in Matching(EntityScanPattern(entity), turns[0].keys) { assert Unlinks(turns, 0, entity, k); }
    if i: nat :| !turns[0].threw && Unlinks(turns[1..], i, entity, k) { assert Unlinks(turns, i + 1, entity, k); }
    if i: nat :| i > 0 && Unlinks(turns, i, entity, k) {
      assert forall j :: 0 <= j < i - 1 ==> turns[1..][j] == turns[j + 1];
      assert Unlinks(turns[1..], i - 1, entity, k);
    }
  }

  /** A write of one record drops that record's key when it succeeded under an id and DEL went through; it drops no
      other, and none otherwise. */
  lemma WriteMeaning<S, T>(st: State<S>, effect: Effect<S, T>, entity: string, id: string, deleted: bool)
    ensures
      var after := AfterWrite(st, effect, entity, id, deleted);
      && after.inner == effect.inner
      && (forall k :: k in after.redis <==>
                      k in st.redis && !(effect.result.Ok? && id != "" && deleted && k == RecordKey(entity, id)))
      && forall k :: k in after.redis ==> after.redis[k] == st.redis[k]
  {
  }

  /** A bulk write drops, when it succeeded, exactly the keys its scan unlinks. */
  lemma ManyMeaning<S, T>(st: State<S>, effect: Effect<S, T>, entity: string, turns: seq<ScanTurn>)
    ensures
      var after := AfterBulk(st, effect, entity, turns);
      && after.inner == effect.inner
      && (forall k :: k in after.redis <==> k in st.redis && !(effect.result.Ok? && IsUnlinked(turns, entity, k)))
      && forall k :: k in after.redis ==> after.redis[k] == st.redis[k]
  {
    ScanMeaning(st.redis, entity, turns);
  }

  lemma ReadKeepsCoherence<S(!new)>(codec: Codec, ttl: int, reader: Reader<S>, st: State<S>, e: string, id: string,
                              get: Lookup, set_: Backfill)
    requires ReadsRoundTrip(codec, reader) && Coherent(codec, reader, st) && Routed(e)
    ensures Coherent(codec, reader, AfterRead(codec, ttl, reader, st, e, id, get, set_).0)
  {
    var next := AfterRead(codec, ttl, reader, st, e, id, get, set_).0;
    forall f, i | Routed(f) && Cached(codec, next.redis, f, i)
      ensures reader(next.inner, f, i) == Ok(codec.parse(next.redis[RecordKey(f, i)].text).value)
    {
      if RecordKey(f, i) == RecordKey(e, id) {
        RoutedHasNoColon(e);
        RoutedHasNoColon(f);
        RecordKeyInjective(f, i, e, id);
      }
    }
  }

  lemma WriteKeepsCoherence<S(!new), T>(codec: Codec, reader: Reader<S>, st: State<S>, w: Effect<S, T>, e: string, id: string)
    requires Coherent(codec, reader, st) && HonestWrite(reader, st.inner, w, e, id)
    ensures Coherent(codec, reader, AfterWrite(st, w, e, id, true))
  {
    var next := AfterWrite(st, w, e, id, true);
    forall f, i | Routed(f) && Cached(codec, next.redis, f, i)
      ensures reader(next.inner, f, i) == Ok(codec.parse(next.redis[RecordKey(f, i)].text).value)
    {
      assert !(w.result.Ok? && f == e && i == id);
    }
  }

  lemma {:induction false} ScanRemoves(redis: Redis, entity: string, turns: seq<ScanTurn>)
    requires forall i :: 0 <= i < |turns| ==> turns[i].Scanned? && turns[i].unlinked && !turns[i].threw
    ensures forall k :: k in WithoutScanned(redis, entity, turns) <==>
              k in redis && !(GlobMatch(EntityScanPattern(entity), k) && ScannedSomewhere(turns, k))
    ensures forall k :: k in WithoutScanned(redis, entity, turns) ==> WithoutScanned(redis, entity, turns)[k] == redis[k]
  {
    hide GlobMatch, EntityScanPattern;
    if turns != [] {
      var left := redis - Matching(EntityScanPattern(entity), turns[0].keys);
      ScanRemoves(left, entity, turns[1..]);
      forall k
        ensures ScannedSomewhere(turns, k) <==> k in turns[0].keys || ScannedSomewhere(turns[1..], k)
      {
        if i :| 0 <= i < |turns| && turns[i].Scanned? && k in turns[i].keys && i > 0 {
          assert turns[1..][i - 1] == turns[i];
        }
        if i :| 0 <= i < |turns[1..]| && turns[1..][i].Scanned? && k in turns[1..][i].keys {
          assert turns[i + 1] == turns[1..][i];
        }
      }
    }
  }

  lemma ManyKeepsCoherence<S(!new), T>(codec: Codec, reader: Reader<S>, st: State<S>, w: Effect<S, T>, e: string, turns: seq<ScanTurn>)
    requires Coherent(codec, reader, st) && Routed(e)
    requires HonestMany(reader, st.inner, w, e) && CompleteScan(st.redis, e, turns)
    ensures Coherent(codec, reader, AfterBulk(st, w, e, turns))
  {
    var next := AfterBulk(st, w, e, turns);
    ScanRemoves(st.redis, e, turns);
    forall f, i | Routed(f) && Cached(codec, next.redis, f, i)
      ensures reader(next.inner, f, i) == Ok(codec.parse(next.redis[RecordKey(f, i)].text).value)
    {
      if w.result.Ok? && f == e {
        PatternMatchesEntity(e, RecordKey(f, i));
        assert false;
      }
    }
  }

  lemma StepKeepsCoherence<S(!new)>(codec: Codec, ttl: int, reader: Reader<S>, st: State<S>, op: Op<S>)
    requires ReadsRoundTrip(codec, reader) && Coherent(codec, reader, st) && Clean(reader, st, op)
    ensures Coherent(codec, reader, Apply(codec, ttl, reader, st, op).0)
    ensures op.ReadOp? ==> Apply(codec, ttl, reader, st, op).1 == Some(reader(st.inner, op.entity, op.id))
  {
    match op
    case ReadOp(e, id, get, set_) =>
      ReadIsInnerRead(codec, ttl, reader, st, e, id, get, set_);
      ReadKeepsCoherence(codec, ttl, reader, st, e, id, get, set_);
    case CreateOp(e, w, _) => WriteKeepsCoherence(codec, reader, st, w, e, WrittenId(w.result));
    case UpdateOp(e, id, w, _) => WriteKeepsCoherence(codec, reader, st, w, e, id);
    case RemoveOp(e, id, w, _) => WriteKeepsCoherence(codec, reader, st, w, e, id);
    case UpsertOp(e, w, _) => WriteKeepsCoherence(codec, reader, st, w, e, WrittenId(w.result));
    case ManyOp(e, w, turns) => ManyKeepsCoherence(codec, reader, st, w, e, turns);
    case ForwardOp(w) =>
  }

  // ---------------------------------------------------------------------
  // Whole runs
  // ---------------------------------------------------------------------

  function StateAfter<S>(codec: Codec, ttl: int, reader: Reader<S>, st: State<S>, ops: seq<Op<S>>): State<S> {
    if ops == [] then st
    else Apply(codec, ttl, reader, StateAfter(codec, ttl, reader, st, ops[..|ops| - 1]), ops[|ops| - 1]).0
  }

  ghost predicate CleanRun<S(!new)>(codec: Codec, ttl: int, reader: Reader<S>, st: State<S>, ops: seq<Op<S>>) {
    forall n {:trigger ops[n]} :: 0 <= n < |ops| ==> Clean(reader, StateAfter(codec, ttl, reader, st, ops[..n]), ops[n])
  }

  lemma RunSnoc<S>(codec: Codec, ttl: int, reader: Reader<S>, st: State<S>, ops: seq<Op<S>>, op: Op<S>)
    ensures StateAfter(codec, ttl, reader, st, ops + [op]) ==
            Apply(codec, ttl, reader, StateAfter(codec, ttl, reader, st, ops), op).0
  {
    assert (ops + [op])[..|ops + [op]| - 1] == ops;
  }

  lemma {:induction false} RunKeepsCoherence<S(!new)>(codec: Codec, ttl: int, reader: Reader<S>, st: State<S>, ops: seq<Op<S>>, n: nat)
    requires ReadsRoundTrip(codec, reader) && Coherent(codec, reader, st) && n <= |ops|
    requires CleanRun(codec, ttl, reader, st, ops)
    ensures Coherent(codec, reader, StateAfter(codec, ttl, reader, st, ops[..n]))
  {
    if n != 0 {
      RunKeepsCoherence(codec, ttl, reader, st, ops, n - 1);
      assert ops[..n][..n - 1] == ops[..n - 1];
      StepKeepsCoherence(codec, ttl, reader, StateAfter(codec, ttl, reader, st, ops[..n - 1]), ops[n - 1]);
    }
  }

  /** Every read of every clean run that starts with an empty cache returns the wrapped adapter's own read. */
  lemma ExactCoherence<S(!new)>(codec: Codec, ttl: int, reader: Reader<S>, inner: S, ops: seq<Op<S>>, n: nat)
    requires ReadsRoundTrip(codec, reader) && CleanRun(codec, ttl, reader, State(inner, map[]), ops)
    requires n < |ops| && ops[n].ReadOp?
    ensures var st := StateAfter(codec, ttl, reader, State(inner, map[]), ops[..n]);
            Apply(codec, ttl, reader, st, ops[n]).1 == Some(reader(st.inner, ops[n].entity, ops[n].id))
  {
    RunKeepsCoherence(codec, ttl, reader, State(inner, map[]), ops, n);
    StepKeepsCoherence(codec, ttl, reader, StateAfter(codec, ttl, reader, State(inner, map[]), ops[..n]), ops[n]);
  }

  /** A value that was stored is served, whatever the wrapped adapter would say by then, exactly until its time to
      live is over. */
  lemma StoredIsServedUntilExpiry<S(!new)>(codec: Codec, ttl: int, reader: Reader<S>, later: Reader<S>, st: State<S>, inner: S,
                                     e: string, id: string, now: int, then_: int)
    requires ReadsRoundTrip(codec, reader) && ttl > 0 && reader(st.inner, e, id).Ok?
    requires CacheHit(codec, st.redis, RecordKey(e, id), Answered(now)).None?
    ensures
      var filled := AfterRead(codec, ttl, reader, st, e, id, Answered(now), Stored(now)).0;
      AfterRead(codec, ttl, later, State(inner, filled.redis), e, id, Answered(then_), NotStored).1
      == if then_ < now + ttl then reader(st.inner, e, id) else later(inner, e, id)
  {
    hide RecordKey;
    assert codec.parse(codec.dump(reader(st.inner, e, id).value)) == Some(reader(st.inner, e, id).value);
  }

  /** A forwarded transaction call keeps the cache coherent exactly when it leaves alone every record that
      is cached; it never invalidates anything itself. */
  lemma ForwardedCallCoherence<S(!new)>(codec: Codec, ttl: int, reader: Reader<S>, st: State<S>, w: Effect<S, bool>)
    requires Coherent(codec, reader, st)
    ensures Coherent(codec, reader, Apply(codec, ttl, reader, st, ForwardOp(w)).0) <==>
            (forall e, id :: Routed(e) && Cached(codec, st.redis, e, id) ==>
               reader(w.inner, e, id) == reader(st.inner, e, id))
  {
    forall e, id | Routed(e) && Cached(codec, st.redis, e, id)
      ensures reader(st.inner, e, id) == Ok(codec.parse(st.redis[RecordKey(e, id)].text).value)
    {
    }
  }

  // ---------------------------------------------------------------------
  // Transactions that are rolled back
  // ---------------------------------------------------------------------

  /** A write that succeeded on the record, or on every record of its entity. */
  predicate Writes<S>(op: Op<S>, entity: string, id: string) {
    match op
    case CreateOp(e, w, _) => w.result.Ok? && e == entity && WrittenId(w.result) == id
    case UpdateOp(e, i, w, _) => w.result.Ok? && e == entity && i == id
    case RemoveOp(e, i, w, _) => w.result.Ok? && e == entity && i == id
    case UpsertOp(e, w, _) => w.result.Ok? && e == entity && WrittenId(w.result) == id
    case ManyOp(e, w, _) => w.result.Ok? && e == entity
    case _ => false
  }

  /** A read of the record whose SETEX, if it came to one, took effect. */
  predicate StoringRead<S>(op: Op<S>, entity: string, id: string) {
    op.ReadOp? && op.entity == entity && op.id == id && op.set_.Stored?
  }

  /** The record was read through the cache, and stored, after the last write on it. */
  ghost predicate ReadSinceWritten<S>(ops: seq<Op<S>>, entity: string, id: string) {
    exists k: nat :: StoredAt(ops, k, entity, id)
  }

  ghost predicate StoredAt<S>(ops: seq<Op<S>>, k: nat, entity: string, id: string) {
    k < |ops| && StoringRead(ops[k], entity, id) && forall m :: k < m < |ops| ==> !Writes(ops[m], entity, id)
  }

  ghost predicate Written<S>(ops: seq<Op<S>>, entity: string, id: string) {
    exists k :: 0 <= k < |ops| && Writes(ops[k], entity, id)
  }

  /** The history by which the record is cached: read and stored since the last write on it, or, with no write on it,
      cached at the start. */
  ghost predicate Held<S>(codec: Codec, ttl: int, st: State<S>, ops: seq<Op<S>>, entity: string, id: string) {
    || (ttl > 0 && ReadSinceWritten(ops, entity, id))
    || (!Written(ops, entity, id) && Cached(codec, st.redis, entity, id))
  }

  /** One clean operation, seen from one record: a write on it drops it from the cache, nothing else changes what it
      reads as, and only a storing read of it that finds it puts it there. */
  lemma StepOnRecord<S(!new)>(codec: Codec, ttl: int, reader: Reader<S>, st: State<S>, op: Op<S>, e: string, id: string)
    requires ReadsRoundTrip(codec, reader) && Coherent(codec, reader, st) && Clean(reader, st, op) && Routed(e)
    ensures
      var next := Apply(codec, ttl, reader, st, op).0;
      if Writes(op, e, id) then !Cached(codec, next.redis, e, id)
      else
        && reader(next.inner, e, id) == reader(st.inner, e, id)
        && (Cached(codec, next.redis, e, id) <==>
            || Cached(codec, st.redis, e, id)
            || (ttl > 0 && StoringRead(op, e, id) && reader(st.inner, e, id).Ok?))
  {
    RoutedHasNoColon(e);
    match op
    case ReadOp(f, i, get, set_) =>
      if RecordKey(f, i) == RecordKey(e, id) {
        RoutedHasNoColon(f);
        RecordKeyInjective(f, i, e, id);
      }
    case CreateOp(f, w, _) => WriteOnRecord(f, WrittenId(w.result), e, id);
    case UpdateOp(f, i, w, _) => WriteOnRecord(f, i, e, id);
    case RemoveOp(f, i, w, _) => WriteOnRecord(f, i, e, id);
    case UpsertOp(f, w, _) => WriteOnRecord(f, WrittenId(w.result), e, id);
    case ManyOp(f, w, turns) =>
      ScanRemoves(st.redis, f, turns);
      ScanOnRecord(f, e, id);
    case ForwardOp(w) =>
  }

  lemma WriteOnRecord(f: string, i: string, e: string, id: string)
    requires Routed(f) && Routed(e)
    ensures RecordKey(f, i) == RecordKey(e, id) <==> f == e && i == id
  {
    RoutedHasNoColon(f);
    RoutedHasNoColon(e);
    if RecordKey(f, i) == RecordKey(e, id) { RecordKeyInjective(f, i, e, id); }
  }

  lemma ScanOnRecord(f: string, e: string, id: string)
    requires Routed(f) && Routed(e)
    ensures GlobMatch(EntityScanPattern(f), RecordKey(e, id)) <==> f == e
  {
    PatternMatchesEntity(f, RecordKey(e, id));
    if i :| RecordKey(e, id) == RecordKey(f, i) { WriteOnRecord(f, i, e, id); }
  }

  lemma {:induction false} RunOnRecord<S(!new)>(codec: Codec, ttl: int, reader: Reader<S>, st: State<S>, ops: seq<Op<S>>,
                                                n: nat, e: string, id: string)
    requires ReadsRoundTrip(codec, reader) && Coherent(codec, reader, st) && CleanRun(codec, ttl, reader, st, ops)
    requires Routed(e) && n <= |ops|
    ensures
      var now := StateAfter(codec, ttl, reader, st, ops[..n]);
      && (Cached(codec, now.redis, e, id) <==> reader(now.inner, e, id).Ok? && Held(codec, ttl, st, ops[..n], e, id))
      && (!Written(ops[..n], e, id) ==> reader(now.inner, e, id) == reader(st.inner, e, id))
    decreases n
  {
    if n != 0 {
      hide Coherent, Clean, Apply, Cached, Writes, StoringRead, Routed, Written, ReadSinceWritten, ReadsRoundTrip;
      RunOnRecord(codec, ttl, reader, st, ops, n - 1, e, id);
      RunKeepsCoherence(codec, ttl, reader, st, ops, n - 1);
      var front := ops[..n - 1];
      assert ops[..n] == front + [ops[n - 1]];
      RunSnoc(codec, ttl, reader, st, front, ops[n - 1]);
      StepOnRecord(codec, ttl, reader, StateAfter(codec, ttl, reader, st, front), ops[n - 1], e, id);
      HistorySnoc(front, ops[n - 1], e, id);
    }
  }

  lemma HistorySnoc<S>(ops: seq<Op<S>>, op: Op<S>, e: string, id: string)
    ensures Written(ops + [op], e, id) <==> Written(ops, e, id) || Writes(op, e, id)
    ensures ReadSinceWritten(ops + [op], e, id) <==>
            !Writes(op, e, id) && (ReadSinceWritten(ops, e, id) || StoringRead(op, e, id))
  {
    hide Writes, StoringRead;
    var more, n := ops + [op], |ops|;
    if k :| 0 <= k < n && Writes(ops[k], e, id) { assert Writes(more[k], e, id); }
    if Writes(op, e, id) { assert Writes(more[n], e, id); }
    if k: nat :| StoredAt(ops, k, e, id) && !Writes(op, e, id) { assert StoredAt(more, k, e, id); }
    if StoringRead(op, e, id) && !Writes(op, e, id) { assert StoredAt(more, n, e, id); }
    if k: nat :| StoredAt(more, k, e, id) {
      assert k == n || more[k] == ops[k];
      forall m | k < m < n
        ensures !Writes(ops[m], e, id)
      {
        assert ops[m] == more[m];
      }
      assert k < n ==> StoredAt(ops, k, e, id) && !Writes(more[n], e, id);
      assert k == n ==> more[n] == op;
      if k == n { StoringReadIsNoWrite(op, e, id); }
    }
  }

  lemma StoringReadIsNoWrite<S>(op: Op<S>, e: string, id: string)
    requires StoringRead(op, e, id)
    ensures !Writes(op, e, id)
  {
  }

  /** The record is there now, and reads differently after the rollback. */
  ghost predicate TakenBack<S>(reader: Reader<S>, now: S, after: S, entity: string, id: string) {
    reader(now, entity, id).Ok? && reader(now, entity, id) != reader(after, entity, id)
  }

  /** A transaction that begins with a coherent cache and runs cleanly, and is then rolled back to whatever state,
      leaves the cache coherent if and only if no record the rollback changes is cached by its history. */
  lemma RollbackCoherence<S(!new)>(codec: Codec, ttl: int, reader: Reader<S>, st: State<S>, begin: Effect<S, bool>,
                                   ops: seq<Op<S>>, rollback: Effect<S, bool>)
    requires ReadsRoundTrip(codec, reader) && Coherent(codec, reader, st)
    requires CleanRun(codec, ttl, reader, st, [ForwardOp(begin)] + ops)
    ensures
      var run := [ForwardOp(begin)] + ops;
      var now := StateAfter(codec, ttl, reader, st, run);
      Coherent(codec, reader, StateAfter(codec, ttl, reader, st, run + [ForwardOp(rollback)])) <==>
      forall e, id ::
        Routed(e) && TakenBack(reader, now.inner, rollback.inner, e, id) ==> !Held(codec, ttl, st, run, e, id)
  {
    var run := [ForwardOp(begin)] + ops;
    var now := StateAfter(codec, ttl, reader, st, run);
    assert run[..|run|] == run;
    RunSnoc(codec, ttl, reader, st, run, ForwardOp(rollback));
    RunKeepsCoherence(codec, ttl, reader, st, run, |run|);
    ForwardedCallCoherence(codec, ttl, reader, now, rollback);
    forall e, id | Routed(e)
      ensures Cached(codec, now.redis, e, id) <==> reader(now.inner, e, id).Ok? && Held(codec, ttl, st, run, e, id)
    {
      RunOnRecord(codec, ttl, reader, st, run, |run|, e, id);
    }
    hide Routed, Held, Apply, StateAfter, CleanRun;
  }

  /** A rollback to what the transaction found changes only records it has written, so there the condition is that none
      of them was read through the cache, and stored, after the last write on it. */
  lemma FullRollbackCoherence<S(!new)>(codec: Codec, ttl: int, reader: Reader<S>, st: State<S>, begin: Effect<S, bool>,
                                       ops: seq<Op<S>>, rollback: Effect<S, bool>)
    requires ReadsRoundTrip(codec, reader) && Coherent(codec, reader, st)
    requires CleanRun(codec, ttl, reader, st, [ForwardOp(begin)] + ops)
    requires Unchanged(reader, st.inner, rollback.inner)
    ensures
      var run := [ForwardOp(begin)] + ops;
      var now := StateAfter(codec, ttl, reader, st, run);
      Coherent(codec, reader, StateAfter(codec, ttl, reader, st, run + [ForwardOp(rollback)])) <==>
      (ttl > 0 ==> forall e, id ::
         Routed(e) && TakenBack(reader, now.inner, rollback.inner, e, id) ==> !ReadSinceWritten(run, e, id))
  {
    var run := [ForwardOp(begin)] + ops;
    var now := StateAfter(codec, ttl, reader, st, run);
    assert run[..|run|] == run;
    RollbackCoherence(codec, ttl, reader, st, begin, ops, rollback);
    forall e, id | Routed(e) && TakenBack(reader, now.inner, rollback.inner, e, id)
      ensures Held(codec, ttl, st, run, e, id) <==> ttl > 0 && ReadSinceWritten(run, e, id)
    {
      RunOnRecord(codec, ttl, reader, st, run, |run|, e, id);
    }
    hide Routed, Coherent, StateAfter, CleanRun, Held, TakenBack, ReadSinceWritten;
  }

  /** Coherence is what a reader sees: at every instant, whatever Redis does, a read returns the wrapped adapter's own. */
  lemma CoherentIffReadsAgree<S>(codec: Codec, ttl: int, reader: Reader<S>, st: State<S>)
    ensures Coherent(codec, reader, st) <==>
            forall e, id, get, set_ {:trigger AfterRead(codec, ttl, reader, st, e, id, get, set_)} ::
              Routed(e) ==> AfterRead(codec, ttl, reader, st, e, id, get, set_).1 == reader(st.inner, e, id)
  {
    if Coherent(codec, reader, st) {
      forall e, id, get, set_ | Routed(e)
        ensures AfterRead(codec, ttl, reader, st, e, id, get, set_).1 == reader(st.inner, e, id)
      {
        ReadIsInnerRead(codec, ttl, reader, st, e, id, get, set_);
      }
    } else {
      var e, id :| Routed(e) && Cached(codec, st.redis, e, id) &&
                   reader(st.inner, e, id) != Ok(codec.parse(st.redis[RecordKey(e, id)].text).value);
      var get := Answered(st.redis[RecordKey(e, id)].expires - 1);
      assert AfterRead(codec, ttl, reader, st, e, id, get, NotStored).1 != reader(st.inner, e, id);
    }
  }

  // ---------------------------------------------------------------------
  // A store of texts, for which all of this can be met
  // ---------------------------------------------------------------------

  type TextStore = map<(string, string), string>

  function ReadText(store: TextStore, entity: string, id: string): Result<Json> {
    if (entity, id) in store then Ok(Str(store[(entity, id)])) else Err
  }

  function DumpText(j: Json): string {
    if j.Str? then j.s else ""
  }

  function ParseText(s: string): Option<Json> {
    Some(Str(s))
  }

  function NoNumber(s: string): Option<Double> {
    None
  }

  /** There are a codec and a reader whose values all round-trip. */
  lemma TextsRoundTrip()
    ensures ReadsRoundTrip(Codec(DumpText, ParseText, NoNumber), ReadText)
  {
  }

  /** Begin, update, read through the cache, roll back: every step before the rollback is clean, and the record is
      then served as the transaction left it although the store has taken it back. */
  lemma RollbackCanServeStale(codec: Codec, ttl: int)
    requires ReadsRoundTrip(codec, ReadText) && ttl > 0
    ensures
      var found, changed := map[("user", "7") := "old"], map[("user", "7") := "new"];
      var start := State(found, map[]);
      var run := [ForwardOp(Effect(Ok(true), found)),
                  UpdateOp("user", "7", Effect(Ok(Str("new")), changed), true),
                  ReadOp("user", "7", Answered(0), Stored(0))];
      var after := StateAfter(codec, ttl, ReadText, start, run + [ForwardOp(Effect(Ok(true), found))]);
      && CleanRun(codec, ttl, ReadText, start, run)
      && ReadText(after.inner, "user", "7") == Ok(Str("old"))
      && Apply(codec, ttl, ReadText, after, ReadOp("user", "7", Answered(0), NotStored)).1 == Some(Ok(Str("new")))
  {
    var found, changed := map[("user", "7") := "old"], map[("user", "7") := "new"];
    var start, key := State(found, map[]), RecordKey("user", "7");
    var begin := ForwardOp(Effect(Ok(true), found));
    var update := UpdateOp("user", "7", Effect(Ok(Str("new")), changed), true);
    var read := ReadOp("user", "7", Answered(0), Stored(0));
    var run := [begin, update, read];
    var stored := State(changed, map[key := Entry(codec.dump(Str("new")), ttl)]);
    assert Apply(codec, ttl, ReadText, start, begin).0 == start;
    UpdateIsClean(codec, ttl, found, changed);
    ReadStores(codec, ttl, changed);
    assert Clean(ReadText, start, begin);
    hide Apply, Clean, RecordKey;
    StepsOf(codec, ttl, ReadText, start, begin, update, read, begin);
    ThreeAreClean(codec, ttl, ReadText, start, begin, update, read);
    hide StateAfter, CleanRun;
    assert StateAfter(codec, ttl, ReadText, start, run) == stored;
    StoredIsRead(codec, ttl, found, stored);
  }

  lemma UpdateIsClean(codec: Codec, ttl: int, found: TextStore, changed: TextStore)
    requires found == map[("user", "7") := "old"] && changed == map[("user", "7") := "new"]
    ensures
      var update := UpdateOp("user", "7", Effect(Ok(Str("new")), changed), true);
      && Clean(ReadText, State(found, map[]), update)
      && Apply(codec, ttl, ReadText, State(found, map[]), update).0 == State(changed, map[])
  {
    var none: Redis := map[];
    assert none - {RecordKey("user", "7")} == map[];
    assert OnlyChanges(ReadText, found, changed, (e, i) => e == "user" && i == "7");
  }

  lemma ReadStores(codec: Codec, ttl: int, changed: TextStore)
    requires changed == map[("user", "7") := "new"] && ttl > 0
    ensures
      var read := ReadOp("user", "7", Answered(0), Stored(0));
      && Clean(ReadText, State(changed, map[]), read)
      && Apply(codec, ttl, ReadText, State(changed, map[]), read).0 ==
         State(changed, map[RecordKey("user", "7") := Entry(codec.dump(Str("new")), ttl)])
  {
    hide RecordKey;
  }

  lemma StoredIsRead(codec: Codec, ttl: int, found: TextStore, stored: State<TextStore>)
    requires ReadsRoundTrip(codec, ReadText) && ttl > 0 && found == map[("user", "7") := "old"]
    requires stored.redis == map[RecordKey("user", "7") := Entry(codec.dump(Str("new")), ttl)]
    ensures
      var after := Apply(codec, ttl, ReadText, stored, ForwardOp(Effect(Ok(true), found))).0;
      && ReadText(after.inner, "user", "7") == Ok(Str("old"))
      && Apply(codec, ttl, ReadText, after, ReadOp("user", "7", Answered(0), NotStored)).1 == Some(Ok(Str("new")))
  {
    hide RecordKey;
    assert ReadText(map[("user", "7") := "new"], "user", "7") == Ok(Str("new"));
  }

  /** Three operations and a fourth, state by state. */
  lemma StepsOf<S>(codec: Codec, ttl: int, reader: Reader<S>, start: State<S>, a: Op<S>, b: Op<S>, c: Op<S>, d: Op<S>)
    ensures
      var s1 := Apply(codec, ttl, reader, start, a).0;
      var s2 := Apply(codec, ttl, reader, s1, b).0;
      var s3 := Apply(codec, ttl, reader, s2, c).0;
      && StateAfter(codec, ttl, reader, start, []) == start
      && StateAfter(codec, ttl, reader, start, [a]) == s1
      && StateAfter(codec, ttl, reader, start, [a, b]) == s2
      && StateAfter(codec, ttl, reader, start, [a, b, c]) == s3
      && StateAfter(codec, ttl, reader, start, [a, b, c] + [d]) == Apply(codec, ttl, reader, s3, d).0
  {
    assert StateAfter(codec, ttl, reader, start, []) == start;
    hide Apply, StateAfter;
    RunSnoc(codec, ttl, reader, start, [], a);
    RunSnoc(codec, ttl, reader, start, [a], b);
    RunSnoc(codec, ttl, reader, start, [a, b], c);
    RunSnoc(codec, ttl, reader, start, [a, b, c], d);
    assert [] + [a] == [a] && [a] + [b] == [a, b] && [a, b] + [c] == [a, b, c];
  }

  lemma ThreeAreClean<S(!new)>(codec: Codec, ttl: int, reader: Reader<S>, start: State<S>, a: Op<S>, b: Op<S>, c: Op<S>)
    requires Clean(reader, StateAfter(codec, ttl, reader, start, []), a)
    requires Clean(reader, StateAfter(codec, ttl, reader, start, [a]), b)
    requires Clean(reader, StateAfter(codec, ttl, reader, start, [a, b]), c)
    ensures CleanRun(codec, ttl, reader, start, [a, b, c])
  {
    hide Clean, StateAfter;
    var run := [a, b, c];
    assert run[..0] == [] && run[..1] == [a] && run[..2] == [a, b];
    forall n | 0 <= n < |run|
      ensures Clean(reader, StateAfter(codec, ttl, reader, start, run[..n]), run[n])
    {
      assert n == 0 || n == 1 || n == 2;
    }
  }
}
