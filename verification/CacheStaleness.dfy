/** Bounded staleness: readers, writers and Redis interleaved step by step, any call failing at any time.
    A hit is never older than the time to live plus the gap its own backfill took. */
module CacheStaleness {
  import opened Text
  import opened Json
  import opened CacheKey
  import opened CachingAdapter

  /** How far a reader has got: past the GET that missed, or past the wrapped adapter's read. */
  datatype Progress = Missed(entity: string, id: string) | Fetched(entity: string, id: string, value: Json, at: int)

  /** What happened, in order. A wrapped read records the state it read. */
  datatype Event<S> =
    | InnerRead(entity: string, id: string, value: Json, at: int, inner: S)
    | Filled(entity: string, id: string, value: Json, readAt: int, at: int)
    | Hit(entity: string, id: string, value: Json, at: int)

  datatype System<S> = System(now: int, inner: S, redis: Redis, readers: map<nat, Progress>, log: seq<Event<S>>)

  /** One step of one participant. */
  datatype Action<S> =
    | Tick(elapsed: nat)
    | Get(pid: nat, entity: string, id: string, threw: bool)
    | ReadInner(pid: nat)
    | SetEx(pid: nat, stored: bool)
    | ChangeInner(changed: S)
    | Drop(keys: set<string>)

  function AfterGet<S>(codec: Codec, sys: System<S>, pid: nat, entity: string, id: string, threw: bool): System<S> {
    match CacheHit(codec, sys.redis, RecordKey(entity, id), if threw then LookupThrew else Answered(sys.now))
    case Some(v) => sys.(log := sys.log + [Hit(entity, id, v, sys.now)], readers := sys.readers - {pid})
    case None => sys.(readers := sys.readers[pid := Missed(entity, id)])
  }

  function AfterReadInner<S>(reader: Reader<S>, sys: System<S>, pid: nat): System<S> {
    if pid !in sys.readers || !sys.readers[pid].Missed? then sys
    else
      var (e, id) := (sys.readers[pid].entity, sys.readers[pid].id);
      match reader(sys.inner, e, id)
      case Err => sys.(readers := sys.readers - {pid})
      case Ok(v) => sys.(log := sys.log + [InnerRead(e, id, v, sys.now, sys.inner)],
                         readers := sys.readers[pid := Fetched(e, id, v, sys.now)])
  }

  function AfterSetEx<S>(codec: Codec, ttl: int, sys: System<S>, pid: nat, stored: bool): System<S> {
    if pid !in sys.readers || !sys.readers[pid].Fetched? then sys
    else
      var r := sys.readers[pid];
      var redis := Backfilled(codec, ttl, sys.redis, RecordKey(r.entity, r.id), r.value,
                              if stored then Stored(sys.now) else NotStored);
      sys.(redis := redis, readers := sys.readers - {pid},
           log := if stored && ttl > 0 then sys.log + [Filled(r.entity, r.id, r.value, r.at, sys.now)] else sys.log)
  }

  /** Writers, rollbacks and anyone else change the wrapped adapter freely; invalidations that take effect
      only ever remove keys. */
  function Next<S>(codec: Codec, ttl: int, reader: Reader<S>, sys: System<S>, a: Action<S>): System<S> {
    match a
    case Tick(elapsed) => sys.(now := sys.now + elapsed)
    case Get(pid, e, id, threw) => AfterGet(codec, sys, pid, e, id, threw)
    case ReadInner(pid) => AfterReadInner(reader, sys, pid)
    case SetEx(pid, stored) => AfterSetEx(codec, ttl, sys, pid, stored)
    case ChangeInner(changed) => sys.(inner := changed)
    case Drop(keys) => sys.(redis := sys.redis - keys)
  }

  function Run<S>(codec: Codec, ttl: int, reader: Reader<S>, sys: System<S>, actions: seq<Action<S>>): System<S> {
    if actions == [] then sys
    else Next(codec, ttl, reader, Run(codec, ttl, reader, sys, actions[..|actions| - 1]), actions[|actions| - 1])
  }

  ghost predicate ColonFree<S>(actions: seq<Action<S>>) {
    forall a :: a in actions && a.Get? ==> ':' !in a.entity
  }

  // ---------------------------------------------------------------------
  // The invariant
  // ---------------------------------------------------------------------

  /** Before position `n` of the log, the wrapped adapter's read gave this value at this time. */
  ghost predicate ReadLogged<S>(reader: Reader<S>, log: seq<Event<S>>, n: nat, e: string, id: string, v: Json, at: int) {
    exists r :: 0 <= r < n && r < |log| && log[r].InnerRead? && log[r].entity == e && log[r].id == id &&
                log[r].value == v && log[r].at == at && reader(log[r].inner, e, id) == Ok(v)
  }

  /** Before position `n`, a reader that had read this value put it into the cache. */
  ghost predicate FillLogged<S>(reader: Reader<S>, log: seq<Event<S>>, n: nat, e: string, id: string, v: Json, readAt: int, at: int) {
    exists b :: 0 <= b < n && b < |log| && log[b] == Filled(e, id, v, readAt, at) && readAt <= at &&
                ReadLogged(reader, log, b, e, id, v, readAt)
  }

  /** The value seen at `now` was filled at `at` by a reader that read it at `readAt`, and is still alive. */
  ghost predicate Fresh<S>(ttl: int, reader: Reader<S>, log: seq<Event<S>>, n: nat, e: string, id: string, v: Json, now: int,
                           readAt: int, at: int)
  {
    FillLogged(reader, log, n, e, id, v, readAt, at) && at <= now < at + ttl
  }

  ghost predicate HitExplained<S>(ttl: int, reader: Reader<S>, log: seq<Event<S>>, h: nat)
    requires h < |log| && log[h].Hit?
  {
    exists readAt, at :: Fresh(ttl, reader, log, h, log[h].entity, log[h].id, log[h].value, log[h].at, readAt, at)
  }

  ghost predicate ReaderExplained<S>(reader: Reader<S>, sys: System<S>, pid: nat)
    requires pid in sys.readers
  {
    var r := sys.readers[pid];
    && ':' !in r.entity
    && (r.Fetched? ==> r.at <= sys.now && ReadLogged(reader, sys.log, |sys.log|, r.entity, r.id, r.value, r.at))
  }

  ghost predicate EntryExplained<S>(codec: Codec, ttl: int, reader: Reader<S>, sys: System<S>, key: string)
    requires key in sys.redis
  {
    exists e, id, v, readAt, at ::
      ':' !in e && key == RecordKey(e, id) && sys.redis[key] == Entry(codec.dump(v), at + ttl) && at <= sys.now &&
      FillLogged(reader, sys.log, |sys.log|, e, id, v, readAt, at)
  }

  ghost predicate Inv<S>(codec: Codec, ttl: int, reader: Reader<S>, sys: System<S>) {
    && (forall pid :: pid in sys.readers ==> ReaderExplained(reader, sys, pid))
    && (forall key :: key in sys.redis ==> EntryExplained(codec, ttl, reader, sys, key))
    && (forall h :: 0 <= h < |sys.log| && sys.log[h].Hit? ==> HitExplained(ttl, reader, sys.log, h))
  }

  // ---------------------------------------------------------------------
  // Logged facts stay logged
  // ---------------------------------------------------------------------

  lemma ReadStays<S>(reader: Reader<S>, log: seq<Event<S>>, more: seq<Event<S>>, n: nat, m: nat,
                     e: string, id: string, v: Json, at: int)
    requires ReadLogged(reader, log, n, e, id, v, at) && n <= m && log <= more
    ensures ReadLogged(reader, more, m, e, id, v, at)
  {
    var r :| 0 <= r < n && r < |log| && log[r].InnerRead? && log[r].entity == e && log[r].id == id &&
             log[r].value == v && log[r].at == at && reader(log[r].inner, e, id) == Ok(v);
    assert more[r] == log[r];
  }

  lemma FillStays<S>(reader: Reader<S>, log: seq<Event<S>>, more: seq<Event<S>>, n: nat, m: nat,
                     e: string, id: string, v: Json, readAt: int, at: int)
    requires FillLogged(reader, log, n, e, id, v, readAt, at) && n <= m && log <= more
    ensures FillLogged(reader, more, m, e, id, v, readAt, at)
  {
    var b :| 0 <= b < n && b < |log| && log[b] == Filled(e, id, v, readAt, at) && readAt <= at &&
             ReadLogged(reader, log, b, e, id, v, readAt);
    ReadStays(reader, log, more, b, b, e, id, v, readAt);
    assert more[b] == log[b];
  }

  lemma EntryStays<S>(codec: Codec, ttl: int, reader: Reader<S>, sys: System<S>, next: System<S>, key: string)
    requires key in sys.redis && EntryExplained(codec, ttl, reader, sys, key)
    requires key in next.redis && next.redis[key] == sys.redis[key]
    requires sys.log <= next.log && sys.now <= next.now
    ensures EntryExplained(codec, ttl, reader, next, key)
  {
    var e, id, v, readAt, at :|
      ':' !in e && key == RecordKey(e, id) && sys.redis[key] == Entry(codec.dump(v), at + ttl) && at <= sys.now &&
      FillLogged(reader, sys.log, |sys.log|, e, id, v, readAt, at);
    FillStays(reader, sys.log, next.log, |sys.log|, |next.log|, e, id, v, readAt, at);
  }

  lemma ReaderStays<S>(reader: Reader<S>, sys: System<S>, next: System<S>, pid: nat)
    requires pid in sys.readers && ReaderExplained(reader, sys, pid)
    requires pid in next.readers && next.readers[pid] == sys.readers[pid]
    requires sys.log <= next.log && sys.now <= next.now
    ensures ReaderExplained(reader, next, pid)
  {
    var r := sys.readers[pid];
    if r.Fetched? { ReadStays(reader, sys.log, next.log, |sys.log|, |next.log|, r.entity, r.id, r.value, r.at); }
  }

  lemma HitStays<S>(ttl: int, reader: Reader<S>, log: seq<Event<S>>, more: seq<Event<S>>, h: nat)
    requires log <= more && h < |log| && log[h].Hit? && HitExplained(ttl, reader, log, h)
    ensures more[h] == log[h] && HitExplained(ttl, reader, more, h)
  {
    var readAt, at :| Fresh(ttl, reader, log, h, log[h].entity, log[h].id, log[h].value, log[h].at, readAt, at);
    FillStays(reader, log, more, h, h, log[h].entity, log[h].id, log[h].value, readAt, at);
    assert Fresh(ttl, reader, more, h, more[h].entity, more[h].id, more[h].value, more[h].at, readAt, at);
  }

  /** A step that adds no hit, and only readers and entries it can explain, keeps the invariant. */
  lemma Keeps<S>(codec: Codec, ttl: int, reader: Reader<S>, sys: System<S>, next: System<S>)
    requires Inv(codec, ttl, reader, sys)
    requires sys.log <= next.log && sys.now <= next.now
    requires forall pid :: pid in next.readers ==>
               (pid in sys.readers && next.readers[pid] == sys.readers[pid]) || ReaderExplained(reader, next, pid)
    requires forall key :: key in next.redis ==>
               (key in sys.redis && next.redis[key] == sys.redis[key]) || EntryExplained(codec, ttl, reader, next, key)
    requires forall h :: |sys.log| <= h < |next.log| && next.log[h].Hit? ==> HitExplained(ttl, reader, next.log, h)
    ensures Inv(codec, ttl, reader, next)
  {
    forall pid | pid in next.readers ensures ReaderExplained(reader, next, pid) {
      if pid in sys.readers && next.readers[pid] == sys.readers[pid] { ReaderStays(reader, sys, next, pid); }
    }
    forall key | key in next.redis ensures EntryExplained(codec, ttl, reader, next, key) {
      if key in sys.redis && next.redis[key] == sys.redis[key] { EntryStays(codec, ttl, reader, sys, next, key); }
    }
    forall h | 0 <= h < |next.log| && next.log[h].Hit? ensures HitExplained(ttl, reader, next.log, h) {
      if h < |sys.log| {
        assert next.log[h] == sys.log[h];
        HitStays(ttl, reader, sys.log, next.log, h);
      }
    }
  }

  // ---------------------------------------------------------------------
  // Every step keeps it
  // ---------------------------------------------------------------------

  /** A value that was filled had been read, so its text parses to it. */
  lemma LoggedRoundTrips<S(!new)>(codec: Codec, reader: Reader<S>, log: seq<Event<S>>, n: nat, e: string, id: string,
                                  v: Json, readAt: int, at: int)
    requires ReadsRoundTrip(codec, reader) && FillLogged(reader, log, n, e, id, v, readAt, at)
    ensures codec.parse(codec.dump(v)) == Some(v)
  {
    var b :| 0 <= b < n && b < |log| && log[b] == Filled(e, id, v, readAt, at) &&
             ReadLogged(reader, log, b, e, id, v, readAt);
    var r :| 0 <= r < b && r < |log| && log[r].InnerRead? && reader(log[r].inner, e, id) == Ok(v);
  }

  lemma HitIsFresh<S(!new)>(codec: Codec, ttl: int, reader: Reader<S>, sys: System<S>, e: string, id: string, v: Json)
    returns (readAt: int, at: int)
    requires ReadsRoundTrip(codec, reader) && Inv(codec, ttl, reader, sys) && ':' !in e
    requires CacheHit(codec, sys.redis, RecordKey(e, id), Answered(sys.now)) == Some(v)
    ensures Fresh(ttl, reader, sys.log, |sys.log|, e, id, v, sys.now, readAt, at)
  {
    var key := RecordKey(e, id);
    assert EntryExplained(codec, ttl, reader, sys, key);
    var f, i, w, r, a :|
      ':' !in f && key == RecordKey(f, i) && sys.redis[key] == Entry(codec.dump(w), a + ttl) && a <= sys.now &&
      FillLogged(reader, sys.log, |sys.log|, f, i, w, r, a);
    RecordKeyInjective(e, id, f, i);
    LoggedRoundTrips(codec, reader, sys.log, |sys.log|, e, id, w, r, a);
    readAt, at := r, a;
  }

  lemma GetKeeps<S(!new)>(codec: Codec, ttl: int, reader: Reader<S>, sys: System<S>, pid: nat, e: string, id: string, threw: bool)
    requires ReadsRoundTrip(codec, reader) && Inv(codec, ttl, reader, sys) && ':' !in e
    ensures Inv(codec, ttl, reader, AfterGet(codec, sys, pid, e, id, threw))
  {
    var next := AfterGet(codec, sys, pid, e, id, threw);
    var hit := CacheHit(codec, sys.redis, RecordKey(e, id), if threw then LookupThrew else Answered(sys.now));
    if hit.Some? {
      var readAt, at := HitIsFresh(codec, ttl, reader, sys, e, id, hit.value);
      var h := |sys.log|;
      FillStays(reader, sys.log, next.log, h, h, e, id, hit.value, readAt, at);
      assert Fresh(ttl, reader, next.log, h, e, id, hit.value, sys.now, readAt, at);
      assert next.log[h] == Hit(e, id, hit.value, sys.now);
      assert HitExplained(ttl, reader, next.log, h);
    }
    hide CacheHit, EntryExplained;
    Keeps(codec, ttl, reader, sys, next);
  }

  lemma ReadInnerKeeps<S>(codec: Codec, ttl: int, reader: Reader<S>, sys: System<S>, pid: nat)
    requires Inv(codec, ttl, reader, sys)
    ensures Inv(codec, ttl, reader, AfterReadInner(reader, sys, pid))
  {
    var next := AfterReadInner(reader, sys, pid);
    if pid in sys.readers && sys.readers[pid].Missed? {
      assert ReaderExplained(reader, sys, pid);
      var (e, id) := (sys.readers[pid].entity, sys.readers[pid].id);
      if reader(sys.inner, e, id).Ok? {
        var v := reader(sys.inner, e, id).value;
        assert next.log[|sys.log|] == InnerRead(e, id, v, sys.now, sys.inner);
        assert ReadLogged(reader, next.log, |next.log|, e, id, v, sys.now);
        assert ReaderExplained(reader, next, pid);
      }
    }
    hide ReaderExplained, EntryExplained, HitExplained;
    Keeps(codec, ttl, reader, sys, next);
  }

  lemma SetExKeeps<S>(codec: Codec, ttl: int, reader: Reader<S>, sys: System<S>, pid: nat, stored: bool)
    requires Inv(codec, ttl, reader, sys)
    ensures Inv(codec, ttl, reader, AfterSetEx(codec, ttl, sys, pid, stored))
  {
    var next := AfterSetEx(codec, ttl, sys, pid, stored);
    if pid in sys.readers && sys.readers[pid].Fetched? && stored && ttl > 0 {
      var r := sys.readers[pid];
      assert ReaderExplained(reader, sys, pid);
      var b := |sys.log|;
      assert next.log[b] == Filled(r.entity, r.id, r.value, r.at, sys.now);
      ReadStays(reader, sys.log, next.log, b, b, r.entity, r.id, r.value, r.at);
      assert FillLogged(reader, next.log, |next.log|, r.entity, r.id, r.value, r.at, sys.now);
      assert EntryExplained(codec, ttl, reader, next, RecordKey(r.entity, r.id));
    }
    hide ReaderExplained, EntryExplained, HitExplained;
    Keeps(codec, ttl, reader, sys, next);
  }

  lemma StepKeeps<S(!new)>(codec: Codec, ttl: int, reader: Reader<S>, sys: System<S>, a: Action<S>)
    requires ReadsRoundTrip(codec, reader) && Inv(codec, ttl, reader, sys)
    requires a.Get? ==> ':' !in a.entity
    ensures Inv(codec, ttl, reader, Next(codec, ttl, reader, sys, a))
  {
    match a
    case Get(pid, e, id, threw) => GetKeeps(codec, ttl, reader, sys, pid, e, id, threw);
    case ReadInner(pid) => ReadInnerKeeps(codec, ttl, reader, sys, pid);
    case SetEx(pid, stored) => SetExKeeps(codec, ttl, reader, sys, pid, stored);
    case _ =>
      hide ReaderExplained, EntryExplained, HitExplained;
      Keeps(codec, ttl, reader, sys, Next(codec, ttl, reader, sys, a));
  }

  lemma {:induction false} RunKeeps<S(!new)>(codec: Codec, ttl: int, reader: Reader<S>, sys: System<S>, actions: seq<Action<S>>)
    requires ReadsRoundTrip(codec, reader) && Inv(codec, ttl, reader, sys) && ColonFree(actions)
    ensures Inv(codec, ttl, reader, Run(codec, ttl, reader, sys, actions))
  {
    if actions != [] {
      var n := |actions| - 1;
      assert actions[n] in actions;
      RunKeeps(codec, ttl, reader, sys, actions[..n]);
      hide Inv, Next;
      StepKeeps(codec, ttl, reader, Run(codec, ttl, reader, sys, actions[..n]), actions[n]);
    }
  }

  /** The three steps of one reader, run without interruption, are the adapter's read: the same cache, and
      the value it returns is the one logged. */
  lemma UninterruptedReaderIsRead<S>(codec: Codec, ttl: int, reader: Reader<S>, sys: System<S>, pid: nat,
                                     e: string, id: string, threw: bool, stored: bool)
    ensures
      var done := AfterSetEx(codec, ttl, AfterReadInner(reader, AfterGet(codec, sys, pid, e, id, threw), pid), pid, stored);
      var (st, result) := AfterRead(codec, ttl, reader, State(sys.inner, sys.redis), e, id,
                                    if threw then LookupThrew else Answered(sys.now), if stored then Stored(sys.now) else NotStored);
      && State(done.inner, done.redis) == st
      && (result.Err? ==> done.log == sys.log)
      && (result.Ok? ==> |done.log| > |sys.log| && sys.log <= done.log && done.log[|sys.log|].value == result.value)
      && pid !in done.readers
  {
    hide RecordKey, CacheHit, Backfilled;
    var got := AfterGet(codec, sys, pid, e, id, threw);
    match CacheHit(codec, sys.redis, RecordKey(e, id), if threw then LookupThrew else Answered(sys.now))
    case Some(v) => assert AfterReadInner(reader, got, pid) == got;
    case None =>
      assert got.readers[pid] == Missed(e, id);
      match reader(sys.inner, e, id)
      case Err => assert pid !in AfterReadInner(reader, got, pid).readers;
      case Ok(v) => assert AfterReadInner(reader, got, pid).readers[pid] == Fetched(e, id, v, sys.now);
  }

  /** A system that has just started: nothing cached, no reader under way, nothing logged. */
  function Started<S>(now: int, inner: S): System<S> {
    System(now, inner, map[], map[], [])
  }

  /** In every interleaving, with every pattern of failures, rollbacks included: a value served from the
      cache was given by the wrapped adapter's read of that same entity and id, by a reader whose backfill
      came no more than the time to live before the hit. The age of the value is therefore less than the
      time to live plus that reader's own gap between reading and filling. */
  lemma BoundedStaleness<S(!new)>(codec: Codec, ttl: int, reader: Reader<S>, now: int, inner: S, actions: seq<Action<S>>, h: nat)
    returns (read: nat, fill: nat)
    requires ReadsRoundTrip(codec, reader) && ColonFree(actions)
    requires var log := Run(codec, ttl, reader, Started(now, inner), actions).log; h < |log| && log[h].Hit?
    ensures
      var log := Run(codec, ttl, reader, Started(now, inner), actions).log;
      && read < fill < h
      && log[read].InnerRead? && log[fill].Filled?
      && log[read].entity == log[fill].entity == log[h].entity
      && log[read].id == log[fill].id == log[h].id
      && log[read].value == log[fill].value == log[h].value
      && reader(log[read].inner, log[h].entity, log[h].id) == Ok(log[h].value)
      && log[fill].readAt == log[read].at <= log[fill].at <= log[h].at
      && log[h].at - log[read].at < ttl + (log[fill].at - log[read].at)
  {
    RunKeeps(codec, ttl, reader, Started(now, inner), actions);
    hide Run;
    var log := Run(codec, ttl, reader, Started(now, inner), actions).log;
    assert HitExplained(ttl, reader, log, h);
    var (e, id, v) := (log[h].entity, log[h].id, log[h].value);
    var readAt, at :| Fresh(ttl, reader, log, h, e, id, v, log[h].at, readAt, at);
    fill :| 0 <= fill < h && fill < |log| && log[fill] == Filled(e, id, v, readAt, at) && readAt <= at &&
            ReadLogged(reader, log, fill, e, id, v, readAt);
    read :| 0 <= read < fill && read < |log| && log[read].InnerRead? && log[read].entity == e && log[read].id == id &&
            log[read].value == v && log[read].at == readAt && reader(log[read].inner, e, id) == Ok(v);
  }
}
