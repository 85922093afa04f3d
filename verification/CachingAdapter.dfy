/** The read-through cache in front of a wrapped adapter. What the wrapped adapter and Redis do at each
    call -- results, effects, failures -- is an input, so every theorem is about all their behaviours. */
module CachingAdapter {
  import opened Text
  import opened Json
  import opened CacheKey

  /** A stored text and the instant from which Redis no longer returns it. */
  datatype Entry = Entry(text: string, expires: int)

  type Redis = map<string, Entry>

  /** The wrapped adapter's state is abstract; only what a read of it returns can be seen. */
  type Reader<!S> = (S, string, string) -> Result<Json>

  datatype State<S> = State(inner: S, redis: Redis)

  /** Every value a read can return is what parsing its text gives back. */
  ghost predicate ReadsRoundTrip<S(!new)>(codec: Codec, reader: Reader<S>) {
    forall s: S, e: string, id: string {:trigger reader(s, e, id)} ::
      reader(s, e, id).Ok? ==> codec.parse(codec.dump(reader(s, e, id).value)) == Some(reader(s, e, id).value)
  }

  /** What a write through the wrapped adapter returned, and the state it left. */
  datatype Effect<S, +T> = Effect(result: Result<T>, inner: S)

  /** One GET: it answers at an instant, or throws. */
  datatype Lookup = Answered(now: int) | LookupThrew

  /** One SETEX: whether the entry got stored, and when. A call can throw after taking effect. */
  datatype Backfill = Stored(now: int) | NotStored

  /** One turn of the SCAN loop: it throws, or visits keys, of which UNLINK removes or fails to remove those that
      match the pattern; a throw ends the loop. */
  datatype ScanTurn = ScanThrew | Scanned(keys: seq<string>, unlinked: bool, threw: bool)

  // ---------------------------------------------------------------------
  // Steps as functions of the state
  // ---------------------------------------------------------------------

  function DigitsOf(n: nat): string {
    if n < 10 then ["0123456789"[n]] else DigitsOf(n / 10) + ["0123456789"[n % 10]]
  }

  function IntText(i: int): string {
    if i < 0 then "-" + DigitsOf(-i) else DigitsOf(i)
  }

  /** The id a write result carries, or the empty text. */
  function IdFromRecord(record: Json): string {
    if !record.Obj? || "id" !in record.fields then ""
    else match record.fields["id"]
         case Str(s) => s
         case Int(i) => IntText(i)
         case _ => ""
  }

  /** What GET finds, parsed: nothing when it throws, misses, or the entry is corrupt. */
  function CacheHit(codec: Codec, redis: Redis, key: string, get: Lookup): Option<Json> {
    if get.LookupThrew? || key !in redis || get.now >= redis[key].expires then None
    else codec.parse(redis[key].text)
  }

  /** Redis refuses a SETEX with a non-positive time to live. */
  function Backfilled(codec: Codec, ttl: int, redis: Redis, key: string, value: Json, set_: Backfill): Redis {
    if set_.Stored? && ttl > 0 then redis[key := Entry(codec.dump(value), set_.now + ttl)] else redis
  }

  function AfterRead<S>(codec: Codec, ttl: int, reader: Reader<S>, st: State<S>, entity: string, id: string,
                        get: Lookup, set_: Backfill): (State<S>, Result<Json>)
  {
    var key := RecordKey(entity, id);
    match CacheHit(codec, st.redis, key, get)
    case Some(v) => (st, Ok(v))
    case None =>
      match reader(st.inner, entity, id)
      case Err => (st, Err)
      case Ok(v) => (st.(redis := Backfilled(codec, ttl, st.redis, key, v, set_)), Ok(v))
  }

  function WithoutRecord(redis: Redis, entity: string, id: string, deleted: bool): Redis {
    if id == "" || !deleted then redis else redis - {RecordKey(entity, id)}
  }

  /** What SCAN yields of the keys it visits. */
  function Matching(pattern: string, keys: seq<string>): set<string> {
    set k | k in keys && GlobMatch(pattern, k)
  }

  function WithoutScanned(redis: Redis, entity: string, turns: seq<ScanTurn>): Redis {
    if turns == [] || turns[0].ScanThrew? then redis
    else
      var batch := Matching(EntityScanPattern(entity), turns[0].keys);
      var left := if turns[0].unlinked then redis - batch else redis;
      if turns[0].threw then left else WithoutScanned(left, entity, turns[1..])
  }

  /** A write of one record: invalidate under the id that changed, if it succeeded. */
  function AfterWrite<S, T>(st: State<S>, effect: Effect<S, T>, entity: string, id: string, deleted: bool): State<S> {
    State(effect.inner, if effect.result.Ok? then WithoutRecord(st.redis, entity, id, deleted) else st.redis)
  }

  /** A bulk write: drop every cached record of the entity, if it succeeded. */
  function AfterBulk<S, T>(st: State<S>, effect: Effect<S, T>, entity: string, turns: seq<ScanTurn>): State<S> {
    State(effect.inner, if effect.result.Ok? then WithoutScanned(st.redis, entity, turns) else st.redis)
  }

  function WrittenId(result: Result<Json>): string {
    match result
    case Ok(record) => IdFromRecord(record)
    case Err => ""
  }

  // ---------------------------------------------------------------------
  // The id a written record goes by
  // ---------------------------------------------------------------------

  predicate Digits(s: string) {
    forall k :: 0 <= k < |s| ==> '0' <= s[k] <= '9'
  }

  function DigitValue(c: char): nat
    requires '0' <= c <= '9'
  {
    c as int - '0' as int
  }

  /** The number that decimal digits stand for. */
  function DigitsValue(s: string): nat
    requires Digits(s)
  {
    if s == "" then 0 else DigitsValue(s[..|s| - 1]) * 10 + DigitValue(s[|s| - 1])
  }

  /** Decimal digits for `n`, without a leading zero unless it is all there is. */
  ghost predicate Decimal(s: string, n: nat) {
    s != "" && Digits(s) && (|s| > 1 ==> s[0] != '0') && DigitsValue(s) == n
  }

  ghost predicate DecimalInt(s: string, i: int) {
    if i < 0 then s != "" && s[0] == '-' && Decimal(s[1..], -i) else Decimal(s, i)
  }

  /** The record's id: its own text, its integer in decimals, or nothing if it has neither. */
  ghost predicate GoesBy(result: Result<Json>, id: string) {
    if result.Ok? && result.value.Obj? && "id" in result.value.fields && result.value.fields["id"].Str? then
      result.value.fields["id"] == Str(id)
    else if result.Ok? && result.value.Obj? && "id" in result.value.fields && result.value.fields["id"].Int? then
      DecimalInt(id, result.value.fields["id"].i)
    else id == ""
  }

  lemma OneDigit(c: char, d: nat)
    requires d < 10
    ensures '0' <= c <= '9' && DigitValue(c) == d <==> c == "0123456789"[d]
  {
  }

  lemma {:induction false} DigitsAreDecimal(n: nat)
    ensures Decimal(DigitsOf(n), n)
    ensures n > 0 ==> DigitsOf(n)[0] != '0'
  {
    var last := "0123456789"[n % 10];
    OneDigit(last, n % 10);
    if n < 10 {
      assert DigitsOf(n) == [last];
    } else {
      DigitsAreDecimal(n / 10);
      var front := DigitsOf(n / 10);
      assert (front + [last])[..|front|] == front;
    }
  }

  lemma {:induction false} LeadCounts(s: string)
    requires s != "" && Digits(s) && s[0] != '0'
    ensures DigitsValue(s) > 0
  {
    if |s| > 1 { LeadCounts(s[..|s| - 1]); }
  }

  lemma {:induction false} DecimalIsDigits(s: string, n: nat)
    requires Decimal(s, n)
    ensures s == DigitsOf(n)
    decreases |s|
  {
    var front, last := s[..|s| - 1], s[|s| - 1];
    var d := DigitValue(last);
    OneDigit(last, d);
    assert s == front + [last];
    if front == "" {
      assert DigitsValue(front) == 0 && n == DigitsValue(front) * 10 + d;
    } else {
      LeadCounts(front);
      DecimalIsDigits(front, DigitsValue(front));
      hide DigitsValue, DigitValue;
      DivTen(DigitsValue(front), d, n);
    }
  }

  lemma DivTen(tens: nat, d: nat, n: nat)
    requires n == tens * 10 + d && d < 10
    ensures n / 10 == tens && n % 10 == d
  {
  }

  lemma IntTextIff(i: int, s: string)
    ensures IntText(i) == s <==> DecimalInt(s, i)
  {
    var n := if i < 0 then -i else i;
    var digits := if i < 0 && s != "" then s[1..] else s;
    DigitsAreDecimal(n);
    if Decimal(digits, n) { DecimalIsDigits(digits, n); }
    hide Decimal, DigitsOf;
    assert ("-" + DigitsOf(n))[1..] == DigitsOf(n);
    assert i < 0 && s != "" && s[0] == '-' ==> s == "-" + digits;
  }

  /** The id a write invalidates under is the one its record goes by. */
  lemma WrittenIdIff(result: Result<Json>, id: string)
    ensures WrittenId(result) == id <==> GoesBy(result, id)
  {
    hide IntText, DecimalInt;
    if result.Ok? && result.value.Obj? && "id" in result.value.fields && result.value.fields["id"].Int? {
      IntTextIff(result.value.fields["id"].i, id);
    }
  }

  // ---------------------------------------------------------------------
  // The adapter
  // ---------------------------------------------------------------------

  class CachingAdapter<S> {
    var inner: S
    var redis: Redis
    const ttlSeconds: int
    const codec: Codec
    const reader: Reader<S>

    constructor (inner: S, ttlSeconds: int, codec: Codec, reader: Reader<S>)
      ensures this.inner == inner && redis == map[]
      ensures this.ttlSeconds == ttlSeconds && this.codec == codec && this.reader == reader
    {
      this.inner := inner;
      this.ttlSeconds := ttlSeconds;
      this.codec := codec;
      this.reader := reader;
      redis := map[];
    }

    function Now(): State<S>
      reads this
    {
      State(inner, redis)
    }

    method Read(entity: string, id: string, get: Lookup, set_: Backfill) returns (result: Result<Json>)
      modifies this`redis
      ensures (Now(), result) == AfterRead(codec, ttlSeconds, reader, old(Now()), entity, id, get, set_)
    {
      var key := RecordKey(entity, id);
      if get.Answered? {
        if key in redis && get.now < redis[key].expires {
          var parsed := codec.parse(redis[key].text);
          if parsed.Some? { return Ok(parsed.value); }
        }
      }
      result := reader(inner, entity, id);
      if result.Err? { return; }
      if set_.Stored? && ttlSeconds > 0 {
        redis := redis[key := Entry(codec.dump(result.value), set_.now + ttlSeconds)];
      }
    }

    method InvalidateRecord(entity: string, id: string, deleted: bool)
      modifies this`redis
      ensures redis == WithoutRecord(old(redis), entity, id, deleted)
    {
      if id == "" { return; }
      if deleted { redis := redis - {RecordKey(entity, id)}; }
    }

    /** The cursor loop: SCAN, then UNLINK the batch, until the cursor comes back to zero or a call throws. */
    method InvalidateEntity(entity: string, turns: seq<ScanTurn>)
      modifies this`redis
      ensures redis == WithoutScanned(old(redis), entity, turns)
    {
      var pattern := EntityScanPattern(entity);
      var i := 0;
      ghost var final := WithoutScanned(redis, entity, turns);
      assert turns[0..] == turns;
      while i < |turns|
        invariant 0 <= i <= |turns|
        invariant WithoutScanned(redis, entity, turns[i..]) == final
      {
        assert turns[i..][1..] == turns[i + 1..];
        if turns[i].ScanThrew? { return; }
        var batch := Matching(pattern, turns[i].keys);
        if turns[i].unlinked { redis := redis - batch; }
        if turns[i].threw { return; }
        i := i + 1;
      }
    }

    method Create(entity: string, effect: Effect<S, Json>, deleted: bool) returns (result: Result<Json>)
      modifies this
      ensures result == effect.result
      ensures Now() == AfterWrite(old(Now()), effect, entity, WrittenId(effect.result), deleted)
    {
      inner := effect.inner;
      result := effect.result;
      if result.Ok? { InvalidateRecord(entity, IdFromRecord(result.value), deleted); }
    }

    method Update(entity: string, id: string, effect: Effect<S, Json>, deleted: bool) returns (result: Result<Json>)
      modifies this
      ensures result == effect.result
      ensures Now() == AfterWrite(old(Now()), effect, entity, id, deleted)
    {
      inner := effect.inner;
      result := effect.result;
      if result.Ok? { InvalidateRecord(entity, id, deleted); }
    }

    method Remove(entity: string, id: string, effect: Effect<S, bool>, deleted: bool) returns (result: Result<bool>)
      modifies this
      ensures result == effect.result
      ensures Now() == AfterWrite(old(Now()), effect, entity, id, deleted)
    {
      inner := effect.inner;
      result := effect.result;
      if result.Ok? { InvalidateRecord(entity, id, deleted); }
    }

    method Upsert(entity: string, effect: Effect<S, Json>, deleted: bool) returns (result: Result<Json>)
      modifies this
      ensures result == effect.result
      ensures Now() == AfterWrite(old(Now()), effect, entity, WrittenId(effect.result), deleted)
    {
      inner := effect.inner;
      result := effect.result;
      if result.Ok? { InvalidateRecord(entity, IdFromRecord(result.value), deleted); }
    }

    /** createMany, updateMany and deleteMany differ only in what the wrapped adapter does. */
    method WriteMany(entity: string, effect: Effect<S, int>, turns: seq<ScanTurn>) returns (result: Result<int>)
      modifies this
      ensures result == effect.result
      ensures Now() == AfterBulk(old(Now()), effect, entity, turns)
    {
      inner := effect.inner;
      result := effect.result;
      if result.Ok? { InvalidateEntity(entity, turns); }
    }

    /** begin, commit and rollback are forwarded: the wrapped adapter may change, the cache does not. */
    method ForwardTransaction(effect: Effect<S, bool>) returns (result: Result<bool>)
      modifies this`inner
      ensures result == effect.result
      ensures Now() == State(effect.inner, old(redis))
    {
      inner := effect.inner;
      result := effect.result;
    }
  }
}
