/** The fixed-window rate limiter: one counter and one window start per key. */
module RateLimiter {
  import opened Text

  /** The steady clock counts nanoseconds. */
  const TICKS_PER_SECOND: int := 1_000_000_000

  datatype Limits = Limits(maxRequests: int, windowSeconds: int)

  datatype Entry = Entry(count: int, windowStart: int)

  type Entries = map<string, Entry>

  /** A call: its key, the clock as read first, and as read again if an entry has to be made. */
  datatype Call = Call(key: string, now: int, created: int)

  /** Whole seconds, truncated toward zero. */
  function Seconds(ticks: int): int {
    if ticks >= 0 then ticks / TICKS_PER_SECOND else -(-ticks / TICKS_PER_SECOND)
  }

  // ---------------------------------------------------------------------
  // One call
  // ---------------------------------------------------------------------

  /** The key's entry once an expired window has been replaced. */
  function Current(limits: Limits, entries: Entries, call: Call): Entry {
    var entry := if call.key in entries then entries[call.key] else Entry(0, call.created);
    if Seconds(call.now - entry.windowStart) >= limits.windowSeconds then Entry(0, call.now) else entry
  }

  function AfterCall(limits: Limits, entries: Entries, call: Call): (Entries, bool) {
    var entry := Current(limits, entries, call);
    if entry.count >= limits.maxRequests then (entries[call.key := entry], false)
    else (entries[call.key := entry.(count := entry.count + 1)], true)
  }

  class SimpleRateLimiter {
    const limits: Limits
    var entries: Entries

    constructor (maxRequests: int, windowSeconds: int)
      ensures limits == Limits(maxRequests, windowSeconds) && entries == map[]
    {
      limits := Limits(maxRequests, windowSeconds);
      entries := map[];
    }

    method Allow(key: string, now: int, created: int) returns (ok: bool)
      modifies this
      ensures (entries, ok) == AfterCall(limits, old(entries), Call(key, now, created))
    {
      if key !in entries { entries := entries[key := Entry(0, created)]; }
      var elapsed := Seconds(now - entries[key].windowStart);
      if elapsed >= limits.windowSeconds {
        entries := entries[key := entries[key].(count := 0)];
        entries := entries[key := entries[key].(windowStart := now)];
      }
      assert entries == old(entries)[key := entries[key]];
      if entries[key].count >= limits.maxRequests { return false; }
      entries := entries[key := entries[key].(count := entries[key].count + 1)];
      assert entries == old(entries)[key := entries[key]];
      return true;
    }
  }

  // ---------------------------------------------------------------------
  // Runs
  // ---------------------------------------------------------------------

  /** The entries after the first `n` calls. */
  function After(limits: Limits, calls: seq<Call>, n: nat): Entries
    requires n <= |calls|
    decreases n
  {
    if n == 0 then map[] else AfterCall(limits, After(limits, calls, n - 1), calls[n - 1]).0
  }

  predicate Allowed(limits: Limits, calls: seq<Call>, i: nat)
    requires i < |calls|
  {
    AfterCall(limits, After(limits, calls, i), calls[i]).1
  }

  /** The clock never goes back, within a call or between calls. */
  ghost predicate ClockRuns(calls: seq<Call>) {
    && (forall i :: 0 <= i < |calls| ==> calls[i].now <= calls[i].created)
    && forall i :: 0 < i < |calls| ==> calls[i - 1].created <= calls[i].now
  }

  /** How many of the first `n` calls were allowed for `key` at a time in [from, to). */
  function AllowedBetween(limits: Limits, calls: seq<Call>, n: nat, key: string, from: int, to: int): nat
    requires n <= |calls|
    decreases n
  {
    if n == 0 then 0
    else
      AllowedBetween(limits, calls, n - 1, key, from, to)
      + if calls[n - 1].key == key && Allowed(limits, calls, n - 1) && from <= calls[n - 1].now < to then 1 else 0
  }

  /** How many of the first `n` calls were allowed for `key` in the window starting at `start`. */
  function AllowedInWindow(limits: Limits, calls: seq<Call>, n: nat, key: string, start: int): nat
    requires n <= |calls|
    decreases n
  {
    if n == 0 then 0
    else
      AllowedInWindow(limits, calls, n - 1, key, start)
      + if calls[n - 1].key == key && Allowed(limits, calls, n - 1)
           && Current(limits, After(limits, calls, n - 1), calls[n - 1]).windowStart == start then 1 else 0
  }

  /** A window has run out exactly when its whole length has passed. */
  lemma ExpiresAfterLength(limits: Limits, ticks: int)
    requires limits.windowSeconds > 0
    ensures Seconds(ticks) >= limits.windowSeconds <==> ticks >= Length(limits)
  {
  }

  function Length(limits: Limits): int {
    limits.windowSeconds * TICKS_PER_SECOND
  }

  // ---------------------------------------------------------------------
  // Any interval as long as a window
  // ---------------------------------------------------------------------

  /** What holds of the key's entry and the number `seen` allowed in [from, from + L): only the current window
      contributed, and if all of it did it began at `from` or later; or the window before contributed too, all but
      its first call at most; or the interval is over. */
  predicate Bounded(limits: Limits, entry: Option<Entry>, seen: nat, from: int) {
    var max := limits.maxRequests;
    var length := Length(limits);
    match entry
    case None => seen == 0
    case Some(Entry(count, start)) =>
      && (if max > 0 then 0 < count <= max else count == 0)
      && (seen > 0 ==> from < start + length && max > 0)
      && (|| (seen <= count && (0 < seen == count ==> from <= start))
          || (seen < max + count && from < start)
          || (seen < 2 * max && from + length <= start))
  }

  function EntryOf(entries: Entries, key: string): Option<Entry> {
    if key in entries then Some(entries[key]) else None
  }

  /** The next call's clock is past every window start. */
  ghost predicate StartsBy(entries: Entries, clock: int) {
    forall k :: k in entries ==> entries[k].windowStart <= clock
  }

  lemma {:induction false} StartsByClock(limits: Limits, calls: seq<Call>, n: nat)
    requires n <= |calls| && ClockRuns(calls)
    ensures n > 0 ==> StartsBy(After(limits, calls, n), calls[n - 1].created)
    decreases n
  {
    if n > 0 { StartsByClock(limits, calls, n - 1); }
  }

  lemma CallKeepsBounded(limits: Limits, entries: Entries, call: Call, seen: nat, from: int)
    requires limits.windowSeconds > 0
    requires call.now <= call.created && StartsBy(entries, call.now)
    requires Bounded(limits, EntryOf(entries, call.key), seen, from)
    ensures
      var (entries', ok) := AfterCall(limits, entries, call);
      var counted := if ok && from <= call.now < from + Length(limits) then 1 else 0;
      Bounded(limits, EntryOf(entries', call.key), seen + counted, from)
  {
    var entry := if call.key in entries then entries[call.key] else Entry(0, call.created);
    ExpiresAfterLength(limits, call.now - entry.windowStart);
  }

  lemma {:induction false} RunKeepsBounded(limits: Limits, calls: seq<Call>, n: nat, key: string, from: int)
    requires n <= |calls| && limits.windowSeconds > 0 && ClockRuns(calls)
    ensures Bounded(limits, EntryOf(After(limits, calls, n), key),
                    AllowedBetween(limits, calls, n, key, from, from + Length(limits)), from)
    decreases n
  {
    if n > 0 {
      hide Current, Bounded;
      RunKeepsBounded(limits, calls, n - 1, key, from);
      if calls[n - 1].key == key {
        StartsByClock(limits, calls, n - 1);
        CallKeepsBounded(limits, After(limits, calls, n - 1), calls[n - 1],
                         AllowedBetween(limits, calls, n - 1, key, from, from + Length(limits)), from);
      }
    } else {
      assert EntryOf(After(limits, calls, 0), key) == None;
    }
  }

  /** In any interval as long as a window, half open, a key is allowed fewer than twice `maxRequests` times
      (and never when that is not positive). */
  lemma LessThanTwiceInAnyInterval(limits: Limits, calls: seq<Call>, key: string, from: int)
    requires ClockRuns(calls)
    ensures
      var seen := AllowedBetween(limits, calls, |calls|, key, from, from + Length(limits));
      if limits.maxRequests <= 0 then seen == 0 else seen < 2 * limits.maxRequests
  {
    if limits.windowSeconds > 0 {
      RunKeepsBounded(limits, calls, |calls|, key, from);
    } else {
      EmptyInterval(limits, calls, |calls|, key, from, from + Length(limits));
    }
  }

  lemma {:induction false} EmptyInterval(limits: Limits, calls: seq<Call>, n: nat, key: string, from: int, to: int)
    requires n <= |calls| && to <= from
    ensures AllowedBetween(limits, calls, n, key, from, to) == 0
    decreases n
  {
    if n > 0 { EmptyInterval(limits, calls, n - 1, key, from, to); }
  }

  /** One call, the rest of the window's at its last tick, and all of the next window's at its first. */
  function BurstCall(limits: Limits, i: nat): Call {
    var at := if i == 0 then 0 else if i < limits.maxRequests then Length(limits) - 1 else Length(limits);
    Call("k", at, at)
  }

  function Burst(limits: Limits): (calls: seq<Call>)
    requires limits.maxRequests > 0
    ensures |calls| == 2 * limits.maxRequests
    ensures forall i :: 0 <= i < |calls| ==> calls[i] == BurstCall(limits, i)
  {
    seq(2 * limits.maxRequests, i requires 0 <= i => BurstCall(limits, i))
  }

  function BurstEntries(limits: Limits, n: nat): Entries {
    if n == 0 then map[]
    else map["k" := if n <= limits.maxRequests then Entry(n, 0) else Entry(n - limits.maxRequests, Length(limits))]
  }

  lemma BurstCallIsAllowed(limits: Limits, n: nat)
    requires limits.maxRequests > 0 && limits.windowSeconds > 0 && n < 2 * limits.maxRequests
    ensures AfterCall(limits, BurstEntries(limits, n), BurstCall(limits, n)) == (BurstEntries(limits, n + 1), true)
  {
    var entries, call := BurstEntries(limits, n), BurstCall(limits, n);
    ExpiresAfterLength(limits, call.now - if n == 0 then call.created else entries["k"].windowStart);
    assert entries["k" := BurstEntries(limits, n + 1)["k"]] == BurstEntries(limits, n + 1);
  }

  lemma {:induction false} BurstIsAllowed(limits: Limits, n: nat)
    requires limits.maxRequests > 0 && limits.windowSeconds > 0 && n <= 2 * limits.maxRequests
    ensures After(limits, Burst(limits), n) == BurstEntries(limits, n)
    ensures AllowedBetween(limits, Burst(limits), n, "k", Length(limits) - 1, 2 * Length(limits) - 1)
            == if n == 0 then 0 else n - 1
    decreases n
  {
    hide Burst, AfterCall, BurstEntries;
    if n > 0 {
      BurstIsAllowed(limits, n - 1);
      BurstCallIsAllowed(limits, n - 1);
    } else {
      assert BurstEntries(limits, 0) == map[] by { BurstStarts(limits); }
    }
  }

  lemma BurstStarts(limits: Limits)
    ensures BurstEntries(limits, 0) == map[]
  {
  }

  /** Whatever the limits, some calls reach the bound. */
  lemma BoundIsReached(limits: Limits) returns (calls: seq<Call>, from: int)
    requires limits.maxRequests > 0 && limits.windowSeconds > 0
    ensures ClockRuns(calls)
    ensures AllowedBetween(limits, calls, |calls|, "k", from, from + Length(limits)) == 2 * limits.maxRequests - 1
  {
    calls, from := Burst(limits), Length(limits) - 1;
    BurstIsAllowed(limits, |calls|);
    hide Burst, AllowedBetween;
  }

  // ---------------------------------------------------------------------
  // One window
  // ---------------------------------------------------------------------

  /** Windows of a key are told apart by their start: no later window begins where an earlier one did. The entry
      counts what its own window allowed. */
  lemma {:induction false} EntryCountsItsWindow(limits: Limits, calls: seq<Call>, n: nat, key: string, start: int)
    requires n <= |calls| && limits.windowSeconds > 0 && ClockRuns(calls)
    ensures
      var entries := After(limits, calls, n);
      var seen := AllowedInWindow(limits, calls, n, key, start);
      && (key !in entries ==> seen == 0)
      && (key in entries && entries[key].windowStart == start ==> seen == entries[key].count)
      && (key in entries && entries[key].windowStart < start ==> seen == 0)
      && (seen == 0 || seen <= limits.maxRequests)
    decreases n
  {
    if n > 0 {
      EntryCountsItsWindow(limits, calls, n - 1, key, start);
      StartsByClock(limits, calls, n - 1);
      var entries, call := After(limits, calls, n - 1), calls[n - 1];
      var entry := if call.key in entries then entries[call.key] else Entry(0, call.created);
      ExpiresAfterLength(limits, call.now - entry.windowStart);
    }
  }

  /** No window of a key allows more than `maxRequests` calls. */
  lemma AtMostMaxPerWindow(limits: Limits, calls: seq<Call>, key: string, start: int)
    requires limits.windowSeconds > 0 && ClockRuns(calls)
    ensures
      var seen := AllowedInWindow(limits, calls, |calls|, key, start);
      seen == 0 || seen <= limits.maxRequests
  {
    EntryCountsItsWindow(limits, calls, |calls|, key, start);
  }

  /** A call is refused exactly when its window has already allowed `maxRequests`. */
  lemma RefusedExactlyWhenFull(limits: Limits, calls: seq<Call>, i: nat)
    requires i < |calls| && limits.windowSeconds > 0 && ClockRuns(calls)
    ensures
      var start := Current(limits, After(limits, calls, i), calls[i]).windowStart;
      Allowed(limits, calls, i) <==> AllowedInWindow(limits, calls, i, calls[i].key, start) < limits.maxRequests
  {
    var entries, call := After(limits, calls, i), calls[i];
    var start := Current(limits, entries, call).windowStart;
    EntryCountsItsWindow(limits, calls, i, call.key, start);
    if call.key in entries { ExpiresAfterLength(limits, call.now - entries[call.key].windowStart); }
  }

  // ---------------------------------------------------------------------
  // Windows told from the calls alone
  // ---------------------------------------------------------------------

  /** The key's last call before call `n`. */
  function LastBefore(calls: seq<Call>, n: nat, key: string): (r: Option<nat>)
    requires n <= |calls|
    ensures r.Some? ==> r.value < n && calls[r.value].key == key
  {
    if n == 0 then None
    else if calls[n - 1].key == key then Some(n - 1)
    else LastBefore(calls, n - 1, key)
  }

  /** The instant from which a window counts: a key's first is timed by the entry made for it, the others by their
      first call. */
  function OpenedAt(calls: seq<Call>, o: nat): int
    requires o < |calls|
  {
    if LastBefore(calls, o, calls[o].key).None? then calls[o].created else calls[o].now
  }

  /** The call that opened the window call `i` falls in: the one of the call before it, unless that has run out. */
  function Opener(limits: Limits, calls: seq<Call>, i: nat): (o: nat)
    requires i < |calls|
    ensures o <= i
  {
    match LastBefore(calls, i, calls[i].key)
    case None => i
    case Some(j) =>
      var o := Opener(limits, calls, j);
      if calls[i].now - OpenedAt(calls, o) >= Length(limits) then i else o
  }

  /** How many of the key's first `n` calls fall in the window that call `o` opened. */
  function InWindow(limits: Limits, calls: seq<Call>, n: nat, key: string, o: nat): nat
    requires n <= |calls|
  {
    if n == 0 then 0
    else InWindow(limits, calls, n - 1, key, o) + if calls[n - 1].key == key && Opener(limits, calls, n - 1) == o then 1 else 0
  }

  lemma {:induction false} NotYetOpen(limits: Limits, calls: seq<Call>, n: nat, key: string, o: nat)
    requires n <= |calls| && n <= o
    ensures InWindow(limits, calls, n, key, o) == 0
  {
    if n > 0 { NotYetOpen(limits, calls, n - 1, key, o); }
  }

  /** How far a window that saw `seen` calls has counted. */
  function Counted(limits: Limits, seen: nat): nat {
    if seen < limits.maxRequests then seen else if limits.maxRequests > 0 then limits.maxRequests else 0
  }

  /** The entry is that of the window of the key's last call: it counts that window's calls up to the limit. */
  ghost predicate Tallies(limits: Limits, calls: seq<Call>, n: nat, key: string, entry: Option<Entry>)
    requires n <= |calls|
  {
    match LastBefore(calls, n, key)
    case None => entry == None
    case Some(j) =>
      var o := Opener(limits, calls, j);
      var seen := InWindow(limits, calls, n, key, o);
      entry == Some(Entry(Counted(limits, seen), OpenedAt(calls, o)))
  }

  /** The entry a call is judged by is that of its own window. */
  lemma CurrentTallies(limits: Limits, calls: seq<Call>, n: nat, entries: Entries)
    requires n < |calls| && limits.windowSeconds > 0 && ClockRuns(calls)
    requires Tallies(limits, calls, n, calls[n].key, EntryOf(entries, calls[n].key))
    ensures
      var o := Opener(limits, calls, n);
      Current(limits, entries, calls[n]) ==
      Entry(Counted(limits, InWindow(limits, calls, n, calls[n].key, o)), OpenedAt(calls, o))
  {
    var call := calls[n];
    var entry := if call.key in entries then entries[call.key] else Entry(0, call.created);
    NotYetOpen(limits, calls, n, call.key, n);
    OpenerIs(limits, calls, n);
    ExpiresAfterLength(limits, call.now - entry.windowStart);
    hide Seconds, Opener, OpenedAt, InWindow;
  }

  lemma CallTallies(limits: Limits, calls: seq<Call>, n: nat, entries: Entries)
    requires n < |calls| && limits.windowSeconds > 0 && ClockRuns(calls)
    requires Tallies(limits, calls, n, calls[n].key, EntryOf(entries, calls[n].key))
    ensures Tallies(limits, calls, n + 1, calls[n].key, EntryOf(AfterCall(limits, entries, calls[n]).0, calls[n].key))
    ensures
      AfterCall(limits, entries, calls[n]).1 <==>
      InWindow(limits, calls, n, calls[n].key, Opener(limits, calls, n)) < limits.maxRequests
  {
    hide Current, Opener, OpenedAt, InWindow;
    CurrentTallies(limits, calls, n, entries);
    OneMoreInWindow(limits, calls, n, Opener(limits, calls, n));
  }

  lemma OpenerIs(limits: Limits, calls: seq<Call>, n: nat)
    requires n < |calls|
    ensures
      match LastBefore(calls, n, calls[n].key)
      case None => Opener(limits, calls, n) == n && OpenedAt(calls, n) == calls[n].created
      case Some(j) =>
        var o := Opener(limits, calls, j);
        && Opener(limits, calls, n) == (if calls[n].now - OpenedAt(calls, o) >= Length(limits) then n else o)
        && OpenedAt(calls, n) == calls[n].now
  {
  }

  lemma OneMoreInWindow(limits: Limits, calls: seq<Call>, n: nat, o: nat)
    requires n < |calls| && o == Opener(limits, calls, n)
    ensures InWindow(limits, calls, n + 1, calls[n].key, o) == InWindow(limits, calls, n, calls[n].key, o) + 1
    ensures LastBefore(calls, n + 1, calls[n].key) == Some(n)
  {
  }

  lemma {:induction false} EntryTallies(limits: Limits, calls: seq<Call>, n: nat, key: string)
    requires n <= |calls| && limits.windowSeconds > 0 && ClockRuns(calls)
    ensures Tallies(limits, calls, n, key, EntryOf(After(limits, calls, n), key))
    decreases n
  {
    hide AfterCall, Opener, OpenedAt;
    if n > 0 {
      EntryTallies(limits, calls, n - 1, key);
      var entries := After(limits, calls, n - 1);
      if calls[n - 1].key == key {
        CallTallies(limits, calls, n - 1, entries);
      } else {
        CallsMeetOneKey(limits, entries, entries, calls[n - 1]);
      }
    }
  }

  /** Of each window of a key, told from the calls alone, the first `maxRequests` calls are allowed and no other. */
  lemma FirstOfEachWindow(limits: Limits, calls: seq<Call>, i: nat)
    requires i < |calls| && limits.windowSeconds > 0 && ClockRuns(calls)
    ensures
      Allowed(limits, calls, i) <==>
      InWindow(limits, calls, i, calls[i].key, Opener(limits, calls, i)) < limits.maxRequests
  {
    EntryTallies(limits, calls, i, calls[i].key);
    CallTallies(limits, calls, i, After(limits, calls, i));
  }

  /** Without a positive window every call finds its window run out, and only the limit's sign matters. */
  lemma NoWindowNoCount(limits: Limits, calls: seq<Call>, i: nat)
    requires i < |calls| && limits.windowSeconds <= 0 && ClockRuns(calls)
    ensures Allowed(limits, calls, i) <==> limits.maxRequests > 0
  {
    StartsByClock(limits, calls, i);
  }

  // ---------------------------------------------------------------------
  // Keys do not meet
  // ---------------------------------------------------------------------

  function Only(calls: seq<Call>, key: string): (r: seq<Call>) {
    if calls == [] then []
    else if calls[|calls| - 1].key == key then Only(calls[..|calls| - 1], key) + [calls[|calls| - 1]]
    else Only(calls[..|calls| - 1], key)
  }

  /** What the calls of `key` were answered, in order. */
  function Answers(limits: Limits, calls: seq<Call>, key: string): seq<bool> {
    if calls == [] then []
    else
      var n := |calls| - 1;
      if calls[n].key == key then Answers(limits, calls[..n], key) + [Allowed(limits, calls, n)]
      else Answers(limits, calls[..n], key)
  }

  lemma {:induction false} AfterPrefix(limits: Limits, calls: seq<Call>, n: nat, m: nat)
    requires n <= m <= |calls|
    ensures After(limits, calls[..m], n) == After(limits, calls, n)
    decreases n
  {
    if n > 0 { AfterPrefix(limits, calls, n - 1, m); }
  }

  /** One call more: a state further on, and an answer more if the key is the one asked about. */
  lemma OneMore(limits: Limits, calls: seq<Call>, call: Call, key: string)
    ensures
      var before := After(limits, calls, |calls|);
      && After(limits, calls + [call], |calls| + 1) == AfterCall(limits, before, call).0
      && Answers(limits, calls + [call], key) ==
         if call.key == key then Answers(limits, calls, key) + [AfterCall(limits, before, call).1]
         else Answers(limits, calls, key)
  {
    hide AfterCall;
    var more := calls + [call];
    assert more[..|calls|] == calls;
    AfterPrefix(limits, more, |calls|, |calls|);
  }

  /** A call's answer and its key's new entry depend on that key's entry alone; no other entry changes. */
  lemma CallsMeetOneKey(limits: Limits, a: Entries, b: Entries, call: Call)
    ensures forall k :: k != call.key ==> EntryOf(AfterCall(limits, a, call).0, k) == EntryOf(a, k)
    ensures
      EntryOf(a, call.key) == EntryOf(b, call.key)
      ==> && AfterCall(limits, a, call).1 == AfterCall(limits, b, call).1
          && EntryOf(AfterCall(limits, a, call).0, call.key) == EntryOf(AfterCall(limits, b, call).0, call.key)
  {
  }

  /** A key is answered, call for call, as if no other key had ever called. */
  lemma {:induction false} KeysAreIndependent(limits: Limits, calls: seq<Call>, key: string)
    ensures Answers(limits, calls, key) == Answers(limits, Only(calls, key), key)
    ensures EntryOf(After(limits, calls, |calls|), key)
            == EntryOf(After(limits, Only(calls, key), |Only(calls, key)|), key)
    decreases |calls|
  {
    hide AfterCall, After, Answers, EntryOf;
    if calls != [] {
      var n := |calls| - 1;
      var before, call := calls[..n], calls[n];
      var rest := Only(before, key);
      KeysAreIndependent(limits, before, key);
      assert calls == before + [call];
      OneMore(limits, before, call, key);
      OneMore(limits, rest, call, key);
      CallsMeetOneKey(limits, After(limits, before, n), After(limits, rest, |rest|), call);
    }
  }
}
