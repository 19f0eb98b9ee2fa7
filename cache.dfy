/**
 * The in-memory time-to-live cache of `src/utils/cache.ts`: a key-to-entry
 * store consulted before calling an asynchronous producer.
 *
 * The clock (`Date.now()`) becomes the `now` parameter. The producer is
 * represented by the outcome it would have if called at this moment; the
 * method reports whether it was called.
 */
module Cache {

  /** One hour in milliseconds, the default freshness window. */
  const DefaultTtl: int := 60 * 60 * 1000

  datatype Entry<T> = Entry(data: T, timestamp: int)

  /** What awaiting the producer gives: a value, or a rejection. */
  datatype Outcome<T> = Value(value: T) | Thrown

  /** The entry was stored less than `ttl` milliseconds before `now`. */
  predicate Fresh<T>(e: Entry<T>, now: int, ttl: int) {
    now - e.timestamp < ttl
  }

  predicate IsHit<T>(entries: map<string, Entry<T>>, key: string, now: int, ttl: int) {
    key in entries && Fresh(entries[key], now, ttl)
  }

  datatype Step<T> = Step(result: Outcome<T>, called: bool, entries: map<string, Entry<T>>)

  /** One call of the cache: the stored value if fresh, otherwise the producer's outcome, stored only when it is a value. */
  function CacheStep<T>(entries: map<string, Entry<T>>, key: string, produced: Outcome<T>, now: int, ttl: int): (s: Step<T>)
    ensures s.called <==> !IsHit(entries, key, now, ttl)
    ensures !s.called ==> s.result == Value(entries[key].data)
    ensures s.called ==> s.result == produced
    ensures s.entries.Keys == if s.called && produced.Value? then entries.Keys + {key} else entries.Keys
    ensures forall k :: k in entries && k != key ==> s.entries[k] == entries[k]
    ensures key in s.entries ==> s.entries[key] == if s.called && produced.Value? then Entry(produced.value, now) else entries[key]
  {
    if IsHit(entries, key, now, ttl) then Step(Value(entries[key].data), false, entries)
    else match produced
      case Value(v) => Step(produced, true, entries[key := Entry(v, now)])
      case Thrown => Step(Thrown, true, entries)
  }

  /** After a call that yields a value, that value is what the cache holds for the key. */
  lemma ValueIsStored<T>(entries: map<string, Entry<T>>, key: string, produced: Outcome<T>, now: int, ttl: int)
    requires CacheStep(entries, key, produced, now, ttl).result.Value?
    ensures var s := CacheStep(entries, key, produced, now, ttl);
      key in s.entries && s.entries[key].data == s.result.value
  {
  }

  /**
   * A second call within the window of a call that ran the producer is served
   * from the cache: the producer is not called again and the value is the same.
   */
  lemma RefreshThenHit<T>(entries: map<string, Entry<T>>, key: string, produced: Outcome<T>, again: Outcome<T>, now: int, later: int, ttl: int)
    requires CacheStep(entries, key, produced, now, ttl).called && produced.Value?
    requires later - now < ttl
    ensures var s := CacheStep(entries, key, produced, now, ttl);
      var t := CacheStep(s.entries, key, again, later, ttl);
      !t.called && t.result == produced && t.entries == s.entries
  {
  }

  /** Once the window has elapsed the producer runs again, and a value is stored with the new time. */
  lemma ExpiredIsRefreshed<T>(entries: map<string, Entry<T>>, key: string, produced: Outcome<T>, now: int, ttl: int)
    requires key in entries && now - entries[key].timestamp >= ttl
    ensures var s := CacheStep(entries, key, produced, now, ttl);
      s.called && (produced.Value? ==> s.entries[key] == Entry(produced.value, now))
  {
  }

  /** A rejected producer leaves the store as it was, so a stale entry stays in place. */
  lemma RejectionKeepsStore<T>(entries: map<string, Entry<T>>, key: string, now: int, ttl: int)
    ensures var s := CacheStep(entries, key, Thrown, now, ttl);
      s.entries == entries && (s.called ==> s.result == Thrown)
  {
  }

  /** With a window of zero or less nothing is ever fresh. */
  lemma NonPositiveTtlAlwaysCalls<T>(entries: map<string, Entry<T>>, key: string, produced: Outcome<T>, now: int, ttl: int)
    requires ttl <= 0
    requires key in entries ==> entries[key].timestamp <= now
    ensures CacheStep(entries, key, produced, now, ttl).called
  {
  }

  /** The process-wide store as an object. */
  class TtlCache<T> {
    var entries: map<string, Entry<T>>

    constructor()
      ensures entries == map[]
    {
      entries := map[];
    }

    /** `getCachedData(key, fetchFn, ttl)`. */
    method GetCachedData(key: string, produced: Outcome<T>, now: int, ttl: int := DefaultTtl) returns (r: Outcome<T>, called: bool)
      modifies this
      ensures var s := CacheStep(old(entries), key, produced, now, ttl);
        r == s.result && called == s.called && entries == s.entries
    {
      if key in entries && now - entries[key].timestamp < ttl {
        return Value(entries[key].data), false;
      }
      called := true;
      r := produced;
      match produced {
        case Value(v) =>
          entries := entries[key := Entry(v, now)];
        case Thrown =>
      }
    }
  }
}
