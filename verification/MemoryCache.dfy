/** The in-memory cache as a machine over its critical sections, and the ideal store it stands for. */
module CacheSpec {
  import opened PyText

  // A stored value with its expiry time; 0 means that it does not expire.
  datatype Entry = Entry(value: string, expiresAt: real)

  type Store = map<string, Entry>

  datatype State = State(store: Store, hits: nat, misses: nat)

  // The critical sections. Each carries the clock reading it acts on; a put takes its reading before it
  // waits for the lock, and so does an eviction.
  datatype Op =
    | Evict(now: real)
    | Lookup(key: string, now: real)
    | Probe(key: string, now: real)
    | Put(key: string, value: string, ttl: int, now: real)
    | Remove(key: string)
    | Clear(prefix: string)

  const EMPTY := State(map[], 0, 0)

  // ---- the machine -----------------------------------------------------------------------------

  predicate Expired(entry: Entry, now: real) {
    entry.expiresAt > 0.0 && now > entry.expiresAt
  }

  function Evicted(store: Store, now: real): Store {
    map k | k in store && !Expired(store[k], now) :: store[k]
  }

  // What a lookup answers.
  function Answer(store: Store, key: string, now: real): Option<string> {
    if key in store && !Expired(store[key], now) then Some(store[key].value) else None
  }

  // A lookup or probe deletes the entry it finds expired.
  function Touched(store: Store, key: string, now: real): Store {
    if key in store && Expired(store[key], now) then store - {key} else store
  }

  function Expiry(ttl: int, now: real): real {
    if ttl > 0 then now + ttl as real else 0.0
  }

  function Cleared(store: Store, prefix: string): Store {
    map k | k in store && !(prefix <= k) :: store[k]
  }

  function Apply(s: State, op: Op): State {
    match op
    case Evict(now) => s.(store := Evicted(s.store, now))
    case Lookup(key, now) =>
      if Answer(s.store, key, now).Some? then s.(hits := s.hits + 1)
      else s.(store := Touched(s.store, key, now), misses := s.misses + 1)
    case Probe(key, now) => s.(store := Touched(s.store, key, now))
    case Put(key, value, ttl, now) => s.(store := s.store[key := Entry(value, Expiry(ttl, now))])
    case Remove(key) => s.(store := s.store - {key})
    case Clear(prefix) => s.(store := Cleared(s.store, prefix))
  }

  // A lookup or probe leaves its key in the store exactly when it has an answer, and touches no other key.
  lemma AskedKeyIsFresh(s: State, key: string, now: real, op: Op)
    requires op == Lookup(key, now) || op == Probe(key, now)
    ensures key in Apply(s, op).store <==> Answer(s.store, key, now).Some?
    ensures Apply(s, op).store - {key} == s.store - {key}
    ensures key in Apply(s, op).store ==> Apply(s, op).store == s.store
  {
  }

  function Run(ops: seq<Op>): State {
    if ops == [] then EMPTY else Apply(Run(ops[..|ops| - 1]), ops[|ops| - 1])
  }

  // ---- the ideal store: the last write of every key, never evicted -----------------------------

  datatype Written = Written(value: string, ttl: int, at: real)

  type Ideal = map<string, Written>

  predicate Stale(w: Written, now: real) {
    w.ttl > 0 && now > w.at + w.ttl as real
  }

  function IdealAfter(ops: seq<Op>): Ideal {
    if ops == [] then map[]
    else
      var before := IdealAfter(ops[..|ops| - 1]);
      match ops[|ops| - 1]
      case Put(key, value, ttl, now) => before[key := Written(value, ttl, now)]
      case Remove(key) => before - {key}
      case Clear(prefix) => map k | k in before && !(prefix <= k) :: before[k]
      case _ => before
  }

  function IdealAnswer(ideal: Ideal, key: string, now: real): Option<string> {
    if key in ideal && !Stale(ideal[key], now) then Some(ideal[key].value) else None
  }

  // How many lookups there were, and how many of them the ideal store answers.
  function Lookups(ops: seq<Op>): nat {
    if ops == [] then 0 else Lookups(ops[..|ops| - 1]) + if ops[|ops| - 1].Lookup? then 1 else 0
  }

  function IdealHits(ops: seq<Op>): nat {
    if ops == [] then 0
    else
      var earlier, op := ops[..|ops| - 1], ops[|ops| - 1];
      IdealHits(earlier) + if op.Lookup? && IdealAnswer(IdealAfter(earlier), op.key, op.now).Some? then 1 else 0
  }

  // ---- the runs --------------------------------------------------------------------------------

  // No eviction, lookup or probe so far has read a time after now.
  predicate NotBefore(ops: seq<Op>, now: real) {
    ops == [] ||
      (var op := ops[|ops| - 1];
       NotBefore(ops[..|ops| - 1], now) && ((op.Evict? || op.Lookup? || op.Probe?) ==> op.now <= now))
  }

  // Lookups and probes see a clock that does not run backwards.
  predicate Clocked(ops: seq<Op>) {
    ops == [] ||
      (var earlier, op := ops[..|ops| - 1], ops[|ops| - 1];
       Clocked(earlier) && ((op.Lookup? || op.Probe?) ==> NotBefore(earlier, op.now)))
  }

  // An expiry time that is not positive reads as "never": it must not arise.
  predicate ExpiryReadable(op: Op) {
    op.Put? && op.ttl > 0 ==> op.now + op.ttl as real > 0.0
  }

  predicate Readable(ops: seq<Op>) {
    forall k :: 0 <= k < |ops| ==> ExpiryReadable(ops[k])
  }

  // ---- refinement ------------------------------------------------------------------------------

  // Whatever is stored is the last write, and whatever is missing has expired by `now`.
  ghost predicate MirrorsAt(store: Store, ideal: Ideal, key: string, now: real) {
    && (key in store ==>
          && key in ideal && store[key].value == ideal[key].value
          && (forall t: real :: Expired(store[key], t) <==> Stale(ideal[key], t)))
    && (key in ideal && key !in store ==> Stale(ideal[key], now))
  }

  lemma {:induction false} RunMirrors(ops: seq<Op>, key: string, now: real)
    requires Clocked(ops) && Readable(ops) && NotBefore(ops, now)
    ensures MirrorsAt(Run(ops).store, IdealAfter(ops), key, now)
  {
    if ops == [] {
    } else {
      var earlier, op := ops[..|ops| - 1], ops[|ops| - 1];
      assert ExpiryReadable(op);
      RunMirrors(earlier, key, now);
    }
  }

  // Lazy deletion and periodic eviction cannot be seen: every later lookup or probe answers as the ideal
  // store does, and the hits are the answers of the ideal store.
  lemma {:induction false} RunRefines(ops: seq<Op>)
    requires Clocked(ops) && Readable(ops)
    ensures forall key, now :: NotBefore(ops, now) ==>
      Answer(Run(ops).store, key, now) == IdealAnswer(IdealAfter(ops), key, now)
    ensures Run(ops).hits == IdealHits(ops)
  {
    forall key, now | NotBefore(ops, now)
      ensures Answer(Run(ops).store, key, now) == IdealAnswer(IdealAfter(ops), key, now)
    {
      RunMirrors(ops, key, now);
    }
    if ops == [] {
    } else {
      RunRefines(ops[..|ops| - 1]);
    }
  }

  // Every lookup is counted once, whatever the clock does.
  lemma {:induction false} LookupsCounted(ops: seq<Op>)
    ensures Run(ops).hits + Run(ops).misses == Lookups(ops)
  {
    if ops == [] {
    } else {
      LookupsCounted(ops[..|ops| - 1]);
    }
  }

  // The condition on expiry times is exact: without it, the value just written is served for ever.
  lemma {:induction false} PutAnswersExactly(s: State, key: string, value: string, ttl: int, now: real)
    ensures (forall t: real :: now <= t ==>
        Answer(Apply(s, Put(key, value, ttl, now)).store, key, t)
          == IdealAnswer(map[key := Written(value, ttl, now)], key, t))
      <==> ExpiryReadable(Put(key, value, ttl, now))
  {
    var store, ideal := Apply(s, Put(key, value, ttl, now)).store, map[key := Written(value, ttl, now)];
    if !ExpiryReadable(Put(key, value, ttl, now)) {
      var t := now + ttl as real + 1.0;
      assert Answer(store, key, t) == Some(value) && IdealAnswer(ideal, key, t) == None;
    }
  }
}

/** The cache object. */
module MemoryCache {
  import opened PyText
  import opened CacheSpec

  const EVICTION_INTERVAL := 100

  class Cache {
    var store: map<string, Entry>
    var hits: nat
    var misses: nat
    var accessCount: nat
    ghost var history: seq<Op>

    ghost predicate Valid()
      reads this
    {
      Clocked(history) && Run(history) == State(store, hits, misses)
    }

    constructor ()
      ensures Valid() && history == []
    {
      store, hits, misses, accessCount := map[], 0, 0, 0;
      history := [];
    }

    // Deletes expired entries on every hundredth access.
    method MaybeEvict(now: real)
      requires Valid()
      modifies this
      ensures Valid() && (history == old(history) || history == old(history) + [Evict(now)])
      ensures accessCount == old(accessCount) + 1
      ensures history != old(history) <==> accessCount % EVICTION_INTERVAL == 0
    {
      accessCount := accessCount + 1;
      if accessCount % EVICTION_INTERVAL == 0 {
        EvictExpired(now);
      }
    }

    method EvictExpired(now: real)
      requires Valid()
      modifies this`store, this`history
      ensures Valid() && history == old(history) + [Evict(now)]
    {
      var expiredKeys := set k | k in store && Expired(store[k], now);
      Recorded(history, Evict(now));
      assert store - expiredKeys == Evicted(store, now);
      store := store - expiredKeys;
      history := history + [Evict(now)];
    }

    // The two clock readings of a get: one for the periodic eviction, one for the lookup.
    method Get(key: string, evictNow: real, now: real) returns (value: Option<string>)
      requires Valid() && NotBefore(history, now) && evictNow <= now
      modifies this
      ensures Valid()
      ensures Readable(old(history)) ==> value == IdealAnswer(IdealAfter(old(history)), key, now)
      ensures history == old(history) + [Lookup(key, now)]
        || history == old(history) + [Evict(evictNow), Lookup(key, now)]
      ensures hits + misses == old(hits) + old(misses) + 1
    {
      hide IdealAfter, IdealAnswer, Readable, NotBefore, Clocked;
      EvictThenLookup(history, key, evictNow, now);
      MaybeEvict(evictNow);
      Recorded(history, Lookup(key, now));
      if Readable(history) {
        RunRefines(history);
      }
      var answer := Answer(store, key, now);
      if key in store && Expired(store[key], now) {
        store := store - {key};
      }
      if answer.None? {
        misses := misses + 1;
      } else {
        hits := hits + 1;
      }
      history := history + [Lookup(key, now)];
      value := answer;
    }

    method Set(key: string, value: string, ttl: int, now: real)
      requires Valid()
      modifies this`store, this`history
      ensures Valid() && history == old(history) + [Put(key, value, ttl, now)]
    {
      Recorded(history, Put(key, value, ttl, now));
      var expiresAt := if ttl > 0 then now + ttl as real else 0.0;
      store := store[key := Entry(value, expiresAt)];
      history := history + [Put(key, value, ttl, now)];
    }

    method Delete(key: string) returns (existed: bool)
      requires Valid()
      modifies this`store, this`history
      ensures Valid() && history == old(history) + [Remove(key)]
      ensures existed <==> key in old(store)
    {
      Recorded(history, Remove(key));
      existed := key in store;
      store := store - {key};
      history := history + [Remove(key)];
    }

    method Exists(key: string, now: real) returns (found: bool)
      requires Valid() && NotBefore(history, now)
      modifies this`store, this`history
      ensures Valid() && history == old(history) + [Probe(key, now)]
      ensures Readable(old(history)) ==> (found <==> IdealAnswer(IdealAfter(old(history)), key, now).Some?)
    {
      Recorded(history, Probe(key, now));
      if Readable(history) {
        RunRefines(history);
      }
      found := Answer(store, key, now).Some?;
      if key in store && Expired(store[key], now) {
        store := store - {key};
      }
      history := history + [Probe(key, now)];
    }

    method ClearPrefix(prefix: string) returns (count: nat)
      requires Valid()
      modifies this`store, this`history
      ensures Valid() && history == old(history) + [Clear(prefix)]
      ensures count == |set k | k in old(store) && prefix <= k|
    {
      Recorded(history, Clear(prefix));
      var keysToDelete := set k | k in store && prefix <= k;
      assert store - keysToDelete == Cleared(store, prefix);
      count := |keysToDelete|;
      store := store - keysToDelete;
      history := history + [Clear(prefix)];
    }

    lemma Recorded(ops: seq<Op>, op: Op)
      requires Clocked(ops)
      requires (op.Lookup? || op.Probe?) ==> NotBefore(ops, op.now)
      ensures Clocked(ops + [op])
      ensures Run(ops + [op]) == Apply(Run(ops), op)
    {
      assert (ops + [op])[..|ops|] == ops;
    }

    // An eviction just before a lookup leaves the ideal answer alone.
    lemma EvictThenLookup(ops: seq<Op>, key: string, evictNow: real, now: real)
      requires NotBefore(ops, now) && evictNow <= now
      ensures NotBefore(ops + [Evict(evictNow)], now)
      ensures IdealAfter(ops + [Evict(evictNow)]) == IdealAfter(ops)
      ensures Readable(ops) ==> Readable(ops + [Evict(evictNow)])
      ensures ops + [Evict(evictNow)] + [Lookup(key, now)] == ops + [Evict(evictNow), Lookup(key, now)]
    {
      assert (ops + [Evict(evictNow)])[..|ops|] == ops;
    }
  }
}
