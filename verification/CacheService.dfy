/** The general cache: a memory store per process in front of Redis, with expiry, backfill and prefix invalidation. */
module CacheService {
  import opened Wrappers

  const BACKFILL_MS := 60_000

  datatype Entry<V> = Entry(value: V, expiresAt: nat)

  type Store<V> = map<string, Entry<V>>

  predicate LiveIn<V>(s: Store<V>, key: string, now: nat) {
    key in s && s[key].expiresAt > now
  }

  /** What get answers and what it leaves in the process's memory. */
  function Lookup<V>(memory: Store<V>, redis: Store<V>, up: bool, key: string, now: nat): (Option<V>, Store<V>) {
    if LiveIn(memory, key, now) then (Some(memory[key].value), memory)
    else
      var swept := memory - {key};
      if up && LiveIn(redis, key, now)
      then (Some(redis[key].value), swept[key := Entry(redis[key].value, now + BACKFILL_MS)])
      else (None, swept)
  }

  function Answer<V>(memory: Store<V>, redis: Store<V>, up: bool, key: string, now: nat): Option<V> {
    Lookup(memory, redis, up, key, now).0
  }

  function SetMemory<V>(memory: Store<V>, key: string, value: V, ttlSeconds: nat, now: nat): Store<V> {
    memory[key := Entry(value, now + ttlSeconds * 1000)]
  }

  /** Redis refuses an expiry of zero seconds and keeps what it had. */
  function SetRedis<V>(redis: Store<V>, up: bool, key: string, value: V, ttlSeconds: nat, now: nat): Store<V> {
    if up && ttlSeconds > 0 then redis[key := Entry(value, now + ttlSeconds * 1000)] else redis
  }

  /** getOrSet, with the un-awaited set finished: the answer, then both stores. */
  function GetOrSet<V>(memory: Store<V>, redis: Store<V>, up: bool, key: string, fetched: V, ttlSeconds: nat, now: nat)
    : (V, Store<V>, Store<V>)
  {
    var (cached, swept) := Lookup(memory, redis, up, key, now);
    if cached.Some? then (cached.value, swept, redis)
    else (fetched, SetMemory(swept, key, fetched, ttlSeconds, now), SetRedis(redis, up, key, fetched, ttlSeconds, now))
  }

  // -------------------------------------------------------- matching prefix patterns

  /** A Redis glob made of a literal prefix and a star. */
  predicate GlobMatches(prefix: string, key: string) {
    prefix <= key
  }

  /** A character the dot of a regular expression does not match. */
  predicate LineTerminator(c: char) {
    c == '\n' || c == '\r' || c == '\U{2028}' || c == '\U{2029}'
  }

  /** The same pattern as the regular expression built for the memory store. */
  predicate RegexMatches(prefix: string, key: string) {
    prefix <= key && forall i :: |prefix| <= i < |key| ==> !LineTerminator(key[i])
  }

  function InvalidateMemory<V>(memory: Store<V>, prefix: string): Store<V> {
    map k | k in memory && !RegexMatches(prefix, k) :: memory[k]
  }

  function InvalidateRedis<V>(redis: Store<V>, up: bool, prefix: string): Store<V> {
    if up then map k | k in redis && !GlobMatches(prefix, k) :: redis[k] else redis
  }

  ghost predicate NoKeyWith<V>(s: Store<V>, prefix: string) {
    forall k :: k in s ==> !(prefix <= k)
  }

  /** Invalidation leaves no key with the prefix in either store exactly when Redis is reachable or holds none, and no
      remembered key has a line break after the prefix. */
  lemma InvalidationCompleteIff<V>(memory: Store<V>, redis: Store<V>, up: bool, prefix: string)
    ensures && NoKeyWith(InvalidateMemory(memory, prefix), prefix)
            && NoKeyWith(InvalidateRedis(redis, up, prefix), prefix) <==>
            && (up || NoKeyWith(redis, prefix))
            && (forall k :: k in memory && prefix <= k ==> RegexMatches(prefix, k))
  {
    var memory' := InvalidateMemory(memory, prefix);
    if NoKeyWith(memory', prefix) {
      forall k | k in memory && prefix <= k ensures RegexMatches(prefix, k) {
        assert k !in memory';
      }
    }
  }

  // ---------------------------------------------------------------- the class

  class RedisStore<V> {
    var data: Store<V>

    constructor ()
      ensures data == map[]
    {
      data := map[];
    }
  }

  class CacheProcess<V> {
    var memoryStore: Store<V>
    const client: RedisStore<V>

    constructor (client: RedisStore<V>)
      ensures memoryStore == map[] && this.client == client
    {
      memoryStore := map[];
      this.client := client;
    }

    method Get(key: string, ready: bool, now: nat) returns (r: Option<V>)
      modifies this
      ensures (r, memoryStore) == Lookup(old(memoryStore), client.data, ready, key, now)
      // Asking again answers the same and changes nothing; what other keys answer is not touched.
      ensures Lookup(memoryStore, client.data, ready, key, now) == (r, memoryStore)
      ensures forall k :: k != key ==> Answer(memoryStore, client.data, ready, k, now) ==
                                       Answer(old(memoryStore), client.data, ready, k, now)
      // What is live in memory; else, when Redis is ready, what is live there, which memory then has for a minute.
      ensures var m, data := old(memoryStore), client.data;
              if key in m && m[key].expiresAt > now then r == Some(m[key].value) && memoryStore == m
              else if ready && key in data && data[key].expiresAt > now
              then r == Some(data[key].value) && memoryStore == m[key := Entry(data[key].value, now + 60_000)]
              else r == None && memoryStore == m - {key}
    {
      if key in memoryStore {
        if memoryStore[key].expiresAt > now {
          return Some(memoryStore[key].value);
        }
        memoryStore := memoryStore - {key};
      }
      assert memoryStore == old(memoryStore) - {key} == memoryStore - {key};
      if !ready {
        return None;
      }
      if key !in client.data || client.data[key].expiresAt <= now {
        return None;
      }
      var parsed := client.data[key].value;
      memoryStore := memoryStore[key := Entry(parsed, now + 60000)];
      return Some(parsed);
    }

    method Set(key: string, value: V, ttlSeconds: nat, ready: bool, now: nat)
      modifies this, client
      ensures memoryStore == SetMemory(old(memoryStore), key, value, ttlSeconds, now)
      ensures client.data == SetRedis(old(client.data), ready, key, value, ttlSeconds, now)
      ensures memoryStore == old(memoryStore)[key := Entry(value, now + ttlSeconds * 1000)]
      ensures client.data == if ready && ttlSeconds > 0
                             then old(client.data)[key := Entry(value, now + ttlSeconds * 1000)]
                             else old(client.data)
      // For its ttl, and not a millisecond longer, the value is what this process answers; other keys answer as before.
      ensures forall t: nat :: ttlSeconds > 0 && now <= t < now + ttlSeconds * 1000 ==>
                Answer(memoryStore, client.data, ready, key, t) == Some(value)
      ensures ready && ttlSeconds > 0 ==>
                Answer(memoryStore, client.data, true, key, now + ttlSeconds * 1000) == None
      ensures ready && ttlSeconds > 0 ==> Answer(map[], client.data, true, key, now) == Some(value)
      ensures forall k, t :: k != key ==>
                Answer(memoryStore, client.data, ready, k, t) == Answer(old(memoryStore), old(client.data), ready, k, t)
    {
      memoryStore := memoryStore[key := Entry(value, now + ttlSeconds * 1000)];
      if !ready {
        return;
      }
      if ttlSeconds > 0 {
        client.data := client.data[key := Entry(value, now + ttlSeconds * 1000)];
      }
    }

    /** fetched is what the fetch function would read from the database now. */
    method GetOrFetch(key: string, fetched: V, ttlSeconds: nat, ready: bool, now: nat) returns (r: V)
      modifies this, client
      ensures (r, memoryStore, client.data) ==
              GetOrSet(old(memoryStore), old(client.data), ready, key, fetched, ttlSeconds, now)
      // What was answered before is answered again, and only a key without an answer gets the fetched value; with a ttl
      // the answer is there for the next call, whatever that would fetch.
      ensures var before := Answer(old(memoryStore), old(client.data), ready, key, now);
              r == if before.Some? then before.value else fetched
      ensures ttlSeconds > 0 ==> Answer(memoryStore, client.data, ready, key, now) == Some(r)
      // The fetched value goes to both stores for its ttl; an answer that was there leaves Redis alone.
      ensures var before := Answer(old(memoryStore), old(client.data), ready, key, now);
              var entry := Entry(fetched, now + ttlSeconds * 1000);
              && (before.None? ==> memoryStore == old(memoryStore)[key := entry])
              && client.data == if before.None? && ready && ttlSeconds > 0 then old(client.data)[key := entry]
                                else old(client.data)
    {
      var cached := Get(key, ready, now);
      if cached.Some? {
        return cached.value;
      }
      Set(key, fetched, ttlSeconds, ready, now);
      return fetched;
    }

    method Del(key: string, ready: bool)
      modifies this, client
      ensures memoryStore == old(memoryStore) - {key}
      ensures client.data == if ready && key != "" then old(client.data) - {key} else old(client.data)
      // The key has no answer any more at any time, here or elsewhere; other keys answer as before.
      ensures key != "" ==> forall t :: Answer(memoryStore, client.data, ready, key, t) == None
      ensures forall k, t :: k != key ==>
                Answer(memoryStore, client.data, ready, k, t) == Answer(old(memoryStore), old(client.data), ready, k, t)
    {
      memoryStore := memoryStore - {key};
      if ready && key != "" {
        client.data := client.data - {key};
      }
    }

    /** pages are the key pages a full SCAN iteration returns: matching keys only, and every matching key that is
        there throughout. */
    method InvalidatePattern(prefix: string, ready: bool, pages: seq<seq<string>>)
      requires forall i, k :: 0 <= i < |pages| && k in pages[i] ==> GlobMatches(prefix, k)
      requires forall k :: k in client.data && GlobMatches(prefix, k) ==> exists i :: 0 <= i < |pages| && k in pages[i]
      modifies this, client
      ensures memoryStore == InvalidateMemory(old(memoryStore), prefix)
      ensures client.data == InvalidateRedis(old(client.data), ready, prefix)
      // Memory keeps the keys without the prefix and those with a line break behind it; Redis those without the prefix.
      ensures forall k :: k in memoryStore <==>
                && k in old(memoryStore)
                && (prefix <= k ==> exists i :: |prefix| <= i < |k| && k[i] in {'\n', '\r', '\U{2028}', '\U{2029}'})
      ensures forall k :: k in memoryStore ==> memoryStore[k] == old(memoryStore)[k]
      ensures forall k :: k in client.data <==> k in old(client.data) && !(ready && prefix <= k)
      ensures forall k :: k in client.data ==> client.data[k] == old(client.data)[k]
    {
      var keys := memoryStore.Keys;
      while keys != {}
        invariant keys <= memoryStore.Keys <= old(memoryStore).Keys
        invariant client.data == old(client.data)
        invariant forall k :: k in memoryStore ==> memoryStore[k] == old(memoryStore)[k]
        invariant forall k :: k in old(memoryStore) && k !in memoryStore ==> RegexMatches(prefix, k)
        invariant forall k :: k in memoryStore && RegexMatches(prefix, k) ==> k in keys
        decreases keys
      {
        var k :| k in keys;
        if RegexMatches(prefix, k) {
          memoryStore := memoryStore - {k};
        }
        keys := keys - {k};
      }
      if !ready {
        return;
      }
      for cursor := 0 to |pages|
        invariant memoryStore == InvalidateMemory(old(memoryStore), prefix)
        invariant client.data.Keys <= old(client.data).Keys
        invariant forall k :: k in client.data ==> client.data[k] == old(client.data)[k]
        invariant forall k :: k in old(client.data) && k !in client.data ==> GlobMatches(prefix, k)
        invariant forall i, k :: 0 <= i < cursor && k in pages[i] ==> k !in client.data
      {
        client.data := client.data - set k | k in pages[cursor];
      }
    }
  }

  // ------------------------------------------------------ many processes, any order

  /** A set that happened. */
  datatype Write<V> = Write(key: string, value: V, at: nat, ttlSeconds: nat)

  datatype State<V> = State(
    now: nat,
    up: bool,
    memory: map<nat, Store<V>>,
    redis: Store<V>,
    writes: seq<Write<V>>)

  datatype Step<V> =
    | Tick(ms: nat)
    | Reach(up: bool)
    | Get(process: nat, key: string)
    | Set(process: nat, key: string, value: V, ttlSeconds: nat)
    | Del(process: nat, key: string)
    | Invalidate(process: nat, prefix: string)

  function MemoryOf<V>(s: State<V>, p: nat): Store<V> {
    if p in s.memory then s.memory[p] else map[]
  }

  function Apply<V>(s: State<V>, step: Step<V>): State<V> {
    match step
    case Tick(ms) => s.(now := s.now + ms)
    case Reach(up) => s.(up := up)
    case Get(p, key) => s.(memory := s.memory[p := Lookup(MemoryOf(s, p), s.redis, s.up, key, s.now).1])
    case Set(p, key, value, ttl) =>
      s.(memory := s.memory[p := SetMemory(MemoryOf(s, p), key, value, ttl, s.now)],
         redis := SetRedis(s.redis, s.up, key, value, ttl, s.now),
         writes := s.writes + [Write(key, value, s.now, ttl)])
    case Del(p, key) =>
      s.(memory := s.memory[p := MemoryOf(s, p) - {key}],
         redis := if s.up then s.redis - {key} else s.redis)
    case Invalidate(p, prefix) =>
      s.(memory := s.memory[p := InvalidateMemory(MemoryOf(s, p), prefix)],
         redis := InvalidateRedis(s.redis, s.up, prefix))
  }

  function Run<V>(s: State<V>, steps: seq<Step<V>>): State<V>
    decreases |steps|
  {
    if steps == [] then s else Run(Apply(s, steps[0]), steps[1..])
  }

  function Initial<V>(): State<V> {
    State(0, true, map[], map[], [])
  }

  /** The set an entry came from, and how much longer than its own ttl the entry may live. */
  ghost predicate Traced<V>(s: State<V>, key: string, e: Entry<V>, slack: nat) {
    exists w :: w in s.writes && w.key == key && w.value == e.value && w.at <= s.now
                && e.expiresAt <= w.at + w.ttlSeconds * 1000 + slack
  }

  ghost predicate Inv<V>(s: State<V>) {
    && (forall k :: k in s.redis ==> Traced(s, k, s.redis[k], 0))
    && (forall p, k :: p in s.memory && k in s.memory[p] ==> Traced(s, k, s.memory[p][k], BACKFILL_MS))
  }

  lemma TracedLater<V>(s: State<V>, s': State<V>, key: string, e: Entry<V>, slack: nat, slack': nat)
    requires Traced(s, key, e, slack) && s.writes <= s'.writes && s.now <= s'.now && slack <= slack'
    ensures Traced(s', key, e, slack')
  {
    var w :| w in s.writes && w.key == key && w.value == e.value && w.at <= s.now
             && e.expiresAt <= w.at + w.ttlSeconds * 1000 + slack;
    assert w in s'.writes;
  }

  lemma BackfillTraced<V>(s: State<V>, key: string)
    requires Inv(s) && LiveIn(s.redis, key, s.now)
    ensures Traced(s, key, Entry(s.redis[key].value, s.now + BACKFILL_MS), BACKFILL_MS)
  {
    var e := s.redis[key];
    var w :| w in s.writes && w.key == key && w.value == e.value && w.at <= s.now
             && e.expiresAt <= w.at + w.ttlSeconds * 1000 + 0;
  }

  lemma StepTracesRedis<V>(s: State<V>, step: Step<V>, k: string)
    requires Inv(s) && k in Apply(s, step).redis
    ensures Traced(Apply(s, step), k, Apply(s, step).redis[k], 0)
  {
    var s' := Apply(s, step);
    if k in s.redis && s'.redis[k] == s.redis[k] {
      TracedLater(s, s', k, s.redis[k], 0, 0);
    } else {
      assert Write(step.key, step.value, s.now, step.ttlSeconds) in s'.writes;
    }
  }

  lemma StepTracesMemory<V>(s: State<V>, step: Step<V>, p: nat, k: string)
    requires Inv(s) && p in Apply(s, step).memory && k in Apply(s, step).memory[p]
    ensures Traced(Apply(s, step), k, Apply(s, step).memory[p][k], BACKFILL_MS)
  {
    var s' := Apply(s, step);
    if p in s.memory && k in s.memory[p] && s'.memory[p][k] == s.memory[p][k] {
      TracedLater(s, s', k, s.memory[p][k], BACKFILL_MS, BACKFILL_MS);
    } else if step.Get? {
      BackfillTraced(s, k);
      TracedLater(s, s', k, s'.memory[p][k], BACKFILL_MS, BACKFILL_MS);
    } else {
      assert Write(step.key, step.value, s.now, step.ttlSeconds) in s'.writes;
    }
  }

  lemma StepKeepsInv<V>(s: State<V>, step: Step<V>)
    requires Inv(s)
    ensures Inv(Apply(s, step))
  {
    var s' := Apply(s, step);
    forall k | k in s'.redis ensures Traced(s', k, s'.redis[k], 0) {
      StepTracesRedis(s, step, k);
    }
    forall p, k | p in s'.memory && k in s'.memory[p] ensures Traced(s', k, s'.memory[p][k], BACKFILL_MS) {
      StepTracesMemory(s, step, p, k);
    }
  }

  lemma {:induction false} RunKeepsInv<V>(s: State<V>, steps: seq<Step<V>>)
    requires Inv(s)
    ensures Inv(Run(s, steps))
    decreases |steps|
  {
    if steps != [] {
      StepKeepsInv(s, steps[0]);
      RunKeepsInv(Apply(s, steps[0]), steps[1..]);
    }
  }

  /** Across any number of processes, Redis coming and going: a value that get returns was stored under that key by some
      set less than its ttl plus sixty seconds before. */
  lemma ReturnedIsRecent<V>(steps: seq<Step<V>>, p: nat, key: string)
    ensures var s := Run(Initial<V>(), steps);
            var r := Lookup(MemoryOf(s, p), s.redis, s.up, key, s.now).0;
            r.Some? ==>
              exists w :: w in s.writes && w.key == key && w.value == r.value
                          && w.at <= s.now < w.at + w.ttlSeconds * 1000 + BACKFILL_MS
  {
    RunKeepsInv(Initial<V>(), steps);
    var s := Run(Initial<V>(), steps);
    var m := MemoryOf(s, p);
    if LiveIn(m, key, s.now) {
      assert Traced(s, key, s.memory[p][key], BACKFILL_MS);
      var w :| w in s.writes && w.key == key && w.value == s.memory[p][key].value && w.at <= s.now
               && s.memory[p][key].expiresAt <= w.at + w.ttlSeconds * 1000 + BACKFILL_MS;
    } else if s.up && LiveIn(s.redis, key, s.now) {
      assert Traced(s, key, s.redis[key], 0);
      var w :| w in s.writes && w.key == key && w.value == s.redis[key].value && w.at <= s.now
               && s.redis[key].expiresAt <= w.at + w.ttlSeconds * 1000 + 0;
    }
  }

  /** The bound is nearly reached: a value set for ten seconds and read by another process in its last millisecond is
      still served two milliseconds before ten plus sixty seconds. */
  lemma RecencyIsTight()
    ensures var s1 := Apply(Apply(Initial<int>(), Set(0, "k", 5, 10)), Tick(9_999));
            var s2 := Apply(Apply(s1, Get(1, "k")), Tick(BACKFILL_MS - 1));
            s2.now == 10_000 + BACKFILL_MS - 2 && Lookup(MemoryOf(s2, 1), s2.redis, s2.up, "k", s2.now).0 == Some(5)
  {
    var s1 := Apply(Apply(Initial<int>(), Set(0, "k", 5, 10)), Tick(9_999));
    assert s1.redis["k"] == Entry(5, 10_000);
    var s2 := Apply(s1, Get(1, "k"));
    assert s2.memory[1]["k"] == Entry(5, 9_999 + BACKFILL_MS);
  }

  // ----------------------------------------------- how far an invalidation reaches

  /** The entry came from the n-th set or a later one. */
  ghost predicate Since<V>(s: State<V>, n: nat, key: string, e: Entry<V>, slack: nat) {
    exists i :: n <= i < |s.writes| && MadeBy(s, i, key, e, slack)
  }

  predicate MadeBy<V(==)>(s: State<V>, i: nat, key: string, e: Entry<V>, slack: nat)
    requires i < |s.writes|
  {
    var w := s.writes[i];
    w.key == key && w.value == e.value && w.at <= s.now && e.expiresAt <= w.at + w.ttlSeconds * 1000 + slack
  }

  /** An entry in memory lives as long as its set said, or is a backfill and lives no longer than sixty seconds. */
  ghost predicate Prompt<V>(s: State<V>) {
    forall p, k :: p in s.memory && k in s.memory[p] ==>
      Traced(s, k, s.memory[p][k], 0) || s.memory[p][k].expiresAt <= s.now + BACKFILL_MS
  }

  lemma StepKeepsPrompt<V>(s: State<V>, step: Step<V>)
    requires Prompt(s)
    ensures Prompt(Apply(s, step))
  {
    var s' := Apply(s, step);
    forall p, k | p in s'.memory && k in s'.memory[p]
      ensures Traced(s', k, s'.memory[p][k], 0) || s'.memory[p][k].expiresAt <= s'.now + BACKFILL_MS
    {
      if p in s.memory && k in s.memory[p] && s'.memory[p][k] == s.memory[p][k] {
        if Traced(s, k, s.memory[p][k], 0) {
          TracedLater(s, s', k, s.memory[p][k], 0, 0);
        }
      } else if step.Set? {
        assert Write(step.key, step.value, s.now, step.ttlSeconds) in s'.writes;
      }
    }
  }

  lemma {:induction false} RunKeepsPrompt<V>(s: State<V>, steps: seq<Step<V>>)
    requires Prompt(s)
    ensures Prompt(Run(s, steps))
    decreases |steps|
  {
    if steps != [] {
      StepKeepsPrompt(s, steps[0]);
      RunKeepsPrompt(Apply(s, steps[0]), steps[1..]);
    }
  }

  /** What is left under the key from before the n-th set is in other memories than p's, and until limit at most. */
  ghost predicate Superseded<V>(s: State<V>, n: nat, p: nat, key: string, limit: nat) {
    && (key in s.redis ==> Since(s, n, key, s.redis[key], 0))
    && (forall q :: q in s.memory && key in s.memory[q] ==>
          Since(s, n, key, s.memory[q][key], BACKFILL_MS) || (q != p && s.memory[q][key].expiresAt <= limit))
  }

  lemma SinceLater<V>(s: State<V>, s': State<V>, n: nat, key: string, e: Entry<V>, slack: nat, slack': nat)
    requires Since(s, n, key, e, slack) && s.writes <= s'.writes && s.now <= s'.now && slack <= slack'
    ensures Since(s', n, key, e, slack')
  {
    var i :| n <= i < |s.writes| && MadeBy(s, i, key, e, slack);
    assert MadeBy(s', i, key, e, slack');
  }

  lemma BackfillSince<V>(s: State<V>, n: nat, key: string)
    requires LiveIn(s.redis, key, s.now) && Since(s, n, key, s.redis[key], 0)
    ensures Since(s, n, key, Entry(s.redis[key].value, s.now + BACKFILL_MS), BACKFILL_MS)
  {
    var i :| n <= i < |s.writes| && MadeBy(s, i, key, s.redis[key], 0);
    assert MadeBy(s, i, key, Entry(s.redis[key].value, s.now + BACKFILL_MS), BACKFILL_MS);
  }

  lemma StepKeepsSuperseded<V>(s: State<V>, step: Step<V>, n: nat, p: nat, key: string, limit: nat)
    requires Superseded(s, n, p, key, limit) && n <= |s.writes|
    ensures Superseded(Apply(s, step), n, p, key, limit)
  {
    var s' := Apply(s, step);
    if step.Set? && step.key == key {
      var e := Entry(step.value, s.now + step.ttlSeconds * 1000);
      assert MadeBy(s', |s.writes|, key, e, 0) && MadeBy(s', |s.writes|, key, e, BACKFILL_MS);
    }
    if key in s.redis {
      SinceLater(s, s', n, key, s.redis[key], 0, 0);
    }
    forall q | q in s'.memory && key in s'.memory[q]
      ensures Since(s', n, key, s'.memory[q][key], BACKFILL_MS) || (q != p && s'.memory[q][key].expiresAt <= limit)
    {
      if q in s.memory && key in s.memory[q] && s'.memory[q][key] == s.memory[q][key] {
        if Since(s, n, key, s.memory[q][key], BACKFILL_MS) {
          SinceLater(s, s', n, key, s.memory[q][key], BACKFILL_MS, BACKFILL_MS);
        }
      } else if step.Get? {
        BackfillSince(s, n, key);
        SinceLater(s, s', n, key, s'.memory[q][key], BACKFILL_MS, BACKFILL_MS);
      }
    }
  }

  lemma {:induction false} RunKeepsSuperseded<V>(s: State<V>, steps: seq<Step<V>>, n: nat, p: nat, key: string,
                                                 limit: nat)
    requires Superseded(s, n, p, key, limit) && n <= |s.writes|
    ensures Superseded(Run(s, steps), n, p, key, limit)
    decreases |steps|
  {
    if steps != [] {
      StepKeepsSuperseded(s, steps[0], n, p, key, limit);
      RunKeepsSuperseded(Apply(s, steps[0]), steps[1..], n, p, key, limit);
    }
  }

  lemma InvalidationSupersedes<V>(s: State<V>, p: nat, prefix: string, key: string, limit: nat)
    requires Prompt(s) && s.up && RegexMatches(prefix, key) && s.now + BACKFILL_MS <= limit
    requires forall w :: w in s.writes && w.key == key ==> w.at + w.ttlSeconds * 1000 <= limit
    ensures Superseded(Apply(s, Invalidate(p, prefix)), |s.writes|, p, key, limit)
  {
    var s' := Apply(s, Invalidate(p, prefix));
    forall q | q in s'.memory && key in s'.memory[q] ensures q != p && s'.memory[q][key].expiresAt <= limit {
      if Traced(s, key, s.memory[q][key], 0) {
        var w :| w in s.writes && w.key == key && w.value == s.memory[q][key].value && w.at <= s.now
                 && s.memory[q][key].expiresAt <= w.at + w.ttlSeconds * 1000 + 0;
      }
    }
  }

  /** How long a value outlives its invalidation by process p with Redis reachable, across any number of processes and
      whatever runs before and after: on p itself not at all; elsewhere, where the memory is out of p's reach, not
      beyond the ttl of the sets before it, nor sixty seconds, whichever ends later. What get returns then was set
      since. */
  lemma InvalidatedEverywhere<V>(before: seq<Step<V>>, p: nat, prefix: string, after: seq<Step<V>>, q: nat, key: string,
                                 limit: nat)
    requires var s := Run(Initial<V>(), before);
             && s.up && RegexMatches(prefix, key) && s.now + BACKFILL_MS <= limit
             && (forall w :: w in s.writes && w.key == key ==> w.at + w.ttlSeconds * 1000 <= limit)
    ensures var s := Run(Initial<V>(), before);
            var s' := Run(Apply(s, Invalidate(p, prefix)), after);
            var r := Lookup(MemoryOf(s', q), s'.redis, s'.up, key, s'.now).0;
            r.Some? && (q == p || s'.now >= limit) ==>
              exists i :: |s.writes| <= i < |s'.writes| && s'.writes[i].key == key && s'.writes[i].value == r.value
  {
    var s := Run(Initial<V>(), before);
    RunKeepsPrompt(Initial<V>(), before);
    InvalidationSupersedes(s, p, prefix, key, limit);
    RunKeepsSuperseded(Apply(s, Invalidate(p, prefix)), after, |s.writes|, p, key, limit);
    var s' := Run(Apply(s, Invalidate(p, prefix)), after);
    var m := MemoryOf(s', q);
    if LiveIn(m, key, s'.now) && (q == p || s'.now >= limit) {
      var i :| |s.writes| <= i < |s'.writes| && MadeBy(s', i, key, m[key], BACKFILL_MS);
    } else if !LiveIn(m, key, s'.now) && s'.up && LiveIn(s'.redis, key, s'.now) {
      var i :| |s.writes| <= i < |s'.writes| && MadeBy(s', i, key, s'.redis[key], 0);
    }
  }

  /** The limit is exact: a value set for an hour by one process and invalidated by another at once is served by the
      first to the end of the hour. */
  lemma InvalidatedElsewhereServed()
    ensures var s := Apply(Apply(Initial<int>(), Set(0, "k", 5, 3600)), Invalidate(1, "k"));
            var s' := Apply(s, Tick(3_599_999));
            && s.redis == map[] && s'.now == s.now + 3600 * 1000 - 1
            && Lookup(MemoryOf(s', 0), s'.redis, s'.up, "k", s'.now).0 == Some(5)
  {
    var s := Apply(Initial<int>(), Set(0, "k", 5, 3600));
    assert s.memory[0]["k"] == Entry(5, 3_600_000);
    assert GlobMatches("k", "k");
  }
}
