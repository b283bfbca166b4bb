/** Cached authentication contexts: a memory store per process, Redis shared by all of them, and in Redis a per-user
    index of the keys written, which whole-user invalidation reads to know what to delete. */
module AuthCache {
  import opened Wrappers

  const TTL_MS := 300_000

  /** loadedAt is when the database was read to make the context; the code does not store it. */
  datatype Context = Context(
    userId: Uuid,
    sessionId: Option<Uuid>,
    permissions: set<string>,
    sessionExpiresAt: Option<nat>,
    loadedAt: nat)

  /** userId:sessionId, or userId:account. Uuids hold no colon, so the pair is the string. */
  datatype Key = Key(userId: Uuid, sessionId: Option<Uuid>)

  datatype Entry = Entry(context: Context, expiresAt: nat)

  type Memory = map<Key, Entry>

  datatype Index = Index(keys: set<Key>, expiresAt: nat)

  datatype Redis = Redis(contexts: map<Key, Entry>, indexes: map<Uuid, Index>)

  function KeyOf(c: Context): Key {
    Key(c.userId, c.sessionId)
  }

  function RedisGet(r: Redis, key: Key, now: nat): Option<Context> {
    if key in r.contexts && r.contexts[key].expiresAt > now then Some(r.contexts[key].context) else None
  }

  /** The members of a user's index; an expired index is no index. */
  function Members(r: Redis, u: Uuid, now: nat): set<Key> {
    if u in r.indexes && r.indexes[u].expiresAt > now then r.indexes[u].keys else {}
  }

  predicate Acceptable(c: Context, key: Key, now: nat) {
    && c.userId == key.userId
    && (key.sessionId.Some? ==> c.sessionId == key.sessionId)
    && (c.sessionExpiresAt.Some? ==> c.sessionExpiresAt.value > now)
  }

  /** What a lookup answers and what it leaves in the process's memory. */
  function Lookup(m: Memory, r: Redis, up: bool, key: Key, now: nat): (Option<Context>, Memory) {
    if key in m && m[key].expiresAt > now then (Some(m[key].context), m)
    else
      var swept := m - {key};
      var c := if up then RedisGet(r, key, now) else None;
      if c.Some? && Acceptable(c.value, key, now)
      then (c, swept[key := Entry(c.value, now + TTL_MS)])
      else (None, swept)
  }

  function Remember(m: Memory, c: Context, now: nat): Memory {
    m[KeyOf(c) := Entry(c, now + TTL_MS)]
  }

  /** SET with expiry, SADD to the index, EXPIRE the index. */
  function Publish(r: Redis, c: Context, now: nat): Redis {
    Redis(r.contexts[KeyOf(c) := Entry(c, now + TTL_MS)],
          r.indexes[c.userId := Index(Members(r, c.userId, now) + {KeyOf(c)}, now + TTL_MS)])
  }

  function ForgetUser(m: Memory, u: Uuid): Memory {
    map k | k in m && k.userId != u :: m[k]
  }

  /** DEL of the keys read from the index, and of the index. */
  function DeleteListed(r: Redis, u: Uuid, listed: set<Key>): Redis {
    Redis(r.contexts - listed, r.indexes - {u})
  }

  function DeleteKey(r: Redis, key: Key): Redis {
    r.(contexts := r.contexts - {key})
  }

  /** Every live Redis context of u is in u's live index, which outlives it. */
  ghost predicate Indexed(r: Redis, u: Uuid, now: nat) {
    forall k :: k in r.contexts && k.userId == u && r.contexts[k].expiresAt > now ==>
      && k in Members(r, u, now)
      && r.contexts[k].expiresAt <= r.indexes[u].expiresAt
      && r.contexts[k].expiresAt <= now + TTL_MS
  }

  /** No context of u is served from this memory, nor by a process that has just started. */
  ghost predicate ServesNone(m: Memory, r: Redis, u: Uuid, now: nat) {
    forall k: Key :: k.userId == u ==> Lookup(m, r, true, k, now).0.None? && Lookup(map[], r, true, k, now).0.None?
  }

  // ---------------------------------------------------------------- the module

  class RedisServer {
    var data: Redis

    constructor ()
      ensures data == Redis(map[], map[])
    {
      data := Redis(map[], map[]);
    }
  }

  /** One process's view: its own memory store and the shared server, which may be unreachable. */
  class Process {
    var authMemoryStore: Memory
    const redis: RedisServer

    constructor (redis: RedisServer)
      ensures authMemoryStore == map[] && this.redis == redis
    {
      authMemoryStore := map[];
      this.redis := redis;
    }

    method GetAuthContext(userId: Uuid, sessionId: Option<Uuid>, up: bool, now: nat) returns (r: Option<Context>)
      modifies this
      ensures (r, authMemoryStore) == Lookup(old(authMemoryStore), redis.data, up, Key(userId, sessionId), now)
      // Asking again answers the same and changes nothing; what other keys answer is not touched.
      ensures Lookup(authMemoryStore, redis.data, up, Key(userId, sessionId), now) == (r, authMemoryStore)
      ensures forall k :: k != Key(userId, sessionId) ==>
                Lookup(authMemoryStore, redis.data, up, k, now).0 ==
                Lookup(old(authMemoryStore), redis.data, up, k, now).0
      // What is live in memory is answered as it is; otherwise, with Redis up, exactly the live context there that is
      // of this user, of this session when one is named, and of a session that has not expired, and memory then has it
      // for 300 seconds; otherwise nothing.
      ensures var key := Key(userId, sessionId);
              var m, contexts := old(authMemoryStore), redis.data.contexts;
              if key in m && m[key].expiresAt > now then r == Some(m[key].context) && authMemoryStore == m
              else if && up && key in contexts && contexts[key].expiresAt > now
                      && contexts[key].context.userId == userId
                      && (sessionId.None? || contexts[key].context.sessionId == sessionId)
                      && (|| contexts[key].context.sessionExpiresAt.None?
                          || contexts[key].context.sessionExpiresAt.value > now)
              then r == Some(contexts[key].context)
                   && authMemoryStore == m[key := Entry(contexts[key].context, now + 300_000)]
              else r == None && authMemoryStore == m - {key}
    {
      var memKey := Key(userId, sessionId);
      if memKey in authMemoryStore {
        if authMemoryStore[memKey].expiresAt > now {
          return Some(authMemoryStore[memKey].context);
        }
        authMemoryStore := authMemoryStore - {memKey};
      }
      assert authMemoryStore == old(authMemoryStore) - {memKey} == authMemoryStore - {memKey};
      if !up {
        return None;
      }
      var value := RedisGet(redis.data, memKey, now);
      if value.None? {
        return None;
      }
      var context := value.value;
      if context.userId != userId {
        return None;
      }
      if sessionId.Some? && context.sessionId != sessionId {
        return None;
      }
      if context.sessionExpiresAt.Some? && context.sessionExpiresAt.value <= now {
        return None;
      }
      authMemoryStore := authMemoryStore[memKey := Entry(context, now + TTL_MS)];
      return Some(context);
    }

    /** Memory is stamped at now, before the pipeline runs at setAt. */
    method SetAuthContext(context: Context, up: bool, now: nat, setAt: nat)
      requires now <= setAt
      modifies this, redis
      ensures authMemoryStore == Remember(old(authMemoryStore), context, now)
      ensures redis.data == if up then Publish(old(redis.data), context, setAt) else old(redis.data)
      // This process serves the context back, and so does one that has just started, while its session lasts.
      ensures Lookup(authMemoryStore, redis.data, up, KeyOf(context), now).0 == Some(context)
      ensures up && Acceptable(context, KeyOf(context), setAt) ==>
                Lookup(map[], redis.data, true, KeyOf(context), setAt).0 == Some(context)
      ensures forall u :: Indexed(old(redis.data), u, now) ==> Indexed(redis.data, u, setAt)
      // For 300 seconds from each write, under the context's own key and in its user's index, which keeps its keys.
      ensures var key := Key(context.userId, context.sessionId);
              && authMemoryStore == old(authMemoryStore)[key := Entry(context, now + 300_000)]
              && (up ==>
                    var indexes := old(redis.data.indexes);
                    var listed := if context.userId in indexes && indexes[context.userId].expiresAt > setAt
                                  then indexes[context.userId].keys else {};
                    && redis.data.contexts == old(redis.data.contexts)[key := Entry(context, setAt + 300_000)]
                    && redis.data.indexes == indexes[context.userId := Index(listed + {key}, setAt + 300_000)])
    {
      var key := KeyOf(context);
      authMemoryStore := authMemoryStore[key := Entry(context, now + 300 * 1000)];
      if up {
        var members := Members(redis.data, context.userId, setAt);
        redis.data := redis.data.(contexts := redis.data.contexts[key := Entry(context, setAt + 300 * 1000)]);
        var index := Index(members + {key}, setAt + 300 * 1000);
        redis.data := redis.data.(indexes := redis.data.indexes[context.userId := index]);
      }
    }

    /** Delete every memory key with the user's prefix, one by one. */
    method ForgetUserKeys(userId: Uuid)
      modifies this
      ensures authMemoryStore == ForgetUser(old(authMemoryStore), userId)
    {
      var keys := authMemoryStore.Keys;
      while keys != {}
        invariant keys <= authMemoryStore.Keys <= old(authMemoryStore).Keys
        invariant forall k :: k in authMemoryStore ==> authMemoryStore[k] == old(authMemoryStore)[k]
        invariant forall k :: k in old(authMemoryStore) && k !in authMemoryStore ==> k.userId == userId
        invariant forall k :: k in authMemoryStore && k.userId == userId ==> k in keys
        decreases keys
      {
        var k :| k in keys;
        if k.userId == userId {
          authMemoryStore := authMemoryStore - {k};
        }
        keys := keys - {k};
      }
    }

    /** First half of a whole-user invalidation: local memory, then the read of the index. */
    method BeginInvalidate(userId: Uuid, now: nat) returns (contextKeys: set<Key>)
      modifies this
      ensures authMemoryStore == ForgetUser(old(authMemoryStore), userId)
      ensures contextKeys == Members(redis.data, userId, now)
      ensures contextKeys == if userId in redis.data.indexes && redis.data.indexes[userId].expiresAt > now
                             then redis.data.indexes[userId].keys else {}
      // Memory answers nothing for the user and what it did for everybody else; the keys are all there is to delete.
      ensures forall k :: Lookup(authMemoryStore, redis.data, false, k, now).0 ==
                if k.userId == userId then None else Lookup(old(authMemoryStore), redis.data, false, k, now).0
      ensures Indexed(redis.data, userId, now) ==>
                forall k: Key :: k.userId == userId && RedisGet(redis.data, k, now).Some? ==> k in contextKeys
    {
      ForgetUserKeys(userId);
      contextKeys := Members(redis.data, userId, now);
    }

    /** Second half: the pipelined deletes. */
    method FinishInvalidate(userId: Uuid, contextKeys: set<Key>)
      modifies redis
      ensures redis.data == DeleteListed(old(redis.data), userId, contextKeys)
      // The listed keys answer nothing at any time, the others what they did.
      ensures forall k, t ::
                RedisGet(redis.data, k, t) == if k in contextKeys then None else RedisGet(old(redis.data), k, t)
      ensures redis.data.contexts == old(redis.data.contexts) - contextKeys
      ensures redis.data.indexes == old(redis.data.indexes) - {userId}
    {
      if contextKeys != {} {
        redis.data := redis.data.(contexts := redis.data.contexts - contextKeys);
      }
      redis.data := redis.data.(indexes := redis.data.indexes - {userId});
    }

    /** A whole-user invalidation with nothing in between and Redis reachable. */
    method InvalidateUser(userId: Uuid, now: nat)
      modifies this, redis
      ensures authMemoryStore == ForgetUser(old(authMemoryStore), userId)
      ensures redis.data == DeleteListed(old(redis.data), userId, Members(old(redis.data), userId, now))
      // With the index complete, nothing is served for the user any more, here or by a process that has just started.
      ensures old(Indexed(redis.data, userId, now)) ==> ServesNone(authMemoryStore, redis.data, userId, now)
    {
      var contextKeys := BeginInvalidate(userId, now);
      FinishInvalidate(userId, contextKeys);
    }

    method InvalidateSession(userId: Uuid, sessionId: Uuid, up: bool, now: nat)
      modifies this, redis
      ensures authMemoryStore == old(authMemoryStore) - {Key(userId, Some(sessionId))}
      ensures redis.data == if up then DeleteKey(old(redis.data), Key(userId, Some(sessionId))) else old(redis.data)
      // Nothing is served for the session any more; what other keys answer is not touched.
      ensures Lookup(authMemoryStore, redis.data, up, Key(userId, Some(sessionId)), now).0.None?
      ensures forall k :: k != Key(userId, Some(sessionId)) ==>
                Lookup(authMemoryStore, redis.data, up, k, now).0 ==
                Lookup(old(authMemoryStore), old(redis.data), up, k, now).0
    {
      authMemoryStore := authMemoryStore - {Key(userId, Some(sessionId))};
      if up {
        redis.data := redis.data.(contexts := redis.data.contexts - {Key(userId, Some(sessionId))});
      }
    }
  }

  // ------------------------------------------------------ many processes, any order

  datatype Loading = Loading(process: nat, context: Context)

  datatype Invalidating = Invalidating(userId: Uuid, listed: set<Key>)

  datatype State = State(
    now: nat,
    up: bool,                                  // Redis reachable
    memory: map<nat, Memory>,                  // per process
    redis: Redis,
    loading: map<nat, Loading>,                // contexts read from the database, not yet stored
    invalidating: map<nat, Invalidating>)      // invalidations between index read and deletes

  datatype Step =
    | Tick(ms: nat)
    | Reach(up: bool)
    | Get(process: nat, key: Key)
    | Load(request: nat, process: nat, key: Key, permissions: set<string>, sessionExpiresAt: Option<nat>)
    | Store(request: nat)
    | Begin(request: nat, process: nat, userId: Uuid)
    | Finish(request: nat)
    | DropSession(process: nat, userId: Uuid, sessionId: Uuid)

  const INITIAL := State(0, true, map[], Redis(map[], map[]), map[], map[])

  function MemoryOf(s: State, p: nat): Memory {
    if p in s.memory then s.memory[p] else map[]
  }

  function Apply(s: State, step: Step): State {
    match step
    case Tick(ms) => s.(now := s.now + ms)
    case Reach(up) => s.(up := up)
    case Get(p, key) => s.(memory := s.memory[p := Lookup(MemoryOf(s, p), s.redis, s.up, key, s.now).1])
    case Load(request, p, key, permissions, sessionExpiresAt) =>
      if request in s.loading then s
      else
        var context := Context(key.userId, key.sessionId, permissions, sessionExpiresAt, s.now);
        s.(loading := s.loading[request := Loading(p, context)])
    case Store(request) =>
      if request !in s.loading then s
      else
        var l := s.loading[request];
        s.(loading := s.loading - {request},
           memory := s.memory[l.process := Remember(MemoryOf(s, l.process), l.context, s.now)],
           redis := if s.up then Publish(s.redis, l.context, s.now) else s.redis)
    case Begin(request, p, u) =>
      if request in s.invalidating then s
      else
        var begun := s.invalidating[request := Invalidating(u, Members(s.redis, u, s.now))];
        s.(memory := s.memory[p := ForgetUser(MemoryOf(s, p), u)],
           invalidating := if s.up then begun else s.invalidating)
    case Finish(request) =>
      if request !in s.invalidating then s
      else
        var i := s.invalidating[request];
        s.(invalidating := s.invalidating - {request},
           redis := if s.up then DeleteListed(s.redis, i.userId, i.listed) else s.redis)
    case DropSession(p, u, id) =>
      s.(memory := s.memory[p := MemoryOf(s, p) - {Key(u, Some(id))}],
         redis := if s.up then DeleteKey(s.redis, Key(u, Some(id))) else s.redis)
  }

  function Run(s: State, steps: seq<Step>): State
    decreases |steps|
  {
    if steps == [] then s else Run(Apply(s, steps[0]), steps[1..])
  }

  /** The context process p would serve now for a key. */
  function Served(s: State, p: nat, key: Key): Option<Context> {
    Lookup(MemoryOf(s, p), s.redis, s.up, key, s.now).0
  }

  // -------------------------------------------------------- the index covers Redis

  ghost predicate GoodEntry(key: Key, e: Entry, now: nat) {
    KeyOf(e.context) == key && e.expiresAt <= now + TTL_MS && e.context.loadedAt <= now
  }

  ghost predicate GoodMemory(m: Memory, now: nat) {
    forall k :: k in m ==> m[k].context.userId == k.userId && m[k].expiresAt <= now + TTL_MS
  }

  ghost predicate Inv(s: State) {
    && (forall p :: p in s.memory ==> GoodMemory(s.memory[p], s.now))
    && (forall k :: k in s.redis.contexts ==> GoodEntry(k, s.redis.contexts[k], s.now))
    && (forall r :: r in s.loading ==> s.loading[r].context.loadedAt <= s.now)
  }

  /** Every live Redis context of u is in u's live index, which outlives it; and every invalidation of u
      in progress has read all of them. */
  ghost predicate Covered(s: State, u: Uuid) {
    && Indexed(s.redis, u, s.now)
    && (forall r, k :: r in s.invalidating && s.invalidating[r].userId == u
                       && k in s.redis.contexts && k.userId == u && s.redis.contexts[k].expiresAt > s.now ==>
          k in s.invalidating[r].listed)
  }

  /** No context of u is stored between the index read and the deletes of an invalidation of u. */
  ghost predicate Quiet(s: State, step: Step, u: Uuid) {
    step.Store? && step.request in s.loading && s.loading[step.request].context.userId == u ==>
      forall r :: r in s.invalidating ==> s.invalidating[r].userId != u
  }

  ghost predicate QuietRun(s: State, steps: seq<Step>, u: Uuid)
    decreases |steps|
  {
    steps != [] ==> Quiet(s, steps[0], u) && QuietRun(Apply(s, steps[0]), steps[1..], u)
  }

  lemma StepKeepsInv(s: State, step: Step)
    requires Inv(s)
    ensures Inv(Apply(s, step))
  {
  }

  lemma StoreKeepsCovered(s: State, request: nat, u: Uuid)
    requires Inv(s) && Covered(s, u) && Quiet(s, Store(request), u)
    ensures Covered(Apply(s, Store(request)), u)
  {
  }

  lemma StepKeepsCovered(s: State, step: Step, u: Uuid)
    requires Inv(s) && Covered(s, u) && Quiet(s, step, u)
    ensures Covered(Apply(s, step), u)
  {
    if step.Store? {
      StoreKeepsCovered(s, step.request, u);
    }
  }

  lemma {:induction false} QuietRunCovered(s: State, steps: seq<Step>, u: Uuid)
    requires Inv(s) && Covered(s, u) && QuietRun(s, steps, u)
    ensures Inv(Run(s, steps)) && Covered(Run(s, steps), u)
    decreases |steps|
  {
    if steps != [] {
      StepKeepsInv(s, steps[0]);
      StepKeepsCovered(s, steps[0], u);
      QuietRunCovered(Apply(s, steps[0]), steps[1..], u);
    }
  }

  // ------------------------------------------------------------ the 300 second bound

  /** A Redis entry that no lookup later than t takes over with a context from before t. */
  predicate Settled(k: Key, e: Entry, t: nat) {
    e.context.loadedAt >= t || e.expiresAt <= t + 1 || !Acceptable(e.context, k, t + 1)
  }

  /** Nothing loaded before t can spread after t: Redis holds no such context of u, none is on its way to be stored,
      and the copies left in process memories run out within 300 seconds of t. */
  ghost predicate Sealed(s: State, u: Uuid, t: nat) {
    && t <= s.now
    && (forall k :: k in s.redis.contexts && k.userId == u ==> Settled(k, s.redis.contexts[k], t))
    && (forall p :: p in s.memory ==> SealedMemory(s.memory[p], u, t))
    && (forall r :: r in s.loading && s.loading[r].context.userId == u ==> s.loading[r].context.loadedAt >= t)
  }

  ghost predicate SealedMemory(m: Memory, u: Uuid, t: nat) {
    forall k :: k in m && k.userId == u ==> m[k].context.loadedAt >= t || m[k].expiresAt <= t + TTL_MS
  }

  lemma GetKeepsSealed(s: State, p: nat, key: Key, u: Uuid, t: nat)
    requires Sealed(s, u, t)
    ensures Sealed(Apply(s, Get(p, key)), u, t)
  {
    assert SealedMemory(MemoryOf(s, p), u, t);
  }

  lemma StoreKeepsSealed(s: State, request: nat, u: Uuid, t: nat)
    requires Sealed(s, u, t)
    ensures Sealed(Apply(s, Store(request)), u, t)
  {
  }

  lemma StepKeepsSealed(s: State, step: Step, u: Uuid, t: nat)
    requires Sealed(s, u, t)
    ensures Sealed(Apply(s, step), u, t)
  {
    match step {
      case Get(p, key) => GetKeepsSealed(s, p, key, u, t);
      case Store(request) => StoreKeepsSealed(s, request, u, t);
      case _ =>
    }
  }

  lemma {:induction false} RunKeepsSealed(s: State, steps: seq<Step>, u: Uuid, t: nat)
    requires Sealed(s, u, t)
    ensures Sealed(Run(s, steps), u, t)
    decreases |steps|
  {
    if steps != [] {
      StepKeepsSealed(s, steps[0], u, t);
      RunKeepsSealed(Apply(s, steps[0]), steps[1..], u, t);
    }
  }

  /** Whatever runs from s on, no process serves a context of u loaded before t from t + 300 s on. */
  ghost predicate Bounded(s: State, u: Uuid, t: nat) {
    forall steps: seq<Step>, p: nat, key: Key :: key.userId == u ==> InBound(Run(s, steps), p, key, t)
  }

  predicate InBound(s: State, p: nat, key: Key, t: nat) {
    s.now >= t + TTL_MS && Served(s, p, key).Some? ==> Served(s, p, key).value.loadedAt >= t
  }

  lemma SealedIsBounded(s: State, u: Uuid, t: nat)
    requires Sealed(s, u, t)
    ensures Bounded(s, u, t)
  {
    forall steps: seq<Step>, p: nat, key: Key | key.userId == u ensures InBound(Run(s, steps), p, key, t) {
      RunKeepsSealed(s, steps, u, t);
    }
  }

  /** No context of u read from the database before now is still to be stored. */
  ghost predicate NoneInFlight(s: State, u: Uuid) {
    forall r :: r in s.loading && s.loading[r].context.userId == u ==> s.loading[r].context.loadedAt >= s.now
  }

  /** Every Redis context of u that could still be taken over is on the list about to be deleted. */
  ghost predicate AllListed(s: State, u: Uuid, listed: set<Key>) {
    forall k :: k in s.redis.contexts && k.userId == u && k !in listed ==> Settled(k, s.redis.contexts[k], s.now)
  }

  lemma FinishSeals(s: State, request: nat, u: Uuid)
    requires Inv(s) && s.up && request in s.invalidating && s.invalidating[request].userId == u
    requires NoneInFlight(s, u) && AllListed(s, u, s.invalidating[request].listed)
    ensures Sealed(Apply(s, Finish(request)), u, s.now)
  {
  }

  lemma RunTwo(s: State, a: Step, b: Step)
    ensures Run(s, [a, b]) == Apply(Apply(s, a), b)
  {
    assert [a, b][1..] == [b] && [b][1..] == [];
    assert Run(Apply(s, a), [b]) == Run(Apply(Apply(s, a), b), []);
  }

  lemma RunThree(s: State, a: Step, b: Step, c: Step)
    ensures Run(s, [a, b, c]) == Apply(Apply(Apply(s, a), b), c)
  {
    assert [a, b, c][1..] == [b, c];
    RunTwo(Apply(s, a), b, c);
  }

  /** A load still in flight can be stored 300 s later and is served then. */
  lemma InFlightEscapes(s: State, request: nat, u: Uuid)
    requires request in s.loading && s.loading[request].context.userId == u
    requires s.loading[request].context.loadedAt < s.now
    ensures !Bounded(s, u, s.now)
  {
    var l := s.loading[request];
    RunTwo(s, Tick(TTL_MS), Store(request));
    var s' := Apply(Apply(s, Tick(TTL_MS)), Store(request));
    assert s'.memory[l.process][KeyOf(l.context)] == Entry(l.context, s.now + TTL_MS + TTL_MS);
    assert !InBound(Run(s, [Tick(TTL_MS), Store(request)]), l.process, KeyOf(l.context), s.now);
  }

  lemma {:induction false} NewProcess(taken: set<nat>) returns (p: nat)
    ensures forall q :: q in taken ==> q < p
    decreases |taken|
  {
    if taken == {} {
      p := 0;
    } else {
      var q :| q in taken;
      p := NewProcess(taken - {q});
      p := if p <= q then q + 1 else p;
      assert forall x :: x in taken ==> x == q || x in taken - {q};
    }
  }

  /** An older context left in Redis is taken over a millisecond later by a process that has just started, and served
      300 s after the deletes. */
  lemma LeftoverEscapes(s: State, k: Key, u: Uuid)
    requires s.up && k in s.redis.contexts && k.userId == u && !Settled(k, s.redis.contexts[k], s.now)
    ensures !Bounded(s, u, s.now)
  {
    var p := NewProcess(s.memory.Keys);
    var e := s.redis.contexts[k];
    var steps := [Tick(1), Get(p, k), Tick(TTL_MS - 1)];
    RunThree(s, Tick(1), Get(p, k), Tick(TTL_MS - 1));
    assert p !in s.memory;
    var s2 := Apply(Apply(s, Tick(1)), Get(p, k));
    assert s2.memory[p][k] == Entry(e.context, s.now + 1 + TTL_MS);
    assert !InBound(Run(s, steps), p, k, s.now);
  }

  /** A whole-user invalidation that finishes with Redis reachable bounds what every process serves by 300 s, whatever
      runs afterwards, exactly when its list holds every context of the user that could still be taken over and no
      older context of the user is in flight. */
  lemma InvalidationHoldsIff(s: State, request: nat, u: Uuid)
    requires Inv(s) && s.up && request in s.invalidating && s.invalidating[request].userId == u
    ensures Bounded(Apply(s, Finish(request)), u, s.now) <==>
            NoneInFlight(s, u) && AllListed(s, u, s.invalidating[request].listed)
  {
    var s' := Apply(s, Finish(request));
    if !NoneInFlight(s, u) {
      var r :| r in s.loading && s.loading[r].context.userId == u && s.loading[r].context.loadedAt < s.now;
      InFlightEscapes(s', r, u);
    } else if !AllListed(s, u, s.invalidating[request].listed) {
      var k :| k in s.redis.contexts && k.userId == u && k !in s.invalidating[request].listed
               && !Settled(k, s.redis.contexts[k], s.now);
      LeftoverEscapes(s', k, u);
    } else {
      FinishSeals(s, request, u);
      SealedIsBounded(s', u, s.now);
    }
  }

  lemma CoveredIsListed(s: State, request: nat, u: Uuid)
    requires Covered(s, u) && request in s.invalidating && s.invalidating[request].userId == u
    ensures AllListed(s, u, s.invalidating[request].listed)
  {
  }

  /** Across any number of processes: after a whole-user invalidation finishes at time t with Redis reachable and no
      older context of the user in flight, no process serves a context of that user loaded before t at any time from
      t + 300 s on, whatever runs in between. Before the invalidation the run may do anything except store a context
      of the user inside an invalidation of the user. */
  lemma InvalidationBound(before: seq<Step>, request: nat, u: Uuid, after: seq<Step>, p: nat, key: Key)
    requires QuietRun(INITIAL, before, u)
    requires var s := Run(INITIAL, before);
             s.up && request in s.invalidating && s.invalidating[request].userId == u && NoneInFlight(s, u)
    requires key.userId == u
    ensures var s := Run(INITIAL, before);
            var s' := Run(Apply(s, Finish(request)), after);
            s'.now >= s.now + TTL_MS && Served(s', p, key).Some? ==> Served(s', p, key).value.loadedAt >= s.now
  {
    var s := Run(INITIAL, before);
    QuietRunCovered(INITIAL, before, u);
    CoveredIsListed(s, request, u);
    InvalidationHoldsIff(s, request, u);
    assert InBound(Run(Apply(s, Finish(request)), after), p, key, s.now);
  }

  // --------------------------------------------------- why each condition is there

  const KEY := Key(1, None)

  /** The bound is exact: a process that looks the context up just before the deletes serves it one millisecond short
      of 300 s later. */
  lemma BoundIsTight()
    ensures var s1 := Apply(Apply(INITIAL, Load(0, 0, KEY, {}, None)), Store(0));
            var s2 := Apply(Apply(s1, Tick(1)), Begin(0, 0, 1));
            var s3 := Apply(s2, Get(1, KEY));
            var s4 := Apply(Apply(s3, Finish(0)), Tick(TTL_MS - 1));
            && s3.now == 1 && s4.now == s3.now + TTL_MS - 1
            && Served(s4, 1, KEY).Some? && Served(s4, 1, KEY).value.loadedAt < s3.now
  {
    var c := Context(1, None, {}, None, 0);
    var s1 := Apply(Apply(INITIAL, Load(0, 0, KEY, {}, None)), Store(0));
    assert s1.redis.contexts[KEY] == Entry(c, TTL_MS);
    var s2 := Apply(Apply(s1, Tick(1)), Begin(0, 0, 1));
    var s3 := Apply(s2, Get(1, KEY));
    assert s3.memory[1][KEY] == Entry(c, 1 + TTL_MS);
  }

  /** A context stored between the index read and the deletes stays in Redis without an index entry, and is served
      by another process more than 300 s after the invalidation finished. */
  lemma StoreInsideInvalidationEscapes()
    ensures var s1 := Apply(Apply(INITIAL, Load(0, 0, KEY, {}, None)), Begin(0, 0, 1));
            var s2 := Apply(Apply(s1, Store(0)), Tick(1));
            var s3 := Apply(s2, Finish(0));
            var s4 := Apply(Apply(Apply(s3, Tick(TTL_MS - 2)), Get(1, KEY)), Tick(2));
            && s2.up && 0 in s2.invalidating && s2.loading == map[]
            && s4.now == s2.now + TTL_MS
            && Served(s4, 1, KEY).Some? && Served(s4, 1, KEY).value.loadedAt < s2.now
  {
    var c := Context(1, None, {}, None, 0);
    var s1 := Apply(Apply(INITIAL, Load(0, 0, KEY, {}, None)), Begin(0, 0, 1));
    assert s1.invalidating[0] == Invalidating(1, {});
    var s2 := Apply(Apply(s1, Store(0)), Tick(1));
    assert s2.redis.contexts[KEY] == Entry(c, TTL_MS);
    var s3 := Apply(s2, Finish(0));
    assert s3.redis.contexts[KEY] == Entry(c, TTL_MS);
    var s4 := Apply(Apply(s3, Tick(TTL_MS - 2)), Get(1, KEY));
    assert s4.memory[1][KEY] == Entry(c, TTL_MS - 1 + TTL_MS);
  }

  /** A context being loaded when the invalidation finishes is stored afterwards and outlives the bound too. */
  lemma LoadAcrossInvalidationEscapes()
    ensures var s1 := Apply(Apply(INITIAL, Load(0, 0, KEY, {}, None)), Begin(0, 0, 1));
            var s2 := Apply(s1, Tick(1));
            var s3 := Apply(s2, Finish(0));
            var s4 := Apply(Apply(Apply(s3, Tick(1)), Store(0)), Tick(TTL_MS - 1));
            && s2.up && 0 in s2.invalidating && s2.redis.contexts == map[]
            && s4.now == s2.now + TTL_MS
            && Served(s4, 0, KEY).Some? && Served(s4, 0, KEY).value.loadedAt < s2.now
  {
    var c := Context(1, None, {}, None, 0);
    var s3 := Apply(Apply(Apply(Apply(INITIAL, Load(0, 0, KEY, {}, None)), Begin(0, 0, 1)), Tick(1)), Finish(0));
    var s4 := Apply(Apply(s3, Tick(1)), Store(0));
    assert s4.memory[0][KEY] == Entry(c, 2 + TTL_MS);
  }

  // ------------------------------------------------------- without any invalidation

  lemma {:induction false} RunKeepsInv(s: State, steps: seq<Step>)
    requires Inv(s)
    ensures Inv(Run(s, steps))
    decreases |steps|
  {
    if steps != [] {
      StepKeepsInv(s, steps[0]);
      RunKeepsInv(Apply(s, steps[0]), steps[1..]);
    }
  }

  ghost predicate Lapses(entries: map<Key, Entry>, t: nat, limit: nat) {
    forall k :: k in entries ==> entries[k].context.loadedAt >= t || entries[k].expiresAt <= limit
  }

  /** Contexts loaded before t are not in flight any more and run out: in Redis within 300 seconds of t, in a memory,
      which may take one over in the last millisecond of those, within almost 600. */
  ghost predicate Aging(s: State, t: nat) {
    && Lapses(s.redis.contexts, t, t + TTL_MS)
    && (forall p :: p in s.memory ==> Lapses(s.memory[p], t, t + 2 * TTL_MS - 1))
    && (forall r :: r in s.loading ==> s.loading[r].context.loadedAt >= t)
  }

  lemma GetKeepsAging(s: State, p: nat, key: Key, t: nat)
    requires Aging(s, t) && t <= s.now
    ensures Aging(Apply(s, Get(p, key)), t)
  {
    assert Lapses(MemoryOf(s, p), t, t + 2 * TTL_MS - 1);
  }

  lemma StepKeepsAging(s: State, step: Step, t: nat)
    requires Aging(s, t) && t <= s.now
    ensures Aging(Apply(s, step), t) && t <= Apply(s, step).now
  {
    if step.Get? {
      GetKeepsAging(s, step.process, step.key, t);
    }
  }

  lemma {:induction false} RunKeepsAging(s: State, steps: seq<Step>, t: nat)
    requires Aging(s, t) && t <= s.now
    ensures Aging(Run(s, steps), t)
    decreases |steps|
  {
    if steps != [] {
      StepKeepsAging(s, steps[0], t);
      RunKeepsAging(Apply(s, steps[0]), steps[1..], t);
    }
  }

  /** Whatever changed in the database, and with no invalidation at all: after any run of any number of processes that
      leaves nothing loaded before time t in flight, no process serves a context loaded before t from one millisecond
      short of t + 600 s on. */
  lemma ContextsAgeOut(before: seq<Step>, after: seq<Step>, p: nat, key: Key)
    requires var s := Run(INITIAL, before); forall r :: r in s.loading ==> s.loading[r].context.loadedAt >= s.now
    ensures var s := Run(INITIAL, before);
            var s' := Run(s, after);
            s'.now >= s.now + 2 * TTL_MS - 1 && Served(s', p, key).Some? ==>
              Served(s', p, key).value.loadedAt >= s.now
  {
    var s := Run(INITIAL, before);
    RunKeepsInv(INITIAL, before);
    RunKeepsAging(s, after, s.now);
    assert Lapses(MemoryOf(Run(s, after), p), s.now, s.now + 2 * TTL_MS - 1);
  }

  /** One millisecond earlier another process can: it took the context over in its last millisecond in Redis. */
  lemma AgeOutIsTight()
    ensures var s := Apply(Apply(Apply(INITIAL, Load(0, 0, KEY, {}, None)), Tick(1)), Store(0));
            var s' := Apply(Apply(Apply(s, Tick(TTL_MS - 1)), Get(1, KEY)), Tick(TTL_MS - 1));
            && s.loading == map[] && s'.now == s.now + 2 * TTL_MS - 2
            && Served(s', 1, KEY).Some? && Served(s', 1, KEY).value.loadedAt < s.now
  {
    var c := Context(1, None, {}, None, 0);
    var s := Apply(Apply(Apply(INITIAL, Load(0, 0, KEY, {}, None)), Tick(1)), Store(0));
    assert s.redis.contexts[KEY] == Entry(c, 1 + TTL_MS);
    var s' := Apply(Apply(s, Tick(TTL_MS - 1)), Get(1, KEY));
    assert s'.memory[1][KEY] == Entry(c, 2 * TTL_MS);
  }
}
