/** Category writes and cached tree reads on any number of processes with one Redis, reachable: when does a read answer
    the tree of the rows as they are, and for how long that of the rows as they were? */
module CategoryReads {
  import opened Wrappers
  import opened CategoryService
  import Trees = CategoryTree
  import Cache = CacheService

  const TREE_TTL_SECONDS := 3600
  const CATEGORY_PREFIX := "cache:category:"
  const DISCOVERY_PREFIX := "cache:discovery:"

  type Json = seq<Trees.Tree>

  function StatusName(status: Option<Status>): string {
    match status
    case None => "ALL"
    case Some(DRAFT) => "DRAFT"
    case Some(ACTIVE) => "ACTIVE"
    case Some(INACTIVE) => "INACTIVE"
    case Some(ARCHIVED) => "ARCHIVED"
  }

  function TreeKey(status: Option<Status>): string {
    "cache:category:tree:" + StatusName(status)
  }

  /** Every filter has a key of its own. */
  lemma TreeKeyInjective(a: Option<Status>, b: Option<Status>)
    requires TreeKey(a) == TreeKey(b)
    ensures a == b
  {
    var n := |"cache:category:tree:"|;
    assert StatusName(a) == TreeKey(a)[n..] == TreeKey(b)[n..] == StatusName(b);
    assert |StatusName(a)| == |StatusName(b)| && StatusName(a)[0] == StatusName(b)[0];
    if a == Some(ACTIVE) || b == Some(ACTIVE) {
      assert StatusName(a)[1] == StatusName(b)[1];
    }
  }

  lemma TreeKeysInvalidated(status: Option<Status>)
    ensures Cache.RegexMatches(CATEGORY_PREFIX, TreeKey(status)) && Cache.GlobMatches(CATEGORY_PREFIX, TreeKey(status))
  {
    var key := TreeKey(status);
    assert key == CATEGORY_PREFIX + ("tree:" + StatusName(status));
    forall i | |CATEGORY_PREFIX| <= i < |key| ensures !Cache.LineTerminator(key[i]) {
      assert key[i] == ("tree:" + StatusName(status))[i - |CATEGORY_PREFIX|];
    }
  }

  // ---------------------------------------------------------------- invalidation

  function InvalidatedMemory(s: Cache.Store<Json>, keys: set<string>): Cache.Store<Json> {
    Cache.InvalidateMemory(Cache.InvalidateMemory(s, CATEGORY_PREFIX), DISCOVERY_PREFIX) - keys
  }

  function InvalidatedRedis(s: Cache.Store<Json>, keys: set<string>): Cache.Store<Json> {
    Cache.InvalidateRedis(Cache.InvalidateRedis(s, true, CATEGORY_PREFIX), true, DISCOVERY_PREFIX) - keys
  }

  ghost predicate Scans(redis: Cache.Store<Json>, prefix: string, pages: seq<seq<string>>) {
    && (forall i, k :: 0 <= i < |pages| && k in pages[i] ==> Cache.GlobMatches(prefix, k))
    && (forall k :: k in redis && Cache.GlobMatches(prefix, k) ==> exists i :: 0 <= i < |pages| && k in pages[i])
  }

  method DelAll(cache: Cache.CacheProcess<Json>, keys: seq<string>)
    requires "" !in keys
    modifies cache, cache.client
    ensures cache.memoryStore == old(cache.memoryStore) - set k | k in keys
    ensures cache.client.data == old(cache.client.data) - set k | k in keys
  {
    for i := 0 to |keys|
      invariant cache.memoryStore == old(cache.memoryStore) - set k | k in keys[..i]
      invariant cache.client.data == old(cache.client.data) - set k | k in keys[..i]
    {
      assert keys[i] in keys;
      cache.Del(keys[i], true);
      assert keys[..i + 1] == keys[..i] + [keys[i]];
    }
    assert keys[..|keys|] == keys;
  }

  /** Both prefixes, then the row's own detail keys. */
  method InvalidateCategoryCache(cache: Cache.CacheProcess<Json>, detailKeys: seq<string>,
                                 categoryPages: seq<seq<string>>, discoveryPages: seq<seq<string>>)
    requires Scans(cache.client.data, CATEGORY_PREFIX, categoryPages)
    requires Scans(cache.client.data, DISCOVERY_PREFIX, discoveryPages)
    requires "" !in detailKeys
    modifies cache, cache.client
    ensures cache.memoryStore == InvalidatedMemory(old(cache.memoryStore), set k | k in detailKeys)
    ensures cache.client.data == InvalidatedRedis(old(cache.client.data), set k | k in detailKeys)
    ensures forall k :: k in cache.memoryStore <==>
              && k in old(cache.memoryStore) && k !in detailKeys
              && !Cache.RegexMatches("cache:category:", k) && !Cache.RegexMatches("cache:discovery:", k)
    ensures forall k :: k in cache.client.data <==>
              && k in old(cache.client.data) && k !in detailKeys
              && !("cache:category:" <= k) && !("cache:discovery:" <= k)
  {
    cache.InvalidatePattern(CATEGORY_PREFIX, true, categoryPages);
    cache.InvalidatePattern(DISCOVERY_PREFIX, true, discoveryPages);
    DelAll(cache, detailKeys);
  }

  // ------------------------------------------------------------ reading the tree

  /** What JSON.stringify makes of a node that denotes t. */
  method Serialize(ghost nodes: set<Trees.TreeNode>, node: Trees.TreeNode, ghost t: Trees.Tree)
    returns (json: Trees.Tree)
    requires Trees.Denotes(nodes, node, t)
    ensures json == t
    decreases t, 0
  {
    var kids := SerializeAll(nodes, node.children, t.kids);
    json := Trees.Tree(node.row, kids);
  }

  method SerializeAll(ghost nodes: set<Trees.TreeNode>, list: seq<Trees.TreeNode>, ghost ts: seq<Trees.Tree>)
    returns (json: Json)
    requires |list| == |ts| && forall i :: 0 <= i < |ts| ==> Trees.Denotes(nodes, list[i], ts[i])
    ensures json == ts
    decreases ts, 1
  {
    json := [];
    for i := 0 to |list|
      invariant json == ts[..i]
    {
      var t := Serialize(nodes, list[i], ts[i]);
      json := json + [t];
    }
  }

  /** A read that answers from the cache, or lists the rows, builds the tree and stores it. cats is what the listing
      query answers when it is made. */
  method GetCategoryTree(cache: Cache.CacheProcess<Json>, status: Option<Status>, cats: seq<Category>, now: nat)
    returns (tree: Json)
    requires Trees.DistinctIds(cats)
    modifies cache, cache.client
    ensures (tree, cache.memoryStore, cache.client.data) ==
            Cache.GetOrSet(old(cache.memoryStore), old(cache.client.data), true, TreeKey(status), Trees.ForestOf(cats),
                           3600, now)
  {
    var cached := cache.Get(TreeKey(status), true, now);
    if cached.Some? {
      return cached.value;
    }
    var rootNodes, nodes := Trees.BuildTree(cats);
    tree := SerializeAll(nodes, rootNodes, Trees.ForestOf(cats));
    cache.Set(TreeKey(status), tree, TREE_TTL_SECONDS, true, now);
  }

  // --------------------------------------------------- serial runs of many processes

  datatype State = Serving(now: nat, rows: Table, memories: map<nat, Cache.Store<Json>>, redis: Cache.Store<Json>)

  /** A write carries the detail keys that are deleted with it when it is accepted. */
  datatype Step =
    | Tick(ms: nat)
    | Write(process: nat, op: Op, detailKeys: set<string>)
    | Read(process: nat, status: Option<Status>)
    | Restart(process: nat)

  /** What the code outside the cache does: make slugs, and read and build the tree. */
  datatype Env = Env(slugify: string -> string, build: (Table, Option<Status>) -> Json)

  function MemoryOf(s: State, p: nat): Cache.Store<Json> {
    if p in s.memories then s.memories[p] else map[]
  }

  function TreeRead(s: State, env: Env, p: nat, status: Option<Status>)
    : (Json, Cache.Store<Json>, Cache.Store<Json>)
  {
    Cache.GetOrSet(MemoryOf(s, p), s.redis, true, TreeKey(status), env.build(s.rows, status), TREE_TTL_SECONDS, s.now)
  }

  ghost function Apply(s: State, env: Env, step: Step): State {
    match step
    case Tick(ms) => s.(now := s.now + ms)
    case Write(p, op, detailKeys) =>
      var r := Outcome(s.rows, op, env.slugify);
      if r.Err? then s
      else
        var memory := InvalidatedMemory(MemoryOf(s, p), detailKeys);
        Serving(s.now, r.value, s.memories[p := memory], InvalidatedRedis(s.redis, detailKeys))
    case Read(p, status) =>
      var (_, memory, redis) := TreeRead(s, env, p, status);
      s.(memories := s.memories[p := memory], redis := redis)
    case Restart(p) => s.(memories := s.memories[p := map[]])
  }

  ghost function Run(s: State, env: Env, steps: seq<Step>): State
    decreases |steps|
  {
    if steps == [] then s else Run(Apply(s, env, steps[0]), env, steps[1..])
  }

  function Start(rows: Table): State {
    Serving(0, rows, map[], map[])
  }

  /** Every tree that the store could still serve, now and at limit, is the tree of the current rows. */
  ghost predicate Synced(store: Cache.Store<Json>, s: State, env: Env, limit: nat) {
    forall status ::
      Cache.LiveIn(store, TreeKey(status), s.now) && store[TreeKey(status)].expiresAt > limit ==>
        store[TreeKey(status)].value == env.build(s.rows, status)
  }

  /** Every tree that process p could serve after limit, from its memory or from Redis, is that of the current rows. */
  ghost predicate InSync(s: State, env: Env, p: nat, limit: nat) {
    Synced(MemoryOf(s, p), s, env, limit) && Synced(s.redis, s, env, 0)
  }

  /** No entry lives longer than a tree's ttl. */
  ghost predicate Timely(s: State) {
    forall p, k :: p in s.memories && k in s.memories[p] ==>
      s.memories[p][k].expiresAt <= s.now + TREE_TTL_SECONDS * 1000
  }

  lemma ReadKeepsSync(s: State, env: Env, q: nat, status: Option<Status>, p: nat, limit: nat)
    requires InSync(s, env, p, limit)
    ensures InSync(Apply(s, env, Read(q, status)), env, p, limit)
    ensures q == p && limit <= s.now ==> TreeRead(s, env, q, status).0 == env.build(s.rows, status)
  {
    forall other | TreeKey(other) == TreeKey(status) ensures other == status {
      TreeKeyInjective(other, status);
    }
  }

  lemma TreesInvalidated(s: State, env: Env, step: Step)
    requires step.Write? && Outcome(s.rows, step.op, env.slugify).Ok?
    ensures forall status :: TreeKey(status) !in MemoryOf(Apply(s, env, step), step.process)
    ensures forall status :: TreeKey(status) !in Apply(s, env, step).redis
  {
    forall status
      ensures TreeKey(status) !in InvalidatedMemory(MemoryOf(s, step.process), step.detailKeys)
      ensures TreeKey(status) !in InvalidatedRedis(s.redis, step.detailKeys)
    {
      TreeKeysInvalidated(status);
    }
  }

  lemma StepKeepsSync(s: State, env: Env, step: Step, p: nat, limit: nat)
    requires InSync(s, env, p, limit) && (step.Write? ==> step.process == p)
    ensures InSync(Apply(s, env, step), env, p, limit)
  {
    match step {
      case Tick(_) =>
      case Restart(_) =>
      case Read(q, status) => ReadKeepsSync(s, env, q, status, p, limit);
      case Write(_, op, _) =>
        if Outcome(s.rows, op, env.slugify).Ok? {
          TreesInvalidated(s, env, step);
        }
    }
  }

  lemma StepKeepsTimely(s: State, env: Env, step: Step)
    requires Timely(s)
    ensures Timely(Apply(s, env, step))
  {
  }

  /** Redis is kept in step by every process. */
  lemma StepKeepsRedisSync(s: State, env: Env, step: Step)
    requires Synced(s.redis, s, env, 0) && Timely(s)
    ensures Synced(Apply(s, env, step).redis, Apply(s, env, step), env, 0)
  {
    match step {
      case Tick(_) =>
      case Restart(_) =>
      case Read(q, status) =>
        var limit := s.now + TREE_TTL_SECONDS * 1000;
        assert forall k :: k in MemoryOf(s, q) ==> MemoryOf(s, q)[k].expiresAt <= limit;
        ReadKeepsSync(s, env, q, status, q, limit);
      case Write(_, op, _) =>
        if Outcome(s.rows, op, env.slugify).Ok? {
          TreesInvalidated(s, env, step);
        }
    }
  }

  predicate WritesOnlyOn(p: nat, steps: seq<Step>) {
    forall i :: 0 <= i < |steps| ==> steps[i].Write? ==> steps[i].process == p
  }

  lemma StepKeepsForest(s: State, env: Env, step: Step)
    requires Forest(s.rows)
    ensures Forest(Apply(s, env, step).rows)
  {
    if step.Write? {
      OpKeepsForest(s.rows, step.op, env.slugify);
    }
  }

  lemma {:induction false} RunKeepsSync(s: State, env: Env, steps: seq<Step>, p: nat, limit: nat)
    requires InSync(s, env, p, limit) && Forest(s.rows) && WritesOnlyOn(p, steps)
    ensures InSync(Run(s, env, steps), env, p, limit) && Forest(Run(s, env, steps).rows)
    decreases |steps|
  {
    if steps != [] {
      StepKeepsSync(s, env, steps[0], p, limit);
      StepKeepsForest(s, env, steps[0]);
      RunKeepsSync(Apply(s, env, steps[0]), env, steps[1..], p, limit);
    }
  }

  lemma {:induction false} RunKeepsRedisSync(s: State, env: Env, steps: seq<Step>)
    requires Synced(s.redis, s, env, 0) && Timely(s) && Forest(s.rows)
    ensures var s' := Run(s, env, steps); Synced(s'.redis, s', env, 0) && Timely(s') && Forest(s'.rows)
    decreases |steps|
  {
    if steps != [] {
      StepKeepsRedisSync(s, env, steps[0]);
      StepKeepsTimely(s, env, steps[0]);
      StepKeepsForest(s, env, steps[0]);
      RunKeepsRedisSync(Apply(s, env, steps[0]), env, steps[1..]);
    }
  }

  /** The tree read off the database: its listing of the rows, nested. */
  ghost predicate Builds(env: Env, nameLeq: (string, string) -> bool) {
    forall t, status :: Forest(t) ==> IsTreeOf(t, status, nameLeq, env.build(t, status))
  }

  ghost predicate IsTreeOf(t: Table, status: Option<Status>, nameLeq: (string, string) -> bool, trees: Json) {
    exists cats :: Trees.IsListing(t, status, nameLeq, cats) && trees == Trees.ForestOf(cats)
  }

  /** c is a row the filter selects. */
  predicate Selected(t: Table, status: Option<Status>, c: Category) {
    c.id in t && t[c.id] == c && (status.None? || c.status == status.value)
  }

  /** A collation. */
  ghost predicate Orders(nameLeq: (string, string) -> bool) {
    && (forall a, b :: nameLeq(a, b) || nameLeq(b, a))
    && (forall a, b, c :: nameLeq(a, b) && nameLeq(b, c) ==> nameLeq(a, c))
  }

  function Placed(c: Category, s: seq<Category>, nameLeq: (string, string) -> bool): (r: seq<Category>)
    ensures forall x :: x in r <==> x in s || x == c
  {
    if s == [] then [c]
    else
      assert s == [s[0]] + s[1..];
      if Trees.InOrder(nameLeq)(c, s[0]) then [c] + s else [s[0]] + Placed(c, s[1..], nameLeq)
  }

  lemma InOrderOrders(a: Category, b: Category, c: Category, nameLeq: (string, string) -> bool)
    requires Orders(nameLeq)
    ensures var before := Trees.InOrder(nameLeq);
            (before(a, b) || before(b, a)) && (before(a, b) && before(b, c) ==> before(a, c))
  {
  }

  lemma {:induction false} PlacedInOrder(c: Category, s: seq<Category>, nameLeq: (string, string) -> bool)
    requires Orders(nameLeq) && Trees.Sorted(Trees.InOrder(nameLeq), s) && Trees.DistinctIds(s)
    requires forall x :: x in s ==> x.id != c.id
    ensures Trees.Sorted(Trees.InOrder(nameLeq), Placed(c, s, nameLeq)) && Trees.DistinctIds(Placed(c, s, nameLeq))
  {
    var before := Trees.InOrder(nameLeq);
    if s != [] && !before(c, s[0]) {
      var rest := Placed(c, s[1..], nameLeq);
      PlacedInOrder(c, s[1..], nameLeq);
      InOrderOrders(s[0], c, c, nameLeq);
      forall i | 0 <= i < |rest| ensures before(s[0], rest[i]) && s[0].id != rest[i].id {
        assert rest[i] in rest;
        if rest[i] != c {
          var j :| 0 <= j < |s[1..]| && s[1..][j] == rest[i];
          assert s[j + 1] == rest[i];
        }
      }
    } else if s != [] {
      forall i | 0 <= i < |s| ensures before(c, s[i]) {
        InOrderOrders(c, s[0], s[i], nameLeq);
      }
    }
  }

  lemma {:induction false} ListingOf(rows: set<Category>, nameLeq: (string, string) -> bool)
    returns (cats: seq<Category>)
    requires Orders(nameLeq) && forall a, b :: a in rows && b in rows && a.id == b.id ==> a == b
    ensures Trees.DistinctIds(cats) && Trees.Sorted(Trees.InOrder(nameLeq), cats)
    ensures forall c :: c in cats <==> c in rows
    decreases |rows|
  {
    if rows == {} {
      cats := [];
    } else {
      var c :| c in rows;
      var rest := ListingOf(rows - {c}, nameLeq);
      PlacedInOrder(c, rest, nameLeq);
      cats := Placed(c, rest, nameLeq);
    }
  }

  ghost function TreeOf(t: Table, status: Option<Status>, nameLeq: (string, string) -> bool): (trees: Json)
    requires Orders(nameLeq) && Forest(t)
    ensures IsTreeOf(t, status, nameLeq, trees)
  {
    ListingExists(t, status, nameLeq);
    var cats :| Trees.IsListing(t, status, nameLeq, cats);
    Trees.ForestOf(cats)
  }

  lemma ListingExists(t: Table, status: Option<Status>, nameLeq: (string, string) -> bool)
    requires Orders(nameLeq) && forall x :: x in t ==> t[x].id == x
    ensures exists cats :: Trees.IsListing(t, status, nameLeq, cats)
  {
    var rows := set x | x in t && (status.None? || t[x].status == status.value) :: t[x];
    var cats := ListingOf(rows, nameLeq);
    assert Trees.IsListing(t, status, nameLeq, cats);
  }

  /** For every collation there is such an environment. */
  lemma SomeEnvBuilds(slugify: string -> string, nameLeq: (string, string) -> bool) returns (env: Env)
    requires Orders(nameLeq)
    ensures env.slugify == slugify && Builds(env, nameLeq)
  {
    env := Env(slugify, (t, status) => if Forest(t) then TreeOf(t, status, nameLeq) else []);
  }

  /** A tree read with the filter on process p answers the tree of the current rows, which holds every row the filter
      selects exactly once. */
  ghost predicate ReadsCurrent(s: State, env: Env, nameLeq: (string, string) -> bool, p: nat, status: Option<Status>) {
    var trees := TreeRead(s, env, p, status).0;
    && IsTreeOf(s.rows, status, nameLeq, trees)
    && (forall c :: multiset(Trees.FlattenAll(trees))[c] == if Selected(s.rows, status, c) then 1 else 0)
  }

  lemma InSyncReadsCurrent(s: State, env: Env, nameLeq: (string, string) -> bool, p: nat, status: Option<Status>,
                           limit: nat)
    requires InSync(s, env, p, limit) && limit <= s.now && Forest(s.rows) && Builds(env, nameLeq)
    ensures ReadsCurrent(s, env, nameLeq, p, status)
  {
    ReadKeepsSync(s, env, p, status, p, limit);
    var trees := TreeRead(s, env, p, status).0;
    assert IsTreeOf(s.rows, status, nameLeq, trees);
    var cats :| Trees.IsListing(s.rows, status, nameLeq, cats) && trees == Trees.ForestOf(cats);
    Trees.TreeOfForest(s.rows, status, nameLeq, cats);
    forall c ensures multiset(Trees.FlattenAll(trees))[c] == if Selected(s.rows, status, c) then 1 else 0
    {
      Trees.DistinctOnce(cats, c);
    }
  }

  /** After any serial run of category writes on process p, tree reads with any filters on any processes, restarts and
      time passing, starting from a forest and empty caches, every tree read on p is current. */
  lemma ReadsAreCurrent(rows: Table, env: Env, nameLeq: (string, string) -> bool, steps: seq<Step>, p: nat,
                        status: Option<Status>)
    requires Forest(rows) && Builds(env, nameLeq) && WritesOnlyOn(p, steps)
    ensures ReadsCurrent(Run(Start(rows), env, steps), env, nameLeq, p, status)
  {
    RunKeepsSync(Start(rows), env, steps, p, 0);
    InSyncReadsCurrent(Run(Start(rows), env, steps), env, nameLeq, p, status, 0);
  }

  /** Whatever was written on whichever process until time t: where nothing is written elsewhere from then on, every
      tree read is current from t + 3600 s on. */
  lemma ReadsCurrentAgain(rows: Table, env: Env, nameLeq: (string, string) -> bool, before: seq<Step>, after: seq<Step>,
                          p: nat, status: Option<Status>)
    requires Forest(rows) && Builds(env, nameLeq) && WritesOnlyOn(p, after)
    ensures var s := Run(Start(rows), env, before);
            var s' := Run(s, env, after);
            s'.now >= s.now + 3_600_000 ==> ReadsCurrent(s', env, nameLeq, p, status)
  {
    var s := Run(Start(rows), env, before);
    var limit := s.now + TREE_TTL_SECONDS * 1000;
    RunKeepsRedisSync(Start(rows), env, before);
    RunKeepsSync(s, env, after, p, limit);
    if Run(s, env, after).now >= limit {
      InSyncReadsCurrent(Run(s, env, after), env, nameLeq, p, status, limit);
    }
  }

  /** Right after another process writes, in any run with writes on p alone before: a tree read on p answers the tree of
      the current rows exactly when p did not have the tree in memory, or the write leaves it as it was. */
  lemma CurrentAfterWriteElsewhereIff(rows: Table, env: Env, steps: seq<Step>, step: Step, p: nat,
                                      status: Option<Status>)
    requires Forest(rows) && WritesOnlyOn(p, steps) && step.Write? && step.process != p
    requires Outcome(Run(Start(rows), env, steps).rows, step.op, env.slugify).Ok?
    ensures var s := Run(Start(rows), env, steps);
            var s' := Apply(s, env, step);
            TreeRead(s', env, p, status).0 == env.build(s'.rows, status) <==>
            || !Cache.LiveIn(MemoryOf(s, p), TreeKey(status), s.now)
            || env.build(s'.rows, status) == env.build(s.rows, status)
  {
    RunKeepsSync(Start(rows), env, steps, p, 0);
    TreesInvalidated(Run(Start(rows), env, steps), env, step);
  }

  /** The bound is exact, for every accepted write: a process that built the tree just before another one writes answers
      the tree of the rows as they were one millisecond short of an hour later. */
  lemma OldTreeElsewhere(rows: Table, env: Env, op: Op, detailKeys: set<string>, status: Option<Status>)
    requires Outcome(rows, op, env.slugify).Ok?
    ensures var s := Apply(Apply(Start(rows), env, Read(0, status)), env, Write(1, op, detailKeys));
            var s' := Apply(s, env, Step.Tick(3_599_999));
            && s'.rows == Outcome(rows, op, env.slugify).value && s'.now == s.now + 3_600_000 - 1
            && TreeRead(s', env, 0, status).0 == env.build(rows, status)
  {
    var s := Apply(Start(rows), env, Read(0, status));
    assert MemoryOf(s, 0)[TreeKey(status)] == Cache.Entry(env.build(rows, status), TREE_TTL_SECONDS * 1000);
  }
}
