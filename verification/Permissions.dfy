/** Roles and permissions in the database, the contexts cached from them by any number of processes sharing one Redis,
    and all that stores, drops or outdates such a context: requests, socket handshakes, profile reads, replacing and
    deleting roles, logging out, revoking sessions, resetting passwords, restarts. When is what a request is granted
    what the database grants, and when is it refused? Redis is reachable and calls run one at a time. */
module Permissions {
  import opened Wrappers
  import opened AuthCache

  /** Rows of the permission and role tables. */
  datatype Named = Named(id: Uuid, name: string)

  /** A link row: user and role, or role and permission. */
  datatype Link = Link(owner: Uuid, member: Uuid)

  datatype SessionRow = SessionRow(userId: Uuid, expiresAt: nat, revoked: bool)

  datatype Db = Db(
    users: map<Uuid, bool>,            // whether the user is ACTIVE
    sessions: map<Uuid, SessionRow>,
    roles: seq<Named>,
    permissions: seq<Named>,
    userRoles: seq<Link>,
    rolePermissions: seq<Link>)

  datatype Error = AuthenticationRequired | InvalidToken | InvalidSession | NotFound | IdentifierNotFound | Protected

  // ------------------------------------------------- what the database grants

  /** u is granted the permission named name through one of its roles. */
  ghost predicate Grants(db: Db, u: Uuid, name: string) {
    exists r, p ::
      Link(u, r) in db.userRoles && Link(r, p) in db.rolePermissions && Named(p, name) in db.permissions
  }

  function MembersOf(links: seq<Link>, owner: Uuid): (ms: seq<Uuid>)
    ensures forall m :: m in ms <==> Link(owner, m) in links
  {
    if links == [] then []
    else
      var rest := MembersOf(links[1..], owner);
      assert links == [links[0]] + links[1..];
      if links[0].owner == owner then [links[0].member] + rest else rest
  }

  function Names(rows: seq<Named>, ids: seq<Uuid>): (names: seq<string>)
    ensures forall n :: n in names <==> exists id :: id in ids && Named(id, n) in rows
  {
    if rows == [] then []
    else
      var rest := Names(rows[1..], ids);
      assert rows == [rows[0]] + rows[1..];
      if rows[0].id in ids then [rows[0].name] + rest else rest
  }

  /** The names of a role's permissions. */
  function RoleNames(db: Db, role: Uuid): seq<string> {
    Names(db.permissions, MembersOf(db.rolePermissions, role))
  }

  /** The permission names of each role in turn, concatenated. */
  function FlatNames(db: Db, roleIds: seq<Uuid>): (names: seq<string>)
    ensures forall n :: n in names <==> exists r :: r in roleIds && n in RoleNames(db, r)
  {
    if roleIds == [] then []
    else
      var first, rest := RoleNames(db, roleIds[0]), FlatNames(db, roleIds[1..]);
      assert roleIds == [roleIds[0]] + roleIds[1..];
      assert forall n :: n in first + rest <==> n in RoleNames(db, roleIds[0]) || n in rest;
      first + rest
  }

  /** Distinct elements in order of first appearance. */
  function Dedupe<T(==, !new)>(s: seq<T>): (d: seq<T>)
    ensures forall x :: x in d <==> x in s
    ensures forall i, j :: 0 <= i < j < |d| ==> d[i] != d[j]
  {
    if s == [] then []
    else
      var front, last := s[..|s| - 1], s[|s| - 1];
      assert s == front + [last];
      var d := Dedupe(front);
      if last in d then d else d + [last]
  }

  function ToSet<T(!new)>(s: seq<T>): set<T> {
    set x | x in s
  }

  /** The permissions put on a request when they are read from the database. */
  function Derived(db: Db, u: Uuid): set<string> {
    ToSet(Dedupe(FlatNames(db, MembersOf(db.userRoles, u))))
  }

  /** Flattening and deduplicating loses no grant and adds none. */
  lemma DerivedIsGranted(db: Db, u: Uuid, name: string)
    ensures name in Derived(db, u) <==> Grants(db, u, name)
  {
    if name in Derived(db, u) {
      var r :| r in MembersOf(db.userRoles, u) && name in RoleNames(db, r);
      var p :| p in MembersOf(db.rolePermissions, r) && Named(p, name) in db.permissions;
    }
    if Grants(db, u, name) {
      var r, p :| Link(u, r) in db.userRoles && Link(r, p) in db.rolePermissions && Named(p, name) in db.permissions;
      assert p in MembersOf(db.rolePermissions, r);
      assert r in MembersOf(db.userRoles, u) && name in RoleNames(db, r);
    }
  }

  // ------------------------------------------------------- resolving identifiers

  /** An identifier in a request, trimmed: a uuid, whose letters may be spelled in either case, or a name. */
  datatype Identifier = ById(id: Uuid, spelling: string) | ByName(name: string)

  predicate Matches(i: Identifier, row: Named) {
    match i
    case ById(id, _) => row.id == id
    case ByName(name) => row.name == name
  }

  /** The rows some identifier matches, in table order. */
  function Matched(rows: seq<Named>, ids: seq<Identifier>): (ms: seq<Named>)
    ensures forall row :: row in ms <==> row in rows && exists i :: i in ids && Matches(i, row)
  {
    if rows == [] then []
    else
      var front, last := rows[..|rows| - 1], rows[|rows| - 1];
      assert rows == front + [last];
      var ms := Matched(front, ids);
      if exists i :: i in ids && Matches(i, last) then ms + [last] else ms
  }

  /** Ids and names are unique in the table. */
  ghost predicate UniqueRows(rows: seq<Named>) {
    forall i, j :: 0 <= i < j < |rows| ==> rows[i].id != rows[j].id && rows[i].name != rows[j].name
  }

  /** Every identifier names a row, and no row is named twice: by id and by name, or by two spellings of its id. */
  ghost predicate OneEach(rows: seq<Named>, ids: seq<Identifier>) {
    && (forall i :: i in ids ==> exists row :: row in rows && Matches(i, row))
    && (forall i, j, row :: i in ids && j in ids && row in rows && Matches(i, row) && Matches(j, row) ==> i == j)
  }

  ghost function MatchedSet(rows: seq<Named>, ids: seq<Identifier>): set<Named> {
    set row | row in rows && exists i :: i in ids && Matches(i, row)
  }

  lemma {:induction false} MatchedDistinct(rows: seq<Named>, ids: seq<Identifier>)
    requires UniqueRows(rows)
    ensures forall i, j :: 0 <= i < j < |Matched(rows, ids)| ==> Matched(rows, ids)[i] != Matched(rows, ids)[j]
  {
    if rows != [] {
      var front, last := rows[..|rows| - 1], rows[|rows| - 1];
      MatchedDistinct(front, ids);
      var ms := Matched(front, ids);
      forall j | 0 <= j < |ms| ensures ms[j] != last {
        assert ms[j] in ms;
        var k :| 0 <= k < |front| && front[k] == ms[j];
        assert rows[k].id != last.id;
      }
    }
  }

  lemma MatchesOneRow(rows: seq<Named>, i: Identifier, a: Named, b: Named)
    requires UniqueRows(rows) && a in rows && b in rows && Matches(i, a) && Matches(i, b)
    ensures a == b
  {
    var j :| 0 <= j < |rows| && rows[j] == a;
    var k :| 0 <= k < |rows| && rows[k] == b;
  }

  /** One more identifier, for a row no earlier one names. */
  lemma OneEachSnoc(rows: seq<Named>, front: seq<Identifier>, last: Identifier, row: Named)
    requires UniqueRows(rows) && row in rows && Matches(last, row)
    requires row !in MatchedSet(rows, front)
    ensures OneEach(rows, front) <==> OneEach(rows, front + [last])
    ensures MatchedSet(rows, front + [last]) == MatchedSet(rows, front) + {row}
  {
    var ids := front + [last];
    assert forall i :: i in ids <==> i in front || i == last;
    forall other | other in rows && Matches(last, other) ensures other == row {
      MatchesOneRow(rows, last, other, row);
    }
  }

  lemma {:induction false} MatchedSetSize(rows: seq<Named>, ids: seq<Identifier>)
    requires UniqueRows(rows) && forall i, j :: 0 <= i < j < |ids| ==> ids[i] != ids[j]
    ensures |MatchedSet(rows, ids)| <= |ids|
    ensures |MatchedSet(rows, ids)| == |ids| <==> OneEach(rows, ids)
  {
    if ids == [] {
      assert MatchedSet(rows, ids) == {};
    } else {
      var front, last := ids[..|ids| - 1], ids[|ids| - 1];
      assert ids == front + [last] && last !in front;
      MatchedSetSize(rows, front);
      if row :| row in rows && Matches(last, row) && row !in MatchedSet(rows, front) {
        OneEachSnoc(rows, front, last, row);
      } else {
        NothingNew(rows, front, last);
      }
    }
  }

  /** One more identifier that names no row, or only one already named. */
  lemma NothingNew(rows: seq<Named>, front: seq<Identifier>, last: Identifier)
    requires last !in front
    requires forall row :: row in rows && Matches(last, row) ==> row in MatchedSet(rows, front)
    ensures MatchedSet(rows, front + [last]) == MatchedSet(rows, front)
    ensures !OneEach(rows, front + [last])
  {
    var ids := front + [last];
    assert forall i :: i in ids <==> i in front || i == last;
    if row :| row in rows && Matches(last, row) {
      var i :| i in front && Matches(i, row);
      assert i != last;
    }
  }

  lemma {:induction false} SizeOfDistinct<T(!new)>(s: seq<T>)
    requires forall i, j :: 0 <= i < j < |s| ==> s[i] != s[j]
    ensures |ToSet(s)| == |s|
  {
    if s != [] {
      var front, last := s[..|s| - 1], s[|s| - 1];
      SizeOfDistinct(front);
      assert s == front + [last];
      assert ToSet(s) == ToSet(front) + {last};
    }
  }

  /** The count comparison accepts a request exactly when each distinct identifier names a row of its own: asking for
      one permission by id and by name at once, or by its id in two spellings, is refused as not found. */
  lemma AcceptedIff(rows: seq<Named>, ids: seq<Identifier>)
    requires UniqueRows(rows)
    ensures |Matched(rows, Dedupe(ids))| == |Dedupe(ids)| <==> OneEach(rows, ids)
  {
    var unique := Dedupe(ids);
    MatchedSetSize(rows, unique);
    MatchedDistinct(rows, unique);
    SizeOfDistinct(Matched(rows, unique));
    assert ToSet(Matched(rows, unique)) == MatchedSet(rows, unique);
  }

  // ------------------------------------------------------------- the operations

  function Without(links: seq<Link>, owner: Uuid): (rest: seq<Link>)
    ensures forall l :: l in rest <==> l in links && l.owner != owner
  {
    if links == [] then []
    else
      assert links == [links[0]] + links[1..];
      (if links[0].owner == owner then [] else [links[0]]) + Without(links[1..], owner)
  }

  function LinksTo(owner: Uuid, rows: seq<Named>): (links: seq<Link>)
    ensures forall l :: l in links <==> l.owner == owner && exists row :: row in rows && row.id == l.member
  {
    if rows == [] then []
    else
      assert rows == [rows[0]] + rows[1..];
      [Link(owner, rows[0].id)] + LinksTo(owner, rows[1..])
  }

  /** The users a link table gives a member to. */
  function Owners(links: seq<Link>, member: Uuid): (us: seq<Uuid>)
    ensures forall u :: u in us <==> Link(u, member) in links
  {
    if links == [] then []
    else
      assert links == [links[0]] + links[1..];
      (if links[0].member == member then [links[0].owner] else []) + Owners(links[1..], member)
  }

  predicate HasRow(rows: seq<Named>, id: Uuid) {
    exists i :: 0 <= i < |rows| && rows[i].id == id
  }

  lemma HasRowIff(rows: seq<Named>, id: Uuid)
    ensures HasRow(rows, id) <==> exists row :: row in rows && row.id == id
  {
    if HasRow(rows, id) {
      var i :| 0 <= i < |rows| && rows[i].id == id;
      assert rows[i] in rows;
    }
  }

  function RolePermissionsOutcome(db: Db, role: Uuid, ids: seq<Identifier>): Result<Db, Error> {
    var unique := Dedupe(ids);
    var found := Matched(db.permissions, unique);
    if !HasRow(db.roles, role) then Err(NotFound)
    else if |found| != |unique| then Err(IdentifierNotFound)
    else Ok(db.(rolePermissions := Without(db.rolePermissions, role) + LinksTo(role, found)))
  }

  function UserRolesOutcome(db: Db, u: Uuid, ids: seq<Identifier>): Result<Db, Error> {
    var unique := Dedupe(ids);
    var found := Matched(db.roles, unique);
    if u !in db.users then Err(NotFound)
    else if |found| != |unique| then Err(IdentifierNotFound)
    else Ok(db.(userRoles := Without(db.userRoles, u) + LinksTo(u, found)))
  }

  function WithoutRow(rows: seq<Named>, id: Uuid): (rest: seq<Named>)
    ensures forall row :: row in rest <==> row in rows && row.id != id
  {
    if rows == [] then []
    else
      assert rows == [rows[0]] + rows[1..];
      (if rows[0].id == id then [] else [rows[0]]) + WithoutRow(rows[1..], id)
  }

  function WithoutMember(links: seq<Link>, member: Uuid): (rest: seq<Link>)
    ensures forall l :: l in rest <==> l in links && l.member != member
  {
    if links == [] then []
    else
      assert links == [links[0]] + links[1..];
      (if links[0].member == member then [] else [links[0]]) + WithoutMember(links[1..], member)
  }

  /** The role gone and, by cascade, its links. */
  function RoleDeleted(db: Db, role: Uuid): Db {
    db.(roles := WithoutRow(db.roles, role),
        rolePermissions := Without(db.rolePermissions, role),
        userRoles := WithoutMember(db.userRoles, role))
  }

  function DeleteRoleOutcome(db: Db, role: Uuid): Result<Db, Error> {
    if !HasRow(db.roles, role) then Err(NotFound)
    else if exists row :: row in db.roles && row.id == role && row.name == "SUPER_ADMIN" then Err(Protected)
    else Ok(RoleDeleted(db, role))
  }

  function SessionsRevoked(db: Db, u: Uuid): Db {
    db.(sessions := map id | id in db.sessions ::
          if db.sessions[id].userId == u then db.sessions[id].(revoked := true) else db.sessions[id])
  }

  function SessionRevoked(db: Db, id: Uuid): Db {
    if id in db.sessions then db.(sessions := db.sessions[id := db.sessions[id].(revoked := true)]) else db
  }

  /** One process's memory and the Redis it shares with the others. */
  datatype Caches = Caches(memory: Memory, redis: Redis)

  function ForgetSession(c: Caches, u: Uuid, id: Uuid): Caches {
    Caches(c.memory - {Key(u, Some(id))}, DeleteKey(c.redis, Key(u, Some(id))))
  }

  function Forget(c: Caches, u: Uuid, now: nat): Caches {
    Caches(ForgetUser(c.memory, u), DeleteListed(c.redis, u, AuthCache.Members(c.redis, u, now)))
  }

  function ForgetAll(c: Caches, us: seq<Uuid>, now: nat): Caches
    decreases |us|
  {
    if us == [] then c else Forget(ForgetAll(c, us[..|us| - 1], now), us[|us| - 1], now)
  }

  /** What three callers have in common: a cached context is used; otherwise, unless there is a reason to refuse, one is
      made from the database and stored, in memory at now and in Redis at setAt. */
  function Loaded(db: Db, c: Caches, u: Uuid, sessionId: Option<Uuid>, refusal: Option<Error>, expiry: Option<nat>,
                  now: nat, setAt: nat): (Result<set<string>, Error>, Caches)
  {
    var (cached, memory) := Lookup(c.memory, c.redis, true, Key(u, sessionId), now);
    if cached.Some? then (Ok(cached.value.permissions), Caches(memory, c.redis))
    else if refusal.Some? then (Err(refusal.value), Caches(memory, c.redis))
    else
      var context := Context(u, sessionId, Derived(db, u), expiry, now);
      (Ok(context.permissions), Caches(Remember(memory, context, now), Publish(c.redis, context, setAt)))
  }

  predicate Active(db: Db, u: Uuid) {
    u in db.users && db.users[u]
  }

  /** Why a request is refused when its context is not cached. */
  function Refusal(db: Db, u: Uuid, sessionId: Option<Uuid>, now: nat): Option<Error> {
    if !Active(db, u) then Some(AuthenticationRequired)
    else if sessionId.None? then None
    else
      var id := sessionId.value;
      if id !in db.sessions || db.sessions[id].userId != u || db.sessions[id].revoked || db.sessions[id].expiresAt < now
      then Some(InvalidSession)
      else None
  }

  function SessionExpiry(db: Db, sessionId: Option<Uuid>): Option<nat> {
    if sessionId.Some? && sessionId.value in db.sessions then Some(db.sessions[sessionId.value].expiresAt) else None
  }

  /** What a request with a token that verifies is granted, and the caches afterwards. */
  function Authenticated(db: Db, c: Caches, u: Uuid, sessionId: Option<Uuid>, now: nat, setAt: nat)
    : (Result<set<string>, Error>, Caches)
  {
    Loaded(db, c, u, sessionId, Refusal(db, u, sessionId, now), SessionExpiry(db, sessionId), now, setAt)
  }

  /** A socket handshake looks at the user and not at the session. */
  function SocketRefusal(db: Db, u: Uuid): Option<Error> {
    if Active(db, u) then None else Some(AuthenticationRequired)
  }

  function Handshaken(db: Db, c: Caches, u: Uuid, sessionId: Option<Uuid>, now: nat, setAt: nat)
    : (Result<set<string>, Error>, Caches)
  {
    Loaded(db, c, u, sessionId, SocketRefusal(db, u), None, now, setAt)
  }

  /** Reading one's profile, within a request accepted earlier, looks only whether the user exists. */
  function ProfileRefusal(db: Db, u: Uuid): Option<Error> {
    if u in db.users then None else Some(NotFound)
  }

  function ProfileRead(db: Db, c: Caches, u: Uuid, sessionId: Option<Uuid>, now: nat, setAt: nat)
    : (Result<set<string>, Error>, Caches)
  {
    Loaded(db, c, u, sessionId, ProfileRefusal(db, u), None, now, setAt)
  }

  // ------------------------------------------------------- what the caches may hold

  predicate LiveIn(entries: map<Key, Entry>, key: Key, now: nat) {
    key in entries && entries[key].expiresAt > now
  }

  /** Entries under their own key that live no longer than 300 seconds. */
  ghost predicate Timely(entries: map<Key, Entry>, now: nat) {
    forall k :: k in entries ==> KeyOf(entries[k].context) == k && entries[k].expiresAt <= now + TTL_MS
  }

  /** Every live Redis context is in its user's index, which outlives it; no index lists another user's keys. */
  ghost predicate KeptRedis(r: Redis, now: nat) {
    && Timely(r.contexts, now)
    && (forall u, k :: u in r.indexes && k in r.indexes[u].keys ==> k.userId == u)
    && (forall k :: k in r.contexts && r.contexts[k].expiresAt > now ==> ListedInIndex(r, k, now))
  }

  ghost predicate ListedInIndex(r: Redis, k: Key, now: nat)
    requires k in r.contexts
  {
    k in AuthCache.Members(r, k.userId, now) && r.indexes[k.userId].expiresAt >= r.contexts[k].expiresAt
  }

  /** The caches as every run leaves them. */
  ghost predicate Kept(c: Caches, now: nat) {
    Timely(c.memory, now) && KeptRedis(c.redis, now)
  }

  /** An entry that is still live, and will be at limit, has what the database grants now. */
  ghost predicate Fresh(db: Db, entries: map<Key, Entry>, now: nat, limit: nat) {
    forall k :: k in entries && entries[k].expiresAt > now && entries[k].expiresAt > limit ==>
      entries[k].context.permissions == Derived(db, k.userId)
  }

  /** Until when outdated contexts may live: in Redis, and in a memory, which may take one over just before. */
  datatype Limits = Limits(memory: nat, redis: nat)

  predicate Follows(l: Limits) {
    l.redis == 0 || l.memory >= l.redis + TTL_MS - 1
  }

  const NONE := Limits(0, 0)

  /** No context outdated beyond the limits, neither in memory nor in Redis. */
  ghost predicate UpToDate(db: Db, c: Caches, now: nat, l: Limits) {
    Fresh(db, c.memory, now, l.memory) && Fresh(db, c.redis.contexts, now, l.redis)
  }

  lemma PublishKept(r: Redis, context: Context, now: nat, setAt: nat)
    requires KeptRedis(r, now) && now <= setAt
    ensures KeptRedis(Publish(r, context, setAt), setAt)
  {
  }

  lemma LookupKept(c: Caches, key: Key, now: nat)
    requires Kept(c, now)
    ensures Timely(Lookup(c.memory, c.redis, true, key, now).1, now)
  {
  }

  /** A lookup answers an up-to-date context, and takes over no other. */
  lemma LookupFresh(db: Db, c: Caches, key: Key, now: nat, l: Limits)
    requires Kept(c, now) && UpToDate(db, c, now, l) && Follows(l)
    ensures var (cached, memory) := Lookup(c.memory, c.redis, true, key, now);
            && Fresh(db, memory, now, l.memory)
            && (cached.Some? && l.memory <= now ==> cached.value.permissions == Derived(db, key.userId))
  {
  }

  lemma LoadedKept(db: Db, c: Caches, u: Uuid, sessionId: Option<Uuid>, refusal: Option<Error>, expiry: Option<nat>,
                   now: nat, setAt: nat) returns (c': Caches)
    requires Kept(c, now) && now <= setAt
    ensures c' == Loaded(db, c, u, sessionId, refusal, expiry, now, setAt).1 && Kept(c', setAt)
  {
    c' := Loaded(db, c, u, sessionId, refusal, expiry, now, setAt).1;
    LookupKept(c, Key(u, sessionId), now);
    PublishKept(c.redis, Context(u, sessionId, Derived(db, u), expiry, now), now, setAt);
  }

  lemma LoadedFreshRedis(db: Db, c: Caches, u: Uuid, sessionId: Option<Uuid>, refusal: Option<Error>,
                         expiry: Option<nat>, now: nat, setAt: nat, limit: nat)
    requires Fresh(db, c.redis.contexts, now, limit) && now <= setAt
    ensures Fresh(db, Loaded(db, c, u, sessionId, refusal, expiry, now, setAt).1.redis.contexts, setAt, limit)
  {
  }

  /** Whoever loads a context leaves the caches up to date where they were, and is granted what is up to date. */
  lemma LoadedUpToDate(db: Db, c: Caches, u: Uuid, sessionId: Option<Uuid>, refusal: Option<Error>,
                       expiry: Option<nat>, now: nat, setAt: nat, l: Limits)
    requires Kept(c, now) && UpToDate(db, c, now, l) && Follows(l) && now <= setAt
    ensures var (r, c') := Loaded(db, c, u, sessionId, refusal, expiry, now, setAt);
            UpToDate(db, c', setAt, l) && (r.Ok? && l.memory <= now ==> r.value == Derived(db, u))
  {
    LookupFresh(db, c, Key(u, sessionId), now, l);
    LoadedFreshRedis(db, c, u, sessionId, refusal, expiry, now, setAt, l.redis);
  }

  /** Nothing stored and nothing changed. */
  ghost predicate OnlyDropped(entries: map<Key, Entry>, entries': map<Key, Entry>) {
    forall k :: k in entries' ==> k in entries && entries'[k] == entries[k]
  }

  lemma ForgetKeeps(c: Caches, u: Uuid, now: nat)
    requires Kept(c, now)
    ensures Kept(Forget(c, u, now), now)
    ensures forall k :: k in Forget(c, u, now).memory ==> k.userId != u
    ensures OnlyDropped(c.memory, Forget(c, u, now).memory)
    ensures OnlyDropped(c.redis.contexts, Forget(c, u, now).redis.contexts)
    ensures NoneLive(Forget(c, u, now).redis, u, now)
  {
  }

  ghost predicate NoneLive(r: Redis, u: Uuid, now: nat) {
    forall k :: k in r.contexts && k.userId == u ==> r.contexts[k].expiresAt <= now
  }

  lemma {:induction false} ForgetAllKeeps(c: Caches, us: seq<Uuid>, now: nat)
    requires Kept(c, now)
    ensures Kept(ForgetAll(c, us, now), now)
    ensures forall k :: k in ForgetAll(c, us, now).memory ==> k.userId !in us
    ensures OnlyDropped(c.memory, ForgetAll(c, us, now).memory)
    ensures OnlyDropped(c.redis.contexts, ForgetAll(c, us, now).redis.contexts)
    ensures forall u :: u in us ==> NoneLive(ForgetAll(c, us, now).redis, u, now)
    decreases |us|
  {
    if us != [] {
      var front, last := us[..|us| - 1], us[|us| - 1];
      ForgetAllKeeps(c, front, now);
      ForgetKeeps(ForgetAll(c, front, now), last, now);
      assert us == front + [last];
    }
  }

  lemma ForgetSessionKeeps(c: Caches, u: Uuid, id: Uuid, now: nat)
    requires Kept(c, now)
    ensures Kept(ForgetSession(c, u, id), now)
  {
  }

  lemma RoleChangeTouchesOwners(db: Db, role: Uuid, ids: seq<Identifier>, u: Uuid)
    requires RolePermissionsOutcome(db, role, ids).Ok? && u !in Owners(db.userRoles, role)
    ensures Derived(RolePermissionsOutcome(db, role, ids).value, u) == Derived(db, u)
  {
    var db' := RolePermissionsOutcome(db, role, ids).value;
    forall name ensures name in Derived(db', u) <==> name in Derived(db, u) {
      DerivedIsGranted(db', u, name);
      DerivedIsGranted(db, u, name);
      forall r, p | Link(u, r) in db.userRoles
        ensures Link(r, p) in db'.rolePermissions <==> Link(r, p) in db.rolePermissions
      {
        assert r != role;
      }
    }
  }

  lemma UserChangeTouchesUser(db: Db, u: Uuid, ids: seq<Identifier>, v: Uuid)
    requires UserRolesOutcome(db, u, ids).Ok? && v != u
    ensures Derived(UserRolesOutcome(db, u, ids).value, v) == Derived(db, v)
  {
    var db' := UserRolesOutcome(db, u, ids).value;
    forall name ensures name in Derived(db', v) <==> name in Derived(db, v) {
      DerivedIsGranted(db', v, name);
      DerivedIsGranted(db, v, name);
      forall r ensures Link(v, r) in db'.userRoles <==> Link(v, r) in db.userRoles {
      }
    }
  }

  lemma SessionsGrantNothing(db: Db, sessions: map<Uuid, SessionRow>, u: Uuid)
    ensures Derived(db.(sessions := sessions), u) == Derived(db, u)
  {
    var db' := db.(sessions := sessions);
    forall name ensures name in Derived(db', u) <==> name in Derived(db, u) {
      DerivedIsGranted(db', u, name);
      DerivedIsGranted(db, u, name);
    }
  }

  /** Invalidating everybody a change of the database touches keeps Redis up to date, whichever process does it, and the
      memory of the process that does it. */
  lemma ChangeKeepsUpToDate(db: Db, db': Db, c: Caches, us: seq<Uuid>, now: nat, l: Limits)
    requires Kept(c, now)
    requires forall u :: u !in us ==> Derived(db', u) == Derived(db, u)
    ensures var c' := ForgetAll(c, us, now);
            && (Fresh(db, c.redis.contexts, now, l.redis) ==> Fresh(db', c'.redis.contexts, now, l.redis))
            && (Fresh(db, c.memory, now, l.memory) ==> Fresh(db', c'.memory, now, l.memory))
  {
    ForgetAllKeeps(c, us, now);
    var c' := ForgetAll(c, us, now);
    forall k | k in c'.redis.contexts && c'.redis.contexts[k].expiresAt > now ensures k.userId !in us {
      assert k.userId in us ==> NoneLive(c'.redis, k.userId, now);
    }
  }

  lemma RoleReplaced(db: Db, c: Caches, role: Uuid, ids: seq<Identifier>, now: nat, l: Limits)
    requires Kept(c, now) && RolePermissionsOutcome(db, role, ids).Ok?
    ensures var db', c' := RolePermissionsOutcome(db, role, ids).value, ForgetAll(c, Owners(db.userRoles, role), now);
            && Kept(c', now)
            && (Fresh(db, c.redis.contexts, now, l.redis) ==> Fresh(db', c'.redis.contexts, now, l.redis))
            && (Fresh(db, c.memory, now, l.memory) ==> Fresh(db', c'.memory, now, l.memory))
  {
    var db' := RolePermissionsOutcome(db, role, ids).value;
    forall u | u !in Owners(db.userRoles, role) ensures Derived(db', u) == Derived(db, u) {
      RoleChangeTouchesOwners(db, role, ids, u);
    }
    ChangeKeepsUpToDate(db, db', c, Owners(db.userRoles, role), now, l);
    ForgetAllKeeps(c, Owners(db.userRoles, role), now);
  }

  lemma UserReplaced(db: Db, c: Caches, u: Uuid, ids: seq<Identifier>, now: nat, l: Limits)
    requires Kept(c, now) && UserRolesOutcome(db, u, ids).Ok?
    ensures var db', c' := UserRolesOutcome(db, u, ids).value, Forget(c, u, now);
            && Kept(c', now)
            && (Fresh(db, c.redis.contexts, now, l.redis) ==> Fresh(db', c'.redis.contexts, now, l.redis))
            && (Fresh(db, c.memory, now, l.memory) ==> Fresh(db', c'.memory, now, l.memory))
  {
    var db' := UserRolesOutcome(db, u, ids).value;
    forall v | v !in [u] ensures Derived(db', v) == Derived(db, v) {
      UserChangeTouchesUser(db, u, ids, v);
    }
    ChangeKeepsUpToDate(db, db', c, [u], now, l);
    assert ForgetAll(c, [u], now) == Forget(c, u, now);
    ForgetKeeps(c, u, now);
  }

  /** The context has been stored under its key, for 300 seconds from each write, and nothing else. */
  ghost predicate StoredIn(c: Caches, c': Caches, context: Context, now: nat, setAt: nat) {
    var key := Key(context.userId, context.sessionId);
    && c'.memory == c.memory[key := Entry(context, now + 300_000)]
    && c'.redis.contexts == c.redis.contexts[key := Entry(context, setAt + 300_000)]
  }

  // ------------------------------------------------------------------ the server

  class Server {
    var db: Db
    const cache: Process

    constructor (db: Db, cache: Process)
      ensures this.db == db && this.cache == cache
    {
      this.db := db;
      this.cache := cache;
    }

    ghost function Cached(): Caches
      reads cache, cache.redis
    {
      Caches(cache.authMemoryStore, cache.redis.data)
    }

    /** Memory and Redis are as runs leave them and hold no outdated context. */
    ghost predicate Current(now: nat)
      reads this, cache, cache.redis
    {
      Kept(Cached(), now) && UpToDate(db, Cached(), now, NONE)
    }

    /** The token has been verified; memory is stamped at now and Redis written at setAt. */
    method Authenticate(u: Uuid, sessionId: Option<Uuid>, now: nat, setAt: nat)
      returns (r: Result<set<string>, Error>)
      requires now <= setAt
      modifies cache, cache.redis
      ensures (r, Cached()) == Authenticated(db, old(Cached()), u, sessionId, now, setAt)
      ensures old(Current(now)) ==> Current(setAt)
      ensures old(Current(now)) && r.Ok? ==> forall name :: name in r.value <==> Grants(db, u, name)
      // With a cached context it is granted what that says. Without one, an active user with no session named, or one
      // that is there, its own, unrevoked and unexpired, and nobody else; the context is stored with its expiry.
      ensures var key := Key(u, sessionId);
              var cached := Lookup(old(cache.authMemoryStore), old(cache.redis.data), true, key, now).0;
              && (cached.Some? ==> r == Ok(cached.value.permissions))
              && (cached.None? ==>
                    && (r == Err(AuthenticationRequired) <==> u !in db.users || !db.users[u])
                    && (r.Ok? <==>
                        && u in db.users && db.users[u]
                        && (sessionId.Some? ==>
                              && sessionId.value in db.sessions
                              && db.sessions[sessionId.value].userId == u
                              && !db.sessions[sessionId.value].revoked
                              && db.sessions[sessionId.value].expiresAt >= now))
                    && (r.Err? ==> r.error in {AuthenticationRequired, InvalidSession})
                    && (r.Ok? ==>
                          var expiry := if sessionId.Some? then Some(db.sessions[sessionId.value].expiresAt) else None;
                          StoredIn(old(Cached()), Cached(), Context(u, sessionId, r.value, expiry, now), now, setAt)))
    {
      ghost var before := Cached();
      var cachedContext := cache.GetAuthContext(u, sessionId, true, now);
      if cachedContext.Some? {
        r := Ok(cachedContext.value.permissions);
      } else if u !in db.users || !db.users[u] {
        r := Err(AuthenticationRequired);
      } else if sessionId.Some? && sessionId.value !in db.sessions {
        r := Err(InvalidSession);
      } else if sessionId.Some? && (db.sessions[sessionId.value].userId != u || db.sessions[sessionId.value].revoked
                                    || db.sessions[sessionId.value].expiresAt < now) {
        r := Err(InvalidSession);
      } else {
        var sessionExpiresAt := if sessionId.Some? then Some(db.sessions[sessionId.value].expiresAt) else None;
        var permissions := ToSet(Dedupe(FlatNames(db, MembersOf(db.userRoles, u))));
        cache.SetAuthContext(Context(u, sessionId, permissions, sessionExpiresAt, now), true, now, setAt);
        r := Ok(permissions);
      }
      assert (r, Cached()) == Authenticated(db, before, u, sessionId, now, setAt);
      LoadedIsGranted(db, before, u, sessionId, Refusal(db, u, sessionId, now), SessionExpiry(db, sessionId), now,
                      setAt);
    }

    /** The handshake of a socket, its token verified: no look at the session, and no expiry in the context. */
    method SocketAuth(u: Uuid, sessionId: Option<Uuid>, now: nat, setAt: nat) returns (r: Result<set<string>, Error>)
      requires now <= setAt
      modifies cache, cache.redis
      ensures (r, Cached()) == Handshaken(db, old(Cached()), u, sessionId, now, setAt)
      ensures old(Current(now)) ==> Current(setAt)
      ensures old(Current(now)) && r.Ok? ==> forall name :: name in r.value <==> Grants(db, u, name)
      // Without a cached context, exactly active users are accepted, and the context stored has no session expiry.
      ensures var key := Key(u, sessionId);
              var cached := Lookup(old(cache.authMemoryStore), old(cache.redis.data), true, key, now).0;
              && (cached.Some? ==> r == Ok(cached.value.permissions))
              && (cached.None? ==>
                    && (r.Ok? <==> u in db.users && db.users[u])
                    && (r.Err? ==> r == Err(AuthenticationRequired))
                    && (r.Ok? ==>
                          StoredIn(old(Cached()), Cached(), Context(u, sessionId, r.value, None, now), now, setAt)))
      // Whatever has become of the session, a request in it is served from then on.
      ensures old(Kept(Cached(), now)) && Active(db, u) ==>
                Authenticated(db, Cached(), u, sessionId, now, setAt).0 == r
    {
      ghost var before := Cached();
      var cached := cache.GetAuthContext(u, sessionId, true, now);
      if cached.Some? {
        r := Ok(cached.value.permissions);
      } else if u !in db.users || !db.users[u] {
        r := Err(AuthenticationRequired);
      } else {
        var permissions := ToSet(Dedupe(FlatNames(db, MembersOf(db.userRoles, u))));
        cache.SetAuthContext(Context(u, sessionId, permissions, None, now), true, now, setAt);
        r := Ok(permissions);
      }
      assert (r, Cached()) == Handshaken(db, before, u, sessionId, now, setAt);
      LoadedIsGranted(db, before, u, sessionId, SocketRefusal(db, u), None, now, setAt);
    }

    method GetCurrentUser(u: Uuid, sessionId: Option<Uuid>, now: nat, setAt: nat)
      returns (r: Result<set<string>, Error>)
      requires now <= setAt
      modifies cache, cache.redis
      ensures (r, Cached()) == ProfileRead(db, old(Cached()), u, sessionId, now, setAt)
      ensures old(Current(now)) ==> Current(setAt)
      ensures old(Current(now)) && r.Ok? ==> forall name :: name in r.value <==> Grants(db, u, name)
      // Without a cached context, exactly existing users are answered, and the context stored has no session expiry.
      ensures var key := Key(u, sessionId);
              var cached := Lookup(old(cache.authMemoryStore), old(cache.redis.data), true, key, now).0;
              && (cached.Some? ==> r == Ok(cached.value.permissions))
              && (cached.None? ==>
                    && (r.Ok? <==> u in db.users)
                    && (r.Err? ==> r == Err(NotFound))
                    && (r.Ok? ==>
                          StoredIn(old(Cached()), Cached(), Context(u, sessionId, r.value, None, now), now, setAt)))
    {
      ghost var before := Cached();
      var cached := cache.GetAuthContext(u, sessionId, true, now);
      if cached.Some? {
        r := Ok(cached.value.permissions);
      } else if u !in db.users {
        r := Err(NotFound);
      } else {
        var permissions := ToSet(Dedupe(FlatNames(db, MembersOf(db.userRoles, u))));
        cache.SetAuthContext(Context(u, sessionId, permissions, None, now), true, now, setAt);
        r := Ok(permissions);
      }
      assert (r, Cached()) == ProfileRead(db, before, u, sessionId, now, setAt);
      LoadedIsGranted(db, before, u, sessionId, ProfileRefusal(db, u), None, now, setAt);
    }

    method InvalidateAll(userIds: seq<Uuid>, now: nat)
      modifies cache, cache.redis
      ensures Cached() == ForgetAll(old(Cached()), userIds, now)
    {
      for i := 0 to |userIds|
        invariant Cached() == ForgetAll(old(Cached()), userIds[..i], now)
      {
        cache.InvalidateUser(userIds[i], now);
        assert userIds[..i + 1][..i] == userIds[..i];
      }
      assert userIds[..|userIds|] == userIds;
    }

    method ReplaceRolePermissions(role: Uuid, ids: seq<Identifier>, now: nat) returns (error: Option<Error>)
      modifies this, cache, cache.redis
      ensures var r := RolePermissionsOutcome(old(db), role, ids);
              && (error.None? <==> r.Ok?)
              && (r.Ok? ==> db == r.value && Cached() == ForgetAll(old(Cached()), Owners(old(db).userRoles, role), now))
              && (r.Err? ==> error == Some(r.error) && db == old(db) && Cached() == old(Cached()))
      ensures old(Current(now)) ==> Current(now)
      // Refused without the role, or when some identifier names no row or two name the same; no other table changes.
      ensures error == Some(NotFound) <==> forall row :: row in old(db).roles ==> row.id != role
      ensures UniqueRows(old(db).permissions) ==>
                (error == Some(IdentifierNotFound) <==>
                 (exists row :: row in old(db).roles && row.id == role) && !OneEach(old(db).permissions, ids))
      ensures error in {None, Some(NotFound), Some(IdentifierNotFound)}
      ensures db == old(db).(rolePermissions := db.rolePermissions)
      ensures error.None? ==> forall p :: Link(role, p) in db.rolePermissions <==>
                exists row, i :: row in db.permissions && row.id == p && i in ids && Matches(i, row)
      ensures forall r, p :: r != role ==> (Link(r, p) in db.rolePermissions <==> Link(r, p) in old(db).rolePermissions)
    {
      HasRowIff(db.roles, role);
      if UniqueRows(db.permissions) {
        AcceptedIff(db.permissions, ids);
      }
      if !HasRow(db.roles, role) {
        return Some(NotFound);
      }
      var assignedUsers := Owners(db.userRoles, role);
      var uniqueIdentifiers := Dedupe(ids);
      var found := Matched(db.permissions, uniqueIdentifiers);
      if |found| != |uniqueIdentifiers| {
        return Some(IdentifierNotFound);
      }
      ghost var before, cached := db, Cached();
      db := db.(rolePermissions := Without(db.rolePermissions, role));
      db := db.(rolePermissions := db.rolePermissions + LinksTo(role, found));
      assert RolePermissionsOutcome(before, role, ids) == Ok(db);
      InvalidateAll(assignedUsers, now);
      if Kept(cached, now) {
        RoleReplaced(before, cached, role, ids, now, NONE);
      }
      RoleLinks(before, role, ids);
      return None;
    }

    method ReplaceUserRoles(u: Uuid, ids: seq<Identifier>, now: nat) returns (error: Option<Error>)
      modifies this, cache, cache.redis
      ensures var r := UserRolesOutcome(old(db), u, ids);
              && (error.None? <==> r.Ok?)
              && (r.Ok? ==> db == r.value && Cached() == Forget(old(Cached()), u, now))
              && (r.Err? ==> error == Some(r.error) && db == old(db) && Cached() == old(Cached()))
      ensures old(Current(now)) ==> Current(now)
      // Refused without the user, or when some identifier names no row or two name the same; no other table changes.
      ensures error == Some(NotFound) <==> u !in old(db).users
      ensures UniqueRows(old(db).roles) ==>
                (error == Some(IdentifierNotFound) <==> u in old(db).users && !OneEach(old(db).roles, ids))
      ensures error in {None, Some(NotFound), Some(IdentifierNotFound)}
      ensures db == old(db).(userRoles := db.userRoles)
      ensures error.None? ==> forall role :: Link(u, role) in db.userRoles <==>
                exists row, i :: row in db.roles && row.id == role && i in ids && Matches(i, row)
      ensures forall v, role :: v != u ==> (Link(v, role) in db.userRoles <==> Link(v, role) in old(db).userRoles)
    {
      if UniqueRows(db.roles) {
        AcceptedIff(db.roles, ids);
      }
      if u !in db.users {
        return Some(NotFound);
      }
      var uniqueIdentifiers := Dedupe(ids);
      var matchedRoles := Matched(db.roles, uniqueIdentifiers);
      if |matchedRoles| != |uniqueIdentifiers| {
        return Some(IdentifierNotFound);
      }
      ghost var before, cached := db, Cached();
      db := db.(userRoles := Without(db.userRoles, u));
      db := db.(userRoles := db.userRoles + LinksTo(u, matchedRoles));
      assert UserRolesOutcome(before, u, ids) == Ok(db);
      cache.InvalidateUser(u, now);
      if Kept(cached, now) {
        UserReplaced(before, cached, u, ids, now, NONE);
      }
      UserLinks(before, u, ids);
      return None;
    }

    /** Invalidates nothing. */
    method DeleteRole(role: Uuid) returns (error: Option<Error>)
      modifies this`db
      ensures error.None? ==> db == RoleDeleted(old(db), role)
      ensures error.Some? ==> db == old(db) && DeleteRoleOutcome(db, role) == Err(error.value)
      // Refused without the role, and for the super admin role.
      ensures error == Some(NotFound) <==> forall row :: row in old(db).roles ==> row.id != role
      ensures error == Some(Protected) <==>
                exists row :: row in old(db).roles && row.id == role && row.name == "SUPER_ADMIN"
      ensures error in {None, Some(NotFound), Some(Protected)}
      // What is left to everybody is what another role grants.
      ensures error.None? ==> forall u, name :: Grants(db, u, name) <==>
                exists r :: r != role && Link(u, r) in old(db).userRoles && RoleGrants(old(db), r, name)
    {
      HasRowIff(db.roles, role);
      if !HasRow(db.roles, role) {
        return Some(NotFound);
      }
      if exists row :: row in db.roles && row.id == role && row.name == "SUPER_ADMIN" {
        return Some(Protected);
      }
      forall u, name
        ensures Grants(RoleDeleted(db, role), u, name) <==>
                exists r :: r != role && Link(u, r) in db.userRoles && RoleGrants(db, r, name)
      {
        GrantedWithout(db, role, u, name);
      }
      db := RoleDeleted(db, role);
      return None;
    }
  }

  lemma LoadedIsGranted(db: Db, c: Caches, u: Uuid, sessionId: Option<Uuid>, refusal: Option<Error>,
                        expiry: Option<nat>, now: nat, setAt: nat)
    requires now <= setAt
    ensures var (r, c') := Loaded(db, c, u, sessionId, refusal, expiry, now, setAt);
            Kept(c, now) && UpToDate(db, c, now, NONE) ==>
              && Kept(c', setAt) && UpToDate(db, c', setAt, NONE)
              && (r.Ok? ==> forall name :: name in r.value <==> Grants(db, u, name))
  {
    if Kept(c, now) && UpToDate(db, c, now, NONE) {
      var _ := LoadedKept(db, c, u, sessionId, refusal, expiry, now, setAt);
      LoadedUpToDate(db, c, u, sessionId, refusal, expiry, now, setAt, NONE);
      forall name ensures name in Derived(db, u) <==> Grants(db, u, name) {
        DerivedIsGranted(db, u, name);
      }
    }
  }

  lemma RoleLinks(db: Db, role: Uuid, ids: seq<Identifier>)
    requires RolePermissionsOutcome(db, role, ids).Ok?
    ensures var links := RolePermissionsOutcome(db, role, ids).value.rolePermissions;
            && (forall p :: Link(role, p) in links <==>
                  exists row, i :: row in db.permissions && row.id == p && i in ids && Matches(i, row))
            && (forall r, p :: r != role ==> (Link(r, p) in links <==> Link(r, p) in db.rolePermissions))
  {
    NewLinks(db.rolePermissions, db.permissions, role, ids);
  }

  lemma UserLinks(db: Db, u: Uuid, ids: seq<Identifier>)
    requires UserRolesOutcome(db, u, ids).Ok?
    ensures var links := UserRolesOutcome(db, u, ids).value.userRoles;
            && (forall r :: Link(u, r) in links <==>
                  exists row, i :: row in db.roles && row.id == r && i in ids && Matches(i, row))
            && (forall v, r :: v != u ==> (Link(v, r) in links <==> Link(v, r) in db.userRoles))
  {
    NewLinks(db.userRoles, db.roles, u, ids);
  }

  lemma NewLinks(links: seq<Link>, rows: seq<Named>, owner: Uuid, ids: seq<Identifier>)
    ensures var links' := Without(links, owner) + LinksTo(owner, Matched(rows, Dedupe(ids)));
            && (forall m :: Link(owner, m) in links' <==>
                  exists row, i :: row in rows && row.id == m && i in ids && Matches(i, row))
            && (forall o, m :: o != owner ==> (Link(o, m) in links' <==> Link(o, m) in links))
  {
    var kept, added := Without(links, owner), LinksTo(owner, Matched(rows, Dedupe(ids)));
    assert forall l :: l in kept + added <==> l in kept || l in added;
    forall m
      ensures Link(owner, m) in added <==> exists row, i :: row in rows && row.id == m && i in ids && Matches(i, row)
    {
      if row, i :| row in rows && row.id == m && i in ids && Matches(i, row) {
        assert i in Dedupe(ids);
        assert row in Matched(rows, Dedupe(ids));
      }
    }
  }

  // ------------------------------------------------------- runs of many processes

  const ACCESS_SECONDS := 300

  /** The newest access token of a session: whose it is, and the second from which it no longer verifies. */
  datatype Token = Token(userId: Uuid, exp: nat)

  datatype State = Serving(now: nat, db: Db, memories: map<nat, Memory>, redis: Redis, tokens: map<Uuid, Token>)

  /** lag: how long the load takes, from the stamp in memory to the write in Redis. */
  datatype Step =
    | Tick(ms: nat)
    | Request(process: nat, u: Uuid, sessionId: Option<Uuid>, lag: nat)
    | Handshake(process: nat, u: Uuid, sessionId: Option<Uuid>, lag: nat)
    | Profile(process: nat, u: Uuid, sessionId: Option<Uuid>, lag: nat)      // within a request accepted before
    | ReplaceRole(process: nat, role: Uuid, ids: seq<Identifier>)
    | ReplaceUser(process: nat, u: Uuid, ids: seq<Identifier>)
    | DeleteRole(role: Uuid)                                                 // invalidates nothing
    | Login(u: Uuid, id: Uuid, expiresAt: nat)
    | Refresh(id: Uuid)                                                      // one that succeeds, if any can
    | Logout(process: nat, u: Uuid, id: Uuid)
    | RevokeAll(process: nat, u: Uuid)
    | ResetPassword(u: Uuid)                                                 // revokes, invalidates nothing
    | Restart(process: nat)

  function MemoryOf(s: State, p: nat): Memory {
    if p in s.memories then s.memories[p] else map[]
  }

  function View(s: State, p: nat): Caches {
    Caches(MemoryOf(s, p), s.redis)
  }

  function With(s: State, p: nat, c: Caches): State {
    s.(memories := s.memories[p := c.memory], redis := c.redis)
  }

  /** The session has an access token of u that still verifies. */
  predicate TokenLives(s: State, u: Uuid, id: Uuid) {
    id in s.tokens && s.tokens[id].userId == u && s.now / 1000 < s.tokens[id].exp
  }

  predicate Verifies(s: State, u: Uuid, sessionId: Option<Uuid>) {
    sessionId.Some? ==> TokenLives(s, u, sessionId.value)
  }

  /** One of the three callers on process p. */
  function Load(s: State, p: nat, u: Uuid, sessionId: Option<Uuid>, refusal: Option<Error>, expiry: Option<nat>,
                lag: nat): State
  {
    With(s, p, Loaded(s.db, View(s, p), u, sessionId, refusal, expiry, s.now, s.now + lag).1).(now := s.now + lag)
  }

  function IssueToken(s: State, u: Uuid, id: Uuid): State {
    s.(tokens := s.tokens[id := Token(u, s.now / 1000 + ACCESS_SECONDS)])
  }

  function Apply(s: State, step: Step): State {
    match step
    case Tick(ms) => s.(now := s.now + ms)
    case Request(p, u, sessionId, lag) =>
      if !Verifies(s, u, sessionId) then s
      else Load(s, p, u, sessionId, Refusal(s.db, u, sessionId, s.now), SessionExpiry(s.db, sessionId), lag)
    case Handshake(p, u, sessionId, lag) =>
      if !Verifies(s, u, sessionId) then s
      else Load(s, p, u, sessionId, SocketRefusal(s.db, u), None, lag)
    case Profile(p, u, sessionId, lag) =>
      Load(s, p, u, sessionId, ProfileRefusal(s.db, u), None, lag)
    case ReplaceRole(p, role, ids) =>
      var r := RolePermissionsOutcome(s.db, role, ids);
      if r.Err? then s
      else With(s, p, ForgetAll(View(s, p), Owners(s.db.userRoles, role), s.now)).(db := r.value)
    case ReplaceUser(p, u, ids) =>
      var r := UserRolesOutcome(s.db, u, ids);
      if r.Err? then s else With(s, p, Forget(View(s, p), u, s.now)).(db := r.value)
    case DeleteRole(role) =>
      var r := DeleteRoleOutcome(s.db, role);
      if r.Err? then s else s.(db := r.value)
    case Login(u, id, expiresAt) =>
      if id in s.db.sessions then s
      else IssueToken(s.(db := s.db.(sessions := s.db.sessions[id := SessionRow(u, expiresAt, false)])), u, id)
    case Refresh(id) =>
      if id !in s.db.sessions || s.db.sessions[id].revoked || s.db.sessions[id].expiresAt < s.now then s
      else IssueToken(s, s.db.sessions[id].userId, id)
    case Logout(p, u, id) => With(s, p, ForgetSession(View(s, p), u, id)).(db := SessionRevoked(s.db, id))
    case RevokeAll(p, u) => With(s, p, Forget(View(s, p), u, s.now)).(db := SessionsRevoked(s.db, u))
    case ResetPassword(u) => s.(db := SessionsRevoked(s.db, u))
    case Restart(p) => s.(memories := s.memories[p := map[]])
  }

  function Run(s: State, steps: seq<Step>): State
    decreases |steps|
  {
    if steps == [] then s else Run(Apply(s, steps[0]), steps[1..])
  }

  function Start(db: Db): State {
    Serving(0, db, map[], Redis(map[], map[]), map[])
  }

  /** What process p answers a request now, with the newest token of its session. */
  function Answer(s: State, p: nat, u: Uuid, sessionId: Option<Uuid>): Result<set<string>, Error> {
    if !Verifies(s, u, sessionId) then Err(InvalidToken)
    else Authenticated(s.db, View(s, p), u, sessionId, s.now, s.now).0
  }

  /** What it answers a socket handshake. */
  function SocketAnswer(s: State, p: nat, u: Uuid, sessionId: Option<Uuid>): Result<set<string>, Error> {
    if !Verifies(s, u, sessionId) then Err(InvalidToken)
    else Handshaken(s.db, View(s, p), u, sessionId, s.now, s.now).0
  }

  ghost predicate CachesKept(s: State) {
    (forall p :: p in s.memories ==> Timely(s.memories[p], s.now)) && KeptRedis(s.redis, s.now)
  }

  /** No token verifies for longer than five minutes from now. */
  ghost predicate TokensKept(tokens: map<Uuid, Token>, now: nat) {
    forall id :: id in tokens ==> tokens[id].exp <= now / 1000 + ACCESS_SECONDS
  }

  ghost predicate Inv(s: State) {
    CachesKept(s) && TokensKept(s.tokens, s.now)
  }

  lemma WithKeeps(s: State, p: nat, c: Caches)
    requires CachesKept(s) && Kept(c, s.now)
    ensures CachesKept(With(s, p, c))
  {
    StoredKept(s, With(s, p, c), p, c);
  }

  lemma ViewKept(s: State, p: nat)
    requires CachesKept(s)
    ensures Kept(View(s, p), s.now)
  {
  }

  lemma LoadKeeps(s: State, p: nat, u: Uuid, sessionId: Option<Uuid>, refusal: Option<Error>, expiry: Option<nat>,
                  lag: nat)
    requires CachesKept(s)
    ensures CachesKept(Load(s, p, u, sessionId, refusal, expiry, lag))
  {
    ViewKept(s, p);
    var c' := LoadedKept(s.db, View(s, p), u, sessionId, refusal, expiry, s.now, s.now + lag);
    LoadOnly(s, p, u, sessionId, refusal, expiry, lag, c');
    StoredKept(s, Load(s, p, u, sessionId, refusal, expiry, lag), p, c');
  }

  lemma LoadOnly(s: State, p: nat, u: Uuid, sessionId: Option<Uuid>, refusal: Option<Error>, expiry: Option<nat>,
                 lag: nat, c': Caches)
    requires c' == Loaded(s.db, View(s, p), u, sessionId, refusal, expiry, s.now, s.now + lag).1
    ensures var s' := Load(s, p, u, sessionId, refusal, expiry, lag);
            s'.redis == c'.redis && s'.memories == s.memories[p := c'.memory] && s'.now == s.now + lag
  {
  }

  lemma StoredKept(s: State, s': State, p: nat, c': Caches)
    requires CachesKept(s) && s.now <= s'.now && Kept(c', s'.now)
    requires s'.redis == c'.redis && s'.memories == s.memories[p := c'.memory]
    ensures CachesKept(s')
  {
  }

  predicate Loads(step: Step) {
    step.Request? || step.Handshake? || step.Profile?
  }

  lemma LoadStepKeepsCaches(s: State, step: Step)
    requires CachesKept(s) && Loads(step)
    ensures CachesKept(Apply(s, step))
  {
    var p, u, sessionId, lag := step.process, step.u, step.sessionId, step.lag;
    match step {
      case Request(_, _, _, _) =>
        LoadKeeps(s, p, u, sessionId, Refusal(s.db, u, sessionId, s.now), SessionExpiry(s.db, sessionId), lag);
      case Handshake(_, _, _, _) => LoadKeeps(s, p, u, sessionId, SocketRefusal(s.db, u), None, lag);
      case Profile(_, _, _, _) => LoadKeeps(s, p, u, sessionId, ProfileRefusal(s.db, u), None, lag);
    }
  }

  lemma StepKeepsCaches(s: State, step: Step)
    requires CachesKept(s)
    ensures CachesKept(Apply(s, step))
  {
    match step {
      case ReplaceRole(p, role, _) =>
        ForgetAllKeeps(View(s, p), Owners(s.db.userRoles, role), s.now);
        WithKeeps(s, p, ForgetAll(View(s, p), Owners(s.db.userRoles, role), s.now));
      case ReplaceUser(p, u, _) =>
        ForgetKeeps(View(s, p), u, s.now);
        WithKeeps(s, p, Forget(View(s, p), u, s.now));
      case Logout(p, u, id) =>
        ForgetSessionKeeps(View(s, p), u, id, s.now);
        WithKeeps(s, p, ForgetSession(View(s, p), u, id));
      case RevokeAll(p, u) =>
        ForgetKeeps(View(s, p), u, s.now);
        WithKeeps(s, p, Forget(View(s, p), u, s.now));
      case _ =>
        if Loads(step) {
          LoadStepKeepsCaches(s, step);
        }
    }
  }

  lemma TokensKeptLater(tokens: map<Uuid, Token>, now: nat, later: nat)
    requires TokensKept(tokens, now) && now <= later
    ensures TokensKept(tokens, later)
  {
  }

  lemma StepKeeps(s: State, step: Step)
    requires Inv(s)
    ensures Inv(Apply(s, step)) && s.now <= Apply(s, step).now
  {
    StepKeepsCaches(s, step);
    TokensKeptLater(s.tokens, s.now, Apply(s, step).now);
  }

  lemma {:induction false} RunKeeps(s: State, steps: seq<Step>)
    requires Inv(s)
    ensures Inv(Run(s, steps)) && s.now <= Run(s, steps).now
    decreases |steps|
  {
    if steps != [] {
      StepKeeps(s, steps[0]);
      RunKeeps(Apply(s, steps[0]), steps[1..]);
    }
  }

  // ------------------------------------------------- what is served is up to date

  predicate Replaces(step: Step) {
    step.ReplaceRole? || step.ReplaceUser?
  }

  predicate DeletesNoRole(steps: seq<Step>) {
    forall i :: 0 <= i < |steps| ==> !steps[i].DeleteRole?
  }

  /** No role is deleted, and whatever process p does not replace itself is not replaced. */
  predicate ChangesOnlyOn(p: nat, steps: seq<Step>) {
    forall i :: 0 <= i < |steps| ==> !steps[i].DeleteRole? && (Replaces(steps[i]) ==> steps[i].process == p)
  }

  /** No context that process p could serve is outdated beyond the limits. */
  ghost predicate UpToDateOn(s: State, p: nat, l: Limits) {
    UpToDate(s.db, View(s, p), s.now, l)
  }

  lemma SessionsUpToDate(db: Db, sessions: map<Uuid, SessionRow>, entries: map<Key, Entry>, entries': map<Key, Entry>,
                         now: nat, limit: nat)
    requires Fresh(db, entries, now, limit)
    requires OnlyDropped(entries, entries')
    ensures Fresh(db.(sessions := sessions), entries', now, limit)
  {
    forall u ensures Derived(db.(sessions := sessions), u) == Derived(db, u) {
      SessionsGrantNothing(db, sessions, u);
    }
  }

  lemma {:induction false} ForgetAllDrops(c: Caches, us: seq<Uuid>, now: nat)
    ensures OnlyDropped(c.memory, ForgetAll(c, us, now).memory)
    ensures OnlyDropped(c.redis.contexts, ForgetAll(c, us, now).redis.contexts)
    decreases |us|
  {
    if us != [] {
      ForgetAllDrops(c, us[..|us| - 1], now);
    }
  }

  lemma OtherStepOnlyDrops(s: State, step: Step, q: nat)
    requires !Loads(step)
    ensures OnlyDropped(MemoryOf(s, q), MemoryOf(Apply(s, step), q))
    ensures OnlyDropped(s.redis.contexts, Apply(s, step).redis.contexts)
  {
    match step {
      case ReplaceRole(p, role, _) => ForgetAllDrops(View(s, p), Owners(s.db.userRoles, role), s.now);
      case _ =>
    }
  }

  predicate ConcernsSessions(step: Step) {
    step.Login? || step.Refresh? || step.Logout? || step.RevokeAll? || step.ResetPassword?
  }

  /** Up to date as before on the process that makes the change, with another database and other caches. */
  ghost predicate StaysFresh(s: State, s': State, p: nat, l: Limits) {
    && s'.now == s.now
    && (Fresh(s.db, s.redis.contexts, s.now, l.redis) ==> Fresh(s'.db, s'.redis.contexts, s.now, l.redis))
    && (Fresh(s.db, MemoryOf(s, p), s.now, l.memory) ==> Fresh(s'.db, MemoryOf(s', p), s.now, l.memory))
  }

  lemma ReplaceRoleStaysFresh(s: State, p: nat, role: Uuid, ids: seq<Identifier>, l: Limits)
    requires CachesKept(s)
    ensures StaysFresh(s, Apply(s, ReplaceRole(p, role, ids)), p, l)
  {
    if RolePermissionsOutcome(s.db, role, ids).Ok? {
      RoleReplaced(s.db, View(s, p), role, ids, s.now, l);
    }
  }

  lemma ReplaceUserStaysFresh(s: State, p: nat, u: Uuid, ids: seq<Identifier>, l: Limits)
    requires CachesKept(s)
    ensures StaysFresh(s, Apply(s, ReplaceUser(p, u, ids)), p, l)
  {
    if UserRolesOutcome(s.db, u, ids).Ok? {
      UserReplaced(s.db, View(s, p), u, ids, s.now, l);
    }
  }

  lemma ReplaceStaysFresh(s: State, step: Step, l: Limits)
    requires CachesKept(s) && Replaces(step)
    ensures StaysFresh(s, Apply(s, step), step.process, l)
  {
    match step {
      case ReplaceRole(p, role, ids) => ReplaceRoleStaysFresh(s, p, role, ids, l);
      case ReplaceUser(p, u, ids) => ReplaceUserStaysFresh(s, p, u, ids, l);
    }
  }

  lemma SessionStepStaysFresh(s: State, step: Step, p: nat, l: Limits)
    requires ConcernsSessions(step)
    ensures StaysFresh(s, Apply(s, step), p, l)
  {
    var s' := Apply(s, step);
    assert s'.db == s.db.(sessions := s'.db.sessions) && s'.now == s.now;
    OtherStepOnlyDrops(s, step, p);
    if Fresh(s.db, s.redis.contexts, s.now, l.redis) {
      SessionsUpToDate(s.db, s'.db.sessions, s.redis.contexts, s'.redis.contexts, s.now, l.redis);
    }
    if Fresh(s.db, MemoryOf(s, p), s.now, l.memory) {
      SessionsUpToDate(s.db, s'.db.sessions, MemoryOf(s, p), MemoryOf(s', p), s.now, l.memory);
    }
  }

  lemma LoadKeepsRedisUpToDate(s: State, p: nat, u: Uuid, sessionId: Option<Uuid>, refusal: Option<Error>,
                               expiry: Option<nat>, lag: nat, limit: nat)
    requires Fresh(s.db, s.redis.contexts, s.now, limit)
    ensures var s' := Load(s, p, u, sessionId, refusal, expiry, lag);
            s'.db == s.db && Fresh(s.db, s'.redis.contexts, s'.now, limit)
  {
    LoadedFreshRedis(s.db, View(s, p), u, sessionId, refusal, expiry, s.now, s.now + lag, limit);
  }

  lemma LoadKeepsMemoryUpToDate(s: State, q: nat, u: Uuid, sessionId: Option<Uuid>, refusal: Option<Error>,
                                expiry: Option<nat>, lag: nat, p: nat, l: Limits)
    requires CachesKept(s) && UpToDateOn(s, p, l) && Follows(l)
    ensures var s' := Load(s, q, u, sessionId, refusal, expiry, lag);
            s'.db == s.db && Fresh(s.db, MemoryOf(s', p), s'.now, l.memory)
  {
    if q == p {
      LoadedUpToDate(s.db, View(s, p), u, sessionId, refusal, expiry, s.now, s.now + lag, l);
    }
  }

  /** Redis stays up to date whichever process makes the step: its index leads to everything a replacement outdates. */
  lemma StepKeepsRedisUpToDate(s: State, step: Step, limit: nat)
    requires CachesKept(s) && Fresh(s.db, s.redis.contexts, s.now, limit) && !step.DeleteRole?
    ensures var s' := Apply(s, step); Fresh(s'.db, s'.redis.contexts, s'.now, limit)
  {
    if ConcernsSessions(step) {
      SessionStepStaysFresh(s, step, 0, Limits(0, limit));
    } else if Replaces(step) {
      ReplaceStaysFresh(s, step, Limits(0, limit));
    } else {
      match step {
        case Request(p, u, sessionId, lag) =>
          LoadKeepsRedisUpToDate(s, p, u, sessionId, Refusal(s.db, u, sessionId, s.now),
                                 SessionExpiry(s.db, sessionId), lag, limit);
        case Handshake(p, u, sessionId, lag) =>
          LoadKeepsRedisUpToDate(s, p, u, sessionId, SocketRefusal(s.db, u), None, lag, limit);
        case Profile(p, u, sessionId, lag) =>
          LoadKeepsRedisUpToDate(s, p, u, sessionId, ProfileRefusal(s.db, u), None, lag, limit);
        case _ =>
      }
    }
  }

  lemma StepKeepsMemoryUpToDate(s: State, step: Step, p: nat, l: Limits)
    requires CachesKept(s) && UpToDateOn(s, p, l) && Follows(l)
    requires !step.DeleteRole? && (Replaces(step) ==> step.process == p)
    ensures var s' := Apply(s, step); Fresh(s'.db, MemoryOf(s', p), s'.now, l.memory)
  {
    if ConcernsSessions(step) {
      SessionStepStaysFresh(s, step, p, l);
    } else if Replaces(step) {
      ReplaceStaysFresh(s, step, l);
    } else {
      match step {
        case Request(q, u, sessionId, lag) =>
          LoadKeepsMemoryUpToDate(s, q, u, sessionId, Refusal(s.db, u, sessionId, s.now),
                                  SessionExpiry(s.db, sessionId), lag, p, l);
        case Handshake(q, u, sessionId, lag) =>
          LoadKeepsMemoryUpToDate(s, q, u, sessionId, SocketRefusal(s.db, u), None, lag, p, l);
        case Profile(q, u, sessionId, lag) =>
          LoadKeepsMemoryUpToDate(s, q, u, sessionId, ProfileRefusal(s.db, u), None, lag, p, l);
        case _ =>
      }
    }
  }

  /** Every step but deleting a role, and replacing on another process, keeps what p can serve up to date. */
  lemma StepKeepsUpToDate(s: State, step: Step, p: nat, l: Limits)
    requires Inv(s) && UpToDateOn(s, p, l) && Follows(l)
    requires !step.DeleteRole? && (Replaces(step) ==> step.process == p)
    ensures UpToDateOn(Apply(s, step), p, l)
  {
    StepKeepsMemoryUpToDate(s, step, p, l);
    StepKeepsRedisUpToDate(s, step, l.redis);
  }

  lemma {:induction false} RunKeepsUpToDate(s: State, steps: seq<Step>, p: nat, l: Limits)
    requires Inv(s) && UpToDateOn(s, p, l) && Follows(l) && ChangesOnlyOn(p, steps)
    ensures UpToDateOn(Run(s, steps), p, l)
    decreases |steps|
  {
    if steps != [] {
      StepKeeps(s, steps[0]);
      StepKeepsUpToDate(s, steps[0], p, l);
      RunKeepsUpToDate(Apply(s, steps[0]), steps[1..], p, l);
    }
  }

  lemma {:induction false} RunKeepsRedisUpToDate(s: State, steps: seq<Step>)
    requires Inv(s) && Fresh(s.db, s.redis.contexts, s.now, 0) && DeletesNoRole(steps)
    ensures var s' := Run(s, steps); Fresh(s'.db, s'.redis.contexts, s'.now, 0)
    decreases |steps|
  {
    if steps != [] {
      StepKeeps(s, steps[0]);
      StepKeepsRedisUpToDate(s, steps[0], 0);
      RunKeepsRedisUpToDate(Apply(s, steps[0]), steps[1..]);
    }
  }

  /** A request or a handshake that process p accepts is granted exactly what the user has in the database now. */
  ghost predicate GrantsExactly(s: State, p: nat, u: Uuid, sessionId: Option<Uuid>) {
    && (Answer(s, p, u, sessionId).Ok? ==>
          forall name :: name in Answer(s, p, u, sessionId).value <==> Grants(s.db, u, name))
    && (SocketAnswer(s, p, u, sessionId).Ok? ==>
          forall name :: name in SocketAnswer(s, p, u, sessionId).value <==> Grants(s.db, u, name))
  }

  lemma UpToDateGrantsExactly(s: State, p: nat, u: Uuid, sessionId: Option<Uuid>, l: Limits)
    requires Inv(s) && UpToDateOn(s, p, l) && Follows(l) && l.memory <= s.now
    ensures GrantsExactly(s, p, u, sessionId)
  {
    var c := View(s, p);
    LoadedUpToDate(s.db, c, u, sessionId, Refusal(s.db, u, sessionId, s.now), SessionExpiry(s.db, sessionId),
                   s.now, s.now, l);
    LoadedUpToDate(s.db, c, u, sessionId, SocketRefusal(s.db, u), None,
                   s.now, s.now, l);
    forall name ensures name in Derived(s.db, u) <==> Grants(s.db, u, name) {
      DerivedIsGranted(s.db, u, name);
    }
  }

  /** After any run of all processes in which no role is deleted and roles and users are replaced on process p alone:
      a request or handshake on p is granted exactly the permissions its user has through roles in the database at that
      moment, whether they come from its memory, from Redis or from the database. */
  lemma GrantedIsCurrent(db: Db, steps: seq<Step>, p: nat, u: Uuid, sessionId: Option<Uuid>)
    requires ChangesOnlyOn(p, steps)
    ensures GrantsExactly(Run(Start(db), steps), p, u, sessionId)
  {
    RunKeeps(Start(db), steps);
    RunKeepsUpToDate(Start(db), steps, p, NONE);
    UpToDateGrantsExactly(Run(Start(db), steps), p, u, sessionId, NONE);
  }

  // ------------------------------------------- after a change elsewhere, or a deletion

  lemma GrantsAre(db: Db, u: Uuid, granted: set<string>)
    ensures (forall name :: name in granted <==> Grants(db, u, name)) <==> granted == Derived(db, u)
  {
    forall name ensures name in Derived(db, u) <==> Grants(db, u, name) {
      DerivedIsGranted(db, u, name);
    }
  }

  /** What a request is granted when Redis is up to date and memory was before the database changed. */
  lemma GrantedFromMemory(db: Db, db': Db, c: Caches, u: Uuid, sessionId: Option<Uuid>, now: nat)
    requires Fresh(db, c.memory, now, 0) && Fresh(db', c.redis.contexts, now, 0)
    ensures var granted := Authenticated(db', c, u, sessionId, now, now).0;
            var inMemory := LiveIn(c.memory, Key(u, sessionId), now);
            granted.Ok? ==> granted.value == Derived(if inMemory then db else db', u)
  {
  }

  lemma MemoryElsewhere(s: State, step: Step, p: nat)
    requires Replaces(step) && step.process != p
    ensures Apply(s, step).now == s.now && MemoryOf(Apply(s, step), p) == MemoryOf(s, p)
  {
  }

  /** Right after roles or permissions are replaced on another process, in any run as for GrantedIsCurrent: a request
      that p accepts is granted what the database grants exactly when p did not have its context in memory, or the
      replacement leaves the user what it had. */
  lemma CurrentAfterReplacedElsewhereIff(db: Db, steps: seq<Step>, step: Step, p: nat, u: Uuid, sessionId: Option<Uuid>)
    requires ChangesOnlyOn(p, steps) && Replaces(step) && step.process != p
    ensures var s := Run(Start(db), steps);
            var s' := Apply(s, step);
            var granted := Answer(s', p, u, sessionId);
            granted.Ok? ==>
              ((forall name :: name in granted.value <==> Grants(s'.db, u, name)) <==>
               || !LiveIn(MemoryOf(s, p), Key(u, sessionId), s.now)
               || Derived(s'.db, u) == Derived(s.db, u))
  {
    RunKeeps(Start(db), steps);
    RunKeepsUpToDate(Start(db), steps, p, NONE);
    var s := Run(Start(db), steps);
    var s' := Apply(s, step);
    StepKeepsRedisUpToDate(s, step, 0);
    MemoryElsewhere(s, step, p);
    GrantedFromMemory(s.db, s'.db, View(s', p), u, sessionId, s.now);
    var granted := Answer(s', p, u, sessionId);
    if granted.Ok? {
      GrantsAre(s'.db, u, granted.value);
    }
  }

  /** Whatever was replaced on whichever process until time t, with no role deleted: every process grants what is in the
      database again from t + 300 s on. */
  lemma GrantedAfterReplacement(db: Db, before: seq<Step>, after: seq<Step>, p: nat, u: Uuid, sessionId: Option<Uuid>)
    requires DeletesNoRole(before) && ChangesOnlyOn(p, after)
    ensures var s := Run(Start(db), before);
            var s' := Run(s, after);
            s'.now >= s.now + TTL_MS ==> GrantsExactly(s', p, u, sessionId)
  {
    var s := Run(Start(db), before);
    RunKeeps(Start(db), before);
    RunKeepsRedisUpToDate(Start(db), before);
    var l := Limits(s.now + TTL_MS, 0);
    RunKeeps(s, after);
    RunKeepsUpToDate(s, after, p, l);
    if Run(s, after).now >= s.now + TTL_MS {
      UpToDateGrantsExactly(Run(s, after), p, u, sessionId, l);
    }
  }

  /** Whatever ran until time t, deletions of roles included: every process grants what is in the database again from
      one millisecond short of t + 600 s on. A context outdated by a deletion stays in Redis for 300 s, and a process
      that takes it over in the last of them keeps it for another 300 s. */
  lemma GrantedAfterDeletion(db: Db, before: seq<Step>, after: seq<Step>, p: nat, u: Uuid, sessionId: Option<Uuid>)
    requires ChangesOnlyOn(p, after)
    ensures var s := Run(Start(db), before);
            var s' := Run(s, after);
            s'.now >= s.now + 2 * TTL_MS - 1 ==> GrantsExactly(s', p, u, sessionId)
  {
    var s := Run(Start(db), before);
    RunKeeps(Start(db), before);
    var l := Limits(s.now + 2 * TTL_MS - 1, s.now + TTL_MS);
    RunKeeps(s, after);
    RunKeepsUpToDate(s, after, p, l);
    if Run(s, after).now >= s.now + 2 * TTL_MS - 1 {
      UpToDateGrantsExactly(Run(s, after), p, u, sessionId, l);
    }
  }

  // ----------------------------------------------------- deleting a role is different

  ghost predicate RoleGrants(db: Db, role: Uuid, name: string) {
    exists p :: Link(role, p) in db.rolePermissions && Named(p, name) in db.permissions
  }

  /** u does not hold the role, or has everything it grants through other roles as well. */
  ghost predicate HoldsNothingOnlyThrough(db: Db, u: Uuid, role: Uuid) {
    Link(u, role) in db.userRoles ==>
      forall name :: RoleGrants(db, role, name) ==>
        exists r :: r != role && Link(u, r) in db.userRoles && RoleGrants(db, r, name)
  }

  lemma GrantsByRole(db: Db, u: Uuid, name: string)
    ensures Grants(db, u, name) <==> exists r :: Link(u, r) in db.userRoles && RoleGrants(db, r, name)
  {
    if Grants(db, u, name) {
      var r, p :| Link(u, r) in db.userRoles && Link(r, p) in db.rolePermissions && Named(p, name) in db.permissions;
      assert RoleGrants(db, r, name);
    }
  }

  lemma GrantedWithout(db: Db, role: Uuid, u: Uuid, name: string)
    ensures Grants(RoleDeleted(db, role), u, name) <==>
            exists r :: r != role && Link(u, r) in db.userRoles && RoleGrants(db, r, name)
  {
    var db' := RoleDeleted(db, role);
    GrantsByRole(db', u, name);
    forall r ensures Link(u, r) in db'.userRoles && RoleGrants(db', r, name) <==>
                     r != role && Link(u, r) in db.userRoles && RoleGrants(db, r, name)
    {
      if r != role && RoleGrants(db, r, name) {
        var p :| Link(r, p) in db.rolePermissions && Named(p, name) in db.permissions;
        assert Link(r, p) in db'.rolePermissions;
      }
    }
  }

  ghost predicate Through(db: Db, u: Uuid, r: Uuid, name: string) {
    Link(u, r) in db.userRoles && RoleGrants(db, r, name)
  }

  lemma DerivedThrough(db: Db, role: Uuid, u: Uuid, name: string)
    ensures name in Derived(db, u) <==> exists r :: Through(db, u, r, name)
    ensures name in Derived(RoleDeleted(db, role), u) <==> exists r :: r != role && Through(db, u, r, name)
  {
    DerivedIsGranted(db, u, name);
    DerivedIsGranted(RoleDeleted(db, role), u, name);
    GrantsByRole(db, u, name);
    GrantedWithout(db, role, u, name);
    assert forall r :: Through(db, u, r, name) <==> Link(u, r) in db.userRoles && RoleGrants(db, r, name);
  }

  lemma KeptThroughOthers(db: Db, role: Uuid, u: Uuid, name: string)
    requires HoldsNothingOnlyThrough(db, u, role)
    ensures name in Derived(RoleDeleted(db, role), u) <==> name in Derived(db, u)
  {
    DerivedThrough(db, role, u, name);
    if r :| Through(db, u, r, name) {
      if r == role {
        var other :| other != role && Link(u, other) in db.userRoles && RoleGrants(db, other, name);
        assert Through(db, u, other, name);
      }
    }
  }

  /** Deleting a role takes nothing from a user exactly when the user does not hold it or has all it grants through
      other roles. */
  lemma DeletionTakesNothingIff(db: Db, role: Uuid, u: Uuid)
    ensures Derived(RoleDeleted(db, role), u) == Derived(db, u) <==> HoldsNothingOnlyThrough(db, u, role)
  {
    if HoldsNothingOnlyThrough(db, u, role) {
      forall name ensures name in Derived(RoleDeleted(db, role), u) <==> name in Derived(db, u) {
        KeptThroughOthers(db, role, u, name);
      }
    } else {
      var name :| RoleGrants(db, role, name) &&
                  !exists r :: r != role && Link(u, r) in db.userRoles && RoleGrants(db, r, name);
      DerivedThrough(db, role, u, name);
      assert Through(db, u, role, name);
    }
  }

  /** What a request is granted, with another database, from caches that are up to date with this one. */
  lemma GrantedFromCache(s: State, db': Db, p: nat, u: Uuid, sessionId: Option<Uuid>)
    requires CachesKept(s) && UpToDateOn(s, p, NONE)
    ensures var granted := Answer(s.(db := db'), p, u, sessionId);
            var cached := Lookup(MemoryOf(s, p), s.redis, true, Key(u, sessionId), s.now).0.Some?;
            granted.Ok? ==> granted.value == Derived(if cached then s.db else db', u)
  {
    LookupFresh(s.db, View(s, p), Key(u, sessionId), s.now, NONE);
  }

  /** Right after a role is deleted, in any run as for GrantedIsCurrent: a request that is accepted is granted what the
      database grants exactly when its context was not cached, or the user did not hold the role, or has all it grants
      through other roles. */
  lemma CurrentAfterRoleDeletedIff(db: Db, steps: seq<Step>, role: Uuid, p: nat, u: Uuid, sessionId: Option<Uuid>)
    requires ChangesOnlyOn(p, steps)
    ensures var s := Run(Start(db), steps);
            var s' := s.(db := RoleDeleted(s.db, role));
            var granted := Answer(s', p, u, sessionId);
            granted.Ok? ==>
              ((forall name :: name in granted.value <==> Grants(s'.db, u, name)) <==>
               || Lookup(MemoryOf(s, p), s.redis, true, Key(u, sessionId), s.now).0.None?
               || HoldsNothingOnlyThrough(s.db, u, role))
  {
    RunKeeps(Start(db), steps);
    RunKeepsUpToDate(Start(db), steps, p, NONE);
    var s := Run(Start(db), steps);
    GrantedFromCache(s, RoleDeleted(s.db, role), p, u, sessionId);
    DeletionTakesNothingIff(s.db, role, u);
    var granted := Answer(s.(db := RoleDeleted(s.db, role)), p, u, sessionId);
    if granted.Ok? {
      GrantsAre(RoleDeleted(s.db, role), u, granted.value);
    }
  }

  /** One manager, whose role permits reading orders. */
  const MANAGED :=
    Db(map[1 := true], map[], [Named(2, "manager")], [Named(3, "order:read")], [Link(1, 2)], [Link(2, 3)])

  lemma ManagerReadsOrders()
    ensures "order:read" in Derived(MANAGED, 1) && DeleteRoleOutcome(MANAGED, 2) == Ok(RoleDeleted(MANAGED, 2))
    ensures !Grants(RoleDeleted(MANAGED, 2), 1, "order:read")
  {
    assert Link(1, 2) in MANAGED.userRoles && Link(2, 3) in MANAGED.rolePermissions;
    assert Named(3, "order:read") in MANAGED.permissions;
    assert Grants(MANAGED, 1, "order:read");
    DerivedIsGranted(MANAGED, 1, "order:read");
    assert MANAGED.roles[0].id == 2;
  }

  const MANAGER := Key(1, None)

  /** A context that is live in Redis and not in memory is taken over by a request, and served for 300 s. */
  lemma TakenOver(s: State, p: nat, c: Context)
    requires !LiveIn(MemoryOf(s, p), MANAGER, s.now) && LiveIn(s.redis.contexts, MANAGER, s.now)
    requires s.redis.contexts[MANAGER].context == c && KeyOf(c) == MANAGER && c.sessionExpiresAt.None?
    ensures var s' := Apply(Apply(s, Request(p, 1, None, 0)), Step.Tick(TTL_MS - 1));
            s'.db == s.db && s'.now == s.now + TTL_MS - 1 && Answer(s', p, 1, None) == Ok(c.permissions)
  {
    var s1 := Apply(s, Request(p, 1, None, 0));
    assert MemoryOf(s1, p)[MANAGER] == Entry(c, s.now + TTL_MS);
  }

  lemma LoadedOnce(db: Db, lag: nat)
    requires db.users == map[1 := true]
    ensures var s, c := Apply(Start(db), Request(0, 1, None, lag)), Context(1, None, Derived(db, 1), None, 0);
            && s.now == lag && s.db == db
            && s.memories == map[0 := map[MANAGER := Entry(c, TTL_MS)]]
            && s.redis.contexts == map[MANAGER := Entry(c, lag + TTL_MS)]
  {
  }

  /** Process 0 loads the context, the role is deleted, and in the context's last millisecond in Redis process p,
      started anew or not, gets a request; then 299,999 ms pass. */
  function DeletedAndTakenOver(db: Db, role: Uuid, lag: nat, p: nat, restart: bool): State {
    var s := Apply(Apply(Apply(Start(db), Request(0, 1, None, lag)), DeleteRole(role)), Step.Tick(TTL_MS - 1));
    var s1 := if restart then Apply(s, Restart(p)) else s;
    Apply(Apply(s1, Request(p, 1, None, 0)), Step.Tick(TTL_MS - 1))
  }

  lemma DeletedIsTakenOver(db: Db, role: Uuid, lag: nat, p: nat, restart: bool)
    requires db.users == map[1 := true] && DeleteRoleOutcome(db, role) == Ok(RoleDeleted(db, role))
    requires p != 0 || restart || lag > 0
    ensures var s := DeletedAndTakenOver(db, role, lag, p, restart);
            && s.db == RoleDeleted(db, role) && s.now == lag + 2 * TTL_MS - 2
            && Answer(s, p, 1, None) == Ok(Derived(db, 1))
  {
    LoadedOnce(db, lag);
    var s := Apply(Apply(Apply(Start(db), Request(0, 1, None, lag)), DeleteRole(role)), Step.Tick(TTL_MS - 1));
    TakenOver(if restart then Apply(s, Restart(p)) else s, p, Context(1, None, Derived(db, 1), None, 0));
  }

  /** The bound is exact: a role deleted at time lag still grants its permission one millisecond before the bound, on
      another process than the one that loaded the context, on one that restarted, and even on the same one when Redis
      was written a millisecond or more after memory was stamped. */
  lemma RoleDeletedServesStale(lag: nat, p: nat, restart: bool)
    requires p != 0 || restart || lag > 0
    ensures var s := DeletedAndTakenOver(MANAGED, 2, lag, p, restart);
            var granted := Answer(s, p, 1, None);
            && s.now == lag + 2 * TTL_MS - 2
            && granted.Ok? && "order:read" in granted.value && !Grants(s.db, 1, "order:read")
  {
    ManagerReadsOrders();
    DeletedIsTakenOver(MANAGED, 2, lag, p, restart);
  }

  lemma ReplacedIsServed(db: Db)
    requires db.users == map[1 := true]
    ensures var s := Apply(Apply(Start(db), Request(1, 1, None, 0)), ReplaceUser(0, 1, []));
            var s' := Apply(s, Step.Tick(TTL_MS - 1));
            && s'.now == s.now + TTL_MS - 1 && UserRolesOutcome(db, 1, []) == Ok(s'.db)
            && Answer(s', 1, 1, None) == Ok(Derived(db, 1))
  {
    var s := Apply(Start(db), Request(1, 1, None, 0));
    assert s.memories[1][MANAGER].expiresAt == TTL_MS;
    NothingFound(db.roles);
  }

  lemma {:induction false} NothingFound(rows: seq<Named>)
    ensures Matched(rows, []) == []
  {
    if rows != [] {
      NothingFound(rows[..|rows| - 1]);
    }
  }

  /** The bound after a replacement is exact as well: a user whose roles are taken away on one process has them on
      another until its copy runs out. */
  lemma ReplacedElsewhereServesStale()
    ensures var s := Apply(Apply(Start(MANAGED), Request(1, 1, None, 0)), ReplaceUser(0, 1, []));
            var s' := Apply(s, Step.Tick(TTL_MS - 1));
            var granted := Answer(s', 1, 1, None);
            && s'.now == s.now + TTL_MS - 1
            && granted.Ok? && "order:read" in granted.value && !Grants(s'.db, 1, "order:read")
  {
    ManagerReadsOrders();
    ReplacedIsServed(MANAGED);
    UserLinks(MANAGED, 1, []);
  }

  // ------------------------------------------------------------- revoked sessions

  predicate IsRevoked(db: Db, id: Uuid) {
    id in db.sessions && db.sessions[id].revoked
  }

  /** Loading without a look at the session finds no cached context, and so stores one. */
  predicate Stores(s: State, step: Step, u: Uuid, id: Uuid) {
    && (step.Handshake? || step.Profile?) && step.u == u && step.sessionId == Some(id)
    && (if step.Handshake? then TokenLives(s, u, id) && Active(s.db, u) else u in s.db.users)
    && Lookup(MemoryOf(s, step.process), s.redis, true, Key(u, Some(id)), s.now).0.None?
  }

  /** And does so while the session has a token that verifies. */
  predicate Reopens(s: State, step: Step, u: Uuid, id: Uuid) {
    Stores(s, step, u, id) && TokenLives(Apply(s, step), u, id)
  }

  /** No step of the run, in the state it meets, opens the session again. */
  ghost predicate NeverReopened(s: State, steps: seq<Step>, u: Uuid, id: Uuid) {
    forall k :: 0 <= k < |steps| ==> !Reopens(Run(s, steps[..k]), steps[k], u, id)
  }

  /** The session is revoked and, while its token verifies, in neither cache of process q. */
  ghost predicate ShutOut(s: State, q: nat, u: Uuid, id: Uuid) {
    var key := Key(u, Some(id));
    && IsRevoked(s.db, id)
    && (TokenLives(s, u, id) ==> !LiveIn(MemoryOf(s, q), key, s.now) && !LiveIn(s.redis.contexts, key, s.now))
  }

  lemma ShutOutIsRefused(s: State, q: nat, u: Uuid, id: Uuid)
    requires ShutOut(s, q, u, id)
    ensures Answer(s, q, u, Some(id)).Err?
  {
  }

  lemma LoadKeepsShutOut(s: State, p: nat, v: Uuid, sessionId: Option<Uuid>, refusal: Option<Error>,
                         expiry: Option<nat>, lag: nat, q: nat, u: Uuid, id: Uuid)
    requires ShutOut(s, q, u, id)
    requires v == u && sessionId == Some(id) ==>
               || refusal.Some?
               || Lookup(MemoryOf(s, p), s.redis, true, Key(u, Some(id)), s.now).0.Some?
               || !TokenLives(Load(s, p, v, sessionId, refusal, expiry, lag), u, id)
    ensures ShutOut(Load(s, p, v, sessionId, refusal, expiry, lag), q, u, id)
  {
  }

  /** A revoked session stays so and gets no new token. */
  lemma TokenStays(s: State, step: Step, id: Uuid)
    requires IsRevoked(s.db, id)
    ensures var s' := Apply(s, step);
            && IsRevoked(s'.db, id) && s.now <= s'.now
            && (id in s'.tokens ==> id in s.tokens && s'.tokens[id] == s.tokens[id])
  {
    match step {
      case Login(_, _, _) =>
      case Refresh(_) =>
      case _ => assert Apply(s, step).tokens == s.tokens;
    }
  }

  lemma StepKeepsShutOut(s: State, step: Step, q: nat, u: Uuid, id: Uuid)
    requires ShutOut(s, q, u, id) && !Reopens(s, step, u, id)
    ensures ShutOut(Apply(s, step), q, u, id)
  {
    TokenStays(s, step, id);
    match step {
      case Request(p, v, sessionId, lag) =>
        if Verifies(s, v, sessionId) {
          LoadKeepsShutOut(s, p, v, sessionId, Refusal(s.db, v, sessionId, s.now), SessionExpiry(s.db, sessionId), lag,
                           q, u, id);
        }
      case Handshake(p, v, sessionId, lag) =>
        if Verifies(s, v, sessionId) {
          LoadKeepsShutOut(s, p, v, sessionId, SocketRefusal(s.db, v), None, lag, q, u, id);
        }
      case Profile(p, v, sessionId, lag) =>
        LoadKeepsShutOut(s, p, v, sessionId, ProfileRefusal(s.db, v), None, lag, q, u, id);
      case _ => OtherStepOnlyDrops(s, step, q);
    }
  }

  lemma {:induction false} RunSnoc(s: State, steps: seq<Step>, k: nat)
    requires k < |steps|
    ensures Run(s, steps[..k + 1]) == Apply(Run(s, steps[..k]), steps[k])
    decreases k
  {
    if k == 0 {
      assert steps[..1][1..] == [];
    } else {
      RunSnoc(Apply(s, steps[0]), steps[1..], k - 1);
      assert steps[..k + 1][1..] == steps[1..][..k] && steps[..k][1..] == steps[1..][..k - 1];
    }
  }

  lemma {:induction false} RunKeepsShutOut(s: State, steps: seq<Step>, k: nat, q: nat, u: Uuid, id: Uuid)
    requires ShutOut(s, q, u, id) && k <= |steps| && NeverReopened(s, steps, u, id)
    ensures ShutOut(Run(s, steps[..k]), q, u, id)
    decreases k
  {
    if k > 0 {
      RunKeepsShutOut(s, steps, k - 1, q, u, id);
      RunSnoc(s, steps, k - 1);
      StepKeepsShutOut(Run(s, steps[..k - 1]), steps[k - 1], q, u, id);
    }
  }

  /** The context that a handshake or a profile read stores is accepted on every process, revoked session or not. */
  lemma ReopenedIsServed(s: State, step: Step, q: nat, u: Uuid, id: Uuid)
    requires Reopens(s, step, u, id)
    ensures Answer(Apply(s, step), q, u, Some(id)).Ok?
  {
    var s' := Apply(s, step);
    var context := Context(u, Some(id), Derived(s.db, u), None, s.now);
    assert s'.redis.contexts[Key(u, Some(id))] == Entry(context, s'.now + TTL_MS);
  }

  /** Session id of u is logged out, or revoked with all others of u, on process p. */
  function Out(s: State, p: nat, u: Uuid, id: Uuid, all: bool): State {
    Apply(s, if all then RevokeAll(p, u) else Logout(p, u, id))
  }

  lemma OutOfRedis(s: State, p: nat, u: Uuid, id: Uuid, all: bool)
    requires Inv(s) && id in s.db.sessions && s.db.sessions[id].userId == u
    ensures var s' := Out(s, p, u, id, all);
            && IsRevoked(s'.db, id) && !LiveIn(s'.redis.contexts, Key(u, Some(id)), s'.now)
            && Key(u, Some(id)) !in MemoryOf(s', p)
  {
    if all {
      ForgetKeeps(View(s, p), u, s.now);
    }
  }

  lemma KeptElsewhere(s: State, p: nat, u: Uuid, id: Uuid, all: bool, q: nat)
    requires q != p && LiveIn(MemoryOf(s, q), Key(u, Some(id)), s.now) && TokenLives(s, u, id)
    ensures Answer(Out(s, p, u, id, all), q, u, Some(id)).Ok?
  {
  }

  /** A session logged out, or revoked with all others of its user, on process p, in whatever run: in every state of
      every later run each request in it is refused on process q exactly when q is p, or q did not have its context in
      memory, or its token no longer verified; and no handshake or profile read has since stored a context for it while
      it did. */
  lemma LoggedOutRefusedIff(db: Db, before: seq<Step>, p: nat, u: Uuid, id: Uuid, all: bool, after: seq<Step>, q: nat)
    requires var s := Run(Start(db), before); id in s.db.sessions && s.db.sessions[id].userId == u
    ensures var s := Run(Start(db), before);
            var out := Out(s, p, u, id, all);
            (forall k :: 0 <= k <= |after| ==> Answer(Run(out, after[..k]), q, u, Some(id)).Err?) <==>
            && (q == p || !LiveIn(MemoryOf(s, q), Key(u, Some(id)), s.now) || !TokenLives(s, u, id))
            && NeverReopened(out, after, u, id)
  {
    var s := Run(Start(db), before);
    var out := Out(s, p, u, id, all);
    RunKeeps(Start(db), before);
    OutOfRedis(s, p, u, id, all);
    if q != p && LiveIn(MemoryOf(s, q), Key(u, Some(id)), s.now) && TokenLives(s, u, id) {
      KeptElsewhere(s, p, u, id, all, q);
      assert after[..0] == [] && Run(out, after[..0]) == out;
    } else if !NeverReopened(out, after, u, id) {
      var k :| 0 <= k < |after| && Reopens(Run(out, after[..k]), after[k], u, id);
      RunSnoc(out, after, k);
      ReopenedIsServed(Run(out, after[..k]), after[k], q, u, id);
      assert Run(out, after[..k + 1]) == Apply(Run(out, after[..k]), after[k]);
    } else {
      assert ShutOut(out, q, u, id);
      forall k | 0 <= k <= |after| ensures Answer(Run(out, after[..k]), q, u, Some(id)).Err? {
        RunKeepsShutOut(out, after, k, q, u, id);
        ShutOutIsRefused(Run(out, after[..k]), q, u, id);
      }
    }
  }

  /** One user without roles. */
  const SHOPPER := Db(map[1 := true], map[], [], [], [], [])

  /** Logged in at time 0. */
  function LoggedIn(): State {
    Apply(Start(SHOPPER), Login(1, 7, 2 * TTL_MS))
  }

  /** A logged-out session is refused, until a socket is opened with its token; then it is served, on every process, to
      the last millisecond of the token. */
  lemma HandshakeReopensSession()
    ensures var out := Apply(LoggedIn(), Logout(0, 1, 7));
            var s := Apply(out, Handshake(0, 1, Some(7), 0));
            var s' := Apply(s, Step.Tick(TTL_MS - 1));
            && Answer(out, 0, 1, Some(7)).Err?
            && s.db.sessions[7].revoked
            && (forall q :: Answer(s, q, 1, Some(7)).Ok? && Answer(s', q, 1, Some(7)).Ok?)
  {
    var s := Apply(Apply(LoggedIn(), Logout(0, 1, 7)), Handshake(0, 1, Some(7), 0));
    assert s.memories[0][Key(1, Some(7))].expiresAt == TTL_MS;
    assert s.redis.contexts[Key(1, Some(7))].expiresAt == TTL_MS;
  }

  /** Another process, which has the context in memory, serves the session as long. */
  lemma LoggedOutElsewhereServed()
    ensures var s := Apply(Apply(LoggedIn(), Request(1, 1, Some(7), 0)), Logout(0, 1, 7));
            var s' := Apply(s, Step.Tick(TTL_MS - 1));
            s'.db.sessions[7].revoked && Answer(s', 0, 1, Some(7)).Err? && Answer(s', 1, 1, Some(7)).Ok?
  {
    var s := Apply(LoggedIn(), Request(1, 1, Some(7), 0));
    assert s.memories[1][Key(1, Some(7))].expiresAt == TTL_MS;
  }

  /** A revoked session whose newest token verifies up to second exp at most. */
  ghost predicate Ending(s: State, id: Uuid, exp: nat) {
    IsRevoked(s.db, id) && (id in s.tokens ==> s.tokens[id].exp <= exp)
  }

  lemma {:induction false} RunKeepsEnding(s: State, steps: seq<Step>, id: Uuid, exp: nat)
    requires Ending(s, id, exp)
    ensures Ending(Run(s, steps), id, exp)
    decreases |steps|
  {
    if steps != [] {
      TokenStays(s, steps[0], id);
      RunKeepsEnding(Apply(s, steps[0]), steps[1..], id, exp);
    }
  }

  /** The step revokes session id of u: a logout, a revocation of all, or a password reset. */
  predicate Revokes(step: Step, u: Uuid, id: Uuid) {
    || (step.Logout? && step.id == id)
    || ((step.RevokeAll? || step.ResetPassword?) && step.u == u)
  }

  /** The bound there is for every way to revoke a session, whatever is cached where and whoever opens sockets: a
      revoked session gets no new access token and the last one lives five minutes, so that from 300 s after the
      revocation on every process refuses every request and every handshake with it. */
  lemma RevocationBound(db: Db, before: seq<Step>, step: Step, u: Uuid, id: Uuid, after: seq<Step>, p: nat)
    requires var s := Run(Start(db), before); id in s.db.sessions && s.db.sessions[id].userId == u
    requires Revokes(step, u, id)
    ensures var s := Run(Start(db), before);
            var s' := Run(Apply(s, step), after);
            s'.now >= s.now + ACCESS_SECONDS * 1000 ==>
              Answer(s', p, u, Some(id)).Err? && SocketAnswer(s', p, u, Some(id)).Err?
  {
    var s := Run(Start(db), before);
    RunKeeps(Start(db), before);
    RunKeepsEnding(Apply(s, step), after, id, s.now / 1000 + ACCESS_SECONDS);
  }

  /** What a cached lookup on process q answers. */
  function CachedOn(s: State, q: nat, key: Key): Option<Context> {
    Lookup(MemoryOf(s, q), s.redis, true, key, s.now).0
  }

  lemma SameAnswer(s: State, s': State, q: nat, v: Uuid, sessionId: Option<Uuid>)
    requires s'.now == s.now && s'.tokens == s.tokens && Derived(s'.db, v) == Derived(s.db, v)
    requires CachedOn(s', q, Key(v, sessionId)) == CachedOn(s, q, Key(v, sessionId))
    requires Refusal(s'.db, v, sessionId, s.now) == Refusal(s.db, v, sessionId, s.now)
    ensures Answer(s', q, v, sessionId) == Answer(s, q, v, sessionId)
  {
  }

  lemma DeletingSpares(r: Redis, u: Uuid, now: nat, key: Key)
    requires KeptRedis(r, now) && key.userId != u
    ensures RedisGet(DeleteListed(r, u, AuthCache.Members(r, u, now)), key, now) == RedisGet(r, key, now)
  {
    assert key !in AuthCache.Members(r, u, now);
  }

  /** A lookup sees of memory and Redis what is there under its key. */
  lemma SameLookup(m: Memory, r: Redis, m': Memory, r': Redis, key: Key, now: nat)
    requires RedisGet(r', key, now) == RedisGet(r, key, now)
    requires key in m' <==> key in m
    requires key in m ==> m'[key] == m[key]
    ensures Lookup(m', r', true, key, now).0 == Lookup(m, r, true, key, now).0
  {
  }

  lemma RevokeAllSpares(s: State, p: nat, u: Uuid, q: nat, key: Key)
    requires KeptRedis(s.redis, s.now) && key.userId != u
    ensures CachedOn(Apply(s, RevokeAll(p, u)), q, key) == CachedOn(s, q, key)
  {
    var s' := Apply(s, RevokeAll(p, u));
    DeletingSpares(s.redis, u, s.now, key);
    SameLookup(MemoryOf(s, q), s.redis, MemoryOf(s', q), s'.redis, key, s.now);
  }

  lemma LogoutSpares(s: State, p: nat, u: Uuid, id: Uuid, q: nat, key: Key)
    requires key.userId != u
    ensures CachedOn(Apply(s, Logout(p, u, id)), q, key) == CachedOn(s, q, key)
  {
  }

  lemma OneRevokedSpares(db: Db, id: Uuid, v: Uuid, sessionId: Option<Uuid>, now: nat)
    requires id in db.sessions ==> db.sessions[id].userId != v
    ensures Refusal(SessionRevoked(db, id), v, sessionId, now) == Refusal(db, v, sessionId, now)
  {
  }

  lemma AllRevokedSpares(db: Db, u: Uuid, v: Uuid, sessionId: Option<Uuid>, now: nat)
    requires u != v
    ensures Refusal(SessionsRevoked(db, u), v, sessionId, now) == Refusal(db, v, sessionId, now)
  {
  }

  lemma LogoutSparesAnswer(s: State, p: nat, u: Uuid, id: Uuid, q: nat, v: Uuid, sessionId: Option<Uuid>)
    requires u != v && (id in s.db.sessions ==> s.db.sessions[id].userId == u)
    ensures Answer(Apply(s, Logout(p, u, id)), q, v, sessionId) == Answer(s, q, v, sessionId)
  {
    SessionsGrantNothing(s.db, SessionRevoked(s.db, id).sessions, v);
    LogoutSpares(s, p, u, id, q, Key(v, sessionId));
    OneRevokedSpares(s.db, id, v, sessionId, s.now);
    SameAnswer(s, Apply(s, Logout(p, u, id)), q, v, sessionId);
  }

  lemma RevokeAllSparesAnswer(s: State, p: nat, u: Uuid, q: nat, v: Uuid, sessionId: Option<Uuid>)
    requires u != v && KeptRedis(s.redis, s.now)
    ensures Answer(Apply(s, RevokeAll(p, u)), q, v, sessionId) == Answer(s, q, v, sessionId)
  {
    SessionsGrantNothing(s.db, SessionsRevoked(s.db, u).sessions, v);
    RevokeAllSpares(s, p, u, q, Key(v, sessionId));
    AllRevokedSpares(s.db, u, v, sessionId, s.now);
    SameAnswer(s, Apply(s, RevokeAll(p, u)), q, v, sessionId);
  }

  lemma ResetSparesAnswer(s: State, u: Uuid, q: nat, v: Uuid, sessionId: Option<Uuid>)
    requires u != v
    ensures Answer(Apply(s, ResetPassword(u)), q, v, sessionId) == Answer(s, q, v, sessionId)
  {
    SessionsGrantNothing(s.db, SessionsRevoked(s.db, u).sessions, v);
    AllRevokedSpares(s.db, u, v, sessionId, s.now);
    SameAnswer(s, Apply(s, ResetPassword(u)), q, v, sessionId);
  }

  /** Logging out, revoking and resetting concern their user alone: in every run, requests of everybody else are
      answered on every process as they were. */
  lemma RevocationSparesOthers(db: Db, before: seq<Step>, step: Step, q: nat, v: Uuid, sessionId: Option<Uuid>)
    requires step.Logout? || step.RevokeAll? || step.ResetPassword?
    requires step.u != v
    requires step.Logout? ==>
               var sessions := Run(Start(db), before).db.sessions;
               step.id in sessions ==> sessions[step.id].userId == step.u
    ensures var s := Run(Start(db), before); Answer(Apply(s, step), q, v, sessionId) == Answer(s, q, v, sessionId)
  {
    var s := Run(Start(db), before);
    RunKeeps(Start(db), before);
    match step {
      case Logout(p, u, id) => LogoutSparesAnswer(s, p, u, id, q, v, sessionId);
      case RevokeAll(p, u) => RevokeAllSparesAnswer(s, p, u, q, v, sessionId);
      case ResetPassword(u) => ResetSparesAnswer(s, u, q, v, sessionId);
    }
  }

  /** A password reset invalidates nothing: right afterwards a request in one of the sessions is accepted exactly when
      its token verifies and its context is cached. */
  lemma ResetServesIff(s: State, p: nat, u: Uuid, id: Uuid)
    requires id in s.db.sessions && s.db.sessions[id].userId == u
    ensures Answer(Apply(s, ResetPassword(u)), p, u, Some(id)).Ok? <==>
            && TokenLives(s, u, id)
            && Lookup(MemoryOf(s, p), s.redis, true, Key(u, Some(id)), s.now).0.Some?
  {
  }

  /** A request just before the reset keeps its session served to the last millisecond before the bound. */
  lemma ResetServesRevokedSession()
    ensures var s := Apply(Apply(LoggedIn(), Request(0, 1, Some(7), 0)), ResetPassword(1));
            var s' := Apply(s, Step.Tick(ACCESS_SECONDS * 1000 - 1));
            s'.db.sessions[7].revoked && Answer(s', 0, 1, Some(7)).Ok?
  {
    var s := Apply(LoggedIn(), Request(0, 1, Some(7), 0));
    assert s.memories[0][Key(1, Some(7))].expiresAt == TTL_MS;
  }
}
