/** The category table and the three operations that write it. Each call is one atomic step. */
module CategoryService {
  import opened Wrappers
  import opened CategoryForest

  datatype Status = DRAFT | ACTIVE | INACTIVE | ARCHIVED

  datatype Category = Category(
    id: Uuid,
    parentId: Option<Uuid>,
    createdById: Option<Uuid>,
    name: string,
    slug: string,
    status: Status,
    sortOrder: nat)

  type Table = map<Uuid, Category>

  datatype User = User(id: Uuid, permissions: set<string>)

  datatype CreateInput = CreateInput(
    name: string,
    slug: Option<string>,
    parentId: Option<Uuid>,
    status: Status,
    sortOrder: nat)

  /** None means the field was not sent; parentId Some(None) asks for a root. */
  datatype UpdateInput = UpdateInput(
    name: Option<string>,
    slug: Option<string>,
    parentId: Option<Option<Uuid>>,
    status: Option<Status>,
    sortOrder: Option<nat>)

  datatype Error =
    | IdTaken
    | SlugEmpty
    | SlugTaken
    | NotFound
    | ParentNotFound
    | SelfParent
    | Circular
    | HasProducts
    | AuthenticationRequired
    | Forbidden

  function ParentMap(t: Table): Parents {
    map x | x in t :: t[x].parentId
  }

  predicate Truthy(s: Option<string>) {
    s.Some? && s.value != ""
  }

  predicate SlugInUse(t: Table, slug: string) {
    exists x :: x in t && t[x].slug == slug
  }

  predicate SlugInUseByOther(t: Table, id: Uuid, slug: string) {
    exists x :: x in t && x != id && t[x].slug == slug
  }

  /** Super admin, then creator, then any one of the listed permissions. */
  function Denial(createdById: Option<Uuid>, user: Option<User>, permissions: set<string>): Option<Error> {
    if user.None? then Some(AuthenticationRequired)
    else if "system:manage" in user.value.permissions then None
    else if createdById == Some(user.value.id) then None
    else if permissions * user.value.permissions != {} then None
    else Some(Forbidden)
  }

  const UPDATE_PERMISSIONS := {"category:update", "product:update"}
  const DELETE_PERMISSIONS := {"category:delete", "product:delete"}

  // ------------------------------------------------------------ the operations

  function CreateOutcome(t: Table, id: Uuid, input: CreateInput, creatorId: Option<Uuid>, slugify: string -> string)
    : Result<Table, Error>
  {
    var slug := if Truthy(input.slug) then input.slug.value else slugify(input.name);
    if slug == "" then Err(SlugEmpty)
    else if SlugInUse(t, slug) then Err(SlugTaken)
    else if input.parentId.Some? && input.parentId.value !in t then Err(ParentNotFound)
    else if id in t then Err(IdTaken)
    else Ok(t[id := Category(id, input.parentId, creatorId, input.name, slug, input.status, input.sortOrder)])
  }

  /** The slug an update asks for, if it asks for one that differs from the stored one. */
  function CandidateSlug(row: Category, input: UpdateInput, slugify: string -> string): Option<string> {
    var candidate :=
      if Truthy(input.slug) then input.slug.value
      else if Truthy(input.name) && input.name.value != row.name then slugify(input.name.value)
      else row.slug;
    if candidate != row.slug then Some(candidate) else None
  }

  ghost function MoveRefusal(t: Table, id: Uuid, parentId: Option<Option<Uuid>>): Option<Error>
    requires id in t
  {
    if parentId.None? || parentId.value == t[id].parentId then None
    else if parentId.value == Some(id) then Some(SelfParent)
    else if parentId.value.None? then None
    else if parentId.value.value !in t then Some(ParentNotFound)
    else if Reaches(ParentMap(t), parentId.value.value, id) then Some(Circular)
    else None
  }

  function GetOr<T>(o: Option<T>, default: T): T {
    if o.Some? then o.value else default
  }

  function Updated(row: Category, input: UpdateInput, slug: string): Category {
    row.(name := GetOr(input.name, row.name),
         slug := slug,
         parentId := GetOr(input.parentId, row.parentId),
         status := GetOr(input.status, row.status),
         sortOrder := GetOr(input.sortOrder, row.sortOrder))
  }

  ghost function UpdateOutcome(t: Table, id: Uuid, input: UpdateInput, user: Option<User>, slugify: string -> string)
    : Result<Table, Error>
  {
    if id !in t then Err(NotFound)
    else
      var denial := Denial(t[id].createdById, user, UPDATE_PERMISSIONS);
      var candidate := CandidateSlug(t[id], input, slugify);
      var refusal := MoveRefusal(t, id, input.parentId);
      if denial.Some? then Err(denial.value)
      else if candidate.Some? && SlugInUseByOther(t, id, candidate.value) then Err(SlugTaken)
      else if refusal.Some? then Err(refusal.value)
      else Ok(t[id := Updated(t[id], input, GetOr(candidate, t[id].slug))])
  }

  function DeleteOutcome(t: Table, id: Uuid, user: Option<User>, products: nat): Result<Table, Error> {
    if id !in t then Err(NotFound)
    else
      var denial := Denial(t[id].createdById, user, DELETE_PERMISSIONS);
      if denial.Some? then Err(denial.value)
      else if products > 0 then Err(HasProducts)
      else Ok(map x | x in t && x != id ::
                if t[x].parentId == Some(id) then t[x].(parentId := t[id].parentId) else t[x])
  }

  /** Signed in, and: managing the system, or the creator, or with one of the two permissions. */
  lemma DenialIs(createdById: Option<Uuid>, user: Option<User>, a: string, b: string)
    ensures Denial(createdById, user, {a, b}) == Some(AuthenticationRequired) <==> user.None?
    ensures Denial(createdById, user, {a, b}) == Some(Forbidden) <==>
            && user.Some?
            && "system:manage" !in user.value.permissions
            && createdById != Some(user.value.id)
            && a !in user.value.permissions && b !in user.value.permissions
    ensures Denial(createdById, user, {a, b}) in {None, Some(AuthenticationRequired), Some(Forbidden)}
  {
    if user.Some? {
      var shared := {a, b} * user.value.permissions;
      assert a in shared <==> a in user.value.permissions;
      assert b in shared <==> b in user.value.permissions;
      assert forall p :: p in shared ==> p == a || p == b;
    }
  }

  /** What an update by somebody who may does: the first refusal that applies, or the row with what was sent. */
  ghost predicate UpdateDoes(t: Table, id: Uuid, input: UpdateInput, slugify: string -> string, r: Result<Table, Error>)
    requires id in t
  {
    var row := t[id];
    var slug :=
      if input.slug.Some? && input.slug.value != "" then input.slug.value
      else if input.name.Some? && input.name.value != "" && input.name.value != row.name
      then slugify(input.name.value)
      else row.slug;
    var taken := slug != row.slug && exists x :: x in t && x != id && t[x].slug == slug;
    var parent := if input.parentId.Some? then input.parentId.value else row.parentId;
    var moves := !taken && parent != row.parentId && parent.Some?;
    && (r == Err(SlugTaken) <==> taken)
    && (r == Err(SelfParent) <==> moves && parent.value == id)
    && (r == Err(ParentNotFound) <==> moves && parent.value != id && parent.value !in t)
    && (r == Err(Circular) <==>
        moves && parent.value != id && parent.value in t && Reaches(ParentMap(t), parent.value, id))
    && (r.Err? ==> r.error in {SlugTaken, SelfParent, ParentNotFound, Circular})
    && (r.Ok? ==> r.value == t[id := Category(
          row.id, parent, row.createdById,
          if input.name.Some? then input.name.value else row.name,
          slug,
          if input.status.Some? then input.status.value else row.status,
          if input.sortOrder.Some? then input.sortOrder.value else row.sortOrder)])
  }

  lemma UpdateIsDone(t: Table, id: Uuid, input: UpdateInput, user: Option<User>, slugify: string -> string)
    ensures var r := Outcome(t, Update(id, input, user), slugify);
            && (r == Err(NotFound) <==> id !in t)
            && (r == Err(AuthenticationRequired) <==> id in t && user.None?)
            && (r == Err(Forbidden) <==>
                && id in t && user.Some?
                && "system:manage" !in user.value.permissions
                && t[id].createdById != Some(user.value.id)
                && "category:update" !in user.value.permissions && "product:update" !in user.value.permissions)
            && (r !in {Err(NotFound), Err(AuthenticationRequired), Err(Forbidden)} ==>
                  UpdateDoes(t, id, input, slugify, r))
  {
    if id in t {
      DenialIs(t[id].createdById, user, "category:update", "product:update");
    }
  }

  datatype Op =
    | Create(id: Uuid, create: CreateInput, creatorId: Option<Uuid>)
    | Update(id: Uuid, update: UpdateInput, user: Option<User>)
    | Delete(id: Uuid, user: Option<User>, products: nat)

  ghost function Outcome(t: Table, op: Op, slugify: string -> string): Result<Table, Error> {
    match op
    case Create(id, input, creatorId) => CreateOutcome(t, id, input, creatorId, slugify)
    case Update(id, input, user) => UpdateOutcome(t, id, input, user, slugify)
    case Delete(id, user, products) => DeleteOutcome(t, id, user, products)
  }

  /** A refused operation leaves the table as it was. */
  ghost function After(t: Table, op: Op, slugify: string -> string): Table {
    var r := Outcome(t, op, slugify);
    if r.Ok? then r.value else t
  }

  ghost function Run(t: Table, ops: seq<Op>, slugify: string -> string): Table
    decreases |ops|
  {
    if ops == [] then t else Run(After(t, ops[0], slugify), ops[1..], slugify)
  }

  // ------------------------------------------------------------- the service

  class Service {
    var rows: Table
    const slugify: string -> string

    constructor (slugify: string -> string)
      ensures rows == map[] && this.slugify == slugify
    {
      rows := map[];
      this.slugify := slugify;
    }

    /** id is the primary key the database generates. */
    method CreateCategory(id: Uuid, input: CreateInput, creatorId: Option<Uuid>) returns (r: Result<Category, Error>)
      modifies this`rows
      ensures rows == After(old(rows), Create(id, input, creatorId), slugify)
      ensures r.Ok? <==> Outcome(old(rows), Create(id, input, creatorId), slugify).Ok?
      ensures r.Ok? ==> id in rows && r.value == rows[id]
      ensures r.Err? ==> Outcome(old(rows), Create(id, input, creatorId), slugify) == Err(r.error)
      // The new row has a slug nobody has and a parent that exists; no other row changes; a forest stays one.
      ensures r.Ok? ==> r.value.slug != "" && forall x :: x in old(rows) ==> old(rows)[x].slug != r.value.slug
      ensures r.Ok? && r.value.parentId.Some? ==> r.value.parentId.value in old(rows)
      ensures r.Ok? ==> id !in old(rows) && rows - {id} == old(rows)
      ensures old(Forest(rows)) ==> Forest(rows)
      // Each refusal with its reason, the first that applies, and the row that is stored.
      ensures var slug := if input.slug.Some? && input.slug.value != "" then input.slug.value else slugify(input.name);
              var taken := exists x :: x in old(rows) && old(rows)[x].slug == slug;
              var orphan := input.parentId.Some? && input.parentId.value !in old(rows);
              && (r == Err(SlugEmpty) <==> slug == "")
              && (r == Err(SlugTaken) <==> slug != "" && taken)
              && (r == Err(ParentNotFound) <==> slug != "" && !taken && orphan)
              && (r == Err(IdTaken) <==> slug != "" && !taken && !orphan && id in old(rows))
              && (r.Err? ==> r.error in {SlugEmpty, SlugTaken, ParentNotFound, IdTaken} && rows == old(rows))
              && (r.Ok? ==>
                    r.value == Category(id, input.parentId, creatorId, input.name, slug, input.status, input.sortOrder))
    {
      if Forest(rows) {
        OpKeepsForest(rows, Create(id, input, creatorId), slugify);
      }
      var slug := if Truthy(input.slug) then input.slug.value else slugify(input.name);
      if slug == "" {
        return Err(SlugEmpty);
      }
      if SlugInUse(rows, slug) {
        return Err(SlugTaken);
      }
      if input.parentId.Some? {
        if input.parentId.value !in rows {
          return Err(ParentNotFound);
        }
      }
      if id in rows {
        return Err(IdTaken);
      }
      var row := Category(id, input.parentId, creatorId, input.name, slug, input.status, input.sortOrder);
      rows := rows[id := row];
      return Ok(row);
    }

    /** The slug to store, unless another row has it. */
    method ChooseSlug(id: Uuid, existing: Category, input: UpdateInput) returns (r: Result<string, Error>)
      ensures var candidate := CandidateSlug(existing, input, slugify);
              r == if candidate.Some? && SlugInUseByOther(rows, id, candidate.value) then Err(SlugTaken)
                   else Ok(GetOr(candidate, existing.slug))
    {
      if Truthy(input.slug) || (Truthy(input.name) && input.name.value != existing.name) {
        var candidateSlug := if Truthy(input.slug) then input.slug.value else slugify(input.name.value);
        if candidateSlug != existing.slug {
          if SlugInUseByOther(rows, id, candidateSlug) {
            return Err(SlugTaken);
          }
          return Ok(candidateSlug);
        }
      }
      return Ok(existing.slug);
    }

    method RefuseMove(id: Uuid, existing: Category, parentId: Option<Option<Uuid>>) returns (refusal: Option<Error>)
      requires id in rows && rows[id] == existing
      ensures refusal == MoveRefusal(rows, id, parentId)
    {
      if parentId.Some? && parentId.value != existing.parentId {
        if parentId.value == Some(id) {
          return Some(SelfParent);
        }
        if parentId.value.Some? {
          if parentId.value.value !in rows {
            return Some(ParentNotFound);
          }
          var isDescendant := IsDescendantOf(ParentMap(rows), parentId.value.value, id);
          if isDescendant {
            return Some(Circular);
          }
        }
      }
      return None;
    }

    method UpdateCategory(id: Uuid, input: UpdateInput, user: Option<User>) returns (r: Result<Category, Error>)
      modifies this`rows
      ensures rows == After(old(rows), Update(id, input, user), slugify)
      ensures r.Ok? <==> Outcome(old(rows), Update(id, input, user), slugify).Ok?
      ensures r.Ok? ==> id in rows && r.value == rows[id]
      ensures r.Err? ==> Outcome(old(rows), Update(id, input, user), slugify) == Err(r.error) && rows == old(rows)
      ensures old(Forest(rows)) ==> Forest(rows)
      // Who may: somebody signed in who manages the system, or created the row, or has one of two permissions.
      ensures r == Err(NotFound) <==> id !in old(rows)
      ensures r == Err(AuthenticationRequired) <==> id in old(rows) && user.None?
      ensures r == Err(Forbidden) <==>
              && id in old(rows) && user.Some?
              && "system:manage" !in user.value.permissions
              && old(rows)[id].createdById != Some(user.value.id)
              && "category:update" !in user.value.permissions && "product:update" !in user.value.permissions
      ensures r.Ok? ==>
                && id in old(rows) && user.Some?
                && (|| "system:manage" in user.value.permissions
                    || old(rows)[id].createdById == Some(user.value.id)
                    || "category:update" in user.value.permissions
                    || "product:update" in user.value.permissions)
      // And then what: the other refusals, and the row that is stored.
      ensures r !in {Err(NotFound), Err(AuthenticationRequired), Err(Forbidden)} ==>
                UpdateDoes(old(rows), id, input, slugify, Outcome(old(rows), Update(id, input, user), slugify))
    {
      if Forest(rows) {
        OpKeepsForest(rows, Update(id, input, user), slugify);
      }
      UpdateIsDone(rows, id, input, user, slugify);
      if id !in rows {
        return Err(NotFound);
      }
      var existing := rows[id];
      var denial := Denial(existing.createdById, user, UPDATE_PERMISSIONS);
      if denial.Some? {
        return Err(denial.value);
      }
      var slug := ChooseSlug(id, existing, input);
      if slug.Err? {
        return Err(slug.error);
      }
      var refusal := RefuseMove(id, existing, input.parentId);
      if refusal.Some? {
        return Err(refusal.value);
      }
      var updated := Updated(existing, input, slug.value);
      rows := rows[id := updated];
      return Ok(updated);
    }

    /** products is the number of products the database counts under the category. */
    method DeleteCategory(id: Uuid, user: Option<User>, products: nat) returns (r: Result<Uuid, Error>)
      modifies this`rows
      ensures rows == After(old(rows), Delete(id, user, products), slugify)
      ensures r.Ok? <==> Outcome(old(rows), Delete(id, user, products), slugify).Ok?
      ensures r.Err? ==> Outcome(old(rows), Delete(id, user, products), slugify) == Err(r.error) && rows == old(rows)
      ensures old(Forest(rows)) ==> Forest(rows)
      // Who may: somebody signed in who manages the system, or created the row, or has one of two permissions.
      ensures r == Err(NotFound) <==> id !in old(rows)
      ensures r == Err(AuthenticationRequired) <==> id in old(rows) && user.None?
      ensures r == Err(Forbidden) <==>
              && id in old(rows) && user.Some?
              && "system:manage" !in user.value.permissions
              && old(rows)[id].createdById != Some(user.value.id)
              && "category:delete" !in user.value.permissions && "product:delete" !in user.value.permissions
      ensures r.Ok? ==>
                && id in old(rows) && user.Some?
                && (|| "system:manage" in user.value.permissions
                    || old(rows)[id].createdById == Some(user.value.id)
                    || "category:delete" in user.value.permissions
                    || "product:delete" in user.value.permissions)
      // And then what: refused with products, otherwise the row goes and its children go to its parent.
      ensures r !in {Err(NotFound), Err(AuthenticationRequired), Err(Forbidden)} ==>
                r == if products > 0 then Err(HasProducts) else Ok(id)
      ensures r.Ok? ==>
                && rows.Keys == old(rows).Keys - {id}
                && forall x :: x in rows ==>
                     rows[x] == if old(rows)[x].parentId == Some(id)
                                then old(rows)[x].(parentId := old(rows)[id].parentId)
                                else old(rows)[x]
    {
      if Forest(rows) {
        OpKeepsForest(rows, Delete(id, user, products), slugify);
      }
      if id in rows {
        DenialIs(rows[id].createdById, user, "category:delete", "product:delete");
      }
      if id !in rows {
        return Err(NotFound);
      }
      var existing := rows[id];
      var denial := Denial(existing.createdById, user, DELETE_PERMISSIONS);
      if denial.Some? {
        return Err(denial.value);
      }
      if products > 0 {
        return Err(HasProducts);
      }
      var childIds := set x | x in rows && rows[x].parentId == Some(id);
      var children := |childIds|;
      ghost var before := rows;
      if children > 0 {
        rows := map x | x in rows ::
          if rows[x].parentId == Some(id) then rows[x].(parentId := existing.parentId) else rows[x];
      } else {
        assert forall x :: x in rows && rows[x].parentId == Some(id) ==> x in childIds;
      }
      rows := rows - {id};
      assert rows == DeleteOutcome(before, id, user, products).value;
      return Ok(id);
    }
  }

  // ----------------------------------------------------------- what runs keep

  ghost predicate UniqueSlugs(t: Table) {
    forall x, y :: x in t && y in t && t[x].slug == t[y].slug ==> x == y
  }

  ghost predicate Forest(t: Table) {
    && (forall x :: x in t ==> t[x].id == x)
    && Acyclic(ParentMap(t))
    && NoDangling(ParentMap(t))
    && UniqueSlugs(t)
  }

  lemma OpKeepsForest(t: Table, op: Op, slugify: string -> string)
    requires Forest(t)
    ensures Forest(After(t, op, slugify))
  {
    OpKeepsTree(t, op, slugify);
    OpKeepsSlugs(t, op, slugify);
    forall x | x in After(t, op, slugify) ensures After(t, op, slugify)[x].id == x {
      if op.Update? && x == op.id {
        assert t[x].id == x;
      }
    }
  }

  lemma OpKeepsSlugs(t: Table, op: Op, slugify: string -> string)
    requires UniqueSlugs(t)
    ensures UniqueSlugs(After(t, op, slugify))
  {
    var t' := After(t, op, slugify);
    forall x, y | x in t' && y in t' && t'[x].slug == t'[y].slug ensures x == y {
      if x in t && y in t && t[x].slug == t[y].slug {
        assert x == y;
      }
    }
  }

  /** What an accepted operation does to the parent pointers. */
  lemma ParentsAfter(t: Table, op: Op, slugify: string -> string)
    requires Outcome(t, op, slugify).Ok?
    ensures ParentMap(After(t, op, slugify)) ==
            match op
            case Create(id, input, _) => ParentMap(t)[id := input.parentId]
            case Update(id, input, _) => ParentMap(t)[id := GetOr(input.parentId, t[id].parentId)]
            case Delete(id, _, _) => Without(ParentMap(t), id)
  {
  }

  lemma OpKeepsTree(t: Table, op: Op, slugify: string -> string)
    requires Acyclic(ParentMap(t)) && NoDangling(ParentMap(t))
    ensures Acyclic(ParentMap(After(t, op, slugify))) && NoDangling(ParentMap(After(t, op, slugify)))
  {
    if Outcome(t, op, slugify).Ok? {
      ParentsAfter(t, op, slugify);
      match op {
        case Create(id, input, _) => CreateKeepsForest(ParentMap(t), id, input.parentId);
        case Update(id, input, _) => UpdateKeepsForest(t, id, input.parentId);
        case Delete(id, _, _) => DeleteKeepsForest(ParentMap(t), id);
      }
    }
  }

  lemma UpdateKeepsForest(t: Table, id: Uuid, parentId: Option<Option<Uuid>>)
    requires Acyclic(ParentMap(t)) && NoDangling(ParentMap(t))
    requires id in t && MoveRefusal(t, id, parentId).None?
    ensures var p := ParentMap(t)[id := GetOr(parentId, t[id].parentId)];
            Acyclic(p) && NoDangling(p)
  {
    var p := ParentMap(t);
    var v := GetOr(parentId, t[id].parentId);
    if v == t[id].parentId {
      assert p[id := v] == p;
    } else if v.None? {
      DetachKeepsAcyclic(p, id);
    } else {
      MoveKeepsAcyclicIff(p, id, v.value);
    }
  }

  /** Every serial run of creates, updates and deletes, accepted or refused, in any order, keeps the
      categories an acyclic forest with no dangling parent and unique slugs. */
  lemma {:induction false} RunKeepsForest(t: Table, ops: seq<Op>, slugify: string -> string)
    requires Forest(t)
    ensures Forest(Run(t, ops, slugify))
    decreases |ops|
  {
    if ops != [] {
      OpKeepsForest(t, ops[0], slugify);
      RunKeepsForest(After(t, ops[0], slugify), ops[1..], slugify);
    }
  }

  /** An update refuses a new parent for being a descendant, or the category itself, exactly when
      storing it would close a cycle. */
  lemma CycleRefusedExactly(t: Table, id: Uuid, newParent: Uuid)
    requires Forest(t) && id in t && newParent in t
    ensures MoveRefusal(t, id, Some(Some(newParent))) in {Some(SelfParent), Some(Circular)} <==>
            !Acyclic(ParentMap(t)[id := Some(newParent)])
  {
    var p := ParentMap(t);
    MoveKeepsAcyclicIff(p, id, newParent);
    assert Up(p, newParent, 0) == Some(newParent);
    if Some(newParent) == t[id].parentId {
      assert p[id := Some(newParent)] == p;
    }
  }

  lemma DeletedAncestors(t: Table, id: Uuid, user: Option<User>, products: nat, slugify: string -> string,
                         x: Uuid, a: Uuid)
    requires Forest(t) && Outcome(t, Delete(id, user, products), slugify).Ok? && x != id
    ensures Above(ParentMap(After(t, Delete(id, user, products), slugify)), x, a) <==>
            a != id && Above(ParentMap(t), x, a)
  {
    ParentsAfter(t, Delete(id, user, products), slugify);
    DeleteAncestors(ParentMap(t), id, x, a);
  }

  lemma MovedAncestors(t: Table, id: Uuid, input: UpdateInput, user: Option<User>, slugify: string -> string,
                       x: Uuid, a: Uuid)
    requires Forest(t) && Outcome(t, Update(id, input, user), slugify).Ok?
    requires input.parentId.Some? && input.parentId.value.Some?
    ensures var p := ParentMap(t);
            Above(ParentMap(After(t, Update(id, input, user), slugify)), x, a) <==>
            if Reaches(p, x, id)
            then (Above(p, x, a) && Reaches(p, a, id)) || Reaches(p, input.parentId.value.value, a)
            else Above(p, x, a)
  {
    var p := ParentMap(t);
    var newParent := input.parentId.value.value;
    ParentsAfter(t, Update(id, input, user), slugify);
    UpdateKeepsForest(t, id, input.parentId);
    MoveKeepsAcyclicIff(p, id, newParent);
    MoveAncestors(p, id, newParent, x, a);
  }

  // ------------------------------------------------------------------ slugs

  ghost predicate NoEmptySlug(t: Table) {
    forall x :: x in t ==> t[x].slug != ""
  }

  /** Creating refuses an empty slug, updating does not: an accepted operation stores an empty slug
      exactly when it renames a category, sends no slug, and the new name has nothing to make one of. */
  lemma EmptySlugStoredIff(t: Table, op: Op, slugify: string -> string)
    requires NoEmptySlug(t) && Outcome(t, op, slugify).Ok?
    ensures !NoEmptySlug(After(t, op, slugify)) <==>
            && op.Update?
            && !Truthy(op.update.slug)
            && Truthy(op.update.name)
            && op.update.name.value != t[op.id].name
            && slugify(op.update.name.value) == ""
  {
    if op.Update? {
      assert op.id in After(t, op, slugify);
    }
  }

  /** Renaming "Shoes" to "!!!" stores an empty slug when that is what slugify makes of it. */
  lemma RenameStoresEmptySlug(slugify: string -> string)
    requires slugify("!!!") == ""
    ensures var t: Table := map[1 := Category(1, None, Some(9), "Shoes", "shoes", ACTIVE, 0)];
            var op := Update(1, UpdateInput(Some("!!!"), None, None, None, None), Some(User(9, {})));
            NoEmptySlug(t) && Outcome(t, op, slugify).Ok? && After(t, op, slugify)[1].slug == ""
  {
  }
}
