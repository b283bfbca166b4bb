/** The nested category tree: nodes are shared between a lookup table and their parents' child arrays
    and filled by pushing. What is built is related to a tree value, and the value to the listed rows. */
module CategoryTree {
  import opened Wrappers
  import opened CategoryForest
  import opened CategoryService

  datatype Tree = Tree(row: Category, kids: seq<Tree>)

  function Ids(cats: seq<Category>): set<Uuid> {
    set c | c in cats :: c.id
  }

  ghost predicate DistinctIds(cats: seq<Category>) {
    forall i, j :: 0 <= i < j < |cats| ==> cats[i].id != cats[j].id
  }

  /** The listed rows naming id as their parent, in listing order. */
  function Kids(cats: seq<Category>, id: Uuid): seq<Category> {
    if cats == [] then []
    else
      var last := cats[|cats| - 1];
      Kids(cats[..|cats| - 1], id) + (if last.parentId == Some(id) then [last] else [])
  }

  predicate IsRoot(row: Category, ids: set<Uuid>) {
    row.parentId.None? || row.parentId.value !in ids
  }

  /** The listed rows whose parent is null or not listed, in listing order. */
  function Roots(cats: seq<Category>, ids: set<Uuid>): seq<Category> {
    if cats == [] then []
    else
      var last := cats[|cats| - 1];
      Roots(cats[..|cats| - 1], ids) + (if IsRoot(last, ids) then [last] else [])
  }

  lemma {:induction false} KidsMembers(cats: seq<Category>, id: Uuid)
    ensures forall c :: c in Kids(cats, id) <==> c in cats && c.parentId == Some(id)
    ensures |Kids(cats, id)| <= |cats|
    ensures DistinctIds(cats) ==> DistinctIds(Kids(cats, id))
  {
    if cats != [] {
      KidsMembers(cats[..|cats| - 1], id);
      assert cats == cats[..|cats| - 1] + [cats[|cats| - 1]];
    }
  }

  lemma {:induction false} RootsMembers(cats: seq<Category>, ids: set<Uuid>)
    ensures forall c :: c in Roots(cats, ids) <==> c in cats && IsRoot(c, ids)
    ensures DistinctIds(cats) ==> DistinctIds(Roots(cats, ids))
  {
    if cats != [] {
      var front, last := cats[..|cats| - 1], cats[|cats| - 1];
      RootsMembers(front, ids);
      assert cats == front + [last];
      if DistinctIds(cats) {
        assert DistinctIds(front);
        forall i | 0 <= i < |Roots(front, ids)| ensures Roots(front, ids)[i].id != last.id {
          assert Roots(front, ids)[i] in front;
        }
      }
    }
  }

  // ------------------------------------------------------ what the result means

  /** A walk down from a root of the listing. */
  ghost predicate RootPath(cats: seq<Category>, path: seq<Category>) {
    && path != []
    && (forall i :: 0 <= i < |path| ==> path[i] in cats)
    && IsRoot(path[0], Ids(cats))
    && (forall i :: 0 < i < |path| ==> path[i].parentId == Some(path[i - 1].id))
  }

  function Last(path: seq<Category>): Category
    requires path != []
  {
    path[|path| - 1]
  }

  lemma SameIdSameRow(cats: seq<Category>, a: Category, b: Category)
    requires DistinctIds(cats) && a in cats && b in cats && a.id == b.id
    ensures a == b
  {
    var i :| 0 <= i < |cats| && cats[i] == a;
    var j :| 0 <= j < |cats| && cats[j] == b;
  }

  lemma NotARoot(cats: seq<Category>, p: seq<Category>, q: seq<Category>)
    requires RootPath(cats, p) && RootPath(cats, q) && Last(p) == Last(q)
    requires |p| > 1
    ensures |q| > 1
  {
    assert p[|p| - 2] in cats;
    assert p[|p| - 2].id in Ids(cats);
  }

  /** There is one way up from a row, so at most one walk down to it. */
  lemma {:induction false} RootPathUnique(cats: seq<Category>, p: seq<Category>, q: seq<Category>)
    requires DistinctIds(cats) && RootPath(cats, p) && RootPath(cats, q) && Last(p) == Last(q)
    ensures p == q
    decreases |p|
  {
    if |p| > 1 {
      NotARoot(cats, p, q);
      var p', q' := p[..|p| - 1], q[..|q| - 1];
      SameIdSameRow(cats, Last(p'), Last(q'));
      RootPathUnique(cats, p', q');
      assert p == p' + [Last(p)] && q == q' + [Last(q)];
    } else if |q| > 1 {
      NotARoot(cats, q, p);
    }
  }

  /** A walk down never meets a row twice. */
  lemma RootPathDistinct(cats: seq<Category>, path: seq<Category>)
    requires DistinctIds(cats) && RootPath(cats, path)
    ensures DistinctIds(path)
  {
    forall i, j | 0 <= i < j < |path| ensures path[i].id != path[j].id {
      if path[i].id == path[j].id {
        SameIdSameRow(cats, path[i], path[j]);
        assert RootPath(cats, path[..i + 1]) && RootPath(cats, path[..j + 1]);
        RootPathUnique(cats, path[..i + 1], path[..j + 1]);
      }
    }
  }

  lemma ChildExtendsPath(cats: seq<Category>, path: seq<Category>, kid: Category)
    requires DistinctIds(cats) && RootPath(cats, path)
    requires kid in cats && kid.parentId == Some(Last(path).id)
    ensures RootPath(cats, path + [kid])
    ensures Ids(cats) - Ids(path + [kid]) < Ids(cats) - Ids(path)
  {
    var longer := path + [kid];
    assert RootPath(cats, longer);
    RootPathDistinct(cats, longer);
    assert kid.id !in Ids(path) by {
      if c :| c in path && c.id == kid.id {
        var i :| 0 <= i < |path| && path[i] == c;
        assert longer[i].id == longer[|path|].id;
      }
    }
    assert kid in longer;
    assert kid.id in Ids(cats) && kid.id in Ids(longer);
    forall x | x in Ids(path) ensures x in Ids(longer) {
      var c :| c in path && c.id == x;
      assert c in longer;
    }
  }

  /** The tree below the last row of a walk down. No acyclicity is needed: cycles of the table
      are never walked into from a root. */
  ghost function Unfold(cats: seq<Category>, path: seq<Category>): Tree
    requires DistinctIds(cats) && RootPath(cats, path)
    decreases Ids(cats) - Ids(path), |cats| + 1
  {
    KidsMembers(cats, Last(path).id);
    Tree(Last(path), UnfoldEach(cats, path, Kids(cats, Last(path).id)))
  }

  ghost function UnfoldEach(cats: seq<Category>, path: seq<Category>, kids: seq<Category>): (ts: seq<Tree>)
    requires DistinctIds(cats) && RootPath(cats, path)
    requires forall c :: c in kids ==> c in cats && c.parentId == Some(Last(path).id)
    ensures |ts| == |kids|
    decreases Ids(cats) - Ids(path), |kids|
  {
    if kids == [] then []
    else
      ChildExtendsPath(cats, path, kids[0]);
      [Unfold(cats, path + [kids[0]])] + UnfoldEach(cats, path, kids[1..])
  }

  ghost function UnfoldRoots(cats: seq<Category>, roots: seq<Category>): (ts: seq<Tree>)
    requires DistinctIds(cats)
    requires forall c :: c in roots ==> c in cats && IsRoot(c, Ids(cats))
    ensures |ts| == |roots|
  {
    if roots == [] then [] else [Unfold(cats, [roots[0]])] + UnfoldRoots(cats, roots[1..])
  }

  /** The forest a listing stands for. */
  ghost function ForestOf(cats: seq<Category>): seq<Tree>
    requires DistinctIds(cats)
  {
    RootsMembers(cats, Ids(cats));
    UnfoldRoots(cats, Roots(cats, Ids(cats)))
  }

  lemma {:induction false} UnfoldEachAt(cats: seq<Category>, path: seq<Category>, kids: seq<Category>, i: nat)
    requires DistinctIds(cats) && RootPath(cats, path) && i < |kids|
    requires forall c :: c in kids ==> c in cats && c.parentId == Some(Last(path).id)
    ensures RootPath(cats, path + [kids[i]])
    ensures UnfoldEach(cats, path, kids)[i] == Unfold(cats, path + [kids[i]])
    decreases |kids|
  {
    ChildExtendsPath(cats, path, kids[i]);
    if i > 0 {
      UnfoldEachAt(cats, path, kids[1..], i - 1);
    }
  }

  lemma {:induction false} UnfoldRootsAt(cats: seq<Category>, roots: seq<Category>, i: nat)
    requires DistinctIds(cats) && i < |roots|
    requires forall c :: c in roots ==> c in cats && IsRoot(c, Ids(cats))
    ensures RootPath(cats, [roots[i]])
    ensures UnfoldRoots(cats, roots)[i] == Unfold(cats, [roots[i]])
  {
    if i > 0 {
      UnfoldRootsAt(cats, roots[1..], i - 1);
    }
  }

  function Flatten(t: Tree): seq<Category> {
    [t.row] + FlattenAll(t.kids)
  }

  function FlattenAll(ts: seq<Tree>): seq<Category> {
    if ts == [] then [] else Flatten(ts[0]) + FlattenAll(ts[1..])
  }

  // ------------------------------------------- flattening: which rows, how often

  ghost predicate ReachedVia(cats: seq<Category>, path: seq<Category>, x: Category) {
    exists q :: RootPath(cats, q) && path <= q && Last(q) == x
  }

  ghost predicate ReachedViaOne(cats: seq<Category>, path: seq<Category>, kids: seq<Category>, x: Category) {
    exists k :: k in kids && ReachedVia(cats, path + [k], x)
  }

  /** Below a walk lie exactly the rows whose walk down extends it, once each. */
  lemma {:induction false} FlattenUnfold(cats: seq<Category>, path: seq<Category>)
    requires DistinctIds(cats) && RootPath(cats, path)
    ensures forall x :: x in Flatten(Unfold(cats, path)) <==> ReachedVia(cats, path, x)
    ensures DistinctIds(Flatten(Unfold(cats, path)))
    decreases Ids(cats) - Ids(path), |cats| + 1
  {
    var id := Last(path).id;
    KidsMembers(cats, id);
    var kids := Kids(cats, id);
    FlattenUnfoldEach(cats, path, kids);
    var below := FlattenAll(UnfoldEach(cats, path, kids));
    assert Flatten(Unfold(cats, path)) == [Last(path)] + below;
    forall x ensures ReachedVia(cats, path, x) <==> x == Last(path) || ReachedViaOne(cats, path, kids, x) {
      ReachedSplit(cats, path, kids, x);
    }
    forall i | 0 <= i < |below| ensures below[i].id != Last(path).id {
      assert below[i] in below;
      var k :| k in kids && ReachedVia(cats, path + [k], below[i]);
      var q: seq<Category> :| RootPath(cats, q) && path + [k] <= q && Last(q) == below[i];
      RootPathDistinct(cats, q);
      assert q[|path| - 1] == Last(path);
    }
  }

  lemma ReachedSplit(cats: seq<Category>, path: seq<Category>, kids: seq<Category>, x: Category)
    requires DistinctIds(cats) && RootPath(cats, path)
    requires forall c :: c in kids <==> c in cats && c.parentId == Some(Last(path).id)
    ensures ReachedVia(cats, path, x) <==> x == Last(path) || ReachedViaOne(cats, path, kids, x)
  {
    if ReachedVia(cats, path, x) && x != Last(path) {
      var q: seq<Category> :| RootPath(cats, q) && path <= q && Last(q) == x;
      var k := q[|path|];
      assert k in kids;
      assert path + [k] <= q;
    }
    if ReachedViaOne(cats, path, kids, x) {
      var k :| k in kids && ReachedVia(cats, path + [k], x);
      var q: seq<Category> :| RootPath(cats, q) && path + [k] <= q && Last(q) == x;
      assert path <= q;
    }
  }

  lemma {:induction false} FlattenUnfoldEach(cats: seq<Category>, path: seq<Category>, kids: seq<Category>)
    requires DistinctIds(cats) && RootPath(cats, path) && DistinctIds(kids)
    requires forall c :: c in kids ==> c in cats && c.parentId == Some(Last(path).id)
    ensures forall x :: x in FlattenAll(UnfoldEach(cats, path, kids)) <==> ReachedViaOne(cats, path, kids, x)
    ensures DistinctIds(FlattenAll(UnfoldEach(cats, path, kids)))
    decreases Ids(cats) - Ids(path), |kids|
  {
    if kids != [] {
      ChildExtendsPath(cats, path, kids[0]);
      var first := Flatten(Unfold(cats, path + [kids[0]]));
      var rest := FlattenAll(UnfoldEach(cats, path, kids[1..]));
      FlattenUnfold(cats, path + [kids[0]]);
      FlattenUnfoldEach(cats, path, kids[1..]);
      assert FlattenAll(UnfoldEach(cats, path, kids)) == first + rest;
      forall i, j | 0 <= i < |first| && 0 <= j < |rest| ensures first[i].id != rest[j].id {
        assert first[i] in first && rest[j] in rest;
        SiblingsShareNothing(cats, path, kids, first[i], rest[j]);
      }
    }
  }

  lemma SiblingsShareNothing(cats: seq<Category>, path: seq<Category>, kids: seq<Category>, x: Category, y: Category)
    requires DistinctIds(cats) && DistinctIds(kids) && kids != []
    requires ReachedVia(cats, path + [kids[0]], x) && ReachedViaOne(cats, path, kids[1..], y)
    ensures x.id != y.id
  {
    var q: seq<Category> :| RootPath(cats, q) && path + [kids[0]] <= q && Last(q) == x;
    var k :| k in kids[1..] && ReachedVia(cats, path + [k], y);
    var r :| RootPath(cats, r) && path + [k] <= r && Last(r) == y;
    assert q[|path|] == kids[0] && r[|path|] == k;
    if x.id == y.id {
      SameIdSameRow(cats, x, y);
      RootPathUnique(cats, q, r);
    }
  }

  ghost predicate ReachedFrom(cats: seq<Category>, roots: seq<Category>, x: Category) {
    exists k :: k in roots && ReachedVia(cats, [k], x)
  }

  lemma {:induction false} FlattenUnfoldRoots(cats: seq<Category>, roots: seq<Category>)
    requires DistinctIds(cats) && DistinctIds(roots)
    requires forall c :: c in roots ==> c in cats && IsRoot(c, Ids(cats))
    ensures forall x :: x in FlattenAll(UnfoldRoots(cats, roots)) <==> ReachedFrom(cats, roots, x)
    ensures DistinctIds(FlattenAll(UnfoldRoots(cats, roots)))
  {
    if roots != [] {
      var first := Flatten(Unfold(cats, [roots[0]]));
      var rest := FlattenAll(UnfoldRoots(cats, roots[1..]));
      FlattenUnfold(cats, [roots[0]]);
      FlattenUnfoldRoots(cats, roots[1..]);
      forall i, j | 0 <= i < |first| && 0 <= j < |rest| ensures first[i].id != rest[j].id {
        assert first[i] in first && rest[j] in rest;
        assert [] + [roots[0]] == [roots[0]];
        var k :| k in roots[1..] && ReachedVia(cats, [k], rest[j]);
        assert [] + [k] == [k];
        assert ReachedViaOne(cats, [], roots[1..], rest[j]);
        SiblingsShareNothing(cats, [], roots, first[i], rest[j]);
      }
    }
  }

  /** x hangs, through listed rows only, from a root of the listing. */
  ghost predicate Rooted(cats: seq<Category>, x: Category) {
    exists q :: RootPath(cats, q) && Last(q) == x
  }

  /** Flattening the forest gives exactly the rows that hang from a root, once each; for every
      listing, cyclic ones included. */
  lemma FlattenForest(cats: seq<Category>)
    requires DistinctIds(cats)
    ensures forall x :: x in FlattenAll(ForestOf(cats)) <==> Rooted(cats, x)
    ensures DistinctIds(FlattenAll(ForestOf(cats)))
  {
    var roots := Roots(cats, Ids(cats));
    RootsMembers(cats, Ids(cats));
    FlattenUnfoldRoots(cats, roots);
    forall x ensures ReachedFrom(cats, roots, x) <==> Rooted(cats, x) {
      if Rooted(cats, x) {
        var q: seq<Category> :| RootPath(cats, q) && Last(q) == x;
        assert [q[0]] <= q && q[0] in roots;
        assert ReachedVia(cats, [q[0]], x);
      }
    }
  }

  // ------------------------------------------------- permutation iff acyclic

  ghost function Listed(cats: seq<Category>, id: Uuid): Category
    requires id in Ids(cats)
  {
    var c :| c in cats && c.id == id;
    c
  }

  /** The parent pointers among the listed rows alone. */
  ghost function ListedParents(cats: seq<Category>): Parents {
    map id | id in Ids(cats) :: Listed(cats, id).parentId
  }

  lemma ListedRow(cats: seq<Category>, c: Category)
    requires DistinctIds(cats) && c in cats
    ensures c.id in Ids(cats) && Listed(cats, c.id) == c
  {
    SameIdSameRow(cats, Listed(cats, c.id), c);
  }

  /** Rows each of which names the one before as its parent. */
  ghost predicate Downward(cats: seq<Category>, path: seq<Category>) {
    && path != []
    && (forall i :: 0 <= i < |path| ==> path[i] in cats)
    && (forall i :: 0 < i < |path| ==> path[i].parentId == Some(path[i - 1].id))
  }

  lemma {:induction false} DownwardIsUp(cats: seq<Category>, path: seq<Category>, i: nat, n: nat)
    requires DistinctIds(cats) && Downward(cats, path) && n <= i < |path|
    ensures Up(ListedParents(cats), path[i].id, n) == Some(path[i - n].id)
  {
    if n > 0 {
      DownwardIsUp(cats, path, i, n - 1);
      ListedRow(cats, path[i - n + 1]);
    }
  }

  lemma {:induction false} AcyclicRooted(cats: seq<Category>, path: seq<Category>)
    requires DistinctIds(cats) && Acyclic(ListedParents(cats)) && Downward(cats, path)
    ensures Rooted(cats, Last(path))
    decreases Ids(cats) - Ids(path)
  {
    if IsRoot(path[0], Ids(cats)) {
      assert RootPath(cats, path);
    } else {
      var parent := Listed(cats, path[0].parentId.value);
      var longer := [parent] + path;
      assert Downward(cats, longer);
      if c :| c in path && c.id == parent.id {
        var i :| 0 <= i < |path| && path[i] == c;
        DownwardIsUp(cats, longer, i + 1, i + 1);
        assert Above(ListedParents(cats), parent.id, parent.id);
      }
      assert parent in longer && parent.id in Ids(longer);
      forall x | x in Ids(path) ensures x in Ids(longer) {
        var c :| c in path && c.id == x;
        assert c in longer;
      }
      AcyclicRooted(cats, longer);
    }
  }

  lemma {:induction false} CycleNeverEnds(p: Parents, x: Uuid, n: nat, k: nat)
    requires n > 0 && Up(p, x, n) == Some(x)
    ensures Up(p, x, k).Some?
  {
    if k <= n {
      UpNone(p, x, k, n);
    } else {
      CycleNeverEnds(p, x, n, k - n);
      UpAdd(p, x, n, k - n);
    }
  }

  lemma RootedOffCycle(cats: seq<Category>, c: Category)
    requires DistinctIds(cats) && c in cats && Rooted(cats, c)
    ensures !Above(ListedParents(cats), c.id, c.id)
  {
    var p := ListedParents(cats);
    var q: seq<Category> :| RootPath(cats, q) && Last(q) == c;
    DownwardIsUp(cats, q, |q| - 1, |q| - 1);
    ListedRow(cats, q[0]);
    assert Up(p, c.id, |q| - 1) == Some(q[0].id);
    assert Up(p, c.id, |q| + 1) == None;
    if Above(p, c.id, c.id) {
      var n: nat :| n > 0 && Up(p, c.id, n) == Some(c.id);
      CycleNeverEnds(p, c.id, n, |q| + 1);
    }
  }

  lemma RootedIffAcyclic(cats: seq<Category>)
    requires DistinctIds(cats)
    ensures (forall c :: c in cats ==> Rooted(cats, c)) <==> Acyclic(ListedParents(cats))
  {
    var p := ListedParents(cats);
    if Acyclic(p) {
      forall c | c in cats ensures Rooted(cats, c) {
        AcyclicRooted(cats, [c]);
      }
    }
    if forall c :: c in cats ==> Rooted(cats, c) {
      forall x: Uuid ensures !Above(p, x, x) {
        if x in Ids(cats) {
          ListedRow(cats, Listed(cats, x));
          RootedOffCycle(cats, Listed(cats, x));
        } else if Above(p, x, x) {
          var n: nat :| n > 0 && Up(p, x, n) == Some(x);
          assert Up(p, x, 0) == Some(x);
          UpNone(p, x, 1, n);
        }
      }
    }
  }

  lemma {:induction false} DistinctOnce(s: seq<Category>, x: Category)
    requires DistinctIds(s)
    ensures multiset(s)[x] == if x in s then 1 else 0
  {
    if s != [] {
      DistinctOnce(s[1..], x);
      assert s == [s[0]] + s[1..];
    }
  }

  /** Flattening the tree is a permutation of the listing exactly when the listed parent pointers
      have no cycle. */
  lemma FlattenPermutesIffAcyclic(cats: seq<Category>)
    requires DistinctIds(cats)
    ensures multiset(FlattenAll(ForestOf(cats))) == multiset(cats) <==> Acyclic(ListedParents(cats))
  {
    var flat := FlattenAll(ForestOf(cats));
    FlattenForest(cats);
    RootedIffAcyclic(cats);
    if Acyclic(ListedParents(cats)) {
      forall x ensures multiset(flat)[x] == multiset(cats)[x] {
        DistinctOnce(flat, x);
        DistinctOnce(cats, x);
        if x in flat {
          var q: seq<Category> :| RootPath(cats, q) && Last(q) == x;
        }
      }
    }
    if multiset(flat) == multiset(cats) {
      forall c | c in cats ensures Rooted(cats, c) {
        assert c in multiset(flat);
      }
    }
  }

  lemma EmptyOrNot(rows: seq<Category>)
    ensures rows == [] || exists c :: c in rows
  {
    if rows != [] {
      assert rows[0] in rows;
    }
  }

  /** Two rows that name each other as parent both disappear. */
  lemma CycleDisappears(a: Category, b: Category, cats: seq<Category>)
    requires a.id != b.id && a.parentId == Some(b.id) && b.parentId == Some(a.id) && cats == [a, b]
    ensures DistinctIds(cats) && ForestOf(cats) == []
    ensures multiset(FlattenAll(ForestOf(cats))) != multiset(cats)
  {
    var roots := Roots(cats, Ids(cats));
    assert cats[0] == a && cats[1] == b && a.id in Ids(cats) && b.id in Ids(cats);
    RootsMembers(cats, Ids(cats));
    EmptyOrNot(roots);
    assert a in multiset(cats);
  }

  // --------------------------------------------------------- children in order

  /** Every node's children are the listed rows naming it as parent, in listing order, all the way down. */
  ghost predicate Shaped(cats: seq<Category>, t: Tree) {
    && t.row in cats
    && |t.kids| == |Kids(cats, t.row.id)|
    && (forall i :: 0 <= i < |t.kids| ==> t.kids[i].row == Kids(cats, t.row.id)[i])
    && (forall i :: 0 <= i < |t.kids| ==> Shaped(cats, t.kids[i]))
  }

  lemma {:induction false} UnfoldShaped(cats: seq<Category>, path: seq<Category>)
    requires DistinctIds(cats) && RootPath(cats, path)
    ensures Shaped(cats, Unfold(cats, path))
    decreases Ids(cats) - Ids(path)
  {
    var kids := Kids(cats, Last(path).id);
    KidsMembers(cats, Last(path).id);
    forall i | 0 <= i < |kids|
      ensures UnfoldEach(cats, path, kids)[i].row == kids[i] && Shaped(cats, UnfoldEach(cats, path, kids)[i])
    {
      ChildExtendsPath(cats, path, kids[i]);
      UnfoldEachAt(cats, path, kids, i);
      UnfoldShaped(cats, path + [kids[i]]);
    }
  }

  ghost predicate Sorted(before: (Category, Category) -> bool, rows: seq<Category>) {
    forall i, j :: 0 <= i < j < |rows| ==> before(rows[i], rows[j])
  }

  lemma {:induction false} KidsSorted(before: (Category, Category) -> bool, cats: seq<Category>, id: Uuid)
    requires Sorted(before, cats)
    ensures Sorted(before, Kids(cats, id))
  {
    if cats != [] {
      var front, last := cats[..|cats| - 1], cats[|cats| - 1];
      KidsSorted(before, front, id);
      KidsMembers(front, id);
      forall i | 0 <= i < |Kids(front, id)| ensures before(Kids(front, id)[i], last) {
        assert Kids(front, id)[i] in front;
      }
    }
  }

  lemma {:induction false} RootsSorted(before: (Category, Category) -> bool, cats: seq<Category>, ids: set<Uuid>)
    requires Sorted(before, cats)
    ensures Sorted(before, Roots(cats, ids))
  {
    if cats != [] {
      var front, last := cats[..|cats| - 1], cats[|cats| - 1];
      RootsSorted(before, front, ids);
      RootsMembers(front, ids);
      forall i | 0 <= i < |Roots(front, ids)| ensures before(Roots(front, ids)[i], last) {
        assert Roots(front, ids)[i] in front;
      }
    }
  }

  // ---------------------------------------------------------------- the query

  /** Ascending sortOrder, then name under the database's collation. */
  function InOrder(nameLeq: (string, string) -> bool): (Category, Category) -> bool {
    (a: Category, b: Category) =>
      a.sortOrder < b.sortOrder || (a.sortOrder == b.sortOrder && nameLeq(a.name, b.name))
  }

  predicate Before(a: Category, b: Category, nameLeq: (string, string) -> bool) {
    a.sortOrder <= b.sortOrder && (a.sortOrder == b.sortOrder ==> nameLeq(a.name, b.name))
  }

  lemma SortedIsBefore(nameLeq: (string, string) -> bool, rows: seq<Category>)
    requires Sorted(InOrder(nameLeq), rows)
    ensures forall i, j :: 0 <= i < j < |rows| ==> Before(rows[i], rows[j], nameLeq)
  {
  }

  /** What findMany answers for a status filter: the matching rows once each, in order. */
  ghost predicate IsListing(t: Table, status: Option<Status>, nameLeq: (string, string) -> bool, cats: seq<Category>) {
    && DistinctIds(cats)
    && (forall c :: c in cats <==> c.id in t && t[c.id] == c && (status.None? || c.status == status.value))
    && Sorted(InOrder(nameLeq), cats)
  }

  lemma {:induction false} ListedWalk(t: Table, cats: seq<Category>, x: Uuid, n: nat)
    requires DistinctIds(cats) && forall c :: c in cats ==> c.id in t && t[c.id] == c
    ensures Up(ListedParents(cats), x, n).Some? ==> Up(ParentMap(t), x, n) == Up(ListedParents(cats), x, n)
  {
    if n > 0 {
      ListedWalk(t, cats, x, n - 1);
      var y := Up(ListedParents(cats), x, n - 1);
      if y.Some? && y.value in Ids(cats) {
        ListedRow(cats, Listed(cats, y.value));
      }
    }
  }

  /** For every table that is a forest and every status filter, the tree has the matching rows once
      each, every node's children are exactly the matching rows naming it as parent, in (sortOrder, name)
      order, and its roots are the matching rows whose parent is null or filtered out, in the same order. */
  lemma TreeOfForest(t: Table, status: Option<Status>, nameLeq: (string, string) -> bool, cats: seq<Category>)
    requires Forest(t) && IsListing(t, status, nameLeq, cats)
    ensures multiset(FlattenAll(ForestOf(cats))) == multiset(cats)
    ensures forall i :: 0 <= i < |ForestOf(cats)| ==> Shaped(cats, ForestOf(cats)[i])
    ensures forall id: Uuid :: Sorted(InOrder(nameLeq), Kids(cats, id))
    ensures forall id: Uuid :: forall c :: c in Kids(cats, id) <==> c in cats && c.parentId == Some(id)
    ensures |ForestOf(cats)| == |Roots(cats, Ids(cats))| && Sorted(InOrder(nameLeq), Roots(cats, Ids(cats)))
    ensures forall i :: 0 <= i < |ForestOf(cats)| ==> ForestOf(cats)[i].row == Roots(cats, Ids(cats))[i]
    ensures forall c :: c in Roots(cats, Ids(cats)) <==>
              c in cats && (c.parentId.None? || forall d :: d in cats ==> d.id != c.parentId.value)
    ensures forall id: Uuid, i, j ::
              0 <= i < j < |Kids(cats, id)| ==> Before(Kids(cats, id)[i], Kids(cats, id)[j], nameLeq)
    ensures var roots := Roots(cats, Ids(cats));
            forall i, j :: 0 <= i < j < |roots| ==> Before(roots[i], roots[j], nameLeq)
  {
    var p := ListedParents(cats);
    forall x: Uuid ensures !Above(p, x, x) {
      assert !Above(ParentMap(t), x, x);
      forall n: nat ensures n > 0 ==> Up(p, x, n) != Some(x) {
        ListedWalk(t, cats, x, n);
      }
    }
    FlattenPermutesIffAcyclic(cats);
    RootsMembers(cats, Ids(cats));
    forall i | 0 <= i < |ForestOf(cats)|
      ensures ForestOf(cats)[i].row == Roots(cats, Ids(cats))[i] && Shaped(cats, ForestOf(cats)[i])
    {
      UnfoldRootsAt(cats, Roots(cats, Ids(cats)), i);
      UnfoldShaped(cats, [Roots(cats, Ids(cats))[i]]);
    }
    RootsSorted(InOrder(nameLeq), cats, Ids(cats));
    SortedIsBefore(nameLeq, Roots(cats, Ids(cats)));
    forall id: Uuid
      ensures forall i, j :: 0 <= i < j < |Kids(cats, id)| ==> Before(Kids(cats, id)[i], Kids(cats, id)[j], nameLeq)
    {
      KidsSorted(InOrder(nameLeq), cats, id);
      SortedIsBefore(nameLeq, Kids(cats, id));
    }
    forall id: Uuid
      ensures Sorted(InOrder(nameLeq), Kids(cats, id))
      ensures forall c :: c in Kids(cats, id) <==> c in cats && c.parentId == Some(id)
    {
      KidsSorted(InOrder(nameLeq), cats, id);
      KidsMembers(cats, id);
    }
  }

  // -------------------------------------------------------------- the builder

  class TreeNode {
    const row: Category
    var children: seq<TreeNode>

    constructor (row: Category)
      ensures this.row == row && children == []
    {
      this.row := row;
      children := [];
    }
  }

  /** The node graph below n is the tree t. */
  ghost predicate Denotes(nodes: set<TreeNode>, n: TreeNode, t: Tree)
    reads nodes
    decreases t
  {
    && n in nodes
    && n.row == t.row
    && |n.children| == |t.kids|
    && forall i :: 0 <= i < |t.kids| ==> Denotes(nodes, n.children[i], t.kids[i])
  }

  function NodesOf(m: map<Uuid, TreeNode>, rows: seq<Category>): seq<TreeNode>
    requires forall c :: c in rows ==> c.id in m
  {
    seq(|rows|, i requires 0 <= i < |rows| => assert rows[i] in rows; m[rows[i].id])
  }

  /** Every row has one node of its own, and that node's children are the nodes of the row's kids
      among the first n listed rows. */
  ghost predicate Linked(cats: seq<Category>, n: nat, m: map<Uuid, TreeNode>)
    requires n <= |cats|
    reads m.Values
  {
    && m.Keys == Ids(cats)
    && (forall c :: c in cats ==> c.id in m && m[c.id].row == c)
    && (forall x, y :: x in m && y in m && m[x] == m[y] ==> x == y)
    && (forall c, k :: c in cats && k in Kids(cats[..n], c.id) ==> k.id in m)
    && (forall c :: c in cats ==> m[c.id].children == NodesOf(m, Kids(cats[..n], c.id)))
  }

  lemma {:induction false} LinkedDenotes(cats: seq<Category>, m: map<Uuid, TreeNode>, path: seq<Category>)
    requires DistinctIds(cats) && Linked(cats, |cats|, m) && RootPath(cats, path)
    ensures Last(path).id in m && Denotes(m.Values, m[Last(path).id], Unfold(cats, path))
    decreases Ids(cats) - Ids(path)
  {
    assert Last(path) in cats;
    var kids := Kids(cats, Last(path).id);
    KidsMembers(cats, Last(path).id);
    assert cats[..|cats|] == cats;
    assert m[Last(path).id].children == NodesOf(m, kids);
    forall i | 0 <= i < |kids|
      ensures Denotes(m.Values, m[kids[i].id], UnfoldEach(cats, path, kids)[i])
    {
      ChildExtendsPath(cats, path, kids[i]);
      UnfoldEachAt(cats, path, kids, i);
      LinkedDenotes(cats, m, path + [kids[i]]);
    }
  }

  lemma NodesSnoc(m: map<Uuid, TreeNode>, rows: seq<Category>, row: Category)
    requires row.id in m && forall c :: c in rows ==> c.id in m
    ensures NodesOf(m, rows + [row]) == NodesOf(m, rows) + [m[row.id]]
  {
  }

  /** One more listed row. */
  lemma NextKids(cats: seq<Category>, i: nat, id: Uuid)
    requires i < |cats|
    ensures Kids(cats[..i + 1], id) == Kids(cats[..i], id) + if cats[i].parentId == Some(id) then [cats[i]] else []
    ensures forall k :: k in Kids(cats[..i], id) ==> k in cats
  {
    assert cats[..i + 1][..i] == cats[..i];
    KidsMembers(cats[..i], id);
  }

  lemma KidsSnoc(cats: seq<Category>, i: nat, m: map<Uuid, TreeNode>, id: Uuid)
    requires i < |cats| && forall c :: c in cats ==> c.id in m
    ensures forall k :: k in Kids(cats[..i], id) ==> k.id in m
    ensures forall k :: k in Kids(cats[..i + 1], id) ==> k.id in m
    ensures NodesOf(m, Kids(cats[..i + 1], id)) ==
            NodesOf(m, Kids(cats[..i], id)) + (if cats[i].parentId == Some(id) then [m[cats[i].id]] else [])
  {
    NextKids(cats, i, id);
    if cats[i].parentId == Some(id) {
      NodesSnoc(m, Kids(cats[..i], id), cats[i]);
    } else {
      assert Kids(cats[..i + 1], id) == Kids(cats[..i], id);
    }
  }

  lemma RootsSnoc(cats: seq<Category>, i: nat, m: map<Uuid, TreeNode>)
    requires i < |cats| && forall c :: c in cats ==> c.id in m
    ensures forall k :: k in Roots(cats[..i], m.Keys) ==> k.id in m
    ensures forall k :: k in Roots(cats[..i + 1], m.Keys) ==> k.id in m
    ensures NodesOf(m, Roots(cats[..i + 1], m.Keys)) ==
            NodesOf(m, Roots(cats[..i], m.Keys)) + (if IsRoot(cats[i], m.Keys) then [m[cats[i].id]] else [])
  {
    var roots := Roots(cats[..i], m.Keys);
    RootsMembers(cats[..i], m.Keys);
    assert cats[..i + 1][..i] == cats[..i];
    if IsRoot(cats[i], m.Keys) {
      assert Roots(cats[..i + 1], m.Keys) == roots + [cats[i]];
      NodesSnoc(m, roots, cats[i]);
    } else {
      assert Roots(cats[..i + 1], m.Keys) == roots;
    }
  }

  /** First pass: one node per listed row. */
  method MakeNodes(cats: seq<Category>) returns (categoryMap: map<Uuid, TreeNode>)
    requires DistinctIds(cats)
    ensures fresh(categoryMap.Values)
    ensures Linked(cats, 0, categoryMap)
  {
    categoryMap := map[];
    for i := 0 to |cats|
      invariant categoryMap.Keys == Ids(cats[..i])
      invariant forall x :: x in categoryMap ==> fresh(categoryMap[x]) && categoryMap[x].children == []
      invariant forall c :: c in cats[..i] ==> c.id in categoryMap && categoryMap[c.id].row == c
      invariant forall x, y :: x in categoryMap && y in categoryMap && categoryMap[x] == categoryMap[y] ==> x == y
    {
      var node := new TreeNode(cats[i]);
      assert cats[..i + 1] == cats[..i] + [cats[i]];
      categoryMap := categoryMap[cats[i].id := node];
    }
    assert cats[..|cats|] == cats;
  }

  /** Second pass: push every node into its parent's children, or among the roots. */
  method PushNodes(cats: seq<Category>, categoryMap: map<Uuid, TreeNode>) returns (rootNodes: seq<TreeNode>)
    requires DistinctIds(cats) && Linked(cats, 0, categoryMap)
    modifies categoryMap.Values
    ensures Linked(cats, |cats|, categoryMap)
    ensures forall c :: c in Roots(cats, Ids(cats)) ==> c.id in categoryMap
    ensures rootNodes == NodesOf(categoryMap, Roots(cats, Ids(cats)))
  {
    rootNodes := [];
    for i := 0 to |cats|
      invariant Linked(cats, i, categoryMap)
      invariant forall c :: c in Roots(cats[..i], categoryMap.Keys) ==> c.id in categoryMap
      invariant rootNodes == NodesOf(categoryMap, Roots(cats[..i], categoryMap.Keys))
    {
      var cat := cats[i];
      var node := categoryMap[cat.id];
      RootsSnoc(cats, i, categoryMap);
      label before:
      if cat.parentId.Some? && cat.parentId.value in categoryMap {
        var parent := categoryMap[cat.parentId.value];
        parent.children := parent.children + [node];
      } else {
        rootNodes := rootNodes + [node];
      }
      forall c | c in cats
        ensures forall k :: k in Kids(cats[..i + 1], c.id) ==> k.id in categoryMap
        ensures categoryMap[c.id].children == NodesOf(categoryMap, Kids(cats[..i + 1], c.id))
      {
        KidsSnoc(cats, i, categoryMap, c.id);
        assert old@before(categoryMap[c.id].children) == NodesOf(categoryMap, Kids(cats[..i], c.id));
      }
    }
    assert cats[..|cats|] == cats;
  }

  /** The node graph built by the two passes is the forest of the listing. */
  method BuildTree(cats: seq<Category>) returns (rootNodes: seq<TreeNode>, ghost nodes: set<TreeNode>)
    requires DistinctIds(cats)
    ensures fresh(nodes)
    ensures |rootNodes| == |ForestOf(cats)|
    ensures forall i :: 0 <= i < |rootNodes| ==> Denotes(nodes, rootNodes[i], ForestOf(cats)[i])
  {
    var categoryMap := MakeNodes(cats);
    rootNodes := PushNodes(cats, categoryMap);
    nodes := categoryMap.Values;
    RootsMembers(cats, Ids(cats));
    forall i | 0 <= i < |rootNodes| ensures Denotes(nodes, rootNodes[i], ForestOf(cats)[i]) {
      UnfoldRootsAt(cats, Roots(cats, Ids(cats)), i);
      LinkedDenotes(cats, categoryMap, [Roots(cats, Ids(cats))[i]]);
    }
  }
}
