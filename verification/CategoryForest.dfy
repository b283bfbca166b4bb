/** The category hierarchy as parent pointers: what a walk up the pointers reaches, the cycle check
    made before a category is moved, and what moving or deleting a category does to everybody's ancestors. */
module CategoryForest {
  import opened Wrappers

  /** One entry per category row: its parentId column. */
  type Parents = map<Uuid, Option<Uuid>>

  /** The parentId found by a lookup of x; a missing row answers null. */
  function ParentOf(p: Parents, x: Uuid): Option<Uuid> {
    if x in p then p[x] else None
  }

  /** The category n parent steps above x, if the walk gets that far. */
  function Up(p: Parents, x: Uuid, n: nat): Option<Uuid> {
    if n == 0 then Some(x)
    else match Up(p, x, n - 1)
      case None => None
      case Some(y) => ParentOf(p, y)
  }

  /** a is d itself or above d. */
  ghost predicate Reaches(p: Parents, d: Uuid, a: Uuid) {
    exists n: nat :: Up(p, d, n) == Some(a)
  }

  /** a is strictly above d. */
  ghost predicate Above(p: Parents, d: Uuid, a: Uuid) {
    exists n: nat :: n > 0 && Up(p, d, n) == Some(a)
  }

  ghost predicate Acyclic(p: Parents) {
    forall x: Uuid :: !Above(p, x, x)
  }

  ghost predicate NoDangling(p: Parents) {
    forall x :: x in p && p[x].Some? ==> p[x].value in p
  }

  lemma {:induction false} UpAdd(p: Parents, x: Uuid, m: nat, n: nat)
    requires Up(p, x, m).Some?
    ensures Up(p, x, m + n) == Up(p, Up(p, x, m).value, n)
  {
    if n > 0 {
      UpAdd(p, x, m, n - 1);
    }
  }

  lemma {:induction false} UpNone(p: Parents, x: Uuid, m: nat, n: nat)
    requires m <= n && Up(p, x, n).Some?
    ensures Up(p, x, m).Some?
  {
    if m < n {
      UpNone(p, x, m, n - 1);
    }
  }

  lemma ReachesStep(p: Parents, x: Uuid, y: Uuid, a: Uuid)
    requires ParentOf(p, x) == Some(y)
    ensures Reaches(p, y, a) ==> Above(p, x, a)
    ensures Above(p, x, a) ==> Reaches(p, y, a)
  {
    assert Up(p, x, 1) == Some(y) by { assert Up(p, x, 0) == Some(x); }
    if Reaches(p, y, a) {
      var n: nat :| Up(p, y, n) == Some(a);
      UpAdd(p, x, 1, n);
    }
    if Above(p, x, a) {
      var n: nat :| n > 0 && Up(p, x, n) == Some(a);
      UpAdd(p, x, 1, n - 1);
    }
  }

  lemma AboveTransitive(p: Parents, x: Uuid, y: Uuid, z: Uuid)
    requires Reaches(p, x, y) && Reaches(p, y, z)
    ensures Reaches(p, x, z)
    ensures Above(p, x, y) || Above(p, y, z) ==> Above(p, x, z)
  {
    var m: nat :| Up(p, x, m) == Some(y) && (Above(p, x, y) ==> m > 0 || x == y);
    var n: nat :| Up(p, y, n) == Some(z);
    UpAdd(p, x, m, n);
    if Above(p, x, y) {
      var m': nat :| m' > 0 && Up(p, x, m') == Some(y);
      UpAdd(p, x, m', n);
    }
    if Above(p, y, z) {
      var n': nat :| n' > 0 && Up(p, y, n') == Some(z);
      UpAdd(p, x, m, n');
    }
  }

  // ---------------------------------------------------------------- the walk

  /** A set of categories that contains the parents of its members contains everything above them. */
  lemma {:induction false} ClosedHoldsWalk(p: Parents, s: set<Uuid>, x: Uuid, n: nat)
    requires x in s
    requires forall y :: y in s && ParentOf(p, y).Some? ==> ParentOf(p, y).value in s
    ensures Up(p, x, n).Some? ==> Up(p, x, n).value in s
  {
    if n > 0 {
      ClosedHoldsWalk(p, s, x, n - 1);
    }
  }

  /** The walk up from a possible descendant. It ends on every finite table, also on one with
      cycles or dangling parents, because a category met twice stops it. */
  method IsDescendantOf(p: Parents, potentialDescendantId: Uuid, potentialAncestorId: Uuid)
    returns (found: bool)
    ensures found <==> Reaches(p, potentialDescendantId, potentialAncestorId)
  {
    var currentId := Some(potentialDescendantId);
    var visited: set<Uuid> := {};
    ghost var n: nat := 0;
    while currentId.Some?
      invariant currentId == Up(p, potentialDescendantId, n)
      invariant forall x :: x in visited && ParentOf(p, x).Some? ==>
                  ParentOf(p, x).value in visited || currentId == ParentOf(p, x)
      invariant potentialAncestorId !in visited
      invariant n == 0 ==> visited == {}
      invariant n > 0 ==> potentialDescendantId in visited
      decreases p.Keys - visited, currentId.Some?
    {
      if currentId.value == potentialAncestorId {
        return true;
      }
      if currentId.value in visited {
        break;
      }
      visited := visited + {currentId.value};
      ghost var before := currentId.value;
      currentId := ParentOf(p, currentId.value);
      n := n + 1;
      assert currentId.Some? ==> before in p;
    }
    forall k: nat ensures Up(p, potentialDescendantId, k) != Some(potentialAncestorId) {
      ClosedHoldsWalk(p, visited, potentialDescendantId, k);
    }
    return false;
  }

  // ------------------------------------------------------- moving a category

  /** Re-parenting id changes no walk that does not leave from id. */
  lemma {:induction false} WalkAvoidingMoved(p: Parents, id: Uuid, v: Option<Uuid>, x: Uuid, n: nat)
    requires id in p
    requires forall k: nat :: k < n ==> Up(p, x, k) != Some(id)
    ensures forall k: nat :: k <= n ==> Up(p[id := v], x, k) == Up(p, x, k)
  {
    if n > 0 {
      WalkAvoidingMoved(p, id, v, x, n - 1);
      assert Up(p, x, n - 1) != Some(id);
    }
  }

  /** The first time a walk meets a. */
  lemma {:induction false} FirstVisit(p: Parents, x: Uuid, a: Uuid, n: nat) returns (m: nat)
    requires Up(p, x, n) == Some(a)
    ensures m <= n && Up(p, x, m) == Some(a)
    ensures forall k: nat :: k < m ==> Up(p, x, k) != Some(a)
  {
    if k: nat :| k < n && Up(p, x, k) == Some(a) {
      m := FirstVisit(p, x, a, k);
    } else {
      m := n;
    }
  }

  /** The check made before a move refuses exactly the moves that would close a cycle. */
  lemma MoveKeepsAcyclicIff(p: Parents, id: Uuid, newParent: Uuid)
    requires Acyclic(p) && id in p
    ensures Acyclic(p[id := Some(newParent)]) <==> !Reaches(p, newParent, id)
  {
    var q := p[id := Some(newParent)];
    if Reaches(p, newParent, id) {
      var n: nat :| Up(p, newParent, n) == Some(id);
      var m := FirstVisit(p, newParent, id, n);
      WalkAvoidingMoved(p, id, Some(newParent), newParent, m);
      assert Reaches(q, newParent, id);
      ReachesStep(q, id, newParent, id);
    } else {
      forall x: Uuid ensures !Above(q, x, x) {
        if Above(q, x, x) {
          MovedCycleReaches(p, id, newParent, x);
        }
      }
    }
  }

  /** A cycle made by a move runs through the moved category. */
  lemma MovedCycleReaches(p: Parents, id: Uuid, newParent: Uuid, x: Uuid)
    requires Acyclic(p) && id in p
    requires Above(p[id := Some(newParent)], x, x)
    ensures Reaches(p, newParent, id)
  {
    assert !Above(p, x, x);
    var q := p[id := Some(newParent)];
    var n: nat :| n > 0 && Up(q, x, n) == Some(x);
    assert q[id := p[id]] == p;
    if k: nat :| k < n && Up(q, x, k) == Some(id) {
      // The cycle runs through id, hence from newParent back to id.
      UpAdd(q, x, k, n - k);
      assert Above(q, id, x);
      assert Reaches(q, x, id);
      AboveTransitive(q, id, x, id);
      ReachesStep(q, id, newParent, id);
      var j: nat :| Up(q, newParent, j) == Some(id);
      var m := FirstVisit(q, newParent, id, j);
      WalkAvoidingMoved(q, id, p[id], newParent, m);
    } else {
      WalkAvoidingMoved(q, id, p[id], x, n);
    }
  }

  lemma NotOwnParent(p: Parents, id: Uuid)
    requires Acyclic(p)
    ensures ParentOf(p, id) != Some(id)
  {
    assert !Above(p, id, id);
    assert Up(p, id, 0) == Some(id);
    assert Up(p, id, 1) == ParentOf(p, id);
  }

  /** Clearing a parent never closes a cycle. */
  lemma DetachKeepsAcyclic(p: Parents, id: Uuid)
    requires Acyclic(p) && id in p
    ensures Acyclic(p[id := None])
  {
    var q := p[id := None];
    assert q[id := p[id]] == p;
    forall x: Uuid ensures !Above(q, x, x) {
      if Above(q, x, x) {
        var n: nat :| n > 0 && Up(q, x, n) == Some(x);
        if k: nat :| k < n && Up(q, x, k) == Some(id) {
          UpAdd(q, x, k, 1);
          assert Up(q, id, 0) == Some(id);
          assert Up(q, x, k + 1) == None;
          UpNone(q, x, k + 1, n);
        } else {
          WalkAvoidingMoved(q, id, p[id], x, n);
          assert Above(p, x, x);
        }
      }
    }
  }

  /** Who is above whom after a permitted move: nothing changes for a category outside the moved
      subtree; one inside keeps what it had up to id and then gets newParent and what is above it. */
  lemma MoveAncestors(p: Parents, id: Uuid, newParent: Uuid, x: Uuid, a: Uuid)
    requires Acyclic(p) && id in p && !Reaches(p, newParent, id)
    ensures Above(p[id := Some(newParent)], x, a) <==>
            if Reaches(p, x, id)
            then (Above(p, x, a) && Reaches(p, a, id)) || Reaches(p, newParent, a)
            else Above(p, x, a)
  {
    var q := p[id := Some(newParent)];
    MoveKeepsAcyclicIff(p, id, newParent);
    if Reaches(p, x, id) {
      var n: nat :| Up(p, x, n) == Some(id);
      var m := FirstVisit(p, x, id, n);
      WalkAvoidingMoved(p, id, Some(newParent), x, m);
      forall b: Uuid ensures Reaches(q, newParent, b) <==> Reaches(p, newParent, b) {
        WalksOutsideMoved(p, id, Some(newParent), newParent, b);
      }
      ReachesStep(q, id, newParent, a);
      MovedSubtree(p, q, id, newParent, x, a, m);
    } else {
      WalksOutsideMoved(p, id, Some(newParent), x, a);
    }
  }

  lemma WalksOutsideMoved(p: Parents, id: Uuid, v: Option<Uuid>, x: Uuid, a: Uuid)
    requires id in p && !Reaches(p, x, id)
    ensures Reaches(p[id := v], x, a) <==> Reaches(p, x, a)
    ensures Above(p[id := v], x, a) <==> Above(p, x, a)
  {
    forall n: nat ensures Up(p[id := v], x, n) == Up(p, x, n) {
      WalkAvoidingMoved(p, id, v, x, n);
    }
    var q := p[id := v];
    assert forall n: nat :: Up(q, x, n) == Up(p, x, n);
    assert Reaches(q, x, a) == exists n: nat :: Up(p, x, n) == Some(a);
    assert Above(q, x, a) == exists n: nat :: n > 0 && Up(p, x, n) == Some(a);
  }

  lemma MovedSubtree(p: Parents, q: Parents, id: Uuid, newParent: Uuid, x: Uuid, a: Uuid, m: nat)
    requires Acyclic(p) && Up(p, x, m) == Some(id)
    requires forall k: nat :: k <= m ==> Up(q, x, k) == Up(p, x, k)
    requires Above(q, id, a) <==> Reaches(p, newParent, a)
    ensures Above(q, x, a) <==>
            (Above(p, x, a) && Reaches(p, a, id)) || Reaches(p, newParent, a)
  {
    if Above(q, x, a) {
      var n: nat :| n > 0 && Up(q, x, n) == Some(a);
      if n <= m {
        UpAdd(p, x, n, m - n);
      } else {
        UpAdd(q, x, m, n - m);
        assert Above(q, id, a);
      }
    }
    if Reaches(p, newParent, a) {
      AboveTransitive(q, x, id, a);
    }
    if Above(p, x, a) && Reaches(p, a, id) {
      var n: nat :| n > 0 && Up(p, x, n) == Some(a);
      if n > m {
        // Then a would lie strictly above id and still reach it.
        UpAdd(p, x, m, n - m);
        assert Above(p, id, a);
        AboveTransitive(p, id, a, id);
      }
    }
  }

  // ----------------------------------------------------- deleting a category

  /** Rows after deleting id: its children go to its own parent. */
  function Without(p: Parents, id: Uuid): Parents
    requires id in p
  {
    map x | x in p && x != id :: if p[x] == Some(id) then p[id] else p[x]
  }

  lemma {:induction false} WithoutForward(p: Parents, id: Uuid, x: Uuid, n: nat)
    requires Acyclic(p) && id in p && x != id
    ensures Up(Without(p, id), x, n).Some? ==>
              var a := Up(Without(p, id), x, n).value;
              a != id && (if n == 0 then Reaches(p, x, a) else Above(p, x, a))
  {
    if n == 0 {
      assert Up(p, x, 0) == Some(x);
    } else {
      WithoutForward(p, id, x, n - 1);
      var q := Without(p, id);
      if Up(q, x, n).Some? {
        var y, a := Up(q, x, n - 1).value, Up(q, x, n).value;
        assert Reaches(p, x, y);
        assert Up(p, a, 0) == Some(a);
        if p[y] == Some(id) {
          assert Up(p, id, 0) == Some(id) && Up(p, id, 1) == Some(a);
          ReachesStep(p, y, id, a);
        } else {
          ReachesStep(p, y, a, a);
        }
        AboveTransitive(p, x, y, a);
        NotOwnParent(p, id);
      }
    }
  }

  lemma {:induction false} WithoutBackward(p: Parents, id: Uuid, x: Uuid, a: Uuid, m: nat)
    requires Acyclic(p) && id in p && x != id && a != id
    requires Up(p, x, m) == Some(a)
    decreases m
    ensures Reaches(Without(p, id), x, a)
    ensures m > 0 ==> Above(Without(p, id), x, a)
  {
    var q := Without(p, id);
    if m == 0 {
      assert Up(q, x, 0) == Some(x);
    } else {
      var y := Up(p, x, m - 1).value;
      assert Up(q, a, 0) == Some(a);
      if y != id {
        WithoutBackward(p, id, x, y, m - 1);
        ReachesStep(q, y, a, a);
        AboveTransitive(q, x, y, a);
      } else {
        assert m > 1;
        var z := Up(p, x, m - 2).value;
        NotOwnParent(p, id);
        WithoutBackward(p, id, x, z, m - 2);
        assert q[z] == Some(a);
        ReachesStep(q, z, a, a);
        AboveTransitive(q, x, z, a);
      }
    }
  }

  /** Deleting id leaves every other pair as it was: a is above x afterwards exactly when it was
      before, for all x and a other than id; id itself is above nobody any more. */
  lemma DeleteAncestors(p: Parents, id: Uuid, x: Uuid, a: Uuid)
    requires Acyclic(p) && id in p && x != id
    ensures Above(Without(p, id), x, a) <==> a != id && Above(p, x, a)
  {
    if Above(Without(p, id), x, a) {
      var n: nat :| n > 0 && Up(Without(p, id), x, n) == Some(a);
      WithoutForward(p, id, x, n);
    }
    if a != id && Above(p, x, a) {
      var m: nat :| m > 0 && Up(p, x, m) == Some(a);
      WithoutBackward(p, id, x, a, m);
    }
  }

  lemma DeleteKeepsForest(p: Parents, id: Uuid)
    requires Acyclic(p) && NoDangling(p) && id in p
    ensures Acyclic(Without(p, id)) && NoDangling(Without(p, id))
  {
    var q := Without(p, id);
    forall x: Uuid ensures !Above(q, x, x) {
      if x != id {
        DeleteAncestors(p, id, x, x);
      } else if Above(q, id, id) {
        var n: nat :| n > 0 && Up(q, id, n) == Some(id);
        assert Up(q, id, 0) == Some(id);
        UpNone(q, id, 1, n);
      }
    }
    NotOwnParent(p, id);
  }

  /** A new row under an existing parent, or under none, keeps the forest. */
  lemma CreateKeepsForest(p: Parents, id: Uuid, v: Option<Uuid>)
    requires Acyclic(p) && NoDangling(p) && id !in p
    requires v.Some? ==> v.value in p
    ensures Acyclic(p[id := v]) && NoDangling(p[id := v])
  {
    var p0 := p[id := None];
    forall x: Uuid, n: nat ensures Up(p0, x, n) == Up(p, x, n) {
      AddedRootKeepsWalks(p, id, x, n);
    }
    forall x: Uuid ensures !Above(p0, x, x) {
      assert !Above(p, x, x);
      assert forall n: nat :: Up(p0, x, n) == Up(p, x, n);
    }
    assert p0[id := v] == p[id := v];
    if v.Some? {
      if Reaches(p0, v.value, id) {
        var n: nat :| Up(p0, v.value, n) == Some(id);
        ClosedHoldsWalk(p, p.Keys, v.value, n);
      }
      MoveKeepsAcyclicIff(p0, id, v.value);
    }
  }

  lemma {:induction false} AddedRootKeepsWalks(p: Parents, id: Uuid, x: Uuid, n: nat)
    requires id !in p
    ensures Up(p[id := None], x, n) == Up(p, x, n)
  {
    if n > 0 {
      AddedRootKeepsWalks(p, id, x, n - 1);
    }
  }
}
