/** Which categories the store shows: those that are active with every ancestor active. */
module CategoryVisibility {
  import opened Collections
  import opened Wrappers

  type CategoryId = nat

  datatype CategoryNode = CategoryNode(id: CategoryId, parentId: Option<CategoryId>, active: bool)

  type Nodes = map<CategoryId, CategoryNode>

  /** The categories by ID; the last one of an ID counts. */
  function ById(categories: seq<CategoryNode>): Nodes {
    if categories == [] then map[]
    else
      var last := categories[|categories| - 1];
      ById(categories[..|categories| - 1])[last.id := last]
  }

  /** The map holds what the list holds. */
  lemma {:induction false} ByIdHolds(categories: seq<CategoryNode>, id: CategoryId)
    ensures id in ById(categories) <==> exists i :: 0 <= i < |categories| && categories[i].id == id
    ensures id in ById(categories) ==> ById(categories)[id].id == id && ById(categories)[id] in categories
  {
    if categories == [] {
    } else {
      var last, before := categories[|categories| - 1], categories[..|categories| - 1];
      assert categories == before + [last];
      ByIdHolds(before, id);
      if last.id != id && id in ById(before) {
        var i :| 0 <= i < |before| && before[i].id == id;
        assert categories[i].id == id;
      }
    }
  }

  /** From the category, parent after parent, `n` steps lead to a root, all through categories `on`. */
  predicate Chain(byId: Nodes, on: set<CategoryId>, id: CategoryId, n: nat)
    decreases n
  {
    && id in byId && id in on
    && match byId[id].parentId
       case None => n == 0
       case Some(parent) => n > 0 && Chain(byId, on, parent, n - 1)
  }

  ghost predicate Rooted(byId: Nodes, on: set<CategoryId>, id: CategoryId) { exists n: nat :: Chain(byId, on, id, n) }

  /** No category is on a cycle or hangs from a missing parent. */
  ghost predicate Forest(byId: Nodes) { forall id | id in byId :: Rooted(byId, byId.Keys, id) }

  function Active(byId: Nodes): set<CategoryId> { set id | id in byId && byId[id].active }

  /** Active, with a finite chain of active ancestors up to a root: a dangling parent or a cycle hides a category. */
  ghost predicate Visible(byId: Nodes, id: CategoryId) { Rooted(byId, Active(byId), id) }

  lemma {:induction false} OneLength(byId: Nodes, on: set<CategoryId>, id: CategoryId, m: nat, n: nat)
    requires Chain(byId, on, id, m) && Chain(byId, on, id, n)
    ensures m == n
    decreases m
  {
    if byId[id].parentId.Some? {
      OneLength(byId, on, byId[id].parentId.value, m - 1, n - 1);
    }
  }

  /** From parent to parent, `k` steps lead from one category to the other. */
  predicate Climbs(byId: Nodes, from: CategoryId, to: CategoryId, k: nat)
    decreases k
  {
    if k == 0 then from == to
    else from in byId && byId[from].parentId.Some? && Climbs(byId, byId[from].parentId.value, to, k - 1)
  }

  /** The other category is an ancestor of this one. */
  ghost predicate Above(byId: Nodes, from: CategoryId, to: CategoryId) {
    exists k: nat :: k > 0 && Climbs(byId, from, to, k)
  }

  lemma {:induction false} ClimbsOn(byId: Nodes, from: CategoryId, id: CategoryId, k: nat)
    requires Climbs(byId, from, id, k) && id in byId && byId[id].parentId.Some?
    ensures Climbs(byId, from, byId[id].parentId.value, k + 1)
    decreases k
  {
    if k == 0 {
    } else {
      ClimbsOn(byId, byId[from].parentId.value, id, k - 1);
    }
  }

  lemma {:induction false} ChainFrom(byId: Nodes, on: set<CategoryId>, from: CategoryId, to: CategoryId, n: nat, k: nat)
    requires Chain(byId, on, from, n) && Climbs(byId, from, to, k)
    ensures k <= n && Chain(byId, on, to, n - k)
    decreases k
  {
    if k == 0 {
    } else {
      ChainFrom(byId, on, byId[from].parentId.value, to, n - 1, k - 1);
    }
  }

  /** A category above itself has no chain to a root. */
  lemma {:induction false} CycleIsNotRooted(byId: Nodes, on: set<CategoryId>, id: CategoryId)
    requires Above(byId, id, id)
    ensures !Rooted(byId, on, id)
  {
    if n: nat :| Chain(byId, on, id, n) {
      var k: nat :| k > 0 && Climbs(byId, id, id, k);
      ChainFrom(byId, on, id, id, n, k);
      OneLength(byId, on, id, n, n - k);
    }
  }

  lemma {:induction false} ParentIsAbove(byId: Nodes, from: CategoryId, id: CategoryId)
    requires id in byId && byId[id].parentId.Some? && (from == id || Above(byId, from, id))
    ensures Above(byId, from, byId[id].parentId.value)
  {
    var k: nat :| Climbs(byId, from, id, k) && (k > 0 || from == id);
    ClimbsOn(byId, from, id, k);
  }

  lemma {:induction false} ParentDecides(byId: Nodes, id: CategoryId)
    requires id in byId
    ensures Visible(byId, id) <==>
            byId[id].active && (byId[id].parentId.None? || Visible(byId, byId[id].parentId.value))
  {
    var on := Active(byId);
    if n: nat :| Chain(byId, on, id, n) {
      assert byId[id].parentId.Some? ==> Chain(byId, on, byId[id].parentId.value, n - 1);
    }
    if byId[id].active {
      if byId[id].parentId.None? {
        assert Chain(byId, on, id, 0);
      } else if n: nat :| Chain(byId, on, byId[id].parentId.value, n) {
        assert Chain(byId, on, id, n + 1);
      }
    }
  }

  /** The memoised walk: what is known of each category, and the path of the walk under way. */
  class VisibilityWalk {
    const byId: Nodes
    var visibility: map<CategoryId, bool>
    var path: set<CategoryId>

    constructor (nodes: Nodes)
      ensures byId == nodes && Right() && path == {}
    {
      byId, visibility, path := nodes, map[], {};
    }

    /** What is known is true. */
    ghost predicate Right()
      reads this
    {
      forall id | id in visibility :: visibility[id] == Visible(byId, id)
    }

    method IsVisible(id: CategoryId) returns (visible: bool)
      requires Right() && path <= byId.Keys && forall p | p in path :: Above(byId, p, id)
      modifies this
      ensures Right() && path <= byId.Keys
      ensures visible == Visible(byId, id)
      decreases |byId.Keys - path|
    {
      if id in visibility { return visibility[id]; }
      if id !in byId { return false; }
      if id in path {
        CycleIsNotRooted(byId, Active(byId), id);
        return false;
      }
      var category := byId[id];
      ghost var walked := path;
      path := path + {id};
      ParentDecides(byId, id);
      visible := category.active;
      if visible && category.parentId.Some? {
        forall p | p in path ensures Above(byId, p, category.parentId.value) {
          ParentIsAbove(byId, p, id);
        }
        assert byId.Keys - path < byId.Keys - walked by {
          assert id in byId.Keys - walked && id !in byId.Keys - path;
        }
        ProperSubsetIsSmaller(byId.Keys - path, byId.Keys - walked);
        visible := IsVisible(category.parentId.value);
      }
      visibility := visibility[id := visible];
    }
  }

  /** Exactly the visible categories, whatever the parents: dangling, cyclic or repeated. */
  method VisibleCategoryIds(categories: seq<CategoryNode>) returns (ids: set<CategoryId>)
    ensures forall id :: id in ids <==> Visible(ById(categories), id)
  {
    var byId := ById(categories);
    var walk := new VisibilityWalk(byId);
    ids := {};
    for i := 0 to |categories|
      invariant walk.byId == byId && walk.Right() && fresh(walk)
      invariant forall id | id in ids :: Visible(byId, id)
      invariant forall j | 0 <= j < i && Visible(byId, categories[j].id) :: categories[j].id in ids
    {
      walk.path := {};
      var visible := walk.IsVisible(categories[i].id);
      if visible { ids := ids + {categories[i].id}; }
    }
    forall id | Visible(byId, id) ensures id in ids {
      ByIdHolds(categories, id);
    }
  }

  // ---- The same rule as the database states it ----

  /** The active children of some categories. */
  function ActiveChildren(byId: Nodes, parents: set<CategoryId>): set<CategoryId> {
    set id | id in byId && byId[id].active && byId[id].parentId.Some? && byId[id].parentId.value in parents
  }

  function ActiveRoots(byId: Nodes): set<CategoryId> {
    set id | id in byId && byId[id].active && byId[id].parentId.None?
  }

  /** Holds the active roots and every active child of what it holds. */
  predicate Closed(byId: Nodes, ids: set<CategoryId>) {
    ActiveRoots(byId) <= ids && ActiveChildren(byId, ids) <= ids
  }

  lemma {:induction false} ClosedHoldsVisible(byId: Nodes, ids: set<CategoryId>, id: CategoryId, n: nat)
    requires Closed(byId, ids) && Chain(byId, Active(byId), id, n)
    ensures id in ids
    decreases n
  {
    if byId[id].parentId.Some? {
      ClosedHoldsVisible(byId, ids, byId[id].parentId.value, n - 1);
      assert id in ActiveChildren(byId, ids);
    } else {
      assert id in ActiveRoots(byId);
    }
  }

  /** One round: what it adds is visible, and what it leaves is closed but for what it added. */
  lemma {:induction false} OneRound(byId: Nodes, ids: set<CategoryId>, last: set<CategoryId>, next: set<CategoryId>)
    requires last <= ids <= byId.Keys && ActiveChildren(byId, ids - last) <= ids
    requires forall id | id in ids :: Visible(byId, id)
    requires next == ActiveChildren(byId, last) - ids
    ensures forall id | id in ids + next :: Visible(byId, id)
    ensures ActiveChildren(byId, ids) <= ids + next && ids + next - next == ids
    ensures |byId.Keys - ids| == |byId.Keys - (ids + next)| + |next|
  {
    forall id | id in next ensures Visible(byId, id) {
      ParentDecides(byId, id);
    }
    assert byId.Keys - ids == (byId.Keys - (ids + next)) + next;
  }

  lemma {:induction false} RootsAreVisible(byId: Nodes)
    ensures forall id | id in ActiveRoots(byId) :: Visible(byId, id)
  {
    forall id | id in ActiveRoots(byId) ensures Visible(byId, id) {
      ParentDecides(byId, id);
    }
  }

  /** A closed set of visible categories is that of all the visible ones, and the least closed one. */
  lemma {:induction false} VisibleIsLeast(byId: Nodes, ids: set<CategoryId>)
    requires Closed(byId, ids) && forall id | id in ids :: Visible(byId, id)
    ensures forall id :: id in ids <==> Visible(byId, id)
    ensures forall closed | Closed(byId, closed) :: ids <= closed
  {
    forall closed, id | Closed(byId, closed) && Visible(byId, id) ensures id in closed {
      var n: nat :| Chain(byId, Active(byId), id, n);
      ClosedHoldsVisible(byId, closed, id, n);
    }
  }

  /** The recursive query: each round adds the new active children of the last round, until one adds nothing. */
  method VisibleInTheDatabase(byId: Nodes) returns (ids: set<CategoryId>)
    ensures forall id :: id in ids <==> Visible(byId, id)
    ensures Closed(byId, ids)
    ensures forall closed | Closed(byId, closed) :: ids <= closed
  {
    var last := ActiveRoots(byId);
    ids := last;
    RootsAreVisible(byId);
    while last != {}
      invariant last <= ids <= byId.Keys && ActiveRoots(byId) <= ids
      invariant ActiveChildren(byId, ids - last) <= ids
      invariant forall id | id in ids :: Visible(byId, id)
      decreases |byId.Keys - ids| + |last|
    {
      var next := ActiveChildren(byId, last) - ids;
      OneRound(byId, ids, last, next);
      last, ids := next, ids + next;
    }
    assert ids - {} == ids;
    VisibleIsLeast(byId, ids);
  }
}
