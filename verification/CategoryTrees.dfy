/** The trees of categories: which categories the administration keeps, and how the kept ones become a tree. */
module CategoryTrees {
  import opened CategoryVisibility
  import opened Collections
  import opened Wrappers

  datatype CategoryView = CategoryView(id: CategoryId, parentId: Option<CategoryId>, active: bool, position: nat,
                                       name: string)

  datatype Tree = Tree(category: CategoryView, children: seq<Tree>)

  /** The categories come from the table, so their IDs are distinct. */
  predicate Distinct(views: seq<CategoryView>) {
    forall i, j | 0 <= i < j < |views| :: views[i].id != views[j].id
  }

  function Node(view: CategoryView): CategoryNode { CategoryNode(view.id, view.parentId, view.active) }

  function NodesOf(views: seq<CategoryView>): (nodes: seq<CategoryNode>)
    ensures |nodes| == |views| && forall i | 0 <= i < |views| :: nodes[i] == Node(views[i])
  {
    seq(|views|, i requires 0 <= i < |views| => Node(views[i]))
  }

  function Parents(views: seq<CategoryView>): Nodes { ById(NodesOf(views)) }

  lemma {:induction false} HasParent(views: seq<CategoryView>, view: CategoryView)
    requires Distinct(views) && view in views
    ensures view.id in Parents(views) && Parents(views)[view.id] == Node(view)
  {
    var nodes := NodesOf(views);
    var i :| 0 <= i < |views| && views[i] == view;
    assert nodes[i].id == view.id;
    ByIdHolds(nodes, view.id);
    var node := Parents(views)[view.id];
    assert node.id == view.id && node in nodes;
    var j :| 0 <= j < |nodes| && nodes[j] == node;
    assert nodes[j] == Node(views[j]);
    assert j == i;
  }

  lemma {:induction false} IsAmong(views: seq<CategoryView>, id: CategoryId) returns (view: CategoryView)
    requires Distinct(views) && id in Parents(views)
    ensures view in views && view.id == id && Parents(views)[id] == Node(view)
  {
    var nodes := NodesOf(views);
    ByIdHolds(nodes, id);
    var i :| 0 <= i < |nodes| && nodes[i].id == id;
    view := views[i];
    HasParent(views, view);
  }

  // ---- What the administration keeps ----

  /** With each of these categories, the parent it has among the given ones. */
  predicate HoldsParents(byId: Nodes, kept: set<CategoryId>) {
    forall id | id in kept && id in byId && byId[id].parentId.Some? && byId[id].parentId.value in byId ::
      byId[id].parentId.value in kept
  }

  function Matching(views: seq<CategoryView>, statuses: set<bool>): set<CategoryId> {
    set i | 0 <= i < |views| && views[i].active in statuses :: views[i].id
  }

  lemma {:induction false} MatchingExactly(views: seq<CategoryView>, statuses: set<bool>)
    ensures forall id :: id in Matching(views, statuses) <==>
              exists v :: v in views && v.id == id && v.active in statuses
  {
    forall v | v in views && v.active in statuses ensures v.id in Matching(views, statuses) {
      var i :| 0 <= i < |views| && views[i] == v;
    }
  }

  /** As `HoldsParents`, but for the parent that is next. */
  predicate HoldsAllBut(byId: Nodes, kept: set<CategoryId>, current: Option<CategoryId>) {
    forall id | id in kept && id in byId && byId[id].parentId.Some? && byId[id].parentId.value in byId ::
      byId[id].parentId.value in kept || current == byId[id].parentId
  }

  /** Every set that holds these categories and holds parents has all of `kept`. */
  ghost predicate Least(byId: Nodes, wanted: set<CategoryId>, kept: set<CategoryId>) {
    forall s: set<CategoryId> | wanted <= s && HoldsParents(byId, s) :: kept <= s
  }

  /** From one category up, until a category that is already kept: its ancestors are too. */
  method KeepWithAncestors(byId: Nodes, id: CategoryId, kept: set<CategoryId>, ghost wanted: set<CategoryId>)
    returns (r: set<CategoryId>)
    requires id in byId && id in wanted && kept <= byId.Keys && HoldsParents(byId, kept) && Least(byId, wanted, kept)
    ensures kept + {id} <= r <= byId.Keys && HoldsParents(byId, r) && Least(byId, wanted, r)
  {
    r := kept;
    var current := Some(id);
    while current.Some? && current.value !in r
      invariant kept <= r <= byId.Keys && HoldsAllBut(byId, r, current) && Least(byId, wanted, r)
      invariant current.Some? ==> current.value in byId && Least(byId, wanted, {current.value})
      invariant id in r || current == Some(id)
      decreases byId.Keys - r
    {
      ghost var child := current.value;
      var parentId := byId[current.value].parentId;
      r := r + {current.value};
      current := if parentId.Some? && parentId.value in byId then parentId else None;
      if current.Some? {
        forall s: set<CategoryId> | wanted <= s && HoldsParents(byId, s) ensures {current.value} <= s {
          assert {child} <= s;
        }
      }
    }
  }

  /** The smallest set that holds the categories in those statuses and, with each category, its parent. */
  method AdminKept(views: seq<CategoryView>, statuses: set<bool>) returns (kept: set<CategoryId>)
    requires Distinct(views)
    ensures Matching(views, statuses) <= kept <= Parents(views).Keys
    ensures HoldsParents(Parents(views), kept) && Least(Parents(views), Matching(views, statuses), kept)
    ensures forall id :: id in Matching(views, statuses) <==>
              exists v :: v in views && v.id == id && v.active in statuses
  {
    var byId := Parents(views);
    MatchingExactly(views, statuses);
    kept := {};
    for i := 0 to |views|
      invariant kept <= byId.Keys && HoldsParents(byId, kept) && Least(byId, Matching(views, statuses), kept)
      invariant forall j | 0 <= j < i && views[j].active in statuses :: views[j].id in kept
    {
      if views[i].active in statuses {
        HasParent(views, views[i]);
        kept := KeepWithAncestors(byId, views[i].id, kept, Matching(views, statuses));
      }
    }
  }

  // ---- The tree ----

  /** Siblings by position, then by name as the collation ranks it, then by ID. */
  predicate Precedes(rank: string -> int, a: CategoryView, b: CategoryView) {
    || a.position < b.position
    || (a.position == b.position && rank(a.name) < rank(b.name))
    || (a.position == b.position && rank(a.name) == rank(b.name) && a.id < b.id)
  }

  /** A lower position comes first; at one position the name that ranks lower; and of one name the lower ID. */
  lemma {:induction false} LowerComesFirst(rank: string -> int, a: CategoryView, b: CategoryView)
    ensures a.position < b.position ==> Precedes(rank, a, b)
    ensures a.position == b.position && rank(a.name) < rank(b.name) ==> Precedes(rank, a, b)
    ensures a.position == b.position && rank(a.name) == rank(b.name) && a.id < b.id ==> Precedes(rank, a, b)
    ensures !(Precedes(rank, a, b) && Precedes(rank, b, a))
    ensures a.id != b.id ==> Precedes(rank, a, b) || Precedes(rank, b, a)
  {
  }

  predicate InOrder(rank: string -> int, views: seq<CategoryView>) {
    forall i, j | 0 <= i < j < |views| :: Precedes(rank, views[i], views[j])
  }

  function InsertSibling(rank: string -> int, view: CategoryView, views: seq<CategoryView>): (r: seq<CategoryView>)
    ensures multiset(r) == multiset(views) + multiset{view} && |r| == |views| + 1
  {
    if views == [] || !Precedes(rank, views[0], view) then [view] + views
    else
      assert views == [views[0]] + views[1..];
      [views[0]] + InsertSibling(rank, view, views[1..])
  }

  function SortSiblings(rank: string -> int, views: seq<CategoryView>): (r: seq<CategoryView>)
    ensures multiset(r) == multiset(views) && |r| == |views|
  {
    if views == [] then []
    else
      assert views == [views[0]] + views[1..];
      InsertSibling(rank, views[0], SortSiblings(rank, views[1..]))
  }

  lemma {:induction false} InsertsInOrder(rank: string -> int, view: CategoryView, views: seq<CategoryView>)
    requires InOrder(rank, views) && forall i | 0 <= i < |views| :: views[i].id != view.id
    ensures InOrder(rank, InsertSibling(rank, view, views))
  {
    if views != [] && Precedes(rank, views[0], view) {
      InsertsInOrder(rank, view, views[1..]);
      var rest := InsertSibling(rank, view, views[1..]);
      forall i | 0 <= i < |rest| ensures Precedes(rank, views[0], rest[i]) {
        assert rest[i] in multiset(rest);
        assert rest[i] in views[1..] || rest[i] == view;
      }
    }
  }

  lemma {:induction false} SortsInOrder(rank: string -> int, views: seq<CategoryView>)
    requires Distinct(views)
    ensures InOrder(rank, SortSiblings(rank, views))
  {
    if views == [] {
    } else {
      var rest := SortSiblings(rank, views[1..]);
      SortsInOrder(rank, views[1..]);
      forall i | 0 <= i < |rest| ensures rest[i].id != views[0].id {
        assert rest[i] in multiset(rest);
        assert rest[i] in views[1..];
      }
      InsertsInOrder(rank, views[0], rest);
    }
  }

  type Siblings = map<Option<CategoryId>, seq<CategoryView>>

  function SiblingsOf(childrenOf: Siblings, parentId: Option<CategoryId>): seq<CategoryView> {
    if parentId in childrenOf then childrenOf[parentId] else []
  }

  /** The kept categories with that parent, in the order given. */
  function Children(views: seq<CategoryView>, kept: set<CategoryId>, parentId: Option<CategoryId>)
    : (r: seq<CategoryView>)
    ensures forall v :: v in r <==> v in views && v.id in kept && v.parentId == parentId
  {
    if views == [] then []
    else
      var last := views[|views| - 1];
      var before := views[..|views| - 1];
      assert views == before + [last];
      Children(before, kept, parentId) + if last.id in kept && last.parentId == parentId then [last] else []
  }

  /** Each category under its own parent, as given, kept and once among its siblings. */
  ghost predicate Grouped(views: seq<CategoryView>, kept: set<CategoryId>, childrenOf: Siblings) {
    forall parentId :: SiblingsOf(childrenOf, parentId) == Children(views, kept, parentId)
  }

  method GroupByParent(views: seq<CategoryView>, kept: set<CategoryId>) returns (childrenOf: Siblings)
    ensures Grouped(views, kept, childrenOf)
  {
    childrenOf := map[];
    for i := 0 to |views|
      invariant Grouped(views[..i], kept, childrenOf)
    {
      assert views[..i + 1][..i] == views[..i];
      var category := views[i];
      if category.id in kept {
        var siblings := SiblingsOf(childrenOf, category.parentId);
        childrenOf := childrenOf[category.parentId := siblings + [category]];
      }
    }
    assert views[..|views|] == views;
  }

  /** The categories from a root down to this parent: the walk of the tree has gone through them. */
  ghost predicate OnPath(byId: Nodes, parentId: Option<CategoryId>, path: set<CategoryId>) {
    match parentId
    case None => path == {}
    case Some(p) =>
      path <= byId.Keys && Rooted(byId, byId.Keys, p) && forall a | a in path :: a == p || Above(byId, p, a)
  }

  lemma {:induction false} ChildGoesOn(byId: Nodes, parentId: Option<CategoryId>, path: set<CategoryId>, id: CategoryId)
    requires id in byId && byId[id].parentId == parentId && OnPath(byId, parentId, path)
    ensures id !in path && OnPath(byId, Some(id), path + {id})
    ensures |byId.Keys - (path + {id})| < |byId.Keys - path|
  {
    if parentId.Some? {
      var n: nat :| Chain(byId, byId.Keys, parentId.value, n);
      assert Chain(byId, byId.Keys, id, n + 1);
      forall a | a == parentId.value || Above(byId, parentId.value, a) ensures Above(byId, id, a) {
        var k: nat :| Climbs(byId, parentId.value, a, k) && (k > 0 || a == parentId.value);
        assert Climbs(byId, id, a, k + 1);
      }
      if id in path {
        CycleIsNotRooted(byId, byId.Keys, id);
      }
    } else {
      assert Chain(byId, byId.Keys, id, 0);
    }
    ProperSubsetIsSmaller(byId.Keys - (path + {id}), byId.Keys - path);
  }

  ghost predicate AllOf(a: seq<CategoryView>, b: seq<CategoryView>) { forall i | 0 <= i < |a| :: a[i] in b }

  lemma {:induction false} FirstGoesOn(views: seq<CategoryView>, kept: set<CategoryId>, parentId: Option<CategoryId>,
                                       path: set<CategoryId>, siblings: seq<CategoryView>)
    requires Distinct(views) && OnPath(Parents(views), parentId, path)
    requires siblings != [] && AllOf(siblings, Children(views, kept, parentId))
    ensures var byId, first := Parents(views), siblings[0];
            && first in views && first.parentId == parentId && first.id in kept
            && first.id in byId && byId[first.id] == Node(first)
            && OnPath(byId, Some(first.id), path + {first.id})
            && |byId.Keys - (path + {first.id})| < |byId.Keys - path|
    ensures AllOf(siblings[1..], Children(views, kept, parentId))
  {
    assert siblings[0] in Children(views, kept, parentId);
    HasParent(views, siblings[0]);
    ChildGoesOn(Parents(views), parentId, path, siblings[0].id);
  }

  /** The siblings under a parent, each with its children, down to the leaves. */
  function Build(rank: string -> int, childrenOf: Siblings, parentId: Option<CategoryId>,
                 ghost views: seq<CategoryView>, ghost kept: set<CategoryId>, ghost path: set<CategoryId>)
    : (trees: seq<Tree>)
    requires Distinct(views) && Grouped(views, kept, childrenOf) && OnPath(Parents(views), parentId, path)
    decreases |Parents(views).Keys - path|, 1 + |SiblingsOf(childrenOf, parentId)|
  {
    var siblings := SiblingsOf(childrenOf, parentId);
    var sorted := SortSiblings(rank, siblings);
    assert AllOf(sorted, Children(views, kept, parentId)) by { SameMembers(sorted, siblings); }
    BuildEach(rank, childrenOf, parentId, sorted, views, kept, path)
  }

  function BuildEach(rank: string -> int, childrenOf: Siblings, ghost parentId: Option<CategoryId>,
                     siblings: seq<CategoryView>, ghost views: seq<CategoryView>, ghost kept: set<CategoryId>,
                     ghost path: set<CategoryId>): (trees: seq<Tree>)
    requires Distinct(views) && Grouped(views, kept, childrenOf) && OnPath(Parents(views), parentId, path)
    requires AllOf(siblings, Children(views, kept, parentId))
    ensures |trees| == |siblings| && forall i | 0 <= i < |trees| :: trees[i].category == siblings[i]
    decreases |Parents(views).Keys - path|, |siblings|
  {
    if siblings == [] then []
    else
      var category := siblings[0];
      FirstGoesOn(views, kept, parentId, path, siblings);
      var children := Build(rank, childrenOf, Some(category.id), views, kept, path + {category.id});
      [Tree(category, children)] + BuildEach(rank, childrenOf, parentId, siblings[1..], views, kept, path)
  }

  lemma {:induction false} SameMembers<T>(a: seq<T>, b: seq<T>)
    requires multiset(a) == multiset(b)
    ensures forall x :: x in a <==> x in b
  {
    forall x ensures x in a <==> x in b {
      assert x in a <==> x in multiset(a);
      assert x in b <==> x in multiset(b);
    }
  }

  // ---- What the tree lists ----

  function Flat(trees: seq<Tree>): seq<CategoryView> {
    if trees == [] then [] else [trees[0].category] + Flat(trees[0].children) + Flat(trees[1..])
  }

  /** Each tree under its parent, at every level. */
  predicate Placed(trees: seq<Tree>, parentId: Option<CategoryId>) {
    forall i | 0 <= i < |trees| ::
      trees[i].category.parentId == parentId && Placed(trees[i].children, Some(trees[i].category.id))
  }

  /** Siblings in order, at every level. */
  predicate Sorted(rank: string -> int, trees: seq<Tree>) {
    && (forall i, j | 0 <= i < j < |trees| :: Precedes(rank, trees[i].category, trees[j].category))
    && forall i | 0 <= i < |trees| :: Sorted(rank, trees[i].children)
  }

  /** `k` steps lead from the category up to the other one, both and all between them kept. */
  predicate Descends(byId: Nodes, kept: set<CategoryId>, id: CategoryId, top: CategoryId, k: nat)
    decreases k
  {
    && id in byId && id in kept
    && if k == 0 then id == top
       else byId[id].parentId.Some? && Descends(byId, kept, byId[id].parentId.value, top, k - 1)
  }

  ghost predicate Under(byId: Nodes, kept: set<CategoryId>, id: CategoryId, top: CategoryId) {
    exists k: nat :: Descends(byId, kept, id, top, k)
  }

  ghost predicate UnderSome(byId: Nodes, kept: set<CategoryId>, id: CategoryId, tops: seq<CategoryView>) {
    exists i :: 0 <= i < |tops| && Under(byId, kept, id, tops[i].id)
  }

  lemma {:induction false} DescendsClimbs(byId: Nodes, kept: set<CategoryId>, id: CategoryId, top: CategoryId, k: nat)
    requires Descends(byId, kept, id, top, k)
    ensures Climbs(byId, id, top, k) && top in byId && top in kept
    decreases k
  {
    if k == 0 {
    } else {
      DescendsClimbs(byId, kept, byId[id].parentId.value, top, k - 1);
    }
  }

  lemma {:induction false} ClimbsFurther(byId: Nodes, id: CategoryId, a: CategoryId, b: CategoryId, k: nat, m: nat)
    requires Climbs(byId, id, a, k) && Climbs(byId, id, b, m) && k <= m
    ensures Climbs(byId, a, b, m - k)
    decreases k
  {
    if k == 0 {
    } else {
      ClimbsFurther(byId, byId[id].parentId.value, a, b, k - 1, m - 1);
    }
  }

  /** Siblings are never above each other. */
  lemma {:induction false} SiblingsApart(byId: Nodes, parentId: Option<CategoryId>, path: set<CategoryId>,
                                         a: CategoryId, b: CategoryId, k: nat)
    requires OnPath(byId, parentId, path) && a in byId && b in byId
    requires byId[a].parentId == parentId && byId[b].parentId == parentId
    requires Climbs(byId, a, b, k)
    ensures a == b
  {
    if k > 0 {
      ClimbsOn(byId, a, b, k);
      var p := parentId.value;
      ClimbsFurther(byId, a, p, p, 1, k + 1);
      assert Above(byId, p, p);
      CycleIsNotRooted(byId, byId.Keys, p);
    }
  }

  lemma {:induction false} UnderOneSibling(byId: Nodes, kept: set<CategoryId>, parentId: Option<CategoryId>,
                                           path: set<CategoryId>, id: CategoryId, a: CategoryId, b: CategoryId)
    requires OnPath(byId, parentId, path) && a in byId && b in byId
    requires byId[a].parentId == parentId && byId[b].parentId == parentId
    requires Under(byId, kept, id, a) && Under(byId, kept, id, b)
    ensures a == b
  {
    var k: nat :| Descends(byId, kept, id, a, k);
    var m: nat :| Descends(byId, kept, id, b, m);
    DescendsClimbs(byId, kept, id, a, k);
    DescendsClimbs(byId, kept, id, b, m);
    if k <= m {
      ClimbsFurther(byId, id, a, b, k, m);
      SiblingsApart(byId, parentId, path, a, b, m - k);
    } else {
      ClimbsFurther(byId, id, b, a, m, k);
      SiblingsApart(byId, parentId, path, b, a, k - m);
    }
  }

  lemma {:induction false} LastStep(byId: Nodes, kept: set<CategoryId>, id: CategoryId, top: CategoryId, k: nat)
    returns (child: CategoryId)
    requires k > 0 && Descends(byId, kept, id, top, k)
    ensures Descends(byId, kept, id, child, k - 1)
    ensures child in byId && child in kept && byId[child].parentId == Some(top)
    decreases k
  {
    if k == 1 {
      child := id;
    } else {
      child := LastStep(byId, kept, byId[id].parentId.value, top, k - 1);
    }
  }

  lemma {:induction false} OneMoreStep(byId: Nodes, kept: set<CategoryId>, id: CategoryId, child: CategoryId,
                                       top: CategoryId, k: nat)
    requires Descends(byId, kept, id, child, k) && child in byId && byId[child].parentId == Some(top)
    requires top in byId && top in kept
    ensures Descends(byId, kept, id, top, k + 1)
    decreases k
  {
    if k == 0 {
    } else {
      OneMoreStep(byId, kept, byId[id].parentId.value, child, top, k - 1);
    }
  }

  /** Under a category: itself, or under one of its children. */
  lemma {:induction false} UnderByChildren(views: seq<CategoryView>, kept: set<CategoryId>, id: CategoryId,
                                           top: CategoryView)
    requires Distinct(views) && top in views && top.id in kept
    ensures Under(Parents(views), kept, id, top.id)
       <==> id == top.id || UnderSome(Parents(views), kept, id, Children(views, kept, Some(top.id)))
  {
    var byId, children := Parents(views), Children(views, kept, Some(top.id));
    HasParent(views, top);
    if id == top.id {
      assert Descends(byId, kept, id, top.id, 0);
    }
    if k: nat :| Descends(byId, kept, id, top.id, k) {
      if k > 0 {
        var childId := LastStep(byId, kept, id, top.id, k);
        var child := IsAmong(views, childId);
        assert child in children;
        var i :| 0 <= i < |children| && children[i] == child;
        assert Under(byId, kept, id, children[i].id);
      }
    }
    if i :| 0 <= i < |children| && Under(byId, kept, id, children[i].id) {
      var k: nat :| Descends(byId, kept, id, children[i].id, k);
      assert children[i] in children;
      HasParent(views, children[i]);
      OneMoreStep(byId, kept, id, children[i].id, top.id, k);
    }
  }

  /** A category on no cycle is not under its own children. */
  lemma {:induction false} NotUnderItsChildren(views: seq<CategoryView>, kept: set<CategoryId>, top: CategoryView)
    requires Distinct(views) && top in views && Rooted(Parents(views), Parents(views).Keys, top.id)
    ensures !UnderSome(Parents(views), kept, top.id, Children(views, kept, Some(top.id)))
  {
    var byId, children := Parents(views), Children(views, kept, Some(top.id));
    if i :| 0 <= i < |children| && Under(byId, kept, top.id, children[i].id) {
      var k: nat :| Descends(byId, kept, top.id, children[i].id, k);
      assert children[i] in children;
      HasParent(views, children[i]);
      DescendsClimbs(byId, kept, top.id, children[i].id, k);
      ClimbsOn(byId, top.id, children[i].id, k);
      assert Above(byId, top.id, top.id);
      CycleIsNotRooted(byId, byId.Keys, top.id);
    }
  }

  function Once(b: bool): nat { if b then 1 else 0 }

  lemma {:induction false} Lists(
      rank: string -> int, childrenOf: Siblings, parentId: Option<CategoryId>,
      views: seq<CategoryView>, kept: set<CategoryId>, path: set<CategoryId>, v: CategoryView)
    requires Distinct(views) && Grouped(views, kept, childrenOf) && OnPath(Parents(views), parentId, path)
    ensures multiset(Flat(Build(rank, childrenOf, parentId, views, kept, path)))[v]
         == Once(v in views && UnderSome(Parents(views), kept, v.id, Children(views, kept, parentId)))
    decreases |Parents(views).Keys - path|, 1 + |SiblingsOf(childrenOf, parentId)|
  {
    var siblings := SiblingsOf(childrenOf, parentId);
    var sorted := SortSiblings(rank, siblings);
    SameMembers(sorted, siblings);
    ChildrenDistinct(views, kept, parentId);
    DistinctAnyOrder(siblings, sorted);
    ListsEach(rank, childrenOf, parentId, sorted, views, kept, path, v);
    SameUnder(Parents(views), kept, v.id, sorted, siblings);
  }

  lemma {:induction false} SameUnder(byId: Nodes, kept: set<CategoryId>, id: CategoryId, a: seq<CategoryView>,
                                     b: seq<CategoryView>)
    requires forall v :: v in a <==> v in b
    ensures UnderSome(byId, kept, id, a) <==> UnderSome(byId, kept, id, b)
  {
    if i :| 0 <= i < |a| && Under(byId, kept, id, a[i].id) {
      assert a[i] in b;
      var j :| 0 <= j < |b| && b[j] == a[i];
    }
    if i :| 0 <= i < |b| && Under(byId, kept, id, b[i].id) {
      assert b[i] in a;
      var j :| 0 <= j < |a| && a[j] == b[i];
    }
  }

  lemma {:induction false} ChildrenDistinct(views: seq<CategoryView>, kept: set<CategoryId>,
                                            parentId: Option<CategoryId>)
    requires Distinct(views)
    ensures Distinct(Children(views, kept, parentId))
  {
    if views == [] {
    } else {
      var last, before := views[|views| - 1], views[..|views| - 1];
      ChildrenDistinct(before, kept, parentId);
      var children := Children(before, kept, parentId);
      forall i | 0 <= i < |children| ensures children[i].id != last.id {
        assert children[i] in before;
      }
    }
  }

  lemma {:induction false} DistinctAnyOrder(a: seq<CategoryView>, b: seq<CategoryView>)
    requires multiset(a) == multiset(b) && Distinct(a)
    ensures Distinct(b)
  {
    forall i, j | 0 <= i < j < |b| ensures b[i].id != b[j].id {
      if b[i].id == b[j].id {
        assert b[i] in multiset(b) && b[j] in multiset(b);
        assert b[i] in a && b[j] in a;
        assert b[i] == b[j];
        Twice(b, i, j);
        AtMostOnce(a, b[i]);
      }
    }
  }

  lemma {:induction false} Twice<T>(s: seq<T>, i: nat, j: nat)
    requires i < j < |s| && s[i] == s[j]
    ensures multiset(s)[s[i]] >= 2
  {
    assert s == s[..i] + [s[i]] + s[i + 1..j] + [s[j]] + s[j + 1..];
  }

  lemma {:induction false} AtMostOnce(s: seq<CategoryView>, v: CategoryView)
    requires Distinct(s)
    ensures multiset(s)[v] == Once(v in s)
  {
    if s == [] {
    } else {
      AtMostOnce(s[1..], v);
      assert s == [s[0]] + s[1..];
    }
  }

  lemma {:induction false} ListsEach(
      rank: string -> int, childrenOf: Siblings, parentId: Option<CategoryId>, siblings: seq<CategoryView>,
      views: seq<CategoryView>, kept: set<CategoryId>, path: set<CategoryId>, v: CategoryView)
    requires Distinct(views) && Grouped(views, kept, childrenOf) && OnPath(Parents(views), parentId, path)
    requires AllOf(siblings, Children(views, kept, parentId)) && Distinct(siblings)
    ensures multiset(Flat(BuildEach(rank, childrenOf, parentId, siblings, views, kept, path)))[v]
         == Once(v in views && UnderSome(Parents(views), kept, v.id, siblings))
    decreases |Parents(views).Keys - path|, |siblings|
  {
    if siblings == [] {
    } else {
      var category, rest := siblings[0], siblings[1..];
      FirstGoesOn(views, kept, parentId, path, siblings);
      Lists(rank, childrenOf, Some(category.id), views, kept, path + {category.id}, v);
      ListsEach(rank, childrenOf, parentId, rest, views, kept, path, v);
      UnderFirstOrRest(views, kept, parentId, path, siblings, v);
      FlatOfBoth(category, Build(rank, childrenOf, Some(category.id), views, kept, path + {category.id}),
                 BuildEach(rank, childrenOf, parentId, rest, views, kept, path), v);
    }
  }

  lemma {:induction false} FlatOfBoth(category: CategoryView, children: seq<Tree>, others: seq<Tree>, v: CategoryView)
    ensures multiset(Flat([Tree(category, children)] + others))[v]
         == (if v == category then 1 else 0) + multiset(Flat(children))[v] + multiset(Flat(others))[v]
  {
    assert ([Tree(category, children)] + others)[1..] == others;
    assert Flat([Tree(category, children)] + others) == [category] + Flat(children) + Flat(others);
  }

  /** A category is the first sibling, or under its children, or under the other siblings: one of the three at most. */
  lemma {:induction false} UnderFirstOrRest(views: seq<CategoryView>, kept: set<CategoryId>,
                                            parentId: Option<CategoryId>, path: set<CategoryId>,
                                            siblings: seq<CategoryView>, v: CategoryView)
    requires Distinct(views) && OnPath(Parents(views), parentId, path)
    requires siblings != [] && AllOf(siblings, Children(views, kept, parentId)) && Distinct(siblings)
    ensures Once(v in views && UnderSome(Parents(views), kept, v.id, siblings)) ==
            Once(v == siblings[0]) +
            Once(v in views && UnderSome(Parents(views), kept, v.id, Children(views, kept, Some(siblings[0].id)))) +
            Once(v in views && UnderSome(Parents(views), kept, v.id, siblings[1..]))
  {
    var byId, first, rest := Parents(views), siblings[0], siblings[1..];
    FirstGoesOn(views, kept, parentId, path, siblings);
    if v in views {
      UnderByChildren(views, kept, v.id, first);
      NotUnderItsChildren(views, kept, first);
      if Under(byId, kept, v.id, first.id) && UnderSome(byId, kept, v.id, rest) {
        var i :| 0 <= i < |rest| && Under(byId, kept, v.id, rest[i].id);
        assert rest[i] == siblings[i + 1] && siblings[i + 1] in Children(views, kept, parentId);
        HasParent(views, rest[i]);
        UnderOneSibling(byId, kept, parentId, path, v.id, first.id, rest[i].id);
      }
    }
  }

  /** Under a root, through kept categories only: a chain. */
  lemma {:induction false} UnderRoots(views: seq<CategoryView>, kept: set<CategoryId>, id: CategoryId)
    requires Distinct(views)
    ensures UnderSome(Parents(views), kept, id, Children(views, kept, None)) <==> Rooted(Parents(views), kept, id)
  {
    var byId, roots := Parents(views), Children(views, kept, None);
    if i :| 0 <= i < |roots| && Under(byId, kept, id, roots[i].id) {
      var k: nat :| Descends(byId, kept, id, roots[i].id, k);
      assert roots[i] in roots;
      HasParent(views, roots[i]);
      DescendsToRoot(byId, kept, id, roots[i].id, k);
    }
    if n: nat :| Chain(byId, kept, id, n) {
      var rootId := RootOf(byId, kept, id, n);
      var root := IsAmong(views, rootId);
      assert root in roots;
      var i :| 0 <= i < |roots| && roots[i] == root;
      assert Under(byId, kept, id, roots[i].id);
    }
  }

  lemma {:induction false} DescendsToRoot(byId: Nodes, kept: set<CategoryId>, id: CategoryId, root: CategoryId, k: nat)
    requires Descends(byId, kept, id, root, k) && root in byId && byId[root].parentId.None?
    ensures Chain(byId, kept, id, k)
    decreases k
  {
    if k == 0 {
    } else {
      DescendsToRoot(byId, kept, byId[id].parentId.value, root, k - 1);
    }
  }

  lemma {:induction false} RootOf(byId: Nodes, kept: set<CategoryId>, id: CategoryId, n: nat) returns (root: CategoryId)
    requires Chain(byId, kept, id, n)
    ensures Descends(byId, kept, id, root, n) && root in byId && root in kept && byId[root].parentId.None?
    decreases n
  {
    if n == 0 {
      root := id;
    } else {
      root := RootOf(byId, kept, byId[id].parentId.value, n - 1);
    }
  }

  lemma {:induction false} BuildsInOrder(
      rank: string -> int, childrenOf: Siblings, parentId: Option<CategoryId>,
      views: seq<CategoryView>, kept: set<CategoryId>, path: set<CategoryId>)
    requires Distinct(views) && Grouped(views, kept, childrenOf) && OnPath(Parents(views), parentId, path)
    ensures var trees := Build(rank, childrenOf, parentId, views, kept, path);
            Placed(trees, parentId) && Sorted(rank, trees)
    decreases |Parents(views).Keys - path|, 1 + |SiblingsOf(childrenOf, parentId)|
  {
    var siblings := SiblingsOf(childrenOf, parentId);
    var sorted := SortSiblings(rank, siblings);
    SameMembers(sorted, siblings);
    ChildrenDistinct(views, kept, parentId);
    SortsInOrder(rank, siblings);
    EachInOrder(rank, childrenOf, parentId, sorted, views, kept, path);
  }

  lemma {:induction false} EachInOrder(
      rank: string -> int, childrenOf: Siblings, parentId: Option<CategoryId>, siblings: seq<CategoryView>,
      views: seq<CategoryView>, kept: set<CategoryId>, path: set<CategoryId>)
    requires Distinct(views) && Grouped(views, kept, childrenOf) && OnPath(Parents(views), parentId, path)
    requires AllOf(siblings, Children(views, kept, parentId)) && InOrder(rank, siblings)
    ensures var trees := BuildEach(rank, childrenOf, parentId, siblings, views, kept, path);
            Placed(trees, parentId) && Sorted(rank, trees)
    decreases |Parents(views).Keys - path|, |siblings|
  {
    if siblings == [] {
    } else {
      var category, rest := siblings[0], siblings[1..];
      FirstGoesOn(views, kept, parentId, path, siblings);
      BuildsInOrder(rank, childrenOf, Some(category.id), views, kept, path + {category.id});
      EachInOrder(rank, childrenOf, parentId, rest, views, kept, path);
      var children := Build(rank, childrenOf, Some(category.id), views, kept, path + {category.id});
      var trees := BuildEach(rank, childrenOf, parentId, rest, views, kept, path);
      FirstAndRest(rank, Tree(category, children), trees, parentId);
    }
  }

  lemma {:induction false} FirstAndRest(rank: string -> int, first: Tree, rest: seq<Tree>, parentId: Option<CategoryId>)
    requires first.category.parentId == parentId && Placed(first.children, Some(first.category.id))
    requires Placed(rest, parentId)
    requires Sorted(rank, first.children) && Sorted(rank, rest)
    requires forall i | 0 <= i < |rest| :: Precedes(rank, first.category, rest[i].category)
    ensures Placed([first] + rest, parentId) && Sorted(rank, [first] + rest)
  {
  }

  /** The trees list exactly these categories, each once. */
  ghost predicate ListsExactly(trees: seq<Tree>, views: seq<CategoryView>, ids: iset<CategoryId>) {
    forall v :: multiset(Flat(trees))[v] == Once(v in views && v.id in ids)
  }

  ghost function RootedIds(byId: Nodes, on: set<CategoryId>): iset<CategoryId> { iset id | Rooted(byId, on, id) }

  /**
   * The kept categories as a tree: each one with kept ancestors up to a root once, under its own parent, with its
   * siblings in order, even when other categories are on a cycle.
   */
  method TreeOf(rank: string -> int, views: seq<CategoryView>, kept: set<CategoryId>) returns (trees: seq<Tree>)
    requires Distinct(views)
    ensures ListsExactly(trees, views, RootedIds(Parents(views), kept))
    ensures Placed(trees, None) && Sorted(rank, trees)
  {
    var childrenOf := GroupByParent(views, kept);
    trees := Build(rank, childrenOf, None, views, kept, {});
    BuildsInOrder(rank, childrenOf, None, views, kept, {});
    forall v ensures multiset(Flat(trees))[v] == Once(v in views && v.id in RootedIds(Parents(views), kept)) {
      Lists(rank, childrenOf, None, views, kept, {}, v);
      UnderRoots(views, kept, v.id);
    }
  }

  lemma {:induction false} VisibleChain(byId: Nodes, visible: set<CategoryId>, id: CategoryId, n: nat)
    requires forall v :: v in visible <==> Visible(byId, v)
    requires Chain(byId, Active(byId), id, n)
    ensures Chain(byId, visible, id, n)
    decreases n
  {
    assert Visible(byId, id);
    if n > 0 {
      VisibleChain(byId, visible, byId[id].parentId.value, n - 1);
    }
  }

  lemma {:induction false} KeptChain(byId: Nodes, kept: set<CategoryId>, id: CategoryId, n: nat)
    requires HoldsParents(byId, kept) && id in kept && Chain(byId, byId.Keys, id, n)
    ensures Chain(byId, kept, id, n)
    decreases n
  {
    if n == 0 {
    } else {
      KeptChain(byId, kept, byId[id].parentId.value, n - 1);
    }
  }

  ghost function VisibleIds(byId: Nodes): iset<CategoryId> { iset id | Visible(byId, id) }

  /** The tree of the store: the visible categories. */
  method PublicCategoryTree(rank: string -> int, views: seq<CategoryView>) returns (trees: seq<Tree>)
    requires Distinct(views)
    ensures ListsExactly(trees, views, VisibleIds(Parents(views)))
    ensures Placed(trees, None) && Sorted(rank, trees)
  {
    var visible := VisibleCategoryIds(NodesOf(views));
    trees := TreeOf(rank, views, visible);
    ghost var byId := Parents(views);
    forall id ensures Rooted(byId, visible, id) <==> Visible(byId, id) {
      if n: nat :| Chain(byId, Active(byId), id, n) {
        VisibleChain(byId, visible, id, n);
      }
      if n: nat :| Chain(byId, visible, id, n) {
        assert id in visible;
      }
    }
    assert RootedIds(byId, visible) == VisibleIds(byId);
  }

  /**
   * The tree of the administration: every category, or those in the given statuses with the ancestors that lead to
   * them, and no more. On a forest it lists all that it keeps.
   */
  method AdminCategoryTree(rank: string -> int, views: seq<CategoryView>, statuses: Option<set<bool>>)
    returns (trees: seq<Tree>, ghost kept: set<CategoryId>)
    requires Distinct(views)
    ensures Forest(Parents(views)) ==> ListsExactly(trees, views, iset id | id in kept)
    ensures statuses == None ==> kept == Parents(views).Keys
    ensures statuses.Some? ==>
      Matching(views, statuses.value) <= kept && HoldsParents(Parents(views), kept)
      && Least(Parents(views), Matching(views, statuses.value), kept)
    ensures Placed(trees, None) && Sorted(rank, trees)
  {
    var ids := Parents(views).Keys;
    if statuses.Some? {
      ids := AdminKept(views, statuses.value);
    }
    kept := ids;
    trees := TreeOf(rank, views, ids);
    ghost var byId := Parents(views);
    if Forest(byId) {
      forall id ensures Rooted(byId, ids, id) <==> id in ids {
        if id in ids {
          var n: nat :| Chain(byId, byId.Keys, id, n);
          KeptChain(byId, ids, id, n);
        }
      }
      assert RootedIds(byId, ids) == iset id | id in kept;
    }
  }
}
