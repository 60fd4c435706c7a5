/**
 * Changes to the tree of categories by transactions that interleave: when the categories stay a forest, and when not.
 */
module CategoryMoves {
  import opened CategoryVisibility
  import opened Collections
  import opened Wrappers

  datatype CategoryError = CategoryCycle | InvalidStateTransition | InactiveParent | UnusableParent

  /** A category as one transaction holds it, between reading and saving it. */
  class Category {
    var state: CategoryNode

    /** A new active category. */
    constructor (id: CategoryId, parentId: Option<CategoryId>)
      ensures state == CategoryNode(id, parentId, true)
    {
      state := CategoryNode(id, parentId, true);
    }

    /** The caller reads the lineage of the new parent, itself included, under the lock of the tree. */
    method MoveUnder(parentId: Option<CategoryId>, parentLineage: seq<CategoryId>)
      returns (r: Result<(), CategoryError>)
      modifies this
      ensures r == if parentId == Some(old(state.id)) || old(state.id) in parentLineage then Err(CategoryCycle)
              else Ok(())
      ensures state == if r.Ok? then old(state).(parentId := parentId) else old(state)
    {
      if parentId == Some(state.id) || state.id in parentLineage { return Err(CategoryCycle); }
      state := state.(parentId := parentId);
      r := Ok(());
    }

    method Deactivate() returns (r: Result<(), CategoryError>)
      modifies this
      ensures r == if old(state.active) then Ok(()) else Err(InvalidStateTransition)
      ensures state == old(state).(active := false)
    {
      if !state.active { return Err(InvalidStateTransition); }
      state := state.(active := false);
      r := Ok(());
    }

    /** `parentActive` is `None` for a root. */
    method Reactivate(parentActive: Option<bool>) returns (r: Result<(), CategoryError>)
      modifies this
      ensures r == if old(state.active) then Err(InvalidStateTransition)
                   else if parentActive == Some(false) then Err(InactiveParent) else Ok(())
      ensures state == if r.Ok? then old(state).(active := true) else old(state)
    {
      if state.active { return Err(InvalidStateTransition); }
      if parentActive == Some(false) { return Err(InactiveParent); }
      state := state.(active := true);
      r := Ok(());
    }
  }

  // ---- The lineage of a category ----

  /** The category and all above it. */
  ghost predicate InLineage(rows: Nodes, id: CategoryId, a: CategoryId) {
    a in rows && exists k: nat :: Climbs(rows, id, a, k)
  }

  /** The recursive query: it stops at a root, at a missing category or at one it already has. */
  method Lineage(rows: Nodes, id: CategoryId) returns (ids: seq<CategoryId>)
    ensures forall a :: a in ids <==> InLineage(rows, id, a)
  {
    ids := [];
    var current := Some(id);
    ghost var seen: set<CategoryId> := {};
    assert Climbs(rows, id, id, 0);
    while current.Some? && current.value in rows && current.value !in ids
      invariant forall a :: a in seen <==> a in ids
      invariant seen <= rows.Keys
      invariant forall a | a in ids :: InLineage(rows, id, a)
      invariant current.Some? ==> exists k: nat :: Climbs(rows, id, current.value, k)
      invariant id in ids || current == Some(id)
      invariant forall a | a in ids && rows[a].parentId.Some? ::
                  rows[a].parentId.value in ids || current == rows[a].parentId
      decreases |rows.Keys - seen|
    {
      var next := current.value;
      var k: nat :| Climbs(rows, id, next, k);
      if rows[next].parentId.Some? {
        ClimbsOn(rows, id, next, k);
      }
      ProperSubsetIsSmaller(rows.Keys - (seen + {next}), rows.Keys - seen);
      ids, seen := ids + [next], seen + {next};
      current := rows[next].parentId;
    }
    forall a | InLineage(rows, id, a) ensures a in ids {
      var k: nat :| Climbs(rows, id, a, k);
      HasAllAbove(rows, ids, id, a, k);
    }
  }

  lemma {:induction false} HasAllAbove(rows: Nodes, ids: seq<CategoryId>, id: CategoryId, a: CategoryId, k: nat)
    requires id in rows ==> id in ids
    requires forall b | b in ids && b in rows && rows[b].parentId.Some? && rows[b].parentId.value in rows ::
               rows[b].parentId.value in ids
    requires Climbs(rows, id, a, k) && a in rows
    ensures a in ids
    decreases k
  {
    if k == 0 {
    } else {
      HasAllAbove(rows, ids, rows[id].parentId.value, a, k - 1);
    }
  }

  // ---- One save ----

  /** The row is written with that parent, new or not. */
  function Saved(rows: Nodes, id: CategoryId, parentId: Option<CategoryId>, active: bool): Nodes {
    rows[id := CategoryNode(id, parentId, active)]
  }

  lemma {:induction false} ChainAvoids(rows: Nodes, after: Nodes, id: CategoryId, c: CategoryId, n: nat)
    requires Chain(rows, rows.Keys, c, n) && !InLineage(rows, c, id)
    requires rows.Keys <= after.Keys && forall b | b in rows && b != id :: after[b].parentId == rows[b].parentId
    ensures Chain(after, after.Keys, c, n)
    decreases n
  {
    assert Climbs(rows, c, c, 0);
    if n > 0 {
      var parent := rows[c].parentId.value;
      if InLineage(rows, parent, id) {
        var k: nat :| Climbs(rows, parent, id, k);
        assert Climbs(rows, c, id, k + 1);
      }
      ChainAvoids(rows, after, id, parent, n - 1);
    }
  }

  lemma {:induction false} ChainThrough(rows: Nodes, after: Nodes, id: CategoryId, c: CategoryId, n: nat)
    requires Chain(rows, rows.Keys, c, n) && Rooted(after, after.Keys, id)
    requires rows.Keys <= after.Keys && forall b | b in rows && b != id :: after[b].parentId == rows[b].parentId
    ensures Rooted(after, after.Keys, c)
    decreases n
  {
    if c == id {
    } else {
      if n == 0 {
        assert Chain(after, after.Keys, c, 0);
      } else {
        var parent := rows[c].parentId.value;
        ChainThrough(rows, after, id, parent, n - 1);
        var m: nat :| Chain(after, after.Keys, parent, m);
        assert Chain(after, after.Keys, c, m + 1);
      }
    }
  }

  lemma {:induction false} ClimbsStill(rows: Nodes, after: Nodes, from: CategoryId, id: CategoryId, k: nat)
    returns (m: nat)
    requires Climbs(rows, from, id, k)
    requires forall b | b in rows && b != id :: b in after && after[b].parentId == rows[b].parentId
    ensures Climbs(after, from, id, m)
    decreases k
  {
    if from == id {
      m := 0;
    } else {
      var rest := ClimbsStill(rows, after, rows[from].parentId.value, id, k - 1);
      m := rest + 1;
    }
  }

  /** A parent that a save may take: the foreign key holds, and the category is not in its lineage. */
  ghost predicate Acceptable(rows: Nodes, id: CategoryId, parentId: Option<CategoryId>) {
    parentId.None? || (parentId.value in rows && parentId != Some(id) && !InLineage(rows, parentId.value, id))
  }

  /**
   * Saving a category of a forest, moved or as another transaction read it, leaves a forest exactly when the check
   * passes.
   */
  lemma {:induction false} SaveKeepsForest(rows: Nodes, id: CategoryId, parentId: Option<CategoryId>, active: bool)
    requires Forest(rows)
    ensures Forest(Saved(rows, id, parentId, active)) <==> Acceptable(rows, id, parentId)
  {
    var after := Saved(rows, id, parentId, active);
    if Acceptable(rows, id, parentId) {
      if parentId.None? {
        assert Chain(after, after.Keys, id, 0);
      } else {
        var n: nat :| Chain(rows, rows.Keys, parentId.value, n);
        ChainAvoids(rows, after, id, parentId.value, n);
        assert Chain(after, after.Keys, id, n + 1);
      }
      forall c | c in after ensures Rooted(after, after.Keys, c) {
        if c != id {
          var n: nat :| Chain(rows, rows.Keys, c, n);
          ChainThrough(rows, after, id, c, n);
        }
      }
    } else {
      var parent := parentId.value;
      if Forest(after) {
        var n: nat :| Chain(after, after.Keys, id, n);
        assert Chain(after, after.Keys, parent, n - 1);
        var k: nat;
        if parent == id {
          k := 0;
        } else {
          var j: nat :| Climbs(rows, parent, id, j);
          k := ClimbsStill(rows, after, parent, id, j);
        }
        assert Climbs(after, id, id, k + 1);
        CycleIsNotRooted(after, after.Keys, id);
        assert false;
      }
    }
  }

  // ---- Transactions that interleave ----

  type TransactionId = nat

  /** An update under way: read without a lock, moving under the lock of the tree, or checked under it. */
  datatype Update =
    | Loaded(id: CategoryId, parentId: Option<CategoryId>)
    | Moving(id: CategoryId, to: Option<CategoryId>)
    | Checked(id: CategoryId, to: Option<CategoryId>)

  /** The table, every ID ever used, the holder of the lock of the tree, and the updates under way. */
  datatype System = System(rows: Nodes, used: set<CategoryId>, lock: Option<TransactionId>,
                           updates: map<TransactionId, Update>)

  datatype Step =
    | Create(id: CategoryId, parentId: Option<CategoryId>)
    | Delete(id: CategoryId)
    | Load(tx: TransactionId, id: CategoryId)
    | LockTree(tx: TransactionId, to: Option<CategoryId>)
    | CheckMove(tx: TransactionId)
    | SaveMoved(tx: TransactionId, active: bool)
    | SaveUnmoved(tx: TransactionId, active: bool)
    | Abort(tx: TransactionId)

  /** The foreign key of the parent. */
  predicate Refers(rows: Nodes, parentId: Option<CategoryId>) { parentId.None? || parentId.value in rows }

  predicate HasChild(rows: Nodes, id: CategoryId) { exists c | c in rows :: rows[c].parentId == Some(id) }

  /** When each step can be taken: each one is a statement, or the statements up to the commit. */
  ghost predicate Enabled(s: System, step: Step) {
    match step
    case Create(id, parentId) => id !in s.used && Refers(s.rows, parentId)
    case Delete(id) => id in s.rows && !HasChild(s.rows, id)
    case Load(tx, id) => tx !in s.updates && id in s.rows
    case LockTree(tx, to) =>
      tx in s.updates && s.updates[tx].Loaded? && s.lock == None && to != s.updates[tx].parentId
    case CheckMove(tx) =>
      tx in s.updates && s.updates[tx].Moving?
      && (s.updates[tx].to.Some? ==> s.updates[tx].to.value in s.rows && s.rows[s.updates[tx].to.value].active)
      && Accepted(s.rows, s.updates[tx].id, s.updates[tx].to)
    case SaveMoved(tx, _) => tx in s.updates && s.updates[tx].Checked? && Refers(s.rows, s.updates[tx].to)
    case SaveUnmoved(tx, _) => tx in s.updates && s.updates[tx].Loaded? && Refers(s.rows, s.updates[tx].parentId)
    case Abort(tx) => tx in s.updates
  }

  /** `MoveUnder` with the lineage of the new parent takes the move. */
  ghost predicate Accepted(rows: Nodes, id: CategoryId, to: Option<CategoryId>) {
    to != Some(id) && (to.Some? ==> !InLineage(rows, to.value, id))
  }

  function Unlock(s: System, tx: TransactionId): System {
    s.(lock := if s.lock == Some(tx) then None else s.lock, updates := s.updates - {tx})
  }

  function Apply(s: System, step: Step): System
    requires Enabled(s, step)
  {
    match step
    case Create(id, parentId) => s.(rows := Saved(s.rows, id, parentId, true), used := s.used + {id})
    case Delete(id) => s.(rows := s.rows - {id})
    case Load(tx, id) => s.(updates := s.updates[tx := Loaded(id, s.rows[id].parentId)])
    case LockTree(tx, to) => s.(lock := Some(tx), updates := s.updates[tx := Moving(s.updates[tx].id, to)])
    case CheckMove(tx) => s.(updates := s.updates[tx := Checked(s.updates[tx].id, s.updates[tx].to)])
    case SaveMoved(tx, active) =>
      var u := s.updates[tx];
      Unlock(s.(rows := Saved(s.rows, u.id, u.to, active)), tx)
    case SaveUnmoved(tx, active) =>
      var u := s.updates[tx];
      Unlock(s.(rows := Saved(s.rows, u.id, u.parentId, active)), tx)
    case Abort(tx) => Unlock(s, tx)
  }

  /** An update without a move finds the parent it read still there: nobody moved or deleted its category meanwhile. */
  predicate Current(s: System, step: Step) {
    step.SaveUnmoved? && step.tx in s.updates && s.updates[step.tx].Loaded? ==>
      s.updates[step.tx].id in s.rows && s.rows[s.updates[step.tx].id].parentId == s.updates[step.tx].parentId
  }

  /** What the holder of the lock has checked stays true of the categories there are. */
  ghost predicate StillAcceptable(s: System, u: Update)
    requires u.Checked?
  {
    && u.id in s.used && u.to != Some(u.id)
    && (u.to.Some? ==> u.to.value in s.used && (u.to.value in s.rows ==> !InLineage(s.rows, u.to.value, u.id)))
  }

  ghost predicate Inv(s: System) {
    && s.rows.Keys <= s.used && Forest(s.rows)
    && (forall tx | tx in s.updates :: s.updates[tx].id in s.used)
    && (forall tx | tx in s.updates && !s.updates[tx].Loaded? :: s.lock == Some(tx))
    && (forall tx | tx in s.updates && s.updates[tx].Checked? :: StillAcceptable(s, s.updates[tx]))
  }

  /** Writing that parent makes no cycle of the move checked: the move does not reach its own category through it. */
  ghost predicate Spares(rows: Nodes, id: CategoryId, parentId: Option<CategoryId>, move: Update)
    requires move.Checked?
  {
    move.to.Some? && parentId.Some? && (move.to.value == id || InLineage(rows, move.to.value, id)) ==>
      !InLineage(rows, parentId.value, move.id)
  }

  /**
   * An update without a move writes back a parent that the check of a move would accept, and that spares the move
   * checked meanwhile, if any.
   */
  ghost predicate Harmless(s: System, step: Step)
    requires Enabled(s, step)
  {
    step.SaveUnmoved? ==>
      var u := s.updates[step.tx];
      && Acceptable(s.rows, u.id, u.parentId)
      && forall tx | tx in s.updates && s.updates[tx].Checked? :: Spares(s.rows, u.id, u.parentId, s.updates[tx])
  }

  lemma {:induction false} ParentsAreThere(rows: Nodes, id: CategoryId)
    requires Forest(rows) && id in rows && rows[id].parentId.Some?
    ensures rows[id].parentId.value in rows
  {
    var n: nat :| Chain(rows, rows.Keys, id, n);
    assert Chain(rows, rows.Keys, rows[id].parentId.value, n - 1);
  }

  /** Climbing among the rows of a forest never meets a category that is not there. */
  lemma {:induction false} ClimbsWithin(rows: Nodes, after: Nodes, from: CategoryId, a: CategoryId, k: nat)
    requires Forest(rows) && from in rows && Climbs(after, from, a, k)
    requires forall b | b in rows && b in after :: after[b].parentId == rows[b].parentId
    ensures a in rows && Climbs(rows, from, a, k)
    decreases k
  {
    if k == 0 {
    } else {
      ParentsAreThere(rows, from);
      ClimbsWithin(rows, after, after[from].parentId.value, a, k - 1);
    }
  }

  /** A step that changes no parent changes no lineage. */
  lemma {:induction false} LineageStays(rows: Nodes, after: Nodes, from: CategoryId, a: CategoryId)
    requires Forest(rows) && from in rows && !InLineage(rows, from, a)
    requires forall b | b in rows && b in after :: after[b].parentId == rows[b].parentId
    ensures !InLineage(after, from, a)
  {
    if InLineage(after, from, a) {
      var k: nat :| Climbs(after, from, a, k);
      ClimbsWithin(rows, after, from, a, k);
    }
  }

  lemma {:induction false} DeletingKeepsForest(rows: Nodes, id: CategoryId)
    requires Forest(rows) && id in rows && !HasChild(rows, id)
    ensures Forest(rows - {id})
  {
    var after := rows - {id};
    forall c | c in after ensures Rooted(after, after.Keys, c) {
      var n: nat :| Chain(rows, rows.Keys, c, n);
      ChainWithoutLeaf(rows, id, c, n);
    }
  }

  lemma {:induction false} ChainWithoutLeaf(rows: Nodes, leaf: CategoryId, c: CategoryId, n: nat)
    requires !HasChild(rows, leaf) && c != leaf && Chain(rows, rows.Keys, c, n)
    ensures Chain(rows - {leaf}, (rows - {leaf}).Keys, c, n)
    decreases n
  {
    if n == 0 {
    } else {
      ChainWithoutLeaf(rows, leaf, rows[c].parentId.value, n - 1);
    }
  }

  lemma {:induction false} StepKeepsForest(s: System, step: Step)
    requires Inv(s) && Enabled(s, step) && Harmless(s, step)
    ensures Forest(Apply(s, step).rows)
  {
    match step
    case Create(id, parentId) =>
      assert Acceptable(s.rows, id, parentId);
      SaveKeepsForest(s.rows, id, parentId, true);
    case Delete(id) => DeletingKeepsForest(s.rows, id);
    case SaveMoved(tx, active) => SaveKeepsForest(s.rows, s.updates[tx].id, s.updates[tx].to, active);
    case SaveUnmoved(tx, active) => SaveKeepsForest(s.rows, s.updates[tx].id, s.updates[tx].parentId, active);
    case _ =>
  }

  /** A category of a forest may keep its own parent. */
  lemma {:induction false} OwnParentIsAcceptable(rows: Nodes, id: CategoryId)
    requires Forest(rows) && id in rows
    ensures Acceptable(rows, id, rows[id].parentId)
  {
    if rows[id].parentId.Some? {
      var parent := rows[id].parentId.value;
      ParentsAreThere(rows, id);
      if parent == id {
        assert Climbs(rows, id, id, 1);
        CycleIsNotRooted(rows, rows.Keys, id);
      } else if InLineage(rows, parent, id) {
        var k: nat :| Climbs(rows, parent, id, k);
        assert Climbs(rows, id, id, k + 1);
        CycleIsNotRooted(rows, rows.Keys, id);
      }
    }
  }

  /** A step other than an update without a move leaves the checks of the others as they were. */
  lemma {:induction false} ChecksStay(s: System, step: Step, tx: TransactionId)
    requires Inv(s) && Enabled(s, step) && !step.SaveUnmoved?
    requires var t := Apply(s, step); tx in t.updates && t.updates[tx].Checked?
    ensures StillAcceptable(Apply(s, step), Apply(s, step).updates[tx])
  {
    var t := Apply(s, step);
    var u := t.updates[tx];
    if step.CheckMove? && step.tx == tx {
    } else {
      assert u == s.updates[tx];
      if u.to.Some? && u.to.value in s.rows {
        LineageStays(s.rows, t.rows, u.to.value, u.id);
      }
    }
  }

  lemma {:induction false} StepIsSafe(s: System, step: Step)
    requires Inv(s) && Enabled(s, step) && Harmless(s, step)
    ensures Inv(Apply(s, step))
  {
    if step.SaveUnmoved? {
      WhenAStaleSaveIsSafe(s, step);
    } else {
      StepKeepsForest(s, step);
      var t := Apply(s, step);
      forall tx | tx in t.updates && t.updates[tx].Checked? ensures StillAcceptable(t, t.updates[tx]) {
        ChecksStay(s, step, tx);
      }
    }
  }

  ghost predicate Leads(s: System, steps: seq<Step>, t: System)
    decreases steps
  {
    if steps == [] then s == t
    else Enabled(s, steps[0]) && Leads(Apply(s, steps[0]), steps[1..], t)
  }

  ghost predicate AllHarmless(s: System, steps: seq<Step>)
    decreases steps
  {
    steps != [] && Enabled(s, steps[0]) ==> Harmless(s, steps[0]) && AllHarmless(Apply(s, steps[0]), steps[1..])
  }

  const EMPTY := System(map[], {}, None, map[])

  /**
   * Creations, moves under the lock of the tree, other changes and deletions of leaves, interleaved in any way: the
   * categories stay a forest, as long as no update without a move does harm.
   */
  lemma {:induction false} RunKeepsForest(s: System, steps: seq<Step>, t: System)
    requires Inv(s) && Leads(s, steps, t) && AllHarmless(s, steps)
    ensures Inv(t)
    decreases steps
  {
    if steps == [] {
    } else {
      StepIsSafe(s, steps[0]);
      RunKeepsForest(Apply(s, steps[0]), steps[1..], t);
    }
  }

  /** So every run from the empty table ends with a forest. */
  lemma {:induction false} ReachableIsForest(steps: seq<Step>, t: System)
    requires Leads(EMPTY, steps, t) && AllHarmless(EMPTY, steps)
    ensures Inv(EMPTY) && Forest(t.rows)
  {
    assert Inv(EMPTY);
    RunKeepsForest(EMPTY, steps, t);
  }

  // ---- Updates without a move ----

  /** Writing back the parent that is there does no harm. */
  lemma {:induction false} CurrentIsHarmless(s: System, step: Step)
    requires Inv(s) && Enabled(s, step) && Current(s, step)
    ensures Harmless(s, step)
  {
    if step.SaveUnmoved? {
      var u := s.updates[step.tx];
      OwnParentIsAcceptable(s.rows, u.id);
      forall tx | tx in s.updates && s.updates[tx].Checked? ensures Spares(s.rows, u.id, u.parentId, s.updates[tx]) {
        var move := s.updates[tx];
        if !Spares(s.rows, u.id, u.parentId, move) {
          assert Climbs(s.rows, u.id, u.id, 0);
          var k: nat :| Climbs(s.rows, move.to.value, u.id, k);
          var m: nat :| Climbs(s.rows, u.parentId.value, move.id, m);
          assert Climbs(s.rows, u.id, move.id, m + 1);
          ClimbsTogether(s.rows, move.to.value, u.id, move.id, k, m + 1);
        }
      }
    }
  }

  lemma {:induction false} ClimbsTogether(rows: Nodes, a: CategoryId, b: CategoryId, c: CategoryId, k: nat, m: nat)
    requires Climbs(rows, a, b, k) && Climbs(rows, b, c, m)
    ensures Climbs(rows, a, c, k + m)
    decreases k
  {
    if k == 0 {
    } else {
      ClimbsTogether(rows, rows[a].parentId.value, b, c, k - 1, m);
    }
  }

  /** Above a category that does not have `id` above it, writing `id` changes nothing. */
  lemma {:induction false} ClimbsAvoid(rows: Nodes, after: Nodes, id: CategoryId, from: CategoryId, a: CategoryId,
                                       k: nat)
    requires Forest(rows) && from in rows && !InLineage(rows, from, id)
    requires after.Keys == rows.Keys + {id} && forall b | b in rows && b != id :: after[b] == rows[b]
    ensures Climbs(after, from, a, k) <==> Climbs(rows, from, a, k)
    decreases k
  {
    assert Climbs(rows, from, from, 0);
    if k > 0 && rows[from].parentId.Some? {
      var parent := rows[from].parentId.value;
      ParentsAreThere(rows, from);
      if InLineage(rows, parent, id) {
        var m: nat :| Climbs(rows, parent, id, m);
        assert Climbs(rows, from, id, m + 1);
      }
      ClimbsAvoid(rows, after, id, parent, a, k - 1);
    }
  }

  ghost predicate Reaches(rows: Nodes, from: CategoryId, a: CategoryId) { exists k: nat :: Climbs(rows, from, a, k) }

  /** Whatever is above a category after `id` is written was so before, or is above `id`. */
  lemma {:induction false} ClimbsByWay(rows: Nodes, after: Nodes, id: CategoryId, from: CategoryId, a: CategoryId,
                                       k: nat)
    requires Forest(rows) && (from in rows || from == id) && Climbs(after, from, a, k)
    requires after.Keys == rows.Keys + {id} && forall b | b in rows && b != id :: after[b] == rows[b]
    ensures Reaches(rows, from, a) || ((from == id || InLineage(rows, from, id)) && Reaches(after, id, a))
    decreases k
  {
    if from == id {
      assert Climbs(after, id, a, k);
    } else {
      if k == 0 {
        assert Climbs(rows, from, a, 0);
      } else {
        var parent := rows[from].parentId.value;
        ParentsAreThere(rows, from);
        ClimbsByWay(rows, after, id, parent, a, k - 1);
        if Reaches(rows, parent, a) {
          var m: nat :| Climbs(rows, parent, a, m);
          assert Climbs(rows, from, a, m + 1);
        } else if parent == id {
          assert Climbs(rows, id, id, 0) && Climbs(rows, from, id, 1);
        } else {
          var m: nat :| Climbs(rows, parent, id, m);
          assert Climbs(rows, from, id, m + 1);
        }
      }
    }
  }

  /** After a save that the check accepts, the move checked meanwhile is still acceptable exactly when it was spared. */
  lemma {:induction false} WhenAMoveIsSpared(
    s: System, t: System, id: CategoryId, parentId: Option<CategoryId>, active: bool, move: Update)
    requires Forest(s.rows) && Acceptable(s.rows, id, parentId) && move.Checked? && StillAcceptable(s, move)
    requires id in s.used && t.used == s.used && t.rows == Saved(s.rows, id, parentId, active)
    ensures StillAcceptable(t, move) <==> Spares(s.rows, id, parentId, move)
  {
    if move.to.Some? && move.to.value in t.rows {
      var to := move.to.value;
      if Spares(s.rows, id, parentId, move) {
        if InLineage(t.rows, to, move.id) {
          SparedHasNoCycle(s.rows, t.rows, id, parentId, to, move.id);
        }
      } else {
        assert Climbs(s.rows, id, id, 0);
        var k: nat :| Climbs(s.rows, to, id, k);
        var j: nat :| Climbs(s.rows, parentId.value, move.id, j);
        var m := ClimbsStill(s.rows, t.rows, to, id, k);
        ClimbsAvoid(s.rows, t.rows, id, parentId.value, move.id, j);
        assert Climbs(t.rows, id, move.id, j + 1);
        ClimbsTogether(t.rows, to, id, move.id, m, j + 1);
        assert InLineage(t.rows, to, move.id);
      }
    }
  }

  lemma {:induction false} SparedHasNoCycle(rows: Nodes, after: Nodes, id: CategoryId, parentId: Option<CategoryId>,
                                            to: CategoryId, moved: CategoryId)
    requires Forest(rows) && Acceptable(rows, id, parentId) && after.Keys == rows.Keys + {id}
    requires after[id].parentId == parentId
    requires forall b | b in rows && b != id :: after[b] == rows[b]
    requires to in after && to != moved && (to in rows ==> !InLineage(rows, to, moved)) && InLineage(after, to, moved)
    ensures (to == id || InLineage(rows, to, id)) && parentId.Some? && InLineage(rows, parentId.value, moved)
  {
    var k: nat :| Climbs(after, to, moved, k);
    ClimbsByWay(rows, after, id, to, moved, k);
    if Reaches(rows, to, moved) {
      if to in rows {
        var n: nat :| Climbs(rows, to, moved, n);
        ClimbsWithin(rows, rows, to, moved, n);
      }
    } else {
      var m: nat :| Climbs(after, id, moved, m);
      if m > 0 {
        ClimbsAvoid(rows, after, id, parentId.value, moved, m - 1);
        ClimbsWithin(rows, rows, parentId.value, moved, m - 1);
      }
    }
  }

  /** Exactly when an update without a move keeps the forest and the check of the move under way, stale or not. */
  lemma {:induction false} WhenAStaleSaveIsSafe(s: System, step: Step)
    requires Inv(s) && step.SaveUnmoved? && Enabled(s, step)
    ensures Inv(Apply(s, step)) <==> Harmless(s, step)
  {
    var t, u := Apply(s, step), s.updates[step.tx];
    SaveKeepsForest(s.rows, u.id, u.parentId, step.active);
    if Acceptable(s.rows, u.id, u.parentId) {
      forall tx | tx in s.updates && s.updates[tx].Checked?
        ensures tx in t.updates
        ensures StillAcceptable(t, s.updates[tx]) <==> Spares(s.rows, u.id, u.parentId, s.updates[tx])
      {
        WhenAMoveIsSpared(s, t, u.id, u.parentId, step.active, s.updates[tx]);
      }
    }
  }

  /** One that does harm makes a cycle, or the move checked meanwhile makes one as soon as it is saved. */
  lemma {:induction false} HarmMakesACycle(s: System, step: Step)
    requires Inv(s) && step.SaveUnmoved? && Enabled(s, step) && !Harmless(s, step)
    ensures var t := Apply(s, step);
      || !Forest(t.rows)
      || exists tx :: Enabled(t, SaveMoved(tx, true)) && !Forest(Apply(t, SaveMoved(tx, true)).rows)
  {
    var t, u := Apply(s, step), s.updates[step.tx];
    SaveKeepsForest(s.rows, u.id, u.parentId, step.active);
    if Acceptable(s.rows, u.id, u.parentId) {
      var tx :| tx in s.updates && s.updates[tx].Checked? && !Spares(s.rows, u.id, u.parentId, s.updates[tx]);
      var move := s.updates[tx];
      WhenAMoveIsSpared(s, t, u.id, u.parentId, step.active, move);
      SaveKeepsForest(t.rows, move.id, move.to, true);
      assert Enabled(t, SaveMoved(tx, true));
    }
  }

  // ---- The hypothesis is needed ----

  lemma {:induction false} LeadsOn(s: System, steps: seq<Step>, t: System, step: Step)
    requires Leads(s, steps, t) && Enabled(t, step)
    ensures Leads(s, steps + [step], Apply(t, step))
    decreases steps
  {
    if steps == [] {
      assert Leads(Apply(t, step), [], Apply(t, step));
      assert ([step])[1..] == [];
    } else {
      LeadsOn(Apply(s, steps[0]), steps[1..], t, step);
      assert (steps + [step])[1..] == steps[1..] + [step];
    }
  }

  /** Categories 1 and 2 with these parents, and nothing else. */
  predicate Two(s: System, parentOf1: Option<CategoryId>, parentOf2: Option<CategoryId>) {
    && s.rows.Keys == {1, 2}
    && s.rows[1] == CategoryNode(1, parentOf1, true)
    && s.rows[2] == CategoryNode(2, parentOf2, true)
  }

  lemma {:induction false} TwoInAForest(s: System, parentOf2: Option<CategoryId>)
    requires Two(s, None, parentOf2) && parentOf2 in {None, Some(1)}
    ensures Forest(s.rows)
  {
    assert Chain(s.rows, s.rows.Keys, 1, 0);
    assert Chain(s.rows, s.rows.Keys, 2, if parentOf2.None? then 0 else 1);
  }

  lemma {:induction false} TwoInACycle(s: System)
    requires Two(s, Some(2), Some(1))
    ensures !Forest(s.rows)
  {
    assert Climbs(s.rows, 2, 1, 1) by {
      assert Climbs(s.rows, 1, 1, 0);
    }
    assert Climbs(s.rows, 1, 1, 2);
    CycleIsNotRooted(s.rows, s.rows.Keys, 1);
  }

  /** A move with nothing in its way, from reading to the check under the lock. */
  lemma {:induction false} Checks(start: System, steps: seq<Step>, s: System, tx: TransactionId, id: CategoryId,
                                  to: Option<CategoryId>)
    returns (more: seq<Step>, after: System)
    requires Leads(start, steps, s) && s.lock == None && tx !in s.updates && id in s.rows
    requires to != s.rows[id].parentId && Accepted(s.rows, id, to)
    requires to.Some? ==> to.value in s.rows && s.rows[to.value].active
    ensures Leads(start, more, after)
    ensures after == s.(lock := Some(tx), updates := s.updates[tx := Checked(id, to)])
  {
    var s1 := Apply(s, Load(tx, id));
    LeadsOn(start, steps, s, Load(tx, id));
    var s2 := Apply(s1, LockTree(tx, to));
    more := steps + [Load(tx, id)];
    LeadsOn(start, more, s1, LockTree(tx, to));
    after := Apply(s2, CheckMove(tx));
    more := more + [LockTree(tx, to)];
    LeadsOn(start, more, s2, CheckMove(tx));
    more := more + [CheckMove(tx)];
  }

  /** The same to the end, and what it saves. */
  lemma {:induction false} Moves(start: System, steps: seq<Step>, s: System, tx: TransactionId, id: CategoryId,
                                 to: Option<CategoryId>)
    returns (after: System, more: seq<Step>)
    requires Leads(start, steps, s) && s.lock == None && tx !in s.updates && id in s.rows
    requires to != s.rows[id].parentId && Accepted(s.rows, id, to)
    requires to.Some? ==> to.value in s.rows && s.rows[to.value].active
    ensures Leads(start, more, after)
    ensures after == s.(rows := Saved(s.rows, id, to, true))
  {
    var checking, checked := Checks(start, steps, s, tx, id, to);
    after := Apply(checked, SaveMoved(tx, true));
    more := checking + [SaveMoved(tx, true)];
    LeadsOn(start, checking, checked, SaveMoved(tx, true));
    assert checked.updates - {tx} == s.updates;
  }

  lemma {:induction false} TwoCategories() returns (steps: seq<Step>, s: System)
    ensures Leads(EMPTY, steps, s) && Two(s, None, Some(1)) && s.lock == None
    ensures s.updates.Keys == {0} && s.updates[0] == Loaded(2, Some(1)) && s.used == {1, 2}
  {
    var s1 := Apply(EMPTY, Create(1, None));
    assert Leads(EMPTY, [], EMPTY);
    LeadsOn(EMPTY, [], EMPTY, Create(1, None));
    var s2 := Apply(s1, Create(2, Some(1)));
    LeadsOn(EMPTY, [] + [Create(1, None)], s1, Create(2, Some(1)));
    s := Apply(s2, Load(0, 2));
    steps := [] + [Create(1, None)] + [Create(2, Some(1))];
    LeadsOn(EMPTY, steps, s2, Load(0, 2));
    steps := steps + [Load(0, 2)];
  }

  /**
   * While one update holds category 2 as it was, under 1, a move makes it a root and another one puts 1 under it. When
   * the first update saves only a new name, each of the two is under the other.
   */
  lemma {:induction false} AStaleRenameMakesACycle() returns (steps: seq<Step>, s: System)
    ensures Leads(EMPTY, steps, s) && Two(s, Some(2), Some(1)) && !Forest(s.rows)
  {
    var steps0, s0 := TwoCategories();
    var s1, steps1 := Moves(EMPTY, steps0, s0, 1, 2, None);
    forall k: nat ensures !Climbs(s1.rows, 2, 1, k) {
    }
    var s2, steps2 := Moves(EMPTY, steps1, s1, 2, 1, Some(2));
    LeadsOn(EMPTY, steps2, s2, SaveUnmoved(0, true));
    s, steps := Apply(s2, SaveUnmoved(0, true)), steps2 + [SaveUnmoved(0, true)];
    TwoInACycle(s);
  }

  /** A rename holds category 2 as it was, under 1, while another update has checked a move of 1 under it. */
  ghost predicate RenamesBesideAMove(s: System) {
    && Two(s, None, None) && s.used == {1, 2} && s.lock == Some(2) && !InLineage(s.rows, 2, 1)
    && s.updates.Keys == {0, 2} && s.updates[0] == Loaded(2, Some(1)) && s.updates[2] == Checked(1, Some(2))
  }

  lemma {:induction false} RenameBesideAMove() returns (steps: seq<Step>, s: System)
    ensures Leads(EMPTY, steps, s) && RenamesBesideAMove(s)
  {
    var steps0, s0 := TwoCategories();
    var s1, steps1 := Moves(EMPTY, steps0, s0, 1, 2, None);
    forall k: nat ensures !Climbs(s1.rows, 2, 1, k) {
    }
    steps, s := Checks(EMPTY, steps1, s1, 2, 1, Some(2));
  }

  lemma {:induction false} SavesBoth(s: System)
    requires RenamesBesideAMove(s)
    ensures Enabled(s, SaveUnmoved(0, true))
    ensures var t := Apply(s, SaveUnmoved(0, true));
      && Two(t, None, Some(1)) && Enabled(t, SaveMoved(2, true))
      && Two(Apply(t, SaveMoved(2, true)), Some(2), Some(1))
  {
  }

  /**
   * A save that leaves a forest may do harm all the same. While one update holds category 2 as it was, under 1, a move
   * makes it a root, and another one is checked that puts 1 under it. The first update saves only a new name, which
   * puts 2 back under 1; then the move is saved, and each of the two is under the other.
   */
  lemma {:induction false} AStaleRenameSpoilsAMove()
    returns (steps: seq<Step>, before: System, between: System, s: System)
    ensures Leads(EMPTY, steps, before) && Enabled(before, SaveUnmoved(0, true)) && Inv(before)
    ensures between == Apply(before, SaveUnmoved(0, true)) && Forest(between.rows)
    ensures Enabled(between, SaveMoved(2, true))
    ensures s == Apply(between, SaveMoved(2, true)) && !Forest(s.rows)
  {
    steps, before := RenameBesideAMove();
    SavesBoth(before);
    between := Apply(before, SaveUnmoved(0, true));
    s := Apply(between, SaveMoved(2, true));
    TwoInAForest(before, None);
    TwoInAForest(between, Some(1));
    TwoInACycle(s);
  }

  // ---- The use case ----

  /** What an update with a move does under the lock: the parent must be usable, and the move is taken or refused. */
  method Move(rows: Nodes, category: Category, to: Option<CategoryId>) returns (r: Result<(), CategoryError>)
    requires category.state.id in rows && Forest(rows)
    modifies category
    ensures to.Some? && (to.value !in rows || !rows[to.value].active) ==> r == Err(UnusableParent)
    ensures to.None? || (to.value in rows && rows[to.value].active) ==>
      (r == Ok(()) <==> Forest(Saved(rows, old(category.state.id), to, category.state.active)))
    ensures category.state == if r.Ok? then old(category.state).(parentId := to) else old(category.state)
  {
    var lineage := [];
    if to.Some? {
      if to.value !in rows || !rows[to.value].active { return Err(UnusableParent); }
      lineage := Lineage(rows, to.value);
    }
    SaveKeepsForest(rows, category.state.id, to, category.state.active);
    r := category.MoveUnder(to, lineage);
  }
}
