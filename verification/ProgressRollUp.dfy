/**
 How progress rolls up the issue forest: `recalculateParentProgress` and the
 three operations that call it.

 A parent is *off* when its progress is not the floored mean of its children.
 */
module ProgressRollUp {
  import opened Common
  import opened IssueForest

  function SetProgress(t: Table, id: Id, progress: int): Table
    requires id in t
  {
    t[id := t[id].(progress := progress)]
  }

  /** The sum that `subtasks.reduce` computes, in whatever order the rows come. */
  ghost function Total(t: Table, s: set<Id>): int
    requires s <= t.Keys
  {
    if s == {} then 0 else
      var x :| x in s;
      t[x].progress + Total(t, s - {x})
  }

  lemma TotalWithout(t: Table, s: set<Id>, x: Id)
    requires s <= t.Keys && x in s
    ensures Total(t, s) == t[x].progress + Total(t, s - {x})
  {
    var y :| y in s && Total(t, s) == t[y].progress + Total(t, s - {y});
    if y != x {
      TotalWithout(t, s - {y}, x);
      TotalWithout(t, s - {x}, y);
      assert s - {y} - {x} == s - {x} - {y};
    }
  }

  lemma TotalAgrees(t: Table, u: Table, s: set<Id>)
    requires s <= t.Keys && s <= u.Keys
    requires forall x | x in s :: t[x].progress == u[x].progress
    ensures Total(t, s) == Total(u, s)
  {
    if s != {} {
      var x :| x in s;
      TotalWithout(t, s, x);
      TotalWithout(u, s, x);
      TotalAgrees(t, u, s - {x});
    }
  }

  /** `Math.floor(sum / length)`; Dafny's `/` floors for the positive divisor. */
  ghost function Mean(t: Table, s: set<Id>): int
    requires s <= t.Keys && s != {}
  {
    Total(t, s) / |s|
  }

  ghost predicate IsOff(t: Table, p: Id) {
    p in t && Children(t, p) != {} && t[p].progress != Mean(t, Children(t, p))
  }

  ghost function Off(t: Table): set<Id> {
    set p | p in t && IsOff(t, p)
  }

  /** Changing rows away from `p` and its children cannot change whether `p` is off. */
  lemma OffIsLocal(t: Table, u: Table, p: Id)
    requires p in t && p in u && t[p].progress == u[p].progress
    requires Children(t, p) == Children(u, p)
    requires forall c | c in Children(t, p) :: t[c].progress == u[c].progress
    ensures IsOff(t, p) <==> IsOff(u, p)
  {
    TotalAgrees(t, u, Children(t, p));
  }

  /** `recalculateParentProgress(p)` comes to an end within `n` calls of itself. */
  ghost predicate EndsWithin(t: Table, p: Id, n: nat)
    decreases n
  {
    n > 0 &&
    (p in t && Children(t, p) != {} && t[p].parentId.Some? ==>
       EndsWithin(SetProgress(t, p, Mean(t, Children(t, p))), t[p].parentId.value, n - 1))
  }

  ghost predicate RecursionEnds(t: Table, p: Id) {
    exists n: nat :: EndsWithin(t, p, n)
  }

  lemma {:induction false} EndedWalks(t: Table, p: Id, n: nat)
    requires EndsWithin(t, p, n)
    ensures p !in t || Children(t, p) == {} || WalkEnds(t, p)
    decreases n
  {
    if p in t && Children(t, p) != {} {
      if t[p].parentId.None? {
        assert Up(t, p, 1) == None;
      } else {
        var u, q := SetProgress(t, p, Mean(t, Children(t, p))), t[p].parentId.value;
        assert SameShape(t, u) && SameShape(u, t);
        EndedWalks(u, q, n - 1);
        assert q in t ==> p in Children(u, q);
        if q in t { SameShapeWalk(u, t, q); } else { assert Up(t, q, 0) == None; }
        WalkEndsAbove(t, p, q);
      }
    }
  }

  lemma {:induction false} WalkEndsRecursion(t: Table, p: Id)
    requires WalkEnds(t, p)
    ensures EndsWithin(t, p, Depth(t, p) + 1)
    decreases Depth(t, p)
  {
    if p in t && Children(t, p) != {} && t[p].parentId.Some? {
      var u := SetProgress(t, p, Mean(t, Children(t, p)));
      RollUpDescends(t, p, u);
      DepthOfParent(t, p);
      SameShapeWalk(t, u, t[p].parentId.value);
      WalkEndsRecursion(u, t[p].parentId.value);
    }
  }

  /** The recursion ends exactly when there is nothing to recalculate or the walk up the parents ends. */
  lemma RecursionEndsExactly(t: Table, p: Id)
    ensures RecursionEnds(t, p) <==> p !in t || Children(t, p) == {} || WalkEnds(t, p)
  {
    if RecursionEnds(t, p) {
      var n: nat :| EndsWithin(t, p, n);
      EndedWalks(t, p, n);
    }
    if p !in t || Children(t, p) == {} { assert EndsWithin(t, p, 1); }
    if WalkEnds(t, p) { WalkEndsRecursion(t, p); }
  }

  /** What `recalculateParentProgress(p)` makes of the table. */
  ghost function RollUp(t: Table, p: Id): Table
    requires RecursionEnds(t, p)
    decreases StepsUp(t, p)
  {
    if p !in t || Children(t, p) == {} then t
    else
      var u := SetProgress(t, p, Mean(t, Children(t, p)));
      if t[p].parentId.None? then u
      else
        RecursionDescends(t, p, u);
        RollUp(u, t[p].parentId.value)
  }

  /** The rows left on the walk, where there is one that ends. */
  ghost function StepsUp(t: Table, p: Id): nat {
    if WalkEnds(t, p) then Depth(t, p) else 0
  }

  lemma RecursionDescends(t: Table, p: Id, u: Table)
    requires RecursionEnds(t, p) && p in t && Children(t, p) != {} && t[p].parentId.Some? && SameShape(t, u)
    ensures WalkEnds(t, p) && WalkEnds(u, t[p].parentId.value) && RecursionEnds(u, t[p].parentId.value)
    ensures StepsUp(u, t[p].parentId.value) < StepsUp(t, p)
  {
    RecursionEndsExactly(t, p);
    RollUpDescends(t, p, u);
    RecursionEndsExactly(u, t[p].parentId.value);
  }

  lemma RollUpDescends(t: Table, p: Id, u: Table)
    requires WalkEnds(t, p) && p in t && t[p].parentId.Some? && SameShape(t, u)
    ensures WalkEnds(u, t[p].parentId.value)
    ensures Depth(u, t[p].parentId.value) < Depth(t, p)
  {
    DepthOfParent(t, p);
    SameShapeWalk(t, u, t[p].parentId.value);
  }

  /** `u` is `t` with other progress values in inner nodes. */
  ghost predicate OnlyInnerProgress(t: Table, u: Table) {
    && t.Keys == u.Keys
    && (forall id | id in t :: u[id] == t[id].(progress := u[id].progress))
    && (forall id | id in t && Children(t, id) == {} :: u[id] == t[id])
  }

  lemma SetInnerProgress(t: Table, p: Id, v: int)
    requires p in t && Children(t, p) != {}
    ensures OnlyInnerProgress(t, SetProgress(t, p, v)) && SameShape(t, SetProgress(t, p, v))
  {
  }

  lemma OnlyInnerProgressTransitive(t: Table, u: Table, w: Table)
    requires OnlyInnerProgress(t, u) && OnlyInnerProgress(u, w) && SameShape(t, u) && SameShape(u, w)
    ensures OnlyInnerProgress(t, w) && SameShape(t, w)
  {
    forall id ensures Children(t, id) == Children(u, id) { SameShapeChildren(t, u, id); }
  }

  /** A roll-up writes nothing but the progress of inner nodes. */
  lemma {:induction false} RollUpWritesInnerProgress(t: Table, p: Id)
    requires RecursionEnds(t, p)
    ensures OnlyInnerProgress(t, RollUp(t, p)) && SameShape(t, RollUp(t, p))
    decreases StepsUp(t, p)
  {
    if p in t && Children(t, p) != {} {
      var u := SetProgress(t, p, Mean(t, Children(t, p)));
      SetInnerProgress(t, p, Mean(t, Children(t, p)));
      if t[p].parentId.Some? {
        var q := t[p].parentId.value;
        RecursionDescends(t, p, u);
        RollUpWritesInnerProgress(u, q);
        OnlyInnerProgressTransitive(t, u, RollUp(u, q));
      }
    }
  }

  lemma UnderParent(t: Table, p: Id, x: Id)
    requires p in t && t[p].parentId.Some?
    ensures Under(t, p, x) <==> x == p || Under(t, t[p].parentId.value, x)
  {
    var q := t[p].parentId.value;
    assert Up(t, p, 0) == Some(p);
    if Under(t, q, x) {
      var n: nat :| Up(t, q, n) == Some(x);
      assert Up(t, p, n + 1) == Some(x);
    }
    if Under(t, p, x) && x != p {
      var n: nat :| Up(t, p, n) == Some(x);
      assert Up(t, q, n - 1) == Some(x);
    }
  }

  lemma SameShapeUnder(t: Table, u: Table, id: Id, x: Id)
    requires SameShape(t, u)
    ensures Under(t, id, x) <==> Under(u, id, x)
  {
    forall n: nat ensures Up(t, id, n) == Up(u, id, n) { SameShapeUp(t, u, id, n); }
  }

  /** One step of the roll-up settles `p` and can unsettle only the parent of `p`. */
  lemma SettleOne(t: Table, p: Id, x: Id)
    requires WalkEnds(t, p) && p in t && Children(t, p) != {}
    requires t[p].parentId != Some(x)
    ensures var u := SetProgress(t, p, Mean(t, Children(t, p)));
            IsOff(u, x) <==> IsOff(t, x) && x != p
  {
    var u := SetProgress(t, p, Mean(t, Children(t, p)));
    assert SameShape(t, u);
    SameShapeChildren(t, u, x);
    if x == p {
      assert p !in Children(t, p) by {
        if p in Children(t, p) { DepthOfParent(t, p); }
      }
      TotalAgrees(t, u, Children(t, p));
    } else if x in t {
      OffIsLocal(t, u, x);
    }
  }

  /**
   Recalculating from a parent settles that parent and all its ancestors, and
   leaves every other node as it was.
   */
  lemma {:induction false} RollUpSettlesAncestors(t: Table, p: Id, x: Id)
    requires RecursionEnds(t, p) && p in t && Children(t, p) != {}
    ensures IsOff(RollUp(t, p), x) <==> IsOff(t, x) && !Under(t, p, x)
    decreases StepsUp(t, p)
  {
    RecursionEndsExactly(t, p);
    var u := SetProgress(t, p, Mean(t, Children(t, p)));
    assert SameShape(t, u);
    if t[p].parentId.None? {
      SettleOne(t, p, x);
      RootIsUnderItself(t, p, x);
    } else {
      var q := t[p].parentId.value;
      UnderParent(t, p, x);
      SameShapeUnder(t, u, q, x);
      RecursionDescends(t, p, u);
      if q in t {
        assert p in Children(u, q);
        RollUpSettlesAncestors(u, q, x);
        assert Up(u, q, 0) == Some(q);
        if x != q { SettleOne(t, p, x); }
      } else {
        assert forall n: nat :: Up(t, q, n) == None;
        if x != q { SettleOne(t, p, x); }
      }
    }
  }

  /** It writes the progress of `p` and of what is above `p`, and of those only where there are children. */
  lemma {:induction false} RollUpWritesAbove(t: Table, p: Id, x: Id)
    requires RecursionEnds(t, p) && x in t && !Under(t, p, x)
    ensures x in RollUp(t, p) && RollUp(t, p)[x] == t[x]
    decreases StepsUp(t, p)
  {
    if p in t && Children(t, p) != {} {
      assert Up(t, p, 0) == Some(p);
      if t[p].parentId.Some? {
        var u, q := SetProgress(t, p, Mean(t, Children(t, p))), t[p].parentId.value;
        RecursionDescends(t, p, u);
        UnderParent(t, p, x);
        assert SameShape(t, u);
        SameShapeUnder(t, u, q, x);
        RollUpWritesAbove(u, q, x);
      }
    }
  }

  lemma RootIsUnderItself(t: Table, p: Id, x: Id)
    requires p in t && t[p].parentId.None?
    ensures Under(t, p, x) <==> x == p
  {
    assert Up(t, p, 0) == Some(p);
    forall n: nat | n > 0 ensures Up(t, p, n) == None { }
  }

  // ---------------------------------------------------------------- operations

  /** The table after `updateProgress`. */
  ghost function AfterUpdate(t: Table, id: Id, progress: int): Table
    requires WalkEnds(t, id)
  {
    if id !in t then t else
      var u := SetProgress(t, id, progress);
      if t[id].parentId.None? then u
      else
        RollUpDescends(t, id, u);
        RecursionEndsExactly(u, t[id].parentId.value);
        RollUp(u, t[id].parentId.value)
  }

  /** The table after `addSubtask` has saved `row` under the key `id`. */
  ghost function AfterAdd(t: Table, id: Id, row: Issue): Table
    requires ParentsExist(t) && id !in t
    requires row.parentId.Some? && row.parentId.value in t && WalkEnds(t, row.parentId.value)
  {
    InsertKeepsRecursion(t, id, row);
    RollUp(t[id := row], row.parentId.value)
  }

  lemma InsertKeepsRecursion(t: Table, id: Id, row: Issue)
    requires ParentsExist(t) && id !in t
    requires row.parentId.Some? && row.parentId.value in t && WalkEnds(t, row.parentId.value)
    ensures RecursionEnds(t[id := row], row.parentId.value)
  {
    var p := row.parentId.value;
    var n: nat :| Up(t, p, n) == None;
    InsertKeepsWalk(t, id, row, p, n);
    RecursionEndsExactly(t[id := row], p);
  }

  /** The roll-up after the deletion of `id`, if there is one, comes to an end. */
  ghost predicate RemovalEnds(t: Table, projects: set<Id>, id: Id)
    requires ParentsExist(t)
  {
    id in t && t[id].parentId.Some? && t[t[id].parentId.value].projectId in projects ==>
      RecursionEnds(DeleteRows(t, Subtree(t, id)), t[id].parentId.value)
  }

  /** The table after `removeSubtask`, which skips the roll-up when the parent's project is gone. */
  ghost function AfterRemove(t: Table, projects: set<Id>, id: Id): Table
    requires ParentsExist(t) && RemovalEnds(t, projects, id)
  {
    if id !in t then t else
      var u := DeleteRows(t, Subtree(t, id));
      if t[id].parentId.None? then u
      else if t[t[id].parentId.value].projectId !in projects then u
      else RollUp(u, t[id].parentId.value)
  }

  /** In particular where the walk up from the deleted issue ends. */
  lemma EndingWalkRemoves(t: Table, projects: set<Id>, id: Id)
    requires ParentsExist(t) && WalkEnds(t, id)
    ensures RemovalEnds(t, projects, id)
  {
    if id in t && t[id].parentId.Some? {
      ParentSurvives(t, id);
      RecursionEndsExactly(DeleteRows(t, Subtree(t, id)), t[id].parentId.value);
    }
  }

  lemma ParentSurvives(t: Table, id: Id)
    requires ParentsExist(t) && id in t && t[id].parentId.Some? && WalkEnds(t, id)
    ensures var p := t[id].parentId.value;
            p !in Subtree(t, id) && WalkEnds(DeleteRows(t, Subtree(t, id)), p)
  {
    var p, u := t[id].parentId.value, DeleteRows(t, Subtree(t, id));
    DepthOfParent(t, id);
    if p in Subtree(t, id) {
      var n: nat :| Up(t, p, n) == Some(id);
      DepthAlongWalk(t, p, n);
    }
    forall x | x in u && u[x].parentId.Some? ensures u[x].parentId.value in u {
      if u[x].parentId.value in Subtree(t, id) { SubtreeIsClosed(t, id, x); }
    }
    var m: nat :| Up(t, p, m) == None;
    DeleteKeepsWalk(t, u, p, m);
  }

  /** Two issues that are each other's parent: the recalculation never ends. */
  lemma CycleNeverEnds(a: Issue, b: Issue)
    requires a.parentId == Some(2) && b.parentId == Some(1)
    ensures !RecursionEnds(map[1 := a, 2 := b], 1)
  {
    var t: Table := map[1 := a, 2 := b];
    assert 2 in Children(t, 1);
    RecursionEndsExactly(t, 1);
    if WalkEnds(t, 1) { DepthOfParent(t, 1); DepthOfParent(t, 2); }
  }

  /**
   After `updateProgress` the updated node is off exactly when it has children
   whose mean is another value; its ancestors are settled; the rest is as before.
   */
  lemma UpdateSettles(t: Table, id: Id, progress: int, x: Id)
    requires Acyclic(t) && ParentsExist(t) && id in t
    ensures IsOff(AfterUpdate(t, id, progress), x) <==>
              if x == id then Children(t, id) != {} && progress != Mean(t, Children(t, id))
              else IsOff(t, x) && !Under(t, id, x)
  {
    var u := SetProgress(t, id, progress);
    assert SameShape(t, u);
    assert id !in Children(t, id) by { if id in Children(t, id) { DepthOfParent(t, id); } }
    TotalAgrees(t, u, Children(t, id));
    SameShapeChildren(t, u, x);
    SameShapeChildren(t, u, id);
    if x != id && x in t && id !in Children(t, x) { OffIsLocal(t, u, x); }
    if t[id].parentId.None? {
      RootIsUnderItself(t, id, x);
    } else {
      var q := t[id].parentId.value;
      RollUpDescends(t, id, u);
      RecursionEndsExactly(u, q);
      assert id in Children(u, q);
      RollUpSettlesAncestors(u, q, x);
      UnderParent(t, id, x);
      SameShapeUnder(t, u, q, x);
      NotUnderOwnParent(t, id);
      assert Up(t, q, 0) == Some(q);
    }
  }

  /** `u` has the rows of `t` but for `gone`; of these only the progress of what is above `from` may differ. */
  ghost predicate KeepsRows(t: Table, u: Table, gone: set<Id>, from: Id) {
    && t.Keys - gone <= u.Keys
    && (forall x | x in t && x !in gone :: u[x] == t[x].(progress := u[x].progress))
    && (forall x | x in t && x !in gone && !Under(t, from, x) :: u[x] == t[x])
  }

  /** `updateProgress` stores the value and, beyond that, writes only progress above the issue, settling it. */
  lemma UpdateStores(t: Table, id: Id, progress: int)
    requires WalkEnds(t, id) && id in t
    ensures var u := AfterUpdate(t, id, progress);
            && u.Keys == t.Keys && u[id] == t[id].(progress := progress) && KeepsRows(t, u, {id}, id)
            && forall x: Id | x != id && Under(t, id, x) :: !IsOff(u, x)
  {
    var m, u := SetProgress(t, id, progress), AfterUpdate(t, id, progress);
    assert SameShape(t, m) && Up(t, id, 0) == Some(id);
    if t[id].parentId.Some? {
      var q := t[id].parentId.value;
      RollUpDescends(t, id, m);
      RecursionEndsExactly(m, q);
      RollUpWritesInnerProgress(m, q);
      NotUnderOwnParent(t, id);
      forall x: Id ensures Under(t, id, x) <==> x == id || Under(m, q, x) {
        UnderParent(t, id, x);
        SameShapeUnder(t, m, q, x);
      }
      SameShapeUnder(t, m, q, id);
      RollUpWritesAbove(m, q, id);
      forall x | x in t && !Under(t, id, x) ensures u[x] == t[x] { RollUpWritesAbove(m, q, x); }
      forall x: Id | x != id && Under(t, id, x) ensures !IsOff(u, x) { AncestorsSettle(m, id, q, x); }
    } else {
      forall x: Id ensures Under(t, id, x) <==> x == id { RootIsUnderItself(t, id, x); }
    }
  }

  lemma AncestorsSettle(t: Table, c: Id, p: Id, x: Id)
    requires RecursionEnds(t, p) && c in t && t[c].parentId == Some(p) && Under(t, p, x)
    ensures !IsOff(RollUp(t, p), x)
  {
    var n: nat :| Up(t, p, n) == Some(x);
    assert c in Children(t, p);
    RollUpSettlesAncestors(t, p, x);
  }

  /** `addSubtask` stores the row as given and, beyond that, writes only progress above it, settling it. */
  lemma AddStores(t: Table, id: Id, row: Issue)
    requires ParentsExist(t) && id !in t
    requires row.parentId.Some? && row.parentId.value in t && WalkEnds(t, row.parentId.value)
    ensures var u, p := AfterAdd(t, id, row), row.parentId.value;
            && u.Keys == t.Keys + {id} && u[id] == row && KeepsRows(t, u, {}, p)
            && forall x: Id | Under(t, p, x) :: !IsOff(u, x)
  {
    var m, u, p := t[id := row], AfterAdd(t, id, row), row.parentId.value;
    InsertKeepsRecursion(t, id, row);
    RollUpWritesInnerProgress(m, p);
    forall x: Id ensures Under(m, p, x) <==> Under(t, p, x) {
      forall n: nat ensures Up(m, p, n) == Up(t, p, n) { InsertKeepsWalk(t, id, row, p, n); }
    }
    assert !Under(t, p, id) by {
      forall n: nat ensures Up(t, p, n) != Some(id) { if Up(t, p, n).Some? { UpIsRow(t, p, n); } }
    }
    RollUpWritesAbove(m, p, id);
    forall x | x in t && !Under(t, p, x) ensures u[x] == t[x] { RollUpWritesAbove(m, p, x); }
    forall x: Id | Under(t, p, x) ensures !IsOff(u, x) { AncestorsSettle(m, id, p, x); }
  }

  /**
   `removeSubtask` takes exactly the subtree away and, beyond that, writes only
   progress above it. It settles what it writes where the parent's project is alive
   and the parent has a subtask left.
   */
  lemma RemoveStores(t: Table, projects: set<Id>, id: Id)
    requires ParentsExist(t) && RemovalEnds(t, projects, id) && id in t
    ensures var u, gone := AfterRemove(t, projects, id), Subtree(t, id);
            && u.Keys == t.Keys - gone && KeepsRows(t, u, gone, id)
            && (t[id].parentId.Some? ==>
                  var p := t[id].parentId.value;
                  if t[p].projectId in projects && p in u && Children(u, p) != {}
                  then forall x: Id | Under(t, id, x) && x in u :: !IsOff(u, x)
                  else forall x | x in u :: u[x] == t[x])
  {
    var gone := Subtree(t, id);
    var m, u := DeleteRows(t, gone), AfterRemove(t, projects, id);
    if t[id].parentId.Some? && t[t[id].parentId.value].projectId in projects {
      var p := t[id].parentId.value;
      RollUpWritesInnerProgress(m, p);
      SameShapeChildren(m, u, p);
      if p in m && Children(m, p) != {} {
        forall x: Id | x in m ensures Under(t, id, x) <==> Under(m, p, x) {
          assert Up(t, id, 0) == Some(id);
          UnderParent(t, id, x);
          forall n: nat ensures Up(m, p, n) == Up(t, p, n) { SurvivingWalk(t, id, p, n); }
        }
        forall x | x in m && !Under(t, id, x) ensures u[x] == t[x] { RollUpWritesAbove(m, p, x); }
        forall x: Id | Under(m, p, x) ensures !IsOff(u, x) { RollUpSettlesAncestors(m, p, x); }
      }
    }
  }

  lemma SurvivingWalk(t: Table, id: Id, p: Id, n: nat)
    requires p !in Subtree(t, id)
    ensures Up(DeleteRows(t, Subtree(t, id)), p, n) == Up(t, p, n)
    decreases n
  {
    if p in t && n > 0 && t[p].parentId.Some? {
      if t[p].parentId.value in Subtree(t, id) { SubtreeIsClosed(t, id, p); }
      SurvivingWalk(t, id, t[p].parentId.value, n - 1);
    }
  }

  /** A parent whose one subtask is at `b.progress` is given another value: nothing corrects it. */
  lemma UpdatedParentIsOff(a: Issue, b: Issue, progress: int)
    requires a.parentId == None && b.parentId == Some(1) && progress != b.progress
    ensures var t: Table := map[1 := a.(progress := b.progress), 2 := b];
            Acyclic(t) && ParentsExist(t) && Off(t) == {} && Off(AfterUpdate(t, 1, progress)) == {1}
  {
    var t: Table := map[1 := a.(progress := b.progress), 2 := b];
    assert Up(t, 1, 1) == None && Up(t, 2, 2) == None;
    assert Children(t, 1) == {2} && Children(t, 2) == {};
    TotalWithout(t, {2}, 2);
    forall x ensures IsOff(AfterUpdate(t, 1, progress), x) <==> x == 1 {
      UpdateSettles(t, 1, progress, x);
    }
  }

  /** After `addSubtask` the parent and its ancestors are settled and nothing else has changed. */
  lemma AddSettles(t: Table, id: Id, row: Issue, x: Id)
    requires Acyclic(t) && ParentsExist(t) && id !in t
    requires row.parentId.Some? && row.parentId.value in t
    ensures IsOff(AfterAdd(t, id, row), x) <==> IsOff(t, x) && !Under(t, row.parentId.value, x)
  {
    var p := row.parentId.value;
    var u := t[id := row];
    InsertKeepsRecursion(t, id, row);
    assert id in Children(u, p);
    RollUpSettlesAncestors(u, p, x);
    assert Under(u, p, x) <==> Under(t, p, x) by {
      forall n: nat ensures Up(u, p, n) == Up(t, p, n) { InsertKeepsWalk(t, id, row, p, n); }
    }
    assert Children(u, id) == {};
    if x != p && x in t {
      assert Children(u, x) == Children(t, x);
      OffIsLocal(t, u, x);
    }
    assert Up(t, p, 0) == Some(p);
  }

  /** A cascading delete on its own can unsettle only the parent of the deleted issue. */
  lemma DeleteUnsettlesParentOnly(t: Table, id: Id, x: Id)
    requires Acyclic(t) && ParentsExist(t) && id in t && t[id].parentId != Some(x)
    ensures IsOff(DeleteRows(t, Subtree(t, id)), x) <==> IsOff(t, x) && x !in Subtree(t, id)
  {
    var gone := Subtree(t, id);
    var u := DeleteRows(t, gone);
    if x in u {
      forall c | c in Children(t, x) ensures c in u {
        if c in gone { SubtreeGoesUp(t, id, c); }
      }
      assert Children(u, x) == Children(t, x);
      OffIsLocal(t, u, x);
    }
  }

  /**
   After `removeSubtask` no surviving node is off that was not off before, and
   the parent is settled.
   */
  lemma RemoveSettles(t: Table, projects: set<Id>, id: Id, x: Id)
    requires Acyclic(t) && ParentsExist(t) && id in t
    requires forall y | y in t :: t[y].projectId in projects
    ensures RemovalEnds(t, projects, id)
    ensures IsOff(AfterRemove(t, projects, id), x) ==> IsOff(t, x) && x !in Subtree(t, id)
    ensures t[id].parentId == Some(x) ==> !IsOff(AfterRemove(t, projects, id), x)
  {
    var u := DeleteRows(t, Subtree(t, id));
    EndingWalkRemoves(t, projects, id);
    if t[id].parentId != Some(x) { DeleteUnsettlesParentOnly(t, id, x); }
    if t[id].parentId.Some? {
      var p := t[id].parentId.value;
      ParentSurvives(t, id);
      if Children(u, p) != {} {
        RollUpSettlesAncestors(u, p, x);
        assert Up(u, p, 0) == Some(p);
      }
    }
  }

  // ---------------------------------------------------------------------- runs

  datatype Op =
    | AddSubtask(id: Id, row: Issue)
    | RemoveSubtask(id: Id)
    | UpdateProgress(id: Id, progress: int)

  /** The invariant of the table: it is a forest over live projects with percentages in its rows. */
  ghost predicate Sound(t: Table, projects: set<Id>) {
    && Acyclic(t)
    && ParentsExist(t)
    && (forall id | id in t :: t[id].projectId in projects)
    && (forall id | id in t :: 0 <= t[id].progress <= 100)
  }

  /** What the callers of the service guarantee: keys are fresh and DTOs validated. */
  ghost predicate Enabled(t: Table, projects: set<Id>, op: Op) {
    match op
    case AddSubtask(id, row) => id !in t && row.parentId.Some? && row.progress == 0
    case RemoveSubtask(id) => true
    case UpdateProgress(id, progress) => 0 <= progress <= 100
  }

  lemma RemovalEndsInForest(t: Table, projects: set<Id>, id: Id)
    requires Acyclic(t) && ParentsExist(t)
    ensures RemovalEnds(t, projects, id)
  {
    if id in t { EndingWalkRemoves(t, projects, id); }
  }

  /** A call the service refuses changes nothing. */
  ghost function Step(t: Table, projects: set<Id>, op: Op): Table
    requires Sound(t, projects) && Enabled(t, projects, op)
  {
    match op
    case AddSubtask(id, row) =>
      if row.parentId.value in t && row.projectId in projects then AfterAdd(t, id, row) else t
    case RemoveSubtask(id) => RemovalEndsInForest(t, projects, id); AfterRemove(t, projects, id)
    case UpdateProgress(id, progress) => if id in t then AfterUpdate(t, id, progress) else t
  }

  /** The one way a step can leave a node off that was not: writing an inner node. */
  ghost function Overwritten(t: Table, op: Op): set<Id> {
    match op
    case UpdateProgress(id, progress) =>
      if id in t && Children(t, id) != {} && progress != Mean(t, Children(t, id)) then {id} else {}
    case _ => {}
  }

  lemma TotalInRange(t: Table, s: set<Id>)
    requires s <= t.Keys && forall x | x in s :: 0 <= t[x].progress <= 100
    ensures 0 <= Total(t, s) <= 100 * |s|
  {
    if s != {} {
      var x :| x in s;
      TotalWithout(t, s, x);
      TotalInRange(t, s - {x});
    }
  }

  lemma {:induction false} RollUpInRange(t: Table, p: Id)
    requires RecursionEnds(t, p) && forall id | id in t :: 0 <= t[id].progress <= 100
    ensures forall id | id in RollUp(t, p) :: 0 <= RollUp(t, p)[id].progress <= 100
    decreases StepsUp(t, p)
  {
    if p in t && Children(t, p) != {} {
      var cs := Children(t, p);
      TotalInRange(t, cs);
      MeanBounds(Total(t, cs), |cs|);
      var u := SetProgress(t, p, Mean(t, cs));
      assert forall id | id in u :: 0 <= u[id].progress <= 100;
      if t[p].parentId.Some? {
        RecursionDescends(t, p, u);
        RollUpInRange(u, t[p].parentId.value);
      }
    }
  }

  lemma MeanBounds(sum: int, n: nat)
    requires n > 0 && 0 <= sum <= 100 * n
    ensures 0 <= sum / n <= 100
  {
    var q := sum / n;
    assert sum == n * q + sum % n;
    assert q > 100 ==> n * q >= n * 101;
  }

  lemma SoundAfterRollUp(t: Table, projects: set<Id>, p: Id)
    requires Sound(t, projects) && RecursionEnds(t, p)
    ensures Sound(RollUp(t, p), projects)
  {
    RollUpWritesInnerProgress(t, p);
    RollUpInRange(t, p);
    SameShapeAcyclic(t, RollUp(t, p));
  }

  /** Every step keeps the table sound. */
  lemma StepKeepsSound(t: Table, projects: set<Id>, op: Op)
    requires Sound(t, projects) && Enabled(t, projects, op)
    ensures Sound(Step(t, projects, op), projects)
  {
    match op
    case AddSubtask(id, row) =>
      if row.parentId.value in t && row.projectId in projects {
        InsertKeepsAcyclic(t, id, row);
        InsertKeepsRecursion(t, id, row);
        SoundAfterRollUp(t[id := row], projects, row.parentId.value);
      }
    case RemoveSubtask(id) =>
      if id in t {
        DeleteKeepsAcyclic(t, id);
        if t[id].parentId.Some? {
          ParentSurvives(t, id);
          RecursionEndsExactly(DeleteRows(t, Subtree(t, id)), t[id].parentId.value);
          SoundAfterRollUp(DeleteRows(t, Subtree(t, id)), projects, t[id].parentId.value);
        }
      }
    case UpdateProgress(id, progress) =>
      if id in t {
        var u := SetProgress(t, id, progress);
        SameShapeAcyclic(t, u);
        if t[id].parentId.Some? {
          RollUpDescends(t, id, u);
          RecursionEndsExactly(u, t[id].parentId.value);
          SoundAfterRollUp(u, projects, t[id].parentId.value);
        }
      }
  }

  /** A step leaves off only what was off before and what it overwrote. */
  lemma StepOff(t: Table, projects: set<Id>, op: Op)
    requires Sound(t, projects) && Enabled(t, projects, op)
    ensures Off(Step(t, projects, op)) <= Off(t) + Overwritten(t, op)
  {
    forall x | IsOff(Step(t, projects, op), x) ensures x in Off(t) + Overwritten(t, op) {
      match op
      case AddSubtask(id, row) =>
        if row.parentId.value in t && row.projectId in projects { AddSettles(t, id, row, x); }
      case RemoveSubtask(id) => if id in t { RemoveSettles(t, projects, id, x); }
      case UpdateProgress(id, progress) => if id in t { UpdateSettles(t, id, progress, x); }
    }
  }

  ghost predicate RunEnabled(t: Table, projects: set<Id>, ops: seq<Op>)
    requires Sound(t, projects)
    decreases |ops|
  {
    ops != [] ==>
      && Enabled(t, projects, ops[0])
      && (StepKeepsSound(t, projects, ops[0]);
          RunEnabled(Step(t, projects, ops[0]), projects, ops[1..]))
  }

  ghost function Run(t: Table, projects: set<Id>, ops: seq<Op>): Table
    requires Sound(t, projects) && RunEnabled(t, projects, ops)
    decreases |ops|
  {
    if ops == [] then t
    else
      StepKeepsSound(t, projects, ops[0]);
      Run(Step(t, projects, ops[0]), projects, ops[1..])
  }

  /** The inner nodes a run overwrites with something else than their children's mean. */
  ghost function RunOverwrites(t: Table, projects: set<Id>, ops: seq<Op>): set<Id>
    requires Sound(t, projects) && RunEnabled(t, projects, ops)
    decreases |ops|
  {
    if ops == [] then {}
    else
      StepKeepsSound(t, projects, ops[0]);
      Overwritten(t, ops[0]) + RunOverwrites(Step(t, projects, ops[0]), projects, ops[1..])
  }

  /**
   Over every run of `addSubtask`, `removeSubtask` and `updateProgress` the
   table stays an acyclic forest of percentages, and a parent that is not the
   floored mean of its children was off at the start or was itself overwritten
   while it had children.
   */
  lemma {:induction false} RunKeepsRollUp(t: Table, projects: set<Id>, ops: seq<Op>)
    requires Sound(t, projects) && RunEnabled(t, projects, ops)
    ensures Sound(Run(t, projects, ops), projects)
    ensures Off(Run(t, projects, ops)) <= Off(t) + RunOverwrites(t, projects, ops)
    decreases |ops|
  {
    if ops != [] {
      StepKeepsSound(t, projects, ops[0]);
      StepOff(t, projects, ops[0]);
      RunKeepsRollUp(Step(t, projects, ops[0]), projects, ops[1..]);
    }
  }

  /** All `updateProgress` steps of the run hit leaves. */
  ghost predicate UpdatesLeavesOnly(t: Table, projects: set<Id>, ops: seq<Op>)
    requires Sound(t, projects) && RunEnabled(t, projects, ops)
    decreases |ops|
  {
    ops != [] ==>
      && (ops[0].UpdateProgress? ==> Children(t, ops[0].id) == {})
      && (StepKeepsSound(t, projects, ops[0]);
          UpdatesLeavesOnly(Step(t, projects, ops[0]), projects, ops[1..]))
  }

  /** From a rolled-up forest, runs that update only leaves end in a rolled-up forest. */
  lemma {:induction false} LeafRunsStayRolledUp(t: Table, projects: set<Id>, ops: seq<Op>)
    requires Sound(t, projects) && RunEnabled(t, projects, ops) && Off(t) == {}
    requires UpdatesLeavesOnly(t, projects, ops)
    ensures Off(Run(t, projects, ops)) == {}
    decreases |ops|
  {
    if ops != [] {
      StepKeepsSound(t, projects, ops[0]);
      StepOff(t, projects, ops[0]);
      LeafRunsStayRolledUp(Step(t, projects, ops[0]), projects, ops[1..]);
    }
  }
}
