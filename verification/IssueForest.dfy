/**
 The issue table and the forest its `parentId` column spans.

 A row keeps the columns that the progress roll-up, the group walks and the
 calendar synchronisation read or write.
 */
module IssueForest {
  import opened Common
  import opened CivilTime

  datatype Issue = Issue(
    title: string,
    parentId: Option<Id>,
    groupId: Option<Id>,
    projectId: Id,
    progress: int,
    startAt: Option<Day>,
    endAt: Option<Day>,
    calendarEventId: Option<Id>)

  type Table = map<Id, Issue>

  /** The rows that `find({ where: { parentId } })` returns. */
  function Children(t: Table, p: Id): set<Id> {
    set c | c in t && t[c].parentId == Some(p)
  }

  /** The issue `n` steps above `id`; None once the walk has left the table. */
  ghost function Up(t: Table, id: Id, n: nat): Option<Id>
    decreases n
  {
    if id !in t then None
    else if n == 0 then Some(id)
    else match t[id].parentId
      case None => None
      case Some(p) => Up(t, p, n - 1)
  }

  /** Following `parentId` from `id` comes to an end. */
  ghost predicate WalkEnds(t: Table, id: Id) {
    exists n: nat :: Up(t, id, n) == None
  }

  ghost predicate Acyclic(t: Table) {
    forall id | id in t :: WalkEnds(t, id)
  }

  /** Every parent that a row names is a row: the foreign key on `parentId`. */
  ghost predicate ParentsExist(t: Table) {
    forall id | id in t && t[id].parentId.Some? :: t[id].parentId.value in t
  }

  lemma UpStaysNone(t: Table, id: Id, n: nat, k: nat)
    requires Up(t, id, n) == None && n <= k
    ensures Up(t, id, k) == None
    decreases n
  {
    if id in t && n > 0 && t[id].parentId.Some? {
      UpStaysNone(t, t[id].parentId.value, n - 1, k - 1);
    }
  }

  ghost function Least(t: Table, id: Id, n: nat): (d: nat)
    requires Up(t, id, n) == None
    ensures d <= n && Up(t, id, d) == None
    ensures forall k | 0 <= k < d :: Up(t, id, k).Some?
  {
    if n == 0 then 0
    else if Up(t, id, n - 1) == None then Least(t, id, n - 1)
    else
      assert forall k | 0 <= k < n :: Up(t, id, k).Some? by {
        forall k | 0 <= k < n ensures Up(t, id, k).Some? {
          if Up(t, id, k) == None { UpStaysNone(t, id, k, n - 1); }
        }
      }
      n
  }

  /** The number of rows on the walk from `id` to the top. */
  ghost function Depth(t: Table, id: Id): (d: nat)
    requires WalkEnds(t, id)
    ensures Up(t, id, d) == None
    ensures forall k | 0 <= k < d :: Up(t, id, k).Some?
  {
    var n: nat :| Up(t, id, n) == None;
    Least(t, id, n)
  }

  lemma DepthUnique(t: Table, id: Id, d: nat)
    requires Up(t, id, d) == None
    requires forall k | 0 <= k < d :: Up(t, id, k).Some?
    ensures WalkEnds(t, id) && Depth(t, id) == d
  {
    assert WalkEnds(t, id);
    var e := Depth(t, id);
    if d < e { assert false; }
    if e < d { assert false; }
  }

  /** The parent's walk is the child's walk without its first row. */
  lemma DepthOfParent(t: Table, id: Id)
    requires id in t && t[id].parentId.Some? && WalkEnds(t, id)
    ensures WalkEnds(t, t[id].parentId.value)
    ensures Depth(t, id) == 1 + Depth(t, t[id].parentId.value)
  {
    var p := t[id].parentId.value;
    var d := Depth(t, id);
    assert d > 0 by { assert Up(t, id, 0).Some?; }
    assert Up(t, p, d - 1) == None;
    forall k | 0 <= k < d - 1 ensures Up(t, p, k).Some? {
      assert Up(t, id, k + 1).Some?;
    }
    DepthUnique(t, p, d - 1);
  }

  lemma WalkEndsAbove(t: Table, id: Id, p: Id)
    requires id in t && t[id].parentId == Some(p) && WalkEnds(t, p)
    ensures WalkEnds(t, id)
  {
    var n: nat :| Up(t, p, n) == None;
    assert Up(t, id, n + 1) == None;
  }

  lemma UpCompose(t: Table, id: Id, n: nat, k: nat)
    requires Up(t, id, n).Some?
    ensures Up(t, id, n + k) == Up(t, Up(t, id, n).value, k)
    decreases n
  {
    if n > 0 { UpCompose(t, t[id].parentId.value, n - 1, k); }
  }

  lemma DepthAlongWalk(t: Table, id: Id, n: nat)
    requires WalkEnds(t, id) && Up(t, id, n).Some?
    ensures Up(t, id, n).value in t
    ensures WalkEnds(t, Up(t, id, n).value)
    ensures Depth(t, id) == n + Depth(t, Up(t, id, n).value)
    decreases n
  {
    if n > 0 {
      DepthOfParent(t, id);
      DepthAlongWalk(t, t[id].parentId.value, n - 1);
    }
  }

  /** The ancestors met on the first `n` steps of a walk. */
  ghost function Met(t: Table, id: Id, n: nat): set<Id>
    requires forall k: nat | k < n :: Up(t, id, k).Some?
  {
    set k: nat | k < n :: Up(t, id, k).value
  }

  lemma {:induction false} DistinctSteps(t: Table, id: Id, n: nat)
    requires forall k: nat | k < n :: Up(t, id, k).Some?
    requires forall j: nat, k: nat | j < k < n :: Up(t, id, j) != Up(t, id, k)
    ensures |Met(t, id, n)| == n
  {
    hide Up;
    if n > 0 {
      DistinctSteps(t, id, n - 1);
      assert Up(t, id, n - 1).value !in Met(t, id, n - 1);
      assert Met(t, id, n) == Met(t, id, n - 1) + {Up(t, id, n - 1).value};
    }
  }

  lemma MetAreRows(t: Table, id: Id, n: nat)
    requires forall k: nat | k < n :: Up(t, id, k).Some?
    ensures Met(t, id, n) <= t.Keys
  {
    hide Up;
    forall x | x in Met(t, id, n) ensures x in t {
      var k: nat :| k < n && Up(t, id, k).value == x;
      UpIsRow(t, id, k);
    }
  }

  lemma UpIsRow(t: Table, id: Id, k: nat)
    requires Up(t, id, k).Some?
    ensures Up(t, id, k).value in t
    decreases k
  {
    if k > 0 { UpIsRow(t, t[id].parentId.value, k - 1); }
  }

  /** No issue is its own proper ancestor. */
  ghost predicate NoCycle(t: Table) {
    forall id: Id, n: nat | id in t && n > 0 :: Up(t, id, n) != Some(id)
  }

  /** Every walk up the table ends exactly when no issue is its own proper ancestor. */
  lemma AcyclicIffNoCycle(t: Table)
    ensures Acyclic(t) <==> NoCycle(t)
  {
    if Acyclic(t) {
      forall id: Id, n: nat | id in t && n > 0 ensures Up(t, id, n) != Some(id) {
        if Up(t, id, n) == Some(id) { DepthAlongWalk(t, id, n); }
      }
    }
    if NoCycle(t) {
      forall id | id in t ensures WalkEnds(t, id) {
        if !WalkEnds(t, id) { EndlessWalkRepeats(t, id); }
      }
    }
  }

  lemma EndlessWalkRepeats(t: Table, id: Id)
    requires !WalkEnds(t, id)
    ensures !NoCycle(t)
  {
    var n := |t.Keys| + 1;
    if forall j: nat, k: nat | j < k < n :: Up(t, id, j) != Up(t, id, k) {
      DistinctSteps(t, id, n);
      MetAreRows(t, id, n);
      SubsetSize(Met(t, id, n), t.Keys);
      assert false;
    }
    var j: nat, k: nat :| j < k < n && Up(t, id, j) == Up(t, id, k);
    UpCompose(t, id, j, k - j);
    UpIsRow(t, id, j);
  }

  /** `id` and everything above which `id` is found on the walk to the top. */
  ghost predicate Under(t: Table, id: Id, top: Id) {
    exists n: nat :: Up(t, id, n) == Some(top)
  }

  lemma NotUnderOwnParent(t: Table, id: Id)
    requires id in t && t[id].parentId.Some? && WalkEnds(t, id)
    ensures !Under(t, t[id].parentId.value, id)
  {
    var q := t[id].parentId.value;
    if Under(t, q, id) {
      var n: nat :| Up(t, q, n) == Some(id);
      DepthOfParent(t, id);
      DepthAlongWalk(t, q, n);
    }
  }

  // ------------------------------------------------------------- moving an issue

  /** Until a walk first meets `id` it does not notice that `id` moved. */
  lemma MovedWalk(t: Table, id: Id, row: Issue, x: Id, n: nat)
    requires id in t && forall k: nat | k < n :: Up(t, x, k) != Some(id)
    ensures Up(t[id := row], x, n) == Up(t, x, n)
    decreases n
  {
    if x in t && n > 0 { assert Up(t, x, 0) == Some(x) && x != id; }
    if x in t && n > 0 && t[x].parentId.Some? {
      forall k: nat | k < n - 1 ensures Up(t, t[x].parentId.value, k) != Some(id) {
        assert Up(t, x, k + 1) != Some(id);
      }
      MovedWalk(t, id, row, t[x].parentId.value, n - 1);
    }
  }

  lemma {:induction false} FirstMeeting(t: Table, x: Id, id: Id, n: nat) returns (m: nat)
    requires Up(t, x, n) == Some(id)
    ensures m <= n && Up(t, x, m) == Some(id) && forall k: nat | k < m :: Up(t, x, k) != Some(id)
  {
    m := 0;
    while Up(t, x, m) != Some(id)
      invariant m <= n && forall k: nat | k < m :: Up(t, x, k) != Some(id)
      decreases n - m
    {
      m := m + 1;
    }
  }

  /** A walk from `p` that comes to `id` closes a cycle once `id` hangs below `p`. */
  lemma MovedBelowItself(t: Table, id: Id, row: Issue, p: Id)
    requires id in t && row.parentId == Some(p) && Under(t, p, id)
    ensures !Acyclic(t[id := row])
  {
    var u := t[id := row];
    var n: nat :| Up(t, p, n) == Some(id);
    var m := FirstMeeting(t, p, id, n);
    MovedWalk(t, id, row, p, m);
    assert Up(u, id, m + 1) == Some(id);
    AcyclicIffNoCycle(u);
  }

  /** Walks that never come to `id` end as before; those that do go on from `p`. */
  lemma MovedElsewhere(t: Table, id: Id, row: Issue, p: Id, x: Id)
    requires Acyclic(t) && id in t && row.parentId == Some(p) && !Under(t, p, id)
    ensures WalkEnds(t[id := row], x)
  {
    var u := t[id := row];
    assert WalkEnds(u, p) by { UnmetWalkEnds(t, id, row, p); }
    WalkEndsAbove(u, id, p);
    if Under(t, x, id) {
      var n: nat :| Up(t, x, n) == Some(id);
      var m := FirstMeeting(t, x, id, n);
      MovedWalk(t, id, row, x, m);
      var k: nat :| Up(u, id, k) == None;
      UpCompose(u, x, m, k);
      assert Up(u, x, m + k) == None;
    } else {
      UnmetWalkEnds(t, id, row, x);
    }
  }

  lemma UnmetWalkEnds(t: Table, id: Id, row: Issue, x: Id)
    requires Acyclic(t) && id in t && !Under(t, x, id)
    ensures WalkEnds(t[id := row], x)
  {
    if x in t {
      var n: nat :| Up(t, x, n) == None;
      MovedWalk(t, id, row, x, n);
    } else {
      assert Up(t[id := row], x, 0) == None by { MovedWalk(t, id, row, x, 0); }
    }
  }

  /**
   Rewriting a row of a forest keeps it a forest exactly when the row names no
   parent, or one from which the walk up does not come to the issue itself.
   */
  lemma MoveKeepsAcyclicExactly(t: Table, id: Id, row: Issue)
    requires Acyclic(t) && id in t
    ensures Acyclic(t[id := row]) <==> row.parentId.None? || !Under(t, row.parentId.value, id)
  {
    var u := t[id := row];
    if row.parentId.None? {
      forall x | x in u ensures WalkEnds(u, x) { MovedToTheTop(t, id, row, x); }
    } else if Under(t, row.parentId.value, id) {
      MovedBelowItself(t, id, row, row.parentId.value);
    } else {
      forall x | x in u ensures WalkEnds(u, x) { MovedElsewhere(t, id, row, row.parentId.value, x); }
    }
  }

  lemma MovedToTheTop(t: Table, id: Id, row: Issue, x: Id)
    requires Acyclic(t) && id in t && row.parentId.None? && x in t
    ensures WalkEnds(t[id := row], x)
  {
    if Under(t, x, id) {
      var n: nat :| Up(t, x, n) == Some(id);
      var m := FirstMeeting(t, x, id, n);
      MovedWalk(t, id, row, x, m);
      UpCompose(t[id := row], x, m, 1);
      assert Up(t[id := row], id, 1) == None;
    } else {
      UnmetWalkEnds(t, id, row, x);
    }
  }

  /** The rows the database deletes with `top`: `parentId` cascades. */
  ghost function Subtree(t: Table, top: Id): set<Id> {
    set id | id in t && Under(t, id, top)
  }

  function DeleteRows(t: Table, gone: set<Id>): Table {
    map id | id in t && id !in gone :: t[id]
  }

  lemma SubtreeIsClosed(t: Table, top: Id, c: Id)
    requires c in t && t[c].parentId.Some? && t[c].parentId.value in Subtree(t, top)
    ensures c in Subtree(t, top)
  {
    var n: nat :| Up(t, t[c].parentId.value, n) == Some(top);
    assert Up(t, c, n + 1) == Some(top);
  }

  lemma SubtreeGoesUp(t: Table, top: Id, c: Id)
    requires c in Subtree(t, top) && c != top
    ensures t[c].parentId.Some? && t[c].parentId.value in Subtree(t, top)
  {
    var n: nat :| Up(t, c, n) == Some(top);
    assert Up(t, t[c].parentId.value, n - 1) == Some(top);
  }

  /** Rows outside `gone` whose parent is in it: what the cascade deletes next. */
  function Orphans(t: Table, gone: set<Id>): set<Id> {
    set c | c in t && c !in gone && t[c].parentId.Some? && t[c].parentId.value in gone
  }

  /** A set of descendants that the cascade cannot extend is the whole subtree. */
  lemma ClosedSetIsSubtree(t: Table, top: Id, gone: set<Id>)
    requires top in t ==> top in gone
    requires gone <= Subtree(t, top) && Orphans(t, gone) == {}
    ensures gone == Subtree(t, top)
  {
    assert forall c | c in t && t[c].parentId.Some? && t[c].parentId.value in gone ::
        c in gone || c in Orphans(t, gone);
    forall c | c in Subtree(t, top) ensures c in gone {
      var n: nat :| Up(t, c, n) == Some(top);
      ClosedSetHolds(t, top, gone, c, n);
    }
  }

  lemma ClosedSetHolds(t: Table, top: Id, s: set<Id>, c: Id, n: nat)
    requires top in t ==> top in s
    requires forall x | x in t && t[x].parentId.Some? && t[x].parentId.value in s :: x in s
    requires c in t && Up(t, c, n) == Some(top)
    ensures c in s
    decreases n
  {
    if n > 0 { ClosedSetHolds(t, top, s, t[c].parentId.value, n - 1); }
  }

  /** The cascade of the foreign key on `parentId`, level by level. */
  method Cascade(t: Table, id: Id) returns (gone: set<Id>)
    ensures gone == Subtree(t, id)
  {
    gone := if id in t then {id} else {};
    assert id in t ==> Up(t, id, 0) == Some(id);
    var next := Orphans(t, gone);
    while next != {}
      invariant gone <= Subtree(t, id)
      invariant id in t ==> id in gone
      invariant next == Orphans(t, gone)
      decreases t.Keys - gone
    {
      forall c | c in next ensures c in Subtree(t, id) { SubtreeIsClosed(t, id, c); }
      gone := gone + next;
      next := Orphans(t, gone);
    }
    ClosedSetIsSubtree(t, id, gone);
  }

  /** Same rows with the same parents. */
  ghost predicate SameShape(t: Table, u: Table) {
    t.Keys == u.Keys && forall id | id in t :: t[id].parentId == u[id].parentId
  }

  lemma SameShapeUp(t: Table, u: Table, id: Id, n: nat)
    requires SameShape(t, u)
    ensures Up(t, id, n) == Up(u, id, n)
    decreases n
  {
    if id in t && n > 0 && t[id].parentId.Some? {
      SameShapeUp(t, u, t[id].parentId.value, n - 1);
    }
  }

  lemma SameShapeWalk(t: Table, u: Table, id: Id)
    requires SameShape(t, u) && WalkEnds(t, id)
    ensures WalkEnds(u, id) && Depth(u, id) == Depth(t, id)
  {
    var d := Depth(t, id);
    forall k: nat ensures Up(t, id, k) == Up(u, id, k) {
      SameShapeUp(t, u, id, k);
    }
    DepthUnique(u, id, d);
  }

  lemma SameShapeAcyclic(t: Table, u: Table)
    requires SameShape(t, u) && Acyclic(t)
    ensures Acyclic(u)
  {
    forall id | id in u ensures WalkEnds(u, id) { SameShapeWalk(t, u, id); }
  }

  lemma SameShapeChildren(t: Table, u: Table, p: Id)
    requires SameShape(t, u)
    ensures Children(t, p) == Children(u, p)
  {
  }

  /** Adding a row under a fresh key disturbs no existing walk and creates no cycle. */
  lemma InsertKeepsAcyclic(t: Table, id: Id, row: Issue)
    requires Acyclic(t) && ParentsExist(t) && id !in t
    requires row.parentId.Some? ==> row.parentId.value in t
    ensures Acyclic(t[id := row]) && ParentsExist(t[id := row])
  {
    var u := t[id := row];
    forall x | x in t ensures WalkEnds(u, x) {
      var n: nat :| Up(t, x, n) == None;
      InsertKeepsWalk(t, id, row, x, n);
    }
    if row.parentId.Some? {
      WalkEndsAbove(u, id, row.parentId.value);
    } else {
      assert Up(u, id, 1) == None;
    }
  }

  lemma InsertKeepsWalk(t: Table, id: Id, row: Issue, x: Id, n: nat)
    requires ParentsExist(t) && id !in t && x in t
    ensures Up(t[id := row], x, n) == Up(t, x, n)
    decreases n
  {
    if n > 0 && t[x].parentId.Some? {
      InsertKeepsWalk(t, id, row, t[x].parentId.value, n - 1);
    }
  }

  /** A cascading delete leaves no dangling parent and no cycle. */
  lemma DeleteKeepsAcyclic(t: Table, top: Id)
    requires Acyclic(t) && ParentsExist(t)
    ensures Acyclic(DeleteRows(t, Subtree(t, top)))
    ensures ParentsExist(DeleteRows(t, Subtree(t, top)))
  {
    var u := DeleteRows(t, Subtree(t, top));
    forall x | x in u && u[x].parentId.Some? ensures u[x].parentId.value in u {
      if u[x].parentId.value in Subtree(t, top) { SubtreeIsClosed(t, top, x); }
    }
    forall x | x in u ensures WalkEnds(u, x) {
      var n: nat :| Up(t, x, n) == None;
      DeleteKeepsWalk(t, u, x, n);
    }
  }

  lemma DeleteKeepsWalk(t: Table, u: Table, x: Id, n: nat)
    requires ParentsExist(u) && u.Keys <= t.Keys && (forall id | id in u :: u[id] == t[id])
    requires x in u
    ensures Up(u, x, n) == Up(t, x, n)
    decreases n
  {
    if n > 0 && u[x].parentId.Some? {
      DeleteKeepsWalk(t, u, u[x].parentId.value, n - 1);
    }
  }
}
