/**
 The two walks that look for the issue group a new issue inherits:
 `findNearestGroupId`, used by `createIssue`, and the loop inside `addSubtask`.
 */
module GroupWalks {
  import opened Common
  import opened IssueForest

  /**
   `r` is the group of the nearest issue on the walk from `id` that has one, or
   None when no issue on the walk has one.
   */
  ghost predicate IsNearestGroup(t: Table, id: Id, r: Option<Id>) {
    match r
    case Some(g) =>
      exists n: nat ::
        && GroupAt(t, id, n) == Some(g)
        && forall k: nat | k < n :: GroupAt(t, id, k) == None
    case None => forall n: nat :: GroupAt(t, id, n) == None
  }

  /** The group of the issue `n` steps above `id`, None if there is no such issue or it has no group. */
  ghost function GroupAt(t: Table, id: Id, n: nat): Option<Id> {
    match Up(t, id, n)
    case Some(a) => if a in t then t[a].groupId else None
    case None => None
  }

  /** Both walks therefore return the same group. */
  lemma NearestGroupUnique(t: Table, id: Id, r: Option<Id>, s: Option<Id>)
    requires IsNearestGroup(t, id, r) && IsNearestGroup(t, id, s)
    ensures r == s
  {
    if r.Some? && s.Some? {
      var n: nat :| GroupAt(t, id, n) == r && forall k: nat | k < n :: GroupAt(t, id, k) == None;
      var m: nat :| GroupAt(t, id, m) == s && forall k: nat | k < m :: GroupAt(t, id, k) == None;
      if n < m { assert false; }
      if m < n { assert false; }
    }
  }

  /** The walk from `id` has passed `n` issues, none with a group, and now holds the link `cursor`. */
  ghost predicate Passed(t: Table, id: Id, cursor: Option<Id>, n: nat) {
    && (forall k: nat | k < n :: GroupAt(t, id, k) == None)
    && Up(t, id, n) == if cursor.Some? && cursor.value in t then cursor else None
  }

  lemma PassOne(t: Table, id: Id, c: Id, n: nat)
    requires Passed(t, id, Some(c), n) && c in t && t[c].groupId.None?
    ensures Passed(t, id, t[c].parentId, n + 1)
  {
    UpCompose(t, id, n, 1);
    assert GroupAt(t, id, n) == None;
  }

  lemma PassedToTheEnd(t: Table, id: Id, cursor: Option<Id>, n: nat)
    requires Passed(t, id, cursor, n)
    requires cursor.Some? ==> cursor.value !in t
    ensures IsNearestGroup(t, id, None)
  {
    forall k: nat ensures GroupAt(t, id, k) == None {
      if k >= n { UpStaysNone(t, id, n, k); }
    }
  }

  lemma FoundAfterPassing(t: Table, id: Id, c: Id, n: nat)
    requires Passed(t, id, Some(c), n) && c in t && t[c].groupId.Some?
    ensures IsNearestGroup(t, id, t[c].groupId)
  {
    assert GroupAt(t, id, n) == t[c].groupId;
  }

  // -------------------------------------------------------- turn by turn

  /** Either loop before a turn: it looks at a link next, or it has stopped. */
  datatype Search = Searching(cursor: Option<Id>) | Stopped(group: Option<Id>)

  /** The loop after `n` turns, the first of which looks at `id` itself. */
  function After(t: Table, id: Id, n: nat): Search {
    if n == 0 then Searching(Some(id))
    else
      match After(t, id, n - 1)
      case Stopped(group) => Stopped(group)
      case Searching(cursor) =>
        if cursor.None? || cursor.value !in t then Stopped(None)
        else if t[cursor.value].groupId.Some? then Stopped(t[cursor.value].groupId)
        else Searching(t[cursor.value].parentId)
  }

  ghost predicate SearchEnds(t: Table, id: Id) {
    exists n: nat :: After(t, id, n).Stopped?
  }

  lemma {:induction false} SearchPasses(t: Table, id: Id, n: nat)
    ensures match After(t, id, n)
            case Searching(cursor) => Passed(t, id, cursor, n)
            case Stopped(group) =>
              && IsNearestGroup(t, id, group)
              && (group.None? ==> WalkEnds(t, id))
              && (group.Some? ==> exists k: nat :: GroupAt(t, id, k) == group)
  {
    if n > 0 {
      SearchPasses(t, id, n - 1);
      match After(t, id, n - 1)
      case Stopped(_) =>
      case Searching(cursor) =>
        if cursor.None? || cursor.value !in t {
          assert Up(t, id, n - 1) == None;
          PassedToTheEnd(t, id, cursor, n - 1);
        } else if t[cursor.value].groupId.Some? {
          assert GroupAt(t, id, n - 1) == t[cursor.value].groupId;
          FoundAfterPassing(t, id, cursor.value, n - 1);
        } else {
          PassOne(t, id, cursor.value, n - 1);
        }
    }
  }

  /**
   The search ends exactly when the walk up the parents ends or meets a group:
   a cycle is harmless when some issue on the way to it or on it has a group.
   */
  lemma SearchEndsExactly(t: Table, id: Id)
    ensures SearchEnds(t, id) <==> WalkEnds(t, id) || exists n: nat :: GroupAt(t, id, n).Some?
  {
    if SearchEnds(t, id) {
      var n: nat :| After(t, id, n).Stopped?;
      SearchPasses(t, id, n);
    }
    if WalkEnds(t, id) {
      var n: nat :| Up(t, id, n) == None;
      SearchPasses(t, id, n);
      assert After(t, id, n + 1).Stopped?;
    }
    if n: nat :| GroupAt(t, id, n).Some? {
      SearchPasses(t, id, n + 1);
    }
  }

  lemma {:induction false} StoppedStays(t: Table, id: Id, m: nat, n: nat)
    requires After(t, id, m).Stopped? && m <= n
    ensures After(t, id, n).Stopped?
    decreases n - m
  {
    if m < n { StoppedStays(t, id, m, n - 1); }
  }

  /** Still searching after `n` turns means fewer than `last`, after which the search has stopped. */
  lemma TurnsLeft(t: Table, id: Id, n: nat, last: nat)
    requires After(t, id, n).Searching? && After(t, id, last).Stopped?
    ensures n < last
  {
    if last <= n { StoppedStays(t, id, last, n); }
  }

  /** `findNearestGroupId`. */
  method FindNearestGroupId(rows: Table, parent: Id) returns (group: Option<Id>)
    requires parent in rows && SearchEnds(rows, parent)
    ensures IsNearestGroup(rows, parent, group)
  {
    ghost var last: nat :| After(rows, parent, last).Stopped?;
    if rows[parent].groupId.Some? {
      SearchPasses(rows, parent, 1);
      return rows[parent].groupId;
    }
    var cursorParentId := rows[parent].parentId;
    ghost var n := 1;
    assert After(rows, parent, 0) == Searching(Some(parent));
    while cursorParentId.Some?
      invariant After(rows, parent, n) == Searching(cursorParentId)
      decreases last - n
    {
      TurnsLeft(rows, parent, n, last);
      SearchPasses(rows, parent, n + 1);
      var cursor := cursorParentId.value;
      if cursor !in rows { break; }
      if rows[cursor].groupId.Some? { return rows[cursor].groupId; }
      cursorParentId, n := rows[cursor].parentId, n + 1;
    }
    SearchPasses(rows, parent, n + 1);
    return None;
  }

  /** The group walk inlined in `addSubtask`: the loop keeps the group found so far. */
  method InheritedGroup(rows: Table, parent: Id) returns (group: Option<Id>)
    requires parent in rows && SearchEnds(rows, parent)
    ensures IsNearestGroup(rows, parent, group)
  {
    ghost var last: nat :| After(rows, parent, last).Stopped?;
    group := rows[parent].groupId;
    var cursorParentId := rows[parent].parentId;
    ghost var n := 1;
    assert After(rows, parent, 0) == Searching(Some(parent));
    SearchPasses(rows, parent, 1);
    while group.None? && cursorParentId.Some?
      invariant group.None? ==> After(rows, parent, n) == Searching(cursorParentId)
      invariant group.Some? ==> IsNearestGroup(rows, parent, group)
      decreases group.None?, last - n
    {
      TurnsLeft(rows, parent, n, last);
      SearchPasses(rows, parent, n + 1);
      var cursor := cursorParentId.value;
      if cursor !in rows { break; }
      group := rows[cursor].groupId;
      cursorParentId, n := rows[cursor].parentId, n + 1;
    }
    if group.None? { SearchPasses(rows, parent, n + 1); }
  }
}
