/**
 The issue service's own methods, updating the issue table in place. Each is
 proved against the table functions of ProgressRollUp and the group walk.
 */
module IssuesService {
  import opened Common
  import opened CivilTime
  import opened IssueForest
  import opened ProgressRollUp
  import opened GroupWalks

  datatype AddSubtaskDto = AddSubtaskDto(
    title: string, parentId: Id, startAt: Option<Day>, dueAt: Option<Day>)

  class IssuesService {
    var rows: Table
    var projects: set<Id>

    constructor (projects: set<Id>)
      ensures rows == map[] && this.projects == projects && Sound(rows, projects)
    {
      rows, this.projects := map[], projects;
    }

    /** `subtasks.reduce((sum, s) => sum + s.progress, 0)`, over the rows in any order. */
    method SumProgress(subtasks: set<Id>) returns (sum: int)
      requires subtasks <= rows.Keys
      ensures sum == Total(rows, subtasks)
    {
      sum := 0;
      var pending := subtasks;
      while pending != {}
        invariant pending <= subtasks
        invariant sum + Total(rows, pending) == Total(rows, subtasks)
      {
        var s :| s in pending;
        TotalWithout(rows, pending, s);
        sum, pending := sum + rows[s].progress, pending - {s};
      }
    }

    /** Requires what `RecursionEndsExactly` says: otherwise the source calls itself without end. */
    method RecalculateParentProgress(parentId: Id)
      requires RecursionEnds(rows, parentId)
      modifies this`rows
      ensures rows == RollUp(old(rows), parentId)
      decreases StepsUp(rows, parentId)
    {
      if parentId !in rows { return; }
      var subtasks := Children(rows, parentId);
      if subtasks == {} { return; }
      var sum := SumProgress(subtasks);
      var parent := rows[parentId].(progress := sum / |subtasks|);
      rows := rows[parentId := parent];
      if parent.parentId.Some? {
        RecursionDescends(old(rows), parentId, rows);
        RecalculateParentProgress(parent.parentId.value);
      }
    }

    method UpdateProgress(issueId: Id, progress: int) returns (r: Result<Issue>)
      requires WalkEnds(rows, issueId)
      modifies this`rows
      ensures r.Err? <==> issueId !in old(rows)
      ensures r.Err? ==> r.error == NotFound && rows == old(rows)
      ensures r.Ok? ==> r.value == old(rows)[issueId].(progress := progress)
      ensures r.Ok? ==> rows == AfterUpdate(old(rows), issueId, progress)
      ensures r.Ok? ==> rows.Keys == old(rows).Keys && rows[issueId] == r.value
      ensures r.Ok? ==> KeepsRows(old(rows), rows, {issueId}, issueId)
      ensures r.Ok? ==> forall x | x != issueId && Under(old(rows), issueId, x) :: !IsOff(rows, x)
    {
      if issueId in rows { UpdateStores(rows, issueId, progress); }
      if issueId !in rows { return Err(NotFound); }
      var issue := rows[issueId].(progress := progress);
      rows := rows[issueId := issue];
      if issue.parentId.Some? {
        RollUpDescends(old(rows), issueId, rows);
        RecursionEndsExactly(rows, issue.parentId.value);
        RecalculateParentProgress(issue.parentId.value);
      }
      return Ok(issue);
    }

    /** `id` is the key the database generates for the new row. */
    method AddSubtask(dto: AddSubtaskDto, id: Id) returns (r: Result<Issue>)
      requires ParentsExist(rows) && id !in rows && WalkEnds(rows, dto.parentId)
      modifies this`rows
      ensures r.Ok? <==> dto.parentId in old(rows) && old(rows)[dto.parentId].projectId in projects
      ensures r.Err? ==> r.error == NotFound && rows == old(rows)
      ensures r.Ok? ==>
                && r.value.title == dto.title && r.value.parentId == Some(dto.parentId) && r.value.progress == 0
                && r.value.projectId == old(rows)[dto.parentId].projectId
                && IsNearestGroup(old(rows), dto.parentId, r.value.groupId)
                && r.value.startAt == dto.startAt && r.value.endAt == dto.dueAt
                && r.value.calendarEventId == None
                && rows == AfterAdd(old(rows), id, r.value)
      ensures r.Ok? ==> rows.Keys == old(rows).Keys + {id} && rows[id] == r.value
      ensures r.Ok? ==> KeepsRows(old(rows), rows, {}, dto.parentId)
      ensures r.Ok? ==> forall x | Under(old(rows), dto.parentId, x) :: !IsOff(rows, x)
    {
      if dto.parentId !in rows { return Err(NotFound); }
      var parent := rows[dto.parentId];
      SearchEndsExactly(rows, dto.parentId);
      var groupId := InheritedGroup(rows, dto.parentId);
      if parent.projectId !in projects { return Err(NotFound); }
      var subtask := Issue(dto.title, Some(dto.parentId), groupId, parent.projectId, 0,
                           dto.startAt, dto.dueAt, None);
      InsertKeepsRecursion(rows, id, subtask);
      AddStores(rows, id, subtask);
      rows := rows[id := subtask];
      RecalculateParentProgress(dto.parentId);
      return Ok(subtask);
    }

    /** Returns the parent's key, as the gateway broadcasts it. */
    method RemoveSubtask(subtaskId: Id) returns (r: Result<Option<Id>>)
      requires ParentsExist(rows) && RemovalEnds(rows, projects, subtaskId)
      modifies this`rows
      ensures r.Err? <==> subtaskId !in old(rows)
      ensures r.Err? ==> r.error == NotFound
      ensures r.Ok? ==> r.value == old(rows)[subtaskId].parentId
      ensures rows == AfterRemove(old(rows), projects, subtaskId)
      ensures r.Ok? ==>
                var gone := Subtree(old(rows), subtaskId);
                rows.Keys == old(rows).Keys - gone && KeepsRows(old(rows), rows, gone, subtaskId)
      ensures r.Ok? && r.value.Some? ==>
                var parentId := r.value.value;
                if old(rows)[parentId].projectId in projects && parentId in rows && Children(rows, parentId) != {}
                then forall x | Under(old(rows), subtaskId, x) && x in rows :: !IsOff(rows, x)
                else forall x | x in rows :: rows[x] == old(rows)[x]
    {
      if subtaskId in rows { RemoveStores(rows, projects, subtaskId); }
      if subtaskId !in rows { return Err(NotFound); }
      var parentId := rows[subtaskId].parentId;
      if parentId.None? || parentId.value !in rows {
        Remove(subtaskId);
        return Ok(None);
      }
      var parent := rows[parentId.value];
      if parent.projectId !in projects {
        Remove(subtaskId);
        return Ok(parentId);
      }
      Remove(subtaskId);
      RecalculateParentProgress(parentId.value);
      return Ok(parentId);
    }

    /** `issueRepository.remove`: the database cascades over `parentId`. */
    method Remove(id: Id)
      modifies this`rows
      ensures rows == DeleteRows(old(rows), Subtree(old(rows), id))
    {
      var gone := Cascade(rows, id);
      rows := DeleteRows(rows, gone);
    }
  }
}
