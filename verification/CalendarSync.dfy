/**
 The link between issues and their calendar events: `syncCalendarEvent` and the
 operations of the issue and calendar services that create, move or delete
 either side.

 An issue's dates are `date` columns, so a row keeps days; an event's are
 `timestamp` columns, so an event keeps instants.
 */
module CalendarSync {
  import opened Common
  import opened CivilTime
  import opened IssueForest
  import opened GroupWalks

  datatype Source = Manual | FromIssue

  datatype Event = Event(
    title: string, startAt: Instant, endAt: Instant, sourceType: Source, linkedIssueId: Option<Id>)

  /** The two tables, and the issue keys generated so far. */
  datatype State = State(issues: Table, events: map<Id, Event>, issued: set<Id>)

  /** The event shows the days of the issue. */
  predicate SameDates(issue: Issue, event: Event) {
    issue.startAt == Some(DayOf(event.startAt)) && issue.endAt == Some(DayOf(event.endAt))
  }

  /** The issue's `calendarEventId`, if set, is a live event that was made from this issue. */
  ghost predicate PointsToItsEvent(s: State, id: Id)
    requires id in s.issues
  {
    match s.issues[id].calendarEventId
    case None => true
    case Some(e) => e in s.events && s.events[e].sourceType == FromIssue && s.events[e].linkedIssueId == Some(id)
  }

  /** An issue-sourced event names an issue; if that issue still exists, it points back. */
  ghost predicate PointedBack(s: State, e: Id)
    requires e in s.events
  {
    s.events[e].sourceType == FromIssue ==>
      && s.events[e].linkedIssueId.Some?
      && s.events[e].linkedIssueId.value in s.issued
      && (s.events[e].linkedIssueId.value in s.issues ==>
            s.issues[s.events[e].linkedIssueId.value].calendarEventId == Some(e))
  }

  ghost predicate DatesAgree(s: State, id: Id)
    requires id in s.issues
  {
    match s.issues[id].calendarEventId
    case None => true
    case Some(e) => e in s.events && SameDates(s.issues[id], s.events[e])
  }

  /** The link invariant, but for the dates of `except`. */
  ghost predicate LinkedBut(s: State, except: Option<Id>) {
    && s.issues.Keys <= s.issued
    && (forall id | id in s.issues :: PointsToItsEvent(s, id))
    && (forall e | e in s.events :: PointedBack(s, e))
    && (forall id | id in s.issues && Some(id) != except :: DatesAgree(s, id))
  }

  ghost predicate Linked(s: State) {
    LinkedBut(s, None)
  }

  /** No two issues share an event. */
  lemma EventsAreNotShared(s: State, a: Id, b: Id)
    requires Linked(s) && a in s.issues && b in s.issues
    requires s.issues[a].calendarEventId.Some?
    requires s.issues[a].calendarEventId == s.issues[b].calendarEventId
    ensures a == b
  {
    assert PointsToItsEvent(s, a) && PointsToItsEvent(s, b);
  }

  // ----------------------------------------------------------- the sync decision

  function SetLink(s: State, id: Id, e: Option<Id>): State
    requires id in s.issues
  {
    s.(issues := s.issues[id := s.issues[id].(calendarEventId := e)])
  }

  /**
   `syncCalendarEvent` for the issue `id`, whose entity holds the instants
   `start` and `end`; `newKey` is the key a new event would get.
   */
  function AfterSync(s: State, id: Id, start: Option<Instant>, end: Option<Instant>, newKey: Id): State
    requires id in s.issues
  {
    var link := s.issues[id].calendarEventId;
    if start.None? || end.None? then
      if link.Some? then SetLink(s.(events := s.events - {link.value}), id, None) else s
    else if link.None? then
      var event := Event(s.issues[id].title, start.value, end.value, FromIssue, Some(id));
      SetLink(s.(events := s.events[newKey := event]), id, Some(newKey))
    else
      AfterEventUpdate(s, id, start.value, end.value)
  }

  /** `updateEventFromIssue`. */
  function AfterEventUpdate(s: State, id: Id, start: Instant, end: Instant): State
    requires id in s.issues
  {
    var link := s.issues[id].calendarEventId;
    if link.None? || link.value !in s.events then s
    else
      var event := s.events[link.value].(title := s.issues[id].title, startAt := start, endAt := end);
      s.(events := s.events[link.value := event])
  }

  /** Refreshing an issue's event from the issue restores the link invariant. */
  lemma EventUpdateRestoresLink(s: State, id: Id, start: Instant, end: Instant)
    requires id in s.issues && LinkedBut(s, Some(id))
    requires s.issues[id].startAt == Some(DayOf(start)) && s.issues[id].endAt == Some(DayOf(end))
    ensures Linked(AfterEventUpdate(s, id, start, end))
  {
    var u := AfterEventUpdate(s, id, start, end);
    assert PointsToItsEvent(s, id);
    forall x | x in u.issues ensures PointsToItsEvent(u, x) && DatesAgree(u, x) {
      assert PointsToItsEvent(s, x);
      assert x != id ==> DatesAgree(s, x);
    }
    forall e | e in u.events ensures PointedBack(u, e) {
      assert PointedBack(s, e);
    }
  }

  /** Whatever the dates of the one issue were, synchronising it restores the link invariant. */
  lemma SyncRestoresLink(s: State, id: Id, start: Option<Instant>, end: Option<Instant>, newKey: Id)
    requires id in s.issues && newKey !in s.events && LinkedBut(s, Some(id))
    requires start.Some? && end.Some? ==>
               s.issues[id].startAt == Some(DayOf(start.value)) && s.issues[id].endAt == Some(DayOf(end.value))
    ensures Linked(AfterSync(s, id, start, end, newKey))
  {
    var u := AfterSync(s, id, start, end, newKey);
    if start.Some? && end.Some? && s.issues[id].calendarEventId.Some? {
      EventUpdateRestoresLink(s, id, start.value, end.value);
    } else {
      assert PointsToItsEvent(s, id);
      forall x | x in u.issues ensures PointsToItsEvent(u, x) && DatesAgree(u, x) {
        assert PointsToItsEvent(s, x);
        assert x != id ==> DatesAgree(s, x);
      }
      forall e | e in u.events ensures PointedBack(u, e) {
        assert e in s.events ==> PointedBack(s, e);
      }
    }
  }

  // ------------------------------------------------------------------ operations

  /** One missing date defaults to the other, two to the project's creation. */
  function DefaultDates(start: Option<Instant>, end: Option<Instant>, base: Instant): (Instant, Instant) {
    match (start, end)
    case (None, None) => (base, base)
    case (Some(a), None) => (a, a)
    case (None, Some(b)) => (b, b)
    case (Some(a), Some(b)) => (a, b)
  }

  /** The members of the update that are given. */
  datatype EventEdit = EventEdit(title: Option<string>, startAt: Option<Instant>, endAt: Option<Instant>)

  /** Absent members keep the column. */
  function Edited(event: Event, edit: EventEdit): Event {
    event.(title := if edit.title.Some? then edit.title.value else event.title,
           startAt := if edit.startAt.Some? then edit.startAt.value else event.startAt,
           endAt := if edit.endAt.Some? then edit.endAt.value else event.endAt)
  }

  datatype Op =
    | CreateIssue(id: Id, row: Issue, start: Instant, end: Instant, newKey: Id)
    | UpdateIssue(id: Id, row: Issue, newKey: Id)
    | AddSubtask(id: Id, row: Issue)
    | RemoveIssue(id: Id)
    | DeleteIssue(id: Id)
    | RewriteOtherColumns(issues: Table)
    | Drag(eventId: Id, start: Instant, end: Instant)
    | CreateEvent(newKey: Id, event: Event)
    | UpdateEvent(eventId: Id, edit: EventEdit)
    | DeleteEvent(eventId: Id)

  function AfterCreate(s: State, id: Id, row: Issue, start: Instant, end: Instant, newKey: Id): State {
    AfterSync(s.(issues := s.issues[id := row], issued := s.issued + {id}), id, Some(start), Some(end), newKey)
  }

  /** `updateIssue` synchronises only when a day has changed, and then from the refreshed row. */
  function AfterUpdate(s: State, id: Id, row: Issue, newKey: Id): State {
    if id !in s.issues then s
    else
      var u := s.(issues := s.issues[id := row]);
      if s.issues[id].startAt == row.startAt && s.issues[id].endAt == row.endAt then u
      else AfterSync(u, id, Reread(row.startAt), Reread(row.endAt), newKey)
  }

  function Reread(d: Option<Day>): Option<Instant> {
    match d case None => None case Some(day) => Some(InstantOf(day))
  }

  /** `removeIssue` and `removeSubtask`: the row and its descendants go, events stay. */
  ghost function AfterRemove(s: State, id: Id): State {
    s.(issues := DeleteRows(s.issues, Subtree(s.issues, id)))
  }

  /** `deleteIssue` deletes the issue's own event first. */
  ghost function AfterDelete(s: State, id: Id): State {
    if id !in s.issues then s
    else
      var link := s.issues[id].calendarEventId;
      AfterRemove(if link.Some? then s.(events := s.events - {link.value}) else s, id)
  }

  /** `updateIssueDatesFromCalendar`: moves the linked issue, then refreshes that issue's event. */
  function AfterDrag(s: State, eventId: Id, start: Instant, end: Instant): State {
    if !Draggable(s, eventId) then s
    else
      var id := s.events[eventId].linkedIssueId.value;
      var row := s.issues[id].(startAt := Some(DayOf(start)), endAt := Some(DayOf(end)));
      AfterEventUpdate(s.(issues := s.issues[id := row]), id, InstantOf(DayOf(start)), InstantOf(DayOf(end)))
  }

  predicate Draggable(s: State, eventId: Id) {
    && eventId in s.events && s.events[eventId].sourceType == FromIssue
    && s.events[eventId].linkedIssueId.Some? && s.events[eventId].linkedIssueId.value in s.issues
  }

  /** `updateEvent` and `deleteEvent` refuse issue-sourced events. */
  predicate Editable(s: State, eventId: Id) {
    eventId in s.events && s.events[eventId].sourceType == Manual
  }

  ghost function Step(s: State, op: Op): State {
    match op
    case CreateIssue(id, row, start, end, newKey) => AfterCreate(s, id, row, start, end, newKey)
    case UpdateIssue(id, row, newKey) => AfterUpdate(s, id, row, newKey)
    case AddSubtask(id, row) => s.(issues := s.issues[id := row], issued := s.issued + {id})
    case RemoveIssue(id) => AfterRemove(s, id)
    case DeleteIssue(id) => AfterDelete(s, id)
    case RewriteOtherColumns(issues) => s.(issues := issues)
    case Drag(eventId, start, end) => AfterDrag(s, eventId, start, end)
    case CreateEvent(newKey, event) => s.(events := s.events[newKey := event])
    case UpdateEvent(eventId, edit) =>
      if Editable(s, eventId) then s.(events := s.events[eventId := Edited(s.events[eventId], edit)]) else s
    case DeleteEvent(eventId) => if Editable(s, eventId) then s.(events := s.events - {eventId}) else s
  }

  /**
   What the services and the database guarantee of an operation: generated keys
   are new, rows start without a link, an update keeps the link column and never
   clears a date, and other writes touch neither dates nor links.
   */
  ghost predicate Enabled(s: State, op: Op) {
    match op
    case CreateIssue(id, row, start, end, newKey) =>
      && id !in s.issued && newKey !in s.events && row.calendarEventId == None
      && row.startAt == Some(DayOf(start)) && row.endAt == Some(DayOf(end))
    case UpdateIssue(id, row, newKey) =>
      && newKey !in s.events
      && (id in s.issues ==>
            && row.calendarEventId == s.issues[id].calendarEventId
            && (s.issues[id].startAt.Some? ==> row.startAt.Some?)
            && (s.issues[id].endAt.Some? ==> row.endAt.Some?))
    case AddSubtask(id, row) => id !in s.issued && row.calendarEventId == None
    case RewriteOtherColumns(issues) =>
      && issues.Keys == s.issues.Keys
      && forall id | id in issues ::
           && issues[id].calendarEventId == s.issues[id].calendarEventId
           && issues[id].startAt == s.issues[id].startAt && issues[id].endAt == s.issues[id].endAt
    case CreateEvent(newKey, event) => newKey !in s.events && event.sourceType == Manual
    case _ => true
  }

  lemma CreateKeepsLinked(s: State, id: Id, row: Issue, start: Instant, end: Instant, newKey: Id)
    requires Linked(s) && Enabled(s, CreateIssue(id, row, start, end, newKey))
    ensures Linked(AfterCreate(s, id, row, start, end, newKey))
  {
    var u := s.(issues := s.issues[id := row], issued := s.issued + {id});
    AddedIssueKeepsLinked(s, id, row);
    SyncRestoresLink(u, id, Some(start), Some(end), newKey);
  }

  lemma AddedIssueKeepsLinked(s: State, id: Id, row: Issue)
    requires Linked(s) && id !in s.issued && row.calendarEventId == None
    ensures Linked(s.(issues := s.issues[id := row], issued := s.issued + {id}))
  {
    var u := s.(issues := s.issues[id := row], issued := s.issued + {id});
    forall x | x in u.issues ensures PointsToItsEvent(u, x) && DatesAgree(u, x) {
      assert x != id ==> PointsToItsEvent(s, x) && DatesAgree(s, x);
    }
    forall e | e in u.events ensures PointedBack(u, e) {
      assert PointedBack(s, e);
    }
  }

  lemma RewriteKeepsLinked(s: State, u: State, except: Option<Id>)
    requires Linked(s) && u.events == s.events && u.issued == s.issued && u.issues.Keys == s.issues.Keys
    requires forall id | id in s.issues :: u.issues[id].calendarEventId == s.issues[id].calendarEventId
    requires forall id | id in s.issues && Some(id) != except ::
               u.issues[id].startAt == s.issues[id].startAt && u.issues[id].endAt == s.issues[id].endAt
    ensures LinkedBut(u, except)
  {
    forall x | x in u.issues ensures PointsToItsEvent(u, x) && (Some(x) != except ==> DatesAgree(u, x)) {
      assert PointsToItsEvent(s, x) && DatesAgree(s, x);
    }
    forall e | e in u.events ensures PointedBack(u, e) {
      assert PointedBack(s, e);
    }
  }

  lemma UpdateKeepsLinked(s: State, id: Id, row: Issue, newKey: Id)
    requires Linked(s) && Enabled(s, UpdateIssue(id, row, newKey))
    ensures Linked(AfterUpdate(s, id, row, newKey))
  {
    if id in s.issues {
      var u := s.(issues := s.issues[id := row]);
      if s.issues[id].startAt == row.startAt && s.issues[id].endAt == row.endAt {
        RewriteKeepsLinked(s, u, None);
      } else {
        RewriteKeepsLinked(s, u, Some(id));
        if row.startAt.Some? { DayRoundTrip(row.startAt.value); }
        if row.endAt.Some? { DayRoundTrip(row.endAt.value); }
        SyncRestoresLink(u, id, Reread(row.startAt), Reread(row.endAt), newKey);
      }
    }
  }

  /** Losing issues, or manual events, breaks no link of what remains. */
  lemma ShrinkKeepsLinked(s: State, u: State)
    requires Linked(s) && u.issued == s.issued
    requires u.issues.Keys <= s.issues.Keys && forall id | id in u.issues :: u.issues[id] == s.issues[id]
    requires u.events.Keys <= s.events.Keys && forall e | e in u.events :: u.events[e] == s.events[e]
    requires forall e | e in s.events && e !in u.events ::
               s.events[e].sourceType == Manual || s.events[e].linkedIssueId.value !in u.issues
    ensures Linked(u)
  {
    forall x | x in u.issues ensures PointsToItsEvent(u, x) && DatesAgree(u, x) {
      assert PointsToItsEvent(s, x) && DatesAgree(s, x);
    }
    forall e | e in u.events ensures PointedBack(u, e) {
      assert PointedBack(s, e);
    }
  }

  lemma DeleteKeepsLinked(s: State, id: Id)
    requires Linked(s)
    ensures Linked(AfterDelete(s, id))
    ensures id in s.issues && s.issues[id].calendarEventId.Some? ==>
              s.issues[id].calendarEventId.value !in AfterDelete(s, id).events
  {
    if id in s.issues {
      assert PointsToItsEvent(s, id);
      assert Up(s.issues, id, 0) == Some(id);
      ShrinkKeepsLinked(s, AfterDelete(s, id));
    }
  }

  /** A drag moves exactly the dragged event, to the days it was dropped on. */
  lemma DragMovesThatEvent(s: State, eventId: Id, start: Instant, end: Instant)
    requires Linked(s) && Draggable(s, eventId)
    ensures var u := AfterDrag(s, eventId, start, end);
            && Linked(u)
            && eventId in u.events
            && DayOf(u.events[eventId].startAt) == DayOf(start) && DayOf(u.events[eventId].endAt) == DayOf(end)
            && (forall e | e in s.events && e != eventId :: e in u.events && u.events[e] == s.events[e])
  {
    assert PointedBack(s, eventId);
    var id := s.events[eventId].linkedIssueId.value;
    var row := s.issues[id].(startAt := Some(DayOf(start)), endAt := Some(DayOf(end)));
    var m := s.(issues := s.issues[id := row]);
    RewriteKeepsLinked(s, m, Some(id));
    DayRoundTrip(DayOf(start));
    DayRoundTrip(DayOf(end));
    EventUpdateRestoresLink(m, id, InstantOf(DayOf(start)), InstantOf(DayOf(end)));
  }

  /** Every operation keeps the link invariant. */
  lemma StepKeepsLinked(s: State, op: Op)
    requires Linked(s) && Enabled(s, op)
    ensures Linked(Step(s, op))
  {
    match op
    case CreateIssue(id, row, start, end, newKey) => CreateKeepsLinked(s, id, row, start, end, newKey);
    case UpdateIssue(id, row, newKey) => UpdateKeepsLinked(s, id, row, newKey);
    case AddSubtask(id, row) => AddedIssueKeepsLinked(s, id, row);
    case RemoveIssue(id) => ShrinkKeepsLinked(s, AfterRemove(s, id));
    case DeleteIssue(id) => DeleteKeepsLinked(s, id);
    case RewriteOtherColumns(issues) => RewriteKeepsLinked(s, Step(s, op), None);
    case Drag(eventId, start, end) =>
      if Draggable(s, eventId) { DragMovesThatEvent(s, eventId, start, end); }
    case CreateEvent(newKey, event) => ManualEditKeepsLinked(s, Step(s, op), newKey);
    case UpdateEvent(eventId, edit) =>
      if Editable(s, eventId) { ManualEditKeepsLinked(s, Step(s, op), eventId); }
    case DeleteEvent(eventId) => if Editable(s, eventId) { ShrinkKeepsLinked(s, Step(s, op)); }
  }

  lemma ManualEditKeepsLinked(s: State, u: State, e: Id)
    requires Linked(s) && u.issues == s.issues && u.issued == s.issued
    requires u.events.Keys == s.events.Keys + {e} && u.events[e].sourceType == Manual
    requires e in s.events ==> s.events[e].sourceType == Manual
    requires forall x | x in s.events && x != e :: u.events[x] == s.events[x]
    ensures Linked(u)
  {
    forall x | x in u.issues ensures PointsToItsEvent(u, x) && DatesAgree(u, x) {
      assert PointsToItsEvent(s, x) && DatesAgree(s, x);
    }
    forall x | x in u.events ensures PointedBack(u, x) {
      assert x != e ==> PointedBack(s, x);
    }
  }

  /** A run of operations, each enabled where it happens. */
  ghost predicate Runs(s: State, ops: seq<Op>, u: State)
    decreases |ops|
  {
    if ops == [] then u == s
    else Enabled(s, ops[0]) && Runs(Step(s, ops[0]), ops[1..], u)
  }

  /**
   In every run, every set `calendarEventId` points to a live issue-sourced event
   that links back and shows the same days, and an event whose issue still exists
   is the one that issue points to.
   */
  lemma {:induction false} RunKeepsLinked(s: State, ops: seq<Op>, u: State)
    requires Linked(s) && Runs(s, ops, u)
    ensures Linked(u)
    decreases |ops|
  {
    if ops != [] {
      StepKeepsLinked(s, ops[0]);
      RunKeepsLinked(Step(s, ops[0]), ops[1..], u);
    }
  }

  // --------------------------------------------------------------- the services

  datatype CreateIssueDto = CreateIssueDto(
    title: string, parentId: Option<Id>, groupId: Option<Id>, progress: Option<int>,
    startAt: Option<Instant>, endAt: Option<Instant>)

  datatype UpdateIssueDto = UpdateIssueDto(
    title: string, parentId: Option<Id>, groupId: Option<Id>, progress: Option<int>,
    startAt: Option<Instant>, endAt: Option<Instant>)

  /** `Object.assign(issue, { ...dto, startAt, endAt })`: absent members keep the column. */
  function Assign(row: Issue, dto: UpdateIssueDto): Issue {
    row.(title := dto.title,
         parentId := if dto.parentId.Some? then dto.parentId else row.parentId,
         groupId := if dto.groupId.Some? then dto.groupId else row.groupId,
         progress := if dto.progress.Some? then dto.progress.value else row.progress,
         startAt := if dto.startAt.Some? then Some(DayOf(dto.startAt.value)) else row.startAt,
         endAt := if dto.endAt.Some? then Some(DayOf(dto.endAt.value)) else row.endAt)
  }

  // What the operations do, column by column and row by row.

  /** A member that is given is stored, one that is absent keeps its column. */
  predicate TakesMembers(was: Issue, row: Issue, dto: UpdateIssueDto) {
    && row.title == dto.title
    && (dto.parentId.Some? ==> row.parentId == dto.parentId)
    && (dto.parentId.None? ==> row.parentId == was.parentId)
    && (dto.groupId.Some? ==> row.groupId == dto.groupId)
    && (dto.groupId.None? ==> row.groupId == was.groupId)
    && (dto.progress.Some? ==> row.progress == dto.progress.value)
    && (dto.progress.None? ==> row.progress == was.progress)
    && (dto.startAt.Some? ==> row.startAt == Some(DayOf(dto.startAt.value)))
    && (dto.startAt.None? ==> row.startAt == was.startAt)
    && (dto.endAt.Some? ==> row.endAt == Some(DayOf(dto.endAt.value)))
    && (dto.endAt.None? ==> row.endAt == was.endAt)
    && row.projectId == was.projectId
  }

  /** A date that is given is taken; one that is missing is the other, and two are the project's creation. */
  predicate TakesDates(dto: CreateIssueDto, base: Instant, startAt: Instant, endAt: Instant) {
    && (dto.startAt.Some? ==> startAt == dto.startAt.value)
    && (dto.endAt.Some? ==> endAt == dto.endAt.value)
    && (dto.startAt.None? || dto.endAt.None? ==> startAt == endAt)
    && (dto.startAt.None? && dto.endAt.None? ==> startAt == base)
  }

  /** Of the issues only `id` may differ, and it is there in both. */
  ghost predicate OnlyIssue(t: Table, u: Table, id: Id) {
    id in t && u.Keys == t.Keys && forall x | x in t && x != id :: u[x] == t[x]
  }

  /** The key `e` holds `event`, and every other event is as before. */
  ghost predicate OnlyEvent(before: map<Id, Event>, after: map<Id, Event>, e: Id, event: Event) {
    && after.Keys == before.Keys + {e} && after[e] == event
    && forall x | x in before && x != e :: after[x] == before[x]
  }

  /**
   Issue `id` with title `title` and days `start` and `end` is shown by its own
   event, or by none if a day is missing. Its own event is the one it had, or a new
   one under `newKey`; no other event has changed.
   */
  ghost predicate ShownBy(s: State, w: State, id: Id, start: Option<Instant>, end: Option<Instant>, newKey: Id)
    requires id in s.issues && id in w.issues
  {
    var was, link, title := s.issues[id].calendarEventId, w.issues[id].calendarEventId, w.issues[id].title;
    if start.None? || end.None? then
      && link == None
      && w.events == if was.Some? then s.events - {was.value} else s.events
    else
      && link == (if was.Some? then was else Some(newKey))
      && OnlyEvent(s.events, w.events, link.value, Event(title, start.value, end.value, FromIssue, Some(id)))
  }

  /** `syncCalendarEvent` writes the link column and that event. */
  lemma SyncDoes(s: State, id: Id, start: Option<Instant>, end: Option<Instant>, newKey: Id)
    requires id in s.issues && PointsToItsEvent(s, id)
    ensures var w := AfterSync(s, id, start, end, newKey);
            && OnlyIssue(s.issues, w.issues, id) && w.issued == s.issued
            && w.issues[id] == s.issues[id].(calendarEventId := w.issues[id].calendarEventId)
            && ShownBy(s, w, id, start, end, newKey)
  {
  }

  lemma EventUpdateDoes(s: State, id: Id, start: Instant, end: Instant)
    requires id in s.issues && s.issues[id].calendarEventId.Some? && PointsToItsEvent(s, id)
    ensures var w, e := AfterEventUpdate(s, id, start, end), s.issues[id].calendarEventId.value;
            && w.issues == s.issues && w.issued == s.issued
            && OnlyEvent(s.events, w.events, e, Event(s.issues[id].title, start, end, FromIssue, Some(id)))
  {
  }

  /**
   `updateIssue` stores the members, and shows changed days by the issue's own
   event, as midnights of UTC. Without a changed day no event is touched.
   */
  lemma UpdateDoes(s: State, id: Id, dto: UpdateIssueDto, newKey: Id)
    requires id in s.issues && PointsToItsEvent(s, id)
    ensures var w := AfterUpdate(s, id, Assign(s.issues[id], dto), newKey);
            && OnlyIssue(s.issues, w.issues, id) && w.issued == s.issued
            && TakesMembers(s.issues[id], w.issues[id], dto)
            && EventsFollow(s, w, id, newKey)
  {
    var row := Assign(s.issues[id], dto);
    var m := s.(issues := s.issues[id := row]);
    if s.issues[id].startAt != row.startAt || s.issues[id].endAt != row.endAt {
      SyncDoes(m, id, Reread(row.startAt), Reread(row.endAt), newKey);
    }
  }

  ghost predicate EventsFollow(s: State, w: State, id: Id, newKey: Id)
    requires id in s.issues && id in w.issues
  {
    var was, row := s.issues[id], w.issues[id];
    if was.startAt == row.startAt && was.endAt == row.endAt then
      row.calendarEventId == was.calendarEventId && w.events == s.events
    else
      ShownBy(s, w, id,
              if row.startAt.Some? then Some(row.startAt.value * MS_PER_DAY) else None,
              if row.endAt.Some? then Some(row.endAt.value * MS_PER_DAY) else None, newKey)
  }

  /** A drag writes the days of the linked issue and refreshes the dragged event from it. */
  lemma DragDoes(s: State, eventId: Id, start: Instant, end: Instant)
    requires Linked(s) && Draggable(s, eventId)
    ensures var w, id := AfterDrag(s, eventId, start, end), s.events[eventId].linkedIssueId.value;
            && OnlyIssue(s.issues, w.issues, id) && w.issued == s.issued
            && w.issues[id] == s.issues[id].(startAt := Some(DayOf(start)), endAt := Some(DayOf(end)))
            && OnlyEvent(s.events, w.events, eventId,
                         Event(s.issues[id].title, DayOf(start) * MS_PER_DAY, DayOf(end) * MS_PER_DAY,
                               FromIssue, Some(id)))
  {
    assert PointedBack(s, eventId);
  }

  /**
   `updateIssue` keeps a forest a forest exactly when it names no parent, or one
   that does not hang below the issue and is not the issue itself.
   */
  lemma UpdateKeepsForestExactly(s: State, id: Id, dto: UpdateIssueDto, newEvent: Id)
    requires Acyclic(s.issues) && id in s.issues
    ensures Acyclic(AfterUpdate(s, id, Assign(s.issues[id], dto), newEvent).issues) <==>
              dto.parentId.None? || !Under(s.issues, dto.parentId.value, id)
  {
    var row := Assign(s.issues[id], dto);
    var t, u := s.issues[id := row], AfterUpdate(s, id, row, newEvent).issues;
    assert SameShape(t, u) && SameShape(u, t);
    if Acyclic(t) { SameShapeAcyclic(t, u); }
    if Acyclic(u) { SameShapeAcyclic(u, t); }
    MoveKeepsAcyclicExactly(s.issues, id, row);
    if dto.parentId.None? && s.issues[id].parentId.Some? { NotUnderOwnParent(s.issues, id); }
  }

  /** A parent moved below its own child: the two are then each other's parent. */
  lemma ParentMovedBelowChild(parent: Issue, child: Issue, dto: UpdateIssueDto, newEvent: Id)
    requires parent.parentId == None && child.parentId == Some(1) && dto.parentId == Some(2)
    ensures var s := State(map[1 := parent, 2 := child], map[], {1, 2});
            && Acyclic(s.issues) && ParentsExist(s.issues)
            && !Acyclic(AfterUpdate(s, 1, Assign(parent, dto), newEvent).issues)
  {
    var t: Table := map[1 := parent, 2 := child];
    assert Up(t, 1, 1) == None && Up(t, 2, 2) == None;
    assert Up(t, 2, 1) == Some(1);
    UpdateKeepsForestExactly(State(t, map[], {1, 2}), 1, dto, newEvent);
  }

  /** Exactly the issue and what hangs below it is gone; the rest is as before. */
  ghost predicate OnlySubtreeGone(t: Table, u: Table, id: Id) {
    && (forall x: Id :: x in u <==> x in t && !Under(t, x, id))
    && (forall x: Id | x in u && x in t :: u[x] == t[x])
  }

  /** The parts of the issue and the calendar service that write the two tables. */
  class IssueCalendar {
    var issues: Table
    var events: map<Id, Event>
    ghost var issued: set<Id>

    ghost function Tables(): State
      reads this
    {
      State(issues, events, issued)
    }

    constructor ()
      ensures Tables() == State(map[], map[], {}) && Linked(Tables())
    {
      issues, events, issued := map[], map[], {};
    }

    method DeleteEventByIssue(issueId: Id)
      requires issueId in issues
      modifies this`events
      ensures events == if issues[issueId].calendarEventId.Some?
                        then old(events) - {issues[issueId].calendarEventId.value} else old(events)
    {
      if issues[issueId].calendarEventId.None? { return; }
      events := events - {issues[issueId].calendarEventId.value};
    }

    method CreateEventFromIssue(issueId: Id, startAt: Instant, endAt: Instant, newKey: Id) returns (eventId: Id)
      requires issueId in issues
      modifies this`events
      ensures eventId == newKey
      ensures events == old(events)[newKey := Event(issues[issueId].title, startAt, endAt, FromIssue, Some(issueId))]
    {
      events := events[newKey := Event(issues[issueId].title, startAt, endAt, FromIssue, Some(issueId))];
      return newKey;
    }

    method UpdateEventFromIssue(issueId: Id, startAt: Instant, endAt: Instant)
      requires issueId in issues
      modifies this`events
      ensures Tables() == AfterEventUpdate(old(Tables()), issueId, startAt, endAt)
      ensures
        var link := issues[issueId].calendarEventId;
        if link.Some? && link.value in old(events) then
          OnlyEvent(old(events), events, link.value,
                    old(events)[link.value].(title := issues[issueId].title, startAt := startAt, endAt := endAt))
        else events == old(events)
    {
      var issue := issues[issueId];
      if issue.calendarEventId.None? { return; }
      if issue.calendarEventId.value !in events { return; }
      var event := events[issue.calendarEventId.value].(title := issue.title);
      event := event.(startAt := startAt);
      event := event.(endAt := endAt);
      events := events[issue.calendarEventId.value := event];
    }

    method SyncCalendarEvent(issueId: Id, startAt: Option<Instant>, endAt: Option<Instant>, newKey: Id)
      requires issueId in issues
      modifies this`issues, this`events
      ensures Tables() == AfterSync(old(Tables()), issueId, startAt, endAt, newKey)
      ensures OnlyIssue(old(issues), issues, issueId)
      ensures issues[issueId] == old(issues)[issueId].(calendarEventId := issues[issueId].calendarEventId)
      ensures old(PointsToItsEvent(Tables(), issueId)) ==>
                ShownBy(old(Tables()), Tables(), issueId, startAt, endAt, newKey)
    {
      if PointsToItsEvent(Tables(), issueId) { SyncDoes(Tables(), issueId, startAt, endAt, newKey); }
      var issue := issues[issueId];
      if startAt.None? || endAt.None? {
        if issue.calendarEventId.Some? {
          DeleteEventByIssue(issueId);
          issues := issues[issueId := issue.(calendarEventId := None)];
        }
        return;
      }
      if issue.calendarEventId.None? {
        var eventId := CreateEventFromIssue(issueId, startAt.value, endAt.value, newKey);
        issues := issues[issueId := issue.(calendarEventId := Some(eventId))];
      } else {
        UpdateEventFromIssue(issueId, startAt.value, endAt.value);
      }
    }

    /** The group a new issue gets: its own, else the nearest above its parent, else the default table. */
    method ResolveGroup(dto: CreateIssueDto, defaultGroup: Id) returns (groupId: Option<Id>)
      requires dto.parentId.Some? ==> dto.parentId.value in issues
      requires dto.groupId.None? && dto.parentId.Some? ==> SearchEnds(issues, dto.parentId.value)
      ensures dto.groupId.Some? ==> groupId == dto.groupId
      ensures dto.groupId.None? && dto.parentId.None? ==> groupId == Some(defaultGroup)
      ensures dto.groupId.None? && dto.parentId.Some? ==>
                || IsNearestGroup(issues, dto.parentId.value, groupId)
                || (IsNearestGroup(issues, dto.parentId.value, None) && groupId == Some(defaultGroup))
    {
      if dto.groupId.Some? { return dto.groupId; }
      var inherited: Option<Id> := None;
      if dto.parentId.Some? { inherited := FindNearestGroupId(issues, dto.parentId.value); }
      return if inherited.Some? then inherited else Some(defaultGroup);
    }

    /**
     `createIssue` once the project is found. `groups` are the project's tables,
     `defaultGroup` the one found or created by name, `id` and `newEvent` the keys
     the database generates.
     */
    method CreateIssue(projectId: Id, projectCreatedAt: Instant, groups: set<Id>, defaultGroup: Id,
                       dto: CreateIssueDto, id: Id, newEvent: Id) returns (r: Result<Issue>)
      requires Linked(Tables()) && id !in issued && newEvent !in events
      requires dto.groupId.None? && dto.parentId.Some? && dto.parentId.value in issues ==>
                 SearchEnds(issues, dto.parentId.value)
      modifies this
      ensures r.Err? <==> (|| (dto.parentId.Some? && dto.parentId.value !in old(issues))
                           || (dto.groupId.Some? && dto.groupId.value !in groups))
      ensures r.Err? ==> r.error == NotFound && Tables() == old(Tables())
      ensures Linked(Tables())
      ensures old(Acyclic(issues) && ParentsExist(issues)) ==> Acyclic(issues) && ParentsExist(issues)
      ensures r.Ok? ==>
                && issues == old(issues)[id := r.value]
                && r.value.title == dto.title && r.value.parentId == dto.parentId
                && r.value.projectId == projectId && r.value.calendarEventId == Some(newEvent)
                && r.value.progress == (if dto.progress.Some? then dto.progress.value else 0)
      ensures r.Ok? ==>
                && newEvent in events
                && OnlyEvent(old(events), events, newEvent, events[newEvent])
                && events[newEvent] == Event(dto.title, events[newEvent].startAt, events[newEvent].endAt,
                                             FromIssue, Some(id))
                && TakesDates(dto, projectCreatedAt, events[newEvent].startAt, events[newEvent].endAt)
                && r.value.startAt == Some(DayOf(events[newEvent].startAt))
                && r.value.endAt == Some(DayOf(events[newEvent].endAt))
      ensures r.Ok? && dto.groupId.Some? ==> r.value.groupId == dto.groupId
      ensures r.Ok? && dto.groupId.None? && dto.parentId.None? ==> r.value.groupId == Some(defaultGroup)
      ensures r.Ok? && dto.groupId.None? && dto.parentId.Some? ==>
                || IsNearestGroup(old(issues), dto.parentId.value, r.value.groupId)
                || (&& IsNearestGroup(old(issues), dto.parentId.value, None)
                    && r.value.groupId == Some(defaultGroup))
    {
      if dto.parentId.Some? && dto.parentId.value !in issues { return Err(NotFound); }
      if dto.groupId.Some? && dto.groupId.value !in groups { return Err(NotFound); }
      var groupId := ResolveGroup(dto, defaultGroup);
      var (startAt, endAt) := DefaultDates(dto.startAt, dto.endAt, projectCreatedAt);
      assert TakesDates(dto, projectCreatedAt, startAt, endAt);
      hide DefaultDates, TakesDates, Linked, AfterCreate, IsNearestGroup;
      var progress := if dto.progress.Some? then dto.progress.value else 0;
      var row := Issue(dto.title, dto.parentId, groupId, projectId, progress,
                       Some(DayOf(startAt)), Some(DayOf(endAt)), None);
      if Acyclic(issues) && ParentsExist(issues) {
        InsertKeepsAcyclic(issues, id, row.(calendarEventId := Some(newEvent)));
      }
      SaveAndSync(id, row, startAt, endAt, newEvent);
      assert OnlyEvent(old(events), events, newEvent, events[newEvent]);
      return Ok(issues[id]);
    }

    method SaveAndSync(id: Id, row: Issue, startAt: Instant, endAt: Instant, newEvent: Id)
      requires Linked(Tables()) && Enabled(Tables(), Op.CreateIssue(id, row, startAt, endAt, newEvent))
      modifies this
      ensures Tables() == AfterCreate(old(Tables()), id, row, startAt, endAt, newEvent)
      ensures issues == old(issues)[id := row.(calendarEventId := Some(newEvent))]
      ensures events == old(events)[newEvent := Event(row.title, startAt, endAt, FromIssue, Some(id))]
      ensures Linked(Tables())
    {
      CreateKeepsLinked(Tables(), id, row, startAt, endAt, newEvent);
      issues := issues[id := row];
      issued := issued + {id};
      SyncCalendarEvent(id, Some(startAt), Some(endAt), newEvent);
    }

    /**
     `updateIssue`; `groups` are the tables of the issue's project. The foreign key
     refuses an unknown parent; nothing refuses one that hangs below the issue.
     */
    method UpdateIssue(issueId: Id, dto: UpdateIssueDto, groups: set<Id>, newEvent: Id) returns (r: Result<Issue>)
      requires Linked(Tables()) && newEvent !in events
      modifies this
      ensures r == (
        if issueId !in old(issues) || (dto.groupId.Some? && dto.groupId.value !in groups) then Err(NotFound)
        else if dto.parentId.Some? && dto.parentId.value !in old(issues) then Err(Failed("foreign key"))
        else if issueId in issues then Ok(issues[issueId]) else r)
      ensures r.Err? ==> Tables() == old(Tables())
      ensures r.Ok? ==> issueId in issues
      ensures r.Ok? ==> Tables() == AfterUpdate(old(Tables()), issueId, Assign(old(issues)[issueId], dto), newEvent)
      ensures r.Ok? ==> OnlyIssue(old(issues), issues, issueId)
      ensures r.Ok? ==> TakesMembers(old(issues)[issueId], issues[issueId], dto)
      ensures r.Ok? ==> EventsFollow(old(Tables()), Tables(), issueId, newEvent)
      ensures r.Ok? && old(Acyclic(issues)) ==>
                (Acyclic(issues) <==> dto.parentId.None? || !Under(old(issues), dto.parentId.value, issueId))
      ensures Linked(Tables())
    {
      if issueId !in issues { return Err(NotFound); }
      if dto.groupId.Some? && dto.groupId.value !in groups { return Err(NotFound); }
      if dto.parentId.Some? && dto.parentId.value !in issues { return Err(Failed("foreign key")); }
      var before := issues[issueId];
      var saved := Assign(before, dto);
      UpdateKeepsLinked(Tables(), issueId, saved, newEvent);
      assert PointsToItsEvent(Tables(), issueId);
      UpdateDoes(Tables(), issueId, dto, newEvent);
      if Acyclic(issues) { UpdateKeepsForestExactly(Tables(), issueId, dto, newEvent); }
      hide TakesMembers, EventsFollow, OnlyIssue, Linked, Acyclic, Under;
      issues := issues[issueId := saved];
      var isDateChanged := before.startAt != saved.startAt || before.endAt != saved.endAt;
      if isDateChanged {
        SyncCalendarEvent(issueId, Reread(saved.startAt), Reread(saved.endAt), newEvent);
      }
      return Ok(issues[issueId]);
    }

    /** `removeIssue` leaves the events of the removed issues behind. */
    method RemoveIssue(issueId: Id) returns (r: Result<()>)
      requires Linked(Tables())
      modifies this`issues
      ensures r.Err? <==> issueId !in old(issues)
      ensures r.Err? ==> r.error == NotFound && Tables() == old(Tables())
      ensures r.Ok? ==> Tables() == AfterRemove(old(Tables()), issueId)
      ensures r.Ok? ==> OnlySubtreeGone(old(issues), issues, issueId)
      ensures Linked(Tables())
    {
      if issueId !in issues { return Err(NotFound); }
      ShrinkKeepsLinked(Tables(), AfterRemove(Tables(), issueId));
      var gone := IssueForest.Cascade(issues, issueId);
      issues := DeleteRows(issues, gone);
      return Ok(());
    }

    method DeleteIssue(issueId: Id) returns (r: Result<()>)
      requires Linked(Tables())
      modifies this`issues, this`events
      ensures r.Err? <==> issueId !in old(issues)
      ensures r.Err? ==> r.error == NotFound && Tables() == old(Tables())
      ensures r.Ok? ==> Tables() == AfterDelete(old(Tables()), issueId)
      ensures r.Ok? ==> OnlySubtreeGone(old(issues), issues, issueId)
      ensures r.Ok? ==>
                forall e :: e in events <==> e in old(events) && Some(e) != old(issues)[issueId].calendarEventId
      ensures r.Ok? ==> forall e | e in events && e in old(events) :: events[e] == old(events)[e]
      ensures Linked(Tables())
    {
      if issueId !in issues { return Err(NotFound); }
      DeleteKeepsLinked(Tables(), issueId);
      if issues[issueId].calendarEventId.Some? {
        DeleteEventByIssue(issueId);
      }
      var gone := IssueForest.Cascade(issues, issueId);
      issues := DeleteRows(issues, gone);
      return Ok(());
    }

    method UpdateIssueDatesFromCalendar(eventId: Id, startAt: Instant, endAt: Instant) returns (r: Result<()>)
      requires Linked(Tables())
      modifies this`issues, this`events
      ensures r.Ok? <==> Draggable(old(Tables()), eventId)
      ensures r.Err? ==>
                && Tables() == old(Tables())
                && r.error == if eventId in events && events[eventId].sourceType == FromIssue
                              then NotFound else Forbidden
      ensures r.Ok? ==> Tables() == AfterDrag(old(Tables()), eventId, startAt, endAt)
      ensures r.Ok? ==>
                var id := old(events)[eventId].linkedIssueId.value;
                && OnlyIssue(old(issues), issues, id)
                && issues[id] == old(issues)[id].(startAt := Some(DayOf(startAt)), endAt := Some(DayOf(endAt)))
                && OnlyEvent(old(events), events, eventId,
                             Event(issues[id].title, DayOf(startAt) * MS_PER_DAY, DayOf(endAt) * MS_PER_DAY,
                                   FromIssue, Some(id)))
      ensures Linked(Tables())
    {
      if eventId !in events || events[eventId].sourceType != FromIssue { return Err(Forbidden); }
      assert PointedBack(Tables(), eventId);
      var issueId := events[eventId].linkedIssueId.value;
      if issueId !in issues { return Err(NotFound); }
      DragMovesThatEvent(Tables(), eventId, startAt, endAt);
      DragDoes(Tables(), eventId, startAt, endAt);
      var issue := issues[issueId].(startAt := Some(DayOf(startAt)));
      issue := issue.(endAt := Some(DayOf(endAt)));
      issues := issues[issueId := issue];
      UpdateEventFromIssue(issueId, InstantOf(issue.startAt.value), InstantOf(issue.endAt.value));
      return Ok(());
    }

    /** A manual event created in a calendar; `newKey` is its generated key. */
    method CreateEvent(title: string, startAt: Instant, endAt: Instant, newKey: Id)
      requires Linked(Tables()) && newKey !in events
      modifies this`events
      ensures events == old(events)[newKey := Event(title, startAt, endAt, Manual, None)]
      ensures Linked(Tables())
    {
      StepKeepsLinked(Tables(), Op.CreateEvent(newKey, Event(title, startAt, endAt, Manual, None)));
      events := events[newKey := Event(title, startAt, endAt, Manual, None)];
    }

    /** `updateEvent`; issue-sourced events are refused. */
    method UpdateEvent(eventId: Id, edit: EventEdit) returns (r: Result<Event>)
      requires Linked(Tables())
      modifies this`events
      ensures r.Ok? <==> Editable(old(Tables()), eventId)
      ensures r.Err? ==> r.error == if eventId in events then Forbidden else NotFound
      ensures r.Ok? ==> eventId in events && r.value == events[eventId]
      ensures Tables() == Step(old(Tables()), Op.UpdateEvent(eventId, edit))
      ensures r.Err? ==> events == old(events)
      ensures r.Ok? ==>
                var was := old(events)[eventId];
                && OnlyEvent(old(events), events, eventId, r.value)
                && (edit.title.Some? ==> r.value.title == edit.title.value)
                && (edit.title.None? ==> r.value.title == was.title)
                && (edit.startAt.Some? ==> r.value.startAt == edit.startAt.value)
                && (edit.startAt.None? ==> r.value.startAt == was.startAt)
                && (edit.endAt.Some? ==> r.value.endAt == edit.endAt.value)
                && (edit.endAt.None? ==> r.value.endAt == was.endAt)
                && r.value.sourceType == was.sourceType && r.value.linkedIssueId == was.linkedIssueId
      ensures Linked(Tables())
    {
      StepKeepsLinked(Tables(), Op.UpdateEvent(eventId, edit));
      if eventId !in events { return Err(NotFound); }
      if events[eventId].sourceType == FromIssue { return Err(Forbidden); }
      var event := events[eventId];
      if edit.title.Some? { event := event.(title := edit.title.value); }
      if edit.startAt.Some? { event := event.(startAt := edit.startAt.value); }
      if edit.endAt.Some? { event := event.(endAt := edit.endAt.value); }
      events := events[eventId := event];
      return Ok(event);
    }

    method DeleteEvent(eventId: Id) returns (r: Result<()>)
      requires Linked(Tables())
      modifies this`events
      ensures r.Ok? <==> Editable(old(Tables()), eventId)
      ensures r.Err? ==> r.error == if eventId in events then Forbidden else NotFound
      ensures Tables() == Step(old(Tables()), Op.DeleteEvent(eventId))
      ensures events == if r.Ok? then old(events) - {eventId} else old(events)
      ensures Linked(Tables())
    {
      StepKeepsLinked(Tables(), Op.DeleteEvent(eventId));
      if eventId !in events { return Err(NotFound); }
      if events[eventId].sourceType == FromIssue { return Err(Forbidden); }
      events := events - {eventId};
      return Ok(());
    }
  }
}
