/**
 The team activity feed: one page per request, the next one behind a cursor.

 The table keeps microseconds. A cursor is what the client got as the last
 item's time, and a JavaScript date keeps milliseconds.
 */
module TeamFeed {
  import opened Common

  datatype Log = Log(id: Id, team: Id, project: Option<Id>, targetType: nat, createdAt: int)

  datatype FeedQuery = FeedQuery(cursor: Option<int>, limit: Option<nat>, project: Option<Id>, targetType: Option<nat>)

  datatype Page = Page(items: seq<Log>, nextCursor: Option<int>)

  /** The conditions of the query, joined by AND. */
  datatype Where = Where(team: Id, project: Option<Id>, targetType: Option<nat>, before: Option<int>)

  predicate Matches(l: Log, w: Where) {
    && l.team == w.team
    && (w.project.Some? ==> l.project == w.project)
    && (w.targetType.Some? ==> l.targetType == w.targetType.value)
    && (w.before.Some? ==> l.createdAt < w.before.value)
  }

  ghost predicate NewestFirst(logs: seq<Log>) {
    forall i, j | 0 <= i < j < |logs| :: logs[i].createdAt >= logs[j].createdAt
  }

  /** The matching rows in the order of the table. */
  function Selected(table: seq<Log>, w: Where): seq<Log> {
    if table == [] then []
    else (if Matches(table[0], w) then [table[0]] else []) + Selected(table[1..], w)
  }

  /** A time in microseconds as a JavaScript date keeps it. */
  function ToMillis(t: int): (r: int)
    ensures r <= t < r + 1000 && r % 1000 == 0
  {
    t / 1000 * 1000
  }

  function Limit(query: FeedQuery): nat {
    var asked := if query.limit.Some? then query.limit.value else 30;
    if asked < 50 then asked else 50
  }

  function Conditions(team: Id, query: FeedQuery): Where {
    Where(team, query.project, query.targetType, query.cursor)
  }

  /** The page of the rows that a query selects. */
  function PageOf(rows: seq<Log>, limit: nat): Page
    requires limit >= 1
  {
    if |rows| > limit then Page(rows[..limit], Some(ToMillis(rows[limit - 1].createdAt))) else Page(rows, None)
  }

  // What a page is, row by row.

  /** A row of the team that each given filter of the request lets through. */
  predicate Wanted(l: Log, team: Id, query: FeedQuery) {
    && l.team == team
    && (query.project.Some? ==> l.project == Some(query.project.value))
    && (query.targetType.Some? ==> l.targetType == query.targetType.value)
    && (query.cursor.Some? ==> l.createdAt < query.cursor.value)
  }

  /** `at` are the positions of all wanted rows of the table, in order. */
  ghost predicate Positions(table: seq<Log>, team: Id, query: FeedQuery, at: seq<nat>) {
    && (forall i | 0 <= i < |at| :: at[i] < |table| && Wanted(table[at[i]], team, query))
    && (forall i, j | 0 <= i < j < |at| :: at[i] < at[j])
    && (forall k: nat | k < |table| && Wanted(table[k], team, query) :: k in at)
  }

  /** 30 unless asked otherwise, and 50 at most. */
  predicate IsLimit(query: FeedQuery, limit: nat) {
    && limit <= 50
    && (query.limit.None? ==> limit == 30)
    && (query.limit.Some? ==> limit == query.limit.value || (limit == 50 && query.limit.value > 50))
  }

  /**
   The page shows the first wanted rows of the table, as many as the limit allows.
   It has a cursor if and only if rows are left over, the time of its last item in
   whole milliseconds.
   */
  ghost predicate ShowsFirst(table: seq<Log>, team: Id, query: FeedQuery, limit: nat, page: Page, at: seq<nat>) {
    && Positions(table, team, query, at)
    && |page.items| == (if |at| > limit then limit else |at|)
    && (forall i | 0 <= i < |page.items| :: page.items[i] == table[at[i]])
    && (page.nextCursor.Some? <==> |at| > limit)
    && (page.nextCursor.Some? && page.items != [] ==>
          page.nextCursor.value == page.items[|page.items| - 1].createdAt / 1000 * 1000)
  }

  ghost predicate AreRowsAt(rows: seq<Log>, table: seq<Log>, at: seq<nat>) {
    |rows| == |at| && forall i | 0 <= i < |at| :: at[i] < |table| && rows[i] == table[at[i]]
  }

  lemma LaterPositions(table: seq<Log>, team: Id, query: FeedQuery, at: seq<nat>)
    requires table != [] && Positions(table[1..], team, query, at)
    ensures forall i | 0 <= i < |at| :: 0 < Later(at)[i] < |table| && Wanted(table[Later(at)[i]], team, query)
    ensures forall i, j | 0 <= i < j < |at| :: Later(at)[i] < Later(at)[j]
    ensures forall k: nat | 0 < k < |table| && Wanted(table[k], team, query) :: k in Later(at)
  {
    hide Wanted;
    forall i | 0 <= i < |at| ensures 0 < Later(at)[i] < |table| && Wanted(table[Later(at)[i]], team, query) {
      assert table[1..][at[i]] == table[at[i] + 1];
    }
    forall k: nat | 0 < k < |table| && Wanted(table[k], team, query) ensures k in Later(at) {
      assert table[1..][k - 1] == table[k];
      InLater(at, k);
    }
  }

  lemma PositionsBehind(table: seq<Log>, team: Id, query: FeedQuery, at: seq<nat>)
    requires table != [] && Positions(table[1..], team, query, at)
    ensures Positions(table, team, query, if Wanted(table[0], team, query) then [0] + Later(at) else Later(at))
  {
    LaterPositions(table, team, query, at);
    FirstPositions(table, team, query, Later(at));
  }

  lemma FirstPositions(table: seq<Log>, team: Id, query: FeedQuery, later: seq<nat>)
    requires table != []
    requires forall i | 0 <= i < |later| :: 0 < later[i] < |table| && Wanted(table[later[i]], team, query)
    requires forall i, j | 0 <= i < j < |later| :: later[i] < later[j]
    requires forall k: nat | 0 < k < |table| && Wanted(table[k], team, query) :: k in later
    ensures Positions(table, team, query, if Wanted(table[0], team, query) then [0] + later else later)
  {
    hide Wanted;
    if Wanted(table[0], team, query) {
      InFront(later);
      assert forall i | 0 < i <= |later| :: ([0] + later)[i] == later[i - 1];
    }
  }

  lemma RowsAtBehind(table: seq<Log>, rows: seq<Log>, at: seq<nat>)
    requires table != [] && AreRowsAt(rows, table[1..], at)
    ensures AreRowsAt(rows, table, Later(at)) && AreRowsAt([table[0]] + rows, table, [0] + Later(at))
  {
    forall i | 0 <= i < |at| ensures rows[i] == table[Later(at)[i]] {
      assert table[1..][at[i]] == table[at[i] + 1];
    }
  }

  lemma {:induction false} SelectedPositions(table: seq<Log>, team: Id, query: FeedQuery) returns (at: seq<nat>)
    ensures Positions(table, team, query, at) && AreRowsAt(Selected(table, Conditions(team, query)), table, at)
  {
    var w := Conditions(team, query);
    if table == [] {
      at := [];
    } else {
      var rest := SelectedPositions(table[1..], team, query);
      assert Matches(table[0], w) <==> Wanted(table[0], team, query);
      hide Positions, AreRowsAt, Wanted, Matches, Selected;
      PositionsBehind(table, team, query, rest);
      RowsAtBehind(table, Selected(table[1..], w), rest);
      FirstRow(table, w);
      at := if Matches(table[0], w) then [0] + Later(rest) else Later(rest);
    }
  }

  ghost predicate WantsSome(table: seq<Log>, team: Id, query: FeedQuery) {
    exists l :: l in table && Wanted(l, team, query)
  }

  ghost predicate ShowsSome(table: seq<Log>, team: Id, query: FeedQuery, limit: nat, page: Page) {
    exists at :: ShowsFirst(table, team, query, limit, page, at)
  }

  lemma PagesShowFirst(table: seq<Log>, team: Id, query: FeedQuery)
    ensures var rows, limit := Selected(table, Conditions(team, query)), Limit(query);
            && IsLimit(query, limit) && (limit == 0 ==> query.limit == Some(0))
            && (limit >= 1 ==> ShowsSome(table, team, query, limit, PageOf(rows, limit)))
            && (rows == [] ==> ShowsSome(table, team, query, limit, Page([], None)))
            && (rows != [] ==> WantsSome(table, team, query))
  {
    var at := PageShowsFirst(table, team, query, Limit(query));
    if at != [] { FirstIsWanted(table, team, query, at); }
  }

  lemma FirstIsWanted(table: seq<Log>, team: Id, query: FeedQuery, at: seq<nat>)
    requires Positions(table, team, query, at) && at != []
    ensures WantsSome(table, team, query)
  {
    assert table[at[0]] in table;
  }

  lemma PageShowsFirst(table: seq<Log>, team: Id, query: FeedQuery, limit: nat) returns (at: seq<nat>)
    ensures Positions(table, team, query, at) && AreRowsAt(Selected(table, Conditions(team, query)), table, at)
    ensures limit >= 1 ==>
              ShowsFirst(table, team, query, limit, PageOf(Selected(table, Conditions(team, query)), limit), at)
    ensures Selected(table, Conditions(team, query)) == [] ==>
              ShowsFirst(table, team, query, limit, Page([], None), at)
  {
    at := SelectedPositions(table, team, query);
  }

  /** `table` is in the order of the query: newest first, ties in any order. */
  method GetTeamFeed(table: seq<Log>, teamMembers: set<(Id, Id)>, team: Id, user: Id, query: FeedQuery)
    returns (r: Result<Page>)
    ensures r == Err(Forbidden) <==> (team, user) !in teamMembers
    ensures (team, user) in teamMembers && Limit(query) >= 1 ==>
              r == Ok(PageOf(Selected(table, Conditions(team, query)), Limit(query)))
    ensures (team, user) in teamMembers && Limit(query) == 0 ==>
              (r.Ok? <==> Selected(table, Conditions(team, query)) == [])
    ensures IsLimit(query, Limit(query))
    ensures r.Ok? ==> ShowsSome(table, team, query, Limit(query), r.value)
    ensures (team, user) in teamMembers && r.Err? ==> query.limit == Some(0) && WantsSome(table, team, query)
  {
    hide WantsSome, ShowsSome, IsLimit, Selected, Matches;
    PagesShowFirst(table, team, query);
    if (team, user) !in teamMembers { return Err(Forbidden); }
    var limit := Limit(query);
    var w := Where(team, None, None, None);
    if query.project.Some? { w := w.(project := query.project); }
    if query.targetType.Some? { w := w.(targetType := query.targetType); }
    if query.cursor.Some? { w := w.(before := query.cursor); }
    assert w == Conditions(team, query);
    var rows := Selected(table, w);
    var logs := if |rows| > limit + 1 then rows[..limit + 1] else rows;
    var items := if |logs| > limit then logs[..limit] else logs;
    if |logs| > limit {
      assert items == rows[..limit];
      if items == [] { return Err(Failed("items[-1] has no createdAt")); }
      return Ok(Page(items, Some(ToMillis(items[|items| - 1].createdAt))));
    }
    return Ok(Page(items, None));
  }

  // ------------------------------------------------------------ cursor and order

  lemma {:induction false} SelectedKeepsOrder(table: seq<Log>, w: Where)
    requires NewestFirst(table)
    ensures NewestFirst(Selected(table, w))
    ensures forall l | l in Selected(table, w) :: l in table && Matches(l, w)
  {
    if table == [] {
    } else {
      SelectedKeepsOrder(table[1..], w);
      forall l | l in table[1..] ensures table[0].createdAt >= l.createdAt {
        var i :| 0 <= i < |table[1..]| && table[1..][i] == l;
        assert table[1 + i] == l;
      }
    }
  }

  lemma FirstRow(table: seq<Log>, w: Where)
    requires table != []
    ensures Selected(table, w) == if Matches(table[0], w) then [table[0]] + Selected(table[1..], w)
                                  else Selected(table[1..], w)
  {
  }

  /** A cursor that the first `k` selected rows do not precede, and all others do, leaves exactly the others. */
  lemma {:induction false} CursorLeavesTheRest(table: seq<Log>, w: Where, cursor: int, k: nat)
    requires w.before.Some? ==> cursor <= w.before.value
    requires k <= |Selected(table, w)|
    requires forall i | 0 <= i < |Selected(table, w)| :: Selected(table, w)[i].createdAt < cursor <==> k <= i
    ensures Selected(table, w.(before := Some(cursor))) == Selected(table, w)[k..]
  {
    if table == [] {
    } else {
      hide Selected;
      var s, rest, v := Selected(table, w), Selected(table[1..], w), w.(before := Some(cursor));
      FirstRow(table, w);
      FirstRow(table, v);
      if Matches(table[0], w) {
        WithoutFirst(table[0], rest, cursor, k);
        assert Matches(table[0], v) <==> s[0].createdAt < cursor;
        CursorLeavesTheRest(table[1..], w, cursor, if k == 0 then 0 else k - 1);
      } else {
        CursorLeavesTheRest(table[1..], w, cursor, k);
      }
    }
  }

  lemma WithoutFirst(first: Log, rest: seq<Log>, cursor: int, k: nat)
    requires k <= |rest| + 1
    requires forall i | 0 <= i < |rest| + 1 :: ([first] + rest)[i].createdAt < cursor <==> k <= i
    ensures var j := if k == 0 then 0 else k - 1;
            && (forall i | 0 <= i < |rest| :: rest[i].createdAt < cursor <==> j <= i)
            && ([first] + rest)[k..] == if k == 0 then [first] + rest[j..] else rest[j..]
    ensures first.createdAt < cursor <==> k == 0
  {
    var s := [first] + rest;
    assert s[0] == first;
    forall i | 0 <= i < |rest| ensures rest[i].createdAt < cursor <==> k <= i + 1 { assert rest[i] == s[i + 1]; }
  }

  /** Where the rows before `cursor` start among `s`. */
  function Cut(s: seq<Log>, cursor: int, from: nat): (k: nat)
    requires from <= |s| && (from > 0 ==> s[from - 1].createdAt >= cursor)
    ensures from <= k <= |s|
    ensures k > 0 ==> s[k - 1].createdAt >= cursor
    ensures k < |s| ==> s[k].createdAt < cursor
    decreases |s| - from
  {
    if from == |s| || s[from].createdAt < cursor then from else Cut(s, cursor, from + 1)
  }

  /** Where the page after the first one starts: behind everything of the last item's millisecond. */
  function NextStart(s: seq<Log>, limit: nat): (k: nat)
    requires 1 <= limit < |s|
    ensures limit <= k <= |s|
  {
    Cut(s, ToMillis(s[limit - 1].createdAt), limit)
  }

  lemma NextStartSplits(s: seq<Log>, limit: nat)
    requires NewestFirst(s) && 1 <= limit < |s|
    ensures forall i | 0 <= i < |s| :: s[i].createdAt < ToMillis(s[limit - 1].createdAt) <==> NextStart(s, limit) <= i
  {
    var cursor, k := ToMillis(s[limit - 1].createdAt), NextStart(s, limit);
    forall i | 0 <= i < |s| ensures s[i].createdAt < cursor <==> k <= i {
      if i < k { assert s[i].createdAt >= s[k - 1].createdAt; } else { assert s[k].createdAt >= s[i].createdAt; }
    }
  }

  /** After a full page the cursor leaves a proper rest of what was selected. */
  lemma CursorLeavesTheNextPages(table: seq<Log>, w: Where, limit: nat)
    requires NewestFirst(table) && 1 <= limit < |Selected(table, w)|
    ensures var s := Selected(table, w);
            Selected(table, w.(before := PageOf(s, limit).nextCursor)) == s[NextStart(s, limit)..]
  {
    var s := Selected(table, w);
    SelectedKeepsOrder(table, w);
    assert s[limit - 1] in s;
    NextStartSplits(s, limit);
    CursorLeavesTheRest(table, w, ToMillis(s[limit - 1].createdAt), NextStart(s, limit));
  }

  // -------------------------------------------------------------------- the walk

  /** All items a client gets that follows `nextCursor` until it is null. */
  ghost function Walk(table: seq<Log>, w: Where, limit: nat): seq<Log>
    requires NewestFirst(table) && limit >= 1
    decreases |Selected(table, w)|
  {
    var page := PageOf(Selected(table, w), limit);
    if page.nextCursor.None? then page.items
    else
      CursorLeavesTheNextPages(table, w, limit);
      page.items + Walk(table, w.(before := page.nextCursor), limit)
  }

  /** No page boundary falls between two rows that the cursor cannot tell apart. */
  ghost predicate CleanBoundaries(s: seq<Log>, limit: nat)
    requires limit >= 1
  {
    forall j {:trigger s[j * limit]} | j >= 1 && j * limit < |s| ::
      s[j * limit].createdAt < ToMillis(s[j * limit - 1].createdAt)
  }

  /** Any walk ends, and visits selected rows only, newest first, none more often than it is there. */
  lemma {:induction false} WalkIsSound(table: seq<Log>, w: Where, limit: nat)
    requires NewestFirst(table) && limit >= 1
    ensures multiset(Walk(table, w, limit)) <= multiset(Selected(table, w))
    ensures NewestFirst(Walk(table, w, limit))
    ensures |Walk(table, w, limit)| <= |Selected(table, w)|
    decreases |Selected(table, w)|
  {
    var s := Selected(table, w);
    SelectedKeepsOrder(table, w);
    if |s| > limit {
      var k := NextStart(s, limit);
      CursorLeavesTheNextPages(table, w, limit);
      var v := w.(before := PageOf(s, limit).nextCursor);
      WalkIsSound(table, v, limit);
      PageAndRest(s, Walk(table, v, limit), limit, k);
    }
  }

  /** A page followed by what is selected of the rows from `k` on. */
  lemma PageAndRest(s: seq<Log>, rest: seq<Log>, limit: nat, k: nat)
    requires NewestFirst(s) && NewestFirst(rest) && 1 <= limit <= k <= |s|
    requires multiset(rest) <= multiset(s[k..])
    ensures multiset(s[..limit] + rest) <= multiset(s) && NewestFirst(s[..limit] + rest)
  {
    PartsFit(s, rest, limit, k);
    RestIsOlder(s, rest, limit, k);
  }

  lemma PartsFit(s: seq<Log>, rest: seq<Log>, limit: nat, k: nat)
    requires limit <= k <= |s| && multiset(rest) <= multiset(s[k..])
    ensures multiset(s[..limit] + rest) <= multiset(s)
  {
    assert s == s[..limit] + s[limit..k] + s[k..];
  }

  lemma RestIsOlder(s: seq<Log>, rest: seq<Log>, limit: nat, k: nat)
    requires NewestFirst(s) && NewestFirst(rest) && 1 <= limit <= k <= |s|
    requires multiset(rest) <= multiset(s[k..])
    ensures NewestFirst(s[..limit] + rest)
  {
    forall i | 0 <= i < |rest| ensures rest[i].createdAt <= s[limit - 1].createdAt {
      assert rest[i] in multiset(rest) && rest[i] in multiset(s[k..]) && rest[i] in s[k..];
    }
    assert forall i | 0 <= i < limit :: s[i].createdAt >= s[limit - 1].createdAt;
  }

  /** Cutting off the first page cuts off the first boundary. */
  lemma BoundariesOfTheRest(s: seq<Log>, limit: nat)
    requires 1 <= limit < |s| && s[limit].createdAt < ToMillis(s[limit - 1].createdAt)
    ensures CleanBoundaries(s, limit) <==> CleanBoundaries(s[limit..], limit)
  {
    var rest := s[limit..];
    if CleanBoundaries(s, limit) {
      forall j: int | j >= 1 && j * limit < |rest|
        ensures rest[j * limit].createdAt < ToMillis(rest[j * limit - 1].createdAt)
      {
        assert (j + 1) * limit == j * limit + limit;
        assert rest[j * limit] == s[(j + 1) * limit];
      }
    }
    if CleanBoundaries(rest, limit) {
      forall j: int | j >= 1 && j * limit < |s| ensures s[j * limit].createdAt < ToMillis(s[j * limit - 1].createdAt) {
        assert (j - 1) * limit == j * limit - limit;
        if j > 1 { assert rest[(j - 1) * limit] == s[j * limit]; }
      }
    }
  }

  lemma WalkTurns(table: seq<Log>, w: Where, limit: nat)
    requires NewestFirst(table) && 1 <= limit < |Selected(table, w)|
    ensures var s := Selected(table, w);
            var v := w.(before := PageOf(s, limit).nextCursor);
            && Walk(table, w, limit) == s[..limit] + Walk(table, v, limit)
            && Selected(table, v) == s[NextStart(s, limit)..]
            && (NextStart(s, limit) == limit <==> s[limit].createdAt < ToMillis(s[limit - 1].createdAt))
  {
    CursorLeavesTheNextPages(table, w, limit);
  }

  /** A page that starts late loses logs for good. */
  lemma LateStartLoses(s: seq<Log>, rest: seq<Log>, limit: nat)
    requires 1 <= limit < |s| && |rest| <= |s| - NextStart(s, limit) && NextStart(s, limit) > limit
    requires s[limit].createdAt >= ToMillis(s[limit - 1].createdAt)
    ensures s[..limit] + rest != s && !CleanBoundaries(s, limit)
  {
    assert |s[..limit] + rest| < |s|;
    assert s[1 * limit] == s[limit];
  }

  /** The walk visits every matching log exactly once, in order, if and only if every page boundary is clean. */
  lemma {:induction false} WalkIsCompleteExactly(table: seq<Log>, w: Where, limit: nat)
    requires NewestFirst(table) && limit >= 1
    ensures Walk(table, w, limit) == Selected(table, w) <==> CleanBoundaries(Selected(table, w), limit)
    decreases |Selected(table, w)|
  {
    hide CleanBoundaries, NewestFirst, ToMillis;
    var s := Selected(table, w);
    if |s| <= limit {
      OneBoundaryFree(s, limit);
    } else {
      var v := w.(before := PageOf(s, limit).nextCursor);
      WalkTurns(table, w, limit);
      if NextStart(s, limit) == limit {
        WalkIsCompleteExactly(table, v, limit);
        BoundariesOfTheRest(s, limit);
        SameFront(s, limit, Walk(table, v, limit));
      } else {
        WalkIsSound(table, v, limit);
        LateStartLoses(s, Walk(table, v, limit), limit);
      }
    }
  }

  lemma SameFront(s: seq<Log>, limit: nat, rest: seq<Log>)
    requires limit <= |s|
    ensures s[..limit] + rest == s <==> rest == s[limit..]
  {
    assert (s[..limit] + rest)[limit..] == rest;
    assert s == s[..limit] + s[limit..];
  }

  lemma OneBoundaryFree(s: seq<Log>, limit: nat)
    requires |s| <= limit && limit >= 1
    ensures CleanBoundaries(s, limit)
  {
    forall j: int | j >= 1 ensures j * limit >= |s| {
      assert j * limit >= limit;
    }
  }

  /** No two selected logs fall into the same millisecond. */
  ghost predicate DistinctMillis(s: seq<Log>) {
    forall i, j | 0 <= i < j < |s| :: ToMillis(s[i].createdAt) != ToMillis(s[j].createdAt)
  }

  /** With times a cursor can tell apart the walk is complete for every page size. */
  lemma DistinctTimesSuffice(table: seq<Log>, w: Where, limit: nat)
    requires NewestFirst(table) && limit >= 1 && DistinctMillis(Selected(table, w))
    ensures Walk(table, w, limit) == Selected(table, w)
  {
    var s := Selected(table, w);
    SelectedKeepsOrder(table, w);
    forall j: int | j >= 1 && j * limit < |s| ensures s[j * limit].createdAt < ToMillis(s[j * limit - 1].createdAt) {
      assert j * limit >= 1;
      var a, b := s[j * limit - 1], s[j * limit];
      assert ToMillis(a.createdAt) != ToMillis(b.createdAt);
    }
    WalkIsCompleteExactly(table, w, limit);
  }

  /** Two logs of one millisecond at a page boundary: the older one is never shown. */
  lemma SameMillisecondSkips()
    ensures var table := [Log(1, 7, None, 0, 5000600), Log(2, 7, None, 0, 5000200)];
            Walk(table, Where(7, None, None, None), 1) != Selected(table, Where(7, None, None, None))
  {
    var table := [Log(1, 7, None, 0, 5000600), Log(2, 7, None, 0, 5000200)];
    var w := Where(7, None, None, None);
    assert table[1..] == [table[1]] && table[1..][1..] == [];
    assert Selected(table, w) == table;
    assert ToMillis(5000600) == 5000000;
    WalkIsCompleteExactly(table, w, 1);
    assert Selected(table, w)[1 * 1].createdAt == 5000200;
  }
}
