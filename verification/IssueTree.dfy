/**
 `buildIssueTree` links a flat list of issue objects into a forest in place, and
 `mapIssuesToResponse` copies the forest out.
 */
module IssueTree {
  import opened Common
  import opened CivilTime
  import opened IssueForest
  import opened RollUpTheory
  import opened ForestListing

  /** An issue entity loaded from the database; `subtasks` is filled in the service layer. */
  class IssueNode {
    const id: Id
    const row: Issue
    var subtasks: seq<IssueNode>

    constructor (id: Id, row: Issue)
      ensures this.id == id && this.row == row && subtasks == []
    {
      this.id, this.row, subtasks := id, row, [];
    }
  }

  ghost function IdsOf(issues: seq<IssueNode>): (ids: seq<Id>)
    ensures |ids| == |issues| && forall i | 0 <= i < |issues| :: ids[i] == issues[i].id
  {
    seq(|issues|, i requires 0 <= i < |issues| => issues[i].id)
  }

  /** The order-preserving filter of the list by `parentId`. */
  ghost function SubtasksOf(issues: seq<IssueNode>, p: Id): seq<IssueNode> {
    if issues == [] then []
    else
      var k := |issues| - 1;
      SubtasksOf(issues[..k], p) + if issues[k].row.parentId == Some(p) then [issues[k]] else []
  }

  ghost predicate IsRoot(n: IssueNode, listed: seq<Id>) {
    n.row.parentId.None? || n.row.parentId.value !in listed
  }

  /** The issues without a parent in the list, in list order. */
  ghost function RootsOf(issues: seq<IssueNode>, listed: seq<Id>): seq<IssueNode> {
    if issues == [] then []
    else
      var k := |issues| - 1;
      RootsOf(issues[..k], listed) + if IsRoot(issues[k], listed) then [issues[k]] else []
  }

  lemma SubtasksSnoc(issues: seq<IssueNode>, k: nat, p: Id)
    requires k < |issues|
    ensures SubtasksOf(issues[..k + 1], p)
         == SubtasksOf(issues[..k], p) + if issues[k].row.parentId == Some(p) then [issues[k]] else []
  {
    assert issues[..k + 1][..k] == issues[..k];
  }

  lemma RootsSnoc(issues: seq<IssueNode>, k: nat, listed: seq<Id>)
    requires k < |issues|
    ensures RootsOf(issues[..k + 1], listed)
         == RootsOf(issues[..k], listed) + if IsRoot(issues[k], listed) then [issues[k]] else []
  {
    assert issues[..k + 1][..k] == issues[..k];
  }

  lemma NothingListedYet(issues: seq<IssueNode>, listed: seq<Id>)
    ensures RootsOf(issues[..0], listed) == [] && forall p :: SubtasksOf(issues[..0], p) == []
  {
  }

  /** `picked` are the issues at the positions `at` of the list, in list order. */
  ghost predicate PickedAt(issues: seq<IssueNode>, picked: seq<IssueNode>, at: seq<nat>) {
    && |picked| == |at|
    && (forall k | 0 <= k < |at| :: at[k] < |issues| && picked[k] == issues[at[k]])
    && (forall j, k | 0 <= j < k < |at| :: at[j] < at[k])
  }

  /** In list order, all the issues that name `p` as their parent, and no others. */
  ghost predicate AreItsSubtasks(issues: seq<IssueNode>, p: Id, picked: seq<IssueNode>) {
    exists at :: PickedAt(issues, picked, at)
      && forall i: nat | i < |issues| :: i in at <==> issues[i].row.parentId == Some(p)
  }

  /** In list order, all the issues that name no parent or none of the list, and no others. */
  ghost predicate AreParentless(issues: seq<IssueNode>, picked: seq<IssueNode>) {
    exists at :: PickedAt(issues, picked, at)
      && forall i: nat | i < |issues| ::
           i in at <==> forall j | 0 <= j < |issues| :: issues[i].row.parentId != Some(issues[j].id)
  }

  lemma PickedSnoc(issues: seq<IssueNode>, k: nat, picked: seq<IssueNode>, at: seq<nat>)
    requires k < |issues| && PickedAt(issues[..k], picked, at)
    ensures PickedAt(issues[..k + 1], picked, at) && k !in at
    ensures PickedAt(issues[..k + 1], picked + [issues[k]], at + [k])
  {
    forall j | 0 <= j < |at| ensures issues[..k][at[j]] == issues[..k + 1][at[j]] { }
  }

  lemma {:induction false} SubtasksAt(issues: seq<IssueNode>, p: Id, n: nat) returns (at: seq<nat>)
    requires n <= |issues|
    ensures PickedAt(issues[..n], SubtasksOf(issues[..n], p), at)
    ensures forall i: nat | i < n :: i in at <==> issues[i].row.parentId == Some(p)
  {
    if n == 0 {
      at := [];
    } else {
      at := SubtasksAt(issues, p, n - 1);
      SubtasksSnoc(issues, n - 1, p);
      PickedSnoc(issues, n - 1, SubtasksOf(issues[..n - 1], p), at);
      if issues[n - 1].row.parentId == Some(p) { at := at + [n - 1]; }
    }
  }

  lemma {:induction false} RootsAt(issues: seq<IssueNode>, listed: seq<Id>, n: nat) returns (at: seq<nat>)
    requires n <= |issues|
    ensures PickedAt(issues[..n], RootsOf(issues[..n], listed), at)
    ensures forall i: nat | i < n :: i in at <==> IsRoot(issues[i], listed)
  {
    if n == 0 {
      at := [];
    } else {
      at := RootsAt(issues, listed, n - 1);
      RootsSnoc(issues, n - 1, listed);
      PickedSnoc(issues, n - 1, RootsOf(issues[..n - 1], listed), at);
      if IsRoot(issues[n - 1], listed) { at := at + [n - 1]; }
    }
  }

  /** The two filters keep the order of the list. */
  lemma FiltersKeepOrder(issues: seq<IssueNode>)
    ensures forall p :: AreItsSubtasks(issues, p, SubtasksOf(issues, p))
    ensures AreParentless(issues, RootsOf(issues, IdsOf(issues)))
  {
    assert issues[..|issues|] == issues;
    forall p: Id ensures AreItsSubtasks(issues, p, SubtasksOf(issues, p)) {
      var at := SubtasksAt(issues, p, |issues|);
    }
    var at := RootsAt(issues, IdsOf(issues), |issues|);
    forall i: nat | i < |issues|
      ensures IsRoot(issues[i], IdsOf(issues)) <==>
                forall j | 0 <= j < |issues| :: issues[i].row.parentId != Some(issues[j].id)
    {
      RootNamesNobody(issues, issues[i]);
    }
  }

  lemma RootNamesNobody(issues: seq<IssueNode>, n: IssueNode)
    ensures IsRoot(n, IdsOf(issues)) <==> forall j | 0 <= j < |issues| :: n.row.parentId != Some(issues[j].id)
  {
    if j :| 0 <= j < |issues| && n.row.parentId == Some(issues[j].id) { assert IdsOf(issues)[j] == issues[j].id; }
  }

  /** The first loop: empties every `subtasks` and indexes the issues by key. */
  method IndexById(issues: seq<IssueNode>) returns (byId: map<Id, IssueNode>)
    requires NoDuplicates(IdsOf(issues))
    modifies issues
    ensures forall i | 0 <= i < |issues| :: issues[i].subtasks == []
    ensures forall p :: p in byId <==> p in IdsOf(issues)
    ensures forall p | p in byId :: byId[p] in issues && byId[p].id == p
  {
    byId := map[];
    for k := 0 to |issues|
      invariant forall i | 0 <= i < k :: issues[i].subtasks == [] && issues[i].id in byId
      invariant forall p | p in byId :: byId[p] in issues && byId[p].id == p
    {
      issues[k].subtasks := [];
      byId := byId[issues[k].id := issues[k]];
    }
    forall p | p in byId ensures p in IdsOf(issues) {
      var i :| 0 <= i < |issues| && issues[i] == byId[p];
      assert IdsOf(issues)[i] == p;
    }
  }

  /**
   Links the forest: every issue's `subtasks` becomes the filter of the list by
   `parentId`, and the result holds exactly the issues with no listed parent.
   */
  method BuildIssueTree(issues: seq<IssueNode>) returns (roots: seq<IssueNode>)
    requires NoDuplicates(IdsOf(issues))
    modifies issues
    ensures roots == RootsOf(issues, IdsOf(issues))
    ensures forall i | 0 <= i < |issues| :: issues[i].subtasks == SubtasksOf(issues, issues[i].id)
    ensures AreParentless(issues, roots)
    ensures forall i | 0 <= i < |issues| :: AreItsSubtasks(issues, issues[i].id, issues[i].subtasks)
  {
    hide SubtasksOf, RootsOf, AreParentless, AreItsSubtasks;
    FiltersKeepOrder(issues);
    var byId := IndexById(issues);
    roots := [];
    NothingListedYet(issues, IdsOf(issues));
    for k := 0 to |issues|
      invariant roots == RootsOf(issues[..k], IdsOf(issues))
      invariant forall i | 0 <= i < |issues| :: issues[i].subtasks == SubtasksOf(issues[..k], issues[i].id)
    {
      var issue := issues[k];
      RootsSnoc(issues, k, IdsOf(issues));
      forall i | 0 <= i < |issues|
        ensures SubtasksOf(issues[..k + 1], issues[i].id)
             == SubtasksOf(issues[..k], issues[i].id)
              + if issue.row.parentId == Some(issues[i].id) then [issue] else []
      {
        SubtasksSnoc(issues, k, issues[i].id);
      }
      if issue.row.parentId.Some? {
        if issue.row.parentId.value in byId {
          var parent := byId[issue.row.parentId.value];
          assert forall i | 0 <= i < |issues| :: issues[i] == parent <==> issues[i].id == parent.id by {
            var j :| 0 <= j < |issues| && issues[j] == parent;
            assert forall i | 0 <= i < |issues| && i != j :: IdsOf(issues)[i] != IdsOf(issues)[j];
          }
          parent.subtasks := parent.subtasks + [issue];
        } else {
          roots := roots + [issue];
        }
      } else {
        roots := roots + [issue];
      }
    }
    assert issues[..|issues|] == issues;
  }

  // ------------------------------------------------------------------ responses

  datatype IssueResponse = IssueResponse(
    id: Id, title: string, progress: int, startAt: Option<Day>, endAt: Option<Day>,
    parentId: Option<Id>, subtasks: seq<IssueResponse>)

  /** Every chain of subtasks below `n` stays among `nodes` and is at most `h` long. */
  ghost predicate Descends(n: IssueNode, nodes: set<IssueNode>, h: nat)
    reads nodes
    decreases h
  {
    && n in nodes
    && (n.subtasks != [] ==> h > 0)
    && forall i | 0 <= i < |n.subtasks| :: h > 0 && Descends(n.subtasks[i], nodes, h - 1)
  }

  predicate ShowsRow(r: IssueResponse, row: Issue) {
    && r.title == row.title && r.progress == row.progress
    && r.startAt == row.startAt && r.endAt == row.endAt && r.parentId == row.parentId
  }

  /** `mapIssuesToResponse`, the recursion through `subtasks`. */
  function MapIssueToResponse(n: IssueNode, ghost nodes: set<IssueNode>, ghost h: nat): (r: IssueResponse)
    requires Descends(n, nodes, h)
    reads nodes
    ensures r.id == n.id && ShowsRow(r, n.row)
    ensures |r.subtasks| == |n.subtasks|
    ensures forall i | 0 <= i < |n.subtasks| :: r.subtasks[i].id == n.subtasks[i].id
    decreases h, 0
  {
    IssueResponse(n.id, n.row.title, n.row.progress, n.row.startAt, n.row.endAt, n.row.parentId,
      if n.subtasks == [] then [] else MapIssues(n.subtasks, nodes, h - 1))
  }

  function MapIssues(ns: seq<IssueNode>, ghost nodes: set<IssueNode>, ghost h: nat): (rs: seq<IssueResponse>)
    requires forall i | 0 <= i < |ns| :: Descends(ns[i], nodes, h)
    reads nodes
    ensures |rs| == |ns| && forall i | 0 <= i < |ns| :: rs[i].id == ns[i].id
    decreases h, 1 + |ns|
  {
    if ns == [] then []
    else [MapIssueToResponse(ns[0], nodes, h)] + MapIssues(ns[1..], nodes, h)
  }

  /** The keys of a response tree, parents before their subtasks. */
  ghost function Flatten(r: IssueResponse): seq<Id> {
    [r.id] + FlattenAll(r.subtasks)
  }

  ghost function FlattenAll(rs: seq<IssueResponse>): seq<Id> {
    if rs == [] then [] else Flatten(rs[0]) + FlattenAll(rs[1..])
  }

  // --------------------------------------------------- the objects as a forest

  ghost function TableOf(issues: seq<IssueNode>): (t: Table)
    requires NoDuplicates(IdsOf(issues))
    ensures forall p :: p in t <==> p in IdsOf(issues)
    ensures forall i | 0 <= i < |issues| :: issues[i].id in t && t[issues[i].id] == issues[i].row
  {
    assert forall i, j | 0 <= i < |issues| && 0 <= j < |issues| && issues[i].id == issues[j].id ::
        i == j by {
      forall i, j | 0 <= i < |issues| && 0 <= j < |issues| && issues[i].id == issues[j].id ensures i == j {
        assert IdsOf(issues)[i] == IdsOf(issues)[j];
      }
    }
    var t := map i | 0 <= i < |issues| :: issues[i].id := issues[i].row;
    assert forall p | p in t :: p in IdsOf(issues) by {
      forall p | p in t ensures p in IdsOf(issues) {
        var i :| 0 <= i < |issues| && issues[i].id == p;
        assert IdsOf(issues)[i] == p;
      }
    }
    t
  }

  ghost function NodeAt(issues: seq<IssueNode>, p: Id): (n: IssueNode)
    requires p in IdsOf(issues)
    ensures n in issues && n.id == p
  {
    var i :| 0 <= i < |issues| && IdsOf(issues)[i] == p;
    issues[i]
  }

  lemma NodeAtUnique(issues: seq<IssueNode>, n: IssueNode)
    requires NoDuplicates(IdsOf(issues)) && n in issues
    ensures n.id in IdsOf(issues) && NodeAt(issues, n.id) == n
  {
    var i :| 0 <= i < |issues| && issues[i] == n;
    assert IdsOf(issues)[i] == n.id;
    var m := NodeAt(issues, n.id);
    assert m.id == n.id;
    var j :| 0 <= j < |issues| && issues[j] == m;
    assert IdsOf(issues)[j] == n.id;
    if i < j { assert false; }
    if j < i { assert false; }
  }

  /** The links that the objects carry. */
  ghost function LinksOf(issues: seq<IssueNode>): Links
    requires NoDuplicates(IdsOf(issues))
    reads issues
  {
    map p | p in TableOf(issues) :: IdsOf(NodeAt(issues, p).subtasks)
  }

  /** What BuildIssueTree establishes. */
  ghost predicate Linked(issues: seq<IssueNode>)
    reads issues
  {
    forall i | 0 <= i < |issues| :: issues[i].subtasks == SubtasksOf(issues, issues[i].id)
  }

  lemma {:induction false} SubtasksFilter(issues: seq<IssueNode>, p: Id, k: nat)
    requires NoDuplicates(IdsOf(issues)) && k <= |issues|
    ensures var cs := SubtasksOf(issues[..k], p);
            && NoDuplicates(IdsOf(cs))
            && (forall c | c in cs :: c in issues[..k] && c.row.parentId == Some(p))
            && (forall i | 0 <= i < k && issues[i].row.parentId == Some(p) :: issues[i] in cs)
  {
    hide SubtasksOf;
    NothingListedYet(issues, []);
    if k > 0 {
      SubtasksSnoc(issues, k - 1, p);
      SubtasksFilter(issues, p, k - 1);
      NoDuplicatesSnoc(issues, SubtasksOf(issues[..k - 1], p), k - 1);
    }
  }

  lemma {:induction false} RootsFilter(issues: seq<IssueNode>, listed: seq<Id>, k: nat)
    requires NoDuplicates(IdsOf(issues)) && k <= |issues|
    ensures NoDuplicates(IdsOf(RootsOf(issues[..k], listed)))
    ensures forall c | c in RootsOf(issues[..k], listed) :: c in issues[..k] && IsRoot(c, listed)
    ensures forall i | 0 <= i < k && IsRoot(issues[i], listed) :: issues[i] in RootsOf(issues[..k], listed)
  {
    hide RootsOf, IsRoot;
    NothingListedYet(issues, listed);
    if k > 0 {
      RootsSnoc(issues, k - 1, listed);
      RootsFilter(issues, listed, k - 1);
      NoDuplicatesSnoc(issues, RootsOf(issues[..k - 1], listed), k - 1);
    }
  }

  lemma NoDuplicatesSnoc(issues: seq<IssueNode>, cs: seq<IssueNode>, k: nat)
    requires NoDuplicates(IdsOf(issues)) && k < |issues|
    requires NoDuplicates(IdsOf(cs)) && forall c | c in cs :: c in issues[..k]
    ensures NoDuplicates(IdsOf(cs + [issues[k]]))
  {
    var ds := cs + [issues[k]];
    forall i, j | 0 <= i < j < |ds| ensures IdsOf(ds)[i] != IdsOf(ds)[j] {
      if j < |cs| {
        assert IdsOf(cs)[i] != IdsOf(cs)[j];
      } else {
        assert cs[i] in issues[..k];
        var m :| 0 <= m < k && issues[m] == cs[i];
        assert IdsOf(issues)[m] != IdsOf(issues)[k];
      }
    }
  }

  /** After the linking, every issue links exactly its children, each once. */
  lemma LinkedLinksChildren(issues: seq<IssueNode>)
    requires NoDuplicates(IdsOf(issues)) && Linked(issues)
    ensures LinksChildren(TableOf(issues), LinksOf(issues))
  {
    var t := TableOf(issues);
    forall p | p in t
      ensures NoDuplicates(LinksOf(issues)[p])
      ensures forall c | c in LinksOf(issues)[p] :: c in Children(t, p)
      ensures forall c | c in Children(t, p) :: c in LinksOf(issues)[p]
    {
      LinkedAt(issues, p);
    }
  }

  lemma LinkedAt(issues: seq<IssueNode>, p: Id)
    requires NoDuplicates(IdsOf(issues)) && Linked(issues) && p in TableOf(issues)
    ensures NoDuplicates(LinksOf(issues)[p])
    ensures forall c | c in LinksOf(issues)[p] :: c in Children(TableOf(issues), p)
    ensures forall c | c in Children(TableOf(issues), p) :: c in LinksOf(issues)[p]
  {
    var t, cs := TableOf(issues), SubtasksOf(issues, p);
    SubtasksFilter(issues, p, |issues|);
    assert issues[..|issues|] == issues;
    var n := NodeAt(issues, p);
    assert n.subtasks == cs by {
      var i :| 0 <= i < |issues| && issues[i] == n;
    }
    forall c | c in IdsOf(cs) ensures c in Children(t, p) {
      var i :| 0 <= i < |cs| && IdsOf(cs)[i] == c;
      assert cs[i] in issues;
    }
    forall c | c in Children(t, p) ensures c in IdsOf(cs) {
      var m := NodeAt(issues, c);
      var i :| 0 <= i < |issues| && issues[i] == m;
      assert m in cs;
      var j :| 0 <= j < |cs| && cs[j] == m;
      assert IdsOf(cs)[j] == c;
    }
  }

  ghost function NodeSet(issues: seq<IssueNode>): set<IssueNode> {
    set n | n in issues
  }

  /** The objects stand for the rows of `t`, and their `subtasks` for `links`. */
  ghost predicate Carries(nodes: set<IssueNode>, t: Table, links: Links)
    reads nodes
  {
    && LinksChildren(t, links)
    && (forall n | n in nodes :: n.id in t && links[n.id] == IdsOf(n.subtasks))
    && (forall n, c | n in nodes && c in n.subtasks :: c in nodes)
  }

  lemma LinkedCarries(issues: seq<IssueNode>)
    requires NoDuplicates(IdsOf(issues)) && Linked(issues)
    ensures Carries(NodeSet(issues), TableOf(issues), LinksOf(issues))
  {
    LinkedLinksChildren(issues);
    forall n | n in NodeSet(issues)
      ensures n.id in TableOf(issues) && LinksOf(issues)[n.id] == IdsOf(n.subtasks)
      ensures forall c | c in n.subtasks :: c in NodeSet(issues)
    {
      NodeAtUnique(issues, n);
      SubtasksFilter(issues, n.id, |issues|);
      assert issues[..|issues|] == issues;
      var i :| 0 <= i < |issues| && issues[i] == n;
    }
  }

  lemma SubtasksLower(nodes: set<IssueNode>, t: Table, links: Links, n: IssueNode, h: nat)
    requires Carries(nodes, t, links) && n in nodes && HeightAtMost(t, n.id, h)
    ensures n.subtasks != [] ==> h > 0
    ensures h > 0 ==> forall i | 0 <= i < |n.subtasks| ::
              n.subtasks[i] in nodes && HeightAtMost(t, n.subtasks[i].id, h - 1)
  {
    forall i | 0 <= i < |n.subtasks| ensures n.subtasks[i].id in Children(t, n.id) {
      assert links[n.id][i] == n.subtasks[i].id;
    }
    if n.subtasks != [] { assert n.subtasks[0].id in Children(t, n.id); }
  }

  /** The mapping terminates on such objects, and its response is the listing of the links. */
  lemma {:induction false} ResponseIsListing(nodes: set<IssueNode>, t: Table, links: Links, n: IssueNode, h: nat)
    requires Carries(nodes, t, links) && n in nodes && HeightAtMost(t, n.id, h)
    ensures Descends(n, nodes, h)
    ensures Flatten(MapIssueToResponse(n, nodes, h)) == Listing(links, n.id, h)
    decreases h, 0
  {
    SubtasksLower(nodes, t, links, n, h);
    if n.subtasks != [] { ResponsesAreListing(nodes, t, links, n.subtasks, h - 1); }
  }

  lemma {:induction false} ResponsesAreListing(nodes: set<IssueNode>, t: Table, links: Links,
                                               ns: seq<IssueNode>, h: nat)
    requires Carries(nodes, t, links)
    requires forall i | 0 <= i < |ns| :: ns[i] in nodes && HeightAtMost(t, ns[i].id, h)
    ensures forall i | 0 <= i < |ns| :: Descends(ns[i], nodes, h)
    ensures FlattenAll(MapIssues(ns, nodes, h)) == ListingAll(links, IdsOf(ns), h)
    decreases h, 1 + |ns|
  {
    if ns != [] {
      ResponseIsListing(nodes, t, links, ns[0], h);
      ResponsesAreListing(nodes, t, links, ns[1..], h);
      assert forall i | 1 <= i < |ns| :: ns[i] == ns[1..][i - 1];
      AllIsFirstAndRest(nodes, ns, links, h);
    }
  }

  /** Every response of the tree shows the row of its key, and stands below the issue that row names as its parent. */
  ghost predicate Faithful(r: IssueResponse, t: Table) {
    && r.id in t && ShowsRow(r, t[r.id])
    && forall i | 0 <= i < |r.subtasks| :: Faithful(r.subtasks[i], t) && r.subtasks[i].parentId == Some(r.id)
  }

  /** The objects hold the rows of `t`, and every subtask names its parent. */
  ghost predicate HoldsRows(nodes: set<IssueNode>, t: Table)
    reads nodes
  {
    && (forall n | n in nodes :: n.id in t && n.row == t[n.id])
    && (forall n, c | n in nodes && c in n.subtasks :: c.row.parentId == Some(n.id))
  }

  /** What a node's response shows of itself, and that its subtasks are the responses of the node's subtasks. */
  lemma ResponseOf(nodes: set<IssueNode>, n: IssueNode, h: nat)
    requires Descends(n, nodes, h)
    ensures var r := MapIssueToResponse(n, nodes, h);
            && r.id == n.id && ShowsRow(r, n.row) && |r.subtasks| == |n.subtasks|
            && (n.subtasks != [] ==> h > 0 && r.subtasks == MapIssues(n.subtasks, nodes, h - 1))
  {
  }

  lemma {:induction false} ResponseAt(nodes: set<IssueNode>, ns: seq<IssueNode>, h: nat, i: nat)
    requires i < |ns| && forall j | 0 <= j < |ns| :: Descends(ns[j], nodes, h)
    ensures MapIssues(ns, nodes, h)[i] == MapIssueToResponse(ns[i], nodes, h)
    decreases i
  {
    if i > 0 { ResponseAt(nodes, ns[1..], h, i - 1); }
  }

  /** The response of a subtask names the issue above it. */
  lemma SubtaskNamesParent(nodes: set<IssueNode>, t: Table, n: IssueNode, h: nat, i: nat)
    requires HoldsRows(nodes, t) && Descends(n, nodes, h) && i < |n.subtasks| && h > 0
    ensures MapIssueToResponse(n.subtasks[i], nodes, h - 1).parentId == Some(n.id)
  {
    var c := n.subtasks[i];
    assert c in n.subtasks && n in nodes;
    ResponseOf(nodes, c, h - 1);
  }

  lemma {:induction false} ResponseIsFaithful(nodes: set<IssueNode>, t: Table, n: IssueNode, h: nat)
    requires HoldsRows(nodes, t) && Descends(n, nodes, h)
    ensures Faithful(MapIssueToResponse(n, nodes, h), t)
    decreases h
  {
    var r := MapIssueToResponse(n, nodes, h);
    ResponseOf(nodes, n, h);
    forall i | 0 <= i < |r.subtasks| ensures Faithful(r.subtasks[i], t) && r.subtasks[i].parentId == Some(r.id) {
      ResponseAt(nodes, n.subtasks, h - 1, i);
      ResponseIsFaithful(nodes, t, n.subtasks[i], h - 1);
      SubtaskNamesParent(nodes, t, n, h, i);
    }
  }

  lemma LinkedHoldsRows(issues: seq<IssueNode>)
    requires NoDuplicates(IdsOf(issues)) && Linked(issues)
    ensures HoldsRows(NodeSet(issues), TableOf(issues))
  {
    forall n, c | n in NodeSet(issues) && c in n.subtasks ensures c.row.parentId == Some(n.id) {
      SubtasksFilter(issues, n.id, |issues|);
      assert issues[..|issues|] == issues;
      var i :| 0 <= i < |issues| && issues[i] == n;
    }
  }

  lemma AllIsFirstAndRest(nodes: set<IssueNode>, ns: seq<IssueNode>, links: Links, h: nat)
    requires ns != [] && forall i | 0 <= i < |ns| :: Descends(ns[i], nodes, h)
    ensures FlattenAll(MapIssues(ns, nodes, h))
         == Flatten(MapIssueToResponse(ns[0], nodes, h)) + FlattenAll(MapIssues(ns[1..], nodes, h))
    ensures ListingAll(links, IdsOf(ns), h) == Listing(links, ns[0].id, h) + ListingAll(links, IdsOf(ns[1..]), h)
  {
    var rs := MapIssues(ns, nodes, h);
    assert rs[0] == MapIssueToResponse(ns[0], nodes, h) && rs[1..] == MapIssues(ns[1..], nodes, h);
    assert IdsOf(ns)[1..] == IdsOf(ns[1..]);
  }

  lemma RootIsParentless(issues: seq<IssueNode>, p: Id)
    requires NoDuplicates(IdsOf(issues)) && p in IdsOf(RootsOf(issues, IdsOf(issues)))
    ensures var t := TableOf(issues);
            p in t && (t[p].parentId.None? || t[p].parentId.value !in t)
  {
    var roots := RootsOf(issues, IdsOf(issues));
    RootsFilter(issues, IdsOf(issues), |issues|);
    assert issues[..|issues|] == issues;
    var i :| 0 <= i < |roots| && IdsOf(roots)[i] == p;
    assert roots[i] in issues;
  }

  lemma ParentlessNode(issues: seq<IssueNode>, p: Id) returns (i: nat)
    requires NoDuplicates(IdsOf(issues)) && p in TableOf(issues)
    requires var t := TableOf(issues); t[p].parentId.None? || t[p].parentId.value !in t
    ensures i < |issues| && issues[i].id == p && IsRoot(issues[i], IdsOf(issues))
  {
    i :| 0 <= i < |issues| && IdsOf(issues)[i] == p;
    assert TableOf(issues)[issues[i].id] == issues[i].row;
  }

  lemma ParentlessIsRoot(issues: seq<IssueNode>, p: Id)
    requires NoDuplicates(IdsOf(issues)) && p in TableOf(issues)
    requires var t := TableOf(issues); t[p].parentId.None? || t[p].parentId.value !in t
    ensures p in IdsOf(RootsOf(issues, IdsOf(issues)))
  {
    var i := ParentlessNode(issues, p);
    RootIsKept(issues, IdsOf(issues), i);
    InIdsOf(RootsOf(issues, IdsOf(issues)), issues[i]);
  }

  lemma RootIsKept(issues: seq<IssueNode>, listed: seq<Id>, i: nat)
    requires NoDuplicates(IdsOf(issues)) && i < |issues| && IsRoot(issues[i], listed)
    ensures issues[i] in RootsOf(issues, listed)
  {
    RootsFilter(issues, listed, |issues|);
    assert issues[..|issues|] == issues;
  }

  lemma RootsAreRoots(issues: seq<IssueNode>)
    requires NoDuplicates(IdsOf(issues))
    ensures AreRoots(TableOf(issues), IdsOf(RootsOf(issues, IdsOf(issues))))
    ensures forall n | n in RootsOf(issues, IdsOf(issues)) :: n in NodeSet(issues) && n.id in TableOf(issues)
  {
    var t, roots := TableOf(issues), RootsOf(issues, IdsOf(issues));
    assert NoDuplicates(IdsOf(roots)) && forall n | n in roots :: n in issues by {
      RootsFilter(issues, IdsOf(issues), |issues|);
      assert issues[..|issues|] == issues;
    }
    forall p ensures p in IdsOf(roots) <==> p in t && (t[p].parentId.None? || t[p].parentId.value !in t) {
      if p in IdsOf(roots) { RootIsParentless(issues, p); }
      if p in t && (t[p].parentId.None? || t[p].parentId.value !in t) { ParentlessIsRoot(issues, p); }
    }
  }

  lemma InIdsOf(issues: seq<IssueNode>, n: IssueNode)
    requires n in issues
    ensures n.id in IdsOf(issues)
  {
    var i :| 0 <= i < |issues| && issues[i] == n;
    assert IdsOf(issues)[i] == n.id;
  }

  /** The part of a table on which walks end: what is left of it without the cycles and what hangs below them. */
  ghost function Grounded(t: Table): Table {
    map id | id in t && WalkEnds(t, id) :: t[id]
  }

  /** Such a part is closed both ways: parents in the table and children belong to it as well. */
  lemma GroundedIsClosed(t: Table, id: Id)
    requires id in t && t[id].parentId.Some? && t[id].parentId.value in t
    ensures WalkEnds(t, id) <==> WalkEnds(t, t[id].parentId.value)
  {
    if WalkEnds(t, id) { DepthOfParent(t, id); } else if WalkEnds(t, t[id].parentId.value) {
      WalkEndsAbove(t, id, t[id].parentId.value);
    }
  }

  lemma {:induction false} GroundedUp(t: Table, id: Id, n: nat)
    requires id in Grounded(t)
    ensures Up(Grounded(t), id, n) == Up(t, id, n)
    decreases n
  {
    if n > 0 && t[id].parentId.Some? {
      if t[id].parentId.value in t {
        GroundedIsClosed(t, id);
        GroundedUp(t, t[id].parentId.value, n - 1);
      }
    }
  }

  lemma GroundedIsForest(t: Table)
    ensures Acyclic(Grounded(t))
    ensures forall p | p in Grounded(t) :: Children(Grounded(t), p) == Children(t, p)
    ensures Acyclic(t) <==> Grounded(t) == t
  {
    var g := Grounded(t);
    forall id | id in g ensures WalkEnds(g, id) {
      var n: nat :| Up(t, id, n) == None;
      GroundedUp(t, id, n);
    }
    forall p | p in g ensures Children(g, p) == Children(t, p) {
      forall c | c in Children(t, p) ensures c in g { GroundedIsClosed(t, c); }
    }
  }

  lemma GroundedRoots(t: Table, roots: seq<Id>)
    requires AreRoots(t, roots)
    ensures AreRoots(Grounded(t), roots)
  {
    forall p | p in t && (t[p].parentId.None? || t[p].parentId.value !in t) ensures p in Grounded(t) {
      assert Up(t, p, 1) == None;
    }
    forall p | p in Grounded(t) && t[p].parentId.Some? && t[p].parentId.value in t
      ensures t[p].parentId.value in Grounded(t)
    {
      GroundedIsClosed(t, p);
    }
  }

  ghost function GroundedNodes(nodes: set<IssueNode>, t: Table): set<IssueNode> {
    set n | n in nodes && n.id in Grounded(t)
  }

  lemma GroundedCarries(nodes: set<IssueNode>, t: Table, links: Links) returns (some: Links)
    requires Carries(nodes, t, links)
    ensures Carries(GroundedNodes(nodes, t), Grounded(t), some)
  {
    var g := Grounded(t);
    some := map p | p in g :: links[p];
    GroundedIsForest(t);
    forall n, c | n in GroundedNodes(nodes, t) && c in n.subtasks ensures c in GroundedNodes(nodes, t) {
      var i :| 0 <= i < |n.subtasks| && n.subtasks[i] == c;
      assert IdsOf(n.subtasks)[i] == c.id;
      assert c.id in Children(g, n.id);
    }
  }

  /**
   `getProjectBoard` and `getProjectIssues` after their query: the mapping
   terminates on every list of distinct issues, and the response holds exactly
   the issues whose walk up the parents ends, each once and with its own row, the
   parentless ones at the top in list order. Issues on or below a cycle, which
   `updateIssue` can make, are not shown.
   */
  method BoardOf(issues: seq<IssueNode>) returns (board: seq<IssueResponse>)
    requires NoDuplicates(IdsOf(issues))
    modifies issues
    ensures multiset(FlattenAll(board)) == multiset(Grounded(TableOf(issues)).Keys)
    ensures Acyclic(TableOf(issues)) ==> multiset(FlattenAll(board)) == multiset(IdsOf(issues))
    ensures |board| == |RootsOf(issues, IdsOf(issues))|
    ensures forall i | 0 <= i < |board| :: board[i].id == RootsOf(issues, IdsOf(issues))[i].id
    ensures AreParentless(issues, RootsOf(issues, IdsOf(issues)))
    ensures forall i | 0 <= i < |board| :: Faithful(board[i], TableOf(issues))
  {
    var roots := BuildIssueTree(issues);
    ghost var nodes := GroundedNodes(NodeSet(issues), TableOf(issues));
    ghost var h := BoardHeight(issues, roots);
    LinkedHoldsRows(issues);
    assert HoldsRows(nodes, TableOf(issues));
    forall i | 0 <= i < |roots| ensures Faithful(MapIssues(roots, nodes, h)[i], TableOf(issues)) {
      ResponseAt(nodes, roots, h, i);
      ResponseIsFaithful(nodes, TableOf(issues), roots[i], h);
    }
    board := MapIssues(roots, nodes, h);
    if Acyclic(TableOf(issues)) {
      GroundedIsForest(TableOf(issues));
      KeysAreIds(TableOf(issues).Keys, IdsOf(issues));
    }
  }

  lemma BoardHeight(issues: seq<IssueNode>, roots: seq<IssueNode>) returns (h: nat)
    requires NoDuplicates(IdsOf(issues)) && Linked(issues)
    requires roots == RootsOf(issues, IdsOf(issues))
    ensures var nodes := GroundedNodes(NodeSet(issues), TableOf(issues));
            && (forall i | 0 <= i < |roots| :: Descends(roots[i], nodes, h))
            && multiset(FlattenAll(MapIssues(roots, nodes, h))) == multiset(Grounded(TableOf(issues)).Keys)
  {
    var t := TableOf(issues);
    var nodes, g := GroundedNodes(NodeSet(issues), t), Grounded(t);
    LinkedCarries(issues);
    var links := GroundedCarries(NodeSet(issues), t, LinksOf(issues));
    RootsAreRoots(issues);
    GroundedRoots(t, IdsOf(roots));
    GroundedIsForest(t);
    h := CommonHeight(g);
    forall n | n in roots ensures n in nodes && n.id in g { InIdsOf(roots, n); }
    BoardIsEverything(nodes, g, links, roots, h);
  }

  lemma BoardIsEverything(nodes: set<IssueNode>, t: Table, links: Links, roots: seq<IssueNode>, h: nat)
    requires Carries(nodes, t, links) && Acyclic(t) && AreRoots(t, IdsOf(roots))
    requires forall n | n in roots :: n in nodes && n.id in t
    requires forall p | p in t :: HeightAtMost(t, p, h)
    ensures forall i | 0 <= i < |roots| :: Descends(roots[i], nodes, h)
    ensures multiset(FlattenAll(MapIssues(roots, nodes, h))) == multiset(t.Keys)
  {
    ResponsesAreListing(nodes, t, links, roots, h);
    ListingIsEverything(t, links, IdsOf(roots), h);
  }

  lemma CommonHeight(t: Table) returns (h: nat)
    requires Acyclic(t)
    ensures forall p | p in t :: HeightAtMost(t, p, h)
  {
    h := DepthsBounded(t, t.Keys);
    forall p | p in t ensures HeightAtMost(t, p, h) {
      HeightFromDepth(t, p, h);
      HigherBound(t, p, h - Depth(t, p), h);
    }
  }

  lemma {:induction false} HigherBound(t: Table, p: Id, h: nat, k: nat)
    requires HeightAtMost(t, p, h) && h <= k
    ensures HeightAtMost(t, p, k)
    decreases h
  {
    forall c | c in Children(t, p) ensures k > 0 && HeightAtMost(t, c, k - 1) {
      HigherBound(t, c, h - 1, k - 1);
    }
  }

  lemma KeysAreIds(keys: set<Id>, ids: seq<Id>)
    requires NoDuplicates(ids) && forall p :: p in keys <==> p in ids
    ensures multiset(keys) == multiset(ids)
  {
    if ids == [] {
      assert keys == {};
    } else {
      var last := ids[|ids| - 1];
      var rest := ids[..|ids| - 1];
      assert ids == rest + [last];
      assert last !in rest;
      KeysAreIds(keys - {last}, rest);
      assert keys == (keys - {last}) + {last};
    }
  }
}
