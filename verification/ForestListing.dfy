/**
 Listing a forest parents first: when every issue lists its children once, the
 listing of a subtree is a permutation of the subtree.
 */
module ForestListing {
  import opened Common
  import opened IssueForest
  import opened RollUpTheory

  /** For each issue the keys of its subtasks, in order. */
  type Links = map<Id, seq<Id>>

  ghost predicate NoDuplicates(s: seq<Id>) {
    forall i, j | 0 <= i < j < |s| :: s[i] != s[j]
  }

  /** Every issue links exactly its children, each once. */
  ghost predicate LinksChildren(t: Table, links: Links) {
    && links.Keys == t.Keys
    && forall p | p in t ::
         && NoDuplicates(links[p])
         && (forall c | c in links[p] :: c in Children(t, p))
         && (forall c | c in Children(t, p) :: c in links[p])
  }

  /** `id`, then its subtasks with everything below them. */
  ghost function Listing(links: Links, id: Id, h: nat): seq<Id>
    decreases h, 0
  {
    if id !in links || links[id] == [] || h == 0 then [id]
    else [id] + ListingAll(links, links[id], h - 1)
  }

  ghost function ListingAll(links: Links, ids: seq<Id>, h: nat): seq<Id>
    decreases h, 1 + |ids|
  {
    if ids == [] then [] else Listing(links, ids[0], h) + ListingAll(links, ids[1..], h)
  }

  /** Everything below one of `tops`. */
  ghost function Below(t: Table, tops: seq<Id>): set<Id> {
    if tops == [] then {} else Subtree(t, tops[0]) + Below(t, tops[1..])
  }

  lemma BelowContains(t: Table, tops: seq<Id>, x: Id)
    ensures x in Below(t, tops) <==> exists p :: p in tops && x in Subtree(t, p)
  {
    if tops != [] {
      BelowContains(t, tops[1..], x);
      if x in Subtree(t, tops[0]) { assert tops[0] in tops; }
    }
  }

  /** Different issues of one depth have nothing below them in common. */
  lemma SameDepthDisjoint(t: Table, a: Id, b: Id, x: Id)
    requires Acyclic(t) && a in t && b in t && a != b && Depth(t, a) == Depth(t, b)
    requires x in Subtree(t, a)
    ensures x !in Subtree(t, b)
  {
    if x in Subtree(t, b) {
      var n: nat :| Up(t, x, n) == Some(a);
      var m: nat :| Up(t, x, m) == Some(b);
      DepthAlongWalk(t, x, n);
      DepthAlongWalk(t, x, m);
    }
  }

  /** Issues of one depth, without repetition: the tops of disjoint subtrees. */
  ghost predicate Level(t: Table, tops: seq<Id>, d: nat)
    requires Acyclic(t)
  {
    NoDuplicates(tops) && forall p | p in tops :: p in t && Depth(t, p) == d
  }

  lemma LevelRest(t: Table, tops: seq<Id>, d: nat)
    requires Acyclic(t) && Level(t, tops, d) && tops != []
    ensures Level(t, tops[1..], d)
    ensures Subtree(t, tops[0]) !! Below(t, tops[1..])
  {
    forall x | x in Subtree(t, tops[0]) ensures x !in Below(t, tops[1..]) {
      BelowContains(t, tops[1..], x);
      if x in Below(t, tops[1..]) {
        var p :| p in tops[1..] && x in Subtree(t, p);
        SameDepthDisjoint(t, tops[0], p, x);
      }
    }
  }

  lemma ChildAbove(t: Table, p: Id, x: Id) returns (c: Id)
    requires x in Subtree(t, p) && x != p
    ensures c in Children(t, p) && x in Subtree(t, c)
  {
    var k: nat :| Up(t, x, k) == Some(p);
    if Up(t, x, k - 1) == None { UpStaysNone(t, x, k - 1, k); }
    UpCompose(t, x, k - 1, 1);
    UpIsRow(t, x, k - 1);
    c := Up(t, x, k - 1).value;
    assert Up(t, c, 1) == Some(p);
  }

  lemma ChildSubtree(t: Table, p: Id, c: Id, x: Id)
    requires Acyclic(t) && p in t && c in Children(t, p) && x in Subtree(t, c)
    ensures x in Subtree(t, p) && x != p
  {
    var k: nat :| Up(t, x, k) == Some(c);
    UpCompose(t, x, k, 1);
    assert Up(t, c, 1) == Some(p);
    DepthAlongWalk(t, x, k);
    DepthOfParent(t, c);
  }

  /** A subtree is its top and the disjoint subtrees of the top's children. */
  lemma SubtreeSplits(t: Table, links: Links, p: Id)
    requires Acyclic(t) && LinksChildren(t, links) && p in t
    ensures Level(t, links[p], Depth(t, p) + 1)
    ensures p !in Below(t, links[p])
    ensures Subtree(t, p) == {p} + Below(t, links[p])
  {
    forall c | c in links[p] ensures c in t && Depth(t, c) == Depth(t, p) + 1 { DepthOfParent(t, c); }
    assert Up(t, p, 0) == Some(p);
    forall x ensures x in Below(t, links[p]) <==> x in Subtree(t, p) && x != p {
      BelowContains(t, links[p], x);
      if x in Below(t, links[p]) {
        var c :| c in links[p] && x in Subtree(t, c);
        ChildSubtree(t, p, c, x);
      }
      if x in Subtree(t, p) && x != p {
        var c := ChildAbove(t, p, x);
        assert c in links[p];
      }
    }
  }

  lemma MultisetOfDisjoint(a: set<Id>, b: set<Id>)
    requires a !! b
    ensures multiset(a + b) == multiset(a) + multiset(b)
  {
  }

  /** The listing of an issue is a permutation of its subtree. */
  lemma {:induction false} ListingIsSubtree(t: Table, links: Links, p: Id, h: nat)
    requires Acyclic(t) && LinksChildren(t, links) && p in t && HeightAtMost(t, p, h)
    ensures multiset(Listing(links, p, h)) == multiset(Subtree(t, p))
    decreases h, 0
  {
    SubtreeSplits(t, links, p);
    MultisetOfDisjoint({p}, Below(t, links[p]));
    if links[p] != [] {
      var c := links[p][0];
      assert c in links[p] && c in Children(t, p);
      ListingIsBelow(t, links, links[p], Depth(t, p) + 1, h - 1);
    }
  }

  lemma {:induction false} ListingIsBelow(t: Table, links: Links, tops: seq<Id>, d: nat, h: nat)
    requires Acyclic(t) && LinksChildren(t, links) && Level(t, tops, d)
    requires forall p | p in tops :: HeightAtMost(t, p, h)
    ensures multiset(ListingAll(links, tops, h)) == multiset(Below(t, tops))
    decreases h, 1 + |tops|
  {
    if tops != [] {
      LevelRest(t, tops, d);
      ListingIsSubtree(t, links, tops[0], h);
      ListingIsBelow(t, links, tops[1..], d, h);
      MultisetOfDisjoint(Subtree(t, tops[0]), Below(t, tops[1..]));
    }
  }

  /** The issues without a parent in the table, each once. */
  ghost predicate AreRoots(t: Table, roots: seq<Id>) {
    && NoDuplicates(roots)
    && (forall p :: p in roots <==> p in t && (t[p].parentId.None? || t[p].parentId.value !in t))
  }

  lemma RootAbove(t: Table, x: Id) returns (top: Id)
    requires Acyclic(t) && x in t
    ensures top in t && (t[top].parentId.None? || t[top].parentId.value !in t)
    ensures x in Subtree(t, top)
  {
    var d := Depth(t, x);
    assert d > 0 by { assert Up(t, x, 0).Some?; }
    top := Up(t, x, d - 1).value;
    UpIsRow(t, x, d - 1);
    UpCompose(t, x, d - 1, 1);
    assert Up(t, top, 1) == None;
  }

  /** Listing the roots of a forest lists every issue exactly once. */
  lemma ListingIsEverything(t: Table, links: Links, roots: seq<Id>, h: nat)
    requires Acyclic(t) && LinksChildren(t, links) && AreRoots(t, roots)
    requires forall p | p in roots :: HeightAtMost(t, p, h)
    ensures multiset(ListingAll(links, roots, h)) == multiset(t.Keys)
  {
    forall p | p in roots ensures p in t && Depth(t, p) == 1 {
      assert Up(t, p, 0).Some? && Up(t, p, 1) == None;
      DepthUnique(t, p, 1);
    }
    ListingIsBelow(t, links, roots, 1, h);
    forall x ensures x in Below(t, roots) <==> x in t {
      BelowContains(t, roots, x);
      if x in t {
        var top := RootAbove(t, x);
        assert top in roots;
      }
    }
    assert Below(t, roots) == t.Keys;
  }
}
