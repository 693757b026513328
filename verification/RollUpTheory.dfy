/**
 What a rolled-up forest means: how far nested floors can drift from the exact
 nested mean, and that the shape and the leaves alone decide every progress.
 */
module RollUpTheory {
  import opened Common
  import opened IssueForest
  import opened ProgressRollUp

  /** No chain of children below `p` is longer than `h`. */
  ghost predicate HeightAtMost(t: Table, p: Id, h: nat)
    decreases h
  {
    forall c | c in Children(t, p) :: h > 0 && HeightAtMost(t, c, h - 1)
  }

  /** The nested mean over the leaves below `p`, without any rounding. */
  ghost function Exact(t: Table, p: Id, h: nat): real
    requires p in t && HeightAtMost(t, p, h)
    decreases h, 0
  {
    var cs := Children(t, p);
    if cs == {} then t[p].progress as real
    else
      assert h > 0 by { var c :| c in cs; }
      ExactTotal(t, cs, h - 1) / |cs| as real
  }

  ghost function ExactTotal(t: Table, s: set<Id>, h: nat): real
    requires s <= t.Keys && forall c | c in s :: HeightAtMost(t, c, h)
    decreases h, 1 + |s|
  {
    if s == {} then 0.0 else
      var x :| x in s;
      Exact(t, x, h) + ExactTotal(t, s - {x}, h)
  }

  lemma ExactTotalWithout(t: Table, s: set<Id>, h: nat, x: Id)
    requires s <= t.Keys && x in s && forall c | c in s :: HeightAtMost(t, c, h)
    ensures ExactTotal(t, s, h) == Exact(t, x, h) + ExactTotal(t, s - {x}, h)
    decreases s
  {
    var y :| y in s && ExactTotal(t, s, h) == Exact(t, y, h) + ExactTotal(t, s - {y}, h);
    if y != x {
      ExactTotalWithout(t, s - {y}, h, x);
      ExactTotalWithout(t, s - {x}, h, y);
      assert s - {y} - {x} == s - {x} - {y};
    }
  }

  lemma SignOfProduct(r: real, x: real)
    requires r > 0.0
    ensures r * x <= 0.0 <==> x <= 0.0
  {
  }

  /** The floored mean is within one point below the mean. */
  lemma FloorDrift(sum: int, n: nat, exactSum: real, h: nat)
    requires n > 0
    requires exactSum - (n * h) as real <= sum as real <= exactSum
    ensures exactSum / n as real - (h + 1) as real < (sum / n) as real <= exactSum / n as real
  {
    var q, r := sum / n, n as real;
    assert sum == n * q + sum % n;
    assert (n * q) as real == r * q as real && (n * h) as real == r * h as real;
    var mean := exactSum / r;
    assert exactSum == r * mean;
    SignOfProduct(r, q as real - mean);
    SignOfProduct(r, mean - h as real - 1.0 - q as real);
  }

  /**
   In a rolled-up forest a node of height `h` shows at most the exact nested
   mean and, above the leaves, less than `h` points below it.
   */
  lemma {:induction false} DriftBelowHeight(t: Table, p: Id, h: nat)
    requires Off(t) == {} && p in t && HeightAtMost(t, p, h)
    ensures t[p].progress as real <= Exact(t, p, h)
    ensures Children(t, p) == {} ==> t[p].progress as real == Exact(t, p, h)
    ensures Children(t, p) != {} ==> Exact(t, p, h) - h as real < t[p].progress as real
    decreases h, 0
  {
    var cs := Children(t, p);
    if cs != {} {
      assert h > 0 by { var c :| c in cs; }
      TotalDrift(t, cs, h - 1);
      assert p !in Off(t);
      FloorDrift(Total(t, cs), |cs|, ExactTotal(t, cs, h - 1), h - 1);
    }
  }

  lemma {:induction false} TotalDrift(t: Table, s: set<Id>, h: nat)
    requires Off(t) == {} && s <= t.Keys && forall c | c in s :: HeightAtMost(t, c, h)
    ensures ExactTotal(t, s, h) - (|s| * h) as real <= Total(t, s) as real <= ExactTotal(t, s, h)
    decreases h, 2 + |s|
  {
    hide Off, HeightAtMost, Exact;
    if s != {} {
      var x :| x in s;
      ExactTotalWithout(t, s, h, x);
      TotalWithout(t, s, x);
      TotalDrift(t, s - {x}, h);
      DriftUpToHeight(t, x, h);
      AddDrift(t[x].progress, Exact(t, x, h), Total(t, s - {x}), ExactTotal(t, s - {x}, h), |s - {x}|, h);
      assert |s| == |s - {x}| + 1;
    }
  }

  lemma {:induction false} DriftUpToHeight(t: Table, p: Id, h: nat)
    requires Off(t) == {} && p in t && HeightAtMost(t, p, h)
    ensures Exact(t, p, h) - h as real <= t[p].progress as real <= Exact(t, p, h)
    decreases h, 1
  {
    hide Off, HeightAtMost, Exact;
    DriftBelowHeight(t, p, h);
  }

  lemma AddDrift(x: int, exact: real, total: int, exactTotal: real, m: nat, h: nat)
    requires exact - h as real <= x as real <= exact
    requires exactTotal - (m * h) as real <= total as real <= exactTotal
    ensures (exact + exactTotal) - ((m + 1) * h) as real <= (x + total) as real <= exact + exactTotal
  {
    assert (m + 1) * h == m * h + h;
  }

  lemma DepthsBounded(t: Table, s: set<Id>) returns (d: nat)
    requires Acyclic(t) && s <= t.Keys
    ensures forall id | id in s :: Depth(t, id) <= d
  {
    d := 0;
    if s != {} {
      var x :| x in s;
      var e := DepthsBounded(t, s - {x});
      d := if e < Depth(t, x) then Depth(t, x) else e;
    }
  }

  lemma {:induction false} HeightFromDepth(t: Table, p: Id, d: nat)
    requires Acyclic(t) && p in t && forall id | id in t :: Depth(t, id) <= d
    ensures HeightAtMost(t, p, d - Depth(t, p))
    decreases d - Depth(t, p)
  {
    forall c | c in Children(t, p)
      ensures d - Depth(t, p) > 0 && HeightAtMost(t, c, d - Depth(t, p) - 1)
    {
      DepthOfParent(t, c);
      HeightFromDepth(t, c, d);
    }
  }

  /** In an acyclic table every node has a height, so the bounds above cover every node. */
  lemma HeightExists(t: Table, p: Id)
    requires Acyclic(t) && p in t
    ensures exists h: nat :: HeightAtMost(t, p, h)
  {
    var d := DepthsBounded(t, t.Keys);
    HeightFromDepth(t, p, d);
  }

  /** The unrounded mean does not depend on which bound on the height is used. */
  lemma {:induction false} ExactIndependentOfBound(t: Table, p: Id, h: nat, k: nat)
    requires p in t && HeightAtMost(t, p, h) && HeightAtMost(t, p, k)
    ensures Exact(t, p, h) == Exact(t, p, k)
    decreases h, 0
  {
    var cs := Children(t, p);
    if cs != {} {
      assert h > 0 && k > 0 by { var c :| c in cs; }
      ExactTotalIndependentOfBound(t, cs, h - 1, k - 1);
    }
  }

  lemma {:induction false} ExactTotalIndependentOfBound(t: Table, s: set<Id>, h: nat, k: nat)
    requires s <= t.Keys
    requires forall c | c in s :: HeightAtMost(t, c, h) && HeightAtMost(t, c, k)
    ensures ExactTotal(t, s, h) == ExactTotal(t, s, k)
    decreases h, 1 + |s|
  {
    if s != {} {
      var x :| x in s;
      ExactTotalWithout(t, s, h, x);
      ExactTotalWithout(t, s, k, x);
      ExactIndependentOfBound(t, x, h, k);
      ExactTotalIndependentOfBound(t, s - {x}, h, k);
    }
  }

  // ------------------------------------------------- shape and leaves decide

  lemma FloorMonotone(a: int, b: int, n: nat)
    requires n > 0 && a <= b
    ensures a / n <= b / n
  {
    var p, q := a / n, b / n;
    assert a == n * p + a % n && b == n * q + b % n;
    assert q < p ==> n * (q + 1) <= n * p;
  }

  /**
   Two rolled-up forests of the same shape, one with leaves nowhere above the
   other's, compare the same way at every node.
   */
  lemma {:induction false} RollUpMonotone(t: Table, u: Table, p: Id, h: nat)
    requires SameShape(t, u) && Off(t) == {} && Off(u) == {}
    requires forall id | id in t && Children(t, id) == {} :: t[id].progress <= u[id].progress
    requires p in t && HeightAtMost(t, p, h)
    ensures t[p].progress <= u[p].progress
    decreases h, 0
  {
    var cs := Children(t, p);
    SameShapeChildren(t, u, p);
    if cs != {} {
      assert h > 0 by { var c :| c in cs; }
      TotalMonotone(t, u, cs, h - 1);
      assert p !in Off(t) && p !in Off(u);
      FloorMonotone(Total(t, cs), Total(u, cs), |cs|);
    }
  }

  lemma {:induction false} TotalMonotone(t: Table, u: Table, s: set<Id>, h: nat)
    requires SameShape(t, u) && Off(t) == {} && Off(u) == {}
    requires forall id | id in t && Children(t, id) == {} :: t[id].progress <= u[id].progress
    requires s <= t.Keys && forall c | c in s :: HeightAtMost(t, c, h)
    ensures Total(t, s) <= Total(u, s)
    decreases h, 1 + |s|
  {
    if s != {} {
      var x :| x in s;
      TotalWithout(t, s, x);
      TotalWithout(u, s, x);
      RollUpMonotone(t, u, x, h);
      TotalMonotone(t, u, s - {x}, h);
    }
  }

  /** The shape and the leaf values alone decide the progress of every node. */
  lemma ShapeAndLeavesDecide(t: Table, u: Table)
    requires Acyclic(t) && SameShape(t, u) && Off(t) == {} && Off(u) == {}
    requires forall id | id in t && Children(t, id) == {} :: t[id].progress == u[id].progress
    ensures forall id | id in t :: t[id].progress == u[id].progress
  {
    forall id ensures Children(t, id) == Children(u, id) { SameShapeChildren(t, u, id); }
    SameShapeAcyclic(t, u);
    forall id | id in t ensures t[id].progress == u[id].progress {
      HeightExists(t, id);
      var h: nat :| HeightAtMost(t, id, h);
      HeightExists(u, id);
      var k: nat :| HeightAtMost(u, id, k);
      RollUpMonotone(t, u, id, h);
      RollUpMonotone(u, t, id, k);
    }
  }

  ghost predicate IsLeaf(t: Table, id: Id) {
    id in t && Children(t, id) == {}
  }

  /** Rolled-up acyclic tables with parents in place. */
  ghost predicate RolledUp(t: Table) {
    Acyclic(t) && ParentsExist(t) && Off(t) == {}
  }

  lemma LeafUpdateWrites(t: Table, a: Id, v: int)
    requires Acyclic(t) && IsLeaf(t, a)
    ensures var u := AfterUpdate(t, a, v);
            && SameShape(t, u) && u[a] == t[a].(progress := v)
            && (forall id | id in t :: u[id] == t[id].(progress := u[id].progress))
            && (forall id | IsLeaf(t, id) && id != a :: u[id] == t[id])
  {
    var w := SetProgress(t, a, v);
    assert SameShape(t, w);
    forall id ensures Children(t, id) == Children(w, id) { SameShapeChildren(t, w, id); }
    if t[a].parentId.Some? {
      RollUpDescends(t, a, w);
      RecursionEndsExactly(w, t[a].parentId.value);
      RollUpWritesInnerProgress(w, t[a].parentId.value);
    }
  }

  /** Updating a leaf of a rolled-up forest gives a rolled-up forest of the same shape. */
  lemma LeafUpdate(t: Table, a: Id, v: int)
    requires RolledUp(t) && IsLeaf(t, a)
    ensures var u := AfterUpdate(t, a, v);
            && RolledUp(u) && SameShape(t, u)
            && u[a] == t[a].(progress := v)
            && (forall id | id in t :: u[id] == t[id].(progress := u[id].progress))
            && (forall id | IsLeaf(t, id) && id != a :: u[id] == t[id])
  {
    var u := AfterUpdate(t, a, v);
    LeafUpdateWrites(t, a, v);
    SameShapeAcyclic(t, u);
    forall x ensures !IsOff(u, x) {
      UpdateSettles(t, a, v, x);
      assert x !in Off(t);
    }
  }

  lemma TwoLeafUpdates(t: Table, a: Id, v: int, b: Id, w: int)
    requires RolledUp(t) && IsLeaf(t, a) && IsLeaf(t, b) && a != b
    ensures WalkEnds(AfterUpdate(t, a, v), b)
    ensures var u := AfterUpdate(AfterUpdate(t, a, v), b, w);
            && RolledUp(u) && SameShape(t, u)
            && (forall id | id in t :: u[id] == t[id].(progress := u[id].progress))
            && (forall id | IsLeaf(t, id) ::
                  u[id].progress == if id == a then v else if id == b then w else t[id].progress)
  {
    var ta := AfterUpdate(t, a, v);
    LeafUpdate(t, a, v);
    forall id ensures Children(ta, id) == Children(t, id) { SameShapeChildren(t, ta, id); }
    assert b in ta;
    LeafUpdate(ta, b, w);
    forall id | IsLeaf(t, id) ensures IsLeaf(ta, id) { }
  }

  /** Updates of two leaves commute. */
  lemma LeafUpdatesCommute(t: Table, a: Id, v: int, b: Id, w: int)
    requires RolledUp(t) && IsLeaf(t, a) && IsLeaf(t, b) && a != b
    ensures WalkEnds(AfterUpdate(t, a, v), b) && WalkEnds(AfterUpdate(t, b, w), a)
    ensures AfterUpdate(AfterUpdate(t, a, v), b, w) == AfterUpdate(AfterUpdate(t, b, w), a, v)
  {
    TwoLeafUpdates(t, a, v, b, w);
    TwoLeafUpdates(t, b, w, a, v);
    SameUpToLeaves(t, AfterUpdate(AfterUpdate(t, a, v), b, w), AfterUpdate(AfterUpdate(t, b, w), a, v));
  }

  lemma SameUpToLeaves(t: Table, u: Table, w: Table)
    requires RolledUp(u) && RolledUp(w) && SameShape(t, u) && SameShape(t, w)
    requires forall id | id in t :: u[id] == t[id].(progress := u[id].progress)
    requires forall id | id in t :: w[id] == t[id].(progress := w[id].progress)
    requires forall id | IsLeaf(t, id) :: u[id].progress == w[id].progress
    ensures u == w
  {
    forall id ensures Children(u, id) == Children(t, id) { SameShapeChildren(t, u, id); }
    ShapeAndLeavesDecide(u, w);
    forall id | id in t ensures u[id] == w[id] { }
  }

  /** Raising a leaf never lowers any issue. */
  lemma RaisingALeafLowersNothing(t: Table, a: Id, v: int, x: Id)
    requires RolledUp(t) && IsLeaf(t, a) && t[a].progress <= v && x in t
    ensures x in AfterUpdate(t, a, v) && t[x].progress <= AfterUpdate(t, a, v)[x].progress
  {
    LeafUpdate(t, a, v);
    HeightExists(t, x);
    var h: nat :| HeightAtMost(t, x, h);
    RollUpMonotone(t, AfterUpdate(t, a, v), x, h);
  }

  /** Rolling up a forest that is rolled up changes nothing, so repeating a roll-up changes nothing. */
  lemma {:induction false} RollUpIdempotent(t: Table, p: Id)
    requires RecursionEnds(t, p) && Off(t) == {}
    ensures RollUp(t, p) == t
    decreases StepsUp(t, p)
  {
    if p in t && Children(t, p) != {} {
      assert p !in Off(t);
      var u := SetProgress(t, p, Mean(t, Children(t, p)));
      assert u == t;
      if t[p].parentId.Some? {
        RecursionDescends(t, p, u);
        RollUpIdempotent(u, t[p].parentId.value);
      }
    }
  }
}
