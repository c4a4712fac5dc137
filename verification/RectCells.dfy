/** What the operations on rectangles mean for the cells of the screen: src/core/types.h:50-77 and the
    cost of src/diff/rect_merger.cpp:37-59. */
module RectCells {
  import opened Words
  import opened RectMerging

  ghost function Cells(r: Rect): set<(int, int)>
  {
    set x: int, y: int | r.x <= x < r.Right() && r.y <= y < r.Bottom() :: (x, y)
  }

  lemma {:induction false} RowCount(x: int, y: int, w: nat)
    ensures |Cells(Rect(x, y, w, 1))| == w
    decreases w
  {
    var r := Rect(x, y, w, 1);
    if w == 0 {
      assert Cells(r) == {};
    } else {
      RowCount(x, y, w - 1);
      assert Cells(r) == Cells(Rect(x, y, w - 1, 1)) + {(x + w - 1, y)};
    }
  }

  lemma {:induction false} CellCount(x: int, y: int, w: nat, h: nat)
    ensures |Cells(Rect(x, y, w, h))| == w * h
    decreases h
  {
    var r := Rect(x, y, w, h);
    if h == 0 {
      assert Cells(r) == {};
    } else {
      CellCount(x, y, w, h - 1);
      RowCount(x, y + h - 1, w);
      var upper, last := Cells(Rect(x, y, w, h - 1)), Cells(Rect(x, y + h - 1, w, 1));
      assert Cells(r) == upper + last && upper !! last;
      assert w * h == w * (h - 1) + w;
    }
  }

  /** The area of a rectangle is the number of its cells. */
  lemma AreaIsCells(r: Rect)
    requires !r.Empty()
    ensures r.Area() == |Cells(r)|
  {
    CellCount(r.x, r.y, r.width, r.height);
  }

  /** One rectangle contains another when it has all its cells. */
  lemma ContainsIsSubset(a: Rect, b: Rect)
    requires !a.Empty() && !b.Empty()
    ensures a.Contains(b) <==> Cells(b) <= Cells(a)
  {
    if Cells(b) <= Cells(a) {
      assert (b.x, b.y) in Cells(b);
      assert (b.Right() - 1, b.Bottom() - 1) in Cells(b);
    }
  }

  /** Two cells are the same or neighbours, across a corner too. */
  ghost predicate Adjoin(p: (int, int), q: (int, int)) { -1 <= p.0 - q.0 <= 1 && -1 <= p.1 - q.1 <= 1 }

  /** The closest points of two intervals. */
  lemma Closest(lo: int, hi: int, lo2: int, hi2: int) returns (p: int, q: int)
    requires lo < hi && lo2 < hi2 && lo <= hi2 && hi >= lo2
    ensures lo <= p < hi && lo2 <= q < hi2 && -1 <= p - q <= 1
  {
    if hi == lo2 {
      p, q := hi - 1, lo2;
    } else if hi2 == lo {
      p, q := lo, hi2 - 1;
    } else {
      p := Max(lo, lo2);
      q := p;
    }
  }

  /** Two rectangles touch when a cell of one is, or adjoins, a cell of the other. */
  lemma TouchesIsAdjoining(a: Rect, b: Rect)
    requires !a.Empty() && !b.Empty()
    ensures a.Touches(b) <==> exists p, q :: p in Cells(a) && q in Cells(b) && Adjoin(p, q)
  {
    if a.Touches(b) {
      var px, qx := Closest(a.x, a.Right(), b.x, b.Right());
      var py, qy := Closest(a.y, a.Bottom(), b.y, b.Bottom());
      assert (px, py) in Cells(a) && (qx, qy) in Cells(b) && Adjoin((px, py), (qx, qy));
    }
  }

  /** What a merge wastes, for rectangles that keep apart, is the number of cells of the union that
      neither of them has. */
  lemma WasteIsCells(rs: seq<Rect>, i: nat, j: nat)
    requires i < |rs| && j < |rs| && !rs[i].Empty() && !rs[j].Empty() && !rs[i].Touches(rs[j])
    ensures Waste(rs, i, j) == |Cells(rs[i].United(rs[j])) - Cells(rs[i]) - Cells(rs[j])|
  {
    var a, b := rs[i], rs[j];
    var u := a.United(b);
    UnitedIsLeast(a, b, u);
    AreaIsCells(a);
    AreaIsCells(b);
    AreaIsCells(u);
    ContainsIsSubset(u, a);
    ContainsIsSubset(u, b);
    KeptApart(a, b);
    WithoutBoth(Cells(u), Cells(a), Cells(b));
  }

  lemma KeptApart(a: Rect, b: Rect)
    requires !a.Empty() && !b.Empty() && !a.Touches(b)
    ensures Cells(a) !! Cells(b)
  {
    forall p | p in Cells(a) && p in Cells(b)
      ensures false
    {
      assert Adjoin(p, p);
      TouchesIsAdjoining(a, b);
    }
  }

  lemma WithoutBoth(u: set<(int, int)>, a: set<(int, int)>, b: set<(int, int)>)
    requires a <= u && b <= u && a !! b
    ensures |u - a - b| == |u| - |a| - |b|
  {
    assert u == (u - a - b) + a + b;
  }
}
