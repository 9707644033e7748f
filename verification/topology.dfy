/**
 The grid builder of `Cloth::buildGrid`: a `w`-by-`h` grid of point masses
 stored row by row, and the spring network between them.

 The point placement (a sphere parametrisation in the C++ code) is an input
 here: `place(x, y)` is the starting position of grid cell `(x, y)`. What is
 modelled is the index arithmetic: which cell lands at which index, which cells
 are pinned, and which springs are emitted in which order.
 */
module Topology {
  import opened Vectors
  import opened Masses

  // ---------------------------------------------------------------------------
  // Cell indices

  /**
   Row-major index of grid cell `(x, y)` in a grid `w` points wide: row `y`
   starts `w` places after row `y - 1` (`IndexFormula` gives `y * w + x`).
   */
  function Index(w: nat, x: nat, y: nat): nat {
    if y == 0 then x else Index(w, x, y - 1) + w
  }

  lemma {:induction false} IndexFormula(w: nat, x: nat, y: nat)
    ensures Index(w, x, y) == y * w + x
  {
    if y > 0 {
      IndexFormula(w, x, y - 1);
    }
  }

  /** Column of the cell at index `p`. */
  function Col(w: nat, p: nat): nat
    requires w > 0
  {
    if p < w then p else Col(w, p - w)
  }

  /** Row of the cell at index `p`. */
  function Row(w: nat, p: nat): nat
    requires w > 0
  {
    if p < w then 0 else 1 + Row(w, p - w)
  }

  /** Within a row, the index grows with the column. */
  lemma {:induction false} IndexInRow(w: nat, x: nat, y: nat)
    ensures Index(w, x, y) == Index(w, 0, y) + x
  {
    if y > 0 {
      IndexInRow(w, x, y - 1);
    }
  }

  /** Moving `dx` cells right within a row adds `dx` to the index. */
  lemma IndexShift(w: nat, x: nat, y: nat, dx: nat)
    ensures Index(w, x + dx, y) == Index(w, x, y) + dx
  {
    IndexInRow(w, x, y);
    IndexInRow(w, x + dx, y);
  }

  /** A cell lies before the start of every later row. */
  lemma {:induction false} IndexBelowRow(w: nat, x: nat, y: nat, y': nat)
    requires x < w && y < y'
    ensures Index(w, x, y) < Index(w, 0, y')
  {
    IndexInRow(w, x, y);
    if y' > y + 1 {
      IndexBelowRow(w, x, y, y' - 1);
    }
  }

  /** A cell of the grid has an index below `w * h`. */
  lemma IndexBounds(w: nat, h: nat, x: nat, y: nat)
    requires x < w && y < h
    ensures Index(w, x, y) < Index(w, 0, h) == w * h
  {
    IndexBelowRow(w, x, y, h);
    IndexFormula(w, 0, h);
  }

  /** Indices follow the row-major order of the cells. */
  lemma IndexLess(w: nat, x: nat, y: nat, x': nat, y': nat)
    requires x < w
    requires y < y' || (y == y' && x < x')
    ensures Index(w, x, y) < Index(w, x', y')
  {
    IndexInRow(w, x, y);
    IndexInRow(w, x', y');
    if y < y' {
      IndexBelowRow(w, x, y, y');
    }
  }

  /** Column and row recover the cell from its index. */
  lemma {:induction false} IndexCoordinates(w: nat, x: nat, y: nat)
    requires x < w
    ensures Col(w, Index(w, x, y)) == x && Row(w, Index(w, x, y)) == y
  {
    if y > 0 {
      assert Index(w, x, y) - w == Index(w, x, y - 1);
      IndexCoordinates(w, x, y - 1);
    }
  }

  /** Every index is the index of its column and row. */
  lemma {:induction false} CoordinatesIndex(w: nat, p: nat)
    requires w > 0
    ensures Col(w, p) < w && Index(w, Col(w, p), Row(w, p)) == p
  {
    if p >= w {
      CoordinatesIndex(w, p - w);
    }
  }

  // ---------------------------------------------------------------------------
  // Pins

  /** Cell `(x, y)` occurs in the pin list. */
  predicate IsPinned(pins: seq<(int, int)>, x: int, y: int) {
    exists k :: 0 <= k < |pins| && pins[k] == (x, y)
  }

  // ---------------------------------------------------------------------------
  // Springs as index links

  /** A spring before its rest length is known: two endpoint indices and a type. */
  datatype Link = Link(a: nat, b: nat, kind: SpringType)

  /**
   The springs emitted for grid point `(i, j)`, each guarded as in the C++ loop
   body: structural to the right and below, shearing below-right and below-left,
   bending two to the right and two below. The C++ code indexes the neighbour
   as `(j + dy) * w + i + dx`, which is `Index(w, i, j) + dy * w + dx`.
   */
  function PointLinks(w: nat, h: nat, i: nat, j: nat): seq<Link>
    requires i < w
  {
    var p := Index(w, i, j);
    (if i < w - 1 then [Link(p, p + 1, Structural)] else [])
    + (if j < h - 1 then [Link(p, p + w, Structural)] else [])
    + (if i < w - 1 && j < h - 1 then [Link(p, p + w + 1, Shearing)] else [])
    + (if i > 0 && j < h - 1 then [Link(p, p + w - 1, Shearing)] else [])
    + (if i < w - 2 then [Link(p, p + 2, Bending)] else [])
    + (if j < h - 2 then [Link(p, p + 2 * w, Bending)] else [])
  }

  // ---------------------------------------------------------------------------
  // A reference description of the spring network

  /** The six neighbour offsets, in the order a point emits its springs. */
  function Offset(s: nat): (int, int)
    requires s < 6
  {
    if s == 0 then (1, 0)
    else if s == 1 then (0, 1)
    else if s == 2 then (1, 1)
    else if s == 3 then (-1, 1)
    else if s == 4 then (2, 0)
    else (0, 2)
  }

  /**
   The spring type of a neighbour offset: adjacent cells are structural,
   diagonal cells shearing, cells two apart bending.
   */
  function KindOf(dx: int, dy: int): SpringType {
    if dx != 0 && dy != 0 then Shearing
    else if dx == 1 || dx == -1 || dy == 1 || dy == -1 then Structural
    else Bending
  }

  predicate InGrid(w: nat, h: nat, x: int, y: int) {
    0 <= x < w && 0 <= y < h
  }

  /** The spring from cell `(x, y)` to its neighbour along offset `s`. */
  function NeighbourLink(w: nat, x: nat, y: nat, s: nat): Link
    requires s < 6 && x + Offset(s).0 >= 0 && y + Offset(s).1 >= 0
  {
    var (dx, dy) := Offset(s);
    Link(Index(w, x, y), Index(w, x + dx, y + dy), KindOf(dx, dy))
  }

  /**
   `l` joins a cell of the grid to one of its six forward neighbours, and that
   neighbour lies on the grid too (no spring wraps a row or leaves the grid).
   */
  ghost predicate IsGridLink(w: nat, h: nat, l: Link) {
    exists x: nat, y: nat, s: nat ::
      x < w && y < h && s < 6 && InGrid(w, h, x + Offset(s).0, y + Offset(s).1)
      && l == NeighbourLink(w, x, y, s)
  }

  /** Position of an offset in the per-point emission order; 6 for any other. */
  function Slot(dx: int, dy: int): nat {
    if (dx, dy) == (1, 0) then 0
    else if (dx, dy) == (0, 1) then 1
    else if (dx, dy) == (1, 1) then 2
    else if (dx, dy) == (-1, 1) then 3
    else if (dx, dy) == (2, 0) then 4
    else if (dx, dy) == (0, 2) then 5
    else 6
  }

  /** The emission slot of a link, read off the cells it joins. */
  function SlotOf(w: nat, l: Link): nat
    requires w > 0
  {
    Slot(Col(w, l.b) - Col(w, l.a), Row(w, l.b) - Row(w, l.a))
  }

  /**
   `l` is emitted before `m`: it starts at an earlier point, or at the same point
   in an earlier slot.
   */
  predicate Precedes(w: nat, l: Link, m: Link)
    requires w > 0
  {
    l.a < m.a || (l.a == m.a && SlotOf(w, l) < SlotOf(w, m))
  }

  /** Each link of `links` is emitted before every later one. */
  predicate EmissionOrdered(w: nat, links: seq<Link>)
    requires w > 0
  {
    forall k, k' {:trigger Precedes(w, links[k], links[k'])} ::
      0 <= k < k' < |links| ==> Precedes(w, links[k], links[k'])
  }

  function Max0(n: int): nat {
    if n < 0 then 0 else n
  }

  /** The number of springs of a `w`-by-`h` grid. */
  function SpringCount(w: nat, h: nat): nat {
    h * Max0(w - 1) + w * Max0(h - 1) + 2 * Max0(w - 1) * Max0(h - 1)
    + h * Max0(w - 2) + w * Max0(h - 2)
  }

  // ---------------------------------------------------------------------------
  // The links of one point, offset by offset

  /** The link along offset `s` from point `(i, j)`, if that neighbour is on the grid. */
  function Emit(w: nat, h: nat, i: nat, j: nat, s: nat): seq<Link>
    requires s < 6
  {
    if InGrid(w, h, i + Offset(s).0, j + Offset(s).1) then [NeighbourLink(w, i, j, s)] else []
  }

  /** The links along offsets 0 to `s - 1` from point `(i, j)`, in slot order. */
  function EmitUpTo(w: nat, h: nat, i: nat, j: nat, s: nat): seq<Link>
    requires s <= 6
  {
    if s == 0 then [] else EmitUpTo(w, h, i, j, s - 1) + Emit(w, h, i, j, s - 1)
  }

  /** The guards of the C++ loop body are exactly "the neighbour is on the grid". */
  lemma PointLinksAsEmits(w: nat, h: nat, i: nat, j: nat)
    requires i < w && j < h
    ensures PointLinks(w, h, i, j) == EmitUpTo(w, h, i, j, 6)
  {
    EmitRight(w, h, i, j);
    EmitDown(w, h, i, j);
    EmitDownRight(w, h, i, j);
    EmitDownLeft(w, h, i, j);
    EmitRightTwo(w, h, i, j);
    EmitDownTwo(w, h, i, j);
    assert EmitUpTo(w, h, i, j, 1) == Emit(w, h, i, j, 0);
    assert EmitUpTo(w, h, i, j, 2) == EmitUpTo(w, h, i, j, 1) + Emit(w, h, i, j, 1);
    assert EmitUpTo(w, h, i, j, 3) == EmitUpTo(w, h, i, j, 2) + Emit(w, h, i, j, 2);
    assert EmitUpTo(w, h, i, j, 4) == EmitUpTo(w, h, i, j, 3) + Emit(w, h, i, j, 3);
    assert EmitUpTo(w, h, i, j, 5) == EmitUpTo(w, h, i, j, 4) + Emit(w, h, i, j, 4);
    assert EmitUpTo(w, h, i, j, 6) == EmitUpTo(w, h, i, j, 5) + Emit(w, h, i, j, 5);
  }

  lemma EmitRight(w: nat, h: nat, i: nat, j: nat)
    requires i < w && j < h
    ensures Emit(w, h, i, j, 0) ==
      (if i < w - 1 then [Link(Index(w, i, j), Index(w, i, j) + 1, Structural)] else [])
  {
    if i < w - 1 {
      IndexShift(w, i, j, 1);
      assert NeighbourLink(w, i, j, 0) == Link(Index(w, i, j), Index(w, i, j) + 1, Structural);
    } else {
      assert !InGrid(w, h, i + Offset(0).0, j + Offset(0).1);
    }
  }

  lemma EmitDown(w: nat, h: nat, i: nat, j: nat)
    requires i < w && j < h
    ensures Emit(w, h, i, j, 1) ==
      (if j < h - 1 then [Link(Index(w, i, j), Index(w, i, j) + w, Structural)] else [])
  {
    if j < h - 1 {
      assert NeighbourLink(w, i, j, 1) == Link(Index(w, i, j), Index(w, i, j) + w, Structural);
    } else {
      assert !InGrid(w, h, i + Offset(1).0, j + Offset(1).1);
    }
  }

  lemma EmitDownRight(w: nat, h: nat, i: nat, j: nat)
    requires i < w && j < h
    ensures Emit(w, h, i, j, 2) ==
      (if i < w - 1 && j < h - 1 then [Link(Index(w, i, j), Index(w, i, j) + w + 1, Shearing)] else [])
  {
    if i < w - 1 && j < h - 1 {
      IndexShift(w, i, j + 1, 1);
      assert NeighbourLink(w, i, j, 2) == Link(Index(w, i, j), Index(w, i, j) + w + 1, Shearing);
    } else {
      assert !InGrid(w, h, i + Offset(2).0, j + Offset(2).1);
    }
  }

  lemma EmitDownLeft(w: nat, h: nat, i: nat, j: nat)
    requires i < w && j < h
    ensures Emit(w, h, i, j, 3) ==
      (if i > 0 && j < h - 1 then [Link(Index(w, i, j), Index(w, i, j) + w - 1, Shearing)] else [])
  {
    if i > 0 && j < h - 1 {
      IndexShift(w, i - 1, j + 1, 1);
      assert NeighbourLink(w, i, j, 3) == Link(Index(w, i, j), Index(w, i, j) + w - 1, Shearing);
    } else {
      assert !InGrid(w, h, i + Offset(3).0, j + Offset(3).1);
    }
  }

  lemma EmitRightTwo(w: nat, h: nat, i: nat, j: nat)
    requires i < w && j < h
    ensures Emit(w, h, i, j, 4) ==
      (if i < w - 2 then [Link(Index(w, i, j), Index(w, i, j) + 2, Bending)] else [])
  {
    if i < w - 2 {
      IndexShift(w, i, j, 2);
      assert NeighbourLink(w, i, j, 4) == Link(Index(w, i, j), Index(w, i, j) + 2, Bending);
    } else {
      assert !InGrid(w, h, i + Offset(4).0, j + Offset(4).1);
    }
  }

  lemma EmitDownTwo(w: nat, h: nat, i: nat, j: nat)
    requires i < w && j < h
    ensures Emit(w, h, i, j, 5) ==
      (if j < h - 2 then [Link(Index(w, i, j), Index(w, i, j) + 2 * w, Bending)] else [])
  {
    if j < h - 2 {
      assert Index(w, i, j + 2) == Index(w, i, j + 1) + w;
      assert NeighbourLink(w, i, j, 5) == Link(Index(w, i, j), Index(w, i, j) + 2 * w, Bending);
    } else {
      assert !InGrid(w, h, i + Offset(5).0, j + Offset(5).1);
    }
  }

  lemma {:induction false} EmitUpToMembers(w: nat, h: nat, i: nat, j: nat, s: nat, l: Link)
    requires s <= 6
    ensures l in EmitUpTo(w, h, i, j, s) <==>
      exists t: nat :: t < s && InGrid(w, h, i + Offset(t).0, j + Offset(t).1)
        && l == NeighbourLink(w, i, j, t)
  {
    if s > 0 {
      EmitUpToMembers(w, h, i, j, s - 1, l);
    }
  }

  // ---------------------------------------------------------------------------
  // The whole grid, row by row

  /**
   `f(0) + f(1) + ... + f(n - 1)`: everything a loop emits whose iteration `k`
   emits `f(k)`.
   */
  function Concat(f: nat -> seq<Link>, n: nat): seq<Link> {
    if n == 0 then [] else Concat(f, n - 1) + f(n - 1)
  }

  /**
   The springs emitted by the points of row `j`, point by point. Each point
   emits `EmitUpTo(w, h, i, j, 6)`, which is what the C++ loop body emits
   (`PointLinksAsEmits`).
   */
  function RowPoints(w: nat, h: nat, j: nat): nat -> seq<Link> {
    (i: nat) => EmitUpTo(w, h, i, j, 6)
  }

  /** The springs of the first `i` points of row `j`. */
  function RowLinks(w: nat, h: nat, j: nat, i: nat): seq<Link> {
    Concat(RowPoints(w, h, j), i)
  }

  /** The springs emitted by the grid, row by row. */
  function Rows(w: nat, h: nat): nat -> seq<Link> {
    (j: nat) => RowLinks(w, h, j, w)
  }

  /** The springs of the first `j` rows. */
  function LinksBefore(w: nat, h: nat, j: nat): seq<Link> {
    Concat(Rows(w, h), j)
  }

  /** All springs of the grid, in the order the nested loops emit them. */
  function GridLinks(w: nat, h: nat): seq<Link> {
    LinksBefore(w, h, h)
  }

  /** A link is emitted by a loop exactly when some iteration emits it. */
  lemma {:induction false} ConcatMember(f: nat -> seq<Link>, n: nat, l: Link)
    ensures l in Concat(f, n) <==> exists k: nat :: k < n && l in f(k)
  {
    if n > 0 {
      ConcatMember(f, n - 1, l);
      if l in f(n - 1) {
        assert exists k: nat :: k < n && l in f(k);
      }
    }
  }

  // ---------------------------------------------------------------------------
  // Endpoints are in range and distinct

  lemma NeighbourInRange(w: nat, h: nat, i: nat, j: nat, s: nat)
    requires i < w && j < h && s < 6 && InGrid(w, h, i + Offset(s).0, j + Offset(s).1)
    ensures NeighbourLink(w, i, j, s).a == Index(w, i, j)
    ensures NeighbourLink(w, i, j, s).a < NeighbourLink(w, i, j, s).b < Index(w, 0, h)
  {
    var (dx, dy) := Offset(s);
    IndexLess(w, i, j, i + dx, j + dy);
    IndexBounds(w, h, i + dx, j + dy);
  }

  /** A link of grid point `(i, j)` starts there and ends later in the grid. */
  lemma PointLinkInRange(w: nat, h: nat, i: nat, j: nat, l: Link)
    requires i < w && j < h && l in EmitUpTo(w, h, i, j, 6)
    ensures l.a == Index(w, i, j) && l.a < l.b < Index(w, 0, h)
  {
    EmitUpToMembers(w, h, i, j, 6, l);
    var s: nat :| s < 6 && InGrid(w, h, i + Offset(s).0, j + Offset(s).1)
      && l == NeighbourLink(w, i, j, s);
    NeighbourInRange(w, h, i, j, s);
  }

  lemma PointLinksInRange(w: nat, h: nat, i: nat, j: nat)
    requires i < w && j < h
    ensures forall l :: l in PointLinks(w, h, i, j) ==>
      l.a == Index(w, i, j) && l.a < l.b < Index(w, 0, h)
  {
    PointLinksAsEmits(w, h, i, j);
    forall l | l in PointLinks(w, h, i, j)
      ensures l.a == Index(w, i, j) && l.a < l.b < Index(w, 0, h)
    {
      PointLinkInRange(w, h, i, j, l);
    }
  }

  /** A link of the first `i` points of row `j` starts within that stretch of the row. */
  lemma RowLinkInRange(w: nat, h: nat, j: nat, i: nat, l: Link)
    requires i <= w && j < h && l in RowLinks(w, h, j, i)
    ensures Index(w, 0, j) <= l.a < Index(w, i, j) && l.a < l.b < Index(w, 0, h)
  {
    ConcatMember(RowPoints(w, h, j), i, l);
    var x: nat :| x < i && l in RowPoints(w, h, j)(x);
    PointLinkInRange(w, h, x, j, l);
    IndexInRow(w, x, j);
    IndexInRow(w, i, j);
  }

  lemma IndexNextRow(w: nat, y: nat)
    ensures Index(w, w, y) == Index(w, 0, y + 1)
  {
    IndexInRow(w, w, y);
  }

  /** Later rows start at larger indices. */
  lemma {:induction false} RowStartMonotone(w: nat, y: nat, y': nat)
    requires y <= y'
    ensures Index(w, 0, y) <= Index(w, 0, y')
  {
    if y < y' {
      RowStartMonotone(w, y, y' - 1);
    }
  }

  /** A link of the first `j` rows starts within those rows. */
  lemma LinksBeforeLinkInRange(w: nat, h: nat, j: nat, l: Link)
    requires j <= h && l in LinksBefore(w, h, j)
    ensures l.a < Index(w, 0, j) && l.a < l.b < Index(w, 0, h)
  {
    ConcatMember(Rows(w, h), j, l);
    var y: nat :| y < j && l in Rows(w, h)(y);
    RowLinkInRange(w, h, y, w, l);
    IndexNextRow(w, y);
    RowStartMonotone(w, y + 1, j);
  }

  /**
   Every spring joins two distinct point masses of the grid, the first one
   earlier in the point sequence than the second.
   */
  lemma GridLinksInRange(w: nat, h: nat)
    ensures forall l :: l in GridLinks(w, h) ==> l.a < l.b < w * h
  {
    IndexFormula(w, 0, h);
    forall l | l in GridLinks(w, h)
      ensures l.a < l.b < w * h
    {
      LinksBeforeLinkInRange(w, h, h, l);
    }
  }

  // ---------------------------------------------------------------------------
  // The emitted links are exactly the grid links

  /** A link of row `j` goes from a cell of that row to one of its neighbours on the grid. */
  lemma RowLinkIsGridLink(w: nat, h: nat, j: nat, l: Link)
    requires j < h && l in RowLinks(w, h, j, w)
    ensures IsGridLink(w, h, l)
  {
    ConcatMember(RowPoints(w, h, j), w, l);
    var x: nat :| x < w && l in RowPoints(w, h, j)(x);
    EmitUpToMembers(w, h, x, j, 6, l);
  }

  /**
   The springs of `buildGrid` are exactly the links from a grid cell to one of
   its six forward neighbours that lie on the grid.
   */
  lemma GridLinksExact(w: nat, h: nat, l: Link)
    ensures l in GridLinks(w, h) <==> IsGridLink(w, h, l)
  {
    ConcatMember(Rows(w, h), h, l);
    if l in GridLinks(w, h) {
      var y: nat :| y < h && l in Rows(w, h)(y);
      RowLinkIsGridLink(w, h, y, l);
    }
    if IsGridLink(w, h, l) {
      var x: nat, y: nat, s: nat :|
        x < w && y < h && s < 6 && InGrid(w, h, x + Offset(s).0, y + Offset(s).1)
        && l == NeighbourLink(w, x, y, s);
      EmitUpToMembers(w, h, x, y, 6, l);
      ConcatMember(RowPoints(w, h, y), w, l);
      assert l in RowPoints(w, h, y)(x);
      assert l in Rows(w, h)(y);
    }
  }

  // ---------------------------------------------------------------------------
  // Count

  function Ind(b: bool): nat {
    if b then 1 else 0
  }

  function Min(a: int, b: int): int {
    if a < b then a else b
  }

  lemma PointLinksCount(w: nat, h: nat, i: nat, j: nat)
    requires i < w
    ensures |PointLinks(w, h, i, j)| ==
      Ind(i < w - 1) + Ind(j < h - 1) + Ind(i < w - 1 && j < h - 1)
      + Ind(i > 0 && j < h - 1) + Ind(i < w - 2) + Ind(j < h - 2)
  {
  }

  /** The springs of the first `i` points of row `j`, counted. */
  function RowPrefixCount(w: nat, h: nat, j: nat, i: nat): int {
    Min(i, Max0(w - 1)) + Min(i, Max0(w - 2))
    + (if j < h - 1 then i + Min(i, Max0(w - 1)) + Max0(i - 1) else 0)
    + (if j < h - 2 then i else 0)
  }

  lemma {:induction false} RowLinksCount(w: nat, h: nat, j: nat, i: nat)
    requires i <= w && j < h
    ensures |RowLinks(w, h, j, i)| == RowPrefixCount(w, h, j, i)
  {
    if i > 0 {
      RowLinksCount(w, h, j, i - 1);
      PointLinksCount(w, h, i - 1, j);
      PointLinksAsEmits(w, h, i - 1, j);
      assert RowLinks(w, h, j, i) == RowLinks(w, h, j, i - 1) + PointLinks(w, h, i - 1, j);
    }
  }

  /** The springs of one full row, counted. */
  function RowCount(w: nat, h: nat, j: nat): int {
    Max0(w - 1) + Max0(w - 2)
    + (if j < h - 1 then w + 2 * Max0(w - 1) else 0)
    + (if j < h - 2 then w else 0)
  }

  /** The springs of the first `j` rows, counted. */
  function PrefixCount(w: nat, h: nat, j: nat): int {
    j * (Max0(w - 1) + Max0(w - 2))
    + Min(j, Max0(h - 1)) * (w + 2 * Max0(w - 1))
    + Min(j, Max0(h - 2)) * w
  }

  lemma MulStep(n: int, c: int)
    ensures (n + 1) * c == n * c + c
  {
  }

  lemma FullRowCount(w: nat, h: nat, j: nat)
    ensures RowPrefixCount(w, h, j, w) == RowCount(w, h, j)
  {
  }

  lemma PrefixCountStep(w: nat, h: nat, j: nat)
    requires 0 < j <= h
    ensures PrefixCount(w, h, j) == PrefixCount(w, h, j - 1) + RowCount(w, h, j - 1)
  {
    MulStep(j - 1, Max0(w - 1) + Max0(w - 2));
    if j - 1 < h - 1 {
      assert Min(j, Max0(h - 1)) == Min(j - 1, Max0(h - 1)) + 1;
      MulStep(Min(j - 1, Max0(h - 1)), w + 2 * Max0(w - 1));
    } else {
      assert Min(j, Max0(h - 1)) == Min(j - 1, Max0(h - 1));
    }
    if j - 1 < h - 2 {
      assert Min(j, Max0(h - 2)) == Min(j - 1, Max0(h - 2)) + 1;
      MulStep(Min(j - 1, Max0(h - 2)), w);
    } else {
      assert Min(j, Max0(h - 2)) == Min(j - 1, Max0(h - 2));
    }
  }

  lemma {:induction false} LinksBeforeCount(w: nat, h: nat, j: nat)
    requires j <= h
    ensures |LinksBefore(w, h, j)| == PrefixCount(w, h, j)
  {
    if j > 0 {
      LinksBeforeCount(w, h, j - 1);
      RowLinksCount(w, h, j - 1, w);
      assert LinksBefore(w, h, j) == LinksBefore(w, h, j - 1) + RowLinks(w, h, j - 1, w);
      FullRowCount(w, h, j - 1);
      PrefixCountStep(w, h, j);
    }
  }

  /**
   The number of springs: `(w-1)h` structural across, `w(h-1)` structural down,
   `2(w-1)(h-1)` shearing and `max(0, w-2)h + w max(0, h-2)` bending; no springs
   when the grid is empty.
   */
  lemma GridLinksCount(w: nat, h: nat)
    ensures |GridLinks(w, h)| == SpringCount(w, h)
    ensures w >= 1 && h >= 1 ==>
      |GridLinks(w, h)|
      == (w - 1) * h + w * (h - 1) + 2 * (w - 1) * (h - 1) + Max0(w - 2) * h + w * Max0(h - 2)
  {
    LinksBeforeCount(w, h, h);
    assert Min(h, Max0(h - 1)) == Max0(h - 1);
    assert Min(h, Max0(h - 2)) == Max0(h - 2);
    CountRegroup(w, h, Max0(w - 1), Max0(w - 2), Max0(h - 1), Max0(h - 2));
  }

  lemma CountRegroup(w: int, h: int, a: int, b: int, c: int, d: int)
    ensures h * (a + b) + c * (w + 2 * a) + d * w == h * a + w * c + 2 * a * c + h * b + w * d
  {
    assert h * (a + b) == h * a + h * b;
    assert c * (w + 2 * a) == w * c + 2 * a * c;
  }

  // ---------------------------------------------------------------------------
  // Order

  lemma NeighbourSlot(w: nat, h: nat, x: nat, y: nat, s: nat)
    requires w > 0 && x < w && s < 6 && InGrid(w, h, x + Offset(s).0, y + Offset(s).1)
    ensures SlotOf(w, NeighbourLink(w, x, y, s)) == s
  {
    var (dx, dy) := Offset(s);
    IndexCoordinates(w, x, y);
    IndexCoordinates(w, x + dx, y + dy);
  }

  lemma {:induction false} EmitUpToOrdered(w: nat, h: nat, i: nat, j: nat, s: nat)
    requires i < w && j < h && s <= 6
    ensures EmissionOrdered(w, EmitUpTo(w, h, i, j, s))
    ensures forall l :: l in EmitUpTo(w, h, i, j, s) ==> l.a == Index(w, i, j) && SlotOf(w, l) < s
  {
    if s > 0 {
      EmitUpToOrdered(w, h, i, j, s - 1);
      if InGrid(w, h, i + Offset(s - 1).0, j + Offset(s - 1).1) {
        NeighbourSlot(w, h, i, j, s - 1);
        NeighbourInRange(w, h, i, j, s - 1);
      }
      ConcatOrdered(w, EmitUpTo(w, h, i, j, s - 1), Emit(w, h, i, j, s - 1));
    }
  }

  /** Two ordered sequences, each link of the first before each of the second. */
  lemma ConcatOrdered(w: nat, xs: seq<Link>, ys: seq<Link>)
    requires w > 0 && EmissionOrdered(w, xs) && EmissionOrdered(w, ys)
    requires forall l, m :: l in xs && m in ys ==> Precedes(w, l, m)
    ensures EmissionOrdered(w, xs + ys)
  {
    var zs := xs + ys;
    forall k, k' | 0 <= k < k' < |zs|
      ensures Precedes(w, zs[k], zs[k'])
    {
      if k' < |xs| {
        assert zs[k] == xs[k] && zs[k'] == xs[k'];
        assert Precedes(w, xs[k], xs[k']);
      } else if k >= |xs| {
        assert zs[k] == ys[k - |xs|] && zs[k'] == ys[k' - |xs|];
        assert Precedes(w, ys[k - |xs|], ys[k' - |xs|]);
      } else {
        assert zs[k] in xs && zs[k'] in ys;
      }
    }
  }

  /** Each iteration's output is ordered, and precedes everything later iterations emit. */
  predicate BlocksOrdered(w: nat, f: nat -> seq<Link>, n: nat)
    requires w > 0
  {
    (forall x: nat :: x < n ==> EmissionOrdered(w, f(x)))
    && (forall x: nat, y: nat, l, m :: x < y < n && l in f(x) && m in f(y) ==> Precedes(w, l, m))
  }

  lemma {:induction false} ConcatBlocksOrdered(w: nat, f: nat -> seq<Link>, n: nat)
    requires w > 0 && BlocksOrdered(w, f, n)
    ensures EmissionOrdered(w, Concat(f, n))
  {
    if n > 0 {
      assert BlocksOrdered(w, f, n - 1);
      ConcatBlocksOrdered(w, f, n - 1);
      forall l, m | l in Concat(f, n - 1) && m in f(n - 1)
        ensures Precedes(w, l, m)
      {
        ConcatMember(f, n - 1, l);
      }
      ConcatOrdered(w, Concat(f, n - 1), f(n - 1));
    }
  }

  /** Within row `j`, the links come out in emission order. */
  lemma RowLinksOrdered(w: nat, h: nat, j: nat)
    requires 0 < w && j < h
    ensures EmissionOrdered(w, RowLinks(w, h, j, w))
  {
    var f := RowPoints(w, h, j);
    forall x: nat | x < w
      ensures EmissionOrdered(w, f(x))
    {
      EmitUpToOrdered(w, h, x, j, 6);
    }
    forall x: nat, y: nat, l, m | x < y < w && l in f(x) && m in f(y)
      ensures Precedes(w, l, m)
    {
      PointLinkInRange(w, h, x, j, l);
      PointLinkInRange(w, h, y, j, m);
      IndexLess(w, x, j, y, j);
    }
    ConcatBlocksOrdered(w, f, w);
  }

  /** Within the first `j` rows, the links come out in emission order. */
  lemma LinksBeforeOrdered(w: nat, h: nat, j: nat)
    requires 0 < w && j <= h
    ensures EmissionOrdered(w, LinksBefore(w, h, j))
  {
    var f := Rows(w, h);
    forall y: nat | y < j
      ensures EmissionOrdered(w, f(y))
    {
      RowLinksOrdered(w, h, y);
    }
    forall y: nat, y': nat, l, m | y < y' < j && l in f(y) && m in f(y')
      ensures Precedes(w, l, m)
    {
      RowLinkInRange(w, h, y, w, l);
      RowLinkInRange(w, h, y', w, m);
      IndexNextRow(w, y);
      RowStartMonotone(w, y + 1, y');
    }
    ConcatBlocksOrdered(w, f, j);
  }

  /**
   The springs come out ordered by the index of their first point mass and,
   for one point, structural-right, structural-down, shearing-down-right,
   shearing-down-left, bending-right, bending-down. In particular no spring is
   emitted twice.
   */
  lemma GridLinksOrdered(w: nat, h: nat)
    requires w > 0
    ensures EmissionOrdered(w, GridLinks(w, h))
    ensures forall k, k' :: 0 <= k < k' < |GridLinks(w, h)| ==> GridLinks(w, h)[k] != GridLinks(w, h)[k']
  {
    LinksBeforeOrdered(w, h, h);
    forall k, k' | 0 <= k < k' < |GridLinks(w, h)|
      ensures GridLinks(w, h)[k] != GridLinks(w, h)[k']
    {
      assert Precedes(w, GridLinks(w, h)[k], GridLinks(w, h)[k']);
    }
  }

  // ---------------------------------------------------------------------------
  // The builder

  /** `pin` is set exactly when cell `(x, y)` occurs in the pin list. */
  method PinnedCell(pins: seq<(int, int)>, x: int, y: int) returns (pin: bool)
    ensures pin == IsPinned(pins, x, y)
  {
    pin := false;
    var k := 0;
    while k < |pins|
      invariant k <= |pins|
      invariant pin <==> exists m :: 0 <= m < k && pins[m] == (x, y)
    {
      if pins[k].0 == x && pins[k].1 == y {
        pin := true;
      }
      k := k + 1;
    }
  }

  /**
   The point-mass loops of `buildGrid`: cell `(x, y)` gets a fresh point mass at
   its starting position, pinned when it is in the pin list, at its row-major
   index.
   */
  method BuildPoints(w: nat, h: nat, pins: seq<(int, int)>, place: (nat, nat) -> Vec)
    returns (masses: seq<PointMass>)
    ensures |masses| == w * h
    ensures forall x: nat, y: nat :: x < w && y < h ==>
      Index(w, x, y) < |masses|
      && masses[Index(w, x, y)] == NewPointMass(place(x, y), IsPinned(pins, x, y))
  {
    masses := [];
    var y: nat := 0;
    while y < h
      invariant y <= h
      invariant |masses| == Index(w, 0, y)
      invariant forall p :: 0 <= p < |masses| ==> w > 0 && masses[p] == GridMass(w, pins, place, p)
    {
      var x: nat := 0;
      while x < w
        invariant x <= w
        invariant |masses| == Index(w, x, y)
        invariant forall p :: 0 <= p < |masses| ==> w > 0 && masses[p] == GridMass(w, pins, place, p)
      {
        var pin := PinnedCell(pins, x, y);
        IndexShift(w, x, y, 1);
        IndexCoordinates(w, x, y);
        masses := masses + [NewPointMass(place(x, y), pin)];
        x := x + 1;
      }
      IndexNextRow(w, y);
      y := y + 1;
    }
    IndexFormula(w, 0, h);
    forall x: nat, y: nat | x < w && y < h
      ensures Index(w, x, y) < |masses|
      ensures masses[Index(w, x, y)] == NewPointMass(place(x, y), IsPinned(pins, x, y))
    {
      IndexBounds(w, h, x, y);
      IndexCoordinates(w, x, y);
    }
  }

  /** The point mass the builder places at index `p`. */
  function GridMass(w: nat, pins: seq<(int, int)>, place: (nat, nat) -> Vec, p: nat): PointMass
    requires w > 0
  {
    NewPointMass(place(Col(w, p), Row(w, p)), IsPinned(pins, Col(w, p), Row(w, p)))
  }

  /** A spring for `l` whose rest length is the starting distance of its ends. */
  function SpringFor(norm: Vec -> real, masses: seq<PointMass>, l: Link): (s: Spring)
    requires EndsWithin(l.a, l.b, |masses|)
    ensures s.a == l.a && s.b == l.b && s.kind == l.kind
    ensures s.restLength == norm(Sub(masses[l.a].position, masses[l.b].position))
  {
    Spring(l.a, l.b, norm(Sub(masses[l.a].position, masses[l.b].position)), l.kind)
  }

  /** `springs` are the springs for `links`, one for one. */
  predicate SpringsOf(norm: Vec -> real, masses: seq<PointMass>, links: seq<Link>, springs: seq<Spring>) {
    |springs| == |links|
    && forall k :: 0 <= k < |links| ==>
      EndsWithin(links[k].a, links[k].b, |masses|) && springs[k] == SpringFor(norm, masses, links[k])
  }

  lemma SpringsOfConcat(norm: Vec -> real, masses: seq<PointMass>, xs: seq<Link>, ys: seq<Link>,
                        ss: seq<Spring>, ts: seq<Spring>)
    requires SpringsOf(norm, masses, xs, ss) && SpringsOf(norm, masses, ys, ts)
    ensures SpringsOf(norm, masses, xs + ys, ss + ts)
  {
    forall k | 0 <= k < |xs + ys|
      ensures EndsWithin((xs + ys)[k].a, (xs + ys)[k].b, |masses|)
      ensures (ss + ts)[k] == SpringFor(norm, masses, (xs + ys)[k])
    {
      if k >= |xs| {
        assert (xs + ys)[k] == ys[k - |xs|] && (ss + ts)[k] == ts[k - |xs|];
      }
    }
  }

  function ToSprings(norm: Vec -> real, masses: seq<PointMass>, links: seq<Link>): (r: seq<Spring>)
    requires forall l :: l in links ==> EndsWithin(l.a, l.b, |masses|)
    ensures SpringsOf(norm, masses, links, r)
  {
    if links == [] then []
    else ToSprings(norm, masses, links[..|links| - 1]) + [SpringFor(norm, masses, links[|links| - 1])]
  }

  /**
   The spring loops of `buildGrid`: for each point in row-major order, the
   springs its guards allow, each with the starting distance of its ends as
   rest length.
   */
  method BuildSprings(norm: Vec -> real, w: nat, h: nat, masses: seq<PointMass>)
    returns (springs: seq<Spring>)
    requires |masses| == w * h
    ensures SpringsOf(norm, masses, GridLinks(w, h), springs)
  {
    springs := [];
    var j: nat := 0;
    while j < h
      invariant j <= h
      invariant SpringsOf(norm, masses, LinksBefore(w, h, j), springs)
    {
      var i: nat := 0;
      assert LinksBefore(w, h, j) + RowLinks(w, h, j, 0) == LinksBefore(w, h, j);
      while i < w
        invariant i <= w
        invariant SpringsOf(norm, masses, LinksBefore(w, h, j) + RowLinks(w, h, j, i), springs)
      {
        PointLinksWithin(w, h, i, j, |masses|);
        var more := ToSprings(norm, masses, PointLinks(w, h, i, j));
        SpringsStep(norm, masses, w, h, j, i, springs, more);
        springs := springs + more;
        i := i + 1;
      }
      RowsStep(w, h, j);
      j := j + 1;
    }
  }

  /** The links of one grid point join point masses of the grid. */
  lemma PointLinksWithin(w: nat, h: nat, i: nat, j: nat, n: nat)
    requires i < w && j < h && n == w * h
    ensures forall l :: l in PointLinks(w, h, i, j) ==> EndsWithin(l.a, l.b, n)
  {
    IndexFormula(w, 0, h);
    PointLinksInRange(w, h, i, j);
  }

  /** One more point of row `j` emitted. */
  lemma SpringsStep(norm: Vec -> real, masses: seq<PointMass>, w: nat, h: nat, j: nat, i: nat,
                    springs: seq<Spring>, more: seq<Spring>)
    requires i < w && j < h
    requires SpringsOf(norm, masses, LinksBefore(w, h, j) + RowLinks(w, h, j, i), springs)
    requires SpringsOf(norm, masses, PointLinks(w, h, i, j), more)
    ensures SpringsOf(norm, masses, LinksBefore(w, h, j) + RowLinks(w, h, j, i + 1), springs + more)
  {
    PointLinksAsEmits(w, h, i, j);
    assert RowLinks(w, h, j, i + 1) == RowLinks(w, h, j, i) + PointLinks(w, h, i, j);
    SpringsOfConcat(norm, masses, LinksBefore(w, h, j) + RowLinks(w, h, j, i), PointLinks(w, h, i, j), springs, more);
    AppendAssoc(LinksBefore(w, h, j), RowLinks(w, h, j, i), PointLinks(w, h, i, j));
  }

  /** One more row emitted. */
  lemma RowsStep(w: nat, h: nat, j: nat)
    ensures LinksBefore(w, h, j + 1) == LinksBefore(w, h, j) + RowLinks(w, h, j, w)
  {
  }

  lemma AppendAssoc<T>(xs: seq<T>, ys: seq<T>, zs: seq<T>)
    ensures xs + ys + zs == xs + (ys + zs)
  {
  }

  /**
   `Cloth::buildGrid`: the point masses row by row, then the springs point by
   point. The rest length of a spring is the distance between its ends' starting
   positions (spring.h is not part of this model).
   */
  method BuildGrid(norm: Vec -> real, w: nat, h: nat, pins: seq<(int, int)>, place: (nat, nat) -> Vec)
    returns (masses: seq<PointMass>, springs: seq<Spring>)
    ensures |masses| == w * h
    ensures forall x: nat, y: nat :: x < w && y < h ==>
      Index(w, x, y) < |masses|
      && masses[Index(w, x, y)] == NewPointMass(place(x, y), IsPinned(pins, x, y))
    ensures SpringsWithin(springs, |masses|)
    ensures SpringsOf(norm, masses, GridLinks(w, h), springs)
  {
    masses := BuildPoints(w, h, pins, place);
    springs := BuildSprings(norm, w, h, masses);
  }
}
