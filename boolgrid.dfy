/**
 * The contents of a boolean Grid as a value (SAR/SAR/world/game.py, class
 * Grid): a list of columns, so that cell (x, y) is c[x][y]. The functions
 * here say what Grid.count, Grid.asList and Grid._cellIndexToPosition compute.
 */
module BoolGrid {
  import opened Geometry

  type Cells = seq<seq<bool>>

  /** w columns of h cells each. */
  predicate Rect(c: Cells, w: int, h: int) {
    |c| == w && forall x :: 0 <= x < |c| ==> |c[x]| == h
  }

  function Height(c: Cells): nat {
    if |c| == 0 then 0 else |c[0]|
  }

  predicate InBox(c: Cells, p: Pos) {
    0 <= p.x < |c| && 0 <= p.y < |c[p.x]|
  }

  function At(c: Cells, p: Pos): bool
    requires InBox(c, p)
  {
    c[p.x][p.y]
  }

  /** The grid after the write `grid[x][y] = v`. */
  function Updated(c: Cells, p: Pos, v: bool): (r: Cells)
    requires InBox(c, p)
    ensures |r| == |c| && forall x :: 0 <= x < |c| ==> |r[x]| == |c[x]|
    ensures At(r, p) == v
    ensures forall q :: InBox(c, q) && q != p ==> At(r, q) == At(c, q)
  {
    c[p.x := c[p.x][p.y := v]]
  }

  /** A fresh grid of w columns and h rows, every cell v. */
  function Filled(w: nat, h: nat, v: bool): (r: Cells)
    ensures Rect(r, w, h)
    ensures forall x, y :: 0 <= x < w && 0 <= y < h ==> r[x][y] == v
  {
    seq(w, _ => seq(h, _ => v))
  }

  // ---------------------------------------------------------------------------
  // Grid.count: the number of cells equal to key, column by column.

  function ColumnCount(col: seq<bool>, key: bool, m: nat): nat
    requires m <= |col|
  {
    if m == 0 then 0 else ColumnCount(col, key, m - 1) + (if col[m - 1] == key then 1 else 0)
  }

  function CountUpTo(c: Cells, key: bool, n: nat): nat
    requires n <= |c|
  {
    if n == 0 then 0 else CountUpTo(c, key, n - 1) + ColumnCount(c[n - 1], key, |c[n - 1]|)
  }

  function Count(c: Cells, key: bool): nat {
    CountUpTo(c, key, |c|)
  }

  // ---------------------------------------------------------------------------
  // Grid.asList: the cells equal to key, x by x and, within a column, y by y.

  function ColumnHits(col: seq<bool>, x: int, key: bool, m: nat): seq<Pos>
    requires m <= |col|
  {
    if m == 0 then []
    else ColumnHits(col, x, key, m - 1) + (if col[m - 1] == key then [Pos(x, m - 1)] else [])
  }

  function PositionsUpTo(c: Cells, key: bool, n: nat): seq<Pos>
    requires n <= |c|
  {
    if n == 0 then [] else PositionsUpTo(c, key, n - 1) + ColumnHits(c[n - 1], n - 1, key, |c[n - 1]|)
  }

  function Positions(c: Cells, key: bool): seq<Pos> {
    PositionsUpTo(c, key, |c|)
  }

  predicate StrictlySorted(s: seq<Pos>) {
    forall i, j :: 0 <= i < j < |s| ==> PosLess(s[i], s[j])
  }

  /** The set of cells equal to key. */
  function CellSet(c: Cells, key: bool): set<Pos> {
    set x, y | 0 <= x < |c| && 0 <= y < |c[x]| && c[x][y] == key :: Pos(x, y)
  }

  /** Two sorted runs, the first below a pivot and the second from the pivot on, join sorted. */
  lemma SortedAppend(a: seq<Pos>, b: seq<Pos>, pivot: Pos)
    requires StrictlySorted(a) && StrictlySorted(b)
    requires forall i :: 0 <= i < |a| ==> PosLess(a[i], pivot)
    requires forall j :: 0 <= j < |b| ==> PosLessEq(pivot, b[j])
    ensures StrictlySorted(a + b)
  {
    forall i, j | 0 <= i < j < |a + b| ensures PosLess((a + b)[i], (a + b)[j]) {
      if j < |a| {
        assert PosLess(a[i], a[j]);
      } else if i >= |a| {
        assert PosLess(b[i - |a|], b[j - |a|]);
      } else {
        assert PosLess(a[i], pivot) && PosLessEq(pivot, b[j - |a|]);
      }
    }
  }

  lemma {:induction false} ColumnHitsFacts(col: seq<bool>, x: int, key: bool, m: nat)
    requires m <= |col|
    ensures |ColumnHits(col, x, key, m)| == ColumnCount(col, key, m)
    ensures forall p :: p in ColumnHits(col, x, key, m) <==> p.x == x && 0 <= p.y < m && col[p.y] == key
    ensures StrictlySorted(ColumnHits(col, x, key, m))
  {
    if m > 0 {
      ColumnHitsFacts(col, x, key, m - 1);
      var prev := ColumnHits(col, x, key, m - 1);
      var last := if col[m - 1] == key then [Pos(x, m - 1)] else [];
      assert ColumnHits(col, x, key, m) == prev + last;
      forall i | 0 <= i < |prev| ensures PosLess(prev[i], Pos(x, m - 1)) {
        assert prev[i] in prev;
      }
      SortedAppend(prev, last, Pos(x, m - 1));
    }
  }

  lemma {:induction false} PositionsUpToLength(c: Cells, key: bool, n: nat)
    requires n <= |c|
    ensures |PositionsUpTo(c, key, n)| == CountUpTo(c, key, n)
  {
    if n > 0 {
      PositionsUpToLength(c, key, n - 1);
      ColumnHitsFacts(c[n - 1], n - 1, key, |c[n - 1]|);
    }
  }

  lemma {:induction false} PositionsUpToMembers(c: Cells, key: bool, n: nat)
    requires n <= |c|
    ensures forall p :: p in PositionsUpTo(c, key, n) <==> 0 <= p.x < n && InBox(c, p) && At(c, p) == key
  {
    if n > 0 {
      PositionsUpToMembers(c, key, n - 1);
      ColumnHitsFacts(c[n - 1], n - 1, key, |c[n - 1]|);
    }
  }

  lemma {:induction false} PositionsUpToSorted(c: Cells, key: bool, n: nat)
    requires n <= |c|
    ensures StrictlySorted(PositionsUpTo(c, key, n))
  {
    if n > 0 {
      var a, b := PositionsUpTo(c, key, n - 1), ColumnHits(c[n - 1], n - 1, key, |c[n - 1]|);
      var pivot := Pos(n - 1, 0);
      assert PositionsUpTo(c, key, n) == a + b;
      assert StrictlySorted(a) by {
        PositionsUpToSorted(c, key, n - 1);
      }
      assert forall i :: 0 <= i < |a| ==> PosLess(a[i], pivot) by {
        PositionsUpToMembers(c, key, n - 1);
        forall i | 0 <= i < |a| ensures PosLess(a[i], pivot) {
          assert a[i] in a;
        }
      }
      assert StrictlySorted(b) && forall j :: 0 <= j < |b| ==> PosLessEq(pivot, b[j]) by {
        ColumnHitsFacts(c[n - 1], n - 1, key, |c[n - 1]|);
        forall j | 0 <= j < |b| ensures PosLessEq(pivot, b[j]) {
          assert b[j] in b;
        }
      }
      SortedAppend(a, b, pivot);
    }
  }

  /**
   * Grid.asList lists exactly the cells equal to key, each once, in x-then-y
   * order, and there are Grid.count of them.
   */
  lemma PositionsFacts(c: Cells, key: bool)
    ensures |Positions(c, key)| == Count(c, key)
    ensures forall p :: p in Positions(c, key) <==> InBox(c, p) && At(c, p) == key
    ensures StrictlySorted(Positions(c, key))
  {
    PositionsUpToLength(c, key, |c|);
    PositionsUpToMembers(c, key, |c|);
    PositionsUpToSorted(c, key, |c|);
  }

  lemma {:induction false} SortedCardinality(s: seq<Pos>)
    requires StrictlySorted(s)
    ensures |set p | p in s| == |s|
  {
    if s != [] {
      var t := s[..|s| - 1];
      assert StrictlySorted(t);
      SortedCardinality(t);
      assert s[|s| - 1] !in t by {
        forall i | 0 <= i < |t| ensures t[i] != s[|s| - 1] {
          assert PosLess(s[i], s[|s| - 1]);
        }
      }
      assert (set p | p in s) == (set p | p in t) + {s[|s| - 1]} by {
        assert s == t + [s[|s| - 1]];
      }
    }
  }

  /** Grid.count(key) is the number of distinct cells holding key. */
  lemma CountIsNumberOfCells(c: Cells, key: bool)
    ensures Count(c, key) == |CellSet(c, key)|
  {
    PositionsFacts(c, key);
    SortedCardinality(Positions(c, key));
    assert (set p | p in Positions(c, key)) == CellSet(c, key) by {
      forall p | p in CellSet(c, key) ensures p in Positions(c, key) {
        assert InBox(c, p) && At(c, p) == key;
      }
    }
  }

  lemma {:induction false} ColumnCountUpdated(col: seq<bool>, key: bool, m: nat, y: int, v: bool)
    requires m <= |col| && 0 <= y < |col|
    ensures ColumnCount(col[y := v], key, m) ==
            ColumnCount(col, key, m) + (if y < m then (if v == key then 1 else 0) - (if col[y] == key then 1 else 0) else 0)
  {
    if m > 0 {
      ColumnCountUpdated(col, key, m - 1, y, v);
    }
  }

  lemma {:induction false} CountUpToUpdated(c: Cells, key: bool, n: nat, p: Pos, v: bool)
    requires n <= |c| && InBox(c, p)
    ensures CountUpTo(Updated(c, p, v), key, n) ==
            CountUpTo(c, key, n) + (if p.x < n then (if v == key then 1 else 0) - (if At(c, p) == key then 1 else 0) else 0)
  {
    if n > 0 {
      CountUpToUpdated(c, key, n - 1, p, v);
      var col := c[n - 1];
      if p.x == n - 1 {
        ColumnCountUpdated(col, key, |col|, p.y, v);
      } else {
        assert Updated(c, p, v)[n - 1] == col;
      }
    }
  }

  /** Writing one cell changes the count of key by at most one, in the direction of the write. */
  lemma CountAfterWrite(c: Cells, key: bool, p: Pos, v: bool)
    requires InBox(c, p)
    ensures Count(Updated(c, p, v), key) ==
            Count(c, key) + (if v == key then 1 else 0) - (if At(c, p) == key then 1 else 0)
  {
    CountUpToUpdated(c, key, |c|, p, v);
  }

  // ---------------------------------------------------------------------------
  // Grid._cellIndexToPosition: cell index i is column i // height, row i % height.

  function CellIndexToPosition(i: nat, h: nat): Pos
    requires h > 0
  {
    Pos(i / h, i % h)
  }

  lemma MulMono(a: int, b: int, h: int)
    requires a <= b && 0 <= h
    ensures a * h <= b * h
  {
  }

  lemma DivOfIndex(x: int, y: int, h: int)
    requires 0 <= x && 0 <= y < h
    ensures (x * h + y) / h == x && (x * h + y) % h == y
  {
    var i := x * h + y;
    var q, r := i / h, i % h;
    assert i == q * h + r && 0 <= r < h;
    if q > x {
      MulMono(x + 1, q, h);
      assert false;
    } else if q < x {
      MulMono(q + 1, x, h);
      assert false;
    }
  }

  /** The column-major index of cell (x, y) in a grid of height h. */
  function CellIndex(p: Pos, h: nat): int {
    p.x * h + p.y
  }

  /** _cellIndexToPosition maps each index in [0, w*h) to a cell of a w-by-h grid with that index. */
  lemma IndexToCell(i: int, w: nat, h: nat)
    requires h > 0 && 0 <= i < w * h
    ensures 0 <= CellIndexToPosition(i, h).x < w && 0 <= CellIndexToPosition(i, h).y < h
    ensures CellIndex(CellIndexToPosition(i, h), h) == i
  {
    if i / h >= w {
      MulMono(w, i / h, h);
    }
  }

  /** Every cell of a w-by-h grid has an index in [0, w*h) that _cellIndexToPosition maps back to it. */
  lemma CellToIndex(p: Pos, w: nat, h: nat)
    requires 0 <= p.x < w && 0 <= p.y < h
    ensures 0 <= CellIndex(p, h) < w * h
    ensures CellIndexToPosition(CellIndex(p, h), h) == p
  {
    DivOfIndex(p.x, p.y, h);
    MulMono(p.x + 1, w, h);
  }

  /** Two cells of a grid of height h share an index only if they are the same cell. */
  lemma CellIndexInjective(p: Pos, q: Pos, h: nat)
    requires 0 <= p.x && 0 <= p.y < h && 0 <= q.x && 0 <= q.y < h
    requires CellIndex(p, h) == CellIndex(q, h)
    ensures p == q
  {
    DivOfIndex(p.x, p.y, h);
    DivOfIndex(q.x, q.y, h);
  }
}
