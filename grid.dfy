/**
 * The Grid class of SAR/SAR/world/game.py: a boolean grid stored as a list
 * of columns. The list object itself is an array here, so that a shallow
 * copy, which shares the list, sees every later write through the original
 * and the other way round; a (deep) copy gets a list of its own.
 */
module Grids {
  import opened Wrappers
  import opened Geometry
  import opened BoolGrid
  import opened Packing
  import opened Seqs

  function Min(a: int, b: int): int {
    if a <= b then a else b
  }

  class Grid {
    const width: nat
    const height: nat
    /** The list of columns: cell (x, y) is data[x][y]. */
    var data: array<seq<bool>>

    ghost predicate Valid()
      reads this, data
    {
      Rect(data[..], width, height)
    }

    /** The current contents, as a value. */
    function Cells(): Cells
      reads this, data
    {
      data[..]
    }

    /** Grid(width, height, initialValue). */
    constructor (width: nat, height: nat, initialValue: bool)
      ensures Valid() && fresh(data)
      ensures this.width == width && this.height == height
      ensures Cells() == Filled(width, height, initialValue)
    {
      this.width := width;
      this.height := height;
      var column := seq(height, _ => initialValue);
      data := new seq<bool>[width](_ => column);
    }

    /** grid[x][y] */
    function Get(x: int, y: int): bool
      reads this, data
      requires Valid() && 0 <= x < width && 0 <= y < height
    {
      data[x][y]
    }

    /** grid[x][y] = v: a write into the shared list of columns. */
    method Set(x: int, y: int, v: bool)
      requires Valid() && 0 <= x < width && 0 <= y < height
      modifies data
      ensures Valid()
      ensures Cells() == Updated(old(Cells()), Pos(x, y), v)
    {
      data[x] := data[x][y := v];
    }

    /** Grid.copy: an equal grid with a list of columns of its own. */
    method Copy() returns (g: Grid)
      requires Valid()
      ensures fresh(g) && fresh(g.data)
      ensures g.Valid() && g.width == width && g.height == height
      ensures g.Cells() == Cells()
    {
      g := new Grid(width, height, false);
      var columns := data[..];
      g.data := new seq<bool>[width](x requires 0 <= x < width => columns[x]);
    }

    /** Grid.shallowCopy: a new grid object over the same list of columns. */
    method ShallowCopy() returns (g: Grid)
      requires Valid()
      ensures fresh(g) && g.data == data
      ensures g.Valid() && g.width == width && g.height == height
      ensures g.Cells() == Cells()
    {
      g := new Grid(width, height, false);
      g.data := data;
    }

    /** Grid.count(key): the number of cells holding key. */
    function Count(key: bool): (n: nat)
      reads this, data
      ensures n == |CellSet(Cells(), key)|
    {
      CountIsNumberOfCells(Cells(), key);
      BoolGrid.Count(Cells(), key)
    }

    /** Grid.asList(key): the cells holding key, each once, x by x and then y by y. */
    method AsList(key: bool) returns (list: seq<Pos>)
      requires Valid()
      ensures list == Positions(Cells(), key)
      ensures forall p :: p in list <==> InBox(Cells(), p) && At(Cells(), p) == key
      ensures StrictlySorted(list)
      ensures |list| == Count(key)
    {
      list := [];
      for x := 0 to width
        invariant list == PositionsUpTo(Cells(), key, x)
      {
        for y := 0 to height
          invariant list == PositionsUpTo(Cells(), key, x) + ColumnHits(data[x], x, key, y)
        {
          if data[x][y] == key {
            list := list + [Pos(x, y)];
          }
        }
      }
      PositionsFacts(Cells(), key);
    }

    /** Grid.packBits: (width, height) followed by the cells packed 30 to a word. */
    method PackBits() returns (bits: seq<int>)
      requires Valid()
      ensures bits == Packed(Cells(), width, height)
      ensures forall k :: 2 <= k < |bits| ==> 0 <= bits[k] < Pow2(CellsPerInt)
    {
      ghost var order := Flatten(Cells());
      FlattenLength(Cells(), width, height);
      bits := [width, height];
      var currentInt := 0;
      for i := 0 to height * width
        invariant bits == [width, height] + FullWords(order[..i])
        invariant currentInt == Val(Rest(order[..i]), 0)
      {
        var p := CellIndexToPosition(i, height);
        FlattenIndex(Cells(), width, height, i);
        bits, currentInt := AddCell(order, [width, height], i, data[p.x][p.y], bits, currentInt);
      }
      bits := bits + [currentInt];
      TakeAll(order);
      PackedWordsBounded(Cells(), width, height);
    }

    /** The body of packBits' loop: add the i-th cell to the word being built, and emit the word after every 30th cell. */
    static method AddCell(ghost order: seq<bool>, ghost head: seq<int>, i: nat, cell: bool, bits: seq<int>, currentInt: int)
      returns (bits': seq<int>, currentInt': int)
      requires i < |order| && cell == order[i]
      requires bits == head + FullWords(order[..i]) && currentInt == Val(Rest(order[..i]), 0)
      ensures bits' == head + FullWords(order[..i + 1]) && currentInt' == Val(Rest(order[..i + 1]), 0)
    {
      var bit := CellsPerInt - (i % CellsPerInt) - 1;
      PackIndexStep(order, i);
      currentInt' := currentInt;
      if cell {
        currentInt' := currentInt + Pow2(bit);
      }
      bits' := bits;
      if (i + 1) % CellsPerInt == 0 {
        assert bits + [currentInt'] == head + (FullWords(order[..i]) + [currentInt']);
        bits' := bits + [currentInt'];
        currentInt' := 0;
      }
    }

    /** Grid._unpackInt(packed, 30): the 30 bits of a word, most significant first. */
    static method UnpackInt(packed: int) returns (r: Option<seq<bool>>)
      ensures r == UnpackWord(packed)
      ensures r.None? <==> packed < 0
      ensures r.Some? ==> |r.value| == CellsPerInt
    {
      if packed < 0 {
        return None;
      }
      var bools := SubtractPowers(packed);
      return Some(bools);
    }

    /** The loop of _unpackInt: take away 2^29, 2^28, ..., 1 in turn wherever what is left allows it. */
    static method SubtractPowers(packed: int) returns (bools: seq<bool>)
      requires packed >= 0
      ensures bools == UnpackFrom(packed, 0)
    {
      bools := [];
      var rest := packed;
      var i := 0;
      while i < CellsPerInt
        invariant 0 <= i <= CellsPerInt
        invariant (bools, rest) == Rounds(packed, i)
      {
        var n := Pow2(CellsPerInt - i - 1);
        if rest >= n {
          bools := bools + [true];
          rest := rest - n;
        } else {
          bools := bools + [false];
        }
        i := i + 1;
      }
      RoundsUnpack(packed, i, 0);
      assert bools + [] == bools;
    }

    /**
     * The inner loop of _unpackBits: writes bools into the cells from index
     * cell on, and stops once the last cell has been written.
     */
    method WriteBits(bools: seq<bool>, cell: nat, ghost base: Cells, ghost done: seq<bool>) returns (next: nat)
      requires Valid() && OverlayHolds(Cells(), base, width, height, done)
      requires cell == Min(|done|, width * height)
      modifies data
      ensures Valid() && OverlayHolds(Cells(), base, width, height, done + bools)
      ensures next == Min(|done| + |bools|, width * height)
    {
      next := cell;
      var j := 0;
      while j < |bools|
        invariant 0 <= j <= |bools|
        invariant Valid()
        invariant next == Min(|done| + j, width * height)
        invariant OverlayHolds(Cells(), base, width, height, done + bools[..j])
      {
        if next == width * height {
          break;
        }
        var p := CellIndexToPosition(next, height);
        IndexToCell(next, width, height);
        OverlayWriteNext(Cells(), base, width, height, done + bools[..j], p, bools[j]);
        assert (done + bools[..j]) + [bools[j]] == done + bools[..j + 1];
        data[p.x] := data[p.x][p.y := bools[j]];
        next := next + 1;
        j := j + 1;
      }
      assert done + bools == (done + bools)[..|done| + |bools|];
      OverlayExtend(Cells(), base, width, height, done + bools[..j], done + bools);
    }

    /**
     * Grid._unpackBits: writes the bits of the words into the cells in index
     * order, stopping at the last cell; a negative word raises, reported as false.
     */
    method UnpackBits(words: seq<int>) returns (ok: bool)
      requires Valid()
      modifies data
      ensures Valid()
      ensures ok <==> UnpackAll(words).Some?
      ensures ok ==> Cells() == Overlay(old(Cells()), height, UnpackAll(words).value)
    {
      ghost var base := Cells();
      var cell := 0;
      var k := 0;
      while k < |words|
        invariant 0 <= k <= |words|
        invariant Valid()
        invariant UnpackAll(words[..k]).Some?
        invariant |UnpackAll(words[..k]).value| == CellsPerInt * k
        invariant cell == Min(CellsPerInt * k, width * height)
        invariant OverlayHolds(Cells(), base, width, height, UnpackAll(words[..k]).value)
      {
        ghost var u := UnpackAll(words[..k]).value;
        var bools := UnpackInt(words[k]);
        UnpackAllSnoc(words[..k], words[k]);
        TakeOneMore(words, k);
        if bools.None? {
          UnpackAllFailsOnward(words[..k + 1], words[k + 1..]);
          TakeDrop(words, k + 1);
          return false;
        }
        cell := WriteBits(bools.value, cell, base, u);
        k := k + 1;
      }
      TakeAll(words);
      OverlayIsOverlay(Cells(), base, width, height, UnpackAll(words).value);
      return true;
    }
  }

  lemma {:induction false} UnpackAllSnoc(words: seq<int>, w: int)
    ensures UnpackAll(words + [w]) ==
      match UnpackAll(words)
      case None => None
      case Some(bs) => (match UnpackWord(w) case None => None case Some(b) => Some(bs + b))
  {
    if words == [] {
      assert [] + [w] == [w];
      assert [w][1..] == [];
      match UnpackWord(w)
      case None =>
      case Some(b) => assert [] + b == b + [];
    } else {
      assert (words + [w])[0] == words[0];
      assert (words + [w])[1..] == words[1..] + [w];
      UnpackAllSnoc(words[1..], w);
      match UnpackWord(words[0])
      case None =>
      case Some(first) =>
        match UnpackAll(words[1..])
        case None =>
        case Some(rest) =>
          match UnpackWord(w)
          case None =>
          case Some(b) => assert first + (rest + b) == (first + rest) + b;
    }
  }

  /** reconstituteGrid: the grid that a packBits tuple describes, or the error of a negative word. */
  method ReconstituteGrid(rep: seq<int>) returns (r: Result<Grid>)
    requires |rep| >= 2 && rep[0] >= 0 && rep[1] >= 0
    ensures r.Success? <==> Reconstitute(rep).Success?
    ensures r.Success? ==> fresh(r.value) && r.value.Valid() && r.value.Cells() == Reconstitute(rep).value
  {
    var g := new Grid(rep[0], rep[1], false);
    var words := rep[2..];
    if words != [] {
      var ok := g.UnpackBits(words);
      if !ok {
        return Failure("must be a positive integer");
      }
    } else {
      OverlayNothing(g.Cells(), rep[1]);
    }
    return Success(g);
  }
}
