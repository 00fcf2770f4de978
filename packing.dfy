/**
 * The bit-packed representation of a boolean grid (SAR/SAR/world/game.py:
 * Grid.packBits, Grid._unpackInt, Grid._unpackBits and reconstituteGrid) as
 * functions on values, with the round-trip property. Cells are taken in
 * column-major order (index x * height + y); each word holds 30 of them, the
 * first cell of a word in its most significant bit 2^29.
 */
module Packing {
  import opened Wrappers
  import opened Geometry
  import opened BoolGrid

  /** Grid.CELLS_PER_INT */
  const CellsPerInt: nat := 30

  function Pow2(k: nat): (r: nat)
    ensures r >= 1
  {
    if k == 0 then 1 else 2 * Pow2(k - 1)
  }

  /** The value of the bits bs written from bit position i on, position j weighing 2^(29 - j). */
  function Val(bs: seq<bool>, i: nat): nat
    requires i + |bs| <= CellsPerInt
  {
    if bs == [] then 0 else (if bs[0] then Pow2(CellsPerInt - 1 - i) else 0) + Val(bs[1..], i + 1)
  }

  /** The words that packBits emits for each complete group of 30 cells. */
  function FullWords(bs: seq<bool>): seq<int>
    decreases |bs|
  {
    if |bs| < CellsPerInt then [] else [Val(bs[..CellsPerInt], 0)] + FullWords(bs[CellsPerInt..])
  }

  /** The cells after the last complete group of 30. */
  function Rest(bs: seq<bool>): (r: seq<bool>)
    ensures |r| < CellsPerInt
    decreases |bs|
  {
    if |bs| < CellsPerInt then bs else Rest(bs[CellsPerInt..])
  }

  /** All words packBits emits: one per complete group, then always one more for the rest (possibly 0). */
  function Words(bs: seq<bool>): seq<int> {
    FullWords(bs) + [Val(Rest(bs), 0)]
  }

  /** The cells of a grid in packing order: column 0 from bottom to top, then column 1, ... */
  function Flatten(c: Cells): seq<bool> {
    if c == [] then [] else Flatten(c[..|c| - 1]) + c[|c| - 1]
  }

  /** Grid.packBits: (width, height, words...). */
  function Packed(c: Cells, w: nat, h: nat): seq<int> {
    [w, h] + Words(Flatten(c))
  }

  /** The bits _unpackInt reads from positions i..29 of packed, by repeated subtraction. */
  function UnpackFrom(packed: int, i: nat): (r: seq<bool>)
    requires i <= CellsPerInt
    ensures |r| == CellsPerInt - i
    decreases CellsPerInt - i
  {
    if i == CellsPerInt then []
    else
      var n := Pow2(CellsPerInt - i - 1);
      if packed >= n then [true] + UnpackFrom(packed - n, i + 1)
      else [false] + UnpackFrom(packed, i + 1)
  }

  /** Round k of the subtraction loop: write one bit for 2^(30 - k) and take it away if it fits. */
  function Round(bits: seq<bool>, rest: int, k: nat): (seq<bool>, int)
    requires 0 < k <= CellsPerInt
  {
    var n := Pow2(CellsPerInt - k);
    if rest >= n then (bits + [true], rest - n) else (bits + [false], rest)
  }

  /** The bits written and the value left after the first k rounds of the subtraction loop. */
  function Rounds(packed: int, k: nat): (seq<bool>, int)
    requires k <= CellsPerInt
  {
    if k == 0 then ([], packed)
    else
      var prev := Rounds(packed, k - 1);
      Round(prev.0, prev.1, k)
  }

  /** One round: the bit it writes is the head of what is left to unpack. */
  lemma RoundStep(bits: seq<bool>, rest: int, k: nat)
    requires 0 < k <= CellsPerInt
    ensures var next := Round(bits, rest, k);
      bits + UnpackFrom(rest, k - 1) == next.0 + UnpackFrom(next.1, k)
  {
    var n := Pow2(CellsPerInt - k);
    var after := if rest >= n then rest - n else rest;
    assert UnpackFrom(rest, k - 1) == [rest >= n] + UnpackFrom(after, k);
    assert bits + ([rest >= n] + UnpackFrom(after, k)) == (bits + [rest >= n]) + UnpackFrom(after, k);
  }

  /** After k rounds, the bits written followed by the bits still to come are the whole word (start is 0). */
  lemma {:induction false} RoundsUnpack(packed: int, k: nat, start: nat)
    requires k <= CellsPerInt && start == 0
    ensures Rounds(packed, k).0 + UnpackFrom(Rounds(packed, k).1, k) == UnpackFrom(packed, start)
  {
    if k > 0 {
      var prev := Rounds(packed, k - 1);
      RoundsUnpack(packed, k - 1, start);
      RoundStep(prev.0, prev.1, k);
    }
  }

  /** Grid._unpackInt: 30 booleans, or the ValueError raised for a negative word. */
  function UnpackWord(packed: int): Option<seq<bool>> {
    if packed < 0 then None else Some(UnpackFrom(packed, 0))
  }

  /** The booleans _unpackBits draws from all the words, in order. */
  function UnpackAll(words: seq<int>): Option<seq<bool>> {
    if words == [] then Some([])
    else match UnpackWord(words[0])
      case None => None
      case Some(bs) =>
        match UnpackAll(words[1..])
        case None => None
        case Some(rest) => Some(bs + rest)
  }

  /** The grid base after _unpackBits has written the bits into the cells with index below |bits|. */
  function Overlay(base: Cells, h: nat, bits: seq<bool>): (r: Cells)
    ensures |r| == |base| && forall x :: 0 <= x < |base| ==> |r[x]| == |base[x]|
  {
    seq(|base|, x requires 0 <= x < |base| =>
      seq(|base[x]|, y requires 0 <= y < |base[x]| =>
        if x * h + y < |bits| then bits[x * h + y] else base[x][y]))
  }

  /** reconstituteGrid applied to the tuple rep: the grid, or the error of a negative word. */
  function Reconstitute(rep: seq<int>): Result<Cells>
    requires |rep| >= 2 && rep[0] >= 0 && rep[1] >= 0
  {
    match UnpackAll(rep[2..])
    case None => Failure("must be a positive integer")
    case Some(bits) => Success(Overlay(Filled(rep[0], rep[1], false), rep[1], bits))
  }

  function Falses(n: nat): seq<bool> {
    seq(n, _ => false)
  }

  // ---------------------------------------------------------------------------

  lemma {:induction false} ValBound(bs: seq<bool>, i: nat)
    requires i + |bs| <= CellsPerInt
    ensures Val(bs, i) < Pow2(CellsPerInt - i)
  {
    if bs != [] {
      ValBound(bs[1..], i + 1);
    }
  }

  lemma {:induction false} ValSnoc(bs: seq<bool>, b: bool, i: nat)
    requires i + |bs| < CellsPerInt
    ensures Val(bs + [b], i) == Val(bs, i) + (if b then Pow2(CellsPerInt - 1 - i - |bs|) else 0)
  {
    if bs == [] {
      assert ([] + [b])[1..] == [];
    } else {
      assert (bs + [b])[1..] == bs[1..] + [b];
      ValSnoc(bs[1..], b, i + 1);
    }
  }

  lemma {:induction false} UnpackZero(i: nat)
    requires i <= CellsPerInt
    ensures UnpackFrom(0, i) == Falses(CellsPerInt - i)
    decreases CellsPerInt - i
  {
    if i < CellsPerInt {
      UnpackZero(i + 1);
    }
  }

  /** _unpackInt reads back the bits that were written into a word, followed by zeros. */
  lemma {:induction false} UnpackVal(bs: seq<bool>, i: nat)
    requires i + |bs| <= CellsPerInt
    ensures UnpackFrom(Val(bs, i), i) == bs + Falses(CellsPerInt - i - |bs|)
  {
    if bs == [] {
      UnpackZero(i);
    } else {
      var tail := Val(bs[1..], i + 1);
      var n := Pow2(CellsPerInt - i - 1);
      ValBound(bs[1..], i + 1);
      assert Val(bs, i) == (if bs[0] then n else 0) + tail;
      assert UnpackFrom(Val(bs, i), i) == [bs[0]] + UnpackFrom(tail, i + 1);
      UnpackVal(bs[1..], i + 1);
      assert bs == [bs[0]] + bs[1..];
    }
  }

  lemma {:induction false} RestLength(bs: seq<bool>)
    ensures |Rest(bs)| == |bs| % CellsPerInt
    decreases |bs|
  {
    if |bs| >= CellsPerInt {
      RestLength(bs[CellsPerInt..]);
    }
  }

  /** The position inside the current word after one more cell. */
  lemma NextInWord(i: nat)
    ensures (i + 1) % CellsPerInt == 0 <==> i % CellsPerInt == CellsPerInt - 1
  {
  }

  /** Adding one cell to the packing order either extends the rest or completes a word. */
  lemma {:induction false} WordsSnoc(bs: seq<bool>, b: bool)
    ensures |Rest(bs)| < CellsPerInt - 1 ==>
              FullWords(bs + [b]) == FullWords(bs) && Rest(bs + [b]) == Rest(bs) + [b]
    ensures |Rest(bs)| == CellsPerInt - 1 ==>
              FullWords(bs + [b]) == FullWords(bs) + [Val(Rest(bs) + [b], 0)] && Rest(bs + [b]) == []
    decreases |bs|
  {
    var t := bs + [b];
    if |bs| < CellsPerInt - 1 {
    } else if |bs| == CellsPerInt - 1 {
      assert t[..CellsPerInt] == t;
      assert t[CellsPerInt..] == [];
    } else {
      assert t[..CellsPerInt] == bs[..CellsPerInt];
      assert t[CellsPerInt..] == bs[CellsPerInt..] + [b];
      WordsSnoc(bs[CellsPerInt..], b);
    }
  }

  /** Every word packBits emits is below 2^30. */
  lemma {:induction false} FullWordsBounded(bs: seq<bool>)
    ensures forall k :: 0 <= k < |FullWords(bs)| ==> 0 <= FullWords(bs)[k] < Pow2(CellsPerInt)
    decreases |bs|
  {
    if |bs| >= CellsPerInt {
      ValBound(bs[..CellsPerInt], 0);
      FullWordsBounded(bs[CellsPerInt..]);
    }
  }

  lemma PackedWordsBounded(c: Cells, w: nat, h: nat)
    ensures forall k :: 2 <= k < |Packed(c, w, h)| ==> 0 <= Packed(c, w, h)[k] < Pow2(CellsPerInt)
  {
    var bs := Flatten(c);
    FullWordsBounded(bs);
    ValBound(Rest(bs), 0);
  }

  lemma {:induction false} UnpackWords(bs: seq<bool>)
    ensures UnpackAll(Words(bs)).Some?
    ensures |bs| <= |UnpackAll(Words(bs)).value|
    ensures UnpackAll(Words(bs)).value[..|bs|] == bs
    decreases |bs|
  {
    if |bs| < CellsPerInt {
      assert Words(bs) == [Val(bs, 0)];
      UnpackVal(bs, 0);
      assert Words(bs)[1..] == [];
    } else {
      var head, tail := bs[..CellsPerInt], bs[CellsPerInt..];
      assert Words(bs) == [Val(head, 0)] + Words(tail);
      assert Words(bs)[1..] == Words(tail);
      UnpackVal(head, 0);
      assert head + Falses(0) == head;
      assert UnpackWord(Val(head, 0)) == Some(head);
      UnpackWords(tail);
      var u := UnpackAll(Words(tail)).value;
      assert UnpackAll(Words(bs)).value == head + u;
      assert bs == head + tail;
    }
  }

  lemma {:induction false} FlattenLength(c: Cells, w: nat, h: nat)
    requires Rect(c, w, h)
    ensures |Flatten(c)| == w * h
  {
    if c != [] {
      var init := c[..|c| - 1];
      assert Rect(init, w - 1, h);
      FlattenLength(init, w - 1, h);
      assert |Flatten(c)| == |Flatten(init)| + |c[w - 1]|;
      assert (w - 1) * h + h == w * h;
    }
  }

  /** Cell (x, y) stands at index x * h + y of the packing order. */
  lemma {:induction false} FlattenAt(c: Cells, w: nat, h: nat, x: nat, y: nat)
    requires Rect(c, w, h) && x < w && y < h
    ensures x * h + y < |Flatten(c)| && Flatten(c)[x * h + y] == c[x][y]
  {
    var init := c[..|c| - 1];
    FlattenLength(init, w - 1, h);
    FlattenLength(c, w, h);
    if x < w - 1 {
      MulMono(x + 1, w - 1, h);
      FlattenAt(init, w - 1, h, x, y);
    } else {
      assert Flatten(c)[x * h + y] == c[|c| - 1][y];
    }
  }

  /** A negative word makes _unpackBits raise, whatever follows it. */
  lemma {:induction false} UnpackAllFailsOnward(words: seq<int>, more: seq<int>)
    requires UnpackAll(words).None?
    ensures UnpackAll(words + more).None?
  {
    assert words != [];
    assert (words + more)[0] == words[0];
    assert (words + more)[1..] == words[1..] + more;
    if UnpackWord(words[0]).Some? {
      UnpackAllFailsOnward(words[1..], more);
    }
  }

  /** One iteration of packBits' loop: add cell b at index |prefix|, and flush the word after every 30th cell. */
  lemma PackStep(prefix: seq<bool>, b: bool)
    ensures var cur := Val(Rest(prefix), 0) + (if b then Pow2(CellsPerInt - |Rest(prefix)| - 1) else 0);
            if |Rest(prefix)| == CellsPerInt - 1 then
              FullWords(prefix + [b]) == FullWords(prefix) + [cur] && Val(Rest(prefix + [b]), 0) == 0
            else
              FullWords(prefix + [b]) == FullWords(prefix) && Val(Rest(prefix + [b]), 0) == cur
  {
    WordsSnoc(prefix, b);
    ValSnoc(Rest(prefix), b, 0);
  }

  /** The cell that _cellIndexToPosition gives for index i is the one at index i of the packing order. */
  lemma FlattenIndex(c: Cells, w: nat, h: nat, i: nat)
    requires Rect(c, w, h) && h > 0 && i < w * h
    ensures var p := CellIndexToPosition(i, h);
            && 0 <= p.x < w && 0 <= p.y < h
            && i < |Flatten(c)| && Flatten(c)[i] == c[p.x][p.y]
  {
    var p := CellIndexToPosition(i, h);
    IndexToCell(i, w, h);
    FlattenAt(c, w, h, p.x, p.y);
  }

  /** One round of the packBits loop, in terms of the cell index i and the word being built. */
  lemma PackIndexStep(order: seq<bool>, i: nat)
    requires i < |order|
    ensures CellsPerInt - (i % CellsPerInt) - 1 >= 0
    ensures var cur := Val(Rest(order[..i]), 0) + (if order[i] then Pow2(CellsPerInt - (i % CellsPerInt) - 1) else 0);
            if (i + 1) % CellsPerInt == 0 then
              FullWords(order[..i + 1]) == FullWords(order[..i]) + [cur] && Val(Rest(order[..i + 1]), 0) == 0
            else
              FullWords(order[..i + 1]) == FullWords(order[..i]) && Val(Rest(order[..i + 1]), 0) == cur
  {
    RestLength(order[..i]);
    NextInWord(i);
    PackStep(order[..i], order[i]);
    assert order[..i + 1] == order[..i] + [order[i]];
  }

  /** c holds bits[i] at each cell whose index i is below |bits|, and base at the others. */
  ghost predicate OverlayHolds(c: Cells, base: Cells, w: nat, h: nat, bits: seq<bool>) {
    Rect(c, w, h) && Rect(base, w, h) &&
    forall x, y :: 0 <= x < w && 0 <= y < h ==>
      c[x][y] == if x * h + y < |bits| then bits[x * h + y] else base[x][y]
  }

  /** One iteration of _unpackBits' inner loop: write the next bit into the cell with the next index. */
  lemma OverlayWriteNext(c: Cells, base: Cells, w: nat, h: nat, bits: seq<bool>, p: Pos, b: bool)
    requires OverlayHolds(c, base, w, h, bits)
    requires 0 <= p.x < w && 0 <= p.y < h && CellIndex(p, h) == |bits|
    ensures OverlayHolds(Updated(c, p, b), base, w, h, bits + [b])
  {
    var c' := Updated(c, p, b);
    forall x, y | 0 <= x < w && 0 <= y < h
      ensures c'[x][y] == if x * h + y < |bits + [b]| then (bits + [b])[x * h + y] else base[x][y]
    {
      if Pos(x, y) != p && x * h + y == |bits| {
        CellIndexInjective(Pos(x, y), p, h);
      }
    }
  }

  /** Bits beyond the last cell are never written, so they do not matter. */
  lemma OverlayExtend(c: Cells, base: Cells, w: nat, h: nat, bits: seq<bool>, longer: seq<bool>)
    requires OverlayHolds(c, base, w, h, bits)
    requires |bits| <= |longer| && bits == longer[..|bits|]
    requires |bits| < |longer| ==> |bits| >= w * h
    ensures OverlayHolds(c, base, w, h, longer)
  {
    forall x, y | 0 <= x < w && 0 <= y < h
      ensures c[x][y] == if x * h + y < |longer| then longer[x * h + y] else base[x][y]
    {
      CellToIndex(Pos(x, y), w, h);
      if x * h + y < |bits| {
        assert longer[x * h + y] == bits[x * h + y];
      }
    }
  }

  lemma OverlayIsOverlay(c: Cells, base: Cells, w: nat, h: nat, bits: seq<bool>)
    requires OverlayHolds(c, base, w, h, bits)
    ensures c == Overlay(base, h, bits)
  {
    var o := Overlay(base, h, bits);
    forall x | 0 <= x < w
      ensures c[x] == o[x]
    {
    }
  }

  lemma OverlayNothing(base: Cells, h: nat)
    ensures Overlay(base, h, []) == base
  {
    var o := Overlay(base, h, []);
    forall x | 0 <= x < |base|
      ensures o[x] == base[x]
    {
    }
  }

  /** Writing the packing order of c into an empty grid of c's shape gives c back. */
  lemma OverlayFlatten(c: Cells, w: nat, h: nat, u: seq<bool>)
    requires Rect(c, w, h)
    requires |Flatten(c)| <= |u| && u[..|Flatten(c)|] == Flatten(c)
    ensures Overlay(Filled(w, h, false), h, u) == c
  {
    var r := Overlay(Filled(w, h, false), h, u);
    forall x | 0 <= x < w
      ensures r[x] == c[x]
    {
      forall y | 0 <= y < h
        ensures r[x][y] == c[x][y]
      {
        FlattenAt(c, w, h, x, y);
        assert u[x * h + y] == u[..|Flatten(c)|][x * h + y];
      }
    }
  }

  /** reconstituteGrid(g.packBits()) is g. */
  lemma PackRoundTrip(c: Cells, w: nat, h: nat)
    requires Rect(c, w, h)
    ensures Reconstitute(Packed(c, w, h)) == Success(c)
  {
    var bs := Flatten(c);
    assert Packed(c, w, h)[2..] == Words(bs);
    UnpackWords(bs);
    OverlayFlatten(c, w, h, UnpackAll(Words(bs)).value);
  }
}
