/**
 * The static map of a rescue mission (world/rescue_layout.py, RescueLayout):
 * the layout text is read into a wall grid, a survivor grid, a terrain
 * dictionary and the sorted rescuer start positions. Text row 0 is the top of
 * the map, so cell (x, y) comes from row height - 1 - y.
 */
module Layout {
  import opened Geometry
  import opened BoolGrid
  import opened Grids
  import opened Seqs

  /** What the parser needs of the text: a first line, and no line shorter than it. */
  predicate WellFormed(text: seq<string>) {
    |text| >= 1 && forall i :: 0 <= i < |text| ==> |text[i]| >= |text[0]|
  }

  predicate InMap(text: seq<string>, p: Pos)
    requires |text| >= 1
  {
    0 <= p.x < |text[0]| && 0 <= p.y < |text|
  }

  /** The character that describes cell (x, y): the y axis is flipped. */
  function CharAt(text: seq<string>, x: int, y: int): char
    requires WellFormed(text) && 0 <= x < |text[0]| && 0 <= y < |text|
  {
    text[|text| - 1 - y][x]
  }

  /** The cells whose character is ch, as a grid of width |text[0]| and height |text|. */
  function CellsOf(text: seq<string>, ch: char): (c: Cells)
    requires WellFormed(text)
    ensures Rect(c, |text[0]|, |text|)
    ensures forall x, y :: 0 <= x < |text[0]| && 0 <= y < |text| ==> (c[x][y] <==> CharAt(text, x, y) == ch)
  {
    seq(|text[0]|, x requires 0 <= x < |text[0]| =>
      seq(|text|, y requires 0 <= y < |text| => CharAt(text, x, y) == ch))
  }

  predicate IsTerrainChar(c: char) {
    c == '~' || c == '^' || c == '*'
  }

  /** The TERRAIN_COSTS table, with 1 for any character it does not list. */
  function TerrainCost(c: char): nat {
    if c == '~' then 2
    else if c == '^' then 3
    else if c == '*' then 5
    else 1
  }

  /** RescueLayout.getTerrain on a terrain dictionary: '.' where nothing is recorded. */
  function TerrainAt(terrain: map<Pos, char>, p: Pos): char {
    if p in terrain then terrain[p] else '.'
  }

  /** RescueLayout.getTerrainCost on a terrain dictionary. */
  function TerrainCostAt(terrain: map<Pos, char>, p: Pos): nat {
    TerrainCost(TerrainAt(terrain, p))
  }

  /**
   * Every terrain cost is one of 1, 2, 3 and 5, and so at least 1; water,
   * rubble and fire cost 2, 3 and 5, floor, space and every other character 1.
   */
  lemma TerrainCostTable(terrain: map<Pos, char>, p: Pos)
    ensures var n := TerrainCostAt(terrain, p); (n == 1 || n == 2 || n == 3 || n == 5) && n >= 1
    ensures TerrainCostAt(terrain, p) == 1 <==> !IsTerrainChar(TerrainAt(terrain, p))
    ensures p !in terrain ==> TerrainAt(terrain, p) == '.' && TerrainCostAt(terrain, p) == 1
  {
  }

  /** Parse order: row y = 0 first, and within a row x by x. */
  predicate ParsedBefore(p: Pos, x: int, y: int) {
    p.y < y || (p.y == y && p.x < x)
  }

  predicate ParseOrdered(s: seq<Pos>) {
    forall i, j :: 0 <= i < j < |s| ==> ParsedBefore(s[i], s[j].x, s[j].y)
  }

  predicate SortedEq(s: seq<Pos>) {
    forall i, j :: 0 <= i < j < |s| ==> PosLessEq(s[i], s[j])
  }

  predicate Distinct(s: seq<Pos>) {
    forall i, j :: 0 <= i < j < |s| ==> s[i] != s[j]
  }

  lemma {:induction false} DistinctMultiset(s: seq<Pos>)
    ensures Distinct(s) <==> forall p :: multiset(s)[p] <= 1
  {
    if s != [] {
      var t, last := s[..|s| - 1], s[|s| - 1];
      assert s == t + [last];
      assert forall p :: multiset(s)[p] == multiset(t)[p] + (if p == last then 1 else 0);
      DistinctMultiset(t);
      if Distinct(s) {
        assert last !in t by {
          forall i | 0 <= i < |t| ensures t[i] != last {
            assert s[i] == t[i];
          }
        }
      } else {
        var i, j :| 0 <= i < j < |s| && s[i] == s[j];
        if j < |s| - 1 {
          assert t[i] == t[j];
          assert !Distinct(t);
          var q :| multiset(t)[q] > 1;
          assert multiset(s)[q] > 1;
        } else {
          assert t[i] == last && last in t;
          assert multiset(t)[last] >= 1;
          assert multiset(s)[last] > 1;
        }
      }
    }
  }

  /** Inserting p into a sorted sequence before the first element above it. */
  method Insert(s: seq<Pos>, p: Pos) returns (r: seq<Pos>)
    requires SortedEq(s)
    ensures SortedEq(r) && multiset(r) == multiset(s) + multiset{p}
  {
    var k := 0;
    while k < |s| && PosLessEq(s[k], p)
      invariant 0 <= k <= |s|
      invariant forall i :: 0 <= i < k ==> PosLessEq(s[i], p)
    {
      k := k + 1;
    }
    r := s[..k] + [p] + s[k..];
    assert s == s[..k] + s[k..];
    InsertedSorted(s, p, k);
  }

  lemma InsertedSorted(s: seq<Pos>, p: Pos, k: int)
    requires SortedEq(s) && 0 <= k <= |s|
    requires forall i :: 0 <= i < k ==> PosLessEq(s[i], p)
    requires k < |s| ==> !PosLessEq(s[k], p)
    ensures SortedEq(s[..k] + [p] + s[k..])
  {
    var r := s[..k] + [p] + s[k..];
    assert |r| == |s| + 1;
    assert forall i :: 0 <= i < k ==> r[i] == s[i];
    assert r[k] == p;
    assert forall i :: k < i < |r| ==> r[i] == s[i - 1];
    forall i, j | 0 <= i < j < |r| ensures PosLessEq(r[i], r[j]) {
      if j < k {
      } else if i < k && j == k {
      } else if i < k {
        assert PosLessEq(s[i], s[j - 1]);
      } else if i == k {
        assert PosLessEq(s[k], s[j - 1]);
      } else {
        assert PosLessEq(s[i - 1], s[j - 1]);
      }
    }
  }

  /** list.sort() on the rescuer positions: an ascending permutation (by x, then y). */
  method SortPositions(s: seq<Pos>) returns (r: seq<Pos>)
    ensures SortedEq(r) && multiset(r) == multiset(s)
  {
    r := [];
    for i := 0 to |s|
      invariant SortedEq(r) && multiset(r) == multiset(s[..i])
    {
      r := Insert(r, s[i]);
      TakeOneMore(s, i);
    }
    TakeAll(s);
  }

  /** c holds true exactly at the cells parsed before (x, y) whose character is ch. */
  ghost predicate GridParsed(c: Cells, text: seq<string>, ch: char, x: int, y: int)
    requires WellFormed(text)
  {
    Rect(c, |text[0]|, |text|) &&
    forall a, b :: 0 <= a < |text[0]| && 0 <= b < |text| ==>
      (c[a][b] <==> ParsedBefore(Pos(a, b), x, y) && CharAt(text, a, b) == ch)
  }

  /** The terrain dictionary holds exactly the terrain characters parsed before (x, y). */
  ghost predicate TerrainParsed(m: map<Pos, char>, text: seq<string>, x: int, y: int)
    requires WellFormed(text)
  {
    (forall p :: p in m <==> InMap(text, p) && ParsedBefore(p, x, y) && IsTerrainChar(CharAt(text, p.x, p.y))) &&
    (forall p :: p in m ==> InMap(text, p) && m[p] == CharAt(text, p.x, p.y))
  }

  /** The start positions are the 'R' cells parsed before (x, y), in parse order. */
  ghost predicate AgentsParsed(s: seq<Pos>, text: seq<string>, x: int, y: int)
    requires WellFormed(text)
  {
    (forall p :: p in s <==> InMap(text, p) && ParsedBefore(p, x, y) && CharAt(text, p.x, p.y) == 'R') &&
    ParseOrdered(s)
  }

  lemma GridStep(c: Cells, text: seq<string>, ch: char, x: int, y: int)
    requires WellFormed(text) && GridParsed(c, text, ch, x, y)
    requires 0 <= x < |text[0]| && 0 <= y < |text|
    ensures GridParsed(if CharAt(text, x, y) == ch then Updated(c, Pos(x, y), true) else c, text, ch, x + 1, y)
  {
  }

  lemma TerrainStep(m: map<Pos, char>, text: seq<string>, x: int, y: int)
    requires WellFormed(text) && TerrainParsed(m, text, x, y)
    requires 0 <= x < |text[0]| && 0 <= y < |text|
    ensures var ch := CharAt(text, x, y);
            TerrainParsed(if IsTerrainChar(ch) then m[Pos(x, y) := ch] else m, text, x + 1, y)
  {
  }

  lemma AgentsStep(s: seq<Pos>, text: seq<string>, x: int, y: int)
    requires WellFormed(text) && AgentsParsed(s, text, x, y)
    requires 0 <= x < |text[0]| && 0 <= y < |text|
    ensures AgentsParsed(s + (if CharAt(text, x, y) == 'R' then [Pos(x, y)] else []), text, x + 1, y)
  {
    forall i | 0 <= i < |s| ensures ParsedBefore(s[i], x, y) {
      assert s[i] in s;
    }
  }

  lemma GridDone(c: Cells, text: seq<string>, ch: char)
    requires WellFormed(text) && GridParsed(c, text, ch, 0, |text|)
    ensures c == CellsOf(text, ch)
  {
    var e := CellsOf(text, ch);
    forall a | 0 <= a < |text[0]| ensures c[a] == e[a] {
      forall b | 0 <= b < |text| ensures c[a][b] == e[a][b] {
      }
    }
  }

  /** Having parsed a whole row is having parsed up to the start of the next. */
  lemma RowDone(text: seq<string>, y: int, walls: Cells, survivors: Cells, m: map<Pos, char>, s: seq<Pos>)
    requires WellFormed(text)
    requires GridParsed(walls, text, '%', |text[0]|, y) && GridParsed(survivors, text, 'S', |text[0]|, y)
    requires TerrainParsed(m, text, |text[0]|, y) && AgentsParsed(s, text, |text[0]|, y)
    ensures GridParsed(walls, text, '%', 0, y + 1) && GridParsed(survivors, text, 'S', 0, y + 1)
    ensures TerrainParsed(m, text, 0, y + 1) && AgentsParsed(s, text, 0, y + 1)
  {
  }

  class RescueLayout {
    const width: nat
    const height: nat
    const walls: Grid
    const survivors: Grid
    const layoutText: seq<string>
    var agentPositions: seq<Pos>
    var terrain: map<Pos, char>
    var totalSurvivors: nat

    ghost predicate Valid()
      reads this, walls, walls.data, survivors, survivors.data
    {
      walls.Valid() && survivors.Valid() && walls.data != survivors.data &&
      walls.width == width && walls.height == height &&
      survivors.width == width && survivors.height == height
    }

    /** The grids, the terrain dictionary and the start positions are what the text says. */
    ghost predicate Processed()
      reads this, walls, walls.data, survivors, survivors.data
    {
      WellFormed(layoutText) && width == |layoutText[0]| && height == |layoutText| &&
      walls.Cells() == CellsOf(layoutText, '%') &&
      survivors.Cells() == CellsOf(layoutText, 'S') &&
      (forall p :: p in terrain <==> InMap(layoutText, p) && IsTerrainChar(CharAt(layoutText, p.x, p.y))) &&
      (forall p :: p in terrain ==> InMap(layoutText, p) && terrain[p] == CharAt(layoutText, p.x, p.y)) &&
      (forall p :: p in agentPositions <==> InMap(layoutText, p) && CharAt(layoutText, p.x, p.y) == 'R') &&
      StrictlySorted(agentPositions)
    }

    /** Processed, and totalSurvivors is the number of 'S' characters. */
    ghost predicate Parsed()
      reads this, walls, walls.data, survivors, survivors.data
    {
      Processed() && totalSurvivors == |CellSet(CellsOf(layoutText, 'S'), true)|
    }

    /** RescueLayout(layoutText). */
    constructor (layoutText: seq<string>)
      requires WellFormed(layoutText)
      ensures Valid() && Parsed() && this.layoutText == layoutText
      ensures width == |layoutText[0]| && height == |layoutText|
      ensures fresh(walls) && fresh(walls.data) && fresh(survivors) && fresh(survivors.data)
    {
      width := |layoutText[0]|;
      height := |layoutText|;
      walls := new Grid(|layoutText[0]|, |layoutText|, false);
      survivors := new Grid(|layoutText[0]|, |layoutText|, false);
      agentPositions := [];
      terrain := map[];
      this.layoutText := layoutText;
      totalSurvivors := 0;
      new;
      ProcessLayoutText(layoutText);
      var list := survivors.AsList(true);
      totalSurvivors := |list|;
    }

    /** RescueLayout.isWall((x, y)). */
    function IsWall(pos: Pos): (b: bool)
      reads this, walls, walls.data, survivors, survivors.data
      requires Valid() && 0 <= pos.x < width && 0 <= pos.y < height
      ensures Processed() ==> (b <==> CharAt(layoutText, pos.x, pos.y) == '%')
    {
      walls.Get(pos.x, pos.y)
    }

    /** RescueLayout.getTerrain(x, y). */
    function GetTerrain(x: int, y: int): (c: char)
      reads this, walls, walls.data, survivors, survivors.data
      ensures Pos(x, y) !in terrain ==> c == '.'
      ensures Processed() && InMap(layoutText, Pos(x, y)) && IsTerrainChar(CharAt(layoutText, x, y)) ==>
                c == CharAt(layoutText, x, y)
      ensures Processed() && InMap(layoutText, Pos(x, y)) && !IsTerrainChar(CharAt(layoutText, x, y)) ==>
                c == '.'
    {
      TerrainAt(terrain, Pos(x, y))
    }

    /** RescueLayout.getTerrainCost(x, y): the cost of the character the text has at (x, y). */
    function GetTerrainCost(x: int, y: int): (n: nat)
      reads this, walls, walls.data, survivors, survivors.data
      ensures Processed() && InMap(layoutText, Pos(x, y)) ==> n == TerrainCost(CharAt(layoutText, x, y))
      ensures Processed() && !InMap(layoutText, Pos(x, y)) ==> n == 1
    {
      TerrainCostAt(terrain, Pos(x, y))
    }

    /**
     * processLayoutText: every cell's character, row y = 0 first, then the
     * start positions are sorted.
     */
    method ProcessLayoutText(text: seq<string>)
      requires Valid() && WellFormed(text) && text == layoutText
      requires width == |text[0]| && height == |text|
      requires walls.Cells() == Filled(width, height, false)
      requires survivors.Cells() == Filled(width, height, false)
      requires agentPositions == [] && terrain == map[]
      modifies this, walls.data, survivors.data
      ensures Valid() && Processed() && totalSurvivors == old(totalSurvivors)
    {
      for y := 0 to height
        invariant Valid()
        invariant GridParsed(walls.Cells(), text, '%', 0, y) && GridParsed(survivors.Cells(), text, 'S', 0, y)
        invariant TerrainParsed(terrain, text, 0, y) && AgentsParsed(agentPositions, text, 0, y)
        invariant totalSurvivors == old(totalSurvivors)
      {
        ProcessRow(text, y);
      }
      ParsedOrderIsDistinct(agentPositions);
      var sorted := SortPositions(agentPositions);
      DistinctMultiset(agentPositions);
      DistinctMultiset(sorted);
      assert forall p :: p in sorted <==> p in agentPositions by {
        forall p ensures p in sorted <==> p in agentPositions {
          assert p in sorted <==> p in multiset(sorted);
        }
      }
      agentPositions := sorted;
      GridDone(walls.Cells(), text, '%');
      GridDone(survivors.Cells(), text, 'S');
    }

    /** One pass of processLayoutText's inner loop: the characters of row y (counted from the bottom), left to right. */
    method ProcessRow(text: seq<string>, y: nat)
      requires Valid() && WellFormed(text) && width == |text[0]| && height == |text| && y < height
      requires GridParsed(walls.Cells(), text, '%', 0, y) && GridParsed(survivors.Cells(), text, 'S', 0, y)
      requires TerrainParsed(terrain, text, 0, y) && AgentsParsed(agentPositions, text, 0, y)
      modifies this, walls.data, survivors.data
      ensures Valid() && totalSurvivors == old(totalSurvivors)
      ensures GridParsed(walls.Cells(), text, '%', 0, y + 1) && GridParsed(survivors.Cells(), text, 'S', 0, y + 1)
      ensures TerrainParsed(terrain, text, 0, y + 1) && AgentsParsed(agentPositions, text, 0, y + 1)
    {
      var maxY := height - 1;
      for x := 0 to width
        invariant Valid()
        invariant GridParsed(walls.Cells(), text, '%', x, y) && GridParsed(survivors.Cells(), text, 'S', x, y)
        invariant TerrainParsed(terrain, text, x, y) && AgentsParsed(agentPositions, text, x, y)
        invariant totalSurvivors == old(totalSurvivors)
      {
        var layoutChar := text[maxY - y][x];
        assert layoutChar == CharAt(text, x, y);
        GridStep(walls.Cells(), text, '%', x, y);
        GridStep(survivors.Cells(), text, 'S', x, y);
        TerrainStep(terrain, text, x, y);
        AgentsStep(agentPositions, text, x, y);
        ProcessLayoutChar(x, y, layoutChar);
      }
      RowDone(text, y, walls.Cells(), survivors.Cells(), terrain, agentPositions);
    }

    /** processLayoutChar(x, y, layoutChar): at most one of the four effects, by character. */
    method ProcessLayoutChar(x: int, y: int, layoutChar: char)
      requires Valid() && 0 <= x < width && 0 <= y < height
      modifies this, walls.data, survivors.data
      ensures Valid() && totalSurvivors == old(totalSurvivors)
      ensures walls.Cells() ==
                if layoutChar == '%' then Updated(old(walls.Cells()), Pos(x, y), true) else old(walls.Cells())
      ensures survivors.Cells() ==
                if layoutChar == 'S' then Updated(old(survivors.Cells()), Pos(x, y), true) else old(survivors.Cells())
      ensures agentPositions == old(agentPositions) + (if layoutChar == 'R' then [Pos(x, y)] else [])
      ensures terrain == if IsTerrainChar(layoutChar) then old(terrain)[Pos(x, y) := layoutChar] else old(terrain)
    {
      if layoutChar == '%' {
        walls.Set(x, y, true);
      } else if layoutChar == 'S' {
        survivors.Set(x, y, true);
      } else if layoutChar == 'R' {
        agentPositions := agentPositions + [Pos(x, y)];
      } else if layoutChar == '~' || layoutChar == '^' || layoutChar == '*' {
        terrain := terrain[Pos(x, y) := layoutChar];
      }
    }
  }

  lemma ParsedOrderIsDistinct(s: seq<Pos>)
    requires ParseOrdered(s)
    ensures Distinct(s)
  {
  }

  /** A start position is never a wall and never a survivor: each cell has one character. */
  lemma StartIsOpen(layout: RescueLayout, p: Pos)
    requires layout.Processed() && p in layout.agentPositions
    ensures InBox(layout.walls.Cells(), p) && !At(layout.walls.Cells(), p)
    ensures !At(layout.survivors.Cells(), p)
    ensures p !in layout.terrain
  {
  }
}
