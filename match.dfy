/**
 * The match logic both GameManager scripts share (Assets/Scripts/Interface/GameManager.cs
 * and its older copy Assets/Scripts/GameManager.cs): finding the playable rectangle from
 * the margin tiles, filling its interior with destructible tiles, the corner spawn
 * zones, the countdown and the announcer's key moments, and the pass over the roster
 * that drops eliminated participants.
 */
module Match {
  import opened Common
  import opened Grid
  import opened Vectors
  import opened Units
  import opened Movement

  // ---------------------------------------------------------------------------
  // The playable rectangle
  // ---------------------------------------------------------------------------

  /** The rectangle as the min and max getters of a BoundsInt read it back. */
  datatype Area = Area(min: Cell, max: Cell)

  /** The two corner tests of the scan. */
  datatype Corner = MinCorner | MaxCorner

  /**
   * A margin cell is the rectangle's min when no margin lies to its left or above it,
   * and its max when no margin lies to its right or below it.
   */
  predicate Qualifies(tiles: Tiles, q: Corner, c: Cell) {
    TileAt(tiles, c) == Margin &&
    match q
    case MinCorner => TileAt(tiles, Offset(c, -1, 0)) != Margin && TileAt(tiles, Offset(c, 0, 1)) != Margin
    case MaxCorner => TileAt(tiles, Offset(c, 1, 0)) != Margin && TileAt(tiles, Offset(c, 0, -1)) != Margin
  }

  /** The scan visits columns left to right and each column bottom to top: d comes after c. */
  predicate Later(d: Cell, c: Cell) {
    d.0 > c.0 || (d.0 == c.0 && d.1 > c.1)
  }

  /** The value after scanning cells (x, y0) .. (x, j - 1), starting from acc: the last one that qualifies. */
  function ColumnLast(tiles: Tiles, q: Corner, x: int, y0: int, j: int, acc: Cell): Cell
    decreases j - y0
  {
    if j <= y0 then acc
    else
      var a := ColumnLast(tiles, q, x, y0, j - 1, acc);
      if Qualifies(tiles, q, (x, j - 1)) then (x, j - 1) else a
  }

  /** The value after scanning columns x0 .. i - 1, each from y0 to y1 inclusive. */
  function ScanLast(tiles: Tiles, q: Corner, x0: int, i: int, y0: int, y1: int, acc: Cell): Cell
    decreases i - x0
  {
    if i <= x0 then acc
    else ColumnLast(tiles, q, i - 1, y0, y1 + 1, ScanLast(tiles, q, x0, i - 1, y0, y1, acc))
  }

  predicate InRect(c: Cell, x0: int, x1: int, y0: int, y1: int) {
    x0 <= c.0 <= x1 && y0 <= c.1 <= y1
  }

  /**
   * What a column scan leaves: the start value when no cell of the column qualifies,
   * otherwise the qualifying cell that comes last.
   */
  lemma {:induction false} ColumnLastIsLast(tiles: Tiles, q: Corner, x: int, y0: int, j: int, acc: Cell)
    ensures var r := ColumnLast(tiles, q, x, y0, j, acc);
      (r == acc && forall y :: y0 <= y < j ==> !Qualifies(tiles, q, (x, y))) ||
      (Qualifies(tiles, q, r) && r.0 == x && y0 <= r.1 < j &&
       forall y :: r.1 < y < j ==> !Qualifies(tiles, q, (x, y)))
    decreases j - y0
  {
    if j > y0 {
      ColumnLastIsLast(tiles, q, x, y0, j - 1, acc);
    }
  }

  /**
   * LoadMultiplayerMap's rectangle scan keeps the last qualifying cell in scan order:
   * the result is either the start value, when no cell of the scanned block qualifies,
   * or a qualifying cell of the block after which no qualifying cell is scanned.
   */
  lemma {:induction false} ScanLastIsLast(tiles: Tiles, q: Corner, x0: int, i: int, y0: int, y1: int, acc: Cell)
    ensures var r := ScanLast(tiles, q, x0, i, y0, y1, acc);
      (r == acc && forall c :: InRect(c, x0, i - 1, y0, y1) ==> !Qualifies(tiles, q, c)) ||
      (Qualifies(tiles, q, r) && InRect(r, x0, i - 1, y0, y1) &&
       forall c :: InRect(c, x0, i - 1, y0, y1) && Later(c, r) ==> !Qualifies(tiles, q, c))
    decreases i - x0
  {
    if i > x0 {
      var prev := ScanLast(tiles, q, x0, i - 1, y0, y1, acc);
      ScanLastIsLast(tiles, q, x0, i - 1, y0, y1, acc);
      ColumnLastIsLast(tiles, q, i - 1, y0, y1 + 1, prev);
    }
  }

  // ---------------------------------------------------------------------------
  // BoundsInt
  // ---------------------------------------------------------------------------

  /**
   * UnityEngine.BoundsInt in the plane of the tilemap: a position and a size, and the
   * size may be negative on either axis. playableArea starts as the default value.
   */
  datatype Bounds = Bounds(position: Cell, size: Cell)

  const DefaultBounds: Bounds := Bounds((0, 0), (0, 0))

  function Min(a: int, b: int): int { if a <= b then a else b }

  function Max(a: int, b: int): int { if a <= b then b else a }

  /** position + size, the corner the max setter moves. */
  function End(b: Bounds): Cell {
    (b.position.0 + b.size.0, b.position.1 + b.size.1)
  }

  /** The min getter: per axis, the smaller of position and position + size. */
  function BoundsMin(b: Bounds): Cell {
    (Min(b.position.0, End(b).0), Min(b.position.1, End(b).1))
  }

  /** The max getter: per axis, the larger of position and position + size. */
  function BoundsMax(b: Bounds): Cell {
    (Max(b.position.0, End(b).0), Max(b.position.1, End(b).1))
  }

  /** What the getters read back. Whatever the signs of the size, it is an ordered rectangle. */
  function AreaOf(b: Bounds): (r: Area)
    ensures r.min.0 <= r.max.0 && r.min.1 <= r.max.1
    ensures b.size.0 >= 0 && b.size.1 >= 0 ==> r == Area(b.position, End(b))
  {
    Area(BoundsMin(b), BoundsMax(b))
  }

  /**
   * The min setter. Per axis it keeps the old max, moves the position to the new value
   * and sets the size to the old max less the new value, so the getters read back the
   * new value and the old max, the smaller one as the min.
   */
  function SetMin(b: Bounds, v: Cell): (r: Bounds)
    ensures r.position == v && End(r) == BoundsMax(b)
    ensures BoundsMin(r) == (Min(v.0, BoundsMax(b).0), Min(v.1, BoundsMax(b).1))
    ensures BoundsMax(r) == (Max(v.0, BoundsMax(b).0), Max(v.1, BoundsMax(b).1))
  {
    var top := BoundsMax(b);
    Bounds(v, (top.0 - v.0, top.1 - v.1))
  }

  /**
   * The max setter. Per axis it keeps the position and sets the size to the new value
   * less the position, so the getters read back the position and the new value in order.
   */
  function SetMax(b: Bounds, v: Cell): (r: Bounds)
    ensures r.position == b.position && End(r) == v
    ensures BoundsMin(r) == (Min(b.position.0, v.0), Min(b.position.1, v.1))
    ensures BoundsMax(r) == (Max(b.position.0, v.0), Max(b.position.1, v.1))
  {
    Bounds(b.position, (v.0 - b.position.0, v.1 - b.position.1))
  }

  /** One cell of the scan: the min setter when the min test passes, then the max setter when the max test passes. */
  function Visit(tiles: Tiles, b: Bounds, c: Cell): Bounds {
    var b1 := if Qualifies(tiles, MinCorner, c) then SetMin(b, c) else b;
    if Qualifies(tiles, MaxCorner, c) then SetMax(b1, c) else b1
  }

  /** playableArea after visiting cells (x, y0) .. (x, j - 1), starting from b. */
  function ColumnScan(tiles: Tiles, x: int, y0: int, j: int, b: Bounds): Bounds
    decreases j - y0
  {
    if j <= y0 then b else Visit(tiles, ColumnScan(tiles, x, y0, j - 1, b), (x, j - 1))
  }

  /** playableArea after visiting columns x0 .. i - 1, each from y0 to y1 inclusive. */
  function BlockScan(tiles: Tiles, x0: int, i: int, y0: int, y1: int, b: Bounds): Bounds
    decreases i - x0
  {
    if i <= x0 then b else ColumnScan(tiles, i - 1, y0, y1 + 1, BlockScan(tiles, x0, i - 1, y0, y1, b))
  }

  lemma {:induction false} ColumnScanPosition(tiles: Tiles, x: int, y0: int, j: int, b: Bounds)
    ensures ColumnScan(tiles, x, y0, j, b).position == ColumnLast(tiles, MinCorner, x, y0, j, b.position)
    decreases j - y0
  {
    if j > y0 {
      ColumnScanPosition(tiles, x, y0, j - 1, b);
    }
  }

  /**
   * Only the min setter moves the position, so after the scan the position is the last
   * cell that passed the min test, or the old position when none did.
   */
  lemma {:induction false} BlockScanPosition(tiles: Tiles, x0: int, i: int, y0: int, y1: int, b: Bounds)
    ensures BlockScan(tiles, x0, i, y0, y1, b).position == ScanLast(tiles, MinCorner, x0, i, y0, y1, b.position)
    decreases i - x0
  {
    if i > x0 {
      var prev := BlockScan(tiles, x0, i - 1, y0, y1, b);
      BlockScanPosition(tiles, x0, i - 1, y0, y1, b);
      ColumnScanPosition(tiles, i - 1, y0, y1 + 1, prev);
    }
  }

  lemma {:induction false} ColumnScanKeeps(tiles: Tiles, x: int, y0: int, j: int, b: Bounds)
    requires forall c :: InRect(c, x, x, y0, j - 1) ==> !Qualifies(tiles, MinCorner, c) && !Qualifies(tiles, MaxCorner, c)
    ensures ColumnScan(tiles, x, y0, j, b) == b
    decreases j - y0
  {
    if j > y0 {
      ColumnScanKeeps(tiles, x, y0, j - 1, b);
      assert InRect((x, j - 1), x, x, y0, j - 1);
    }
  }

  /** A block in which no cell passes either test leaves playableArea as it was. */
  lemma {:induction false} BlockScanKeeps(tiles: Tiles, x0: int, i: int, y0: int, y1: int, b: Bounds)
    requires forall c :: InRect(c, x0, i - 1, y0, y1) ==> !Qualifies(tiles, MinCorner, c) && !Qualifies(tiles, MaxCorner, c)
    ensures BlockScan(tiles, x0, i, y0, y1, b) == b
    decreases i - x0
  {
    if i > x0 {
      BlockScanKeeps(tiles, x0, i - 1, y0, y1, b);
      ColumnScanKeeps(tiles, i - 1, y0, y1 + 1, BlockScan(tiles, x0, i - 1, y0, y1, b));
    }
  }

  /**
   * In the block (x0, y0)..(x1, y1), m is the one cell that passes the min test and M the
   * one that passes the max test, and the scan does not visit M before m.
   */
  ghost predicate OnlyCorners(tiles: Tiles, m: Cell, M: Cell, x0: int, x1: int, y0: int, y1: int) {
    InRect(m, x0, x1, y0, y1) && InRect(M, x0, x1, y0, y1) &&
    Qualifies(tiles, MinCorner, m) && Qualifies(tiles, MaxCorner, M) && !Later(m, M) &&
    forall c :: InRect(c, x0, x1, y0, y1) ==>
      (Qualifies(tiles, MinCorner, c) ==> c == m) && (Qualifies(tiles, MaxCorner, c) ==> c == M)
  }

  /** playableArea once the cells before column i, row j are visited, when only m and M pass a test. */
  function TwoCornerState(start: Bounds, m: Cell, M: Cell, i: int, j: int): Bounds {
    var b := if Visited(m, i, j) then SetMin(start, m) else start;
    if Visited(M, i, j) then SetMax(b, M) else b
  }

  lemma {:induction false} ColumnScanTwoCorners(tiles: Tiles, m: Cell, M: Cell, x0: int, x1: int, y0: int, y1: int,
                                                x: int, j: int, start: Bounds)
    requires OnlyCorners(tiles, m, M, x0, x1, y0, y1)
    requires x0 <= x <= x1 && y0 <= j <= y1 + 1
    ensures ColumnScan(tiles, x, y0, j, TwoCornerState(start, m, M, x, y0)) == TwoCornerState(start, m, M, x, j)
    decreases j - y0
  {
    if j > y0 {
      ColumnScanTwoCorners(tiles, m, M, x0, x1, y0, y1, x, j - 1, start);
      assert InRect((x, j - 1), x0, x1, y0, y1);
    }
  }

  lemma {:induction false} BlockScanTwoCorners(tiles: Tiles, m: Cell, M: Cell, x0: int, x1: int, y0: int, y1: int,
                                               i: int, start: Bounds)
    requires OnlyCorners(tiles, m, M, x0, x1, y0, y1)
    requires x0 <= i <= x1 + 1
    ensures BlockScan(tiles, x0, i, y0, y1, start) == TwoCornerState(start, m, M, i, y0)
    decreases i - x0
  {
    if i > x0 {
      BlockScanTwoCorners(tiles, m, M, x0, x1, y0, y1, i - 1, start);
      ColumnScanTwoCorners(tiles, m, M, x0, x1, y0, y1, i - 1, y1 + 1, start);
      assert TwoCornerState(start, m, M, i - 1, y1 + 1) == TwoCornerState(start, m, M, i, y0);
    }
  }

  /**
   * When one cell m passes the min test and one cell M the max test, playableArea reads
   * back the rectangle the two span, whatever it was before the scan: the min setter
   * puts the position at m and the max setter the far corner at M, and the getters order
   * each axis.
   */
  lemma TwoCornerArea(tiles: Tiles, m: Cell, M: Cell, lo: Cell, hi: Cell, start: Bounds)
    requires OnlyCorners(tiles, m, M, lo.0, hi.0, lo.1, hi.1)
    ensures AreaOf(BlockScan(tiles, lo.0, hi.0 + 1, lo.1, hi.1, start)) ==
      Area((Min(m.0, M.0), Min(m.1, M.1)), (Max(m.0, M.0), Max(m.1, M.1)))
  {
    BlockScanTwoCorners(tiles, m, M, lo.0, hi.0, lo.1, hi.1, hi.0 + 1, start);
  }

  /** On the border of the rectangle (x0, y0)..(x1, y1). */
  predicate OnFrame(c: Cell, x0: int, y0: int, x1: int, y1: int) {
    InRect(c, x0, x1, y0, y1) && (c.0 == x0 || c.0 == x1 || c.1 == y0 || c.1 == y1)
  }

  /** The margin tiles form exactly the border of a rectangle at least two cells across each way. */
  ghost predicate MarginFrame(tiles: Tiles, x0: int, y0: int, x1: int, y1: int) {
    x0 < x1 && y0 < y1 && forall c :: TileAt(tiles, c) == Margin <==> OnFrame(c, x0, y0, x1, y1)
  }

  /**
   * On a margin frame, the top left corner is the one cell that passes the min test and
   * the bottom right corner the one that passes the max test: the cells the scan assigns
   * to min and max are crossed on the y axis.
   */
  lemma FrameCorners(tiles: Tiles, x0: int, y0: int, x1: int, y1: int, lo: Cell, hi: Cell)
    requires MarginFrame(tiles, x0, y0, x1, y1)
    requires lo.0 <= x0 && x1 <= hi.0 && lo.1 <= y0 && y1 <= hi.1
    ensures OnlyCorners(tiles, (x0, y1), (x1, y0), lo.0, hi.0, lo.1, hi.1)
    ensures ScanLast(tiles, MinCorner, lo.0, hi.0 + 1, lo.1, hi.1, (0, 0)) == (x0, y1)
    ensures ScanLast(tiles, MaxCorner, lo.0, hi.0 + 1, lo.1, hi.1, (0, 0)) == (x1, y0)
  {
    forall c | InRect(c, lo.0, hi.0, lo.1, hi.1)
      ensures Qualifies(tiles, MinCorner, c) ==> c == (x0, y1)
      ensures Qualifies(tiles, MaxCorner, c) ==> c == (x1, y0)
    {
      assert TileAt(tiles, c) == Margin <==> OnFrame(c, x0, y0, x1, y1);
      assert TileAt(tiles, Offset(c, -1, 0)) == Margin <==> OnFrame(Offset(c, -1, 0), x0, y0, x1, y1);
      assert TileAt(tiles, Offset(c, 1, 0)) == Margin <==> OnFrame(Offset(c, 1, 0), x0, y0, x1, y1);
      assert TileAt(tiles, Offset(c, 0, 1)) == Margin <==> OnFrame(Offset(c, 0, 1), x0, y0, x1, y1);
      assert TileAt(tiles, Offset(c, 0, -1)) == Margin <==> OnFrame(Offset(c, 0, -1), x0, y0, x1, y1);
    }
    assert TileAt(tiles, (x0, y1)) == Margin && TileAt(tiles, (x1, y0)) == Margin;
    assert TileAt(tiles, Offset((x0, y1), -1, 0)) != Margin && TileAt(tiles, Offset((x0, y1), 0, 1)) != Margin;
    assert TileAt(tiles, Offset((x1, y0), 1, 0)) != Margin && TileAt(tiles, Offset((x1, y0), 0, -1)) != Margin;
    ScanLastIsLast(tiles, MinCorner, lo.0, hi.0 + 1, lo.1, hi.1, (0, 0));
    ScanLastIsLast(tiles, MaxCorner, lo.0, hi.0 + 1, lo.1, hi.1, (0, 0));
  }

  /** On a margin frame inside the tilemap's bounds, playableArea reads back the frame's rectangle. */
  lemma FrameArea(tiles: Tiles, x0: int, y0: int, x1: int, y1: int, lo: Cell, hi: Cell, start: Bounds)
    requires MarginFrame(tiles, x0, y0, x1, y1)
    requires lo.0 <= x0 && x1 <= hi.0 && lo.1 <= y0 && y1 <= hi.1
    ensures AreaOf(BlockScan(tiles, lo.0, hi.0 + 1, lo.1, hi.1, start)) == Area((x0, y0), (x1, y1))
  {
    FrameCorners(tiles, x0, y0, x1, y1, lo, hi);
    TwoCornerArea(tiles, (x0, y1), (x1, y0), lo, hi, start);
  }

  /**
   * The scan of LoadMultiplayerMap over the tilemap's cell bounds, both ends included,
   * through the BoundsInt min and max setters.
   */
  method FindPlayableArea(tiles: Tiles, lo: Cell, hi: Cell, start: Bounds) returns (bounds: Bounds)
    ensures bounds == BlockScan(tiles, lo.0, hi.0 + 1, lo.1, hi.1, start)
    ensures bounds.position == ScanLast(tiles, MinCorner, lo.0, hi.0 + 1, lo.1, hi.1, start.position)
  {
    BlockScanPosition(tiles, lo.0, hi.0 + 1, lo.1, hi.1, start);
    bounds := start;
    var i := lo.0;
    if hi.0 < lo.0 {
      return;
    }
    while i <= hi.0
      invariant lo.0 <= i <= hi.0 + 1
      invariant bounds == BlockScan(tiles, lo.0, i, lo.1, hi.1, start)
    {
      ghost var before := bounds;
      var j := lo.1;
      while j <= hi.1
        invariant lo.1 <= j && (j <= hi.1 + 1 || j == lo.1)
        invariant bounds == ColumnScan(tiles, i, lo.1, j, before)
      {
        var c := (i, j);
        if TileAt(tiles, c) == Margin {
          if TileAt(tiles, Offset(c, -1, 0)) != Margin && TileAt(tiles, Offset(c, 0, 1)) != Margin {
            bounds := SetMin(bounds, c);
          }
          if TileAt(tiles, Offset(c, 1, 0)) != Margin && TileAt(tiles, Offset(c, 0, -1)) != Margin {
            bounds := SetMax(bounds, c);
          }
        }
        j := j + 1;
      }
      i := i + 1;
    }
  }

  /**
   * On a margin frame at least three cells across each way, every cell of every spawn
   * zone of the scanned playableArea lies strictly inside it.
   */
  lemma FrameZonesInside(tiles: Tiles, x0: int, y0: int, x1: int, y1: int, lo: Cell, hi: Cell, start: Bounds, k: nat, j: nat)
    requires MarginFrame(tiles, x0, y0, x1, y1) && x1 - x0 >= 3 && y1 - y0 >= 3
    requires lo.0 <= x0 && x1 <= hi.0 && lo.1 <= y0 && y1 <= hi.1
    requires k < 4 && j < 3
    ensures var area := AreaOf(BlockScan(tiles, lo.0, hi.0 + 1, lo.1, hi.1, start));
      Interior(area, SpawnZone(area, k)[j])
  {
    FrameArea(tiles, x0, y0, x1, y1, lo, hi, start);
    ZonesInside(AreaOf(BlockScan(tiles, lo.0, hi.0 + 1, lo.1, hi.1, start)), k, j);
  }

  /** On a margin frame at least five cells across each way, the scanned area's zones are pairwise apart. */
  lemma FrameZonesApart(tiles: Tiles, x0: int, y0: int, x1: int, y1: int, lo: Cell, hi: Cell, start: Bounds,
                        k1: nat, j1: nat, k2: nat, j2: nat)
    requires MarginFrame(tiles, x0, y0, x1, y1) && x1 - x0 >= 5 && y1 - y0 >= 5
    requires lo.0 <= x0 && x1 <= hi.0 && lo.1 <= y0 && y1 <= hi.1
    requires k1 < 4 && k2 < 4 && j1 < 3 && j2 < 3 && k1 != k2
    ensures var area := AreaOf(BlockScan(tiles, lo.0, hi.0 + 1, lo.1, hi.1, start));
      SpawnZone(area, k1)[j1] != SpawnZone(area, k2)[j2]
  {
    FrameArea(tiles, x0, y0, x1, y1, lo, hi, start);
    ZonesApart(AreaOf(BlockScan(tiles, lo.0, hi.0 + 1, lo.1, hi.1, start)), k1, j1, k2, j2);
  }

  // ---------------------------------------------------------------------------
  // Random fill
  // ---------------------------------------------------------------------------

  /** The chance test of the fill: Random.Range(0, 100) <= 80. */
  const FillChance: int := 80

  /** Strictly inside the rectangle. */
  predicate Interior(area: Area, c: Cell) {
    area.min.0 < c.0 < area.max.0 && area.min.1 < c.1 < area.max.1
  }

  /** The tile a cell holds after the fill, given the roll drawn for it. */
  function FillTile(tiles: Tiles, area: Area, roll: Cell -> int, c: Cell): Tile {
    if Interior(area, c) && TileAt(tiles, c) == Empty && roll(c) <= FillChance then Destructible else TileAt(tiles, c)
  }

  /** The scan order of the fill: c is visited before column i has reached row j. */
  predicate Visited(c: Cell, i: int, j: int) {
    c.0 < i || (c.0 == i && c.1 < j)
  }

  /** The tiles while the fill is at column i, row j: visited cells filled, the rest as they were. */
  ghost predicate FilledUpTo(tiles: Tiles, orig: Tiles, area: Area, roll: Cell -> int, i: int, j: int) {
    forall c :: TileAt(tiles, c) == (if Visited(c, i, j) then FillTile(orig, area, roll, c) else TileAt(orig, c))
  }

  /**
   * The fill of LoadMultiplayerMap: every empty cell strictly inside the rectangle whose
   * roll passes becomes destructible; nothing else changes.
   */
  method FillInterior(tilemap: Tilemap, area: Area, roll: Cell -> int)
    modifies tilemap
    ensures forall c :: TileAt(tilemap.tiles, c) == FillTile(old(tilemap.tiles), area, roll, c)
    ensures forall c :: TileAt(tilemap.tiles, c) != TileAt(old(tilemap.tiles), c) ==>
      Interior(area, c) && TileAt(old(tilemap.tiles), c) == Empty && TileAt(tilemap.tiles, c) == Destructible
  {
    ghost var orig := tilemap.tiles;
    var i := area.min.0 + 1;
    while i < area.max.0
      invariant FilledUpTo(tilemap.tiles, orig, area, roll, i, area.min.1 + 1)
    {
      var j := area.min.1 + 1;
      while j < area.max.1
        invariant j >= area.min.1 + 1
        invariant FilledUpTo(tilemap.tiles, orig, area, roll, i, j)
      {
        var c := (i, j);
        if tilemap.GetTile(c) == Empty && roll(c) <= FillChance {
          tilemap.SetTile(c, Destructible);
        }
        j := j + 1;
      }
      i := i + 1;
    }
  }

  // ---------------------------------------------------------------------------
  // Spawn zones
  // ---------------------------------------------------------------------------

  /**
   * The three cells cleared for participant k: the cell diagonally inside its corner,
   * then its neighbour towards the middle along x, then along y. Participants 0 to 3
   * take the top left, bottom right, top right and bottom left corners.
   */
  function SpawnZone(area: Area, k: nat): (z: seq<Cell>)
    requires k < 4
    ensures |z| == 3
  {
    var lo, hi := area.min, area.max;
    match k
    case 0 => [(lo.0 + 1, hi.1 - 1), (lo.0 + 2, hi.1 - 1), (lo.0 + 1, hi.1 - 2)]
    case 1 => [(hi.0 - 1, lo.1 + 1), (hi.0 - 2, lo.1 + 1), (hi.0 - 1, lo.1 + 2)]
    case 2 => [(hi.0 - 1, hi.1 - 1), (hi.0 - 2, hi.1 - 1), (hi.0 - 1, hi.1 - 2)]
    case 3 => [(lo.0 + 1, lo.1 + 1), (lo.0 + 2, lo.1 + 1), (lo.0 + 1, lo.1 + 2)]
  }

  /** spawnPointZones, the 4 x 3 table. */
  function SpawnZones(area: Area): (zs: seq<seq<Cell>>)
    ensures |zs| == 4 && forall k :: 0 <= k < 4 ==> zs[k] == SpawnZone(area, k)
  {
    [SpawnZone(area, 0), SpawnZone(area, 1), SpawnZone(area, 2), SpawnZone(area, 3)]
  }

  /** A 4 x 3 table, as spawnPointZones always is. */
  predicate IsZoneTable(zs: seq<seq<Cell>>) {
    |zs| == 4 && forall k :: 0 <= k < 4 ==> |zs[k]| == 3
  }

  /** On a rectangle at least three cells across each way, every spawn cell lies strictly inside it. */
  lemma ZonesInside(area: Area, k: nat, j: nat)
    requires k < 4 && j < 3
    requires area.max.0 - area.min.0 >= 3 && area.max.1 - area.min.1 >= 3
    ensures Interior(area, SpawnZone(area, k)[j])
  {
  }

  /** From five cells across each way on, no two participants' zones share a cell. */
  lemma ZonesApart(area: Area, k1: nat, j1: nat, k2: nat, j2: nat)
    requires k1 < 4 && k2 < 4 && j1 < 3 && j2 < 3 && k1 != k2
    requires area.max.0 - area.min.0 >= 5 && area.max.1 - area.min.1 >= 5
    ensures SpawnZone(area, k1)[j1] != SpawnZone(area, k2)[j2]
  {
  }

  /** Four cells across, the two top zones overlap: the top left's second cell is the top right's. */
  lemma NarrowZonesOverlap(area: Area)
    requires area.max.0 - area.min.0 == 4
    ensures SpawnZone(area, 0)[1] == SpawnZone(area, 2)[1]
  {
  }

  /** SetTile(cell, null) for each of the cells, in order. */
  function ClearCells(tiles: Tiles, cells: seq<Cell>): Tiles
    decreases |cells|
  {
    if cells == [] then tiles else WithTile(ClearCells(tiles, cells[..|cells| - 1]), cells[|cells| - 1], Empty)
  }

  /** Clearing empties exactly the listed cells. */
  lemma {:induction false} ClearCellsExactly(tiles: Tiles, cells: seq<Cell>, c: Cell)
    ensures TileAt(ClearCells(tiles, cells), c) == if c in cells then Empty else TileAt(tiles, c)
    decreases |cells|
  {
    if cells != [] {
      var init := cells[..|cells| - 1];
      ClearCellsExactly(tiles, init, c);
      assert cells == init + [cells[|cells| - 1]];
    }
  }

  /** The zones cleared one after another, as the admissions of a match do. */
  function ClearZones(tiles: Tiles, zs: seq<seq<Cell>>): Tiles
    decreases |zs|
  {
    if zs == [] then tiles else ClearCells(ClearZones(tiles, zs[..|zs| - 1]), zs[|zs| - 1])
  }

  lemma ClearZonesSnoc(tiles: Tiles, zs: seq<seq<Cell>>, i: nat)
    requires i < |zs|
    ensures ClearZones(tiles, zs[..i + 1]) == ClearCells(ClearZones(tiles, zs[..i]), zs[i])
  {
    assert zs[..i + 1][..i] == zs[..i];
  }

  predicate InSomeZone(zs: seq<seq<Cell>>, c: Cell) {
    exists k :: 0 <= k < |zs| && c in zs[k]
  }

  /** After the admissions, exactly the cells of the zones used are empty; every other cell is as before. */
  lemma {:induction false} ClearZonesExactly(tiles: Tiles, zs: seq<seq<Cell>>, c: Cell)
    ensures TileAt(ClearZones(tiles, zs), c) == if InSomeZone(zs, c) then Empty else TileAt(tiles, c)
    decreases |zs|
  {
    if zs != [] {
      var init := zs[..|zs| - 1];
      ClearZonesExactly(tiles, init, c);
      ClearCellsExactly(ClearZones(tiles, init), zs[|zs| - 1], c);
      if InSomeZone(zs, c) && c !in zs[|zs| - 1] {
        var k :| 0 <= k < |zs| && c in zs[k];
        assert init[k] == zs[k];
      }
      if InSomeZone(init, c) {
        var k :| 0 <= k < |init| && c in init[k];
        assert zs[k] == init[k];
      }
    }
  }

  /** The tiles after the load: the cells of the given zones are empty, and every other cell holds what the fill left. */
  ghost predicate Arranged(tiles: Tiles, orig: Tiles, area: Area, roll: Cell -> int, zs: seq<seq<Cell>>) {
    forall c :: TileAt(tiles, c) == if InSomeZone(zs, c) then Empty else FillTile(orig, area, roll, c)
  }

  /** Clearing zones after the fill leaves the tiles Arranged. */
  lemma ArrangedByClearing(orig: Tiles, filled: Tiles, area: Area, roll: Cell -> int, zs: seq<seq<Cell>>)
    requires forall c :: TileAt(filled, c) == FillTile(orig, area, roll, c)
    ensures Arranged(ClearZones(filled, zs), orig, area, roll, zs)
  {
    forall c
      ensures TileAt(ClearZones(filled, zs), c) == if InSomeZone(zs, c) then Empty else FillTile(orig, area, roll, c)
    {
      ClearZonesExactly(filled, zs, c);
    }
  }

  /** The loop that clears one participant's zone through the tilemap component. */
  method ClearZone(tilemap: Tilemap, zone: seq<Cell>)
    modifies tilemap
    ensures tilemap.tiles == ClearCells(old(tilemap.tiles), zone)
  {
    for j := 0 to |zone|
      invariant tilemap.tiles == ClearCells(old(tilemap.tiles), zone[..j])
    {
      tilemap.SetTile(zone[j], Empty);
      assert zone[..j + 1][..j] == zone[..j];
    }
    assert zone[..|zone|] == zone;
  }

  // ---------------------------------------------------------------------------
  // Participants and the roster pass
  // ---------------------------------------------------------------------------

  /** A participant's game object, with the components GetComponent finds on it. */
  class Participant {
    const stats: Option<UnitStats>
    /** Its ParticipantMovementController, when it has one. */
    const mover: Option<MovementController>
    const hasAnimator: bool
    /** Whether it has a ParticipantActionController component. */
    const hasPlacer: bool
    var name: string
    var tag: string
    /** transform.position */
    var position: Vec
    /** Destroyed, which Unity reports as a null entry of the roster. */
    var destroyed: bool

    constructor (stats: Option<UnitStats>, mover: Option<MovementController>, hasAnimator: bool, hasPlacer: bool,
                 name: string, tag: string, position: Vec)
      ensures this.stats == stats && this.mover == mover && this.hasAnimator == hasAnimator && this.hasPlacer == hasPlacer
      ensures this.name == name && this.tag == tag && this.position == position && !destroyed
    {
      this.stats := stats;
      this.mover := mover;
      this.hasAnimator := hasAnimator;
      this.hasPlacer := hasPlacer;
      this.name := name;
      this.tag := tag;
      this.position := position;
      destroyed := false;
    }
  }

  function Members(s: seq<Participant>): set<Participant> {
    set p | p in s
  }

  /** The stats components of a list of participants. */
  function StatsOf(s: seq<Participant>): set<UnitStats> {
    set p | p in s && p.stats.Some? :: p.stats.value
  }

  /** The participant has a stats component of the participant subclass (TryGetComponent / GetComponent of ParticipantStats). */
  predicate HasParticipantStats(p: Participant) {
    p.stats.Some? && p.stats.value.kind == ParticipantUnit
  }

  function StatsObjects(p: Participant): set<object> {
    if p.stats.Some? then {p.stats.value} else {}
  }

  function MoverObjects(p: Participant): set<object> {
    if p.mover.Some? then {p.mover.value} else {}
  }

  /**
   * The roster test: the entry is null, or its UnitStats says it is dead. An entry
   * without UnitStats would make the script's GetComponent dereference throw. No such
   * entry is ever listed, because both managers list a participant only once its
   * participant stats are found, so the model reads that case as alive.
   */
  predicate Eliminated(p: Participant)
    reads p, if p.stats.Some? then {p.stats.value} else {}
  {
    p.destroyed || (p.stats.Some? && !p.stats.value.isAlive)
  }

  /**
   * List.Remove: the first entry equal to x goes. Unity's equality of two live
   * references compares instance IDs, destroyed or not, so "equal" is "the same object".
   */
  function RemoveFirst(s: seq<Participant>, x: Participant): (r: seq<Participant>)
    ensures x in s ==> |r| == |s| - 1
    ensures x !in s ==> r == s
    ensures forall p :: p in r ==> p in s
  {
    if s == [] then []
    else if s[0] == x then s[1..]
    else [s[0]] + RemoveFirst(s[1..], x)
  }

  /** List.Remove takes out only entries of x itself: every other listed object stays. */
  lemma {:induction false} RemoveFirstDrops(s: seq<Participant>, x: Participant)
    ensures forall p :: p in s && p != x ==> p in RemoveFirst(s, x)
    ensures |RemoveFirst(s, x)| >= |s| - 1
  {
    if s != [] && s[0] != x {
      RemoveFirstDrops(s[1..], x);
    }
  }

  /**
   * How the winner's name is worked out once at most one participant is left, and
   * whether that throws. LegacyWinner: name of entry 0, cut after "Player_".
   * WinnerAsWritten: `?.name ?? "Unknown"` of entry 0, cut after "Participant_". The
   * `?.` operator tests for a null reference only, and a destroyed participant is a
   * reference Unity merely reports as null, so reading its name throws
   * MissingReferenceException; the "Unknown" fallback is reached only by a null
   * reference, and its cut throws as well. WinnerCorrected: entry 0 tested with Unity's
   * `== null`, "Unknown" for a destroyed one, and no cut when the prefix is missing.
   */
  datatype WinnerRule = LegacyWinner | WinnerAsWritten | WinnerCorrected

  const LegacyPrefix: string := "Player_"
  const ParticipantPrefix: string := "Participant_"

  /** `name.Substring(name.IndexOf(prefix) + prefix.Length)`, or None where the start index is past the end. */
  function CutAfter(name: string, prefix: string): Option<string> {
    var start := IndexOf(name, prefix) + |prefix|;
    if start > |name| then None else Some(name[start..])
  }

  /**
   * The newer winner text as the source computes it; None is the exception. first is
   * None for a destroyed entry 0, whose name cannot be read.
   */
  function WinnerTextAsWritten(first: Option<string>): Option<string> {
    if first.None? then None
    else
      var cut := CutAfter(first.value, ParticipantPrefix);
      if cut.None? then None else Some(ReplaceAll(cut.value, "(Clone)", ""))
  }

  /** The winner text corrected: a name without the prefix is kept whole. */
  function WinnerText(first: Option<string>): string {
    var name := if first.Some? then first.value else "Unknown";
    var k := IndexOf(name, ParticipantPrefix);
    ReplaceAll(if k < 0 then name else name[k + |ParticipantPrefix|..], "(Clone)", "")
  }

  /**
   * The "Unknown" fallback, which only a null reference reaches, gives no text either:
   * the cut of "Unknown" asks for a start past its end.
   */
  lemma UnknownWinnerThrows()
    ensures CutAfter("Unknown", ParticipantPrefix).None?
  {
    assert !StartsWith("Unknown", ParticipantPrefix);
    assert IndexOf("Unknown", ParticipantPrefix) == -1 by {
      ContainsIndexOf("Unknown", ParticipantPrefix);
      NotContainsLonger("Unknown", ParticipantPrefix);
    }
  }

  /**
   * The corrected winner text: "Unknown" for a null entry, and for a participant named
   * by AddParticipant, its team tag.
   */
  lemma WinnerTextNames(tag: string)
    requires !Contains(tag, "(Clone)")
    ensures WinnerText(None) == "Unknown"
    ensures WinnerText(Some(ParticipantPrefix + tag)) == tag
    ensures WinnerTextAsWritten(Some(ParticipantPrefix + tag)) == Some(tag)
  {
    UnknownWinnerText();
    TaggedWinnerText(tag);
  }

  /** A null winner reads "Unknown" in the corrected text: the fallback holds neither the prefix nor "(Clone)". */
  lemma UnknownWinnerText()
    ensures WinnerText(None) == "Unknown"
  {
    assert IndexOf("Unknown", ParticipantPrefix) == -1 by {
      ContainsIndexOf("Unknown", ParticipantPrefix);
      NotContainsLonger("Unknown", ParticipantPrefix);
    }
    assert !Contains("Unknown", "(Clone)") by {
      assert "Unknown"[..7][0] != "(Clone)"[0];
      assert "Unknown"[1..] == "nknown";
      NotContainsLonger("nknown", "(Clone)");
    }
    ReplaceAbsent("Unknown", "(Clone)", "");
  }

  /** A participant named by AddParticipant reads as its tag, in both texts. */
  lemma TaggedWinnerText(tag: string)
    requires !Contains(tag, "(Clone)")
    ensures WinnerText(Some(ParticipantPrefix + tag)) == tag
    ensures WinnerTextAsWritten(Some(ParticipantPrefix + tag)) == Some(tag)
  {
    var name := ParticipantPrefix + tag;
    assert StartsWith(name, ParticipantPrefix);
    assert name[|ParticipantPrefix|..] == tag;
    ReplaceAbsent(tag, "(Clone)", "");
  }

  /** Whether working out the winner throws, so that the rest of Update does not run. */
  predicate WinnerThrows(rule: WinnerRule, first: Option<string>) {
    match rule
    case LegacyWinner => first.None? || CutAfter(first.value, LegacyPrefix).None?
    case WinnerAsWritten => WinnerTextAsWritten(first).None?
    case WinnerCorrected => false
  }

  /** Entry 0's name as the winner line reads it: None when the participant is destroyed. */
  function NameOf(p: Participant): Option<string>
    reads p
  {
    if p.destroyed then None else Some(p.name)
  }

  /** What the roster loop leaves: the roster, gameOver, and whether it threw. */
  datatype PassEnd = PassEnd(roster: seq<Participant>, over: bool, threw: bool)

  /**
   * The roster loop of Update from index i on. An eliminated entry is removed with
   * List.Remove and the index still moves on, so the entry that slid into its place is
   * not looked at. After a removal that leaves at most one entry, entry 0 names the
   * winner and gameOver is set; the loop goes on.
   */
  function RosterPass(s: seq<Participant>, i: nat, over: bool, rule: WinnerRule): PassEnd
    reads Members(s), StatsOf(s)
    decreases |s| - i
  {
    if i >= |s| then PassEnd(s, over, false)
    else if Eliminated(s[i]) then
      var t := RemoveFirst(s, s[i]);
      if |t| <= 1 then
        if |t| == 0 || WinnerThrows(rule, NameOf(t[0])) then PassEnd(t, over, true)
        else RosterPass(t, i + 1, true, rule)
      else RosterPass(t, i + 1, over, rule)
    else RosterPass(s, i + 1, over, rule)
  }

  /**
   * The pass only ever removes eliminated participants: nobody still in the game is
   * dropped, nobody is added, and the roster does not grow.
   */
  lemma {:induction false} RosterPassKeepsLiving(s: seq<Participant>, i: nat, over: bool, rule: WinnerRule)
    ensures var r := RosterPass(s, i, over, rule);
      |r.roster| <= |s| &&
      (forall p :: p in r.roster ==> p in s) &&
      (forall p :: p in s && !Eliminated(p) ==> p in r.roster)
    decreases |s| - i
  {
    if i < |s| {
      if Eliminated(s[i]) {
        var t := RemoveFirst(s, s[i]);
        RemoveFirstDrops(s, s[i]);
        if |t| > 1 || (|t| == 1 && !WinnerThrows(rule, NameOf(t[0]))) {
          RosterPassKeepsLiving(t, i + 1, (|t| <= 1) || over, rule);
        }
      } else {
        RosterPassKeepsLiving(s, i + 1, over, rule);
      }
    }
  }

  /**
   * gameOver after the pass: when it does not throw, the game is over iff it already
   * was, or the pass removed someone and left at most one participant.
   */
  lemma {:induction false} RosterPassGameOver(s: seq<Participant>, i: nat, over: bool, rule: WinnerRule)
    ensures var r := RosterPass(s, i, over, rule);
      !r.threw ==> (r.over <==> over || (|r.roster| <= 1 && |r.roster| < |s|))
    decreases |s| - i
  {
    if i < |s| {
      RosterPassKeepsLiving(s, i, over, rule);
      if Eliminated(s[i]) {
        var t := RemoveFirst(s, s[i]);
        if |t| > 1 || (|t| == 1 && !WinnerThrows(rule, NameOf(t[0]))) {
          RosterPassGameOver(t, i + 1, (|t| <= 1) || over, rule);
          RosterPassKeepsLiving(t, i + 1, (|t| <= 1) || over, rule);
        }
      } else {
        RosterPassGameOver(s, i + 1, over, rule);
      }
    }
  }

  /**
   * With the corrected winner text the pass cannot throw once two participants are
   * listed: a removal that leaves one entry also ends the loop, so the list is never
   * emptied.
   */
  lemma {:induction false} CorrectedPassNeverThrows(s: seq<Participant>, i: nat, over: bool)
    requires |s| >= 2 || i >= |s|
    ensures !RosterPass(s, i, over, WinnerCorrected).threw
    decreases |s| - i
  {
    if i < |s| {
      if Eliminated(s[i]) {
        var t := RemoveFirst(s, s[i]);
        CorrectedPassNeverThrows(t, i + 1, (|t| <= 1) || over);
      } else {
        CorrectedPassNeverThrows(s, i + 1, over);
      }
    }
  }

  /**
   * Two destroyed entries left: the newer loop as written removes one and then throws
   * reading the name of the other, which is left as the winner.
   */
  lemma TwoNullsThrow(a: Participant, b: Participant, over: bool)
    requires a != b && a.destroyed && b.destroyed
    ensures RosterPass([a, b], 0, over, WinnerAsWritten).threw
    ensures !RosterPass([a, b], 0, over, WinnerCorrected).threw
  {
    assert RemoveFirst([a, b], a) == [b];
  }

  /**
   * Destroyed entries left over in the roster are removed only when the loop reaches
   * them: List.Remove of a dead participant takes out its own entry, not the first
   * destroyed one.
   */
  lemma LeftoverDestroyedStay(a: Participant, dA: Participant, m: Participant, dB: Participant, over: bool, rule: WinnerRule)
    requires a != dA && a != m && a != dB && dA != m && dA != dB && m != dB
    requires Eliminated(a) && dA.destroyed && !Eliminated(m) && dB.destroyed
    ensures RosterPass([a, dA, m, dB], 0, over, rule) == PassEnd([dA, m], over, false)
  {
    var s, t, u := [a, dA, m, dB], [dA, m, dB], [dA, m];
    assert RemoveFirst(s, s[0]) == t;
    assert RosterPass(s, 0, over, rule) == RosterPass(t, 1, over, rule);
    assert RosterPass(t, 1, over, rule) == RosterPass(t, 2, over, rule);
    assert RemoveFirst(t, t[2]) == u by {
      assert t[1..] == [m, dB] && [m, dB][1..] == [dB];
    }
    assert RosterPass(t, 2, over, rule) == RosterPass(u, 3, over, rule);
  }

  /** Entries a and b of the roster are different participants. */
  predicate Apart(s: seq<Participant>, a: nat, b: nat)
    requires a < |s| && b < |s|
  {
    s[a] != s[b]
  }

  /** No participant is listed twice. */
  predicate Distinct(s: seq<Participant>) {
    forall a: nat, b: nat :: a < b < |s| ==> Apart(s, a, b)
  }

  /** For the first entry of a participant, List.Remove takes out exactly that entry. */
  lemma {:induction false} RemoveFirstAt(s: seq<Participant>, i: nat)
    requires i < |s| && forall j :: 0 <= j < i ==> s[j] != s[i]
    ensures RemoveFirst(s, s[i]) == s[..i] + s[i + 1..]
    decreases i
  {
    if i > 0 {
      assert s[1..][i - 1] == s[i];
      RemoveFirstAt(s[1..], i - 1);
      assert s[1..][..i - 1] == s[1..i];
      assert [s[0]] + s[1..i] == s[..i];
      assert s[1..][i..] == s[i + 1..];
    }
  }

  /** One removal of the pass from i: the entry at i goes, the rest keep their order. */
  lemma RemoveAtStep(s: seq<Participant>, i: nat)
    requires i < |s| && Distinct(s)
    ensures var t := RemoveFirst(s, s[i]);
      |t| == |s| - 1 && t[..i] == s[..i] && Distinct(t) && (i < |t| ==> t[i] == s[i + 1])
  {
    forall j | 0 <= j < i
      ensures s[j] != s[i]
    {
      assert Apart(s, j, i);
    }
    RemoveFirstAt(s, i);
    var t := s[..i] + s[i + 1..];
    assert forall k :: 0 <= k < i ==> t[k] == s[k];
    assert forall k :: i <= k < |t| ==> t[k] == s[k + 1];
    forall a: nat, b: nat | a < b < |t|
      ensures Apart(t, a, b)
    {
      var a', b' := if a < i then a else a + 1, if b < i then b else b + 1;
      assert t[a] == s[a'] && t[b] == s[b'] && Apart(s, a', b');
    }
  }

  /**
   * In a roster of distinct participants the pass from i removes only entries it looks
   * at, so the entries before i keep their places.
   */
  lemma {:induction false} RosterPassKeepsPrefix(s: seq<Participant>, i: nat, over: bool, rule: WinnerRule)
    requires i <= |s| && Distinct(s)
    ensures var r := RosterPass(s, i, over, rule).roster; |r| >= i && r[..i] == s[..i]
    decreases |s| - i, 1
  {
    if i < |s| {
      if Eliminated(s[i]) {
        RemovedKeepsPrefix(s, i, over, rule);
      } else {
        RosterPassKeepsPrefix(s, i + 1, over, rule);
        assert s[..i + 1][..i] == s[..i];
      }
    }
  }

  /** The frame of the pass in which the entry at i is removed: it ends, or goes on from i + 1. */
  lemma PassAfterRemoval(s: seq<Participant>, i: nat, over: bool, rule: WinnerRule)
    requires i < |s| && Eliminated(s[i])
    ensures var t := RemoveFirst(s, s[i]);
      RosterPass(s, i, over, rule) ==
        if |t| <= 1 && (|t| == 0 || WinnerThrows(rule, NameOf(t[0]))) then PassEnd(t, over, true)
        else RosterPass(t, i + 1, (|t| <= 1) || over, rule)
  {
  }

  /** The step of RosterPassKeepsPrefix where the entry at i is removed. */
  lemma {:induction false} RemovedKeepsPrefix(s: seq<Participant>, i: nat, over: bool, rule: WinnerRule)
    requires i < |s| && Eliminated(s[i]) && Distinct(s)
    ensures var r := RosterPass(s, i, over, rule).roster; |r| >= i && r[..i] == s[..i]
    decreases |s| - i, 0
  {
    RemoveAtStep(s, i);
    PassAfterRemoval(s, i, over, rule);
    var t := RemoveFirst(s, s[i]);
    var over' := (|t| <= 1) || over;
    if !(|t| <= 1 && (|t| == 0 || WinnerThrows(rule, NameOf(t[0])))) && i + 1 <= |t| {
      RosterPassKeepsPrefix(t, i + 1, over', rule);
      assert t[..i + 1][..i] == t[..i];
    }
  }

  /**
   * The entry after a removed one is not looked at in that frame: when the pass removes
   * the entry at i, the one behind it slides into slot i and is still listed afterwards,
   * eliminated or not.
   */
  lemma PassSkipsNext(s: seq<Participant>, i: nat, over: bool, rule: WinnerRule)
    requires i + 1 < |s| && Eliminated(s[i]) && Distinct(s)
    ensures var r := RosterPass(s, i, over, rule).roster; |r| > i && r[..i + 1] == s[..i] + [s[i + 1]]
  {
    RemoveAtStep(s, i);
    PassAfterRemoval(s, i, over, rule);
    var t := RemoveFirst(s, s[i]);
    var r := RosterPass(s, i, over, rule).roster;
    if |t| > 1 || (|t| == 1 && !WinnerThrows(rule, NameOf(t[0]))) {
      RosterPassKeepsPrefix(t, i + 1, (|t| <= 1) || over, rule);
    }
    assert |r| > i && r[..i + 1] == t[..i + 1];
    assert t[..i + 1] == s[..i] + [s[i + 1]] by {
      assert t[i] == s[i + 1];
      assert t[..i + 1] == t[..i] + [t[i]];
    }
  }

  /**
   * The roster loop of Update: it only reads the participants, and the new list, the
   * gameOver flag and the exception are those of RosterPass.
   */
  method EliminationPass(roster: seq<Participant>, over0: bool, rule: WinnerRule)
    returns (r: seq<Participant>, over: bool, threw: bool)
    ensures PassEnd(r, over, threw) == old(RosterPass(roster, 0, over0, rule))
  {
    r, over, threw := roster, over0, false;
    var i := 0;
    while i < |r|
      invariant forall p :: p in r ==> p in roster
      invariant RosterPass(r, i, over, rule) == RosterPass(roster, 0, over0, rule)
      decreases |r| - i
    {
      var p := r[i];
      if p.destroyed || (p.stats.Some? && !p.stats.value.isAlive) {
        r := RemoveFirst(r, p);
        if |r| <= 1 {
          if |r| == 0 || WinnerThrows(rule, NameOf(r[0])) {
            threw := true;
            return;
          }
          over := true;
        }
      }
      i := i + 1;
    }
  }

  // ---------------------------------------------------------------------------
  // Countdown and key moments
  // ---------------------------------------------------------------------------

  /** timeKeyMoments: the end, and 10 s, 30 s, 1, 5 and 15 minutes before it. */
  const KeyMoments: seq<real> := [0.0, 10.0, 30.0, 60.0, 300.0, 900.0]

  /** One frame off the clock, never below zero. */
  function Countdown(remaining: real, dt: real): (r: real)
    ensures r >= 0.0 && r >= remaining - dt
    ensures r == 0.0 || r == remaining - dt
    ensures dt >= 0.0 && remaining >= 0.0 ==> r <= remaining
  {
    if remaining - dt <= 0.0 then 0.0 else remaining - dt
  }

  /**
   * The first announcement at the start of a match: the last key moment the match
   * length is past, or the end itself when it is shorter than all of them.
   */
  method FirstCue(remaining: real) returns (idx: int)
    ensures 0 <= idx < |KeyMoments|
    ensures idx == 0 || KeyMoments[idx] < remaining
    ensures forall k :: idx < k < |KeyMoments| ==> KeyMoments[k] >= remaining
  {
    idx := |KeyMoments| - 1;
    while KeyMoments[idx] >= remaining && idx > 0
      invariant 0 <= idx < |KeyMoments|
      invariant forall k :: idx < k < |KeyMoments| ==> KeyMoments[k] >= remaining
    {
      idx := idx - 1;
    }
  }

  /** Whether this frame's clock reaches the pending key moment. */
  predicate CueDue(remaining: real, idx: int) {
    0 <= idx < |KeyMoments| && remaining <= KeyMoments[idx]
  }

  /** The draw (key moment 0) is announced exactly when the clock has run out. */
  lemma DrawAtZero(remaining: real)
    requires remaining >= 0.0
    ensures CueDue(remaining, 0) <==> remaining == 0.0
  {
  }

  // ---------------------------------------------------------------------------
  // Lobby counters
  // ---------------------------------------------------------------------------

  /** The map button: the next scene of the list, back to the first after the last. */
  function NextIndex(idx: int, n: int): (r: int)
    ensures 0 <= idx < n ==> 0 <= r < n
  {
    if idx + 1 < n then idx + 1 else 0
  }

  /** The player and AI buttons: 0, 1, 2, 3, 4 and round again. */
  function NextCount(c: int): (r: int)
    ensures 0 <= c <= 4 ==> 0 <= r <= 4
  {
    if c < 4 then c + 1 else 0
  }

  /** k presses of the map button. */
  function Presses(idx: int, n: int, k: nat): int {
    if k == 0 then idx else NextIndex(Presses(idx, n, k - 1), n)
  }

  /** The count buttons step exactly like the map button over a list of five. */
  lemma CountIsIndex(c: int)
    ensures NextCount(c) == NextIndex(c, 5)
  {
  }

  /** Below the end of the list, each press moves one map on. */
  lemma {:induction false} PressesClimb(idx: int, n: int, k: nat)
    requires 0 <= idx && idx + k < n
    ensures Presses(idx, n, k) == idx + k
  {
    if k > 0 {
      PressesClimb(idx, n, k - 1);
    }
  }

  /** Presses compose. */
  lemma {:induction false} PressesAdd(idx: int, n: int, a: nat, b: nat)
    ensures Presses(idx, n, a + b) == Presses(Presses(idx, n, a), n, b)
    decreases b
  {
    if b > 0 {
      PressesAdd(idx, n, a, b - 1);
    }
  }

  /** n presses on a list of n maps come back to the map they started from. */
  lemma PressesCycle(idx: int, n: int)
    requires 0 <= idx < n
    ensures Presses(idx, n, n) == idx
  {
    PressesClimb(idx, n, n - 1 - idx);
    assert Presses(idx, n, n - idx) == 0;
    PressesAdd(idx, n, n - idx, idx);
    PressesClimb(0, n, idx);
  }

  /** Every map of the list is reached within fewer than n presses: forwards, or round past the end. */
  lemma PressesReach(idx: int, n: int, j: int)
    requires 0 <= idx < n && 0 <= j < n
    ensures Presses(idx, n, if j >= idx then j - idx else n - idx + j) == j
  {
    if j >= idx {
      PressesClimb(idx, n, j - idx);
    } else {
      PressesClimb(idx, n, n - 1 - idx);
      assert Presses(idx, n, n - idx) == 0;
      PressesAdd(idx, n, n - idx, j);
      PressesClimb(0, n, j);
    }
  }
}
