/**
 * The interactive tilemap shared by the match controller, the bombs and the bomb
 * placer: integer cells mapped to tiles, where a cell without a tile reads as empty
 * (Unity's null tile). Cells are one world unit wide and cell (0, 0) starts at the
 * world origin.
 */
module Grid {
  import opened Vectors

  type Cell = (int, int)

  /** The tile kinds the scripts tell apart: no tile, the destructible tile, the margin tile, any other tile. */
  datatype Tile = Empty | Destructible | Margin | Other

  type Tiles = map<Cell, Tile>

  /** Tilemap.GetTile: a cell that was never painted holds no tile. */
  function TileAt(tiles: Tiles, c: Cell): Tile {
    if c in tiles then tiles[c] else Empty
  }

  /** Tilemap.SetTile. */
  function WithTile(tiles: Tiles, c: Cell, t: Tile): (r: Tiles)
    ensures TileAt(r, c) == t
    ensures forall other :: other != c ==> TileAt(r, other) == TileAt(tiles, other)
  {
    tiles[c := t]
  }

  function Offset(c: Cell, dx: int, dy: int): Cell {
    (c.0 + dx, c.1 + dy)
  }

  /** Tilemap.WorldToCell on the unit grid: each coordinate rounded down. */
  function CellOf(p: Vec): Cell {
    (p.x.Floor, p.y.Floor)
  }

  /** Tilemap.GetCellCenterWorld, and `cell + Vector3.one * 0.5`. */
  function CellCenter(c: Cell): Vec {
    Vec(c.0 as real + 0.5, c.1 as real + 0.5)
  }

  /** Rounding down a whole number plus one half gives that number back. */
  lemma FloorHalf(n: int)
    ensures (n as real + 0.5).Floor == n
  {
    var r := n as real + 0.5;
    assert n as real <= r < (n + 1) as real;
  }

  /** The centre of a cell lies in that cell. */
  lemma CellOfCenter(c: Cell)
    ensures CellOf(CellCenter(c)) == c
  {
    FloorHalf(c.0);
    FloorHalf(c.1);
  }

  /** The tilemap component: its painted tiles change in place. */
  class Tilemap {
    var tiles: Tiles

    constructor (tiles: Tiles)
      ensures this.tiles == tiles
    {
      this.tiles := tiles;
    }

    function GetTile(c: Cell): Tile
      reads this
    {
      TileAt(tiles, c)
    }

    method SetTile(c: Cell, t: Tile)
      modifies this
      ensures tiles == WithTile(old(tiles), c, t)
    {
      tiles := tiles[c := t];
    }
  }
}
