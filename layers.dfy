/** The layered tile grid: a `Layer` is a named, row-major buffer of width*height
    tiles updated in place; a `Map` is an ordered stack of equally sized layers,
    bottom first, that grows when an unknown layer name is asked for. */
module Layers {
  import opened Tiles
  import Composite

  /** An axis-aligned area: top-left corner (x, y), w columns and h rows. */
  datatype Rect = Rect(x: int, y: int, w: int, h: int)

  predicate InRect(r: Rect, x: int, y: int) {
    r.x <= x < r.x + r.w && r.y <= y < r.y + r.h
  }

  /** The first or last row or column of the rectangle. */
  predicate OnBorder(r: Rect, x: int, y: int) {
    x == r.x || y == r.y || x == r.x + r.w - 1 || y == r.y + r.h - 1
  }

  /** The cells a `rectangle` call draws: all of r when filled, its border otherwise. */
  predicate Drawn(r: Rect, filled: bool, x: int, y: int) {
    InRect(r, x, y) && (filled || OnBorder(r, x, y))
  }

  class Layer {
    const name: string
    const width: nat
    const height: nat
    const tiles: array<char>

    /** The buffer holds width*height tiles and every in-bounds cell has a slot. */
    ghost predicate Valid() {
      tiles.Length == width * height &&
      forall x, y :: InBounds(x, y) ==> Addressable(x, y)
    }

    predicate InBounds(x: int, y: int) {
      0 <= x < width && 0 <= y < height
    }

    /** The slot x + y*width lies inside the buffer; the only demand `getTile` and
        `setTile` make, since they do not check x and y separately. */
    predicate Addressable(x: int, y: int) {
      0 <= x + y * width < tiles.Length
    }

    /** A new layer of the given size with every cell `Nothing` (`newLayer`). */
    constructor (name: string, width: nat, height: nat)
      ensures Valid()
      ensures this.name == name && this.width == width && this.height == height
      ensures fresh(tiles)
      ensures forall i :: 0 <= i < tiles.Length ==> tiles[i] == Nothing
    {
      this.name := name;
      this.width := width;
      this.height := height;
      tiles := new char[width * height];
      new;
      forall x, y | InBounds(x, y) ensures Addressable(x, y) {
        IndexInRange(width, height, x, y);
      }
      Fill(Nothing);
    }

    function GetTile(x: int, y: int): char
      reads tiles
      requires Addressable(x, y)
    {
      tiles[x + y * width]
    }

    /** Overwrites slot x + y*width. For an in-bounds cell: that cell now reads t and
        every other in-bounds cell reads as before. */
    method SetTile(x: int, y: int, t: char)
      requires Valid() && Addressable(x, y)
      modifies tiles
      ensures tiles[..] == old(tiles[..])[x + y * width := t]
      ensures InBounds(x, y) ==> GetTile(x, y) == t
      ensures InBounds(x, y) ==>
        forall x', y' :: InBounds(x', y') && (x', y') != (x, y) ==> GetTile(x', y') == old(GetTile(x', y'))
    {
      tiles[x + y * width] := t;
      if InBounds(x, y) {
        forall x', y' | InBounds(x', y') && (x', y') != (x, y)
          ensures GetTile(x', y') == old(GetTile(x', y'))
        {
          if x' + y' * width == x + y * width {
            IndexInjective(width, x, y, x', y');
          }
        }
      }
    }

    /** Every cell of the layer becomes t. */
    method Fill(t: char)
      requires Valid()
      modifies tiles
      ensures forall i :: 0 <= i < tiles.Length ==> tiles[i] == t
    {
      var y := 0;
      while y < height
        invariant 0 <= y <= height
        invariant forall i :: 0 <= i < y * width ==> tiles[i] == t
      {
        var x := 0;
        ghost var done := y * width;
        MulMonotone(y, height - 1, width);
        while x < width
          invariant 0 <= x <= width
          invariant forall i :: 0 <= i < done + x ==> tiles[i] == t
        {
          SetTile(x, y, t);
          x := x + 1;
        }
        y := y + 1;
      }
    }

    /** Draws r (filled, or only its border) with t; every other cell is unchanged.
        The rectangle must lie inside the layer. */
    method Rectangle(r: Rect, t: char, filled: bool)
      requires Valid()
      requires 0 < r.w && 0 < r.h ==>
        0 <= r.x && r.x + r.w <= width && 0 <= r.y && r.y + r.h <= height
      modifies tiles
      ensures forall x, y :: InBounds(x, y) ==>
        GetTile(x, y) == if Drawn(r, filled, x, y) then t else old(GetTile(x, y))
    {
      var y := r.y;
      while y < r.y + r.h
        invariant r.y <= y && (r.h > 0 ==> y <= r.y + r.h)
        invariant forall x', y' :: InBounds(x', y') ==>
          GetTile(x', y') == if Drawn(r, filled, x', y') && y' < y then t else old(GetTile(x', y'))
      {
        var x := r.x;
        while x < r.x + r.w
          invariant r.x <= x && (r.w > 0 ==> x <= r.x + r.w)
          invariant forall x', y' :: InBounds(x', y') ==>
            GetTile(x', y') ==
              if Drawn(r, filled, x', y') && (y' < y || (y' == y && x' < x)) then t
              else old(GetTile(x', y'))
        {
          if filled || x == r.x || y == r.y || x == r.x + r.w - 1 || y == r.y + r.h - 1 {
            SetTile(x, y, t);
          }
          x := x + 1;
        }
        y := y + 1;
      }
    }

    /** Every cell of `area` that the column-by-column scan of `isClear` visits before
        (x, y) -- an earlier column, or the same column higher up -- has a slot and
        reads `Nothing`. */
    ghost predicate ClearBefore(area: Rect, x: int, y: int)
      reads tiles
    {
      forall x', y' :: InRect(area, x', y') && (x' < x || (x' == x && y' < y)) ==>
        Addressable(x', y') && GetTile(x', y') == Nothing
    }

    /** Whether every cell of the area reads `Nothing`; the layer is not changed. The
        scan stops at the first cell that is not `Nothing`, so only the cells it
        reaches need a slot. */
    method IsClear(roomX: int, roomY: int, roomWidth: int, roomHeight: int) returns (clear: bool)
      requires Valid()
      requires forall x, y ::
        (InRect(Rect(roomX, roomY, roomWidth, roomHeight), x, y) &&
         ClearBefore(Rect(roomX, roomY, roomWidth, roomHeight), x, y)) ==> Addressable(x, y)
      ensures clear <==>
        forall x, y :: InRect(Rect(roomX, roomY, roomWidth, roomHeight), x, y) ==>
          Addressable(x, y) && GetTile(x, y) == Nothing
    {
      ghost var area := Rect(roomX, roomY, roomWidth, roomHeight);
      var x := roomX;
      while x < roomX + roomWidth
        invariant roomX <= x && (roomWidth > 0 ==> x <= roomX + roomWidth)
        invariant ClearBefore(area, x, roomY)
      {
        var y := roomY;
        while y < roomY + roomHeight
          invariant roomY <= y && (roomHeight > 0 ==> y <= roomY + roomHeight)
          invariant ClearBefore(area, x, y)
        {
          assert InRect(area, x, y);
          if GetTile(x, y) != Nothing {
            return false;
          }
          y := y + 1;
        }
        x := x + 1;
      }
      return true;
    }

    /** The scan answers `false` on an area that runs past the buffer as long as it
        meets a non-`Nothing` cell first: a 3x3 layer with a wall in its corner may be
        asked about a 1x100 column. */
    lemma BlockedScanNeedsNoMoreSlots()
      requires Valid() && width == 3 && height == 3 && tiles[0] == Wall
      ensures forall x, y ::
        (InRect(Rect(0, 0, 1, 100), x, y) && ClearBefore(Rect(0, 0, 1, 100), x, y)) ==> Addressable(x, y)
      ensures !Addressable(0, 5)
    {
      var column := Rect(0, 0, 1, 100);
      forall x, y | InRect(column, x, y)
        ensures ClearBefore(column, x, y) ==> Addressable(x, y)
      {
        if y > 0 {
          assert !ClearBefore(column, x, y) by {
            assert InRect(column, 0, 0) && GetTile(0, 0) == Wall;
          }
        }
      }
    }

    /** Whether (xi, yi) counts toward `countTiles`: outside the layer always, inside
        when it holds t. */
    ghost predicate Matches(xi: int, yi: int, t: char)
      reads tiles
      requires Valid()
    {
      !InBounds(xi, yi) || GetTile(xi, yi) == t
    }

    /** Matching positions in column xi, rows y0 .. y0+n-1. */
    ghost function ColumnCount(xi: int, y0: int, n: nat, t: char): nat
      reads tiles
      requires Valid()
      decreases n
    {
      if n == 0 then 0
      else ColumnCount(xi, y0, n - 1, t) + (if Matches(xi, y0 + n - 1, t) then 1 else 0)
    }

    /** Matching positions in columns x0 .. x0+nx-1, rows y0 .. y0+ny-1. */
    ghost function SquareCount(x0: int, nx: nat, y0: int, ny: nat, t: char): nat
      reads tiles
      requires Valid()
      decreases nx
    {
      if nx == 0 then 0
      else SquareCount(x0, nx - 1, y0, ny, t) + ColumnCount(x0 + nx - 1, y0, ny, t)
    }

    /** Counts the positions of the (2r+1)x(2r+1) square centred on (x, y) that hold t
        or lie outside the layer; the result is at most (2r+1)^2. */
    method CountTiles(x: int, y: int, r: int, tile: char) returns (c: int)
      requires Valid()
      ensures c == SquareCount(x - r, Side(r), y - r, Side(r), tile)
      ensures 0 <= c <= Side(r) * Side(r)
    {
      c := 0;
      var xi := x - r;
      while xi <= x + r
        invariant r >= 0 ==> x - r <= xi <= x + r + 1
        invariant c == SquareCount(x - r, if r >= 0 then xi - (x - r) else 0, y - r, Side(r), tile)
      {
        var yi := y - r;
        ghost var before := c;
        while yi <= y + r
          invariant y - r <= yi <= y + r + 1
          invariant c == before + ColumnCount(xi, y - r, yi - (y - r), tile)
        {
          if xi < 0 || xi >= width || yi < 0 || yi >= height {
            c := c + 1;
          } else if GetTile(xi, yi) == tile {
            c := c + 1;
          }
          yi := yi + 1;
        }
        xi := xi + 1;
      }
      SquareCountBounded(x - r, Side(r), y - r, Side(r), tile);
    }

    /** A square count never exceeds the number of positions in the square. */
    lemma {:induction false} SquareCountBounded(x0: int, nx: nat, y0: int, ny: nat, t: char)
      requires Valid()
      ensures SquareCount(x0, nx, y0, ny, t) <= nx * ny
      decreases nx
    {
      if nx > 0 {
        SquareCountBounded(x0, nx - 1, y0, ny, t);
        ColumnCountBounded(x0 + nx - 1, y0, ny, t);
        assert (nx - 1) * ny + ny == nx * ny;
      }
    }

    lemma {:induction false} ColumnCountBounded(xi: int, y0: int, n: nat, t: char)
      requires Valid()
      ensures ColumnCount(xi, y0, n, t) <= n
      decreases n
    {
      if n > 0 {
        ColumnCountBounded(xi, y0, n - 1, t);
      }
    }

    /** A column entirely outside the layer counts every position. */
    lemma {:induction false} ColumnOutsideCountsAll(xi: int, y0: int, n: nat, t: char)
      requires Valid()
      requires xi < 0 || xi >= width
      ensures ColumnCount(xi, y0, n, t) == n
      decreases n
    {
      if n > 0 {
        ColumnOutsideCountsAll(xi, y0, n - 1, t);
      }
    }

    /** On a 1x1 layer the radius-1 count around the only cell is 8 (the out-of-bounds
        ring) plus 1 when that cell holds t. */
    lemma CountOnSingleCell(t: char)
      requires Valid() && width == 1 && height == 1
      ensures SquareCount(-1, 3, -1, 3, t) == 8 + (if tiles[0] == t then 1 else 0)
    {
      ColumnOutsideCountsAll(-1, -1, 3, t);
      ColumnOutsideCountsAll(1, -1, 3, t);
      assert GetTile(0, 0) == tiles[0];
      assert ColumnCount(0, -1, 1, t) == 1;
      assert ColumnCount(0, -1, 2, t) == 1 + (if tiles[0] == t then 1 else 0);
      assert ColumnCount(0, -1, 3, t) == 2 + (if tiles[0] == t then 1 else 0);
      assert SquareCount(-1, 1, -1, 3, t) == 3;
      assert SquareCount(-1, 2, -1, 3, t) == 5 + (if tiles[0] == t then 1 else 0);
    }
  }

  /** The side of the square `countTiles` scans for radius r (empty when r < 0). */
  function Side(r: int): nat {
    if r >= 0 then 2 * r + 1 else 0
  }

  class Map {
    var layers: seq<Layer>
    const width: nat
    const height: nat

    /** At least the two seeded layers, all valid and of the map's size, no two
        sharing a buffer. */
    ghost predicate Valid()
      reads this
    {
      2 <= |layers| &&
      (forall i :: 0 <= i < |layers| ==>
        layers[i].Valid() && layers[i].width == width && layers[i].height == height) &&
      (forall i, j :: 0 <= i < j < |layers| ==> layers[i].tiles != layers[j].tiles)
    }

    ghost function Buffers(): set<array<char>>
      reads this
    {
      set l | l in layers :: l.tiles
    }

    /** A map seeded with an empty "Ground" layer under an empty "Structures" layer
        (`NewMap`). */
    constructor (width: nat, height: nat)
      ensures Valid() && this.width == width && this.height == height
      ensures |layers| == 2 && layers[0].name == "Ground" && layers[1].name == "Structures"
      ensures forall i :: 0 <= i < 2 ==> fresh(layers[i]) && fresh(layers[i].tiles)
      ensures forall i, k :: 0 <= i < 2 && 0 <= k < layers[i].tiles.Length ==> layers[i].tiles[k] == Nothing
    {
      this.width := width;
      this.height := height;
      var ground := new Layer("Ground", width, height);
      var structures := new Layer("Structures", width, height);
      layers := [ground, structures];
    }

    /** The layer called `name`: the first such layer if there is one, leaving the
        stack unchanged; otherwise a new empty layer of the map's size pushed on top. */
    method Layer(name: string) returns (l: Layer)
      requires Valid()
      modifies this
      ensures Valid()
      ensures (exists i :: 0 <= i < |old(layers)| && old(layers)[i].name == name) ==>
        layers == old(layers) &&
        exists i :: 0 <= i < |layers| && l == layers[i] && l.name == name &&
          forall k :: 0 <= k < i ==> layers[k].name != name
      ensures (forall i :: 0 <= i < |old(layers)| ==> old(layers)[i].name != name) ==>
        layers == old(layers) + [l] && fresh(l) && fresh(l.tiles) &&
        l.name == name && l.width == width && l.height == height &&
        forall k :: 0 <= k < l.tiles.Length ==> l.tiles[k] == Nothing
    {
      var i := 0;
      while i < |layers|
        invariant 0 <= i <= |layers|
        invariant forall k :: 0 <= k < i ==> layers[k].name != name
      {
        if layers[i].name == name {
          return layers[i];
        }
        i := i + 1;
      }
      l := new Layer(name, width, height);
      layers := layers + [l];
    }

    /** The current contents of every layer, bottom first, as a `Composite.Grid`. */
    function View(): (g: Composite.Grid)
      reads this, Buffers()
      requires Valid()
      ensures Composite.Wf(g) && g.width == width && g.height == height
      ensures |g.layers| == |layers| &&
        forall i :: 0 <= i < |layers| ==> g.layers[i] == layers[i].tiles[..]
    {
      Composite.Grid(width, height, Snapshot(layers))
    }

    static function Snapshot(ls: seq<Layer>): (s: seq<seq<char>>)
      reads set l | l in ls :: l.tiles
      ensures |s| == |ls| && forall i :: 0 <= i < |ls| ==> s[i] == ls[i].tiles[..]
    {
      if ls == [] then [] else [ls[0].tiles[..]] + Snapshot(ls[1..])
    }
  }
}
