/** The composite view of a map: a stack of equally sized layers, bottom first, and
    the rule that decides which layer's tile is visible at a cell. This is the value
    the exporter reads; `Layers.Map.View` produces it from the live layers. */
module Composite {
  import opened Tiles

  /** A snapshot of a map: its size and every layer's row-major tiles, bottom first. */
  datatype Grid = Grid(width: nat, height: nat, layers: seq<seq<char>>)

  /** At least one layer, and every layer holds exactly width*height tiles. */
  ghost predicate Wf(g: Grid) {
    1 <= |g.layers| &&
    forall i :: 0 <= i < |g.layers| ==> |g.layers[i]| == g.width * g.height
  }

  predicate InBounds(g: Grid, x: int, y: int) {
    0 <= x < g.width && 0 <= y < g.height
  }

  /** The tile of layer i at (x, y), read at slot x + y*width. */
  function LayerTile(g: Grid, i: nat, x: int, y: int): char
    requires Wf(g) && i < |g.layers| && InBounds(g, x, y)
  {
    IndexInRange(g.width, g.height, x, y);
    g.layers[i][x + y * g.width]
  }

  /** The tiles of all layers at (x, y), bottom first. */
  function Column(g: Grid, x: int, y: int): (s: seq<char>)
    requires Wf(g) && InBounds(g, x, y)
  {
    seq(|g.layers|, i requires 0 <= i < |g.layers| => LayerTile(g, i, x, y))
  }

  /** The layer whose tile is visible in a column: scanning bottom to top, the first
      tile that is not `Nothing`; the topmost layer when every tile is `Nothing`. */
  function VisibleIndex(s: seq<char>): (k: nat)
    requires 1 <= |s|
    ensures k < |s|
    ensures forall j :: 0 <= j < k ==> s[j] == Nothing
    ensures s[k] != Nothing || k == |s| - 1
    decreases |s|
  {
    if |s| == 1 || s[0] != Nothing then 0 else 1 + VisibleIndex(s[1..])
  }

  /** The three properties of `VisibleIndex` pin it down: the rule is deterministic. */
  lemma {:induction false} VisibleIndexUnique(s: seq<char>, k: nat)
    requires k < |s|
    requires forall j :: 0 <= j < k ==> s[j] == Nothing
    requires s[k] != Nothing || k == |s| - 1
    ensures k == VisibleIndex(s)
    decreases |s|
  {
    if k > 0 {
      VisibleIndexUnique(s[1..], k - 1);
    }
  }

  /** The visible tile at an in-bounds cell: it belongs to some layer i, every layer
      below i shows `Nothing` there, and it is not `Nothing` unless i is the top layer. */
  function TileAt(g: Grid, x: int, y: int): (t: char)
    requires Wf(g) && InBounds(g, x, y)
    ensures exists i :: (0 <= i < |g.layers| && t == LayerTile(g, i, x, y) &&
                         (forall j :: 0 <= j < i ==> LayerTile(g, j, x, y) == Nothing) &&
                         (t != Nothing || i == |g.layers| - 1))
  {
    var s := Column(g, x, y);
    var k := VisibleIndex(s);
    assert forall j :: 0 <= j <= k ==> s[j] == LayerTile(g, j, x, y);
    s[k]
  }

  /** Bounds-checked read of the visible tile: an error exactly outside the grid. */
  function GetTile(g: Grid, x: int, y: int): (r: Result<char>)
    requires Wf(g)
    ensures r.Err? <==> !InBounds(g, x, y)
    ensures r.Ok? ==> r.value == TileAt(g, x, y)
  {
    if InBounds(g, x, y) then Ok(TileAt(g, x, y)) else Err(OutOfBounds)
  }

  /** A non-`Nothing` tile on some layer hides everything above it, unless a lower
      layer already shows something: the visible tile is the lowest non-`Nothing` one. */
  lemma LowestOpaqueWins(g: Grid, x: int, y: int, i: nat)
    requires Wf(g) && InBounds(g, x, y) && i < |g.layers|
    requires LayerTile(g, i, x, y) != Nothing
    requires forall j :: 0 <= j < i ==> LayerTile(g, j, x, y) == Nothing
    ensures TileAt(g, x, y) == LayerTile(g, i, x, y)
  {
    var s := Column(g, x, y);
    VisibleIndexUnique(s, i);
  }

  /** When every layer shows `Nothing`, the top layer is the one shown. */
  lemma TopLayerIsFallback(g: Grid, x: int, y: int)
    requires Wf(g) && InBounds(g, x, y)
    requires forall j :: 0 <= j < |g.layers| ==> LayerTile(g, j, x, y) == Nothing
    ensures TileAt(g, x, y) == LayerTile(g, |g.layers| - 1, x, y) == Nothing
  {
    var s := Column(g, x, y);
    VisibleIndexUnique(s, |s| - 1);
  }

  /** A single-layer grid shows exactly that layer. */
  lemma SingleLayerShowsItself(g: Grid, x: int, y: int)
    requires Wf(g) && InBounds(g, x, y) && |g.layers| == 1
    ensures TileAt(g, x, y) == LayerTile(g, 0, x, y)
  {
  }
}
