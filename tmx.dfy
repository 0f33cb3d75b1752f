/** Export of a map's visible tiles as tile-set ids for a Tiled (TMX) map: the
    template with its id tables, the 16-way neighbour classification, the per-symbol
    export policy, and the row-major, comma-separated output. */
module Tmx {
  import opened Tiles
  import opened Composite
  import Csv

  /** Export configuration. Each terrain has 16 ids laid out as: centre; the eight
      tiles around it clockwise from the top; horizontal; vertical; the four ends
      clockwise from the top; isolated. A terrain whose flag is off always uses its
      centre id. The Width/Height/CSV outputs are returned by `PopulateTemplate`. */
  datatype Template = Template(
    path: string,
    nothingID: string,
    floorIDs: seq<string>,
    floor2IDs: seq<string>,
    wallIDs: seq<string>,
    wall2IDs: seq<string>,
    roomIDs: seq<string>,
    room2IDs: seq<string>,
    doorH: string,
    doorV: string,
    floorTerrain: bool,
    floor2Terrain: bool,
    wallTerrain: bool,
    wall2Terrain: bool,
    roomTerrain: bool,
    room2Terrain: bool)

  /** The DawnLike tile set. */
  const DawnLikeTemplate: Template := Template(
    "dawnlike",
    "1031",
    ["1421", "1400", "1401", "1422", "1443", "1442", "1441", "1420", "1399", "1425", "1423", "1402", "1426", "1444", "1424", "1404"],
    ["1176", "1155", "1156", "1177", "1198", "1197", "1196", "1175", "1154", "1180", "1178", "1157", "1181", "1199", "1179", "1159"],
    ["92", "72", "70", "93", "110", "112", "108", "91", "68", "69", "88", "88", "110", "89", "108", "71"],
    ["85", "65", "63", "86", "103", "105", "101", "84", "61", "62", "81", "81", "103", "82", "101", "64"],
    ["1428", "1407", "1408", "1429", "1450", "1449", "1448", "1427", "1406", "1432", "1430", "1409", "1433", "1451", "1431", "1411"],
    ["1232", "1211", "1212", "1233", "1254", "1253", "1252", "1231", "1210", "1236", "1234", "1213", "1237", "1255", "1235", "1215"],
    "2096", "2097",
    false, true, true, true, true, true)

  /** Every terrain table has its 16 slots. */
  predicate ValidTemplate(t: Template) {
    |t.floorIDs| == 16 && |t.floor2IDs| == 16 && |t.wallIDs| == 16 &&
    |t.wall2IDs| == 16 && |t.roomIDs| == 16 && |t.room2IDs| == 16
  }

  /** id is one of the template's ids. */
  predicate FromTemplate(t: Template, id: string) {
    id == t.nothingID || id == t.doorH || id == t.doorV ||
    id in t.floorIDs || id in t.floor2IDs || id in t.wallIDs ||
    id in t.wall2IDs || id in t.roomIDs || id in t.room2IDs
  }

  predicate NoComma(ids: seq<string>) {
    forall i :: 0 <= i < |ids| ==> ',' !in ids[i]
  }

  /** No id of the template contains the CSV separator. */
  predicate CommaFree(t: Template) {
    ',' !in t.nothingID && ',' !in t.doorH && ',' !in t.doorV &&
    NoComma(t.floorIDs) && NoComma(t.floor2IDs) && NoComma(t.wallIDs) &&
    NoComma(t.wall2IDs) && NoComma(t.roomIDs) && NoComma(t.room2IDs)
  }

  lemma CommaFreeIds(t: Template, id: string)
    requires CommaFree(t) && FromTemplate(t, id)
    ensures ',' !in id
  {
  }

  /** The DawnLike tables are complete and their ids can be written as CSV. */
  lemma DawnLikeIsValid()
    ensures ValidTemplate(DawnLikeTemplate) && CommaFree(DawnLikeTemplate)
  {
    DawnLikeFloorsAndWallsNoComma();
    DawnLikeRoomsNoComma();
  }

  lemma DawnLikeFloorsAndWallsNoComma()
    ensures NoComma(DawnLikeTemplate.floorIDs) && NoComma(DawnLikeTemplate.floor2IDs)
    ensures NoComma(DawnLikeTemplate.wallIDs) && NoComma(DawnLikeTemplate.wall2IDs)
  {
    var t := DawnLikeTemplate;
    assert NoComma(t.floorIDs);
    assert NoComma(t.floor2IDs);
    assert NoComma(t.wallIDs);
  }

  lemma DawnLikeRoomsNoComma()
    ensures NoComma(DawnLikeTemplate.roomIDs) && NoComma(DawnLikeTemplate.room2IDs)
  {
    var t := DawnLikeTemplate;
    assert NoComma(t.roomIDs);
  }

  // ---------------------------------------------------------------------------
  // The 16-way neighbour classification

  /** Whether the up, right, down and left neighbours hold the same symbol. */
  datatype Neighbours = Neighbours(up: bool, right: bool, down: bool, left: bool)

  /** Whether direction d (0 up, 1 right, 2 down, 3 left) is open -- holds no
      same-symbol neighbour -- for the tile in slot k of the documented layout. */
  predicate Open(k: nat, d: nat)
    requires k < 16 && d < 4
  {
    if k == 0 then false                      // centre
    else if k <= 8 then                       // clockwise from the top: edge, corner, ...
      d == (k - 1) / 2 || (k % 2 == 0 && d == (k / 2) % 4)
    else if k == 9 then d == 0 || d == 2      // horizontal run
    else if k == 10 then d == 1 || d == 3     // vertical run
    else if k <= 14 then d != (k - 9) % 4     // end caps clockwise from the top
    else true                                 // isolated
  }

  /** The neighbour pattern that slot k of an id table stands for. */
  function SlotPattern(k: nat): Neighbours
    requires k < 16
  {
    Neighbours(!Open(k, 0), !Open(k, 1), !Open(k, 2), !Open(k, 3))
  }

  /** The slot the exporter picks for a neighbour pattern (`get16Tile`'s switch):
      always one of the 16 and always the slot whose documented pattern it is, so
      the final `panic` can never be reached. */
  function Get16Slot(n: Neighbours): (k: int)
    ensures 0 <= k < 16 && SlotPattern(k) == n
  {
    var up, right, down, left := n.up, n.right, n.down, n.left;
    if up && right && down && left then 0
    else if !up && right && down && left then 1
    else if !up && !right && down && left then 2
    else if up && !right && down && left then 3
    else if up && !right && !down && left then 4
    else if up && right && !down && left then 5
    else if up && right && !down && !left then 6
    else if up && right && down && !left then 7
    else if !up && right && down && !left then 8
    else if !up && right && !down && left then 9
    else if up && !right && down && !left then 10
    else if !up && !right && down && !left then 11
    else if !up && !right && !down && left then 12
    else if up && !right && !down && !left then 13
    else if !up && right && !down && !left then 14
    else if !up && !right && !down && !left then 15
    else assert false; 15
  }

  /** No two slots share a pattern: the sixteen guards are pairwise disjoint. */
  lemma SlotPatternInjective(j: nat, k: nat)
    requires j < 16 && k < 16 && SlotPattern(j) == SlotPattern(k)
    ensures j == k
  {
    assert Get16Slot(SlotPattern(j)) == j by { Get16SlotOfPattern(j); }
    assert Get16Slot(SlotPattern(k)) == k by { Get16SlotOfPattern(k); }
  }

  /** Every slot is reached, by exactly its own pattern. */
  lemma Get16SlotOfPattern(k: nat)
    requires k < 16
    ensures Get16Slot(SlotPattern(k)) == k
  {
    if k == 0 {} else if k == 1 {} else if k == 2 {} else if k == 3 {}
    else if k == 4 {} else if k == 5 {} else if k == 6 {} else if k == 7 {}
    else if k == 8 {} else if k == 9 {} else if k == 10 {} else if k == 11 {}
    else if k == 12 {} else if k == 13 {} else if k == 14 {} else {}
  }

  function Present(n: Neighbours): nat {
    (if n.up then 1 else 0) + (if n.right then 1 else 0) +
    (if n.down then 1 else 0) + (if n.left then 1 else 0)
  }

  /** The shape classes: all four neighbours give the centre; three give an edge; two
      adjacent give a corner; two opposite give a straight run (left-right is the
      horizontal slot 9, up-down the vertical slot 10); one gives an end cap; none
      gives the isolated slot 15. */
  lemma SlotShapes(n: Neighbours)
    ensures Present(n) == 4 ==> Get16Slot(n) == 0
    ensures Present(n) == 3 ==> Get16Slot(n) in {1, 3, 5, 7}
    ensures Present(n) == 2 && n.up != n.down ==> Get16Slot(n) in {2, 4, 6, 8}
    ensures Present(n) == 2 && n.left && n.right ==> Get16Slot(n) == 9
    ensures Present(n) == 2 && n.up && n.down ==> Get16Slot(n) == 10
    ensures Present(n) == 1 ==> 11 <= Get16Slot(n) <= 14
    ensures Present(n) == 0 ==> Get16Slot(n) == 15
  {
  }

  // ---------------------------------------------------------------------------
  // Neighbourhood of a cell

  /** Whether (x, y) holds t; a position outside the grid never does. */
  function IsSameTile(g: Grid, x: int, y: int, t: char): (same: bool)
    requires Wf(g)
    ensures same ==> InBounds(g, x, y)
    ensures InBounds(g, x, y) ==> (same <==> TileAt(g, x, y) == t)
  {
    var other := GetTile(g, x, y);
    other.Ok? && other.value == t
  }

  /** The four orthogonal neighbours of (x, y), each present exactly when it lies in
      the grid and shows t. */
  function NeighboursOf(g: Grid, x: int, y: int, t: char): (n: Neighbours)
    requires Wf(g)
    ensures n.up <==> InBounds(g, x, y - 1) && TileAt(g, x, y - 1) == t
    ensures n.right <==> InBounds(g, x + 1, y) && TileAt(g, x + 1, y) == t
    ensures n.down <==> InBounds(g, x, y + 1) && TileAt(g, x, y + 1) == t
    ensures n.left <==> InBounds(g, x - 1, y) && TileAt(g, x - 1, y) == t
  {
    Neighbours(IsSameTile(g, x, y - 1, t), IsSameTile(g, x + 1, y, t),
               IsSameTile(g, x, y + 1, t), IsSameTile(g, x - 1, y, t))
  }

  /** Along the grid's edges the outside counts as a different symbol. */
  lemma EdgeNeighboursDiffer(g: Grid, x: int, y: int, t: char)
    requires Wf(g) && InBounds(g, x, y)
    ensures y == 0 ==> !NeighboursOf(g, x, y, t).up
    ensures x == g.width - 1 ==> !NeighboursOf(g, x, y, t).right
    ensures y == g.height - 1 ==> !NeighboursOf(g, x, y, t).down
    ensures x == 0 ==> !NeighboursOf(g, x, y, t).left
  {
  }

  /** The id of a terrain cell that uses the 16-variant table: the entry of the one
      slot whose documented pattern is the cell's neighbourhood. */
  function Get16Tile(g: Grid, x: int, y: int, t: char, ids: seq<string>): (id: string)
    requires Wf(g) && |ids| == 16
    ensures exists k :: 0 <= k < 16 && SlotPattern(k) == NeighboursOf(g, x, y, t) && id == ids[k]
  {
    ids[Get16Slot(NeighboursOf(g, x, y, t))]
  }

  // ---------------------------------------------------------------------------
  // Per-cell export policy

  /** The six symbols with id tables. */
  predicate IsTerrain(c: char) {
    c == Floor || c == Floor2 || c == Wall || c == Wall2 || c == Room || c == Room2
  }

  /** The symbols the exporter handles; any other one has no id table and cannot
      be exported. */
  predicate Exportable(c: char) {
    c == Nothing || c == Door || IsTerrain(c)
  }

  function TerrainIDs(t: Template, c: char): seq<string>
    requires IsTerrain(c)
  {
    if c == Floor then t.floorIDs
    else if c == Floor2 then t.floor2IDs
    else if c == Wall then t.wallIDs
    else if c == Wall2 then t.wall2IDs
    else if c == Room then t.roomIDs
    else t.room2IDs
  }

  function UsesVariants(t: Template, c: char): bool
    requires IsTerrain(c)
  {
    if c == Floor then t.floorTerrain
    else if c == Floor2 then t.floor2Terrain
    else if c == Wall then t.wallTerrain
    else if c == Wall2 then t.wall2Terrain
    else if c == Room then t.roomTerrain
    else t.room2Terrain
  }

  /** A well-formed grid whose every visible tile can be exported. */
  ghost predicate ExportableGrid(g: Grid) {
    Wf(g) && forall x, y {:trigger TileAt(g, x, y)} :: InBounds(g, x, y) ==> Exportable(TileAt(g, x, y))
  }

  /** The id exported for cell (x, y); always one of the template's ids. */
  function ExportCell(g: Grid, t: Template, x: int, y: int): (id: string)
    requires ExportableGrid(g) && ValidTemplate(t) && InBounds(g, x, y)
    ensures FromTemplate(t, id)
  {
    var c := TileAt(g, x, y);
    if c == Nothing then t.nothingID
    else if c == Door then
      var left := GetTile(g, x - 1, y);
      if left.Err? || IsWall(left.value) then t.doorH else t.doorV
    else if !UsesVariants(t, c) then TerrainIDs(t, c)[0]
    else Get16Tile(g, x, y, c, TerrainIDs(t, c))
  }

  lemma NothingExportsNothingID(g: Grid, t: Template, x: int, y: int)
    requires ExportableGrid(g) && ValidTemplate(t) && InBounds(g, x, y)
    requires TileAt(g, x, y) == Nothing
    ensures ExportCell(g, t, x, y) == t.nothingID
  {
  }

  /** A door is horizontal when it is in the first column or has a wall to its left,
      vertical otherwise. */
  lemma DoorOrientation(g: Grid, t: Template, x: int, y: int)
    requires ExportableGrid(g) && ValidTemplate(t) && InBounds(g, x, y)
    requires TileAt(g, x, y) == Door
    ensures x == 0 ==> ExportCell(g, t, x, y) == t.doorH
    ensures x > 0 ==> ExportCell(g, t, x, y) == (if IsWall(TileAt(g, x - 1, y)) then t.doorH else t.doorV)
  {
  }

  /** A terrain whose flag is off exports its centre id whatever surrounds the cell:
      two grids showing the same symbol at (x, y) export the same id there. */
  lemma FlatTerrainIgnoresNeighbours(g: Grid, h: Grid, t: Template, x: int, y: int)
    requires ExportableGrid(g) && ExportableGrid(h) && ValidTemplate(t)
    requires InBounds(g, x, y) && InBounds(h, x, y)
    requires TileAt(g, x, y) == TileAt(h, x, y)
    requires IsTerrain(TileAt(g, x, y)) && !UsesVariants(t, TileAt(g, x, y))
    ensures ExportCell(g, t, x, y) == ExportCell(h, t, x, y) == TerrainIDs(t, TileAt(g, x, y))[0]
  {
  }

  /** A terrain whose flag is on exports the slot its same-symbol neighbours select. */
  lemma VariantTerrainUsesSlot(g: Grid, t: Template, x: int, y: int)
    requires ExportableGrid(g) && ValidTemplate(t) && InBounds(g, x, y)
    requires IsTerrain(TileAt(g, x, y)) && UsesVariants(t, TileAt(g, x, y))
    ensures exists k :: (0 <= k < 16 && SlotPattern(k) == NeighboursOf(g, x, y, TileAt(g, x, y)) &&
                         ExportCell(g, t, x, y) == TerrainIDs(t, TileAt(g, x, y))[k])
  {
    var c := TileAt(g, x, y);
    var k := Get16Slot(NeighboursOf(g, x, y, c));
    assert ExportCell(g, t, x, y) == TerrainIDs(t, c)[k];
  }

  // ---------------------------------------------------------------------------
  // Whole-grid output

  function Row(g: Grid, t: Template, y: int): seq<string>
    requires ExportableGrid(g) && ValidTemplate(t) && 0 <= y < g.height
  {
    seq(g.width, x requires 0 <= x < g.width => ExportCell(g, t, x, y))
  }

  /** The ids of rows 0 .. n-1, row after row. */
  function Rows(g: Grid, t: Template, n: nat): seq<string>
    requires ExportableGrid(g) && ValidTemplate(t) && n <= g.height
  {
    if n == 0 then [] else Rows(g, t, n - 1) + Row(g, t, n - 1)
  }

  /** Rows 0 .. n-1 hold n*width ids. */
  lemma {:induction false} RowsLength(g: Grid, t: Template, n: nat)
    requires ExportableGrid(g) && ValidTemplate(t) && n <= g.height
    ensures |Rows(g, t, n)| == n * g.width
  {
    if n > 0 {
      RowsLength(g, t, n - 1);
      MulMonotone(n - 1, n - 1, g.width);
    }
  }

  /** The id of (x, y) sits at index x + y*width of rows 0 .. n-1. */
  lemma {:induction false} RowsAt(g: Grid, t: Template, n: nat, x: int, y: int)
    requires ExportableGrid(g) && ValidTemplate(t) && n <= g.height
    requires 0 <= x < g.width && 0 <= y < n
    ensures 0 <= x + y * g.width < |Rows(g, t, n)|
    ensures Rows(g, t, n)[x + y * g.width] == ExportCell(g, t, x, y)
  {
    var prev, row := Rows(g, t, n - 1), Row(g, t, n - 1);
    assert Rows(g, t, n) == prev + row;
    if y < n - 1 {
      RowsAt(g, t, n - 1, x, y);
    } else {
      RowsLength(g, t, n - 1);
      assert x + y * g.width == |prev| + x;
      assert row[x] == ExportCell(g, t, x, y);
    }
  }

  /** The exported ids: exactly width*height of them, in row-major order. */
  function ExportIds(g: Grid, t: Template): (ids: seq<string>)
    requires ExportableGrid(g) && ValidTemplate(t)
    ensures |ids| == g.width * g.height
    ensures forall x, y {:trigger ExportCell(g, t, x, y)} :: InBounds(g, x, y) ==>
      0 <= x + y * g.width < |ids| && ids[x + y * g.width] == ExportCell(g, t, x, y)
  {
    RowsLength(g, t, g.height);
    forall x, y {:trigger ExportCell(g, t, x, y)} | InBounds(g, x, y)
      ensures 0 <= x + y * g.width < |Rows(g, t, g.height)|
      ensures Rows(g, t, g.height)[x + y * g.width] == ExportCell(g, t, x, y)
    {
      RowsAt(g, t, g.height, x, y);
    }
    Rows(g, t, g.height)
  }

  /** One row of `populateTemplate`'s loop: writes the ids of row y into their slots
      start .. start+width-1, where start == y*width, and leaves every other slot as
      it was. */
  method ExportRow(g: Grid, t: Template, y: int, start: int, exportTiles: array<string>)
    requires ValidTemplate(t) && ExportableGrid(g) && 0 <= y < g.height
    requires start == y * g.width
    requires exportTiles.Length == g.width * g.height
    modifies exportTiles
    ensures 0 <= start && start + g.width <= exportTiles.Length
    ensures forall i :: start <= i < start + g.width ==> exportTiles[i] == ExportIds(g, t)[i]
    ensures forall i :: 0 <= i < exportTiles.Length && (i < start || start + g.width <= i) ==>
      exportTiles[i] == old(exportTiles[i])
  {
    ghost var ids := ExportIds(g, t);
    RowInRange(g.width, g.height, y);
    var x := 0;
    while x < g.width
      invariant 0 <= x <= g.width
      invariant forall i :: start <= i < start + x ==> exportTiles[i] == ids[i]
      invariant forall i :: 0 <= i < exportTiles.Length && (i < start || start + g.width <= i) ==>
        exportTiles[i] == old(exportTiles[i])
    {
      var id := ExportCell(g, t, x, y);
      assert ids[x + y * g.width] == id;
      exportTiles[start + x] := id;
      x := x + 1;
    }
  }

  /** `populateTemplate`, given the map as its composite view (`Layers.Map.View()`,
      all that the exporter reads through `GetTile`): the map's size, and its ids in
      row-major order joined by commas. */
  method PopulateTemplate(g: Grid, t: Template) returns (width: int, height: int, csv: string)
    requires ValidTemplate(t) && ExportableGrid(g)
    ensures width == g.width && height == g.height
    ensures csv == Csv.Join(ExportIds(g, t), ",")
  {
    width := g.width;
    height := g.height;
    ghost var ids := ExportIds(g, t);
    var exportTiles := new string[g.width * g.height];
    var y, start := 0, 0;
    while y < g.height
      invariant 0 <= y <= g.height
      invariant start == y * g.width
      invariant forall i :: 0 <= i < start && i < exportTiles.Length ==> exportTiles[i] == ids[i]
    {
      ExportRow(g, t, y, start, exportTiles);
      MulMonotone(y, y, g.width);
      y, start := y + 1, start + g.width;
    }
    MulMonotone(0, g.height, g.width);
    assert exportTiles[..] == ids;
    csv := Csv.Join(exportTiles[..], ",");
  }

  /** With comma-free ids, the CSV of a non-empty map splits back into exactly its
      width*height ids. */
  lemma CsvHasOneFieldPerCell(g: Grid, t: Template)
    requires ExportableGrid(g) && ValidTemplate(t) && CommaFree(t)
    requires 1 <= g.width * g.height
    ensures Csv.Split(Csv.Join(ExportIds(g, t), ","), ',') == ExportIds(g, t)
  {
    var ids := ExportIds(g, t);
    assert forall i :: 0 <= i < |ids| ==> ',' !in ids[i] by {
      forall i | 0 <= i < |ids| ensures ',' !in ids[i] {
        RowsFromTemplate(g, t, g.height, i);
        CommaFreeIds(t, ids[i]);
      }
    }
    Csv.SplitJoin(ids, ',');
  }

  lemma {:induction false} RowsFromTemplate(g: Grid, t: Template, n: nat, i: nat)
    requires ExportableGrid(g) && ValidTemplate(t) && n <= g.height && i < |Rows(g, t, n)|
    ensures FromTemplate(t, Rows(g, t, n)[i])
  {
    if n > 0 {
      var prefix := Rows(g, t, n - 1);
      if i < |prefix| {
        RowsFromTemplate(g, t, n - 1, i);
      } else {
        assert Rows(g, t, n)[i] == Row(g, t, n - 1)[i - |prefix|];
      }
    }
  }

  /** A 3x3 single-layer grid of `Nothing` with a wall in the centre, exported with
      wall variants on: eight `nothingID`s around the wall's isolated id. */
  lemma IsolatedWallExample(t: Template)
    requires ValidTemplate(t) && t.wallTerrain
    ensures var g := Grid(3, 3, [[Nothing, Nothing, Nothing, Nothing, Wall, Nothing, Nothing, Nothing, Nothing]]);
      ExportableGrid(g) &&
      ExportIds(g, t) == [t.nothingID, t.nothingID, t.nothingID, t.nothingID, t.wallIDs[15],
                          t.nothingID, t.nothingID, t.nothingID, t.nothingID]
  {
    var cells := [Nothing, Nothing, Nothing, Nothing, Wall, Nothing, Nothing, Nothing, Nothing];
    var g := Grid(3, 3, [cells]);
    forall x, y | InBounds(g, x, y)
      ensures TileAt(g, x, y) == (if x == 1 && y == 1 then Wall else Nothing)
    {
      SingleLayerShowsItself(g, x, y);
    }
    assert ExportableGrid(g);
    assert NeighboursOf(g, 1, 1, Wall) == Neighbours(false, false, false, false);
    forall x, y | InBounds(g, x, y)
      ensures ExportCell(g, t, x, y) == if x == 1 && y == 1 then t.wallIDs[15] else t.nothingID
    {
    }
    var ids := ExportIds(g, t);
    var expected := [t.nothingID, t.nothingID, t.nothingID, t.nothingID, t.wallIDs[15],
                     t.nothingID, t.nothingID, t.nothingID, t.nothingID];
    forall i | 0 <= i < 9 ensures ids[i] == expected[i] {
      var x, y := i % 3, i / 3;
      assert i == x + y * 3;
      assert ids[x + y * 3] == ExportCell(g, t, x, y);
    }
  }
}
