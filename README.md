# gmgmap layered tile grid and TMX autotile export, in Dafny

This project models two cooperating parts of the `gmgmap` map generator.

**The layered tile grid** (`gmgmap/map.go`). A `Layer` is a named buffer of
`Width*Height` runes, row-major, with cell (x, y) in slot `x + y*Width`. The model covers
its point write `setTile`, whole-layer `fill`, filled or outlined `rectangle`, the
read-only area test `isClear` and the neighbourhood counter `countTiles`. A `Map` is an
ordered stack of equally sized layers. `NewMap` seeds it with "Ground" and "Structures",
and `Map.Layer(name)` finds a layer by name or appends an empty one. The composite
visibility rule is the one `Print` applies: scan the layers bottom to top and show the
first tile that is not `nothing`, or the top layer's tile when all are `nothing`.

**The autotile export engine** (`gmgmap/tmx.go`). `populateTemplate` turns every cell of
the composite grid into a tile-set id of a `TMXTemplate`:

- a `nothing` cell gives `nothingID`;
- a door gives `doorH` or `doorV`, depending on the cell to its left;
- a terrain whose variant flag is off gives slot 0 of its id table;
- a terrain whose flag is on gives the slot `get16Tile` picks from its four same-symbol
  neighbours.

The ids are joined in row-major order with commas.

Files and modules:

- `tiles.dfy` (`Tiles`): tile symbols, `IsWall`, the bounds-error result, and the
  row-major index arithmetic.
- `layers.dfy` (`Layers`): `Layer` is a class whose tile buffer is an `array<char>`
  updated in place. `Map` is a class whose layer list is a `seq<Layer>` field that
  `Layer(name)` reassigns.
- `composite.dfy` (`Composite`): a value snapshot of a map's layers (`Grid`), the
  visibility rule, and the bounds-checked `GetTile`.
- `csv.dfy` (`Csv`): `strings.Join` and the split that inverts it.
- `tmx.dfy` (`Tmx`): the template, `DawnLikeTemplate`, the 16-slot classifier, the
  per-cell policy, and the `populateTemplate` loop.

## Model

| member | source | states |
|---|---|---|
| Layers.Layer.constructor | gmgmap/map.go:62-69 | a new layer has the given name and size, `Width*Height` slots, and every slot is `nothing` |
| Layers.Layer.SetTile | gmgmap/map.go:83-89 | slot x+y*Width becomes t and no other slot changes; for an in-bounds cell, reading it back gives t and every other in-bounds cell reads as before |
| Layers.Layer.Fill | gmgmap/map.go:92-98 | afterwards every slot of the layer holds t |
| Layers.Layer.Rectangle | gmgmap/map.go:101-109 | filled: every cell of r becomes t; outlined: exactly the cells on r's first/last row and column become t; every other cell is unchanged |
| Layers.Layer.IsClear | gmgmap/map.go:157-166 | true iff every cell of the area has a slot and is `nothing`; the layer is not modified (no `modifies` clause); only the cells the column-by-column scan reaches before its first non-`nothing` cell need a slot |
| Layers.Layer.BlockedScanNeedsNoMoreSlots | gmgmap/map.go:158-161 | a scan that meets a non-`nothing` cell first may be asked about an area running past the buffer: a 3x3 layer with a wall in its corner accepts a 1x100 column |
| Layers.Layer.CountTiles | gmgmap/map.go:170-182 | the result is the number of positions of the (2r+1)x(2r+1) square that hold the tile or lie outside the layer, and lies in [0, (2r+1)^2] |
| Layers.Layer.SquareCountBounded | gmgmap/map.go:170-182 | a square count never exceeds the number of positions scanned |
| Layers.Layer.ColumnOutsideCountsAll | gmgmap/map.go:174-175 | every position of a column outside the layer counts as a match |
| Layers.Layer.CountOnSingleCell | gmgmap/map.go:170-182 | on a 1x1 layer with r = 1 the count is 8, plus 1 when the single cell holds the tile |
| Layers.Map.constructor | gmgmap/map.go:52-60 | a new map has its size and exactly two empty layers, "Ground" under "Structures" |
| Layers.Map.Layer | gmgmap/map.go:73-81 | if a layer has that name, returns the first such layer and leaves the stack unchanged; otherwise appends exactly one fresh `nothing`-filled layer of the map's size and returns it |
| Layers.Map.View | gmgmap/map.go:14-18 | the map's composite grid: its size, and each layer's current tiles, bottom first |
| Composite.VisibleIndex | gmgmap/map.go:130-135 | the chosen layer is below the top of the stack, every layer under it is `nothing`, and it is not `nothing` unless it is the top layer |
| Composite.VisibleIndexUnique | gmgmap/map.go:130-135 | those three conditions determine the chosen layer: the rule picks exactly one |
| Composite.TileAt | gmgmap/map.go:130-135 | the visible tile comes from a layer all of whose lower layers are `nothing` there, and is `nothing` only when that layer is the top one |
| Composite.LowestOpaqueWins | gmgmap/map.go:130-135 | the lowest layer with a non-`nothing` tile is the one shown |
| Composite.TopLayerIsFallback | gmgmap/map.go:130-135 | when every layer is `nothing` at a cell, the top layer's tile (`nothing`) is shown |
| Composite.GetTile | gmgmap/tmx.go:130-133 | an error exactly for cells outside the grid; otherwise the visible tile |
| Tmx.DawnLikeIsValid | gmgmap/tmx.go:48-59 | every DawnLike id table has 16 entries and no id contains the CSV separator |
| Tmx.Get16Slot | gmgmap/tmx.go:190-245 | every neighbour pattern selects one of the 16 slots, and that slot's documented pattern is the input; so the final `panic` is unreachable |
| Tmx.Get16SlotOfPattern | gmgmap/tmx.go:195-243 | every slot is selected by its own documented pattern |
| Tmx.SlotPatternInjective | gmgmap/tmx.go:195-243 | no two slots share a pattern: the 16 guards are pairwise disjoint |
| Tmx.SlotShapes | gmgmap/tmx.go:196-242 | all four neighbours give slot 0, three an edge, two adjacent a corner, left+right slot 9, up+down slot 10, one an end cap, none slot 15 |
| Tmx.NeighboursOf | gmgmap/tmx.go:191-194 | each of the four neighbours is present exactly when it lies in the grid and shows the same symbol |
| Tmx.Get16Tile | gmgmap/tmx.go:190-245 | the id is the table entry of the slot whose documented pattern is the cell's neighbourhood |
| Tmx.IsSameTile | gmgmap/tmx.go:247-250 | false outside the grid; inside, true iff the visible tile is the given one |
| Tmx.EdgeNeighboursDiffer | gmgmap/tmx.go:191-194 | at the grid's edges the missing neighbour never counts as the same symbol |
| Tmx.ExportCell | gmgmap/tmx.go:134-184 | the id exported for a cell is always one of the template's ids |
| Tmx.NothingExportsNothingID | gmgmap/tmx.go:136-138 | a `nothing` cell exports `nothingID` |
| Tmx.DoorOrientation | gmgmap/tmx.go:175-182 | a door exports `doorH` in the first column or with a wall to its left, `doorV` otherwise |
| Tmx.FlatTerrainIgnoresNeighbours | gmgmap/tmx.go:139-174 | with its flag off, a terrain exports slot 0 of its table, whatever its neighbours |
| Tmx.VariantTerrainUsesSlot | gmgmap/tmx.go:139-174 | with its flag on, a terrain exports the entry of the slot whose documented pattern is its same-symbol neighbourhood |
| Tmx.ExportIds | gmgmap/tmx.go:127-137 | exactly Width*Height ids, and the id of (x, y) sits at x+y*Width |
| Tmx.PopulateTemplate | gmgmap/tmx.go:124-188 | Width and Height are the map's, and CSV is the row-major ids joined by "," |
| Tmx.ExportRow | gmgmap/tmx.go:129-185 | one pass of the inner loop writes row y's ids into its slots and leaves every other slot alone |
| Tmx.CsvHasOneFieldPerCell | gmgmap/tmx.go:187 | for comma-free ids, splitting the CSV of a non-empty map at commas gives back exactly its Width*Height ids |
| Tmx.IsolatedWallExample | gmgmap/tmx.go:151-156 | a lone wall in a 3x3 `nothing` grid exports the isolated wall id (slot 15), surrounded by eight `nothingID`s |
| Csv.Join | gmgmap/tmx.go:187 | the joined line starts with the first part and holds every part plus one separator between each pair of neighbours; no parts give the empty line |
| Csv.SplitJoin | gmgmap/tmx.go:187 | splitting a join at a separator that occurs in no part gives the parts back |

## Left out

- `ToTMX` (directory creation, asset copying, file creation, `text/template` execution) is file-system and library I/O and is not part of this model.
- `Print`'s frame and `fmt` output is console I/O. Only its layer-selection rule is kept, as `Composite.TileAt`.
- `Map.GetTile` is called by the exporter, but its definition is not part of this model. It is modelled as `Composite.GetTile`: the visibility rule from `Print` plus a bounds check whose error means "out of bounds".
- The `rect` type is not part of this model. `Layers.Rect` stands for it (corner, width, height).
- `IsWall` is a definition with no contract of its own. It is used by `Tmx.DoorOrientation`.
- `Layer.getTile` is `Layers.Layer.GetTile`, a plain read; its meaning is stated through `SetTile`'s contract.
- Layers.Layer.Rectangle: requires a non-empty rectangle to lie inside the layer. The code only needs every drawn slot to fall in the buffer; with rows that wrap, the "cells outside r are unchanged" promise would not hold.
- Layers.Layer.constructor: width and height are natural numbers; the code would accept negative sizes whose product is not negative.
- Layers.Map.constructor: width and height are natural numbers, as for `Layers.Layer.constructor`.
- Layers.Layer.SetTile: requires slot x+y*Width to lie in the buffer. The code indexes the slice there and panics otherwise; it has no error value at this level.
- Layers.Layer.GetTile: requires slot x+y*Width to lie in the buffer, for the same reason as `SetTile`.
- Layers.Layer.IsClear: requires every cell the scan reaches to have a slot; the code panics on the first one that does not.
- Go's 64-bit `int` arithmetic (`x+y*Width`, `x-r`, `x+r`, the counter `c`) is modelled with unbounded integers, so overflow on huge sizes or radii is not modelled.
- Tmx.PopulateTemplate: takes the map's composite grid (`Layers.Map.View()`) rather than the `Map` object. That grid is everything the exporter reads through `GetTile`.
- Tmx.PopulateTemplate: the output buffer is sized `Width*Height`. The code writes `len(m.Tiles)`, but `Map` has no such field, and the indexing `x+y*Width` needs exactly `Width*Height` slots.
- Tmx.PopulateTemplate: returns Width, Height and CSV rather than writing them into a shared template. The template is an immutable value.
- Tmx.PopulateTemplate: requires every visible tile to be one the switch handles, and every id table to hold 16 ids. In the code any other symbol reaches `get16Tile` with a nil table and fails on indexing.
- Tmx.ExportCell: the per-cell switch of the loop body is a function. The loop that writes each result into the buffer is `Tmx.ExportRow`/`Tmx.PopulateTemplate`.
- Concurrency and floating point do not occur in these files.
