/** Tile symbols of the gmgmap grid, the wall classification, the error value of
    bounds-checked reads, and the row-major cell index shared by every layer. */
module Tiles {

  // Terrain symbols
  const Nothing: char := ' '
  const Floor: char := 'f'
  const Floor2: char := 'F'
  const Road: char := 'r'
  const Wall: char := 'w'
  const Wall2: char := 'W'
  const Room: char := '.'
  const Room2: char := '#'
  const Door: char := '+'
  const StairsUp: char := '<'
  const StairsDown: char := '>'
  const Tree: char := 'T'
  const Grass: char := 'g'

  // Flavour symbols
  const Sign: char := 's'
  const Hanging: char := 'h'
  const Window: char := 'o'
  const Counter: char := '_'
  const Shopkeeper: char := 'A'
  const Shelf: char := 'S'
  const Stock: char := ')'
  const Table: char := 't'
  const Chair: char := 'c'
  const Rug: char := '~'
  const Pot: char := '('
  const Assistant: char := 'a'
  const Player: char := '@'

  /** The two wall variants. */
  predicate IsWall(t: char) {
    t == Wall || t == Wall2
  }

  /** The only failure of a bounds-checked read. */
  datatype TileError = OutOfBounds

  datatype Result<T> = Ok(value: T) | Err(error: TileError)

  /** A cell (x, y) with 0 <= x < w and 0 <= y < h has its slot x + y*w inside a
      buffer of w*h tiles. */
  lemma IndexInRange(w: nat, h: nat, x: int, y: int)
    requires 0 <= x < w && 0 <= y < h
    ensures 0 <= x + y * w < w * h
  {
    assert y * w <= (h - 1) * w by {
      MulMonotone(y, h - 1, w);
    }
    assert (h - 1) * w == h * w - w;
  }

  /** Row y of a w*h buffer, slots y*w .. y*w+w-1, lies inside the buffer. */
  lemma RowInRange(w: nat, h: nat, y: int)
    requires 0 <= y < h
    ensures 0 <= y * w && y * w + w <= w * h
  {
    MulMonotone(y + 1, h, w);
    MulMonotone(y, y, w);
    MulMonotone(0, y, w);
  }

  /** Distinct in-bounds columns/rows never share a slot: x + y*w is injective on
      0 <= x < w, 0 <= y. */
  lemma IndexInjective(w: nat, x: int, y: int, x': int, y': int)
    requires 0 <= x < w && 0 <= x' < w && 0 <= y && 0 <= y'
    requires x + y * w == x' + y' * w
    ensures x == x' && y == y'
  {
    if y < y' {
      MulMonotone(y + 1, y', w);
    } else if y' < y {
      MulMonotone(y' + 1, y, w);
    }
  }

  lemma MulMonotone(a: int, b: int, w: nat)
    requires a <= b
    ensures a * w <= b * w
    ensures (a + 1) * w == a * w + w
  {
    assert b * w - a * w == (b - a) * w;
  }
}
