/** The playing field: grid cells, the four directions and the two field sizes. */
module Grid {

  /** A grid cell, column `x` and row `y`; row 0 is the top row. */
  datatype Cell = Cell(x: int, y: int)

  /** UP=(0,-1), DOWN=(0,1), LEFT=(-1,0), RIGHT=(1,0). */
  datatype Dir = Up | Down | Left | Right

  function DX(d: Dir): int {
    match d
    case Left => -1
    case Right => 1
    case _ => 0
  }

  function DY(d: Dir): int {
    match d
    case Up => -1
    case Down => 1
    case _ => 0
  }

  /** The direction whose vector is the negation of `d`'s. */
  function Opposite(d: Dir): (o: Dir)
    ensures DX(o) == -DX(d) && DY(o) == -DY(d)
    ensures o != d
  {
    match d
    case Up => Down
    case Down => Up
    case Left => Right
    case Right => Left
  }

  /** Pixel size of one cell. */
  const CellSize := 20

  /** A field of `width` columns and `height` rows. */
  datatype Arena = Arena(width: int, height: int)

  /** 800x600 pixels of play area: the field of V5..V9 and the current version. */
  const Wide := Arena(800 / CellSize, 600 / CellSize)

  /** 600x400 pixels of play area: the field of V1..V4. */
  const Narrow := Arena(600 / CellSize, 400 / CellSize)

  /** Both sizes are large enough that a wrapped step never stays in place. */
  predicate Roomy(a: Arena) { a.width >= 2 && a.height >= 2 }

  predicate InArena(a: Arena, c: Cell) {
    0 <= c.x < a.width && 0 <= c.y < a.height
  }

  /** `[GRID_WIDTH // 2, GRID_HEIGHT // 2]`, where every round starts. */
  function Start(a: Arena): Cell { Cell(a.width / 2, a.height / 2) }

  /** The cell one step from `c` in direction `d`. */
  function Shift(c: Cell, d: Dir): Cell { Cell(c.x + DX(d), c.y + DY(d)) }

  /** One coordinate of the borderless wrap: past the far edge to 0, before 0 to the far edge. */
  function WrapAxis(v: int, n: int): int {
    if v >= n then 0 else if v < 0 then n - 1 else v
  }

  function Wrap(a: Arena, c: Cell): Cell {
    Cell(WrapAxis(c.x, a.width), WrapAxis(c.y, a.height))
  }

  /** The new head: one step, wrapped around the edges when `borderless`. */
  function Advance(a: Arena, c: Cell, d: Dir, borderless: bool): Cell {
    if borderless then Wrap(a, Shift(c, d)) else Shift(c, d)
  }

  /**
   * A wrapped step from a cell of the field stays in the field, never stays
   * in place, is the plain step whenever that one is in the field, and
   * otherwise re-enters at the opposite edge on the same row or column.
   */
  lemma WrapStep(a: Arena, c: Cell, d: Dir)
    requires Roomy(a) && InArena(a, c)
    ensures InArena(a, Wrap(a, Shift(c, d)))
    ensures Wrap(a, Shift(c, d)) != c
    ensures InArena(a, Shift(c, d)) ==> Wrap(a, Shift(c, d)) == Shift(c, d)
    ensures !InArena(a, Shift(c, d)) ==>
      var w := Wrap(a, Shift(c, d));
      match d
      case Right => c.x == a.width - 1 && w == Cell(0, c.y)
      case Left => c.x == 0 && w == Cell(a.width - 1, c.y)
      case Down => c.y == a.height - 1 && w == Cell(c.x, 0)
      case Up => c.y == 0 && w == Cell(c.x, a.height - 1)
  {
  }

  /** A plain step never stays in place. */
  lemma ShiftMoves(c: Cell, d: Dir)
    ensures Shift(c, d) != c
  {
  }
}
