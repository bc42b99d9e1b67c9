/**
 * The fixed geometry of the carrom board: the 960 x 540 canvas, the square
 * playing area inside it, the four corner pockets, the disc radii and the
 * striker's home spot.
 */
module Board {

  const CanvasWidth: real := 960.0
  const CanvasHeight: real := 540.0

  const BoardMargin: real := 50.0
  /** Side of the square board: 540 - 2 * 50 = 440. */
  const BoardSize: real := CanvasHeight - 2.0 * BoardMargin
  /** Left edge of the board: (960 - 440) / 2 = 260. */
  const BoardX: real := (CanvasWidth - BoardSize) / 2.0
  /** Top edge of the board. */
  const BoardY: real := BoardMargin

  const PocketRadius: real := 25.0
  const StrikerRadius: real := 18.0
  const CoinRadius: real := 15.0

  /** Where the striker starts and where every reset puts it: (480, 420). */
  const HomeX: real := CanvasWidth / 2.0
  const HomeY: real := BoardY + BoardSize - 70.0

  /** Centre of the canvas, where the queen is placed: (480, 270). */
  const CenterX: real := CanvasWidth / 2.0
  const CenterY: real := CanvasHeight / 2.0

  datatype Point = Point(x: real, y: real)

  /** The four pockets, each one pocket radius in from a corner of the board. */
  const Pockets: seq<Point> := [
    Point(BoardX + PocketRadius, BoardY + PocketRadius),
    Point(BoardX + BoardSize - PocketRadius, BoardY + PocketRadius),
    Point(BoardX + PocketRadius, BoardY + BoardSize - PocketRadius),
    Point(BoardX + BoardSize - PocketRadius, BoardY + BoardSize - PocketRadius)
  ]

  /** A disc of radius r centred at (x, y) lies entirely on the board. */
  predicate InsideBoard(x: real, y: real, r: real) {
    && BoardX + r <= x <= BoardX + BoardSize - r
    && BoardY + r <= y <= BoardY + BoardSize - r
  }

  /**
   * The centre (x, y) is strictly closer than the pocket radius to pocket p.
   * The source compares a square root with the radius; both sides are
   * non-negative, so comparing the squares is the same test.
   */
  predicate InPocket(x: real, y: real, p: Point) {
    (x - p.x) * (x - p.x) + (y - p.y) * (y - p.y) < PocketRadius * PocketRadius
  }

  /** Some pocket captures the centre (x, y). */
  predicate Captured(x: real, y: real) {
    exists i :: 0 <= i < |Pockets| && InPocket(x, y, Pockets[i])
  }

  /** The striker's home spot lies on the board and in no pocket. */
  lemma HomeIsSafe()
    ensures InsideBoard(HomeX, HomeY, StrikerRadius)
    ensures !Captured(HomeX, HomeY)
  {
    forall i | 0 <= i < |Pockets|
      ensures !InPocket(HomeX, HomeY, Pockets[i])
    {
      assert Pockets[i].x == 285.0 || Pockets[i].x == 675.0;
    }
  }
}
