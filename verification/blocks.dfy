/**
 * Rectangular blocks of the floorplanner (`module.h`).  A block is built with
 * its longer side as width, carries the lower-left corner it was placed at,
 * and remembers the arena index of the tree node that stands for it.
 */
module Blocks {
  import opened Arena

  /** `INT_MAX` of a 32-bit `int`: the contour's right sentinel and a fresh tree's cost. */
  const IntMax: int := 2147483647

  /** An integer point of the plane, the source's `XY` pair. */
  datatype Point = Point(x: int, y: int)

  /** A placed rectangle: `(x, y)` is its lower-left corner, `node` its tree node or `Null`. */
  datatype Block = Block(id: int, width: int, height: int, x: int, y: int, node: int)

  /** The orientation flag of a block: set when it stands taller than it is wide. */
  predicate Orien(b: Block) {
    b.width < b.height
  }

  /** Both sides are non-negative. */
  predicate Sized(b: Block) {
    b.width >= 0 && b.height >= 0
  }

  /**
   * The block constructor: the longer of the two given sides becomes the
   * width, so a fresh block never has its orientation flag set.  The source
   * leaves the node pointer unset until a tree node registers itself.
   */
  function Make(id: int, w: int, h: int, low: Point): (b: Block)
    ensures multiset{b.width, b.height} == multiset{w, h}
    ensures b.width >= b.height && !Orien(b)
    ensures b.id == id && Low(b) == low && b.node == Null
  {
    Block(id, if w >= h then w else h, if w >= h then h else w, low.x, low.y, Null)
  }

  /** The lower-left corner. */
  function Low(b: Block): Point {
    Point(b.x, b.y)
  }

  /** The upper-right corner. */
  function Top(b: Block): (p: Point)
    ensures Sized(b) ==> Low(b).x <= p.x && Low(b).y <= p.y
    ensures p.x - b.x == b.width && p.y - b.y == b.height
  {
    Point(b.x + b.width, b.y + b.height)
  }

  /** Turning a block by a quarter: the two sides trade places, nothing else moves. */
  function Rotate(b: Block): (r: Block)
    ensures multiset{r.width, r.height} == multiset{b.width, b.height}
    ensures Low(r) == Low(b) && r.id == b.id && r.node == b.node
    ensures b.width != b.height ==> Orien(r) == !Orien(b)
    ensures b.width == b.height ==> r == b
    ensures Sized(b) ==> Sized(r)
  {
    b.(width := b.height, height := b.width)
  }

  /** A quarter turn done twice gives back the same block. */
  lemma RotateTwice(b: Block)
    ensures Rotate(Rotate(b)) == b
  {
  }
}
