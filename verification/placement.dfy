/**
 * The integer core of the floorplanner (`floorplanner.h`, `floorplanner.cpp`):
 * packing the blocks along the B*-tree with the contour, the chip bounding
 * box, and the legality, outline, overlap and ordering predicates.
 *
 * A B*-tree node stands for the block whose index in the block list is its
 * id.  The root block sits at the origin; a left child is packed just right
 * of its parent block, a right child on top of it at the same x; either way
 * it is dropped onto the contour until it rests on the blocks below.
 */
module Placement {
  import opened Arena
  import opened Wrappers
  import opened Blocks
  import opened Skyline
  import BStar

  /**
   * The state of the floorplanner the core works on: the cost weight, the
   * fixed outline, the expected block count, the chip bounding box, the block
   * list (indexed by block id), the contour and the current B*-tree.
   */
  datatype Floorplanner = Floorplanner(
    alpha: real,
    outlineWidth: int,
    outlineHeight: int,
    numBlocks: int,
    chipWidth: int,
    chipHeight: int,
    blocks: seq<Block>,
    contour: Contour,
    tree: BStar.Bst)

  const AlphaRange := "Alpha value error: has to be within interval [0,1]"
  const SelfLoop := "Error: Node points to itself"
  const Mismatch := "Block number mismatch with node number"
  /** Not a message of the source: there, running off the contour is undefined behaviour. */
  const Overrun := "contour has no corner at or right of the block's right edge"

  // ---------------------------------------------------------------------
  // Queries
  // ---------------------------------------------------------------------

  /**
   * The x at which `place_block` puts a block: 0 for the root, the parent
   * block's left edge for a right child (`lr`), its right edge otherwise.
   * `parent` is the parent's block id, or `Null` for the root.
   */
  function Anchor(blocks: seq<Block>, parent: int, lr: bool): int
    requires parent == Null || 0 <= parent < |blocks|
  {
    if parent == Null then 0
    else if lr then blocks[parent].x
    else Top(blocks[parent]).x
  }

  /**
   * `place_legal`: the block would end within the outline's width if it were
   * placed below `parent` on side `lr`; it agrees with where `place_block`
   * puts it.
   */
  function PlaceLegal(fp: Floorplanner, parent: int, b: Block, lr: bool): (ok: bool)
    requires parent == Null || 0 <= parent < |fp.blocks|
    ensures ok <==> Anchor(fp.blocks, parent, lr) + b.width <= fp.outlineWidth
  {
    if parent == Null then b.width <= fp.outlineWidth
    else if lr then Low(fp.blocks[parent]).x + b.width <= fp.outlineWidth
    else Top(fp.blocks[parent]).x + b.width <= fp.outlineWidth
  }

  /** `is_legal`: the chip fits in the outline. */
  predicate IsLegal(fp: Floorplanner) {
    fp.chipWidth <= fp.outlineWidth && fp.chipHeight <= fp.outlineHeight
  }

  /** `get_area`: the area of the chip bounding box; the 32-bit product is not modelled. */
  function Area(fp: Floorplanner): (a: int)
    ensures fp.chipWidth >= 0 && fp.chipHeight >= 0 ==> a >= 0
    ensures a == 0 <==> fp.chipWidth == 0 || fp.chipHeight == 0
  {
    fp.chipWidth * fp.chipHeight
  }

  /** A legal chip of non-negative size has at most the outline's area. */
  lemma LegalArea(fp: Floorplanner)
    requires IsLegal(fp) && fp.chipWidth >= 0 && fp.chipHeight >= 0
    ensures Area(fp) <= fp.outlineWidth * fp.outlineHeight
  {
    calc {
      fp.chipWidth * fp.chipHeight;
    <= { MulLeft(fp.chipWidth, fp.chipHeight, fp.outlineHeight); }
      fp.chipWidth * fp.outlineHeight;
    <= { MulLeft(fp.outlineHeight, fp.chipWidth, fp.outlineWidth); }
      fp.outlineWidth * fp.outlineHeight;
    }
  }

  /** Multiplying by a non-negative factor keeps the order. */
  lemma MulLeft(k: int, a: int, b: int)
    requires k >= 0 && a <= b
    ensures k * a <= k * b && a * k <= b * k
  {
    assert k * b - k * a == k * (b - a);
  }

  /**
   * `set_alpha`: a weight outside `[0, 1]` stops the program; any other is
   * stored as given.
   */
  function SetAlpha(fp: Floorplanner, val: real): (res: Result<Floorplanner, string>)
    ensures res.Ok? <==> 0.0 <= val <= 1.0
    ensures res.Ok? ==> res.value.alpha == val && res.value == fp.(alpha := val)
    ensures res.Fatal? ==> res.error == AlphaRange
  {
    if val > 1.0 || val < 0.0 then Fatal(AlphaRange) else Ok(fp.(alpha := val))
  }

  // ---------------------------------------------------------------------
  // compare_block_by_width
  // ---------------------------------------------------------------------

  /** `compare_block_by_width`: wider first, and of equally wide blocks the taller first. */
  function CompareByWidth(a: Block, b: Block): (before: bool)
    ensures before <==> a.width > b.width || (a.width == b.width && a.height > b.height)
  {
    if a.width > b.width then true
    else if a.width < b.width then false
    else a.height > b.height
  }

  /**
   * The comparison is a strict weak order, as sorting needs: never true both
   * ways (so false on equal blocks), transitive, and two blocks are
   * unordered exactly when they have the same sides.
   */
  lemma CompareStrictWeak(a: Block, b: Block, c: Block)
    ensures !CompareByWidth(a, a)
    ensures CompareByWidth(a, b) ==> !CompareByWidth(b, a)
    ensures CompareByWidth(a, b) && CompareByWidth(b, c) ==> CompareByWidth(a, c)
    ensures !CompareByWidth(a, b) && !CompareByWidth(b, a) <==> a.width == b.width && a.height == b.height
  {
  }

  // ---------------------------------------------------------------------
  // block_overlap and check_outline
  // ---------------------------------------------------------------------

  /** The half-open span `[lo, hi)` or `(lo, hi]` of the source's edge test. */
  predicate Straddles(p: int, q: int, lo: int, hi: int) {
    (p >= lo && p < hi) || (q > lo && q <= hi)
  }

  /**
   * `block_overlap`: a corner of one block lies within the other, looked for
   * once from each side.
   */
  predicate Overlap(a: Block, b: Block) {
    (Straddles(a.x, Top(a).x, b.x, Top(b).x) && Straddles(a.y, Top(a).y, b.y, Top(b).y)) ||
    (Straddles(b.x, Top(b).x, a.x, Top(a).x) && Straddles(b.y, Top(b).y, a.y, Top(a).y))
  }

  /** The open rectangles of two blocks share a point. */
  predicate Interiors(a: Block, b: Block) {
    a.x < Top(b).x && b.x < Top(a).x && a.y < Top(b).y && b.y < Top(a).y
  }

  /** Overlap does not depend on the order of the two blocks. */
  lemma OverlapSymmetric(a: Block, b: Block)
    ensures Overlap(a, b) <==> Overlap(b, a)
  {
  }

  /** Blocks that only share an edge, side by side or one on top of the other, do not overlap. */
  lemma EdgeTouchNoOverlap(a: Block, b: Block)
    requires a.width > 0 && a.height > 0 && b.width > 0 && b.height > 0
    requires Top(a).x == b.x || Top(b).x == a.x || Top(a).y == b.y || Top(b).y == a.y
    ensures !Overlap(a, b)
  {
  }

  /** Overlap reported between blocks of positive size is real: their interiors meet. */
  lemma OverlapSound(a: Block, b: Block)
    requires a.width > 0 && a.height > 0 && b.width > 0 && b.height > 0
    ensures Overlap(a, b) ==> Interiors(a, b)
  {
  }

  /**
   * The corner test is not complete: a wide flat block crossing a tall thin
   * one overlaps it with no corner of either inside the other.
   */
  lemma CrossMissed()
    ensures var a := Block(0, 3, 1, 0, 1, Null);
      var b := Block(1, 1, 3, 1, 0, Null);
      Interiors(a, b) && !Overlap(a, b)
  {
  }

  /** The block's top corner lies beyond the outline. */
  predicate Sticks(fp: Floorplanner, b: Block) {
    Top(b).x > fp.outlineWidth || Top(b).y > fp.outlineHeight
  }

  /** Every block's top corner is within the outline. */
  predicate Inside(fp: Floorplanner) {
    forall i | 0 <= i < |fp.blocks| :: !Sticks(fp, fp.blocks[i])
  }

  /**
   * `check_outline`: the ids of the blocks sticking out of the outline are
   * collected (and reported); the check passes when there are none.
   */
  method CheckOutline(fp: Floorplanner) returns (ok: bool, out: seq<int>)
    ensures ok <==> Inside(fp)
    ensures ok <==> |out| == 0
    ensures forall k | 0 <= k < |out| ::
      (exists i | 0 <= i < |fp.blocks| :: fp.blocks[i].id == out[k] && Sticks(fp, fp.blocks[i]))
    ensures forall i | 0 <= i < |fp.blocks| && Sticks(fp, fp.blocks[i]) :: fp.blocks[i].id in out
  {
    out := [];
    var i := 0;
    while i < |fp.blocks|
      invariant 0 <= i <= |fp.blocks|
      invariant |out| == 0 <==> forall j | 0 <= j < i :: !Sticks(fp, fp.blocks[j])
      invariant forall k | 0 <= k < |out| ::
        (exists j | 0 <= j < i :: fp.blocks[j].id == out[k] && Sticks(fp, fp.blocks[j]))
      invariant forall j | 0 <= j < i && Sticks(fp, fp.blocks[j]) :: fp.blocks[j].id in out
    {
      var top := Top(fp.blocks[i]);
      if top.x > fp.outlineWidth || top.y > fp.outlineHeight {
        out := out + [fp.blocks[i].id];
      }
      i := i + 1;
    }
    ok := |out| == 0;
  }

  // ---------------------------------------------------------------------
  // place_block
  // ---------------------------------------------------------------------

  /**
   * `place_block`: the block goes to the anchor x given by its parent and
   * side, and down onto the contour to the height `find_blk_y` gives (the
   * root to the origin), and the contour is updated with it.  Only the
   * position of the block changes.
   */
  method PlaceBlock(c: Contour, blocks: seq<Block>, parent: int, b: Block, lr: bool)
    returns (res: Result<(Block, Contour), string>)
    requires parent == Null || 0 <= parent < |blocks|
    ensures res.Ok? <==> Covers(c.hor, Anchor(blocks, parent, lr) + b.width)
    ensures res.Fatal? ==> res.error == Overrun
    ensures res.Ok? ==>
      res.value.0 == b.(x := res.value.0.x, y := res.value.0.y) &&
      res.value.0.x == Anchor(blocks, parent, lr) &&
      (parent == Null ==> res.value.0.y == 0) &&
      (parent != Null ==> Resting(c.hor, res.value.0.x, b.width, res.value.0.y)) &&
      Covers(c.hor, Top(res.value.0).x) && res.value.1 == Update(c, res.value.0)
  {
    var x := Anchor(blocks, parent, lr);
    var y := 0;
    if parent != Null {
      y := FindBlkY(c, b, x);
    }
    var placed := b.(x := x, y := y);
    assert placed.x == x && placed.y == y && Top(placed).x == x + b.width;
    if !Covers(c.hor, x + b.width) {
      return Fatal(Overrun);
    }
    return Ok((placed, Update(c, placed)));
  }

  /** `place_legal` predicts whether `place_block` keeps the block within the outline's width. */
  lemma PlaceLegalPredicts(fp: Floorplanner, parent: int, b: Block, lr: bool, placed: Block)
    requires parent == Null || 0 <= parent < |fp.blocks|
    requires placed == b.(x := Anchor(fp.blocks, parent, lr), y := placed.y)
    ensures PlaceLegal(fp, parent, b, lr) <==> Top(placed).x <= fp.outlineWidth
  {
  }

  // ---------------------------------------------------------------------
  // update_block_dfs and update_all_blocks
  // ---------------------------------------------------------------------

  /** Every block has sides of non-negative length. */
  predicate AllSized(blocks: seq<Block>) {
    forall i | 0 <= i < |blocks| :: Sized(blocks[i])
  }

  /** The same block, possibly turned: same id and the same two sides. */
  predicate SameShape(a: Block, b: Block) {
    a.id == b.id &&
    ((a.width == b.width && a.height == b.height) || (a.width == b.height && a.height == b.width))
  }

  /** The ids in `ids` are pairwise different. */
  predicate Unique(ids: seq<int>) {
    forall i, j | 0 <= i < j < |ids| :: ids[i] != ids[j]
  }

  /** The block ids of the nodes `vs`. */
  function Labels(nodes: seq<BStar.Node>, vs: seq<nat>): (r: seq<int>)
    requires forall k | 0 <= k < |vs| :: vs[k] < |nodes|
    ensures |r| == |vs| && forall k | 0 <= k < |vs| :: r[k] == nodes[vs[k]].id
  {
    seq(|vs|, k requires 0 <= k < |vs| => nodes[vs[k]].id)
  }

  /**
   * Node `n` can be packed: its block id is in the block list and, unless it
   * is the root, so is its parent's, through a parent pointer that is set.
   */
  predicate Seated(nodes: seq<BStar.Node>, root: int, nb: int, n: nat)
    requires n < |nodes|
  {
    0 <= nodes[n].id < nb &&
    (n == root || (BStar.Ref(nodes, nodes[n].parent) && 0 <= nodes[nodes[n].parent].id < nb))
  }

  /**
   * Every node the depth-first packing from `n` reaches can be packed; the
   * walk stops (with an error) at a node that is its own child.
   */
  ghost predicate Placeable(nodes: seq<BStar.Node>, root: int, nb: int, n: int, rank: seq<nat>)
    requires BStar.Descends(nodes, rank) && BStar.Link(nodes, n)
    decreases if n == Null then 0 else rank[n] + 1
  {
    n == Null ||
    (Seated(nodes, root, nb, n) &&
     (nodes[n].left == n || nodes[n].right == n ||
      (Placeable(nodes, root, nb, nodes[n].left, rank) && Placeable(nodes, root, nb, nodes[n].right, rank))))
  }

  /**
   * From `a` to `b` only the blocks with ids in `ids` moved or turned, the
   * bounding box only grew, and the rest of the floorplanner's settings,
   * the tree's root among them, are kept.
   */
  ghost predicate Settled(a: Floorplanner, b: Floorplanner, ids: seq<int>) {
    |b.blocks| == |a.blocks| &&
    b.alpha == a.alpha && b.outlineWidth == a.outlineWidth && b.outlineHeight == a.outlineHeight &&
    b.numBlocks == a.numBlocks && b.tree.root == a.tree.root &&
    b.chipWidth >= a.chipWidth && b.chipHeight >= a.chipHeight &&
    (forall i | 0 <= i < |a.blocks| :: SameShape(a.blocks[i], b.blocks[i])) &&
    (forall i | 0 <= i < |a.blocks| && i !in ids :: b.blocks[i] == a.blocks[i])
  }

  /** The blocks with ids in `ids` lie within the chip bounding box. */
  ghost predicate Bounded(fp: Floorplanner, ids: seq<int>) {
    forall k | 0 <= k < |ids| ::
      0 <= ids[k] < |fp.blocks| &&
      Top(fp.blocks[ids[k]]).x <= fp.chipWidth && Top(fp.blocks[ids[k]]).y <= fp.chipHeight
  }

  /**
   * Each side of the bounding box of `b` is the one of `a` or is reached by
   * the top corner of a block with an id in `ids`.
   */
  ghost predicate Peaked(a: Floorplanner, b: Floorplanner, ids: seq<int>) {
    (b.chipWidth == a.chipWidth ||
     exists k | 0 <= k < |ids| :: 0 <= ids[k] < |b.blocks| && Top(b.blocks[ids[k]]).x == b.chipWidth) &&
    (b.chipHeight == a.chipHeight ||
     exists k | 0 <= k < |ids| :: 0 <= ids[k] < |b.blocks| && Top(b.blocks[ids[k]]).y == b.chipHeight)
  }

  /** The blocks of the nodes `vs` stand as their nodes want, except square ones, which cannot. */
  ghost predicate Oriented(fp: Floorplanner, nodes: seq<BStar.Node>, vs: seq<nat>) {
    forall k | 0 <= k < |vs| ::
      vs[k] < |nodes| && 0 <= nodes[vs[k]].id < |fp.blocks| &&
      (Orien(fp.blocks[nodes[vs[k]].id]) == nodes[vs[k]].orien ||
       fp.blocks[nodes[vs[k]].id].width == fp.blocks[nodes[vs[k]].id].height)
  }

  /**
   * The contour keeps what packing relies on from `a` to `b`: drawn with
   * horizontal and vertical strokes, running left to right while the blocks
   * have non-negative sides, and ending at the same corner.
   */
  ghost predicate Evolves(a: Floorplanner, b: Floorplanner) {
    (Continuous(a.contour.hor) ==> Continuous(b.contour.hor)) &&
    (Sorted(a.contour.hor) && AllSized(a.blocks) ==> Sorted(b.contour.hor)) &&
    (|a.contour.hor| > 0 ==>
      |b.contour.hor| > 0 && b.contour.hor[|b.contour.hor| - 1] == a.contour.hor[|a.contour.hor| - 1])
  }

  /**
   * Where packing the nodes `vs` in turn left their blocks: the root's at the
   * origin, and any other at the x that its parent's block and its side give
   * it, unless a later node of the run packed the same block again or
   * moved the parent's block afterwards.
   */
  ghost predicate Anchored(fp: Floorplanner, nodes: seq<BStar.Node>, root: int, vs: seq<nat>)
    requires forall k | 0 <= k < |vs| :: vs[k] < |nodes|
  {
    var ids := Labels(nodes, vs);
    (forall k | 0 <= k < |vs| :: Seated(nodes, root, |fp.blocks|, vs[k])) &&
    forall k | 0 <= k < |vs| && ids[k] !in ids[k + 1..] ::
      (vs[k] == root ==> Low(fp.blocks[ids[k]]) == Point(0, 0)) &&
      (vs[k] != root && nodes[nodes[vs[k]].parent].id !in ids[k..] ==>
        fp.blocks[ids[k]].x ==
          Anchor(fp.blocks, nodes[nodes[vs[k]].parent].id, nodes[nodes[vs[k]].parent].right == vs[k]))
  }

  /**
   * Packing the nodes `vs` took `a` to `b`: only their blocks moved or
   * turned, each to the x its parent gives it (the root's to the origin),
   * they lie within the bounding box, and the contour kept its shape; when no
   * two of the nodes share a block, the box reaches no further than their
   * blocks and each block stands as its node wants.
   */
  ghost predicate Packed(a: Floorplanner, b: Floorplanner, nodes: seq<BStar.Node>, vs: seq<nat>) {
    (forall k | 0 <= k < |vs| :: vs[k] < |nodes|) &&
    Settled(a, b, Labels(nodes, vs)) && Bounded(b, Labels(nodes, vs)) && Evolves(a, b) &&
    Anchored(b, nodes, a.tree.root, vs) &&
    (Unique(Labels(nodes, vs)) ==> Peaked(a, b, Labels(nodes, vs)) && Oriented(b, nodes, vs))
  }

  /** The block turned, if need be, to the orientation a node wants. */
  function Turned(b: Block, orien: bool): (r: Block)
    ensures SameShape(b, r) && r == b.(width := r.width, height := r.height)
    ensures Orien(r) == orien || r.width == r.height
    ensures Sized(b) ==> Sized(r)
  {
    if Orien(b) != orien then Rotate(b) else b
  }

  /** The floorplanner after one more node is counted and its block is packed as `placed`. */
  function Grown(fp: Floorplanner, i: nat, placed: Block, contour: Contour): Floorplanner
    requires i < |fp.blocks|
  {
    var top := Top(placed);
    fp.(tree := BStar.IncNode(fp.tree), blocks := fp.blocks[i := placed], contour := contour,
      chipWidth := if top.x > fp.chipWidth then top.x else fp.chipWidth,
      chipHeight := if top.y > fp.chipHeight then top.y else fp.chipHeight)
  }

  /**
   * Where `place_block` puts the block of node `n`, given the blocks and the
   * contour before: the root's at the origin, any other at the x its parent's
   * block and its side give it, resting on the contour.  The parent's block
   * is read after the node's own block has been turned in place, which
   * matters only when the two nodes share a block.
   */
  ghost predicate Lands(fp: Floorplanner, n: nat, placed: Block)
    requires n < |fp.tree.nodes| && Seated(fp.tree.nodes, fp.tree.root, |fp.blocks|, n)
  {
    var nodes := fp.tree.nodes;
    var blocks := fp.blocks[nodes[n].id := Turned(fp.blocks[nodes[n].id], nodes[n].orien)];
    if n == fp.tree.root then Low(placed) == Point(0, 0)
    else
      var p := nodes[nodes[n].parent];
      placed.x == Anchor(blocks, p.id, p.right == n) &&
      Resting(fp.contour.hor, placed.x, placed.width, placed.y)
  }

  /**
   * Visiting node `n` took `a` to `b`: its block now lies where `place_block`
   * puts it, and the contour is the old one updated with it.
   */
  ghost predicate Visited(a: Floorplanner, b: Floorplanner, n: nat)
    requires n < |a.tree.nodes| && Seated(a.tree.nodes, a.tree.root, |a.blocks|, n) && |b.blocks| == |a.blocks|
  {
    var placed := b.blocks[a.tree.nodes[n].id];
    Lands(a, n, placed) && Covers(a.contour.hor, Top(placed).x) && b.contour == Update(a.contour, placed)
  }

  /**
   * The visit of one node in `update_block_dfs`: count it, turn its block to
   * the node's orientation, pack the block below the node's parent (the root
   * at the origin) and grow the bounding box over it.
   */
  method Visit(fp: Floorplanner, n: nat) returns (res: Result<Floorplanner, string>)
    requires n < |fp.tree.nodes| && Seated(fp.tree.nodes, fp.tree.root, |fp.blocks|, n)
    ensures res.Fatal? ==> res.error == Overrun
    ensures res.Ok? ==> res.value.tree == BStar.IncNode(fp.tree) && |res.value.blocks| == |fp.blocks|
    ensures res.Ok? ==> Visited(fp, res.value, n)
    ensures res.Ok? ==> Packed(fp, res.value, fp.tree.nodes, [n])
  {
    var d := fp.tree.nodes[n];
    var b := Turned(fp.blocks[d.id], d.orien);
    var blocks := fp.blocks[d.id := b];
    var placement;
    if n == fp.tree.root {
      placement := PlaceBlock(fp.contour, blocks, Null, b, false);
    } else {
      var p := fp.tree.nodes[d.parent];
      placement := PlaceBlock(fp.contour, blocks, p.id, b, p.right == n);
    }
    if placement.Fatal? {
      return Fatal(placement.error);
    }
    var placed := placement.value.0;
    var contour := placement.value.1;
    assert Lands(fp, n, placed);
    VisitPacked(fp, n, placed, contour);
    return Ok(Grown(fp, d.id, placed, contour));
  }

  /** What one visit does, as `Packed` states it for the single node. */
  lemma VisitPacked(fp: Floorplanner, n: nat, placed: Block, contour: Contour)
    requires n < |fp.tree.nodes| && Seated(fp.tree.nodes, fp.tree.root, |fp.blocks|, n)
    requires var d := fp.tree.nodes[n];
      placed == Turned(fp.blocks[d.id], d.orien).(x := placed.x, y := placed.y) && Lands(fp, n, placed)
    requires Covers(fp.contour.hor, Top(placed).x) && contour == Update(fp.contour, placed)
    ensures Packed(fp, Grown(fp, fp.tree.nodes[n].id, placed, contour), fp.tree.nodes, [n])
  {
    var i := fp.tree.nodes[n].id;
    var r := Grown(fp, i, placed, contour);
    var ids := Labels(fp.tree.nodes, [n]);
    assert Settled(fp, r, ids) && Bounded(r, ids) && Peaked(fp, r, ids) by {
      assert ids == [i];
      GrownSettled(fp, i, placed, contour);
    }
    assert Oriented(r, fp.tree.nodes, [n]) by {
      var t := Turned(fp.blocks[i], fp.tree.nodes[n].orien);
      assert placed.width == t.width && placed.height == t.height;
      assert r.blocks[i] == placed;
      OrientedOne(r, fp.tree.nodes, n);
    }
    assert Evolves(fp, r) by {
      GrownEvolves(fp, i, placed);
    }
    AnchoredOne(fp, n, placed, contour);
  }

  /**
   * A left child sharing its root's block: the block is turned to the child's
   * orientation first, so the child lands at the turned block's right edge.
   */
  lemma SharedBlockTurnsFirst(fp: Floorplanner, placed: Block)
    requires fp.tree.nodes == [BStar.Node(0, false, 1, Null, Null), BStar.Node(0, true, Null, Null, 0)]
    requires fp.tree.root == 0 && fp.blocks == [Block(0, 3, 1, 0, 0, Null)]
    requires Lands(fp, 1, placed)
    ensures placed.x == 1
  {
    assert Turned(fp.blocks[0], true) == Block(0, 1, 3, 0, 0, Null);
  }

  /** The position of a single packed block, as `Anchored` states it. */
  lemma AnchoredOne(fp: Floorplanner, n: nat, placed: Block, contour: Contour)
    requires n < |fp.tree.nodes| && Seated(fp.tree.nodes, fp.tree.root, |fp.blocks|, n)
    requires Lands(fp, n, placed)
    ensures Anchored(Grown(fp, fp.tree.nodes[n].id, placed, contour), fp.tree.nodes, fp.tree.root, [n])
  {
    var i := fp.tree.nodes[n].id;
    var r := Grown(fp, i, placed, contour);
    var ids := Labels(fp.tree.nodes, [n]);
    assert ids == [i] && ids[0..] == [i];
    assert r.blocks[i] == placed;
    if n != fp.tree.root {
      var q := fp.tree.nodes[fp.tree.nodes[n].parent].id;
      if q != i {
        assert r.blocks[q] == fp.blocks[q];
      }
    }
  }

  /** A single node whose block stands as it wants. */
  lemma OrientedOne(fp: Floorplanner, nodes: seq<BStar.Node>, n: nat)
    requires n < |nodes| && 0 <= nodes[n].id < |fp.blocks|
    requires Orien(fp.blocks[nodes[n].id]) == nodes[n].orien ||
      fp.blocks[nodes[n].id].width == fp.blocks[nodes[n].id].height
    ensures Oriented(fp, nodes, [n])
  {
  }

  /** Packing one block moves only it, keeps its shape, and the box grows just enough to hold it. */
  lemma GrownSettled(fp: Floorplanner, i: nat, placed: Block, contour: Contour)
    requires i < |fp.blocks| && SameShape(fp.blocks[i], placed)
    ensures var r := Grown(fp, i, placed, contour);
      Settled(fp, r, [i]) && Bounded(r, [i]) && Peaked(fp, r, [i])
  {
    var r := Grown(fp, i, placed, contour);
    assert r.blocks[[i][0]] == placed;
  }

  /** Packing one block keeps the contour's shape. */
  lemma GrownEvolves(fp: Floorplanner, i: nat, placed: Block)
    requires i < |fp.blocks| && SameShape(fp.blocks[i], placed)
    requires Covers(fp.contour.hor, Top(placed).x)
    ensures Evolves(fp, Grown(fp, i, placed, Update(fp.contour, placed)))
  {
    var c := Update(fp.contour, placed);
    var r := Grown(fp, i, placed, c);
    assert r.contour == c;
    UpdateEvolves(fp.contour, placed);
    if AllSized(fp.blocks) {
      assert Sized(fp.blocks[i]);
    }
  }

  /**
   * `update_block_dfs`: the blocks of the subtree below `n` are packed in
   * pre-order (node, left subtree, right subtree), each node counted once.  A
   * node that is its own child stops the program.
   */
  method UpdateBlockDfs(fp: Floorplanner, n: int, ghost rank: seq<nat>)
    returns (res: Result<Floorplanner, string>)
    requires BStar.Descends(fp.tree.nodes, rank) && BStar.Link(fp.tree.nodes, n)
    requires Placeable(fp.tree.nodes, fp.tree.root, |fp.blocks|, n, rank)
    ensures res.Fatal? ==> res.error == SelfLoop || res.error == Overrun
    ensures res.Fatal? && res.error == SelfLoop ==> !BStar.Clean(fp.tree.nodes, n, rank)
    ensures res.Ok? ==> BStar.Clean(fp.tree.nodes, n, rank)
    ensures res.Ok? ==>
      var vs := BStar.Preorder(fp.tree.nodes, n, rank);
      res.value.tree == fp.tree.(numNodes := fp.tree.numNodes + |vs|) && |res.value.blocks| == |fp.blocks| &&
      Packed(fp, res.value, fp.tree.nodes, vs)
    decreases if n == Null then 0 else rank[n] + 1, 3
  {
    if n == Null {
      PackedNone(fp);
      return Ok(fp);
    }
    var v := Visit(fp, n);
    if v.Fatal? {
      return v;
    }
    res := Below(fp, v.value, n, rank);
  }

  /**
   * The rest of `update_block_dfs` once node `n` is packed: stop on a self
   * link, else pack the left subtree and then the right one.
   */
  method Below(fp: Floorplanner, s1: Floorplanner, n: nat, ghost rank: seq<nat>)
    returns (res: Result<Floorplanner, string>)
    requires BStar.Descends(fp.tree.nodes, rank) && BStar.Ref(fp.tree.nodes, n)
    requires Placeable(fp.tree.nodes, fp.tree.root, |fp.blocks|, n, rank)
    requires s1.tree == BStar.IncNode(fp.tree) && |s1.blocks| == |fp.blocks| && Packed(fp, s1, fp.tree.nodes, [n])
    ensures res.Fatal? ==> res.error == SelfLoop || res.error == Overrun
    ensures res.Fatal? && res.error == SelfLoop ==> !BStar.Clean(fp.tree.nodes, n, rank)
    ensures res.Ok? ==> BStar.Clean(fp.tree.nodes, n, rank)
    ensures res.Ok? ==>
      var vs := BStar.Preorder(fp.tree.nodes, n, rank);
      res.value.tree == fp.tree.(numNodes := fp.tree.numNodes + |vs|) && |res.value.blocks| == |fp.blocks| &&
      Packed(fp, res.value, fp.tree.nodes, vs)
    decreases rank[n] + 1, 2
  {
    var d := fp.tree.nodes[n];
    if d.left == n || d.right == n {
      return Fatal(SelfLoop);
    }
    assert Placeable(fp.tree.nodes, fp.tree.root, |fp.blocks|, d.left, rank);
    assert Placeable(fp.tree.nodes, fp.tree.root, |fp.blocks|, d.right, rank);
    res := Subtrees(s1, n, rank);
    if res.Ok? {
      PreorderSplit(fp.tree.nodes, n, rank);
      DfsJoin(fp, s1, res.value, n, rank);
    }
  }

  /** Packing no node changes nothing. */
  lemma PackedNone(fp: Floorplanner)
    ensures Packed(fp, fp, fp.tree.nodes, [])
  {
    assert Labels(fp.tree.nodes, []) == [];
  }

  /** The pre-order below a node without self links: the node, its left subtree, its right subtree. */
  lemma PreorderSplit(nodes: seq<BStar.Node>, n: nat, rank: seq<nat>)
    requires BStar.Descends(nodes, rank) && BStar.Ref(nodes, n)
    requires nodes[n].left != n && nodes[n].right != n
    ensures BStar.Preorder(nodes, n, rank) ==
      [n] + (BStar.Preorder(nodes, nodes[n].left, rank) + BStar.Preorder(nodes, nodes[n].right, rank))
  {
  }

  /** The two recursive calls of `update_block_dfs` at node `n`: its left subtree, then its right one. */
  method Subtrees(fp: Floorplanner, n: nat, ghost rank: seq<nat>)
    returns (res: Result<Floorplanner, string>)
    requires BStar.Descends(fp.tree.nodes, rank) && BStar.Ref(fp.tree.nodes, n)
    requires fp.tree.nodes[n].left != n && fp.tree.nodes[n].right != n
    requires Placeable(fp.tree.nodes, fp.tree.root, |fp.blocks|, fp.tree.nodes[n].left, rank)
    requires Placeable(fp.tree.nodes, fp.tree.root, |fp.blocks|, fp.tree.nodes[n].right, rank)
    ensures res.Fatal? ==> res.error == SelfLoop || res.error == Overrun
    ensures res.Fatal? && res.error == SelfLoop ==>
      !BStar.Clean(fp.tree.nodes, fp.tree.nodes[n].left, rank) ||
      !BStar.Clean(fp.tree.nodes, fp.tree.nodes[n].right, rank)
    ensures res.Ok? ==>
      BStar.Clean(fp.tree.nodes, fp.tree.nodes[n].left, rank) &&
      BStar.Clean(fp.tree.nodes, fp.tree.nodes[n].right, rank)
    ensures res.Ok? ==>
      var vs := BStar.Preorder(fp.tree.nodes, fp.tree.nodes[n].left, rank) +
        BStar.Preorder(fp.tree.nodes, fp.tree.nodes[n].right, rank);
      res.value.tree == fp.tree.(numNodes := fp.tree.numNodes + |vs|) && |res.value.blocks| == |fp.blocks| &&
      Packed(fp, res.value, fp.tree.nodes, vs)
    decreases rank[n] + 1, 1
  {
    var l := UpdateBlockDfs(fp, fp.tree.nodes[n].left, rank);
    if l.Fatal? {
      return l;
    }
    res := RightSubtree(fp, l.value, n, rank);
  }

  /** The second half of `Subtrees`: once the left subtree is packed, the right one, joined to it. */
  method RightSubtree(fp: Floorplanner, l: Floorplanner, n: nat, ghost rank: seq<nat>)
    returns (res: Result<Floorplanner, string>)
    requires BStar.Descends(fp.tree.nodes, rank) && BStar.Ref(fp.tree.nodes, n)
    requires fp.tree.nodes[n].left != n && fp.tree.nodes[n].right != n
    requires Placeable(fp.tree.nodes, fp.tree.root, |fp.blocks|, fp.tree.nodes[n].right, rank)
    requires BStar.Clean(fp.tree.nodes, fp.tree.nodes[n].left, rank)
    requires var v1 := BStar.Preorder(fp.tree.nodes, fp.tree.nodes[n].left, rank);
      l.tree == fp.tree.(numNodes := fp.tree.numNodes + |v1|) && |l.blocks| == |fp.blocks| &&
      Packed(fp, l, fp.tree.nodes, v1)
    ensures res.Fatal? ==> res.error == SelfLoop || res.error == Overrun
    ensures res.Fatal? && res.error == SelfLoop ==> !BStar.Clean(fp.tree.nodes, fp.tree.nodes[n].right, rank)
    ensures res.Ok? ==> BStar.Clean(fp.tree.nodes, fp.tree.nodes[n].right, rank)
    ensures res.Ok? ==>
      var vs := BStar.Preorder(fp.tree.nodes, fp.tree.nodes[n].left, rank) +
        BStar.Preorder(fp.tree.nodes, fp.tree.nodes[n].right, rank);
      res.value.tree == fp.tree.(numNodes := fp.tree.numNodes + |vs|) && |res.value.blocks| == |fp.blocks| &&
      Packed(fp, res.value, fp.tree.nodes, vs)
    decreases rank[n] + 1, 0
  {
    res := UpdateBlockDfs(l, fp.tree.nodes[n].right, rank);
    if res.Ok? {
      JoinSubtrees(fp, l, res.value, n, rank);
    }
  }

  /** The left subtree's run and then the right subtree's: the two pre-orders packed one after the other. */
  lemma JoinSubtrees(fp: Floorplanner, l: Floorplanner, r: Floorplanner, n: nat, rank: seq<nat>)
    requires BStar.Descends(fp.tree.nodes, rank) && BStar.Ref(fp.tree.nodes, n)
    requires fp.tree.nodes[n].left != n && fp.tree.nodes[n].right != n
    requires BStar.Clean(fp.tree.nodes, fp.tree.nodes[n].left, rank)
    requires BStar.Clean(fp.tree.nodes, fp.tree.nodes[n].right, rank)
    requires var v1 := BStar.Preorder(fp.tree.nodes, fp.tree.nodes[n].left, rank);
      l.tree == fp.tree.(numNodes := fp.tree.numNodes + |v1|) && |l.blocks| == |fp.blocks| &&
      Packed(fp, l, fp.tree.nodes, v1)
    requires var v2 := BStar.Preorder(fp.tree.nodes, fp.tree.nodes[n].right, rank);
      r.tree == l.tree.(numNodes := l.tree.numNodes + |v2|) && |r.blocks| == |l.blocks| &&
      Packed(l, r, l.tree.nodes, v2)
    ensures var vs := BStar.Preorder(fp.tree.nodes, fp.tree.nodes[n].left, rank) +
        BStar.Preorder(fp.tree.nodes, fp.tree.nodes[n].right, rank);
      r.tree == fp.tree.(numNodes := fp.tree.numNodes + |vs|) && |r.blocks| == |fp.blocks| &&
      Packed(fp, r, fp.tree.nodes, vs)
  {
    var v1 := BStar.Preorder(fp.tree.nodes, fp.tree.nodes[n].left, rank);
    var v2 := BStar.Preorder(fp.tree.nodes, fp.tree.nodes[n].right, rank);
    PackedJoin(fp, l, r, fp.tree.nodes, v1, v2);
  }

  /** One node packed, then its two subtrees: its whole subtree packed. */
  lemma DfsJoin(s0: Floorplanner, s1: Floorplanner, s2: Floorplanner, n: nat, rank: seq<nat>)
    requires BStar.Descends(s0.tree.nodes, rank) && BStar.Ref(s0.tree.nodes, n)
    requires s0.tree.nodes[n].left != n && s0.tree.nodes[n].right != n
    requires BStar.Clean(s0.tree.nodes, s0.tree.nodes[n].left, rank)
    requires BStar.Clean(s0.tree.nodes, s0.tree.nodes[n].right, rank)
    requires s1.tree == BStar.IncNode(s0.tree) && Packed(s0, s1, s0.tree.nodes, [n])
    requires var vs := BStar.Preorder(s0.tree.nodes, s0.tree.nodes[n].left, rank) +
        BStar.Preorder(s0.tree.nodes, s0.tree.nodes[n].right, rank);
      s2.tree == s1.tree.(numNodes := s1.tree.numNodes + |vs|) && Packed(s1, s2, s0.tree.nodes, vs)
    ensures BStar.Clean(s0.tree.nodes, n, rank)
    ensures var vs := BStar.Preorder(s0.tree.nodes, n, rank);
      s2.tree == s0.tree.(numNodes := s0.tree.numNodes + |vs|) && Packed(s0, s2, s0.tree.nodes, vs)
  {
    var nodes := s0.tree.nodes;
    PreorderSplit(nodes, n, rank);
    PackedJoin(s0, s1, s2, nodes, [n],
      BStar.Preorder(nodes, nodes[n].left, rank) + BStar.Preorder(nodes, nodes[n].right, rank));
  }

  /** Packing two runs of nodes one after the other packs the joined run. */
  lemma PackedJoin(a: Floorplanner, b: Floorplanner, c: Floorplanner, nodes: seq<BStar.Node>, v1: seq<nat>, v2: seq<nat>)
    requires Packed(a, b, nodes, v1) && Packed(b, c, nodes, v2)
    ensures Packed(a, c, nodes, v1 + v2)
  {
    var I := Labels(nodes, v1);
    var J := Labels(nodes, v2);
    LabelsConcat(nodes, v1, v2);
    SettledTrans(a, b, c, I, J);
    BoundedGrow(b, c, I, J);
    EvolvesTrans(a, b, c, I);
    AnchoredJoin(b, c, nodes, a.tree.root, v1, v2);
    if Unique(I + J) {
      UniqueParts(I, J);
      PeakedTrans(a, b, c, I, J);
      OrientedGrow(b, c, nodes, v1, v2);
    }
  }

  /** The block ids of two runs of nodes, one after the other. */
  lemma LabelsConcat(nodes: seq<BStar.Node>, v1: seq<nat>, v2: seq<nat>)
    requires forall k | 0 <= k < |v1| :: v1[k] < |nodes|
    requires forall k | 0 <= k < |v2| :: v2[k] < |nodes|
    ensures forall k | 0 <= k < |v1 + v2| :: (v1 + v2)[k] < |nodes|
    ensures Labels(nodes, v1 + v2) == Labels(nodes, v1) + Labels(nodes, v2)
  {
    var V := v1 + v2;
    forall k | 0 <= k < |V|
      ensures V[k] < |nodes|
    {
      if k >= |v1| {
        assert V[k] == v2[k - |v1|];
      }
    }
    var K := Labels(nodes, V);
    var IJ := Labels(nodes, v1) + Labels(nodes, v2);
    forall k | 0 <= k < |K|
      ensures K[k] == IJ[k]
    {
      if k >= |v1| {
        assert V[k] == v2[k - |v1|];
      }
    }
  }

  /** The positions of two runs packed one after the other, as `Anchored` states them for the joined run. */
  lemma AnchoredJoin(b: Floorplanner, c: Floorplanner, nodes: seq<BStar.Node>, root: int, v1: seq<nat>, v2: seq<nat>)
    requires forall k | 0 <= k < |v1| :: v1[k] < |nodes|
    requires forall k | 0 <= k < |v2| :: v2[k] < |nodes|
    requires Anchored(b, nodes, root, v1) && Anchored(c, nodes, root, v2)
    requires Settled(b, c, Labels(nodes, v2))
    ensures Anchored(c, nodes, root, v1 + v2)
  {
    var I := Labels(nodes, v1);
    var J := Labels(nodes, v2);
    var V := v1 + v2;
    var K := Labels(nodes, V);
    LabelsConcat(nodes, v1, v2);
    forall k | 0 <= k < |V|
      ensures Seated(nodes, root, |c.blocks|, V[k])
    {
      if k < |v1| {
        assert V[k] == v1[k];
      } else {
        assert V[k] == v2[k - |v1|];
      }
    }
    forall k | 0 <= k < |V| && K[k] !in K[k + 1..]
      ensures V[k] == root ==> Low(c.blocks[K[k]]) == Point(0, 0)
      ensures V[k] != root && nodes[nodes[V[k]].parent].id !in K[k..] ==>
        c.blocks[K[k]].x == Anchor(c.blocks, nodes[nodes[V[k]].parent].id, nodes[nodes[V[k]].parent].right == V[k])
    {
      if k < |v1| {
        assert V[k] == v1[k] && K[k] == I[k];
        assert K[k + 1..] == I[k + 1..] + J && K[k..] == I[k..] + J;
        assert c.blocks[K[k]] == b.blocks[K[k]];
        if V[k] != root {
          var q := nodes[nodes[V[k]].parent].id;
          if q !in K[k..] {
            assert c.blocks[q] == b.blocks[q];
          }
        }
      } else {
        var j := k - |v1|;
        assert V[k] == v2[j] && K[k] == J[j];
        assert K[k + 1..] == J[j + 1..] && K[k..] == J[j..];
      }
    }
  }

  lemma SettledTrans(a: Floorplanner, b: Floorplanner, c: Floorplanner, I: seq<int>, J: seq<int>)
    requires Settled(a, b, I) && Settled(b, c, J)
    ensures Settled(a, c, I + J)
  {
    forall i | 0 <= i < |a.blocks| && i !in I + J
      ensures c.blocks[i] == a.blocks[i]
    {
      assert i !in I && i !in J;
    }
  }

  lemma BoundedGrow(b: Floorplanner, c: Floorplanner, I: seq<int>, J: seq<int>)
    requires Bounded(b, I) && Settled(b, c, J) && Bounded(c, J)
    ensures Bounded(c, I + J)
  {
    var K := I + J;
    forall k | 0 <= k < |K|
      ensures 0 <= K[k] < |c.blocks| && Top(c.blocks[K[k]]).x <= c.chipWidth && Top(c.blocks[K[k]]).y <= c.chipHeight
    {
      if k >= |I| {
        assert K[k] == J[k - |I|];
      } else if K[k] in J {
        var j :| 0 <= j < |J| && J[j] == K[k];
      } else {
        assert K[k] == I[k];
      }
    }
  }

  lemma EvolvesTrans(a: Floorplanner, b: Floorplanner, c: Floorplanner, I: seq<int>)
    requires Evolves(a, b) && Evolves(b, c) && Settled(a, b, I)
    ensures Evolves(a, c)
  {
    if AllSized(a.blocks) {
      forall i | 0 <= i < |b.blocks|
        ensures Sized(b.blocks[i])
      {
        assert SameShape(a.blocks[i], b.blocks[i]);
      }
    }
  }

  lemma UniqueParts(a: seq<int>, b: seq<int>)
    requires Unique(a + b)
    ensures Unique(a) && Unique(b)
  {
    var s := a + b;
    forall i, j | 0 <= i < j < |a|
      ensures a[i] != a[j]
    {
      assert a[i] == s[i] && a[j] == s[j];
    }
    forall i, j | 0 <= i < j < |b|
      ensures b[i] != b[j]
    {
      assert b[i] == s[|a| + i] && b[j] == s[|a| + j];
    }
  }

  /** Of two runs joined without repeats, no id of the first occurs in the second. */
  lemma UniqueApart(I: seq<int>, J: seq<int>, k: nat)
    requires Unique(I + J) && k < |I|
    ensures I[k] !in J
  {
    forall j | 0 <= j < |J|
      ensures J[j] != I[k]
    {
      assert (I + J)[k] == I[k] && (I + J)[|I| + j] == J[j];
    }
  }

  lemma PeakedTrans(a: Floorplanner, b: Floorplanner, c: Floorplanner, I: seq<int>, J: seq<int>)
    requires Peaked(a, b, I) && Peaked(b, c, J) && Settled(b, c, J) && Unique(I + J)
    ensures Peaked(a, c, I + J)
  {
    var K := I + J;
    if c.chipWidth != a.chipWidth {
      if c.chipWidth == b.chipWidth {
        var k :| 0 <= k < |I| && 0 <= I[k] < |b.blocks| && Top(b.blocks[I[k]]).x == b.chipWidth;
        UniqueApart(I, J, k);
        assert K[k] == I[k];
      } else {
        var k :| 0 <= k < |J| && 0 <= J[k] < |c.blocks| && Top(c.blocks[J[k]]).x == c.chipWidth;
        assert K[|I| + k] == J[k];
      }
    }
    if c.chipHeight != a.chipHeight {
      if c.chipHeight == b.chipHeight {
        var k :| 0 <= k < |I| && 0 <= I[k] < |b.blocks| && Top(b.blocks[I[k]]).y == b.chipHeight;
        UniqueApart(I, J, k);
        assert K[k] == I[k];
      } else {
        var k :| 0 <= k < |J| && 0 <= J[k] < |c.blocks| && Top(c.blocks[J[k]]).y == c.chipHeight;
        assert K[|I| + k] == J[k];
      }
    }
  }

  lemma OrientedGrow(b: Floorplanner, c: Floorplanner, nodes: seq<BStar.Node>, vI: seq<nat>, vJ: seq<nat>)
    requires Oriented(b, nodes, vI) && Oriented(c, nodes, vJ)
    requires Settled(b, c, Labels(nodes, vJ))
    requires Unique(Labels(nodes, vI) + Labels(nodes, vJ))
    ensures Oriented(c, nodes, vI + vJ)
  {
    var V := vI + vJ;
    forall k | 0 <= k < |V|
      ensures V[k] < |nodes| && 0 <= nodes[V[k]].id < |c.blocks| &&
        (Orien(c.blocks[nodes[V[k]].id]) == nodes[V[k]].orien ||
         c.blocks[nodes[V[k]].id].width == c.blocks[nodes[V[k]].id].height)
    {
      if k < |vI| {
        assert V[k] == vI[k];
        UniqueApart(Labels(nodes, vI), Labels(nodes, vJ), k);
      } else {
        assert V[k] == vJ[k - |vI|];
      }
    }
  }

  /** In a run of distinct ids, an id does not come back later. */
  lemma UniqueLater(ids: seq<int>, k: nat)
    requires Unique(ids) && k < |ids|
    ensures ids[k] !in ids[k + 1..]
  {
    forall j | k + 1 <= j < |ids|
      ensures ids[j] != ids[k]
    {
    }
    var rest := ids[k + 1..];
    assert forall m | 0 <= m < |rest| :: rest[m] == ids[k + 1 + m];
  }

  /**
   * After packing a run that starts at the root, with no block packed twice,
   * the root's block sits at the origin.
   */
  lemma PackedRoot(a: Floorplanner, b: Floorplanner, nodes: seq<BStar.Node>, vs: seq<nat>)
    requires Packed(a, b, nodes, vs) && |vs| > 0 && vs[0] == a.tree.root
    requires Unique(Labels(nodes, vs))
    ensures 0 <= nodes[vs[0]].id < |b.blocks| && Low(b.blocks[nodes[vs[0]].id]) == Point(0, 0)
  {
    UniqueLater(Labels(nodes, vs), 0);
  }

  /**
   * After packing a run with no block packed twice, a node packed after its
   * parent sits at the x its parent's block and its side give it: at the
   * parent's x as a right child, at the parent's right edge as a left child.
   */
  lemma PackedChild(a: Floorplanner, b: Floorplanner, nodes: seq<BStar.Node>, vs: seq<nat>, j: nat, k: nat)
    requires Packed(a, b, nodes, vs) && Unique(Labels(nodes, vs))
    requires j < k < |vs| && vs[k] != a.tree.root && nodes[vs[k]].parent == vs[j]
    ensures 0 <= nodes[vs[k]].id < |b.blocks| && 0 <= nodes[vs[j]].id < |b.blocks|
    ensures nodes[vs[j]].right == vs[k] ==> b.blocks[nodes[vs[k]].id].x == b.blocks[nodes[vs[j]].id].x
    ensures nodes[vs[j]].right != vs[k] ==> b.blocks[nodes[vs[k]].id].x == Top(b.blocks[nodes[vs[j]].id]).x
  {
    var ids := Labels(nodes, vs);
    UniqueLater(ids, k);
    assert ids[j] !in ids[k..] by {
      forall m | k <= m < |ids|
        ensures ids[m] != ids[j]
      {
      }
      assert forall m | 0 <= m < |ids[k..]| :: ids[k..][m] == ids[k + m];
    }
  }

  /** The start of `update_all_blocks`: contour and node counter reset, bounding box empty. */
  function Cleared(fp: Floorplanner): (r: Floorplanner)
    ensures r.chipWidth == 0 && r.chipHeight == 0 && r.tree.numNodes == 0
    ensures Sorted(r.contour.hor) && Continuous(r.contour.hor)
    ensures r.blocks == fp.blocks && r.tree.nodes == fp.tree.nodes && r.tree.root == fp.tree.root
  {
    fp.(contour := Reset(fp.contour), tree := BStar.ResetNumNodes(fp.tree), chipWidth := 0, chipHeight := 0)
  }

  /**
   * `update_all_blocks`: the contour and the node counter are reset, the
   * bounding box emptied, and the whole tree packed from the root.  The
   * contour is then checked, the tree is annotated with the packing's cost,
   * and the program stops unless the number of nodes packed equals the
   * number of blocks.  The contour check never fails on blocks with sides of
   * non-negative length.  The cost is `cost`, the normalized cost of the
   * packing, whose wirelength and sampling are not part of this model.
   */
  method UpdateAllBlocks(fp: Floorplanner, cost: real, ghost rank: seq<nat>) returns (res: Result<Floorplanner, string>)
    requires BStar.Descends(fp.tree.nodes, rank) && BStar.Link(fp.tree.nodes, fp.tree.root)
    requires Placeable(fp.tree.nodes, fp.tree.root, |fp.blocks|, fp.tree.root, rank)
    ensures res.Fatal? ==> res.error in {SelfLoop, Overrun, Mismatch, Backward, Broken}
    ensures res.Fatal? && AllSized(fp.blocks) ==> res.error in {SelfLoop, Overrun, Mismatch}
    ensures res.Fatal? && res.error == SelfLoop ==> !BStar.Clean(fp.tree.nodes, fp.tree.root, rank)
    ensures res.Fatal? && res.error == Mismatch ==>
      BStar.Clean(fp.tree.nodes, fp.tree.root, rank) &&
      |BStar.Preorder(fp.tree.nodes, fp.tree.root, rank)| != fp.numBlocks
    ensures res.Ok? ==> BStar.Clean(fp.tree.nodes, fp.tree.root, rank)
    ensures res.Ok? ==>
      var vs := BStar.Preorder(fp.tree.nodes, fp.tree.root, rank);
      var r := res.value;
      |vs| == fp.numBlocks && r.tree == fp.tree.(numNodes := |vs|, cost := cost) &&
      Monotone(r.contour.hor) && Continuous(r.contour.hor) &&
      r.chipWidth >= 0 && r.chipHeight >= 0 && Packed(Cleared(fp), r, fp.tree.nodes, vs)
  {
    var start := Cleared(fp);
    var packed := UpdateBlockDfs(start, start.tree.root, rank);
    if packed.Fatal? {
      return packed;
    }
    var r := packed.value;
    var checked := Check(r.contour.hor);
    if checked.Fatal? {
      if AllSized(fp.blocks) {
        assert false;
      }
      return Fatal(checked.error);
    }
    r := r.(tree := r.tree.(cost := cost));
    if r.tree.numNodes != r.numBlocks {
      return Fatal(Mismatch);
    }
    return Ok(r);
  }

  /**
   * Once every block has been packed, with no block twice, `is_legal` and
   * `check_outline` agree: the bounding box fits the outline exactly when
   * every block does.
   */
  lemma LegalIffOutline(fp: Floorplanner, ids: seq<int>)
    requires Bounded(fp, ids) && Peaked(Cleared(fp), fp, ids)
    requires forall i | 0 <= i < |fp.blocks| :: i in ids
    requires fp.outlineWidth >= 0 && fp.outlineHeight >= 0
    ensures IsLegal(fp) <==> Inside(fp)
  {
    if IsLegal(fp) {
      forall i | 0 <= i < |fp.blocks|
        ensures Top(fp.blocks[i]).x <= fp.outlineWidth && Top(fp.blocks[i]).y <= fp.outlineHeight
      {
        assert i in ids;
        var k :| 0 <= k < |ids| && ids[k] == i;
      }
    }
  }
}
