/**
 * The horizontal contour of the floorplanner (`Contour` in `BSTree.h` and
 * `BSTree.cpp`): the skyline of the blocks placed so far, as the list of its
 * corners from left to right.  A new block is dropped onto the skyline by
 * `FindBlkY` and then merged into it by `Update`.
 */
module Skyline {
  import opened Wrappers
  import opened Blocks

  /**
   * The contours: `hor` lists the corners of the skyline from left to right,
   * `ver` the vertical contour (only ever reset), `maxHeight` the height of
   * the highest corner after the last update.
   */
  datatype Contour = Contour(hor: seq<Point>, ver: seq<Point>, maxHeight: int)

  /** The corners run left to right: x never decreases. */
  predicate Sorted(h: seq<Point>) {
    forall i, j | 0 <= i < j < |h| :: h[i].x <= h[j].x
  }

  /** Neighbouring corners never step back in x. */
  predicate Monotone(h: seq<Point>) {
    forall i | 0 < i < |h| :: h[i - 1].x <= h[i].x
  }

  /** Neighbouring corners share x or y: the skyline is drawn with horizontal and vertical strokes only. */
  predicate Continuous(h: seq<Point>) {
    forall i | 0 < i < |h| :: h[i - 1].x == h[i].x || h[i - 1].y == h[i].y
  }

  lemma SortedMonotone(h: seq<Point>)
    requires Sorted(h)
    ensures Monotone(h)
  {
  }

  /** Every corner is at or right of `v`. */
  predicate AtLeast(h: seq<Point>, v: int) {
    forall i | 0 <= i < |h| :: h[i].x >= v
  }

  /** Every corner is at or left of `v`. */
  predicate AtMost(h: seq<Point>, v: int) {
    forall i | 0 <= i < |h| :: h[i].x <= v
  }

  /** Two runs left to right, the first ending where the second may begin, make one. */
  lemma SortedJoin(a: seq<Point>, b: seq<Point>, v: int)
    requires Sorted(a) && Sorted(b) && AtMost(a, v) && AtLeast(b, v)
    ensures Sorted(a + b)
  {
    var c := a + b;
    forall i, j | 0 <= i < j < |c|
      ensures c[i].x <= c[j].x
    {
      if j < |a| {
        assert c[i] == a[i] && c[j] == a[j];
      } else if i >= |a| {
        assert c[i] == b[i - |a|] && c[j] == b[j - |a|];
      } else {
        assert c[i] == a[i] && c[j] == b[j - |a|];
      }
    }
  }

  /** A corner put in front of a run that starts no further left. */
  lemma SortedCons(p: Point, h: seq<Point>)
    requires Sorted(h) && (|h| == 0 || p.x <= h[0].x)
    ensures Sorted([p] + h)
  {
    SortedJoin([p], h, p.x);
  }

  /** A corner put in front of a continuous skyline, sharing x or y with its first corner. */
  lemma ContinuousCons(p: Point, h: seq<Point>)
    requires Continuous(h) && (|h| == 0 || p.x == h[0].x || p.y == h[0].y)
    ensures Continuous([p] + h)
  {
    var c := [p] + h;
    forall i | 1 < i < |c|
      ensures c[i - 1].x == c[i].x || c[i - 1].y == c[i].y
    {
      assert c[i - 1] == h[i - 2] && c[i] == h[i - 1];
    }
  }

  /**
   * `Contour::reset`: a flat skyline at height 0 from x = 0 to the `INT_MAX`
   * sentinel, and the vertical contour from y = 0 to `INT_MAX`.  The height
   * of the last update is not touched.
   */
  function Reset(c: Contour): (r: Contour)
    ensures r.hor == [Point(0, 0), Point(IntMax, 0)] && r.ver == [Point(0, 0), Point(0, IntMax)]
    ensures Sorted(r.hor) && Continuous(r.hor)
    ensures r.maxHeight == c.maxHeight
  {
    Contour([Point(0, 0), Point(IntMax, 0)], [Point(0, 0), Point(0, IntMax)], c.maxHeight)
  }

  // ---------------------------------------------------------------------
  // find_blk_y
  // ---------------------------------------------------------------------

  /** Some corner lies in the span `[x1, x2]`. */
  ghost predicate Spans(h: seq<Point>, x1: int, x2: int) {
    exists i | 0 <= i < |h| :: x1 <= h[i].x <= x2
  }

  /**
   * `y` is the height of the skyline just left of or at `x1`: that of the last
   * corner before the first one right of `x1`, or 0 when every corner is
   * right of `x1`.
   */
  ghost predicate Landing(h: seq<Point>, x1: int, y: int) {
    (exists i | 0 <= i < |h| :: h[i].x <= x1 && (i + 1 == |h| || h[i + 1].x > x1) && h[i].y == y) ||
    ((|h| == 0 || h[0].x > x1) && y == 0)
  }

  /**
   * The corner skipped at the left edge: the corner before `i` sits at `x1`
   * above corner `i`, which sits at `x1` too.
   */
  predicate Descent(h: seq<Point>, x1: int, i: int) {
    0 < i < |h| && h[i - 1].x == x1 && h[i].x == x1 && h[i - 1].y > h[i].y
  }

  /**
   * `y` is a height at which a block of width `w` with its left edge at `x`
   * rests on the skyline: every corner strictly within its span is at or
   * below it; when some corner lies in the span, it is the height of one of
   * them (or 0); when none does, it is the height of the skyline at `x`.
   */
  ghost predicate Resting(h: seq<Point>, x: int, w: int, y: int) {
    (Sorted(h) ==> forall i | 0 <= i < |h| && x < h[i].x < x + w :: h[i].y <= y) &&
    (Sorted(h) && w >= 0 && Spans(h, x, x + w) ==>
      y == 0 || exists i | 0 <= i < |h| :: x <= h[i].x <= x + w && h[i].y == y) &&
    (!Spans(h, x, x + w) ==> Landing(h, x, y))
  }

  /**
   * `Contour::find_blk_y`: the height at which a block of the given width,
   * placed with its left edge at `x`, comes to rest on the skyline.
   */
  method FindBlkY(c: Contour, b: Block, x: int) returns (y: int)
    ensures Resting(c.hor, x, b.width, y)
  {
    var found;
    y, found := ScanSpan(c.hor, x, x + b.width);
    if !found {
      y := HeightAt(c.hor, x);
    }
  }

  /**
   * The first scan of `find_blk_y`: the highest corner in `[x1, x2]`, leaving
   * out a corner at `x1` directly above the next one and stopping at a corner
   * at `x2` directly above the one before it.  `found` tells whether any
   * corner was taken; on a skyline running left to right that happens exactly
   * when some corner lies in the span.
   */
  method ScanSpan(h: seq<Point>, x1: int, x2: int) returns (y: int, found: bool)
    ensures !found ==> y == 0
    ensures found ==> Spans(h, x1, x2) && (y == 0 || exists j | 0 <= j < |h| :: x1 <= h[j].x <= x2 && h[j].y == y)
    ensures Sorted(h) ==> forall j | 0 <= j < |h| && x1 < h[j].x < x2 :: h[j].y <= y
    ensures Sorted(h) && x1 <= x2 && !found ==> !Spans(h, x1, x2)
  {
    y := 0;
    found := false;
    var done := false;
    var i := 0;
    while i < |h| && !done
      invariant 0 <= i <= |h|
      invariant !found ==> y == 0
      invariant found ==> Spans(h, x1, x2) && (y == 0 || exists j | 0 <= j < i :: x1 <= h[j].x <= x2 && h[j].y == y)
      invariant Sorted(h) ==> forall j | 0 <= j < i && x1 < h[j].x < x2 :: h[j].y <= y
      invariant Sorted(h) && x1 <= x2 && !found ==>
        forall j | 0 <= j < i :: h[j].x < x1 || (h[j].x == x1 && Descent(h, x1, i))
      invariant done ==> (i < |h| && x1 <= h[i].x &&
        (h[i].x > x2 || (h[i].x == x2 && i > 0 && h[i - 1].x == x2 && h[i].y > h[i - 1].y)))
      decreases |h| - i, if done then 0 else 1
    {
      var p := h[i];
      if p.x < x1 {
        i := i + 1;
      } else if p.x > x2 {
        done := true;
      } else if i != |h| - 1 && p.x == x1 && p.x == h[i + 1].x && p.y > h[i + 1].y {
        i := i + 1;
      } else if i != 0 && p.x == x2 && p.x == h[i - 1].x && p.y > h[i - 1].y {
        done := true;
      } else {
        y := if p.y > y then p.y else y;
        found := true;
        i := i + 1;
      }
    }
  }

  /**
   * The second scan of `find_blk_y`: the height of the last corner before
   * the first corner right of `x1`, or 0 when there is none.
   */
  method HeightAt(h: seq<Point>, x1: int) returns (y: int)
    ensures Landing(h, x1, y)
  {
    y := 0;
    var k := 0;
    while k < |h| && h[k].x <= x1
      invariant 0 <= k <= |h|
      invariant y == (if k == 0 then 0 else h[k - 1].y)
      invariant forall j | 0 <= j < k :: h[j].x <= x1
    {
      y := h[k].y;
      k := k + 1;
    }
    if k > 0 {
      var i := k - 1;
      assert h[i].x <= x1 && (i + 1 == |h| || h[i + 1].x > x1) && h[i].y == y;
    } else {
      assert |h| == 0 || h[0].x > x1;
    }
  }

  // ---------------------------------------------------------------------
  // update
  // ---------------------------------------------------------------------

  /** Some corner lies at or right of `x2`: the scan of `update` stops there. */
  predicate Covers(h: seq<Point>, x2: int) {
    exists i | 0 <= i < |h| :: h[i].x >= x2
  }

  /** The first corner at or right of `x2`. */
  function First(h: seq<Point>, x2: int): (k: nat)
    requires exists i | 0 <= i < |h| :: h[i].x >= x2
    ensures k < |h| && h[k].x >= x2
    ensures forall j | 0 <= j < k :: h[j].x < x2
  {
    if h[0].x >= x2 then 0
    else
      assert exists i | 0 <= i < |h[1..]| :: h[1..][i].x >= x2 by {
        var i :| 0 <= i < |h| && h[i].x >= x2;
        assert h[1..][i - 1] == h[i];
      }
      1 + First(h[1..], x2)
  }

  /** The corners strictly between `x1` and `x2` taken out, the others kept in order. */
  function Drop(h: seq<Point>, x1: int, x2: int): (r: seq<Point>)
    ensures forall p | p in r :: p in h && !(x1 < p.x < x2)
    ensures forall p | p in h && !(x1 < p.x < x2) :: p in r
  {
    if h == [] then []
    else
      var rest := Drop(h[1..], x1, x2);
      assert forall p | p in rest :: p in h[1..];
      if x1 < h[0].x < x2 then rest else [h[0]] + rest
  }

  /**
   * The corners a block adds: up its left edge, across its top, down its right
   * edge, and on down to `y`, the height of the skyline it lands next to, when
   * that lies lower.
   */
  function Outline(b: Block, y: int): seq<Point> {
    var x1 := b.x;
    var y1 := b.y;
    var x2 := b.x + b.width;
    var y2 := b.y + b.height;
    [Point(x1, y1), Point(x1, y2), Point(x2, y2), Point(x2, y1)] + (if y < y1 then [Point(x2, y)] else [])
  }

  /**
   * The first two steps of `update`: the corners strictly within the block's
   * span, up to the first corner at or right of its right edge, are erased,
   * and the block's own corners go in before that corner.
   */
  function Splice(h: seq<Point>, b: Block): (r: seq<Point>)
    requires Covers(h, b.x + b.width)
    ensures |r| > 0 && r[|r| - 1] == h[|h| - 1]
    ensures Sorted(h) && b.width >= 0 ==> Sorted(r)
  {
    var k := First(h, b.x + b.width);
    SpliceParts(h, b, k);
    Drop(h[..k], b.x, b.x + b.width) + Outline(b, h[k].y) + h[k..]
  }

  /** The length of the leading run of corners that share the first corner's x. */
  function RunLen(h: seq<Point>): (n: nat)
    requires |h| > 0
    ensures 1 <= n <= |h|
    ensures forall i | 0 <= i < n :: h[i].x == h[0].x
    ensures n < |h| ==> h[n].x != h[0].x
  {
    if |h| == 1 || h[1].x != h[0].x then 1 else 1 + RunLen(h[1..])
  }

  /**
   * One run of a vertical stroke: a run of more than two corners keeps only
   * its two ends, and loses both when they are the same point.
   */
  function Shrink(run: seq<Point>): (r: seq<Point>)
    ensures forall p | p in r :: p in run
  {
    if |run| <= 2 then run
    else if run[0] == run[|run| - 1] then []
    else [run[0], run[|run| - 1]]
  }

  /**
   * The third step of `update`: every run of corners with the same x but the
   * last is shrunk.  The last corner always survives.
   */
  function Compact(h: seq<Point>): (r: seq<Point>)
    ensures forall p | p in r :: p in h
    ensures |h| > 0 ==> |r| > 0 && r[|r| - 1] == h[|h| - 1]
    decreases |h|
  {
    if h == [] then []
    else
      var n := RunLen(h);
      if n == |h| then h
      else Shrink(h[..n]) + Compact(h[n..])
  }

  /** Shrinking the runs keeps a skyline running left to right. */
  lemma {:induction false} CompactSorted(h: seq<Point>)
    requires Sorted(h)
    ensures Sorted(Compact(h))
    decreases |h|
  {
    if h != [] {
      var n := RunLen(h);
      if n < |h| {
        var head := Shrink(h[..n]);
        var tail := Compact(h[n..]);
        assert Sorted(head + tail) by {
          CompactSorted(h[n..]);
          ShrinkFlat(h, n);
          CompactRight(h[n..], h[0].x);
          SortedJoin(head, tail, h[0].x);
        }
      }
    }
  }

  /** The shrunk leading run stays on the run's vertical line. */
  lemma ShrinkFlat(h: seq<Point>, n: nat)
    requires 0 < n <= |h| && forall i | 0 <= i < n :: h[i].x == h[0].x
    ensures Sorted(Shrink(h[..n])) && AtMost(Shrink(h[..n]), h[0].x)
  {
    var head := Shrink(h[..n]);
    forall i | 0 <= i < |head|
      ensures head[i].x == h[0].x
    {
      assert head[i] in h[..n];
    }
  }

  /** Compacting keeps every corner where it was, so a bound on the left stays. */
  lemma CompactRight(h: seq<Point>, v: int)
    requires AtLeast(h, v)
    ensures AtLeast(Compact(h), v)
  {
    var r := Compact(h);
    forall i | 0 <= i < |r|
      ensures r[i].x >= v
    {
      assert r[i] in h;
    }
  }

  /** The corner joining `a` to `b` with one horizontal and one vertical stroke, the lower one last. */
  function Bend(a: Point, b: Point): (m: Point)
    ensures (m.x == a.x || m.y == a.y) && (m.x == b.x || m.y == b.y)
    ensures m.y == a.y || m.y == b.y
    ensures m.x == a.x || m.x == b.x
  {
    if a.y > b.y then Point(a.x, b.y) else Point(b.x, a.y)
  }

  /**
   * The last step of `update`: a corner is inserted between any two
   * neighbours that share neither x nor y.
   */
  function Fill(h: seq<Point>): (r: seq<Point>)
    ensures |h| > 0 ==> |r| > 0 && r[0] == h[0] && r[|r| - 1] == h[|h| - 1]
  {
    if |h| < 2 then h
    else if h[0].x != h[1].x && h[0].y != h[1].y then [h[0], Bend(h[0], h[1])] + Fill(h[1..])
    else [h[0]] + Fill(h[1..])
  }

  /** After filling, neighbouring corners always share x or y. */
  lemma {:induction false} FillContinuous(h: seq<Point>)
    ensures Continuous(Fill(h))
  {
    if |h| >= 2 {
      var rest := Fill(h[1..]);
      FillContinuous(h[1..]);
      if h[0].x != h[1].x && h[0].y != h[1].y {
        var m := Bend(h[0], h[1]);
        ContinuousCons(m, rest);
        ContinuousCons(h[0], [m] + rest);
        assert [h[0], m] + rest == [h[0]] + ([m] + rest);
      } else {
        ContinuousCons(h[0], rest);
      }
    }
  }

  /** Filling keeps a skyline running left to right. */
  lemma {:induction false} FillSorted(h: seq<Point>)
    requires Sorted(h)
    ensures Sorted(Fill(h))
  {
    if |h| >= 2 {
      var rest := Fill(h[1..]);
      FillSorted(h[1..]);
      if h[0].x != h[1].x && h[0].y != h[1].y {
        var m := Bend(h[0], h[1]);
        SortedCons(m, rest);
        SortedCons(h[0], [m] + rest);
        assert [h[0], m] + rest == [h[0]] + ([m] + rest);
      } else {
        SortedCons(h[0], rest);
      }
    }
  }

  /** Filling keeps every corner and adds none higher than the highest. */
  lemma {:induction false} FillHeights(h: seq<Point>, top: int)
    requires forall i | 0 <= i < |h| :: h[i].y <= top
    ensures forall p | p in h :: p in Fill(h)
    ensures forall i | 0 <= i < |Fill(h)| :: Fill(h)[i].y <= top
  {
    if |h| >= 2 {
      FillHeights(h[1..], top);
      assert h == [h[0]] + h[1..];
    }
  }

  /** The height of the highest corner, and 0 when all corners are lower. */
  function MaxY(h: seq<Point>): (m: int)
    ensures m >= 0 && forall i | 0 <= i < |h| :: h[i].y <= m
    ensures m == 0 || exists i | 0 <= i < |h| :: h[i].y == m
  {
    if h == [] then 0
    else
      var m := MaxY(h[..|h| - 1]);
      assert forall i | 0 <= i < |h| - 1 :: h[..|h| - 1][i] == h[i];
      if h[|h| - 1].y > m then h[|h| - 1].y else m
  }

  /**
   * `Contour::update`: the block is merged into the skyline, the record of
   * the highest corner is renewed, and the missing corners are filled in.
   * The source dereferences the first corner at or right of the block's right
   * edge, so one must exist.
   */
  function Update(c: Contour, b: Block): (r: Contour)
    requires Covers(c.hor, b.x + b.width)
    ensures r.ver == c.ver
    ensures |r.hor| > 0 && r.hor[|r.hor| - 1] == c.hor[|c.hor| - 1]
  {
    var s := Compact(Splice(c.hor, b));
    assert s[|s| - 1] == c.hor[|c.hor| - 1];
    Contour(Fill(s), c.ver, MaxY(s))
  }

  /**
   * After `update` the skyline is drawn with horizontal and vertical strokes
   * and `maxHeight` is the height of its highest corner, or 0.
   */
  lemma UpdateShape(c: Contour, b: Block)
    requires Covers(c.hor, b.x + b.width)
    ensures var r := Update(c, b);
      Continuous(r.hor) &&
      r.maxHeight >= 0 && (forall i | 0 <= i < |r.hor| :: r.hor[i].y <= r.maxHeight) &&
      (r.maxHeight == 0 || exists i | 0 <= i < |r.hor| :: r.hor[i].y == r.maxHeight)
  {
    var s := Compact(Splice(c.hor, b));
    var m := MaxY(s);
    UpdateContinuous(c, b);
    FillHeights(s, m);
    if m != 0 {
      var i :| 0 <= i < |s| && s[i].y == m;
      assert s[i] in Fill(s);
    }
  }

  /**
   * What `update` keeps of the skyline: it stays drawn with horizontal and
   * vertical strokes, left to right when it was and the block has a
   * non-negative width, and it ends at the same corner.
   */
  lemma UpdateEvolves(c: Contour, b: Block)
    requires Covers(c.hor, b.x + b.width)
    ensures var r := Update(c, b);
      Continuous(r.hor) &&
      (Sorted(c.hor) && b.width >= 0 ==> Sorted(r.hor)) &&
      |r.hor| > 0 && r.hor[|r.hor| - 1] == c.hor[|c.hor| - 1]
  {
    UpdateContinuous(c, b);
    if Sorted(c.hor) && b.width >= 0 {
      UpdateSorted(c, b);
    }
  }

  /** After `update` the skyline is drawn with horizontal and vertical strokes. */
  lemma UpdateContinuous(c: Contour, b: Block)
    requires Covers(c.hor, b.x + b.width)
    ensures Continuous(Update(c, b).hor)
  {
    FillContinuous(Compact(Splice(c.hor, b)));
  }

  /** A skyline running left to right still does so after a block of non-negative width is merged in. */
  lemma UpdateSorted(c: Contour, b: Block)
    requires Covers(c.hor, b.x + b.width) && Sorted(c.hor) && b.width >= 0
    ensures Sorted(Update(c, b).hor)
  {
    CompactSorted(Splice(c.hor, b));
    FillSorted(Compact(Splice(c.hor, b)));
  }

  /** The three pieces of a splice, cut at corner `k`, run left to right one after the other. */
  lemma SpliceParts(h: seq<Point>, b: Block, k: nat)
    requires k < |h| && h[k].x >= b.x + b.width
    requires forall j | 0 <= j < k :: h[j].x < b.x + b.width
    ensures Sorted(h) && b.width >= 0 ==> Sorted(Drop(h[..k], b.x, b.x + b.width) + Outline(b, h[k].y) + h[k..])
  {
    if Sorted(h) && b.width >= 0 {
      var x1, x2 := b.x, b.x + b.width;
      var d, o, t := Drop(h[..k], x1, x2), Outline(b, h[k].y), h[k..];
      assert Sorted(d) && AtMost(d, x1) by { DropLeft(h, k, x1, x2); }
      assert Sorted(o) && AtLeast(o, x1) && AtMost(o, x2) by { OutlineSorted(b, h[k].y); }
      assert Sorted(t) && AtLeast(t, x2) by { SuffixSorted(h, k, x2); }
      SortedJoin3(d, o, t, x1, x2);
    }
  }

  /** Three runs left to right, each ending where the next may begin, make one. */
  lemma SortedJoin3(a: seq<Point>, b: seq<Point>, c: seq<Point>, u: int, v: int)
    requires Sorted(a) && AtMost(a, u)
    requires Sorted(b) && AtLeast(b, u) && AtMost(b, v) && u <= v
    requires Sorted(c) && AtLeast(c, v)
    ensures Sorted(a + b + c)
  {
    SortedJoin(a, b, u);
    AtMostJoin(a, b, u, v);
    SortedJoin(a + b, c, v);
  }

  /** What survives of corners left of `x2` with the span `(x1, x2)` erased lies at or left of `x1`. */
  lemma DropLeft(h: seq<Point>, k: nat, x1: int, x2: int)
    requires Sorted(h) && k <= |h| && forall j | 0 <= j < k :: h[j].x < x2
    ensures Sorted(Drop(h[..k], x1, x2)) && AtMost(Drop(h[..k], x1, x2), x1)
  {
    var d := Drop(h[..k], x1, x2);
    assert Sorted(h[..k]);
    DropSorted(h[..k], x1, x2);
    forall i | 0 <= i < |d|
      ensures d[i].x <= x1
    {
      assert d[i] in d && d[i] in h[..k];
    }
  }

  /** Dropping corners keeps the rest in left-to-right order. */
  lemma {:induction false} DropSorted(h: seq<Point>, x1: int, x2: int)
    requires Sorted(h)
    ensures Sorted(Drop(h, x1, x2))
  {
    if h != [] {
      DropSorted(h[1..], x1, x2);
    }
  }

  /** A block's own corners run left to right within its span. */
  lemma OutlineSorted(b: Block, y: int)
    requires b.width >= 0
    ensures var o := Outline(b, y); Sorted(o) && AtLeast(o, b.x) && AtMost(o, b.x + b.width)
  {
  }

  /** Two runs at or left of `v`, joined. */
  lemma AtMostJoin(a: seq<Point>, b: seq<Point>, u: int, v: int)
    requires AtMost(a, u) && u <= v && AtMost(b, v)
    ensures AtMost(a + b, v)
  {
    forall i | 0 <= i < |a + b|
      ensures (a + b)[i].x <= v
    {
      if i < |a| {
        assert (a + b)[i] == a[i];
      } else {
        assert (a + b)[i] == b[i - |a|];
      }
    }
  }

  /** The suffix of a skyline running left to right from a corner at or right of `v`. */
  lemma SuffixSorted(h: seq<Point>, k: nat, v: int)
    requires Sorted(h) && k < |h| && h[k].x >= v
    ensures Sorted(h[k..]) && AtLeast(h[k..], v)
  {
    forall i | 0 <= i < |h[k..]|
      ensures h[k..][i].x >= h[k].x
    {
      assert h[k..][i] == h[k + i];
    }
  }

  // ---------------------------------------------------------------------
  // check
  // ---------------------------------------------------------------------

  const Backward := "Error horizontal contour: next corner has larger x value than previous corner"
  const Broken := "Error horizontal contour: contour not continuous"

  /**
   * `Contour::check`: the source exits unless every corner is at or right of
   * the one before it and shares x or y with it.  The scan starts at the
   * second corner, so there must be a first one.
   */
  method Check(h: seq<Point>) returns (res: Result<(), string>)
    requires |h| > 0
    ensures res.Ok? <==> Monotone(h) && Continuous(h)
    ensures res.Fatal? ==> res.error == Backward || res.error == Broken
  {
    var i := 1;
    while i < |h|
      invariant 1 <= i <= |h|
      invariant forall j | 0 < j < i :: h[j - 1].x <= h[j].x
      invariant forall j | 0 < j < i :: h[j - 1].x == h[j].x || h[j - 1].y == h[j].y
    {
      if h[i].x < h[i - 1].x {
        return Fatal(Backward);
      }
      if h[i].x != h[i - 1].x && h[i].y != h[i - 1].y {
        return Fatal(Broken);
      }
      i := i + 1;
    }
    return Ok(());
  }
}
