/**
 * Net partition counts, cell gains and the cut size of a two-way partition.
 *
 * A partition assigns every cell a side: `part[c]` is true when cell c is in
 * partition 1. A net is cut when it has cells on both sides. The gain of a cell
 * is the number of nets whose cut status would improve if the cell moved,
 * minus the number that would get worse, computed from the per-net counts as
 * `compute_cell_gain` does.
 */
module Gain {
  import opened Arena
  import opened Hypergraph

  /** A pair indexed by side: `zero` for partition 0, `one` for partition 1. */
  datatype Two<T> = Two(zero: T, one: T) {
    function At(p: bool): T {
      if p then one else zero
    }

    function With(p: bool, v: T): (r: Two<T>)
      ensures r.At(p) == v && r.At(!p) == At(!p)
    {
      if p then Two(zero, v) else Two(v, one)
    }
  }

  /** 1 for true, 0 for false. */
  function Ind(b: bool): int {
    if b then 1 else 0
  }

  /** Number of entries of `cells` (with repetition) whose cell is on side `p`. */
  function CountIn(cells: seq<nat>, part: seq<bool>, p: bool): (r: nat)
    requires Below(cells, |part|)
    ensures r <= |cells|
  {
    if cells == [] then 0
    else CountIn(cells[..|cells| - 1], part, p) + Ind(part[cells[|cells| - 1]] == p)
  }

  /** The per-side counts of net `n`, recounted from its cell list. */
  function Recount(g: Graph, part: seq<bool>, n: nat): Two<int>
    requires n < |g.nets| && Below(g.nets[n].cells, |part|)
  {
    Two(CountIn(g.nets[n].cells, part, false), CountIn(g.nets[n].cells, part, true))
  }

  /** A partition of the cells of `g`. */
  predicate Fits(g: Graph, part: seq<bool>) {
    && |part| == |g.cells|
    && forall n | 0 <= n < |g.nets| :: Below(g.nets[n].cells, |part|)
  }

  /** Every net's stored counts equal a recount of its cell list (`check_net_part_count`). */
  ghost predicate Counted(g: Graph, part: seq<bool>, count: seq<Two<int>>)
    requires Fits(g, part)
  {
    |count| == |g.nets| && forall n | 0 <= n < |g.nets| :: count[n] == Recount(g, part, n)
  }

  /**
   * The gain contribution of one net to a cell on side `from`: +1 when the cell
   * is the net's only cell on its side and the other side is not empty (moving
   * it uncuts the net), -1 when the other side is empty and the cell is not its
   * side's only cell (moving it cuts the net); a cell alone on its net gets 0.
   */
  function Term(cnt: Two<int>, from: bool): (r: int)
    ensures -1 <= r <= 1
    ensures r == 1 <==> cnt.At(from) == 1 && cnt.At(!from) != 0
    ensures r == -1 <==> cnt.At(from) != 1 && cnt.At(!from) == 0
  {
    Ind(cnt.At(from) == 1) - Ind(cnt.At(!from) == 0)
  }

  /** The gain of a cell on side `from` whose net list is `nets`, one term per entry. */
  function GainOver(nets: seq<nat>, count: seq<Two<int>>, from: bool): (r: int)
    requires Below(nets, |count|)
    ensures -|nets| <= r <= |nets|
  {
    if nets == [] then 0
    else GainOver(nets[..|nets| - 1], count, from) + Term(count[nets[|nets| - 1]], from)
  }

  /** The gain `compute_cell_gain` gives cell `c` under the counts `count`. */
  function CellGain(g: Graph, part: seq<bool>, count: seq<Two<int>>, c: nat): int
    requires c < |g.cells| && c < |part| && Below(g.cells[c].nets, |count|)
  {
    GainOver(g.cells[c].nets, count, part[c])
  }

  /** Whether net `n` has cells on both sides. */
  function NetCut(g: Graph, part: seq<bool>, n: nat): int
    requires n < |g.nets| && Below(g.nets[n].cells, |part|)
  {
    var cnt := Recount(g, part, n);
    Ind(cnt.zero > 0 && cnt.one > 0)
  }

  /** The number of cut nets among nets 0..k-1. */
  function CutUpTo(g: Graph, part: seq<bool>, k: nat): (r: nat)
    requires k <= |g.nets| && Fits(g, part)
    ensures r <= k
  {
    if k == 0 then 0 else CutUpTo(g, part, k - 1) + NetCut(g, part, k - 1)
  }

  /** The cut size of a partition. */
  function Cut(g: Graph, part: seq<bool>): nat
    requires Fits(g, part)
  {
    CutUpTo(g, part, |g.nets|)
  }

  /** `estimate_cut_size` from stored counts, over nets 0..k-1. */
  function CutFromCounts(count: seq<Two<int>>, k: nat): (r: nat)
    requires k <= |count|
    ensures r <= k
  {
    if k == 0 then 0 else CutFromCounts(count, k - 1) + Ind(count[k - 1].zero > 0 && count[k - 1].one > 0)
  }

  /** Cell `c` moved to the other side. */
  function Flip(part: seq<bool>, c: nat): (r: seq<bool>)
    requires c < |part|
    ensures |r| == |part| && r[c] == !part[c]
    ensures forall d | 0 <= d < |part| && d != c :: r[d] == part[d]
  {
    part[c := !part[c]]
  }

  /** The partition after moving the cells of `moves` in order. */
  function FlipAll(part: seq<bool>, moves: seq<nat>): (r: seq<bool>)
    requires Below(moves, |part|)
    ensures |r| == |part|
  {
    if moves == [] then part else Flip(FlipAll(part, moves[..|moves| - 1]), moves[|moves| - 1])
  }

  // ---------------------------------------------------------------------------
  // Lemmas

  /** A valid graph lets every partition of its cells be recounted. */
  lemma ValidFits(g: Graph, part: seq<bool>)
    requires Valid(g) && |part| == |g.cells|
    ensures Fits(g, part)
  {
  }

  /** With counts kept exact, `estimate_cut_size` reports the cut size. */
  lemma {:induction false} CutFromCountsExact(g: Graph, part: seq<bool>, count: seq<Two<int>>, k: nat)
    requires Fits(g, part) && Counted(g, part, count) && k <= |g.nets|
    ensures CutFromCounts(count, k) == CutUpTo(g, part, k)
  {
    if k > 0 {
      CutFromCountsExact(g, part, count, k - 1);
    }
  }

  /** The two sides' counts of a list add up to its length. */
  lemma {:induction false} CountSplit(cells: seq<nat>, part: seq<bool>)
    requires Below(cells, |part|)
    ensures CountIn(cells, part, false) + CountIn(cells, part, true) == |cells|
    decreases |cells|
  {
    if cells != [] {
      CountSplit(cells[..|cells| - 1], part);
    }
  }

  /** Moving cell `c` shifts each count by the number of times `c` is listed. */
  lemma {:induction false} CountFlip(cells: seq<nat>, part: seq<bool>, c: nat, p: bool)
    requires Below(cells, |part|) && c < |part|
    ensures CountIn(cells, Flip(part, c), p) ==
            CountIn(cells, part, p) + (if part[c] == p then -(Occ(cells, c) as int) else Occ(cells, c))
    decreases |cells|
  {
    if cells != [] {
      var front := cells[..|cells| - 1];
      CountFlip(front, part, c, p);
      assert cells == front + [cells[|cells| - 1]];
      assert multiset(cells) == multiset(front) + multiset{cells[|cells| - 1]};
    }
  }

  /** Moving cell `c` changes the recount of a net on which it is listed `o` times by `o` per side. */
  lemma RecountFlip(g: Graph, part: seq<bool>, c: nat, n: nat)
    requires n < |g.nets| && Below(g.nets[n].cells, |part|) && c < |part|
    ensures var o := Occ(g.nets[n].cells, c);
            var before := Recount(g, part, n);
            Recount(g, Flip(part, c), n) == before.With(part[c], before.At(part[c]) - o).With(!part[c], before.At(!part[c]) + o)
  {
    CountFlip(g.nets[n].cells, part, c, false);
    CountFlip(g.nets[n].cells, part, c, true);
  }

  /** A cell listed at most once on a net changes the net's cut status by its gain term. */
  lemma NetCutFlip(g: Graph, part: seq<bool>, c: nat, n: nat)
    requires n < |g.nets| && Below(g.nets[n].cells, |part|) && c < |part|
    requires Occ(g.nets[n].cells, c) <= 1
    ensures NetCut(g, part, n) - NetCut(g, Flip(part, c), n) ==
            Occ(g.nets[n].cells, c) * Term(Recount(g, part, n), part[c])
  {
    RecountFlip(g, part, c, n);
    var o := Occ(g.nets[n].cells, c);
    if o == 1 {
      assert c in g.nets[n].cells;
      var k :| 0 <= k < |g.nets[n].cells| && g.nets[n].cells[k] == c;
      CountPositive(g.nets[n].cells, part, k);
    }
  }

  /** A list holding a cell of side `p` counts at least one on side `p`. */
  lemma {:induction false} CountPositive(cells: seq<nat>, part: seq<bool>, k: nat)
    requires Below(cells, |part|) && k < |cells|
    ensures CountIn(cells, part, part[cells[k]]) >= 1
    decreases |cells|
  {
    if k < |cells| - 1 {
      CountPositive(cells[..|cells| - 1], part, k);
    }
  }

  /** The gain of a list of nets, weighted by how often each net id occurs, over net ids 0..k-1. */
  function OccSum(nets: seq<nat>, count: seq<Two<int>>, from: bool, k: nat): int
    requires k <= |count|
  {
    if k == 0 then 0 else OccSum(nets, count, from, k - 1) + Occ(nets, k - 1) * Term(count[k - 1], from)
  }

  /** One more entry `x` adds its term once to the weighted sum. */
  lemma {:induction false} OccSumSnoc(nets: seq<nat>, x: nat, count: seq<Two<int>>, from: bool, k: nat)
    requires k <= |count|
    ensures OccSum(nets + [x], count, from, k) ==
            OccSum(nets, count, from, k) + (if x < k then Term(count[x], from) else 0)
  {
    if k > 0 {
      OccSumSnoc(nets, x, count, from, k - 1);
      assert multiset(nets + [x]) == multiset(nets) + multiset{x};
    }
  }

  /** A cell's gain is the weighted sum over all net ids. */
  lemma {:induction false} GainOverIsOccSum(nets: seq<nat>, count: seq<Two<int>>, from: bool)
    requires Below(nets, |count|)
    ensures GainOver(nets, count, from) == OccSum(nets, count, from, |count|)
    decreases |nets|
  {
    if nets == [] {
      ZeroOccSum(count, from, |count|);
    } else {
      var front := nets[..|nets| - 1];
      GainOverIsOccSum(front, count, from);
      assert nets == front + [nets[|nets| - 1]];
      OccSumSnoc(front, nets[|nets| - 1], count, from, |count|);
    }
  }

  lemma {:induction false} ZeroOccSum(count: seq<Two<int>>, from: bool, k: nat)
    requires k <= |count|
    ensures OccSum([], count, from, k) == 0
  {
    if k > 0 {
      ZeroOccSum(count, from, k - 1);
    }
  }

  /** Over nets 0..k-1 the cut reduction of moving `c` is the weighted sum of its gain terms. */
  lemma {:induction false} CutDrop(g: Graph, part: seq<bool>, c: nat, k: nat)
    requires Valid(g) && DupFree(g) && |part| == |g.cells| && c < |g.cells| && k <= |g.nets|
    ensures Fits(g, part) && Fits(g, Flip(part, c))
    ensures CutUpTo(g, part, k) - CutUpTo(g, Flip(part, c), k) ==
            OccSum(g.cells[c].nets, RecountAll(g, part), part[c], k)
  {
    if k > 0 {
      CutDrop(g, part, c, k - 1);
      var n := k - 1;
      assert Occ(g.nets[n].cells, c) == Occ(g.cells[c].nets, n);
      assert Occ(g.nets[n].cells, c) <= 1 by {
        DistinctOcc(g.nets[n].cells, c);
      }
      NetCutFlip(g, part, c, n);
    }
  }

  /** The counts of every net, recounted. */
  function RecountAll(g: Graph, part: seq<bool>): (r: seq<Two<int>>)
    requires Fits(g, part)
    ensures |r| == |g.nets|
  {
    seq(|g.nets|, n requires 0 <= n < |g.nets| => Recount(g, part, n))
  }

  /** A list without repeats holds any id at most once. */
  lemma {:induction false} DistinctOcc(s: seq<nat>, x: nat)
    requires Distinct(s)
    ensures Occ(s, x) <= 1
    decreases |s|
  {
    if s != [] {
      var front := s[..|s| - 1];
      assert Distinct(front);
      DistinctOcc(front, x);
      assert s == front + [s[|s| - 1]];
      assert multiset(s) == multiset(front) + multiset{s[|s| - 1]};
      if s[|s| - 1] == x {
        assert x !in front;
      }
    }
  }

  /** The hypergraph of the single record `NET n a b a ;`: cell a sits twice on net n. */
  function RepeatGraph(): Graph {
    Graph([Cell("a", [0, 0], 2), Cell("b", [0], 1)], [Net("n", [0, 1, 0])], map["a" := 0, "b" := 1], map["n" := 0])
  }

  /** The tokens of that record, after the balance factor. */
  function RepeatTokens(): seq<string> {
    ["1", "NET", "n", "a", "b", "a", ";"]
  }

  /** The hypergraph once net n has its first cell: a. */
  function FirstCellGraph(): Graph {
    Graph([Cell("a", [0], 1)], [Net("n", [0])], map["a" := 0], map["n" := 0])
  }

  /** The hypergraph once net n has its second cell: b. */
  function SecondCellGraph(): Graph {
    Graph([Cell("a", [0], 1), Cell("b", [0], 1)], [Net("n", [0, 1])], map["a" := 0, "b" := 1], map["n" := 0])
  }

  /** The record's first name is a new cell with its first pin on net n. */
  lemma RepeatFirstCell()
    ensures NewCell(OpenNet(Empty(), "n"), "a", 0) == FirstCellGraph()
  {
    var g0 := OpenNet(Empty(), "n");
    assert g0 == Graph([], [Net("n", [])], map[], map["n" := 0]);
    var g1 := NewCell(g0, "a", 0);
    assert [] + [0] == [0];
    assert g1.cells[0] == Cell("a", [0], 1) && g1.nets[0] == Net("n", [0]);
    assert g1.cells == [Cell("a", [0], 1)] && g1.nets == [Net("n", [0])];
  }

  /** The record's second name is a new cell too, with its first pin on net n. */
  lemma RepeatSecondCell()
    ensures NewCell(FirstCellGraph(), "b", 0) == SecondCellGraph()
  {
    var g1 := FirstCellGraph();
    var g2 := NewCell(g1, "b", 0);
    assert [0] + [1] == [0, 1];
    assert g2.cells[0] == g1.cells[0] && g2.cells[1] == Cell("b", [0], 1) && g2.nets[0] == Net("n", [0, 1]);
    assert g2.cells == [Cell("a", [0], 1), Cell("b", [0], 1)] && g2.nets == [Net("n", [0, 1])];
  }

  /** The third name repeats a, not adjacently, so a gets a second pin on net n. */
  lemma RepeatPin()
    ensures AddPin(SecondCellGraph(), 0, 0) == RepeatGraph()
  {
    var g3 := AddPin(SecondCellGraph(), 0, 0);
    assert [0] + [0] == [0, 0] && [0, 1] + [0] == [0, 1, 0];
    assert g3.cells[0] == Cell("a", [0, 0], 2) && g3.nets[0] == Net("n", [0, 1, 0]);
    assert g3.cells == [Cell("a", [0, 0], 2), Cell("b", [0], 1)] && g3.nets == [Net("n", [0, 1, 0])];
  }

  /** `parseInput` builds that hypergraph from the record, keeping the non-adjacent repeat of a. */
  lemma RepeatParses()
    ensures ParseInput(RepeatTokens()) == RepeatGraph()
  {
    var toks := RepeatTokens();
    var g0 := OpenNet(Empty(), "n");
    RepeatFirstCell();
    RepeatSecondCell();
    RepeatPin();
    var g1 := FirstCellGraph();
    var g2 := SecondCellGraph();
    var g3 := AddPin(g2, 0, 0);
    assert ParseCells(toks, 3, g0, 0, "") == ParseCells(toks, 4, g1, 0, "a");
    assert ParseCells(toks, 4, g1, 0, "a") == ParseCells(toks, 5, g2, 0, "b");
    assert ParseCells(toks, 5, g2, 0, "b") == ParseCells(toks, 6, g3, 0, "a") == (g3, 7);
    assert ParseFrom(toks, 1, Empty()) == ParseFrom(toks, 7, g3) == g3;
  }

  /** Net n of that hypergraph counts 2 and 1 with a on side 0, and 0 and 3 once a moves. */
  lemma RepeatCounts()
    ensures Recount(RepeatGraph(), [false, true], 0) == Two(2, 1)
    ensures Recount(RepeatGraph(), [true, true], 0) == Two(0, 3)
  {
    var cells := RepeatGraph().nets[0].cells;
    assert cells[..2] == [0, 1] && cells[..2][..1] == [0] && [0][..0] == [];
    var part := [false, true];
    assert CountIn([0], part, false) == 1 && CountIn([0], part, true) == 0;
    assert CountIn([0, 1], part, false) == 1 && CountIn([0, 1], part, true) == 1;
    var flipped := [true, true];
    assert CountIn([0], flipped, false) == 0 && CountIn([0, 1], flipped, false) == 0;
    assert CountIn([0], flipped, true) == 1 && CountIn([0, 1], flipped, true) == 2;
  }

  /** In that hypergraph, with a on side 0 and b on side 1, a's gain is 0. */
  lemma RepeatGain()
    ensures CellGain(RepeatGraph(), [false, true], RecountAll(RepeatGraph(), [false, true]), 0) == 0
  {
    RepeatCounts();
    var g := RepeatGraph();
    assert RecountAll(g, [false, true]) == [Two(2, 1)];
    assert g.cells[0].nets[..1] == [0];
  }

  /** In that hypergraph, with a on side 0 and b on side 1, moving a drops the cut from 1 to 0. */
  lemma RepeatCut()
    ensures Flip([false, true], 0) == [true, true]
    ensures Cut(RepeatGraph(), [false, true]) == 1 && Cut(RepeatGraph(), [true, true]) == 0
  {
    RepeatCounts();
  }

  /**
   * A net that lists a cell twice breaks the gain. With a in partition 0 and
   * b in partition 1, moving a uncuts net n and drops the cut by 1, yet
   * `compute_cell_gain` gives a a gain of 0: the net counts a twice on its
   * side, so neither rule fires for either of a's two entries for n.
   */
  lemma RepeatedCellMisgains()
    ensures var g := ParseInput(RepeatTokens());
      var part := [false, true];
      && Valid(g) && !DupFree(g) && Fits(g, part) && Fits(g, Flip(part, 0))
      && CellGain(g, part, RecountAll(g, part), 0) == 0
      && Cut(g, part) - Cut(g, Flip(part, 0)) == 1
  {
    RepeatParses();
    RepeatGain();
    RepeatCut();
    assert RepeatGraph().nets[0].cells[0] == RepeatGraph().nets[0].cells[2];
  }

  /**
   * On a valid graph without repeated cells in a net, the gain `compute_cell_gain`
   * gives a cell is exactly the drop in cut size if the cell moved.
   */
  lemma GainIsCutReduction(g: Graph, part: seq<bool>, c: nat)
    requires Valid(g) && DupFree(g) && |part| == |g.cells| && c < |g.cells|
    ensures Fits(g, part) && Fits(g, Flip(part, c))
    ensures CellGain(g, part, RecountAll(g, part), c) == Cut(g, part) - Cut(g, Flip(part, c))
  {
    CutDrop(g, part, c, |g.nets|);
    assert Below(g.cells[c].nets, |g.nets|);
    GainOverIsOccSum(g.cells[c].nets, RecountAll(g, part), part[c]);
  }
}
