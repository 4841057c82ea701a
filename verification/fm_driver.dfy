/**
 * The outer loop of the partitioner: the rollback to the best prefix of a pass
 * (`restore_best_move`), the cut-size and count checks (`estimate_cut_size`,
 * `check_net_part_count`), one round of set-up, pass and rollback, and
 * `partition`, which repeats rounds until `MaxExtraIters` rounds in a row
 * bring no gain.
 */
module FmDriver {
  import opened Arena
  import opened Wrappers
  import opened Hypergraph
  import opened Buckets
  import opened Gain
  import opened FmState
  import opened FmUpdate
  import opened FmPass

  /** The seed split of `initialize_partitions`: cells with id below N/2 in partition 1. */
  function Seed(n: nat): (r: seq<bool>)
    ensures |r| == n && forall c | 0 <= c < n :: r[c] <==> c < n / 2
  {
    seq(n, c => c < n / 2)
  }

  /** `MAX_EXTRA_ITERS`: rounds without gain after which `partition` stops. */
  const MaxExtraIters: nat := 5

  // ---------------------------------------------------------------------------
  // estimate_cut_size and check_net_part_count

  /** `estimate_cut_size`: counts the nets with cells on both sides according to the stored counts. */
  method EstimateCutSize(g: Graph, st: Fm) returns (r: Fm)
    requires |st.count| == |g.nets|
    ensures r == st.(cutSize := r.cutSize) && 0 <= r.cutSize <= |g.nets|
    ensures Fits(g, st.part) && Counted(g, st.part, st.count) ==> r.cutSize == Cut(g, st.part)
  {
    var cut := 0;
    for n := 0 to |g.nets|
      invariant cut == CutFromCounts(st.count, n)
    {
      if st.count[n].zero > 0 && st.count[n].one > 0 {
        cut := cut + 1;
      }
    }
    r := st.(cutSize := cut);
    if Fits(g, st.part) && Counted(g, st.part, st.count) {
      CutFromCountsExact(g, st.part, st.count, |g.nets|);
    }
  }

  /**
   * `check_net_part_count`: recounts every net's cells per side and reports
   * whether every stored count matches, where `check_net_part_count` asserts it.
   */
  method CheckNetPartCount(g: Graph, st: Fm) returns (ok: bool)
    requires Fits(g, st.part) && |st.count| == |g.nets|
    ensures ok <==> Counted(g, st.part, st.count)
  {
    ok := true;
    for n := 0 to |g.nets|
      invariant ok <==> forall m | 0 <= m < n :: st.count[m] == Recount(g, st.part, m)
    {
      var cells := g.nets[n].cells;
      var cnt := Two(0, 0);
      for i := 0 to |cells|
        invariant cnt == Two(CountIn(cells[..i], st.part, false), CountIn(cells[..i], st.part, true))
      {
        assert cells[..i + 1][..i] == cells[..i];
        cnt := cnt.With(st.part[cells[i]], cnt.At(st.part[cells[i]]) + 1);
      }
      assert cells[..|cells|] == cells;
      ok := ok && cnt == st.count[n];
    }
  }

  // ---------------------------------------------------------------------------
  // restore_best_move

  /** The first loop of `restore_best_move`: every cell unlocked. */
  function UnlockAll(st: Fm): (r: Fm)
    ensures |r.locked| == |st.locked| && forall c | 0 <= c < |r.locked| :: !r.locked[c]
    ensures r == st.(locked := r.locked)
  {
    st.(locked := seq(|st.locked|, _ => false))
  }

  /** Moving a cell twice gives the partition back. */
  lemma FlipFlip(part: seq<bool>, c: nat)
    requires c < |part|
    ensures Flip(Flip(part, c), c) == part
  {
  }

  /** Undoing the last move of `moves` lands on the partition of the shorter sequence. */
  lemma FlipAllPop(part0: seq<bool>, moves: seq<nat>)
    requires Below(moves, |part0|) && moves != []
    ensures Flip(FlipAll(part0, moves), moves[|moves| - 1]) == FlipAll(part0, moves[..|moves| - 1])
  {
    FlipFlip(FlipAll(part0, moves[..|moves| - 1]), moves[|moves| - 1]);
  }

  /** The rollback loop's invariant: the stack is a prefix of `st`'s, applied to `part0`, with every cell free. */
  ghost predicate Unwinding(g: Graph, st: Fm, r: Fm, part0: seq<bool>)
    requires Valid(g) && |part0| == |g.cells|
  {
    && 0 <= st.bestMoveNum <= r.moveNum <= st.moveNum && r.bestMoveNum == st.bestMoveNum
    && 0 <= r.moveNum <= |st.stack| && r.stack == st.stack[..r.moveNum] && Below(r.stack, |g.cells|)
    && r.part == FlipAll(part0, r.stack)
    && |r.locked| == |g.cells| && (forall c | 0 <= c < |g.cells| :: !r.locked[c])
    && Fits(g, r.part) && Counted(g, r.part, r.count)
    && r.partSize == Two(CountSide(r.part, false, |g.cells|), CountSide(r.part, true, |g.cells|))
    && r == st.(part := r.part, partSize := r.partSize, unlockNum := r.unlockNum, stack := r.stack,
                count := r.count, locked := r.locked, moveNum := r.moveNum)
  }

  /** One turn of the rollback loop: pop the last moved cell and move it back (`move_cell` with `reverse`). */
  function PopMove(g: Graph, st: Fm): (r: Fm)
    requires st.stack != [] && st.stack[|st.stack| - 1] < |g.cells| && |st.part| == |g.cells| && |st.locked| == |g.cells|
    requires !st.locked[st.stack[|st.stack| - 1]] && Below(g.cells[st.stack[|st.stack| - 1]].nets, |st.count|)
  {
    var c := st.stack[|st.stack| - 1];
    MoveCell(g, st.(stack := st.stack[..|st.stack| - 1]), c, true).(moveNum := st.moveNum - 1)
  }

  /** A pop keeps the rollback invariant with one move fewer, the popped cell back on its earlier side. */
  lemma PopKeeps(g: Graph, st: Fm, r: Fm, part0: seq<bool>)
    requires Valid(g) && |part0| == |g.cells| && Unwinding(g, st, r, part0) && r.moveNum != r.bestMoveNum
    ensures r.stack != [] && Unwinding(g, st, PopMove(g, r), part0) && PopMove(g, r).moveNum == r.moveNum - 1
    ensures var c := r.stack[|r.stack| - 1]; PopMove(g, r).part == Flip(r.part, c)
  {
    var c := r.stack[|r.stack| - 1];
    FlipAllPop(part0, r.stack);
    assert st.stack[..r.moveNum][..r.moveNum - 1] == st.stack[..r.moveNum - 1];
    var s := r.(stack := r.stack[..|r.stack| - 1]);
    MoveKeepsCounted(g, s, c, true);
    MoveKeepsSizes(g, s, c, true);
  }

  /**
   * `restore_best_move`: unlocks every cell, then pops the stack and moves the
   * popped cell back until only the best prefix is left. The partition lands
   * on the one after the best prefix's moves; counts and side sizes stay exact;
   * on a state already rolled back and unlocked it changes nothing, so a
   * second call is a no-op.
   */
  method RestoreBestMove(g: Graph, st: Fm, ghost part0: seq<bool>) returns (r: Fm)
    requires Valid(g) && |part0| == |g.cells| && |st.part| == |g.cells| && |st.locked| == |g.cells|
    requires |st.stack| == st.moveNum && Below(st.stack, |g.cells|) && 0 <= st.bestMoveNum <= st.moveNum
    requires st.part == FlipAll(part0, st.stack) && Counted(g, st.part, st.count)
    requires st.partSize == Two(CountSide(st.part, false, |g.cells|), CountSide(st.part, true, |g.cells|))
    ensures r.stack == st.stack[..st.bestMoveNum] && r.moveNum == st.bestMoveNum
    ensures r.part == FlipAll(part0, r.stack)
    ensures |r.locked| == |g.cells| && forall c | 0 <= c < |g.cells| :: !r.locked[c]
    ensures Fits(g, r.part) && Counted(g, r.part, r.count)
    ensures r.partSize == Two(CountSide(r.part, false, |g.cells|), CountSide(r.part, true, |g.cells|))
    ensures r == st.(part := r.part, partSize := r.partSize, unlockNum := r.unlockNum, stack := r.stack,
                     count := r.count, locked := r.locked, moveNum := r.moveNum)
    ensures st.moveNum == st.bestMoveNum && (forall c | 0 <= c < |g.cells| :: !st.locked[c]) ==> r == st
  {
    r := UnlockAll(st);
    ghost var idle := st.moveNum == st.bestMoveNum && forall c | 0 <= c < |g.cells| :: !st.locked[c];
    if idle {
      assert r.locked == st.locked;
    }
    assert st.stack[..st.moveNum] == st.stack;
    while r.moveNum != r.bestMoveNum
      invariant Unwinding(g, st, r, part0)
      invariant idle ==> r == st
      decreases r.moveNum
    {
      PopKeeps(g, st, r, part0);
      r := PopMove(g, r);
    }
  }

  // ---------------------------------------------------------------------------
  // One round and the outer loop

  /**
   * The state between rounds: every cell free and off the bucket lists, the
   * bucket lists sized for the largest pin count, and side sizes exact.
   */
  ghost predicate Ready(g: Graph, st: Fm) {
    && |st.part| == |g.cells| && |st.gain| == |g.cells| && |st.locked| == |g.cells| && |st.links| == |g.cells|
    && |st.count| == |g.nets|
    && (forall c | 0 <= c < |g.cells| :: g.cells[c].pinNum <= st.pmax)
    && Sized(st.bl.zero, st.pmax) && Sized(st.bl.one, st.pmax)
    && (forall c | 0 <= c < |g.cells| :: !st.locked[c] && st.links[c] == Unlinked)
    && st.partSize == Two(CountSide(st.part, false, |g.cells|), CountSide(st.part, true, |g.cells|))
  }

  /** Fresh gains lie within the bucket range, since a cell's gain is bounded by its pin count. */
  lemma GainsInRange(g: Graph, st: Fm)
    requires Valid(g) && |st.part| == |g.cells| && |st.gain| == |g.cells| && |st.count| == |g.nets|
    requires forall c | 0 <= c < |g.cells| :: g.cells[c].pinNum <= st.pmax
    requires forall c | 0 <= c < |g.cells| :: st.gain[c] == CellGain(g, st.part, st.count, c)
    ensures forall c | 0 <= c < |g.cells| :: -(st.pmax as int) <= st.gain[c] <= st.pmax
  {
  }

  /** A freshly filled pass state satisfies the pass loop's invariant with an empty record. */
  lemma RoundStart(g: Graph, st: Fm, L: Lists)
    requires Valid(g) && Fits(g, st.part) && Sound(g, st, L) && Counted(g, st.part, st.count)
    requires forall c | 0 <= c < |g.cells| :: st.gain[c] == CellGain(g, st.part, st.count, c)
    requires st.accGain == 0 && st.maxAccGain == 0 && st.moveNum == 0 && st.bestMoveNum == 0 && st.stack == []
    requires forall c | 0 <= c < |g.cells| :: !st.locked[c]
    requires st.partSize == Two(CountSide(st.part, false, |g.cells|), CountSide(st.part, true, |g.cells|))
    ensures Running(g, st, L, st.part)
  {
    assert Reductions(g, st.part, st.stack) == [0];
  }

  /** After a complete pass every cell is off the bucket lists and on the stack. */
  lemma RoundEndCells(g: Graph, st: Fm, L: Lists, part0: seq<bool>)
    requires Valid(g) && |part0| == |g.cells| && Running(g, st, L, part0)
    requires forall d | 0 <= d < |g.cells| :: st.locked[d]
    ensures forall d | 0 <= d < |g.cells| :: st.links[d] == Unlinked && d in st.stack
  {
  }

  /**
   * The best prefix of a pass cuts `maxAccGain` fewer nets than the pass's
   * start and no more than any prefix shorter than N.
   */
  lemma RoundEndCut(g: Graph, st: Fm, part0: seq<bool>)
    requires Valid(g) && |part0| == |g.cells| && Progress(g, st, part0)
    ensures 0 <= st.bestMoveNum <= |st.stack|
    ensures Cut(g, FlipAll(part0, st.stack[..st.bestMoveNum])) == Cut(g, part0) - st.maxAccGain
    ensures forall k | 0 <= k <= |st.stack| && k < |g.cells| ::
              Cut(g, FlipAll(part0, st.stack[..st.bestMoveNum])) <= Cut(g, FlipAll(part0, st.stack[..k]))
    ensures forall k | st.bestMoveNum < k <= |st.stack| && k < |g.cells| ::
              Cut(g, FlipAll(part0, st.stack[..st.bestMoveNum])) < Cut(g, FlipAll(part0, st.stack[..k]))
  {
    var R := Reductions(g, part0, st.stack);
    assert Record(R, st.accGain, st.maxAccGain, st.bestMoveNum, |g.cells|);
    var best := Cut(g, FlipAll(part0, st.stack[..st.bestMoveNum]));
    ReductionsMeaning(g, part0, st.stack, st.bestMoveNum);
    assert best == Cut(g, part0) - st.maxAccGain;
    forall k | 0 <= k <= |st.stack| && k < |g.cells|
      ensures best <= Cut(g, FlipAll(part0, st.stack[..k]))
      ensures st.bestMoveNum < k ==> best < Cut(g, FlipAll(part0, st.stack[..k]))
    {
      ReductionsMeaning(g, part0, st.stack, k);
      assert R[k] <= st.maxAccGain;
      assert st.bestMoveNum < k ==> R[k] < st.maxAccGain;
    }
  }


  /**
   * The set-up of a round (`reset_all_parameters`, `compute_cell_gain`,
   * `initialize_bucket_list`): exact counts and gains, every cell filed, and
   * an empty pass record.
   */
  method RoundSetup(g: Graph, st: Fm) returns (s: Fm, ghost L: Lists)
    requires Valid(g) && Ready(g, st)
    ensures Running(g, s, L, st.part) && s.part == st.part && s.iterNum == st.iterNum
  {
    s := ResetAllParameters(g, st);
    s := ComputeCellGain(g, s);
    GainsInRange(g, s);
    s, L := InitializeBucketList(g, s);
    RoundStart(g, s, L);
  }

  /**
   * One round of the `partition` loop: `reset_all_parameters`,
   * `compute_cell_gain`, `initialize_bucket_list`, `fm_partition_iteration`
   * and `restore_best_move`. The pass moves every cell once (`moves`); the
   * round ends on the best prefix shorter than N, which cuts `maxAccGain` ≥ 0
   * fewer nets than the round's start, no more than any other such prefix,
   * and fewer than any longer one: of equally good prefixes the latest wins.
   */
  method FmRound(g: Graph, st: Fm, bf: real) returns (res: Result<Fm, string>, ghost moves: seq<nat>)
    requires Valid(g) && DupFree(g) && Ready(g, st)
    ensures res.Ok? ==>
              var r := res.value;
              && Ready(g, r) && Counted(g, r.part, r.count) && r.iterNum == st.iterNum + 1
              && Below(moves, |g.cells|) && Distinct(moves) && (forall d | 0 <= d < |g.cells| :: d in moves)
              && 0 <= r.bestMoveNum <= |moves| && r.part == FlipAll(st.part, moves[..r.bestMoveNum])
              && r.maxAccGain >= 0 && Cut(g, r.part) == Cut(g, st.part) - r.maxAccGain
              && (forall k | 0 <= k <= |moves| && k < |g.cells| :: Cut(g, r.part) <= Cut(g, FlipAll(st.part, moves[..k])))
              && (forall k | r.bestMoveNum < k <= |moves| && k < |g.cells| :: Cut(g, r.part) < Cut(g, FlipAll(st.part, moves[..k])))
    ensures res.Fatal? ==> TooTight(|g.cells|, bf)
  {
    var s;
    ghost var L;
    s, L := RoundSetup(g, st);
    var pass;
    pass, L := FmPartitionIteration(g, s, L, bf);
    if pass.Fatal? {
      return Fatal(pass.error), [];
    }
    var q := pass.value;
    var r;
    r, moves := EndRound(g, q, L, st.part);
    res := Ok(r);
  }

  /**
   * The end of a round, once every cell has moved: `restore_best_move` leaves
   * the best prefix of the pass's moves, and the round is counted.
   */
  method EndRound(g: Graph, q: Fm, ghost L: Lists, ghost part0: seq<bool>) returns (r: Fm, ghost moves: seq<nat>)
    requires Valid(g) && |part0| == |g.cells| && Running(g, q, L, part0)
    requires forall d | 0 <= d < |g.cells| :: q.locked[d]
    ensures Ready(g, r) && Counted(g, r.part, r.count) && r.iterNum == q.iterNum + 1
    ensures Below(moves, |g.cells|) && Distinct(moves) && (forall d | 0 <= d < |g.cells| :: d in moves)
    ensures 0 <= r.bestMoveNum <= |moves| && r.part == FlipAll(part0, moves[..r.bestMoveNum])
    ensures r.maxAccGain >= 0 && Cut(g, r.part) == Cut(g, part0) - r.maxAccGain
    ensures forall k | 0 <= k <= |moves| && k < |g.cells| :: Cut(g, r.part) <= Cut(g, FlipAll(part0, moves[..k]))
    ensures forall k | r.bestMoveNum < k <= |moves| && k < |g.cells| :: Cut(g, r.part) < Cut(g, FlipAll(part0, moves[..k]))
  {
    RoundEndCells(g, q, L, part0);
    RoundEndCut(g, q, part0);
    moves := q.stack;
    r := RestoreBestMove(g, q, part0);
    r := r.(iterNum := r.iterNum + 1);
  }

  /** The extra-iteration counter after a round with best accumulated gain `maxAccGain`. */
  function NextExtra(extra: nat, maxAccGain: int): nat {
    if maxAccGain > 0 then 0 else extra + 1
  }

  /**
   * The counter after rounds with best gains `gains`, from 0: the number of
   * gainless rounds at the end, the round before them (if any) having gained.
   */
  function ExtraAfter(gains: seq<int>): (r: nat)
    ensures r <= |gains|
    ensures forall j | |gains| - r <= j < |gains| :: gains[j] <= 0
    ensures r < |gains| ==> gains[|gains| - 1 - r] > 0
  {
    if gains == [] then 0 else NextExtra(ExtraAfter(gains[..|gains| - 1]), gains[|gains| - 1])
  }

  /**
   * `partition`: the seed split, then rounds until `MaxExtraIters` rounds in
   * a row bring no gain, then `estimate_cut_size`. The rounds' best gains are
   * `gains`: the last `MaxExtraIters` are zero, every one is non-negative, so
   * the final partition cuts no more nets than the seed split, and the
   * reported cut size is exact.
   */
  method Partition(g: Graph, bf: real) returns (res: Result<Fm, string>, ghost gains: seq<int>)
    requires Valid(g) && DupFree(g)
    ensures res.Ok? ==>
              var r := res.value;
              && Ready(g, r) && Counted(g, r.part, r.count)
              && r.cutSize == Cut(g, r.part) <= Cut(g, Seed(|g.cells|))
              && |gains| >= MaxExtraIters && r.iterNum == |gains|
              && forall j | |gains| - MaxExtraIters <= j < |gains| :: gains[j] == 0
    ensures res.Fatal? ==> TooTight(|g.cells|, bf)
  {
    var st := InitializePartitions(g, Start(g));
    SeedSplit(g, st);
    SidesCover(st.part, |g.cells|);
    assert st.part == Seed(|g.cells|);
    st := st.(iterNum := 0);
    var extra: nat := 0;
    gains := [];
    while true
      invariant Ready(g, st) && st.iterNum == |gains| && Cut(g, st.part) <= Cut(g, Seed(|g.cells|))
      invariant extra == ExtraAfter(gains) < MaxExtraIters
      invariant forall j | 0 <= j < |gains| :: gains[j] >= 0
      decreases Cut(g, st.part), MaxExtraIters - extra
    {
      var round;
      ghost var moves;
      round, moves := FmRound(g, st, bf);
      if round.Fatal? {
        return Fatal(round.error), gains;
      }
      st := round.value;
      gains := gains + [st.maxAccGain];
      assert gains[..|gains| - 1] == gains[..|gains| - 1];
      extra := NextExtra(extra, st.maxAccGain);
      if extra >= MaxExtraIters {
        break;
      }
    }
    st := EstimateCutSize(g, st);
    res := Ok(st);
  }
}
