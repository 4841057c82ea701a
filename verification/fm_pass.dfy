/**
 * Move selection and the FM pass: `update_max_cell_gain`, `check_balance`,
 * `get_balanced_max_gain_cell` and one pass of moves (`fm_partition_iteration`)
 * with its best-prefix record.
 */
module FmPass {
  import opened Arena
  import opened Wrappers
  import opened Hypergraph
  import opened Buckets
  import opened Gain
  import opened FmState
  import opened FmUpdate

  // ---------------------------------------------------------------------------
  // Selection

  /** From gain `g` down, the first gain whose slot holds a node, stopping at -pmax. */
  function TopGain(b: Bucket, pmax: nat, g: int): (r: int)
    requires Sized(b, pmax) && -(pmax as int) <= g <= pmax
    ensures -(pmax as int) <= r <= g
    ensures forall h | r < h <= g :: !FindGain(b, h)
    ensures r == -(pmax as int) || FindGain(b, r)
    decreases g + pmax
  {
    if g > -(pmax as int) && !FindGain(b, g) then TopGain(b, pmax, g - 1) else g
  }

  /**
   * `update_max_cell_gain`: for each side, the highest gain whose slot holds a
   * node, or -pmax when there is none.
   */
  function UpdateMaxCellGain(st: Fm): (r: Fm)
    requires Sized(st.bl.zero, st.pmax) && Sized(st.bl.one, st.pmax)
    ensures r == st.(maxGain := r.maxGain)
    ensures forall p: bool :: TopOf(r.bl.At(p), r.pmax, r.maxGain.At(p))
  {
    var r := st.(maxGain := Two(TopGain(st.bl.zero, st.pmax, st.pmax), TopGain(st.bl.one, st.pmax, st.pmax)));
    assert TopOf(r.bl.At(false), r.pmax, r.maxGain.At(false));
    r
  }

  /** `m` is the highest gain with a non-empty slot in `b`, or -pmax when every slot is empty. */
  predicate TopOf(b: Bucket, pmax: nat, m: int) {
    && Sized(b, pmax) && -(pmax as int) <= m <= pmax
    && (forall h | m < h <= pmax :: !FindGain(b, h))
    && (m == -(pmax as int) || FindGain(b, m))
  }

  /**
   * With sound bucket lists, the top gain of a side bounds the gain of every
   * free cell on that side; the node in its slot, if any, is a free cell of
   * that side with exactly that gain; and an empty top slot means the side has
   * no free cell.
   */
  lemma TopIsMax(g: Graph, st: Fm, L: Lists, p: bool)
    requires Sound(g, st, L) && TopOf(st.bl.At(p), st.pmax, st.maxGain.At(p))
    ensures forall d | 0 <= d < |g.cells| && !st.locked[d] && st.part[d] == p :: st.gain[d] <= st.maxGain.At(p)
    ensures var x := GetNode(st.bl.At(p), st.maxGain.At(p));
            x != Null ==> 0 <= x < |g.cells| && !st.locked[x] && st.part[x] == p && st.gain[x] == st.maxGain.At(p)
    ensures GetNode(st.bl.At(p), st.maxGain.At(p)) == Null ==>
              forall d | 0 <= d < |g.cells| :: st.locked[d] || st.part[d] != p
  {
    var b := st.bl.At(p);
    var m := st.maxGain.At(p);
    assert Repr(b, L.At(p)) by {
      if p {
        assert Repr(st.bl.At(true), L.At(true));
      } else {
        assert Repr(st.bl.At(false), L.At(false));
      }
    }
    forall d | 0 <= d < |g.cells| && !st.locked[d] && st.part[d] == p
      ensures st.gain[d] <= m
      ensures GetNode(b, m) == Null ==> false
    {
      var k := st.gain[d] + st.pmax;
      assert d in L.At(p)[k] <==> Filed(st, p, k, d);
      assert FindGain(b, st.gain[d]);
    }
    var x := GetNode(b, m);
    if x != Null {
      var k := m + st.pmax;
      assert x == L.At(p)[k][0];
      assert x in L.At(p)[k] <==> Filed(st, p, k, x);
    }
  }

  /**
   * `check_balance`: after moving a cell off side `p` (N cells, balance factor
   * `bf`), side p stays above N(1-bf)/2 and the other side stays below
   * N(1+bf)/2. The source computes in double precision; this is exact.
   */
  function CheckBalance(n: nat, bf: real, size: Two<int>, p: bool): bool {
    var ub := (n as real) * (1.0 + bf) / 2.0;
    var lb := (n as real) * (1.0 - bf) / 2.0;
    (size.At(p) - 1) as real > lb && (size.At(!p) + 1) as real < ub
  }

  /** The balance factor is too tight for N cells: N·bf ≤ 2, the only case in which neither side can give up a cell. */
  predicate TooTight(n: nat, bf: real) {
    (n as real) * bf <= 2.0
  }

  /** When the sides hold all N cells, the lower bound is implied: balance is only the receiving side's upper bound. */
  lemma BalanceIsUpperBound(n: nat, bf: real, size: Two<int>, p: bool)
    requires size.zero + size.one == n
    ensures CheckBalance(n, bf, size, p) <==> (size.At(!p) + 1) as real < (n as real) * (1.0 + bf) / 2.0
  {
    assert (size.At(p) - 1) as real == (n as real) - (size.At(!p) + 1) as real;
  }

  /** If N·bf > 2, a move off at least one of the two sides is balanced. */
  lemma NeverStuck(n: nat, bf: real, size: Two<int>)
    requires size.zero + size.one == n
    ensures !TooTight(n, bf) ==> CheckBalance(n, bf, size, false) || CheckBalance(n, bf, size, true)
  {
    BalanceIsUpperBound(n, bf, size, false);
    BalanceIsUpperBound(n, bf, size, true);
  }

  /** The outcome of `get_balanced_max_gain_cell`: no candidate, a cell, or the balance assertion failing. */
  datatype Pick = NoCell | Picked(cell: nat) | Unbalanced

  /**
   * `get_balanced_max_gain_cell`: the nodes at the two top gains are the
   * candidates. With one candidate it is taken without a balance check; with
   * two, the balanced ones are eligible, the higher gain wins and a tie goes to
   * partition 0; with two and neither balanced the source's assertion fails.
   */
  function Select(st: Fm, n: nat, bf: real): (r: Pick)
    requires Holds(st.bl.zero, st.maxGain.zero) && Holds(st.bl.one, st.maxGain.one)
    requires forall p: bool :: GetNode(st.bl.At(p), st.maxGain.At(p)) == Null || 0 <= GetNode(st.bl.At(p), st.maxGain.At(p)) < |st.part|
    ensures r == NoCell <==> GetNode(st.bl.zero, st.maxGain.zero) == Null && GetNode(st.bl.one, st.maxGain.one) == Null
    ensures r.Picked? ==> exists p: bool :: r.cell == GetNode(st.bl.At(p), st.maxGain.At(p))
  {
    var n0 := GetNode(st.bl.zero, st.maxGain.zero);
    var n1 := GetNode(st.bl.one, st.maxGain.one);
    assert GetNode(st.bl.At(false), st.maxGain.At(false)) == n0;
    assert GetNode(st.bl.At(true), st.maxGain.At(true)) == n1;
    if n0 == Null && n1 == Null then NoCell
    else if n0 == Null then Picked(n1)
    else if n1 == Null then Picked(n0)
    else
      var balanced0 := CheckBalance(n, bf, st.partSize, st.part[n0]);
      var balanced1 := CheckBalance(n, bf, st.partSize, st.part[n1]);
      if !balanced0 && !balanced1 then Unbalanced
      else if balanced0 && balanced1 then Picked(if st.maxGain.zero >= st.maxGain.one then n0 else n1)
      else Picked(if balanced0 then n0 else n1)
  }

  /** Side `p` has a free cell. */
  ghost predicate HasFree(g: Graph, st: Fm, p: bool)
    requires |st.part| == |g.cells| && |st.locked| == |g.cells|
  {
    exists d | 0 <= d < |g.cells| :: !st.locked[d] && st.part[d] == p
  }

  /**
   * Selection over sound bucket lists with both top gains in place: nothing is
   * picked exactly when no cell is free; a picked cell is free and has the top
   * gain of its side; with free cells on both sides the picked cell's move is
   * balanced and, if the other side's move is balanced too, its gain is the
   * highest of all free cells, a tie going to partition 0; and the balance
   * assertion fails exactly when both sides have free cells and neither move
   * is balanced.
   */
  lemma SelectIsBest(g: Graph, st: Fm, L: Lists, n: nat, bf: real)
    requires Sound(g, st, L) && forall p: bool :: TopOf(st.bl.At(p), st.pmax, st.maxGain.At(p))
    ensures Holds(st.bl.zero, st.maxGain.zero) && Holds(st.bl.one, st.maxGain.one)
    ensures forall p: bool :: GetNode(st.bl.At(p), st.maxGain.At(p)) == Null || 0 <= GetNode(st.bl.At(p), st.maxGain.At(p)) < |st.part|
    ensures Select(st, n, bf) == NoCell <==> forall d | 0 <= d < |g.cells| :: st.locked[d]
    ensures Select(st, n, bf) == Unbalanced <==>
              HasFree(g, st, false) && HasFree(g, st, true)
              && !CheckBalance(n, bf, st.partSize, false) && !CheckBalance(n, bf, st.partSize, true)
    ensures Select(st, n, bf).Picked? ==>
              var c := Select(st, n, bf).cell;
              && c < |g.cells| && !st.locked[c] && st.gain[c] == st.maxGain.At(st.part[c])
              && (forall d | 0 <= d < |g.cells| && !st.locked[d] && st.part[d] == st.part[c] :: st.gain[d] <= st.gain[c])
              && (HasFree(g, st, !st.part[c]) ==> CheckBalance(n, bf, st.partSize, st.part[c]))
              && (HasFree(g, st, !st.part[c]) && CheckBalance(n, bf, st.partSize, !st.part[c]) ==>
                    && (forall d | 0 <= d < |g.cells| && !st.locked[d] :: st.gain[d] <= st.gain[c])
                    && (st.part[c] ==> st.maxGain.zero < st.gain[c]))
  {
    TopIsMax(g, st, L, false);
    TopIsMax(g, st, L, true);
    var n0 := GetNode(st.bl.At(false), st.maxGain.At(false));
    var n1 := GetNode(st.bl.At(true), st.maxGain.At(true));
    assert n0 != Null <==> HasFree(g, st, false);
    assert n1 != Null <==> HasFree(g, st, true);
  }

  // ---------------------------------------------------------------------------
  // One pass

  /**
   * The moves of a pass that started from partition `part0`: the stack lists
   * the moved cells, each once, exactly they are locked, and the current
   * partition is part0 with the stack's moves applied.
   */
  ghost predicate Moves(g: Graph, st: Fm, part0: seq<bool>)
    requires |part0| == |g.cells|
  {
    && |st.part| == |g.cells| && |st.locked| == |g.cells|
    && |st.stack| == st.moveNum && Below(st.stack, |g.cells|) && Distinct(st.stack)
    && (forall d | 0 <= d < |g.cells| :: st.locked[d] <==> d in st.stack)
    && st.part == FlipAll(part0, st.stack)
  }

  /** The cut reductions of every prefix of the stack, the empty one first. */
  ghost function Reductions(g: Graph, part0: seq<bool>, stack: seq<nat>): (r: seq<int>)
    requires Valid(g) && |part0| == |g.cells| && Below(stack, |g.cells|)
    ensures |r| == |stack| + 1 && r[0] == 0
  {
    if stack == [] then [0]
    else Reductions(g, part0, stack[..|stack| - 1]) + [Cut(g, part0) - Cut(g, FlipAll(part0, stack))]
  }

  /**
   * The best-prefix record of `fm_partition_iteration` over the reductions `R`
   * of the moves so far: the accumulated gain is the last one; the best prefix
   * is shorter than N (or empty), is recorded with its reduction, no prefix
   * shorter than N beats it, and every longer one shorter than N falls short
   * of it: of equally good prefixes the latest is kept.
   */
  predicate Record(R: seq<int>, acc: int, maxAcc: int, best: int, n: nat) {
    && |R| > 0 && acc == R[|R| - 1]
    && 0 <= best < |R| && (best == 0 || best < n)
    && maxAcc == R[best] && maxAcc >= 0
    && (forall k | 0 <= k < |R| && k < n :: R[k] <= maxAcc)
    && (forall k | best < k < |R| && k < n :: R[k] < maxAcc)
  }

  /** The gains of a pass from `part0`, as a record over the reductions of its stack. */
  ghost predicate Tally(g: Graph, st: Fm, part0: seq<bool>)
    requires Valid(g) && |part0| == |g.cells| && Moves(g, st, part0)
  {
    Record(Reductions(g, part0, st.stack), st.accGain, st.maxAccGain, st.bestMoveNum, |g.cells|)
  }

  /** The bookkeeping of a pass from `part0`: its moves, its gains, and side sizes that count the cells. */
  ghost predicate Progress(g: Graph, st: Fm, part0: seq<bool>)
    requires Valid(g) && |part0| == |g.cells|
  {
    && Moves(g, st, part0) && Tally(g, st, part0)
    && st.partSize == Two(CountSide(st.part, false, |g.cells|), CountSide(st.part, true, |g.cells|))
  }

  /** With exact counts and gains, a free cell's gain is the cut reduction of moving it. */
  lemma GainIsCut(g: Graph, st: Fm, c: nat)
    requires Valid(g) && DupFree(g) && |st.part| == |g.cells| && |st.locked| == |g.cells|
    requires Counted(g, st.part, st.count) && GainsOver(g, st, st.count)
    requires c < |g.cells| && !st.locked[c]
    ensures st.gain[c] == Cut(g, st.part) - Cut(g, Flip(st.part, c))
  {
    assert st.count == RecountAll(g, st.part);
    GainIsCutReduction(g, st.part, c);
  }

  /** Applying one more move. */
  lemma FlipAllSnoc(part0: seq<bool>, s: seq<nat>, c: nat)
    requires Below(s, |part0|) && c < |part0|
    ensures Below(s + [c], |part0|)
    ensures FlipAll(part0, s + [c]) == Flip(FlipAll(part0, s), c)
    ensures forall k | 0 <= k <= |s| :: (s + [c])[..k] == s[..k]
  {
    assert (s + [c])[..|s|] == s;
  }

  /** Pushing free cell `c` and flipping it keeps the moves consistent. */
  lemma MovesStep(g: Graph, st: Fm, s: Fm, part0: seq<bool>, c: nat)
    requires |part0| == |g.cells| && Moves(g, st, part0)
    requires c < |g.cells| && !st.locked[c]
    requires s.part == Flip(st.part, c) && s.locked == st.locked[c := true] && s.stack == st.stack + [c]
    requires s.moveNum == st.moveNum + 1
    ensures Moves(g, s, part0)
  {
    FlipAllSnoc(part0, st.stack, c);
    assert c !in st.stack;
  }

  /** A push appends the reduction of the whole new stack. */
  lemma ReductionsSnoc(g: Graph, part0: seq<bool>, stack: seq<nat>, c: nat)
    requires Valid(g) && |part0| == |g.cells| && Below(stack, |g.cells|) && c < |g.cells|
    ensures Below(stack + [c], |g.cells|)
    ensures Reductions(g, part0, stack + [c])
         == Reductions(g, part0, stack) + [Cut(g, part0) - Cut(g, FlipAll(part0, stack + [c]))]
  {
    assert (stack + [c])[..|stack|] == stack;
  }

  /** Entry `k` of the reductions is the cut reduction of the first `k` moves. */
  lemma {:induction false} ReductionsMeaning(g: Graph, part0: seq<bool>, stack: seq<nat>, k: nat)
    requires Valid(g) && |part0| == |g.cells| && Below(stack, |g.cells|) && k <= |stack|
    ensures Reductions(g, part0, stack)[k] == Cut(g, part0) - Cut(g, FlipAll(part0, stack[..k]))
    decreases |stack|
  {
    if k < |stack| {
      var t := stack[..|stack| - 1];
      ReductionsMeaning(g, part0, t, k);
      assert t[..k] == stack[..k];
    } else {
      assert stack[..k] == stack;
    }
  }

  /** Appending reduction `x` and applying the best-prefix rule keeps the record. */
  lemma RecordSnoc(R: seq<int>, acc: int, maxAcc: int, best: int, n: nat, x: int, maxAcc': int, best': int)
    requires Record(R, acc, maxAcc, best, n) && |R| <= n
    requires if x >= maxAcc && |R| != n then maxAcc' == x && best' == |R| else maxAcc' == maxAcc && best' == best
    ensures Record(R + [x], x, maxAcc', best', n)
  {
    var R' := R + [x];
    forall k | 0 <= k < |R'| && k < n ensures R'[k] <= maxAcc' {
      if k < |R| {
        assert R'[k] == R[k];
      }
    }
  }

  /**
   * The bookkeeping after moving and locking free cell `c` and accumulating its
   * gain: the best prefix is updated when the accumulated gain is at least the
   * best so far and not every cell has moved.
   */
  lemma RecordStep(g: Graph, st: Fm, s: Fm, part0: seq<bool>, c: nat)
    requires Valid(g) && |part0| == |g.cells| && Progress(g, st, part0) && |st.gain| == |g.cells|
    requires c < |g.cells| && !st.locked[c] && st.gain[c] == Cut(g, st.part) - Cut(g, Flip(st.part, c))
    requires s.part == Flip(st.part, c) && s.locked == st.locked[c := true] && s.stack == st.stack + [c]
    requires s.partSize == Two(CountSide(s.part, false, |g.cells|), CountSide(s.part, true, |g.cells|))
    requires s.moveNum == st.moveNum + 1 && s.accGain == st.accGain + st.gain[c]
    requires if s.accGain >= st.maxAccGain && s.moveNum != |g.cells|
             then s.maxAccGain == s.accGain && s.bestMoveNum == s.moveNum
             else s.maxAccGain == st.maxAccGain && s.bestMoveNum == st.bestMoveNum
    ensures Progress(g, s, part0)
  {
    var R := Reductions(g, part0, st.stack);
    assert Moves(g, s, part0) by {
      MovesStep(g, st, s, part0, c);
    }
    assert |R| == s.moveNum <= |g.cells| by {
      DistinctBound(s.stack, |g.cells|);
    }
    assert Reductions(g, part0, s.stack) == R + [s.accGain] by {
      FlipAllSnoc(part0, st.stack, c);
      ReductionsSnoc(g, part0, st.stack, c);
    }
    assert Record(R + [s.accGain], s.accGain, s.maxAccGain, s.bestMoveNum, |g.cells|) by {
      RecordSnoc(R, st.accGain, st.maxAccGain, st.bestMoveNum, |g.cells|, s.accGain, s.maxAccGain, s.bestMoveNum);
    }
  }

  /**
   * Lines 231-236 of the pass loop: the moved cell's gain is accumulated and
   * the best prefix is recorded when the accumulated gain is at least the best
   * so far and not every one of the `n` cells has moved.
   */
  function Advance(st: Fm, gain: int, n: nat): (r: Fm)
    ensures r.moveNum == st.moveNum + 1 && r.accGain == st.accGain + gain
    ensures r == st.(accGain := r.accGain, moveNum := r.moveNum, maxAccGain := r.maxAccGain, bestMoveNum := r.bestMoveNum)
  {
    var acc := st.accGain + gain;
    var moved := st.moveNum + 1;
    if acc >= st.maxAccGain && moved != n then st.(accGain := acc, moveNum := moved, maxAccGain := acc, bestMoveNum := moved)
    else st.(accGain := acc, moveNum := moved)
  }

  /** Gains under a count vector depend only on the gains, locks and sides. */
  lemma GainsFrame(g: Graph, a: Fm, b: Fm, M: seq<Two<int>>)
    requires GainsOver(g, a, M) && b.gain == a.gain && b.locked == a.locked && b.part == a.part
    ensures GainsOver(g, b, M)
  {
  }

  /** Gain updates touch only gains, bucket lists and links, which the pass record does not mention. */
  lemma ProgressFrame(g: Graph, a: Fm, b: Fm, part0: seq<bool>)
    requires Valid(g) && |part0| == |g.cells|
    requires Progress(g, a, part0) && Fits(g, a.part) && Counted(g, a.part, a.count)
    requires b == a.(bl := b.bl, links := b.links, gain := b.gain)
    ensures Progress(g, b, part0) && Counted(g, b.part, b.count)
  {
  }

  /** `move_cell`, `lock_cell` and the gain bookkeeping for free cell `c`, before `update_gain`. */
  function Stepped(g: Graph, st: Fm, c: nat): Fm
    requires c < |g.cells| && c < |st.part| && c < |st.locked| && !st.locked[c] && c < |st.gain|
    requires Below(g.cells[c].nets, |st.count|)
    requires c < |st.links| && Holds(st.bl.At(st.part[c]), st.gain[c]) && GetNode(st.bl.At(st.part[c]), st.gain[c]) != Null
    requires Ref(st.links, st.links[c].prev) && Ref(st.links, st.links[c].next)
  {
    var m := MoveCell(g, st, c, false);
    var locked := LockCell(m, c);
    Advance(locked, locked.gain[c], |g.cells|)
  }

  /** The bucket lists stay sound through `move_cell` and `lock_cell` and lose the moved cell. */
  lemma StepSound(g: Graph, st: Fm, L: Lists, c: nat) returns (L1: Lists)
    requires Valid(g) && Sound(g, st, L) && c < |g.cells| && !st.locked[c]
    ensures Holds(st.bl.At(st.part[c]), st.gain[c]) && GetNode(st.bl.At(st.part[c]), st.gain[c]) != Null
    ensures Ref(st.links, st.links[c].prev) && Ref(st.links, st.links[c].next)
    ensures var s := Stepped(g, st, c);
            && Sound(g, s, L1) && s.locked[c] && s.stack == st.stack + [c]
            && s.bl.zero.size + s.bl.one.size == st.bl.zero.size + st.bl.one.size - 1
  {
    var m := MoveCell(g, st, c, false);
    L1 := MoveLockSound(g, st, L, c);
    var locked := LockCell(m, c);
    SoundFrame(g, locked, Stepped(g, st, c), L1);
  }

  /** Before `update_gain`, counts are exact and gains are off by exactly the moved cell. */
  lemma StepGains(g: Graph, st: Fm, c: nat)
    requires Valid(g) && DupFree(g) && |st.part| == |g.cells| && |st.locked| == |g.cells|
    requires |st.gain| == |g.cells| && |st.links| == |g.cells|
    requires Counted(g, st.part, st.count) && GainsOver(g, st, st.count)
    requires c < |g.cells| && !st.locked[c]
    requires Holds(st.bl.At(st.part[c]), st.gain[c]) && GetNode(st.bl.At(st.part[c]), st.gain[c]) != Null
    requires Ref(st.links, st.links[c].prev) && Ref(st.links, st.links[c].next)
    ensures var s := Stepped(g, st, c);
            && Fits(g, s.part) && Counted(g, s.part, s.count)
            && GainsOver(g, s, Pending(s.count, g.cells[c].nets, s.part[c]))
  {
    var m := MoveCell(g, st, c, false);
    MoveKeepsCounted(g, st, c, false);
    MovePending(g, st, c);
    GainsFrame(g, m.(locked := st.locked[c := true]), Stepped(g, st, c), Pending(m.count, g.cells[c].nets, m.part[c]));
  }

  /** Before `update_gain`, the pass record holds for the state with cell `c` moved and locked. */
  lemma StepBook(g: Graph, st: Fm, part0: seq<bool>, c: nat)
    requires Valid(g) && DupFree(g) && |part0| == |g.cells| && |st.gain| == |g.cells| && |st.links| == |g.cells|
    requires Progress(g, st, part0) && Counted(g, st.part, st.count) && GainsOver(g, st, st.count)
    requires c < |g.cells| && !st.locked[c]
    requires Holds(st.bl.At(st.part[c]), st.gain[c]) && GetNode(st.bl.At(st.part[c]), st.gain[c]) != Null
    requires Ref(st.links, st.links[c].prev) && Ref(st.links, st.links[c].next)
    ensures Progress(g, Stepped(g, st, c), part0)
  {
    MoveKeepsSizes(g, st, c, false);
    GainIsCut(g, st, c);
    RecordStep(g, st, Stepped(g, st, c), part0, c);
  }

  /**
   * One iteration of `fm_partition_iteration` after cell `c` was selected:
   * `move_cell`, `lock_cell`, the accumulated gain and best-prefix update, and
   * `update_gain`. Counts, gains and bucket lists stay exact and the bucket
   * lists lose one node.
   */
  method MoveStep(g: Graph, st: Fm, ghost L: Lists, ghost part0: seq<bool>, c: nat) returns (r: Fm, ghost L': Lists)
    requires Valid(g) && DupFree(g) && |part0| == |g.cells|
    requires Sound(g, st, L) && Counted(g, st.part, st.count) && GainsOver(g, st, st.count) && Progress(g, st, part0)
    requires c < |g.cells| && !st.locked[c]
    ensures Sound(g, r, L') && Counted(g, r.part, r.count) && GainsOver(g, r, r.count) && Progress(g, r, part0)
    ensures r.stack == st.stack + [c] && r.iterNum == st.iterNum
    ensures r.bl.zero.size + r.bl.one.size == st.bl.zero.size + st.bl.one.size - 1
  {
    ghost var L1 := StepSound(g, st, L, c);
    StepGains(g, st, c);
    StepBook(g, st, part0, c);
    var s := Stepped(g, st, c);
    r, L' := UpdateGain(g, s, L1, c);
    ProgressFrame(g, s, r, part0);
  }

  /** A free cell is on the slot list of its side and gain. */
  lemma FreeIsFiled(g: Graph, st: Fm, L: Lists, d: nat)
    requires Sound(g, st, L) && d < |g.cells|
    ensures !st.locked[d] ==> InSlot(L.At(st.part[d]), st.gain[d] + st.pmax, d)
  {
  }

  /** With sound lists, empty bucket lists mean every cell is locked. */
  lemma EmptyAllLocked(g: Graph, st: Fm, L: Lists)
    requires Sound(g, st, L) && st.bl.zero.size == 0 && st.bl.one.size == 0
    ensures forall d | 0 <= d < |g.cells| :: st.locked[d]
  {
    TotalZero(L.zero);
    TotalZero(L.one);
    forall d | 0 <= d < |g.cells| ensures st.locked[d] {
      FreeIsFiled(g, st, L, d);
    }
  }

  /** The loop invariant of a pass from `part0`: sound bucket lists, exact counts and gains, and the pass record. */
  ghost predicate Running(g: Graph, st: Fm, L: Lists, part0: seq<bool>)
    requires Valid(g) && |part0| == |g.cells|
  {
    Progress(g, st, part0) && Sound(g, st, L) && Counted(g, st.part, st.count) && GainsOver(g, st, st.count)
  }

  /** The top gains are mentioned by none of the invariant's parts. */
  lemma MaxGainFrame(g: Graph, st: Fm, s: Fm, L: Lists, part0: seq<bool>)
    requires Valid(g) && |part0| == |g.cells| && Running(g, st, L, part0) && s == st.(maxGain := s.maxGain)
    ensures Running(g, s, L, part0)
  {
    SoundFrame(g, st, s, L);
    GainsFrame(g, st, s, st.count);
  }

  /** What a turn of the pass loop needs of the selection: it is defined, and a picked cell is a free one. */
  lemma SelectSafe(g: Graph, st: Fm, L: Lists, n: nat, bf: real)
    requires Sound(g, st, L) && forall p: bool :: TopOf(st.bl.At(p), st.pmax, st.maxGain.At(p))
    ensures Holds(st.bl.zero, st.maxGain.zero) && Holds(st.bl.one, st.maxGain.one)
    ensures forall p: bool :: GetNode(st.bl.At(p), st.maxGain.At(p)) == Null || 0 <= GetNode(st.bl.At(p), st.maxGain.At(p)) < |st.part|
    ensures Select(st, n, bf) == NoCell ==> forall d | 0 <= d < |g.cells| :: st.locked[d]
    ensures Select(st, n, bf).Picked? ==> Select(st, n, bf).cell < |g.cells| && !st.locked[Select(st, n, bf).cell]
  {
    SelectIsBest(g, st, L, n, bf);
  }

  /** With no side able to give up a cell, the balance factor leaves at most two cells of slack. */
  lemma UnbalancedSmall(part: seq<bool>, n: nat, size: Two<int>, bf: real)
    requires n <= |part| && size == Two(CountSide(part, false, n), CountSide(part, true, n))
    requires !CheckBalance(n, bf, size, false) && !CheckBalance(n, bf, size, true)
    ensures TooTight(n, bf)
  {
    SidesCover(part, n);
    NeverStuck(n, bf, size);
  }

  /** The balance assertion of `get_balanced_max_gain_cell` fails only when N·bf ≤ 2. */
  lemma UnbalancedBound(g: Graph, s: Fm, L: Lists, bf: real)
    requires Sound(g, s, L) && |s.part| == |g.cells|
    requires s.partSize == Two(CountSide(s.part, false, |g.cells|), CountSide(s.part, true, |g.cells|))
    requires forall p: bool :: TopOf(s.bl.At(p), s.pmax, s.maxGain.At(p))
    requires Holds(s.bl.zero, s.maxGain.zero) && Holds(s.bl.one, s.maxGain.one)
    requires forall p: bool :: GetNode(s.bl.At(p), s.maxGain.At(p)) == Null || 0 <= GetNode(s.bl.At(p), s.maxGain.At(p)) < |s.part|
    requires Select(s, |g.cells|, bf) == Unbalanced
    ensures TooTight(|g.cells|, bf)
  {
    assert !CheckBalance(|g.cells|, bf, s.partSize, false) && !CheckBalance(|g.cells|, bf, s.partSize, true) by {
      SelectIsBest(g, s, L, |g.cells|, bf);
    }
    UnbalancedSmall(s.part, |g.cells|, s.partSize, bf);
  }

  /**
   * The selection half of a turn: `update_max_cell_gain`, then
   * `get_balanced_max_gain_cell`. Only the top gains change. No pick means
   * every cell is locked; the balance assertion fails only when N·bf ≤ 2; a
   * pick is a free cell.
   */
  method SelectTurn(g: Graph, st: Fm, ghost L: Lists, ghost part0: seq<bool>, bf: real) returns (pick: Pick, s: Fm)
    requires Valid(g) && |part0| == |g.cells| && Running(g, st, L, part0)
    ensures Running(g, s, L, part0) && s == st.(maxGain := s.maxGain)
    ensures pick == NoCell ==> forall d | 0 <= d < |g.cells| :: s.locked[d]
    ensures pick == Unbalanced ==> TooTight(|g.cells|, bf)
    ensures pick.Picked? ==> pick.cell < |g.cells| && !s.locked[pick.cell]
  {
    s := UpdateMaxCellGain(st);
    assert Running(g, s, L, part0) by {
      MaxGainFrame(g, st, s, L, part0);
    }
    SelectSafe(g, s, L, |g.cells|, bf);
    pick := Select(s, |g.cells|, bf);
    if pick == Unbalanced {
      UnbalancedBound(g, s, L, bf);
    }
  }

  /**
   * One turn of the pass loop: the selection, then the move of the picked
   * cell. No pick means every cell is locked; the balance assertion fails
   * only when N·bf ≤ 2; a pick pushes the cell and shrinks the bucket lists
   * by one.
   */
  method PassTurn(g: Graph, st: Fm, ghost L: Lists, ghost part0: seq<bool>, bf: real) returns (pick: Pick, r: Fm, ghost L': Lists)
    requires Valid(g) && DupFree(g) && |part0| == |g.cells| && Running(g, st, L, part0)
    ensures Running(g, r, L', part0)
    ensures pick == NoCell ==> forall d | 0 <= d < |g.cells| :: r.locked[d]
    ensures pick == Unbalanced ==> TooTight(|g.cells|, bf)
    ensures r.iterNum == st.iterNum
    ensures pick.Picked? ==> r.stack == st.stack + [pick.cell]
                             && r.bl.zero.size + r.bl.one.size == st.bl.zero.size + st.bl.one.size - 1
  {
    var s;
    pick, s := SelectTurn(g, st, L, part0, bf);
    r, L' := s, L;
    if pick.Picked? {
      r, L' := MoveStep(g, s, L, part0, pick.cell);
    }
  }

  /**
   * `fm_partition_iteration`: while a bucket list is non-empty, select, move,
   * lock and update. A normal end leaves every cell moved once and locked,
   * with the best prefix recorded; the balance assertion can only fail when
   * N·bf ≤ 2.
   */
  method FmPartitionIteration(g: Graph, st: Fm, ghost L: Lists, bf: real) returns (res: Result<Fm, string>, ghost L': Lists)
    requires Valid(g) && DupFree(g) && |st.part| == |g.cells| && Running(g, st, L, st.part)
    ensures res.Ok? ==> Running(g, res.value, L', st.part) && res.value.iterNum == st.iterNum
    ensures res.Ok? ==> forall d | 0 <= d < |g.cells| :: res.value.locked[d]
    ensures res.Fatal? ==> TooTight(|g.cells|, bf)
  {
    var r := st;
    L' := L;
    while r.bl.zero.size > 0 || r.bl.one.size > 0
      invariant Running(g, r, L', st.part) && r.iterNum == st.iterNum
      decreases r.bl.zero.size + r.bl.one.size
    {
      var pick;
      pick, r, L' := PassTurn(g, r, L', st.part, bf);
      if pick == NoCell {
        return Ok(r), L';
      }
      if pick == Unbalanced {
        return Fatal("Balancing error: cannot meet balance constraint"), L';
      }
    }
    EmptyAllLocked(g, r, L');
    res := Ok(r);
  }
}
