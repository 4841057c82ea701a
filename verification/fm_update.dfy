/**
 * One FM move: `move_cell` (side flip and count shift), `lock_cell` (taking the
 * moved cell out of the bucket lists) and `update_gain`, which repairs the
 * gains of the other free cells with the four classic rules, every change
 * being a remove from the bucket list, a gain step and an append.
 *
 * The main result is that, on a graph whose nets list no cell twice,
 * `update_gain` leaves every free cell with the gain `compute_cell_gain`
 * would give it under the new counts, while the bucket lists stay sound.
 */
module FmUpdate {
  import opened Arena
  import opened Hypergraph
  import opened Buckets
  import opened Gain
  import opened FmState

  // ---------------------------------------------------------------------------
  // move_cell and lock_cell

  /** The counts after moving one cell off side `from`: each listed net loses one on `from` and gains one on the other side. */
  function Shift(count: seq<Two<int>>, nets: seq<nat>, from: bool): (r: seq<Two<int>>)
    requires Below(nets, |count|)
    ensures |r| == |count|
    ensures forall n | 0 <= n < |count| ::
              r[n] == Two(0, 0).With(from, count[n].At(from) - Occ(nets, n)).With(!from, count[n].At(!from) + Occ(nets, n))
    decreases |nets|
  {
    if nets == [] then count
    else
      var front := nets[..|nets| - 1];
      var n := nets[|nets| - 1];
      assert nets == front + [n];
      assert multiset(nets) == multiset(front) + multiset{n};
      var s := Shift(count, front, from);
      s[n := s[n].With(from, s[n].At(from) - 1).With(!from, s[n].At(!from) + 1)]
  }

  /**
   * `move_cell`: the cell's side flips, the side sizes follow, the unlocked
   * count of its old side drops, its id is pushed on the move stack unless the
   * move is a reversal, and every listed net shifts one count to the new side.
   */
  function MoveCell(g: Graph, st: Fm, c: nat, reverse: bool): (r: Fm)
    requires c < |g.cells| && c < |st.part| && c < |st.locked| && !st.locked[c]
    requires Below(g.cells[c].nets, |st.count|)
    ensures r.part == Flip(st.part, c)
    ensures r.partSize.At(st.part[c]) == st.partSize.At(st.part[c]) - 1
    ensures r.partSize.At(!st.part[c]) == st.partSize.At(!st.part[c]) + 1
    ensures r.unlockNum.At(st.part[c]) == st.unlockNum.At(st.part[c]) - 1
    ensures r.unlockNum.At(!st.part[c]) == st.unlockNum.At(!st.part[c])
    ensures r.stack == if reverse then st.stack else st.stack + [c]
    ensures r == st.(part := r.part, partSize := r.partSize, unlockNum := r.unlockNum, stack := r.stack, count := r.count)
  {
    var from := st.part[c];
    st.(part := st.part[c := !from],
        partSize := st.partSize.With(from, st.partSize.At(from) - 1).With(!from, st.partSize.At(!from) + 1),
        unlockNum := st.unlockNum.With(from, st.unlockNum.At(from) - 1),
        stack := if reverse then st.stack else st.stack + [c],
        count := Shift(st.count, g.cells[c].nets, from))
  }

  /** A move keeps every net's counts equal to a recount of its cell list. */
  lemma MoveKeepsCounted(g: Graph, st: Fm, c: nat, reverse: bool)
    requires Valid(g) && |st.part| == |g.cells| && |st.locked| == |g.cells| && c < |g.cells| && !st.locked[c]
    requires Counted(g, st.part, st.count)
    ensures Fits(g, MoveCell(g, st, c, reverse).part)
    ensures Counted(g, MoveCell(g, st, c, reverse).part, MoveCell(g, st, c, reverse).count)
  {
    var r := MoveCell(g, st, c, reverse);
    forall n | 0 <= n < |g.nets| ensures r.count[n] == Recount(g, r.part, n) {
      MoveNetCounted(g, st, c, reverse, n);
    }
  }

  /** A move shifts the moved cell's listings on net `n` from its old side's count to its new side's, as a recount does. */
  lemma MoveNetCounted(g: Graph, st: Fm, c: nat, reverse: bool, n: nat)
    requires Valid(g) && |st.part| == |g.cells| && |st.locked| == |g.cells| && c < |g.cells| && !st.locked[c]
    requires Counted(g, st.part, st.count) && n < |g.nets|
    ensures var r := MoveCell(g, st, c, reverse); n < |r.count| && r.count[n] == Recount(g, r.part, n)
  {
    var r := MoveCell(g, st, c, reverse);
    var from := st.part[c];
    var o := Occ(g.nets[n].cells, c);
    var before := st.count[n];
    assert r.count[n] == Two(0, 0).With(from, before.At(from) - o).With(!from, before.At(!from) + o) by {
      assert o == Occ(g.cells[c].nets, n);
    }
    assert Recount(g, r.part, n) == before.With(from, before.At(from) - o).With(!from, before.At(!from) + o) by {
      RecountFlip(g, st.part, c, n);
    }
  }

  /** A move keeps the side sizes equal to the number of cells on each side. */
  lemma MoveKeepsSizes(g: Graph, st: Fm, c: nat, reverse: bool)
    requires |st.part| == |g.cells| && |st.locked| == |g.cells| && c < |g.cells| && !st.locked[c]
    requires Below(g.cells[c].nets, |st.count|)
    requires st.partSize == Two(CountSide(st.part, false, |g.cells|), CountSide(st.part, true, |g.cells|))
    ensures var r := MoveCell(g, st, c, reverse);
            r.partSize == Two(CountSide(r.part, false, |g.cells|), CountSide(r.part, true, |g.cells|))
  {
    var r := MoveCell(g, st, c, reverse);
    SideFlip(st.part, c, false, |g.cells|);
    SideFlip(st.part, c, true, |g.cells|);
  }

  /** Flipping cell `c` moves it from one side's count to the other's. */
  lemma {:induction false} SideFlip(part: seq<bool>, c: nat, p: bool, k: nat)
    requires c < |part| && k <= |part|
    ensures CountSide(Flip(part, c), p, k) ==
            CountSide(part, p, k) + (if c < k then (if part[c] == p then -1 else 1) else 0)
  {
    if k > 0 {
      SideFlip(part, c, p, k - 1);
    }
  }

  /** The two sides' sizes always add up to the number of cells. */
  lemma {:induction false} SidesCover(part: seq<bool>, k: nat)
    requires k <= |part|
    ensures CountSide(part, false, k) + CountSide(part, true, k) == k
  {
    if k > 0 {
      SidesCover(part, k - 1);
    }
  }

  /** `lock_cell`: the cell is locked and removed, at its gain, from the bucket list of the side it left. */
  function LockCell(st: Fm, c: nat): (r: Fm)
    requires c < |st.part| && c < |st.locked| && c < |st.gain|
    requires Holds(st.bl.At(!st.part[c]), st.gain[c]) && GetNode(st.bl.At(!st.part[c]), st.gain[c]) != Null
    requires c < |st.links| && Ref(st.links, st.links[c].prev) && Ref(st.links, st.links[c].next)
    ensures r.locked == st.locked[c := true] && |r.links| == |st.links| && r.links[c] == Unlinked
    ensures r == st.(locked := r.locked, bl := r.bl, links := r.links)
    ensures r.bl.At(!st.part[c]).size == st.bl.At(!st.part[c]).size - 1 && r.bl.At(st.part[c]) == st.bl.At(st.part[c])
  {
    Take(st.(locked := st.locked[c := true]), c, !st.part[c])
  }

  /** Sound bucket lists depend only on the sides and gains of the free cells. */
  lemma SoundFrame(g: Graph, a: Fm, b: Fm, L: Lists)
    requires Sound(g, a, L)
    requires b.bl == a.bl && b.links == a.links && b.locked == a.locked && b.pmax == a.pmax
    requires |b.part| == |a.part| && |b.gain| == |a.gain| && |b.count| == |a.count|
    requires forall c | 0 <= c < |a.locked| && !a.locked[c] :: b.part[c] == a.part[c] && b.gain[c] == a.gain[c]
    ensures Sound(g, b, L)
  {
    forall q: bool, k: int, c: nat | 0 <= k < |L.At(q)| ensures c in L.At(q)[k] <==> Filed(b, q, k, c) {
      assert c in L.At(q)[k] <==> Filed(a, q, k, c);
    }
  }

  /** Moving then locking a free cell keeps the bucket lists sound: the cell leaves the lists of its old side. */
  lemma MoveLockSound(g: Graph, st: Fm, L: Lists, c: nat) returns (L': Lists)
    requires Sound(g, st, L) && c < |g.cells| && !st.locked[c]
    requires Below(g.cells[c].nets, |st.count|)
    ensures var m := MoveCell(g, st, c, false);
            && Holds(m.bl.At(!m.part[c]), m.gain[c]) && GetNode(m.bl.At(!m.part[c]), m.gain[c]) != Null
            && Ref(m.links, m.links[c].prev) && Ref(m.links, m.links[c].next)
            && Sound(g, LockCell(m, c), L')
  {
    L' := TakeSound(g, st, L, c);
    var a := Take(st, c, st.part[c]).(locked := st.locked[c := true]);
    var m := MoveCell(g, st, c, false);
    SoundFrame(g, a, LockCell(m, c), L');
  }

  // ---------------------------------------------------------------------------
  // One gain step of one cell

  /** Remove cell `d` from its bucket, set its gain to `v`, append it again. */
  method Rebucket(g: Graph, st: Fm, ghost L: Lists, d: nat, v: int) returns (r: Fm, ghost L': Lists)
    requires Sound(g, st, L) && d < |g.cells| && !st.locked[d]
    requires -(st.pmax as int) <= v <= st.pmax
    ensures Sound(g, r, L')
    ensures r == st.(gain := st.gain[d := v], bl := r.bl, links := r.links)
    ensures r.bl.zero.size == st.bl.zero.size && r.bl.one.size == st.bl.one.size
  {
    var p := st.part[d];
    ghost var L1 := TakeSound(g, st, L, d);
    var s1 := Take(st, d, p);
    ghost var a := s1.(locked := st.locked[d := true]);
    ghost var b := a.(gain := st.gain[d := v]);
    SoundFrame(g, a, b, L1);
    L' := PutSound(g, b, L1, d);
    r := Put(s1.(gain := st.gain[d := v]), d, p);
    assert b.locked[d := false] == st.locked;
  }

  /** Every free cell of net `n` steps its gain by `delta` (the "all cells" rules). */
  method BumpAll(g: Graph, st: Fm, ghost L: Lists, n: nat, delta: int) returns (r: Fm, ghost L': Lists)
    requires Sound(g, st, L) && n < |g.nets| && Below(g.nets[n].cells, |g.cells|) && Distinct(g.nets[n].cells)
    requires forall d | d in g.nets[n].cells && !st.locked[d] :: -(st.pmax as int) <= st.gain[d] + delta <= st.pmax
    ensures Sound(g, r, L')
    ensures r == st.(gain := r.gain, bl := r.bl, links := r.links)
    ensures r.bl.zero.size == st.bl.zero.size && r.bl.one.size == st.bl.one.size
    ensures forall d | 0 <= d < |g.cells| :: r.gain[d] == st.gain[d] + (if d in g.nets[n].cells && !st.locked[d] then delta else 0)
  {
    var cells := g.nets[n].cells;
    r, L' := st, L;
    for j := 0 to |cells|
      invariant Sound(g, r, L')
      invariant r == st.(gain := r.gain, bl := r.bl, links := r.links)
      invariant r.bl.zero.size == st.bl.zero.size && r.bl.one.size == st.bl.one.size
      invariant forall d | 0 <= d < |g.cells| :: r.gain[d] == st.gain[d] + (if d in cells[..j] && !st.locked[d] then delta else 0)
    {
      var d := cells[j];
      assert d !in cells[..j];
      assert cells[..j + 1] == cells[..j] + [d];
      if !r.locked[d] {
        r, L' := Rebucket(g, r, L', d, r.gain[d] + delta);
      }
    }
    assert cells[..|cells|] == cells;
  }

  /** The first free cell of `cells` on side `side`, or Null: the scan of the "sole cell" rules. */
  function FirstFree(cells: seq<nat>, part: seq<bool>, locked: seq<bool>, side: bool): (r: int)
    requires Below(cells, |part|) && |locked| == |part|
    ensures r == Null <==> forall j | 0 <= j < |cells| :: part[cells[j]] != side || locked[cells[j]]
    ensures r != Null ==> 0 <= r < |part| && r in cells && part[r] == side && !locked[r]
  {
    if cells == [] then Null
    else if part[cells[0]] == side && !locked[cells[0]] then cells[0]
    else
      var r := FirstFree(cells[1..], part, locked, side);
      assert forall j | 1 <= j < |cells| :: cells[j] == cells[1..][j - 1];
      r
  }

  // ---------------------------------------------------------------------------
  // Gain algebra for one net

  /** The counts before the move, from the counts after it: one more on the old side, one fewer on the new. */
  function Undo(cnt: Two<int>, to: bool): (r: Two<int>)
    ensures r.At(!to) == cnt.At(!to) + 1 && r.At(to) == cnt.At(to) - 1
  {
    cnt.With(!to, cnt.At(!to) + 1).With(to, cnt.At(to) - 1)
  }

  /** The counts between the two halves of the update: the new side already has the cell, the old side still counts it. */
  function Midway(cnt: Two<int>, to: bool): (r: Two<int>)
    ensures r.At(!to) == cnt.At(!to) + 1 && r.At(to) == cnt.At(to)
  {
    cnt.With(!to, cnt.At(!to) + 1)
  }

  /** The counts with the nets of `nets` still in their pre-move state. */
  function Pending(count: seq<Two<int>>, nets: seq<nat>, to: bool): (r: seq<Two<int>>)
    ensures |r| == |count|
    ensures forall n | 0 <= n < |count| :: r[n] == if n in nets then Undo(count[n], to) else count[n]
  {
    seq(|count|, n requires 0 <= n < |count| => if n in nets then Undo(count[n], to) else count[n])
  }

  /** Every free cell's gain is its gain under the count vector `M`. */
  ghost predicate GainsOver(g: Graph, st: Fm, M: seq<Two<int>>) {
    forall d | 0 <= d < |g.cells| && d < |st.locked| && !st.locked[d] ::
      Below(g.cells[d].nets, |M|) && d < |st.gain| && d < |st.part|
      && st.gain[d] == GainOver(g.cells[d].nets, M, st.part[d])
  }

  /** Changing one net's counts changes a gain by that net's term change, once per listing. */
  lemma {:induction false} GainOverUpdate(nets: seq<nat>, M: seq<Two<int>>, from: bool, n: nat, v: Two<int>)
    requires Below(nets, |M|) && n < |M|
    ensures GainOver(nets, M[n := v], from) == GainOver(nets, M, from) + Occ(nets, n) * (Term(v, from) - Term(M[n], from))
    decreases |nets|
  {
    if nets != [] {
      var front := nets[..|nets| - 1];
      var x := nets[|nets| - 1];
      GainOverUpdate(front, M, from, n, v);
      assert nets == front + [x];
      assert multiset(nets) == multiset(front) + multiset{x};
      var t := Term(v, from) - Term(M[n], from);
      var o := Occ(front, n);
      if x == n {
        assert Occ(nets, n) == o + 1;
        MulStep(o, t);
      } else {
        assert Occ(nets, n) == o;
      }
    }
  }

  lemma MulStep(o: int, t: int)
    ensures (o + 1) * t == o * t + t
  {
  }

  /** On a valid graph whose nets list no cell twice, a cell lists net `n` once if it is on the net and never otherwise. */
  lemma OccOnNet(g: Graph, n: nat, d: nat)
    requires Valid(g) && DupFree(g) && n < |g.nets| && d < |g.cells|
    ensures Occ(g.cells[d].nets, n) == if d in g.nets[n].cells then 1 else 0
  {
    assert Occ(g.nets[n].cells, d) == Occ(g.cells[d].nets, n);
    DistinctOcc(g.nets[n].cells, d);
  }

  /** Cells of `S`, all listed on `cells` and all on side `p`, are each counted. */
  lemma {:induction false} CountAtLeast(cells: seq<nat>, part: seq<bool>, p: bool, S: set<nat>)
    requires Below(cells, |part|) && Distinct(cells)
    requires forall x | x in S :: x in cells && x < |part| && part[x] == p
    ensures CountIn(cells, part, p) >= |S|
    decreases |cells|
  {
    if cells != [] {
      var front := cells[..|cells| - 1];
      var last := cells[|cells| - 1];
      assert cells == front + [last];
      assert Distinct(front);
      var S' := S - {last};
      forall x | x in S' ensures x in front && x < |part| && part[x] == p {
        assert x in cells;
      }
      CountAtLeast(front, part, p, S');
    }
  }

  /** What the update of one net needs to know: the moved, locked cell `c` is on net `n`, and the counts are exact. */
  ghost predicate OnNet(g: Graph, st: Fm, L: Lists, c: nat, n: nat) {
    && Valid(g) && DupFree(g) && Sound(g, st, L)
    && Fits(g, st.part) && Counted(g, st.part, st.count)
    && c < |g.cells| && st.locked[c]
    && n < |g.nets| && c in g.nets[n].cells
  }

  /** The gain cell `d` should have under the counts `M` with net `n` set to `v`. */
  ghost function Aim(g: Graph, st: Fm, M: seq<Two<int>>, n: nat, v: Two<int>, d: nat): int
    requires Valid(g) && n < |M| && |M| == |g.nets| && d < |g.cells| && d < |st.part|
  {
    assert Below(g.cells[d].nets, |g.nets|);
    GainOver(g.cells[d].nets, M[n := v], st.part[d])
  }

  /** Gains that match the aimed gains of every free cell are the gains under the updated counts. */
  lemma AimGains(g: Graph, st: Fm, r: Fm, M: seq<Two<int>>, n: nat, v: Two<int>)
    requires Valid(g) && n < |M| && |M| == |g.nets| && |st.part| == |g.cells|
    requires r.part == st.part && r.locked == st.locked && |r.locked| == |g.cells| && |r.gain| == |g.cells|
    requires forall d | 0 <= d < |g.cells| && !st.locked[d] :: r.gain[d] == Aim(g, st, M, n, v, d)
    ensures GainsOver(g, r, M[n := v])
  {
    forall d | 0 <= d < |g.cells| && !r.locked[d]
      ensures Below(g.cells[d].nets, |M[n := v]|) && r.gain[d] == GainOver(g.cells[d].nets, M[n := v], r.part[d])
    {
      assert r.gain[d] == Aim(g, st, M, n, v, d);
    }
  }

  /** A free cell's aimed gain is its current gain plus, on net n, the term change of n; and it has a slot. */
  lemma TargetCell(g: Graph, st: Fm, L: Lists, M: seq<Two<int>>, n: nat, v: Two<int>, d: nat)
    requires Valid(g) && DupFree(g) && Sound(g, st, L) && n < |g.nets|
    requires |M| == |g.nets| && GainsOver(g, st, M)
    requires d < |g.cells| && !st.locked[d]
    ensures -(st.pmax as int) <= Aim(g, st, M, n, v, d) <= st.pmax
    ensures Aim(g, st, M, n, v, d) ==
            st.gain[d] + (if d in g.nets[n].cells then Term(v, st.part[d]) - Term(M[n], st.part[d]) else 0)
  {
    GainOverUpdate(g.cells[d].nets, M, st.part[d], n, v);
    OccOnNet(g, n, d);
  }

  /** Two different cells of net `n` on the same side make that side's count at least two. */
  lemma Pair(g: Graph, st: Fm, n: nat, a: nat, b: nat)
    requires Valid(g) && DupFree(g) && Fits(g, st.part) && Counted(g, st.part, st.count) && n < |g.nets|
    requires a in g.nets[n].cells && b in g.nets[n].cells && a != b
    ensures a < |st.part| && b < |st.part|
    ensures st.part[b] == st.part[a] ==> st.count[n].At(st.part[a]) >= 2
  {
    if st.part[b] == st.part[a] {
      assert |{a, b}| == 2;
      CountAtLeast(g.nets[n].cells, st.part, st.part[a], {a, b});
    }
  }

  /** Three different cells of net `n` on the same side make that side's count at least three. */
  lemma Trio(g: Graph, st: Fm, n: nat, a: nat, b: nat, e: nat)
    requires Valid(g) && DupFree(g) && Fits(g, st.part) && Counted(g, st.part, st.count) && n < |g.nets|
    requires a in g.nets[n].cells && b in g.nets[n].cells && e in g.nets[n].cells && a != b && a != e
    ensures a < |st.part| && b < |st.part| && e < |st.part|
    ensures b != e && st.part[b] == st.part[a] && st.part[e] == st.part[a] ==> st.count[n].At(st.part[a]) >= 3
  {
    if b != e && st.part[b] == st.part[a] && st.part[e] == st.part[a] {
      assert |{a, b, e}| == 3;
      CountAtLeast(g.nets[n].cells, st.part, st.part[a], {a, b, e});
    }
  }

  /** A cell of net `n` makes its side's count at least one. */
  lemma Single(g: Graph, st: Fm, n: nat, a: nat)
    requires Valid(g) && DupFree(g) && Fits(g, st.part) && Counted(g, st.part, st.count) && n < |g.nets|
    requires a in g.nets[n].cells
    ensures a < |st.part| && st.count[n].At(st.part[a]) >= 1
  {
    CountAtLeast(g.nets[n].cells, st.part, st.part[a], {a});
  }

  /**
   * The before-move rules as one formula: with T the new side's count after the
   * move, a free cell's aimed gain is its gain plus one when T == 1 and it is on
   * the net, minus one when T == 2 and it is the first free new-side cell of the
   * net, and unchanged otherwise.
   */
  lemma BeforeCell(g: Graph, st: Fm, L: Lists, c: nat, n: nat, M: seq<Two<int>>, d: nat)
    requires OnNet(g, st, L, c, n)
    requires |M| == |g.nets| && GainsOver(g, st, M) && M[n] == Undo(st.count[n], st.part[c])
    requires d < |g.cells| && !st.locked[d]
    ensures var to := st.part[c];
            var T := st.count[n].At(to);
            var cells := g.nets[n].cells;
            && -(st.pmax as int) <= Aim(g, st, M, n, Midway(st.count[n], to), d) <= st.pmax
            && Aim(g, st, M, n, Midway(st.count[n], to), d) == st.gain[d] +
                 (if T == 1 && d in cells then 1
                  else if T == 2 && d == FirstFree(cells, st.part, st.locked, to) then -1
                  else 0)
  {
    var to := st.part[c];
    var cells := g.nets[n].cells;
    TargetCell(g, st, L, M, n, Midway(st.count[n], to), d);
    Single(g, st, n, c);
    if d in cells {
      Pair(g, st, n, c, d);
      var x := FirstFree(cells, st.part, st.locked, to);
      if x != Null && x != d {
        Trio(g, st, n, c, d, x);
      }
    }
  }

  /**
   * The after-move rules as one formula: with F the old side's count after the
   * move, a free cell's aimed gain is its gain minus one when F == 0 and it is on
   * the net, plus one when F == 1 and it is the first free old-side cell of the
   * net, and unchanged otherwise.
   */
  lemma AfterCell(g: Graph, st: Fm, L: Lists, c: nat, n: nat, M: seq<Two<int>>, d: nat)
    requires OnNet(g, st, L, c, n)
    requires |M| == |g.nets| && GainsOver(g, st, M) && M[n] == Midway(st.count[n], st.part[c])
    requires d < |g.cells| && !st.locked[d]
    ensures var from := !st.part[c];
            var F := st.count[n].At(from);
            var cells := g.nets[n].cells;
            && -(st.pmax as int) <= Aim(g, st, M, n, st.count[n], d) <= st.pmax
            && Aim(g, st, M, n, st.count[n], d) == st.gain[d] +
                 (if F == 0 && d in cells then -1
                  else if F == 1 && d == FirstFree(cells, st.part, st.locked, from) then 1
                  else 0)
  {
    var from := !st.part[c];
    var cells := g.nets[n].cells;
    TargetCell(g, st, L, M, n, st.count[n], d);
    Single(g, st, n, c);
    if d in cells {
      Single(g, st, n, d);
      var x := FirstFree(cells, st.part, st.locked, from);
      if x != Null && x != d {
        Pair(g, st, n, x, d);
      }
    }
  }

  /**
   * The gain change the rules of `update_gain` give cell `d` for one side of a
   * net's cells holding `size` cells: every cell of the net steps by `delta`
   * when the side is empty, and the side's first free cell by `-delta` when it
   * holds exactly one.
   */
  function Rule(cells: seq<nat>, part: seq<bool>, locked: seq<bool>, side: bool, size: int, delta: int, d: nat): int
    requires Below(cells, |part|) && |locked| == |part|
  {
    if size == 0 && d in cells then delta
    else if size == 1 && d == FirstFree(cells, part, locked, side) then -delta
    else 0
  }

  /**
   * One half of `update_gain` for net `n`: with no cell on `side`, every free
   * cell of the net is rebucketed at its gain plus `delta`; with one cell, the
   * first free cell of the net on that side is rebucketed at its gain minus
   * `delta`; otherwise nothing changes.
   */
  method ApplyRule(g: Graph, st: Fm, ghost L: Lists, n: nat, side: bool, size: int, delta: int) returns (r: Fm, ghost L': Lists)
    requires Sound(g, st, L) && n < |g.nets| && Below(g.nets[n].cells, |g.cells|) && Distinct(g.nets[n].cells)
    requires forall d | 0 <= d < |g.cells| && !st.locked[d] ::
               -(st.pmax as int) <= st.gain[d] + Rule(g.nets[n].cells, st.part, st.locked, side, size, delta, d) <= st.pmax
    ensures Sound(g, r, L') && r == st.(gain := r.gain, bl := r.bl, links := r.links)
    ensures r.bl.zero.size == st.bl.zero.size && r.bl.one.size == st.bl.one.size
    ensures forall d | 0 <= d < |g.cells| && !st.locked[d] ::
              r.gain[d] == st.gain[d] + Rule(g.nets[n].cells, st.part, st.locked, side, size, delta, d)
  {
    var cells := g.nets[n].cells;
    if size == 0 {
      r, L' := BumpAll(g, st, L, n, delta);
    } else if size == 1 {
      var x := FirstFree(cells, st.part, st.locked, side);
      if x != Null {
        r, L' := Rebucket(g, st, L, x, st.gain[x] - delta);
      } else {
        r, L' := st, L;
      }
    } else {
      r, L' := st, L;
    }
  }

  /**
   * The first half of `update_gain` for net `n`, on the counts before the move:
   * if the moved cell's new side had no cell, every free cell of the net gains
   * one; if it had one, that cell, when free, loses one.
   */
  method UpdateBefore(g: Graph, st: Fm, ghost L: Lists, c: nat, n: nat, ghost M: seq<Two<int>>) returns (r: Fm, ghost L': Lists)
    requires OnNet(g, st, L, c, n)
    requires |M| == |g.nets| && GainsOver(g, st, M) && M[n] == Undo(st.count[n], st.part[c])
    ensures Sound(g, r, L') && r == st.(gain := r.gain, bl := r.bl, links := r.links)
    ensures r.bl.zero.size == st.bl.zero.size && r.bl.one.size == st.bl.one.size
    ensures GainsOver(g, r, M[n := Midway(st.count[n], st.part[c])])
  {
    var to := st.part[c];
    var toSize := st.count[n].At(to) - 1;
    ghost var v := Midway(st.count[n], to);
    forall d | 0 <= d < |g.cells| && !st.locked[d]
      ensures -(st.pmax as int) <= Aim(g, st, M, n, v, d) <= st.pmax
      ensures Aim(g, st, M, n, v, d) == st.gain[d] + Rule(g.nets[n].cells, st.part, st.locked, to, toSize, 1, d)
    {
      BeforeCell(g, st, L, c, n, M, d);
    }
    r, L' := ApplyRule(g, st, L, n, to, toSize, 1);
    AimGains(g, st, r, M, n, v);
  }

  /**
   * The second half of `update_gain` for net `n`, on the counts after the move:
   * if the old side is left with no cell, every free cell of the net loses one;
   * if it is left with one, that cell, when free, gains one.
   */
  method UpdateAfter(g: Graph, st: Fm, ghost L: Lists, c: nat, n: nat, ghost M: seq<Two<int>>) returns (r: Fm, ghost L': Lists)
    requires OnNet(g, st, L, c, n)
    requires |M| == |g.nets| && GainsOver(g, st, M) && M[n] == Midway(st.count[n], st.part[c])
    ensures Sound(g, r, L') && r == st.(gain := r.gain, bl := r.bl, links := r.links)
    ensures r.bl.zero.size == st.bl.zero.size && r.bl.one.size == st.bl.one.size
    ensures GainsOver(g, r, M[n := st.count[n]])
  {
    var from := !st.part[c];
    var fromSize := st.count[n].At(from);
    ghost var v := st.count[n];
    forall d | 0 <= d < |g.cells| && !st.locked[d]
      ensures -(st.pmax as int) <= Aim(g, st, M, n, v, d) <= st.pmax
      ensures Aim(g, st, M, n, v, d) == st.gain[d] + Rule(g.nets[n].cells, st.part, st.locked, from, fromSize, -1, d)
    {
      AfterCell(g, st, L, c, n, M, d);
    }
    r, L' := ApplyRule(g, st, L, n, from, fromSize, -1);
    AimGains(g, st, r, M, n, v);
  }

  /** The body of `update_gain` for one net `n` of the moved cell: it turns the net's pending counts into its current ones. */
  method UpdateNet(g: Graph, st: Fm, ghost L: Lists, c: nat, n: nat, ghost M: seq<Two<int>>) returns (r: Fm, ghost L': Lists)
    requires OnNet(g, st, L, c, n)
    requires |M| == |g.nets| && GainsOver(g, st, M) && M[n] == Undo(st.count[n], st.part[c])
    ensures Sound(g, r, L') && r == st.(gain := r.gain, bl := r.bl, links := r.links)
    ensures r.bl.zero.size == st.bl.zero.size && r.bl.one.size == st.bl.one.size
    ensures GainsOver(g, r, M[n := st.count[n]])
  {
    r, L' := UpdateBefore(g, st, L, c, n, M);
    ghost var M' := M[n := Midway(st.count[n], st.part[c])];
    r, L' := UpdateAfter(g, r, L', c, n, M');
    assert M'[n := st.count[n]] == M[n := st.count[n]];
  }

  /** An entry listed at most once does not occur again later in the list. */
  lemma NotLater(s: seq<nat>, i: nat)
    requires i < |s| && Occ(s, s[i]) <= 1
    ensures s[i] !in s[i + 1..]
  {
    assert s == s[..i] + [s[i]] + s[i + 1..];
    assert multiset(s) == multiset(s[..i]) + multiset{s[i]} + multiset(s[i + 1..]);
  }

  /** The `i`-th net of the moved cell: it lists the cell, and updating it advances the pending vector by one net. */
  lemma NetStep(g: Graph, c: nat, count: seq<Two<int>>, to: bool, i: nat)
    requires Valid(g) && DupFree(g) && c < |g.cells| && |count| == |g.nets| && i < |g.cells[c].nets|
    ensures var nets := g.cells[c].nets;
            var n := nets[i];
            var M := Pending(count, nets[i..], to);
            && n < |g.nets| && c in g.nets[n].cells
            && M[n] == Undo(count[n], to)
            && M[n := count[n]] == Pending(count, nets[i + 1..], to)
  {
    var nets := g.cells[c].nets;
    var n := nets[i];
    assert Below(nets, |g.nets|);
    assert n in nets;
    OccOnNet(g, n, c);
    NotLater(nets, i);
    assert nets[i..] == [n] + nets[i + 1..];
  }

  /**
   * `update_gain` after cell `c` has been moved to side `part[c]` and locked: net
   * by net, the before-move rules and then the after-move rules. Free gains
   * exact for the counts before the move become exact for the counts after it,
   * and the bucket lists stay sound.
   */
  method UpdateGain(g: Graph, st: Fm, ghost L: Lists, c: nat) returns (r: Fm, ghost L': Lists)
    requires Valid(g) && DupFree(g) && Sound(g, st, L) && Fits(g, st.part) && Counted(g, st.part, st.count)
    requires c < |g.cells| && st.locked[c]
    requires GainsOver(g, st, Pending(st.count, g.cells[c].nets, st.part[c]))
    ensures Sound(g, r, L') && r == st.(gain := r.gain, bl := r.bl, links := r.links)
    ensures r.bl.zero.size == st.bl.zero.size && r.bl.one.size == st.bl.one.size
    ensures GainsOver(g, r, st.count)
  {
    var nets := g.cells[c].nets;
    r, L' := st, L;
    assert nets[0..] == nets;
    for i := 0 to |nets|
      invariant Sound(g, r, L') && r == st.(gain := r.gain, bl := r.bl, links := r.links)
      invariant r.bl.zero.size == st.bl.zero.size && r.bl.one.size == st.bl.one.size
      invariant GainsOver(g, r, Pending(st.count, nets[i..], st.part[c]))
    {
      r, L' := NextNet(g, st, r, L', c, i);
    }
    PendingNone(st.count, nets, st.part[c]);
  }

  /** With no net left pending, the pending vector is the count vector itself. */
  lemma PendingNone(count: seq<Two<int>>, nets: seq<nat>, to: bool)
    ensures Pending(count, nets[|nets|..], to) == count
  {
    assert nets[|nets|..] == [];
  }

  /** One turn of `update_gain`'s loop over the nets of `c`: net `i` leaves the pending vector. */
  method NextNet(g: Graph, st: Fm, s: Fm, ghost L: Lists, c: nat, i: nat) returns (r: Fm, ghost L': Lists)
    requires Valid(g) && DupFree(g) && Fits(g, st.part) && Counted(g, st.part, st.count)
    requires Sound(g, s, L) && s == st.(gain := s.gain, bl := s.bl, links := s.links)
    requires c < |g.cells| && st.locked[c] && i < |g.cells[c].nets|
    requires GainsOver(g, s, Pending(st.count, g.cells[c].nets[i..], st.part[c]))
    ensures Sound(g, r, L') && r == st.(gain := r.gain, bl := r.bl, links := r.links)
    ensures r.bl.zero.size == s.bl.zero.size && r.bl.one.size == s.bl.one.size
    ensures GainsOver(g, r, Pending(st.count, g.cells[c].nets[i + 1..], st.part[c]))
  {
    var n := g.cells[c].nets[i];
    ghost var M := Pending(st.count, g.cells[c].nets[i..], st.part[c]);
    NetStep(g, c, st.count, st.part[c], i);
    r, L' := UpdateNet(g, s, L, c, n, M);
  }

  /**
   * Before `update_gain`: if every free gain was exact before moving and
   * locking `c`, each is exact for the pending vector the update starts from.
   */
  lemma MovePending(g: Graph, st: Fm, c: nat)
    requires Valid(g) && DupFree(g) && |st.part| == |g.cells| && |st.locked| == |g.cells| && |st.gain| == |g.cells|
    requires c < |g.cells| && !st.locked[c] && Counted(g, st.part, st.count)
    requires GainsOver(g, st, st.count)
    ensures var m := MoveCell(g, st, c, false);
            GainsOver(g, m.(locked := st.locked[c := true]), Pending(m.count, g.cells[c].nets, m.part[c]))
  {
    var m := MoveCell(g, st, c, false);
    var nets := g.cells[c].nets;
    forall n | 0 <= n < |g.nets| ensures Pending(m.count, nets, m.part[c])[n] == st.count[n] {
      OccOnNet(g, n, c);
      assert n in nets <==> Occ(nets, n) > 0;
    }
    assert Pending(m.count, nets, m.part[c]) == st.count;
  }
}
