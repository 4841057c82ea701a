/**
 * The partitioner's state between and during FM passes, and the set-up steps
 * of a pass: the seed split (`initialize_partitions`), the per-pass reset and
 * recount (`reset_all_parameters`), the gain computation (`compute_cell_gain`)
 * and the filling of the bucket lists (`initialize_bucket_list`).
 *
 * The graph is fixed once parsed, so it is a separate parameter; everything the
 * partitioner changes lives in `Fm`. Cell and net ids index the sequences.
 */
module FmState {
  import opened Arena
  import opened Hypergraph
  import opened Buckets
  import opened Gain

  /**
   * The mutable fields of `Partitioner` and its cells: side (`part`, true for
   * partition 1), gain, lock flag and bucket-node links per cell; per-net
   * counts; per-side sizes, unlocked counts, maximum slot gains and bucket
   * lists; and the pass bookkeeping.
   */
  datatype Fm = Fm(
    part: seq<bool>,
    gain: seq<int>,
    locked: seq<bool>,
    count: seq<Two<int>>,
    partSize: Two<int>,
    unlockNum: Two<int>,
    pmax: nat,
    maxGain: Two<int>,
    bl: Two<Bucket>,
    links: seq<Link>,
    accGain: int,
    maxAccGain: int,
    moveNum: int,
    bestMoveNum: int,
    stack: seq<nat>,
    iterNum: nat,
    cutSize: int)

  /** The ghost slot lists of both sides' bucket lists. */
  type Lists = Two<seq<seq<nat>>>

  /** Both sides' slot lists as one family (side 0 first), threaded by one link arena. */
  function Flat(L: Lists): seq<seq<nat>> {
    L.zero + L.one
  }

  /** A bucket list with a slot for every gain in -pmax..pmax. */
  predicate Sized(b: Bucket, pmax: nat) {
    |b.slots| == 2 * pmax + 1 && b.offset == pmax
  }

  /** Per-cell and per-net sequences cover the graph, and every pin count fits the bucket range. */
  ghost predicate Shape(g: Graph, st: Fm) {
    && |st.part| == |g.cells| && |st.gain| == |g.cells| && |st.locked| == |g.cells| && |st.links| == |g.cells|
    && |st.count| == |g.nets|
    && (forall c | 0 <= c < |g.cells| :: g.cells[c].pinNum <= st.pmax)
    && Sized(st.bl.zero, st.pmax) && Sized(st.bl.one, st.pmax)
  }

  /** Cell `c` is on slot list `k` of the family `Lp`. */
  ghost predicate InSlot(Lp: seq<seq<nat>>, k: int, c: nat) {
    0 <= k < |Lp| && c in Lp[k]
  }

  /** Cell `c` belongs on slot `k` of side `q`: it is free, on side q, with gain k - pmax. */
  ghost predicate Filed(st: Fm, q: bool, k: int, c: nat) {
    c < |st.part| && c < |st.locked| && c < |st.gain|
    && !st.locked[c] && st.part[c] == q && st.gain[c] + st.pmax == k
  }

  /**
   * The bucket lists file exactly the free cells, each on its side at its
   * gain's slot, and every locked cell has no links.
   */
  ghost predicate Sound(g: Graph, st: Fm, L: Lists) {
    && Shape(g, st)
    && Repr(st.bl.zero, L.zero) && Repr(st.bl.one, L.one)
    && Chains(st.links, Flat(L))
    && (forall c | 0 <= c < |g.cells| && !st.locked[c] :: -(st.pmax as int) <= st.gain[c] <= st.pmax)
    && (forall q: bool, k: int, c: nat | 0 <= k < |L.At(q)| :: c in L.At(q)[k] <==> Filed(st, q, k, c))
    && (forall c | 0 <= c < |g.cells| && st.locked[c] :: st.links[c] == Unlinked)
  }

  /** The state seen with every cell from `i` on locked: used while the bucket lists are being filled. */
  ghost function LockFrom(st: Fm, i: nat): (r: Fm)
    ensures |r.locked| == |st.locked| && r == st.(locked := r.locked)
    ensures forall c | 0 <= c < |st.locked| :: r.locked[c] == (st.locked[c] || c >= i)
  {
    st.(locked := seq(|st.locked|, c requires 0 <= c < |st.locked| => st.locked[c] || c >= i))
  }

  // ---------------------------------------------------------------------------
  // Bucket operations on one side of the two-sided family

  lemma FlatAt(L: Lists, p: bool, k: nat)
    requires k < |L.At(p)|
    ensures var i := if p then |L.zero| + k else k;
            i < |Flat(L)| && Flat(L)[i] == L.At(p)[k]
  {
  }

  lemma FlatWith(L: Lists, p: bool, k: nat, s: seq<nat>)
    requires k < |L.At(p)|
    ensures var i := if p then |L.zero| + k else k;
            i < |Flat(L)| && Flat(L.With(p, L.At(p)[k := s])) == Flat(L)[i := s]
  {
  }

  /** A cell is on no list of either side. */
  ghost predicate Unfiled(L: Lists, c: nat) {
    forall q: bool, k | 0 <= k < |L.At(q)| :: c !in L.At(q)[k]
  }

  lemma UnfiledOff(L: Lists, c: nat)
    requires Unfiled(L, c)
    ensures Off(Flat(L), c)
  {
    forall k | 0 <= k < |Flat(L)| ensures c !in Flat(L)[k] {
      if k < |L.zero| {
        assert Flat(L)[k] == L.At(false)[k];
      } else {
        assert Flat(L)[k] == L.At(true)[k - |L.zero|];
      }
    }
  }

  /**
   * `remove` of cell `d` from side `p` at its slot `k`: the side's lists lose d,
   * the other side is untouched, and only links of cells on that slot change.
   */
  lemma RemoveSide(bl: Two<Bucket>, lk: seq<Link>, L: Lists, p: bool, k: nat, d: nat) returns (L': Lists)
    requires Repr(bl.At(p), L.At(p)) && Chains(lk, Flat(L)) && InSlot(L.At(p), k, d)
    ensures var g := k - bl.At(p).offset;
            && Holds(bl.At(p), g) && GetNode(bl.At(p), g) != Null
            && d < |lk| && Ref(lk, lk[d].prev) && Ref(lk, lk[d].next)
            && var a := Remove(bl.At(p), lk, d, g); var b', lk' := a.0, a.1;
               && Repr(b', L'.At(p)) && Chains(lk', Flat(L')) && L'.At(!p) == L.At(!p)
               && |L'.At(p)| == |L.At(p)|
               && (forall m | 0 <= m < |lk| && m !in L.At(p)[k] :: lk'[m] == lk[m])
    ensures forall q: bool, k', c | 0 <= k' < |L.At(q)| :: (c in L'.At(q)[k'] <==> c in L.At(q)[k'] && c != d)
  {
    var Lp := L.At(p);
    var j :| 0 <= j < |Lp[k]| && Lp[k][j] == d;
    var i := if p then |L.zero| + k else k;
    FlatAt(L, p, k);
    FlatWith(L, p, k, Del(Lp[k], j));
    assert Chain(lk, Flat(L)[i]);
    RemoveRepr(bl.At(p), lk, Lp, k, j);
    DetachChains(lk, Flat(L), i, j);
    L' := L.With(p, Lp[k := Del(Lp[k], j)]);
    DelSideMembers(lk, L, p, k, j);
  }

  /** Deleting entry `j` of slot `k` of side `p` loses exactly that cell, which no other slot holds. */
  lemma DelSideMembers(lk: seq<Link>, L: Lists, p: bool, k: nat, j: nat)
    requires Chains(lk, Flat(L)) && k < |L.At(p)| && j < |L.At(p)[k]|
    ensures var Lp := L.At(p); var d := Lp[k][j]; var L' := L.With(p, Lp[k := Del(Lp[k], j)]);
            forall q: bool, k', c | 0 <= k' < |L.At(q)| :: (c in L'.At(q)[k'] <==> c in L.At(q)[k'] && c != d)
  {
    var Lp := L.At(p);
    var d := Lp[k][j];
    var L' := L.With(p, Lp[k := Del(Lp[k], j)]);
    var i := if p then |L.zero| + k else k;
    FlatAt(L, p, k);
    assert Distinct(Lp[k]) by {
      assert Distinct(Flat(L)[i]);
    }
    forall q: bool, k', c | 0 <= k' < |L.At(q)| ensures (c in L'.At(q)[k'] <==> c in L.At(q)[k'] && c != d) {
      if q == p && k' == k {
        DelMembers(Lp[k], j, c);
      } else if c == d {
        var i' := if q then |L.zero| + k' else k';
        FlatAt(L, q, k');
        assert d in Flat(L)[i];
        assert i' != i;
      }
    }
  }

  /** Membership in a list without its `j`-th entry, for a list without repeats. */
  lemma DelMembers(s: seq<nat>, j: nat, c: nat)
    requires j < |s| && Distinct(s)
    ensures c in Del(s, j) <==> c in s && c != s[j]
  {
    if c in s && c != s[j] {
      var i :| 0 <= i < |s| && s[i] == c;
      if i < j {
        assert Del(s, j)[i] == c;
      } else {
        assert Del(s, j)[i - 1] == c;
      }
    }
    if c in Del(s, j) {
      var i :| 0 <= i < |Del(s, j)| && Del(s, j)[i] == c;
      if i >= j {
        assert s[i + 1] == c;
      }
    }
  }

  /**
   * `append` of an unfiled, link-free cell `d` to side `p` at slot `k`: it joins
   * that slot's list and nothing else changes.
   */
  lemma AppendSide(bl: Two<Bucket>, lk: seq<Link>, L: Lists, p: bool, k: nat, d: nat) returns (L': Lists)
    requires Repr(bl.At(p), L.At(p)) && Chains(lk, Flat(L)) && k < |L.At(p)|
    requires d < |lk| && Unfiled(L, d) && lk[d] == Unlinked
    ensures var g := k - bl.At(p).offset;
            && Holds(bl.At(p), g) && Ref(lk, GetNode(bl.At(p), g))
            && var a := Append(bl.At(p), lk, d, g); var b', lk' := a.0, a.1;
               && Repr(b', L'.At(p)) && Chains(lk', Flat(L')) && L'.At(!p) == L.At(!p)
               && |L'.At(p)| == |L.At(p)|
               && (forall m | 0 <= m < |lk| && m !in L.At(p)[k] && m != d :: lk'[m] == lk[m])
    ensures forall q: bool, k', c | 0 <= k' < |L.At(q)| ::
              (c in L'.At(q)[k'] <==> c in L.At(q)[k'] || (c == d && q == p && k' == k))
  {
    var Lp := L.At(p);
    var i := if p then |L.zero| + k else k;
    FlatAt(L, p, k);
    FlatWith(L, p, k, [d] + Lp[k]);
    UnfiledOff(L, d);
    assert Chain(lk, Flat(L)[i]);
    AppendRepr(bl.At(p), lk, Lp, k, d);
    AttachChains(lk, Flat(L), i, d);
    L' := L.With(p, Lp[k := [d] + Lp[k]]);
  }

  // ---------------------------------------------------------------------------
  // Set-up steps

  /**
   * The state right after parsing: every cell in partition 0, unlocked, with gain
   * 0 and no links; every net's counts zero; no bucket slots yet.
   */
  function Start(g: Graph): (st: Fm)
    ensures |st.part| == |g.cells| && forall c | 0 <= c < |g.cells| :: !st.part[c]
    ensures |st.locked| == |g.cells| && forall c | 0 <= c < |g.cells| :: !st.locked[c]
    ensures st.partSize == Two(0, 0)
  {
    var n := |g.cells|;
    Fm(seq(n, _ => false), seq(n, _ => 0), seq(n, _ => false), seq(|g.nets|, _ => Two(0, 0)),
       Two(0, 0), Two(0, 0), 0, Two(0, 0), Two(Default(0), Default(0)), seq(n, _ => Unlinked),
       0, 0, 0, 0, [], 0, 0)
  }

  /**
   * `initialize_partitions`: cells with id below N/2 are moved (their side
   * toggled) and counted in partition 1, the others counted in partition 0; the
   * largest pin count sizes both bucket lists.
   */
  method InitializePartitions(g: Graph, st: Fm) returns (r: Fm)
    requires |st.part| == |g.cells|
    ensures |r.part| == |g.cells|
    ensures forall c | 0 <= c < |g.cells| :: r.part[c] == (if c < |g.cells| / 2 then !st.part[c] else st.part[c])
    ensures r.partSize.zero == st.partSize.zero + (|g.cells| - |g.cells| / 2)
    ensures r.partSize.one == st.partSize.one + |g.cells| / 2
    ensures forall c | 0 <= c < |g.cells| :: g.cells[c].pinNum <= r.pmax
    ensures r.pmax == 0 || exists c | 0 <= c < |g.cells| :: g.cells[c].pinNum == r.pmax
    ensures Sized(r.bl.zero, r.pmax) && Sized(r.bl.one, r.pmax)
    ensures r == st.(part := r.part, partSize := r.partSize, pmax := r.pmax, bl := r.bl)
  {
    var half := |g.cells| / 2;
    var part := st.part;
    var size := st.partSize;
    var pmax: nat := 0;
    for c := 0 to |g.cells|
      invariant |part| == |g.cells|
      invariant forall d | 0 <= d < |g.cells| :: part[d] == (if d < c && d < half then !st.part[d] else st.part[d])
      invariant size.zero == st.partSize.zero + (if c <= half then 0 else c - half)
      invariant size.one == st.partSize.one + (if c <= half then c else half)
      invariant forall d | 0 <= d < c :: g.cells[d].pinNum <= pmax
      invariant pmax == 0 || exists d | 0 <= d < c :: g.cells[d].pinNum == pmax
    {
      if c < half {
        part := part[c := !part[c]];
        size := size.(one := size.one + 1);
      } else {
        size := size.(zero := size.zero + 1);
      }
      if g.cells[c].pinNum > pmax {
        pmax := g.cells[c].pinNum;
      }
    }
    r := st.(part := part, partSize := size, pmax := pmax, bl := Two(New(pmax, 0), New(pmax, 0)));
  }

  /** From the parsed state, the seed split puts exactly the cells with id below N/2 in partition 1. */
  lemma SeedSplit(g: Graph, r: Fm)
    requires |r.part| == |g.cells|
    requires forall c | 0 <= c < |g.cells| :: r.part[c] == (if c < |g.cells| / 2 then !Start(g).part[c] else Start(g).part[c])
    requires r.partSize.zero == Start(g).partSize.zero + (|g.cells| - |g.cells| / 2)
    requires r.partSize.one == Start(g).partSize.one + |g.cells| / 2
    ensures forall c | 0 <= c < |g.cells| :: r.part[c] <==> c < |g.cells| / 2
    ensures r.partSize.zero + r.partSize.one == |g.cells|
    ensures r.partSize.one == CountSide(r.part, true, |g.cells|)
  {
    SeedCount(r.part, |g.cells| / 2, |g.cells|);
  }

  /** Number of cells among 0..k-1 on side `p`. */
  function CountSide(part: seq<bool>, p: bool, k: nat): (r: nat)
    requires k <= |part|
    ensures r <= k
  {
    if k == 0 then 0 else CountSide(part, p, k - 1) + Ind(part[k - 1] == p)
  }

  lemma {:induction false} SeedCount(part: seq<bool>, half: nat, k: nat)
    requires k <= |part| && half <= |part|
    requires forall c | 0 <= c < |part| :: part[c] <==> c < half
    ensures CountSide(part, true, k) == if k < half then k else half
  {
    if k > 0 {
      SeedCount(part, half, k - 1);
    }
  }

  /**
   * `reset_all_parameters`: the pass bookkeeping is zeroed, the unlocked counts
   * restart from the partition sizes, and every net's counts are recounted from
   * its cell list.
   */
  method ResetAllParameters(g: Graph, st: Fm) returns (r: Fm)
    requires Fits(g, st.part) && |st.count| == |g.nets|
    ensures Counted(g, st.part, r.count)
    ensures r.accGain == 0 && r.maxAccGain == 0 && r.moveNum == 0 && r.bestMoveNum == 0 && r.stack == []
    ensures r.unlockNum == st.partSize
    ensures r == st.(accGain := 0, maxAccGain := 0, moveNum := 0, bestMoveNum := 0,
                     unlockNum := st.partSize, stack := [], count := r.count)
  {
    var count := st.count;
    for n := 0 to |g.nets|
      invariant |count| == |g.nets|
      invariant forall m | 0 <= m < n :: count[m] == Recount(g, st.part, m)
    {
      var cells := g.nets[n].cells;
      var cnt := Two(0, 0);
      for j := 0 to |cells|
        invariant cnt == Two(CountIn(cells[..j], st.part, false), CountIn(cells[..j], st.part, true))
      {
        assert cells[..j + 1][..j] == cells[..j];
        var p := st.part[cells[j]];
        cnt := cnt.With(p, cnt.At(p) + 1);
      }
      assert cells[..|cells|] == cells;
      count := count[n := cnt];
    }
    r := st.(accGain := 0, maxAccGain := 0, moveNum := 0, bestMoveNum := 0,
             unlockNum := st.partSize, stack := [], count := count);
  }

  /** `compute_cell_gain`: every cell's gain is recomputed from the stored net counts. */
  method ComputeCellGain(g: Graph, st: Fm) returns (r: Fm)
    requires Valid(g) && |st.part| == |g.cells| && |st.gain| == |g.cells| && |st.count| == |g.nets|
    ensures |r.gain| == |g.cells|
    ensures forall c | 0 <= c < |g.cells| :: r.gain[c] == CellGain(g, st.part, st.count, c)
    ensures r == st.(gain := r.gain)
  {
    var gain := seq(|g.cells|, _ => 0);
    for c := 0 to |g.cells|
      invariant |gain| == |g.cells|
      invariant forall d | 0 <= d < c :: gain[d] == CellGain(g, st.part, st.count, d)
    {
      var nets := g.cells[c].nets;
      assert Below(nets, |g.nets|);
      var from := st.part[c];
      var v := 0;
      for j := 0 to |nets|
        invariant v == GainOver(nets[..j], st.count, from)
      {
        assert nets[..j + 1][..j] == nets[..j];
        var cnt := st.count[nets[j]];
        if cnt.At(from) == 1 {
          v := v + 1;
        }
        if cnt.At(!from) == 0 {
          v := v - 1;
        }
      }
      assert nets[..|nets|] == nets;
      gain := gain[c := v];
    }
    r := st.(gain := gain);
  }

  /** `_bList[p].append(node, gain)` for cell `d` at its current gain. */
  function Put(st: Fm, d: nat, p: bool): (r: Fm)
    requires d < |st.gain| && Holds(st.bl.At(p), st.gain[d])
    requires d < |st.links| && Ref(st.links, GetNode(st.bl.At(p), st.gain[d]))
    ensures r == st.(bl := r.bl, links := r.links) && r.bl.At(!p) == st.bl.At(!p)
    ensures r.bl.At(p).size == st.bl.At(p).size + 1
  {
    var a := Append(st.bl.At(p), st.links, d, st.gain[d]);
    st.(bl := st.bl.With(p, a.0), links := a.1)
  }

  /** `_bList[p].remove(node, gain)` for cell `d` at its current gain. */
  function Take(st: Fm, d: nat, p: bool): (r: Fm)
    requires d < |st.gain| && Holds(st.bl.At(p), st.gain[d]) && GetNode(st.bl.At(p), st.gain[d]) != Null
    requires d < |st.links| && Ref(st.links, st.links[d].prev) && Ref(st.links, st.links[d].next)
    ensures r == st.(bl := r.bl, links := r.links) && r.bl.At(!p) == st.bl.At(!p)
    ensures r.bl.At(p).size == st.bl.At(p).size - 1 && |r.links| == |st.links| && r.links[d] == Unlinked
  {
    var a := Remove(st.bl.At(p), st.links, d, st.gain[d]);
    st.(bl := st.bl.With(p, a.0), links := a.1)
  }

  /** Appending a locked cell at an in-range gain and unlocking it keeps the lists sound. */
  lemma PutSound(g: Graph, st: Fm, L: Lists, d: nat) returns (L': Lists)
    requires Sound(g, st, L) && d < |g.cells| && st.locked[d]
    requires -(st.pmax as int) <= st.gain[d] <= st.pmax
    ensures Holds(st.bl.At(st.part[d]), st.gain[d]) && Ref(st.links, GetNode(st.bl.At(st.part[d]), st.gain[d]))
    ensures Sound(g, Put(st, d, st.part[d]).(locked := st.locked[d := false]), L')
  {
    var p := st.part[d];
    var k: nat := st.gain[d] + st.pmax;
    assert Unfiled(L, d) by {
      forall q: bool, k' | 0 <= k' < |L.At(q)| ensures d !in L.At(q)[k'] {
        assert d in L.At(q)[k'] <==> Filed(st, q, k', d);
      }
    }
    L' := AppendSide(st.bl, st.links, L, p, k, d);
    var r := Put(st, d, p).(locked := st.locked[d := false]);
    SidesRepr(r.bl, L', p);
    PutMembers(st, r, L, L', d);
    PutUnlinked(g, st, r, L, d);
  }

  lemma SidesRepr(bl: Two<Bucket>, L: Lists, p: bool)
    requires Repr(bl.At(p), L.At(p)) && Repr(bl.At(!p), L.At(!p))
    ensures Repr(bl.zero, L.zero) && Repr(bl.one, L.one)
  {
    if p {
      assert Repr(bl.At(true), L.At(true));
    } else {
      assert Repr(bl.At(false), L.At(false));
    }
  }

  lemma PutMembers(st: Fm, r: Fm, L: Lists, L': Lists, d: nat)
    requires d < |st.part| && d < |st.gain| && |st.locked| == |st.part| && |st.gain| == |st.part|
    requires r == st.(bl := r.bl, links := r.links, locked := st.locked[d := false])
    requires forall q: bool, k: int, c: nat | 0 <= k < |L.At(q)| :: c in L.At(q)[k] <==> Filed(st, q, k, c)
    requires |L'.zero| == |L.zero| && |L'.one| == |L.one|
    requires forall q: bool, k', c | 0 <= k' < |L.At(q)| ::
              (c in L'.At(q)[k'] <==> c in L.At(q)[k'] || (c == d && q == st.part[d] && k' == st.gain[d] + st.pmax))
    ensures forall q: bool, k: int, c: nat | 0 <= k < |L'.At(q)| :: c in L'.At(q)[k] <==> Filed(r, q, k, c)
  {
    forall q: bool, k': int, c: nat | 0 <= k' < |L'.At(q)| ensures c in L'.At(q)[k'] <==> Filed(r, q, k', c) {
      assert c in L.At(q)[k'] <==> Filed(st, q, k', c);
    }
  }

  lemma PutUnlinked(g: Graph, st: Fm, r: Fm, L: Lists, d: nat)
    requires Sound(g, st, L) && d < |g.cells|
    requires -(st.pmax as int) <= st.gain[d] <= st.pmax
    requires r == st.(bl := r.bl, links := r.links, locked := st.locked[d := false]) && |r.links| == |st.links|
    requires forall m | 0 <= m < |st.links| && m !in L.At(st.part[d])[st.gain[d] + st.pmax] && m != d :: r.links[m] == st.links[m]
    ensures forall c | 0 <= c < |g.cells| && r.locked[c] :: r.links[c] == Unlinked
  {
    var p := st.part[d];
    var k: nat := st.gain[d] + st.pmax;
    forall c | 0 <= c < |g.cells| && r.locked[c] ensures r.links[c] == Unlinked {
      assert st.links[c] == Unlinked;
      assert c !in L.At(p)[k] by {
        assert c in L.At(p)[k] <==> Filed(st, p, k, c);
      }
    }
  }

  /** Removing a free cell from its slot and locking it keeps the lists sound. */
  lemma TakeSound(g: Graph, st: Fm, L: Lists, d: nat) returns (L': Lists)
    requires Sound(g, st, L) && d < |g.cells| && !st.locked[d]
    ensures var p := st.part[d];
            && Holds(st.bl.At(p), st.gain[d]) && GetNode(st.bl.At(p), st.gain[d]) != Null
            && Ref(st.links, st.links[d].prev) && Ref(st.links, st.links[d].next)
            && Sound(g, Take(st, d, p).(locked := st.locked[d := true]), L')
  {
    var p := st.part[d];
    var k: nat := st.gain[d] + st.pmax;
    assert InSlot(L.At(p), k, d) by {
      assert d in L.At(p)[k] <==> Filed(st, p, k, d);
    }
    L' := RemoveSide(st.bl, st.links, L, p, k, d);
    var r := Take(st, d, p).(locked := st.locked[d := true]);
    SidesRepr(r.bl, L', p);
    TakeMembers(st, r, L, L', d);
    TakeUnlinked(g, st, r, L, d);
  }

  lemma TakeMembers(st: Fm, r: Fm, L: Lists, L': Lists, d: nat)
    requires d < |st.part| && d < |st.gain| && |st.locked| == |st.part| && |st.gain| == |st.part|
    requires r == st.(bl := r.bl, links := r.links, locked := st.locked[d := true])
    requires forall q: bool, k: int, c: nat | 0 <= k < |L.At(q)| :: c in L.At(q)[k] <==> Filed(st, q, k, c)
    requires |L'.zero| == |L.zero| && |L'.one| == |L.one|
    requires forall q: bool, k', c | 0 <= k' < |L.At(q)| :: (c in L'.At(q)[k'] <==> c in L.At(q)[k'] && c != d)
    ensures forall q: bool, k: int, c: nat | 0 <= k < |L'.At(q)| :: c in L'.At(q)[k] <==> Filed(r, q, k, c)
  {
    forall q: bool, k': int, c: nat | 0 <= k' < |L'.At(q)| ensures c in L'.At(q)[k'] <==> Filed(r, q, k', c) {
      assert c in L.At(q)[k'] <==> Filed(st, q, k', c);
    }
  }

  lemma TakeUnlinked(g: Graph, st: Fm, r: Fm, L: Lists, d: nat)
    requires Sound(g, st, L) && d < |g.cells| && !st.locked[d]
    requires r == st.(bl := r.bl, links := r.links, locked := st.locked[d := true]) && |r.links| == |st.links|
    requires r.links[d] == Unlinked
    requires forall m | 0 <= m < |st.links| && m !in L.At(st.part[d])[st.gain[d] + st.pmax] :: r.links[m] == st.links[m]
    ensures forall c | 0 <= c < |g.cells| && r.locked[c] :: r.links[c] == Unlinked
  {
    var p := st.part[d];
    var k: nat := st.gain[d] + st.pmax;
    forall c | 0 <= c < |g.cells| && r.locked[c] && c != d ensures r.links[c] == Unlinked {
      assert st.links[c] == Unlinked;
      assert c !in L.At(p)[k] by {
        assert c in L.At(p)[k] <==> Filed(st, p, k, c);
      }
    }
  }

  /**
   * `initialize_bucket_list`: both bucket lists are cleared and every cell is
   * appended to its side's list at its gain, in id order. Every cell must be
   * free with no links (as after construction or a completed pass) and every
   * gain must have a slot.
   */
  method InitializeBucketList(g: Graph, st: Fm) returns (r: Fm, ghost L: Lists)
    requires Shape(g, st)
    requires forall c | 0 <= c < |g.cells| :: !st.locked[c] && st.links[c] == Unlinked
    requires forall c | 0 <= c < |g.cells| :: -(st.pmax as int) <= st.gain[c] <= st.pmax
    ensures Sound(g, r, L)
    ensures r.bl.zero.size + r.bl.one.size == |g.cells|
    ensures r == st.(bl := r.bl, links := r.links)
  {
    var empty: seq<seq<nat>> := seq(2 * st.pmax + 1, _ => []);
    L := Two(empty, empty);
    ClearRepr(st.bl.zero);
    ClearRepr(st.bl.one);
    r := st.(bl := Two(Clear(st.bl.zero), Clear(st.bl.one)));
    EmptySound(g, r, L);
    for c := 0 to |g.cells|
      invariant Sound(g, LockFrom(r, c), L)
      invariant r == st.(bl := r.bl, links := r.links)
      invariant r.bl.zero.size + r.bl.one.size == c
    {
      r, L := FileCell(g, r, L, c);
    }
    assert LockFrom(r, |g.cells|) == r;
  }

  /** The body of the `initialize_bucket_list` loop: cell `c` is appended to its side's list at its gain. */
  method FileCell(g: Graph, st: Fm, ghost L: Lists, c: nat) returns (r: Fm, ghost L': Lists)
    requires Sound(g, LockFrom(st, c), L) && c < |g.cells| && !st.locked[c]
    requires -(st.pmax as int) <= st.gain[c] <= st.pmax
    ensures Sound(g, LockFrom(r, c + 1), L')
    ensures r == st.(bl := r.bl, links := r.links)
    ensures r.bl.zero.size + r.bl.one.size == st.bl.zero.size + st.bl.one.size + 1
  {
    L' := FileNext(g, st, L, c);
    r := Put(st, c, st.part[c]);
    assert r.bl.At(st.part[c]).size + r.bl.At(!st.part[c]).size == r.bl.zero.size + r.bl.one.size;
  }

  /** With every cell locked and no links, empty bucket lists are sound. */
  lemma EmptySound(g: Graph, st: Fm, L: Lists)
    requires Shape(g, st) && forall c | 0 <= c < |g.cells| :: st.links[c] == Unlinked
    requires L.zero == L.one == seq(2 * st.pmax + 1, _ => [])
    requires Repr(st.bl.zero, L.zero) && Repr(st.bl.one, L.one)
    ensures Sound(g, LockFrom(st, 0), L)
  {
    assert Chains(st.links, Flat(L)) by {
      assert forall k | 0 <= k < |Flat(L)| :: Flat(L)[k] == [];
    }
  }

  /** One step of `initialize_bucket_list`: filing cell `c` extends the filed prefix by one. */
  lemma FileNext(g: Graph, st: Fm, L: Lists, c: nat) returns (L': Lists)
    requires Sound(g, LockFrom(st, c), L) && c < |g.cells| && !st.locked[c]
    requires -(st.pmax as int) <= st.gain[c] <= st.pmax
    ensures Holds(st.bl.At(st.part[c]), st.gain[c]) && Ref(st.links, GetNode(st.bl.At(st.part[c]), st.gain[c]))
    ensures Sound(g, LockFrom(Put(st, c, st.part[c]), c + 1), L')
  {
    var s0 := LockFrom(st, c);
    L' := PutSound(g, s0, L, c);
    assert Put(s0, c, st.part[c]).(locked := s0.locked[c := false]) == LockFrom(Put(st, c, st.part[c]), c + 1);
  }
}
