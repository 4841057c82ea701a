/**
 * The gain bucket list of the partitioner (`BucketList` in partitioner.h).
 *
 * One side's bucket list is a dense array of slots, slot `g + offset` for gain
 * `g`. A slot holds the node most recently appended with that gain, or Null;
 * earlier nodes of the same gain hang off it through their `prev` links, and
 * each node's `next` points back toward the slot. Nodes are the cells' bucket
 * nodes, so their links live in one arena shared by both sides.
 *
 * The abstraction used by the proofs is a ghost list per slot: `L[k][0]` is
 * the node in slot k, and `L[k][j + 1]` is the `prev` of `L[k][j]`.
 */
module Buckets {
  import opened Arena

  /** The `prev`/`next` links of one bucket node. */
  datatype Link = Link(prev: int, next: int)

  /** A node on no list. */
  const Unlinked: Link := Link(Null, Null)

  /** One side's bucket list. `size` counts the nodes it holds. */
  datatype Bucket = Bucket(slots: seq<int>, size: int, offset: int)

  /** Gain `g` has a slot. */
  predicate Holds(b: Bucket, g: int) {
    0 <= g + b.offset < |b.slots|
  }

  /** `x` is Null or a node of the arena. */
  predicate Ref(lk: seq<Link>, x: int) {
    x == Null || 0 <= x < |lk|
  }

  /**
   * The default constructor: no slots at all. `size` is not initialised by the
   * source, so it is whatever the caller passes.
   */
  function Default(size: int): (b: Bucket)
    ensures forall g :: !Holds(b, g)
  {
    Bucket([], size, 0)
  }

  /**
   * `BucketList(pmax)`: 2·pmax + 1 empty slots with offset pmax, so exactly the
   * gains -pmax..pmax have a slot. `size` is left uninitialised by the source.
   */
  function New(pmax: nat, size: int): (b: Bucket)
    ensures forall g :: Holds(b, g) <==> -(pmax as int) <= g <= pmax
    ensures forall k | 0 <= k < |b.slots| :: b.slots[k] == Null
  {
    Bucket(seq(2 * pmax + 1, _ => Null), size, pmax)
  }

  /** The node in the slot of gain `g` (`get_node`). */
  function GetNode(b: Bucket, g: int): int
    requires Holds(b, g)
  {
    b.slots[g + b.offset]
  }

  /** Whether some node has gain `g` (`find_gain`). */
  function FindGain(b: Bucket, g: int): (r: bool)
    requires Holds(b, g)
    ensures r <==> GetNode(b, g) != Null
  {
    b.slots[g + b.offset] != Null
  }

  /** `clear`: every slot empty and the size zero. */
  function Clear(b: Bucket): (r: Bucket)
    ensures |r.slots| == |b.slots| && r.offset == b.offset && r.size == 0
    ensures forall k | 0 <= k < |r.slots| :: r.slots[k] == Null
  {
    Bucket(seq(|b.slots|, _ => Null), 0, b.offset)
  }

  /** Links node `n` after the old slot node `h`: `h.next` becomes n, then `n.prev` becomes h. */
  function Attach(lk: seq<Link>, h: nat, n: nat): (r: seq<Link>)
    requires h < |lk| && n < |lk|
    ensures |r| == |lk| && r[n].prev == h && (h != n ==> r[h].next == n)
    ensures forall m | 0 <= m < |lk| && m != h && m != n :: r[m] == lk[m]
  {
    var lk1 := lk[h := lk[h].(next := n)];
    lk1[n := lk1[n].(prev := h)]
  }

  /** `append(n, g)`: n becomes the slot's node and the size grows by one. */
  function Append(b: Bucket, lk: seq<Link>, n: nat, g: int): (r: (Bucket, seq<Link>))
    requires Holds(b, g) && n < |lk| && Ref(lk, GetNode(b, g))
    ensures r.0.size == b.size + 1 && r.0.offset == b.offset
    ensures r.0.slots == b.slots[g + b.offset := n]
    ensures |r.1| == |lk|
    ensures GetNode(b, g) != Null ==> r.1[n].prev == GetNode(b, g)
    ensures GetNode(b, g) != Null && GetNode(b, g) != n ==> r.1[GetNode(b, g)].next == n
    ensures GetNode(b, g) == Null ==> r.1 == lk
    ensures forall m | 0 <= m < |lk| && m != n && m != GetNode(b, g) :: r.1[m] == lk[m]
  {
    var k := g + b.offset;
    var h := b.slots[k];
    var lk' := if h != Null then Attach(lk, h, n) else lk;
    (b.(slots := b.slots[k := n], size := b.size + 1), lk')
  }

  /**
   * The link surgery of `remove`, case by case as the source does it: the only
   * node, the slot node (no `next`), the oldest node (no `prev`), or a middle node.
   */
  function Detach(lk: seq<Link>, n: nat): (r: seq<Link>)
    requires n < |lk| && Ref(lk, lk[n].prev) && Ref(lk, lk[n].next)
    ensures |r| == |lk| && r[n] == Unlinked
    ensures forall m | 0 <= m < |lk| && m != n && m != lk[n].prev && m != lk[n].next :: r[m] == lk[m]
  {
    var l := lk[n];
    if l.prev == Null && l.next == Null then lk
    else if l.next == Null then
      var lk1 := lk[n := lk[n].(prev := Null)];
      lk1[l.prev := lk1[l.prev].(next := Null)]
    else if l.prev == Null then
      var lk1 := lk[l.next := lk[l.next].(prev := Null)];
      lk1[n := lk1[n].(next := Null)]
    else
      var lk1 := lk[l.next := lk[l.next].(prev := l.prev)];
      var lk2 := lk1[l.prev := lk1[l.prev].(next := l.next)];
      var lk3 := lk2[n := lk2[n].(next := Null)];
      lk3[n := lk3[n].(prev := Null)]
  }

  /**
   * `remove(n, g)`: the slot must be non-empty (an assertion in the source).
   * The slot passes to n's `prev` exactly when n has no `next`, i.e. is the slot's
   * node; n ends with no links and the size shrinks by one.
   */
  function Remove(b: Bucket, lk: seq<Link>, n: nat, g: int): (r: (Bucket, seq<Link>))
    requires Holds(b, g) && GetNode(b, g) != Null
    requires n < |lk| && Ref(lk, lk[n].prev) && Ref(lk, lk[n].next)
    ensures r.0.size == b.size - 1 && r.0.offset == b.offset
    ensures r.0.slots == b.slots[g + b.offset := if lk[n].next == Null then lk[n].prev else GetNode(b, g)]
    ensures |r.1| == |lk| && r.1[n] == Unlinked
  {
    var k := g + b.offset;
    var l := lk[n];
    var slot := if l.next == Null then l.prev else b.slots[k];
    (b.(slots := b.slots[k := slot], size := b.size - 1), Detach(lk, n))
  }

  // ---------------------------------------------------------------------------
  // The list abstraction

  /** The node at the front of a slot list, or Null. */
  function Head(s: seq<nat>): int {
    if s == [] then Null else s[0]
  }

  /** `s` without its `j`-th node. */
  function Del(s: seq<nat>, j: nat): (r: seq<nat>)
    requires j < |s|
    ensures |r| == |s| - 1
    ensures forall i | 0 <= i < j :: r[i] == s[i]
    ensures forall i | j <= i < |r| :: r[i] == s[i + 1]
  {
    s[..j] + s[j + 1..]
  }

  /** The node behind position `j` of a slot list (toward older appends), or Null. */
  function Behind(s: seq<nat>, j: nat): int
    requires j < |s|
  {
    if j + 1 < |s| then s[j + 1] else Null
  }

  /** The node ahead of position `j` of a slot list (toward the slot), or Null. */
  function Ahead(s: seq<nat>, j: nat): int
    requires j < |s|
  {
    if j == 0 then Null else s[j - 1]
  }

  /** The links thread the slot list `s`: `prev` goes behind, `next` goes ahead. */
  ghost predicate Chain(lk: seq<Link>, s: seq<nat>) {
    && (forall j | 0 <= j < |s| :: s[j] < |lk|)
    && (forall j {:trigger lk[s[j]]} | 0 <= j < |s| :: lk[s[j]] == Link(Behind(s, j), Ahead(s, j)))
  }

  /** No node is on two lists, or twice on one. */
  ghost predicate Disjoint(L: seq<seq<nat>>) {
    && (forall k | 0 <= k < |L| :: Distinct(L[k]))
    && (forall k1, k2, x | 0 <= k1 < |L| && 0 <= k2 < |L| && k1 != k2 && x in L[k1] :: x !in L[k2])
  }

  /** Every list of the family is threaded by the links, and the lists are disjoint. */
  ghost predicate Chains(lk: seq<Link>, L: seq<seq<nat>>) {
    (forall k | 0 <= k < |L| :: Chain(lk, L[k])) && Disjoint(L)
  }

  /** Number of nodes over all lists. */
  function Total(L: seq<seq<nat>>): nat {
    if L == [] then 0 else |L[0]| + Total(L[1..])
  }

  /** The slots of `b` are the fronts of the lists `L`, and `size` counts their nodes. */
  ghost predicate Repr(b: Bucket, L: seq<seq<nat>>) {
    && |b.slots| == |L|
    && (forall k | 0 <= k < |L| :: b.slots[k] == Head(L[k]))
    && b.size == Total(L)
  }

  /** `n` is on none of the lists. */
  ghost predicate Off(L: seq<seq<nat>>, n: nat) {
    forall k | 0 <= k < |L| :: n !in L[k]
  }

  lemma {:induction false} TotalUpdate(L: seq<seq<nat>>, k: nat, s: seq<nat>)
    requires k < |L|
    ensures Total(L[k := s]) == Total(L) - |L[k]| + |s|
    decreases |L|
  {
    if k > 0 {
      assert L[k := s][1..] == L[1..][k - 1 := s];
      TotalUpdate(L[1..], k - 1, s);
    }
  }

  lemma {:induction false} TotalZero(L: seq<seq<nat>>)
    ensures Total(L) == 0 <==> forall k | 0 <= k < |L| :: L[k] == []
    decreases |L|
  {
    if L != [] {
      TotalZero(L[1..]);
      if Total(L) == 0 {
        forall k | 0 <= k < |L| ensures L[k] == [] {
          if k > 0 {
            assert L[k] == L[1..][k - 1];
          }
        }
      }
      if forall k | 0 <= k < |L| :: L[k] == [] {
        forall k | 0 <= k < |L[1..]| ensures L[1..][k] == [] {
          assert L[1..][k] == L[k + 1];
        }
      }
    }
  }

  /** A bucket list holds no node exactly when its size is zero. */
  lemma EmptyIffZero(b: Bucket, L: seq<seq<nat>>)
    requires Repr(b, L)
    ensures b.size == 0 <==> forall k | 0 <= k < |b.slots| :: b.slots[k] == Null
  {
    TotalZero(L);
    if forall k | 0 <= k < |b.slots| :: b.slots[k] == Null {
      forall k | 0 <= k < |L| ensures L[k] == [] {
        assert Head(L[k]) == Null;
      }
    }
  }

  /** After `clear` the bucket list represents empty lists. */
  lemma ClearRepr(b: Bucket)
    ensures Repr(Clear(b), seq(|b.slots|, _ => []))
  {
    var L: seq<seq<nat>> := seq(|b.slots|, _ => []);
    TotalZero(L);
  }

  /** A list's links stay valid when no node on it changes its links. */
  lemma ChainFrame(lk: seq<Link>, lk': seq<Link>, s: seq<nat>)
    requires Chain(lk, s) && |lk'| == |lk|
    requires forall j | 0 <= j < |s| :: lk'[s[j]] == lk[s[j]]
    ensures Chain(lk', s)
  {
  }

  /** Every list not touched at index `k` keeps its links when only nodes of `L[k]` (and `n`) change. */
  lemma OthersFrame(lk: seq<Link>, lk': seq<Link>, L: seq<seq<nat>>, k: nat, n: nat)
    requires Chains(lk, L) && k < |L| && |lk'| == |lk|
    requires Off(L, n) || n in L[k]
    requires forall m | 0 <= m < |lk| && m !in L[k] && m != n :: lk'[m] == lk[m]
    ensures forall k' | 0 <= k' < |L| && k' != k :: Chain(lk', L[k'])
  {
    forall k' | 0 <= k' < |L| && k' != k ensures Chain(lk', L[k']) {
      forall j | 0 <= j < |L[k']| ensures lk'[L[k'][j]] == lk[L[k'][j]] {
        var m := L[k'][j];
        assert m in L[k'];
        assert m !in L[k];
      }
      ChainFrame(lk, lk', L[k']);
    }
  }

  /** Deleting a node keeps the family disjoint. */
  lemma DisjointDel(L: seq<seq<nat>>, k: nat, j: nat)
    requires Disjoint(L) && k < |L| && j < |L[k]|
    ensures Disjoint(L[k := Del(L[k], j)])
  {
    var s := Del(L[k], j);
    assert forall x | x in s :: x in L[k];
    assert Distinct(s) by {
      forall a, c | 0 <= a < c < |s| ensures s[a] != s[c] {
        var a' := if a < j then a else a + 1;
        var c' := if c < j then c else c + 1;
        assert s[a] == L[k][a'] && s[c] == L[k][c'];
      }
    }
  }

  /** Putting an outside node in front of a list keeps the family disjoint. */
  lemma DisjointCons(L: seq<seq<nat>>, k: nat, n: nat)
    requires Disjoint(L) && k < |L| && Off(L, n)
    ensures Disjoint(L[k := [n] + L[k]])
  {
    var s := [n] + L[k];
    assert forall x | x in s :: x == n || x in L[k];
    assert Distinct(s) by {
      forall a, c | 0 <= a < c < |s| ensures s[a] != s[c] {
        assert s[c] == L[k][c - 1];
        if a > 0 {
          assert s[a] == L[k][a - 1];
        }
      }
    }
  }

  /** Detaching the only node of its list. */
  lemma DetachOnly(lk: seq<Link>, s: seq<nat>)
    requires Chain(lk, s) && |s| == 1
    ensures lk[s[0]] == Unlinked && Detach(lk, s[0]) == lk
  {
    assert lk[s[0]].prev == Null;
  }

  /** Detaching the front node: its `prev` becomes the front. */
  lemma DetachFront(lk: seq<Link>, s: seq<nat>)
    requires Chain(lk, s) && Distinct(s) && |s| > 1
    ensures lk[s[0]].next == Null && lk[s[0]].prev == s[1]
    ensures Ref(lk, lk[s[0]].prev) && Ref(lk, lk[s[0]].next)
    ensures Chain(Detach(lk, s[0]), s[1..])
  {
    var n := s[0];
    assert lk[n].prev == s[1] && s[1] < |lk|;
    var r := Detach(lk, n);
    var t := s[1..];
    assert r[s[1]] == lk[s[1]].(next := Null);
    forall i | 1 <= i < |t| ensures r[t[i]] == lk[t[i]] {
      assert t[i] == s[i + 1];
      assert s[i + 1] != s[0] && s[i + 1] != s[1];
    }
    forall i | 0 <= i < |t| ensures r[t[i]].prev == if i + 1 < |t| then t[i + 1] else Null {
      assert lk[s[i + 1]].prev == if i + 2 < |s| then s[i + 2] else Null;
    }
    forall i | 0 < i < |t| ensures r[t[i]].next == t[i - 1] {
      assert lk[s[i + 1]].next == s[i];
    }
  }

  /** Detaching the back node: the node in front of it loses its `prev`. */
  lemma DetachBack(lk: seq<Link>, s: seq<nat>)
    requires Chain(lk, s) && Distinct(s) && |s| > 1
    ensures var j := |s| - 1;
            && lk[s[j]].prev == Null && lk[s[j]].next == s[j - 1]
            && Ref(lk, lk[s[j]].prev) && Ref(lk, lk[s[j]].next)
            && Chain(Detach(lk, s[j]), s[..j])
  {
    var j := |s| - 1;
    var n := s[j];
    assert lk[n].prev == Null && lk[n].next == s[j - 1] && s[j - 1] < |lk|;
    var r := Detach(lk, n);
    var t := s[..j];
    assert r[s[j - 1]] == lk[s[j - 1]].(prev := Null);
    forall i | 0 <= i < j - 1 ensures r[t[i]] == lk[t[i]] {
      assert s[i] != s[j] && s[i] != s[j - 1];
    }
    forall i | 0 <= i < |t| ensures r[t[i]].prev == if i + 1 < |t| then t[i + 1] else Null {
      assert lk[s[i]].prev == s[i + 1];
    }
    forall i | 0 < i < |t| ensures r[t[i]].next == t[i - 1] {
      assert lk[s[i]].next == s[i - 1];
    }
  }

  /** Detaching a middle node splices its neighbours together. */
  lemma DetachMiddle(lk: seq<Link>, s: seq<nat>, j: nat)
    requires Chain(lk, s) && Distinct(s) && 0 < j < |s| - 1
    ensures lk[s[j]].prev == s[j + 1] && lk[s[j]].next == s[j - 1]
    ensures Ref(lk, lk[s[j]].prev) && Ref(lk, lk[s[j]].next)
    ensures Chain(Detach(lk, s[j]), Del(s, j))
  {
    var n := s[j];
    assert lk[n].prev == s[j + 1] && lk[n].next == s[j - 1] && s[j + 1] < |lk| && s[j - 1] < |lk|;
    var r := Detach(lk, n);
    var t := Del(s, j);
    assert s[j - 1] != n && s[j + 1] != n && s[j - 1] != s[j + 1];
    assert r[s[j - 1]] == lk[s[j - 1]].(prev := s[j + 1]);
    assert r[s[j + 1]] == lk[s[j + 1]].(next := s[j - 1]);
    forall i | 0 <= i < |t| && i != j - 1 && i != j ensures r[t[i]] == lk[t[i]] {
      var i' := if i < j then i else i + 1;
      assert t[i] == s[i'];
      assert s[i'] != s[j] && s[i'] != s[j - 1] && s[i'] != s[j + 1];
    }
    forall i | 0 <= i < |t| ensures r[t[i]].prev == if i + 1 < |t| then t[i + 1] else Null {
      if i < j - 1 {
        assert lk[s[i]].prev == s[i + 1];
      } else if i >= j {
        assert lk[s[i + 1]].prev == if i + 2 < |s| then s[i + 2] else Null;
      }
    }
    forall i | 0 < i < |t| ensures r[t[i]].next == t[i - 1] {
      if i < j {
        assert lk[s[i]].next == s[i - 1];
      } else if i > j {
        assert lk[s[i + 1]].next == s[i];
      }
    }
  }

  /** Detaching a node of any list: its list loses it, every other list is untouched. */
  lemma DetachChains(lk: seq<Link>, L: seq<seq<nat>>, k: nat, j: nat)
    requires Chains(lk, L) && k < |L| && j < |L[k]|
    ensures var n := L[k][j];
            && n < |lk| && Ref(lk, lk[n].prev) && Ref(lk, lk[n].next)
            && Chains(Detach(lk, n), L[k := Del(L[k], j)])
            && Head(Del(L[k], j)) == (if lk[n].next == Null then lk[n].prev else Head(L[k]))
            && (forall m | 0 <= m < |lk| && m !in L[k] :: Detach(lk, n)[m] == lk[m])
  {
    var s := L[k];
    var n := s[j];
    assert Chain(lk, s);
    assert Distinct(s);
    var t := Del(s, j);
    if |s| == 1 {
      DetachOnly(lk, s);
      assert t == [];
    } else if j == 0 {
      DetachFront(lk, s);
      assert t == s[1..];
    } else if j == |s| - 1 {
      DetachBack(lk, s);
      assert t == s[..j];
    } else {
      DetachMiddle(lk, s, j);
    }
    var r := Detach(lk, n);
    forall m | 0 <= m < |lk| && m !in L[k] ensures r[m] == lk[m] {
      assert lk[n].prev == Null || lk[n].prev in s;
      assert lk[n].next == Null || lk[n].next in s;
    }
    OthersFrame(lk, r, L, k, n);
    DisjointDel(L, k, j);
  }

  /** The list with an outside, link-free node attached in front is threaded by the new links. */
  lemma AttachChain(lk: seq<Link>, s: seq<nat>, n: nat)
    requires Chain(lk, s) && Distinct(s) && n < |lk| && n !in s && lk[n] == Unlinked
    ensures Ref(lk, Head(s))
    ensures Chain(if Head(s) != Null then Attach(lk, Head(s), n) else lk, [n] + s)
  {
    var r := if Head(s) != Null then Attach(lk, Head(s), n) else lk;
    var t := [n] + s;
    if s != [] {
      assert lk[s[0]] == Link(Behind(s, 0), Ahead(s, 0));
      assert r[s[0]] == lk[s[0]].(next := n);
      assert r[n] == Link(s[0], Null);
      forall i | 1 <= i < |t| ensures r[t[i]] == Link(Behind(t, i), Ahead(t, i)) {
        assert t[i] == s[i - 1];
        assert lk[s[i - 1]] == Link(Behind(s, i - 1), Ahead(s, i - 1));
        if i > 1 {
          assert s[i - 1] != s[0];
        }
      }
    }
  }

  /** Attaching an outside, link-free node in front of a list of the family. */
  lemma AttachChains(lk: seq<Link>, L: seq<seq<nat>>, k: nat, n: nat)
    requires Chains(lk, L) && k < |L| && n < |lk| && Off(L, n) && lk[n] == Unlinked
    ensures Ref(lk, Head(L[k]))
    ensures var r := if Head(L[k]) != Null then Attach(lk, Head(L[k]), n) else lk;
            && Chains(r, L[k := [n] + L[k]])
            && (forall m | 0 <= m < |lk| && m !in L[k] && m != n :: r[m] == lk[m])
  {
    var s := L[k];
    assert Chain(lk, s) && Distinct(s) && n !in s;
    AttachChain(lk, s, n);
    var r := if Head(s) != Null then Attach(lk, Head(s), n) else lk;
    assert Head(s) != Null ==> Head(s) in s;
    OthersFrame(lk, r, L, k, n);
    DisjointCons(L, k, n);
  }

  /** Removing the `j`-th node of a threaded list: its front moves to the node's `prev` exactly when the node has no `next`. */
  lemma DetachHead(lk: seq<Link>, s: seq<nat>, j: nat)
    requires Chain(lk, s) && j < |s|
    ensures s[j] < |lk| && Ref(lk, lk[s[j]].prev) && Ref(lk, lk[s[j]].next)
    ensures Head(Del(s, j)) == if lk[s[j]].next == Null then lk[s[j]].prev else Head(s)
  {
    assert lk[s[j]] == Link(Behind(s, j), Ahead(s, j));
    if j + 1 < |s| {
      assert s[j + 1] < |lk|;
    }
    if j > 0 {
      assert s[j - 1] < |lk|;
    }
  }

  /** `remove` on a represented bucket list removes the node from its slot's list. */
  lemma RemoveRepr(b: Bucket, lk: seq<Link>, L: seq<seq<nat>>, k: nat, j: nat)
    requires Repr(b, L) && k < |L| && j < |L[k]| && Chain(lk, L[k])
    ensures var n := L[k][j];
            && Holds(b, k - b.offset) && GetNode(b, k - b.offset) != Null
            && n < |lk| && Ref(lk, lk[n].prev) && Ref(lk, lk[n].next)
            && Repr(Remove(b, lk, n, k - b.offset).0, L[k := Del(L[k], j)])
  {
    DetachHead(lk, L[k], j);
    TotalUpdate(L, k, Del(L[k], j));
  }

  /** `append` on a represented bucket list puts the node in front of its slot's list. */
  lemma AppendRepr(b: Bucket, lk: seq<Link>, L: seq<seq<nat>>, k: nat, n: nat)
    requires Repr(b, L) && k < |L| && n < |lk| && Chain(lk, L[k])
    ensures && Holds(b, k - b.offset) && Ref(lk, GetNode(b, k - b.offset))
            && Repr(Append(b, lk, n, k - b.offset).0, L[k := [n] + L[k]])
  {
    if L[k] != [] {
      assert L[k][0] < |lk|;
    }
    TotalUpdate(L, k, [n] + L[k]);
  }

  /**
   * Appending a link-free node and removing it again at the same gain restores
   * the size, the slot and, when the old slot node had no `next`, every link.
   */
  lemma AppendThenRemove(b: Bucket, lk: seq<Link>, n: nat, g: int)
    requires Holds(b, g) && n < |lk| && Ref(lk, GetNode(b, g)) && lk[n] == Unlinked
    requires GetNode(b, g) != n && (GetNode(b, g) != Null ==> lk[GetNode(b, g)].next == Null)
    ensures var (b1, lk1) := Append(b, lk, n, g);
            && Holds(b1, g) && GetNode(b1, g) != Null
            && Ref(lk1, lk1[n].prev) && Ref(lk1, lk1[n].next)
            && Remove(b1, lk1, n, g) == (b, lk)
  {
    var (b1, lk1) := Append(b, lk, n, g);
    var h := GetNode(b, g);
    assert lk1[n].next == Null;
    var (b2, lk2) := Remove(b1, lk1, n, g);
    assert b2.slots == b.slots;
    if h != Null {
      assert lk2 == lk;
    }
  }
}
