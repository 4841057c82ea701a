/**
 * The B*-tree of the floorplanner (`BSTree.h`, `BSTree.cpp` and the `Node`
 * of `module.h`) as an index arena.  Every node lives in `nodes`; its
 * `left`, `right` and `parent` pointers are arena indices or `Null`.  A left
 * child is the block placed to the right of its parent, a right child the
 * block placed on top of it.
 *
 * Pointer walks terminate in the source only when the links are acyclic; the
 * model states that with a rank per node that strictly drops from a node to
 * each of its children.
 */
module BStar {
  import opened Arena
  import opened Wrappers
  import opened Blocks

  /** A tree node: the id of the block it stands for, the wanted orientation, and three links. */
  datatype Node = Node(id: int, orien: bool, left: int, right: int, parent: int)

  /** A tree: its node arena, the root, the cost annotation and the visit counter. */
  datatype Bst = Bst(nodes: seq<Node>, root: int, cost: real, numNodes: int)

  /** The shape of a subtree: labels and left/right structure, without parent links. */
  datatype Tree = Nil | Br(id: int, orien: bool, left: Tree, right: Tree)

  predicate Ref(nodes: seq<Node>, i: int) {
    0 <= i < |nodes|
  }

  /** A pointer value: null or a node of the arena. */
  predicate Link(nodes: seq<Node>, i: int) {
    i == Null || Ref(nodes, i)
  }

  /** Every pointer of every node is null or a node of the arena. */
  predicate Linked(nodes: seq<Node>) {
    forall i | 0 <= i < |nodes| ::
      Link(nodes, nodes[i].left) && Link(nodes, nodes[i].right) && Link(nodes, nodes[i].parent)
  }

  /** A node with all three links null. */
  predicate Detached(d: Node) {
    d.left == Null && d.right == Null && d.parent == Null
  }

  /** The child slot chosen by the `LR` flag: the right child when set, the left one otherwise. */
  function Slot(d: Node, lr: bool): int {
    if lr then d.right else d.left
  }

  /** A new tree: no root, cost `INT_MAX`.  The source leaves the visit counter unset; it is 0 here. */
  function New(): (t: Bst)
    ensures t.root == Null && t.nodes == []
    ensures t.cost == IntMax as real
  {
    Bst([], Null, IntMax as real, 0)
  }

  /**
   * `Node(Block)`: a new detached node carrying the block's id and current
   * orientation; the block records the node as its own.
   */
  function NodeFor(t: Bst, blocks: seq<Block>, b: nat): (r: (Bst, seq<Block>))
    requires b < |blocks|
    ensures var k := |t.nodes|;
      |r.0.nodes| == k + 1 && r.0.nodes[..k] == t.nodes &&
      r.0.nodes[k].id == blocks[b].id && r.0.nodes[k].orien == Orien(blocks[b]) &&
      Detached(r.0.nodes[k]) && r.0 == t.(nodes := r.0.nodes)
    ensures |r.1| == |blocks| && r.1[b].node == |t.nodes|
    ensures r.1[b] == blocks[b].(node := r.1[b].node)
    ensures forall j | 0 <= j < |blocks| && j != b :: r.1[j] == blocks[j]
  {
    var d := Node(blocks[b].id, Orien(blocks[b]), Null, Null, Null);
    (t.(nodes := t.nodes + [d]), blocks[b := blocks[b].(node := |t.nodes|)])
  }

  /** `Node(Node)`: a detached node with the same id and orientation; no block is told about it. */
  function Clone(d: Node): (r: Node)
    ensures r.id == d.id && r.orien == d.orien && Detached(r)
  {
    Node(d.id, d.orien, Null, Null, Null)
  }

  // ---------------------------------------------------------------------
  // Local consistency of the links
  // ---------------------------------------------------------------------

  /**
   * Node `i` agrees with its neighbours: each child points back at it, its
   * two children differ, and its parent holds it in one of the two slots.
   */
  ghost predicate Tied(nodes: seq<Node>, i: int)
    requires Linked(nodes) && Ref(nodes, i)
  {
    var d := nodes[i];
    (d.left != Null ==> nodes[d.left].parent == i && d.left != d.right) &&
    (d.right != Null ==> nodes[d.right].parent == i) &&
    (d.parent != Null ==> nodes[d.parent].left == i || nodes[d.parent].right == i)
  }

  /** Parent and child links agree everywhere and the root has no parent. */
  ghost predicate Consistent(t: Bst) {
    Linked(t.nodes) &&
    (t.root == Null || (Ref(t.nodes, t.root) && t.nodes[t.root].parent == Null)) &&
    forall i | 0 <= i < |t.nodes| :: Tied(t.nodes, i)
  }

  // ---------------------------------------------------------------------
  // remove
  // ---------------------------------------------------------------------

  /** `remove` declines the root and nodes with two children. */
  predicate Kept(t: Bst, n: nat)
    requires Ref(t.nodes, n)
  {
    (t.nodes[n].left != Null && t.nodes[n].right != Null) || n == t.root
  }

  /** Clearing all three links of node `n`. */
  function Unlink(nodes: seq<Node>, n: nat): (r: seq<Node>)
    requires n < |nodes|
    ensures |r| == |nodes| && Detached(r[n])
    ensures r[n].id == nodes[n].id && r[n].orien == nodes[n].orien
    ensures forall i | 0 <= i < |nodes| && i != n :: r[i] == nodes[i]
  {
    nodes[n := nodes[n].(parent := Null, left := Null, right := Null)]
  }

  /** Making `p` the parent of `c`. */
  function Adopt(nodes: seq<Node>, c: nat, p: int): (r: seq<Node>)
    requires c < |nodes|
    ensures |r| == |nodes| && r[c].parent == p
    ensures r[c] == nodes[c].(parent := p)
    ensures forall i | 0 <= i < |nodes| && i != c :: r[i] == nodes[i]
  {
    nodes[c := nodes[c].(parent := p)]
  }

  /**
   * The pointer updates of a removal: slot `lr` of parent `p` gets `c`, a
   * non-null `c` gets `p` as parent, and `n` loses all three links.
   */
  function Hand(nodes: seq<Node>, n: nat, p: nat, c: int, lr: bool): (r: seq<Node>)
    requires n < |nodes| && p < |nodes| && Link(nodes, c)
    ensures |r| == |nodes| && Detached(r[n])
    ensures Linked(nodes) ==> Linked(r)
  {
    var q := nodes[p];
    var ns := nodes[p := if lr then q.(right := c) else q.(left := c)];
    Unlink(if c == Null then ns else Adopt(ns, c, p), n)
  }

  /**
   * `BST::remove`: the root and a node with two children are left alone and
   * `false` is returned.  A leaf is cut from its parent; a node with one
   * child hands that child its slot in the parent.  A parent that points at
   * neither child slot is the source's fatal exit.  The source reads the
   * parent, so a non-root node with at most one child must have one.
   */
  function Remove(t: Bst, n: nat): (res: Result<(Bst, bool), string>)
    requires Ref(t.nodes, n) && Linked(t.nodes)
    requires Kept(t, n) || Ref(t.nodes, t.nodes[n].parent)
    ensures Kept(t, n) ==> res == Ok((t, false))
    ensures res.Ok? && !Kept(t, n) ==>
      var r := res.value.0;
      res.value.1 && |r.nodes| == |t.nodes| && Detached(r.nodes[n]) && Linked(r.nodes) &&
      r == t.(nodes := r.nodes)
    ensures res.Fatal? ==>
      var d := t.nodes[n];
      var q := t.nodes[d.parent];
      !Kept(t, n) && (d.left != Null || d.right != Null) && q.left != n && q.right != n
  {
    if Kept(t, n) then Ok((t, false))
    else
      var d := t.nodes[n];
      var p := d.parent;
      var q := t.nodes[p];
      if d.left == Null && d.right == Null then
        Ok((t.(nodes := Hand(t.nodes, n, p, Null, q.left != n)), true))
      else
        var c := if d.left != Null then d.left else d.right;
        if q.left == n then
          Ok((t.(nodes := Hand(t.nodes, n, p, c, false)), true))
        else if q.right == n then
          Ok((t.(nodes := Hand(t.nodes, n, p, c, true)), true))
        else
          Fatal("Error: node parent does not point to node")
  }

  /** The child that takes over the slot of a removed node with at most one child. */
  function Heir(d: Node): int {
    if d.left != Null then d.left else d.right
  }

  /** Where a pointer leads once `n` is spliced out: to `n`'s heir instead of to `n`. */
  function Past(x: int, n: nat, heir: int): int {
    if x == n then heir else x
  }

  /**
   * `after` is `before` with node `n` spliced out: every other node keeps its
   * label, a pointer to `n` now leads to `n`'s heir, the heir's parent is
   * `n`'s parent, and `n` is detached.
   */
  ghost predicate Bypassed(before: seq<Node>, after: seq<Node>, n: nat)
    requires n < |before|
  {
    var d := before[n];
    |after| == |before| && Detached(after[n]) &&
    forall i | 0 <= i < |before| && i != n ::
      after[i].id == before[i].id && after[i].orien == before[i].orien &&
      after[i].left == Past(before[i].left, n, Heir(d)) &&
      after[i].right == Past(before[i].right, n, Heir(d)) &&
      after[i].parent == Past(before[i].parent, n, d.parent)
  }

  /**
   * On a consistent tree `remove` never takes the fatal exit; when it removes
   * the node it splices it out and the tree stays consistent.
   */
  lemma RemoveSplices(t: Bst, n: nat)
    requires Consistent(t) && Ref(t.nodes, n)
    requires Kept(t, n) || Ref(t.nodes, t.nodes[n].parent)
    ensures Remove(t, n).Ok?
    ensures !Kept(t, n) ==> Bypassed(t.nodes, Remove(t, n).value.0.nodes, n)
    ensures Consistent(Remove(t, n).value.0)
  {
    if !Kept(t, n) {
      var d := t.nodes[n];
      var p := d.parent;
      assert Tied(t.nodes, n);
      assert t.nodes[p].left == n || t.nodes[p].right == n;
      var r := Remove(t, n).value.0;
      var h := Heir(d);
      assert h != Null ==> t.nodes[h].parent == n;
      forall i | 0 <= i < |t.nodes| && i != n
        ensures r.nodes[i].id == t.nodes[i].id && r.nodes[i].orien == t.nodes[i].orien
        ensures r.nodes[i].left == Past(t.nodes[i].left, n, h)
        ensures r.nodes[i].right == Past(t.nodes[i].right, n, h)
        ensures r.nodes[i].parent == Past(t.nodes[i].parent, n, p)
      {
        assert Tied(t.nodes, i);
        if t.nodes[i].left == n || t.nodes[i].right == n {
          assert i == p;
        }
        if t.nodes[i].parent == n {
          assert i == d.left || i == d.right;
          assert i == h;
        }
      }
      assert Bypassed(t.nodes, r.nodes, n);
      BypassKeepsConsistent(t, r, n);
    }
  }

  /** Splicing a node out of a consistent tree, without touching the root, leaves it consistent. */
  lemma BypassKeepsConsistent(t: Bst, r: Bst, n: nat)
    requires Consistent(t) && Ref(t.nodes, n) && n != t.root
    requires t.nodes[n].left == Null || t.nodes[n].right == Null
    requires Ref(t.nodes, t.nodes[n].parent)
    requires Bypassed(t.nodes, r.nodes, n) && r.root == t.root
    ensures Consistent(r)
  {
    assert Tied(t.nodes, n);
    assert Linked(r.nodes) by {
      forall i | 0 <= i < |r.nodes|
        ensures Link(r.nodes, r.nodes[i].left) && Link(r.nodes, r.nodes[i].right)
        ensures Link(r.nodes, r.nodes[i].parent)
      {
      }
    }
    if t.root != Null {
      assert Tied(t.nodes, t.root);
    }
    forall i | 0 <= i < |r.nodes|
      ensures Tied(r.nodes, i)
    {
      if i != n {
        BypassTied(t, r, n, i);
      }
    }
  }

  /** One node other than the spliced one still agrees with its neighbours. */
  lemma BypassTied(t: Bst, r: Bst, n: nat, i: nat)
    requires Consistent(t) && Ref(t.nodes, n) && n != t.root
    requires t.nodes[n].left == Null || t.nodes[n].right == Null
    requires Ref(t.nodes, t.nodes[n].parent) && Tied(t.nodes, n)
    requires Bypassed(t.nodes, r.nodes, n) && Linked(r.nodes)
    requires Ref(t.nodes, i) && i != n
    ensures Tied(r.nodes, i)
  {
    var d := t.nodes[n];
    var p := d.parent;
    var h := Heir(d);
    assert Tied(t.nodes, i);
    var a := t.nodes[i];
    var b := r.nodes[i];
    if b.left != Null {
      if a.left == n {
        assert b.left == h && i == p;
      } else {
        assert Tied(t.nodes, a.left);
      }
    }
    if b.right != Null {
      if a.right == n {
        assert b.right == h && i == p;
      } else {
        assert Tied(t.nodes, a.right);
      }
    }
    if b.parent != Null {
      if a.parent == n {
        assert b.parent == p && i == h;
        assert Tied(t.nodes, p);
      } else {
        assert Tied(t.nodes, a.parent);
      }
    }
  }

  // ---------------------------------------------------------------------
  // append
  // ---------------------------------------------------------------------

  /**
   * `BST::append`: with no parent the node becomes the root.  Otherwise the
   * chosen slot of the parent must be empty; it is filled and the node's
   * parent set, else `false` comes back and nothing changes.
   */
  function Append(t: Bst, p: int, n: nat, lr: bool): (r: (Bst, bool))
    requires Ref(t.nodes, n) && Link(t.nodes, p)
    ensures |r.0.nodes| == |t.nodes|
    ensures r.1 <==> p == Null || Slot(t.nodes[p], lr) == Null
    ensures !r.1 ==> r.0 == t
    ensures p == Null ==> r.0 == t.(root := n)
    ensures p != Null && r.1 ==>
      Slot(r.0.nodes[p], lr) == n && r.0.nodes[n].parent == p &&
      Slot(r.0.nodes[p], !lr) == Slot(t.nodes[p], !lr) &&
      r.0.nodes[p].id == t.nodes[p].id && r.0.nodes[p].orien == t.nodes[p].orien &&
      r.0.nodes[n] == t.nodes[n].(parent := p, left := r.0.nodes[n].left, right := r.0.nodes[n].right) &&
      r.0 == t.(nodes := r.0.nodes)
    ensures forall i | 0 <= i < |t.nodes| && i != p && i != n :: r.0.nodes[i] == t.nodes[i]
    ensures Linked(t.nodes) ==> Linked(r.0.nodes)
  {
    if p == Null then (t.(root := n), true)
    else if Slot(t.nodes[p], lr) != Null then (t, false)
    else
      var q := t.nodes[p];
      var ns := t.nodes[p := if lr then q.(right := n) else q.(left := n)];
      (t.(nodes := ns[n := ns[n].(parent := p)]), true)
  }

  /** Hanging a parentless non-root node under a node keeps a consistent tree consistent. */
  lemma AppendKeepsConsistent(t: Bst, p: nat, n: nat, lr: bool)
    requires Consistent(t) && Ref(t.nodes, n) && Ref(t.nodes, p)
    requires t.nodes[n].parent == Null && n != t.root
    ensures Consistent(Append(t, p, n, lr).0)
  {
    var r := Append(t, p, n, lr).0;
    if r != t {
      assert Tied(t.nodes, p) && Tied(t.nodes, n);
      forall i | 0 <= i < |r.nodes|
        ensures Tied(r.nodes, i)
      {
        assert Tied(t.nodes, i);
        var a := t.nodes[i];
        if a.left != Null {
          assert Tied(t.nodes, a.left);
        }
        if a.right != Null {
          assert Tied(t.nodes, a.right);
        }
        if a.parent != Null {
          assert Tied(t.nodes, a.parent);
        }
      }
      if t.root != Null {
        assert Tied(t.nodes, t.root);
      }
    }
  }

  /** Appending a removed leaf back into the slot it came from gives back the tree. */
  lemma LeafRoundTrip(t: Bst, n: nat)
    requires Consistent(t) && Ref(t.nodes, n) && n != t.root
    requires t.nodes[n].left == Null && t.nodes[n].right == Null
    requires Ref(t.nodes, t.nodes[n].parent)
    ensures var p := t.nodes[n].parent;
      var removed := Remove(t, n);
      removed.Ok? && removed.value.1 &&
      Append(removed.value.0, p, n, t.nodes[p].right == n) == (t, true)
  {
    var p := t.nodes[n].parent;
    assert Tied(t.nodes, n) && Tied(t.nodes, p);
    var r := Remove(t, n).value.0;
    var back := Append(r, p, n, t.nodes[p].right == n).0;
    assert back.nodes == t.nodes;
  }

  // ---------------------------------------------------------------------
  // rotate and swap
  // ---------------------------------------------------------------------

  /** `BST::rotate`: the node's wanted orientation flips; the tree is otherwise untouched. */
  function Rotate(t: Bst, n: nat): (r: Bst)
    requires Ref(t.nodes, n)
    ensures |r.nodes| == |t.nodes| && r == t.(nodes := r.nodes)
    ensures r.nodes[n].orien == !t.nodes[n].orien
    ensures r.nodes[n] == t.nodes[n].(orien := r.nodes[n].orien)
    ensures forall i | 0 <= i < |t.nodes| && i != n :: r.nodes[i] == t.nodes[i]
  {
    t.(nodes := t.nodes[n := t.nodes[n].(orien := !t.nodes[n].orien)])
  }

  lemma RotateTwice(t: Bst, n: nat)
    requires Ref(t.nodes, n)
    ensures Rotate(Rotate(t, n), n) == t
  {
  }

  /** The shape part of a node: its three links. */
  predicate SameLinks(a: Node, b: Node) {
    a.left == b.left && a.right == b.right && a.parent == b.parent
  }

  /**
   * `BST::swap`: the two nodes trade block id and orientation, so the two
   * blocks trade places in the tree while its shape stays as it was.
   */
  function Swap(t: Bst, n1: nat, n2: nat): (r: Bst)
    requires Ref(t.nodes, n1) && Ref(t.nodes, n2)
    ensures |r.nodes| == |t.nodes| && r == t.(nodes := r.nodes)
    ensures forall i | 0 <= i < |t.nodes| :: SameLinks(r.nodes[i], t.nodes[i])
    ensures r.nodes[n1].id == t.nodes[n2].id && r.nodes[n1].orien == t.nodes[n2].orien
    ensures r.nodes[n2].id == t.nodes[n1].id && r.nodes[n2].orien == t.nodes[n1].orien
    ensures forall i | 0 <= i < |t.nodes| && i != n1 && i != n2 :: r.nodes[i] == t.nodes[i]
  {
    var a := t.nodes[n1];
    var ns := t.nodes[n1 := a.(id := t.nodes[n2].id, orien := t.nodes[n2].orien)];
    t.(nodes := ns[n2 := ns[n2].(id := a.id, orien := a.orien)])
  }

  lemma SwapTwice(t: Bst, n1: nat, n2: nat)
    requires Ref(t.nodes, n1) && Ref(t.nodes, n2)
    ensures Swap(Swap(t, n1, n2), n1, n2) == t
  {
  }

  /** A swap keeps a consistent tree consistent. */
  lemma SwapKeepsConsistent(t: Bst, n1: nat, n2: nat)
    requires Consistent(t) && Ref(t.nodes, n1) && Ref(t.nodes, n2)
    ensures Consistent(Swap(t, n1, n2))
  {
    var r := Swap(t, n1, n2);
    forall i | 0 <= i < |r.nodes|
      ensures Tied(r.nodes, i)
    {
      assert Tied(t.nodes, i);
    }
  }

  // ---------------------------------------------------------------------
  // Ranks, shapes and traversals
  // ---------------------------------------------------------------------

  /** `c`, a child pointer of node `i`, is null or leads to a node of lower rank. */
  predicate Falls(nodes: seq<Node>, rank: seq<nat>, i: nat, c: int)
    requires |rank| == |nodes| && i < |nodes|
  {
    c == Null || (Ref(nodes, c) && rank[c] < rank[i])
  }

  /** Every child pointer drops in rank: the links form a forest. */
  predicate Ranked(nodes: seq<Node>, rank: seq<nat>) {
    |rank| == |nodes| &&
    forall i | 0 <= i < |nodes| ::
      Falls(nodes, rank, i, nodes[i].left) && Falls(nodes, rank, i, nodes[i].right)
  }

  /** Every right pointer drops in rank: walking right always stops. */
  predicate RightRanked(nodes: seq<Node>, rank: seq<nat>) {
    |rank| == |nodes| && forall i | 0 <= i < |nodes| :: Falls(nodes, rank, i, nodes[i].right)
  }

  /** Like `Ranked`, except that a node may also point at itself. */
  predicate Descends(nodes: seq<Node>, rank: seq<nat>) {
    |rank| == |nodes| &&
    forall i | 0 <= i < |nodes| ::
      (nodes[i].left == i || Falls(nodes, rank, i, nodes[i].left)) &&
      (nodes[i].right == i || Falls(nodes, rank, i, nodes[i].right))
  }

  /** The subtree below `n`. */
  ghost function View(nodes: seq<Node>, n: int, rank: seq<nat>): Tree
    requires Ranked(nodes, rank) && Link(nodes, n)
    decreases if n == Null then 0 else rank[n] + 1
  {
    if n == Null then Nil
    else Br(nodes[n].id, nodes[n].orien, View(nodes, nodes[n].left, rank), View(nodes, nodes[n].right, rank))
  }

  /** A pointer with a link of a node to itself read as null. */
  function Other(c: int, n: int): int {
    if c == n then Null else c
  }

  /** The nodes below `n` in pre-order (node, left subtree, right subtree); self links are not followed. */
  ghost function Preorder(nodes: seq<Node>, n: int, rank: seq<nat>): (r: seq<nat>)
    requires Descends(nodes, rank) && Link(nodes, n)
    ensures forall k | 0 <= k < |r| :: r[k] < |nodes|
    ensures n != Null ==> |r| > 0 && r[0] == n
    decreases if n == Null then 0 else rank[n] + 1
  {
    if n == Null then []
    else
      [n] + Preorder(nodes, Other(nodes[n].left, n), rank) + Preorder(nodes, Other(nodes[n].right, n), rank)
  }

  /** No node below `n` points at itself. */
  ghost predicate Clean(nodes: seq<Node>, n: int, rank: seq<nat>)
    requires Descends(nodes, rank) && Link(nodes, n)
    decreases if n == Null then 0 else rank[n] + 1
  {
    n == Null ||
    (nodes[n].left != n && nodes[n].right != n &&
     Clean(nodes, nodes[n].left, rank) && Clean(nodes, nodes[n].right, rank))
  }

  /** The right spine from `n`: `n`, its right child, that node's right child, and so on. */
  ghost function Spine(nodes: seq<Node>, n: nat, rank: seq<nat>): (r: seq<nat>)
    requires RightRanked(nodes, rank) && Ref(nodes, n)
    ensures |r| > 0 && r[0] == n
    ensures forall k | 0 <= k < |r| :: Ref(nodes, r[k]) && (k < |r| - 1 ==> nodes[r[k]].right == r[k + 1])
    ensures Ref(nodes, r[|r| - 1]) && nodes[r[|r| - 1]].right == Null
    decreases rank[n]
  {
    if nodes[n].right == Null then [n] else [n] + Spine(nodes, nodes[n].right, rank)
  }

  /** `get_rightmost`: the end of the root's right spine, a node without a right child. */
  method Rightmost(t: Bst, ghost rank: seq<nat>) returns (n: nat)
    requires Ref(t.nodes, t.root) && RightRanked(t.nodes, rank)
    ensures Ref(t.nodes, n) && t.nodes[n].right == Null
    ensures var s := Spine(t.nodes, t.root, rank); n == s[|s| - 1]
  {
    n := t.root;
    while t.nodes[n].right != Null
      invariant Ref(t.nodes, n)
      invariant var s := Spine(t.nodes, n, rank); s[|s| - 1] == Spine(t.nodes, t.root, rank)[|Spine(t.nodes, t.root, rank)| - 1]
      decreases rank[n]
    {
      n := t.nodes[n].right;
    }
  }

  // ---------------------------------------------------------------------
  // The visit counter
  // ---------------------------------------------------------------------

  /** `reset_num_nodes`. */
  function ResetNumNodes(t: Bst): (r: Bst)
    ensures r.numNodes == 0 && r == t.(numNodes := 0)
  {
    t.(numNodes := 0)
  }

  /** `inc_node`: one more node visited. */
  function IncNode(t: Bst): (r: Bst)
    ensures r.numNodes == t.numNodes + 1 && r == t.(numNodes := r.numNodes)
  {
    t.(numNodes := t.numNodes + 1)
  }

  /** `k` calls of `inc_node`. */
  function IncNodes(t: Bst, k: nat): Bst {
    if k == 0 then t else IncNode(IncNodes(t, k - 1))
  }

  /** A reset followed by `k` visits leaves the counter at `k`, and nothing else changed. */
  lemma {:induction false} CountAfterReset(t: Bst, k: nat)
    ensures IncNodes(ResetNumNodes(t), k) == t.(numNodes := k)
  {
    if k > 0 {
      CountAfterReset(t, k - 1);
    }
  }

  // ---------------------------------------------------------------------
  // copy and replace
  // ---------------------------------------------------------------------

  /** `c`, a child pointer of node `i`, is null or a later node below `hi`. */
  predicate Ahead(c: int, i: nat, hi: nat) {
    c == Null || i < c < hi
  }

  /** Every node in `[lo, hi)` points only forward, to nodes before `hi`. */
  predicate Closed(nodes: seq<Node>, lo: nat, hi: nat) {
    lo <= hi <= |nodes| &&
    forall i | lo <= i < hi :: Ahead(nodes[i].left, i, hi) && Ahead(nodes[i].right, i, hi)
  }

  /** The shape below `n` following forward pointers only: the shape of a copy, whose nodes precede their children. */
  ghost function Forward(nodes: seq<Node>, n: int): Tree
    decreases |nodes| - n
  {
    if !Ref(nodes, n) then Nil
    else
      var d := nodes[n];
      Br(d.id, d.orien,
         if d.left > n then Forward(nodes, d.left) else Nil,
         if d.right > n then Forward(nodes, d.right) else Nil)
  }

  /** The forward shape of a closed block of nodes depends only on that block's labels and child links. */
  lemma {:induction false} ForwardFrame(a: seq<Node>, b: seq<Node>, n: nat, hi: nat)
    requires Closed(a, n, hi) && hi <= |b|
    requires forall i | n <= i < hi ::
      a[i].id == b[i].id && a[i].orien == b[i].orien && a[i].left == b[i].left && a[i].right == b[i].right
    requires n < hi
    ensures Forward(a, n) == Forward(b, n)
    decreases hi - n
  {
    var d := a[n];
    if d.left != Null {
      assert Closed(a, d.left, hi);
      ForwardFrame(a, b, d.left, hi);
    }
    if d.right != Null {
      assert Closed(a, d.right, hi);
      ForwardFrame(a, b, d.right, hi);
    }
  }

  /**
   * `BST::copy`: a new node for `o` is appended under `np` in slot `lr`, and
   * the children of `o` are copied below it, left into the left slot and right
   * into the right slot.
   */
  function Copy(src: seq<Node>, o: int, rank: seq<nat>, t: Bst, np: int, lr: bool): (r: Bst)
    requires Ranked(src, rank) && Link(src, o) && Link(t.nodes, np)
    ensures o == Null ==> r == t
    ensures |r.nodes| >= |t.nodes| && (o != Null ==> |r.nodes| > |t.nodes|)
    ensures forall i | 0 <= i < |t.nodes| && i != np :: r.nodes[i] == t.nodes[i]
    ensures np != Null ==> (r.root == t.root &&
      r.nodes[np] == t.nodes[np].(left := r.nodes[np].left, right := r.nodes[np].right) &&
      Slot(r.nodes[np], !lr) == Slot(t.nodes[np], !lr) &&
      Slot(r.nodes[np], lr) == (if o != Null && Slot(t.nodes[np], lr) == Null then |t.nodes| else Slot(t.nodes[np], lr)))
    ensures np == Null ==> r.root == (if o == Null then t.root else |t.nodes|)
    ensures r.cost == t.cost && r.numNodes == t.numNodes
    decreases if o == Null then 0 else rank[o] + 1
  {
    if o == Null then t
    else
      var k := |t.nodes|;
      var t1 := t.(nodes := t.nodes + [Clone(src[o])]);
      var t2 := Append(t1, np, k, lr).0;
      var t3 := Copy(src, src[o].left, rank, t2, k, false);
      Copy(src, src[o].right, rank, t3, k, true)
  }

  /**
   * The nodes a copy adds form a closed block whose first node is the copy's
   * root, and the shape below it is exactly the shape below the original.
   */
  lemma {:induction false} CopyShape(src: seq<Node>, o: nat, rank: seq<nat>, t: Bst, np: int, lr: bool)
    requires Ranked(src, rank) && Ref(src, o) && Link(t.nodes, np)
    ensures var r := Copy(src, o, rank, t, np, lr);
      Closed(r.nodes, |t.nodes|, |r.nodes|) && Forward(r.nodes, |t.nodes|) == View(src, o, rank)
    decreases rank[o] + 1
  {
    var k := |t.nodes|;
    var t2 := Append(t.(nodes := t.nodes + [Clone(src[o])]), np, k, lr).0;
    var t3 := Copy(src, src[o].left, rank, t2, k, false);
    var t4 := Copy(src, src[o].right, rank, t3, k, true);
    var mid := |t3.nodes|;
    assert Copy(src, o, rank, t, np, lr) == t4;
    CopyRoot(src, o, rank, t, np, lr);
    if src[o].left != Null {
      assert Closed(t4.nodes, k + 1, mid) && Forward(t4.nodes, k + 1) == View(src, src[o].left, rank) by {
        CopyShape(src, src[o].left, rank, t2, k, false);
        ForwardFrame(t3.nodes, t4.nodes, k + 1, mid);
      }
    }
    if src[o].right != Null {
      assert Closed(t4.nodes, mid, |t4.nodes|) && Forward(t4.nodes, mid) == View(src, src[o].right, rank) by {
        CopyShape(src, src[o].right, rank, t3, k, true);
      }
    }
    CopyJoin(src, o, rank, t4, k, mid);
  }

  /** Adding a detached node keeps a consistent tree consistent. */
  lemma AddDetached(t: Bst, d: Node)
    requires Consistent(t) && Detached(d)
    ensures Consistent(t.(nodes := t.nodes + [d]))
  {
    var r := t.(nodes := t.nodes + [d]);
    forall i | 0 <= i < |r.nodes|
      ensures Tied(r.nodes, i)
    {
      if i < |t.nodes| {
        assert Tied(t.nodes, i);
      }
    }
  }

  /**
   * A copy keeps a consistent tree consistent: each new node's parent link
   * is set by `append` to the node whose slot it fills.
   */
  lemma {:induction false} CopyConsistent(src: seq<Node>, o: int, rank: seq<nat>, t: Bst, np: int, lr: bool)
    requires Ranked(src, rank) && Link(src, o) && Link(t.nodes, np) && Consistent(t)
    ensures Consistent(Copy(src, o, rank, t, np, lr))
    decreases if o == Null then 0 else rank[o] + 1
  {
    if o != Null {
      var k := |t.nodes|;
      var t1 := t.(nodes := t.nodes + [Clone(src[o])]);
      AddDetached(t, Clone(src[o]));
      var t2 := Append(t1, np, k, lr).0;
      if np != Null {
        AppendKeepsConsistent(t1, np, k, lr);
      }
      var t3 := Copy(src, src[o].left, rank, t2, k, false);
      CopyConsistent(src, src[o].left, rank, t2, k, false);
      CopyConsistent(src, src[o].right, rank, t3, k, true);
    }
  }

  /** The copy of `o` sits at the first new slot; its children are the roots of the two sub-copies. */
  lemma CopyRoot(src: seq<Node>, o: nat, rank: seq<nat>, t: Bst, np: int, lr: bool)
    requires Ranked(src, rank) && Ref(src, o) && Link(t.nodes, np)
    ensures var k := |t.nodes|;
      var t2 := Append(t.(nodes := t.nodes + [Clone(src[o])]), np, k, lr).0;
      var t3 := Copy(src, src[o].left, rank, t2, k, false);
      var t4 := Copy(src, src[o].right, rank, t3, k, true);
      |t2.nodes| == k + 1 && k + 1 <= |t3.nodes| <= |t4.nodes| &&
      t4.nodes[k].id == src[o].id && t4.nodes[k].orien == src[o].orien &&
      t4.nodes[k].left == (if src[o].left == Null then Null else k + 1) &&
      t4.nodes[k].right == (if src[o].right == Null then Null else |t3.nodes|) &&
      (src[o].right != Null ==> |t3.nodes| < |t4.nodes|) &&
      (forall i | k < i < |t3.nodes| :: t4.nodes[i] == t3.nodes[i])
  {
  }

  /** A node pointing forward to two closed blocks that follow it closes the whole range. */
  lemma CopyJoin(src: seq<Node>, o: nat, rank: seq<nat>, t4: Bst, k: nat, mid: nat)
    requires Ranked(src, rank) && Ref(src, o)
    requires k < mid <= |t4.nodes|
    requires t4.nodes[k].id == src[o].id && t4.nodes[k].orien == src[o].orien
    requires t4.nodes[k].left == (if src[o].left == Null then Null else k + 1)
    requires t4.nodes[k].right == (if src[o].right == Null then Null else mid)
    requires src[o].left == Null ==> mid == k + 1
    requires src[o].left != Null ==>
      Closed(t4.nodes, k + 1, mid) && Forward(t4.nodes, k + 1) == View(src, src[o].left, rank)
    requires src[o].right == Null ==> mid == |t4.nodes|
    requires src[o].right != Null ==>
      mid < |t4.nodes| && Closed(t4.nodes, mid, |t4.nodes|) && Forward(t4.nodes, mid) == View(src, src[o].right, rank)
    ensures Closed(t4.nodes, k, |t4.nodes|) && Forward(t4.nodes, k) == View(src, o, rank)
  {
  }

  /**
   * `BST::replace`: the tree's nodes are discarded, the other tree is copied
   * in from its root, and its cost is taken over.  The arena drops every
   * node; the source frees those reachable from the root.  When the other
   * tree is empty nothing is copied and the root keeps its old value.
   */
  function ReplaceAsWritten(t: Bst, src: Bst, rank: seq<nat>): (r: Bst)
    requires Ranked(src.nodes, rank) && Link(src.nodes, src.root)
    ensures r.cost == src.cost && r.numNodes == t.numNodes
    ensures src.root == Null ==> r.nodes == [] && r.root == t.root
    ensures src.root != Null ==> r.root == 0
  {
    Copy(src.nodes, src.root, rank, t.(nodes := []), Null, false).(cost := src.cost)
  }

  /** On an empty source tree the as-written replace leaves the root pointing at a discarded node. */
  lemma ReplaceEmptyDangles()
    ensures var t := Bst([Node(0, false, Null, Null, Null)], 0, 0.0, 0);
      var r := ReplaceAsWritten(t, New(), []);
      r.root == 0 && !Link(r.nodes, r.root)
  {
  }

  /**
   * `BST::replace` with the root cleared together with the nodes: the other
   * tree is copied in, its cost taken over, and the root is never dangling.
   */
  function Replace(t: Bst, src: Bst, rank: seq<nat>): (r: Bst)
    requires Ranked(src.nodes, rank) && Link(src.nodes, src.root)
    ensures r.cost == src.cost && r.numNodes == t.numNodes
    ensures Link(r.nodes, r.root)
    ensures src.root == Null ==> r.root == Null && r.nodes == []
    ensures src.root != Null ==> r.root == 0
  {
    Copy(src.nodes, src.root, rank, t.(nodes := [], root := Null), Null, false).(cost := src.cost)
  }

  /**
   * After `replace` the tree is a copy of the other one: the same shape, ids,
   * orientations and left/right placement, with every node before its
   * children, and parent links that agree with the child links, so the tree
   * can be edited again.
   */
  lemma ReplaceCopies(t: Bst, src: Bst, rank: seq<nat>)
    requires Ranked(src.nodes, rank) && Link(src.nodes, src.root)
    ensures var r := Replace(t, src, rank);
      Closed(r.nodes, 0, |r.nodes|) && Forward(r.nodes, r.root) == View(src.nodes, src.root, rank)
    ensures Consistent(Replace(t, src, rank))
  {
    var empty := t.(nodes := [], root := Null);
    if src.root != Null {
      CopyShape(src.nodes, src.root, rank, empty, Null, false);
    }
    CopyConsistent(src.nodes, src.root, rank, empty, Null, false);
  }
}
