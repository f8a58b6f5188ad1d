/**
  The driver codecs as the templates run them: loops over linked, mutable nodes and a queue.
  Go, JavaScript and Python share the two loops and differ only in their guards.
 */
module TreeHeap {
  import opened Prelude
  import opened TreeCodec

  class TreeNode {
    var val: Slot
    var left: TreeNode?
    var right: TreeNode?

    constructor (v: Slot)
      ensures val == v && left == null && right == null
    {
      val := v;
      left := null;
      right := null;
    }
  }

  /** The nodes reachable from `n` spell out the tree `t`. */
  ghost predicate Represents(n: TreeNode?, t: Tree)
    reads *
    decreases t
  {
    match t
    case Leaf => n == null
    case Branch(v, l, r) =>
      n != null && n.val == Some(v) && Represents(n.left, l) && Represents(n.right, r)
  }

  // ---------------------------------------------------------------------------
  // Serializer
  // ---------------------------------------------------------------------------

  method SerializeTree(root: TreeNode?, ghost t: Tree) returns (result: seq<Slot>)
    requires Represents(root, t)
    ensures result == Serialize(t)
  {
    if root == null {
      return [];
    }
    result := [];
    var queue: seq<TreeNode?> := [root];
    ghost var trees := [t];
    while |queue| > 0
      invariant |trees| == |queue|
      invariant forall k :: 0 <= k < |queue| ==> Represents(queue[k], trees[k])
      invariant result + LevelOrder(trees) == LevelOrder([t])
      decreases ForestSize(trees)
    {
      var node := queue[0];
      ghost var rest := LevelOrder(Advance(trees));
      assert Represents(node, trees[0]);
      assert result + LevelOrder(trees) == result + [Val(trees[0])] + rest;
      queue := queue[1..];
      if node != null {
        result := result + [node.val];
        queue := queue + [node.left, node.right];
      } else {
        result := result + [None];
      }
      trees := Advance(trees);
    }
    assert result == LevelOrder([t]);
    while |result| > 0 && result[|result| - 1].None?
      invariant TrimNulls(result) == TrimNulls(LevelOrder([t]))
      decreases |result|
    {
      result := result[..|result| - 1];
    }
  }

  // ---------------------------------------------------------------------------
  // Deserializer: the bookkeeping that ties nodes to the tree they will become
  // ---------------------------------------------------------------------------

  /** Node number k, in order of creation, and the numbers of its children. */
  datatype Cell = Cell(val: int, left: Option<nat>, right: Option<nat>)

  function NewCell(s: Slot): seq<Cell> {
    if s.None? then [] else [Cell(s.value, None, None)]
  }

  /** The table after node `p` has read slots `l` and `r`. */
  function Fill(cells: seq<Cell>, p: nat, l: Slot, r: Slot): seq<Cell>
    requires p < |cells|
  {
    cells[p := cells[p].(left := if l.Some? then Some(|cells|) else None,
                         right := if r.Some? then Some(|cells| + Present(l)) else None)]
    + NewCell(l) + NewCell(r)
  }

  predicate Later(link: Option<nat>, k: nat, n: nat) {
    link.Some? ==> k < link.value < n
  }

  /** Children are created after their parent; nodes from `p` on have none yet. */
  predicate WellLinked(cells: seq<Cell>, p: nat) {
    && p <= |cells|
    && (forall k :: 0 <= k < |cells| ==> Later(cells[k].left, k, |cells|))
    && (forall k :: 0 <= k < |cells| ==> Later(cells[k].right, k, |cells|))
    && (forall k :: p <= k < |cells| ==> cells[k].left.None? && cells[k].right.None?)
  }

  /** The tree under node `k` once the queued nodes `p..` receive the subtrees `c`. */
  ghost function Build(cells: seq<Cell>, p: nat, c: seq<Tree>, k: nat): Tree
    requires WellLinked(cells, p) && k < |cells| && |c| == 2 * (|cells| - p)
    decreases |cells| - k, 1
  {
    if k >= p then Branch(cells[k].val, c[2 * (k - p)], c[2 * (k - p) + 1])
    else Branch(cells[k].val, Follow(cells, p, c, k, cells[k].left), Follow(cells, p, c, k, cells[k].right))
  }

  ghost function Follow(cells: seq<Cell>, p: nat, c: seq<Tree>, k: nat, link: Option<nat>): Tree
    requires WellLinked(cells, p) && k < |cells| && |c| == 2 * (|cells| - p)
    requires Later(link, k, |cells|)
    decreases |cells| - k, 0
  {
    if link.None? then Leaf else Build(cells, p, c, link.value)
  }

  lemma FillIsWellLinked(cells: seq<Cell>, p: nat, l: Slot, r: Slot)
    requires WellLinked(cells, p) && p < |cells|
    ensures WellLinked(Fill(cells, p, l, r), p + 1)
    ensures |Fill(cells, p, l, r)| == |cells| + Present(l) + Present(r)
  {
  }

  /** The head of the queue, whose children have just been numbered, becomes the same tree. */
  lemma FillKeepsHead(cells: seq<Cell>, p: nat, l: Slot, r: Slot, f: seq<Tree>)
    requires WellLinked(cells, p) && p < |cells|
    requires WellLinked(Fill(cells, p, l, r), p + 1)
    requires |f| == 2 * (|cells| - p - 1 + Present(l) + Present(r))
    ensures |Fill(cells, p, l, r)| == |cells| + Present(l) + Present(r)
    ensures Build(Fill(cells, p, l, r), p + 1, f, p)
         == Build(cells, p, Regroup(|cells| - p, l, r, f), p)
  {
    var cells' := Fill(cells, p, l, r);
    var n := |cells|;
    var c := Regroup(n - p, l, r, f);
    assert Follow(cells', p + 1, f, p, cells'[p].left) == c[0];
    assert Follow(cells', p + 1, f, p, cells'[p].right) == c[1];
  }

  /** Reading one node's two slots does not change the tree any node will become. */
  lemma {:induction false} FillKeepsTrees(cells: seq<Cell>, p: nat, l: Slot, r: Slot, f: seq<Tree>, k: nat)
    requires WellLinked(cells, p) && p < |cells| && k < |cells|
    requires |f| == 2 * (|cells| - p - 1 + Present(l) + Present(r))
    ensures WellLinked(Fill(cells, p, l, r), p + 1)
    ensures |Fill(cells, p, l, r)| == |cells| + Present(l) + Present(r)
    ensures Build(Fill(cells, p, l, r), p + 1, f, k)
         == Build(cells, p, Regroup(|cells| - p, l, r, f), k)
    decreases |cells| - k
  {
    FillIsWellLinked(cells, p, l, r);
    if k < p {
      if cells[k].left.Some? {
        FillKeepsTrees(cells, p, l, r, f, cells[k].left.value);
      }
      if cells[k].right.Some? {
        FillKeepsTrees(cells, p, l, r, f, cells[k].right.value);
      }
    } else if k == p {
      FillKeepsHead(cells, p, l, r, f);
    }
  }

  ghost function Target(nodes: seq<TreeNode>, link: Option<nat>): TreeNode? {
    if link.Some? && link.value < |nodes| then nodes[link.value] else null
  }

  ghost predicate Agrees(nodes: seq<TreeNode>, n: TreeNode, c: Cell)
    reads n
  {
    n.left == Target(nodes, c.left) && n.right == Target(nodes, c.right)
  }

  ghost predicate Distinct(nodes: seq<TreeNode>) {
    forall j, k :: 0 <= j < k < |nodes| ==> nodes[j] != nodes[k]
  }

  /** The heap agrees with the table: `nodes[k]` is node k and points where cell k says. */
  ghost predicate Linked(nodes: seq<TreeNode>, cells: seq<Cell>)
    reads nodes
  {
    && |nodes| == |cells|
    && (forall k :: 0 <= k < |nodes| ==> Agrees(nodes, nodes[k], cells[k]))
    && (forall k :: 0 < k < |nodes| ==> nodes[k].val == Some(cells[k].val))
  }

  /** `node` has read slots `l` and `r`, and `added` holds the children it got. */
  ghost predicate HasRead(node: TreeNode, l: Slot, r: Slot, added: seq<TreeNode>)
    reads node, added
  {
    && |added| == Present(l) + Present(r)
    && node.left == (if l.Some? then added[0] else null)
    && node.right == (if r.Some? then added[Present(l)] else null)
    && (forall k :: 0 <= k < |added| ==> added[k].left == null && added[k].right == null)
    && (l.Some? ==> added[0].val == l)
    && (r.Some? ==> added[Present(l)].val == r)
  }

  /** After such a turn the heap agrees with the filled table. */
  lemma LinkedFill(nodes: seq<TreeNode>, added: seq<TreeNode>, cells: seq<Cell>,
                                      p: nat, l: Slot, r: Slot)
    requires p < |nodes| == |cells| && WellLinked(cells, p)
    requires forall k :: 0 <= k < |nodes| && k != p ==> Agrees(nodes, nodes[k], cells[k])
    requires forall k :: 0 < k < |nodes| ==> nodes[k].val == Some(cells[k].val)
    requires HasRead(nodes[p], l, r, added)
    ensures Linked(nodes + added, Fill(cells, p, l, r))
  {
    var all, cells' := nodes + added, Fill(cells, p, l, r);
    assert |all| == |cells'|;
    forall k | 0 <= k < |all|
      ensures Agrees(all, all[k], cells'[k])
    {
      if k < |nodes| && k != p {
        assert all[k] == nodes[k] && cells'[k] == cells[k];
        assert Agrees(nodes, nodes[k], cells[k]);
      } else if k >= |nodes| {
        assert all[k] == added[k - |nodes|];
      }
    }
  }

  /** When the queued nodes get nothing more, every node represents its tree. */
  lemma {:induction false} LinkedRepresents(nodes: seq<TreeNode>, cells: seq<Cell>, p: nat, k: nat)
    requires Linked(nodes, cells) && WellLinked(cells, p) && k < |cells|
    ensures var t := Build(cells, p, Leaves(2 * (|cells| - p)), k);
            && t.val == cells[k].val
            && Represents(nodes[k].left, t.left)
            && Represents(nodes[k].right, t.right)
    decreases |cells| - k
  {
    if k < p {
      if cells[k].left.Some? {
        LinkedRepresents(nodes, cells, p, cells[k].left.value);
      }
      if cells[k].right.Some? {
        LinkedRepresents(nodes, cells, p, cells[k].right.value);
      }
    }
  }

  /** The slots from position `i` on. */
  function Unread(arr: seq<Slot>, i: nat): seq<Slot> {
    if i < |arr| then arr[i..] else []
  }

  /** The tree the root will become when the slots from `i` on are still unread. */
  ghost function Outcome(cells: seq<Cell>, p: nat, arr: seq<Slot>, i: nat): Tree
    requires WellLinked(cells, p) && 0 < |cells|
  {
    Build(cells, p, ReadForest(|cells| - p, Unread(arr, i)), 0)
  }

  lemma TurnKeepsOutcome(cells: seq<Cell>, p: nat, arr: seq<Slot>, i: nat)
    requires WellLinked(cells, p) && p < |cells| && i < |arr|
    ensures var cells' := Fill(cells, p, arr[i], SlotAt(arr, i + 1));
            WellLinked(cells', p + 1) && Outcome(cells', p + 1, arr, i + 2) == Outcome(cells, p, arr, i)
  {
    var l, r := arr[i], SlotAt(arr, i + 1);
    var a := Unread(arr, i);
    assert a[0] == l && SlotAt(a, 1) == r && AfterPair(a) == Unread(arr, i + 2);
    FillKeepsTrees(cells, p, l, r, ReadForest(Queued(|cells| - p, a), AfterPair(a)), 0);
  }

  /** The table and the number of served nodes when the loop stops. */
  ghost function Scan(cells: seq<Cell>, p: nat, arr: seq<Slot>, i: nat): (seq<Cell>, nat)
    decreases |arr| - i
  {
    if p >= |cells| || i >= |arr| then (cells, p)
    else Scan(Fill(cells, p, arr[i], SlotAt(arr, i + 1)), p + 1, arr, i + 2)
  }

  lemma {:induction false} ScanKeepsOutcome(cells: seq<Cell>, p: nat, arr: seq<Slot>, i: nat)
    requires WellLinked(cells, p) && 0 < |cells|
    ensures var (done, q) := Scan(cells, p, arr, i);
            && WellLinked(done, q) && 0 < |done|
            && Build(done, q, Leaves(2 * (|done| - q)), 0) == Outcome(cells, p, arr, i)
    decreases |arr| - i
  {
    if p < |cells| && i < |arr| {
      TurnKeepsOutcome(cells, p, arr, i);
      ScanKeepsOutcome(Fill(cells, p, arr[i], SlotAt(arr, i + 1)), p + 1, arr, i + 2);
    }
  }

  const START := [Cell(0, None, None)]

  /** When the loop stops, the root's children represent what the array describes. */
  lemma {:induction false} ScanRepresents(nodes: seq<TreeNode>, cells: seq<Cell>, p: nat, arr: seq<Slot>)
    requires 0 < |arr| && Linked(nodes, cells) && (cells, p) == Scan(START, 0, arr, 1)
    ensures 0 < |nodes|
    ensures Represents(nodes[0].left, ReadForest(1, arr[1..])[0])
    ensures Represents(nodes[0].right, ReadForest(1, arr[1..])[1])
  {
    assert arr[1..] == Unread(arr, 1);
    ScanKeepsOutcome(START, 0, arr, 1);
    LinkedRepresents(nodes, cells, p, 0);
  }

  lemma DistinctAppend(nodes: seq<TreeNode>, added: seq<TreeNode>)
    requires Distinct(nodes) && Distinct(added)
    requires forall k :: 0 <= k < |added| ==> added[k] !in nodes
    ensures Distinct(nodes + added)
  {
  }

  // ---------------------------------------------------------------------------
  // Deserializer
  // ---------------------------------------------------------------------------

  /** One turn of the queue loop: `node` reads slots `i` and `i + 1`. */
  method ReadPair(node: TreeNode, arr: seq<Slot>, i: nat) returns (added: seq<TreeNode>)
    requires i < |arr| && node.left == null && node.right == null
    modifies node
    ensures node.val == old(node.val)
    ensures HasRead(node, arr[i], SlotAt(arr, i + 1), added)
    ensures forall k :: 0 <= k < |added| ==> fresh(added[k])
    ensures Distinct(added)
  {
    added := [];
    if arr[i].Some? {
      node.left := new TreeNode(arr[i]);
      added := added + [node.left];
    }
    if i + 1 < |arr| && arr[i + 1].Some? {
      node.right := new TreeNode(arr[i + 1]);
      added := added + [node.right];
    }
  }

  /** The queue loop of all three deserializers, below a root that has been created. */
  method ReadBelow(root: TreeNode, arr: seq<Slot>)
    requires |arr| > 0 && root.left == null && root.right == null
    modifies root
    ensures root.val == old(root.val)
    ensures Represents(root.left, ReadForest(1, arr[1..])[0])
    ensures Represents(root.right, ReadForest(1, arr[1..])[1])
  {
    var queue := [root];
    var i := 1;
    ghost var nodes := [root];
    ghost var cells, p := START, 0;
    while |queue| > 0 && i < |arr|
      invariant root.val == old(root.val) && 0 < |nodes| && nodes[0] == root
      invariant forall k :: 0 < k < |nodes| ==> fresh(nodes[k])
      invariant Distinct(nodes) && Linked(nodes, cells) && WellLinked(cells, p)
      invariant queue == nodes[p..]
      invariant Scan(cells, p, arr, i) == Scan(START, 0, arr, 1)
      decreases |arr| - i
    {
      ghost var l, r := arr[i], SlotAt(arr, i + 1);
      FillIsWellLinked(cells, p, l, r);
      var node := queue[0];
      assert Agrees(nodes, node, cells[p]);
      var added := ReadPair(node, arr, i);
      LinkedFill(nodes, added, cells, p, l, r);
      DistinctAppend(nodes, added);
      assert (nodes + added)[p + 1..] == queue[1..] + added;
      queue := queue[1..] + added;
      i := i + 2;
      nodes, cells, p := nodes + added, Fill(cells, p, l, r), p + 1;
    }
    ScanRepresents(nodes, cells, p, arr);
  }

  method DeserializeTreeGo(arr: seq<Slot>) returns (root: TreeNode?)
    ensures Represents(root, Deserialize(arr))
  {
    if |arr| == 0 {
      return null;
    }
    if arr[0].None? {
      return null;
    }
    root := new TreeNode(arr[0]);
    ReadBelow(root, arr);
  }

  method DeserializeTreeJavaScript(arr: seq<Slot>) returns (root: TreeNode?)
    ensures Represents(root, Deserialize(arr))
  {
    if |arr| == 0 || arr[0] == None {
      return null;
    }
    root := new TreeNode(arr[0]);
    ReadBelow(root, arr);
  }

  method DeserializeTreePython(arr: seq<Slot>) returns (root: TreeNode?)
    ensures var t := DeserializePython(arr);
            match t
            case PyNone => root == null
            case PyRoot(v, l, r) =>
              root != null && root.val == v && Represents(root.left, l) && Represents(root.right, r)
  {
    if |arr| == 0 {
      return null;
    }
    root := new TreeNode(arr[0]);
    ReadBelow(root, arr);
  }
}
