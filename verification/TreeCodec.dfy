/**
  The level-order tree codec that the generated Go, JavaScript and Python drivers share.

  The serializer keeps nulls in its queue and trims trailing nulls; the deserializer queues
  only real nodes and reads two slots per queued node.  This module gives both as functions
  on values and proves exactly when they undo each other.  TreeHeap holds the loops over
  mutable nodes and ties them to these functions.
 */
module TreeCodec {
  import opened Prelude

  /** One entry of the decoded JSON array: a number or null. */
  type Slot = Option<int>

  datatype Tree = Leaf | Branch(val: int, left: Tree, right: Tree)

  /** What Python builds: only the root can carry None, because nothing checks it for null. */
  datatype PyTree = PyNone | PyRoot(val: Slot, left: Tree, right: Tree)

  // ---------------------------------------------------------------------------
  // Serialization
  // ---------------------------------------------------------------------------

  function Size(t: Tree): nat {
    match t
    case Leaf => 1
    case Branch(_, l, r) => 1 + Size(l) + Size(r)
  }

  function ForestSize(q: seq<Tree>): nat {
    if q == [] then 0 else Size(q[0]) + ForestSize(q[1..])
  }

  lemma {:induction false} ForestSizeAppend(p: seq<Tree>, q: seq<Tree>)
    ensures ForestSize(p + q) == ForestSize(p) + ForestSize(q)
  {
    if p == [] {
      assert p + q == q;
    } else {
      assert (p + q)[1..] == p[1..] + q;
      ForestSizeAppend(p[1..], q);
    }
  }

  function Val(t: Tree): Slot {
    if t.Leaf? then None else Some(t.val)
  }

  function Kids(t: Tree): seq<Tree> {
    if t.Leaf? then [] else [t.left, t.right]
  }

  lemma KidsAreSmaller(t: Tree)
    ensures ForestSize(Kids(t)) < Size(t)
  {
    if t.Branch? {
      assert Kids(t)[1..] == [t.right];
      assert ForestSize([t.right]) == Size(t.right) + ForestSize([]);
    }
  }

  /** The queue after its head has been taken off and its children appended. */
  function Advance(q: seq<Tree>): (q': seq<Tree>)
    requires q != []
    ensures ForestSize(q') < ForestSize(q)
  {
    ForestSizeAppend(q[1..], Kids(q[0]));
    KidsAreSmaller(q[0]);
    q[1..] + Kids(q[0])
  }

  /** Everything the serializer's queue loop emits, starting from queue `q`. */
  function LevelOrder(q: seq<Tree>): seq<Slot>
    decreases ForestSize(q)
  {
    if q == [] then [] else [Val(q[0])] + LevelOrder(Advance(q))
  }

  function TrimNulls(a: seq<Slot>): seq<Slot> {
    if a != [] && a[|a| - 1].None? then TrimNulls(a[..|a| - 1]) else a
  }

  function Serialize(t: Tree): seq<Slot> {
    if t.Leaf? then [] else TrimNulls(LevelOrder([t]))
  }

  // ---------------------------------------------------------------------------
  // Deserialization
  // ---------------------------------------------------------------------------

  function Leaves(n: nat): seq<Tree> {
    seq(n, _ => Leaf)
  }

  function Nulls(n: nat): seq<Slot> {
    seq(n, _ => None)
  }

  /** Slot `i`, where a slot past the end reads as null. */
  function SlotAt(a: seq<Slot>, i: nat): Slot {
    if i < |a| then a[i] else None
  }

  function Present(s: Slot): nat {
    if s.Some? then 1 else 0
  }

  /** What is left of a non-empty array after one node has read its two slots. */
  function AfterPair(a: seq<Slot>): (r: seq<Slot>)
    requires a != []
    ensures |r| < |a|
  {
    if |a| == 1 then [] else a[2..]
  }

  /** How many nodes are queued after the head of a queue of `n` has read its two slots. */
  function Queued(n: nat, a: seq<Slot>): nat
    requires 0 < n && a != []
  {
    n - 1 + Present(a[0]) + Present(SlotAt(a, 1))
  }

  function Attach(s: Slot, f: seq<Tree>, k: nat): Tree
    requires s.Some? ==> k + 1 < |f|
  {
    if s.None? then Leaf else Branch(s.value, f[k], f[k + 1])
  }

  /**
    The subtrees of a queue of `n` nodes, given those of the queue one step later: the head's
    children, if any, were queued last, so their subtrees come last in `f`.
   */
  function Regroup(n: nat, l: Slot, r: Slot, f: seq<Tree>): (s: seq<Tree>)
    requires 0 < n && |f| == 2 * (n - 1 + Present(l) + Present(r))
    ensures |s| == 2 * n
  {
    [Attach(l, f, 2 * (n - 1)), Attach(r, f, 2 * (n - 1) + 2 * Present(l))] + f[..2 * (n - 1)]
  }

  /**
    The 2n subtrees, left before right, that a queue of `n` nodes ends up with when the
    slots still to be read are `a`.
   */
  function ReadForest(n: nat, a: seq<Slot>): (f: seq<Tree>)
    ensures |f| == 2 * n
    decreases |a|
  {
    if n == 0 || a == [] then Leaves(2 * n)
    else
      Regroup(n, a[0], SlotAt(a, 1), ReadForest(Queued(n, a), AfterPair(a)))
  }

  /** The Go and JavaScript deserializers: an empty or null-rooted array is the empty tree. */
  function Deserialize(a: seq<Slot>): Tree {
    if a == [] || a[0].None? then Leaf
    else
      var f := ReadForest(1, a[1..]);
      Branch(a[0].value, f[0], f[1])
  }

  /** The Python deserializer: it only asks for emptiness, so a null root becomes a node. */
  function DeserializePython(a: seq<Slot>): PyTree {
    if a == [] then PyNone
    else
      var f := ReadForest(1, a[1..]);
      PyRoot(a[0], f[0], f[1])
  }

  function AsPython(t: Tree): PyTree {
    if t.Leaf? then PyNone else PyRoot(Some(t.val), t.left, t.right)
  }

  // ---------------------------------------------------------------------------
  // Tree round trip
  // ---------------------------------------------------------------------------

  lemma QueueTwo(s: seq<Tree>, a: seq<Tree>, b: seq<Tree>)
    requires |s| >= 2
    ensures var q := s[1..] + a; q[0] == s[1] && q[1..] + b == s[2..] + a + b
  {
  }

  /** The serializer emits two slots and queues both nodes' children after what was queued. */
  lemma {:induction false} LevelOrderPair(s: seq<Tree>)
    requires |s| >= 2
    ensures LevelOrder(s)
         == [Val(s[0]), Val(s[1])] + LevelOrder(s[2..] + Kids(s[0]) + Kids(s[1]))
    ensures ForestSize(s[2..] + Kids(s[0]) + Kids(s[1])) < ForestSize(s)
  {
    var q := Advance(s);
    QueueTwo(s, Kids(s[0]), Kids(s[1]));
    assert Advance(q) == s[2..] + Kids(s[0]) + Kids(s[1]);
  }

  /** Regrouping takes the head's children back out of the queue... */
  lemma RegroupQueued(n: nat, s: seq<Tree>)
    requires 0 < n && |s| == 2 * n
    ensures Regroup(n, Val(s[0]), Val(s[1]), s[2..] + Kids(s[0]) + Kids(s[1])) == s
  {
  }

  /** ...and queueing the head's children again undoes it. */
  lemma QueueRegrouped(n: nat, l: Slot, r: Slot, f: seq<Tree>)
    requires 0 < n && |f| == 2 * (n - 1 + Present(l) + Present(r))
    ensures var s := Regroup(n, l, r, f);
            Val(s[0]) == l && Val(s[1]) == r && s[2..] + Kids(s[0]) + Kids(s[1]) == f
  {
  }

  /** Reading back an untrimmed level-order dump of 2n slots restores those slots. */
  lemma {:induction false} ReadLevelOrder(n: nat, s: seq<Tree>)
    requires |s| == 2 * n
    ensures ReadForest(n, LevelOrder(s)) == s
    decreases ForestSize(s)
  {
    if n > 0 {
      var next := s[2..] + Kids(s[0]) + Kids(s[1]);
      var a := LevelOrder(s);
      LevelOrderPair(s);
      assert AfterPair(a) == LevelOrder(next);
      ReadLevelOrder(Queued(n, a), next);
      RegroupQueued(n, s);
    }
  }

  lemma {:induction false} ReadOneNull(n: nat)
    requires 0 < n
    ensures ReadForest(n, [None]) == Leaves(2 * n)
  {
    var f := ReadForest(n - 1, []);
    assert Queued(n, [None]) == n - 1 && AfterPair([None]) == [];
    assert Regroup(n, None, None, f) == Leaves(2 * n);
  }

  /** A trailing null reads exactly like a missing slot. */
  lemma {:induction false} ReadTrailingNull(n: nat, a: seq<Slot>)
    ensures ReadForest(n, a + [None]) == ReadForest(n, a)
    decreases |a|
  {
    var b := a + [None];
    if n > 0 && a == [] {
      assert b == [None];
      ReadOneNull(n);
    } else if n > 0 {
      var m := Queued(n, a);
      assert b[0] == a[0] && SlotAt(b, 1) == SlotAt(a, 1);
      assert ReadForest(m, AfterPair(b)) == ReadForest(m, AfterPair(a)) by {
        if |a| == 1 {
          assert AfterPair(b) == AfterPair(a);
        } else {
          assert AfterPair(b) == AfterPair(a) + [None];
          ReadTrailingNull(m, AfterPair(a));
        }
      }
    }
  }

  lemma {:induction false} ReadTrimmed(n: nat, a: seq<Slot>)
    ensures ReadForest(n, TrimNulls(a)) == ReadForest(n, a)
    decreases |a|
  {
    if a != [] && a[|a| - 1].None? {
      var b := a[..|a| - 1];
      assert a == b + [None];
      ReadTrailingNull(n, b);
      ReadTrimmed(n, b);
    }
  }

  /** Trimming never reaches a leading value. */
  lemma {:induction false} TrimKeepsHead(v: Slot, a: seq<Slot>)
    requires v.Some?
    ensures TrimNulls([v] + a) == [v] + TrimNulls(a)
    decreases |a|
  {
    if a != [] && a[|a| - 1].None? {
      assert ([v] + a)[..|a|] == [v] + a[..|a| - 1];
      TrimKeepsHead(v, a[..|a| - 1]);
    } else if a == [] {
      assert [v] + a == [v];
    }
  }

  lemma SerializeBranch(t: Tree)
    requires t.Branch?
    ensures Serialize(t) == [Some(t.val)] + TrimNulls(LevelOrder([t.left, t.right]))
  {
    assert Advance([t]) == [t.left, t.right];
    TrimKeepsHead(Some(t.val), LevelOrder([t.left, t.right]));
  }

  /** Every tree survives the trip through its level-order array: trimming loses nothing. */
  lemma TreeRoundTrip(t: Tree)
    ensures Deserialize(Serialize(t)) == t
    ensures DeserializePython(Serialize(t)) == AsPython(t)
  {
    if t.Branch? {
      var kids := [t.left, t.right];
      SerializeBranch(t);
      assert Serialize(t)[1..] == TrimNulls(LevelOrder(kids));
      ReadTrimmed(1, LevelOrder(kids));
      ReadLevelOrder(1, kids);
    }
  }

  // ---------------------------------------------------------------------------
  // What the array is: the levels of the tree from top to bottom, each from left to right
  // ---------------------------------------------------------------------------

  /** The slots at depth `d`: values, and nulls for the missing children of nodes one level up. */
  function Level(t: Tree, d: nat): seq<Slot>
    decreases d
  {
    if d == 0 then [Val(t)] else if t.Leaf? then [] else Level(t.left, d - 1) + Level(t.right, d - 1)
  }

  /** The first `n` levels, one after the other. */
  function Levels(t: Tree, n: nat): seq<Slot> {
    if n == 0 then [] else Levels(t, n - 1) + Level(t, n - 1)
  }

  function Height(t: Tree): nat {
    if t.Leaf? then 0 else 1 + if Height(t.left) >= Height(t.right) then Height(t.left) else Height(t.right)
  }

  function ForestLevel(q: seq<Tree>, d: nat): seq<Slot> {
    if q == [] then [] else Level(q[0], d) + ForestLevel(q[1..], d)
  }

  function AllKids(q: seq<Tree>): seq<Tree> {
    if q == [] then [] else Kids(q[0]) + AllKids(q[1..])
  }

  lemma {:induction false} ForestLevelAppend(p: seq<Tree>, q: seq<Tree>, d: nat)
    ensures ForestLevel(p + q, d) == ForestLevel(p, d) + ForestLevel(q, d)
    decreases |p|
  {
    if p == [] {
      assert p + q == q;
    } else {
      assert (p + q)[1..] == p[1..] + q;
      ForestLevelAppend(p[1..], q, d);
    }
  }

  lemma {:induction false} LevelOfKids(t: Tree, d: nat)
    ensures ForestLevel(Kids(t), d) == Level(t, d + 1)
  {
    if t.Branch? {
      assert Kids(t)[1..] == [t.right] && [t.right][1..] == [];
      assert ForestLevel([t.right], d) == Level(t.right, d) + ForestLevel([], d);
    }
  }

  lemma {:induction false} LevelOfAllKids(q: seq<Tree>, d: nat)
    ensures ForestLevel(AllKids(q), d) == ForestLevel(q, d + 1)
    decreases |q|
  {
    if q != [] {
      LevelOfKids(q[0], d);
      LevelOfAllKids(q[1..], d);
      ForestLevelAppend(Kids(q[0]), AllKids(q[1..]), d);
    }
  }

  /** The queue loop emits everything queued and then goes on with all the children, in order. */
  lemma {:induction false} QueueRound(p: seq<Tree>, r: seq<Tree>)
    ensures LevelOrder(p + r) == ForestLevel(p, 0) + LevelOrder(r + AllKids(p))
    decreases |p|
  {
    if p == [] {
      assert p + r == r && r + AllKids(p) == r;
    } else {
      var x, rest := p[0], p[1..];
      AdvanceOf(p, r);
      QueueRound(rest, r + Kids(x));
      assert LevelOrder(p + r) == [Val(x)] + LevelOrder(rest + (r + Kids(x)));
      Regrouped(r, Kids(x), AllKids(rest));
      assert ForestLevel(p, 0) == [Val(x)] + ForestLevel(rest, 0);
    }
  }

  lemma AdvanceOf(p: seq<Tree>, r: seq<Tree>)
    requires p != []
    ensures (p + r)[0] == p[0] && Advance(p + r) == p[1..] + (r + Kids(p[0]))
  {
  }

  lemma Regrouped(a: seq<Tree>, b: seq<Tree>, c: seq<Tree>)
    ensures a + b + c == a + (b + c)
  {
  }

  /** All levels of a queue from depth `d` on, up to depth `n`. */
  function ForestLevels(q: seq<Tree>, d: nat, n: nat): seq<Slot>
    requires d <= n
    decreases n - d
  {
    if d == n then [] else ForestLevel(q, d) + ForestLevels(q, d + 1, n)
  }

  predicate AtMost(q: seq<Tree>, h: nat) {
    forall t :: t in q ==> Height(t) <= h
  }

  lemma {:induction false} KidsAreLower(q: seq<Tree>, h: nat)
    requires AtMost(q, h + 1)
    ensures AtMost(AllKids(q), h)
    decreases |q|
  {
    if q != [] {
      assert q[0] in q;
      KidsAreLower(q[1..], h);
    }
  }

  lemma {:induction false} KidsShift(q: seq<Tree>, d: nat, n: nat)
    requires d <= n
    ensures ForestLevels(AllKids(q), d, n) == ForestLevels(q, d + 1, n + 1)
    decreases n - d
  {
    if d < n {
      LevelOfAllKids(q, d);
      KidsShift(q, d + 1, n);
    }
  }

  lemma {:induction false} NoKids(q: seq<Tree>)
    requires AtMost(q, 0)
    ensures AllKids(q) == []
    decreases |q|
  {
    if q != [] {
      assert q[0] in q;
      NoKids(q[1..]);
    }
  }

  lemma {:induction false} QueueIsLevels(q: seq<Tree>, h: nat)
    requires AtMost(q, h)
    ensures LevelOrder(q) == ForestLevels(q, 0, h + 1)
    decreases h
  {
    assert q + [] == q;
    QueueRound(q, []);
    assert [] + AllKids(q) == AllKids(q);
    if h == 0 {
      NoKids(q);
    } else {
      KidsAreLower(q, h - 1);
      QueueIsLevels(AllKids(q), h - 1);
      KidsShift(q, 0, h);
    }
  }

  lemma {:induction false} LevelsOfOne(t: Tree, d: nat, n: nat)
    requires d <= n
    ensures Levels(t, d) + ForestLevels([t], d, n) == Levels(t, n)
    decreases n - d
  {
    if d < n {
      assert ForestLevel([t], d) == Level(t, d) + ForestLevel([], d);
      LevelsOfOne(t, d + 1, n);
      assert Levels(t, d) + (ForestLevel([t], d) + ForestLevels([t], d + 1, n))
          == Levels(t, d + 1) + ForestLevels([t], d + 1, n);
    }
  }

  /** The serialized array is the tree's levels, top to bottom and left to right, trimmed. */
  lemma SerializeIsLevels(t: Tree)
    ensures Serialize(t) == if t.Leaf? then [] else TrimNulls(Levels(t, Height(t) + 1))
  {
    QueueIsLevels([t], Height(t));
    LevelsOfOne(t, 0, Height(t) + 1);
    assert Levels(t, 0) + ForestLevels([t], 0, Height(t) + 1) == ForestLevels([t], 0, Height(t) + 1);
  }

  // ---------------------------------------------------------------------------
  // Array round trip
  // ---------------------------------------------------------------------------

  /** A queue of `n` nodes never runs dry before `a` has been read to the end. */
  predicate Fed(n: nat, a: seq<Slot>)
    decreases |a|
  {
    a == [] || (n > 0 && Fed(Queued(n, a), AfterPair(a)))
  }

  /**
    The arrays the serializer can produce: empty, or starting and ending with a value and
    never starving the deserializer's queue.
   */
  predicate Canonical(a: seq<Slot>) {
    a == [] || (a[0].Some? && a[|a| - 1].Some? && Fed(1, a[1..]))
  }

  lemma {:induction false} LevelOrderOfLeaves(n: nat)
    ensures LevelOrder(Leaves(n)) == Nulls(n)
  {
    if n > 0 {
      assert Advance(Leaves(n)) == Leaves(n - 1);
      LevelOrderOfLeaves(n - 1);
    }
  }

  lemma PadPair(a: seq<Slot>, k: nat) returns (k': nat)
    requires a != []
    ensures [a[0], SlotAt(a, 1)] + (AfterPair(a) + Nulls(k)) == a + Nulls(k')
  {
    k' := if |a| == 1 then k + 1 else k;
    assert [a[0], SlotAt(a, 1)] + (AfterPair(a) + Nulls(k)) == a + Nulls(k');
  }

  /** Dumping what was read gives back the array, padded with nulls. */
  lemma {:induction false} WriteWhatWasRead(n: nat, a: seq<Slot>) returns (k: nat)
    requires Fed(n, a)
    ensures LevelOrder(ReadForest(n, a)) == a + Nulls(k)
    decreases |a|
  {
    if a == [] {
      LevelOrderOfLeaves(2 * n);
      k := 2 * n;
    } else {
      var f := ReadForest(Queued(n, a), AfterPair(a));
      var s := ReadForest(n, a);
      LevelOrderPair(s);
      QueueRegrouped(n, a[0], SlotAt(a, 1), f);
      k := WriteWhatWasRead(Queued(n, a), AfterPair(a));
      assert LevelOrder(s) == [a[0], SlotAt(a, 1)] + (AfterPair(a) + Nulls(k));
      k := PadPair(a, k);
    }
  }

  lemma {:induction false} TrimPadding(a: seq<Slot>, k: nat)
    requires a == [] || a[|a| - 1].Some?
    ensures TrimNulls(a + Nulls(k)) == a
  {
    if k == 0 {
      assert a + Nulls(0) == a;
    } else {
      assert (a + Nulls(k))[..|a| + k - 1] == a + Nulls(k - 1);
      TrimPadding(a, k - 1);
    }
  }

  lemma {:induction false} LevelOrderIsFed(n: nat, s: seq<Tree>)
    requires |s| == 2 * n
    ensures Fed(n, LevelOrder(s))
    decreases ForestSize(s)
  {
    if n > 0 {
      var next := s[2..] + Kids(s[0]) + Kids(s[1]);
      LevelOrderPair(s);
      assert AfterPair(LevelOrder(s)) == LevelOrder(next);
      LevelOrderIsFed(Queued(n, LevelOrder(s)), next);
    }
  }

  lemma {:induction false} TrimIsFed(n: nat, a: seq<Slot>)
    requires Fed(n, a)
    ensures Fed(n, TrimNulls(a))
    decreases |a|
  {
    if a != [] && a[|a| - 1].None? {
      DropLastIsFed(n, a);
      TrimIsFed(n, a[..|a| - 1]);
    }
  }

  lemma {:induction false} DropLastIsFed(n: nat, a: seq<Slot>)
    requires a != [] && a[|a| - 1].None? && Fed(n, a)
    ensures Fed(n, a[..|a| - 1])
    decreases |a|
  {
    if |a| > 2 {
      var b := AfterPair(a);
      assert AfterPair(a[..|a| - 1]) == b[..|b| - 1];
      DropLastIsFed(Queued(n, a), b);
    }
  }

  lemma {:induction false} TrimEndsInValue(a: seq<Slot>)
    ensures TrimNulls(a) == [] || TrimNulls(a)[|TrimNulls(a)| - 1].Some?
    decreases |a|
  {
    if a != [] && a[|a| - 1].None? {
      TrimEndsInValue(a[..|a| - 1]);
    }
  }

  lemma SerializeIsCanonical(t: Tree)
    ensures Canonical(Serialize(t))
  {
    if t.Branch? {
      var a := LevelOrder([t.left, t.right]);
      SerializeBranch(t);
      LevelOrderIsFed(1, [t.left, t.right]);
      TrimIsFed(1, a);
      TrimEndsInValue(a);
      assert Serialize(t)[1..] == TrimNulls(a);
    }
  }

  /** Serializing a deserialized array restores it exactly for the canonical arrays. */
  lemma ArrayRoundTrip(a: seq<Slot>)
    ensures Serialize(Deserialize(a)) == a <==> Canonical(a)
  {
    SerializeIsCanonical(Deserialize(a));
    if Canonical(a) && a != [] {
      var t := Deserialize(a);
      var k := WriteWhatWasRead(1, a[1..]);
      assert ReadForest(1, a[1..]) == [t.left, t.right];
      SerializeBranch(t);
      TrimPadding(a[1..], k);
    }
  }

  /** The three deserializers agree on every array except one that starts with null. */
  lemma DriversAgree(a: seq<Slot>)
    ensures DeserializePython(a) == AsPython(Deserialize(a)) <==> a == [] || a[0].Some?
  {
  }
}
