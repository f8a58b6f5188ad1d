/**
  The character diff shown beside a wrong answer: a table of longest common subsequence
  lengths, a greedy walk back through it, and a merge of equal neighbours into segments.
 */
module CharDiff {

  datatype Kind = Same | Add | Del

  datatype Segment = Segment(kind: Kind, text: string)

  // ---------------------------------------------------------------------------
  // What a list of segments says
  // ---------------------------------------------------------------------------

  function Last<T>(s: seq<T>): T
    requires s != []
  {
    s[|s| - 1]
  }

  function Init<T>(s: seq<T>): seq<T>
    requires s != []
  {
    s[..|s| - 1]
  }

  /** The text a segment contributes to the side that omits segments of kind `skip`. */
  function Shown(g: Segment, skip: Kind): string {
    if g.kind == skip then "" else g.text
  }

  /** The text left when the segments of kind `skip` are omitted. */
  function Side(segs: seq<Segment>, skip: Kind): string {
    if segs == [] then "" else Side(Init(segs), skip) + Shown(Last(segs), skip)
  }

  /** The string a list of segments edits, and the string it edits it into. */
  function Before(segs: seq<Segment>): string { Side(segs, Add) }

  function After(segs: seq<Segment>): string { Side(segs, Del) }

  /** How many characters are kept. */
  function Kept(segs: seq<Segment>): nat {
    if segs == [] then 0
    else Kept(Init(segs)) + if Last(segs).kind == Same then |Last(segs).text| else 0
  }

  /** No segment is empty and no two neighbours are of one kind. */
  predicate Merged(segs: seq<Segment>) {
    && (forall k :: 0 <= k < |segs| ==> segs[k].text != "")
    && (forall k :: 0 < k < |segs| ==> segs[k - 1].kind != segs[k].kind)
  }

  /** `segs` is a diff that turns `expected` into `actual`. */
  predicate IsDiff(segs: seq<Segment>, expected: string, actual: string) {
    Before(segs) == expected && After(segs) == actual
  }

  // ---------------------------------------------------------------------------
  // Longest common subsequences, declaratively and as the table computes them
  // ---------------------------------------------------------------------------

  /** A common subsequence: matched positions, strictly increasing on both sides. */
  predicate IsMatching(a: string, b: string, m: seq<(nat, nat)>) {
    && (forall k :: 0 <= k < |m| ==> m[k].0 < |a| && m[k].1 < |b| && a[m[k].0] == b[m[k].1])
    && (forall j, k :: 0 <= j < k < |m| ==> m[j].0 < m[k].0 && m[j].1 < m[k].1)
  }

  function Max(x: nat, y: nat): nat { if x >= y then x else y }

  /** The recurrence of the table: cell (i, j) looks at the first i and j characters. */
  function Cell(a: string, b: string, i: nat, j: nat): nat
    requires i <= |a| && j <= |b|
  {
    if i == 0 || j == 0 then 0
    else if a[i - 1] == b[j - 1] then Cell(a, b, i - 1, j - 1) + 1
    else Max(Cell(a, b, i - 1, j), Cell(a, b, i, j - 1))
  }

  /** No common subsequence of two prefixes is longer than their cell. */
  lemma {:induction false} CellIsUpperBound(a: string, b: string, i: nat, j: nat, m: seq<(nat, nat)>)
    requires i <= |a| && j <= |b| && IsMatching(a[..i], b[..j], m)
    ensures |m| <= Cell(a, b, i, j)
    decreases i + j
  {
    if m != [] {
      var last := Last(m);
      if a[i - 1] == b[j - 1] {
        CellIsUpperBound(a, b, i - 1, j - 1, Init(m));
      } else if last.0 < i - 1 {
        CellIsUpperBound(a, b, i - 1, j, m);
      } else {
        CellIsUpperBound(a, b, i, j - 1, m);
      }
    }
  }

  /** Some common subsequence of two prefixes is as long as their cell. */
  lemma {:induction false} CellIsReached(a: string, b: string, i: nat, j: nat) returns (m: seq<(nat, nat)>)
    requires i <= |a| && j <= |b|
    ensures IsMatching(a[..i], b[..j], m) && |m| == Cell(a, b, i, j)
    decreases i + j
  {
    if i == 0 || j == 0 {
      m := [];
    } else if a[i - 1] == b[j - 1] {
      m := CellIsReached(a, b, i - 1, j - 1);
      m := m + [(i - 1, j - 1)];
    } else if Cell(a, b, i - 1, j) >= Cell(a, b, i, j - 1) {
      m := CellIsReached(a, b, i - 1, j);
    } else {
      m := CellIsReached(a, b, i, j - 1);
    }
  }

  /** The length of a longest common subsequence. */
  function Lcs(a: string, b: string): nat {
    Cell(a, b, |a|, |b|)
  }

  /** `Lcs` is what its name says. */
  lemma LcsIsLongest(a: string, b: string)
    ensures forall m :: IsMatching(a, b, m) ==> |m| <= Lcs(a, b)
    ensures exists m :: IsMatching(a, b, m) && |m| == Lcs(a, b)
  {
    assert a[..|a|] == a && b[..|b|] == b;
    forall m | IsMatching(a, b, m)
      ensures |m| <= Lcs(a, b)
    {
      CellIsUpperBound(a, b, |a|, |b|, m);
    }
    var m := CellIsReached(a, b, |a|, |b|);
    assert IsMatching(a, b, m);
  }

  // ---------------------------------------------------------------------------
  // Every diff keeps a common subsequence
  // ---------------------------------------------------------------------------

  /** The positions that a segment starting at (x, y) matches. */
  function Diagonal(x: nat, y: nat, g: Segment): seq<(nat, nat)> {
    if g.kind == Same then seq(|g.text|, k requires 0 <= k => (x + k, y + k)) else []
  }

  function KeptPositions(segs: seq<Segment>): seq<(nat, nat)> {
    if segs == [] then []
    else
      var rest := Init(segs);
      KeptPositions(rest) + Diagonal(|Before(rest)|, |After(rest)|, Last(segs))
  }

  /** A matching stays one when both strings grow. */
  lemma WidenMatching(a: string, b: string, m: seq<(nat, nat)>, x: string, y: string)
    requires IsMatching(a, b, m)
    ensures IsMatching(a + x, b + y, m)
  {
  }

  /** Matching a common text behind both strings extends a matching. */
  lemma ExtendMatching(a: string, b: string, m: seq<(nat, nat)>, t: string)
    requires IsMatching(a, b, m)
    ensures IsMatching(a + t, b + t, m + Diagonal(|a|, |b|, Segment(Same, t)))
  {
    var d := m + Diagonal(|a|, |b|, Segment(Same, t));
    forall k | 0 <= k < |d|
      ensures d[k].0 < |a + t| && d[k].1 < |b + t| && (a + t)[d[k].0] == (b + t)[d[k].1]
    {
      if k < |m| {
        assert d[k] == m[k];
      } else {
        assert d[k] == (|a| + k - |m|, |b| + k - |m|);
      }
    }
  }

  lemma {:induction false} DiffKeepsMatching(segs: seq<Segment>)
    ensures IsMatching(Before(segs), After(segs), KeptPositions(segs))
    ensures |KeptPositions(segs)| == Kept(segs)
    decreases |segs|
  {
    if segs != [] {
      var rest := Init(segs);
      DiffKeepsMatching(rest);
      var g := Last(segs);
      if g.kind == Same {
        ExtendMatching(Before(rest), After(rest), KeptPositions(rest), g.text);
      } else {
        WidenMatching(Before(rest), After(rest), KeptPositions(rest), Shown(g, Add), Shown(g, Del));
        assert KeptPositions(segs) == KeptPositions(rest);
      }
    }
  }

  /** No diff of two strings keeps more characters than their longest common subsequence. */
  lemma NoDiffKeepsMore(segs: seq<Segment>, expected: string, actual: string)
    requires IsDiff(segs, expected, actual)
    ensures Kept(segs) <= Lcs(expected, actual)
  {
    DiffKeepsMatching(segs);
    LcsIsLongest(expected, actual);
  }

  // ---------------------------------------------------------------------------
  // The algorithm
  // ---------------------------------------------------------------------------

  ghost predicate Filled(dp: array2<nat>, expected: string, actual: string)
    requires dp.Length0 == |expected| + 1 && dp.Length1 == |actual| + 1
    reads dp
  {
    forall x, y :: 0 <= x <= |expected| && 0 <= y <= |actual| ==> dp[x, y] == Cell(expected, actual, x, y)
  }

  method FillTable(expected: string, actual: string) returns (dp: array2<nat>)
    ensures fresh(dp) && dp.Length0 == |expected| + 1 && dp.Length1 == |actual| + 1
    ensures Filled(dp, expected, actual)
  {
    var m, n := |expected|, |actual|;
    dp := new nat[m + 1, n + 1]((_, _) => 0);
    for i := 1 to m + 1
      invariant forall x, y {:trigger dp[x, y]} :: 0 <= x < i && 0 <= y <= n ==>
                  dp[x, y] == Cell(expected, actual, x, y)
      invariant forall x :: i <= x <= m ==> dp[x, 0] == 0
    {
      for j := 1 to n + 1
        invariant forall x, y {:trigger dp[x, y]} :: 0 <= x < i && 0 <= y <= n ==>
                    dp[x, y] == Cell(expected, actual, x, y)
        invariant forall y {:trigger dp[i, y]} :: 0 <= y < j ==> dp[i, y] == Cell(expected, actual, i, y)
        invariant forall x :: i < x <= m ==> dp[x, 0] == 0
      {
        if expected[i - 1] == actual[j - 1] {
          dp[i, j] := dp[i - 1, j - 1] + 1;
        } else {
          dp[i, j] := Max(dp[i - 1, j], dp[i, j - 1]);
        }
      }
    }
  }

  /** The stack read from its top, which is the order the merge loop reads it in. */
  function Popped(stack: seq<Segment>): seq<Segment> {
    if stack == [] then [] else [Last(stack)] + Popped(Init(stack))
  }

  lemma {:induction false} SideOfCons(g: Segment, segs: seq<Segment>, skip: Kind)
    ensures Side([g] + segs, skip) == Shown(g, skip) + Side(segs, skip)
    decreases |segs|
  {
    if segs == [] {
      assert [g] + segs == [] + [g];
      SideOfSnoc([], g, skip);
      assert Shown(g, skip) + "" == "" + Shown(g, skip);
    } else {
      assert Init([g] + segs) == [g] + Init(segs) && Last([g] + segs) == Last(segs);
      SideOfCons(g, Init(segs), skip);
      Regroup(Shown(g, skip), Side(Init(segs), skip), Shown(Last(segs), skip));
    }
  }

  lemma {:induction false} KeptOfCons(g: Segment, segs: seq<Segment>)
    ensures Kept([g] + segs) == (if g.kind == Same then |g.text| else 0) + Kept(segs)
    decreases |segs|
  {
    if segs == [] {
      assert Init([g] + segs) == [];
    } else {
      assert Init([g] + segs) == [g] + Init(segs);
      KeptOfCons(g, Init(segs));
    }
  }

  lemma SideOfSnoc(segs: seq<Segment>, g: Segment, skip: Kind)
    ensures Side(segs + [g], skip) == Side(segs, skip) + Shown(g, skip)
    ensures Kept(segs + [g]) == Kept(segs) + if g.kind == Same then |g.text| else 0
  {
    assert Init(segs + [g]) == segs;
  }

  lemma SingleSegment(g: Segment)
    ensures Before([g]) == Shown(g, Add) && After([g]) == Shown(g, Del)
    ensures Kept([g]) == if g.kind == Same then |g.text| else 0
  {
    SideOfSnoc([], g, Add);
    SideOfSnoc([], g, Del);
    assert [] + [g] == [g];
  }

  predicate SingleChars(stack: seq<Segment>) {
    forall k :: 0 <= k < |stack| ==> |stack[k].text| == 1
  }

  predicate Shaped(c: seq<seq<nat>>, expected: string, actual: string) {
    |c| == |expected| + 1 && forall x :: 0 <= x < |c| ==> |c[x]| == |actual| + 1
  }

  /** What a table says about one cell and its neighbours. */
  predicate Recurs(c: seq<seq<nat>>, expected: string, actual: string, x: nat, y: nat)
    requires Shaped(c, expected, actual) && x <= |expected| && y <= |actual|
  {
    c[x][y] == if x == 0 || y == 0 then 0
               else if expected[x - 1] == actual[y - 1] then c[x - 1][y - 1] + 1
               else Max(c[x - 1][y], c[x][y - 1])
  }

  ghost predicate IsTable(c: seq<seq<nat>>, expected: string, actual: string) {
    && Shaped(c, expected, actual)
    && forall x, y :: 0 <= x <= |expected| && 0 <= y <= |actual| ==> Recurs(c, expected, actual, x, y)
  }

  /** What the walk pushes from position (i, j) on. */
  function Walk(expected: string, actual: string, c: seq<seq<nat>>, i: nat, j: nat): seq<Segment>
    requires Shaped(c, expected, actual) && i <= |expected| && j <= |actual|
    decreases i + j
  {
    if i == 0 && j == 0 then []
    else if i > 0 && j > 0 && expected[i - 1] == actual[j - 1] then
      [Segment(Same, [expected[i - 1]])] + Walk(expected, actual, c, i - 1, j - 1)
    else if j > 0 && (i == 0 || c[i][j - 1] >= c[i - 1][j]) then
      [Segment(Add, [actual[j - 1]])] + Walk(expected, actual, c, i, j - 1)
    else
      [Segment(Del, [expected[i - 1]])] + Walk(expected, actual, c, i - 1, j)
  }

  lemma {:induction false} PoppedOfCons(g: Segment, stack: seq<Segment>)
    ensures Popped([g] + stack) == Popped(stack) + [g]
    decreases |stack|
  {
    if stack == [] {
      assert [g] + stack == [g] && Init([g]) == [];
    } else {
      assert Init([g] + stack) == [g] + Init(stack) && Last([g] + stack) == Last(stack);
      PoppedOfCons(g, Init(stack));
    }
  }

  /** Position (i, j) is spelled by `stack`, which keeps `kept` characters. */
  predicate Spells(expected: string, actual: string, i: nat, j: nat, stack: seq<Segment>, kept: nat) {
    && i <= |expected| && j <= |actual|
    && SingleChars(stack) && Kept(Popped(stack)) == kept
    && Before(Popped(stack)) == expected[..i] && After(Popped(stack)) == actual[..j]
  }

  /** A segment pushed before all others comes last in the diff. */
  lemma PushedFirst(g: Segment, stack: seq<Segment>)
    ensures Before(Popped([g] + stack)) == Before(Popped(stack)) + Shown(g, Add)
    ensures After(Popped([g] + stack)) == After(Popped(stack)) + Shown(g, Del)
    ensures Kept(Popped([g] + stack)) == Kept(Popped(stack)) + if g.kind == Same then |g.text| else 0
  {
    PoppedOfCons(g, stack);
    SideOfSnoc(Popped(stack), g, Add);
    SideOfSnoc(Popped(stack), g, Del);
  }

  lemma SpellSame(expected: string, actual: string, i: nat, j: nat, stack: seq<Segment>, kept: nat)
    requires 0 < i <= |expected| && 0 < j <= |actual| && expected[i - 1] == actual[j - 1]
    requires Spells(expected, actual, i - 1, j - 1, stack, kept)
    ensures Spells(expected, actual, i, j, [Segment(Same, [expected[i - 1]])] + stack, kept + 1)
  {
    PushedFirst(Segment(Same, [expected[i - 1]]), stack);
    assert expected[..i] == expected[..i - 1] + [expected[i - 1]];
    assert actual[..j] == actual[..j - 1] + [actual[j - 1]];
  }

  lemma SpellAdd(expected: string, actual: string, i: nat, j: nat, stack: seq<Segment>, kept: nat)
    requires i <= |expected| && 0 < j <= |actual| && Spells(expected, actual, i, j - 1, stack, kept)
    ensures Spells(expected, actual, i, j, [Segment(Add, [actual[j - 1]])] + stack, kept)
  {
    PushedFirst(Segment(Add, [actual[j - 1]]), stack);
    assert expected[..i] + "" == expected[..i];
    assert actual[..j] == actual[..j - 1] + [actual[j - 1]];
  }

  lemma SpellDel(expected: string, actual: string, i: nat, j: nat, stack: seq<Segment>, kept: nat)
    requires 0 < i <= |expected| && j <= |actual| && Spells(expected, actual, i - 1, j, stack, kept)
    ensures Spells(expected, actual, i, j, [Segment(Del, [expected[i - 1]])] + stack, kept)
  {
    PushedFirst(Segment(Del, [expected[i - 1]]), stack);
    assert actual[..j] + "" == actual[..j];
    assert expected[..i] == expected[..i - 1] + [expected[i - 1]];
  }

  /** The walk spells both prefixes and keeps as many characters as the table says. */
  lemma {:induction false} WalkSpells(expected: string, actual: string, c: seq<seq<nat>>, i: nat, j: nat)
    requires IsTable(c, expected, actual) && i <= |expected| && j <= |actual|
    ensures Spells(expected, actual, i, j, Walk(expected, actual, c, i, j), c[i][j])
    decreases i + j
  {
    assert Recurs(c, expected, actual, i, j);
    if i == 0 && j == 0 {
    } else if i > 0 && j > 0 && expected[i - 1] == actual[j - 1] {
      WalkSpells(expected, actual, c, i - 1, j - 1);
      SpellSame(expected, actual, i, j, Walk(expected, actual, c, i - 1, j - 1), c[i - 1][j - 1]);
    } else if j > 0 && (i == 0 || c[i][j - 1] >= c[i - 1][j]) {
      WalkSpells(expected, actual, c, i, j - 1);
      assert i == 0 ==> Recurs(c, expected, actual, i, j - 1);
      SpellAdd(expected, actual, i, j, Walk(expected, actual, c, i, j - 1), c[i][j - 1]);
    } else {
      WalkSpells(expected, actual, c, i - 1, j);
      assert j == 0 ==> Recurs(c, expected, actual, i - 1, j);
      SpellDel(expected, actual, i, j, Walk(expected, actual, c, i - 1, j), c[i - 1][j]);
    }
  }

  ghost function Row(dp: array2<nat>, x: nat): seq<nat>
    requires x < dp.Length0
    reads dp
  {
    seq(dp.Length1, y requires 0 <= y < dp.Length1 reads dp => dp[x, y])
  }

  ghost function Rows(dp: array2<nat>): (c: seq<seq<nat>>)
    reads dp
    ensures |c| == dp.Length0
    ensures forall x, y :: 0 <= x < dp.Length0 && 0 <= y < dp.Length1 ==> |c[x]| == dp.Length1 && c[x][y] == dp[x, y]
  {
    seq(dp.Length0, x requires 0 <= x < dp.Length0 reads dp => Row(dp, x))
  }

  lemma RowsAreTable(dp: array2<nat>, expected: string, actual: string)
    requires dp.Length0 == |expected| + 1 && dp.Length1 == |actual| + 1 && Filled(dp, expected, actual)
    ensures IsTable(Rows(dp), expected, actual)
  {
    var c := Rows(dp);
    assert Shaped(c, expected, actual) by {
      forall x | 0 <= x < |c|
        ensures |c[x]| == |actual| + 1
      {
        assert c[x][0] == dp[x, 0];
      }
    }
    forall x, y | 0 <= x <= |expected| && 0 <= y <= |actual|
      ensures Recurs(c, expected, actual, x, y)
    {
      assert c[x][y] == Cell(expected, actual, x, y);
    }
  }

  lemma PushAgain(stack: seq<Segment>, g: Segment, rest: seq<Segment>)
    ensures stack + [g] + rest == stack + ([g] + rest)
  {
  }

  method WalkBack(expected: string, actual: string, dp: array2<nat>) returns (stack: seq<Segment>)
    requires dp.Length0 == |expected| + 1 && dp.Length1 == |actual| + 1 && Shaped(Rows(dp), expected, actual)
    ensures stack == Walk(expected, actual, Rows(dp), |expected|, |actual|)
  {
    ghost var c := Rows(dp);
    var i, j := |expected|, |actual|;
    stack := [];
    while i > 0 || j > 0
      invariant 0 <= i <= |expected| && 0 <= j <= |actual|
      invariant stack + Walk(expected, actual, c, i, j) == Walk(expected, actual, c, |expected|, |actual|)
      decreases i + j
    {
      var g := Segment(Same, "");
      ghost var i0, j0 := i, j;
      if i > 0 && j > 0 && expected[i - 1] == actual[j - 1] {
        g := Segment(Same, [expected[i - 1]]);
        i, j := i - 1, j - 1;
      } else if j > 0 && (i == 0 || dp[i, j - 1] >= dp[i - 1, j]) {
        g := Segment(Add, [actual[j - 1]]);
        j := j - 1;
      } else {
        g := Segment(Del, [expected[i - 1]]);
        i := i - 1;
      }
      assert Walk(expected, actual, c, i0, j0) == [g] + Walk(expected, actual, c, i, j);
      PushAgain(stack, g, Walk(expected, actual, c, i, j));
      stack := stack + [g];
    }
    assert stack + [] == stack;
  }

  /** Appending to the last segment or starting a new one, as the inner `push` does. */
  function Push(segs: seq<Segment>, g: Segment): seq<Segment> {
    if segs != [] && Last(segs).kind == g.kind then
      Init(segs) + [Segment(g.kind, Last(segs).text + g.text)]
    else segs + [g]
  }

  lemma PushIsAppend(segs: seq<Segment>, g: Segment, skip: Kind)
    ensures Side(Push(segs, g), skip) == Side(segs, skip) + Shown(g, skip)
    ensures Kept(Push(segs, g)) == Kept(segs) + if g.kind == Same then |g.text| else 0
  {
    if segs != [] && Last(segs).kind == g.kind {
      var last := Last(segs);
      var h := Segment(g.kind, last.text + g.text);
      SideOfSnoc(Init(segs), h, skip);
      SideOfSnoc(Init(segs), last, skip);
      assert segs == Init(segs) + [last];
      Regroup(Side(Init(segs), skip), Shown(last, skip), Shown(g, skip));
    } else {
      SideOfSnoc(segs, g, skip);
    }
  }

  lemma PushKeepsMerged(segs: seq<Segment>, g: Segment)
    requires Merged(segs) && g.text != ""
    ensures Merged(Push(segs, g))
  {
  }

  lemma Regroup(a: string, b: string, c: string)
    ensures (a + b) + c == a + (b + c)
  {
  }

  /** Moving the top of the stack to the segments changes neither side. */
  lemma MoveToSegments(segs: seq<Segment>, stack: seq<Segment>, skip: Kind)
    requires stack != []
    ensures Side(Push(segs, Last(stack)), skip) + Side(Popped(Init(stack)), skip)
            == Side(segs, skip) + Side(Popped(stack), skip)
  {
    var g, below := Last(stack), Popped(Init(stack));
    SideOfCons(g, below, skip);
    PushIsAppend(segs, g, skip);
    Regroup(Side(segs, skip), Shown(g, skip), Side(below, skip));
  }

  /** The segments after the whole stack has been pushed onto `segs`, top first. */
  function Fused(segs: seq<Segment>, stack: seq<Segment>): seq<Segment>
    decreases |stack|
  {
    if stack == [] then segs else Fused(Push(segs, Last(stack)), Init(stack))
  }

  lemma {:induction false} FusedKeepsSide(segs: seq<Segment>, stack: seq<Segment>, skip: Kind)
    ensures Side(Fused(segs, stack), skip) == Side(segs, skip) + Side(Popped(stack), skip)
    decreases |stack|
  {
    if stack == [] {
      assert Side(segs, skip) + "" == Side(segs, skip);
    } else {
      FusedKeepsSide(Push(segs, Last(stack)), Init(stack), skip);
      MoveToSegments(segs, stack, skip);
    }
  }

  lemma {:induction false} FusedKeepsCount(segs: seq<Segment>, stack: seq<Segment>)
    ensures Kept(Fused(segs, stack)) == Kept(segs) + Kept(Popped(stack))
    decreases |stack|
  {
    if stack != [] {
      FusedKeepsCount(Push(segs, Last(stack)), Init(stack));
      PushIsAppend(segs, Last(stack), Same);
      KeptOfCons(Last(stack), Popped(Init(stack)));
    }
  }

  lemma {:induction false} FusedIsMerged(segs: seq<Segment>, stack: seq<Segment>)
    requires Merged(segs) && SingleChars(stack)
    ensures Merged(Fused(segs, stack))
    decreases |stack|
  {
    if stack != [] {
      PushKeepsMerged(segs, Last(stack));
      FusedIsMerged(Push(segs, Last(stack)), Init(stack));
    }
  }

  method MergeStack(stack: seq<Segment>) returns (segs: seq<Segment>)
    ensures segs == Fused([], stack)
  {
    segs := [];
    var k := |stack|;
    assert stack[..k] == stack;
    while k > 0
      invariant 0 <= k <= |stack|
      invariant Fused(segs, stack[..k]) == Fused([], stack)
    {
      k := k - 1;
      assert Init(stack[..k + 1]) == stack[..k];
      segs := Push(segs, stack[k]);
    }
  }

  /** Merging a stack that spells two strings gives a merged diff of them. */
  lemma FusedIsDiff(expected: string, actual: string, stack: seq<Segment>, kept: nat)
    requires Spells(expected, actual, |expected|, |actual|, stack, kept)
    ensures IsDiff(Fused([], stack), expected, actual) && Merged(Fused([], stack))
    ensures Kept(Fused([], stack)) == kept
  {
    FusedKeepsSide([], stack, Add);
    FusedKeepsSide([], stack, Del);
    FusedKeepsCount([], stack);
    FusedIsMerged([], stack);
    assert expected[..|expected|] == expected && actual[..|actual|] == actual;
    assert "" + expected == expected && "" + actual == actual;
  }

  /** What the table, the walk and the merge give together. */
  lemma WalkIsBestDiff(expected: string, actual: string, dp: array2<nat>)
    requires dp.Length0 == |expected| + 1 && dp.Length1 == |actual| + 1 && Filled(dp, expected, actual)
    ensures Shaped(Rows(dp), expected, actual)
    ensures var segs := Fused([], Walk(expected, actual, Rows(dp), |expected|, |actual|));
            IsDiff(segs, expected, actual) && Merged(segs) && Kept(segs) == Lcs(expected, actual)
  {
    var c := Rows(dp);
    RowsAreTable(dp, expected, actual);
    WalkSpells(expected, actual, c, |expected|, |actual|);
    FusedIsDiff(expected, actual, Walk(expected, actual, c, |expected|, |actual|), c[|expected|][|actual|]);
    assert dp[|expected|, |actual|] == c[|expected|][|actual|];
  }

  // ---------------------------------------------------------------------------
  // Ties: what is deleted comes before what is added in its place
  // ---------------------------------------------------------------------------

  predicate DelsFirst(segs: seq<Segment>) {
    forall k :: 0 < k < |segs| ==> !Adjacent(segs, k, Add, Del)
  }

  predicate Adjacent(segs: seq<Segment>, k: nat, first: Kind, second: Kind)
    requires 0 < k < |segs|
  {
    segs[k - 1].kind == first && segs[k].kind == second
  }

  /** The same on the stack, which is read from its top. */
  predicate AddsPushedFirst(stack: seq<Segment>) {
    forall k :: 0 < k < |stack| ==> !Adjacent(stack, k, Del, Add)
  }

  lemma AddsFirstCons(g: Segment, stack: seq<Segment>)
    requires AddsPushedFirst(stack) && (stack != [] ==> !(g.kind == Del && stack[0].kind == Add))
    ensures AddsPushedFirst([g] + stack)
  {
    var all := [g] + stack;
    forall k | 0 < k < |all|
      ensures !Adjacent(all, k, Del, Add)
    {
      if k > 1 {
        assert !Adjacent(stack, k - 1, Del, Add);
      }
    }
  }

  lemma DelsFirstPush(segs: seq<Segment>, g: Segment)
    requires DelsFirst(segs) && (segs != [] ==> !(Last(segs).kind == Add && g.kind == Del))
    ensures DelsFirst(Push(segs, g)) && Push(segs, g) != [] && Last(Push(segs, g)).kind == g.kind
  {
    var all := Push(segs, g);
    forall k | 0 < k < |all|
      ensures !Adjacent(all, k, Add, Del)
    {
      if k < |segs| {
        assert !Adjacent(segs, k, Add, Del);
      }
    }
  }

  lemma AddsFirstInit(stack: seq<Segment>)
    requires AddsPushedFirst(stack) && stack != []
    ensures AddsPushedFirst(Init(stack))
    ensures Init(stack) != [] ==> !(Last(Init(stack)).kind == Del && Last(stack).kind == Add)
  {
    forall k | 0 < k < |Init(stack)|
      ensures !Adjacent(Init(stack), k, Del, Add)
    {
      assert !Adjacent(stack, k, Del, Add);
    }
    if |stack| > 1 {
      assert !Adjacent(stack, |stack| - 1, Del, Add);
    }
  }

  lemma {:induction false} TableIsCell(c: seq<seq<nat>>, expected: string, actual: string, x: nat, y: nat)
    requires IsTable(c, expected, actual) && x <= |expected| && y <= |actual|
    ensures c[x][y] == Cell(expected, actual, x, y)
    decreases x + y
  {
    assert Recurs(c, expected, actual, x, y);
    if x > 0 && y > 0 {
      if expected[x - 1] == actual[y - 1] {
        TableIsCell(c, expected, actual, x - 1, y - 1);
      } else {
        TableIsCell(c, expected, actual, x - 1, y);
        TableIsCell(c, expected, actual, x, y - 1);
      }
    }
  }

  /** A longer prefix has no shorter common subsequence. */
  lemma {:induction false} CellGrows(a: string, b: string, i: nat, j: nat)
    requires 0 < i <= |a| && j <= |b|
    ensures Cell(a, b, i - 1, j) <= Cell(a, b, i, j)
  {
    var m := CellIsReached(a, b, i - 1, j);
    assert a[..i] == a[..i - 1] + [a[i - 1]] && b[..j] + "" == b[..j];
    WidenMatching(a[..i - 1], b[..j], m, [a[i - 1]], "");
    CellIsUpperBound(a, b, i, j, m);
  }

  /** After a deletion the walk does not add. */
  lemma {:induction false} NoAddAfterDel(expected: string, actual: string, c: seq<seq<nat>>, i: nat, j: nat)
    requires IsTable(c, expected, actual) && 0 < i <= |expected| && 0 < j <= |actual|
    requires expected[i - 1] != actual[j - 1] && c[i][j - 1] < c[i - 1][j]
    ensures i > 1 && (expected[i - 2] == actual[j - 1] || c[i - 1][j - 1] < c[i - 2][j])
  {
    assert Recurs(c, expected, actual, i - 1, j);
    TableIsCell(c, expected, actual, i, j - 1);
    TableIsCell(c, expected, actual, i - 1, j - 1);
    CellGrows(expected, actual, i, j - 1);
  }

  lemma {:induction false} WalkAddsFirst(expected: string, actual: string, c: seq<seq<nat>>, i: nat, j: nat)
    requires IsTable(c, expected, actual) && i <= |expected| && j <= |actual|
    ensures AddsPushedFirst(Walk(expected, actual, c, i, j))
    decreases i + j
  {
    if i == 0 && j == 0 {
    } else if i > 0 && j > 0 && expected[i - 1] == actual[j - 1] {
      WalkAddsFirst(expected, actual, c, i - 1, j - 1);
      AddsFirstCons(Segment(Same, [expected[i - 1]]), Walk(expected, actual, c, i - 1, j - 1));
    } else if j > 0 && (i == 0 || c[i][j - 1] >= c[i - 1][j]) {
      WalkAddsFirst(expected, actual, c, i, j - 1);
      AddsFirstCons(Segment(Add, [actual[j - 1]]), Walk(expected, actual, c, i, j - 1));
    } else {
      WalkAddsFirst(expected, actual, c, i - 1, j);
      if j > 0 {
        NoAddAfterDel(expected, actual, c, i, j);
      }
      AddsFirstCons(Segment(Del, [expected[i - 1]]), Walk(expected, actual, c, i - 1, j));
    }
  }

  lemma {:induction false} FusedDelsFirst(segs: seq<Segment>, stack: seq<Segment>)
    requires DelsFirst(segs) && AddsPushedFirst(stack)
    requires segs != [] && stack != [] ==> !(Last(segs).kind == Add && Last(stack).kind == Del)
    ensures DelsFirst(Fused(segs, stack))
    decreases |stack|
  {
    if stack != [] {
      DelsFirstPush(segs, Last(stack));
      AddsFirstInit(stack);
      FusedDelsFirst(Push(segs, Last(stack)), Init(stack));
    }
  }

  lemma WalkFusesDelsFirst(expected: string, actual: string, dp: array2<nat>)
    requires dp.Length0 == |expected| + 1 && dp.Length1 == |actual| + 1 && Filled(dp, expected, actual)
    requires Shaped(Rows(dp), expected, actual)
    ensures DelsFirst(Fused([], Walk(expected, actual, Rows(dp), |expected|, |actual|)))
  {
    RowsAreTable(dp, expected, actual);
    WalkAddsFirst(expected, actual, Rows(dp), |expected|, |actual|);
    FusedDelsFirst([], Walk(expected, actual, Rows(dp), |expected|, |actual|));
  }

  /**
    The diff is a merged diff of the two strings, and no diff of them keeps more characters.
   */
  method DiffChars(expected: string, actual: string) returns (segs: seq<Segment>)
    ensures IsDiff(segs, expected, actual) && Merged(segs)
    ensures Kept(segs) == Lcs(expected, actual)
    ensures forall other :: IsDiff(other, expected, actual) ==> Kept(other) <= Kept(segs)
    ensures DelsFirst(segs)
  {
    var m, n := |expected|, |actual|;
    if m == 0 && n == 0 {
      segs := [];
    } else if m == 0 {
      segs := [Segment(Add, actual)];
      SingleSegment(segs[0]);
    } else if n == 0 {
      segs := [Segment(Del, expected)];
      SingleSegment(segs[0]);
    } else {
      var dp := FillTable(expected, actual);
      WalkIsBestDiff(expected, actual, dp);
      WalkFusesDelsFirst(expected, actual, dp);
      var stack := WalkBack(expected, actual, dp);
      segs := MergeStack(stack);
    }
    forall other | IsDiff(other, expected, actual)
      ensures Kept(other) <= Kept(segs)
    {
      NoDiffKeepsMore(other, expected, actual);
    }
  }
}
