/** The string operations the Go driver builds on. */
module Text {

  // ---------------------------------------------------------------------------
  // Trimming
  // ---------------------------------------------------------------------------

  /** Unicode white space. */
  predicate IsSpace(c: char) {
    || c == ' ' || '\U{9}' <= c <= '\U{D}' || c == '\U{85}' || c == '\U{A0}' || c == '\U{1680}'
    || '\U{2000}' <= c <= '\U{200A}' || c == '\U{2028}' || c == '\U{2029}' || c == '\U{202F}'
    || c == '\U{205F}' || c == '\U{3000}'
  }

  /** No white space at either end. */
  predicate Trimmed(s: string) {
    s != "" ==> !IsSpace(s[0]) && !IsSpace(s[|s| - 1])
  }

  function TrimLeft(s: string): (r: string)
    ensures r != "" ==> !IsSpace(r[0])
    ensures forall c :: c in r ==> c in s
    ensures s == "" || !IsSpace(s[0]) ==> r == s
  {
    if s != "" && IsSpace(s[0]) then TrimLeft(s[1..]) else s
  }

  function TrimRight(s: string): (r: string)
    ensures r <= s && (r != "" ==> !IsSpace(r[|r| - 1]))
    ensures s == "" || !IsSpace(s[|s| - 1]) ==> r == s
  {
    if s != "" && IsSpace(s[|s| - 1]) then TrimRight(s[..|s| - 1]) else s
  }

  function TrimSpace(s: string): (r: string)
    ensures Trimmed(r) && (Trimmed(s) ==> r == s)
    ensures forall c :: c in r ==> c in s
  {
    TrimRight(TrimLeft(s))
  }

  lemma {:induction false} TrimLeftIsTail(s: string)
    ensures |TrimLeft(s)| <= |s| && TrimLeft(s) == s[|s| - |TrimLeft(s)|..]
    ensures forall i :: 0 <= i < |s| - |TrimLeft(s)| ==> IsSpace(s[i])
    decreases |s|
  {
    if s != "" && IsSpace(s[0]) {
      TrimLeftIsTail(s[1..]);
      var n := |s| - |TrimLeft(s)|;
      assert s[1..][n - 1..] == s[n..];
      assert forall i :: 1 <= i < n ==> s[i] == s[1..][i - 1];
    }
  }

  lemma {:induction false} TrimRightIsHead(s: string)
    ensures forall i :: |TrimRight(s)| <= i < |s| ==> IsSpace(s[i])
    decreases |s|
  {
    if s != "" && IsSpace(s[|s| - 1]) {
      TrimRightIsHead(s[..|s| - 1]);
    }
  }

  lemma TailOf(s: string, a: nat, r: string)
    requires a <= |s| && r <= s[a..]
    ensures a + |r| <= |s| && r == s[a..a + |r|]
  {
  }

  /** Trimming leaves a middle part and takes away white space only. */
  lemma {:induction false} TrimIsMiddle(s: string) returns (a: nat, b: nat)
    ensures a <= b <= |s| && TrimSpace(s) == s[a..b]
    ensures forall i :: 0 <= i < a || b <= i < |s| ==> IsSpace(s[i])
  {
    var t := TrimLeft(s);
    TrimLeftIsTail(s);
    TrimRightIsHead(t);
    a := |s| - |t|;
    b := a + |TrimRight(t)|;
    TailOf(s, a, TrimRight(t));
    forall i | b <= i < |s|
      ensures IsSpace(s[i])
    {
      assert s[a..][i - a] == s[i];
    }
  }

  // ---------------------------------------------------------------------------
  // Searching
  // ---------------------------------------------------------------------------

  predicate OccursAt(s: string, p: string, i: int) {
    0 <= i && i + |p| <= |s| && s[i..i + |p|] == p
  }

  /** The first occurrence at or after `from`, or -1. */
  function IndexFrom(s: string, p: string, from: nat): (r: int)
    requires from <= |s|
    ensures r >= 0 ==> from <= r && OccursAt(s, p, r) && forall i :: from <= i < r ==> !OccursAt(s, p, i)
    ensures r < 0 ==> r == -1 && forall i :: from <= i ==> !OccursAt(s, p, i)
    decreases |s| - from
  {
    if OccursAt(s, p, from) then from else if from == |s| then -1 else IndexFrom(s, p, from + 1)
  }

  function Index(s: string, p: string): (r: int)
    ensures r >= 0 ==> OccursAt(s, p, r) && forall i :: i < r ==> !OccursAt(s, p, i)
    ensures r < 0 ==> r == -1 && forall i :: !OccursAt(s, p, i)
  {
    IndexFrom(s, p, 0)
  }

  predicate Contains(s: string, p: string) {
    Index(s, p) >= 0
  }

  // ---------------------------------------------------------------------------
  // Lines
  // ---------------------------------------------------------------------------

  /** The pieces between newlines; always at least one. */
  function Split(s: string): (lines: seq<string>)
    ensures |lines| >= 1
  {
    if s == "" then [""]
    else if s[0] == '\n' then [""] + Split(s[1..])
    else var r := Split(s[1..]); [[s[0]] + r[0]] + r[1..]
  }

  function Join(lines: seq<string>): string {
    if |lines| == 0 then "" else if |lines| == 1 then lines[0] else lines[0] + ['\n'] + Join(lines[1..])
  }

  predicate OneLine(l: string) {
    '\n' !in l
  }

  predicate AllOneLine(lines: seq<string>) {
    forall l :: l in lines ==> OneLine(l)
  }

  lemma {:induction false} SplitIsLines(s: string)
    ensures AllOneLine(Split(s))
  {
    if s != "" {
      SplitIsLines(s[1..]);
      var r := Split(s[1..]);
      forall l | l in Split(s)
        ensures OneLine(l)
      {
        assert OneLine(r[0]);
        assert l in r || l == "" || l == [s[0]] + r[0];
      }
    }
  }

  lemma {:induction false} JoinOfSplit(s: string)
    ensures Join(Split(s)) == s
  {
    if s != "" {
      JoinOfSplit(s[1..]);
      var r := Split(s[1..]);
      if s[0] == '\n' {
        assert ([""] + r)[1..] == r;
      } else {
        var first := [s[0]] + r[0];
        assert ([first] + r[1..])[1..] == r[1..];
        assert Join([first] + r[1..]) == [s[0]] + Join(r);
      }
    }
  }

  lemma {:induction false} SplitOneLine(l: string)
    requires OneLine(l)
    ensures Split(l) == [l]
  {
    if l != "" {
      SplitOneLine(l[1..]);
      assert [l[0]] + l[1..] == l;
    }
  }

  lemma {:induction false} SplitFirstLine(l: string, s: string)
    requires OneLine(l)
    ensures Split(l + ['\n'] + s) == [l] + Split(s)
  {
    var t := l + ['\n'] + s;
    if l == "" {
      assert t[1..] == s;
    } else {
      SplitFirstLine(l[1..], s);
      assert t[1..] == l[1..] + ['\n'] + s;
      assert [l[0]] + l[1..] == l;
    }
  }

  lemma {:induction false} SplitOfJoin(lines: seq<string>)
    requires |lines| >= 1 && AllOneLine(lines)
    ensures Split(Join(lines)) == lines
  {
    assert OneLine(lines[0]);
    if |lines| == 1 {
      SplitOneLine(lines[0]);
    } else {
      SplitOfJoin(lines[1..]);
      SplitFirstLine(lines[0], Join(lines[1..]));
    }
  }

  lemma {:induction false} JoinOfTwo(a: seq<string>, b: seq<string>)
    requires |a| >= 1 && |b| >= 1
    ensures Join(a + b) == Join(a) + ['\n'] + Join(b)
  {
    if |a| == 1 {
      assert (a + b)[1..] == b;
    } else {
      JoinOfTwo(a[1..], b);
      assert (a + b)[1..] == a[1..] + b;
      assert Join(a + b) == a[0] + ['\n'] + (Join(a[1..]) + ['\n'] + Join(b));
    }
  }
}
