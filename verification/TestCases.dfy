/**
  Which test cases a submission is run against, and what of a result its owner may see.
 */
module TestCases {
  import opened Prelude
  import opened JobTable

  /** An active row of `problem_test_cases`, in order_index order. */
  datatype ProblemTestCase = ProblemTestCase(
    externalId: string, inputData: string, expectedData: string, isHidden: bool)

  datatype Kind = RunKind | SubmitKind

  /** One entry of the result returned to the caller. */
  datatype Entry = Entry(
    testcaseId: string, verdict: Verdict, timeMs: Option<int>,
    actualOutput: Option<string>, stdoutOutput: Option<string>,
    inputData: Option<string>, expectedData: Option<string>)

  // ---------------------------------------------------------------------------
  // Selecting the tests to publish
  // ---------------------------------------------------------------------------

  function Visible(tcs: seq<ProblemTestCase>): seq<ProblemTestCase> {
    if tcs == [] then []
    else Visible(tcs[..|tcs| - 1]) + if tcs[|tcs| - 1].isHidden then [] else [tcs[|tcs| - 1]]
  }

  /** The table positions of the visible tests. */
  function Positions(tcs: seq<ProblemTestCase>): seq<nat> {
    if tcs == [] then []
    else Positions(tcs[..|tcs| - 1]) + if tcs[|tcs| - 1].isHidden then [] else [|tcs| - 1]
  }

  lemma {:induction false} PositionsMatch(tcs: seq<ProblemTestCase>)
    ensures |Positions(tcs)| == |Visible(tcs)|
    ensures forall k :: 0 <= k < |Positions(tcs)| ==>
              Positions(tcs)[k] < |tcs| && Visible(tcs)[k] == tcs[Positions(tcs)[k]]
    decreases |tcs|
  {
    if tcs != [] {
      PositionsMatch(tcs[..|tcs| - 1]);
    }
  }

  lemma {:induction false} PositionsIncrease(tcs: seq<ProblemTestCase>)
    ensures forall i, k :: 0 <= i < k < |Positions(tcs)| ==> Positions(tcs)[i] < Positions(tcs)[k]
    decreases |tcs|
  {
    if tcs != [] {
      PositionsIncrease(tcs[..|tcs| - 1]);
      PositionsMatch(tcs[..|tcs| - 1]);
    }
  }

  lemma {:induction false} PositionsCover(tcs: seq<ProblemTestCase>, i: nat)
    requires i < |tcs|
    ensures i in Positions(tcs) <==> !tcs[i].isHidden
    decreases |tcs|
  {
    if i < |tcs| - 1 {
      PositionsCover(tcs[..|tcs| - 1], i);
    } else {
      PositionsMatch(tcs[..|tcs| - 1]);
    }
  }

  /** The visible tests are exactly the non-hidden ones, each once and in table order. */
  lemma VisibleIsExactly(tcs: seq<ProblemTestCase>)
    ensures var idx := Positions(tcs);
            && |idx| == |Visible(tcs)|
            && (forall k :: 0 <= k < |idx| ==> idx[k] < |tcs| && Visible(tcs)[k] == tcs[idx[k]])
            && (forall i, k :: 0 <= i < k < |idx| ==> idx[i] < idx[k])
            && (forall i :: 0 <= i < |tcs| ==> (i in idx <==> !tcs[i].isHidden))
  {
    PositionsMatch(tcs);
    PositionsIncrease(tcs);
    forall i | 0 <= i < |tcs|
      ensures i in Positions(tcs) <==> !tcs[i].isHidden
    {
      PositionsCover(tcs, i);
    }
  }

  /** The in-place filter `visible := testCases[:0]`: survivors move to the front. */
  method KeepVisible(a: array<ProblemTestCase>) returns (n: nat)
    modifies a
    ensures n <= a.Length && a[..n] == Visible(old(a[..]))
  {
    n := 0;
    for i := 0 to a.Length
      invariant n <= i && a[..n] == Visible(old(a[..])[..i])
      invariant forall k :: i <= k < a.Length ==> a[k] == old(a[k])
    {
      assert old(a[..])[..i + 1][..i] == old(a[..])[..i];
      if !a[i].isHidden {
        a[n] := a[i];
        n := n + 1;
      }
    }
    assert old(a[..])[..a.Length] == old(a[..]);
  }

  function AsTestCase(tc: ProblemTestCase): TestCase {
    TestCase(tc.externalId, tc.inputData, tc.expectedData)
  }

  /** What `create` publishes for a table of active tests. */
  function Published(kind: Kind, table: seq<ProblemTestCase>): seq<TestCase> {
    var chosen := if kind == RunKind then Visible(table) else table;
    seq(|chosen|, k requires 0 <= k < |chosen| => AsTestCase(chosen[k]))
  }

  /** The rows that a request is run against: all of them, or the visible ones for a run. */
  predicate Wanted(kind: Kind, row: ProblemTestCase) {
    kind == SubmitKind || !row.isHidden
  }

  /** The positions of the wanted rows. */
  function Chosen(kind: Kind, table: seq<ProblemTestCase>): seq<nat> {
    if kind == RunKind then Positions(table) else seq(|table|, k requires 0 <= k => k)
  }

  /** `idx` lists the positions of the wanted rows, in table order. */
  ghost predicate IsChoice(kind: Kind, table: seq<ProblemTestCase>, idx: seq<nat>) {
    && (forall k :: 0 <= k < |idx| ==> idx[k] < |table|)
    && (forall i, k :: 0 <= i < k < |idx| ==> idx[i] < idx[k])
    && (forall i :: 0 <= i < |table| ==> (i in idx <==> Wanted(kind, table[i])))
  }

  /** A published test is a table row's id, input and expected output. */
  predicate CarriesRow(test: TestCase, row: ProblemTestCase) {
    test.id == row.externalId && test.input == row.inputData && test.expected == row.expectedData
  }

  ghost predicate CarriesRows(table: seq<ProblemTestCase>, idx: seq<nat>, tests: seq<TestCase>) {
    |idx| == |tests| && forall k :: 0 <= k < |tests| ==> idx[k] < |table| && CarriesRow(tests[k], table[idx[k]])
  }

  lemma AllChosen(table: seq<ProblemTestCase>)
    ensures IsChoice(SubmitKind, table, Chosen(SubmitKind, table))
  {
    forall i | 0 <= i < |table|
      ensures i in Chosen(SubmitKind, table)
    {
      assert Chosen(SubmitKind, table)[i] == i;
    }
  }

  lemma VisibleChosen(table: seq<ProblemTestCase>)
    ensures IsChoice(RunKind, table, Chosen(RunKind, table))
  {
    VisibleIsExactly(table);
  }

  lemma PublishedCarries(kind: Kind, table: seq<ProblemTestCase>)
    ensures CarriesRows(table, Chosen(kind, table), Published(kind, table))
  {
    PositionsMatch(table);
    var tests, idx := Published(kind, table), Chosen(kind, table);
    forall k | 0 <= k < |tests|
      ensures idx[k] < |table| && CarriesRow(tests[k], table[idx[k]])
    {
      if kind == RunKind {
        assert tests[k] == AsTestCase(Visible(table)[k]);
      } else {
        assert idx[k] == k && tests[k] == AsTestCase(table[k]);
      }
    }
  }

  /** What is published is the wanted rows, each with its own data, in table order. */
  lemma PublishedSelects(kind: Kind, table: seq<ProblemTestCase>)
    ensures IsChoice(kind, table, Chosen(kind, table))
    ensures CarriesRows(table, Chosen(kind, table), Published(kind, table))
  {
    PublishedCarries(kind, table);
    if kind == RunKind {
      VisibleChosen(table);
    } else {
      AllChosen(table);
    }
  }

  ghost predicate AnyWanted(kind: Kind, table: seq<ProblemTestCase>) {
    exists i :: 0 <= i < |table| && Wanted(kind, table[i])
  }

  lemma SomethingPublished(kind: Kind, table: seq<ProblemTestCase>)
    ensures Published(kind, table) != [] <==> AnyWanted(kind, table)
  {
    PublishedSelects(kind, table);
    var idx := Chosen(kind, table);
    if AnyWanted(kind, table) {
      var i :| 0 <= i < |table| && Wanted(kind, table[i]);
      assert i in idx;
    }
    if idx != [] {
      assert idx[0] in idx && Wanted(kind, table[idx[0]]);
    }
  }

  method SelectTests(kind: Kind, table: array<ProblemTestCase>) returns (tests: Option<seq<TestCase>>)
    modifies table
    ensures var p := Published(kind, old(table[..]));
            tests == if p == [] then None else Some(p)
    ensures tests.Some? <==> AnyWanted(kind, old(table[..]))
    ensures IsChoice(kind, old(table[..]), Chosen(kind, old(table[..])))
    ensures tests.Some? ==> CarriesRows(old(table[..]), Chosen(kind, old(table[..])), tests.value)
  {
    PublishedSelects(kind, table[..]);
    SomethingPublished(kind, table[..]);
    var n := table.Length;
    ghost var rows := table[..];
    if kind == RunKind {
      n := KeepVisible(table);
    }
    ghost var chosen := table[..n];
    assert chosen == if kind == RunKind then Visible(rows) else rows;
    if n == 0 {
      return None;
    }
    var out: seq<TestCase> := [];
    for i := 0 to n
      invariant |out| == i
      invariant forall k :: 0 <= k < i ==> out[k] == AsTestCase(chosen[k])
    {
      out := out + [AsTestCase(table[i])];
    }
    assert out == Published(kind, rows);
    return Some(out);
  }

  // ---------------------------------------------------------------------------
  // Enriching a result
  // ---------------------------------------------------------------------------

  /** The row a map built from the table holds for `id`: the last one with that id. */
  function Lookup(tcs: seq<ProblemTestCase>, id: string): Option<ProblemTestCase> {
    if tcs == [] then None
    else if tcs[|tcs| - 1].externalId == id then Some(tcs[|tcs| - 1])
    else Lookup(tcs[..|tcs| - 1], id)
  }

  function EnrichEntry(tcs: seq<ProblemTestCase>, e: Entry): Entry {
    var tc := Lookup(tcs, e.testcaseId);
    if tc.None? || tc.value.isHidden then e.(actualOutput := None, stdoutOutput := None)
    else e.(inputData := Some(tc.value.inputData), expectedData := Some(tc.value.expectedData))
  }

  function Enriched(tcs: seq<ProblemTestCase>, entries: seq<Entry>): seq<Entry> {
    seq(|entries|, k requires 0 <= k < |entries| => EnrichEntry(tcs, entries[k]))
  }

  method IndexTests(tcs: seq<ProblemTestCase>) returns (byId: map<string, ProblemTestCase>)
    ensures forall id :: if id in byId then Lookup(tcs, id) == Some(byId[id]) else Lookup(tcs, id) == None
  {
    byId := map[];
    for n := 0 to |tcs|
      invariant forall id :: if id in byId then Lookup(tcs[..n], id) == Some(byId[id]) else Lookup(tcs[..n], id) == None
    {
      assert tcs[..n + 1][..n] == tcs[..n];
      byId := byId[tcs[n].externalId := tcs[n]];
    }
    assert tcs[..|tcs|] == tcs;
  }

  /** `read` is None when the test-case query failed; the entries are then left alone. */
  method EnrichResult(entries: array<Entry>, read: Option<seq<ProblemTestCase>>)
    modifies entries
    ensures entries[..] == if read.None? then old(entries[..]) else Enriched(read.value, old(entries[..]))
  {
    if entries.Length == 0 || read.None? {
      return;
    }
    ghost var before := entries[..];
    var byId := IndexTests(read.value);
    for i := 0 to entries.Length
      invariant forall k :: 0 <= k < i ==> entries[k] == EnrichEntry(read.value, before[k])
      invariant forall k :: i <= k < entries.Length ==> entries[k] == before[k]
    {
      var entry := entries[i];
      if entry.testcaseId !in byId || byId[entry.testcaseId].isHidden {
        entries[i] := entry.(actualOutput := None, stdoutOutput := None);
      } else {
        var tc := byId[entry.testcaseId];
        entries[i] := entry.(inputData := Some(tc.inputData), expectedData := Some(tc.expectedData));
      }
    }
  }

  // ---------------------------------------------------------------------------
  // Independence from hidden tests
  // ---------------------------------------------------------------------------

  /** The tables differ at most in the input and expected data of hidden tests. */
  predicate SameButHidden(s: seq<ProblemTestCase>, t: seq<ProblemTestCase>) {
    && |s| == |t|
    && forall k :: 0 <= k < |s| ==>
         s[k] == t[k] || (s[k].isHidden && t[k].isHidden && s[k].externalId == t[k].externalId)
  }

  lemma {:induction false} LookupIgnoresHiddenData(s: seq<ProblemTestCase>, t: seq<ProblemTestCase>, id: string)
    requires SameButHidden(s, t)
    ensures var a, b := Lookup(s, id), Lookup(t, id);
            a == b || (a.Some? && b.Some? && a.value.isHidden && b.value.isHidden)
    decreases |s|
  {
    if s != [] {
      LookupIgnoresHiddenData(s[..|s| - 1], t[..|t| - 1], id);
    }
  }

  lemma {:induction false} VisibleIgnoresHiddenData(s: seq<ProblemTestCase>, t: seq<ProblemTestCase>)
    requires SameButHidden(s, t)
    ensures Visible(s) == Visible(t)
    decreases |s|
  {
    if s != [] {
      VisibleIgnoresHiddenData(s[..|s| - 1], t[..|t| - 1]);
    }
  }

  /** Neither the enriched result nor what a run publishes depends on hidden data. */
  lemma HiddenDataIsIndependent(s: seq<ProblemTestCase>, t: seq<ProblemTestCase>, entries: seq<Entry>)
    requires SameButHidden(s, t)
    ensures Enriched(s, entries) == Enriched(t, entries)
    ensures Published(RunKind, s) == Published(RunKind, t)
  {
    forall k | 0 <= k < |entries|
      ensures EnrichEntry(s, entries[k]) == EnrichEntry(t, entries[k])
    {
      LookupIgnoresHiddenData(s, t, entries[k].testcaseId);
    }
    VisibleIgnoresHiddenData(s, t);
  }

  predicate IsLastWithId(tcs: seq<ProblemTestCase>, k: int, id: string) {
    && 0 <= k < |tcs| && tcs[k].externalId == id
    && forall i :: k < i < |tcs| ==> tcs[i].externalId != id
  }

  /**
    If the last test with an entry's id is visible, the entry gets that test's input and expected
    data; otherwise it loses its outputs. Nothing else of it changes.
   */
  lemma OutputsShownIffVisible(tcs: seq<ProblemTestCase>, e: Entry)
    ensures var shown := EnrichEntry(tcs, e);
            && (forall k :: IsLastWithId(tcs, k, e.testcaseId) && !tcs[k].isHidden ==>
                  shown == Entry(e.testcaseId, e.verdict, e.timeMs, e.actualOutput, e.stdoutOutput,
                                 Some(tcs[k].inputData), Some(tcs[k].expectedData)))
            && ((forall k :: IsLastWithId(tcs, k, e.testcaseId) ==> tcs[k].isHidden) ==>
                  shown == Entry(e.testcaseId, e.verdict, e.timeMs, None, None, e.inputData, e.expectedData))
  {
    LookupIsLast(tcs, e.testcaseId);
  }

  lemma {:induction false} LookupIsLast(tcs: seq<ProblemTestCase>, id: string)
    ensures match Lookup(tcs, id)
            case None => forall k :: 0 <= k < |tcs| ==> tcs[k].externalId != id
            case Some(tc) => exists k :: IsLastWithId(tcs, k, id) && tcs[k] == tc
    decreases |tcs|
  {
    if tcs != [] && tcs[|tcs| - 1].externalId == id {
      assert IsLastWithId(tcs, |tcs| - 1, id);
    } else if tcs != [] {
      var rest := tcs[..|tcs| - 1];
      LookupIsLast(rest, id);
      if Lookup(rest, id).Some? {
        var k :| IsLastWithId(rest, k, id) && rest[k] == Lookup(rest, id).value;
        assert IsLastWithId(tcs, k, id);
      }
    }
  }
}
