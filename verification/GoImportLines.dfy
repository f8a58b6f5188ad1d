/**
  What import extraction finds and keeps, said by the positions of a source's lines and without
  the scanner: a path is found exactly if some line declares it, paths come in the order in which
  lines first declare them, and the lines kept are those outside every block that are neither a
  package clause nor an import.
 */
module GoImportLines {
  import opened Text
  import opened GoImports

  // ---------------------------------------------------------------------------
  // Lines and blocks
  // ---------------------------------------------------------------------------

  predicate OpenLine(line: string) {
    TrimSpace(line) == "import (" || TrimSpace(line) == "import("
  }

  predicate CloseLine(line: string) {
    TrimSpace(line) == ")"
  }

  predicate ImportLine(line: string) {
    "import " <= TrimSpace(line)
  }

  predicate PackageLine(line: string) {
    "package " <= TrimSpace(line)
  }

  /** A blank line or a comment. */
  predicate SilentLine(line: string) {
    TrimSpace(line) == "" || "//" <= TrimSpace(line)
  }

  /** Line `k` stands in a block: a line before it opens one and none in between closes it. */
  ghost predicate InBlock(lines: seq<string>, k: nat)
    requires k <= |lines|
  {
    exists o :: 0 <= o < k && OpenSince(lines, o, k)
  }

  predicate OpenSince(lines: seq<string>, o: nat, k: nat)
    requires o < k <= |lines|
  {
    OpenLine(lines[o]) && forall c :: o < c < k ==> !CloseLine(lines[c])
  }

  /** `q` is what stands between the first two double quotes of `t`. */
  ghost predicate IsFirstQuoted(t: string, q: string) {
    exists a, b :: QuotesAt(t, a, b) && q == t[a + 1..b]
  }

  predicate QuotesAt(t: string, a: int, b: int) {
    && 0 <= a < b < |t| && t[a] == QUOTE && t[b] == QUOTE
    && (forall i :: 0 <= i < a ==> t[i] != QUOTE) && (forall i :: a < i < b ==> t[i] != QUOTE)
  }

  /** Line `k` can declare a path: in a block any line with content, elsewhere a single import. */
  ghost predicate MayDeclare(lines: seq<string>, k: nat)
    requires k < |lines|
  {
    if InBlock(lines, k) then !CloseLine(lines[k]) && !SilentLine(lines[k])
    else ImportLine(lines[k]) && !OpenLine(lines[k])
  }

  /** Line `k` declares the path `p`. */
  ghost predicate Declares(lines: seq<string>, k: nat, p: string) {
    && k < |lines| && MayDeclare(lines, k) && p != ""
    && exists q :: IsFirstQuoted(TrimSpace(lines[k]), q) && p == TrimSpace(q)
  }

  /** Line `k` is the first to declare `p`. */
  ghost predicate FirstDeclares(lines: seq<string>, k: nat, p: string) {
    Declares(lines, k, p) && forall i :: 0 <= i < k ==> !Declares(lines, i, p)
  }

  // ---------------------------------------------------------------------------
  // The quoted part
  // ---------------------------------------------------------------------------

  lemma QuoteAt(t: string, a: nat)
    requires a < |t|
    ensures OccursAt(t, [QUOTE], a) <==> t[a] == QUOTE
  {
    assert t[a..a + 1] == [t[a]];
  }

  lemma FirstQuote(t: string, a: nat)
    requires a < |t| && t[a] == QUOTE && forall i :: 0 <= i < a ==> t[i] != QUOTE
    ensures Index(t, [QUOTE]) == a
  {
    QuoteAt(t, a);
    forall i | 0 <= i < a
      ensures !OccursAt(t, [QUOTE], i)
    {
      QuoteAt(t, i);
    }
  }

  lemma ExtractsBetween(t: string, a: nat, b: nat)
    requires QuotesAt(t, a, b)
    ensures ExtractQuoted(t) == t[a + 1..b]
  {
    var u := t[a + 1..];
    FirstQuote(t, a);
    assert forall i :: 0 <= i < b - a - 1 ==> u[i] == t[a + 1 + i];
    FirstQuote(u, b - a - 1);
    assert u[..b - a - 1] == t[a + 1..b];
  }

  lemma QuotesFound(t: string) returns (a: nat, b: nat)
    requires ExtractQuoted(t) != ""
    ensures QuotesAt(t, a, b) && ExtractQuoted(t) == t[a + 1..b]
  {
    a := Index(t, [QUOTE]);
    var u := t[a + 1..];
    var n := Index(u, [QUOTE]);
    b := a + 1 + n;
    QuoteAt(t, a);
    QuoteAt(u, n);
    forall i | 0 <= i < a
      ensures t[i] != QUOTE
    {
      QuoteAt(t, i);
    }
    forall i | a < i < b
      ensures t[i] != QUOTE
    {
      QuoteAt(u, i - a - 1);
    }
  }

  /** The path a line may declare, as the scanner reads it. */
  function Reads(line: string): string {
    TrimSpace(ExtractQuoted(TrimSpace(line)))
  }

  lemma ReadsIff(line: string, p: string)
    requires p != ""
    ensures Reads(line) == p <==> exists q :: IsFirstQuoted(TrimSpace(line), q) && p == TrimSpace(q)
  {
    var t := TrimSpace(line);
    if Reads(line) == p {
      var a, b := QuotesFound(t);
      assert IsFirstQuoted(t, ExtractQuoted(t));
    }
    if q :| IsFirstQuoted(t, q) && p == TrimSpace(q) {
      var a, b :| QuotesAt(t, a, b) && q == t[a + 1..b];
      ExtractsBetween(t, a, b);
    }
  }

  // ---------------------------------------------------------------------------
  // The scanner, line by line
  // ---------------------------------------------------------------------------

  /** The scanner's state before line `k`. */
  function Before(lines: seq<string>, k: nat): Scan
    requires k <= |lines|
  {
    ScanLines(START, lines[..k])
  }

  lemma BeforeNext(lines: seq<string>, k: nat)
    requires k < |lines|
    ensures Before(lines, k + 1) == Step(Before(lines, k), lines[k])
  {
    assert lines[..k + 1] == lines[..k] + [lines[k]];
    ScanBoth(START, lines[..k], [lines[k]]);
  }

  lemma BlockNext(lines: seq<string>, k: nat)
    requires k < |lines|
    ensures InBlock(lines, k + 1) <==> (InBlock(lines, k) && !CloseLine(lines[k])) || OpenLine(lines[k])
  {
    if InBlock(lines, k) && !CloseLine(lines[k]) {
      var o :| 0 <= o < k && OpenSince(lines, o, k);
      StaysOpen(lines, o, k);
    }
    if OpenLine(lines[k]) {
      assert OpenSince(lines, k, k + 1);
    }
    if InBlock(lines, k + 1) && !OpenLine(lines[k]) {
      var o :| 0 <= o < k + 1 && OpenSince(lines, o, k + 1);
      StaysOpen(lines, o, k);
    }
  }

  lemma StaysOpen(lines: seq<string>, o: nat, k: nat)
    requires o <= k < |lines| && (o == k ==> !OpenLine(lines[k]))
    ensures OpenSince(lines, o, k + 1) <==> o < k && OpenSince(lines, o, k) && !CloseLine(lines[k])
  {
  }

  /** What one line does to the scanner, in terms of the line alone. */
  lemma StepByLine(s: Scan, line: string)
    ensures var s' := Step(s, line);
            && (s'.inBlock <==> (s.inBlock && !CloseLine(line)) || OpenLine(line))
            && s'.paths == (if (if s.inBlock then !CloseLine(line) && !SilentLine(line)
                                else ImportLine(line) && !OpenLine(line))
                            then Note(s.paths, ExtractQuoted(TrimSpace(line))) else s.paths)
            && s'.kept == (if s.inBlock || PackageLine(line) || OpenLine(line) || ImportLine(line)
                           then s.kept else s.kept + [line])
  {
  }

  lemma {:induction false} ScanKnowsBlock(lines: seq<string>, k: nat)
    requires k <= |lines|
    ensures Before(lines, k).inBlock <==> InBlock(lines, k)
  {
    if k > 0 {
      ScanKnowsBlock(lines, k - 1);
      BeforeNext(lines, k - 1);
      BlockNext(lines, k - 1);
      StepByLine(Before(lines, k - 1), lines[k - 1]);
    }
  }

  /** Line `k` adds the path it declares, if that is new. */
  lemma PathsNext(lines: seq<string>, k: nat)
    requires k < |lines|
    ensures var before, after := Before(lines, k).paths, Before(lines, k + 1).paths;
            if MayDeclare(lines, k) && Reads(lines[k]) != "" && Reads(lines[k]) !in before
            then after == before + [Reads(lines[k])] else after == before
  {
    BeforeNext(lines, k);
    ScanKnowsBlock(lines, k);
    StepByLine(Before(lines, k), lines[k]);
  }

  lemma DeclaresIff(lines: seq<string>, k: nat, p: string)
    requires k < |lines|
    ensures Declares(lines, k, p) <==> MayDeclare(lines, k) && p != "" && Reads(lines[k]) == p
  {
    if p != "" {
      ReadsIff(lines[k], p);
    }
  }

  ghost predicate DeclaredBefore(lines: seq<string>, k: nat, p: string) {
    exists m :: 0 <= m < k && Declares(lines, m, p)
  }

  lemma DeclaredNext(lines: seq<string>, k: nat, p: string)
    ensures DeclaredBefore(lines, k + 1, p) <==> DeclaredBefore(lines, k, p) || Declares(lines, k, p)
  {
    if DeclaredBefore(lines, k + 1, p) {
      var m :| 0 <= m < k + 1 && Declares(lines, m, p);
      assert m == k || DeclaredBefore(lines, k, p);
    }
    if DeclaredBefore(lines, k, p) {
      var m :| 0 <= m < k && Declares(lines, m, p);
      assert DeclaredBefore(lines, k + 1, p);
    }
  }

  lemma {:induction false} FoundIff(lines: seq<string>, k: nat, p: string)
    requires k <= |lines|
    ensures p in Before(lines, k).paths <==> DeclaredBefore(lines, k, p)
  {
    if k > 0 {
      FoundIff(lines, k - 1, p);
      PathsNext(lines, k - 1);
      DeclaresIff(lines, k - 1, p);
      DeclaredNext(lines, k - 1, p);
    }
  }

  // ---------------------------------------------------------------------------
  // The paths of a source
  // ---------------------------------------------------------------------------

  /** Some line of the source declares the path. */
  ghost predicate SourceDeclares(src: string, p: string) {
    exists k :: Declares(Split(src), k, p)
  }

  /** A path is extracted exactly if some line of the source declares it. */
  lemma ImportsFoundIff(src: string, p: string)
    ensures p in Extracted(src).paths <==> SourceDeclares(src, p)
  {
    var lines := Split(src);
    assert lines[..|lines|] == lines;
    FoundIff(lines, |lines|, p);
  }

  /** Of two paths of a list, the earlier one is first declared on an earlier line. */
  ghost predicate InOrder(lines: seq<string>, paths: seq<string>) {
    forall i, j, m: nat, n: nat ::
      0 <= i < j < |paths| && FirstDeclares(lines, m, paths[i]) && FirstDeclares(lines, n, paths[j]) ==> m < n
  }

  lemma OrderNext(lines: seq<string>, paths: seq<string>, k: nat)
    requires InOrder(lines, paths) && forall p :: p in paths ==> DeclaredBefore(lines, k, p)
    requires k < |lines| && Reads(lines[k]) !in paths && !DeclaredBefore(lines, k, Reads(lines[k]))
    ensures InOrder(lines, paths + [Reads(lines[k])])
  {
    var all := paths + [Reads(lines[k])];
    forall i, j, m: nat, n: nat |
      0 <= i < j < |all| && FirstDeclares(lines, m, all[i]) && FirstDeclares(lines, n, all[j])
      ensures m < n
    {
      assert all[i] == paths[i] && paths[i] in paths;
      if j == |paths| {
        var d :| 0 <= d < k && Declares(lines, d, paths[i]);
        assert m <= d && n >= k;
      } else {
        assert all[j] == paths[j];
      }
    }
  }

  lemma {:induction false} FoundInOrder(lines: seq<string>, k: nat)
    requires k <= |lines|
    ensures InOrder(lines, Before(lines, k).paths)
  {
    if k > 0 {
      var paths := Before(lines, k - 1).paths;
      FoundInOrder(lines, k - 1);
      PathsNext(lines, k - 1);
      forall p
        ensures p in paths <==> DeclaredBefore(lines, k - 1, p)
      {
        FoundIff(lines, k - 1, p);
      }
      if Before(lines, k).paths != paths {
        OrderNext(lines, paths, k - 1);
      }
    }
  }

  /** Paths are extracted in the order in which the source first declares them. */
  lemma ImportsInOrder(src: string)
    ensures InOrder(Split(src), Extracted(src).paths)
  {
    var lines := Split(src);
    assert lines[..|lines|] == lines;
    FoundInOrder(lines, |lines|);
  }

  // ---------------------------------------------------------------------------
  // The lines that are kept
  // ---------------------------------------------------------------------------

  /** Line `k` stands outside every block and is neither a package clause nor an import. */
  ghost predicate Stays(lines: seq<string>, k: nat)
    requires k < |lines|
  {
    !InBlock(lines, k) && !PackageLine(lines[k]) && !OpenLine(lines[k]) && !ImportLine(lines[k])
  }

  /** For each line, whether it stays. */
  ghost function StayFlags(lines: seq<string>): seq<bool> {
    seq(|lines|, k requires 0 <= k < |lines| => Stays(lines, k))
  }

  /** The positions before `k` at which a flag is set. */
  function Where(flags: seq<bool>, k: nat): seq<nat>
    requires k <= |flags|
  {
    if k == 0 then [] else if flags[k - 1] then Where(flags, k - 1) + [k - 1] else Where(flags, k - 1)
  }

  lemma {:induction false} WhereIsOrdered(flags: seq<bool>, k: nat)
    requires k <= |flags|
    ensures forall i :: 0 <= i < |Where(flags, k)| ==> Where(flags, k)[i] < k
    ensures forall i, j :: 0 <= i < j < |Where(flags, k)| ==> Where(flags, k)[i] < Where(flags, k)[j]
  {
    if k > 0 {
      WhereIsOrdered(flags, k - 1);
    }
  }

  lemma {:induction false} WhereIsSet(flags: seq<bool>, k: nat, i: nat)
    requires i < k <= |flags|
    ensures i in Where(flags, k) <==> flags[i]
  {
    WhereIsOrdered(flags, k - 1);
    if i < k - 1 {
      WhereIsSet(flags, k - 1, i);
    }
  }

  /** The lines of `kept` are those at the positions `at`. */
  predicate Picks(lines: seq<string>, at: seq<nat>, kept: seq<string>) {
    |kept| == |at| && forall i :: 0 <= i < |at| ==> at[i] < |lines| && kept[i] == lines[at[i]]
  }

  lemma PicksNext(lines: seq<string>, at: seq<nat>, kept: seq<string>, k: nat)
    requires Picks(lines, at, kept) && k < |lines|
    ensures Picks(lines, at + [k], kept + [lines[k]])
  {
  }

  lemma KeptNext(lines: seq<string>, k: nat)
    requires k < |lines|
    ensures Before(lines, k + 1).kept
            == if Stays(lines, k) then Before(lines, k).kept + [lines[k]] else Before(lines, k).kept
  {
    BeforeNext(lines, k);
    ScanKnowsBlock(lines, k);
    StepByLine(Before(lines, k), lines[k]);
  }

  /** One list for each number of lines read; line `k` is added exactly if its flag is set. */
  predicate GrowsByFlags(lines: seq<string>, flags: seq<bool>, lists: seq<seq<string>>) {
    && |flags| == |lines| && |lists| == |lines| + 1 && lists[0] == []
    && forall k :: 0 <= k < |lines| ==> AddsByFlag(lines, flags, lists, k)
  }

  predicate AddsByFlag(lines: seq<string>, flags: seq<bool>, lists: seq<seq<string>>, k: nat)
    requires k < |lines| == |flags| && |lists| == |lines| + 1
  {
    lists[k + 1] == if flags[k] then lists[k] + [lines[k]] else lists[k]
  }

  lemma {:induction false} PicksByFlags(lines: seq<string>, flags: seq<bool>, lists: seq<seq<string>>, k: nat)
    requires GrowsByFlags(lines, flags, lists) && k <= |lines|
    ensures Picks(lines, Where(flags, k), lists[k])
  {
    if k > 0 {
      PicksByFlags(lines, flags, lists, k - 1);
      assert AddsByFlag(lines, flags, lists, k - 1);
      if flags[k - 1] {
        PicksNext(lines, Where(flags, k - 1), lists[k - 1], k - 1);
      }
    }
  }

  ghost function KeptLists(lines: seq<string>): seq<seq<string>> {
    seq(|lines| + 1, k requires 0 <= k <= |lines| => Before(lines, k).kept)
  }

  lemma KeptGrows(lines: seq<string>)
    ensures GrowsByFlags(lines, StayFlags(lines), KeptLists(lines))
  {
    var lists, flags := KeptLists(lines), StayFlags(lines);
    forall k | 0 <= k < |lines|
      ensures AddsByFlag(lines, flags, lists, k)
    {
      KeptNext(lines, k);
    }
  }

  /** The cleaned source is exactly the lines that stay, unchanged and in order. */
  lemma KeptIsExactly(src: string)
    ensures var lines := Split(src);
            var at := Where(StayFlags(lines), |lines|);
            && Picks(lines, at, Extracted(src).kept)
            && (forall i, j :: 0 <= i < j < |at| ==> at[i] < at[j])
            && (forall i :: 0 <= i < |lines| ==> (i in at <==> Stays(lines, i)))
  {
    var lines := Split(src);
    var flags := StayFlags(lines);
    assert lines[..|lines|] == lines;
    KeptGrows(lines);
    PicksByFlags(lines, flags, KeptLists(lines), |lines|);
    WhereIsOrdered(flags, |lines|);
    forall i | 0 <= i < |lines|
      ensures i in Where(flags, |lines|) <==> Stays(lines, i)
    {
      WhereIsSet(flags, |lines|, i);
    }
  }

  // ---------------------------------------------------------------------------
  // The whole program
  // ---------------------------------------------------------------------------

  /** The program imports the header's paths and exactly the paths that the user's source declares. */
  lemma ProgramImportsIff(ps: seq<string>, rest: seq<string>, src: string, footer: string, p: string)
    requires HeaderPaths(ps) && AllPlain(rest) && AllOneLine(rest) && AllPlain(Split(footer))
    ensures SourceDeclares(Wrapped(Header(ps, rest), footer, src), p) <==> p in ps || SourceDeclares(src, p)
  {
    ImportsFoundIff(src, p);
    ImportsFoundIff(Wrapped(Header(ps, rest), footer, src), p);
    ProgramImportsOnce(ps, rest, src, footer);
  }
}
