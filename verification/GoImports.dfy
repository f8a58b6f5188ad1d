/**
  How the Go driver merges a user's imports into its own header: the import declarations are
  taken out of the user's source line by line, and the new ones are written into the header's
  import block.
 */
module GoImports {
  import opened Text

  // ---------------------------------------------------------------------------
  // Taking imports out
  // ---------------------------------------------------------------------------

  const QUOTE: char := '\"'

  /** The contents of the first double-quoted part of a line, or the empty string. */
  function ExtractQuoted(s: string): (q: string)
    ensures QUOTE !in q && (forall c :: c in q ==> c in s)
    ensures q != "" ==> OccursAt(s, [QUOTE] + q + [QUOTE], Index(s, [QUOTE]))
  {
    var a := Index(s, [QUOTE]);
    if a < 0 then ""
    else
      var t := s[a + 1..];
      var b := Index(t, [QUOTE]);
      if b < 0 then ""
      else
        BetweenQuotes(s, a, t, b);
        t[..b]
  }

  lemma OccursChar(s: string, p: string, i: int, k: int)
    requires OccursAt(s, p, i) && i <= k < i + |p|
    ensures s[k] == p[k - i] && s[k] in s && s[k] in p
  {
    assert s[i..i + |p|][k - i] == s[k];
  }

  lemma BetweenQuotes(s: string, a: nat, t: string, b: nat)
    requires OccursAt(s, [QUOTE], a) && t == s[a + 1..] && OccursAt(t, [QUOTE], b)
    requires forall i :: 0 <= i < b ==> !OccursAt(t, [QUOTE], i)
    ensures QUOTE !in t[..b] && (forall c :: c in t[..b] ==> c in s)
    ensures OccursAt(s, [QUOTE] + t[..b] + [QUOTE], a)
  {
    OccursChar(s, [QUOTE], a, a);
    OccursChar(t, [QUOTE], b, b);
    forall i | 0 <= i < b
      ensures t[i] != QUOTE
    {
      if t[i] == QUOTE {
        assert t[i..i + 1] == [QUOTE];
        assert OccursAt(t, [QUOTE], i);
      }
    }
    var q := [QUOTE] + t[..b] + [QUOTE];
    forall k | 0 <= k < |q|
      ensures s[a + k] == q[k]
    {
      assert 0 < k < |q| - 1 ==> q[k] == t[k - 1];
      assert k > 0 ==> s[a + k] == t[k - 1];
    }
    assert s[a..a + |q|] == q;
  }

  predicate IsPackage(t: string) {
    "package " <= t
  }

  predicate OpensBlock(t: string) {
    t == "import (" || t == "import("
  }

  predicate IsImport(t: string) {
    "import " <= t
  }

  predicate ClosesBlock(t: string) {
    t == ")"
  }

  predicate IsComment(t: string) {
    "//" <= t
  }

  /** A line that is kept when it stands outside an import block. */
  predicate Plain(line: string) {
    var t := TrimSpace(line);
    !IsPackage(t) && !OpensBlock(t) && !IsImport(t)
  }

  datatype Scan = Scan(paths: seq<string>, kept: seq<string>, inBlock: bool)

  const START := Scan([], [], false)

  function Note(paths: seq<string>, quoted: string): seq<string> {
    var p := TrimSpace(quoted);
    if p == "" || p in paths then paths else paths + [p]
  }

  function Step(s: Scan, line: string): Scan {
    var t := TrimSpace(line);
    if s.inBlock then
      if ClosesBlock(t) then s.(inBlock := false)
      else if t == "" || IsComment(t) then s
      else s.(paths := Note(s.paths, ExtractQuoted(t)))
    else if IsPackage(t) then s
    else if OpensBlock(t) then s.(inBlock := true)
    else if IsImport(t) then s.(paths := Note(s.paths, ExtractQuoted(t)))
    else s.(kept := s.kept + [line])
  }

  function ScanLines(s: Scan, lines: seq<string>): Scan
    decreases |lines|
  {
    if lines == [] then s else ScanLines(Step(s, lines[0]), lines[1..])
  }

  function Extracted(src: string): Scan {
    ScanLines(START, Split(src))
  }

  method ExtractGoImports(src: string) returns (importPaths: seq<string>, cleaned: string)
    ensures importPaths == Extracted(src).paths && cleaned == Join(Extracted(src).kept)
  {
    importPaths := [];
    var seen: set<string> := {};
    var lines := Split(src);
    var out: seq<string> := [];
    var inImportBlock := false;
    for i := 0 to |lines|
      invariant forall p :: p in seen <==> p in importPaths
      invariant ScanLines(Scan(importPaths, out, inImportBlock), lines[i..]) == Extracted(src)
    {
      var line := lines[i];
      assert lines[i..][1..] == lines[i + 1..];
      ghost var before := Scan(importPaths, out, inImportBlock);
      var trimmed := TrimSpace(line);
      var quoted := "";
      if inImportBlock {
        if ClosesBlock(trimmed) {
          inImportBlock := false;
        } else if !(trimmed == "" || IsComment(trimmed)) {
          quoted := ExtractQuoted(trimmed);
        }
      } else if IsPackage(trimmed) {
      } else if OpensBlock(trimmed) {
        inImportBlock := true;
      } else if IsImport(trimmed) {
        quoted := ExtractQuoted(trimmed);
      } else {
        out := out + [line];
      }
      var p := TrimSpace(quoted);
      if p != "" && p !in seen {
        seen := seen + {p};
        importPaths := importPaths + [p];
      }
      assert Scan(importPaths, out, inImportBlock) == Step(before, line);
    }
    cleaned := Join(out);
  }

  lemma {:induction false} ScanBoth(s: Scan, a: seq<string>, b: seq<string>)
    ensures ScanLines(s, a + b) == ScanLines(ScanLines(s, a), b)
    decreases |a|
  {
    if a == [] {
      assert a + b == b;
    } else {
      assert (a + b)[1..] == a[1..] + b;
      ScanBoth(Step(s, a[0]), a[1..], b);
    }
  }

  // ---------------------------------------------------------------------------
  // What is found, and what is kept
  // ---------------------------------------------------------------------------

  predicate AllPlain(lines: seq<string>) {
    forall l :: l in lines ==> Plain(l)
  }

  /** A path that can stand between quotes on a line of its own. */
  predicate IsPath(p: string) {
    p != "" && Trimmed(p) && QUOTE !in p && OneLine(p)
  }

  predicate Paths(ps: seq<string>) {
    && (forall p :: p in ps ==> IsPath(p))
    && (forall i, k :: 0 <= i < k < |ps| ==> ps[i] != ps[k])
  }

  ghost predicate ScanOk(s: Scan) {
    Paths(s.paths) && AllOneLine(s.kept) && AllPlain(s.kept)
  }

  lemma NoteKeepsPaths(paths: seq<string>, quoted: string)
    requires Paths(paths) && QUOTE !in quoted && OneLine(quoted)
    ensures Paths(Note(paths, quoted))
  {
  }

  lemma StepKeepsOk(s: Scan, line: string)
    requires ScanOk(s) && OneLine(line)
    ensures ScanOk(Step(s, line))
  {
    NoteKeepsPaths(s.paths, ExtractQuoted(TrimSpace(line)));
    if !s.inBlock && Plain(line) {
      KeepPlain(s.kept, line);
    }
  }

  lemma KeepPlain(kept: seq<string>, line: string)
    requires AllOneLine(kept) && AllPlain(kept) && OneLine(line) && Plain(line)
    ensures AllOneLine(kept + [line]) && AllPlain(kept + [line])
  {
  }

  lemma {:induction false} ScanKeepsOk(s: Scan, lines: seq<string>)
    requires ScanOk(s) && AllOneLine(lines)
    ensures ScanOk(ScanLines(s, lines))
    decreases |lines|
  {
    if lines != [] {
      assert OneLine(lines[0]);
      StepKeepsOk(s, lines[0]);
      ScanKeepsOk(Step(s, lines[0]), lines[1..]);
    }
  }

  /** The paths found are well-formed and distinct; the lines kept are plain. */
  lemma ExtractedOk(src: string)
    ensures ScanOk(Extracted(src))
  {
    SplitIsLines(src);
    ScanKeepsOk(START, Split(src));
  }

  lemma StepOfPlain(s: Scan, line: string)
    requires !s.inBlock && Plain(line)
    ensures Step(s, line) == s.(kept := s.kept + [line])
  {
  }

  lemma MoveLine(kept: seq<string>, lines: seq<string>)
    requires lines != []
    ensures kept + [lines[0]] + lines[1..] == kept + lines
  {
  }

  lemma {:induction false} ScanOfPlain(s: Scan, lines: seq<string>)
    requires !s.inBlock && AllPlain(lines)
    ensures ScanLines(s, lines) == s.(kept := s.kept + lines)
    decreases |lines|
  {
    if lines == [] {
      assert s.kept + lines == s.kept;
    } else {
      assert Plain(lines[0]);
      StepOfPlain(s, lines[0]);
      ScanOfPlain(s.(kept := s.kept + [lines[0]]), lines[1..]);
      MoveLine(s.kept, lines);
    }
  }

  lemma PlainSourceIsKept(src: string)
    requires AllPlain(Split(src))
    ensures Extracted(src).paths == [] && Join(Extracted(src).kept) == src
  {
    ScanOfPlain(START, Split(src));
    assert [] + Split(src) == Split(src);
    JoinOfSplit(src);
  }

  lemma EmptyIsPlain()
    ensures Plain("") && AllPlain([""])
  {
  }

  /** Cleaned text splits into the lines that were kept, or into one empty line. */
  lemma SplitOfKept(kept: seq<string>)
    requires AllOneLine(kept) && AllPlain(kept)
    ensures AllPlain(Split(Join(kept))) && AllOneLine(Split(Join(kept)))
    ensures kept != [] ==> Split(Join(kept)) == kept
  {
    if kept != [] {
      SplitOfJoin(kept);
    } else {
      EmptyIsPlain();
    }
  }

  /** Extracting again from the cleaned source finds nothing and changes nothing. */
  lemma ExtractTwice(src: string)
    ensures var cleaned := Join(Extracted(src).kept);
            Extracted(cleaned).paths == [] && Join(Extracted(cleaned).kept) == cleaned
  {
    ExtractedOk(src);
    SplitOfKept(Extracted(src).kept);
    PlainSourceIsKept(Join(Extracted(src).kept));
  }

  /** Each line is kept at most once, and in a block or on a special line not at all. */
  lemma {:induction false} KeptIsShorter(s: Scan, lines: seq<string>)
    ensures |ScanLines(s, lines).kept| <= |s.kept| + |lines|
    ensures !s.inBlock && !AllPlain(lines) ==> |ScanLines(s, lines).kept| < |s.kept| + |lines|
    decreases |lines|
  {
    if lines != [] {
      KeptIsShorter(Step(s, lines[0]), lines[1..]);
    }
  }

  /** The source comes back unchanged exactly when every line of it is plain. */
  lemma UnchangedIffPlain(src: string)
    ensures Join(Extracted(src).kept) == src <==> AllPlain(Split(src))
  {
    if AllPlain(Split(src)) {
      PlainSourceIsKept(src);
    } else {
      KeptIsShorter(START, Split(src));
      ExtractedOk(src);
      SplitOfKept(Extracted(src).kept);
    }
  }

  // ---------------------------------------------------------------------------
  // Writing them into the header
  // ---------------------------------------------------------------------------

  const MARK: string := "import ("

  function Quoted(p: string): string {
    [QUOTE] + p + [QUOTE]
  }

  function PathLine(p: string): string {
    ['\t'] + Quoted(p)
  }

  /** One line for each path. */
  function Written(ps: seq<string>): string {
    if ps == [] then "" else Written(ps[..|ps| - 1]) + PathLine(ps[|ps| - 1]) + ['\n']
  }

  /** The paths whose quoted form is not in the block. */
  function Missing(block: string, ps: seq<string>): seq<string> {
    if ps == [] then []
    else
      var init, p := Missing(block, ps[..|ps| - 1]), ps[|ps| - 1];
      if Contains(block, Quoted(p)) then init else init + [p]
  }

  /** Where the import block ends: the first closing parenthesis after its mark. */
  function BlockEnd(header: string): (end: int)
    ensures end < 0 || 0 <= Index(header, MARK) <= end <= |header|
  {
    var idx := Index(header, MARK);
    if idx < 0 then -1
    else
      var rel := Index(header[idx..], [')']);
      if rel < 0 then -1 else idx + rel
  }

  function Injected(header: string, userImports: seq<string>): string {
    var end := BlockEnd(header);
    if end < 0 then header
    else header[..end] + Written(Missing(header[Index(header, MARK)..end], userImports)) + header[end..]
  }

  lemma WrittenNext(ps: seq<string>, p: string)
    ensures Written(ps + [p]) == Written(ps) + PathLine(p) + ['\n']
  {
    assert (ps + [p])[..|ps|] == ps;
  }

  method WriteMissing(block: string, userImports: seq<string>) returns (add: string)
    ensures add == Written(Missing(block, userImports))
  {
    add := "";
    for i := 0 to |userImports|
      invariant add == Written(Missing(block, userImports[..i]))
    {
      assert userImports[..i + 1][..i] == userImports[..i];
      WrittenNext(Missing(block, userImports[..i]), userImports[i]);
      if Contains(block, Quoted(userImports[i])) {
        continue;
      }
      add := add + PathLine(userImports[i]) + ['\n'];
    }
    assert userImports[..|userImports|] == userImports;
  }

  lemma NothingInserted(header: string, end: nat)
    requires end <= |header|
    ensures header[..end] + "" + header[end..] == header
  {
  }

  /** A header without an import block, or whose block is not closed, stays as it is. */
  lemma NoBlockNoChange(header: string, userImports: seq<string>)
    requires !Contains(header, MARK) || !Contains(header[Index(header, MARK)..], [')']) || userImports == []
    ensures Injected(header, userImports) == header
  {
    if BlockEnd(header) >= 0 {
      NothingInserted(header, BlockEnd(header));
    }
  }

  method InjectGoImports(header: string, userImports: seq<string>) returns (merged: string)
    ensures merged == Injected(header, userImports)
  {
    merged := header;
    if |userImports| == 0 {
      if BlockEnd(header) >= 0 {
        NothingInserted(header, BlockEnd(header));
      }
      return;
    }
    var idx := Index(header, MARK);
    if idx < 0 {
      return;
    }
    var endRel := Index(header[idx..], [')']);
    if endRel < 0 {
      return;
    }
    var end := idx + endRel;
    var add := WriteMissing(header[idx..end], userImports);
    NothingInserted(header, end);
    if |add| != 0 {
      merged := header[..end] + add + header[end..];
    }
  }

  // ---------------------------------------------------------------------------
  // The driver's header
  // ---------------------------------------------------------------------------

  function PathLines(ps: seq<string>): seq<string> {
    if ps == [] then [] else PathLines(ps[..|ps| - 1]) + [PathLine(ps[|ps| - 1])]
  }

  const PACKAGE_LINE: string := "package main"

  /** The lines of a header: package clause, import block, and then `rest`. */
  function HeaderLines(ps: seq<string>, rest: seq<string>): seq<string> {
    [PACKAGE_LINE, "", MARK] + PathLines(ps) + [[')']] + rest
  }

  function Header(ps: seq<string>, rest: seq<string>): string {
    Join(HeaderLines(ps, rest))
  }

  /** The paths the driver itself imports. */
  const DRIVER_PATHS: seq<string> := ["encoding/json", "fmt", "os"]

  lemma {:induction false} JoinOfPathLines(ps: seq<string>, lines: seq<string>)
    requires |lines| >= 1
    ensures Join(PathLines(ps) + lines) == Written(ps) + Join(lines)
    decreases |ps|
  {
    if ps == [] {
      assert PathLines(ps) + lines == lines;
    } else {
      var init, p := ps[..|ps| - 1], ps[|ps| - 1];
      assert PathLines(ps) + lines == PathLines(init) + ([PathLine(p)] + lines);
      JoinOfPathLines(init, [PathLine(p)] + lines);
      assert ([PathLine(p)] + lines)[1..] == lines;
      assert Join([PathLine(p)] + lines) == PathLine(p) + ['\n'] + Join(lines);
    }
  }

  /** What stands before the block, the block, and what starts with its closing parenthesis. */
  const PREAMBLE: string := PACKAGE_LINE + ['\n', '\n']

  function Block(ps: seq<string>): string {
    MARK + ['\n'] + Written(ps)
  }

  function Closing(rest: seq<string>): (t: string)
    ensures |t| >= 1 && t[0] == ')'
  {
    Join([[')']] + rest)
  }

  lemma HeaderText(ps: seq<string>, rest: seq<string>)
    ensures Header(ps, rest) == PREAMBLE + Block(ps) + Closing(rest)
  {
    var top, tail := [PACKAGE_LINE, "", MARK], PathLines(ps) + ([[')']] + rest);
    assert HeaderLines(ps, rest) == top + tail;
    JoinOfTwo(top, tail);
    JoinOfPathLines(ps, [[')']] + rest);
    JoinOfTop();
  }

  lemma JoinOfTop()
    ensures Join([PACKAGE_LINE, "", MARK]) == PREAMBLE + MARK
  {
    JoinOfTwo([PACKAGE_LINE], ["", MARK]);
    JoinOfTwo([""], [MARK]);
    assert [PACKAGE_LINE] + ["", MARK] == [PACKAGE_LINE, "", MARK];
    assert [""] + [MARK] == ["", MARK];
  }

  /** The letters of the mark's start are nowhere next to each other in the preamble. */
  lemma NoMarkIn(i: nat)
    requires i < |PREAMBLE|
    ensures !(PREAMBLE[i] == MARK[0] && (PREAMBLE + MARK)[i + 1] == MARK[1])
  {
  }

  lemma MarkIsFirst(text: string)
    requires PREAMBLE + MARK <= text
    ensures Index(text, MARK) == |PREAMBLE|
  {
    assert text[..|PREAMBLE| + |MARK|] == PREAMBLE + MARK;
    assert OccursAt(text, MARK, |PREAMBLE|);
    forall i | 0 <= i < |PREAMBLE|
      ensures !OccursAt(text, MARK, i)
    {
      if OccursAt(text, MARK, i) {
        OccursChar(text, MARK, i, i);
        OccursChar(text, MARK, i, i + 1);
        NoMarkIn(i);
        assert false;
      }
    }
  }

  /** A path of the header, which must not hide the end of the block. */
  predicate HeaderPaths(ps: seq<string>) {
    Paths(ps) && forall p :: p in ps ==> ')' !in p
  }

  lemma {:induction false} WrittenHasNoClose(ps: seq<string>)
    requires forall p :: p in ps ==> ')' !in p
    ensures ')' !in Written(ps)
    decreases |ps|
  {
    if ps != [] {
      WrittenHasNoClose(ps[..|ps| - 1]);
      assert ps[|ps| - 1] in ps;
    }
  }

  lemma FirstClose(block: string, tail: string)
    requires ')' !in block && |tail| >= 1 && tail[0] == ')'
    ensures Index(block + tail, [')']) == |block|
  {
    var t := block + tail;
    assert t[|block|..|block| + 1] == [')'];
    assert OccursAt(t, [')'], |block|);
    forall i | 0 <= i < |block|
      ensures !OccursAt(t, [')'], i)
    {
      assert t[i..i + 1] == [block[i]];
    }
  }

  lemma BlockIsFound(ps: seq<string>, rest: seq<string>)
    requires HeaderPaths(ps)
    ensures var header := Header(ps, rest);
            && Index(header, MARK) == |PREAMBLE| && BlockEnd(header) == |PREAMBLE| + |Block(ps)|
            && header[..BlockEnd(header)] == PREAMBLE + Block(ps)
            && header[|PREAMBLE|..BlockEnd(header)] == Block(ps)
            && header[BlockEnd(header)..] == Closing(rest)
  {
    var header := Header(ps, rest);
    HeaderText(ps, rest);
    MarkIsFirst(header);
    ThreeParts(PREAMBLE, Block(ps), Closing(rest));
    WrittenHasNoClose(ps);
    FirstClose(Block(ps), Closing(rest));
  }

  lemma ThreeParts(a: string, b: string, c: string)
    ensures var s := a + b + c;
            && s[|a|..] == b + c && s[..|a| + |b|] == a + b && s[|a|..|a| + |b|] == b && s[|a| + |b|..] == c
  {
  }

  // ---------------------------------------------------------------------------
  // A path is in the block exactly when its quoted form is
  // ---------------------------------------------------------------------------

  lemma QuotedInLine(h: string, p: string, i: int)
    requires IsPath(h) && IsPath(p) && OccursAt(PathLine(h) + ['\n'], Quoted(p), i)
    ensures p == h
  {
    var line := PathLine(h) + ['\n'];
    var q := line[i..i + |p| + 2];
    assert q == Quoted(p);
    assert line[i] == q[0] && line[i + |p| + 1] == q[|p| + 1];
    assert line[i] == QUOTE && line[i + |p| + 1] == QUOTE;
    forall k | 2 <= k < |h| + 2
      ensures line[k] != QUOTE
    {
      assert line[k] == h[k - 2];
    }
    assert i == 1 && |p| == |h|;
    assert p == q[1..|p| + 1] && h == line[2..|h| + 2];
  }

  /** An occurrence without a newline does not reach over the end of a line. */
  lemma OccursInPart(a: string, b: string, q: string, i: int)
    requires OccursAt(a + b, q, i) && OneLine(q) && |q| >= 1
    requires a != "" && a[|a| - 1] == '\n'
    ensures OccursAt(a, q, i) || OccursAt(b, q, i - |a|)
  {
    var t := a + b;
    if i + |q| <= |a| {
      assert a[i..i + |q|] == t[i..i + |q|];
    } else if i >= |a| {
      assert b[i - |a|..i - |a| + |q|] == t[i..i + |q|];
    } else {
      OccursChar(t, q, i, |a| - 1);
      assert false;
    }
  }

  lemma {:induction false} QuotedInBlock(ps: seq<string>, p: string, i: int)
    requires IsPath(p) && (forall h :: h in ps ==> IsPath(h)) && OccursAt(Block(ps), Quoted(p), i)
    ensures p in ps
    decreases |ps|
  {
    if ps == [] {
      MarkHasNoQuote();
      OccursChar(Block(ps), Quoted(p), i, i);
      assert false;
    } else {
      var init, h := ps[..|ps| - 1], ps[|ps| - 1];
      assert Block(ps) == Block(init) + (PathLine(h) + ['\n']);
      OccursInPart(Block(init), PathLine(h) + ['\n'], Quoted(p), i);
      if OccursAt(Block(init), Quoted(p), i) {
        QuotedInBlock(init, p, i);
      } else {
        assert h in ps;
        QuotedInLine(h, p, i - |Block(init)|);
      }
    }
  }

  lemma MarkHasNoQuote()
    ensures QUOTE !in Block([])
  {
  }

  lemma {:induction false} PathIsQuoted(ps: seq<string>, p: string) returns (i: int)
    requires p in ps
    ensures OccursAt(Block(ps), Quoted(p), i)
    decreases |ps|
  {
    var init, h := ps[..|ps| - 1], ps[|ps| - 1];
    assert Block(ps) == Block(init) + (PathLine(h) + ['\n']);
    if p == h {
      i := |Block(init)| + 1;
      assert Block(ps)[i..i + |p| + 2] == Quoted(p);
    } else {
      i := PathIsQuoted(init, p);
      assert Block(ps)[i..i + |p| + 2] == Block(init)[i..i + |p| + 2];
    }
  }

  lemma ContainsIffPath(ps: seq<string>, p: string)
    requires IsPath(p) && forall h :: h in ps ==> IsPath(h)
    ensures Contains(Block(ps), Quoted(p)) <==> p in ps
  {
    if Contains(Block(ps), Quoted(p)) {
      QuotedInBlock(ps, p, Index(Block(ps), Quoted(p)));
    }
    if p in ps {
      var i := PathIsQuoted(ps, p);
    }
  }

  // ---------------------------------------------------------------------------
  // The merged header
  // ---------------------------------------------------------------------------

  /** The paths of `user` that are not among `ps`. */
  function New(ps: seq<string>, user: seq<string>): (r: seq<string>)
    ensures forall p :: p in r <==> p in user && p !in ps
  {
    if user == [] then []
    else
      var init, p := New(ps, user[..|user| - 1]), user[|user| - 1];
      if p in ps then init else init + [p]
  }

  lemma {:induction false} NewKeepsPaths(ps: seq<string>, user: seq<string>)
    requires Paths(ps) && Paths(user)
    ensures Paths(New(ps, user)) && Paths(ps + New(ps, user))
    decreases |user|
  {
    if user == [] {
      assert ps + [] == ps;
    } else {
      var init, p := user[..|user| - 1], user[|user| - 1];
      NewKeepsPaths(ps, init);
      assert p in user && p !in init;
      PathsNext(New(ps, init), p);
      if p !in ps {
        PathsNext(ps + New(ps, init), p);
        assert ps + New(ps, init) + [p] == ps + New(ps, user);
      }
    }
  }

  lemma PathsNext(ps: seq<string>, p: string)
    requires Paths(ps) && IsPath(p) && p !in ps
    ensures Paths(ps + [p])
  {
  }

  lemma {:induction false} MissingIsNew(ps: seq<string>, user: seq<string>)
    requires Paths(ps) && forall p :: p in user ==> IsPath(p)
    ensures Missing(Block(ps), user) == New(ps, user)
    decreases |user|
  {
    if user != [] {
      MissingIsNew(ps, user[..|user| - 1]);
      assert user[|user| - 1] in user;
      ContainsIffPath(ps, user[|user| - 1]);
    }
  }

  lemma Regroup(a: string, b: string, c: string, d: string)
    ensures a + b + c + d == a + (b + c + d)
  {
  }

  lemma {:induction false} WrittenBoth(a: seq<string>, b: seq<string>)
    ensures Written(a + b) == Written(a) + Written(b)
    decreases |b|
  {
    if b == [] {
      assert a + b == a;
    } else {
      var init, p := b[..|b| - 1], b[|b| - 1];
      WrittenBoth(a, init);
      assert a + b == a + init + [p];
      WrittenNext(a + init, p);
      Regroup(Written(a), Written(init), PathLine(p), ['\n']);
    }
  }

  /** Merging gives the header that imports the new paths after its own. */
  lemma MergeIsHeader(ps: seq<string>, rest: seq<string>, user: seq<string>)
    requires HeaderPaths(ps) && forall p :: p in user ==> IsPath(p)
    ensures Injected(Header(ps, rest), user) == Header(ps + New(ps, user), rest)
  {
    BlockIsFound(ps, rest);
    MissingIsNew(ps, user);
    HeaderText(ps + New(ps, user), rest);
    BlockGrows(PREAMBLE, ps, New(ps, user));
  }

  lemma {:induction false} BlockGrows(before: string, ps: seq<string>, more: seq<string>)
    ensures before + Block(ps) + Written(more) == before + Block(ps + more)
  {
    WrittenBoth(ps, more);
    assert Block(ps) + Written(more) == Block(ps + more);
  }

  lemma PathLineIsRead(p: string)
    requires IsPath(p)
    ensures var t := TrimSpace(PathLine(p));
            !ClosesBlock(t) && t != "" && !IsComment(t) && ExtractQuoted(t) == p
  {
    var line, t := PathLine(p), Quoted(p);
    assert line[1..] == t && TrimLeft(line) == TrimLeft(line[1..]) == t;
    assert TrimSpace(line) == t;
    QuotedIsRead(p);
  }

  lemma QuotedIsRead(p: string)
    requires QUOTE !in p
    ensures ExtractQuoted(Quoted(p)) == p
  {
    var t := Quoted(p);
    assert OccursAt(t, [QUOTE], 0);
    var u := t[1..];
    assert u == p + [QUOTE];
    assert OccursAt(u, [QUOTE], |p|);
    forall i | 0 <= i < |p|
      ensures !OccursAt(u, [QUOTE], i)
    {
      assert u[i..i + 1] == [p[i]];
    }
    assert u[..|p|] == p;
  }

  lemma {:induction false} BlockIsRead(s: Scan, ps: seq<string>)
    requires s.inBlock && s.paths == [] && Paths(ps)
    ensures ScanLines(s, PathLines(ps)) == s.(paths := ps)
    decreases |ps|
  {
    if ps != [] {
      var init, p := ps[..|ps| - 1], ps[|ps| - 1];
      BlockIsRead(s, init);
      assert p in ps;
      PathLineIsRead(p);
      ScanBoth(s, PathLines(init), [PathLine(p)]);
      assert p !in init && init + [p] == ps;
    }
  }

  lemma PackageLineIsSkipped()
    ensures Step(START, PACKAGE_LINE) == START
  {
  }

  lemma MarkOpensBlock(s: Scan)
    requires !s.inBlock
    ensures Step(s, MARK) == s.(inBlock := true)
  {
    assert TrimSpace(MARK) == MARK;
  }

  lemma ScanNext(s: Scan, line: string, lines: seq<string>)
    ensures ScanLines(s, [line] + lines) == ScanLines(Step(s, line), lines)
  {
    assert ([line] + lines)[1..] == lines;
  }

  lemma TopIsRead()
    ensures ScanLines(START, [PACKAGE_LINE] + ([""] + ([MARK] + []))) == Scan([], [""], true)
  {
    ScanNext(START, PACKAGE_LINE, [""] + ([MARK] + []));
    PackageLineIsSkipped();
    ScanNext(START, "", [MARK] + []);
    EmptyIsPlain();
    StepOfPlain(START, "");
    assert [] + [""] == [""];
    ScanNext(Scan([], [""], false), MARK, []);
    MarkOpensBlock(Scan([], [""], false));
  }

  lemma BlockAndRest(s: Scan, ps: seq<string>, rest: seq<string>)
    requires s.inBlock && s.paths == [] && Paths(ps) && AllPlain(rest)
    ensures ScanLines(s, PathLines(ps) + ([[')']] + rest)) == Scan(ps, s.kept + rest, false)
  {
    ScanBoth(s, PathLines(ps), [[')']] + rest);
    BlockIsRead(s, ps);
    ScanNext(Scan(ps, s.kept, true), [')'], rest);
    assert Step(Scan(ps, s.kept, true), [')']) == Scan(ps, s.kept, false);
    ScanOfPlain(Scan(ps, s.kept, false), rest);
  }

  /** Reading a header finds its paths and keeps what follows its block. */
  lemma HeaderIsRead(ps: seq<string>, rest: seq<string>)
    requires Paths(ps) && AllPlain(rest) && AllOneLine(rest)
    ensures Extracted(Header(ps, rest)) == Scan(ps, [""] + rest, false)
  {
    HeaderIsLines(ps, rest);
    var top := [PACKAGE_LINE, "", MARK];
    assert HeaderLines(ps, rest) == top + (PathLines(ps) + ([[')']] + rest));
    assert top == [PACKAGE_LINE] + ([""] + ([MARK] + []));
    ScanBoth(START, top, PathLines(ps) + ([[')']] + rest));
    TopIsRead();
    BlockAndRest(Scan([], [""], true), ps, rest);
  }

  lemma HeaderIsLines(ps: seq<string>, rest: seq<string>)
    requires Paths(ps) && AllOneLine(rest)
    ensures Split(Header(ps, rest)) == HeaderLines(ps, rest)
  {
    PathLinesAreLines(ps);
    SplitOfJoin(HeaderLines(ps, rest));
  }

  lemma {:induction false} PathLinesAreLines(ps: seq<string>)
    requires forall p :: p in ps ==> IsPath(p)
    ensures AllOneLine(PathLines(ps))
    decreases |ps|
  {
    if ps != [] {
      PathLinesAreLines(ps[..|ps| - 1]);
      assert ps[|ps| - 1] in ps;
    }
  }

  /**
    Extracting from the merged header lists the header's paths and then each new path of the
    user, every path once.
   */
  lemma MergedHeaderPaths(ps: seq<string>, rest: seq<string>, src: string)
    requires HeaderPaths(ps) && AllPlain(rest) && AllOneLine(rest)
    ensures var user := Extracted(src).paths;
            var merged := Extracted(Injected(Header(ps, rest), user)).paths;
            merged == ps + New(ps, user) && Paths(merged)
  {
    var user := Extracted(src).paths;
    ExtractedOk(src);
    NewKeepsPaths(ps, user);
    MergeIsHeader(ps, rest, user);
    HeaderIsRead(ps + New(ps, user), rest);
  }

  // ---------------------------------------------------------------------------
  // The whole program
  // ---------------------------------------------------------------------------

  const GAP: string := ['\n', '\n']

  function Wrapped(header: string, footer: string, src: string): string {
    Injected(header, Extracted(src).paths) + GAP + Join(Extracted(src).kept) + GAP + footer
  }

  method Wrap(header: string, footer: string, src: string) returns (program: string)
    ensures program == Wrapped(header, footer, src)
  {
    var userImports, userBody := ExtractGoImports(src);
    var merged := InjectGoImports(header, userImports);
    program := merged + GAP + userBody + GAP + footer;
  }

  lemma {:induction false} JoinOverGap(a: seq<string>, b: seq<string>)
    requires |a| >= 1 && |b| >= 1
    ensures Join(a) + GAP + Join(b) == Join(a + [""] + b)
  {
    JoinOfTwo(a, [""] + b);
    JoinOfTwo([""], b);
    assert a + [""] + b == a + ([""] + b);
  }

  /** The header grows by whatever is joined to it. */
  lemma {:induction false} HeaderOverGap(ps: seq<string>, rest: seq<string>, more: seq<string>)
    requires |more| >= 1
    ensures Header(ps, rest) + GAP + Join(more) == Header(ps, rest + [""] + more)
  {
    JoinOverGap(HeaderLines(ps, rest), more);
    assert HeaderLines(ps, rest) + [""] + more == HeaderLines(ps, rest + [""] + more);
  }

  lemma PlainTogether(a: seq<string>, b: seq<string>)
    requires AllPlain(a) && AllOneLine(a) && AllPlain(b) && AllOneLine(b)
    ensures AllPlain(a + [""] + b) && AllOneLine(a + [""] + b)
  {
    EmptyIsPlain();
  }

  lemma WrappedIsHeader(ps: seq<string>, rest: seq<string>, src: string, footer: string)
    requires HeaderPaths(ps)
    ensures var body := Split(Join(Extracted(src).kept));
            Wrapped(Header(ps, rest), footer, src)
            == Header(ps + New(ps, Extracted(src).paths), rest + [""] + body + [""] + Split(footer))
  {
    var user, cleaned := Extracted(src).paths, Join(Extracted(src).kept);
    ExtractedOk(src);
    MergeIsHeader(ps, rest, user);
    JoinOfSplit(cleaned);
    JoinOfSplit(footer);
    HeaderOverGap(ps + New(ps, user), rest, Split(cleaned));
    HeaderOverGap(ps + New(ps, user), rest + [""] + Split(cleaned), Split(footer));
  }

  /**
    The program has one import block with every path once, and outside it nothing but the lines
    of the header, of the cleaned source and of the footer.
   */
  lemma ProgramImportsOnce(ps: seq<string>, rest: seq<string>, src: string, footer: string)
    requires HeaderPaths(ps) && AllPlain(rest) && AllOneLine(rest) && AllPlain(Split(footer))
    ensures var user := Extracted(src).paths;
            var body := Split(Join(Extracted(src).kept));
            Extracted(Wrapped(Header(ps, rest), footer, src))
            == Scan(ps + New(ps, user), [""] + (rest + [""] + body + [""] + Split(footer)), false)
  {
    var user, body := Extracted(src).paths, Split(Join(Extracted(src).kept));
    WrappedIsHeader(ps, rest, src, footer);
    ExtractedOk(src);
    NewKeepsPaths(ps, user);
    SplitOfKept(Extracted(src).kept);
    SplitIsLines(footer);
    PlainTogether(rest, body);
    PlainTogether(rest + [""] + body, Split(footer));
    HeaderIsRead(ps + New(ps, user), rest + [""] + body + [""] + Split(footer));
  }

  /** The driver's own header has such paths. */
  lemma DriverPathsOk()
    ensures HeaderPaths(DRIVER_PATHS)
  {
  }
}
