/** `CsFileWriter.CombineIntoSingleFile`: the text of the combined file, all
    `using` lines once and sorted, then one namespace holding the code of
    every file, enums first, then interfaces, then the rest. Writing the
    text to disk is left out; the function returns it. */
module CsFileWriters {
  import opened Text
  import opened SourceFiles
  import opened FirstLineComparers

  /** `Environment.NewLine` on the platform the tool targets. */
  const NewLine: string := "\r\n"
  const OutputNamespace: string := "CombineCs"

  // ---------------------------------------------------------------------
  // The using lines

  /** `sourceFiles.SelectMany(f => f.Namespaces)`. */
  function AllNamespaces(files: seq<SourceFile>): seq<string>
    decreases |files|
  {
    if |files| == 0 then [] else files[0].namespaces + AllNamespaces(files[1..])
  }

  lemma {:induction false} AllNamespacesMembers(files: seq<SourceFile>, x: string)
    ensures x in AllNamespaces(files) <==> exists i :: 0 <= i < |files| && x in files[i].namespaces
    decreases |files|
  {
    if |files| > 0 {
      AllNamespacesMembers(files[1..], x);
      if x in AllNamespaces(files[1..]) {
        var i :| 0 <= i < |files[1..]| && x in files[1..][i].namespaces;
        assert x in files[i + 1].namespaces;
      }
      if exists i :: 0 <= i < |files| && x in files[i].namespaces {
        var i :| 0 <= i < |files| && x in files[i].namespaces;
        if i > 0 {
          assert x in files[1..][i - 1].namespaces;
        }
      }
    }
  }

  /** Ascending and without repetition. */
  predicate StrictlySorted(s: seq<string>) {
    forall i, j :: 0 <= i < j < |s| ==> Less(s[i], s[j])
  }

  /** Inserts `x` at its place in `s`, unless it is already there. */
  function InsertDistinct(x: string, s: seq<string>): (r: seq<string>)
    requires StrictlySorted(s)
    ensures StrictlySorted(r)
    ensures forall y :: y in r <==> y == x || y in s
    decreases |s|
  {
    if |s| == 0 then [x]
    else if x == s[0] then s
    else if Less(x, s[0]) then
      forall j | 0 <= j < |s| ensures Less(x, s[j]) {
        if j > 0 { LessTransitive(x, s[0], s[j]); }
      }
      [x] + s
    else
      LessTotal(x, s[0]);
      var rest := InsertDistinct(x, s[1..]);
      assert forall y :: y in rest ==> Less(s[0], y);
      [s[0]] + rest
  }

  /** `.Distinct().OrderBy(f => f)`. */
  function SortDistinct(xs: seq<string>): (r: seq<string>)
    ensures StrictlySorted(r)
    ensures forall y :: y in r <==> y in xs
    decreases |xs|
  {
    if |xs| == 0 then []
    else InsertDistinct(xs[|xs| - 1], SortDistinct(xs[..|xs| - 1]))
  }

  /** There is only one ascending list without repetition of a given set of
      strings, so the sorted distinct using lines are determined by which
      using lines occur, whatever the files and their order. */
  lemma {:induction false} SortedUnique(a: seq<string>, b: seq<string>)
    requires StrictlySorted(a) && StrictlySorted(b)
    requires forall y :: y in a <==> y in b
    ensures a == b
    decreases |a|
  {
    if |a| > 0 && |b| > 0 {
      if a[0] != b[0] {
        assert a[0] in b;
        var k :| 0 <= k < |b| && b[k] == a[0];
        assert b[0] in a;
        var m :| 0 <= m < |a| && a[m] == b[0];
        assert Less(b[0], a[0]) && Less(a[0], b[0]);
        LessAsymmetric(a[0], b[0]);
      }
      forall y ensures y in a[1..] <==> y in b[1..] {
        if y in a[1..] {
          var i :| 0 <= i < |a[1..]| && a[1..][i] == y;
          assert Less(a[0], a[i + 1]);
          LessIrreflexive(y);
          assert y in b && y != b[0];
        }
        if y in b[1..] {
          var i :| 0 <= i < |b[1..]| && b[1..][i] == y;
          assert Less(b[0], b[i + 1]);
          LessIrreflexive(y);
          assert y in a && y != a[0];
        }
      }
      SortedUnique(a[1..], b[1..]);
      assert a == [a[0]] + a[1..] && b == [b[0]] + b[1..];
    } else {
      HeadIsMember(a);
      HeadIsMember(b);
    }
  }

  lemma HeadIsMember<T>(s: seq<T>)
    ensures |s| > 0 ==> s[0] in s
  {
  }

  // ---------------------------------------------------------------------
  // The order of the files

  /** Places `f` after every file it does not compare below. */
  function Insert(f: SourceFile, sorted: seq<SourceFile>): (r: seq<SourceFile>)
    ensures multiset(r) == multiset(sorted) + multiset{f}
    decreases |sorted|
  {
    if |sorted| == 0 then [f]
    else if Compare(f, sorted[0]) < 0 then [f] + sorted
    else
      assert sorted == [sorted[0]] + sorted[1..];
      [sorted[0]] + Insert(f, sorted[1..])
  }

  /** `sourceFiles.OrderBy(f => f, new FirstLineComparer())`, modelled as a
      stable insertion sort. When every file has code the comparer is a
      total preorder and this is the order `OrderBy` gives; with a file
      without code it is one permutation among those the comparer allows. */
  function SortFiles(files: seq<SourceFile>): (r: seq<SourceFile>)
    ensures multiset(r) == multiset(files)
    decreases |files|
  {
    if |files| == 0 then []
    else
      assert files == files[..|files| - 1] + [files[|files| - 1]];
      Insert(files[|files| - 1], SortFiles(files[..|files| - 1]))
  }

  predicate AllHaveCode(files: seq<SourceFile>) {
    forall i :: 0 <= i < |files| ==> |files[i].processedLines| > 0
  }

  function RankOf(f: SourceFile): nat
    requires |f.processedLines| > 0
  {
    Rank(f.processedLines[0])
  }

  /** The files of group `k`, in their original order. */
  function Group(files: seq<SourceFile>, k: nat): (r: seq<SourceFile>)
    requires AllHaveCode(files)
    ensures AllHaveCode(r)
    ensures forall i :: 0 <= i < |r| ==> RankOf(r[i]) == k
    decreases |files|
  {
    if |files| == 0 then []
    else
      var last := files[|files| - 1];
      Group(files[..|files| - 1], k) + (if RankOf(last) == k then [last] else [])
  }

  /** Every file has code and a group between `lo` and `hi`. */
  predicate RanksIn(files: seq<SourceFile>, lo: nat, hi: nat) {
    && AllHaveCode(files)
    && forall i :: 0 <= i < |files| ==> lo <= RankOf(files[i]) <= hi
  }

  lemma RanksInAppend(a: seq<SourceFile>, b: seq<SourceFile>, lo: nat, hi: nat)
    requires RanksIn(a, lo, hi) && RanksIn(b, lo, hi)
    ensures RanksIn(a + b, lo, hi)
  {
    assert forall i :: 0 <= i < |a + b| ==> (a + b)[i] == if i < |a| then a[i] else b[i - |a|];
  }

  /** A file lands after every file of its group or lower and before every
      file of a higher group. */
  lemma {:induction false} InsertBetween(f: SourceFile, a: seq<SourceFile>, b: seq<SourceFile>)
    requires |f.processedLines| > 0
    requires RanksIn(a, 0, RankOf(f)) && RanksIn(b, RankOf(f) + 1, 2)
    ensures Insert(f, a + b) == a + [f] + b
    decreases |a|
  {
    if |a| == 0 {
      assert a + b == b;
      InsertBeforeHigher(f, b);
    } else {
      assert RanksIn(a[1..], 0, RankOf(f));
      InsertBetween(f, a[1..], b);
      InsertBetweenStep(f, a, b);
    }
  }

  lemma InsertBetweenStep(f: SourceFile, a: seq<SourceFile>, b: seq<SourceFile>)
    requires |f.processedLines| > 0 && |a| > 0 && |a[0].processedLines| > 0
    requires RankOf(a[0]) <= RankOf(f)
    requires Insert(f, a[1..] + b) == a[1..] + [f] + b
    ensures Insert(f, a + b) == a + [f] + b
  {
    var x, tail := a[0], a[1..];
    NotBelowLowerRank(f, x);
    assert a == [x] + tail;
    Assoc([x], tail, b);
    InsertPast(f, x, tail + b);
    Assoc([x], tail + [f], b);
    Assoc([x], tail, [f]);
  }

  lemma NotBelowLowerRank(f: SourceFile, x: SourceFile)
    requires |f.processedLines| > 0 && |x.processedLines| > 0
    requires RankOf(x) <= RankOf(f)
    ensures Compare(f, x) >= 0
  {
    CompareByRank(f, x);
  }

  lemma InsertBeforeHigher(f: SourceFile, b: seq<SourceFile>)
    requires |f.processedLines| > 0 && RanksIn(b, RankOf(f) + 1, 2)
    ensures Insert(f, b) == [f] + b
  {
    if |b| > 0 {
      CompareByRank(f, b[0]);
    }
  }

  lemma InsertPast(f: SourceFile, x: SourceFile, rest: seq<SourceFile>)
    requires Compare(f, x) >= 0
    ensures Insert(f, [x] + rest) == [x] + Insert(f, rest)
  {
    assert ([x] + rest)[0] == x && ([x] + rest)[1..] == rest;
  }

  /** When every file has code, the sort lists the enums, then the
      interfaces, then the rest, each group in the original order. */
  lemma {:induction false} SortFilesGroups(files: seq<SourceFile>)
    requires AllHaveCode(files)
    ensures SortFiles(files) == Group(files, 0) + Group(files, 1) + Group(files, 2)
    decreases |files|
  {
    if |files| > 0 {
      var init := files[..|files| - 1];
      var f := files[|files| - 1];
      SortFilesGroups(init);
      var g0, g1, g2 := Group(init, 0), Group(init, 1), Group(init, 2);
      var r := RankOf(f);
      assert SortFiles(files) == Insert(f, g0 + g1 + g2);
      assert Group(files, 0) == g0 + (if r == 0 then [f] else []);
      assert Group(files, 1) == g1 + (if r == 1 then [f] else []);
      assert Group(files, 2) == g2 + (if r == 2 then [f] else []);
      InsertIntoGroups(f, g0, g1, g2);
    }
  }

  /** Inserting a file into lists grouped by rank appends it to its group. */
  lemma InsertIntoGroups(f: SourceFile, g0: seq<SourceFile>, g1: seq<SourceFile>, g2: seq<SourceFile>)
    requires |f.processedLines| > 0
    requires RanksIn(g0, 0, 0) && RanksIn(g1, 1, 1) && RanksIn(g2, 2, 2)
    ensures var r := RankOf(f);
            Insert(f, g0 + g1 + g2)
              == (g0 + (if r == 0 then [f] else [])) + (g1 + (if r == 1 then [f] else []))
                 + (g2 + (if r == 2 then [f] else []))
  {
    var r := RankOf(f);
    if r == 0 {
      InsertIntoEnums(f, g0, g1, g2);
    } else if r == 1 {
      InsertIntoInterfaces(f, g0, g1, g2);
    } else {
      InsertIntoOthers(f, g0, g1, g2);
    }
  }

  lemma InsertIntoEnums(f: SourceFile, g0: seq<SourceFile>, g1: seq<SourceFile>, g2: seq<SourceFile>)
    requires |f.processedLines| > 0 && RankOf(f) == 0
    requires RanksIn(g0, 0, 0) && RanksIn(g1, 1, 1) && RanksIn(g2, 2, 2)
    ensures Insert(f, g0 + g1 + g2) == (g0 + [f]) + (g1 + []) + (g2 + [])
  {
    assert g1 + [] == g1 && g2 + [] == g2;
    RanksInAppend(g1, g2, 1, 2);
    Assoc(g0, g1, g2);
    InsertBetween(f, g0, g1 + g2);
    Assoc(g0 + [f], g1, g2);
  }

  lemma InsertIntoInterfaces(f: SourceFile, g0: seq<SourceFile>, g1: seq<SourceFile>, g2: seq<SourceFile>)
    requires |f.processedLines| > 0 && RankOf(f) == 1
    requires RanksIn(g0, 0, 0) && RanksIn(g1, 1, 1) && RanksIn(g2, 2, 2)
    ensures Insert(f, g0 + g1 + g2) == (g0 + []) + (g1 + [f]) + (g2 + [])
  {
    assert g0 + [] == g0 && g2 + [] == g2;
    RanksInAppend(g0, g1, 0, 1);
    InsertBetween(f, g0 + g1, g2);
    Assoc(g0, g1, [f]);
  }

  lemma InsertIntoOthers(f: SourceFile, g0: seq<SourceFile>, g1: seq<SourceFile>, g2: seq<SourceFile>)
    requires |f.processedLines| > 0 && RankOf(f) == 2
    requires RanksIn(g0, 0, 0) && RanksIn(g1, 1, 1) && RanksIn(g2, 2, 2)
    ensures Insert(f, g0 + g1 + g2) == (g0 + []) + (g1 + []) + (g2 + [f])
  {
    var none: seq<SourceFile> := [];
    assert g0 + none == g0 && g1 + none == g1;
    RanksInAppend(g0, g1, 0, 2);
    RanksInAppend(g0 + g1, g2, 0, 2);
    assert g0 + g1 + g2 + none == g0 + g1 + g2;
    InsertBetween(f, g0 + g1 + g2, none);
    Assoc(g0 + g1, g2, [f]);
  }

  lemma Assoc<T>(a: seq<T>, b: seq<T>, c: seq<T>)
    ensures a + (b + c) == a + b + c
  {
  }

  // ---------------------------------------------------------------------
  // The text

  /** `builder.AppendLine(line)` for each line. */
  function Lines(ls: seq<string>): string
    decreases |ls|
  {
    if |ls| == 0 then "" else ls[0] + NewLine + Lines(ls[1..])
  }

  lemma {:induction false} LinesAppend(a: seq<string>, b: seq<string>)
    ensures Lines(a + b) == Lines(a) + Lines(b)
    decreases |a|
  {
    if |a| == 0 {
      assert a + b == b;
    } else {
      assert (a + b)[1..] == a[1..] + b;
      LinesAppend(a[1..], b);
    }
  }

  /** The `foreach (var sourceFile in ...)` loop: an empty line, then the
      file's lines, for each file. */
  function FileBlocks(fs: seq<SourceFile>): string
    decreases |fs|
  {
    if |fs| == 0 then "" else NewLine + Lines(fs[0].processedLines) + FileBlocks(fs[1..])
  }

  /** `CombineIntoSingleFile(sourceFiles)`, up to the text it writes, with
      the files in the order `SortFiles` gives. */
  function CombineIntoSingleFile(files: seq<SourceFile>): string {
    var namespaces := SortDistinct(AllNamespaces(files));
    Lines(namespaces) + NewLine
    + "namespace " + OutputNamespace + "\r\n"
    + "{"
    + FileBlocks(SortFiles(files))
    + "}" + NewLine
  }

  /** The files after the first, each preceded by an empty line. */
  function Separated(fs: seq<SourceFile>): seq<string>
    decreases |fs|
  {
    if |fs| == 0 then [] else [""] + fs[0].processedLines + Separated(fs[1..])
  }

  /** The combined file line by line: the sorted distinct using lines, an
      empty line, the namespace declaration, then `{`, the files' lines
      with an empty line between files, and `}`. With no files at all the
      braces share one line. */
  function OutputLines(files: seq<SourceFile>): seq<string> {
    var namespaces := SortDistinct(AllNamespaces(files));
    var sorted := SortFiles(files);
    namespaces + ["", "namespace " + OutputNamespace] + BodyLines(sorted)
  }

  /** The braces and the files between them. */
  function BodyLines(sorted: seq<SourceFile>): seq<string> {
    if |sorted| == 0 then ["{}"]
    else ["{"] + sorted[0].processedLines + Separated(sorted[1..]) + ["}"]
  }

  lemma {:induction false} FileBlocksAsLines(fs: seq<SourceFile>)
    ensures FileBlocks(fs) == Lines(Separated(fs))
    decreases |fs|
  {
    if |fs| > 0 {
      FileBlocksAsLines(fs[1..]);
      LinesAppend([""] + fs[0].processedLines, Separated(fs[1..]));
      LinesAppend([""], fs[0].processedLines);
      assert Lines([""]) == NewLine;
    }
  }

  lemma HeadAsLines(namespaces: seq<string>)
    ensures Lines(namespaces + ["", "namespace " + OutputNamespace])
         == Lines(namespaces) + NewLine + "namespace " + OutputNamespace + "\r\n"
  {
    var x := "namespace " + OutputNamespace;
    LinesAppend(namespaces, ["", x]);
    assert Lines([x]) == x + NewLine;
    assert Lines(["", x]) == NewLine + "namespace " + OutputNamespace + "\r\n";
    Glue(Lines(namespaces), NewLine, "namespace ", OutputNamespace, "\r\n");
  }

  lemma BodyAsLines(sorted: seq<SourceFile>)
    ensures Lines(BodyLines(sorted)) == "{" + FileBlocks(sorted) + "}" + NewLine
  {
    if |sorted| == 0 {
      assert Lines(["{}"]) == "{}" + NewLine;
    } else {
      var body := sorted[0].processedLines + Separated(sorted[1..]);
      assert BodyLines(sorted) == ["{"] + body + ["}"];
      BlocksAfterFirst(sorted);
      BracketLines(body);
    }
  }

  lemma BlocksAfterFirst(sorted: seq<SourceFile>)
    requires |sorted| > 0
    ensures FileBlocks(sorted) == NewLine + Lines(sorted[0].processedLines + Separated(sorted[1..]))
  {
    var body := sorted[0].processedLines + Separated(sorted[1..]);
    FileBlocksAsLines(sorted);
    assert Separated(sorted) == [""] + sorted[0].processedLines + Separated(sorted[1..]);
    Assoc([""], sorted[0].processedLines, Separated(sorted[1..]));
    LinesAppend([""], body);
    assert Lines([""]) == NewLine;
  }

  lemma BracketLines(body: seq<string>)
    ensures Lines(["{"] + body + ["}"]) == "{" + (NewLine + Lines(body)) + "}" + NewLine
  {
    var b := Lines(body);
    LinesAppend(["{"] + body, ["}"]);
    LinesAppend(["{"], body);
    assert Lines(["{"]) == "{" + NewLine;
    assert Lines(["}"]) == "}" + NewLine;
    assert Lines(["{"] + body + ["}"]) == "{" + NewLine + b + ("}" + NewLine);
  }

  /** The text the builder produces is exactly those lines, each ended by
      a line break. */
  lemma CombineAsLines(files: seq<SourceFile>)
    ensures CombineIntoSingleFile(files) == Lines(OutputLines(files))
  {
    var namespaces := SortDistinct(AllNamespaces(files));
    var sorted := SortFiles(files);
    var head := namespaces + ["", "namespace " + OutputNamespace];
    LinesAppend(head, BodyLines(sorted));
    HeadAsLines(namespaces);
    BodyAsLines(sorted);
    Glue(Lines(head), "{", FileBlocks(sorted), "}", NewLine);
  }

  lemma Glue(h: string, t1: string, t2: string, t3: string, t4: string)
    ensures h + (t1 + t2 + t3 + t4) == h + t1 + t2 + t3 + t4
  {
  }

  /** The combined file begins with every using line of every file, once
      each, in ascending order, and nothing else. */
  lemma UsingsOfOutput(files: seq<SourceFile>)
    ensures var namespaces := SortDistinct(AllNamespaces(files));
            && OutputLines(files)[..|namespaces|] == namespaces
            && StrictlySorted(namespaces)
            && forall x :: x in namespaces <==> exists i :: 0 <= i < |files| && x in files[i].namespaces
  {
    forall x ensures x in SortDistinct(AllNamespaces(files)) <==> exists i :: 0 <= i < |files| && x in files[i].namespaces {
      AllNamespacesMembers(files, x);
    }
  }

  /** No code line is lost: every line of every file appears in the
      combined file. */
  lemma CodeOfOutput(files: seq<SourceFile>, i: nat, line: string)
    requires i < |files| && line in files[i].processedLines
    ensures line in OutputLines(files)
  {
    var sorted := SortFiles(files);
    assert files[i] in multiset(files);
    assert files[i] in sorted;
    var k :| 0 <= k < |sorted| && sorted[k] == files[i];
    if k > 0 {
      SeparatedHas(sorted[1..], k - 1, line);
    }
  }

  lemma {:induction false} SeparatedHas(fs: seq<SourceFile>, k: nat, line: string)
    requires k < |fs| && line in fs[k].processedLines
    ensures line in Separated(fs)
    decreases |fs|
  {
    if k > 0 {
      SeparatedHas(fs[1..], k - 1, line);
    }
  }

  // ---------------------------------------------------------------------
  // Every code line exactly once

  /** The code lines of the files one after another. */
  function AllCode(fs: seq<SourceFile>): seq<string>
    decreases |fs|
  {
    if |fs| == 0 then [] else fs[0].processedLines + AllCode(fs[1..])
  }

  /** `n` empty lines. */
  function Blanks(n: nat): seq<string> {
    if n == 0 then [] else [""] + Blanks(n - 1)
  }

  lemma {:induction false} AllCodeAppend(a: seq<SourceFile>, b: seq<SourceFile>)
    ensures AllCode(a + b) == AllCode(a) + AllCode(b)
    decreases |a|
  {
    if |a| == 0 {
      assert a + b == b;
    } else {
      assert (a + b)[1..] == a[1..] + b;
      AllCodeAppend(a[1..], b);
    }
  }

  /** Inserting a file adds its code lines and nothing else. */
  lemma {:induction false} AllCodeInsert(f: SourceFile, sorted: seq<SourceFile>)
    ensures multiset(AllCode(Insert(f, sorted))) == multiset(AllCode(sorted)) + multiset(f.processedLines)
    decreases |sorted|
  {
    if |sorted| == 0 {
      assert AllCode([f]) == f.processedLines + AllCode([]);
    } else if Compare(f, sorted[0]) < 0 {
      assert ([f] + sorted)[1..] == sorted;
    } else {
      var r := [sorted[0]] + Insert(f, sorted[1..]);
      assert r[1..] == Insert(f, sorted[1..]);
      AllCodeInsert(f, sorted[1..]);
    }
  }

  /** Sorting the files keeps the multiset of their code lines. */
  lemma {:induction false} AllCodeSort(files: seq<SourceFile>)
    ensures multiset(AllCode(SortFiles(files))) == multiset(AllCode(files))
    decreases |files|
  {
    if |files| > 0 {
      var init := files[..|files| - 1];
      var last := files[|files| - 1];
      assert files == init + [last];
      AllCodeSort(init);
      AllCodeInsert(last, SortFiles(init));
      AllCodeAppend(init, [last]);
      assert AllCode([last]) == last.processedLines + AllCode([]);
    }
  }

  /** The separated blocks are the code lines plus one empty line a file. */
  lemma {:induction false} SeparatedCount(fs: seq<SourceFile>)
    ensures multiset(Separated(fs)) == multiset(AllCode(fs)) + multiset(Blanks(|fs|))
    decreases |fs|
  {
    if |fs| > 0 {
      SeparatedCount(fs[1..]);
      SeparatedCountStep(fs);
    }
  }

  lemma SeparatedCountStep(fs: seq<SourceFile>)
    requires |fs| > 0
    requires multiset(Separated(fs[1..])) == multiset(AllCode(fs[1..])) + multiset(Blanks(|fs| - 1))
    ensures multiset(Separated(fs)) == multiset(AllCode(fs)) + multiset(Blanks(|fs|))
  {
    Unfold(fs);
    Regroup(Separated(fs), AllCode(fs), Blanks(|fs|), fs[0].processedLines,
            Separated(fs[1..]), AllCode(fs[1..]), Blanks(|fs| - 1));
  }

  lemma Unfold(fs: seq<SourceFile>)
    requires |fs| > 0
    ensures Separated(fs) == [""] + fs[0].processedLines + Separated(fs[1..])
    ensures AllCode(fs) == fs[0].processedLines + AllCode(fs[1..])
    ensures Blanks(|fs|) == [""] + Blanks(|fs| - 1)
  {
  }

  /** One step of `SeparatedCount`: an empty line and a file's code in
      front of the rest on one side, the code and an empty line on the
      other. */
  lemma Regroup(sep: seq<string>, all: seq<string>, blanks: seq<string>, code: seq<string>,
                sepRest: seq<string>, allRest: seq<string>, blanksRest: seq<string>)
    requires sep == [""] + code + sepRest
    requires all == code + allRest && blanks == [""] + blanksRest
    requires multiset(sepRest) == multiset(allRest) + multiset(blanksRest)
    ensures multiset(sep) == multiset(all) + multiset(blanks)
  {
  }

  /** Between the braces, the combined file holds every code line of every
      file exactly as often as the files hold it, plus one empty line
      between consecutive files, and nothing else. */
  lemma BodyExactlyOnce(files: seq<SourceFile>)
    requires |files| > 0
    ensures var sorted := SortFiles(files);
            var body := BodyLines(sorted);
            && body[0] == "{" && body[|body| - 1] == "}"
            && multiset(body[1..|body| - 1]) == multiset(AllCode(files)) + multiset(Blanks(|files| - 1))
  {
    var sorted := SortFiles(files);
    SortedLength(files);
    BetweenBraces(sorted);
    SeparatedCount(sorted[1..]);
    AllCodeSort(files);
    assert AllCode(sorted) == sorted[0].processedLines + AllCode(sorted[1..]);
    InnerCount(BodyLines(sorted)[1..|BodyLines(sorted)| - 1], sorted[0].processedLines, Separated(sorted[1..]),
               AllCode(sorted), AllCode(sorted[1..]), Blanks(|files| - 1), AllCode(files));
  }

  lemma SortedLength(files: seq<SourceFile>)
    ensures |SortFiles(files)| == |files|
  {
    assert |multiset(SortFiles(files))| == |multiset(files)|;
  }

  lemma BetweenBraces(sorted: seq<SourceFile>)
    requires |sorted| > 0
    ensures var body := BodyLines(sorted);
            && |body| >= 2 && body[0] == "{" && body[|body| - 1] == "}"
            && body[1..|body| - 1] == sorted[0].processedLines + Separated(sorted[1..])
  {
    var inner := sorted[0].processedLines + Separated(sorted[1..]);
    assert BodyLines(sorted) == ["{"] + inner + ["}"];
  }

  lemma InnerCount(inner: seq<string>, code: seq<string>, sepRest: seq<string>,
                   allSorted: seq<string>, allRest: seq<string>, blanks: seq<string>, allFiles: seq<string>)
    requires inner == code + sepRest
    requires allSorted == code + allRest
    requires multiset(sepRest) == multiset(allRest) + multiset(blanks)
    requires multiset(allSorted) == multiset(allFiles)
    ensures multiset(inner) == multiset(allFiles) + multiset(blanks)
  {
  }
}
