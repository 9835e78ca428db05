/** `FirstLineComparer`: orders source files by what their first code line
    declares, enums first, then interfaces, then everything else. */
module FirstLineComparers {
  import opened Text
  import opened SourceFiles

  /** `Compare(x, y)`, branch for branch. */
  function Compare(x: SourceFile, y: SourceFile): (c: int)
    ensures -1 <= c <= 1
  {
    if |x.processedLines| == 0 || |y.processedLines| == 0 then 0
    else
      var firstLineX := x.processedLines[0];
      var firstLineY := y.processedLines[0];
      if Contains(firstLineX, "enum") && Contains(firstLineY, "enum") then 0
      else if Contains(firstLineX, "enum") then -1
      else if Contains(firstLineY, "enum") then 1
      else if Contains(firstLineX, "interface") && Contains(firstLineY, "interface") then 0
      else if Contains(firstLineX, "interface") then -1
      else if Contains(firstLineY, "interface") then 1
      else 0
  }

  /** The group a first line puts its file in: 0 for an enum, 1 for an
      interface, 2 for anything else. */
  function Rank(line: string): (r: nat)
    ensures r <= 2
  {
    if Contains(line, "enum") then 0
    else if Contains(line, "interface") then 1
    else 2
  }

  /** Between files with code, the comparer compares the groups of their
      first lines and nothing else. */
  lemma CompareByRank(x: SourceFile, y: SourceFile)
    requires |x.processedLines| > 0 && |y.processedLines| > 0
    ensures var rx := Rank(x.processedLines[0]);
            var ry := Rank(y.processedLines[0]);
            Compare(x, y) == if rx < ry then -1 else if rx > ry then 1 else 0
  {
  }

  /** A file without code lines compares equal to every file. */
  lemma EmptyComparesEqual(x: SourceFile, y: SourceFile)
    requires |x.processedLines| == 0 || |y.processedLines| == 0
    ensures Compare(x, y) == 0
  {
  }

  /** Swapping the arguments negates the result. */
  lemma CompareAntisymmetric(x: SourceFile, y: SourceFile)
    ensures Compare(x, y) == -Compare(y, x)
  {
  }

  /** Among files with code the comparer is a total preorder. */
  lemma CompareTransitive(x: SourceFile, y: SourceFile, z: SourceFile)
    requires |x.processedLines| > 0 && |y.processedLines| > 0 && |z.processedLines| > 0
    requires Compare(x, y) <= 0 && Compare(y, z) <= 0
    ensures Compare(x, z) <= 0
  {
    CompareByRank(x, y);
    CompareByRank(y, z);
    CompareByRank(x, z);
  }

  /** With a file without code among them it is not: the empty file ties
      with an enum and with a class, which do not tie with each other. */
  lemma EmptyFileBreaksTransitivity()
    ensures var e := SourceFile("E.cs", [], ["enum E"]);
            var n := SourceFile("N.cs", [], []);
            var c := SourceFile("C.cs", [], ["C"]);
            Compare(e, n) == 0 && Compare(n, c) == 0 && Compare(e, c) == -1
  {
    var line: string := "enum E";
    assert OccursAt(line, "enum", 0);
  }
}
