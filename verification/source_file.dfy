/** `SourceFile`: one `.cs` file as the combiner sees it, its `using` lines
    and its code lines, the code lines stripped of leading blank lines. */
module SourceFiles {
  import opened Wrappers
  import opened Text

  datatype SourceFile = SourceFile(fileName: string, namespaces: seq<string>, processedLines: seq<string>)

  /** Every line of `lines` is null, empty or white space. */
  predicate AllBlank(lines: seq<string>) {
    forall i :: 0 <= i < |lines| ==> IsBlank(lines[i])
  }

  /** `r` is `lines` without a prefix made only of blank lines. */
  predicate DropsBlankPrefix(lines: seq<string>, r: seq<string>) {
    && |r| <= |lines|
    && r == lines[|lines| - |r|..]
    && AllBlank(lines[..|lines| - |r|])
  }

  /** A blank line in front of a blank prefix keeps it a blank prefix. */
  lemma BlankPrefixCons(lines: seq<string>, r: seq<string>)
    requires |lines| > 0 && IsBlank(lines[0])
    requires DropsBlankPrefix(lines[1..], r)
    ensures DropsBlankPrefix(lines, r)
  {
    var k := |lines| - |r|;
    assert lines[..k] == [lines[0]] + lines[1..][..k - 1];
    assert lines[k..] == lines[1..][k - 1..];
  }

  /** A line that a blank prefix drops is blank. */
  lemma DroppedAreBlank(lines: seq<string>, r: seq<string>, line: string)
    requires DropsBlankPrefix(lines, r)
    requires line in lines
    ensures line in r || IsBlank(line)
  {
    var k := |lines| - |r|;
    var i :| 0 <= i < |lines| && lines[i] == line;
    if i < k {
      assert lines[..k][i] == line;
    } else {
      assert r[i - k] == line;
    }
  }

  /** The `while` loop of `TrimEmptyStartingLines` as written: it removes the
      first line while it is blank and reads `ProcessedLines[0]` again
      without checking the count, so a list that becomes empty throws
      `ArgumentOutOfRangeException`. */
  function DropWhileBlankAsWritten(lines: seq<string>): (r: Result<seq<string>>)
    ensures r.Failure? <==> AllBlank(lines)
    ensures r.Failure? ==> r.error == ArgumentOutOfRange
    ensures r.Success? ==> DropsBlankPrefix(lines, r.value) && !IsBlank(r.value[0])
    decreases |lines|
  {
    if |lines| == 0 then Failure(ArgumentOutOfRange)
    else if IsBlank(lines[0]) then
      var r := DropWhileBlankAsWritten(lines[1..]);
      if r.Success? then BlankPrefixCons(lines, r.value); r else r
    else Success(lines)
  }

  /** `TrimEmptyStartingLines` as written: an empty list is returned at
      once; any other list goes through the loop. */
  function TrimEmptyStartingLinesAsWritten(lines: seq<string>): (r: Result<seq<string>>)
    ensures r.Failure? <==> |lines| > 0 && AllBlank(lines)
    ensures r.Success? ==> DropsBlankPrefix(lines, r.value)
    ensures r.Success? ==> |r.value| == 0 || !IsBlank(r.value[0])
  {
    if |lines| == 0 then Success(lines) else DropWhileBlankAsWritten(lines)
  }

  /** A file whose code lines are all blank makes the constructor throw. */
  lemma BlankCodeLinesThrow()
    ensures TrimEmptyStartingLinesAsWritten([""]) == Failure(ArgumentOutOfRange)
    ensures TrimEmptyStartingLinesAsWritten(["", " "]) == Failure(ArgumentOutOfRange)
  {
    assert IsBlank(" ") by { assert IsWhiteSpace(" "[0]); }
  }

  /** `TrimEmptyStartingLines` as evidently intended: leading blank lines
      are removed, and a list of blank lines becomes empty. */
  function TrimEmptyStartingLines(lines: seq<string>): (r: seq<string>)
    ensures DropsBlankPrefix(lines, r)
    ensures |r| == 0 || !IsBlank(r[0])
    decreases |lines|
  {
    if |lines| == 0 then []
    else if IsBlank(lines[0]) then
      var r := TrimEmptyStartingLines(lines[1..]);
      BlankPrefixCons(lines, r);
      r
    else lines
  }

  /** The two agree wherever the original does not throw. */
  lemma {:induction false} TrimAgreesWhereDefined(lines: seq<string>)
    ensures TrimEmptyStartingLinesAsWritten(lines).Success? ==>
              TrimEmptyStartingLinesAsWritten(lines).value == TrimEmptyStartingLines(lines)
    ensures TrimEmptyStartingLinesAsWritten(lines).Failure? ==> TrimEmptyStartingLines(lines) == []
  {
    TrimUnique(lines, TrimEmptyStartingLines(lines));
    var w := TrimEmptyStartingLinesAsWritten(lines);
    if w.Success? {
      if |lines| > 0 {
        TrimUnique(lines, w.value);
      }
    }
  }

  /** Dropping a blank prefix so that the rest is empty or starts with a
      line that is not blank has exactly one result. */
  lemma {:induction false} TrimUnique(lines: seq<string>, r: seq<string>)
    requires DropsBlankPrefix(lines, r)
    requires |r| == 0 || !IsBlank(r[0])
    ensures r == TrimEmptyStartingLines(lines)
    decreases |lines|
  {
    var t := TrimEmptyStartingLines(lines);
    assert |r| == |t|;
  }

  /** Trimming twice trims nothing more. */
  lemma TrimIdempotent(lines: seq<string>)
    ensures TrimEmptyStartingLines(TrimEmptyStartingLines(lines)) == TrimEmptyStartingLines(lines)
  {
    var t := TrimEmptyStartingLines(lines);
    assert t[..0] == [];
    TrimUnique(t, t);
  }

  /** `new SourceFile(fileName, namespaces, codeLines)`, which runs
      `TrimEmptyStartingLines` as written: it throws on a non-empty list of
      blank code lines, and otherwise keeps the lines the corrected trim
      keeps. */
  function NewSourceFile(fileName: string, namespaces: seq<string>, codeLines: seq<string>): (r: Result<SourceFile>)
    ensures r.Failure? <==> |codeLines| > 0 && AllBlank(codeLines)
    ensures r.Failure? ==> r.error == ArgumentOutOfRange
    ensures r.Success? ==> r.value.fileName == fileName && r.value.namespaces == namespaces
    ensures r.Success? ==> DropsBlankPrefix(codeLines, r.value.processedLines)
    ensures r.Success? ==> |r.value.processedLines| == 0 || !IsBlank(r.value.processedLines[0])
    ensures r.Success? ==> r.value.processedLines == TrimEmptyStartingLines(codeLines)
  {
    var w := TrimEmptyStartingLinesAsWritten(codeLines);
    if w.Failure? then Failure(w.error)
    else
      TrimAgreesWhereDefined(codeLines);
      Success(SourceFile(fileName, namespaces, w.value))
  }
}
