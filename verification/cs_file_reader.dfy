/** `CsFileReader.ReadFiles`: splits the lines of each `.cs` file into its
    `using` lines and its code lines, dropping namespace declarations and
    lines that open or close a block. Listing the directory and reading the
    files are the file system's; here each file arrives as its name and its
    lines. */
module CsFileReaders {
  import opened Wrappers
  import opened Text
  import opened SourceFiles

  datatype LineKind = UsingLine | Dropped | CodeLine

  /** The tests of the loop body, in order: `using ` first, then
      `namespace `, `{` and `}`, otherwise code. */
  function Classify(line: string): (k: LineKind)
    ensures k == UsingLine <==> StartsWith(line, "using ")
    ensures k == Dropped <==>
              !StartsWith(line, "using ")
              && (StartsWith(line, "namespace ") || StartsWith(line, "{") || StartsWith(line, "}"))
  {
    if StartsWith(line, "using ") then UsingLine
    else if StartsWith(line, "namespace ") || StartsWith(line, "{") || StartsWith(line, "}") then Dropped
    else CodeLine
  }

  /** The lines of one kind, in file order. */
  function Select(lines: seq<string>, kind: LineKind): (r: seq<string>)
    ensures |r| <= |lines|
    ensures forall i :: 0 <= i < |r| ==> Classify(r[i]) == kind
    decreases |lines|
  {
    if |lines| == 0 then []
    else
      var last := lines[|lines| - 1];
      Select(lines[..|lines| - 1], kind) + (if Classify(last) == kind then [last] else [])
  }

  /** A line is selected exactly when it is in the file and of the kind. */
  lemma {:induction false} SelectMembers(lines: seq<string>, kind: LineKind, line: string)
    ensures line in Select(lines, kind) <==> line in lines && Classify(line) == kind
    decreases |lines|
  {
    if |lines| > 0 {
      var init := lines[..|lines| - 1];
      SelectMembers(init, kind, line);
      assert lines == init + [lines[|lines| - 1]];
    }
  }

  /** Every line lands in exactly one of the three groups. */
  lemma {:induction false} SelectPartitions(lines: seq<string>)
    ensures |Select(lines, UsingLine)| + |Select(lines, Dropped)| + |Select(lines, CodeLine)| == |lines|
    decreases |lines|
  {
    if |lines| > 0 {
      SelectPartitions(lines[..|lines| - 1]);
    }
  }

  /** The `foreach (var line in lines)` loop. */
  method SplitLines(lines: seq<string>) returns (namespaces: seq<string>, codeLines: seq<string>)
    ensures namespaces == Select(lines, UsingLine)
    ensures codeLines == Select(lines, CodeLine)
  {
    namespaces := [];
    codeLines := [];
    var i := 0;
    while i < |lines|
      invariant 0 <= i <= |lines|
      invariant namespaces == Select(lines[..i], UsingLine)
      invariant codeLines == Select(lines[..i], CodeLine)
    {
      var line := lines[i];
      assert lines[..i + 1][..i] == lines[..i];
      if StartsWith(line, "using ") {
        namespaces := namespaces + [line];
        i := i + 1;
        continue;
      }
      if StartsWith(line, "namespace ") || StartsWith(line, "{") || StartsWith(line, "}") {
        i := i + 1;
        continue;
      }
      codeLines := codeLines + [line];
      i := i + 1;
    }
    assert lines[..i] == lines;
  }

  /** One file of the directory: its name (`Path.GetFileName`) and lines. */
  datatype InputFile = InputFile(name: string, lines: seq<string>)

  /** The code lines of a file are all blank, and there is at least one,
      so `new SourceFile` throws on it. */
  predicate BlankCodeOnly(file: InputFile) {
    var code := Select(file.lines, CodeLine);
    |code| > 0 && AllBlank(code)
  }

  /** The body of the outer loop for one file. */
  method ReadFile(file: InputFile) returns (r: Result<SourceFile>)
    ensures r.Failure? <==> BlankCodeOnly(file)
    ensures r.Failure? ==> r.error == ArgumentOutOfRange
    ensures r.Success? ==> ReadFrom(file, r.value)
  {
    var namespaces, codeLines := SplitLines(file.lines);
    r := NewSourceFile(file.name, namespaces, codeLines);
  }

  /** `f` is what the outer loop makes of `file` when it does not throw. */
  predicate ReadFrom(file: InputFile, f: SourceFile) {
    && f.fileName == file.name
    && f.namespaces == Select(file.lines, UsingLine)
    && f.processedLines == TrimEmptyStartingLines(Select(file.lines, CodeLine))
  }

  /** `ReadFiles(path)` over the files the directory lists, in that order:
      the first file whose code lines are all blank aborts the loop with
      its exception; otherwise every file is read. */
  method ReadFiles(files: seq<InputFile>) returns (r: Result<seq<SourceFile>>)
    ensures r.Failure? <==> exists i :: 0 <= i < |files| && BlankCodeOnly(files[i])
    ensures r.Failure? ==> r.error == ArgumentOutOfRange
    ensures r.Success? ==> |r.value| == |files|
    ensures r.Success? ==> forall i :: 0 <= i < |files| ==> ReadFrom(files[i], r.value[i])
  {
    var sourceFiles := [];
    for i := 0 to |files|
      invariant |sourceFiles| == i
      invariant forall j :: 0 <= j < i ==> !BlankCodeOnly(files[j])
      invariant forall j :: 0 <= j < i ==> ReadFrom(files[j], sourceFiles[j])
    {
      var f := ReadFile(files[i]);
      if f.Failure? {
        return Failure(f.error);
      }
      sourceFiles := sourceFiles + [f.value];
    }
    r := Success(sourceFiles);
  }

  /** Every code line of a file reaches the processed lines of the file
      read from it unless it is blank: only leading blank lines are
      dropped. */
  lemma ReadFileKeepsCode(file: InputFile, f: SourceFile, line: string)
    requires ReadFrom(file, f)
    requires line in file.lines && Classify(line) == CodeLine
    ensures line in Select(file.lines, CodeLine)
    ensures line in f.processedLines || IsBlank(line)
  {
    SelectMembers(file.lines, CodeLine, line);
    var code := Select(file.lines, CodeLine);
    DroppedAreBlank(code, TrimEmptyStartingLines(code), line);
  }
}
