/** String helpers standing in for the .NET `string` members the library
    calls: `IsNullOrWhiteSpace`, `StartsWith`, `Contains`, `TrimStart`,
    `TrimEnd`, `string.Join`, plus the ordinal order used to sort lines. */
module Text {
  import opened Wrappers

  /** `char.IsWhiteSpace`: the Unicode space, line and paragraph separators
      together with U+0009..U+000D and U+0085. */
  predicate IsWhiteSpace(c: char) {
    || ('\U{0009}' <= c <= '\U{000D}')
    || c == ' ' || c == '\U{0085}' || c == '\U{00A0}' || c == '\U{1680}'
    || ('\U{2000}' <= c <= '\U{200A}')
    || c == '\U{2028}' || c == '\U{2029}' || c == '\U{202F}' || c == '\U{205F}'
    || c == '\U{3000}'
  }

  /** `string.IsNullOrWhiteSpace` on a non-null string: every character is
      white space (so the empty string qualifies). */
  predicate IsBlank(s: string) {
    forall i :: 0 <= i < |s| ==> IsWhiteSpace(s[i])
  }

  /** `string.IsNullOrWhiteSpace`. */
  predicate IsNullOrWhiteSpace(s: Option<string>) {
    s.None? || IsBlank(s.value)
  }

  /** Ordinal `StartsWith`: `prefix` occupies the first columns of `s`. */
  predicate StartsWith(s: string, prefix: string) {
    |prefix| <= |s| && s[..|prefix|] == prefix
  }

  /** `part` occurs in `s` starting at column `i`. */
  predicate OccursAt(s: string, part: string, i: int) {
    0 <= i <= |s| - |part| && s[i..i + |part|] == part
  }

  /** Ordinal `Contains`: `part` occurs somewhere in `s`. */
  predicate Contains(s: string, part: string) {
    exists i :: 0 <= i <= |s| && OccursAt(s, part, i)
  }

  /** The two path separators `TrimStart('/', '\\')` and `TrimEnd('/', '\\')` remove. */
  const PathSeparators: set<char> := {'/', '\\'}

  /** `s.TrimStart(cs)`: the longest suffix of `s` that does not start with
      a character of `cs`. */
  function TrimStart(s: string, cs: set<char>): (r: string)
    ensures |r| <= |s| && r == s[|s| - |r|..]
    ensures |r| == 0 || r[0] !in cs
    ensures forall i :: 0 <= i < |s| - |r| ==> s[i] in cs
    decreases |s|
  {
    if |s| > 0 && s[0] in cs then TrimStart(s[1..], cs) else s
  }

  /** `s.TrimEnd(cs)`: the longest prefix of `s` that does not end with a
      character of `cs`. */
  function TrimEnd(s: string, cs: set<char>): (r: string)
    ensures |r| <= |s| && r == s[..|r|]
    ensures |r| == 0 || r[|r| - 1] !in cs
    ensures forall i :: |r| <= i < |s| ==> s[i] in cs
    decreases |s|
  {
    if |s| > 0 && s[|s| - 1] in cs then TrimEnd(s[..|s| - 1], cs) else s
  }

  /** `string.Join(delim, parts)`. */
  function Join(parts: seq<string>, delim: string): string
    decreases |parts|
  {
    if |parts| == 0 then ""
    else if |parts| == 1 then parts[0]
    else parts[0] + delim + Join(parts[1..], delim)
  }

  /** Splits `s` at every occurrence of `d`; the inverse of `Join` with a
      one-character delimiter. Used only to state round trips. */
  function Split(s: string, d: char): (r: seq<string>)
    ensures |r| > 0
    decreases |s|
  {
    if |s| == 0 then [""]
    else
      var rest := Split(s[1..], d);
      if s[0] == d then [""] + rest
      else [[s[0]] + rest[0]] + rest[1..]
  }

  /** A string without the character `d` is one piece. */
  lemma {:induction false} SplitNoDelimiter(p: string, d: char)
    requires d !in p
    ensures Split(p, d) == [p]
    decreases |p|
  {
    if |p| > 0 {
      SplitNoDelimiter(p[1..], d);
      assert [p[0]] + p[1..] == p;
    }
  }

  /** Splitting `p + [d] + q` yields `p` followed by the pieces of `q`. */
  lemma {:induction false} SplitFirstPiece(p: string, d: char, q: string)
    requires d !in p
    ensures Split(p + [d] + q, d) == [p] + Split(q, d)
    decreases |p|
  {
    var s := p + [d] + q;
    if |p| == 0 {
      assert s[1..] == q;
    } else {
      assert s[1..] == p[1..] + [d] + q;
      SplitFirstPiece(p[1..], d, q);
      assert [p[0]] + p[1..] == p;
    }
  }

  /** `Split` undoes `Join` when no part holds the delimiter. */
  lemma {:induction false} SplitJoin(parts: seq<string>, d: char)
    requires |parts| > 0
    requires forall i :: 0 <= i < |parts| ==> d !in parts[i]
    ensures Split(Join(parts, [d]), d) == parts
    decreases |parts|
  {
    if |parts| == 1 {
      SplitNoDelimiter(parts[0], d);
    } else {
      SplitJoin(parts[1..], d);
      SplitFirstPiece(parts[0], d, Join(parts[1..], [d]));
      assert [parts[0]] + parts[1..] == parts;
    }
  }

  /** Concatenation of a sequence of sequences. */
  function Flatten<T>(xs: seq<seq<T>>): seq<T>
    decreases |xs|
  {
    if |xs| == 0 then [] else xs[0] + Flatten(xs[1..])
  }

  lemma FlattenAppend<T>(xs: seq<seq<T>>, x: seq<T>)
    ensures Flatten(xs + [x]) == Flatten(xs) + x
    decreases |xs|
  {
    if |xs| == 0 {
      assert xs + [x] == [x];
    } else {
      assert (xs + [x])[1..] == xs[1..] + [x];
      FlattenAppend(xs[1..], x);
    }
  }

  /** Strict ordinal order on strings: compares character codes left to
      right, a proper prefix coming first. */
  predicate Less(a: string, b: string)
    decreases |a|
  {
    if |a| == 0 then |b| > 0
    else if |b| == 0 then false
    else if a[0] == b[0] then Less(a[1..], b[1..])
    else a[0] < b[0]
  }

  lemma LessIrreflexive(a: string)
    ensures !Less(a, a)
  {
  }

  lemma LessTransitive(a: string, b: string, c: string)
    requires Less(a, b) && Less(b, c)
    ensures Less(a, c)
  {
  }

  lemma LessTotal(a: string, b: string)
    ensures a == b || Less(a, b) || Less(b, a)
  {
    if |a| > 0 && |b| > 0 && a[0] == b[0] {
      LessTotal(a[1..], b[1..]);
      assert a == [a[0]] + a[1..];
      assert b == [b[0]] + b[1..];
    }
  }

  lemma LessAsymmetric(a: string, b: string)
    requires Less(a, b)
    ensures !Less(b, a)
  {
  }
}
