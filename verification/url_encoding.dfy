/** `StringExtensions.UrlEncode`: percent-encodes a string with
    `Uri.EscapeDataString` (section 2.1 of RFC 3986), calling it on chunks
    of at most `MaxLength` characters when the input is longer than that.

    `Uri.EscapeDataString` itself is a platform function: it is the
    parameter `escape` of every member here. */
module UrlEncoding {
  import opened Wrappers
  import opened Text

  /** The longest string handed to one `EscapeDataString` call. */
  const MaxLength: nat := 32766

  /** The chunks the encoding loop cuts `s` into: consecutive slices of
      `max` elements, the last one holding what is left. */
  function Chunks<T>(s: seq<T>, max: nat): seq<seq<T>>
    requires max > 0
    decreases |s|
  {
    if |s| == 0 then []
    else if |s| <= max then [s]
    else [s[..max]] + Chunks(s[max..], max)
  }

  /** The chunks are non-empty, at most `max` long, all but the last exactly
      `max` long, and together they are `s`, each element once and in order. */
  lemma {:induction false} ChunksCover<T>(s: seq<T>, max: nat)
    requires max > 0
    ensures Flatten(Chunks(s, max)) == s
    ensures forall i :: 0 <= i < |Chunks(s, max)| ==> 0 < |Chunks(s, max)[i]| <= max
    ensures forall i :: 0 <= i < |Chunks(s, max)| - 1 ==> |Chunks(s, max)[i]| == max
    decreases |s|
  {
    if |s| == 0 {
    } else if |s| <= max {
      assert Flatten([s]) == s + Flatten([s][1..]);
    } else {
      var cs := Chunks(s, max);
      var rest := Chunks(s[max..], max);
      ChunksCover(s[max..], max);
      assert cs == [s[..max]] + rest;
      assert cs[1..] == rest;
      assert Flatten(cs) == s[..max] + Flatten(rest);
      assert s[..max] + s[max..] == s;
      assert forall i :: 1 <= i < |cs| ==> cs[i] == rest[i - 1];
    }
  }

  /** `escape` applied to each chunk. */
  function EscapeEach(cs: seq<string>, escape: string -> string): (es: seq<string>)
    ensures |es| == |cs|
    ensures forall i :: 0 <= i < |cs| ==> es[i] == escape(cs[i])
  {
    seq(|cs|, i requires 0 <= i < |cs| => escape(cs[i]))
  }

  /** One turn of the encoding loop: the next chunk of `s` from `index` is
      the slice of `min(|s| - index, max)` elements starting there. */
  lemma ChunksStep<T>(s: seq<T>, index: nat, max: nat)
    requires max > 0 && index < |s|
    ensures var length := if |s| - index < max then |s| - index else max;
            Chunks(s[index..], max) == [s[index..index + length]] + Chunks(s[index + length..], max)
  {
    var length := if |s| - index < max then |s| - index else max;
    if |s| - index <= max {
      assert s[index..] == s[index..index + length];
      assert s[index + length..] == [];
    } else {
      assert s[index..][..max] == s[index..index + length];
      assert s[index..][max..] == s[index + length..];
    }
  }

  lemma EscapeEachAppend(cs: seq<string>, c: string, escape: string -> string)
    ensures Flatten(EscapeEach(cs + [c], escape)) == Flatten(EscapeEach(cs, escape)) + escape(c)
  {
    assert EscapeEach(cs + [c], escape) == EscapeEach(cs, escape) + [escape(c)];
    FlattenAppend(EscapeEach(cs, escape), escape(c));
  }

  /** `input.UrlEncode()`. */
  function UrlEncode(input: Option<string>, escape: string -> string): (r: Result<string>)
    ensures r.Failure? <==> input.None?
    ensures r.Failure? ==> r.error == ArgumentNull("input")
  {
    if input.None? then Failure(ArgumentNull("input"))
    else if |input.value| <= MaxLength then Success(escape(input.value))
    else Success(Flatten(EscapeEach(Chunks(input.value, MaxLength), escape)))
  }

  /** The encoding loop as written: returns the encoded string together
      with the pieces handed to `escape`, one call per piece. */
  method UrlEncodeLoop(input: Option<string>, escape: string -> string)
    returns (r: Result<string>, pieces: seq<string>)
    ensures r == UrlEncode(input, escape)
    ensures input.None? ==> pieces == []
    ensures input.Some? && |input.value| <= MaxLength ==> pieces == [input.value]
    ensures input.Some? && |input.value| > MaxLength ==>
              && Flatten(pieces) == input.value
              && (forall i :: 0 <= i < |pieces| ==> 0 < |pieces[i]| <= MaxLength)
              && (forall i :: 0 <= i < |pieces| - 1 ==> |pieces[i]| == MaxLength)
    ensures r.Success? ==> r.value == Flatten(EscapeEach(pieces, escape))
  {
    if input.None? {
      return Failure(ArgumentNull("input")), [];
    }
    var s := input.value;
    if |s| <= MaxLength {
      assert Flatten(EscapeEach([s], escape)) == escape(s) + Flatten([]);
      return Success(escape(s)), [s];
    }
    var sb;
    sb, pieces := EncodeChunks(s, escape);
    ChunksCover(s, MaxLength);
    r := Success(sb);
  }

  /** The `while` loop of the encoding: cuts `s` into its chunks and
      appends the encoding of each to the builder. */
  method EncodeChunks(s: string, escape: string -> string) returns (sb: string, pieces: seq<string>)
    ensures pieces == Chunks(s, MaxLength)
    ensures sb == Flatten(EscapeEach(pieces, escape))
  {
    sb := "";
    var index := 0;
    pieces := [];
    while index < |s|
      invariant 0 <= index <= |s|
      invariant pieces + Chunks(s[index..], MaxLength) == Chunks(s, MaxLength)
      invariant sb == Flatten(EscapeEach(pieces, escape))
      decreases |s| - index
    {
      var length := if |s| - index < MaxLength then |s| - index else MaxLength;
      var subString := s[index..index + length];
      ChunksStep(s, index, MaxLength);
      EscapeEachAppend(pieces, subString, escape);
      Assoc(pieces, [subString], Chunks(s[index + length..], MaxLength));
      sb := sb + escape(subString);
      pieces := pieces + [subString];
      index := index + |subString|;
    }
    assert s[index..] == [];
  }

  lemma Assoc<T>(a: seq<T>, b: seq<T>, c: seq<T>)
    ensures a + (b + c) == a + b + c
  {
  }

  /** `escape` respects concatenation: encoding two strings one after the
      other gives the encoding of their concatenation. */
  ghost predicate Homomorphic(escape: string -> string) {
    forall a: string, b: string :: escape(a + b) == escape(a) + escape(b)
  }

  lemma {:induction false} EscapeEachHomomorphic(cs: seq<string>, escape: string -> string)
    requires Homomorphic(escape)
    ensures Flatten(EscapeEach(cs, escape)) == escape(Flatten(cs))
    decreases |cs|
  {
    if |cs| == 0 {
      assert escape("" + "") == escape("") + escape("");
    } else {
      EscapeEachHomomorphic(cs[1..], escape);
      assert EscapeEach(cs, escape)[1..] == EscapeEach(cs[1..], escape);
      assert escape(cs[0] + Flatten(cs[1..])) == escape(cs[0]) + escape(Flatten(cs[1..]));
    }
  }

  /** Chunking is invisible when `escape` respects concatenation: the result
      is `escape` applied to the whole input. */
  lemma ChunkedEqualsWhole(s: string, escape: string -> string)
    requires Homomorphic(escape)
    ensures UrlEncode(Some(s), escape) == Success(escape(s))
  {
    if |s| > MaxLength {
      ChunksCover(s, MaxLength);
      EscapeEachHomomorphic(Chunks(s, MaxLength), escape);
    }
  }

  /** An encoding that never produces the character `c`. */
  ghost predicate Avoids(escape: string -> string, c: char) {
    forall x :: c !in escape(x)
  }

  lemma {:induction false} FlattenAvoids(es: seq<string>, c: char)
    requires forall i :: 0 <= i < |es| ==> c !in es[i]
    ensures c !in Flatten(es)
    decreases |es|
  {
    if |es| > 0 {
      FlattenAvoids(es[1..], c);
    }
  }

  /** A character `escape` never emits does not appear in a chunked encoding. */
  lemma UrlEncodeAvoids(input: string, escape: string -> string, c: char)
    requires Avoids(escape, c)
    ensures c !in UrlEncode(Some(input), escape).value
  {
    if |input| > MaxLength {
      FlattenAvoids(EscapeEach(Chunks(input, MaxLength), escape), c);
    }
  }

  /** A UTF-16 code unit, the element type of a .NET string. */
  type CodeUnit = bv16

  predicate IsHighSurrogate(u: CodeUnit) {
    0xD800 <= u <= 0xDBFF
  }

  predicate IsLowSurrogate(u: CodeUnit) {
    0xDC00 <= u <= 0xDFFF
  }

  /** The chunk boundary does not respect surrogate pairs: for 32765 code
      units followed by the pair encoding U+1F600, the first chunk ends with
      the high surrogate and the second begins with the low one. */
  lemma ChunkBoundarySplitsSurrogatePair()
    ensures var s := seq(MaxLength - 1, _ => 0x61 as CodeUnit) + [0xD83D, 0xDE00];
            var cs := Chunks(s, MaxLength);
            && |cs| == 2 && |cs[0]| == MaxLength && |cs[1]| == 1
            && IsHighSurrogate(cs[0][|cs[0]| - 1])
            && IsLowSurrogate(cs[1][0])
  {
    var s := seq(MaxLength - 1, _ => 0x61 as CodeUnit) + [0xD83D, 0xDE00];
    assert |s| == MaxLength + 1;
    assert s[MaxLength..] == [0xDE00];
    assert Chunks(s, MaxLength) == [s[..MaxLength], [0xDE00]];
    assert s[..MaxLength][MaxLength - 1] == 0xD83D;
  }
}
