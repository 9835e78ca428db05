/** The header collections (`System.Collections.Specialized.NameValueCollection`)
    that the client, each request and the shared transport hold.

    A collection is an ordered list of entries, one per key, each with the
    values added under that key. Keys compare case-insensitively; `Add`
    appends a non-null value to an existing key or creates the key; the
    indexer `h[name]` returns the values joined by commas, or null. */
module NameValues {
  import opened Wrappers
  import Text

  datatype Entry = Entry(name: string, values: seq<string>)

  type Collection = seq<Entry>

  /** ASCII case folding; the collection's key comparison ignores case. */
  function FoldChar(c: char): char {
    if 'A' <= c <= 'Z' then (c as int + 32) as char else c
  }

  function Fold(s: string): string {
    seq(|s|, i requires 0 <= i < |s| => FoldChar(s[i]))
  }

  predicate SameKey(a: string, b: string) {
    Fold(a) == Fold(b)
  }

  /** No key occurs twice, which every `Add` maintains. */
  predicate WellFormed(h: Collection) {
    forall i, j :: 0 <= i < j < |h| ==> !SameKey(h[i].name, h[j].name)
  }

  /** `AllKeys`: the keys in the order they were first added. */
  function AllKeys(h: Collection): (keys: seq<string>)
    ensures |keys| == |h|
    ensures forall i :: 0 <= i < |h| ==> keys[i] == h[i].name
  {
    seq(|h|, i requires 0 <= i < |h| => h[i].name)
  }

  /** Position of the first key equal to `name` ignoring case, or -1. */
  function KeyIndex(keys: seq<string>, name: string): (r: int)
    ensures -1 <= r < |keys|
    ensures r >= 0 ==> SameKey(keys[r], name)
    ensures r >= 0 ==> forall j :: 0 <= j < r ==> !SameKey(keys[j], name)
    ensures r == -1 ==> forall j :: 0 <= j < |keys| ==> !SameKey(keys[j], name)
    decreases |keys|
  {
    if |keys| == 0 then -1
    else if SameKey(keys[0], name) then 0
    else
      var r := KeyIndex(keys[1..], name);
      if r < 0 then -1 else r + 1
  }

  function IndexOf(h: Collection, name: string): int {
    KeyIndex(AllKeys(h), name)
  }

  /** The values a non-null `value` contributes; a null one contributes none. */
  function ValuesOf(value: Option<string>): seq<string> {
    if value.Some? then [value.value] else []
  }

  /** The indexer's rendering of a value list: comma-joined, null when empty. */
  function JoinValues(vs: seq<string>): Option<string> {
    if |vs| == 0 then None else Some(Text.Join(vs, ","))
  }

  /** `h.Add(name, value)`. */
  function Add(h: Collection, name: string, value: Option<string>): Collection {
    var i := IndexOf(h, name);
    if i < 0 then h + [Entry(name, ValuesOf(value))]
    else h[i := h[i].(values := h[i].values + ValuesOf(value))]
  }

  /** The indexer `h[name]`. */
  function Get(h: Collection, name: string): Option<string> {
    var i := IndexOf(h, name);
    if i < 0 then None else JoinValues(h[i].values)
  }

  /** `foreach (var k in src.AllKeys) dst.Add(k, src[k])` over the keys `keys`. */
  function AddAll(dst: Collection, src: Collection, keys: seq<string>): Collection
    decreases |keys|
  {
    if |keys| == 0 then dst
    else AddAll(Add(dst, keys[0], Get(src, keys[0])), src, keys[1..])
  }

  /** `foreach (var k in src.AllKeys) dst.Add(k, src[k])`. */
  function CopyInto(dst: Collection, src: Collection): Collection {
    AddAll(dst, src, AllKeys(src))
  }

  /** `h2` keeps every entry of `h` in place, each value list extended at
      its end, and possibly has further entries after them. */
  predicate Extends(h: Collection, h2: Collection) {
    && |h| <= |h2|
    && forall i :: 0 <= i < |h| ==>
         h2[i].name == h[i].name && h[i].values <= h2[i].values
  }

  lemma AddExtends(h: Collection, name: string, value: Option<string>)
    ensures Extends(h, Add(h, name, value))
  {
  }

  lemma {:induction false} AddAllExtends(dst: Collection, src: Collection, keys: seq<string>)
    ensures Extends(dst, AddAll(dst, src, keys))
    decreases |keys|
  {
    if |keys| > 0 {
      var d1 := Add(dst, keys[0], Get(src, keys[0]));
      AddExtends(dst, keys[0], Get(src, keys[0]));
      AddAllExtends(d1, src, keys[1..]);
    }
  }

  /** Adding into a collection never removes a key or a value. */
  lemma CopyIntoExtends(dst: Collection, src: Collection)
    ensures Extends(dst, CopyInto(dst, src))
  {
    AddAllExtends(dst, src, AllKeys(src));
  }

  /** `Add` never creates a second entry for a key. */
  lemma AddWellFormed(h: Collection, name: string, value: Option<string>)
    ensures WellFormed(h) ==> WellFormed(Add(h, name, value))
  {
  }

  /** The value the indexer reports after `Add`. */
  function Appended(old_: Option<string>, value: Option<string>): Option<string> {
    if value.None? then old_
    else if old_.None? then value
    else Some(old_.value + "," + value.value)
  }

  lemma {:induction false} JoinAppend(vs: seq<string>, v: string)
    requires |vs| > 0
    ensures Text.Join(vs + [v], ",") == Text.Join(vs, ",") + "," + v
    decreases |vs|
  {
    if |vs| == 1 {
      assert (vs + [v])[1..] == [v];
    } else {
      assert (vs + [v])[1..] == vs[1..] + [v];
      JoinAppend(vs[1..], v);
      assert Text.Join(vs + [v], ",") == vs[0] + "," + (Text.Join(vs[1..], ",") + "," + v);
    }
  }

  lemma KeyIndexSameKey(keys: seq<string>, a: string, b: string)
    requires SameKey(a, b)
    ensures KeyIndex(keys, a) == KeyIndex(keys, b)
    decreases |keys|
  {
    if |keys| > 0 {
      KeyIndexSameKey(keys[1..], a, b);
    }
  }

  lemma KeyIndexOther(keys: seq<string>, a: string, b: string)
    requires !SameKey(a, b)
    ensures KeyIndex(keys + [a], b) == KeyIndex(keys, b)
    decreases |keys|
  {
    if |keys| > 0 {
      assert (keys + [a])[1..] == keys[1..] + [a];
      KeyIndexOther(keys[1..], a, b);
    }
  }

  lemma {:induction false} KeyIndexLast(keys: seq<string>, a: string, b: string)
    requires SameKey(a, b)
    requires KeyIndex(keys, b) == -1
    ensures KeyIndex(keys + [a], b) == |keys|
  {
    var ks := keys + [a];
    assert ks[|keys|] == a;
    assert forall j :: 0 <= j < |keys| ==> ks[j] == keys[j];
  }

  /** `Add` changes what the indexer reports for `name` alone, and for
      `name` it reports the earlier value followed by the new one. */
  lemma {:induction false} GetAfterAdd(h: Collection, name: string, value: Option<string>, k: string)
    ensures Get(Add(h, name, value), k) ==
              if SameKey(k, name) then Appended(Get(h, k), value) else Get(h, k)
  {
    var i := IndexOf(h, name);
    var h2 := Add(h, name, value);
    if i < 0 {
      assert AllKeys(h2) == AllKeys(h) + [name];
      if SameKey(k, name) {
        KeyIndexSameKey(AllKeys(h), k, name);
        KeyIndexLast(AllKeys(h), name, k);
      } else {
        KeyIndexOther(AllKeys(h), name, k);
      }
    } else {
      assert AllKeys(h2) == AllKeys(h);
      if SameKey(k, name) {
        KeyIndexSameKey(AllKeys(h), k, name);
        assert IndexOf(h2, k) == i && IndexOf(h, k) == i;
        assert h2[i].values == h[i].values + ValuesOf(value);
        if |h[i].values| > 0 && value.Some? {
          JoinAppend(h[i].values, value.value);
        } else if value.Some? {
          assert h2[i].values == [value.value];
        } else {
          assert h2[i].values == h[i].values;
        }
      }
    }
  }

  /** The entries of `src` as a fresh copy holds them: each value list
      collapsed to the one joined string the indexer returned. */
  function Snapshot(src: Collection): (r: Collection)
    ensures |r| == |src|
  {
    seq(|src|, i requires 0 <= i < |src| => Entry(src[i].name, ValuesOf(JoinValues(src[i].values))))
  }

  lemma {:induction false} AddAllSnapshot(src: Collection, m: nat)
    requires WellFormed(src)
    requires m <= |src|
    ensures AddAll(Snapshot(src[..m]), src, AllKeys(src)[m..]) == Snapshot(src)
    decreases |src| - m
  {
    if m == |src| {
      assert src[..m] == src;
    } else {
      var keys := AllKeys(src);
      var d := Snapshot(src[..m]);
      var name := keys[m];
      assert KeyIndex(AllKeys(d), name) == -1 by {
        forall j | 0 <= j < |AllKeys(d)|
          ensures !SameKey(AllKeys(d)[j], name)
        {
          assert AllKeys(d)[j] == src[j].name;
        }
      }
      assert IndexOf(src, name) == m by {
        assert keys[m] == src[m].name;
        forall j | 0 <= j < m
          ensures !SameKey(keys[j], name)
        {
          assert keys[j] == src[j].name;
        }
      }
      assert Add(d, name, Get(src, name)) == Snapshot(src[..m + 1]) by {
        assert src[..m + 1][..m] == src[..m];
      }
      assert keys[m..][1..] == keys[m + 1..];
      AddAllSnapshot(src, m + 1);
    }
  }

  /** Copying a collection into an empty one keeps its keys, in order, and
      what the indexer reports under every key. */
  lemma CopyIntoEmpty(src: Collection, k: string)
    requires WellFormed(src)
    ensures AllKeys(CopyInto([], src)) == AllKeys(src)
    ensures Get(CopyInto([], src), k) == Get(src, k)
  {
    assert src[..0] == [];
    assert Snapshot([]) == [];
    AddAllSnapshot(src, 0);
    var c := CopyInto([], src);
    assert c == Snapshot(src);
    assert AllKeys(c) == AllKeys(src);
    var i := IndexOf(src, k);
    if i >= 0 {
      var vs := src[i].values;
      if |vs| > 0 {
        assert c[i].values == [Text.Join(vs, ",")];
      }
    }
  }

  /** No two of `keys` are the same key. */
  predicate DistinctKeys(keys: seq<string>) {
    forall i, j :: 0 <= i < j < |keys| ==> !SameKey(keys[i], keys[j])
  }

  /** Some key of `keys` names `k`. */
  predicate HasKey(keys: seq<string>, k: string) {
    exists i :: 0 <= i < |keys| && SameKey(keys[i], k)
  }

  lemma HasKeyCons(keys: seq<string>, k: string)
    requires |keys| > 0
    ensures HasKey(keys, k) <==> SameKey(keys[0], k) || HasKey(keys[1..], k)
  {
    if HasKey(keys, k) && !SameKey(keys[0], k) {
      var i :| 0 <= i < |keys| && SameKey(keys[i], k);
      assert keys[1..][i - 1] == keys[i];
    }
    if HasKey(keys[1..], k) {
      var i :| 0 <= i < |keys[1..]| && SameKey(keys[1..][i], k);
      assert keys[i + 1] == keys[1..][i];
    }
  }

  /** In distinct keys the first one names nothing the others name, and
      the others are distinct too. */
  lemma DistinctCons(keys: seq<string>, k: string)
    requires |keys| > 0 && DistinctKeys(keys)
    ensures DistinctKeys(keys[1..])
    ensures SameKey(keys[0], k) ==> !HasKey(keys[1..], k)
  {
    if SameKey(keys[0], k) {
      forall i | 0 <= i < |keys[1..]|
        ensures !SameKey(keys[1..][i], k)
      {
        assert keys[1..][i] == keys[i + 1];
      }
    }
  }

  lemma {:induction false} AddAllGet(dst: Collection, src: Collection, keys: seq<string>, k: string)
    requires DistinctKeys(keys)
    ensures Get(AddAll(dst, src, keys), k) ==
              if HasKey(keys, k) then Appended(Get(dst, k), Get(src, k)) else Get(dst, k)
    decreases |keys|
  {
    if |keys| > 0 {
      var v := Get(src, keys[0]);
      var d1 := Add(dst, keys[0], v);
      GetAfterAdd(dst, keys[0], v, k);
      DistinctCons(keys, k);
      HasKeyCons(keys, k);
      AddAllGet(d1, src, keys[1..], k);
      if SameKey(keys[0], k) {
        KeyIndexSameKey(AllKeys(src), keys[0], k);
      }
    }
  }

  /** Copying `src` into `dst` appends, under every key, what `src` reports
      to what `dst` reported: nothing is replaced, so copying the same
      collection twice doubles its values. */
  lemma GetAfterCopyInto(dst: Collection, src: Collection, k: string)
    requires WellFormed(src)
    ensures Get(CopyInto(dst, src), k) == Appended(Get(dst, k), Get(src, k))
  {
    var keys := AllKeys(src);
    assert DistinctKeys(keys) by {
      forall i, j | 0 <= i < j < |keys|
        ensures !SameKey(keys[i], keys[j])
      {
        assert keys[i] == src[i].name && keys[j] == src[j].name;
      }
    }
    AddAllGet(dst, src, keys, k);
    if !exists i :: 0 <= i < |keys| && SameKey(keys[i], k) {
      assert IndexOf(src, k) == -1;
    }
  }

  lemma CopyIntoAppends(dst: Collection, src: Collection)
    ensures WellFormed(src) ==>
              forall k :: Get(CopyInto(dst, src), k) == Appended(Get(dst, k), Get(src, k))
  {
    if WellFormed(src) {
      forall k ensures Get(CopyInto(dst, src), k) == Appended(Get(dst, k), Get(src, k)) {
        GetAfterCopyInto(dst, src, k);
      }
    }
  }
}
