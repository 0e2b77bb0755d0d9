/** The two C library string routines the tokenizer leans on, `strlen` and
    `strstr`, specified over character sequences. A C string is the part of a
    buffer before its first NUL; a sequence without a NUL is read to its end. */
module CStrings {

  datatype Option<T> = None | Some(value: T)

  /** `strlen`: the number of characters before the first NUL. */
  function StrLen(s: seq<char>): (n: nat)
    ensures n <= |s|
    ensures forall i :: 0 <= i < n ==> s[i] != '\0'
    ensures n < |s| ==> s[n] == '\0'
  {
    if s == [] || s[0] == '\0' then 0 else 1 + StrLen(s[1..])
  }

  /** The C string held in a buffer: its characters up to the first NUL. */
  function CString(s: seq<char>): (r: seq<char>)
    ensures '\0' !in r
    ensures r <= s
    ensures |r| < |s| ==> s[|r|] == '\0'
  {
    s[..StrLen(s)]
  }

  /** `strlen` of a NUL-free sequence is its length. */
  lemma StrLenOfNulFree(s: seq<char>)
    requires '\0' !in s
    ensures StrLen(s) == |s| && CString(s) == s
  {
  }

  /** `strlen` is pinned down by the position of the first NUL. */
  lemma StrLenAt(s: seq<char>, n: nat)
    requires n < |s| && s[n] == '\0'
    requires forall i :: 0 <= i < n ==> s[i] != '\0'
    ensures StrLen(s) == n
  {
  }

  /** `needle` sits in `hay` at offset `k`. */
  predicate OccursAt(hay: seq<char>, needle: seq<char>, k: nat)
  {
    k + |needle| <= |hay| && hay[k..k + |needle|] == needle
  }

  /** `strstr`: the offset of the first occurrence of `needle` in `hay`,
      or None (C's NULL) when there is none. The empty needle is found at 0. */
  function StrStr(hay: seq<char>, needle: seq<char>): (r: Option<nat>)
    ensures r.Some? ==> OccursAt(hay, needle, r.value)
    ensures r.Some? ==> forall j :: 0 <= j < r.value ==> !OccursAt(hay, needle, j)
    ensures r.None? ==> forall j :: 0 <= j <= |hay| ==> !OccursAt(hay, needle, j)
  {
    StrStrFrom(hay, needle, 0)
  }

  /** The search loop of `strstr`, starting at offset `from`. */
  function StrStrFrom(hay: seq<char>, needle: seq<char>, from: nat): (r: Option<nat>)
    requires from <= |hay|
    requires forall j :: 0 <= j < from ==> !OccursAt(hay, needle, j)
    ensures r.Some? ==> from <= r.value && OccursAt(hay, needle, r.value)
    ensures r.Some? ==> forall j :: 0 <= j < r.value ==> !OccursAt(hay, needle, j)
    ensures r.None? ==> forall j :: 0 <= j <= |hay| ==> !OccursAt(hay, needle, j)
    decreases |hay| - from
  {
    if OccursAt(hay, needle, from) then Some(from)
    else if from == |hay| then None
    else StrStrFrom(hay, needle, from + 1)
  }

  /** A needle that begins the haystack is found at offset 0; in particular the
      empty needle always is. */
  lemma StrStrOfPrefix(hay: seq<char>, needle: seq<char>)
    requires needle <= hay
    ensures StrStr(hay, needle) == Some(0)
  {
    assert hay[..|needle|] == needle;
    assert OccursAt(hay, needle, 0);
  }

  /** `strncpy(dst, src, n)` with `n` the common length of both buffers:
      the C string in `src` is copied and the rest of `dst` is filled with
      NULs. */
  method StrNCpy(dst: array<char>, src: array<char>)
    requires dst.Length == src.Length && dst != src
    modifies dst
    ensures forall k :: 0 <= k < dst.Length ==> dst[k] == if k < StrLen(src[..]) then src[k] else '\0'
  {
    var k := 0;
    while k < dst.Length && src[k] != '\0'
      invariant k <= dst.Length
      invariant forall i :: 0 <= i < k ==> src[i] != '\0' && dst[i] == src[i]
    {
      dst[k] := src[k];
      k := k + 1;
    }
    if k < dst.Length {
      StrLenAt(src[..], k);
    } else {
      StrLenOfNulFree(src[..]);
    }
    ghost var n := k;
    while k < dst.Length
      invariant n <= k <= dst.Length
      invariant forall i :: 0 <= i < n ==> dst[i] == src[i]
      invariant forall i :: n <= i < k ==> dst[i] == '\0'
    {
      dst[k] := '\0';
      k := k + 1;
    }
  }

  /** A buffer that holds `n` non-NUL characters and then only NULs holds
      those `n` characters as its C string. */
  lemma PaddedCString(s: seq<char>, n: nat)
    requires n <= |s|
    requires forall i :: 0 <= i < n ==> s[i] != '\0'
    requires forall i :: n <= i < |s| ==> s[i] == '\0'
    ensures CString(s) == s[..n]
  {
    if n < |s| {
      StrLenAt(s, n);
    } else {
      StrLenOfNulFree(s);
    }
  }
}
