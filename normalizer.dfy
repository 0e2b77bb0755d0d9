/** The line normaliser, `squeeze_together`: every delimiter character is
    removed from an input line, every other character is kept in order. */
module Normalizer {
  import opened CStrings

  /** The characters removed from a line: tab, space, newline, NUL, vertical
      tab, backspace, form feed, carriage return and bell. */
  predicate IsDelimiter(c: char)
  {
    c in {'\t', ' ', '\n', '\0', '\U{B}', '\U{8}', '\U{C}', '\r', '\U{7}'}
  }

  /** What one character contributes to the squeezed line. */
  function Keep(c: char): seq<char>
  {
    if IsDelimiter(c) then [] else [c]
  }

  /** The line with every delimiter filtered out. */
  function Squeeze(s: seq<char>): (r: seq<char>)
    ensures |r| <= |s|
  {
    if s == [] then [] else Keep(s[0]) + Squeeze(s[1..])
  }

  /** The normalised form of a line buffer: the C string it holds, squeezed. */
  function Normalize(buf: seq<char>): seq<char>
  {
    Squeeze(CString(buf))
  }

  /** No character of `s` is a delimiter. */
  predicate Clean(s: seq<char>)
  {
    forall i :: 0 <= i < |s| ==> !IsDelimiter(s[i])
  }

  /** `a` is obtained from `b` by deleting some of its elements. */
  predicate IsSubsequence(a: seq<char>, b: seq<char>)
    decreases |b|
  {
    a == [] ||
    (b != [] && ((a[0] == b[0] && IsSubsequence(a[1..], b[1..])) || IsSubsequence(a, b[1..])))
  }

  lemma {:induction false} SqueezeAppend(s: seq<char>, c: char)
    ensures Squeeze(s + [c]) == Squeeze(s) + Keep(c)
  {
    if s == [] {
      assert s + [c] == [c];
    } else {
      assert (s + [c])[1..] == s[1..] + [c];
      SqueezeAppend(s[1..], c);
    }
  }

  /** The squeezed line contains no delimiter. */
  lemma {:induction false} SqueezeIsClean(s: seq<char>)
    ensures Clean(Squeeze(s))
  {
    if s != [] {
      SqueezeIsClean(s[1..]);
    }
  }

  /** Every character that is not a delimiter is kept, as often as it occurs;
      every delimiter is gone. */
  lemma {:induction false} SqueezeKeepsOthers(s: seq<char>, c: char)
    ensures multiset(Squeeze(s))[c] == if IsDelimiter(c) then 0 else multiset(s)[c]
  {
    if s != [] {
      var h, t := s[0], s[1..];
      SqueezeKeepsOthers(t, c);
      assert multiset(s) == multiset([h]) + multiset(t) by {
        assert s == [h] + t;
      }
      assert multiset(Squeeze(s)) == multiset(Keep(h)) + multiset(Squeeze(t));
    }
  }

  /** The kept characters stay in their original order. */
  lemma {:induction false} SqueezeIsSubsequence(s: seq<char>)
    ensures IsSubsequence(Squeeze(s), s)
  {
    if s != [] {
      SqueezeIsSubsequence(s[1..]);
      if IsDelimiter(s[0]) {
        assert Squeeze(s) == Squeeze(s[1..]);
      } else {
        assert Squeeze(s) == [s[0]] + Squeeze(s[1..]);
        assert Squeeze(s)[0] == s[0] && Squeeze(s)[1..] == Squeeze(s[1..]);
      }
    }
  }

  /** A line without delimiters is left as it is. */
  lemma {:induction false} SqueezeOfClean(s: seq<char>)
    requires Clean(s)
    ensures Squeeze(s) == s
  {
    if s != [] {
      SqueezeOfClean(s[1..]);
      assert s == [s[0]] + s[1..];
    }
  }

  /** Squeezing twice is squeezing once. */
  lemma SqueezeIdempotent(s: seq<char>)
    ensures Squeeze(Squeeze(s)) == Squeeze(s)
  {
    SqueezeIsClean(s);
    SqueezeOfClean(Squeeze(s));
  }

  /** A normalised line is a NUL-free C string without delimiters, and
      normalising it again changes nothing. */
  lemma NormalizeIdempotent(buf: seq<char>)
    ensures Clean(Normalize(buf)) && '\0' !in Normalize(buf)
    ensures Normalize(Normalize(buf)) == Normalize(buf)
  {
    var n := Normalize(buf);
    SqueezeIsClean(CString(buf));
    assert IsDelimiter('\0');
    assert forall i :: 0 <= i < |n| ==> n[i] != '\0';
    StrLenOfNulFree(n);
    SqueezeIdempotent(CString(buf));
  }

  /** The scratch buffer after the loop of `squeeze_together`: the squeezed
      characters, then NULs, so that its C string is the normalised line. */
  lemma SqueezedBuffer(line: seq<char>, t: seq<char>, j: nat)
    requires j <= |t|
    requires t[..j] == Squeeze(line[..StrLen(line)])
    requires forall k :: j <= k < |t| ==> t[k] == '\0'
    ensures t[..j] == Normalize(line)
    ensures CString(t) == Normalize(line)
  {
    assert line[..StrLen(line)] == CString(line);
    SqueezeIsClean(CString(line));
    assert IsDelimiter('\0');
    assert forall k :: 0 <= k < j ==> t[k] == t[..j][k];
    PaddedCString(t, j);
  }

  /** `squeeze_together`: the characters of the C string in `buf` are copied,
      delimiters skipped, into a zero-filled scratch buffer, which is then copied
      back over `buf`. Afterwards `buf` holds the normalised line followed by NULs. */
  method SqueezeTogether(buf: array<char>)
    modifies buf
    ensures |Normalize(old(buf[..]))| <= buf.Length
    ensures buf[..|Normalize(old(buf[..]))|] == Normalize(old(buf[..]))
    ensures forall k :: |Normalize(old(buf[..]))| <= k < buf.Length ==> buf[k] == '\0'
    ensures CString(buf[..]) == Normalize(old(buf[..]))
  {
    ghost var line := buf[..];
    var n := StrLen(buf[..]);
    var temp := new char[buf.Length](_ => '\0');
    var j := 0;
    for i := 0 to n
      modifies temp
      invariant j <= i
      invariant temp[..j] == Squeeze(line[..i])
      invariant forall k :: j <= k < temp.Length ==> temp[k] == '\0'
    {
      SqueezeAppend(line[..i], line[i]);
      assert line[..i + 1] == line[..i] + [line[i]];
      if !IsDelimiter(buf[i]) {
        temp[j] := buf[i];
        j := j + 1;
      }
    }
    SqueezedBuffer(line, temp[..], j);
    StrNCpy(buf, temp);
    assert buf[..] == temp[..];
  }
}
