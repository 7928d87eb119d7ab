/**
 * UTF-8 byte counts of Dafny strings. A Rust `String` is measured and
 * sliced by its UTF-8 bytes, while a Dafny `string` is a sequence of Unicode
 * scalar values; these functions give the byte view of such a sequence.
 */
module Utf8 {
  import opened Wrappers

  /** The number of bytes UTF-8 spends on one scalar value. */
  function Width(c: char): (w: nat)
    ensures 1 <= w <= 4
    ensures w == 1 <==> c as int < 0x80
  {
    if c as int < 0x80 then 1
    else if c as int < 0x800 then 2
    else if c as int < 0x10000 then 3
    else 4
  }

  /** `String::len`: the length in UTF-8 bytes. */
  function ByteLen(s: string): (n: nat)
    ensures |s| <= n <= 4 * |s|
  {
    if s == [] then 0 else Width(s[0]) + ByteLen(s[1..])
  }

  predicate IsAscii(s: string)
  {
    forall i :: 0 <= i < |s| ==> s[i] as int < 128
  }

  lemma {:induction false} ByteLenConcat(a: string, b: string)
    ensures ByteLen(a + b) == ByteLen(a) + ByteLen(b)
  {
    if a == [] {
      assert a + b == b;
    } else {
      assert (a + b)[1..] == a[1..] + b;
      ByteLenConcat(a[1..], b);
    }
  }

  /** A string is one byte per character exactly when it is ASCII. */
  lemma {:induction false} AsciiByteLen(s: string)
    ensures ByteLen(s) == |s| <==> IsAscii(s)
  {
    if s != [] {
      AsciiByteLen(s[1..]);
      assert IsAscii(s) <==> s[0] as int < 128 && IsAscii(s[1..]) by {
        assert forall i :: 1 <= i < |s| ==> s[i] == s[1..][i - 1];
      }
    }
  }

  lemma AsciiConcat(a: string, b: string)
    ensures IsAscii(a + b) <==> IsAscii(a) && IsAscii(b)
  {
    assert forall i :: 0 <= i < |a| ==> (a + b)[i] == a[i];
    assert forall i :: 0 <= i < |b| ==> (a + b)[|a| + i] == b[i];
  }

  /** `&s[..n]`: the prefix of `s` that is exactly `n` bytes long. It is
      `None` when byte `n` lies inside a character or past the end, where
      Rust panics. */
  function BytePrefix(s: string, n: nat): (r: Option<string>)
    ensures r.Some? ==> r.value <= s && ByteLen(r.value) == n
  {
    if n == 0 then Some([])
    else if s == [] || Width(s[0]) > n then None
    else
      match BytePrefix(s[1..], n - Width(s[0]))
      case None => None
      case Some(p) =>
        assert ([s[0]] + p)[1..] == p;
        Some([s[0]] + p)
  }

  /** The other direction: whenever some prefix is `n` bytes long, the slice
      succeeds and returns that prefix. */
  lemma {:induction false} BytePrefixExact(s: string, k: nat)
    requires k <= |s|
    ensures BytePrefix(s, ByteLen(s[..k])) == Some(s[..k])
  {
    if k > 0 {
      assert s[..k][1..] == s[1..][..k - 1];
      BytePrefixExact(s[1..], k - 1);
      assert [s[0]] + s[1..][..k - 1] == s[..k];
    }
  }

  /** An ASCII prefix spends one byte per character, so slicing past it
      succeeds exactly when slicing the rest at the remaining count does. */
  lemma {:induction false} BytePrefixAfterAscii(a: string, b: string, n: nat)
    requires IsAscii(a) && |a| <= n
    ensures BytePrefix(a + b, n).Some? <==> BytePrefix(b, n - |a|).Some?
  {
    if a == [] {
      assert a + b == b;
    } else {
      assert (a + b)[0] == a[0];
      assert (a + b)[1..] == a[1..] + b;
      assert IsAscii(a[1..]) by {
        assert forall i :: 0 <= i < |a[1..]| ==> a[1..][i] == a[i + 1];
      }
      BytePrefixAfterAscii(a[1..], b, n - 1);
    }
  }

  /** Slicing a string at its own length returns it whole. */
  lemma BytePrefixWhole(s: string)
    ensures BytePrefix(s, ByteLen(s)) == Some(s)
  {
    BytePrefixExact(s, |s|);
    assert s[..|s|] == s;
  }
}
