/** `compare_string` of src/util.rs. */
module Util {

  /** `compare_string(lhs, rhs)`: a for-loop over the characters of `rhs` that
      steps an iterator over `lhs` and returns early on a mismatch or when
      `lhs` runs out. It answers whether `rhs` is a prefix of `lhs`. */
  method CompareString(lhs: string, rhs: string) returns (r: bool)
    ensures r <==> rhs <= lhs
  {
    var pos := 0;  // how far the iterator over `lhs` has advanced
    for k := 0 to |rhs|
      invariant pos == k && k <= |lhs|
      invariant lhs[..k] == rhs[..k]
    {
      if pos < |lhs| {
        var ch := lhs[pos];
        pos := pos + 1;
        if ch != rhs[k] {
          return false;
        }
      } else {
        return false;
      }
    }
    assert rhs[..|rhs|] == rhs;
    return true;
  }

  /** The relation `compare_string` decides, stated character by character. */
  predicate StartsWith(lhs: string, rhs: string)
  {
    rhs == [] || (lhs != [] && lhs[0] == rhs[0] && StartsWith(lhs[1..], rhs[1..]))
  }

  /** The character-by-character definition agrees with Dafny's prefix order. */
  lemma {:induction false} StartsWithIsPrefix(lhs: string, rhs: string)
    ensures StartsWith(lhs, rhs) <==> rhs <= lhs
  {
    if rhs != [] && lhs != [] {
      StartsWithIsPrefix(lhs[1..], rhs[1..]);
      assert rhs <= lhs <==> (lhs[0] == rhs[0] && rhs[1..] <= lhs[1..]);
    }
  }

  /** The first position where the strings differ decides a `false`. */
  lemma {:induction false} MismatchIsNotPrefix(lhs: string, rhs: string, k: nat)
    requires k < |lhs| && k < |rhs|
    requires lhs[..k] == rhs[..k] && lhs[k] != rhs[k]
    ensures !StartsWith(lhs, rhs)
  {
    StartsWithIsPrefix(lhs, rhs);
  }

  /** An `rhs` longer than `lhs` makes the iterator run out: `false`. */
  lemma {:induction false} LongerIsNotPrefix(lhs: string, rhs: string)
    requires |rhs| > |lhs|
    ensures !StartsWith(lhs, rhs)
  {
    StartsWithIsPrefix(lhs, rhs);
  }

  /** The relation is reflexive but not symmetric. */
  lemma {:induction false} StartsWithReflexiveNotSymmetric(s: string)
    ensures StartsWith(s, s)
    ensures StartsWith("ab", "a") && !StartsWith("a", "ab")
  {
    StartsWithIsPrefix(s, s);
    StartsWithIsPrefix("ab", "a");
    StartsWithIsPrefix("a", "ab");
  }
}
