/**
 * The display history of src/buf.rs: the `MESSAGES` deque that the terminal
 * layer prints. Only its updates are modelled (`push_message`, `clear_buf`
 * and the clearing half of `reset`); drawing on the screen is not.
 */
module Buf {

  /** `MESSAGE_BUF`: the deque is trimmed once it holds more than this many lines. */
  const MessageBuf: nat := 20

  /** The most lines the history can hold when it only grows through `push_message`. */
  const MaxHistory: nat := MessageBuf + 1

  /** The history after one `push_message`: drop the oldest line when the deque
      is already longer than `MessageBuf`, then append. */
  function Pushed(s: seq<string>, m: string): seq<string>
  {
    (if |s| > MessageBuf then s[1..] else s) + [m]
  }

  /** The history left by pushing `ms` in order onto an empty deque. */
  function PushAll(ms: seq<string>): seq<string>
  {
    if ms == [] then [] else Pushed(PushAll(ms[..|ms| - 1]), ms[|ms| - 1])
  }

  function Min(a: nat, b: nat): nat { if a <= b then a else b }

  /** A long deque keeps its length: the oldest line makes room for the new one. */
  lemma PushedFull(s: seq<string>, m: string)
    requires |s| > MessageBuf
    ensures |Pushed(s, m)| == |s|
    ensures Pushed(s, m) == s[1..] + [m]
  {
  }

  /** A deque of at most `MessageBuf` lines just grows by the new line. */
  lemma PushedNotFull(s: seq<string>, m: string)
    requires |s| <= MessageBuf
    ensures |Pushed(s, m)| == |s| + 1
    ensures Pushed(s, m)[..|s|] == s
  {
  }

  /** The new line is last, and what is kept of the old lines is a suffix of
      them, in their old order. */
  lemma PushedKeepsOrder(s: seq<string>, m: string)
    ensures Pushed(s, m)[|Pushed(s, m)| - 1] == m
    ensures exists k :: 0 <= k <= 1 && k <= |s| && Pushed(s, m) == s[k..] + [m]
  {
    if |s| > MessageBuf {
      assert Pushed(s, m) == s[1..] + [m];
    } else {
      assert Pushed(s, m) == s[0..] + [m];
    }
  }

  /** The bound `MaxHistory` is an invariant of `push_message`. */
  lemma PushedKeepsBound(s: seq<string>, m: string)
    requires |s| <= MaxHistory
    ensures |Pushed(s, m)| <= MaxHistory
  {
  }

  /** Pushing lines one by one onto an empty deque leaves exactly the last
      `MaxHistory` of them (all of them when there are fewer). */
  lemma {:induction false} PushAllKeepsLastWindow(ms: seq<string>)
    ensures |PushAll(ms)| == Min(|ms|, MaxHistory)
    ensures PushAll(ms) == ms[|ms| - Min(|ms|, MaxHistory)..]
  {
    if ms != [] {
      var p := ms[..|ms| - 1];
      PushAllKeepsLastWindow(p);
      assert p + [ms[|ms| - 1]] == ms;
      if |p| > MessageBuf {
        assert PushAll(p)[1..] == ms[|ms| - MaxHistory..|ms| - 1];
      } else {
        assert PushAll(p) == p;
      }
    }
  }

  /** The `MESSAGES` deque, updated in place. */
  class History {
    var messages: seq<string>

    constructor ()
      ensures messages == []
    {
      messages := [];
    }

    /** `push_message` (src/buf.rs:89-95). */
    method PushMessage(m: string)
      modifies this
      ensures messages == Pushed(old(messages), m)
    {
      if |messages| > MessageBuf {
        messages := messages[1..];
      }
      messages := messages + [m];
    }

    /** `clear_buf` (src/buf.rs:27-30). */
    method ClearBuf()
      modifies this
      ensures messages == []
    {
      messages := [];
    }

    /** `reset` (src/buf.rs:22-25); leaving the alternate screen is not modelled. */
    method Reset()
      modifies this
      ensures messages == []
    {
      ClearBuf();
    }
  }
}
