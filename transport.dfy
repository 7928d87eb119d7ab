/**
 * What the relays send and to whom. A UDP `send_to` is modelled as one
 * entry appended to an outbox; nothing is transmitted.
 */
module Transport {
  import P = Protocol

  /** A `SocketAddr` in its `to_string()` form, which is what the relays compare. */
  type Addr = string

  /** What goes on the wire: a message the relay already holds, forwarded
      whole, or one made by `Message::new(code, text)`, whose header fields
      are filled by that constructor (not part of this model). */
  datatype Packet = Frame(msg: P.Message) | Fresh(code: P.Byte, text: string)

  /** One `send_to(packet, to)`. */
  datatype Send = Send(to: Addr, packet: Packet)

  /** One send of `pkt` to each of `rs`, in order. */
  function Sends(rs: seq<Addr>, pkt: Packet): (r: seq<Send>)
    ensures |r| == |rs|
    ensures forall k :: 0 <= k < |rs| ==> r[k] == Send(rs[k], pkt)
  {
    if rs == [] then [] else Sends(rs[..|rs| - 1], pkt) + [Send(rs[|rs| - 1], pkt)]
  }

  lemma SendsAppend(rs: seq<Addr>, x: Addr, pkt: Packet)
    ensures Sends(rs + [x], pkt) == Sends(rs, pkt) + [Send(x, pkt)]
  {
  }

  /** One more roster entry adds one send at the end. */
  lemma SendsPrefixStep(rs: seq<Addr>, k: nat, pkt: Packet)
    requires k < |rs|
    ensures Sends(rs[..k + 1], pkt) == Sends(rs[..k], pkt) + [Send(rs[k], pkt)]
  {
    assert rs[..k + 1] == rs[..k] + [rs[k]];
    SendsAppend(rs[..k], rs[k], pkt);
  }

  /** `s` with every entry equal to `a` left out, the rest in order. */
  function Without(s: seq<Addr>, a: Addr): seq<Addr>
  {
    if s == [] then []
    else Without(s[..|s| - 1], a) + (if s[|s| - 1] == a then [] else [s[|s| - 1]])
  }

  /** One more roster entry survives the filter unless it is `a`. */
  lemma WithoutPrefixStep(s: seq<Addr>, k: nat, a: Addr)
    requires k < |s|
    ensures Without(s[..k + 1], a) == Without(s[..k], a) + (if s[k] == a then [] else [s[k]])
  {
    assert s[..k + 1][..k] == s[..k];
  }

  /** Number of entries of `s` equal to `a`. */
  function Count(s: seq<Addr>, a: Addr): nat
  {
    if s == [] then 0 else Count(s[..|s| - 1], a) + (if s[|s| - 1] == a then 1 else 0)
  }

  predicate Distinct(s: seq<Addr>)
  {
    forall i, j :: 0 <= i < j < |s| ==> s[i] != s[j]
  }

  /** Exactly the entries other than `a` survive. */
  lemma {:induction false} WithoutMembers(s: seq<Addr>, a: Addr, x: Addr)
    ensures x in Without(s, a) <==> x in s && x != a
  {
    if s != [] {
      WithoutMembers(s[..|s| - 1], a, x);
      assert s == s[..|s| - 1] + [s[|s| - 1]];
    }
  }

  /** Filtering distributes over concatenation, so it keeps the order of `s`. */
  lemma {:induction false} WithoutConcat(s: seq<Addr>, t: seq<Addr>, a: Addr)
    ensures Without(s + t, a) == Without(s, a) + Without(t, a)
  {
    if t != [] {
      var t' := t[..|t| - 1];
      assert (s + t)[..|s + t| - 1] == s + t';
      WithoutConcat(s, t', a);
    } else {
      assert s + t == s;
    }
  }

  /** One entry is dropped for each occurrence of `a`. */
  lemma {:induction false} WithoutLength(s: seq<Addr>, a: Addr)
    ensures |Without(s, a)| + Count(s, a) == |s|
  {
    if s != [] {
      WithoutLength(s[..|s| - 1], a);
    }
  }

  /** Nothing is dropped when `a` does not occur. */
  lemma {:induction false} WithoutAbsent(s: seq<Addr>, a: Addr)
    requires a !in s
    ensures Without(s, a) == s
  {
    if s != [] {
      WithoutAbsent(s[..|s| - 1], a);
      assert s == s[..|s| - 1] + [s[|s| - 1]];
    }
  }

  lemma {:induction false} CountMembers(s: seq<Addr>, a: Addr)
    ensures Count(s, a) > 0 <==> a in s
  {
    if s != [] {
      CountMembers(s[..|s| - 1], a);
      assert s == s[..|s| - 1] + [s[|s| - 1]];
    }
  }

  lemma {:induction false} CountConcat(s: seq<Addr>, t: seq<Addr>, a: Addr)
    ensures Count(s + t, a) == Count(s, a) + Count(t, a)
  {
    if t != [] {
      var t' := t[..|t| - 1];
      assert (s + t)[..|s + t| - 1] == s + t';
      CountConcat(s, t', a);
    } else {
      assert s + t == s;
    }
  }
}
