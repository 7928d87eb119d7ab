/**
 * The frame codec and session identity of src/protocol.rs.
 *
 * `parse` slices a frame at byte offsets 4, 16 and 17. The frames here have
 * an ASCII header, so those byte offsets are also character positions and
 * the slicing never panics; the payload after the header may be any text.
 * `set_id` measures and cuts the id in UTF-8 bytes (module `Utf8`).
 */
module Protocol {
  import opened Wrappers
  import opened Utf8
  import Buf

  type Byte = b: int | 0 <= b < 256

  const IdLen: nat := 12
  const ProtocolLen: nat := 4
  const CodeLen: nat := 1
  /** Width of the fixed header: tag, id, code. */
  const HeaderLen: nat := ProtocolLen + IdLen + CodeLen

  /** `ProtocolID`: the protocol tag and the sender id of a frame. */
  datatype ProtocolId = ProtocolId(protocol: string, id: string)

  /** `Message`: the code byte, the text payload and the tag/id header. */
  datatype Message = Message(code: Byte, message: string, proId: ProtocolId)

  /** `io::ErrorKind` values `parse` can return. */
  datatype ErrorKind = InvalidData

  /** What `parse` returns for a frame of at least `HeaderLen` bytes when the
      configured tag is `configured`. The id field is what `parse_id` makes
      of bytes 4..16, which is only its first character (see `ParseId`). */
  function ParseFrame(mes: string, configured: string): Result<Message, ErrorKind>
    requires |mes| >= HeaderLen && IsAscii(mes[..HeaderLen])
  {
    var m := Message(mes[ProtocolLen + IdLen] as int,
                     mes[HeaderLen..],
                     ProtocolId(mes[..ProtocolLen], mes[ProtocolLen..ProtocolLen + 1]));
    if m.proId.protocol != configured then Err(InvalidData) else Ok(m)
  }

  /** The header is sliced positionally: tag from bytes 0..4, code from byte
      16, payload from byte 17 to the end; the id comes from bytes 4..16. */
  lemma ParseFrameFields(mes: string, configured: string)
    requires |mes| >= HeaderLen && IsAscii(mes[..HeaderLen])
    ensures ParseFrame(mes, configured).Err? <==> mes[..4] != configured
    ensures ParseFrame(mes, configured).Ok? ==>
              var m := ParseFrame(mes, configured).value;
              && m.proId.protocol == mes[..4]
              && m.code == mes[16] as int
              && m.message == mes[17..]
              && m.proId.id == mes[4..16][..1]
  {
  }

  /** A frame whose first four bytes differ from the configured tag is
      rejected whatever its payload. */
  lemma TagMismatchRejected(tag: string, rest: string, configured: string)
    requires |tag| == ProtocolLen && |rest| >= IdLen + CodeLen
    requires IsAscii((tag + rest)[..HeaderLen]) && tag != configured
    ensures ParseFrame(tag + rest, configured) == Err(InvalidData)
  {
    assert (tag + rest)[..ProtocolLen] == tag;
  }

  /** Framing `id12`, code `c` and payload `p` behind the configured tag `t`
      parses back to tag `t`, code `c` and payload `p`. */
  lemma {:induction false} ParseAssembled(t: string, id12: string, c: char, p: string)
    requires |t| == ProtocolLen && |id12| == IdLen
    requires IsAscii(t + id12) && c as int < 128
    ensures ParseFrame(t + id12 + [c] + p, t)
              == Ok(Message(c as int, p, ProtocolId(t, id12[..1])))
  {
    var mes := t + id12 + [c] + p;
    assert mes[..ProtocolLen] == t;
    assert mes[ProtocolLen..ProtocolLen + 1] == id12[..1];
    assert mes[ProtocolLen + IdLen] == c;
    assert mes[HeaderLen..] == p;
  }

  /** The frame that src/main.rs parses: code byte '1' and payload "Hello",
      and an id cut down to "1". */
  lemma MainExample()
    ensures ParseFrame("MOYU1230000000001Hello", "MOYU")
              == Ok(Message('1' as int, "Hello", ProtocolId("MOYU", "1")))
  {
    ParseAssembled("MOYU", "123000000000", '1', "Hello");
    assert "MOYU" + "123000000000" + ['1'] + "Hello" == "MOYU1230000000001Hello";
    assert "123000000000"[..1] == "1";
  }

  /** `parse_id` as written (src/protocol.rs:46-61). It first pushes the raw
      id into the display history. Its search loop runs over the inclusive
      range `len-1 ..= 0`, which is empty for an id longer than one
      character, so `index` stays 0 and only the first character is kept. */
  method ParseId(raw: string, history: Buf.History) returns (id: string)
    requires |raw| >= 1
    modifies history
    ensures id == raw[..1]
    ensures history.messages == Buf.Pushed(old(history.messages), raw)
  {
    history.PushMessage(raw);
    var index := 0;
    var i := |raw| - 1;
    while i <= 0
      invariant |raw| - 1 <= i <= |raw|
      invariant index == 0
      decreases 1 - i
    {
      if raw[i] != '0' {
        index := i;
      }
      i := i + 1;
    }
    id := "";
    var j := 0;
    while j <= index
      invariant 0 <= j <= index + 1 <= |raw|
      invariant id == raw[..j]
    {
      id := id + [raw[j]];
      j := j + 1;
    }
  }

  /** The evident intent of `parse_id`'s search for the last character
      other than '0': strip the trailing run of fill that `set_id` adds. */
  function TrimId(raw: string): (id: string)
    ensures id <= raw
    ensures id != [] ==> id[|id| - 1] != '0'
    ensures forall i :: |id| <= i < |raw| ==> raw[i] == '0'
  {
    if raw == [] || raw[|raw| - 1] != '0' then raw else TrimId(raw[..|raw| - 1])
  }

  /** `parse` with the corrected id normalisation `TrimId`. */
  function ParseFrameIntended(mes: string, configured: string): Result<Message, ErrorKind>
    requires |mes| >= HeaderLen && IsAscii(mes[..HeaderLen])
  {
    var m := Message(mes[ProtocolLen + IdLen] as int,
                     mes[HeaderLen..],
                     ProtocolId(mes[..ProtocolLen], TrimId(mes[ProtocolLen..ProtocolLen + IdLen])));
    if m.proId.protocol != configured then Err(InvalidData) else Ok(m)
  }

  /** `parse` as written loses every character of an id after the first: the
      id "123" sent as "123000000000" comes back as "1", where trimming the
      fill gives back "123". */
  lemma ParseIdLosesId()
    ensures var r := ParseFrame("MOYU1230000000001Hello", "MOYU");
      r.Ok? && r.value.proId.id == "1"
    ensures var r := ParseFrameIntended("MOYU1230000000001Hello", "MOYU");
      r.Ok? && r.value.proId.id == "123"
  {
    MainExample();
    var raw := "MOYU1230000000001Hello"[ProtocolLen..ProtocolLen + IdLen];
    assert raw == "123000000000";
    assert raw == "123" + Zeros(9);
    TrimPadded("123", 9);
  }

  /** `'0'` repeated `n` times. */
  function Zeros(n: nat): (z: string)
    ensures |z| == n && forall i :: 0 <= i < n ==> z[i] == '0'
  {
    seq(n, _ => '0')
  }

  /** `set_id` panics unless `&id[..IdLen]` is defined: an id of at most
      `IdLen` bytes is padded first, and a longer one needs a character
      boundary at byte `IdLen`. */
  predicate SetIdDefined(s: string)
  {
    ByteLen(s) <= IdLen || BytePrefix(s, IdLen).Some?
  }

  /** What `set_id` stores: the id padded with '0' to `IdLen` bytes, or its
      first `IdLen` bytes when it is longer. */
  function NormaliseId(s: string): string
    requires SetIdDefined(s)
  {
    if ByteLen(s) <= IdLen then s + Zeros(IdLen - ByteLen(s)) else BytePrefix(s, IdLen).value
  }

  /** The stored id is exactly `IdLen` bytes: the given id followed by fill,
      or a prefix of the given id. An ASCII id yields `IdLen` ASCII
      characters. */
  lemma NormaliseIdShape(s: string)
    requires SetIdDefined(s)
    ensures ByteLen(NormaliseId(s)) == IdLen
    ensures ByteLen(s) <= IdLen ==> NormaliseId(s) == s + Zeros(IdLen - ByteLen(s))
    ensures ByteLen(s) >= IdLen ==> NormaliseId(s) <= s
    ensures IsAscii(s) ==> |NormaliseId(s)| == IdLen && IsAscii(NormaliseId(s))
  {
    var n := NormaliseId(s);
    if ByteLen(s) <= IdLen {
      var z := Zeros(IdLen - ByteLen(s));
      AsciiByteLen(z);
      ByteLenConcat(s, z);
      AsciiConcat(s, z);
      if ByteLen(s) == IdLen {
        assert n == s;
      }
    } else {
      assert forall i :: 0 <= i < |n| ==> n[i] == s[i];
    }
    AsciiByteLen(n);
  }

  /** For an ASCII id, bytes are characters: the id padded to `IdLen`
      characters, or its first `IdLen` characters. */
  lemma AsciiIdNormalises(s: string)
    requires IsAscii(s)
    ensures SetIdDefined(s)
    ensures NormaliseId(s) == if |s| < IdLen then s + Zeros(IdLen - |s|) else s[..IdLen]
  {
    AsciiByteLen(s);
    if |s| > IdLen {
      assert IsAscii(s[..IdLen]);
      AsciiByteLen(s[..IdLen]);
      BytePrefixExact(s, IdLen);
    } else if |s| == IdLen {
      assert s + Zeros(0) == s == s[..IdLen];
    }
  }

  /** Setting an id that is already stored leaves it unchanged. */
  lemma NormaliseIdIdempotent(s: string)
    requires SetIdDefined(s)
    ensures SetIdDefined(NormaliseId(s))
    ensures NormaliseId(NormaliseId(s)) == NormaliseId(s)
  {
    NormaliseIdShape(s);
    assert NormaliseId(s) + Zeros(0) == NormaliseId(s);
  }

  /** `set_id` counts bytes: six two-byte characters fill the id, so it is
      stored without padding. */
  lemma SetIdFillsByBytes()
    ensures NormaliseId("\U{e9}\U{e9}\U{e9}\U{e9}\U{e9}\U{e9}") == "\U{e9}\U{e9}\U{e9}\U{e9}\U{e9}\U{e9}"
  {
    var e := "\U{e9}\U{e9}\U{e9}\U{e9}\U{e9}\U{e9}";
    assert ByteLen(e[5..]) == 2;
    assert e[4..][1..] == e[5..];
    assert ByteLen(e[4..]) == 4;
    assert e[3..][1..] == e[4..];
    assert ByteLen(e[3..]) == 6;
    assert e[2..][1..] == e[3..];
    assert ByteLen(e[2..]) == 8;
    assert e[1..][1..] == e[2..];
    assert ByteLen(e[1..]) == 10;
    assert ByteLen(e) == IdLen;
    assert e + Zeros(0) == e;
  }

  /** An id of eleven ASCII characters and one two-byte character has no
      character boundary at byte 12, so `set_id` panics on it. */
  lemma SetIdSplitsChar()
    ensures !SetIdDefined("12345678901\U{e9}")
  {
    assert "12345678901\U{e9}" == "12345678901" + "\U{e9}";
    BytePrefixAfterAscii("12345678901", "\U{e9}", IdLen);
  }

  /** A short ASCII id is padded with '0' up to 12 bytes. */
  lemma SetIdPadsShort()
    ensures NormaliseId("123") == "123000000000"
  {
    AsciiIdNormalises("123");
  }


  /** The intended round trip of the id field: an id of at most `IdLen`
      bytes that does not itself end in '0' comes back from padding and
      trimming unchanged. */
  lemma {:induction false} TrimIdRoundTrip(s: string)
    requires ByteLen(s) <= IdLen
    requires s != [] ==> s[|s| - 1] != '0'
    ensures TrimId(NormaliseId(s)) == s
  {
    NormaliseIdShape(s);
    TrimPadded(s, IdLen - ByteLen(s));
  }

  lemma {:induction false} TrimPadded(s: string, n: nat)
    requires s != [] ==> s[|s| - 1] != '0'
    ensures TrimId(s + Zeros(n)) == s
  {
    if n > 0 {
      assert (s + Zeros(n))[..|s| + n - 1] == s + Zeros(n - 1);
      TrimPadded(s, n - 1);
    } else {
      assert s + Zeros(0) == s;
    }
  }

  /** The intended codec round trip: a frame carrying the padded ASCII id
      `s` parses back to `s` itself. */
  lemma {:induction false} ParseIntendedRoundTrip(t: string, s: string, c: char, p: string)
    requires |t| == ProtocolLen && ByteLen(s) <= IdLen
    requires s != [] ==> s[|s| - 1] != '0'
    requires IsAscii(t) && IsAscii(s) && c as int < 128
    ensures |NormaliseId(s)| == IdLen && IsAscii(t + NormaliseId(s))
    ensures ParseFrameIntended(t + NormaliseId(s) + [c] + p, t)
              == Ok(Message(c as int, p, ProtocolId(t, s)))
  {
    var id12 := NormaliseId(s);
    NormaliseIdShape(s);
    AsciiConcat(t, id12);
    var mes := t + id12 + [c] + p;
    assert mes[..ProtocolLen] == t;
    assert mes[ProtocolLen..ProtocolLen + IdLen] == id12;
    assert mes[ProtocolLen + IdLen] == c;
    assert mes[HeaderLen..] == p;
    TrimIdRoundTrip(s);
  }

  /** `to_string`: the id, a colon and a tab, then the text. */
  function Render(m: Message): (r: string)
    ensures |r| == |m.proId.id| + 2 + |m.message|
    ensures r[..|m.proId.id|] == m.proId.id
    ensures r[|m.proId.id|..|m.proId.id| + 2] == ":\t"
    ensures r[|m.proId.id| + 2..] == m.message
  {
    m.proId.id + ":\t" + m.message
  }

  /** When the id holds no ':', the first ':' of the rendering ends the id, so
      id and text can be read back from it. */
  lemma RenderSeparates(m: Message, k: nat)
    requires ':' !in m.proId.id
    requires k < |Render(m)| && Render(m)[k] == ':'
    ensures k >= |m.proId.id|
    ensures Render(m)[|m.proId.id|] == ':'
  {
    assert forall i :: 0 <= i < |m.proId.id| ==> Render(m)[i] == m.proId.id[i];
    assert Render(m)[|m.proId.id|] == ":\t"[0];
  }

  /** The process-wide `PROTOCOL` static: the configured tag and local id. */
  class Session {
    var protocol: string
    var id: string

    constructor ()
      ensures protocol == "" && id == ""
    {
      protocol := "";
      id := "";
    }

    /** `set_protocol` (src/protocol.rs:70-74): stored verbatim. */
    method SetProtocol(p: string)
      modifies this
      ensures protocol == p && id == old(id)
    {
      protocol := p;
    }

    /** `set_id` (src/protocol.rs:76-87): an id shorter than `IdLen` bytes
        gets a '0' per missing byte, then the first `IdLen` bytes are kept. */
    method SetId(s: string)
      requires SetIdDefined(s)
      modifies this
      ensures id == NormaliseId(s) && protocol == old(protocol)
      ensures GetId() == Some(NormaliseId(s))
    {
      NormaliseIdShape(s);
      var padded := s;
      if ByteLen(padded) < IdLen {
        var len := ByteLen(padded);
        for k := 0 to IdLen - len
          invariant padded == s + Zeros(k)
        {
          padded := padded + ['0'];
        }
      }
      if ByteLen(s) <= IdLen {
        assert padded == NormaliseId(s) by {
          if ByteLen(s) == IdLen {
            assert s + Zeros(0) == s;
          }
        }
        BytePrefixWhole(padded);
      }
      id := BytePrefix(padded, IdLen).value;
    }

    /** `get_protocol` (src/protocol.rs:89-97). */
    function GetProtocol(): (r: Option<string>)
      reads this
      ensures r.None? <==> protocol == ""
      ensures r.Some? ==> r.value == protocol
    {
      if protocol != "" then Some(protocol) else None
    }

    /** `get_id` (src/protocol.rs:99-107). */
    function GetId(): (r: Option<string>)
      reads this
      ensures r.None? <==> id == ""
      ensures r.Some? ==> r.value == id
    {
      if id != "" then Some(id) else None
    }
  }

  /** `Message::parse` (src/protocol.rs:25-44): slices the header, calls
      `parse_id` (which writes to the display history), then compares the
      tag with the configured one; `get_protocol().unwrap()` needs a
      configured tag. */
  method Parse(mes: string, session: Session, history: Buf.History) returns (r: Result<Message, ErrorKind>)
    requires |mes| >= HeaderLen && IsAscii(mes[..HeaderLen])
    requires session.GetProtocol().Some?
    modifies history
    ensures r == ParseFrame(mes, session.protocol)
    ensures history.messages == Buf.Pushed(old(history.messages), mes[ProtocolLen..ProtocolLen + IdLen])
  {
    var code := mes[ProtocolLen + IdLen..HeaderLen][0] as int;
    var text := mes[HeaderLen..];
    var tag := mes[..ProtocolLen];
    var id := ParseId(mes[ProtocolLen..ProtocolLen + IdLen], history);
    assert id == mes[ProtocolLen..ProtocolLen + 1];
    var message := Message(code, text, ProtocolId(tag, id));
    var configured := session.GetProtocol().value;
    if message.proId.protocol != configured {
      r := Err(InvalidData);
    } else {
      r := Ok(message);
    }
  }
}
