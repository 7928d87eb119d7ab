/**
 * The earlier relay draft of src/client.rs, which src/main.rs still runs:
 * a `Search` code, a join that appends unconditionally, and no queueing.
 */
module Client {
  import P = Protocol
  import Buf
  import Utf8
  import opened Transport

  datatype Identity = None | RoomOwner | RoomJoiner

  /** The draft's codes, numbered from 0 in this order (`#[repr(u8)]`). */
  datatype Code = Search | Request | Reply | Message

  /** `Code::X as u8`. */
  function CodeByte(c: Code): P.Byte
  {
    match c
    case Search => 0
    case Request => 1
    case Reply => 2
    case Message => 3
  }

  /** `Code::from` reinterprets the byte as a code with `transmute`, which is
      defined only for the four discriminants. */
  function CodeFrom(b: P.Byte): (c: Code)
    requires b <= 3
    ensures CodeByte(c) == b
  {
    [Search, Request, Reply, Message][b]
  }

  /** `role` and `key` are `IDENTITY` and `KEY`; `id` and `tag` are copies
      of the `PROTOCOL` session's id and tag, which `get_id` and
      `get_protocol` read. `Relay.Receive` requires the copies to agree with
      the session it parses with. */
  datatype Config = Config(role: Identity, key: string, id: string, tag: string)

  /** The size of the receive buffer `buf`. */
  const BufLen: nat := 512

  /** The roster `ips` and every `send_to` made so far. */
  datatype State = State(ips: seq<Addr>, outbox: seq<Send>)

  /** `receive_search` unwraps `get_id()` when this node is the owner. */
  predicate SearchAllowed(cfg: Config)
  {
    cfg.role == RoomOwner ==> cfg.id != ""
  }

  /** `receive_search` (src/client.rs:92-101): the owner answers with its id. */
  function SearchStep(cfg: Config, st: State, addr: Addr): State
    requires SearchAllowed(cfg)
  {
    if cfg.role == RoomOwner then
      st.(outbox := st.outbox + [Send(addr, Fresh(CodeByte(Reply), cfg.id))])
    else st
  }

  /** `receive_request` (src/client.rs:103-122). */
  function RequestStep(cfg: Config, st: State, m: P.Message, addr: Addr): State
  {
    if cfg.role != RoomOwner then st
    else if m.message == cfg.key then
      State(st.ips + [addr], st.outbox + [Send(addr, Fresh(CodeByte(Reply), "Success join room"))])
    else
      st.(outbox := st.outbox + [Send(addr, Fresh(CodeByte(Reply), "Error key"))])
  }

  /** `send_message_to_all` (src/client.rs:148-152): no address is skipped. */
  function SendToAll(st: State, m: P.Message): State
  {
    st.(outbox := st.outbox + Sends(st.ips, Frame(m)))
  }

  /** `receive` never clears `buf` and ignores the received size: it decodes
      all 512 bytes with `from_utf8_lossy` and unwraps `parse`. The lossy
      decoding keeps valid bytes and turns each invalid run of at most three
      bytes into the three-byte U+FFFD, so the decoded text `buf` holds at
      least `BufLen` bytes. The unwrap needs an ASCII header carrying the
      configured tag. */
  predicate BufferParses(cfg: Config, buf: string)
  {
    && Utf8.ByteLen(buf) >= BufLen
    && |buf| >= P.HeaderLen && Utf8.IsAscii(buf[..P.HeaderLen])
    && buf[..P.ProtocolLen] == cfg.tag
  }

  /** The message `receive` obtains from the decoded buffer. */
  function Decode(cfg: Config, buf: string): (m: P.Message)
    requires BufferParses(cfg, buf)
    ensures m.message == buf[P.HeaderLen..] && m.code == buf[16] as int
  {
    P.ParseFrame(buf, cfg.tag).value
  }

  predicate StepAllowed(cfg: Config, m: P.Message)
  {
    m.code <= 3 && (CodeFrom(m.code) == Search ==> SearchAllowed(cfg))
  }

  /** One turn of the loop in `receive` (src/client.rs:63-88) on a frame
      that parsed; `Reply` and `Message` do nothing. */
  function Step(cfg: Config, st: State, m: P.Message, addr: Addr): State
    requires StepAllowed(cfg, m)
  {
    match CodeFrom(m.code)
    case Search => SearchStep(cfg, st, addr)
    case Request => RequestStep(cfg, st, m, addr)
    case Reply => st
    case Message => st
  }

  lemma CodeRoundTrip(c: Code)
    ensures CodeFrom(CodeByte(c)) == c
  {
  }

  /** The owner with the right key replies success and appends the requester,
      even when it is already there: two requests give two entries. Through
      `receive` this needs a key of at least 495 bytes (`ShortKeyNeverJoins`). */
  lemma {:induction false} RequestTwiceDuplicates(cfg: Config, st: State, m: P.Message, addr: Addr)
    requires cfg.role == RoomOwner && m.message == cfg.key
    ensures RequestStep(cfg, st, m, addr).ips == st.ips + [addr]
    ensures RequestStep(cfg, RequestStep(cfg, st, m, addr), m, addr).ips == st.ips + [addr, addr]
    ensures !Distinct(RequestStep(cfg, RequestStep(cfg, st, m, addr), m, addr).ips)
  {
    var r := RequestStep(cfg, RequestStep(cfg, st, m, addr), m, addr);
    assert r.ips[|st.ips|] == r.ips[|st.ips| + 1];
  }

  /** A wrong key only earns an "Error key" reply; the roster is unchanged. */
  lemma RequestWrongKey(cfg: Config, st: State, m: P.Message, addr: Addr)
    requires cfg.role == RoomOwner && m.message != cfg.key
    ensures RequestStep(cfg, st, m, addr)
              == State(st.ips, st.outbox + [Send(addr, Fresh(CodeByte(Reply), "Error key"))])
  {
  }

  /** A node that is not the owner ignores searches and requests, and every
      node ignores replies and messages. */
  lemma NonOwnerIgnores(cfg: Config, st: State, m: P.Message, addr: Addr)
    requires StepAllowed(cfg, m)
    requires cfg.role != RoomOwner || CodeFrom(m.code) == Reply || CodeFrom(m.code) == Message
    ensures Step(cfg, st, m, addr) == st
  {
  }

  /** The owner answers a search with one `Reply` carrying its id. */
  lemma SearchReply(cfg: Config, st: State, addr: Addr)
    requires cfg.role == RoomOwner && cfg.id != ""
    ensures SearchStep(cfg, st, addr) == st.(outbox := st.outbox + [Send(addr, Fresh(2, cfg.id))])
  {
  }

  /** Whatever the datagram, the payload of the whole-buffer parse is at
      least 495 bytes: the buffer's 512 minus the 17-byte header. */
  lemma {:induction false} BufferPayloadLong(cfg: Config, buf: string)
    requires BufferParses(cfg, buf)
    ensures Utf8.ByteLen(Decode(cfg, buf).message) >= BufLen - P.HeaderLen
  {
    assert buf == buf[..P.HeaderLen] + buf[P.HeaderLen..];
    Utf8.ByteLenConcat(buf[..P.HeaderLen], buf[P.HeaderLen..]);
    Utf8.AsciiByteLen(buf[..P.HeaderLen]);
  }

  /** So with a room key shorter than 495 bytes no datagram ever joins: the
      roster stays as it is, and a request earns only "Error key". */
  lemma ShortKeyNeverJoins(cfg: Config, st: State, buf: string, addr: Addr)
    requires BufferParses(cfg, buf) && StepAllowed(cfg, Decode(cfg, buf))
    requires Utf8.ByteLen(cfg.key) < BufLen - P.HeaderLen
    ensures Step(cfg, st, Decode(cfg, buf), addr).ips == st.ips
    ensures cfg.role == RoomOwner && CodeFrom(Decode(cfg, buf).code) == Request ==>
              Step(cfg, st, Decode(cfg, buf), addr)
                == st.(outbox := st.outbox + [Send(addr, Fresh(CodeByte(Reply), "Error key"))])
  {
    BufferPayloadLong(cfg, buf);
  }

  /** `send_message_to_all` sends once to every roster entry, in order. */
  lemma SendToAllEveryEntry(st: State, m: P.Message, k: nat)
    requires k < |st.ips|
    ensures |SendToAll(st, m).outbox| == |st.outbox| + |st.ips|
    ensures SendToAll(st, m).outbox[|st.outbox| + k] == Send(st.ips[k], Frame(m))
  {
  }

  /** The draft's receive thread state, updated in place. */
  class Relay {
    const cfg: Config
    var ips: seq<Addr>
    var outbox: seq<Send>

    function Snapshot(): State
      reads this
    {
      State(ips, outbox)
    }

    constructor (cfg: Config)
      ensures this.cfg == cfg && Snapshot() == State([], [])
    {
      this.cfg := cfg;
      ips, outbox := [], [];
    }

    /** `send_message_to` (src/client.rs:142-146). */
    method SendMessageTo(pkt: Packet, to: Addr)
      modifies this
      ensures Snapshot() == old(Snapshot()).(outbox := old(outbox) + [Send(to, pkt)])
    {
      outbox := outbox + [Send(to, pkt)];
    }

    /** `send_message_to_all` (src/client.rs:148-152). */
    method SendMessageToAll(m: P.Message)
      modifies this
      ensures Snapshot() == SendToAll(old(Snapshot()), m)
    {
      for k := 0 to |ips|
        invariant ips == old(ips)
        invariant outbox == old(outbox) + Sends(ips[..k], Frame(m))
      {
        var ip := ips[k];
        SendsPrefixStep(ips, k, Frame(m));
        SendMessageTo(Frame(m), ip);
      }
      assert ips[..|ips|] == ips;
    }

    /** `receive_search` (src/client.rs:92-101). */
    method ReceiveSearch(addr: Addr)
      requires SearchAllowed(cfg)
      modifies this
      ensures Snapshot() == SearchStep(cfg, old(Snapshot()), addr)
    {
      if cfg.role == RoomOwner {
        SendMessageTo(Fresh(CodeByte(Reply), cfg.id), addr);
      }
    }

    /** `receive_request` (src/client.rs:103-122). */
    method ReceiveRequest(m: P.Message, addr: Addr)
      modifies this
      ensures Snapshot() == RequestStep(cfg, old(Snapshot()), m, addr)
    {
      if cfg.role == RoomOwner {
        if m.message == cfg.key {
          SendMessageTo(Fresh(CodeByte(Reply), "Success join room"), addr);
          ips := ips + [addr];
        } else {
          SendMessageTo(Fresh(CodeByte(Reply), "Error key"), addr);
        }
      }
    }

    /** One turn of the loop in `receive` (src/client.rs:63-88): the whole
        decoded buffer goes through `parse` of src/protocol.rs, which pushes
        the buffer's id field onto the display history, and the message is
        then dispatched by code. */
    method Receive(buf: string, addr: Addr, session: P.Session, history: Buf.History)
      requires BufferParses(cfg, buf) && StepAllowed(cfg, Decode(cfg, buf))
      requires session.protocol == cfg.tag && session.id == cfg.id
      modifies this, history
      ensures Snapshot() == Step(cfg, old(Snapshot()), Decode(cfg, buf), addr)
      ensures history.messages
                == Buf.Pushed(old(history.messages), buf[P.ProtocolLen..P.ProtocolLen + P.IdLen])
    {
      var r := P.Parse(buf, session, history);
      var m := r.value;
      match CodeFrom(m.code)
      case Search => ReceiveSearch(addr);
      case Request => ReceiveRequest(m, addr);
      case Reply =>
      case Message =>
    }
  }
}
