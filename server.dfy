/**
 * The room relay of src/server.rs: one step of the receive loop per
 * incoming frame. The role, key, local address and configured tag are the
 * relay's configuration (process-wide statics in the source); the roster
 * `ips`, the remembered owner address `ROOM_OWNER_IP`, the inbound queue and
 * the outbox of sends are its state.
 *
 * Each handler is specified by a pure step function on `State`; the class
 * `Relay` performs the same updates in place.
 */
module Server {
  import opened Wrappers
  import P = Protocol
  import opened Transport

  datatype Identity = None | RoomOwner | RoomJoiner {
    /** `Identity::is_room_owner`. */
    predicate IsRoomOwner() { this == RoomOwner }
    /** `Identity::is_room_joiner`. */
    predicate IsRoomJoiner() { this == RoomJoiner }
  }

  /** The message kinds, numbered from 0 in this order (`#[repr(u8)]`). */
  datatype Code = Request | Reply | Message | Exit | None

  /** `Code::X as u8`. */
  function CodeByte(c: Code): P.Byte
  {
    match c
    case Request => 0
    case Reply => 1
    case Message => 2
    case Exit => 3
    case None => 4
  }

  /** `Code::from`: a byte up to `Code::None as u8` is reinterpreted as that
      kind, any larger byte becomes `Code::None`. */
  function CodeFrom(b: P.Byte): (c: Code)
    ensures b <= CodeByte(Code.None) ==> CodeByte(c) == b
    ensures b > CodeByte(Code.None) ==> c == Code.None
  {
    if b <= CodeByte(Code.None) then [Request, Reply, Message, Exit, Code.None][b] else Code.None
  }

  const JoinSuccess: string := "Success join room"
  const JoinFailed: string := "Error key"
  const ExitRoom: string := "Exit room"

  /** What is fixed before the loop starts. `joinedText` and `exitText` are
      `JOIN_SUCCESS` and `EXIT_ROOM` after terminal styling (green bold and
      red bold), which this model does not look inside. */
  datatype Config = Config(
    role: Identity,
    key: string,
    localAddr: Addr,
    protocol: string,
    joinedText: string,
    exitText: string)

  /** `ownerAddr` is `ROOM_OWNER_IP`, `ips` the roster, `queue` the shared
      message deque and `outbox` every `send_to` made so far. */
  datatype State = State(
    ownerAddr: Addr,
    ips: seq<Addr>,
    queue: seq<P.Message>,
    outbox: seq<Send>)

  /** The scan of `is_joined_room` over the roster. */
  function Contains(ips: seq<Addr>, ip: Addr): (r: bool)
    ensures r <==> ip in ips
  {
    if ips == [] then false else ips[0] == ip || Contains(ips[1..], ip)
  }

  /** `is_joined_room`: a non-owner only asks whether `ip` is the remembered
      owner address; the owner scans the roster. */
  function IsJoinedRoom(role: Identity, ownerAddr: Addr, ip: Addr, ips: seq<Addr>): (r: bool)
    ensures !role.IsRoomOwner() ==> (r <==> ip == ownerAddr)
    ensures role.IsRoomOwner() ==> (r <==> ip in ips)
  {
    if !role.IsRoomOwner() then ownerAddr == ip else Contains(ips, ip)
  }

  /** `find_ip`: the index of the first roster entry equal to `ip`. */
  function FindIp(ip: Addr, ips: seq<Addr>): (r: Option<nat>)
    ensures r.Some? ==> r.value < |ips| && ips[r.value] == ip
    ensures r.Some? ==> forall j :: 0 <= j < r.value ==> ips[j] != ip
    ensures r.None? <==> ip !in ips
  {
    if ips == [] then Option.None
    else if ips[0] == ip then Some(0)
    else match FindIp(ip, ips[1..])
      case None => Option.None
      case Some(i) => Some(i + 1)
  }

  /** The roster after `push_into_ips`. */
  function RosterAfterPush(role: Identity, ownerAddr: Addr, ip: Addr, ips: seq<Addr>): seq<Addr>
  {
    if IsJoinedRoom(role, ownerAddr, ip, ips) then ips else ips + [ip]
  }

  /** `Vec::remove(i)`. */
  function RemoveAt(s: seq<Addr>, i: nat): seq<Addr>
    requires i < |s|
  {
    s[..i] + s[i + 1..]
  }

  /** The sends of `send_message_to_all`: one per roster entry whose address
      differs from the local one, in roster order. */
  function FanOut(ips: seq<Addr>, local: Addr, pkt: Packet): seq<Send>
  {
    Sends(Without(ips, local), pkt)
  }

  function PushToQueue(st: State, m: P.Message): State
  {
    st.(queue := st.queue + [m])
  }

  function SendTo(st: State, to: Addr, pkt: Packet): State
  {
    st.(outbox := st.outbox + [Send(to, pkt)])
  }

  function SendToAll(cfg: Config, st: State, pkt: Packet): State
  {
    st.(outbox := st.outbox + FanOut(st.ips, cfg.localAddr, pkt))
  }

  /** The announcement built for a newly joined peer: code `Message`, the
      styled `JOIN_SUCCESS` text, the requester's id and the configured tag. */
  function JoinMessage(cfg: Config, m: P.Message): P.Message
  {
    P.Message(CodeByte(Message), cfg.joinedText, P.ProtocolId(cfg.protocol, m.proId.id))
  }

  /** The notice `receive_exit` builds: the received message with code
      `Message` and the styled `EXIT_ROOM` text. */
  function ExitNotice(cfg: Config, m: P.Message): P.Message
  {
    m.(code := CodeByte(Message), message := cfg.exitText)
  }

  /** `receive_exit` unwraps `find_ip` when the owner removes a peer other
      than itself: that peer must be on the roster. */
  predicate ExitAllowed(cfg: Config, st: State, addr: Addr)
  {
    cfg.role.IsRoomOwner() && addr != cfg.localAddr ==> addr in st.ips
  }

  /** `receive_request` reaches `receive_exit` only for an owner whose key
      differs from an `EXIT_ROOM` payload. */
  predicate RequestAllowed(cfg: Config, st: State, m: P.Message, addr: Addr)
  {
    cfg.role.IsRoomOwner() && m.message != cfg.key && m.message == ExitRoom ==> ExitAllowed(cfg, st, addr)
  }

  predicate StepAllowed(cfg: Config, st: State, m: P.Message, addr: Addr)
  {
    && (CodeFrom(m.code) == Request ==> RequestAllowed(cfg, st, m, addr))
    && (CodeFrom(m.code) == Exit ==> ExitAllowed(cfg, st, addr))
  }

  /** `receive_exit` (src/server.rs:195-210). */
  function ExitStep(cfg: Config, st: State, m: P.Message, addr: Addr): State
    requires ExitAllowed(cfg, st, addr)
  {
    var notice := ExitNotice(cfg, m);
    var st1 := PushToQueue(st, notice);
    if cfg.role.IsRoomOwner() && addr != cfg.localAddr then
      var st2 := st1.(ips := RemoveAt(st1.ips, FindIp(addr, st1.ips).value));
      SendToAll(cfg, st2, Frame(notice))
    else
      st1
  }

  /** `receive_request` (src/server.rs:117-161). */
  function RequestStep(cfg: Config, st: State, m: P.Message, addr: Addr): State
    requires RequestAllowed(cfg, st, m, addr)
  {
    if !cfg.role.IsRoomOwner() then st
    else if m.message == cfg.key then
      var st1 := SendTo(st, addr, Fresh(CodeByte(Reply), JoinSuccess));
      if !IsJoinedRoom(cfg.role, st1.ownerAddr, addr, st1.ips) then
        var join := JoinMessage(cfg, m);
        var st2 := st1.(ips := RosterAfterPush(cfg.role, st1.ownerAddr, addr, st1.ips));
        SendToAll(cfg, PushToQueue(st2, join), Frame(join))
      else
        st1
    else if m.message == ExitRoom then ExitStep(cfg, st, m, addr)
    else SendTo(st, addr, Fresh(CodeByte(Reply), JoinFailed))
  }

  /** `receive_reply` (src/server.rs:163-178). */
  function ReplyStep(cfg: Config, st: State, m: P.Message, addr: Addr): State
  {
    if cfg.role.IsRoomOwner() then st
    else
      var st1 :=
        if m.message == JoinSuccess then
          st.(ips := RosterAfterPush(cfg.role, st.ownerAddr, addr, st.ips), ownerAddr := addr)
        else st;
      PushToQueue(st1, m)
  }

  /** `receive_message` (src/server.rs:183-193). */
  function MessageStep(cfg: Config, st: State, m: P.Message): State
  {
    var st1 := PushToQueue(st, m);
    if cfg.role.IsRoomOwner() then SendToAll(cfg, st1, Frame(m)) else st1
  }

  /** One turn of the loop in `receive` (src/server.rs:84-108) for a datagram
      from `addr`, given what parsing it gave. */
  function Step(cfg: Config, st: State, parsed: Result<P.Message, P.ErrorKind>, addr: Addr): State
    requires parsed.Ok? ==> StepAllowed(cfg, st, parsed.value, addr)
  {
    match parsed
    case Err(_) => st
    case Ok(m) =>
      match CodeFrom(m.code)
      case Request => RequestStep(cfg, st, m, addr)
      case Reply => ReplyStep(cfg, st, m, addr)
      case Message => MessageStep(cfg, st, m)
      case Exit => ExitStep(cfg, st, m, addr)
      case None => st
  }

  /** The receive thread's state, updated in place. */
  class Relay {
    const cfg: Config
    var ownerAddr: Addr
    var ips: seq<Addr>
    var queue: seq<P.Message>
    var outbox: seq<Send>

    function Snapshot(): State
      reads this
    {
      State(ownerAddr, ips, queue, outbox)
    }

    /** A relay whose tag is configured, before any frame arrives. */
    constructor (cfg: Config)
      requires cfg.protocol != ""
      ensures this.cfg == cfg
      ensures Snapshot() == State("", [], [], [])
    {
      this.cfg := cfg;
      ownerAddr, ips, queue, outbox := "", [], [], [];
    }

    /** `push_into_ips` (src/server.rs:241-247). */
    method PushIntoIps(ip: Addr) returns (added: bool)
      modifies this
      ensures added == !IsJoinedRoom(cfg.role, old(ownerAddr), ip, old(ips))
      ensures Snapshot() == old(Snapshot()).(ips := RosterAfterPush(cfg.role, old(ownerAddr), ip, old(ips)))
    {
      if IsJoinedRoom(cfg.role, ownerAddr, ip, ips) {
        return false;
      }
      ips := ips + [ip];
      return true;
    }

    /** `push_to_message_queue` (src/server.rs:212-218), without the lock. */
    method PushToMessageQueue(m: P.Message)
      modifies this
      ensures Snapshot() == PushToQueue(old(Snapshot()), m)
    {
      queue := queue + [m];
    }

    /** `send_message_to` (src/server.rs:220-222). */
    method SendMessageTo(pkt: Packet, to: Addr)
      modifies this
      ensures Snapshot() == SendTo(old(Snapshot()), to, pkt)
    {
      outbox := outbox + [Send(to, pkt)];
    }

    /** `send_message_to_all` (src/server.rs:224-230). */
    method SendMessageToAll(m: P.Message)
      modifies this
      ensures Snapshot() == SendToAll(cfg, old(Snapshot()), Frame(m))
    {
      for k := 0 to |ips|
        invariant ips == old(ips) && ownerAddr == old(ownerAddr) && queue == old(queue)
        invariant outbox == old(outbox) + FanOut(ips[..k], cfg.localAddr, Frame(m))
      {
        var ip := ips[k];
        WithoutPrefixStep(ips, k, cfg.localAddr);
        if cfg.localAddr != ip {
          SendsAppend(Without(ips[..k], cfg.localAddr), ip, Frame(m));
          SendMessageTo(Frame(m), ip);
        }
      }
      assert ips[..|ips|] == ips;
    }

    /** `receive_exit` (src/server.rs:195-210). */
    method ReceiveExit(m: P.Message, addr: Addr)
      requires ExitAllowed(cfg, Snapshot(), addr)
      modifies this
      ensures Snapshot() == ExitStep(cfg, old(Snapshot()), m, addr)
    {
      var notice := m.(code := CodeByte(Message), message := cfg.exitText);
      PushToMessageQueue(notice);
      if cfg.role.IsRoomOwner() && addr != cfg.localAddr {
        var index := FindIp(addr, ips).value;
        ips := RemoveAt(ips, index);
        SendMessageToAll(notice);
      }
    }

    /** `receive_request` (src/server.rs:117-161). */
    method ReceiveRequest(m: P.Message, addr: Addr)
      requires RequestAllowed(cfg, Snapshot(), m, addr)
      modifies this
      ensures Snapshot() == RequestStep(cfg, old(Snapshot()), m, addr)
    {
      if cfg.role.IsRoomOwner() {
        if m.message == cfg.key {
          SendMessageTo(Fresh(CodeByte(Reply), JoinSuccess), addr);
          if !IsJoinedRoom(cfg.role, ownerAddr, addr, ips) {
            var joinMessage := P.Message(CodeByte(Message), cfg.joinedText, P.ProtocolId(cfg.protocol, m.proId.id));
            var _ := PushIntoIps(addr);
            PushToMessageQueue(joinMessage);
            SendMessageToAll(joinMessage);
          }
        } else if m.message == ExitRoom {
          ReceiveExit(m, addr);
        } else {
          SendMessageTo(Fresh(CodeByte(Reply), JoinFailed), addr);
        }
      }
    }

    /** `receive_reply` (src/server.rs:163-178). */
    method ReceiveReply(m: P.Message, addr: Addr)
      modifies this
      ensures Snapshot() == ReplyStep(cfg, old(Snapshot()), m, addr)
    {
      if !cfg.role.IsRoomOwner() {
        if m.message == JoinSuccess {
          var _ := PushIntoIps(addr);
          ownerAddr := addr;
        }
        PushToMessageQueue(m);
      }
    }

    /** `receive_message` (src/server.rs:183-193). */
    method ReceiveMessage(m: P.Message)
      modifies this
      ensures Snapshot() == MessageStep(cfg, old(Snapshot()), m)
    {
      PushToMessageQueue(m);
      if cfg.role.IsRoomOwner() {
        SendMessageToAll(m);
      }
    }

    /** One turn of the loop in `receive` (src/server.rs:84-108): a frame that
        did not parse is skipped; otherwise dispatch on its code. */
    method Receive(parsed: Result<P.Message, P.ErrorKind>, addr: Addr)
      requires parsed.Ok? ==> StepAllowed(cfg, Snapshot(), parsed.value, addr)
      modifies this
      ensures Snapshot() == Step(cfg, old(Snapshot()), parsed, addr)
    {
      if parsed.Err? {
        return;
      }
      var message := parsed.value;
      match CodeFrom(message.code)
      case Request => ReceiveRequest(message, addr);
      case Reply => ReceiveReply(message, addr);
      case Message => ReceiveMessage(message);
      case Exit => ReceiveExit(message, addr);
      case _ =>
    }
  }
}
