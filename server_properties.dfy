/**
 * What the room relay of src/server.rs does, stated over its step
 * functions. Several are consequences that the doc comments at
 * src/server.rs:112-116 and 180-182 do not mention: the fan-out never skips
 * the original sender, a new peer receives its own join announcement, and a
 * joiner's roster only remembers the last owner.
 */
module ServerProperties {
  import opened Wrappers
  import P = Protocol
  import opened Transport
  import opened Server

  /** `Code::from` maps 0..4 to `Request`, `Reply`, `Message`, `Exit`, `None`
      and every larger byte to `None`; it inverts the discriminant. */
  lemma CodeFromTable(b: P.Byte)
    ensures CodeFrom(0) == Request && CodeFrom(1) == Reply && CodeFrom(2) == Message
    ensures CodeFrom(3) == Exit && CodeFrom(4) == Code.None
    ensures b > 4 ==> CodeFrom(b) == Code.None
  {
  }

  lemma CodeRoundTrip(c: Code)
    ensures CodeFrom(CodeByte(c)) == c
  {
  }

  /** The roles are mutually exclusive, and an unset role is neither. */
  lemma RolesExclusive(r: Identity)
    ensures !(r.IsRoomOwner() && r.IsRoomJoiner())
    ensures !Identity.None.IsRoomOwner() && !Identity.None.IsRoomJoiner()
  {
  }

  /** For an owner, `push_into_ips` adds exactly the addresses not yet on the
      roster and keeps a duplicate-free roster duplicate-free. */
  lemma OwnerPush(ownerAddr: Addr, ip: Addr, ips: seq<Addr>)
    ensures ip in ips ==> RosterAfterPush(RoomOwner, ownerAddr, ip, ips) == ips
    ensures ip !in ips ==> RosterAfterPush(RoomOwner, ownerAddr, ip, ips) == ips + [ip]
    ensures Distinct(ips) ==> Distinct(RosterAfterPush(RoomOwner, ownerAddr, ip, ips))
  {
  }

  /** `find_ip` answers `None` exactly for an absent address, and otherwise
      the first index holding it. */
  lemma FindIpFirst(ip: Addr, ips: seq<Addr>, i: nat)
    requires i < |ips| && ips[i] == ip
    ensures FindIp(ip, ips).Some? && FindIp(ip, ips).value <= i
  {
  }

  /** The fan-out has one send per roster entry other than the local
      address, in roster order, and reaches every such entry: the peer that
      sent the frame is not left out. */
  lemma {:induction false} FanOutRecipients(ips: seq<Addr>, local: Addr, pkt: Packet, x: Addr)
    ensures |FanOut(ips, local, pkt)| == |ips| - Count(ips, local)
    ensures Send(x, pkt) in FanOut(ips, local, pkt) <==> x in ips && x != local
    ensures forall s :: s in FanOut(ips, local, pkt) ==> s.packet == pkt && s.to != local
  {
    WithoutLength(ips, local);
    WithoutMembers(ips, local, x);
    var w := Without(ips, local);
    if x in w {
      var k :| 0 <= k < |w| && w[k] == x;
      assert FanOut(ips, local, pkt)[k] == Send(x, pkt);
    }
    forall s | s in FanOut(ips, local, pkt)
      ensures s.packet == pkt && s.to != local
    {
      var k :| 0 <= k < |w| && FanOut(ips, local, pkt)[k] == s;
      WithoutMembers(ips, local, w[k]);
    }
  }

  /** Fanning out over a roster extended by one address adds at most one
      send at the end. */
  lemma FanOutAppend(ips: seq<Addr>, x: Addr, local: Addr, pkt: Packet)
    ensures FanOut(ips + [x], local, pkt)
              == FanOut(ips, local, pkt) + (if x == local then [] else [Send(x, pkt)])
  {
    assert (ips + [x])[..|ips|] == ips;
    SendsAppend(Without(ips, local), x, pkt);
  }

  /** Owner, correct key, new requester: the success reply goes out first,
      the roster grows by the requester, one announcement is queued and it
      is fanned out to the new roster, so the requester receives it too. */
  lemma {:induction false} RequestJoinNew(cfg: Config, st: State, m: P.Message, addr: Addr)
    requires cfg.role.IsRoomOwner() && m.message == cfg.key && addr !in st.ips
    ensures var r := RequestStep(cfg, st, m, addr);
      && r.ownerAddr == st.ownerAddr
      && r.ips == st.ips + [addr]
      && r.queue == st.queue + [JoinMessage(cfg, m)]
      && r.outbox == st.outbox + [Send(addr, Fresh(CodeByte(Reply), JoinSuccess))]
                     + FanOut(st.ips + [addr], cfg.localAddr, Frame(JoinMessage(cfg, m)))
    ensures addr != cfg.localAddr ==>
      Send(addr, Frame(JoinMessage(cfg, m))) in RequestStep(cfg, st, m, addr).outbox
  {
    var pkt := Frame(JoinMessage(cfg, m));
    FanOutAppend(st.ips, addr, cfg.localAddr, pkt);
    var r := RequestStep(cfg, st, m, addr);
    if addr != cfg.localAddr {
      assert r.outbox[|r.outbox| - 1] == Send(addr, pkt);
    }
  }

  /** Owner, correct key, requester already on the roster: only the success
      reply; roster and queue are unchanged. */
  lemma RequestJoinRepeat(cfg: Config, st: State, m: P.Message, addr: Addr)
    requires cfg.role.IsRoomOwner() && m.message == cfg.key && addr in st.ips
    ensures RequestStep(cfg, st, m, addr)
              == st.(outbox := st.outbox + [Send(addr, Fresh(CodeByte(Reply), JoinSuccess))])
  {
  }

  /** Two correct requests from one new address give one roster entry and one
      announcement. */
  lemma {:induction false} JoinIdempotent(cfg: Config, st: State, m: P.Message, addr: Addr)
    requires cfg.role.IsRoomOwner() && m.message == cfg.key && addr !in st.ips
    ensures var r1 := RequestStep(cfg, st, m, addr);
      && RequestAllowed(cfg, r1, m, addr)
      && RequestStep(cfg, r1, m, addr).ips == st.ips + [addr]
      && RequestStep(cfg, r1, m, addr).queue == st.queue + [JoinMessage(cfg, m)]
  {
    RequestJoinNew(cfg, st, m, addr);
    var r1 := RequestStep(cfg, st, m, addr);
    RequestJoinRepeat(cfg, r1, m, addr);
  }

  /** A payload other than the key that equals `EXIT_ROOM` is handled as an exit. */
  lemma RequestExitSentinel(cfg: Config, st: State, m: P.Message, addr: Addr)
    requires cfg.role.IsRoomOwner() && m.message != cfg.key && m.message == ExitRoom
    requires ExitAllowed(cfg, st, addr)
    ensures RequestStep(cfg, st, m, addr) == ExitStep(cfg, st, m, addr)
  {
  }

  /** Any other wrong key only earns the requester a failure reply. */
  lemma RequestWrongKey(cfg: Config, st: State, m: P.Message, addr: Addr)
    requires cfg.role.IsRoomOwner() && m.message != cfg.key && m.message != ExitRoom
    ensures RequestStep(cfg, st, m, addr)
              == st.(outbox := st.outbox + [Send(addr, Fresh(CodeByte(Reply), JoinFailed))])
  {
  }

  /** A non-owner ignores requests, and an owner ignores replies. */
  lemma RequestIgnoredByJoiner(cfg: Config, st: State, m: P.Message, addr: Addr)
    requires !cfg.role.IsRoomOwner()
    ensures RequestStep(cfg, st, m, addr) == st
  {
  }

  lemma ReplyIgnoredByOwner(cfg: Config, st: State, m: P.Message, addr: Addr)
    requires cfg.role.IsRoomOwner()
    ensures ReplyStep(cfg, st, m, addr) == st
  {
  }

  /** A non-owner queues every reply. On `JOIN_SUCCESS` it also remembers the
      sender as owner and adds it to the roster unless it was already the
      remembered owner. */
  lemma ReplyAtJoiner(cfg: Config, st: State, m: P.Message, addr: Addr)
    requires !cfg.role.IsRoomOwner()
    ensures var r := ReplyStep(cfg, st, m, addr);
      && r.queue == st.queue + [m]
      && r.outbox == st.outbox
      && (m.message == JoinSuccess ==> r.ownerAddr == addr)
      && (m.message == JoinSuccess && addr != st.ownerAddr ==> r.ips == st.ips + [addr])
      && (m.message == JoinSuccess && addr == st.ownerAddr ==> r.ips == st.ips)
      && (m.message != JoinSuccess ==> r.ips == st.ips && r.ownerAddr == st.ownerAddr)
  {
  }

  /** A joiner's roster check looks only at the last remembered owner, so
      success replies from A, then B, then A again leave A on the roster twice. */
  lemma JoinerRosterRepeats(cfg: Config, m: P.Message)
    requires cfg.role == RoomJoiner && m.message == JoinSuccess
    ensures var s0 := State("", [], [], []);
      var s3 := ReplyStep(cfg, ReplyStep(cfg, ReplyStep(cfg, s0, m, "A"), m, "B"), m, "A");
      s3.ips == ["A", "B", "A"] && !Distinct(s3.ips)
  {
    var s0 := State("", [], [], []);
    var s3 := ReplyStep(cfg, ReplyStep(cfg, ReplyStep(cfg, s0, m, "A"), m, "B"), m, "A");
    assert s3.ips[0] == s3.ips[2];
  }

  /** Every role queues exactly one copy of a chat message; only the owner
      fans it out, to the whole roster but itself. */
  lemma MessageCopies(cfg: Config, st: State, m: P.Message)
    ensures MessageStep(cfg, st, m).queue == st.queue + [m]
    ensures MessageStep(cfg, st, m).ips == st.ips
    ensures cfg.role.IsRoomOwner() ==>
      MessageStep(cfg, st, m).outbox == st.outbox + FanOut(st.ips, cfg.localAddr, Frame(m))
    ensures !cfg.role.IsRoomOwner() ==> MessageStep(cfg, st, m).outbox == st.outbox
  {
  }

  /** An owner relays a chat message back to the peer that sent it whenever
      that peer is on the roster. */
  lemma {:induction false} MessageEchoesSender(cfg: Config, st: State, m: P.Message, sender: Addr)
    requires cfg.role.IsRoomOwner() && sender in st.ips && sender != cfg.localAddr
    ensures Send(sender, Frame(m)) in MessageStep(cfg, st, m).outbox
  {
    FanOutRecipients(st.ips, cfg.localAddr, Frame(m), sender);
  }

  /** Chat "hi" from A at owner O with roster [A, B, C]: the owner queues it
      once and sends it to A, B and C, in that order. */
  lemma ChatExample(cfg: Config, m: P.Message)
    requires cfg.role == RoomOwner && cfg.localAddr == "O" && m.message == "hi"
    ensures var r := MessageStep(cfg, State("", ["A", "B", "C"], [], []), m);
      r.queue == [m] && r.outbox == [Send("A", Frame(m)), Send("B", Frame(m)), Send("C", Frame(m))]
  {
    var ips: seq<Addr> := ["A", "B", "C"];
    WithoutAbsent(ips, "O");
    var out := MessageStep(cfg, State("", ips, [], []), m).outbox;
    assert |out| == 3 && out[0] == Send("A", Frame(m)) && out[1] == Send("B", Frame(m)) && out[2] == Send("C", Frame(m));
  }

  /** `Vec::remove(i)` drops one entry and exactly one occurrence of it. */
  lemma {:induction false} RemoveAtCount(s: seq<Addr>, i: nat)
    requires i < |s|
    ensures |RemoveAt(s, i)| == |s| - 1
    ensures Count(RemoveAt(s, i), s[i]) == Count(s, s[i]) - 1
  {
    var a := s[i];
    assert s == s[..i] + [a] + s[i + 1..];
    CountConcat(s[..i] + [a], s[i + 1..], a);
    CountConcat(s[..i], [a], a);
    CountConcat(s[..i], s[i + 1..], a);
    assert [a][..0] == [];
  }

  /** Every exit queues one notice. An owner losing a peer other than itself
      removes the first occurrence of that peer and sends the notice to the
      remaining roster but itself; otherwise nothing else changes. */
  lemma {:induction false} ExitEffect(cfg: Config, st: State, m: P.Message, addr: Addr)
    requires ExitAllowed(cfg, st, addr)
    ensures var r := ExitStep(cfg, st, m, addr);
      && r.queue == st.queue + [ExitNotice(cfg, m)]
      && r.ownerAddr == st.ownerAddr
      && (cfg.role.IsRoomOwner() && addr != cfg.localAddr ==>
            && |r.ips| == |st.ips| - 1
            && Count(r.ips, addr) == Count(st.ips, addr) - 1
            && (exists i :: 0 <= i < |st.ips| && st.ips[i] == addr
                  && (forall j :: 0 <= j < i ==> st.ips[j] != addr)
                  && r.ips == RemoveAt(st.ips, i))
            && r.outbox == st.outbox + FanOut(r.ips, cfg.localAddr, Frame(ExitNotice(cfg, m))))
      && (!(cfg.role.IsRoomOwner() && addr != cfg.localAddr) ==>
            r.ips == st.ips && r.outbox == st.outbox)
  {
    if cfg.role.IsRoomOwner() && addr != cfg.localAddr {
      var i := FindIp(addr, st.ips).value;
      RemoveAtCount(st.ips, i);
      assert ExitStep(cfg, st, m, addr).ips == RemoveAt(st.ips, i);
    }
  }

  /** Removing an entry of a duplicate-free roster removes its value for
      good and keeps the roster duplicate-free. */
  lemma RemoveAtDistinct(s: seq<Addr>, i: nat)
    requires i < |s| && Distinct(s)
    ensures s[i] !in RemoveAt(s, i)
    ensures Distinct(RemoveAt(s, i))
  {
    var r := RemoveAt(s, i);
    forall k | 0 <= k < |r|
      ensures r[k] != s[i]
    {
      var k' := if k < i then k else k + 1;
      assert r[k] == s[k'] && k' != i;
    }
    forall a, b | 0 <= a < b < |r|
      ensures r[a] != r[b]
    {
      var a' := if a < i then a else a + 1;
      var b' := if b < i then b else b + 1;
      assert r[a] == s[a'] && r[b] == s[b'];
    }
  }

  /** On a duplicate-free roster, an exit takes the peer off the roster for good. */
  lemma {:induction false} ExitRemovesMember(cfg: Config, st: State, m: P.Message, addr: Addr)
    requires cfg.role.IsRoomOwner() && addr != cfg.localAddr
    requires addr in st.ips && Distinct(st.ips)
    ensures addr !in ExitStep(cfg, st, m, addr).ips
    ensures Distinct(ExitStep(cfg, st, m, addr).ips)
  {
    var i := FindIp(addr, st.ips).value;
    assert ExitStep(cfg, st, m, addr).ips == RemoveAt(st.ips, i);
    RemoveAtDistinct(st.ips, i);
  }

  /** A frame that did not parse, or whose code maps to `Code::None`, changes nothing. */
  lemma StepIgnores(cfg: Config, st: State, parsed: Result<P.Message, P.ErrorKind>, addr: Addr)
    requires parsed.Err? || CodeFrom(parsed.value.code) == Code.None
    ensures Step(cfg, st, parsed, addr) == st
  {
  }

  /** The code byte '1' that src/main.rs frames is 49, which `Code::from` maps
      to `None`: such a frame is ignored by the relay. */
  lemma AsciiCodeIgnored()
    ensures CodeFrom('1' as int) == Code.None
  {
  }

  /** For the owner, every step keeps the roster duplicate-free. */
  lemma {:induction false} OwnerRosterStaysDistinct(cfg: Config, st: State, parsed: Result<P.Message, P.ErrorKind>, addr: Addr)
    requires cfg.role.IsRoomOwner() && Distinct(st.ips)
    requires parsed.Ok? ==> StepAllowed(cfg, st, parsed.value, addr)
    ensures Distinct(Step(cfg, st, parsed, addr).ips)
  {
    if parsed.Ok? {
      var m := parsed.value;
      var exiting := addr != cfg.localAddr;
      match CodeFrom(m.code)
      case Request =>
        if m.message == cfg.key {
          OwnerPush(st.ownerAddr, addr, st.ips);
        } else if m.message == ExitRoom && exiting {
          ExitRemovesMember(cfg, st, m, addr);
        }
      case Exit =>
        if exiting {
          ExitRemovesMember(cfg, st, m, addr);
        }
      case Reply =>
      case Message =>
      case None =>
    }
  }
}
