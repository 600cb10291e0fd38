/**
 The two ends of a channel as code: the atomic sequence counter and sealPacket on the sending side
 (internal/dataplane/client.go, internal/dataplane/server.go), ParsePacket and openPacket on the receiving side.
 */
module Endpoints {
  import opened Words
  import opened PacketCodec
  import DC = DataChannel
  import RW = ReplayWindow
  import SN = StarNetwork

  datatype SendError = SessionUnavailable | TooLarge

  /** The sending half of a session. The channel is ghost: it is what the adversary and the receiver see. */
  class Sender {
    const session: u64
    const expiresAt: int
    var sequence: u64
    ghost var channel: DC.Channel

    ghost predicate Valid()
      reads this
    {
      channel.session == session && sequence == DC.Sequence(channel.sends)
    }

    constructor (session: u64, expiresAt: int)
      ensures Valid() && this.session == session && this.expiresAt == expiresAt && channel == DC.New(session)
    {
      this.session := session;
      this.expiresAt := expiresAt;
      sequence := 0;
      channel := DC.New(session);
    }

    /**
     Refuses after the session's expiry; otherwise takes the next number, even if the packet then turns out too
     large. The AEAD supplies the ciphertext.
     */
    method Send(kind: byte, source: u64, destination: u64, plaintext: bytes, ciphertext: bytes, now: int,
                ghost origin: Option<nat>) returns (r: Result<bytes, SendError>)
      requires Valid() && |ciphertext| == |plaintext| + 16
      modifies this
      ensures Valid()
      ensures r == Err(SessionUnavailable) <==> now > expiresAt
      ensures sequence == if now > expiresAt then old(sequence) else (old(sequence) + 1) % 0x1_0000_0000_0000_0000
      ensures r == Err(TooLarge) <==> now <= expiresAt && |ciphertext| > MAX_PAYLOAD
      ensures channel == if now > expiresAt then old(channel)
                         else DC.Send(old(channel), kind, source, destination, plaintext, ciphertext, origin)
      ensures r.Ok? ==> channel.table != [] && r.value == Wire(channel.table[|channel.table| - 1].packet)
    {
      hide Wire;
      if now > expiresAt {
        return Err(SessionUnavailable);
      }
      sequence := (sequence + 1) % DC.SEQUENCE_LIMIT;
      var packet := Packet(kind, 0, 0, session, source, destination, sequence, []);
      var sealedPacket := DC.SealPacket(packet, plaintext, ciphertext);
      channel := DC.Send(channel, kind, source, destination, plaintext, ciphertext, origin);
      match sealedPacket
      case Err(_) => return Err(TooLarge);
      case Ok(datagram) => return Ok(datagram);
    }
  }

  /** The AEAD's verdict on a datagram under the channel's key. */
  function Verdict(table: seq<DC.Sealed>, datagram: bytes): Option<bytes> {
    match ParsePacket(datagram)
    case Err(_) => None
    case Ok(p) =>
      match DC.AeadOpen(table, DC.Nonce(p.sessionID, p.sequence), p.payload, datagram[..HEADER_SIZE])
      case None => None
      case Some(s) => Some(s.plaintext)
  }

  /** A datagram that gets as far as openPacket in a client. */
  predicate Addressed(session: u64, deviceHash: u64, datagram: bytes, fromServer: bool) {
    var parsed := ParsePacket(datagram);
    && parsed.Ok? && parsed.value.kind == TYPE_DATA && parsed.value.sessionID == session
    && parsed.value.destinationID == deviceHash && fromServer
  }

  /** An opened packet that is written to the client's adapter. */
  predicate Writable(assignedIP: bytes, mtu: nat, plaintext: bytes) {
    20 <= |plaintext| <= mtu && plaintext[16..20] == assignedIP
  }

  /** What one turn of readUDP writes to the adapter. */
  function Turn(session: u64, deviceHash: u64, assignedIP: bytes, mtu: nat, channel: DC.Channel, datagram: bytes,
                fromServer: bool): Option<bytes>
  {
    var before, after := channel.outputs, DC.Deliver(channel, datagram).outputs;
    if !Addressed(session, deviceHash, datagram, fromServer) || |after| <= |before| then None
    else if !Writable(assignedIP, mtu, after[|before|].plaintext) then None
    else Some(after[|before|].plaintext)
  }

  /** A turn is the network's client step, or nothing when the datagram is not from the server's endpoint. */
  lemma TurnIsClientStep(cfg: SN.Config, n: SN.Net, id: u64, datagram: bytes, fromServer: bool)
    requires SN.Inv(cfg, n) && id in n.issued && SN.Key(id, SN.Downstream) in n.channels
    ensures
      var k, s := SN.Key(id, SN.Downstream), n.issued[id];
      var channel, hash := n.channels[k], cfg.hash(s.device);
      var r := Turn(id, hash, s.address, cfg.mtu, channel, datagram, fromServer);
      var m := if fromServer then SN.ToClientStep(cfg, n, id, datagram) else n;
      && k in m.channels
      && m.channels[k].history
         == (if Addressed(id, hash, datagram, fromServer) then DC.Deliver(channel, datagram).history
             else channel.history)
      && (r.None? ==> m.writeLog == n.writeLog)
      && (r.Some? ==>
            && |m.writeLog| == |n.writeLog| + 1 && m.writeLog[..|n.writeLog|] == n.writeLog
            && var w := m.writeLog[|n.writeLog|];
            w.packet == r.value && w.address == s.address && w.node == SN.ClientNode(s.device))
  {
    hide ParsePacket, SN.Inv, DC.Deliver;
    SN.GuardsAreDead(cfg, n, SN.ServerNode, cfg.serverIP, [], SN.Key(id, SN.Downstream), datagram);
    YieldsOne(n.channels[SN.Key(id, SN.Downstream)], datagram);
  }

  lemma YieldsOne(channel: DC.Channel, datagram: bytes)
    ensures |DC.Deliver(channel, datagram).outputs| >= |channel.outputs|
  {
    hide ParsePacket;
  }

  lemma ChannelOfSession(cfg: SN.Config, n: SN.Net, k: SN.Key)
    requires SN.Inv(cfg, n) && k in n.channels
    ensures n.channels[k].session == k.session
  {
    hide SN.TablesOk, SN.EntriesOk, SN.ReadsOk, SN.WritesOk, SN.WrittenOnce;
  }

  /** The receiving half of a client's session, and what the client expects of its packets. */
  class Receiver {
    const session: u64
    const deviceHash: u64
    const assignedIP: bytes
    const mtu: nat
    const cipher: RW.Cipher

    ghost predicate Valid()
      reads this, cipher, cipher.replay
    {
      cipher.Valid()
    }

    constructor (session: u64, deviceHash: u64, assignedIP: bytes, mtu: nat)
      ensures Valid() && cipher.history == [] && fresh(cipher) && fresh(cipher.replay)
      ensures this.session == session && this.deviceHash == deviceHash
      ensures this.assignedIP == assignedIP && this.mtu == mtu
    {
      this.session, this.deviceHash, this.assignedIP, this.mtu := session, deviceHash, assignedIP, mtu;
      cipher := new RW.Cipher();
    }

    /** This receiver is the downstream end of its session in a network. */
    ghost predicate PartOf(cfg: SN.Config, n: SN.Net)
      reads this, cipher
    {
      && SN.Inv(cfg, n) && session in n.issued && SN.Key(session, SN.Downstream) in n.channels
      && n.channels[SN.Key(session, SN.Downstream)].history == cipher.history
      && cfg.hash(n.issued[session].device) == deviceHash && n.issued[session].address == assignedIP && cfg.mtu == mtu
    }

    /**
     One turn of readUDP. The result is what goes to the adapter. A datagram that is not for this session or
     not from the server's endpoint leaves no trace; any other is a delivery on the channel.
     */
    method Receive(datagram: bytes, fromServer: bool, verdict: Option<bytes>, ghost cfg: SN.Config, ghost n: SN.Net)
      returns (r: Option<bytes>)
      requires Valid() && PartOf(cfg, n)
      requires verdict == Verdict(n.channels[SN.Key(session, SN.Downstream)].table, datagram)
      modifies cipher, cipher.replay
      ensures Valid()
      ensures
        var channel := n.channels[SN.Key(session, SN.Downstream)];
        && r == Turn(session, deviceHash, assignedIP, mtu, channel, datagram, fromServer)
        && cipher.history == if Addressed(session, deviceHash, datagram, fromServer)
                             then DC.Deliver(channel, datagram).history else channel.history
    {
      hide ParsePacket, SN.Inv, DC.Nonce;
      ChannelOfSession(cfg, n, SN.Key(session, SN.Downstream));
      var parsed := ParsePacket(datagram);
      if parsed.Err? || parsed.value.kind != TYPE_DATA {
        return None;
      }
      if parsed.value.sessionID != session || parsed.value.destinationID != deviceHash || !fromServer {
        return None;
      }
      var plaintext := cipher.Open(parsed.value.sequence, verdict);
      if plaintext.None? || |plaintext.value| < 20 || |plaintext.value| > mtu || plaintext.value[16..20] != assignedIP {
        return None;
      }
      return plaintext;
    }
  }
}
