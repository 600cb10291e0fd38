/**
 The whole encrypted star: client adapters, the server with its session tables and router, and an
 adversary that owns the network between them.

 Every (session, direction) pair has its own key, so its own channel (ideal HKDF and fresh session
 numbers). A packet read from an adapter gets a number; the model follows it until it is lost or
 written to an adapter.
 */
module StarNetwork {
  import opened Words
  import opened PacketCodec
  import opened Sessions
  import DC = DataChannel
  import RW = ReplayWindow

  datatype Direction = Upstream | Downstream

  datatype Key = Key(session: u64, direction: Direction)

  datatype Node = ServerNode | ClientNode(device: string)

  datatype Read = Read(node: Node, address: IPv4, packet: bytes)

  datatype Write = Write(node: Node, address: IPv4, packet: bytes, origin: nat)

  /** Where a packet is: gone, sealed and not yet opened, or written to an adapter. */
  datatype Stage = Lost | At(key: Key, number: nat) | Written

  datatype Config = Config(serverIP: IPv4, mtu: nat, hash: string -> u64)

  datatype Net = Net(
    tables: Tables,
    issued: map<u64, Session>,       // every session ever registered
    reached: set<u64>,               // sessions whose client endpoint the server has learned
    channels: map<Key, DC.Channel>,
    readLog: seq<Read>,
    writeLog: seq<Write>,
    stage: seq<Stage>)

  datatype Event =
    | Connect(device: string, address: Option<IPv4>, id: u64)
    | Disconnect(device: string, id: u64)
    | ClientRead(id: u64, packet: bytes, ciphertext: bytes)
    | ClientKeepalive(id: u64, ciphertext: bytes)
    | ServerRead(packet: bytes, ciphertext: bytes)
    | ToServer(datagram: bytes, ciphertext: bytes)
    | ToClient(id: u64, datagram: bytes)

  function Start(cfg: Config): Net {
    Net(Started(cfg.serverIP), map[], {}, map[], [], [], [])
  }

  // ---------------------------------------------------------------- what can happen to a packet in hand

  function Lose(n: Net, r: nat): Net
    requires r < |n.stage|
  {
    n.(stage := n.stage[r := Lost])
  }

  function WriteOut(n: Net, node: Node, address: IPv4, packet: bytes, r: nat): Net
    requires r < |n.stage|
  {
    n.(stage := n.stage[r := Written], writeLog := n.writeLog + [Write(node, address, packet, r)])
  }

  /** Seal a packet on a channel; if it cannot be encoded it is lost, but its sequence number is used up. */
  function SealOn(n: Net, k: Key, source: u64, destination: u64, packet: bytes, ciphertext: bytes, r: nat): Net
    requires r < |n.stage| && k in n.channels
  {
    var c := n.channels[k];
    var d := DC.Send(c, TYPE_DATA, source, destination, packet, ciphertext, Some(r));
    n.(channels := n.channels[k := d],
       stage := n.stage[r := if |c.table| < |d.table| then At(k, DC.Sequence(c.sends + 1)) else Lost])
  }

  /** Router.Route followed by the chosen peer's Send. */
  function Forward(cfg: Config, n: Net, sender: IPv4, packet: bytes, ciphertext: bytes, r: nat): Net
    requires r < |n.stage|
  {
    match Route(n.tables.peers, sender, packet)
    case Err(_) => Lose(n, r)
    case Ok(Adapter) => WriteOut(n, ServerNode, cfg.serverIP, packet, r)
    case Ok(Tunnel(s)) =>
      var k := Key(s.id, Downstream);
      if s.id !in n.reached || k !in n.channels then Lose(n, r)
      else SealOn(n, k, 0, cfg.hash(s.device), packet, ciphertext, r)
  }

  function DeliverOn(n: Net, k: Key, datagram: bytes): Net
    requires k in n.channels
  {
    n.(channels := n.channels[k := DC.Deliver(n.channels[k], datagram)])
  }

  /** What the delivery yielded, if anything. */
  function Yielded(n: Net, k: Key, datagram: bytes): Option<DC.Output>
    requires k in n.channels
  {
    var before, after := n.channels[k].outputs, DC.Deliver(n.channels[k], datagram).outputs;
    if |before| < |after| then Some(after[|before|]) else None
  }

  predicate SizeOk(cfg: Config, packet: bytes) {
    20 <= |packet| <= cfg.mtu
  }

  // ---------------------------------------------------------------- steps

  function AddRead(n: Net, node: Node, address: IPv4, packet: bytes): Net {
    n.(readLog := n.readLog + [Read(node, address, packet)], stage := n.stage + [Lost])
  }

  function ConnectStep(n: Net, device: string, address: Option<IPv4>, id: u64): Net {
    if id in n.issued || Key(id, Upstream) in n.channels || Key(id, Downstream) in n.channels
       || !Registrable(n.tables, device, address) then n
    else
      var s := Session(device, address.value, id);
      n.(tables := Registered(n.tables, s), issued := n.issued[id := s],
         channels := n.channels[Key(id, Upstream) := DC.New(id)][Key(id, Downstream) := DC.New(id)])
  }

  function ClientReadStep(cfg: Config, n: Net, id: u64, packet: bytes, ciphertext: bytes): Net {
    var k := Key(id, Upstream);
    if id !in n.issued || k !in n.channels || packet == [] then n
    else
      var s := n.issued[id];
      var m := AddRead(n, ClientNode(s.device), s.address, packet);
      if |m.stage| != |m.readLog| then m
      else SealOn(m, k, cfg.hash(s.device), 0, packet, ciphertext, |n.readLog|)
  }

  function KeepaliveStep(cfg: Config, n: Net, id: u64, ciphertext: bytes): Net {
    var k := Key(id, Upstream);
    if id !in n.issued || k !in n.channels then n
    else n.(channels := n.channels[k :=
              DC.Send(n.channels[k], TYPE_KEEPALIVE, cfg.hash(n.issued[id].device), 0, [], ciphertext, None)])
  }

  function ServerReadStep(cfg: Config, n: Net, packet: bytes, ciphertext: bytes): Net {
    if packet == [] then n
    else
      var m := AddRead(n, ServerNode, cfg.serverIP, packet);
      if |m.stage| != |m.readLog| then m
      else Forward(cfg, m, cfg.serverIP, packet, ciphertext, |n.readLog|)
  }

  /**
   One turn of the server's readUDP. The session is looked up among all sessions ever issued, which also
   covers a session replaced between the lookup and the open.
   */
  function ToServerStep(cfg: Config, n: Net, datagram: bytes, ciphertext: bytes): Net {
    var parsed := ParsePacket(datagram);
    if parsed.Err? || (parsed.value.kind != TYPE_DATA && parsed.value.kind != TYPE_KEEPALIVE) then n
    else
      var id := parsed.value.sessionID;
      var k := Key(id, Upstream);
      if id !in n.issued || k !in n.channels || parsed.value.sourceID != cfg.hash(n.issued[id].device) then n
      else
        var y := Yielded(n, k, datagram);
        var m := DeliverOn(n, k, datagram);
        if y.None? then m
        else
          var learned := m.(reached := m.reached + {id});
          if y.value.kind == TYPE_KEEPALIVE || y.value.origin.None? || y.value.origin.value >= |n.stage| then learned
          else if !SizeOk(cfg, y.value.plaintext) then Lose(learned, y.value.origin.value)
          else Forward(cfg, learned, n.issued[id].address, y.value.plaintext, ciphertext, y.value.origin.value)
  }

  /** One turn of the readUDP of the client that holds session id. */
  function ToClientStep(cfg: Config, n: Net, id: u64, datagram: bytes): Net {
    var parsed := ParsePacket(datagram);
    var k := Key(id, Downstream);
    if parsed.Err? || parsed.value.kind != TYPE_DATA || id !in n.issued || k !in n.channels then n
    else
      var s := n.issued[id];
      if parsed.value.sessionID != id || parsed.value.destinationID != cfg.hash(s.device) then n
      else
        var y := Yielded(n, k, datagram);
        var m := DeliverOn(n, k, datagram);
        if y.None? || y.value.origin.None? || y.value.origin.value >= |n.stage| then m
        else if !SizeOk(cfg, y.value.plaintext) || Destination(y.value.plaintext) != s.address then
          Lose(m, y.value.origin.value)
        else WriteOut(m, ClientNode(s.device), s.address, y.value.plaintext, y.value.origin.value)
  }

  function Step(cfg: Config, n: Net, e: Event): Net {
    match e
    case Connect(device, address, id) => ConnectStep(n, device, address, id)
    case Disconnect(device, id) => n.(tables := Removed(n.tables, device, id))
    case ClientRead(id, packet, ciphertext) => ClientReadStep(cfg, n, id, packet, ciphertext)
    case ClientKeepalive(id, ciphertext) => KeepaliveStep(cfg, n, id, ciphertext)
    case ServerRead(packet, ciphertext) => ServerReadStep(cfg, n, packet, ciphertext)
    case ToServer(datagram, ciphertext) => ToServerStep(cfg, n, datagram, ciphertext)
    case ToClient(id, datagram) => ToClientStep(cfg, n, id, datagram)
  }

  function Run(cfg: Config, events: seq<Event>): Net {
    if events == [] then Start(cfg)
    else Step(cfg, Run(cfg, events[..|events| - 1]), events[|events| - 1])
  }

  // ---------------------------------------------------------------- invariant

  ghost predicate TablesOk(cfg: Config, tables: Tables, issued: map<u64, Session>) {
    && Consistent(tables) && tables.serverIP == cfg.serverIP
    && forall i :: i in tables.sessions ==> i in issued && issued[i] == tables.sessions[i]
  }

  ghost predicate ChannelsOk(issued: map<u64, Session>, channels: map<Key, DC.Channel>) {
    && (forall k :: k in channels ==> k.session in issued && channels[k].session == k.session && DC.Inv(channels[k]))
    && (forall i :: i in issued ==> Key(i, Upstream) in channels && Key(i, Downstream) in channels)
  }

  /** A sealed packet is a true copy of what some adapter produced. */
  predicate Genuine(session: Session, readLog: seq<Read>, direction: Direction, s: DC.Sealed) {
    match s.origin
    case None => direction == Upstream && s.packet.kind == TYPE_KEEPALIVE
    case Some(r) =>
      && s.packet.kind == TYPE_DATA && r < |readLog| && s.plaintext == readLog[r].packet
      && match direction
         case Upstream => readLog[r].node == ClientNode(session.device) && readLog[r].address == session.address
         case Downstream => |s.plaintext| >= 20 && Source(s.plaintext) == readLog[r].address
  }

  predicate OpenedOn(c: DC.Channel, number: nat) {
    number in RW.Opened(c.history)
  }

  /** An entry that can still be opened is where its packet's stage says. */
  predicate Placed(c: DC.Channel, stage: seq<Stage>, k: Key, s: DC.Sealed) {
    match s.origin
    case None => true
    case Some(r) => r < |stage| && (OpenedOn(c, s.packet.sequence) || stage[r] == At(k, s.packet.sequence))
  }

  ghost predicate EntriesOk(issued: map<u64, Session>, channels: map<Key, DC.Channel>, readLog: seq<Read>,
                            stage: seq<Stage>) {
    forall k, s :: k in channels && s in channels[k].table ==>
      && k.session in issued && Genuine(issued[k.session], readLog, k.direction, s)
      && Placed(channels[k], stage, k, s)
  }

  ghost predicate AddressOf(cfg: Config, issued: map<u64, Session>, node: Node, address: IPv4) {
    match node
    case ServerNode => address == cfg.serverIP
    case ClientNode(device) => exists i :: i in issued && issued[i].device == device && issued[i].address == address
  }

  /** A write is addressed to its adapter and comes, unchanged, from the adapter that owns the source address. */
  ghost predicate Addressed(cfg: Config, issued: map<u64, Session>, readLog: seq<Read>, w: Write) {
    && w.origin < |readLog| && w.packet == readLog[w.origin].packet && |w.packet| >= 20
    && Destination(w.packet) == w.address && AddressOf(cfg, issued, w.node, w.address)
    && Source(w.packet) == readLog[w.origin].address
    && AddressOf(cfg, issued, readLog[w.origin].node, readLog[w.origin].address)
  }

  ghost predicate ReadsOk(cfg: Config, issued: map<u64, Session>, readLog: seq<Read>) {
    forall r :: 0 <= r < |readLog| ==> AddressOf(cfg, issued, readLog[r].node, readLog[r].address)
  }

  ghost predicate WritesOk(cfg: Config, issued: map<u64, Session>, readLog: seq<Read>, writeLog: seq<Write>) {
    forall i :: 0 <= i < |writeLog| ==> Addressed(cfg, issued, readLog, writeLog[i])
  }

  ghost predicate WrittenOnce(writeLog: seq<Write>, stage: seq<Stage>) {
    && (forall i :: 0 <= i < |writeLog| ==>
          writeLog[i].origin < |stage| && stage[writeLog[i].origin] == Written)
    && (forall i, j :: 0 <= i < j < |writeLog| ==> writeLog[i].origin != writeLog[j].origin)
  }

  ghost predicate Inv(cfg: Config, n: Net) {
    && |n.stage| == |n.readLog|
    && TablesOk(cfg, n.tables, n.issued)
    && ChannelsOk(n.issued, n.channels)
    && EntriesOk(n.issued, n.channels, n.readLog, n.stage)
    && ReadsOk(cfg, n.issued, n.readLog)
    && WritesOk(cfg, n.issued, n.readLog, n.writeLog)
    && WrittenOnce(n.writeLog, n.stage)
  }

  /** Packet r is in the hands of the code: no unopened entry and no write holds it. */
  ghost predicate InHand(channels: map<Key, DC.Channel>, stage: seq<Stage>, r: nat) {
    && r < |stage| && stage[r] != Written
    && forall k, s :: k in channels && s in channels[k].table && s.origin == Some(r) ==>
         OpenedOn(channels[k], s.packet.sequence)
  }

  ghost predicate WithinLimit(n: Net) {
    forall k :: k in n.channels ==> n.channels[k].sends < DC.SEQUENCE_LIMIT
  }

  // ---------------------------------------------------------------- a packet in hand

  lemma EntriesWithoutHeldPacket(issued: map<u64, Session>, channels: map<Key, DC.Channel>, readLog: seq<Read>,
                                 stage: seq<Stage>, r: nat, next: Stage)
    requires EntriesOk(issued, channels, readLog, stage) && InHand(channels, stage, r)
    ensures EntriesOk(issued, channels, readLog, stage[r := next])
  {
    forall k, s | k in channels && s in channels[k].table
      ensures k.session in issued && Genuine(issued[k.session], readLog, k.direction, s)
      ensures Placed(channels[k], stage[r := next], k, s)
    {
      assert Placed(channels[k], stage, k, s);
    }
  }

  lemma LoseKeepsInv(cfg: Config, n: Net, r: nat)
    requires Inv(cfg, n) && InHand(n.channels, n.stage, r)
    ensures Inv(cfg, Lose(n, r))
  {
    hide TablesOk, ChannelsOk, ReadsOk, WritesOk;
    EntriesWithoutHeldPacket(n.issued, n.channels, n.readLog, n.stage, r, Lost);
  }

  lemma WriteOutKeepsInv(cfg: Config, n: Net, node: Node, address: IPv4, packet: bytes, r: nat)
    requires Inv(cfg, n) && InHand(n.channels, n.stage, r)
    requires Addressed(cfg, n.issued, n.readLog, Write(node, address, packet, r))
    ensures Inv(cfg, WriteOut(n, node, address, packet, r))
  {
    hide TablesOk, ChannelsOk, EntriesOk, ReadsOk, Addressed;
    EntriesWithoutHeldPacket(n.issued, n.channels, n.readLog, n.stage, r, Written);
  }

  lemma SealOnKeepsChannels(issued: map<u64, Session>, channels: map<Key, DC.Channel>, k: Key, kind: byte, source: u64,
                            destination: u64, packet: bytes, ciphertext: bytes, origin: Option<nat>)
    requires ChannelsOk(issued, channels) && k in channels
    requires DC.Send(channels[k], kind, source, destination, packet, ciphertext, origin).sends < DC.SEQUENCE_LIMIT
    ensures
      ChannelsOk(issued, channels[k := DC.Send(channels[k], kind, source, destination, packet, ciphertext, origin)])
  {
    hide DC.Inv, DC.Send;
    DC.SendKeepsInv(channels[k], kind, source, destination, packet, ciphertext, origin);
  }

  lemma SealOnKeepsEntries(issued: map<u64, Session>, channels: map<Key, DC.Channel>, readLog: seq<Read>,
                           stage: seq<Stage>, k: Key, d: DC.Channel, sealed: DC.Sealed)
    requires EntriesOk(issued, channels, readLog, stage) && k in channels && k.session in issued
    requires d.history == channels[k].history
    requires d.table == channels[k].table || d.table == channels[k].table + [sealed]
    requires Genuine(issued[k.session], readLog, k.direction, sealed)
    requires d.table == channels[k].table || Placed(d, stage, k, sealed)
    ensures EntriesOk(issued, channels[k := d], readLog, stage)
  {
    forall j, s | j in channels[k := d] && s in channels[k := d][j].table
      ensures j.session in issued && Genuine(issued[j.session], readLog, j.direction, s)
      ensures Placed(channels[k := d][j], stage, j, s)
    {
      if s in channels[j].table {
        assert Placed(channels[j], stage, j, s);
      } else {
        assert j == k && s == sealed;
      }
    }
  }

  lemma SealOnKeepsInv(cfg: Config, n: Net, k: Key, source: u64, destination: u64, packet: bytes, ciphertext: bytes,
                       r: nat)
    requires Inv(cfg, n) && InHand(n.channels, n.stage, r) && k in n.channels
    requires packet == n.readLog[r].packet
    requires k.session in n.issued
    requires k.direction == Upstream ==>
               && n.readLog[r].node == ClientNode(n.issued[k.session].device)
               && n.readLog[r].address == n.issued[k.session].address
    requires k.direction == Downstream ==> |packet| >= 20 && Source(packet) == n.readLog[r].address
    requires WithinLimit(SealOn(n, k, source, destination, packet, ciphertext, r))
    ensures Inv(cfg, SealOn(n, k, source, destination, packet, ciphertext, r))
  {
    hide TablesOk, ChannelsOk, EntriesOk, ReadsOk, WritesOk;
    var m := SealOn(n, k, source, destination, packet, ciphertext, r);
    var c, d := n.channels[k], m.channels[k];
    assert d.sends < DC.SEQUENCE_LIMIT;
    SealOnKeepsChannels(n.issued, n.channels, k, TYPE_DATA, source, destination, packet, ciphertext, Some(r));
    EntriesWithoutHeldPacket(n.issued, n.channels, n.readLog, n.stage, r, m.stage[r]);
    var sealed := DC.Sealed(DC.NextPacket(c, TYPE_DATA, source, destination, ciphertext), packet, Some(r));
    SealOnKeepsEntries(n.issued, n.channels, n.readLog, m.stage, k, d, sealed);
  }

  lemma ForwardKeepsInv(cfg: Config, n: Net, sender: IPv4, packet: bytes, ciphertext: bytes, r: nat)
    requires Inv(cfg, n) && InHand(n.channels, n.stage, r)
    requires packet == n.readLog[r].packet && sender == n.readLog[r].address
    requires WithinLimit(Forward(cfg, n, sender, packet, ciphertext, r))
    ensures Inv(cfg, Forward(cfg, n, sender, packet, ciphertext, r))
  {
    hide DC.Inv, EntriesOk, WritesOk, SealOn;
    match Route(n.tables.peers, sender, packet)
    case Err(_) => LoseKeepsInv(cfg, n, r);
    case Ok(Adapter) =>
      assert Destination(packet) == cfg.serverIP;
      assert AddressOf(cfg, n.issued, n.readLog[r].node, n.readLog[r].address);
      WriteOutKeepsInv(cfg, n, ServerNode, cfg.serverIP, packet, r);
    case Ok(Tunnel(s)) =>
      var k := Key(s.id, Downstream);
      if s.id !in n.reached || k !in n.channels {
        LoseKeepsInv(cfg, n, r);
      } else {
        SealOnKeepsInv(cfg, n, k, 0, cfg.hash(s.device), packet, ciphertext, r);
      }
  }

  // ---------------------------------------------------------------- a datagram arrives

  lemma DeliverOnKeepsChannels(issued: map<u64, Session>, channels: map<Key, DC.Channel>, k: Key, datagram: bytes)
    requires ChannelsOk(issued, channels) && k in channels
    ensures ChannelsOk(issued, channels[k := DC.Deliver(channels[k], datagram)])
  {
    hide DC.Inv, DC.Deliver;
    DC.DeliverKeepsInv(channels[k], datagram);
  }

  lemma DeliverOnKeepsEntries(issued: map<u64, Session>, channels: map<Key, DC.Channel>, readLog: seq<Read>,
                              stage: seq<Stage>, k: Key, d: DC.Channel)
    requires EntriesOk(issued, channels, readLog, stage) && k in channels
    requires d.table == channels[k].table && RW.Opened(channels[k].history) <= RW.Opened(d.history)
    ensures EntriesOk(issued, channels[k := d], readLog, stage)
  {
    hide RW.Opened;
    forall j, s | j in channels[k := d] && s in channels[k := d][j].table
      ensures j.session in issued && Genuine(issued[j.session], readLog, j.direction, s)
      ensures Placed(channels[k := d][j], stage, j, s)
    {
      assert Placed(channels[j], stage, j, s);
    }
  }

  /** A yielded packet is a genuine entry, and nothing else holds it any more. */
  lemma YieldedIsInHand(issued: map<u64, Session>, channels: map<Key, DC.Channel>, readLog: seq<Read>,
                        stage: seq<Stage>, k: Key, d: DC.Channel, y: DC.Output)
    requires EntriesOk(issued, channels, readLog, stage) && k in channels
    requires d.table == channels[k].table && DC.WasSealed(channels[k].table, y)
    requires y.number !in RW.Opened(channels[k].history)
    requires RW.Opened(d.history) == RW.Opened(channels[k].history) + {y.number}
    ensures exists s :: s in channels[k].table && DC.Repeats(y, s) && k.session in issued
                        && Genuine(issued[k.session], readLog, k.direction, s)
    ensures y.origin.Some? ==> InHand(channels[k := d], stage, y.origin.value)
  {
    hide RW.Opened;
    var s :| s in channels[k].table && DC.Repeats(y, s);
    assert Genuine(issued[k.session], readLog, k.direction, s) && Placed(channels[k], stage, k, s);
    if y.origin.Some? {
      var r := y.origin.value;
      assert stage[r] == At(k, y.number);
      var after := channels[k := d];
      forall j, t | j in after && t in after[j].table && t.origin == Some(r)
        ensures OpenedOn(after[j], t.packet.sequence)
      {
        assert Placed(channels[j], stage, j, t);
      }
    }
  }

  lemma DeliverOnKeepsInv(cfg: Config, n: Net, k: Key, datagram: bytes)
    requires Inv(cfg, n) && k in n.channels
    ensures Inv(cfg, DeliverOn(n, k, datagram))
    ensures
      match Yielded(n, k, datagram)
      case None => true
      case Some(y) =>
        && k.session in n.issued
        && (exists s :: s in n.channels[k].table && DC.Repeats(y, s)
                        && Genuine(n.issued[k.session], n.readLog, k.direction, s))
        && (y.origin.Some? ==> InHand(DeliverOn(n, k, datagram).channels, n.stage, y.origin.value))
  {
    hide TablesOk, EntriesOk, ReadsOk, WritesOk, WrittenOnce, DC.OutputsOk, DC.Deliver, RW.Opened;
    var c := n.channels[k];
    var d := DC.Deliver(c, datagram);
    assert DC.Inv(c) && DC.TableOk(c);
    DC.DeliverFacts(c, datagram);
    DeliverOnKeepsChannels(n.issued, n.channels, k, datagram);
    DeliverOnKeepsEntries(n.issued, n.channels, n.readLog, n.stage, k, d);
    var yielded := Yielded(n, k, datagram);
    if yielded.Some? {
      YieldedIsInHand(n.issued, n.channels, n.readLog, n.stage, k, d, yielded.value);
    }
  }

  lemma ToServerKeepsInv(cfg: Config, n: Net, datagram: bytes, ciphertext: bytes)
    requires Inv(cfg, n) && WithinLimit(ToServerStep(cfg, n, datagram, ciphertext))
    ensures Inv(cfg, ToServerStep(cfg, n, datagram, ciphertext))
  {
    hide TablesOk, ChannelsOk, EntriesOk, ReadsOk, WritesOk, WrittenOnce, WithinLimit, InHand;
    hide DC.Deliver, Forward, ParsePacket;
    var parsed := ParsePacket(datagram);
    if parsed.Ok? && (parsed.value.kind == TYPE_DATA || parsed.value.kind == TYPE_KEEPALIVE) {
      var id := parsed.value.sessionID;
      var k := Key(id, Upstream);
      if id in n.issued && k in n.channels && parsed.value.sourceID == cfg.hash(n.issued[id].device) {
        DeliverOnKeepsInv(cfg, n, k, datagram);
        var m := DeliverOn(n, k, datagram);
        var yielded := Yielded(n, k, datagram);
        if yielded.Some? {
          var y := yielded.value;
          var learned := m.(reached := m.reached + {id});
          assert Inv(cfg, learned);
          if y.kind != TYPE_KEEPALIVE && y.origin.Some? && y.origin.value < |n.stage| {
            var r := y.origin.value;
            if !SizeOk(cfg, y.plaintext) {
              LoseKeepsInv(cfg, learned, r);
            } else {
              ForwardKeepsInv(cfg, learned, n.issued[id].address, y.plaintext, ciphertext, r);
            }
          }
        }
      }
    }
  }

  lemma ToClientKeepsInv(cfg: Config, n: Net, id: u64, datagram: bytes)
    requires Inv(cfg, n)
    ensures Inv(cfg, ToClientStep(cfg, n, id, datagram))
  {
    hide TablesOk, ChannelsOk, EntriesOk, WritesOk, WrittenOnce, InHand, DC.Deliver, ParsePacket;
    var parsed := ParsePacket(datagram);
    var k := Key(id, Downstream);
    if parsed.Ok? && parsed.value.kind == TYPE_DATA && id in n.issued && k in n.channels {
      var session := n.issued[id];
      if parsed.value.sessionID == id && parsed.value.destinationID == cfg.hash(session.device) {
        DeliverOnKeepsInv(cfg, n, k, datagram);
        var m := DeliverOn(n, k, datagram);
        var yielded := Yielded(n, k, datagram);
        if yielded.Some? && yielded.value.origin.Some? && yielded.value.origin.value < |n.stage| {
          var y := yielded.value;
          if !SizeOk(cfg, y.plaintext) || Destination(y.plaintext) != session.address {
            LoseKeepsInv(cfg, m, y.origin.value);
          } else {
            assert AddressOf(cfg, m.issued, ClientNode(session.device), session.address);
            WriteOutKeepsInv(cfg, m, ClientNode(session.device), session.address, y.plaintext, y.origin.value);
          }
        }
      }
    }
  }

  // ---------------------------------------------------------------- the other steps

  lemma EntriesExtend(issued: map<u64, Session>, channels: map<Key, DC.Channel>, readLog: seq<Read>, stage: seq<Stage>,
                      moreIssued: map<u64, Session>, moreChannels: map<Key, DC.Channel>, moreReads: seq<Read>,
                      moreStage: seq<Stage>)
    requires EntriesOk(issued, channels, readLog, stage)
    requires forall i :: i in issued ==> i in moreIssued && moreIssued[i] == issued[i]
    requires forall k :: k in moreChannels ==>
               (k in channels && moreChannels[k] == channels[k]) || moreChannels[k].table == []
    requires readLog <= moreReads && stage <= moreStage
    ensures EntriesOk(moreIssued, moreChannels, moreReads, moreStage)
  {
    forall k, s | k in moreChannels && s in moreChannels[k].table
      ensures k.session in moreIssued && Genuine(moreIssued[k.session], moreReads, k.direction, s)
      ensures Placed(moreChannels[k], moreStage, k, s)
    {
      assert Genuine(issued[k.session], readLog, k.direction, s) && Placed(channels[k], stage, k, s);
    }
  }

  lemma AddressKept(cfg: Config, issued: map<u64, Session>, more: map<u64, Session>, node: Node, address: IPv4)
    requires AddressOf(cfg, issued, node, address)
    requires forall i :: i in issued ==> i in more && more[i] == issued[i]
    ensures AddressOf(cfg, more, node, address)
  {
    if node.ClientNode? {
      var i :| i in issued && issued[i].device == node.device && issued[i].address == address;
      assert i in more;
    }
  }

  lemma LogsExtend(cfg: Config, issued: map<u64, Session>, readLog: seq<Read>, writeLog: seq<Write>,
                   more: map<u64, Session>, moreReads: seq<Read>)
    requires ReadsOk(cfg, issued, readLog) && WritesOk(cfg, issued, readLog, writeLog)
    requires forall i :: i in issued ==> i in more && more[i] == issued[i]
    requires readLog <= moreReads
    requires forall r :: |readLog| <= r < |moreReads| ==> AddressOf(cfg, more, moreReads[r].node, moreReads[r].address)
    ensures ReadsOk(cfg, more, moreReads) && WritesOk(cfg, more, moreReads, writeLog)
  {
    forall r | 0 <= r < |moreReads| ensures AddressOf(cfg, more, moreReads[r].node, moreReads[r].address) {
      if r < |readLog| { AddressKept(cfg, issued, more, readLog[r].node, readLog[r].address); }
    }
    forall i | 0 <= i < |writeLog| ensures Addressed(cfg, more, moreReads, writeLog[i]) {
      assert Addressed(cfg, issued, readLog, writeLog[i]);
      AddressKept(cfg, issued, more, writeLog[i].node, writeLog[i].address);
    }
  }

  lemma AddReadKeepsInv(cfg: Config, n: Net, node: Node, address: IPv4, packet: bytes)
    requires Inv(cfg, n) && AddressOf(cfg, n.issued, node, address)
    ensures Inv(cfg, AddRead(n, node, address, packet))
    ensures InHand(n.channels, AddRead(n, node, address, packet).stage, |n.readLog|)
  {
    hide TablesOk, ChannelsOk, ReadsOk, WritesOk;
    var m := AddRead(n, node, address, packet);
    EntriesExtend(n.issued, n.channels, n.readLog, n.stage, m.issued, m.channels, m.readLog, m.stage);
    LogsExtend(cfg, n.issued, n.readLog, n.writeLog, m.issued, m.readLog);
    forall k, s | k in n.channels && s in n.channels[k].table
      ensures s.origin != Some(|n.readLog|)
    {
      assert Placed(n.channels[k], n.stage, k, s);
    }
  }

  lemma ConnectKeepsChannels(issued: map<u64, Session>, channels: map<Key, DC.Channel>, s: Session, id: u64)
    requires ChannelsOk(issued, channels) && id !in issued
    ensures ChannelsOk(issued[id := s], channels[Key(id, Upstream) := DC.New(id)][Key(id, Downstream) := DC.New(id)])
  {
    hide DC.Inv, DC.New;
    DC.NewIsOk(id);
  }

  lemma ConnectKeepsTables(cfg: Config, tables: Tables, issued: map<u64, Session>, device: string, address: IPv4,
                           id: u64)
    requires TablesOk(cfg, tables, issued) && id !in issued && Registrable(tables, device, Some(address))
    ensures
      var s := Session(device, address, id);
      TablesOk(cfg, Registered(tables, s), issued[id := s])
  {
    StepKeepsConsistent(tables, RegisterEvent(device, Some(address), id));
    hide Consistent;
  }

  lemma ConnectKeepsInv(cfg: Config, n: Net, device: string, address: Option<IPv4>, id: u64)
    requires Inv(cfg, n)
    ensures Inv(cfg, ConnectStep(n, device, address, id))
  {
    hide TablesOk, ChannelsOk, EntriesOk, ReadsOk, WritesOk, WrittenOnce, Registered;
    var m := ConnectStep(n, device, address, id);
    if m != n {
      var s := Session(device, address.value, id);
      ConnectKeepsTables(cfg, n.tables, n.issued, device, address.value, id);
      ConnectKeepsChannels(n.issued, n.channels, s, id);
      EntriesExtend(n.issued, n.channels, n.readLog, n.stage, m.issued, m.channels, m.readLog, m.stage);
      LogsExtend(cfg, n.issued, n.readLog, n.writeLog, m.issued, m.readLog);
    }
  }

  lemma DisconnectKeepsInv(cfg: Config, n: Net, device: string, id: u64)
    requires Inv(cfg, n)
    ensures Inv(cfg, n.(tables := Removed(n.tables, device, id)))
  {
    hide ChannelsOk, EntriesOk, ReadsOk, WritesOk, WrittenOnce;
    StepKeepsConsistent(n.tables, RemoveEvent(device, id));
  }

  lemma KeepaliveKeepsInv(cfg: Config, n: Net, id: u64, ciphertext: bytes)
    requires Inv(cfg, n) && WithinLimit(KeepaliveStep(cfg, n, id, ciphertext))
    ensures Inv(cfg, KeepaliveStep(cfg, n, id, ciphertext))
  {
    hide TablesOk, ChannelsOk, EntriesOk, ReadsOk, WritesOk, WrittenOnce;
    var k := Key(id, Upstream);
    if id in n.issued && k in n.channels {
      var m := KeepaliveStep(cfg, n, id, ciphertext);
      var c, d := n.channels[k], m.channels[k];
      var source := cfg.hash(n.issued[id].device);
      assert d.sends < DC.SEQUENCE_LIMIT;
      SealOnKeepsChannels(n.issued, n.channels, k, TYPE_KEEPALIVE, source, 0, [], ciphertext, None);
      var sealed := DC.Sealed(DC.NextPacket(c, TYPE_KEEPALIVE, source, 0, ciphertext), [], None);
      SealOnKeepsEntries(n.issued, n.channels, n.readLog, n.stage, k, d, sealed);
    }
  }

  lemma ReadsKeepInv(cfg: Config, n: Net, e: Event)
    requires e.ClientRead? || e.ServerRead?
    requires Inv(cfg, n) && WithinLimit(Step(cfg, n, e))
    ensures Inv(cfg, Step(cfg, n, e))
  {
    hide TablesOk, ChannelsOk, EntriesOk, ReadsOk, WritesOk, WrittenOnce, WithinLimit, InHand, Forward, SealOn;
    if e.ClientRead? {
      if e.id in n.issued && Key(e.id, Upstream) in n.channels && e.packet != [] {
        var s := n.issued[e.id];
        assert AddressOf(cfg, n.issued, ClientNode(s.device), s.address);
        AddReadKeepsInv(cfg, n, ClientNode(s.device), s.address, e.packet);
        var m := AddRead(n, ClientNode(s.device), s.address, e.packet);
        SealOnKeepsInv(cfg, m, Key(e.id, Upstream), cfg.hash(s.device), 0, e.packet, e.ciphertext, |n.readLog|);
      }
    } else if e.packet != [] {
      AddReadKeepsInv(cfg, n, ServerNode, cfg.serverIP, e.packet);
      var m := AddRead(n, ServerNode, cfg.serverIP, e.packet);
      ForwardKeepsInv(cfg, m, cfg.serverIP, e.packet, e.ciphertext, |n.readLog|);
    }
  }

  lemma StepKeepsInv(cfg: Config, n: Net, e: Event)
    requires Inv(cfg, n) && WithinLimit(Step(cfg, n, e))
    ensures Inv(cfg, Step(cfg, n, e))
  {
    hide Inv, WithinLimit;
    match e
    case Connect(device, address, id) => ConnectKeepsInv(cfg, n, device, address, id);
    case Disconnect(device, id) => DisconnectKeepsInv(cfg, n, device, id);
    case ClientRead(_, _, _) => ReadsKeepInv(cfg, n, e);
    case ClientKeepalive(id, ciphertext) => KeepaliveKeepsInv(cfg, n, id, ciphertext);
    case ServerRead(_, _) => ReadsKeepInv(cfg, n, e);
    case ToServer(datagram, ciphertext) => ToServerKeepsInv(cfg, n, datagram, ciphertext);
    case ToClient(id, datagram) => ToClientKeepsInv(cfg, n, id, datagram);
  }

  // ---------------------------------------------------------------- main results

  /**
   The steps above have guards that no reachable state meets: every read has a stage, every issued session both
   channels, and every yielded packet the position of its read, unless it is a keepalive.
   */
  lemma GuardsAreDead(cfg: Config, n: Net, node: Node, address: IPv4, packet: bytes, k: Key, datagram: bytes)
    requires Inv(cfg, n)
    ensures |AddRead(n, node, address, packet).stage| == |AddRead(n, node, address, packet).readLog|
    ensures k.session in n.issued ==> k in n.channels
    ensures k in n.channels && Yielded(n, k, datagram).Some? ==>
              var y := Yielded(n, k, datagram).value;
              if y.origin.Some? then y.origin.value < |n.stage| else k.direction == Upstream && y.kind == TYPE_KEEPALIVE
  {
    hide DC.Deliver, TablesOk, ReadsOk, WritesOk, WrittenOnce, DC.OutputsOk;
    assert k.direction == Upstream || k.direction == Downstream;
    if k in n.channels && Yielded(n, k, datagram).Some? {
      DC.DeliverFacts(n.channels[k], datagram);
      var y := Yielded(n, k, datagram).value;
      var s :| s in n.channels[k].table && DC.Repeats(y, s);
      assert Genuine(n.issued[k.session], n.readLog, k.direction, s);
    }
  }

  /** A step does nothing to a channel, or one of its two operations. */
  ghost predicate Becomes(c: DC.Channel, d: DC.Channel) {
    d == c || exists e :: d == DC.Step(c, e)
  }

  lemma SendBecomes(c: DC.Channel, kind: byte, source: u64, destination: u64, plaintext: bytes, ciphertext: bytes,
                    origin: Option<nat>)
    ensures Becomes(c, DC.Send(c, kind, source, destination, plaintext, ciphertext, origin))
  {
    hide DC.Send;
    var e := DC.SendEvent(kind, source, destination, plaintext, ciphertext, origin);
    assert DC.Step(c, e) == DC.Send(c, kind, source, destination, plaintext, ciphertext, origin);
  }

  lemma DeliverBecomes(c: DC.Channel, datagram: bytes)
    ensures Becomes(c, DC.Deliver(c, datagram))
  {
    hide DC.Deliver;
    assert DC.Step(c, DC.DeliverEvent(datagram)) == DC.Deliver(c, datagram);
  }

  /** Forwarding touches downstream channels only. */
  lemma ForwardBecomes(cfg: Config, n: Net, sender: IPv4, packet: bytes, ciphertext: bytes, r: nat, k: Key)
    requires r < |n.stage| && k in n.channels
    ensures
      var m := Forward(cfg, n, sender, packet, ciphertext, r);
      && k in m.channels && Becomes(n.channels[k], m.channels[k])
      && (k.direction == Upstream ==> m.channels[k] == n.channels[k])
  {
    hide DC.Send, Becomes;
    assert Becomes(n.channels[k], n.channels[k]) by { SameBecomes(n.channels[k]); }
    match Route(n.tables.peers, sender, packet)
    case Ok(Tunnel(s)) =>
      SendBecomes(n.channels[k], TYPE_DATA, 0, cfg.hash(s.device), packet, ciphertext, Some(r));
    case _ =>
  }

  lemma SameBecomes(c: DC.Channel)
    ensures Becomes(c, c)
  {
  }

  lemma ToServerBecomes(cfg: Config, n: Net, datagram: bytes, ciphertext: bytes, k: Key)
    requires k in n.channels
    ensures
      var m := ToServerStep(cfg, n, datagram, ciphertext);
      k in m.channels && Becomes(n.channels[k], m.channels[k])
  {
    hide ParsePacket, DC.Deliver, Forward, Becomes;
    SameBecomes(n.channels[k]);
    DeliverBecomes(n.channels[k], datagram);
    var parsed := ParsePacket(datagram);
    if parsed.Ok? {
      var id := parsed.value.sessionID;
      var up := Key(id, Upstream);
      if id in n.issued && up in n.channels {
        var y := Yielded(n, up, datagram);
        var m := DeliverOn(n, up, datagram);
        var learned := m.(reached := m.reached + {id});
        if y.Some? && y.value.origin.Some? && y.value.origin.value < |n.stage| {
          ForwardBecomes(cfg, learned, n.issued[id].address, y.value.plaintext, ciphertext, y.value.origin.value, k);
        }
      }
    }
  }

  lemma StepBecomes(cfg: Config, n: Net, e: Event, k: Key)
    requires k in n.channels
    ensures
      var m := Step(cfg, n, e);
      k in m.channels && Becomes(n.channels[k], m.channels[k])
  {
    hide ParsePacket, Forward, ToServerStep, Registered, Removed, DC.Deliver, DC.Send, Becomes;
    var c := n.channels[k];
    SameBecomes(c);
    match e
    case ClientRead(id, packet, ciphertext) =>
      if id in n.issued {
        SendBecomes(c, TYPE_DATA, cfg.hash(n.issued[id].device), 0, packet, ciphertext, Some(|n.readLog|));
      }
    case ClientKeepalive(id, ciphertext) =>
      if id in n.issued {
        SendBecomes(c, TYPE_KEEPALIVE, cfg.hash(n.issued[id].device), 0, [], ciphertext, None);
      }
    case ServerRead(packet, ciphertext) =>
      var m := AddRead(n, ServerNode, cfg.serverIP, packet);
      if packet != [] && |m.stage| == |m.readLog| {
        ForwardBecomes(cfg, m, cfg.serverIP, packet, ciphertext, |n.readLog|, k);
      }
    case ToServer(datagram, ciphertext) => ToServerBecomes(cfg, n, datagram, ciphertext, k);
    case ToClient(id, datagram) => DeliverBecomes(c, datagram);
    case _ =>
  }

  /** Channels are never dropped and their counters never go back. */
  ghost predicate Grows(n: Net, m: Net) {
    forall k :: k in n.channels ==> k in m.channels && n.channels[k].sends <= m.channels[k].sends
  }

  lemma StepGrows(cfg: Config, n: Net, e: Event)
    ensures Grows(n, Step(cfg, n, e))
  {
    hide Step, Becomes;
    var m := Step(cfg, n, e);
    forall k | k in n.channels ensures k in m.channels && n.channels[k].sends <= m.channels[k].sends {
      StepBecomes(cfg, n, e, k);
      BecomesGrows(n.channels[k], m.channels[k]);
    }
  }

  lemma BecomesGrows(c: DC.Channel, d: DC.Channel)
    requires Becomes(c, d)
    ensures c.sends <= d.sends
  {
    hide DC.Step;
    if d != c {
      var e :| d == DC.Step(c, e);
      DC.SendsNeverDecrease(c, e);
    }
  }

  lemma {:induction false} RunKeepsInv(cfg: Config, events: seq<Event>)
    requires WithinLimit(Run(cfg, events))
    ensures Inv(cfg, Run(cfg, events))
  {
    if events != [] {
      var front, last := events[..|events| - 1], events[|events| - 1];
      var n := Run(cfg, front);
      assert WithinLimit(n) by {
        StepGrows(cfg, n, last);
        hide Step;
      }
      hide Inv, WithinLimit, Step;
      RunKeepsInv(cfg, front);
      StepKeepsInv(cfg, n, last);
    }
  }

  /**
   Whatever the adversary does, every packet written to an adapter is addressed to that adapter's own
   address, is byte for byte a packet some adapter produced, carries as source the assigned address of
   that adapter, and no adapter read causes two writes.
   */
  lemma EveryWriteIsAddressedAndUnique(cfg: Config, events: seq<Event>)
    requires WithinLimit(Run(cfg, events))
    ensures
      var n := Run(cfg, events);
      && (forall i :: 0 <= i < |n.writeLog| ==> Addressed(cfg, n.issued, n.readLog, n.writeLog[i]))
      && (forall i, j :: 0 <= i < j < |n.writeLog| ==> n.writeLog[i].origin != n.writeLog[j].origin)
  {
    RunKeepsInv(cfg, events);
  }

  // ---------------------------------------------------------------- what an unauthentic datagram costs a session

  /** Sent numbers stay below the reach of a channel's window when that stands at the top. */
  predicate FarFromTop(n: Net, k: Key) {
    k in n.channels && n.channels[k].sends + RW.WINDOW < DC.SEQUENCE_LIMIT
  }

  /** A silenced channel of any run stays silenced in every continuation. */
  lemma {:induction false} SilencedForever(cfg: Config, before: seq<Event>, more: seq<Event>, k: Key)
    requires k in Run(cfg, before).channels && DC.Silenced(Run(cfg, before).channels[k])
    requires WithinLimit(Run(cfg, before + more))
    requires k in Run(cfg, before + more).channels ==> FarFromTop(Run(cfg, before + more), k)
    ensures k in Run(cfg, before + more).channels && DC.Silenced(Run(cfg, before + more).channels[k])
    decreases |more|
  {
    if more == [] {
      assert before + more == before;
    } else {
      hide Step, DC.Silenced, DC.Inv, Inv;
      var front, last := more[..|more| - 1], more[|more| - 1];
      assert (before + more)[..|before + more| - 1] == before + front && (before + more)[|before + more| - 1] == last;
      var n := Run(cfg, before + front);
      StepGrows(cfg, n, last);
      SilencedForever(cfg, before, front, k);
      RunKeepsInv(cfg, before + front);
      StepBecomes(cfg, n, last, k);
      StillSilenced(cfg, n, Run(cfg, before + more), k);
    }
  }

  lemma StillSilenced(cfg: Config, n: Net, m: Net, k: Key)
    requires Inv(cfg, n) && k in n.channels && DC.Silenced(n.channels[k])
    requires k in m.channels && Becomes(n.channels[k], m.channels[k]) && FarFromTop(m, k)
    ensures DC.Silenced(m.channels[k])
  {
    hide DC.Step, DC.Silenced, DC.Inv;
    if m.channels[k] != n.channels[k] {
      var e :| m.channels[k] == DC.Step(n.channels[k], e);
      DC.SilencedStays(n.channels[k], e);
    }
  }

  /** A new session has two empty channels. */
  lemma ConnectOpensChannels(n: Net, device: string, address: Option<IPv4>, id: u64)
    requires id !in n.issued && id in ConnectStep(n, device, address, id).issued
    ensures
      var m := ConnectStep(n, device, address, id);
      && m.issued[id].device == device
      && Key(id, Upstream) in m.channels && m.channels[Key(id, Upstream)] == DC.New(id)
      && Key(id, Downstream) in m.channels && m.channels[Key(id, Downstream)] == DC.New(id)
  {
    hide Registered, Registrable;
  }

  /** The claim passes the checks before openPacket, and the open fails. */
  lemma ClaimAtServer(cfg: Config, n: Net, id: u64, destination: u64, payload: bytes, ciphertext: bytes)
    requires |payload| <= MAX_PAYLOAD && id in n.issued
    requires Key(id, Upstream) in n.channels && n.channels[Key(id, Upstream)] == DC.New(id)
    ensures
      var claim := DC.HighestClaim(id, cfg.hash(n.issued[id].device), destination, payload);
      var m := ToServerStep(cfg, n, Wire(claim), ciphertext);
      Key(id, Upstream) in m.channels && DC.Silenced(m.channels[Key(id, Upstream)])
  {
    hide Wire, ParsePacket, DC.Deliver, Forward;
    ParseWire(DC.HighestClaim(id, cfg.hash(n.issued[id].device), destination, payload));
    DC.HighestClaimSilences(id, cfg.hash(n.issued[id].device), destination, payload);
  }

  lemma ClaimAtClient(cfg: Config, n: Net, id: u64, source: u64, payload: bytes)
    requires |payload| <= MAX_PAYLOAD && id in n.issued
    requires Key(id, Downstream) in n.channels && n.channels[Key(id, Downstream)] == DC.New(id)
    ensures
      var claim := DC.HighestClaim(id, source, cfg.hash(n.issued[id].device), payload);
      var m := ToClientStep(cfg, n, id, Wire(claim));
      Key(id, Downstream) in m.channels && DC.Silenced(m.channels[Key(id, Downstream)])
  {
    hide Wire, ParsePacket, DC.Deliver;
    ParseWire(DC.HighestClaim(id, source, cfg.hash(n.issued[id].device), payload));
    DC.HighestClaimSilences(id, source, cfg.hash(n.issued[id].device), payload);
  }

  /** The datagram after a connect, with the fields the receive loop checks. */
  function ClaimEvent(cfg: Config, device: string, id: u64, direction: Direction, other: u64, payload: bytes): Event
    requires |payload| <= MAX_PAYLOAD
  {
    match direction
    case Upstream => ToServer(Wire(DC.HighestClaim(id, cfg.hash(device), other, payload)), [])
    case Downstream => ToClient(id, Wire(DC.HighestClaim(id, other, cfg.hash(device), payload)))
  }

  lemma ClaimSilences(cfg: Config, before: seq<Event>, device: string, address: Option<IPv4>, id: u64,
                      direction: Direction, other: u64, payload: bytes)
    requires |payload| <= MAX_PAYLOAD && id !in Run(cfg, before).issued
    requires id in Run(cfg, before + [Connect(device, address, id)]).issued
    ensures
      var start := before + [Connect(device, address, id)] + [ClaimEvent(cfg, device, id, direction, other, payload)];
      var n := Run(cfg, start);
      Key(id, direction) in n.channels && DC.Silenced(n.channels[Key(id, direction)])
  {
    hide ToServerStep, ToClientStep, ConnectStep, Wire, DC.Silenced;
    var connect, claim := Connect(device, address, id), ClaimEvent(cfg, device, id, direction, other, payload);
    RunSnoc(cfg, before, connect);
    ConnectOpensChannels(Run(cfg, before), device, address, id);
    RunSnoc(cfg, before + [connect], claim);
    match direction
    case Upstream => ClaimAtServer(cfg, Run(cfg, before + [connect]), id, other, payload, []);
    case Downstream => ClaimAtClient(cfg, Run(cfg, before + [connect]), id, other, payload);
  }

  lemma RunSnoc(cfg: Config, events: seq<Event>, e: Event)
    ensures Run(cfg, events + [e]) == Step(cfg, Run(cfg, events), e)
  {
    assert (events + [e])[..|events|] == events;
  }

  /**
   After any run a device connects and one datagram nobody sealed claims the session's highest number. Then,
   whatever follows, that direction of the session yields nothing while fewer than 2^64 - 64 packets are sent.
   */
  lemma OneDatagramSilencesASession(cfg: Config, before: seq<Event>, device: string, address: Option<IPv4>, id: u64,
                                    direction: Direction, other: u64, payload: bytes, more: seq<Event>)
    requires |payload| <= MAX_PAYLOAD && id !in Run(cfg, before).issued
    requires id in Run(cfg, before + [Connect(device, address, id)]).issued
    requires
      var start := before + [Connect(device, address, id)] + [ClaimEvent(cfg, device, id, direction, other, payload)];
      var n, k := Run(cfg, start + more), Key(id, direction);
      WithinLimit(n) && (k in n.channels ==> FarFromTop(n, k))
    ensures
      var start := before + [Connect(device, address, id)] + [ClaimEvent(cfg, device, id, direction, other, payload)];
      var n, k := Run(cfg, start + more), Key(id, direction);
      k in n.channels && n.channels[k].outputs == []
  {
    hide Run, ClaimEvent, WithinLimit, FarFromTop;
    ClaimSilences(cfg, before, device, address, id, direction, other, payload);
    var start := before + [Connect(device, address, id)] + [ClaimEvent(cfg, device, id, direction, other, payload)];
    SilencedForever(cfg, start, more, Key(id, direction));
  }

  // ---------------------------------------------------------------- an honest network delivers

  predicate Sealable(c: DC.Channel, packet: bytes, ciphertext: bytes) {
    |ciphertext| == |packet| + DC.TAG_SIZE && |ciphertext| <= MAX_PAYLOAD && c.sends + 1 < DC.SEQUENCE_LIMIT
  }

  /** The datagram that carries the next data packet of a channel. */
  function NextDatagram(c: DC.Channel, source: u64, destination: u64, ciphertext: bytes): bytes
    requires |ciphertext| <= MAX_PAYLOAD
  {
    Wire(DC.NextPacket(c, TYPE_DATA, source, destination, ciphertext))
  }

  /** A packet sealed on a channel and delivered unchanged comes out, if its number is still fresh. */
  lemma SealedThenYielded(n: Net, k: Key, source: u64, destination: u64, packet: bytes, ciphertext: bytes, r: nat)
    requires r < |n.stage| && k in n.channels && DC.Inv(n.channels[k]) && Sealable(n.channels[k], packet, ciphertext)
    requires RW.Fresh(n.channels[k].history, n.channels[k].sends + 1)
    ensures
      var m := SealOn(n, k, source, destination, packet, ciphertext, r);
      var datagram := NextDatagram(n.channels[k], source, destination, ciphertext);
      Yielded(m, k, datagram) == Some(DC.Output(TYPE_DATA, n.channels[k].sends + 1, packet, Some(r)))
  {
    hide RW.Fresh, DC.Inv, DC.Deliver, Wire;
    var c := n.channels[k];
    var d := DC.Send(c, TYPE_DATA, source, destination, packet, ciphertext, Some(r));
    DC.SendKeepsInv(c, TYPE_DATA, source, destination, packet, ciphertext, Some(r));
    assert d.table[|c.table|].packet == DC.NextPacket(c, TYPE_DATA, source, destination, ciphertext);
    assert d.history == c.history && d.table[|c.table|].packet.sequence == c.sends + 1;
    DC.HonestDatagramIsYielded(d, |c.table|);
  }

  /** What two clients need for a packet to travel from the first to the second. */
  ghost predicate PathOpen(cfg: Config, n: Net, a: u64, b: u64, packet: bytes) {
    && a in n.issued && b in n.issued && b in n.reached
    && SizeOk(cfg, packet) && packet[0] / 16 == 4
    && Source(packet) == n.issued[a].address && Destination(packet) == n.issued[b].address
    && Destination(packet) in n.tables.peers && n.tables.peers[Destination(packet)] == Tunnel(n.issued[b])
    && n.issued[b].id == b
    && Key(a, Upstream) in n.channels && Key(b, Downstream) in n.channels
  }

  lemma ServerForwards(cfg: Config, n: Net, a: u64, b: u64, packet: bytes, datagram: bytes, ciphertext: bytes, r: nat)
    requires PathOpen(cfg, n, a, b, packet) && r < |n.stage|
    requires ParsePacket(datagram).Ok?
    requires var p := ParsePacket(datagram).value;
             p.kind == TYPE_DATA && p.sessionID == a && p.sourceID == cfg.hash(n.issued[a].device)
    requires Yielded(n, Key(a, Upstream), datagram).Some?
    requires var y := Yielded(n, Key(a, Upstream), datagram).value;
             y.kind == TYPE_DATA && y.plaintext == packet && y.origin == Some(r)
    ensures
      var m := DeliverOn(n, Key(a, Upstream), datagram);
      ToServerStep(cfg, n, datagram, ciphertext)
      == SealOn(m.(reached := m.reached + {a}), Key(b, Downstream), 0, cfg.hash(n.issued[b].device), packet,
                ciphertext, r)
  {
    hide ParsePacket, DC.Deliver, SealOn;
  }

  lemma ClientWrites(cfg: Config, n: Net, id: u64, datagram: bytes, packet: bytes, r: nat)
    requires id in n.issued && Key(id, Downstream) in n.channels && r < |n.stage|
    requires SizeOk(cfg, packet) && Destination(packet) == n.issued[id].address
    requires ParsePacket(datagram).Ok?
    requires var p := ParsePacket(datagram).value;
             p.kind == TYPE_DATA && p.sessionID == id && p.destinationID == cfg.hash(n.issued[id].device)
    requires Yielded(n, Key(id, Downstream), datagram).Some?
    requires var y := Yielded(n, Key(id, Downstream), datagram).value; y.plaintext == packet && y.origin == Some(r)
    ensures ToClientStep(cfg, n, id, datagram).writeLog
            == n.writeLog + [Write(ClientNode(n.issued[id].device), n.issued[id].address, packet, r)]
  {
    hide ParsePacket, DC.Deliver;
  }

  /**
   When nothing interferes, a packet read from one client's adapter is written to the other's: two sends,
   two deliveries and one write, whatever ciphertexts the AEAD produced.
   */
  lemma HonestPathDelivers(cfg: Config, n: Net, a: u64, b: u64, packet: bytes, up: bytes, down: bytes)
    requires Inv(cfg, n) && PathOpen(cfg, n, a, b, packet)
    requires Sealable(n.channels[Key(a, Upstream)], packet, up)
    requires Sealable(n.channels[Key(b, Downstream)], packet, down)
    requires RW.Fresh(n.channels[Key(a, Upstream)].history, n.channels[Key(a, Upstream)].sends + 1)
    requires RW.Fresh(n.channels[Key(b, Downstream)].history, n.channels[Key(b, Downstream)].sends + 1)
    ensures
      var toServer := NextDatagram(n.channels[Key(a, Upstream)], cfg.hash(n.issued[a].device), 0, up);
      var toClient := NextDatagram(n.channels[Key(b, Downstream)], 0, cfg.hash(n.issued[b].device), down);
      var n1 := Step(cfg, n, ClientRead(a, packet, up));
      var n2 := Step(cfg, n1, ToServer(toServer, down));
      Step(cfg, n2, ToClient(b, toClient)).writeLog
      == n.writeLog + [Write(ClientNode(n.issued[b].device), n.issued[b].address, packet, |n.readLog|)]
  {
    hide ParsePacket, Wire, DC.Deliver, DC.Send, DC.Inv, RW.Fresh, EntriesOk, TablesOk, WritesOk, ReadsOk, WrittenOnce;
    var r := |n.readLog|;
    var ka, kb := Key(a, Upstream), Key(b, Downstream);
    var sa, sb := n.issued[a], n.issued[b];
    var toServer := NextDatagram(n.channels[ka], cfg.hash(sa.device), 0, up);
    var toClient := NextDatagram(n.channels[kb], 0, cfg.hash(sb.device), down);
    var m := AddRead(n, ClientNode(sa.device), sa.address, packet);
    var n1 := Step(cfg, n, ClientRead(a, packet, up));
    assert n1 == SealOn(m, ka, cfg.hash(sa.device), 0, packet, up, r);
    SealedThenYielded(m, ka, cfg.hash(sa.device), 0, packet, up, r);
    ParseWire(DC.NextPacket(n.channels[ka], TYPE_DATA, cfg.hash(sa.device), 0, up));
    ServerForwards(cfg, n1, a, b, packet, toServer, down, r);
    var n2 := Step(cfg, n1, ToServer(toServer, down));
    var d := DeliverOn(n1, ka, toServer);
    var learned := d.(reached := d.reached + {a});
    assert learned.channels[kb] == n.channels[kb];
    assert n2 == SealOn(learned, kb, 0, cfg.hash(sb.device), packet, down, r);
    SealedThenYielded(learned, kb, 0, cfg.hash(sb.device), packet, down, r);
    ParseWire(DC.NextPacket(n.channels[kb], TYPE_DATA, 0, cfg.hash(sb.device), down));
    ClientWrites(cfg, n2, b, toClient, packet, r);
  }

  /** A read at a client's adapter is sealed on its upstream channel. */
  lemma ClientReadSeals(cfg: Config, n: Net, a: u64, packet: bytes, up: bytes)
    requires Inv(cfg, n) && a in n.issued && Key(a, Upstream) in n.channels && packet != []
    ensures
      var s := n.issued[a];
      ClientReadStep(cfg, n, a, packet, up)
      == SealOn(AddRead(n, ClientNode(s.device), s.address, packet), Key(a, Upstream), cfg.hash(s.device), 0, packet,
                up, |n.readLog|)
  {
    hide TablesOk, ChannelsOk, EntriesOk, ReadsOk, WritesOk, WrittenOnce, SealOn;
  }

  lemma ServerWrites(cfg: Config, n: Net, a: u64, packet: bytes, datagram: bytes, ciphertext: bytes, r: nat)
    requires a in n.issued && Key(a, Upstream) in n.channels && r < |n.stage|
    requires cfg.serverIP in n.tables.peers && n.tables.peers[cfg.serverIP] == Adapter
    requires SizeOk(cfg, packet) && packet[0] / 16 == 4
    requires Source(packet) == n.issued[a].address && Destination(packet) == cfg.serverIP
    requires ParsePacket(datagram).Ok?
    requires var p := ParsePacket(datagram).value;
             p.kind == TYPE_DATA && p.sessionID == a && p.sourceID == cfg.hash(n.issued[a].device)
    requires Yielded(n, Key(a, Upstream), datagram).Some?
    requires var y := Yielded(n, Key(a, Upstream), datagram).value;
             y.kind == TYPE_DATA && y.plaintext == packet && y.origin == Some(r)
    ensures
      var m := ToServerStep(cfg, n, datagram, ciphertext);
      m.writeLog == n.writeLog + [Write(ServerNode, cfg.serverIP, packet, r)] && a in m.reached
  {
    hide ParsePacket, DC.Deliver;
  }

  /** When nothing interferes, a packet read at a client for the server's address is written to the server's adapter. */
  lemma HonestPathToServer(cfg: Config, n: Net, a: u64, packet: bytes, up: bytes, ciphertext: bytes)
    requires Inv(cfg, n) && a in n.issued && Key(a, Upstream) in n.channels
    requires SizeOk(cfg, packet) && packet[0] / 16 == 4
    requires Source(packet) == n.issued[a].address && Destination(packet) == cfg.serverIP
    requires Sealable(n.channels[Key(a, Upstream)], packet, up)
    requires RW.Fresh(n.channels[Key(a, Upstream)].history, n.channels[Key(a, Upstream)].sends + 1)
    ensures
      var toServer := NextDatagram(n.channels[Key(a, Upstream)], cfg.hash(n.issued[a].device), 0, up);
      var m := Step(cfg, Step(cfg, n, ClientRead(a, packet, up)), ToServer(toServer, ciphertext));
      m.writeLog == n.writeLog + [Write(ServerNode, cfg.serverIP, packet, |n.readLog|)] && a in m.reached
  {
    hide ParsePacket, Wire, DC.Deliver, DC.Send, DC.Inv, RW.Fresh, EntriesOk, WritesOk, ReadsOk, WrittenOnce, Inverse;
    hide ClientReadStep, ToServerStep;
    var r, k, s := |n.readLog|, Key(a, Upstream), n.issued[a];
    var m := AddRead(n, ClientNode(s.device), s.address, packet);
    ClientReadSeals(cfg, n, a, packet, up);
    SealedThenYielded(m, k, cfg.hash(s.device), 0, packet, up, r);
    ParseWire(DC.NextPacket(n.channels[k], TYPE_DATA, cfg.hash(s.device), 0, up));
    var toServer := NextDatagram(n.channels[k], cfg.hash(s.device), 0, up);
    ServerWrites(cfg, SealOn(m, k, cfg.hash(s.device), 0, packet, up, r), a, packet, toServer, ciphertext, r);
  }

  /** When nothing interferes, a packet read at the server's adapter for a routed client heard of is written there. */
  lemma HonestPathFromServer(cfg: Config, n: Net, b: u64, packet: bytes, down: bytes)
    requires Inv(cfg, n) && b in n.issued && b in n.reached && n.issued[b].id == b && Key(b, Downstream) in n.channels
    requires SizeOk(cfg, packet) && packet[0] / 16 == 4
    requires Source(packet) == cfg.serverIP && Destination(packet) == n.issued[b].address
    requires Destination(packet) in n.tables.peers && n.tables.peers[Destination(packet)] == Tunnel(n.issued[b])
    requires Sealable(n.channels[Key(b, Downstream)], packet, down)
    requires RW.Fresh(n.channels[Key(b, Downstream)].history, n.channels[Key(b, Downstream)].sends + 1)
    ensures
      var toClient := NextDatagram(n.channels[Key(b, Downstream)], 0, cfg.hash(n.issued[b].device), down);
      Step(cfg, Step(cfg, n, ServerRead(packet, down)), ToClient(b, toClient)).writeLog
      == n.writeLog + [Write(ClientNode(n.issued[b].device), n.issued[b].address, packet, |n.readLog|)]
  {
    hide ParsePacket, Wire, DC.Deliver, DC.Send, DC.Inv, RW.Fresh, EntriesOk, TablesOk, WritesOk, ReadsOk, WrittenOnce;
    hide ToClientStep;
    var r, k, s := |n.readLog|, Key(b, Downstream), n.issued[b];
    var m := AddRead(n, ServerNode, cfg.serverIP, packet);
    assert Step(cfg, n, ServerRead(packet, down)) == SealOn(m, k, 0, cfg.hash(s.device), packet, down, r);
    SealedThenYielded(m, k, 0, cfg.hash(s.device), packet, down, r);
    ParseWire(DC.NextPacket(n.channels[k], TYPE_DATA, 0, cfg.hash(s.device), down));
    var toClient := NextDatagram(n.channels[k], 0, cfg.hash(s.device), down);
    ClientWrites(cfg, SealOn(m, k, 0, cfg.hash(s.device), packet, down, r), b, toClient, packet, r);
  }

  /** A keepalive that arrives lets the server learn where the client is, and writes nothing. */
  lemma KeepaliveOpensThePath(cfg: Config, n: Net, a: u64, up: bytes, ciphertext: bytes)
    requires Inv(cfg, n) && a in n.issued && Key(a, Upstream) in n.channels
    requires Sealable(n.channels[Key(a, Upstream)], [], up)
    requires RW.Fresh(n.channels[Key(a, Upstream)].history, n.channels[Key(a, Upstream)].sends + 1)
    ensures
      var c, s := n.channels[Key(a, Upstream)], n.issued[a];
      var toServer := Wire(DC.NextPacket(c, TYPE_KEEPALIVE, cfg.hash(s.device), 0, up));
      var m := Step(cfg, Step(cfg, n, ClientKeepalive(a, up)), ToServer(toServer, ciphertext));
      a in m.reached && m.reached == n.reached + {a} && m.writeLog == n.writeLog
  {
    hide ParsePacket, Wire, DC.Deliver, DC.Inv, RW.Fresh, EntriesOk, TablesOk, WritesOk, ReadsOk, WrittenOnce, Forward;
    var c, s := n.channels[Key(a, Upstream)], n.issued[a];
    var d := DC.Send(c, TYPE_KEEPALIVE, cfg.hash(s.device), 0, [], up, None);
    DC.SendKeepsInv(c, TYPE_KEEPALIVE, cfg.hash(s.device), 0, [], up, None);
    assert d.table[|c.table|].packet == DC.NextPacket(c, TYPE_KEEPALIVE, cfg.hash(s.device), 0, up);
    assert d.table[|c.table|].packet.sequence == c.sends + 1;
    DC.HonestDatagramIsYielded(d, |c.table|);
    ParseWire(DC.NextPacket(c, TYPE_KEEPALIVE, cfg.hash(s.device), 0, up));
  }

  // ---------------------------------------------------------------- what the receive loops ignore

  /** Datagrams of another type, of an unknown session or with another device's hash leave no trace at the server. */
  lemma ServerIgnores(cfg: Config, n: Net, datagram: bytes, ciphertext: bytes)
    requires
      match ParsePacket(datagram)
      case Err(_) => true
      case Ok(p) =>
        (p.kind != 5 && p.kind != 6) || p.sessionID !in n.issued || p.sourceID != cfg.hash(n.issued[p.sessionID].device)
    ensures ToServerStep(cfg, n, datagram, ciphertext) == n
  {
    hide ParsePacket;
  }

  lemma ClientIgnores(cfg: Config, n: Net, id: u64, datagram: bytes)
    requires
      match ParsePacket(datagram)
      case Err(_) => true
      case Ok(p) =>
        p.kind != 5 || p.sessionID != id || id !in n.issued || p.destinationID != cfg.hash(n.issued[id].device)
    ensures ToClientStep(cfg, n, id, datagram) == n
  {
    hide ParsePacket;
  }

  /** A packet that is not routed, or whose receiver has not been heard of, is lost: nothing is sealed or written. */
  lemma UnreachableIsLost(cfg: Config, n: Net, sender: IPv4, packet: bytes, ciphertext: bytes, r: nat)
    requires r < |n.stage|
    requires
      match Route(n.tables.peers, sender, packet)
      case Err(_) => true
      case Ok(Adapter) => false
      case Ok(Tunnel(s)) => s.id !in n.reached
    ensures Forward(cfg, n, sender, packet, ciphertext, r) == n.(stage := n.stage[r := Lost])
  {
  }

  /** What a receive loop writes has the length of an IPv4 header at least and the MTU at most. */
  lemma WritesFit(cfg: Config, n: Net, e: Event)
    requires e.ToServer? || e.ToClient?
    ensures
      var m := Step(cfg, n, e);
      && n.writeLog <= m.writeLog && |m.writeLog| <= |n.writeLog| + 1
      && (|m.writeLog| > |n.writeLog| ==> 20 <= |m.writeLog[|n.writeLog|].packet| <= cfg.mtu)
  {
    hide ParsePacket, DC.Deliver, DC.Send, Route;
  }
}
