/** The wire format of the encrypted data plane (pkg/protocol/packet.go). */
module PacketCodec {
  import opened Words
  import opened BigEndian

  const VERSION: byte := 1
  const HEADER_SIZE := 46
  const MAX_PAYLOAD := 65535
  const MAGIC: bytes := [0x54, 0x59, 0x58, 0x4E] // "TYXN"

  const TYPE_DATA: byte := 5
  const TYPE_KEEPALIVE: byte := 6

  datatype Packet = Packet(
    kind: byte,
    flags: u16,
    networkID: u32,
    sessionID: u64,
    sourceID: u64,
    destinationID: u64,
    sequence: u64,
    payload: bytes)

  datatype ParseError = ShortPacket | InvalidMagic | UnsupportedVersion(version: byte) | InvalidPayloadLength

  datatype MarshalError = PayloadExceedsMaximum

  /** The 46 header bytes of a packet. */
  function Header(p: Packet): (h: bytes)
    requires |p.payload| <= MAX_PAYLOAD
    ensures |h| == HEADER_SIZE
  {
    MAGIC + [VERSION] + [p.kind] + BigEndian.Encode(p.flags, 2) + BigEndian.Encode(p.networkID, 4)
    + BigEndian.Encode(p.sessionID, 8) + BigEndian.Encode(p.sourceID, 8) + BigEndian.Encode(p.destinationID, 8)
    + BigEndian.Encode(p.sequence, 8) + BigEndian.Encode(|p.payload|, 2)
  }

  function Wire(p: Packet): (b: bytes)
    requires |p.payload| <= MAX_PAYLOAD
    ensures |b| == HEADER_SIZE + |p.payload|
  {
    Header(p) + p.payload
  }

  function Field(b: bytes, from: nat, width: nat): (n: nat)
    requires from + width <= |b|
    ensures n < Pow256(width)
  {
    DecodeBound(b[from..from + width]);
    BigEndian.Decode(b[from..from + width])
  }

  function ParsePacket(b: bytes): (r: Result<Packet, ParseError>)
    ensures r.Ok? ==> |b| == HEADER_SIZE + |r.value.payload| && |r.value.payload| <= MAX_PAYLOAD
  {
    if |b| < HEADER_SIZE then Err(ShortPacket)
    else if b[..4] != MAGIC then Err(InvalidMagic)
    else if b[4] != VERSION then Err(UnsupportedVersion(b[4]))
    else
      Widths();
      var n := Field(b, 44, 2);
      if n > MAX_PAYLOAD || |b| != HEADER_SIZE + n then Err(InvalidPayloadLength)
      else
        Ok(Packet(b[5], Field(b, 6, 2), Field(b, 8, 4), Field(b, 12, 8), Field(b, 20, 8), Field(b, 28, 8),
                  Field(b, 36, 8), b[46..]))
  }

  method PutHeader(b: array<byte>, p: Packet)
    requires b.Length == HEADER_SIZE + |p.payload| && |p.payload| <= MAX_PAYLOAD
    modifies b
    ensures b[..HEADER_SIZE] == Header(p)
  {
    Widths();
    b[0], b[1], b[2], b[3] := MAGIC[0], MAGIC[1], MAGIC[2], MAGIC[3];
    b[4] := VERSION;
    b[5] := p.kind;
    ghost var header := MAGIC + [VERSION] + [p.kind];
    assert b[..6] == header;
    Put(b, 6, 2, p.flags);
    header := header + BigEndian.Encode(p.flags, 2);
    Put(b, 8, 4, p.networkID);
    header := header + BigEndian.Encode(p.networkID, 4);
    Put(b, 12, 8, p.sessionID);
    header := header + BigEndian.Encode(p.sessionID, 8);
    Put(b, 20, 8, p.sourceID);
    header := header + BigEndian.Encode(p.sourceID, 8);
    Put(b, 28, 8, p.destinationID);
    header := header + BigEndian.Encode(p.destinationID, 8);
    Put(b, 36, 8, p.sequence);
    header := header + BigEndian.Encode(p.sequence, 8);
    Put(b, 44, 2, |p.payload|);
    header := header + BigEndian.Encode(|p.payload|, 2);
  }

  /** MarshalBinary fills a buffer field by field. */
  method MarshalBinary(p: Packet) returns (r: Result<bytes, MarshalError>)
    ensures r == if |p.payload| > MAX_PAYLOAD then Err(PayloadExceedsMaximum) else Ok(Wire(p))
  {
    if |p.payload| > MAX_PAYLOAD {
      return Err(PayloadExceedsMaximum);
    }
    var b := new byte[HEADER_SIZE + |p.payload|](_ => 0);
    PutHeader(b, p);
    ghost var header := b[..HEADER_SIZE];
    forall i | 0 <= i < |p.payload| {
      b[HEADER_SIZE + i] := p.payload[i];
    }
    assert b[..HEADER_SIZE] == header;
    assert b[HEADER_SIZE..] == p.payload;
    assert b[..] == b[..HEADER_SIZE] + b[HEADER_SIZE..];
    return Ok(b[..]);
  }

  /** Where each header field sits. */
  lemma HeaderLayout(p: Packet)
    requires |p.payload| <= MAX_PAYLOAD
    ensures
      var b := Wire(p);
      && |b| == 46 + |p.payload|
      && b[0] == 0x54 && b[1] == 0x59 && b[2] == 0x58 && b[3] == 0x4E && b[4] == 1 && b[5] == p.kind
      && b[6..8] == BigEndian.Encode(p.flags, 2) && b[8..12] == BigEndian.Encode(p.networkID, 4)
      && b[12..20] == BigEndian.Encode(p.sessionID, 8) && b[20..28] == BigEndian.Encode(p.sourceID, 8)
      && b[28..36] == BigEndian.Encode(p.destinationID, 8) && b[36..44] == BigEndian.Encode(p.sequence, 8)
      && b[44..46] == BigEndian.Encode(|p.payload|, 2) && b[46..] == p.payload
  {
  }

  /** Parsing what was marshalled gives the packet back. */
  lemma ParseWire(p: Packet)
    requires |p.payload| <= MAX_PAYLOAD
    ensures ParsePacket(Wire(p)) == Ok(p)
  {
    HeaderLayout(p);
    Widths();
    DecodeEncode(p.flags, 2);
    DecodeEncode(p.networkID, 4);
    DecodeEncode(p.sessionID, 8);
    DecodeEncode(p.sourceID, 8);
    DecodeEncode(p.destinationID, 8);
    DecodeEncode(p.sequence, 8);
    DecodeEncode(|p.payload|, 2);
  }

  /** Every accepted byte string is the encoding of what it parses to, byte for byte. */
  lemma WireParse(b: bytes)
    requires ParsePacket(b).Ok?
    ensures Wire(ParsePacket(b).value) == b
  {
    hide BigEndian.Encode, BigEndian.Decode;
    var p := ParsePacket(b).value;
    assert Field(b, 44, 2) == |p.payload|;
    FieldEncodes(b, 6, 2);
    FieldEncodes(b, 8, 4);
    FieldEncodes(b, 12, 8);
    FieldEncodes(b, 20, 8);
    FieldEncodes(b, 28, 8);
    FieldEncodes(b, 36, 8);
    FieldEncodes(b, 44, 2);
    Pieces(b);
  }

  lemma FieldEncodes(b: bytes, from: nat, width: nat)
    requires from + width <= |b|
    ensures BigEndian.Encode(Field(b, from, width), width) == b[from..from + width]
  {
    EncodeDecode(b[from..from + width]);
  }

  /** A byte string cut at the field boundaries. */
  lemma Pieces(b: bytes)
    requires |b| >= HEADER_SIZE
    ensures b == b[..4] + [b[4]] + [b[5]] + b[6..8] + b[8..12] + b[12..20] + b[20..28] + b[28..36] + b[36..44]
                 + b[44..46] + b[46..]
  {
  }

  /** Why a byte string is refused, in the order of the checks. */
  lemma RefusesInOrder(b: bytes)
    ensures
      var magic := |b| >= 4 && b[0] == 0x54 && b[1] == 0x59 && b[2] == 0x58 && b[3] == 0x4E;
      match ParsePacket(b)
      case Ok(p) => |b| == 46 + |p.payload| && magic && b[4] == 1
      case Err(ShortPacket) => |b| < 46
      case Err(InvalidMagic) => |b| >= 46 && !magic
      case Err(UnsupportedVersion(v)) => |b| >= 46 && magic && b[4] == v && v != 1
      case Err(InvalidPayloadLength) => |b| >= 46 && magic && b[4] == 1 && |b| != 46 + (b[44] as nat) * 256 + b[45]
  {
    if |b| >= 46 {
      LengthField(b);
      assert b[..4] == [b[0], b[1], b[2], b[3]];
      hide Field;
    }
  }

  lemma LengthField(b: bytes)
    requires |b| >= 46
    ensures Field(b, 44, 2) == (b[44] as nat) * 256 + b[45]
  {
    var s := b[44..46];
    assert s[..1][..0] == [] && s[..1] == [b[44]];
    assert BigEndian.Decode(s[..1]) == b[44];
  }

  /** ParsePacket accepts exactly the encodings. */
  lemma AcceptsExactlyEncodings(b: bytes)
    ensures ParsePacket(b).Ok? <==> exists p: Packet :: |p.payload| <= MAX_PAYLOAD && b == Wire(p)
  {
    if ParsePacket(b).Ok? {
      WireParse(b);
    }
    forall p: Packet | |p.payload| <= MAX_PAYLOAD && b == Wire(p) ensures ParsePacket(b).Ok? {
      ParseWire(p);
    }
  }

  /** Two packets with the same header agree in everything but the payload bytes. */
  lemma HeaderDetermines(p: Packet, q: Packet)
    requires |p.payload| <= MAX_PAYLOAD && |q.payload| <= MAX_PAYLOAD
    requires Header(p) == Header(q)
    ensures |p.payload| == |q.payload| && p == q.(payload := p.payload)
  {
    HeaderLayout(p);
    HeaderLayout(q);
    var b, c := Wire(p), Wire(q);
    assert b[..46] == c[..46];
    forall i, j | 0 <= i <= j <= 46 ensures b[i..j] == c[i..j] {
      assert b[i..j] == b[..46][i..j] && c[i..j] == c[..46][i..j];
    }
    ParseWire(p);
    ParseWire(q);
    Widths();
    DecodeEncode(|p.payload|, 2);
    DecodeEncode(|q.payload|, 2);
  }
}
