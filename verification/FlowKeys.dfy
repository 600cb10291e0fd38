/** Traffic flow keys and the order of a snapshot's flow list (internal/routing/traffic.go). */
module FlowKeys {
  import opened Words
  import Sessions

  datatype Key = Key(
    source: string, destination: string, protocol: string, number: byte,
    hasPorts: bool, sourcePort: u16, destinationPort: u16,
    hasICMP: bool, icmpType: byte, icmpCode: byte)

  datatype Count = Count(bytes: nat, packets: nat)

  /** TrafficFlow without the rate. */
  datatype Flow = Flow(
    source: string, destination: string, protocol: string, number: byte,
    sourcePort: Option<u16>, destinationPort: Option<u16>, icmpType: Option<byte>, icmpCode: Option<byte>,
    count: Count)

  function FlowOf(k: Key, count: Count): Flow {
    Flow(k.source, k.destination, k.protocol, k.number,
         if k.hasPorts then Some(k.sourcePort) else None, if k.hasPorts then Some(k.destinationPort) else None,
         if k.hasICMP then Some(k.icmpType) else None, if k.hasICMP then Some(k.icmpCode) else None, count)
  }

  function ProtocolName(number: byte): string {
    if number == 1 then "icmp" else if number == 6 then "tcp" else if number == 17 then "udp" else "other"
  }

  function Decimal(n: byte): string {
    (if n >= 100 then [DigitChar(n / 100)] else [])
    + (if n >= 10 then [DigitChar(n / 10 % 10)] else []) + [DigitChar(n % 10)]
  }

  function DigitChar(d: nat): char
    requires d < 10
  {
    "0123456789"[d]
  }

  function Dotted(ip: bytes): string
    requires |ip| == 4
  {
    Decimal(ip[0]) + "." + Decimal(ip[1]) + "." + Decimal(ip[2]) + "." + Decimal(ip[3])
  }

  // ---------------------------------------------------------------- reading a dotted address

  /** The text between dots. */
  function Fields(s: string): (r: seq<string>)
    ensures |r| >= 1
  {
    if s == "" then [""]
    else
      var rest := Fields(s[1..]);
      if s[0] == '.' then [""] + rest else [[s[0]] + rest[0]] + rest[1..]
  }

  function DigitValue(c: char): Option<nat> {
    if '0' <= c <= '9' then Some(c as int - '0' as int) else None
  }

  /** The value of a decimal numeral without leading zeros. */
  function Numeral(s: string): Option<nat> {
    if s == "" || (|s| > 1 && s[0] == '0') then None
    else if |s| == 1 then DigitValue(s[0])
    else
      var high, low := Numeral(s[..|s| - 1]), DigitValue(s[|s| - 1]);
      if high.Some? && low.Some? then Some(10 * high.value + low.value) else None
  }

  predicate IsByte(v: Option<nat>) {
    v.Some? && v.value < 256
  }

  function ParseDotted(s: string): Option<bytes> {
    var f := Fields(s);
    if |f| != 4 then None
    else
      var a, b, c, d := Numeral(f[0]), Numeral(f[1]), Numeral(f[2]), Numeral(f[3]);
      if IsByte(a) && IsByte(b) && IsByte(c) && IsByte(d) then Some([a.value, b.value, c.value, d.value]) else None
  }

  lemma {:induction false} FieldsOfOne(a: string)
    requires '.' !in a
    ensures Fields(a) == [a]
  {
    if a != "" {
      FieldsOfOne(a[1..]);
      assert a == [a[0]] + a[1..];
    }
  }

  lemma {:induction false} FieldsJoin(a: string, b: string)
    requires '.' !in a
    ensures Fields(a + "." + b) == [a] + Fields(b)
  {
    if a == "" {
      assert a + "." + b == "." + b && ("." + b)[1..] == b;
    } else {
      FieldsJoin(a[1..], b);
      assert (a + "." + b)[1..] == a[1..] + "." + b && a == [a[0]] + a[1..];
    }
  }

  lemma DigitReadsBack(d: nat)
    requires d < 10
    ensures DigitValue(DigitChar(d)) == Some(d) && DigitChar(d) != '.' && (DigitChar(d) == '0' <==> d == 0)
  {
    if d == 0 {} else if d == 1 {} else if d == 2 {} else if d == 3 {} else if d == 4 {}
    else if d == 5 {} else if d == 6 {} else if d == 7 {} else if d == 8 {}
  }

  lemma NumeralOfTwo(a: nat, b: nat)
    requires 0 < a < 10 && b < 10
    ensures Numeral([DigitChar(a), DigitChar(b)]) == Some(10 * a + b)
  {
    hide DigitChar, DigitValue;
    DigitReadsBack(a);
    DigitReadsBack(b);
    assert [DigitChar(a), DigitChar(b)][..1] == [DigitChar(a)];
  }

  lemma NumeralOfThree(a: nat, b: nat, c: nat)
    requires 0 < a < 10 && b < 10 && c < 10
    ensures Numeral([DigitChar(a), DigitChar(b), DigitChar(c)]) == Some(100 * a + 10 * b + c)
  {
    hide DigitChar, DigitValue;
    DigitReadsBack(a);
    DigitReadsBack(c);
    NumeralOfTwo(a, b);
    assert [DigitChar(a), DigitChar(b), DigitChar(c)][..2] == [DigitChar(a), DigitChar(b)];
  }

  lemma DecimalReadsBack(n: byte)
    ensures Numeral(Decimal(n)) == Some(n) && '.' !in Decimal(n)
  {
    hide DigitChar, DigitValue, Numeral;
    DigitReadsBack(n / 100);
    DigitReadsBack(n / 10 % 10);
    DigitReadsBack(n % 10);
    if n >= 100 {
      assert Decimal(n) == [DigitChar(n / 100), DigitChar(n / 10 % 10), DigitChar(n % 10)];
      NumeralOfThree(n / 100, n / 10 % 10, n % 10);
    } else if n >= 10 {
      assert Decimal(n) == [DigitChar(n / 10 % 10), DigitChar(n % 10)];
      NumeralOfTwo(n / 10, n % 10);
    } else {
      assert Decimal(n) == [DigitChar(n)];
      NumeralOfOne(n);
    }
  }

  lemma NumeralOfOne(d: nat)
    requires d < 10
    ensures Numeral([DigitChar(d)]) == Some(d)
  {
    DigitReadsBack(d);
  }

  /** A separate reader of dotted addresses gives the four octets back, first octet first. */
  lemma DottedReadsBack(ip: bytes)
    requires |ip| == 4
    ensures ParseDotted(Dotted(ip)) == Some(ip)
  {
    hide Decimal, Numeral, Fields;
    var a, b, c, d := Decimal(ip[0]), Decimal(ip[1]), Decimal(ip[2]), Decimal(ip[3]);
    DecimalReadsBack(ip[0]);
    DecimalReadsBack(ip[1]);
    DecimalReadsBack(ip[2]);
    DecimalReadsBack(ip[3]);
    FieldsOfOne(d);
    FieldsJoin(c, d);
    FieldsJoin(b, c + "." + d);
    FieldsJoin(a, b + "." + (c + "." + d));
    assert Dotted(ip) == a + "." + (b + "." + (c + "." + d));
    assert Fields(Dotted(ip)) == [a, b, c, d];
    assert ip == [ip[0], ip[1], ip[2], ip[3]];
  }

  function TwoBytes(packet: bytes, at: nat): u16
    requires at + 2 <= |packet|
  {
    var high: nat, low: nat := packet[at], packet[at + 1];
    high * 256 + low
  }

  /** trafficKeyFromIPv4. The router accepts packets whose header length makes this fail; they are not counted. */
  function KeyFromIPv4(packet: bytes): (k: Option<Key>)
    ensures k.Some? ==> WellFormed(k.value)
  {
    if |packet| < 20 || packet[0] / 16 != 4 then None
    else
      var headerLength := packet[0] % 16 * 4;
      if headerLength < 20 || headerLength > |packet| then None
      else
        var number := packet[9];
        var plain := Key(Dotted(packet[12..16]), Dotted(packet[16..20]), ProtocolName(number), number,
                         false, 0, 0, false, 0, 0);
        var fragmentOffset := TwoBytes(packet, 6) % 0x2000;
        if fragmentOffset != 0 then Some(plain)
        else if (number == 6 || number == 17) && |packet| >= headerLength + 4 then
          Some(plain.(hasPorts := true, sourcePort := TwoBytes(packet, headerLength),
                      destinationPort := TwoBytes(packet, headerLength + 2)))
        else if number == 1 && |packet| >= headerLength + 2 then
          Some(plain.(hasICMP := true, icmpType := packet[headerLength], icmpCode := packet[headerLength + 1]))
        else Some(plain)
  }

  /** A routed packet goes uncounted exactly if its header length is below 20 or beyond its end. */
  lemma RoutedButUncounted(peers: map<Sessions.IPv4, Sessions.Peer>, sender: Sessions.IPv4, packet: bytes)
    requires Sessions.Route(peers, sender, packet).Ok?
    ensures KeyFromIPv4(packet).None? <==> packet[0] % 16 * 4 < 20 || packet[0] % 16 * 4 > |packet|
  {
  }

  /** ... which happens: the header length 16 of this packet is no obstacle to the router. */
  lemma ShortHeaderIsRouted(source: bytes, destination: bytes, peer: Sessions.Peer)
    requires |source| == 4 && |destination| == 4
    ensures
      var packet := [0x44, 0, 0, 0, 0, 0, 0, 0, 64, 6, 0, 0] + source + destination;
      Sessions.Route(map[destination := peer], source, packet).Ok? && KeyFromIPv4(packet).None?
  {
    var packet := [0x44, 0, 0, 0, 0, 0, 0, 0, 64, 6, 0, 0] + source + destination;
    assert packet[12..16] == source && packet[16..20] == destination;
  }

  // ---------------------------------------------------------------- building packets to read back

  /** An IPv4 header of ihl words without fragmentation, as section 3.1 of RFC 791 lays it out. */
  function IPv4Header(ihl: nat, number: byte, source: bytes, destination: bytes, options: bytes): (h: bytes)
    requires 5 <= ihl <= 15 && |source| == 4 && |destination| == 4 && |options| == 4 * (ihl - 5)
    ensures |h| == 4 * ihl
  {
    [64 + ihl, 0, 0, 0, 0, 0, 0, 0, 64, number, 0, 0] + source + destination + options
  }

  /** The key of a TCP or UDP packet reads back what the packet was built from, and so does its flow. */
  lemma PortsReadBack(ihl: nat, number: byte, source: bytes, destination: bytes, options: bytes,
                      sourcePort: u16, destinationPort: u16, rest: bytes, count: Count)
    requires 5 <= ihl <= 15 && |source| == 4 && |destination| == 4 && |options| == 4 * (ihl - 5)
    requires number == 6 || number == 17
    ensures
      var ports: bytes := [sourcePort / 256, sourcePort % 256, destinationPort / 256, destinationPort % 256];
      var k := KeyFromIPv4(IPv4Header(ihl, number, source, destination, options) + ports + rest);
      && k.Some? && ParseDotted(k.value.source) == Some(source) && ParseDotted(k.value.destination) == Some(destination)
      && FlowOf(k.value, count)
         == Flow(k.value.source, k.value.destination, if number == 6 then "tcp" else "udp", number,
                 Some(sourcePort), Some(destinationPort), None, None, count)
  {
    var ports: bytes := [sourcePort / 256, sourcePort % 256, destinationPort / 256, destinationPort % 256];
    var packet := IPv4Header(ihl, number, source, destination, options) + ports + rest;
    HeaderReadsBack(ihl, number, source, destination, options, ports + rest, packet);
    assert TwoBytes(packet, 4 * ihl) == sourcePort && TwoBytes(packet, 4 * ihl + 2) == destinationPort;
    DottedReadsBack(source);
    DottedReadsBack(destination);
    hide Dotted, ParseDotted;
  }

  /** The key of an ICMP packet reads back its type and code. */
  lemma IcmpReadsBack(ihl: nat, source: bytes, destination: bytes, options: bytes, kind: byte, code: byte, rest: bytes,
                      count: Count)
    requires 5 <= ihl <= 15 && |source| == 4 && |destination| == 4 && |options| == 4 * (ihl - 5)
    ensures
      var k := KeyFromIPv4(IPv4Header(ihl, 1, source, destination, options) + [kind, code] + rest);
      && k.Some? && ParseDotted(k.value.source) == Some(source) && ParseDotted(k.value.destination) == Some(destination)
      && FlowOf(k.value, count)
         == Flow(k.value.source, k.value.destination, "icmp", 1, None, None, Some(kind), Some(code), count)
  {
    var packet := IPv4Header(ihl, 1, source, destination, options) + [kind, code] + rest;
    HeaderReadsBack(ihl, 1, source, destination, options, [kind, code] + rest, packet);
    DottedReadsBack(source);
    DottedReadsBack(destination);
    hide Dotted, ParseDotted;
  }

  /** What any counted packet shows: its addresses, its protocol, and ports or ICMP fields only of a first fragment. */
  lemma KeyShows(packet: bytes)
    requires KeyFromIPv4(packet).Some?
    ensures
      var k, start := KeyFromIPv4(packet).value, packet[0] % 16 * 4;
      var first := packet[6] % 32 == 0 && packet[7] == 0;
      && ParseDotted(k.source) == Some(packet[12..16]) && ParseDotted(k.destination) == Some(packet[16..20])
      && k.number == packet[9]
      && k.protocol == (match k.number case 1 => "icmp" case 6 => "tcp" case 17 => "udp" case _ => "other")
      && (k.hasPorts <==> first && (k.number == 6 || k.number == 17) && start + 4 <= |packet|)
      && (k.hasICMP <==> first && k.number == 1 && start + 2 <= |packet|)
  {
    hide Dotted, ParseDotted, TwoBytes, ProtocolName;
    DottedReadsBack(packet[12..16]);
    DottedReadsBack(packet[16..20]);
    FirstFragment(packet);
    ProtocolNames(packet[9]);
  }

  lemma FirstFragment(packet: bytes)
    requires |packet| >= 20
    ensures TwoBytes(packet, 6) % 0x2000 == 0 <==> packet[6] % 32 == 0 && packet[7] == 0
  {
  }

  lemma ProtocolNames(number: byte)
    ensures ProtocolName(number) == match number case 1 => "icmp" case 6 => "tcp" case 17 => "udp" case _ => "other"
  {
  }

  lemma HeaderReadsBack(ihl: nat, number: byte, source: bytes, destination: bytes, options: bytes, body: bytes,
                        packet: bytes)
    requires 5 <= ihl <= 15 && |source| == 4 && |destination| == 4 && |options| == 4 * (ihl - 5)
    requires packet == IPv4Header(ihl, number, source, destination, options) + body
    ensures packet[0] / 16 == 4 && packet[0] % 16 == ihl && packet[9] == number && TwoBytes(packet, 6) == 0
    ensures packet[12..16] == source && packet[16..20] == destination && packet[4 * ihl..] == body
  {
  }

  /** The key of Observe, used for traffic without a parsed packet. */
  function PlainKey(source: string, destination: string): (k: Key)
    ensures WellFormed(k)
  {
    Key(source, destination, "other", 0, false, 0, 0, false, 0, 0)
  }

  /** What every key made by the code satisfies: the name follows the number, absent fields are zero. */
  predicate WellFormed(k: Key) {
    && k.protocol == ProtocolName(k.number)
    && (!k.hasPorts ==> k.sourcePort == 0 && k.destinationPort == 0)
    && (!k.hasICMP ==> k.icmpType == 0 && k.icmpCode == 0)
  }

  /** The keys the code observes: read from a packet, or plain. */
  ghost predicate Produced(k: Key) {
    || (exists packet :: KeyFromIPv4(packet) == Some(k))
    || k == PlainKey(k.source, k.destination)
  }

  lemma ProducedIsWellFormed(k: Key)
    requires Produced(k)
    ensures WellFormed(k)
  {
    if k != PlainKey(k.source, k.destination) {
      var packet :| KeyFromIPv4(packet) == Some(k);
    }
  }

  // ---------------------------------------------------------------- the comparator

  /** Byte-wise string comparison. */
  predicate Before(a: string, b: string) {
    b != "" && (a == "" || a[0] < b[0] || (a[0] == b[0] && Before(a[1..], b[1..])))
  }

  function ValueOr0(v: Option<nat>): nat {
    if v.Some? then v.value else 0
  }

  /** The less function given to sort.Slice. */
  predicate Less(l: Flow, r: Flow) {
    if l.source != r.source then Before(l.source, r.source)
    else if l.destination != r.destination then Before(l.destination, r.destination)
    else if l.number != r.number then l.number < r.number
    else if l.sourcePort.None? != r.sourcePort.None? then l.sourcePort.None?
    else if ValueOr0(l.sourcePort) != ValueOr0(r.sourcePort) then ValueOr0(l.sourcePort) < ValueOr0(r.sourcePort)
    else if l.destinationPort.None? != r.destinationPort.None? then l.destinationPort.None?
    else if ValueOr0(l.destinationPort) != ValueOr0(r.destinationPort)
      then ValueOr0(l.destinationPort) < ValueOr0(r.destinationPort)
    else if l.icmpType.None? != r.icmpType.None? then l.icmpType.None?
    else if ValueOr0(l.icmpType) != ValueOr0(r.icmpType) then ValueOr0(l.icmpType) < ValueOr0(r.icmpType)
    else if l.icmpCode.None? != r.icmpCode.None? then l.icmpCode.None?
    else ValueOr0(l.icmpCode) < ValueOr0(r.icmpCode)
  }

  lemma {:induction false} BeforeIsIrreflexive(a: string)
    ensures !Before(a, a)
  {
    if a != "" { BeforeIsIrreflexive(a[1..]); }
  }

  lemma {:induction false} BeforeIsStrict(a: string, b: string)
    ensures !(Before(a, b) && Before(b, a))
    ensures a != b <==> Before(a, b) || Before(b, a)
  {
    BeforeIsIrreflexive(a);
    if a != "" && b != "" {
      BeforeIsStrict(a[1..], b[1..]);
      assert a == [a[0]] + a[1..] && b == [b[0]] + b[1..];
    }
  }

  lemma {:induction false} BeforeIsTransitive(a: string, b: string, c: string)
    requires Before(a, b) && Before(b, c)
    ensures Before(a, c)
  {
    if a != "" && a[0] == b[0] == c[0] { BeforeIsTransitive(a[1..], b[1..], c[1..]); }
  }

  /** The comparator is a strict total order on the keys the code can produce. */
  lemma LessIsTotal(k: Key, j: Key, c: Count, d: Count)
    requires WellFormed(k) && WellFormed(j)
    ensures !(Less(FlowOf(k, c), FlowOf(j, d)) && Less(FlowOf(j, d), FlowOf(k, c)))
    ensures k != j <==> Less(FlowOf(k, c), FlowOf(j, d)) || Less(FlowOf(j, d), FlowOf(k, c))
  {
    BeforeIsStrict(k.source, j.source);
    BeforeIsStrict(k.destination, j.destination);
  }

  lemma LessIsTransitive(l: Flow, m: Flow, r: Flow)
    requires Less(l, m) && Less(m, r)
    ensures Less(l, r)
  {
    BeforeIsStrict(l.source, m.source);
    BeforeIsStrict(l.source, r.source);
    if l.source != m.source && m.source != r.source {
      BeforeIsTransitive(l.source, m.source, r.source);
    } else if l.source == m.source == r.source {
      BeforeIsStrict(l.destination, m.destination);
      BeforeIsStrict(l.destination, r.destination);
      if l.destination != m.destination && m.destination != r.destination {
        BeforeIsTransitive(l.destination, m.destination, r.destination);
      }
    }
  }

  /** The usual order of sequences: a proper prefix first, else the smaller element at the first difference. */
  ghost predicate Lex(a: seq<int>, b: seq<int>) {
    exists i :: 0 <= i <= |a| && i < |b| && a[..i] == b[..i] && (i == |a| || a[i] < b[i])
  }

  function Codes(s: string): seq<int> {
    seq(|s|, i requires 0 <= i < |s| => s[i] as int)
  }

  /** A missing value first, then by number. */
  function OptionRank(v: Option<nat>): int {
    if v.None? then 0 else v.value + 1
  }

  function Ranks(f: Flow): seq<int> {
    [f.number, OptionRank(f.sourcePort), OptionRank(f.destinationPort), OptionRank(f.icmpType), OptionRank(f.icmpCode)]
  }

  lemma LexDown(a: seq<int>, b: seq<int>)
    requires Lex(a, b)
    ensures b != [] && (a == [] || a[0] < b[0] || (a[0] == b[0] && Lex(a[1..], b[1..])))
  {
    var i :| 0 <= i <= |a| && i < |b| && a[..i] == b[..i] && (i == |a| || a[i] < b[i]);
    if i > 0 {
      assert a[0] == a[..i][0] && b[0] == b[..i][0];
      assert a[1..][..i - 1] == a[..i][1..] && b[1..][..i - 1] == b[..i][1..];
    }
  }

  lemma LexUp(a: seq<int>, b: seq<int>)
    requires a != [] && b != [] && a[0] == b[0] && Lex(a[1..], b[1..])
    ensures Lex(a, b)
  {
    var x, y := a[1..], b[1..];
    var i :| 0 <= i <= |x| && i < |y| && x[..i] == y[..i] && (i == |x| || x[i] < y[i]);
    assert a[..i + 1] == [a[0]] + x[..i] && b[..i + 1] == [b[0]] + y[..i];
  }

  lemma LexStep(a: seq<int>, b: seq<int>)
    ensures Lex(a, b) <==> b != [] && (a == [] || a[0] < b[0] || (a[0] == b[0] && Lex(a[1..], b[1..])))
  {
    if b != [] && (a == [] || a[0] < b[0]) {
      assert a[..0] == b[..0];
    } else {
      hide Lex;
      if Lex(a, b) { LexDown(a, b); }
      if b != [] && a[0] == b[0] && Lex(a[1..], b[1..]) { LexUp(a, b); }
    }
  }

  lemma {:induction false} BeforeIsLex(a: string, b: string)
    ensures Before(a, b) <==> Lex(Codes(a), Codes(b))
  {
    hide Lex;
    LexStep(Codes(a), Codes(b));
    if a != "" && b != "" {
      BeforeIsLex(a[1..], b[1..]);
      assert Codes(a)[1..] == Codes(a[1..]) && Codes(b)[1..] == Codes(b[1..]);
    }
  }

  lemma LexOfFive(a: seq<int>, b: seq<int>)
    requires |a| == |b| == 5
    ensures Lex(a, b) <==>
              || a[0] < b[0]
              || (a[0] == b[0] && (a[1] < b[1] || (a[1] == b[1] && (a[2] < b[2]
                  || (a[2] == b[2] && (a[3] < b[3] || (a[3] == b[3] && a[4] < b[4])))))))
  {
    hide Lex;
    LexStep(a, b);
    LexStep(a[1..], b[1..]);
    LexStep(a[1..][1..], b[1..][1..]);
    LexStep(a[1..][1..][1..], b[1..][1..][1..]);
    LexStep(a[1..][1..][1..][1..], b[1..][1..][1..][1..]);
    LexStep([], []);
    assert a[1..][1..][1..][1..][1..] == [] && b[1..][1..][1..][1..][1..] == [];
  }

  /** The comparator is the lexicographic order by source, destination, protocol number, ports and ICMP fields. */
  lemma LessIsLexicographic(l: Flow, r: Flow)
    ensures Less(l, r) <==>
              || Lex(Codes(l.source), Codes(r.source))
              || (l.source == r.source && Lex(Codes(l.destination), Codes(r.destination)))
              || (l.source == r.source && l.destination == r.destination && Lex(Ranks(l), Ranks(r)))
  {
    hide Lex;
    BeforeIsLex(l.source, r.source);
    BeforeIsLex(l.destination, r.destination);
    BeforeIsStrict(l.source, r.source);
    BeforeIsStrict(l.destination, r.destination);
    LexOfFive(Ranks(l), Ranks(r));
  }

  ghost predicate IsFlowOf(flows: map<Key, Count>, f: Flow) {
    exists k :: k in flows && f == FlowOf(k, flows[k])
  }

  /** A list of the flows of a map, in some order, each once. */
  ghost predicate Lists(flows: map<Key, Count>, xs: seq<Flow>) {
    && (forall i :: 0 <= i < |xs| ==> IsFlowOf(flows, xs[i]))
    && (forall k :: k in flows ==> FlowOf(k, flows[k]) in xs)
    && (forall i, j :: 0 <= i < j < |xs| ==> xs[i] != xs[j])
  }

  /** What sort.Slice guarantees. */
  ghost predicate Sorted(xs: seq<Flow>) {
    forall i, j :: 0 <= i < j < |xs| ==> !Less(xs[j], xs[i])
  }

  ghost predicate Increasing(xs: seq<Flow>) {
    forall i, j :: 0 <= i < j < |xs| ==> Less(xs[i], xs[j]) && !Less(xs[j], xs[i]) && xs[i] != xs[j]
  }

  lemma SortedListsIncrease(flows: map<Key, Count>, xs: seq<Flow>)
    requires forall k :: k in flows ==> WellFormed(k)
    requires Lists(flows, xs) && Sorted(xs)
    ensures Increasing(xs)
  {
    forall i, j | 0 <= i < j < |xs| ensures Less(xs[i], xs[j]) {
      assert IsFlowOf(flows, xs[i]) && IsFlowOf(flows, xs[j]);
      var k :| k in flows && xs[i] == FlowOf(k, flows[k]);
      var l :| l in flows && xs[j] == FlowOf(l, flows[l]);
      LessIsTotal(k, l, flows[k], flows[l]);
    }
  }

  lemma {:induction false} IncreasingListsAgree(xs: seq<Flow>, ys: seq<Flow>)
    requires Increasing(xs) && Increasing(ys)
    requires forall f :: f in xs <==> f in ys
    ensures xs == ys
  {
    assert xs != [] ==> xs[0] in ys;
    assert ys != [] ==> ys[0] in xs;
    if xs != [] {
      var i :| 0 <= i < |ys| && ys[i] == xs[0];
      var j :| 0 <= j < |xs| && xs[j] == ys[0];
      assert i == 0;
      forall f ensures f in xs[1..] <==> f in ys[1..] {
        assert xs == [xs[0]] + xs[1..] && ys == [ys[0]] + ys[1..];
        assert f in xs <==> f == xs[0] || f in xs[1..];
        assert f in ys <==> f == ys[0] || f in ys[1..];
      }
      IncreasingListsAgree(xs[1..], ys[1..]);
      assert xs == [xs[0]] + xs[1..] && ys == [ys[0]] + ys[1..];
    }
  }

  /** The sorted flow list does not depend on the order in which the map was walked. */
  lemma SortedListIsUnique(flows: map<Key, Count>, xs: seq<Flow>, ys: seq<Flow>)
    requires forall k :: k in flows ==> WellFormed(k)
    requires Lists(flows, xs) && Sorted(xs) && Lists(flows, ys) && Sorted(ys)
    ensures xs == ys
  {
    SortedListsIncrease(flows, xs);
    SortedListsIncrease(flows, ys);
    forall f ensures f in xs <==> f in ys {
      if f in xs {
        var i :| 0 <= i < |xs| && xs[i] == f;
        assert IsFlowOf(flows, xs[i]);
      }
      if f in ys {
        var i :| 0 <= i < |ys| && ys[i] == f;
        assert IsFlowOf(flows, ys[i]);
      }
    }
    IncreasingListsAgree(xs, ys);
  }
}
