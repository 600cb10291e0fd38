/** The bytes a device signs to report a command result (pkg/protocol/command.go). Go strings are byte strings. */
module SigningPayload {
  import opened Words
  import opened BigEndian

  const NONCE_SIZE := 32
  const MAX_FIELD := 65535

  // "tyxnet-command-result-v1"
  const DOMAIN: bytes := [0x74, 0x79, 0x78, 0x6E, 0x65, 0x74, 0x2D, 0x63, 0x6F, 0x6D, 0x6D, 0x61,
                          0x6E, 0x64, 0x2D, 0x72, 0x65, 0x73, 0x75, 0x6C, 0x74, 0x2D, 0x76, 0x31]

  datatype Report = Report(device: bytes, command: bytes, status: bytes, result: bytes, error: bytes)

  datatype PayloadError = InvalidProofFields | FieldTooLarge

  function Fields(r: Report): seq<bytes> {
    [r.device, r.command, r.status, r.result, r.error]
  }

  /** The reports that can be signed for a nonce. */
  predicate Signable(nonce: bytes, r: Report) {
    && |nonce| == NONCE_SIZE && r.device != [] && r.command != []
    && forall i :: 0 <= i < 5 ==> |Fields(r)[i]| <= MAX_FIELD
  }

  function Framed(field: bytes): bytes {
    BigEndian.Encode(|field|, 2) + field
  }

  /** Every field behind its own two-byte length. */
  function Prefixed(fields: seq<bytes>): bytes {
    if fields == [] then [] else Framed(fields[0]) + Prefixed(fields[1..])
  }

  lemma {:induction false} PrefixedAppend(fields: seq<bytes>, field: bytes)
    ensures Prefixed(fields + [field]) == Prefixed(fields) + Framed(field)
  {
    if fields == [] {
      assert (fields + [field])[1..] == [];
    } else {
      PrefixedAppend(fields[1..], field);
      assert (fields + [field])[1..] == fields[1..] + [field];
    }
  }

  function Payload(nonce: bytes, r: Report): bytes {
    DOMAIN + [0] + nonce + Prefixed(Fields(r))
  }

  /** The signed bytes and the reports that can be signed, spelled out. */
  lemma PayloadSpelledOut(nonce: bytes, r: Report)
    ensures Payload(nonce, r)
            == [0x74, 0x79, 0x78, 0x6E, 0x65, 0x74, 0x2D, 0x63, 0x6F, 0x6D, 0x6D, 0x61,
                0x6E, 0x64, 0x2D, 0x72, 0x65, 0x73, 0x75, 0x6C, 0x74, 0x2D, 0x76, 0x31, 0] + nonce
               + BigEndian.Encode(|r.device|, 2) + r.device + BigEndian.Encode(|r.command|, 2) + r.command
               + BigEndian.Encode(|r.status|, 2) + r.status + BigEndian.Encode(|r.result|, 2) + r.result
               + BigEndian.Encode(|r.error|, 2) + r.error
    ensures Signable(nonce, r) <==>
              && |nonce| == 32 && 0 < |r.device| <= 65535 && 0 < |r.command| <= 65535
              && |r.status| <= 65535 && |r.result| <= 65535 && |r.error| <= 65535
  {
    hide BigEndian.Encode;
    PrefixedSpelledOut(r);
    SignableFields(r);
    hide Prefixed, Framed;
    var x := DOMAIN + [0] + nonce;
    FiveRegrouped(x, r);
  }

  /** One framed field after another. */
  lemma PrefixedSpelledOut(r: Report)
    ensures Prefixed(Fields(r))
            == Framed(r.device) + Framed(r.command) + Framed(r.status) + Framed(r.result) + Framed(r.error)
  {
    hide Framed;
    assert Prefixed([r.device]) == Framed(r.device) by {
      PrefixedAppend([], r.device);
      assert [] + [r.device] == [r.device];
    }
    PrefixedAppend([r.device], r.command);
    PrefixedAppend([r.device, r.command], r.status);
    PrefixedAppend([r.device, r.command, r.status], r.result);
    PrefixedAppend([r.device, r.command, r.status, r.result], r.error);
    assert [r.device] + [r.command] == [r.device, r.command];
    assert [r.device, r.command] + [r.status] == [r.device, r.command, r.status];
    assert [r.device, r.command, r.status] + [r.result] == [r.device, r.command, r.status, r.result];
    assert [r.device, r.command, r.status, r.result] + [r.error] == Fields(r);
  }

  lemma Regrouped(x: bytes, y: bytes, field: bytes)
    ensures x + (y + Framed(field)) == x + y + BigEndian.Encode(|field|, 2) + field
  {
    hide BigEndian.Encode;
  }

  lemma FiveRegrouped(x: bytes, r: Report)
    ensures x + (Framed(r.device) + Framed(r.command) + Framed(r.status) + Framed(r.result) + Framed(r.error))
            == x + BigEndian.Encode(|r.device|, 2) + r.device + BigEndian.Encode(|r.command|, 2) + r.command
               + BigEndian.Encode(|r.status|, 2) + r.status + BigEndian.Encode(|r.result|, 2) + r.result
               + BigEndian.Encode(|r.error|, 2) + r.error
  {
    hide BigEndian.Encode, Framed;
    var a, b := Framed(r.device), Framed(r.command);
    var c, d := Framed(r.status), Framed(r.result);
    Regrouped(x, a + b + c + d, r.error);
    Regrouped(x, a + b + c, r.result);
    Regrouped(x, a + b, r.status);
    Regrouped(x, a, r.command);
    Regrouped(x, [], r.device);
    assert [] + a == a && x + [] == x;
  }

  lemma SignableFields(r: Report)
    ensures (forall i :: 0 <= i < 5 ==> |Fields(r)[i]| <= MAX_FIELD) <==>
              && |r.device| <= 65535 && |r.command| <= 65535 && |r.status| <= 65535 && |r.result| <= 65535
              && |r.error| <= 65535
  {
    var f := Fields(r);
    assert f[0] == r.device && f[1] == r.command && f[2] == r.status && f[3] == r.result && f[4] == r.error;
  }

  method CommandResultSigningPayload(nonce: bytes, r: Report) returns (payload: Result<bytes, PayloadError>)
    ensures payload.Ok? <==> Signable(nonce, r)
    ensures payload.Ok? ==> payload.value == Payload(nonce, r)
    ensures payload == Err(InvalidProofFields) <==> |nonce| != NONCE_SIZE || r.device == [] || r.command == []
  {
    if |nonce| != NONCE_SIZE || r.device == [] || r.command == [] {
      return Err(InvalidProofFields);
    }
    var buffer := DOMAIN;
    buffer := buffer + [0];
    buffer := buffer + nonce;
    var fields := Fields(r);
    for i := 0 to |fields|
      invariant buffer == DOMAIN + [0] + nonce + Prefixed(fields[..i])
      invariant forall k :: 0 <= k < i ==> |fields[k]| <= MAX_FIELD
    {
      if |fields[i]| > MAX_FIELD {
        return Err(FieldTooLarge);
      }
      PrefixedAppend(fields[..i], fields[i]);
      assert fields[..i + 1] == fields[..i] + [fields[i]];
      buffer := buffer + BigEndian.Encode(|fields[i]|, 2);
      buffer := buffer + fields[i];
    }
    assert fields[..|fields|] == fields;
    return Ok(buffer);
  }

  /** Length prefixes make a concatenation readable from the front. */
  lemma FirstFieldAgrees(a: bytes, b: bytes, x: bytes, y: bytes)
    requires |a| <= MAX_FIELD && |b| <= MAX_FIELD
    requires Framed(a) + x == Framed(b) + y
    ensures a == b && x == y
  {
    var s := Framed(a) + x;
    assert s[..2] == BigEndian.Encode(|a|, 2) == BigEndian.Encode(|b|, 2);
    Widths();
    DecodeEncode(|a|, 2);
    DecodeEncode(|b|, 2);
    assert s[2..2 + |a|] == a == b;
    assert s[2 + |a|..] == x == y;
  }

  lemma {:induction false} PrefixedInjective(f: seq<bytes>, g: seq<bytes>)
    requires |f| == |g|
    requires forall i :: 0 <= i < |f| ==> |f[i]| <= MAX_FIELD && |g[i]| <= MAX_FIELD
    requires Prefixed(f) == Prefixed(g)
    ensures f == g
  {
    if f != [] {
      FirstFieldAgrees(f[0], g[0], Prefixed(f[1..]), Prefixed(g[1..]));
      PrefixedInjective(f[1..], g[1..]);
      assert f == [f[0]] + f[1..] && g == [g[0]] + g[1..];
    }
  }

  /** A signed payload determines the nonce and all five fields. */
  lemma PayloadInjective(n: bytes, r: Report, m: bytes, q: Report)
    requires Signable(n, r) && Signable(m, q)
    requires Payload(n, r) == Payload(m, q)
    ensures n == m && r == q
  {
    var s := Payload(n, r);
    assert s[25..57] == n == m;
    assert s[57..] == Prefixed(Fields(r)) == Prefixed(Fields(q));
    PrefixedInjective(Fields(r), Fields(q));
    assert Fields(r)[0] == Fields(q)[0] && Fields(r)[1] == Fields(q)[1] && Fields(r)[2] == Fields(q)[2]
           && Fields(r)[3] == Fields(q)[3] && Fields(r)[4] == Fields(q)[4];
  }

  /** A result payload is never 32 bytes long, so it is never a connect challenge. */
  lemma PayloadIsNoNonce(n: bytes, r: Report)
    requires Signable(n, r)
    ensures |Payload(n, r)| > NONCE_SIZE
  {
  }
}
