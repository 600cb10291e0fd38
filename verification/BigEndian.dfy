/** Big-endian integers of any width, as encoding/binary writes and reads them. */
module BigEndian {
  import opened Words

  function Pow256(k: nat): (r: nat)
    ensures r > 0
  {
    if k == 0 then 1 else 256 * Pow256(k - 1)
  }

  function Encode(n: nat, width: nat): (s: bytes)
    ensures |s| == width
  {
    if width == 0 then [] else Encode(n / 256, width - 1) + [n % 256]
  }

  function Decode(s: bytes): nat {
    if s == [] then 0 else 256 * Decode(s[..|s| - 1]) + s[|s| - 1]
  }

  lemma {:induction false} DecodeBound(s: bytes)
    ensures Decode(s) < Pow256(|s|)
  {
    if s != [] { DecodeBound(s[..|s| - 1]); }
  }

  lemma {:induction false} DecodeEncode(n: nat, width: nat)
    requires n < Pow256(width)
    ensures Decode(Encode(n, width)) == n
  {
    if width > 0 {
      DecodeEncode(n / 256, width - 1);
      var s := Encode(n, width);
      assert s[..|s| - 1] == Encode(n / 256, width - 1);
    }
  }

  lemma {:induction false} EncodeDecode(s: bytes)
    ensures Encode(Decode(s), |s|) == s
  {
    if s != [] {
      EncodeDecode(s[..|s| - 1]);
      assert s == s[..|s| - 1] + [s[|s| - 1]];
    }
  }

  /** The first byte weighs most. */
  lemma {:induction false} FirstByteWeighsMost(s: bytes)
    requires s != []
    ensures Decode(s) == s[0] * Pow256(|s| - 1) + Decode(s[1..])
  {
    if |s| > 1 {
      var front := s[..|s| - 1];
      FirstByteWeighsMost(front);
      assert s[1..][..|s| - 2] == front[1..];
    }
  }

  lemma Widths()
    ensures Pow256(1) == 0x100 && Pow256(2) == 0x1_0000 && Pow256(4) == 0x1_0000_0000
    ensures Pow256(8) == 0x1_0000_0000_0000_0000
  {
    assert Pow256(3) == 0x100_0000;
    assert Pow256(6) == 0x1_0000_0000_0000;
  }

  /** PutUint16, PutUint32 and PutUint64: write a value into the given place of a buffer. */
  method Put(b: array<byte>, at: nat, width: nat, n: nat)
    requires at + width <= b.Length && n < Pow256(width)
    modifies b
    ensures b[..at + width] == old(b[..at]) + Encode(n, width)
    ensures b[at + width..] == old(b[at + width..])
  {
    var rest: nat, k: nat := n, width;
    while k > 0
      invariant 0 <= k <= width
      invariant rest < Pow256(k)
      invariant b[..at + k] == old(b[..at + k])
      invariant Encode(n, width) == Encode(rest, k) + b[at + k..at + width]
      invariant b[at + width..] == old(b[at + width..])
    {
      k := k - 1;
      ghost var tail := b[at + k + 1..at + width];
      b[at + k] := rest % 256;
      assert b[at + k + 1..at + width] == tail;
      assert b[at + k..at + width] == [rest % 256] + tail;
      assert Encode(rest, k + 1) == Encode(rest / 256, k) + [rest % 256];
      assert Encode(n, width) == Encode(rest / 256, k) + ([rest % 256] + tail);
      rest := rest / 256;
    }
    assert b[..at] == old(b[..at]);
    assert b[..at + width] == b[..at] + b[at..at + width];
  }
}
