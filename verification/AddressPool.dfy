/** IPv4 addresses of the virtual network: inc and nextIP (internal/storage/store.go). */
module AddressPool {
  import opened Words
  import opened BigEndian
  import opened Bits

  const SPACE := 0x1_0000_0000
  const MAX_STEPS := 0x10_0000 // 1 << 20

  /** The big-endian number one above, wrapping around at the top. */
  function Successor(s: bytes): nat {
    if BigEndian.Decode(s) + 1 == Pow256(|s|) then 0 else BigEndian.Decode(s) + 1
  }

  /** For the four bytes of an address that is addition modulo 2^32. */
  lemma SuccessorOfAddress(s: bytes)
    requires |s| == 4
    ensures Successor(s) == (BigEndian.Decode(s) + 1) % SPACE
  {
    Widths();
    DecodeBound(s);
  }

  /** inc: add one to a big-endian byte string in place, carrying from the last byte. */
  method Inc(ip: array<byte>)
    modifies ip
    ensures BigEndian.Decode(ip[..]) == Successor(old(ip[..]))
  {
    var j := ip.Length;
    ghost var was := ip[..];
    while j > 0
      invariant 0 <= j <= ip.Length
      invariant ip[..j] == was[..j]
      invariant forall k :: j <= k < ip.Length ==> was[k] == 255 && ip[k] == 0
      decreases j
    {
      j := j - 1;
      assert ip[j] == was[j];
      var value: nat := ip[j];
      ip[j] := (value + 1) % 256;
      if ip[j] != 0 {
        assert ip[..][..j] == was[..j];
        PrefixPlusOne(was, j, ip[..]);
        DecodeBound(ip[..]);
        return;
      }
    }
    AllOnes(was, ip[..]);
  }

  lemma {:induction false} PrefixPlusOne(was: bytes, j: nat, now: bytes)
    requires |now| == |was| && j < |was|
    requires now[..j] == was[..j] && was[j] < 255 && now[j] == was[j] + 1
    requires forall k :: j < k < |was| ==> was[k] == 255 && now[k] == 0
    ensures BigEndian.Decode(now) == BigEndian.Decode(was) + 1
  {
    var n := |was| - 1;
    if j == n {
      assert now[..n] == was[..n];
    } else {
      assert now[..n][..j] == now[..j] && was[..n][..j] == was[..j];
      PrefixPlusOne(was[..n], j, now[..n]);
    }
  }

  lemma {:induction false} AllOnes(was: bytes, now: bytes)
    requires |now| == |was|
    requires forall k :: 0 <= k < |was| ==> was[k] == 255 && now[k] == 0
    ensures BigEndian.Decode(was) + 1 == Pow256(|was|) && BigEndian.Decode(now) == 0
  {
    if was != [] { AllOnes(was[..|was| - 1], now[..|was| - 1]); }
  }

  // ---------------------------------------------------------------- the network

  /** How many addresses a prefix leaves. */
  function Size(prefix: nat): (r: nat)
    requires prefix <= 32
    ensures r > 0
  {
    Pow2(32 - prefix)
  }

  /** IPNet.Contains: the masked address equals the masked base. */
  predicate Contains(base: u32, prefix: nat, a: u32)
    requires prefix <= 32
  {
    a / Size(prefix) == base / Size(prefix)
  }

  /** The masked address, which is the base itself when that is aligned. */
  function NetworkOf(base: u32, prefix: nat): int
    requires prefix <= 32
  {
    base - base % Size(prefix)
  }

  /** The end of the network, one past its broadcast address. */
  function End(base: u32, prefix: nat): int
    requires prefix <= 32
  {
    NetworkOf(base, prefix) + Size(prefix)
  }

  /** All host bits set. */
  function Broadcast(base: u32, prefix: nat): int
    requires prefix <= 32
  {
    End(base, prefix) - 1
  }

  predicate Free(used: set<u32>, a: u32) {
    a % 256 != 255 && a !in used
  }

  /** The address looked at in the i-th turn of the loop. */
  function Candidate(base: u32, i: nat): u32 {
    Above(base, i + 2)
  }

  /** n addresses further, wrapping around at the top of the address space. */
  function Above(base: u32, n: nat): u32 {
    (base + n) % SPACE
  }

  lemma AboveNext(base: u32, n: nat)
    ensures (Above(base, n) + 1) % SPACE == Above(base, n + 1)
  {
  }

  /** The first i candidates are inside the network and none of them is free. */
  ghost predicate Passed(base: u32, prefix: nat, used: set<u32>, i: nat)
    requires prefix <= 32
  {
    forall k :: 0 <= k < i ==> Contains(base, prefix, Candidate(base, k)) && !Free(used, Candidate(base, k))
  }

  /** The search ends in turn i with result r; base is the address as written, not the masked one. */
  ghost predicate FoundAt(base: u32, prefix: nat, used: set<u32>, i: nat, r: Option<u32>)
    requires prefix <= 32
  {
    && i <= MAX_STEPS && Passed(base, prefix, used, i)
    && match r
       case Some(a) => i < MAX_STEPS && a == Candidate(base, i) && Contains(base, prefix, a) && Free(used, a)
       case None => i == MAX_STEPS || !Contains(base, prefix, Candidate(base, i))
  }

  /** What the search returns, for every CIDR. */
  ghost predicate Finds(base: u32, prefix: nat, used: set<u32>, r: Option<u32>)
    requires prefix <= 32
  {
    exists i: nat :: FoundAt(base, prefix, used, i, r)
  }

  lemma FindsOne(base: u32, prefix: nat, used: set<u32>, r: Option<u32>, s: Option<u32>)
    requires prefix <= 32 && Finds(base, prefix, used, r) && Finds(base, prefix, used, s)
    ensures r == s
  {
    hide Contains, Free, Candidate;
    var i: nat :| FoundAt(base, prefix, used, i, r);
    var j: nat :| FoundAt(base, prefix, used, j, s);
  }

  function AsBytes(a: u32): bytes {
    BigEndian.Encode(a, 4)
  }

  method NextIP(base: u32, prefix: nat, used: set<u32>) returns (r: Option<u32>)
    requires prefix <= 32
    ensures Finds(base, prefix, used, r)
    ensures First(base, prefix, used, r)
    ensures prefix >= 12 ==> Least(base, prefix, used, r)
  {
    hide Contains, Free, Above, BigEndian.Decode;
    var ip := FromAddress(base);
    AboveNothing(base);
    NextAddress(ip); // Reserve network+1 for the TyxNet server.
    AboveNext(base, 0);
    for step := 0 to MAX_STEPS
      invariant ip.Length == 4 && BigEndian.Decode(ip[..]) == Above(base, step + 1)
      invariant Passed(base, prefix, used, step)
    {
      AboveNext(base, step + 1);
      NextAddress(ip);
      var a := AddressOf(ip);
      assert a == Candidate(base, step);
      if !Contains(base, prefix, a) {
        assert FoundAt(base, prefix, used, step, None);
        Promise(base, prefix, used, None);
        return None;
      }
      IsFree(used, ip[..], a);
      if ip[3] == 255 {
        continue;
      }
      if a !in used {
        assert FoundAt(base, prefix, used, step, Some(a));
        Promise(base, prefix, used, Some(a));
        return Some(a);
      }
    }
    assert FoundAt(base, prefix, used, MAX_STEPS, None);
    Promise(base, prefix, used, None);
    return None;
  }

  lemma Promise(base: u32, prefix: nat, used: set<u32>, r: Option<u32>)
    requires prefix <= 32 && Finds(base, prefix, used, r)
    ensures First(base, prefix, used, r)
    ensures prefix >= 12 ==> Least(base, prefix, used, r)
  {
    hide Finds, Least, First;
    FirstInWalk(base, prefix, used, r);
    if prefix >= 12 { LeastAssignable(base, prefix, used, r); }
  }

  lemma AboveNothing(base: u32)
    ensures Above(base, 0) == base
  {
  }

  method FromAddress(a: u32) returns (ip: array<byte>)
    ensures fresh(ip) && ip.Length == 4 && BigEndian.Decode(ip[..]) == a
  {
    var s := AsBytes(a);
    ip := new byte[4](k requires 0 <= k < 4 => s[k]);
    assert ip[..] == s;
    Widths();
    DecodeEncode(a, 4);
  }

  method NextAddress(ip: array<byte>)
    requires ip.Length == 4
    modifies ip
    ensures BigEndian.Decode(ip[..]) == (BigEndian.Decode(old(ip[..])) + 1) % SPACE
  {
    SuccessorOfAddress(ip[..]);
    Inc(ip);
  }

  method AddressOf(ip: array<byte>) returns (a: u32)
    requires ip.Length == 4
    ensures a == BigEndian.Decode(ip[..])
  {
    Widths();
    DecodeBound(ip[..]);
    a := BigEndian.Decode(ip[..]);
  }

  lemma IsFree(used: set<u32>, s: bytes, a: u32)
    requires |s| == 4 && a == BigEndian.Decode(s)
    ensures Free(used, a) <==> s[3] != 255 && a !in used
  {
    LastOctet(s);
  }

  lemma LastOctet(s: bytes)
    requires |s| == 4
    ensures BigEndian.Decode(s) % 256 == s[3]
  {
  }

  // ---------------------------------------------------------------- the walk of the search

  /** How many turns of the loop come before the one that looks at an address. */
  function Steps(base: u32, a: u32): nat {
    (a - base - 2) % SPACE
  }

  /** The search gets to this address if it finds nothing before. */
  predicate Walks(base: u32, prefix: nat, a: u32)
    requires prefix <= 32
  {
    Steps(base, a) < MAX_STEPS && Contains(base, prefix, a)
  }

  /** The first free address on the walk, or none when there is none. */
  ghost predicate First(base: u32, prefix: nat, used: set<u32>, r: Option<u32>)
    requires prefix <= 32
  {
    match r
    case Some(best) =>
      && Walks(base, prefix, best) && Free(used, best)
      && forall a: u32 :: Walks(base, prefix, a) && Free(used, a) ==> Steps(base, best) <= Steps(base, a)
    case None => forall a: u32 :: !(Walks(base, prefix, a) && Free(used, a))
  }

  lemma {:induction false} Pow2Monotone(a: nat, b: nat)
    requires a <= b
    ensures Pow2(a) <= Pow2(b)
  {
    if a < b { Pow2Monotone(a, b - 1); }
  }

  lemma {:induction false} Pow2Sum(a: nat, b: nat)
    ensures Pow2(a + b) == Pow2(a) * Pow2(b)
  {
    if a > 0 { Pow2Sum(a - 1, b); }
  }

  lemma Pow2Values()
    ensures Pow2(20) == MAX_STEPS && Pow2(32) == SPACE && Pow2(2) == 4 && Pow2(8) == 256
  {
    assert Pow2(10) == 1024;
    Pow2Sum(10, 10);
    Pow2Sum(12, 20);
  }

  /** Being inside is a matter of distance from the masked address. */
  lemma ContainsRange(base: u32, prefix: nat, a: u32)
    requires prefix <= 32
    ensures Contains(base, prefix, a) <==> NetworkOf(base, prefix) <= a < End(base, prefix)
    ensures 0 <= NetworkOf(base, prefix) <= base < End(base, prefix) <= SPACE
    ensures prefix > 0 ==> 2 * Size(prefix) <= SPACE
  {
    hide Pow2, Size;
    SizeDivides(prefix);
    BlockOf(base, Size(prefix), a, Pow2(prefix));
  }

  lemma SizeDivides(prefix: nat)
    requires prefix <= 32
    ensures Pow2(prefix) * Size(prefix) == SPACE
    ensures prefix > 0 ==> 2 * Size(prefix) <= SPACE
  {
    hide Pow2;
    Pow2Values();
    Pow2Sum(prefix, 32 - prefix);
    if prefix > 0 {
      Pow2AtLeast2(prefix);
      assert 2 * Size(prefix) <= Pow2(prefix) * Size(prefix);
    }
  }

  lemma Pow2AtLeast2(k: nat)
    requires k > 0
    ensures Pow2(k) >= 2
  {
    Pow2Monotone(1, k);
  }

  lemma BlockOf(base: nat, size: nat, a: nat, blocks: nat)
    requires size > 0 && base < SPACE && blocks * size == SPACE
    ensures
      var network := base - base % size;
      && (a / size == base / size <==> network <= a < network + size)
      && 0 <= network <= base < network + size <= SPACE
  {
    var q := base / size;
    assert base - base % size == q * size;
    Quotient(a, size, q);
    Quotient(base, size, q);
    Top(q * size, size, q, blocks);
  }

  lemma Quotient(a: nat, size: nat, q: nat)
    requires size > 0
    ensures a / size == q <==> q * size <= a < q * size + size
  {
    var p := a / size;
    assert a == p * size + a % size;
    assert p < q ==> (p + 1) * size <= q * size;
    assert p > q ==> p * size >= (q + 1) * size;
  }

  lemma Top(base: nat, size: nat, q: nat, blocks: nat)
    requires base == q * size && blocks * size == SPACE && base < SPACE && size > 0
    ensures base + size <= SPACE
  {
    assert q < blocks by {
      assert q >= blocks ==> q * size >= blocks * size;
    }
    assert (q + 1) * size <= blocks * size;
  }

  lemma StepsOfCandidate(base: u32, k: nat)
    requires k < SPACE
    ensures Steps(base, Candidate(base, k)) == k
  {
  }

  lemma CandidateOfSteps(base: u32, a: u32)
    ensures Candidate(base, Steps(base, a)) == a
  {
  }

  /** The candidates are inside until the end of the network; in the whole address space all of them are. */
  lemma InsideUpToEnd(base: u32, prefix: nat, k: nat)
    requires prefix <= 32 && k <= MAX_STEPS
    ensures Contains(base, prefix, Candidate(base, k)) <==> prefix == 0 || base + 2 + k < End(base, prefix)
    ensures prefix > 0 && base + 2 + k < End(base, prefix) ==> Candidate(base, k) == base + 2 + k
  {
    hide Contains, Size, NetworkOf;
    ContainsRange(base, prefix, Candidate(base, k));
    ContainsRange(base, prefix, base);
    if prefix == 0 {
      WholeSpace(base);
    } else {
      AlongTheSpace(base, k, NetworkOf(base, prefix), End(base, prefix));
    }
  }

  lemma WholeSpace(base: u32)
    ensures NetworkOf(base, 0) == 0 && End(base, 0) == SPACE
  {
    Pow2Values();
    hide Pow2;
  }

  /** A step count too small to come around again stays inside a block up to its end. */
  lemma AlongTheSpace(base: u32, k: nat, network: int, end: int)
    requires k <= MAX_STEPS && 0 <= network <= base < end <= SPACE && 2 * (end - network) <= SPACE
    ensures network <= Candidate(base, k) < end <==> base + 2 + k < end
    ensures base + 2 + k < end ==> Candidate(base, k) == base + 2 + k
  {
  }

  /** For every CIDR and every used set: the first free address on the walk, or none exactly when there is none. */
  lemma FirstInWalk(base: u32, prefix: nat, used: set<u32>, r: Option<u32>)
    requires prefix <= 32 && Finds(base, prefix, used, r)
    ensures First(base, prefix, used, r)
  {
    hide Contains, Free, Candidate, Steps, End;
    var i: nat :| FoundAt(base, prefix, used, i, r);
    StepsOfCandidate(base, i);
    InsideUpToEnd(base, prefix, i);
    forall a: u32 | Walks(base, prefix, a) && Free(used, a) ensures r.Some? && i <= Steps(base, a) {
      CandidateOfSteps(base, a);
      InsideUpToEnd(base, prefix, Steps(base, a));
    }
  }

  // ---------------------------------------------------------------- the least free address

  /** Above the written address + 1, inside the network, unused and not ending in 255. */
  predicate Assignable(base: u32, prefix: nat, used: set<u32>, a: u32)
    requires prefix <= 32
  {
    base + 1 < a < End(base, prefix) && Free(used, a)
  }

  /** The least assignable address, or none when there is none. */
  ghost predicate Least(base: u32, prefix: nat, used: set<u32>, r: Option<u32>)
    requires prefix <= 32
  {
    match r
    case Some(best) =>
      Assignable(base, prefix, used, best) && forall a: u32 :: Assignable(base, prefix, used, a) ==> best <= a
    case None => forall a: u32 :: !Assignable(base, prefix, used, a)
  }

  /** The walk does not wrap around the top of the address space. */
  predicate Straight(base: u32, prefix: nat) {
    prefix > 0 || base + 2 + MAX_STEPS <= SPACE
  }

  lemma StraightWalk(base: u32, prefix: nat, a: u32)
    requires prefix <= 32 && Straight(base, prefix)
    ensures Walks(base, prefix, a) <==> base + 1 < a < End(base, prefix) && a < base + 2 + MAX_STEPS
    ensures Walks(base, prefix, a) ==> Steps(base, a) == a - base - 2
  {
    hide Contains, NetworkOf, End, Candidate, Steps;
    ContainsRange(base, prefix, a);
    if Walks(base, prefix, a) {
      CandidateOfSteps(base, a);
      InsideUpToEnd(base, prefix, Steps(base, a));
      if prefix == 0 { StraightCandidate(base, Steps(base, a)); }
    } else if base + 1 < a {
      StepsAhead(base, a);
    }
  }

  lemma StraightCandidate(base: u32, k: nat)
    requires base + 2 + k < SPACE
    ensures Candidate(base, k) == base + 2 + k
  {
  }

  lemma StepsAhead(base: u32, a: u32)
    requires base + 1 < a
    ensures Steps(base, a) == a - base - 2
  {
  }

  /**
   The result is the least assignable address, or none exactly when there is none, if and only if there is one
   among the first 2^20 addresses or there is none at all.
   */
  lemma LeastExactly(base: u32, prefix: nat, used: set<u32>, r: Option<u32>)
    requires prefix <= 32 && Straight(base, prefix) && Finds(base, prefix, used, r)
    ensures Least(base, prefix, used, r) <==>
              || (exists a: u32 :: Assignable(base, prefix, used, a) && a < base + 2 + MAX_STEPS)
              || (forall a: u32 :: !Assignable(base, prefix, used, a))
  {
    hide Finds, Free, End, Steps, Walks;
    FirstInWalk(base, prefix, used, r);
    forall a: u32
      ensures Walks(base, prefix, a) <==> base + 1 < a < End(base, prefix) && a < base + 2 + MAX_STEPS
      ensures Walks(base, prefix, a) ==> Steps(base, a) == a - base - 2
    {
      StraightWalk(base, prefix, a);
    }
  }

  /** From prefix 12 on that is always so, whatever address of the network was written. */
  lemma LeastAssignable(base: u32, prefix: nat, used: set<u32>, r: Option<u32>)
    requires 12 <= prefix <= 32 && Finds(base, prefix, used, r)
    ensures Least(base, prefix, used, r)
  {
    hide Finds, Least, Free;
    LeastExactly(base, prefix, used, r);
    SizeUpTo(prefix);
    ContainsRange(base, prefix, base);
  }

  lemma SizeUpTo(prefix: nat)
    requires 12 <= prefix <= 32
    ensures Size(prefix) <= MAX_STEPS
  {
    Pow2Values();
    Pow2Monotone(32 - prefix, 20);
  }

  /** The least free address above network+1, or none when the whole network has none. */
  ghost predicate LeastOfNetwork(base: u32, prefix: nat, used: set<u32>, r: Option<u32>)
    requires prefix <= 32
  {
    var network, end := NetworkOf(base, prefix), End(base, prefix);
    match r
    case Some(best) =>
      && network + 1 < best < end && Free(used, best)
      && forall a: u32 :: network + 1 < a < end && Free(used, a) ==> best <= a
    case None => forall a: u32 :: network + 1 < a < end ==> !Free(used, a)
  }

  /** The search covers the whole network exactly when nothing is free below the address it starts from. */
  lemma LeastOfNetworkExactly(base: u32, prefix: nat, used: set<u32>, r: Option<u32>)
    requires 12 <= prefix <= 32 && Finds(base, prefix, used, r)
    ensures LeastOfNetwork(base, prefix, used, r) <==>
              forall a: u32 :: NetworkOf(base, prefix) + 1 < a < base + 2 && a < End(base, prefix) ==> !Free(used, a)
  {
    hide Finds, Free, NetworkOf, End;
    LeastAssignable(base, prefix, used, r);
    ContainsRange(base, prefix, base);
    forall a: u32 | Free(used, a)
      ensures Assignable(base, prefix, used, a) <==> base + 1 < a < End(base, prefix)
    {
    }
    if r.Some? { assert Free(used, r.value); }
  }

  predicate Aligned(base: u32, prefix: nat)
    requires prefix <= 32
  {
    base % Size(prefix) == 0
  }

  /**
   For every aligned network of prefix 12 to 32 and every used set, the search returns the least unused address
   above network+1 not ending in 255, and reports exhaustion exactly when there is none.
   */
  lemma AlignedFindsLeast(base: u32, prefix: nat, used: set<u32>, r: Option<u32>)
    requires 12 <= prefix <= 32 && Aligned(base, prefix) && Finds(base, prefix, used, r)
    ensures LeastOfNetwork(base, prefix, used, r)
  {
    hide Finds, Free, LeastOfNetwork, Size;
    LeastOfNetworkExactly(base, prefix, used, r);
  }

  /** In 10.90.0.200/24 with .202 to .254 taken the search reports exhaustion although 10.90.0.2 is free. */
  lemma UnalignedMissesFree(used: set<u32>, r: Option<u32>)
    requires forall a: u32 :: a in used <==> 0x0A5A_00CA <= a < 0x0A5A_00FF
    requires Finds(0x0A5A_00C8, 24, used, r)
    ensures r.None? && Contains(0x0A5A_00C8, 24, 0x0A5A_0002) && Free(used, 0x0A5A_0002)
  {
    var base: u32 := 0x0A5A_00C8;
    Pow2Values();
    assert Size(24) == 256;
    hide Size, Finds;
    LeastAssignable(base, 24, used, r);
  }

  /** In 10.0.0.0/8 with 2^20 addresses taken the search reports exhaustion although 10.16.0.2 is free. */
  lemma LargeNetworkMissesFree(used: set<u32>, r: Option<u32>)
    requires forall a: u32 :: a in used <==> 0x0A00_0002 <= a < 0x0A10_0002
    requires Finds(0x0A00_0000, 8, used, r)
    ensures r.None? && Assignable(0x0A00_0000, 8, used, 0x0A10_0002)
  {
    var base: u32 := 0x0A00_0000;
    Pow2Values();
    Pow2Sum(4, 20);
    assert Pow2(4) == 16 && Size(8) == 0x100_0000;
    hide Pow2, Size, Finds, Walks;
    FirstInWalk(base, 8, used, r);
    if r.Some? { StraightWalk(base, 8, r.value); }
  }

  /** In 255.255.255.254/0 the walk wraps around and hands out 0.0.0.0. */
  lemma WholeSpaceWraps(used: set<u32>, r: Option<u32>)
    requires 0 !in used && Finds(0xFFFF_FFFE, 0, used, r)
    ensures r == Some(0)
  {
    hide Finds, Contains;
    FirstInWalk(0xFFFF_FFFE, 0, used, r);
    InsideUpToEnd(0xFFFF_FFFE, 0, 0);
    assert Candidate(0xFFFF_FFFE, 0) == 0 && Walks(0xFFFF_FFFE, 0, 0) && Free(used, 0);
    assert Steps(0xFFFF_FFFE, r.value) == 0;
  }

  // ---------------------------------------------------------------- the broadcast address

  lemma LastOctetBelow(n: nat)
    requires n > 0
    ensures (n - 1) % 256 == 255 <==> n % 256 == 0
  {
  }

  /** The search can hand out the broadcast address exactly when it is ahead, unused and does not end in 255 ... */
  lemma BroadcastIsAssignable(base: u32, prefix: nat, used: set<u32>, a: u32)
    requires prefix <= 32 && a == Broadcast(base, prefix)
    ensures Assignable(base, prefix, used, a) <==>
              base + 2 < End(base, prefix) && End(base, prefix) % 256 != 0 && a !in used
  {
    hide End;
    LastOctetBelow(a + 1);
  }

  /** ... and up to prefix 24 it does end in 255. */
  lemma EndsIn255UpTo24(base: u32, prefix: nat)
    requires prefix <= 24
    ensures End(base, prefix) % 256 == 0
  {
    hide Pow2, Size, NetworkOf;
    SizeInBlocks(prefix);
    NetworkIsMultiple(base, prefix);
    Blocks256(NetworkOf(base, prefix), base / Size(prefix), Pow2(24 - prefix));
  }

  lemma NetworkIsMultiple(base: u32, prefix: nat)
    requires prefix <= 32
    ensures NetworkOf(base, prefix) == base / Size(prefix) * Size(prefix) >= 0
  {
    hide Size;
  }

  lemma SizeInBlocks(prefix: nat)
    requires prefix <= 24
    ensures Size(prefix) == Pow2(24 - prefix) * 256
  {
    Pow2Values();
    Pow2Sum(24 - prefix, 8);
    hide Pow2;
  }

  lemma Blocks256(base: nat, q: nat, b: nat)
    requires base == q * (b * 256)
    ensures (base + b * 256) % 256 == 0
  {
    var k := (q + 1) * b;
    assert base + b * 256 == (q + 1) * (b * 256) == k * 256;
    Multiple256(k);
  }

  lemma Multiple256(k: nat)
    ensures (k * 256) % 256 == 0
  {
  }

  /** In 10.90.0.0/25 the last address handed out is the broadcast address 10.90.0.127. */
  lemma BroadcastHandedOut(used: set<u32>, r: Option<u32>)
    requires forall a: u32 :: a in used <==> 0x0A5A_0002 <= a < 0x0A5A_007F
    requires Finds(0x0A5A_0000, 25, used, r)
    ensures r == Some(0x0A5A_007F) && Broadcast(0x0A5A_0000, 25) == 0x0A5A_007F
  {
    var base: u32 := 0x0A5A_0000;
    assert Pow2(4) == 16;
    assert Size(25) == 128;
    LeastAssignable(base, 25, used, r);
    var last: u32 := 0x0A5A_007F;
    assert Assignable(base, 25, used, last);
    assert r.Some?;
  }
}
