/** Which single addresses are public, in terms of their octets and groups. */
module PublicRanges {

  import opened Cidr
  import opened Wrappers

  /** The sizes of the blocked blocks, by the number of free bits. */
  function SizeOf(free: nat): nat {
    if free == 0 then 1
    else if free == 8 then 0x100 else if free == 16 then 0x1_0000 else if free == 17 then 0x2_0000
    else if free == 20 then 0x10_0000 else if free == 22 then 0x40_0000 else if free == 24 then 0x100_0000
    else if free == 28 then 0x1000_0000
    else if free == 96 then 0x1_0000_0000_0000_0000_0000_0000
    else if free == 118 then 0x40_0000_0000_0000_0000_0000_0000_0000
    else if free == 120 then 0x100_0000_0000_0000_0000_0000_0000_0000
    else 0x200_0000_0000_0000_0000_0000_0000_0000
  }

  const FREE_V4: set<nat> := {8, 16, 17, 20, 22, 24, 28}
  const FREE_V6: set<nat> := {0, 96, 118, 120, 121}

  /** Here and below `n` is a parameter that can only be zero, so that the solver keeps the powers of two
      as terms and does not unfold them. */
  lemma SizesV4(n: nat, free: nat)
    requires n == 0 && free in FREE_V4
    ensures Pow2(n + free) == SizeOf(free)
  {
    Pow2Byte(n);
    Pow2Byte(n + 8);
    Pow2Byte(n + 16);
    assert Pow2(n + 17) == 2 * Pow2(n + 16);
    assert Pow2(n + 18) == 2 * Pow2(n + 17);
    assert Pow2(n + 20) == 4 * Pow2(n + 18);
    assert Pow2(n + 22) == 4 * Pow2(n + 20);
    assert Pow2(n + 26) == 4 * Pow2(n + 24);
    assert Pow2(n + 28) == 4 * Pow2(n + 26);
  }

  lemma SizesV6(n: nat, free: nat)
    requires n == 0 && free in FREE_V6
    ensures Pow2(n + free) == SizeOf(free)
  {
    Pow2Of96(n);
    Pow2Byte(n + 96);
    Pow2Byte(n + 104);
    Pow2Byte(n + 112);
    assert Pow2(n + 120) == 4 * Pow2(n + 118);
    assert Pow2(n + 121) == 2 * Pow2(n + 120);
  }

  lemma Pow2Of96(n: nat)
    requires n == 0
    ensures Pow2(n) == 1 && Pow2(n + 96) == SizeOf(96)
  {
    Pow2Word(n);
    Pow2Word(n + 32);
    Pow2Word(n + 64);
  }

  // ------------------------------------------------ a block as a range

  /** The addresses of an aligned block are the ones from its base on. */
  lemma InBlockIff(x: nat, base: nat, prefix: nat, width: nat, size: nat)
    requires prefix <= width && size == Pow2(width - prefix) && size > 0 && base % size == 0
    ensures InBlock(x, base, prefix, width) <==> base <= x < base + size
  {
    QuotientIff(x, base, size);
  }

  lemma QuotientIff(x: nat, base: nat, size: nat)
    requires size > 0 && base % size == 0
    ensures x / size == base / size <==> base <= x < base + size
  {
    var q := base / size;
    assert base == size * q && x == size * (x / size) + x % size;
    if base <= x < base + size {
      DivUnique(x, size, q, x - base);
    }
  }

  lemma AlignedV4(i: nat)
    requires i < |BLOCKED_V4|
    ensures var free := 32 - BLOCKED_V4[i].prefix; free in FREE_V4 && BLOCKED_V4[i].base % SizeOf(free) == 0
  {
  }

  lemma AlignedV6(i: nat)
    requires i < |BLOCKED_V6|
    ensures var free := 128 - BLOCKED_V6[i].prefix; free in FREE_V6 && BLOCKED_V6[i].base % SizeOf(free) == 0
  {
  }

  lemma BlockV4Iff(x: nat, i: nat, n: nat)
    requires n == 0 && i < |BLOCKED_V4|
    ensures var block := BLOCKED_V4[i];
            InBlock(x, block.base, block.prefix, 32) <==> block.base <= x < block.base + SizeOf(32 - block.prefix)
  {
    var block := BLOCKED_V4[i];
    AlignedV4(i);
    SizesV4(n, 32 - block.prefix);
    InBlockIff(x, block.base, block.prefix, 32, SizeOf(32 - block.prefix));
  }

  lemma BlockV6Iff(x: nat, i: nat, n: nat)
    requires n == 0 && i < |BLOCKED_V6|
    ensures var block := BLOCKED_V6[i];
            InBlock(x, block.base, block.prefix, 128) <==> block.base <= x < block.base + SizeOf(128 - block.prefix)
  {
    var block := BLOCKED_V6[i];
    AlignedV6(i);
    SizesV6(n, 128 - block.prefix);
    InBlockIff(x, block.base, block.prefix, 128, SizeOf(128 - block.prefix));
  }

  /** Here and below `size` is a parameter that can only be one, so that the solver meets a division only
      by a term. */
  lemma WholeDivision(x: nat, size: nat)
    requires size == 1
    ensures Div(x, size) == x
  {
  }

  lemma NoHostBits(x: nat, size: nat)
    requires size == 1
    ensures x % size == 0
  {
  }

  lemma SingleContains(network: Network, address: nat)
    requires network.ip.Valid() && PrefixOf(network) == network.ip.Width()
    ensures Contains(network, address) <==> address == network.ip.value
  {
    WholeDivision(address, Pow2(network.ip.Width() - PrefixOf(network)));
    WholeDivision(network.ip.value, Pow2(network.ip.Width() - PrefixOf(network)));
  }

  /** The value lies in one of the blocks. */
  ghost predicate InSomeBlock(value: nat, blocks: seq<Block>, width: nat)
    requires BlocksFit(blocks, width)
  {
    exists block | block in blocks :: InBlock(value, block.base, block.prefix, width)
  }

  lemma SingleTouchesIff(network: Network)
    requires network.ip.Valid() && PrefixOf(network) == network.ip.Width() && PrefixAllowed(network)
    requires BlocksFit(Blocked(network.ip), network.ip.Width())
    ensures TouchesBlocked(network) <==> InSomeBlock(network.ip.value, Blocked(network.ip), network.ip.Width())
  {
    var value, blocks, width := network.ip.value, Blocked(network.ip), network.ip.Width();
    if TouchesBlocked(network) {
      var block, address: nat :|
        block in blocks && Contains(network, address) && InBlock(address, block.base, block.prefix, width);
      SingleContains(network, address);
    }
    if InSomeBlock(value, blocks, width) {
      SingleContains(network, value);
    }
  }

  /** An address on its own is accepted exactly when it lies outside every blocked block. */
  lemma SinglePublicIff(network: Network)
    requires network.ip.Valid() && PrefixOf(network) == network.ip.Width()
    requires BlocksFit(Blocked(network.ip), network.ip.Width())
    ensures ValidatePublic(network) ==
              if InSomeBlock(network.ip.value, Blocked(network.ip), network.ip.Width()) then Err(NotPublic)
              else Ok(network)
  {
    SingleTouchesIff(network);
    NoHostBits(network.ip.value, Pow2(network.ip.Width() - PrefixOf(network)));
    PublicIff(network);
  }

  // ------------------------------------------------ the reserved ranges

  function FromOctets(a: nat, b: nat, c: nat, d: nat): nat {
    ((a * 256 + b) * 256 + c) * 256 + d
  }

  /** Version 4: this network, private, shared, loopback, link-local, protocol, documentation, benchmark,
      multicast and reserved addresses. */
  predicate ReservedV4(a: nat, b: nat, c: nat) {
    || a == 0 || a == 10 || a == 127 || a >= 224
    || (a == 100 && 64 <= b < 128)
    || (a == 169 && b == 254)
    || (a == 172 && 16 <= b < 32)
    || (a == 192 && (b == 168 || (b == 0 && (c == 0 || c == 2))))
    || (a == 198 && (18 <= b < 20 || (b == 51 && c == 100)))
    || (a == 203 && b == 0 && c == 113)
  }

  /** The address lies in a listed block of version 4. */
  ghost predicate BlockedV4(x: nat) {
    exists i | 0 <= i < |BLOCKED_V4| :: InRange(x, BLOCKED_V4[i], 32)
  }

  predicate InRange(x: nat, block: Block, width: nat) {
    block.prefix <= width && block.base <= x < block.base + SizeOf(width - block.prefix)
  }

  lemma LowRangesV4(x: nat, a: nat, b: nat, c: nat, d: nat)
    requires a < 256 && b < 256 && c < 256 && d < 256 && x == FromOctets(a, b, c, d)
    ensures InRange(x, BLOCKED_V4[0], 32) <==> a == 0
    ensures InRange(x, BLOCKED_V4[1], 32) <==> a == 10
    ensures InRange(x, BLOCKED_V4[2], 32) <==> a == 100 && 64 <= b < 128
    ensures InRange(x, BLOCKED_V4[3], 32) <==> a == 127
    ensures InRange(x, BLOCKED_V4[4], 32) <==> a == 169 && b == 254
    ensures InRange(x, BLOCKED_V4[5], 32) <==> a == 172 && 16 <= b < 32
    ensures InRange(x, BLOCKED_V4[6], 32) <==> a == 192 && b == 0 && c == 0
  {
  }

  lemma HighRangesV4(x: nat, a: nat, b: nat, c: nat, d: nat)
    requires a < 256 && b < 256 && c < 256 && d < 256 && x == FromOctets(a, b, c, d)
    ensures InRange(x, BLOCKED_V4[7], 32) <==> a == 192 && b == 0 && c == 2
    ensures InRange(x, BLOCKED_V4[8], 32) <==> a == 192 && b == 168
    ensures InRange(x, BLOCKED_V4[9], 32) <==> 224 <= a < 240
    ensures InRange(x, BLOCKED_V4[10], 32) <==> 240 <= a
    ensures InRange(x, BLOCKED_V4[11], 32) <==> a == 198 && 18 <= b < 20
    ensures InRange(x, BLOCKED_V4[12], 32) <==> a == 198 && b == 51 && c == 100
    ensures InRange(x, BLOCKED_V4[13], 32) <==> a == 203 && b == 0 && c == 113
  {
  }

  lemma RangesV4(x: nat, a: nat, b: nat, c: nat, d: nat)
    requires a < 256 && b < 256 && c < 256 && d < 256 && x == FromOctets(a, b, c, d)
    ensures BlockedV4(x) <==> ReservedV4(a, b, c)
  {
    LowRangesV4(x, a, b, c, d);
    HighRangesV4(x, a, b, c, d);
  }

  lemma Pow2Of32(width: nat)
    requires width == 32
    ensures Pow2(width) == 0x1_0000_0000
  {
    Pow2Word(width - 32);
  }

  lemma PublicV4(x: nat)
    requires x < 0x1_0000_0000
    ensures ValidatePublic(Network(V4(x), None))
            == if BlockedV4(x) then Err(NotPublic) else Ok(Network(V4(x), None))
  {
    var ip := V4(x);
    Pow2Of32(ip.Width());
    BlockedBlocksFit(ip);
    BlockedV4Iff(x);
    SinglePublicIff(Network(ip, None));
  }

  /** A version 4 address on its own is accepted exactly when its octets are not reserved. */
  lemma PublicV4Iff(a: nat, b: nat, c: nat, d: nat)
    requires a < 256 && b < 256 && c < 256 && d < 256
    ensures var network := Network(V4(FromOctets(a, b, c, d)), None);
            ValidatePublic(network) == if ReservedV4(a, b, c) then Err(NotPublic) else Ok(network)
  {
    var x := FromOctets(a, b, c, d);
    RangesV4(x, a, b, c, d);
    PublicV4(x);
  }

  lemma BlockedV4Iff(x: nat)
    requires BlocksFit(BLOCKED_V4, 32)
    ensures InSomeBlock(x, BLOCKED_V4, 32) <==> BlockedV4(x)
  {
    if InSomeBlock(x, BLOCKED_V4, 32) {
      var block :| block in BLOCKED_V4 && InBlock(x, block.base, block.prefix, 32);
      var i :| 0 <= i < |BLOCKED_V4| && BLOCKED_V4[i] == block;
      BlockV4Iff(x, i, 0);
    }
    if BlockedV4(x) {
      var i :| 0 <= i < |BLOCKED_V4| && InRange(x, BLOCKED_V4[i], 32);
      BlockV4Iff(x, i, 0);
      assert BLOCKED_V4[i] in BLOCKED_V4;
    }
  }

  lemma BlockedV6Iff(x: nat)
    requires BlocksFit(BLOCKED_V6, 128)
    ensures InSomeBlock(x, BLOCKED_V6, 128) <==> BlockedV6(x)
  {
    if InSomeBlock(x, BLOCKED_V6, 128) {
      var block :| block in BLOCKED_V6 && InBlock(x, block.base, block.prefix, 128);
      var i :| 0 <= i < |BLOCKED_V6| && BLOCKED_V6[i] == block;
      BlockV6Iff(x, i, 0);
    }
    if BlockedV6(x) {
      var i :| 0 <= i < |BLOCKED_V6| && InRange(x, BLOCKED_V6[i], 128);
      BlockV6Iff(x, i, 0);
      assert BLOCKED_V6[i] in BLOCKED_V6;
    }
  }

  function FromGroups(first: nat, second: nat, rest: nat): nat {
    (first * 0x1_0000 + second) * 0x1_0000_0000_0000_0000_0000_0000 + rest
  }

  /** Version 6: unspecified, loopback, unique local, link-local, multicast and documentation addresses. */
  predicate ReservedV6(first: nat, second: nat, x: nat) {
    || x <= 1
    || 0xfc00 <= first < 0xfe00
    || 0xfe80 <= first < 0xfec0
    || 0xff00 <= first
    || (first == 0x2001 && second == 0xdb8)
  }

  /** The address lies in a listed block of version 6. */
  ghost predicate BlockedV6(x: nat) {
    exists i | 0 <= i < |BLOCKED_V6| :: InRange(x, BLOCKED_V6[i], 128)
  }

  lemma RangesV6(first: nat, second: nat, rest: nat)
    requires first < 0x1_0000 && second < 0x1_0000 && rest < 0x1_0000_0000_0000_0000_0000_0000
    ensures var x := FromGroups(first, second, rest); BlockedV6(x) <==> ReservedV6(first, second, x)
  {
    var x := FromGroups(first, second, rest);
    assert InRange(x, BLOCKED_V6[0], 128) <==> x == 0;
    assert InRange(x, BLOCKED_V6[1], 128) <==> x == 1;
    assert InRange(x, BLOCKED_V6[2], 128) <==> 0xfc00 <= first < 0xfe00;
    assert InRange(x, BLOCKED_V6[3], 128) <==> 0xfe80 <= first < 0xfec0;
    assert InRange(x, BLOCKED_V6[4], 128) <==> 0xff00 <= first;
    assert InRange(x, BLOCKED_V6[5], 128) <==> first == 0x2001 && second == 0xdb8;
  }

  lemma PublicV6(x: nat)
    requires x < 0x1_0000_0000_0000_0000_0000_0000_0000_0000
    ensures ValidatePublic(Network(V6(x), None))
            == if BlockedV6(x) then Err(NotPublic) else Ok(Network(V6(x), None))
  {
    var ip := V6(x);
    Pow2Of128(ip.Width());
    BlockedBlocksFit(ip);
    BlockedV6Iff(x);
    SinglePublicIff(Network(ip, None));
  }

  /** A version 6 address on its own is accepted exactly when its groups are not reserved. */
  lemma PublicV6Iff(first: nat, second: nat, rest: nat)
    requires first < 0x1_0000 && second < 0x1_0000 && rest < 0x1_0000_0000_0000_0000_0000_0000
    ensures var x := FromGroups(first, second, rest);
            ValidatePublic(Network(V6(x), None))
            == if ReservedV6(first, second, x) then Err(NotPublic) else Ok(Network(V6(x), None))
  {
    RangesV6(first, second, rest);
    PublicV6(FromGroups(first, second, rest));
  }

  /** Prefix lengths shorter than 8 and 16 bits, or longer than the address, are too broad or invalid. */
  lemma PrefixRange(network: Network)
    requires network.prefix.Some?
    ensures ValidatePublic(network) == Err(BroadOrInvalid) <==>
            if network.ip.V4? then !(8 <= network.prefix.value <= 32) else !(16 <= network.prefix.value <= 128)
  {
  }
}
