/** CIDR arithmetic by bit masks on 32- and 128-bit addresses, and the check
    that an imported network is public. */
module Cidr {

  import opened Wrappers

  function Pow2(n: nat): (r: nat)
    ensures r > 0
  {
    if n == 0 then 1 else 2 * Pow2(n - 1)
  }

  function Div(x: nat, n: nat): nat
    requires n > 0
  {
    x / n
  }

  // ------------------------------------------------- machine-word operations

  function And(x: nat, y: nat): nat {
    if x == 0 || y == 0 then 0
    else (if x % 2 == 1 && y % 2 == 1 then 1 else 0) + 2 * And(x / 2, y / 2)
  }

  function Or(x: nat, y: nat): nat {
    if x == 0 then y else if y == 0 then x
    else (if x % 2 == 1 || y % 2 == 1 then 1 else 0) + 2 * Or(x / 2, y / 2)
  }

  /** Complement within a word of `width` bits. */
  function Not(x: nat, width: nat): nat {
    if width == 0 then 0 else (if x % 2 == 1 then 0 else 1) + 2 * Not(x / 2, width - 1)
  }

  function Max(width: nat): nat {
    Pow2(width) - 1
  }

  /** Shifting by the whole width is an overflow in the machine, hence `count < width`. */
  function ShiftLeft(x: nat, count: nat, width: nat): nat
    requires count < width
  {
    x * Pow2(count) % Pow2(width)
  }

  function ShiftRight(x: nat, count: nat, width: nat): nat
    requires count < width
  {
    Div(x, Pow2(count))
  }

  // ------------------------------------------------------- masks and ranges

  datatype IpAddr = V4(value: nat) | V6(value: nat) {
    function Width(): nat {
      if V4? then 32 else 128
    }

    predicate Valid() {
      value < Pow2(Width())
    }
  }

  function NetworkMask(prefix: nat, width: nat): nat
    requires prefix <= width
  {
    if prefix == 0 then 0 else ShiftLeft(Max(width), width - prefix, width)
  }

  function NetworkBounds(value: nat, prefix: nat, width: nat): (nat, nat)
    requires prefix <= width
  {
    var mask := NetworkMask(prefix, width);
    (And(value, mask), Or(value, Not(mask, width)))
  }

  /** Whether `first..last` meets the block, computed in 128-bit words for both widths. */
  predicate Overlaps(first: nat, last: nat, base: nat, prefix: nat, bits: nat)
    requires prefix <= bits && 0 < bits <= 128
  {
    OverlapsInWord(first, last, base, prefix, bits, 128)
  }

  predicate OverlapsInWord(first: nat, last: nat, base: nat, prefix: nat, bits: nat, word: nat)
    requires prefix <= bits && 0 < bits <= word
  {
    var all := ShiftRight(Max(word), word - bits, word);
    var mask := if prefix == 0 then 0 else ShiftLeft(all, bits - prefix, word);
    var blockFirst := And(base, mask);
    var blockLast := Or(blockFirst, And(Not(mask, word), all));
    first <= blockLast && last >= blockFirst
  }

  /** Prefix notation: an address is in the block when their leading `prefix` bits agree. */
  predicate InBlock(address: nat, base: nat, prefix: nat, width: nat)
    requires prefix <= width
  {
    Div(address, Pow2(width - prefix)) == Div(base, Pow2(width - prefix))
  }

  // ------------------------------------------------------ arithmetic lemmas

  lemma MulGrows(n: int, x: int)
    requires n > 0
    ensures x >= 1 ==> n * x >= n
    ensures x <= -1 ==> n * x <= -n
  {
  }

  lemma DivUnique(x: nat, n: nat, q: int, r: int)
    requires n > 0 && x == n * q + r && 0 <= r < n
    ensures x / n == q && x % n == r
  {
    MulGrows(n, x / n - q);
    assert n * (x / n - q) == n * (x / n) - n * q;
  }

  lemma {:induction false} Pow2Add(a: nat, b: nat)
    ensures Pow2(a) * Pow2(b) == Pow2(a + b)
  {
    if a > 0 {
      Pow2Add(a - 1, b);
      DoubledProduct(Pow2(a - 1), Pow2(b));
    }
  }

  lemma {:induction false} Pow2Mono(a: nat, b: nat)
    requires a <= b
    ensures 0 < Pow2(a) <= Pow2(b)
    decreases b
  {
    if a < b {
      Pow2Mono(a, b - 1);
    } else if a > 0 {
      Pow2Mono(a - 1, a - 1);
    }
  }

  /** The value with its low `s` bits cleared. */
  ghost function High(x: nat, s: nat): nat {
    if s == 0 then x else 2 * High(x / 2, s - 1)
  }

  ghost function Quotient(x: nat, s: nat): nat {
    if s == 0 then x else Quotient(x / 2, s - 1)
  }

  lemma DoubledProduct(p: int, q: int)
    ensures (2 * p) * q == 2 * (p * q)
  {
  }

  lemma {:induction false} HighIsQuotient(x: nat, s: nat)
    ensures High(x, s) == Pow2(s) * Quotient(x, s) <= x < High(x, s) + Pow2(s)
  {
    if s > 0 {
      HighIsQuotient(x / 2, s - 1);
      DoubledProduct(Pow2(s - 1), Quotient(x / 2, s - 1));
    }
  }

  lemma QuotientIsDivision(x: nat, s: nat)
    ensures Div(x, Pow2(s)) == Quotient(x, s)
    ensures High(x, s) % Pow2(s) == 0
  {
    HighIsQuotient(x, s);
    DivUnique(x, Pow2(s), Quotient(x, s), x - High(x, s));
    DivUnique(High(x, s), Pow2(s), Quotient(x, s), 0);
  }

  /** Two values share their bits above `s` exactly when one lies in the other's range. */
  lemma {:induction false} HighIsShared(x: nat, y: nat, s: nat)
    ensures High(x, s) == High(y, s) <==> High(y, s) <= x < High(y, s) + Pow2(s)
    ensures High(x, s) == High(y, s) <==> Quotient(x, s) == Quotient(y, s)
  {
    if s > 0 {
      HighIsShared(x / 2, y / 2, s - 1);
    }
  }

  lemma {:induction false} HighFits(x: nat, s: nat, width: nat)
    requires s <= width && x < Pow2(width)
    ensures High(x, s) + Pow2(s) <= Pow2(width)
  {
    if s > 0 {
      HighFits(x / 2, s - 1, width - 1);
    }
  }

  /** ANDing with ones above bit `s` clears the low `s` bits. */
  lemma {:induction false} AndHighMask(x: nat, s: nat, m: nat)
    requires s <= m && x < Pow2(m)
    ensures Pow2(s) <= Pow2(m)
    ensures And(x, Pow2(m) - Pow2(s)) == High(x, s)
    decreases m
  {
    Pow2Mono(s, m);
    if s > 0 {
      AndHighMask(x / 2, s - 1, m - 1);
      HighOfZero(s);
      HighOnesHalf(s, m);
    } else if m > 0 {
      AndHighMask(x / 2, 0, m - 1);
      LowOnesHalf(m);
    }
  }

  lemma {:induction false} HighOfZero(s: nat)
    ensures High(0, s) == 0
  {
    if s > 0 { HighOfZero(s - 1); }
  }

  lemma LowOnesHalf(s: nat)
    requires s > 0
    ensures (Pow2(s) - 1) % 2 == 1 && (Pow2(s) - 1) / 2 == Pow2(s - 1) - 1
  {
  }

  lemma HighOnesHalf(s: nat, m: nat)
    requires 0 < s <= m && Pow2(s) <= Pow2(m) && Pow2(s - 1) <= Pow2(m - 1)
    ensures (Pow2(m) - Pow2(s)) % 2 == 0 && (Pow2(m) - Pow2(s)) / 2 == Pow2(m - 1) - Pow2(s - 1)
  {
  }

  /** ORing with ones below bit `s` moves to the last value that shares the high bits. */
  lemma {:induction false} OrLowMask(x: nat, s: nat)
    ensures Pow2(s) > 0
    ensures Or(x, Pow2(s) - 1) == High(x, s) + Pow2(s) - 1
    decreases s
  {
    Pow2Mono(0, s);
    if s > 0 {
      OrLowMask(x / 2, s - 1);
      LowOnesHalf(s);
      HighOfZero(s);
    }
  }

  lemma {:induction false} NotIsComplement(x: nat, width: nat)
    requires x < Pow2(width)
    ensures Not(x, width) == Pow2(width) - 1 - x
  {
    if width > 0 {
      NotIsComplement(x / 2, width - 1);
    }
  }

  /** A run of `n` ones shifted to bit `s`, cut off at `width` bits. */
  lemma ShiftedOnes(n: nat, s: nat, width: nat)
    requires s < width && n <= width
    ensures var m := if n + s <= width then n + s else width;
            s <= m && Pow2(s) <= Pow2(m) && ShiftLeft(Max(n), s, width) == Pow2(m) - Pow2(s)
  {
    Pow2Add(n, s);
    Pow2Mono(s, n + s);
    Pow2Mono(s, width);
    OneLess(Pow2(n), Pow2(s));
    if n + s <= width {
      Pow2Mono(n + s, width);
      Wraps(Pow2(n + s), Pow2(s), 0, Pow2(width), Pow2(n + s) - Pow2(s));
    } else {
      Pow2Add(n + s - width, width);
      Pow2Mono(0, n + s - width);
      Wraps(Pow2(n + s), Pow2(s), Pow2(n + s - width) - 1, Pow2(width), Pow2(width) - Pow2(s));
    }
  }

  lemma OneLess(x: int, y: int)
    ensures (x - 1) * y == x * y - y
  {
  }

  /** The remainder, once the quotient is known. */
  lemma Wraps(total: nat, low: nat, quotient: nat, word: nat, rest: nat)
    requires 0 <= rest < word && 0 < low <= total
    requires total - low == quotient * word + rest || (total == (quotient + 1) * word && rest == word - low)
    ensures (total - low) % word == rest
  {
    OneLess(quotient + 1, word);
    assert quotient * word == word * quotient;
    DivUnique(total - low, word, quotient, rest);
  }

  /** The ones of a complement that lie below bit `b`. */
  lemma {:induction false} LowOnes(s: nat, b: nat, m: nat, width: nat, word: nat, ones: nat)
    requires s <= b <= m <= width
    requires word + Pow2(m) + 1 == Pow2(width) + Pow2(s) && ones + 1 == Pow2(b)
    ensures And(word, ones) == Pow2(s) - 1
    decreases width
  {
    if b > 0 {
      LowOnes(if s > 0 then s - 1 else 0, b - 1, m - 1, width - 1, word / 2, ones / 2);
    }
  }

  // ------------------------------------------------------------- main facts

  lemma MaskOf(prefix: nat, width: nat)
    requires prefix <= width && 0 < width
    ensures Pow2(width - prefix) <= Pow2(width)
    ensures NetworkMask(prefix, width) == Pow2(width) - Pow2(width - prefix)
  {
    Pow2Mono(width - prefix, width);
    if prefix > 0 {
      ShiftedOnes(width, width - prefix, width);
    }
  }

  lemma BlockIsRange(base: nat, prefix: nat, width: nat)
    requires prefix <= width && base < Pow2(width)
    ensures var size := Pow2(width - prefix);
            var first := High(base, width - prefix);
            && first % size == 0
            && first <= base < first + size <= Pow2(width)
            && forall x: nat :: first <= x < first + size <==> InBlock(x, base, prefix, width)
  {
    var s := width - prefix;
    HighIsQuotient(base, s);
    QuotientIsDivision(base, s);
    HighFits(base, s, width);
    forall x: nat
      ensures High(base, s) <= x < High(base, s) + Pow2(s) <==> InBlock(x, base, prefix, width)
    {
      HighIsShared(x, base, s);
      QuotientIsDivision(x, s);
    }
  }

  /** The computed bounds are the aligned range of 2^(width-prefix) addresses that
      holds the address: its first is a multiple of the size, and the range is
      exactly the block of addresses with the same leading bits. */
  lemma BoundsAreAligned(value: nat, prefix: nat, width: nat)
    requires prefix <= width && 0 < width && value < Pow2(width)
    ensures var size := Pow2(width - prefix);
            var (first, last) := NetworkBounds(value, prefix, width);
            && first % size == 0
            && last == first + size - 1
            && first <= value <= last < Pow2(width)
            && forall x: nat :: first <= x <= last <==> InBlock(x, value, prefix, width)
  {
    BoundsAreHigh(value, prefix, width);
    BlockIsRange(value, prefix, width);
  }

  lemma BoundsAreHigh(value: nat, prefix: nat, width: nat)
    requires prefix <= width && 0 < width && value < Pow2(width)
    ensures var first := High(value, width - prefix);
            NetworkBounds(value, prefix, width) == (first, first + Pow2(width - prefix) - 1)
  {
    var s := width - prefix;
    var mask := NetworkMask(prefix, width);
    MaskOf(prefix, width);
    MaskedBounds(value, s, mask, width);
  }

  lemma NotHighMask(s: nat, mask: nat, width: nat)
    requires s <= width && mask == Pow2(width) - Pow2(s)
    ensures Not(mask, width) == Pow2(s) - 1
  {
    Pow2Mono(0, s);
    NotIsComplement(mask, width);
  }

  lemma MaskedBounds(value: nat, s: nat, mask: nat, width: nat)
    requires s <= width && value < Pow2(width) && mask == Pow2(width) - Pow2(s)
    ensures And(value, mask) == High(value, s)
    ensures Or(value, Not(mask, width)) == High(value, s) + Pow2(s) - 1
  {
    AndHighMask(value, s, width);
    NotHighMask(s, mask, width);
    OrLowMask(value, s);
  }

  /** The word with ones in the low `bits` places, as the 128-bit shift builds it. */
  lemma AllOnes(bits: nat, width: nat)
    requires 0 < bits <= width
    ensures ShiftRight(Max(width), width - bits, width) == Max(bits)
  {
    var rest := width - bits;
    Pow2Add(rest, bits);
    assert Pow2(rest) * Max(bits) == Pow2(width) - Pow2(rest);
    DivUnique(Max(width), Pow2(rest), Max(bits), Pow2(rest) - 1);
  }

  /** The block mask in a word of `width` bits: ones from bit `s` up to some bit
      `m` at or above the block's own width. */
  lemma BlockMaskOf(prefix: nat, bits: nat, width: nat) returns (m: nat)
    requires prefix <= bits && 0 < bits <= width
    ensures bits <= m <= width && Pow2(bits - prefix) <= Pow2(m)
    ensures (if prefix == 0 then 0 else ShiftLeft(Max(bits), bits - prefix, width)) == Pow2(m) - Pow2(bits - prefix)
  {
    var s := bits - prefix;
    m := if prefix == 0 then bits else if bits + s <= width then bits + s else width;
    if prefix > 0 {
      ShiftedOnes(bits, s, width);
    }
  }

  lemma BlockLast(base: nat, s: nat, m: nat, bits: nat, width: nat)
    requires s <= bits <= m <= width && Pow2(s) <= Pow2(m)
    ensures Or(High(base, s), And(Not(Pow2(m) - Pow2(s), width), Max(bits))) == High(base, s) + Pow2(s) - 1
  {
    Pow2Mono(m, width);
    NotIsComplement(Pow2(m) - Pow2(s), width);
    LowOnes(s, bits, m, width, Not(Pow2(m) - Pow2(s), width), Max(bits));
    OrLowMask(High(base, s), s);
    HighIsQuotient(base, s);
    HighIsShared(High(base, s), base, s);
  }

  lemma OverlapMeansRange(first: nat, last: nat, base: nat, prefix: nat, bits: nat, word: nat)
    requires prefix <= bits && 0 < bits <= word && base < Pow2(bits)
    ensures var blockFirst := High(base, bits - prefix);
            OverlapsInWord(first, last, base, prefix, bits, word)
            <==> first <= blockFirst + Pow2(bits - prefix) - 1 && last >= blockFirst
  {
    var s := bits - prefix;
    AllOnes(bits, word);
    var m := BlockMaskOf(prefix, bits, word);
    Pow2Mono(bits, m);
    AndHighMask(base, s, m);
    BlockLast(base, s, m, bits, word);
  }

  /** `Overlaps` holds exactly when the range and the block share an address. */
  lemma OverlapsIff(first: nat, last: nat, base: nat, prefix: nat, bits: nat)
    requires prefix <= bits && 0 < bits <= 128 && base < Pow2(bits)
    requires first <= last
    ensures Overlaps(first, last, base, prefix, bits)
            <==> exists x: nat :: first <= x <= last && InBlock(x, base, prefix, bits)
  {
    OverlapMeansRange(first, last, base, prefix, bits, 128);
    RangesMeetIff(first, last, base, prefix, bits);
  }

  lemma RangesMeetIff(first: nat, last: nat, base: nat, prefix: nat, width: nat)
    requires prefix <= width && base < Pow2(width) && first <= last
    ensures var blockFirst := High(base, width - prefix);
            first <= blockFirst + Pow2(width - prefix) - 1 && last >= blockFirst
            <==> exists x: nat :: first <= x <= last && InBlock(x, base, prefix, width)
  {
    BlockIsRange(base, prefix, width);
    var blockFirst := High(base, width - prefix);
    var x := if first <= blockFirst then blockFirst else first;
    assert blockFirst <= x < blockFirst + Pow2(width - prefix) && first <= x <= last
      ==> InBlock(x, base, prefix, width);
  }

  // ---------------------------------------------------- the public-range check

  datatype Block = Block(base: nat, prefix: nat)

  datatype Network = Network(ip: IpAddr, prefix: Option<nat>)

  datatype NetworkError = BroadOrInvalid | HostBitsSet | NotPublic

  const BLOCKED_V4: seq<Block> := [
    Block(0x0000_0000, 8),   // unspecified, current network
    Block(0x0a00_0000, 8),   // private
    Block(0x6440_0000, 10),  // shared address space
    Block(0x7f00_0000, 8),   // loopback
    Block(0xa9fe_0000, 16),  // link-local
    Block(0xac10_0000, 12),  // private
    Block(0xc000_0000, 24),  // protocol assignments
    Block(0xc000_0200, 24),  // documentation
    Block(0xc0a8_0000, 16),  // private
    Block(0xe000_0000, 4),   // multicast
    Block(0xf000_0000, 4),   // reserved, broadcast
    Block(0xc612_0000, 15),  // benchmark tests
    Block(0xc633_6400, 24),  // documentation
    Block(0xcb00_7100, 24)   // documentation
  ]

  const BLOCKED_V6: seq<Block> := [
    Block(0, 128),  // unspecified
    Block(1, 128),  // loopback
    Block(0xfc00_0000_0000_0000_0000_0000_0000_0000, 7),
    Block(0xfe80_0000_0000_0000_0000_0000_0000_0000, 10),
    Block(0xff00_0000_0000_0000_0000_0000_0000_0000, 8),
    Block(0x2001_0db8_0000_0000_0000_0000_0000_0000, 32)
  ]

  function Blocked(ip: IpAddr): seq<Block> {
    if ip.V4? then BLOCKED_V4 else BLOCKED_V6
  }

  predicate BlocksFit(blocks: seq<Block>, width: nat) {
    forall block | block in blocks :: block.prefix <= width && block.base < Pow2(width)
  }

  predicate OverlapsAny(first: nat, last: nat, blocks: seq<Block>, width: nat)
    requires 0 < width <= 128 && BlocksFit(blocks, width)
  {
    exists block | block in blocks :: Overlaps(first, last, block.base, block.prefix, width)
  }

  lemma Pow2Byte(n: nat)
    ensures Pow2(n + 8) == 256 * Pow2(n)
  {
    assert Pow2(n + 8) == 4 * Pow2(n + 6);
    assert Pow2(n + 6) == 4 * Pow2(n + 4);
    assert Pow2(n + 4) == 4 * Pow2(n + 2);
  }

  lemma Pow2Word(n: nat)
    ensures Pow2(n + 32) == 0x1_0000_0000 * Pow2(n)
  {
    Pow2Byte(n);
    Pow2Byte(n + 8);
    Pow2Byte(n + 16);
    Pow2Byte(n + 24);
  }

  /** Here and below the width is a parameter with only one possible value, so that the solver keeps
      its power of two as a term and does not unfold it. */
  lemma BlocksFitV4(width: nat)
    requires width == 32
    ensures BlocksFit(BLOCKED_V4, width)
  {
    Pow2Word(width - 32);
    var size := Pow2(width);
    forall i | 0 <= i < |BLOCKED_V4|
      ensures BLOCKED_V4[i].prefix <= 32 && BLOCKED_V4[i].base < size
    {
    }
  }

  lemma Pow2Of128(width: nat)
    requires width == 128
    ensures Pow2(width) == 0x1_0000_0000_0000_0000_0000_0000_0000_0000
  {
    var n := width - 128;
    Pow2Word(n);
    Pow2Word(n + 32);
    Pow2Word(n + 64);
    Pow2Word(n + 96);
    assert Pow2(n) == 1;
  }

  lemma BasesFitV6()
    ensures forall block | block in BLOCKED_V6 ::
              block.prefix <= 128 && block.base < 0x1_0000_0000_0000_0000_0000_0000_0000_0000
  {
    forall i | 0 <= i < |BLOCKED_V6|
      ensures BLOCKED_V6[i].prefix <= 128 && BLOCKED_V6[i].base < 0x1_0000_0000_0000_0000_0000_0000_0000_0000
    {
    }
  }

  lemma BlocksFitV6(width: nat)
    requires width == 128
    ensures BlocksFit(BLOCKED_V6, width)
  {
    Pow2Of128(width);
    BasesFitV6();
  }

  lemma BlockedBlocksFit(ip: IpAddr)
    ensures BlocksFit(Blocked(ip), ip.Width())
  {
    if ip.V4? {
      BlocksFitV4(ip.Width());
    } else {
      BlocksFitV6(ip.Width());
    }
  }

  function PrefixOf(network: Network): nat {
    if network.prefix.Some? then network.prefix.value else network.ip.Width()
  }

  predicate PrefixAllowed(network: Network) {
    (if network.ip.V4? then 8 else 16) <= PrefixOf(network) <= network.ip.Width()
  }

  /** Accept a network for a routing import, unchanged, or say what is wrong with it. */
  function ValidatePublic(network: Network): Result<Network, NetworkError> {
    var prefix, width := PrefixOf(network), network.ip.Width();
    if !PrefixAllowed(network) then Err(BroadOrInvalid)
    else
      var (first, last) := NetworkBounds(network.ip.value, prefix, width);
      BlockedBlocksFit(network.ip);
      if first != network.ip.value then Err(HostBitsSet)
      else if OverlapsAny(first, last, Blocked(network.ip), width) then Err(NotPublic)
      else Ok(network)
  }

  predicate Contains(network: Network, address: nat)
    requires PrefixAllowed(network)
  {
    InBlock(address, network.ip.value, PrefixOf(network), network.ip.Width())
  }

  /** The network's address is a multiple of the network's size. */
  predicate HostBitsClear(network: Network)
    requires PrefixAllowed(network)
  {
    network.ip.value % Pow2(network.ip.Width() - PrefixOf(network)) == 0
  }

  /** Some address of the network lies in a blocked block. */
  ghost predicate TouchesBlocked(network: Network)
    requires PrefixAllowed(network)
  {
    BlockedBlocksFit(network.ip);
    exists block, address: nat |
      block in Blocked(network.ip) && Contains(network, address) ::
      InBlock(address, block.base, block.prefix, network.ip.Width())
  }

  /** A network is accepted exactly when its prefix is allowed, it has no host
      bits, and none of its addresses lies in any blocked block; each error says
      which of the three failed first. */
  lemma PublicIff(network: Network)
    requires network.ip.Valid()
    ensures match ValidatePublic(network)
            case Err(BroadOrInvalid) => !PrefixAllowed(network)
            case Err(HostBitsSet) =>
              && PrefixAllowed(network)
              && !HostBitsClear(network)
            case Err(NotPublic) =>
              && PrefixAllowed(network)
              && HostBitsClear(network)
              && TouchesBlocked(network)
            case Ok(accepted) =>
              && accepted == network
              && PrefixAllowed(network)
              && HostBitsClear(network)
              && !TouchesBlocked(network)
  {
    if PrefixAllowed(network) {
      OwnFirstIff(network);
      OverlapsAnyIff(network);
    }
  }

  lemma OwnFirstIff(network: Network)
    requires network.ip.Valid() && PrefixAllowed(network)
    ensures NetworkBounds(network.ip.value, PrefixOf(network), network.ip.Width()).0 == network.ip.value
            <==> HostBitsClear(network)
  {
    var value, prefix, width := network.ip.value, PrefixOf(network), network.ip.Width();
    BoundsAreHigh(value, prefix, width);
    AlignedIsOwnFirst(value, width - prefix);
  }

  lemma OverlapsAnyIff(network: Network)
    requires network.ip.Valid() && PrefixAllowed(network)
    ensures BlocksFit(Blocked(network.ip), network.ip.Width())
    ensures var (first, last) := NetworkBounds(network.ip.value, PrefixOf(network), network.ip.Width());
            OverlapsAny(first, last, Blocked(network.ip), network.ip.Width()) <==> TouchesBlocked(network)
  {
    var value, prefix, width := network.ip.value, PrefixOf(network), network.ip.Width();
    BlockedBlocksFit(network.ip);
    BoundsAreAligned(value, prefix, width);
    var (first, last) := NetworkBounds(value, prefix, width);
    forall block | block in Blocked(network.ip)
      ensures Overlaps(first, last, block.base, block.prefix, width)
              <==> exists address: nat ::
                     Contains(network, address) && InBlock(address, block.base, block.prefix, width)
    {
      OverlapsBlockIff(network, block);
    }
  }

  /** The mask test against one block holds exactly when the network and the block share an address. */
  lemma OverlapsBlockIff(network: Network, block: Block)
    requires network.ip.Valid() && PrefixAllowed(network)
    requires block.prefix <= network.ip.Width() && block.base < Pow2(network.ip.Width())
    ensures var width := network.ip.Width();
            var (first, last) := NetworkBounds(network.ip.value, PrefixOf(network), width);
            Overlaps(first, last, block.base, block.prefix, width)
            <==> exists address: nat :: Contains(network, address) && InBlock(address, block.base, block.prefix, width)
  {
    var width := network.ip.Width();
    BoundsAreAligned(network.ip.value, PrefixOf(network), width);
    var (first, last) := NetworkBounds(network.ip.value, PrefixOf(network), width);
    OverlapsIff(first, last, block.base, block.prefix, width);
    assert forall address: nat :: first <= address <= last <==> Contains(network, address);
  }

  lemma AlignedIsOwnFirst(x: nat, s: nat)
    ensures High(x, s) == x <==> x % Pow2(s) == 0
  {
    HighIsQuotient(x, s);
    DivUnique(x, Pow2(s), Quotient(x, s), x - High(x, s));
  }
}
