/**
 IP networks and the big-endian address arithmetic of pkg/util/ip/ip.go.

 Addresses and masks are byte sequences as in Go's net package; the masking operators are
 the bitwise ones. The lemmas relate them to the numbers the addresses stand for.
 */
module Addresses {
  import opened Common

  type byte = x: int | 0 <= x < 256

  datatype IPNet = IPNet(ip: seq<byte>, mask: seq<byte>)

  // ----- What Go's net and math/big packages do --------------------------------------------

  /** Bitwise and of two numbers of k bits. */
  function BitAnd(x: nat, m: nat, k: nat): (r: nat)
    ensures r <= x
  {
    if k == 0 then 0 else 2 * BitAnd(x / 2, m / 2, k - 1) + (if x % 2 == 1 && m % 2 == 1 then 1 else 0)
  }

  /** Bitwise or of two numbers of k bits. */
  function BitOr(x: nat, m: nat, k: nat): (r: nat)
    ensures r < Pow2(k)
  {
    if k == 0 then 0 else 2 * BitOr(x / 2, m / 2, k - 1) + (if x % 2 == 1 || m % 2 == 1 then 1 else 0)
  }

  function And(x: byte, m: byte): byte {
    BitAnd(x, m, 8)
  }

  /** x | ^m */
  function OrNot(x: byte, m: byte): byte {
    assert Pow2(8) == 256;
    BitOr(x, 255 - m, 8)
  }

  /** A byte whose upper `ones` bits are set. */
  function MaskByte(ones: nat): byte
    requires ones <= 8
  {
    match ones
    case 0 => 0x00 case 1 => 0x80 case 2 => 0xC0 case 3 => 0xE0 case 4 => 0xF0
    case 5 => 0xF8 case 6 => 0xFC case 7 => 0xFE case 8 => 0xFF
  }

  function Clamp(n: int): nat {
    if n < 0 then 0 else if n > 8 then 8 else n
  }

  /** The mask of an n-byte network with the given prefix length. */
  function CIDRMask(prefix: nat, n: nat): (m: seq<byte>)
    ensures |m| == n
  {
    seq(n, i requires 0 <= i < n => MaskByte(Clamp(prefix - 8 * i)))
  }

  /** The four bytes of an IPv4 or IPv4-mapped address. */
  function To4(ip: seq<byte>): Option<seq<byte>> {
    if |ip| == 4 then Some(ip)
    else if |ip| == 16 && (forall i :: 0 <= i < 10 ==> ip[i] == 0) && ip[10] == 255 && ip[11] == 255 then Some(ip[12..])
    else None
  }

  /** The shorter form of an address, where there is one. */
  function Short(ip: seq<byte>): seq<byte> {
    match To4(ip) case Some(v4) => v4 case None => ip
  }

  /** a and b have the same bits under the mask. */
  predicate Agree(a: seq<byte>, b: seq<byte>, mask: seq<byte>)
    requires |a| == |b| == |mask|
  {
    forall i :: 0 <= i < |a| ==> And(a[i], mask[i]) == And(b[i], mask[i])
  }

  /** IPNet.Contains, for networks with an address of 4 or 16 bytes and a mask of the same length. */
  predicate Contains(net: IPNet, ip: seq<byte>)
    requires |net.ip| == |net.mask|
  {
    var number := Short(net.ip);
    |Short(ip)| == |number| && Agree(number, Short(ip), net.mask[|net.mask| - |number|..])
  }

  /** The number a byte sequence stands for, most significant byte first. */
  function Value(bytes: seq<byte>): nat {
    if bytes == [] then 0 else Value(bytes[..|bytes| - 1]) * 256 + bytes[|bytes| - 1]
  }

  /** The shortest byte sequence that stands for n: leading zeros are dropped. */
  function Bytes(n: nat): seq<byte> {
    if n == 0 then [] else Bytes(n / 256) + [n % 256]
  }

  function Abs(n: int): nat {
    if n < 0 then -n else n
  }

  // ----- pkg/util/ip/ip.go -------------------------------------------------------------------

  /** The sign of a sum is lost: big.Int.Bytes gives the bytes of the absolute value. */
  function AddIPOffset(base: nat, offset: int): seq<byte> {
    Bytes(Abs(base + offset))
  }

  function GetIndexedIP(subnet: IPNet, index: int): Option<seq<byte>>
    requires |subnet.ip| == |subnet.mask|
  {
    var ip := AddIPOffset(Value(Short(subnet.ip)), index);
    if Contains(subnet, ip) then Some(ip) else None
  }

  // ----- Parsed networks -----------------------------------------------------------------------

  /** What net.ParseCIDR returns: the masked address of an IPv4 or IPv6 prefix. */
  predicate IsCIDR(net: IPNet, prefix: nat) {
    && (|net.ip| == 4 || |net.ip| == 16)
    && prefix <= 8 * |net.ip|
    && net.mask == CIDRMask(prefix, |net.ip|)
    && forall i :: 0 <= i < |net.ip| ==> And(net.ip[i], net.mask[i]) == net.ip[i]
  }

  type Parser = string -> Option<IPNet>

  /** parse behaves like net.ParseCIDR. */
  ghost predicate ParsesCIDRs(parse: Parser) {
    forall s {:trigger parse(s)} :: parse(s).Some? ==> Parsed(parse(s).value)
  }

  ghost predicate Parsed(net: IPNet) {
    exists prefix: nat :: IsCIDR(net, prefix)
  }

  /** Prefix length counted in the short form of the network's address. */
  function ShortPrefix(net: IPNet, prefix: nat): nat
    requires |net.ip| == 4 || |net.ip| == 16
  {
    if |Short(net.ip)| == |net.ip| then prefix else if prefix < 96 then 0 else prefix - 96
  }

  function Pow2(n: nat): (r: nat)
    ensures r > 0
  {
    if n == 0 then 1 else 2 * Pow2(n - 1)
  }

  /** The largest multiple of s that is not above v. */
  function RoundDown(v: nat, s: nat): (r: nat)
    requires s > 0
    ensures r <= v < r + s
  {
    v - v % s
  }

  /** How many addresses an n-byte network of this prefix has. */
  function Size(prefix: nat, n: nat): (r: nat)
    requires prefix <= 8 * n
    ensures r > 0
  {
    Pow2(8 * n - prefix)
  }

  // ----- One byte under its mask ---------------------------------------------------------------

  lemma RoundHalf(x: nat, s: nat)
    requires s > 0
    ensures RoundDown(x, 2 * s) == 2 * RoundDown(x / 2, s)
  {
    var q, r := x / 2 / s, x / 2 % s;
    assert x == q * (2 * s) + (2 * r + x % 2);
    Blocks(x, 2 * s, q, 2 * r + x % 2);
  }

  /** Quotient and remainder are the only ones. */
  lemma Blocks(x: int, s: nat, q: int, r: nat)
    requires r < s && x == q * s + r
    ensures x / s == q && x % s == r
  {
    var d := x / s - q;
    assert d * s == r - x % s;
    if d >= 1 {
      AtLeastOnce(d, s);
      assert false;
    } else if d <= -1 {
      AtLeastOnce(-d, s);
      assert false;
    }
  }

  lemma AtLeastOnce(d: int, s: nat)
    requires d >= 1
    ensures d * s >= s
  {
  }

  lemma Doubled(j: nat)
    requires j > 0
    ensures Pow2(j) == 2 * Pow2(j - 1)
  {
  }

  /** Below an even mask the lowest bit goes. */
  lemma AndEven(x: nat, m: nat, k: nat)
    requires k > 0
    ensures BitAnd(x, 2 * m, k) == 2 * BitAnd(x / 2, m, k - 1)
  {
    assert 2 * m / 2 == m && 2 * m % 2 == 0;
  }

  lemma AndOdd(x: nat, m: nat, k: nat)
    requires k > 0
    ensures BitAnd(x, 2 * m + 1, k) == 2 * BitAnd(x / 2, m, k - 1) + x % 2
  {
    assert (2 * m + 1) / 2 == m && (2 * m + 1) % 2 == 1;
  }

  lemma OrOdd(x: nat, m: nat, k: nat)
    requires k > 0
    ensures BitOr(x, 2 * m + 1, k) == 2 * BitOr(x / 2, m, k - 1) + 1
  {
    assert (2 * m + 1) / 2 == m && (2 * m + 1) % 2 == 1;
  }

  lemma {:induction false} AndAll(x: nat, k: nat)
    requires x < Pow2(k)
    ensures BitAnd(x, Pow2(k) - 1, k) == x
  {
    if k > 0 {
      Doubled(k);
      hide Pow2, BitAnd;
      AndAll(x / 2, k - 1);
      AndOdd(x, Pow2(k - 1) - 1, k);
    }
  }

  /** A mask of `ones` upper bits out of k cuts a number down to a multiple of the rest. */
  lemma {:induction false} BitAndMask(x: nat, k: nat, ones: nat)
    requires ones <= k && x < Pow2(k)
    ensures Pow2(k - ones) <= Pow2(k)
    ensures BitAnd(x, Pow2(k) - Pow2(k - ones), k) == RoundDown(x, Pow2(k - ones))
  {
    if ones == k {
      assert Pow2(0) == 1;
      AndAll(x, k);
    } else {
      Doubled(k);
      Doubled(k - ones);
      hide Pow2, BitAnd, RoundDown;
      BitAndMask(x / 2, k - 1, ones);
      RoundHalf(x, Pow2(k - 1 - ones));
      AndEven(x, Pow2(k - 1) - Pow2(k - 1 - ones), k);
    }
  }

  /** Setting the bits below the mask goes to the last number of the block. */
  lemma {:induction false} BitOrMask(x: nat, k: nat, ones: nat)
    requires ones <= k && x < Pow2(k)
    ensures BitOr(x, Pow2(k - ones) - 1, k) == RoundDown(x, Pow2(k - ones)) + Pow2(k - ones) - 1
  {
    assert Pow2(0) == 1;
    if ones == k {
      OrNothing(x, k);
    } else {
      Doubled(k);
      Doubled(k - ones);
      hide Pow2, RoundDown, BitOr;
      BitOrMask(x / 2, k - 1, ones);
      RoundHalf(x, Pow2(k - 1 - ones));
      OrOdd(x, Pow2(k - 1 - ones) - 1, k);
    }
  }

  lemma {:induction false} OrNothing(x: nat, k: nat)
    requires x < Pow2(k)
    ensures BitOr(x, 0, k) == x
  {
    if k > 0 {
      OrNothing(x / 2, k - 1);
    }
  }

  lemma MaskByteValue(ones: nat)
    requires ones <= 8
    ensures Pow2(8) == 256 && Pow2(8 - ones) <= 256 && MaskByte(ones) == 256 - Pow2(8 - ones)
  {
    assert Pow2(8) == 256;
  }

  /** Rounding a byte down and up to the ends of its block. */
  lemma ByteUnder(x: byte, ones: nat)
    requires ones <= 8
    ensures Pow2(8 - ones) <= 256
    ensures And(x, MaskByte(ones)) == RoundDown(x, Pow2(8 - ones))
    ensures OrNot(x, MaskByte(ones)) == RoundDown(x, Pow2(8 - ones)) + Pow2(8 - ones) - 1
  {
    hide Pow2, MaskByte, BitAnd, BitOr, RoundDown;
    MaskByteValue(ones);
    BitAndMask(x, 8, ones);
    BitOrMask(x, 8, ones);
  }

  // ----- Networks as blocks of numbers ------------------------------------------------------------

  function Masked(ip: seq<byte>, mask: seq<byte>): (r: seq<byte>)
    requires |ip| == |mask|
    ensures |r| == |ip|
  {
    seq(|ip|, i requires 0 <= i < |ip| => And(ip[i], mask[i]))
  }

  /** The last address of a network. */
  function Last(ip: seq<byte>, mask: seq<byte>): (r: seq<byte>)
    requires |ip| == |mask|
    ensures |r| == |ip|
  {
    seq(|ip|, i requires 0 <= i < |ip| => OrNot(ip[i], mask[i]))
  }

  lemma Pow2Sum(a: nat, b: nat)
    ensures Pow2(a + b) == Pow2(a) * Pow2(b)
  {
    if a > 0 {
      Pow2Sum(a - 1, b);
      assert Pow2(a + b) == 2 * Pow2(a - 1 + b);
    }
  }

  /** Rounding a number whose last digit (base 256) is cut off entirely. */
  lemma RoundPrefix(v: nat, last: byte, s: nat)
    requires s > 0
    ensures RoundDown(v * 256 + last, 256 * s) == RoundDown(v, s) * 256
  {
    var x := v * 256 + last;
    assert v == v / s * s + v % s;
    assert x == v / s * (256 * s) + (v % s * 256 + last);
    Blocks(x, 256 * s, v / s, v % s * 256 + last);
  }

  /** Rounding a number within its last digit. */
  lemma RoundDigit(v: nat, last: byte, s: nat, t: nat)
    requires s > 0 && s * t == 256
    ensures RoundDown(v * 256 + last, s) == v * 256 + RoundDown(last, s)
  {
    var x := v * 256 + last;
    assert x == (v * t + last / s) * s + last % s by {
      assert v * 256 == v * t * s;
    }
    Blocks(x, s, v * t + last / s, last % s);
  }

  /** Rounding one more digit, given that the digits before it are rounded to their own block. */
  lemma RoundOneMore(v: nat, last: byte, prefix: nat, n: nat)
    requires n > 0 && prefix <= 8 * n
    ensures var p := if prefix <= 8 * (n - 1) then prefix else 8 * (n - 1);
            var ones := Clamp(prefix - 8 * (n - 1));
            var s := Size(prefix, n);
            && RoundDown(v, Size(p, n - 1)) * 256 + And(last, MaskByte(ones)) == RoundDown(v * 256 + last, s)
            && (RoundDown(v, Size(p, n - 1)) + Size(p, n - 1) - 1) * 256 + OrNot(last, MaskByte(ones))
               == RoundDown(v * 256 + last, s) + s - 1
  {
    hide And, OrNot, MaskByte;
    var ones := Clamp(prefix - 8 * (n - 1));
    ByteUnder(last, ones);
    assert Pow2(8) == 256;
    if prefix <= 8 * (n - 1) {
      Pow2Sum(8, 8 * (n - 1) - prefix);
      RoundPrefix(v, last, Size(prefix, n - 1));
    } else {
      assert Pow2(0) == 1;
      Pow2Sum(8 - ones, ones);
      RoundDigit(v, last, Size(prefix, n), Pow2(ones));
    }
  }

  /** Masking, and setting the bits outside the mask, round to the ends of the block of the address. */
  lemma {:induction false} MaskRounds(ip: seq<byte>, prefix: nat)
    requires prefix <= 8 * |ip|
    ensures Value(Masked(ip, CIDRMask(prefix, |ip|))) == RoundDown(Value(ip), Size(prefix, |ip|))
    ensures Value(Last(ip, CIDRMask(prefix, |ip|))) ==
            RoundDown(Value(ip), Size(prefix, |ip|)) + Size(prefix, |ip|) - 1
  {
    hide And, OrNot, MaskByte;
    var n := |ip|;
    if n > 0 {
      var front, last, mask := ip[..n - 1], ip[n - 1], CIDRMask(prefix, n);
      var ones := Clamp(prefix - 8 * (n - 1));
      var p := if prefix <= 8 * (n - 1) then prefix else 8 * (n - 1);
      assert mask[..n - 1] == CIDRMask(p, n - 1);
      MaskRounds(front, p);
      assert Masked(ip, mask)[..n - 1] == Masked(front, CIDRMask(p, n - 1));
      assert Last(ip, mask)[..n - 1] == Last(front, CIDRMask(p, n - 1));
      hide Size, RoundDown;
      RoundOneMore(Value(front), last, prefix, n);
    }
  }

  /** Addresses of the same length are equal when they stand for the same number. */
  lemma {:induction false} ValueInjective(a: seq<byte>, b: seq<byte>)
    requires |a| == |b| && Value(a) == Value(b)
    ensures a == b
  {
    if a != [] {
      var n := |a| - 1;
      ValueInjective(a[..n], b[..n]);
      assert a == a[..n] + [a[n]] && b == b[..n] + [b[n]];
    }
  }

  lemma AgreeIff(a: seq<byte>, b: seq<byte>, prefix: nat)
    requires |a| == |b| && prefix <= 8 * |a|
    ensures Agree(a, b, CIDRMask(prefix, |a|)) <==>
            RoundDown(Value(a), Size(prefix, |a|)) == RoundDown(Value(b), Size(prefix, |a|))
  {
    hide And, MaskByte, Size, RoundDown, Value;
    var mask := CIDRMask(prefix, |a|);
    MaskRounds(a, prefix);
    MaskRounds(b, prefix);
    var ma, mb := Masked(a, mask), Masked(b, mask);
    if Agree(a, b, mask) {
      assert ma == mb;
    }
    if Value(ma) == Value(mb) {
      ValueInjective(ma, mb);
      assert forall i :: 0 <= i < |a| ==> ma[i] == And(a[i], mask[i]) && mb[i] == And(b[i], mask[i]);
    }
  }

  /** A multiple of s is the lower end of exactly its own block. */
  lemma BlockIff(first: nat, v: nat, s: nat)
    requires s > 0 && RoundDown(first, s) == first
    ensures RoundDown(v, s) == first <==> first <= v < first + s
  {
    if first <= v < first + s {
      assert first == first / s * s + first % s;
      Blocks(v, s, first / s, v - first);
    }
  }

  /** The first address of a parsed network, as a number. */
  function First(net: IPNet): nat {
    Value(Short(net.ip))
  }

  function AddressCount(net: IPNet, prefix: nat): (r: nat)
    requires IsCIDR(net, prefix)
    ensures r > 0
  {
    Size(ShortPrefix(net, prefix), |Short(net.ip)|)
  }

  lemma ShortForm(net: IPNet, prefix: nat)
    requires IsCIDR(net, prefix)
    ensures |Short(net.ip)| <= |net.mask|
    ensures net.mask[|net.mask| - |Short(net.ip)|..] == CIDRMask(ShortPrefix(net, prefix), |Short(net.ip)|)
    ensures RoundDown(First(net), AddressCount(net, prefix)) == First(net)
  {
    hide And, MaskByte, Size, RoundDown, Value;
    var number, p := Short(net.ip), ShortPrefix(net, prefix);
    var mask := net.mask[|net.mask| - |number|..];
    assert mask == CIDRMask(p, |number|);
    MaskRounds(number, p);
    assert Masked(number, mask) == number;
  }

  /** A parsed network contains exactly the addresses of its length between its two ends. */
  lemma ContainsIff(net: IPNet, prefix: nat, ip: seq<byte>)
    requires IsCIDR(net, prefix)
    ensures Contains(net, ip) <==>
            |Short(ip)| == |Short(net.ip)| && First(net) <= Value(Short(ip)) < First(net) + AddressCount(net, prefix)
  {
    hide And, MaskByte, Size, RoundDown, Value, Agree;
    ShortForm(net, prefix);
    if |Short(ip)| == |Short(net.ip)| {
      AgreeIff(Short(net.ip), Short(ip), ShortPrefix(net, prefix));
      BlockIff(First(net), Value(Short(ip)), AddressCount(net, prefix));
    }
  }

  // ----- Bytes without leading zeros ---------------------------------------------------------------

  /** No digit is lost, although leading zeros are. */
  lemma {:induction false} BytesReadBack(n: nat)
    ensures Value(Bytes(n)) == n
    ensures n > 0 ==> Bytes(n)[0] != 0
  {
    if n > 0 {
      BytesReadBack(n / 256);
      assert Bytes(n)[..|Bytes(n)| - 1] == Bytes(n / 256);
    }
  }

  lemma {:induction false} BytesLength(n: nat, k: nat)
    ensures |Bytes(n)| <= k <==> n < Pow2(8 * k)
  {
    if n > 0 && k > 0 {
      BytesLength(n / 256, k - 1);
      Pow2Sum(8, 8 * (k - 1));
      assert Pow2(8) == 256;
    }
  }

  // ----- The addresses that an offset reaches ------------------------------------------------------

  /**
   GetIndexedIP succeeds exactly when the sum lies in the network and needs all bytes of an
   address, and then it returns exactly that address, in spite of the dropped leading zeros.
   */
  lemma IndexedIPExact(subnet: IPNet, prefix: nat, index: int)
    requires IsCIDR(subnet, prefix)
    ensures var n := |Short(subnet.ip)|;
            var v := Abs(First(subnet) + index);
            var r := GetIndexedIP(subnet, index);
            && (r.Some? <==>
                  Pow2(8 * (n - 1)) <= v && First(subnet) <= v < First(subnet) + AddressCount(subnet, prefix))
            && (r.Some? ==> |r.value| == n && Value(r.value) == v)
  {
    var n := |Short(subnet.ip)|;
    var v := Abs(First(subnet) + index);
    var ip := Bytes(v);
    BytesReadBack(v);
    BytesLength(v, n);
    BytesLength(v, n - 1);
    assert Short(ip) == ip by {
      if |ip| == 16 { assert ip[0] != 0; }
    }
    hide Value, Bytes, Short, Contains, Size, Pow2, IsCIDR;
    ContainsIff(subnet, prefix, ip);
    NetworkFits(subnet, prefix);
  }

  /** The last address of a network still fits the address length. */
  lemma NetworkFits(net: IPNet, prefix: nat)
    requires IsCIDR(net, prefix)
    ensures First(net) + AddressCount(net, prefix) <= Pow2(8 * |Short(net.ip)|)
  {
    var n, p := |Short(net.ip)|, ShortPrefix(net, prefix);
    ShortForm(net, prefix);
    var last := Last(Short(net.ip), CIDRMask(p, n));
    MaskRounds(Short(net.ip), p);
    ValueBound(last);
  }

  lemma {:induction false} ValueBound(bytes: seq<byte>)
    ensures Value(bytes) < Pow2(8 * |bytes|)
  {
    if bytes != [] {
      var n := |bytes| - 1;
      ValueBound(bytes[..n]);
      Pow2Sum(8, 8 * n);
      assert Pow2(8) == 256;
    }
  }

  lemma MultipleOfFour(e: nat)
    requires Pow2(e) > 2 || e >= 2
    ensures Pow2(e) % 4 == 0
  {
    assert Pow2(1) == 2;
    assert e >= 2 && Pow2(e) == 2 * (2 * Pow2(e - 2));
  }

  /** A block of more than two addresses never starts one or two below a power of 256. */
  lemma BlocksStartApart(first: nat, e: nat, k: nat)
    requires k >= 1 && Pow2(e) > 2 && RoundDown(first, Pow2(e)) == first
    ensures first + 2 != Pow2(8 * k) && first + 1 != Pow2(8 * k)
  {
    MultipleOfFour(e);
    MultipleOfFour(8 * k);
    var q, s := first / Pow2(e), Pow2(e);
    hide Pow2;
    assert first == q * s;
    assert first == 4 * (q * (s / 4));
  }

  /** A number needs all of its bytes exactly when the first one is not zero. */
  lemma {:induction false} NeedsFirstByte(bytes: seq<byte>)
    requires bytes != []
    ensures Value(bytes) >= Pow2(8 * (|bytes| - 1)) <==> bytes[0] != 0
  {
    var n := |bytes| - 1;
    if n == 0 {
      assert Pow2(0) == 1 && Value(bytes[..0]) == 0;
    } else {
      NeedsFirstByte(bytes[..n]);
      Pow2Sum(8, 8 * (n - 1));
      assert Pow2(8) == 256;
    }
  }

  /** The address number 2 exists exactly in networks of more than two addresses that do not begin with a zero byte. */
  lemma SecondExistsIff(subnet: IPNet, prefix: nat)
    requires IsCIDR(subnet, prefix)
    ensures GetIndexedIP(subnet, 2).Some? <==> AddressCount(subnet, prefix) > 2 && Short(subnet.ip)[0] != 0
  {
    hide Value, Bytes, Contains, Pow2, GetIndexedIP, RoundDown, CIDRMask, And;
    var n, p := |Short(subnet.ip)|, ShortPrefix(subnet, prefix);
    IndexedIPExact(subnet, prefix, 2);
    NeedsFirstByte(Short(subnet.ip));
    ShortForm(subnet, prefix);
    assert AddressCount(subnet, prefix) == Pow2(8 * n - p);
    if AddressCount(subnet, prefix) > 2 {
      BlocksStartApart(First(subnet), 8 * n - p, n - 1);
    }
  }

  /** If there is an address number 2, there is an address number 1, next to it and just as long. */
  lemma SecondImpliesFirst(subnet: IPNet, prefix: nat)
    requires IsCIDR(subnet, prefix)
    requires GetIndexedIP(subnet, 2).Some?
    ensures GetIndexedIP(subnet, 1).Some?
    ensures var r := GetIndexedIP(subnet, 1).value;
            && Value(r) + 1 == Value(GetIndexedIP(subnet, 2).value)
            && Value(r) == First(subnet) + 1
            && r != GetIndexedIP(subnet, 2).value
            && Contains(subnet, r)
  {
    hide Value, Bytes, Contains, Pow2, GetIndexedIP, RoundDown, CIDRMask, And;
    var n, p := |Short(subnet.ip)|, ShortPrefix(subnet, prefix);
    IndexedIPExact(subnet, prefix, 1);
    IndexedIPExact(subnet, prefix, 2);
    ShortForm(subnet, prefix);
    assert AddressCount(subnet, prefix) == Pow2(8 * n - p);
    BlocksStartApart(First(subnet), 8 * n - p, n - 1);
    OnlyContained(subnet, 1);
  }

  lemma OnlyContained(subnet: IPNet, index: int)
    requires |subnet.ip| == |subnet.mask|
    ensures GetIndexedIP(subnet, index).Some? ==> Contains(subnet, GetIndexedIP(subnet, index).value)
  {
  }
}
