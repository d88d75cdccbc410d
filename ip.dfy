/** src/shared/helper/ipHelpers.ts: IPv4 addresses as 32-bit integers and prefix
    (CIDR, section 3.1 of RFC 4632) containment, with the JavaScript number semantics
    the code runs under. */
module IpHelpers {
  import opened JsSemantics

  /** One step of the reduce: `(int << 8) + parseInt(octet, 10)`, given the parsed
      octet. The shift converts its operand with ToInt32 and wraps its result to 32 bits;
      NaN shifts as 0. */
  function ShiftAdd(acc: Num, octet: Num): Num
  {
    AddNum(ToInt32(Int(ToInt32(acc) * 256)), octet)
  }

  /** The reduce from 0, left to right, over the parsed parts. */
  function FoldOctets(octets: seq<Num>): Num
    decreases |octets|
  {
    if octets == [] then Int(0) else ShiftAdd(FoldOctets(octets[..|octets| - 1]), octets[|octets| - 1])
  }

  /** `parseInt(part, 10)` of every part, in order. */
  function ParseParts(parts: seq<string>): (octets: seq<Num>)
    ensures |octets| == |parts|
  {
    if parts == [] then [] else [ParseInt(parts[0])] + ParseParts(parts[1..])
  }

  /** `ipToInt(ip)`: the fold over the dot-separated parts, then `>>> 0`. It is total:
      a part with no leading digits makes the sum NaN, and the next shift's `ToInt32`
      (or, for the last part, `>>> 0`) turns it into 0, so "1.x.3.4" gives 772. */
  function IpToInt(ip: string): (n: int)
    ensures 0 <= n < TWO_32
  {
    ToUint32(FoldOctets(ParseParts(Split(ip, '.'))))
  }

  /** A part of a dotted quad that reads as the byte `v`: no separator in it, and
      `parseInt` gives `v`. A plain decimal numeral of at most 255 is one; so is, for
      instance, "010" or "7x". */
  predicate PartReads(s: string, v: int)
  {
    '.' !in s && ParseInt(s) == Int(v) && 0 <= v <= 255
  }

  lemma SplitTriple(b: string, c: string, d: string)
    requires '.' !in b && '.' !in c && '.' !in d
    ensures Split(b + ['.'] + (c + ['.'] + d), '.') == [b, c, d]
  {
    SplitCons(c, '.', d);
    SplitCons(b, '.', c + ['.'] + d);
  }

  lemma QuadText(a: string, b: string, c: string, d: string)
    ensures a + "." + b + "." + c + "." + d == a + ['.'] + (b + ['.'] + (c + ['.'] + d))
  {
  }

  lemma SplitQuad(a: string, b: string, c: string, d: string)
    requires '.' !in a && '.' !in b && '.' !in c && '.' !in d
    ensures Split(a + "." + b + "." + c + "." + d, '.') == [a, b, c, d]
  {
    var rest := b + ['.'] + (c + ['.'] + d);
    assert a + "." + b + "." + c + "." + d == a + ['.'] + rest by {
      QuadText(a, b, c, d);
    }
    SplitCons(a, '.', rest);
    SplitTriple(b, c, d);
  }

  lemma FoldSnoc(octets: seq<Num>, v: Num)
    ensures FoldOctets(octets + [v]) == ShiftAdd(FoldOctets(octets), v)
  {
    assert (octets + [v])[..|octets|] == octets;
  }

  /** ToInt32 of a value in [0, 2^32): itself below 2^31, else wrapped down by 2^32. */
  lemma ToInt32OfUint(x: int)
    requires 0 <= x < TWO_32
    ensures ToInt32(Int(x)) == if x < TWO_31 then x else x - TWO_32
  {
    if x >= TWO_31 {
      assert (x + TWO_31) % TWO_32 == x + TWO_31 - TWO_32;
    }
  }

  /** `(x << 8) + v` read back by `>>> 0`, where the exact sum fits in 32 bits. */
  lemma LastShiftWraps(x: int, vd: int)
    requires 0 <= x < TWO_32 && 0 <= x + vd < TWO_32
    ensures ToUint32(Int(ToInt32(Int(x)) + vd)) == x + vd
  {
    ToInt32OfUint(x);
    if x >= TWO_31 {
      assert ToInt32(Int(x)) + vd == x + vd - TWO_32;
      assert (x + vd - TWO_32) % TWO_32 == x + vd;
    }
  }

  /** A step of the fold whose shifted accumulator still fits in 31 bits. */
  lemma ShiftAddSmall(acc: int, v: int)
    requires 0 <= acc < 0x80_0000
    ensures ShiftAdd(Int(acc), Int(v)) == Int(acc * 256 + v)
  {
    assert ToInt32(Int(acc)) == acc;
    assert ToInt32(Int(acc * 256)) == acc * 256;
  }

  lemma FoldTriple(va: int, vb: int, vc: int)
    requires 0 <= va <= 255 && 0 <= vb <= 255 && 0 <= vc <= 255
    ensures FoldOctets([Int(va), Int(vb), Int(vc)]) == Int(va * 0x1_0000 + vb * 256 + vc)
  {
    assert [Int(va)] == [] + [Int(va)];
    FoldSnoc([], Int(va));
    ShiftAddSmall(0, va);
    assert [Int(va), Int(vb)] == [Int(va)] + [Int(vb)];
    FoldSnoc([Int(va)], Int(vb));
    ShiftAddSmall(va, vb);
    assert [Int(va), Int(vb), Int(vc)] == [Int(va), Int(vb)] + [Int(vc)];
    FoldSnoc([Int(va), Int(vb)], Int(vc));
    ShiftAddSmall(va * 256 + vb, vc);
  }

  /** The fold over four bytes, then `>>> 0`. */
  lemma FoldQuad(va: int, vb: int, vc: int, vd: int)
    requires 0 <= va <= 255 && 0 <= vb <= 255 && 0 <= vc <= 255 && 0 <= vd <= 255
    ensures ToUint32(FoldOctets([Int(va), Int(vb), Int(vc), Int(vd)])) ==
            va * 0x100_0000 + vb * 0x1_0000 + vc * 0x100 + vd
  {
    var x3 := va * 0x1_0000 + vb * 256 + vc;
    FoldTriple(va, vb, vc);
    assert [Int(va), Int(vb), Int(vc), Int(vd)] == [Int(va), Int(vb), Int(vc)] + [Int(vd)];
    FoldSnoc([Int(va), Int(vb), Int(vc)], Int(vd));
    assert ToInt32(Int(x3)) == x3;
    LastShiftWraps(x3 * 256, vd);
  }

  lemma ParsePartsCons(p: string, rest: seq<string>)
    ensures ParseParts([p] + rest) == [ParseInt(p)] + ParseParts(rest)
  {
    assert ([p] + rest)[1..] == rest;
  }

  lemma ConsFour<T>(x1: T, x2: T, x3: T, x4: T)
    ensures [x1, x2, x3, x4] == [x1] + ([x2] + ([x3] + ([x4] + [])))
  {
  }

  lemma ParsePartsQuad(a: string, b: string, c: string, d: string)
    ensures ParseParts([a, b, c, d]) == [ParseInt(a), ParseInt(b), ParseInt(c), ParseInt(d)]
  {
    ParsePartsCons(d, []);
    ParsePartsCons(c, [d] + []);
    ParsePartsCons(b, [c] + ([d] + []));
    ParsePartsCons(a, [b] + ([c] + ([d] + [])));
    ConsFour(a, b, c, d);
    ConsFour(ParseInt(a), ParseInt(b), ParseInt(c), ParseInt(d));
  }

  /** For a dotted quad a.b.c.d whose parts read as bytes the result is
      a*2^24 + b*2^16 + c*2^8 + d. */
  lemma IpToIntQuad(a: string, b: string, c: string, d: string, va: int, vb: int, vc: int, vd: int)
    requires PartReads(a, va) && PartReads(b, vb) && PartReads(c, vc) && PartReads(d, vd)
    ensures IpToInt(a + "." + b + "." + c + "." + d) == va * 0x100_0000 + vb * 0x1_0000 + vc * 0x100 + vd
  {
    SplitQuad(a, b, c, d);
    ParsePartsQuad(a, b, c, d);
    FoldQuad(va, vb, vc, vd);
  }

  /** The dotted-quad text of a 32-bit value, most significant octet first. */
  function IntToIp(n: int): (ip: string)
    requires 0 <= n < TWO_32
  {
    NatToString(n / 256 / 256 / 256) + "." + NatToString(n / 256 / 256 % 256) + "."
      + NatToString(n / 256 % 256) + "." + NatToString(n % 256)
  }

  /** The numeral of a byte is a part that reads as that byte. */
  lemma ByteNumeral(k: nat)
    requires k <= 255
    ensures PartReads(NatToString(k), k)
  {
    ParseIntOfNat(k);
  }

  lemma ByteDecomposition(n: int)
    requires 0 <= n < TWO_32
    ensures n / 256 / 256 / 256 <= 255
    ensures n == (n / 256 / 256 / 256) * 0x100_0000 + (n / 256 / 256 % 256) * 0x1_0000
                 + (n / 256 % 256) * 0x100 + n % 256
  {
    var q1 := n / 256;
    var q2 := q1 / 256;
    var q3 := q2 / 256;
    assert n == q1 * 256 + n % 256;
    assert q1 == q2 * 256 + q1 % 256;
    assert q2 == q3 * 256 + q2 % 256;
  }

  /** `ipToInt` inverts the dotted-quad rendering of every 32-bit value. */
  lemma IpToIntOfIntToIp(n: int)
    requires 0 <= n < TWO_32
    ensures IpToInt(IntToIp(n)) == n
  {
    ByteDecomposition(n);
    var a, b, c, d := n / 256 / 256 / 256, n / 256 / 256 % 256, n / 256 % 256, n % 256;
    ByteNumeral(a);
    ByteNumeral(b);
    ByteNumeral(c);
    ByteNumeral(d);
    IpToIntQuad(NatToString(a), NatToString(b), NatToString(c), NatToString(d), a, b, c, d);
  }

  /** The count `1 << (32 - mask)` shifts by: ToUint32 of the difference, low five bits.
      A NaN mask makes the difference NaN, which counts as 0. */
  function ShiftCount(mask: Num): (s: nat)
    ensures s < 32
    ensures mask.Int? ==> s == (32 - mask.i) % 32
  {
    var diff := match mask case NaN => NaN case Int(m) => Int(32 - m);
    var u := ToUint32(diff);
    assert mask.Int? ==> u == (32 - mask.i) % TWO_32;
    u % 32
  }

  function Pow2(n: nat): (p: nat)
    ensures p >= 1
  {
    if n == 0 then 1 else 2 * Pow2(n - 1)
  }

  /** `~((1 << s) - 1)` as a 32-bit pattern: the top 32 - s bits set. */
  function MaskBits(s: bv32): bv32
    requires s < 32
  {
    !(((1 as bv32) << s) - 1)
  }

  /** The mask keeps exactly the bits a right shift by s keeps: ANDing with it is the
      same as shifting right by s and back. */
  lemma MaskKeepsTopBits(x: bv32, s: bv32)
    requires s < 32
    ensures x & MaskBits(s) == (x >> s) << s
  {
  }

  lemma DivMulBound(x: int, p: int)
    requires x >= 0 && p >= 1
    ensures 0 <= x / p * p <= x
  {
  }

  /** The unsigned value of `x & ~((1 << s) - 1)` for `x` in [0, 2^32): shifting right by s
      and back is dividing by 2^s and multiplying again (MaskKeepsTopBits). */
  function ClearLowBits(x: int, s: nat): (r: int)
    requires 0 <= x < TWO_32
    ensures 0 <= r <= x
  {
    DivMulBound(x, Pow2(s));
    x / Pow2(s) * Pow2(s)
  }

  /** `(x & maskInt) === (y & maskInt)`: `&` returns the ToInt32 reading of the masked
      pattern, and `===` compares those two signed results. */
  predicate SameUnderMask(x: int, y: int, s: nat)
    requires 0 <= x < TWO_32 && 0 <= y < TWO_32
  {
    ToInt32(Int(ClearLowBits(x, s))) == ToInt32(Int(ClearLowBits(y, s)))
  }

  /** `isIpInCidr(ip, cidr)`. */
  function IsIpInCidr(ip: string, cidr: string): (inside: bool)
    ensures '/' !in cidr ==> !inside
  {
    if '/' !in cidr then false
    else
      var parts := Split(cidr, '/');
      var s := ShiftCount(ParseInt(parts[1]));
      SameUnderMask(IpToInt(ip), IpToInt(parts[0]), s)
  }

  lemma MulCancel(p: int, q1: int, q2: int)
    requires p > 0
    ensures q1 * p == q2 * p <==> q1 == q2
  {
    if q1 < q2 {
      assert q2 * p - q1 * p == (q2 - q1) * p;
    }
    if q2 < q1 {
      assert q1 * p - q2 * p == (q1 - q2) * p;
    }
  }

  lemma ToInt32Injective(a: int, b: int)
    requires 0 <= a < TWO_32 && 0 <= b < TWO_32
    ensures ToInt32(Int(a)) == ToInt32(Int(b)) <==> a == b
  {
    ToInt32OfUint(a);
    ToInt32OfUint(b);
  }

  /** The masked comparison agrees exactly when the values with the low s bits dropped agree. */
  lemma MaskedEqualIffTopBitsEqual(x: int, y: int, s: nat)
    requires 0 <= x < TWO_32 && 0 <= y < TWO_32
    ensures SameUnderMask(x, y, s) <==> x / Pow2(s) == y / Pow2(s)
  {
    ToInt32Injective(ClearLowBits(x, s), ClearLowBits(y, s));
    MulCancel(Pow2(s), x / Pow2(s), y / Pow2(s));
  }

  /** With a shift count of 0 the mask keeps every bit. */
  lemma SameUnderNoMask(x: int, y: int)
    requires 0 <= x < TWO_32 && 0 <= y < TWO_32
    ensures SameUnderMask(x, y, 0) <==> x == y
  {
    assert Pow2(0) == 1;
    MaskedEqualIffTopBitsEqual(x, y, 0);
  }

  lemma SplitCidr(range: string, bits: string)
    requires '/' !in range
    ensures '/' in range + "/" + bits
    ensures Split(range + "/" + bits, '/')[0] == range
    ensures '/' !in bits ==> Split(range + "/" + bits, '/')[1] == bits
  {
    assert (range + "/" + bits)[|range|] == '/';
    assert range + "/" + bits == range + ['/'] + bits;
    SplitCons(range, '/', bits);
  }

  lemma ShiftCountOfPrefix(n: int)
    requires 1 <= n <= 32
    ensures ShiftCount(Int(n)) == 32 - n
  {
  }

  lemma ShiftCountExact(mask: Num)
    requires mask == Int(32) || mask == Int(0) || mask == NaN
    ensures ShiftCount(mask) == 0
  {
  }

  /** The test on `range + "/" + bits` compares the two addresses under the mask that `bits` gives. */
  lemma CidrUnfold(ip: string, range: string, bits: string)
    requires '/' !in range && '/' !in bits
    ensures IsIpInCidr(ip, range + "/" + bits) == SameUnderMask(IpToInt(ip), IpToInt(range), ShiftCount(ParseInt(bits)))
  {
    SplitCidr(range, bits);
  }

  /** For a prefix n in 1..32, an address is inside `range/n` iff its top n bits equal
      those of the range address, that is, the two agree after dropping the low 32 - n bits. */
  lemma CidrPrefixMatch(ip: string, range: string, bits: string, n: int)
    requires '/' !in range && '/' !in bits
    requires ParseInt(bits) == Int(n) && 1 <= n <= 32
    ensures IsIpInCidr(ip, range + "/" + bits) <==>
            IpToInt(ip) / Pow2(32 - n) == IpToInt(range) / Pow2(32 - n)
  {
    CidrUnfold(ip, range, bits);
    ShiftCountOfPrefix(n);
    MaskedEqualIffTopBitsEqual(IpToInt(ip), IpToInt(range), 32 - n);
  }

  /** `/32`, `/0` and an unparsable prefix all make the test an exact comparison of the
      two addresses: the shift count 32 wraps to 0, and NaN counts as 0. */
  lemma CidrExactMatch(ip: string, range: string, bits: string)
    requires '/' !in range && '/' !in bits
    requires ParseInt(bits) == Int(32) || ParseInt(bits) == Int(0) || ParseInt(bits) == NaN
    ensures IsIpInCidr(ip, range + "/" + bits) <==> IpToInt(ip) == IpToInt(range)
  {
    CidrUnfold(ip, range, bits);
    ShiftCountExact(ParseInt(bits));
    SameUnderNoMask(IpToInt(ip), IpToInt(range));
  }

  /** Every address is inside any prefix written after itself. */
  lemma CidrReflexive(ip: string, bits: string)
    requires '/' !in ip
    ensures IsIpInCidr(ip, ip + "/" + bits)
  {
    SplitCidr(ip, bits);
  }

  // ---------------------------------------------------------------------------
  // The zero-length prefix

  /** As written, `/0` admits only the range address itself: `1 << 32` is `1 << 0`. */
  lemma ZeroPrefixIsExact(ip: string, range: string, zero: string)
    requires '/' !in range && zero == "0"
    ensures IsIpInCidr(ip, range + "/" + zero) <==> IpToInt(ip) == IpToInt(range)
  {
    ZeroReads(zero);
    CidrExactMatch(ip, range, zero);
  }

  lemma ZeroReads(zero: string)
    requires zero == "0"
    ensures '/' !in zero && ParseInt(zero) == Int(0)
  {
    ParseIntDigits(zero, []);
    assert zero + [] == zero;
  }

  /** The dotted quad of any address holds digits and dots only. */
  lemma IntToIpNoSlash(n: int)
    requires 0 <= n < TWO_32
    ensures '/' !in IntToIp(n)
  {
  }

  /** As written, an address different from the range address is outside `range/0`,
      though every address is inside the zero-length prefix (section 3.1 of RFC 4632)
      and so inside it under the corrected test. For instance 10.0.0.1 (x = 0x0A000001)
      is outside 0.0.0.0/0 (y = 0). */
  lemma ZeroPrefixCounterexample(x: int, y: int, zero: string)
    requires 0 <= x < TWO_32 && 0 <= y < TWO_32 && x != y && zero == "0"
    ensures !IsIpInCidr(IntToIp(x), IntToIp(y) + "/" + zero)
    ensures IsIpInCidrCorrected(IntToIp(x), IntToIp(y) + "/" + zero)
  {
    IpToIntOfIntToIp(x);
    IpToIntOfIntToIp(y);
    IntToIpNoSlash(y);
    ZeroPrefixIsExact(IntToIp(x), IntToIp(y), zero);
    CorrectedZeroPrefix(IntToIp(x), IntToIp(y), zero);
  }

  /** The comparison the code evidently intends for addresses x and y and a parsed
      prefix: the top n bits for n in 0..32; no match for any other prefix. */
  predicate PrefixAgree(x: int, y: int, prefix: Num)
  {
    match prefix
    case Int(n) => 0 <= n <= 32 && x / Pow2(32 - n) == y / Pow2(32 - n)
    case NaN => false
  }

  /** `isIpInCidr` with the intended mask, so that `/0` contains every address. */
  function IsIpInCidrCorrected(ip: string, cidr: string): (inside: bool)
    ensures '/' !in cidr ==> !inside
  {
    if '/' !in cidr then false
    else
      var parts := Split(cidr, '/');
      PrefixAgree(IpToInt(ip), IpToInt(parts[0]), ParseInt(parts[1]))
  }

  lemma {:induction false} Pow2Add(a: nat, b: nat)
    ensures Pow2(a + b) == Pow2(a) * Pow2(b)
    decreases a
  {
    if a > 0 {
      Pow2Add(a - 1, b);
      assert Pow2(a + b) == 2 * Pow2(a - 1 + b);
    }
  }

  lemma Pow2ThirtyTwo()
    ensures Pow2(32) == TWO_32
  {
    assert Pow2(8) == 256;
    Pow2Add(8, 8);
    Pow2Add(16, 16);
  }

  /** With the intended mask, a prefix n in 0..32 compares exactly the top n bits. */
  lemma CorrectedPrefixMatch(ip: string, range: string, bits: string, n: int)
    requires '/' !in range && '/' !in bits
    requires ParseInt(bits) == Int(n) && 0 <= n <= 32
    ensures IsIpInCidrCorrected(ip, range + "/" + bits) <==>
            IpToInt(ip) / Pow2(32 - n) == IpToInt(range) / Pow2(32 - n)
  {
    CorrectedUnfold(ip, range, bits);
    PrefixAgreeOfInt(IpToInt(ip), IpToInt(range), n);
  }

  lemma PrefixAgreeOfInt(x: int, y: int, n: int)
    requires 0 <= n <= 32
    ensures PrefixAgree(x, y, Int(n)) <==> x / Pow2(32 - n) == y / Pow2(32 - n)
  {
  }

  lemma CorrectedUnfold(ip: string, range: string, bits: string)
    requires '/' !in range && '/' !in bits
    ensures IsIpInCidrCorrected(ip, range + "/" + bits) == PrefixAgree(IpToInt(ip), IpToInt(range), ParseInt(bits))
  {
    SplitCidr(range, bits);
  }

  /** With the intended mask the zero-length prefix contains every address. */
  lemma CorrectedZeroPrefix(ip: string, range: string, zero: string)
    requires '/' !in range && zero == "0"
    ensures IsIpInCidrCorrected(ip, range + "/" + zero)
  {
    ZeroReads(zero);
    CorrectedPrefixMatch(ip, range, zero, 0);
    Pow2ThirtyTwo();
    DivBelow(IpToInt(ip), Pow2(32));
    DivBelow(IpToInt(range), Pow2(32));
  }

  lemma DivBelow(x: int, p: int)
    requires 0 <= x < p
    ensures x / p == 0
  {
  }

  /** For prefixes 1..32 the corrected test and the code agree. */
  lemma CorrectedAgreesOnProperPrefixes(ip: string, range: string, bits: string, n: int)
    requires '/' !in range && '/' !in bits
    requires ParseInt(bits) == Int(n) && 1 <= n <= 32
    ensures IsIpInCidrCorrected(ip, range + "/" + bits) == IsIpInCidr(ip, range + "/" + bits)
  {
    CorrectedPrefixMatch(ip, range, bits, n);
    CidrPrefixMatch(ip, range, bits, n);
  }
}
