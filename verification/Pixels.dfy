/** RGB565 pixels and their packed averages. A 32-bit word holds two pixels, the left one in
    its low half. */
module Pixels {

  function Red(c: bv32): bv32 { (c >> 11) & 0x1F }

  function Green(c: bv32): bv32 { (c >> 5) & 0x3F }

  function Blue(c: bv32): bv32 { c & 0x1F }

  function Average16(c1: bv32, c2: bv32): bv32 {
    (c1 + c2 + ((c1 ^ c2) & 0x0821)) >> 1
  }

  // wrapping 32-bit addition, unsigned comparison, and the bits in which two words differ at the
  // bottom of a field
  function Sum(x: bv32, y: bv32): bv32 { x + y }

  predicate Less(x: bv32, y: bv32) { x < y }

  function Mask(x: bv32, y: bv32): bv32 { (x ^ y) & 0x0821_0821 }

  /** The same on two pixels at once; a carry out of either addition becomes the top bit. */
  function Average32(c1: bv32, c2: bv32): bv32 {
    var sum := Sum(c1, c2);
    var ret := Sum(sum, Mask(c1, c2));
    var of: bv32 := if Less(sum, c1) || Less(ret, sum) then 0x8000_0000 else 0;
    (ret >> 1) | of
  }

  function Mean(x: bv32, y: bv32): bv32 { (x + y + 1) >> 1 }

  // ---- Average16, channel by channel ----

  lemma RedMean(a: bv32, b: bv32)
    requires a <= 0xFFFF && b <= 0xFFFF
    ensures Red(Average16(a, b)) == Mean(Red(a), Red(b))
  {
  }

  lemma GreenMean(a: bv32, b: bv32)
    requires a <= 0xFFFF && b <= 0xFFFF
    ensures Green(Average16(a, b)) == Mean(Green(a), Green(b))
  {
  }

  lemma BlueMean(a: bv32, b: bv32)
    requires a <= 0xFFFF && b <= 0xFFFF
    ensures Blue(Average16(a, b)) == Mean(Blue(a), Blue(b))
  {
  }

  lemma Average16Small(a: bv32, b: bv32)
    requires a <= 0xFFFF && b <= 0xFFFF
    ensures Average16(a, b) <= 0xFFFF
  {
  }

  /** Each channel of the average is the rounded-up mean of that channel alone. */
  lemma Average16IsMean(a: bv32, b: bv32)
    requires a <= 0xFFFF && b <= 0xFFFF
    ensures var m := Average16(a, b);
            && m <= 0xFFFF
            && Red(m) == Mean(Red(a), Red(b))
            && Green(m) == Mean(Green(a), Green(b))
            && Blue(m) == Mean(Blue(a), Blue(b))
  {
    hide *;
    RedMean(a, b);
    GreenMean(a, b);
    BlueMean(a, b);
    Average16Small(a, b);
  }

  // ---- the carry out of a wrapping addition, one byte at a time ----

  function ByteSum(x: bv32, y: bv32, c: bv32): bv32 { (x + y + c) & 0xFF }

  function ByteOut(x: bv32, y: bv32, c: bv32): bv32 { (x + y + c) >> 8 }

  // the four bytes of a word
  function Low8(x: bv32): bv32 { x & 0xFF }

  function Byte1(x: bv32): bv32 { (x >> 8) & 0xFF }

  function Byte2(x: bv32): bv32 { (x >> 16) & 0xFF }

  function Byte3(x: bv32): bv32 { x >> 24 }

  // the carries into those bytes, and out of the top one
  function Carry8(x: bv32, y: bv32): bv32 { ((x & 0xFF) + (y & 0xFF)) >> 8 }

  function Carry16(x: bv32, y: bv32): bv32 { ((x & 0xFFFF) + (y & 0xFFFF)) >> 16 }

  function Carry24(x: bv32, y: bv32): bv32 { ((x & 0xFF_FFFF) + (y & 0xFF_FFFF)) >> 24 }

  function Carry32(x: bv32, y: bv32): bv32 {
    ((x >> 24) + (y >> 24) + (((x & 0xFF_FFFF) + (y & 0xFF_FFFF)) >> 24)) >> 8
  }

  lemma CarryChain8(x: bv32, y: bv32)
    ensures Carry8(x, y) == ByteOut(Low8(x), Low8(y), 0)
  {
  }

  lemma CarryChain16(x: bv32, y: bv32)
    ensures Carry16(x, y) == ByteOut(Byte1(x), Byte1(y), Carry8(x, y))
  {
  }

  lemma CarryChain24(x: bv32, y: bv32)
    ensures Carry24(x, y) == ByteOut(Byte2(x), Byte2(y), Carry16(x, y))
  {
  }

  lemma CarryChain32(x: bv32, y: bv32)
    ensures Carry32(x, y) == ByteOut(Byte3(x), Byte3(y), Carry24(x, y))
  {
  }

  /** Drop the top byte. */
  function Shl8(x: bv32): bv32 { x << 8 }

  lemma TopByteFirst(x: bv32, y: bv32)
    ensures Less(x, y) <==> Less(x >> 24, y >> 24) || (x >> 24 == y >> 24 && Less(x << 8, y << 8))
  {
  }

  lemma LessByTopByte(x: bv32, y: bv32)
    ensures Less(x, y) <==> Less(Byte3(x), Byte3(y)) || (Byte3(x) == Byte3(y) && Less(Shl8(x), Shl8(y)))
  {
    hide Less;
    TopByteFirst(x, y);
  }

  lemma Shifted(x: bv32)
    ensures Byte3(Shl8(x)) == Byte2(x) && Byte3(Shl8(Shl8(x))) == Byte1(x)
    ensures Byte3(Shl8(Shl8(Shl8(x)))) == Low8(x) && Shl8(Shl8(Shl8(Shl8(x)))) == 0
  {
  }

  lemma PartsSmall(x: bv32)
    ensures Low8(x) <= 0xFF && Byte1(x) <= 0xFF && Byte2(x) <= 0xFF && Byte3(x) <= 0xFF
  {
  }

  /** Unsigned comparison, byte by byte from the top. */
  lemma LessByBytes(x: bv32, y: bv32)
    ensures Less(x, y) <==>
      Less(Byte3(x), Byte3(y)) || (Byte3(x) == Byte3(y)
      && (Less(Byte2(x), Byte2(y)) || (Byte2(x) == Byte2(y)
      && (Less(Byte1(x), Byte1(y)) || (Byte1(x) == Byte1(y) && Less(Low8(x), Low8(y)))))))
  {
    assert !Less(0, 0);
    hide *;
    Shifted(x);
    Shifted(y);
    LessByTopByte(x, y);
    LessByTopByte(Shl8(x), Shl8(y));
    LessByTopByte(Shl8(Shl8(x)), Shl8(Shl8(y)));
    LessByTopByte(Shl8(Shl8(Shl8(x))), Shl8(Shl8(Shl8(y))));
  }

  lemma SumByte0(x: bv32, y: bv32)
    ensures Low8(Sum(x, y)) == ByteSum(Low8(x), Low8(y), 0)
  {
  }

  lemma SumByte1(x: bv32, y: bv32)
    ensures Byte1(Sum(x, y)) == ByteSum(Byte1(x), Byte1(y), Carry8(x, y))
  {
  }

  lemma SumByte2(x: bv32, y: bv32)
    ensures Byte2(Sum(x, y)) == ByteSum(Byte2(x), Byte2(y), Carry16(x, y))
  {
  }

  lemma SumByte3(x: bv32, y: bv32)
    ensures Byte3(Sum(x, y)) == ByteSum(Byte3(x), Byte3(y), Carry24(x, y))
  {
  }

  /** A byte addition with carry in: it carries out exactly when the result compares as less. */
  lemma ByteCarry(x: bv32, y: bv32, c: bv32)
    requires x <= 0xFF && y <= 0xFF && c <= 1
    ensures var s := ByteSum(x, y, c); (Less(s, x) || (s == x && c == 1)) <==> ByteOut(x, y, c) == 1
    ensures ByteOut(x, y, c) <= 1
  {
  }

  /** Unsigned wrap-around is exactly what the comparison in the code detects. */
  lemma CarryOut(x: bv32, y: bv32)
    ensures Less(Sum(x, y), x) <==> Carry32(x, y) == 1
    ensures Carry32(x, y) <= 1
  {
    hide *;
    CarryChain8(x, y);
    CarryChain16(x, y);
    CarryChain24(x, y);
    CarryChain32(x, y);
    PartsSmall(x);
    PartsSmall(y);
    SumByte0(x, y);
    SumByte1(x, y);
    SumByte2(x, y);
    SumByte3(x, y);
    LessByBytes(Sum(x, y), x);
    ByteCarry(Low8(x), Low8(y), 0);
    ByteCarry(Byte1(x), Byte1(y), Carry8(x, y));
    ByteCarry(Byte2(x), Byte2(y), Carry16(x, y));
    ByteCarry(Byte3(x), Byte3(y), Carry24(x, y));
  }

  // ---- Average32 ----

  function Lo(c: bv32): bv32 { c & 0xFFFF }

  function Hi(c: bv32): bv32 { c >> 16 }

  function Ret(a: bv32, b: bv32): bv32 { Sum(Sum(a, b), Mask(a, b)) }

  function Halved(ret: bv32, carry: bool): bv32 { (ret >> 1) | if carry then 0x8000_0000 else 0 }

  function Lower(ret: bv32): bv32 { (ret >> 1) & 0xFFFF }

  function Upper(ret: bv32): bv32 { ret >> 17 }

  function Low4(m: bv32): bv32 { m & 0xF }

  predicate TopBit(m: bv32) { m & 0x10 != 0 }

  lemma LowRed(a: bv32, b: bv32)
    ensures Red(Lower(Ret(a, b))) == Mean(Red(Lo(a)), Red(Lo(b)))
  {
  }

  lemma LowGreen(a: bv32, b: bv32)
    ensures Green(Lower(Ret(a, b))) == Mean(Green(Lo(a)), Green(Lo(b)))
  {
  }

  lemma LowBlue(a: bv32, b: bv32)
    ensures Blue(Lower(Ret(a, b))) == Mean(Blue(Lo(a)), Blue(Lo(b)))
  {
  }

  lemma HighBlue(a: bv32, b: bv32)
    ensures Blue(Upper(Ret(a, b))) == Mean(Blue(Hi(a)), Blue(Hi(b)))
  {
  }

  lemma HighGreen(a: bv32, b: bv32)
    ensures Green(Upper(Ret(a, b))) == Mean(Green(Hi(a)), Green(Hi(b)))
  {
  }

  lemma HighRed(a: bv32, b: bv32)
    ensures Red(Upper(Ret(a, b))) == Low4(Mean(Red(Hi(a)), Red(Hi(b))))
  {
  }

  function Or(x: bv32, y: bv32): bv32 { x | y }

  function MeanCarry(a: bv32, b: bv32): bv32 { ((((a >> 27) & 0x1F) + ((b >> 27) & 0x1F) + 1) >> 5) & 1 }

  lemma CarriesMeetRaw(a: bv32, b: bv32)
    ensures Or(Carry32(a, b), Carry32(a + b, (a ^ b) & 0x0821_0821)) == MeanCarry(a, b)
  {
  }

  lemma CarriesMeet(a: bv32, b: bv32)
    ensures Or(Carry32(a, b), Carry32(Sum(a, b), Mask(a, b))) == MeanCarry(a, b)
  {
    hide Carry32, MeanCarry, Or;
    CarriesMeetRaw(a, b);
  }

  lemma OneOfTwo(x: bv32, y: bv32)
    requires x <= 1 && y <= 1
    ensures Or(x, y) == 1 <==> x == 1 || y == 1
  {
  }

  lemma TopBitOfMean(a: bv32, b: bv32)
    ensures TopBit(Mean(Red(Hi(a)), Red(Hi(b)))) <==> MeanCarry(a, b) == 1
  {
  }

  /** One of the two additions carries exactly when the red mean of the right pixel needs its
      top bit. */
  lemma HighCarry(a: bv32, b: bv32)
    ensures Less(Sum(a, b), a) || Less(Ret(a, b), Sum(a, b)) <==> TopBit(Mean(Red(Hi(a)), Red(Hi(b))))
  {
    assert Ret(a, b) == Sum(Sum(a, b), Mask(a, b));
    hide *;
    CarryOut(a, b);
    CarryOut(Sum(a, b), Mask(a, b));
    CarriesMeet(a, b);
    OneOfTwo(Carry32(a, b), Carry32(Sum(a, b), Mask(a, b)));
    TopBitOfMean(a, b);
  }

  lemma SameFields(x: bv32, y: bv32)
    requires x <= 0xFFFF && y <= 0xFFFF
    requires Red(x) == Red(y) && Green(x) == Green(y) && Blue(x) == Blue(y)
    ensures x == y
  {
  }

  lemma HalvedLow(ret: bv32, carry: bool)
    ensures Lo(Halved(ret, carry)) == Lower(ret)
  {
  }

  lemma HalvedBlue(ret: bv32, carry: bool)
    ensures Blue(Hi(Halved(ret, carry))) == Blue(Upper(ret))
  {
  }

  lemma HalvedGreen(ret: bv32, carry: bool)
    ensures Green(Hi(Halved(ret, carry))) == Green(Upper(ret))
  {
  }

  lemma HalvedRed(ret: bv32, carry: bool, m: bv32)
    requires Red(Upper(ret)) == Low4(m) && m <= 0x1F && (carry <==> TopBit(m))
    ensures Red(Hi(Halved(ret, carry))) == m
  {
  }

  lemma HalvesSmall(c: bv32)
    ensures Lo(c) <= 0xFFFF && Hi(c) <= 0xFFFF && Lower(c) <= 0xFFFF
  {
  }

  lemma MeanSmall(c: bv32, d: bv32)
    ensures Mean(Red(c), Red(d)) <= 0x1F
  {
  }

  lemma LowerIsAverage(a: bv32, b: bv32)
    ensures Lower(Ret(a, b)) == Average16(Lo(a), Lo(b))
  {
    hide *;
    HalvesSmall(a);
    HalvesSmall(b);
    HalvesSmall(Ret(a, b));
    LowRed(a, b);
    LowGreen(a, b);
    LowBlue(a, b);
    Average16IsMean(Lo(a), Lo(b));
    SameFields(Lower(Ret(a, b)), Average16(Lo(a), Lo(b)));
  }

  lemma UpperIsAverage(a: bv32, b: bv32, carry: bool)
    requires carry <==> TopBit(Mean(Red(Hi(a)), Red(Hi(b))))
    ensures Hi(Halved(Ret(a, b), carry)) == Average16(Hi(a), Hi(b))
  {
    hide *;
    HighRed(a, b);
    MeanSmall(Hi(a), Hi(b));
    HalvedBlue(Ret(a, b), carry);
    HalvedGreen(Ret(a, b), carry);
    HalvedRed(Ret(a, b), carry, Mean(Red(Hi(a)), Red(Hi(b))));
    HalvesSmall(a);
    HalvesSmall(b);
    HalvesSmall(Halved(Ret(a, b), carry));
    HighBlue(a, b);
    HighGreen(a, b);
    Average16IsMean(Hi(a), Hi(b));
    SameFields(Hi(Halved(Ret(a, b), carry)), Average16(Hi(a), Hi(b)));
  }

  lemma Average32Is(a: bv32, b: bv32)
    ensures Average32(a, b) == Halved(Ret(a, b), Less(Sum(a, b), a) || Less(Ret(a, b), Sum(a, b)))
  {
    hide Sum, Less, Mask;
  }

  /** The wrapping 32-bit average is the two 16-bit averages side by side, top carry included. */
  lemma Average32IsTwo(a: bv32, b: bv32)
    ensures Lo(Average32(a, b)) == Average16(Lo(a), Lo(b))
    ensures Hi(Average32(a, b)) == Average16(Hi(a), Hi(b))
  {
    hide *;
    var carry := Less(Sum(a, b), a) || Less(Ret(a, b), Sum(a, b));
    Average32Is(a, b);
    HighCarry(a, b);
    UpperIsAverage(a, b, carry);
    HalvedLow(Ret(a, b), carry);
    LowerIsAverage(a, b);
  }

  // ---- averages stay within the channel ranges of what they average ----

  datatype Range = Range(red: (bv32, bv32), green: (bv32, bv32), blue: (bv32, bv32))

  predicate Between(x: bv32, r: (bv32, bv32)) { r.0 <= x <= r.1 }

  /** Every channel of the pixel lies in its range. */
  predicate Within(c: bv32, r: Range) {
    c <= 0xFFFF && Between(Red(c), r.red) && Between(Green(c), r.green) && Between(Blue(c), r.blue)
  }

  lemma MeanBetween(x: bv32, y: bv32, r: (bv32, bv32))
    requires x <= 0x3F && y <= 0x3F && Between(x, r) && Between(y, r)
    ensures Between(Mean(x, y), r)
  {
  }

  lemma FieldsSmall(c: bv32)
    ensures Red(c) <= 0x3F && Green(c) <= 0x3F && Blue(c) <= 0x3F
  {
  }

  lemma AverageWithin(a: bv32, b: bv32, r: Range)
    requires Within(a, r) && Within(b, r)
    ensures Within(Average16(a, b), r)
  {
    hide Red, Green, Blue, Average16, Mean, Between;
    FieldsSmall(a);
    FieldsSmall(b);
    Average16IsMean(a, b);
    MeanBetween(Red(a), Red(b), r.red);
    MeanBetween(Green(a), Green(b), r.green);
    MeanBetween(Blue(a), Blue(b), r.blue);
  }

  lemma AverageSelf(a: bv32)
    requires a <= 0xFFFF
    ensures Average16(a, a) == a
  {
  }

  // ---- reading and writing pixel pairs as words ----

  function Word(lo: bv32, hi: bv32): bv32 { lo | (hi << 16) }

  lemma WordHalves(lo: bv32, hi: bv32)
    requires lo <= 0xFFFF && hi <= 0xFFFF
    ensures Lo(Word(lo, hi)) == lo && Hi(Word(lo, hi)) == hi
  {
  }
}
