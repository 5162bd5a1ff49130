/**
 The error detection of the IMU link: an 8-bit exclusive-or checksum and a 16-bit CRC
 computed without a table, a byte at a time.
 */
module ErrorDetection {
  import opened ShiftRegister
  import opened CrcTheory

  /** Generator x^16 + x^12 + x^5 + 1. */
  const CCITT: bv32 := 0x1021

  // ----- checksum

  function XorAll(data: seq<bv8>): bv8 {
    if data == [] then 0 else XorAll(data[..|data| - 1]) ^ data[|data| - 1]
  }

  method Checksum8(data: seq<bv8>) returns (xorVal: bv8)
    ensures xorVal == XorAll(data)
  {
    xorVal := 0;
    for i := 0 to |data|
      invariant xorVal == XorAll(data[..i])
    {
      assert data[..i + 1][..i] == data[..i];
      xorVal := xorVal ^ data[i];
    }
    assert data[..|data|] == data;
  }

  lemma {:induction false} XorAllJoin(a: seq<bv8>, b: seq<bv8>)
    ensures XorAll(a + b) == XorAll(a) ^ XorAll(b)
    decreases |b|
  {
    if b == [] {
      assert a + b == a;
    } else {
      var last := |b| - 1;
      assert (a + b)[..|a| + last] == a + b[..last];
      XorAllJoin(a, b[..last]);
      ByteXorAssoc(XorAll(a), XorAll(b[..last]), b[last]);
    }
  }

  lemma ByteXorAssoc(a: bv8, b: bv8, c: bv8)
    ensures (a ^ b) ^ c == a ^ (b ^ c)
  {
  }

  lemma ByteXorInjective(a: bv8, b: bv8, x: bv8, y: bv8)
    ensures (a ^ x) ^ b == (a ^ y) ^ b <==> x == y
  {
  }

  /** Changing one byte always changes the checksum. */
  lemma OneByteErrorDetected(data: seq<bv8>, k: nat, b: bv8)
    requires k < |data| && b != data[k]
    ensures XorAll(data[k := b]) != XorAll(data)
  {
    var head, tail := data[..k], data[k + 1..];
    assert data == head + [data[k]] + tail;
    assert data[k := b] == head + [b] + tail;
    XorAllJoin(head + [data[k]], tail);
    XorAllJoin(head + [b], tail);
    assert (head + [data[k]])[..k] == head && (head + [b])[..k] == head;
    ByteXorInjective(XorAll(head), XorAll(tail), data[k], b);
  }

  // ----- CRC

  function Xor16(a: bv16, b: bv16): bv16 {
    a ^ b
  }

  function SwapBytes(r: bv16): bv16 {
    (r >> 8) | (r << 8)
  }

  /** The high nibble of the low byte. */
  function HighNibble(r: bv16): bv16 {
    (r & 0xFF) >> 4
  }

  function By12(r: bv16): bv16 {
    (r << 8) << 4
  }

  /** The low byte, five places up. */
  function LowBy5(r: bv16): bv16 {
    ((r & 0xFF) << 4) << 1
  }

  /** A register widened to the words of the shift register theory. */
  function Wide(r: bv16): bv32 {
    r as bv32
  }

  function WideByte(d: bv8): bv16 {
    d as bv16
  }

  /** One byte of the table-free CRC: swap the register's bytes, add the data, then fold
      nibbles.  Every intermediate value is cut to 16 bits. */
  function NibbleStep(crc: bv16, d: bv8): bv16 {
    var crc1 := Xor16(SwapBytes(crc), WideByte(d));
    var crc2 := Xor16(crc1, HighNibble(crc1));
    var crc3 := Xor16(crc2, By12(crc2));
    Xor16(crc3, LowBy5(crc3))
  }

  function Crc16Of(data: seq<bv8>): bv16 {
    if data == [] then 0 else NibbleStep(Crc16Of(data[..|data| - 1]), data[|data| - 1])
  }

  /** Computes the CRC and, with it, the remainder of the message under long division. */
  method Crc16(data: seq<bv8>) returns (crc: bv16)
    ensures crc == Crc16Of(data)
    ensures Wide(crc) == Divide(16, CCITT, 0, MessageBits(data) + Zeros(16))
  {
    hide Xor16, SwapBytes, HighNibble, By12, LowBy5, Divide, MessageBits, Zeros, Wide, WideByte;
    crc := 0;
    for i := 0 to |data|
      invariant crc == Crc16Of(data[..i])
    {
      assert data[..i + 1][..i] == data[..i];
      crc := SwapBytes(crc);
      crc := Xor16(crc, WideByte(data[i]));
      crc := Xor16(crc, HighNibble(crc));
      crc := Xor16(crc, By12(crc));
      crc := Xor16(crc, LowBy5(crc));
    }
    assert data[..|data|] == data;
    Crc16IsRemainder(data);
  }

  // ----- the nibble step is linear

  lemma RawAssoc16(a: bv16, b: bv16, c: bv16)
    ensures (a ^ b) ^ c == a ^ (b ^ c)
  {
  }

  lemma Assoc16(a: bv16, b: bv16, c: bv16)
    ensures Xor16(Xor16(a, b), c) == Xor16(a, Xor16(b, c))
  {
    RawAssoc16(a, b, c);
  }

  lemma Comm16(a: bv16, b: bv16)
    ensures Xor16(a, b) == Xor16(b, a)
  {
  }

  lemma Exchange16(a: bv16, b: bv16, c: bv16, d: bv16)
    ensures Xor16(Xor16(a, b), Xor16(c, d)) == Xor16(Xor16(a, c), Xor16(b, d))
  {
    hide Xor16;
    Assoc16(Xor16(a, b), c, d);
    Assoc16(a, b, c);
    Comm16(b, c);
    Assoc16(a, c, b);
    Assoc16(Xor16(a, c), b, d);
  }

  lemma RawLinear(a: bv16, b: bv16)
    ensures ((a ^ b) >> 8) | ((a ^ b) << 8) == ((a >> 8) | (a << 8)) ^ ((b >> 8) | (b << 8))
    ensures ((a ^ b) & 0xFF) >> 4 == ((a & 0xFF) >> 4) ^ ((b & 0xFF) >> 4)
    ensures ((a ^ b) << 8) << 4 == ((a << 8) << 4) ^ ((b << 8) << 4)
    ensures (((a ^ b) & 0xFF) << 4) << 1 == (((a & 0xFF) << 4) << 1) ^ (((b & 0xFF) << 4) << 1)
  {
  }

  lemma SwapLinear(a: bv16, b: bv16)
    ensures SwapBytes(Xor16(a, b)) == Xor16(SwapBytes(a), SwapBytes(b))
  {
    RawLinear(a, b);
  }

  lemma HighNibbleLinear(a: bv16, b: bv16)
    ensures HighNibble(Xor16(a, b)) == Xor16(HighNibble(a), HighNibble(b))
  {
    RawLinear(a, b);
  }

  lemma By12Linear(a: bv16, b: bv16)
    ensures By12(Xor16(a, b)) == Xor16(By12(a), By12(b))
  {
    RawLinear(a, b);
  }

  lemma LowBy5Linear(a: bv16, b: bv16)
    ensures LowBy5(Xor16(a, b)) == Xor16(LowBy5(a), LowBy5(b))
  {
    RawLinear(a, b);
  }

  lemma RawWide(a: bv16, b: bv16, d: bv8, e: bv8)
    ensures (a ^ b) as bv32 == (a as bv32) ^ (b as bv32)
    ensures (d ^ e) as bv16 == (d as bv16) ^ (e as bv16)
  {
  }

  lemma WideByteLinear(d: bv8, e: bv8)
    ensures WideByte(ByteXor(d, e)) == Xor16(WideByte(d), WideByte(e))
  {
    RawWide(0, 0, d, e);
  }

  lemma WideLinear(a: bv16, b: bv16)
    ensures Wide(Xor16(a, b)) == Xor(Wide(a), Wide(b))
  {
    RawWide(a, b, 0, 0);
  }

  lemma NibbleStepLinear(a: bv16, d: bv8, b: bv16, e: bv8)
    ensures NibbleStep(Xor16(a, b), ByteXor(d, e)) == Xor16(NibbleStep(a, d), NibbleStep(b, e))
  {
    hide Xor16, ByteXor, SwapBytes, HighNibble, By12, LowBy5, WideByte;
    SwapLinear(a, b);
    WideByteLinear(d, e);
    var a1, b1 := Xor16(SwapBytes(a), WideByte(d)), Xor16(SwapBytes(b), WideByte(e));
    Exchange16(SwapBytes(a), SwapBytes(b), WideByte(d), WideByte(e));
    HighNibbleLinear(a1, b1);
    var a2, b2 := Xor16(a1, HighNibble(a1)), Xor16(b1, HighNibble(b1));
    Exchange16(a1, b1, HighNibble(a1), HighNibble(b1));
    By12Linear(a2, b2);
    var a3, b3 := Xor16(a2, By12(a2)), Xor16(b2, By12(b2));
    Exchange16(a2, b2, By12(a2), By12(b2));
    LowBy5Linear(a3, b3);
    Exchange16(a3, b3, LowBy5(a3), LowBy5(b3));
  }

  // ----- folding nibbles is eight shifts, bit by bit

  /** On this register and byte the nibble step is eight bit-serial shifts. */
  ghost predicate Agree(crc: bv16, d: bv8) {
    Wide(NibbleStep(crc, d)) == ByteStep(16, CCITT, Wide(crc), d)
  }

  lemma Exchange(a: bv32, b: bv32, c: bv32, d: bv32)
    ensures Xor(Xor(a, b), Xor(c, d)) == Xor(Xor(a, c), Xor(b, d))
  {
    hide Xor;
    XorAssoc(Xor(a, b), c, d);
    XorSwap(a, b, c);
    XorAssoc(Xor(a, c), b, d);
  }

  lemma AgreeXor(a: bv16, d: bv8, b: bv16, e: bv8)
    requires Agree(a, d) && Agree(b, e)
    ensures Agree(Xor16(a, b), ByteXor(d, e))
  {
    hide NibbleStep, Xor, Xor16, ByteXor, High, Shifts, Wide;
    NibbleStepLinear(a, d, b, e);
    WideLinear(NibbleStep(a, d), NibbleStep(b, e));
    WideLinear(a, b);
    HighLinear(16, d, e);
    Exchange(Wide(a), Wide(b), High(16, d), High(16, e));
    ShiftsXor(16, CCITT, Xor(Wide(a), High(16, d)), Xor(Wide(b), High(16, e)), 8);
  }

  /** Table of the bytes with a single bit: each is the shift of the one before. */
  lemma DoubledByte(d: bv8, x: bv32)
    requires Shifts(16, CCITT, High(16, d), 8) == x && d & 0x80 == 0
    ensures Shifts(16, CCITT, High(16, d << 1), 8) == Shift(16, CCITT, x)
  {
    var h := High(16, d);
    LeftOfHigh(16, d);
    assert Shift(16, CCITT, h) == High(16, d << 1);
    hide Shift, High;
    ShiftCommutes(16, CCITT, h, 8);
  }

  lemma SingleBitBytes()
    ensures Shifts(16, CCITT, High(16, 0), 8) == 0
    ensures Shifts(16, CCITT, High(16, 0x01), 8) == 0x1021
    ensures Shifts(16, CCITT, High(16, 0x02), 8) == 0x2042
    ensures Shifts(16, CCITT, High(16, 0x04), 8) == 0x4084
    ensures Shifts(16, CCITT, High(16, 0x08), 8) == 0x8108
    ensures Shifts(16, CCITT, High(16, 0x10), 8) == 0x1231
    ensures Shifts(16, CCITT, High(16, 0x20), 8) == 0x2462
    ensures Shifts(16, CCITT, High(16, 0x40), 8) == 0x48C4
    ensures Shifts(16, CCITT, High(16, 0x80), 8) == 0x9188
  {
    hide Shifts, High;
    assert High(16, 0) == 0 by { HighOfZero(); }
    ShiftsOfZero(16, CCITT, 8);
    ShiftsOfTopOne(16, CCITT);
    DoubledByte(0x01, 0x1021);
    DoubledByte(0x02, 0x2042);
    DoubledByte(0x04, 0x4084);
    DoubledByte(0x08, 0x8108);
    DoubledByte(0x10, 0x1231);
    DoubledByte(0x20, 0x2462);
    DoubledByte(0x40, 0x48C4);
  }

  lemma HighOfZero()
    ensures High(16, 0) == 0
  {
  }

  lemma NibbleStepOnBits()
    ensures Wide(NibbleStep(0, 0)) == 0
    ensures Wide(NibbleStep(0, 0x01)) == 0x1021
    ensures Wide(NibbleStep(0, 0x02)) == 0x2042
    ensures Wide(NibbleStep(0, 0x04)) == 0x4084
    ensures Wide(NibbleStep(0, 0x08)) == 0x8108
    ensures Wide(NibbleStep(0, 0x10)) == 0x1231
    ensures Wide(NibbleStep(0, 0x20)) == 0x2462
    ensures Wide(NibbleStep(0, 0x40)) == 0x48C4
    ensures Wide(NibbleStep(0, 0x80)) == 0x9188
  {
  }

  lemma WideZero(d: bv8)
    ensures Xor(Wide(0), High(16, d)) == High(16, d)
  {
  }

  lemma AgreeOnDataBits()
    ensures Agree(0, 0)
    ensures Agree(0, 0x01) && Agree(0, 0x02) && Agree(0, 0x04) && Agree(0, 0x08)
    ensures Agree(0, 0x10) && Agree(0, 0x20) && Agree(0, 0x40) && Agree(0, 0x80)
  {
    hide Shifts, High, NibbleStep, Xor, Wide;
    SingleBitBytes();
    NibbleStepOnBits();
    WideZero(0);
    WideZero(0x01);
    WideZero(0x02);
    WideZero(0x04);
    WideZero(0x08);
    WideZero(0x10);
    WideZero(0x20);
    WideZero(0x40);
    WideZero(0x80);
  }

  lemma RawAddBit(x: bv8, mask: bv8, bit: bv8)
    requires mask & bit == 0
    ensures x & (mask | bit) == (x & mask) ^ (x & bit)
  {
  }

  lemma AddBit(d: bv8, mask: bv8, bit: bv8)
    requires mask & bit == 0 && (d & bit == 0 || d & bit == bit)
    requires Agree(0, d & mask) && Agree(0, bit) && Agree(0, 0)
    ensures Agree(0, d & (mask | bit))
  {
    RawAddBit(d, mask, bit);
    assert d & (mask | bit) == ByteXor(d & mask, d & bit);
    assert Xor16(0, 0) == 0;
    hide Agree, ByteXor, Xor16;
    AgreeXor(0, d & mask, 0, d & bit);
  }

  lemma AgreeOnData(d: bv8)
    ensures Agree(0, d)
  {
    AgreeOnDataBits();
    hide Agree;
    assert d & 0 == 0;
    AddBit(d, 0x00, 0x01);
    AddBit(d, 0x01, 0x02);
    AddBit(d, 0x03, 0x04);
    AddBit(d, 0x07, 0x08);
    AddBit(d, 0x0F, 0x10);
    AddBit(d, 0x1F, 0x20);
    AddBit(d, 0x3F, 0x40);
    AddBit(d, 0x7F, 0x80);
    assert d & 0xFF == d;
  }

  // ----- and so on every register

  function TopPart(b: bv8): bv16 {
    (b as bv16) << 8
  }

  lemma RawSwapTop(b: bv8)
    ensures (((b as bv16) << 8) >> 8) | (((b as bv16) << 8) << 8) == b as bv16
    ensures ((b as bv16) >> 8) | ((b as bv16) << 8) == (b as bv16) << 8
  {
  }

  lemma SwapOfTop(b: bv8)
    ensures SwapBytes(TopPart(b)) == WideByte(b)
    ensures SwapBytes(WideByte(b)) == TopPart(b)
  {
    RawSwapTop(b);
  }

  lemma Zero16(r: bv16)
    ensures Xor16(r, 0) == r && Xor16(0, r) == r
    ensures SwapBytes(0) == 0 && WideByte(0) == 0
  {
  }

  /** A byte at the top of the register counts like a data byte. */
  lemma AgreeOnTop(b: bv8)
    ensures Agree(TopPart(b), 0)
  {
    AgreeOnData(b);
    hide Xor16, Xor, SwapBytes, WideByte, HighNibble, By12, LowBy5, TopPart, High, Shifts, Wide;
    SwapOfTop(b);
    Zero16(WideByte(b));
    WideTop(b);
  }

  lemma WideTop(b: bv8)
    ensures Xor(Wide(0), High(16, b)) == Xor(Wide(TopPart(b)), High(16, 0))
    ensures Wide(TopPart(b)) == High(16, b)
  {
    RawWideTop(b);
  }

  lemma RawWideTop(b: bv8)
    ensures ((b as bv16) << 8) as bv32 == (b as bv32) << 8
  {
  }

  lemma RawTopNibbles(b: bv8)
    ensures (((b as bv16) << 8) & 0xFF) >> 4 == 0
    ensures (((b as bv16) << 8) << 8) << 4 == 0
    ensures ((((b as bv16) << 8) & 0xFF) << 4) << 1 == 0
  {
  }

  lemma TopNibbles(b: bv8)
    ensures HighNibble(TopPart(b)) == 0 && By12(TopPart(b)) == 0 && LowBy5(TopPart(b)) == 0
  {
    RawTopNibbles(b);
  }

  /** A byte at the bottom only moves up. */
  lemma AgreeOnBottom(b: bv8)
    ensures Agree(WideByte(b), 0)
  {
    hide Xor16, Xor, SwapBytes, WideByte, HighNibble, By12, LowBy5, TopPart, High, Second, Shifts, Wide;
    SwapOfTop(b);
    Zero16(TopPart(b));
    TopNibbles(b);
    assert NibbleStep(WideByte(b), 0) == TopPart(b);
    WideTop(b);
    WideBottom(b);
    SecondBecomesHigh(16, CCITT, b);
  }

  lemma WideBottom(b: bv8)
    ensures Xor(Wide(WideByte(b)), High(16, 0)) == Second(16, b)
  {
    RawWideBottom(b);
  }

  lemma RawWideBottom(b: bv8)
    ensures (b as bv16) as bv32 == b as bv32
  {
  }

  lemma RawHalves(crc: bv16)
    ensures (((crc >> 8) as bv8 as bv16) << 8) ^ ((crc & 0xFF) as bv8 as bv16) == crc
  {
  }

  lemma Halves(crc: bv16) returns (hi: bv8, lo: bv8)
    ensures crc == Xor16(TopPart(hi), WideByte(lo))
  {
    hi, lo := (crc >> 8) as bv8, (crc & 0xFF) as bv8;
    RawHalves(crc);
  }

  /** Folding nibbles is eight bit-serial shifts, on every register and byte. */
  lemma NibbleStepIsByteStep(crc: bv16, d: bv8)
    ensures Agree(crc, d)
  {
    hide Agree, Xor16, TopPart, WideByte, ByteXor;
    var hi, lo := Halves(crc);
    AgreeOnTop(hi);
    AgreeOnBottom(lo);
    AgreeOnData(d);
    ZeroByte(d);
    AgreeXor(TopPart(hi), 0, WideByte(lo), 0);
    AgreeXor(crc, 0, 0, d);
    Zero16(crc);
  }

  lemma ZeroByte(d: bv8)
    ensures ByteXor(0, d) == d && ByteXor(0, 0) == 0
  {
  }

  lemma {:induction false} Crc16IsRegister(data: seq<bv8>)
    ensures Wide(Crc16Of(data)) == Register(16, CCITT, 0, data)
    decreases |data|
  {
    hide NibbleStep, ByteStep;
    if data != [] {
      var last := |data| - 1;
      Crc16IsRegister(data[..last]);
      NibbleStepIsByteStep(Crc16Of(data[..last]), data[last]);
    }
  }

  /** The nibble trick computes the remainder of the message, followed by 16 zero bits,
      under bit-by-bit long division by x^16 + x^12 + x^5 + 1. */
  lemma Crc16IsRemainder(data: seq<bv8>)
    ensures Wide(Crc16Of(data)) == Divide(16, CCITT, 0, MessageBits(data) + Zeros(16))
  {
    hide Crc16Of, Register, Divide, Serial, Wide;
    Crc16IsRegister(data);
    RegisterIsSerial(16, CCITT, 0, data);
    SerialIsRemainder(16, CCITT, MessageBits(data));
  }

  lemma CcittIsOdd()
    ensures Odd(CCITT) && Fits(16, CCITT) && Fits(16, 0)
  {
  }

  /** Two messages of one length that differ only within two adjacent bytes have different CRCs. */
  lemma Crc16DetectsTwoBytes(m: seq<bv8>, m': seq<bv8>, k: nat)
    requires DifferWithinTwo(m, m', k)
    ensures Crc16Of(m) != Crc16Of(m')
  {
    hide Crc16Of, Register, Odd, Fits, DifferWithinTwo, Wide;
    CcittIsOdd();
    Crc16IsRegister(m);
    Crc16IsRegister(m');
    TwoByteErrorsDetected(16, CCITT, 0, m, m', k);
  }

  /** The 16-bit value sent as `hi`, then `lo`. */
  function BigEndian(hi: bv8, lo: bv8): bv16 {
    Xor16(TopPart(hi), WideByte(lo))
  }

  lemma WidePair(hi: bv8, lo: bv8)
    ensures Wide(BigEndian(hi, lo)) == Pair(16, hi, lo)
  {
    hide Xor16, Xor, TopPart, WideByte, Wide, High, Second;
    WideLinear(TopPart(hi), WideByte(lo));
    WideTop(hi);
    WideSecond(lo);
  }

  lemma WideSecond(lo: bv8)
    ensures Wide(WideByte(lo)) == Second(16, lo)
  {
    RawWideBottom(lo);
  }

  lemma WideInjective(a: bv16, b: bv16)
    requires Wide(a) == Wide(b)
    ensures a == b
  {
  }

  /** A message followed by two bytes has CRC 0 exactly when they are its CRC, high byte first. */
  lemma ResidueIffAppended(data: seq<bv8>, hi: bv8, lo: bv8)
    ensures Crc16Of(data + [hi, lo]) == 0 <==> Crc16Of(data) == BigEndian(hi, lo)
  {
    hide BigEndian, Crc16Of, Register, Odd, Fits, Pair, Wide;
    CcittIsOdd();
    Crc16IsRegister(data);
    Crc16IsRegister(data + [hi, lo]);
    RegisterJoin(16, CCITT, 0, data, [hi, lo]);
    RegisterFits(16, CCITT, 0, data);
    ZeroIffSame(16, CCITT, Wide(Crc16Of(data)), hi, lo);
    WidePair(hi, lo);
    assert Wide(0) == 0 by { WideOfZero(); }
    if Crc16Of(data + [hi, lo]) == 0 {
      WideInjective(Crc16Of(data), BigEndian(hi, lo));
    }
    if Crc16Of(data) == BigEndian(hi, lo) {
      WideInjective(Crc16Of(data + [hi, lo]), 0);
    }
  }

  lemma WideOfZero()
    ensures Wide(0) == 0
  {
  }
}
