/**
 A shift register over the two-element field: the arithmetic behind every CRC.

 Registers are 16 or 32 bits wide and kept in the low bits of a 32-bit word.  A
 register stands for a polynomial of lower degree than the generator, its top bit
 being the highest coefficient; the generator is given without its leading term.
 */
module ShiftRegister {

  predicate Width(w: nat) {
    w == 16 || w == 32
  }

  function Mask(w: nat): bv32
    requires Width(w)
  {
    if w == 16 then 0xFFFF else 0xFFFF_FFFF
  }

  predicate Fits(w: nat, r: bv32)
    requires Width(w)
  {
    r & Mask(w) == r
  }

  function Xor(a: bv32, b: bv32): bv32 {
    a ^ b
  }

  predicate TopSet(w: nat, r: bv32)
    requires Width(w)
  {
    if w == 16 then r & 0x8000 != 0 else r & 0x8000_0000 != 0
  }

  predicate Odd(r: bv32) {
    r & 1 == 1
  }

  function Left(w: nat, r: bv32): bv32
    requires Width(w)
  {
    (r << 1) & Mask(w)
  }

  /** Multiplication by x modulo the generator. */
  function Shift(w: nat, poly: bv32, r: bv32): bv32
    requires Width(w)
  {
    if TopSet(w, r) then Xor(Left(w, r), poly) else Left(w, r)
  }

  /** Multiplication by the n-th power of x modulo the generator. */
  function Shifts(w: nat, poly: bv32, r: bv32, n: nat): bv32
    requires Width(w)
  {
    if n == 0 then r else Shift(w, poly, Shifts(w, poly, r, n - 1))
  }

  /** Multiplication by the n-th power of x, dropping what leaves the register. */
  function Lefts(w: nat, r: bv32, n: nat): bv32
    requires Width(w)
  {
    if n == 0 then r else Left(w, Lefts(w, r, n - 1))
  }

  // ----- addition is a group

  lemma RawAssoc(a: bv32, b: bv32, c: bv32)
    ensures (a ^ b) ^ c == a ^ (b ^ c)
  {
  }

  lemma RawCancel(a: bv32, b: bv32)
    ensures (a ^ b) ^ b == a
  {
  }

  lemma XorComm(a: bv32, b: bv32)
    ensures Xor(a, b) == Xor(b, a)
  {
  }

  lemma XorAssoc(a: bv32, b: bv32, c: bv32)
    ensures Xor(Xor(a, b), c) == Xor(a, Xor(b, c))
  {
    RawAssoc(a, b, c);
  }

  lemma XorCancel(a: bv32, b: bv32)
    ensures Xor(Xor(a, b), b) == a
  {
    RawCancel(a, b);
  }

  lemma XorZero(a: bv32)
    ensures Xor(a, 0) == a && Xor(0, a) == a && Xor(a, a) == 0
  {
  }

  lemma XorSwap(a: bv32, b: bv32, c: bv32)
    ensures Xor(Xor(a, b), c) == Xor(Xor(a, c), b)
  {
    hide Xor;
    XorAssoc(a, b, c);
    XorComm(b, c);
    XorAssoc(a, c, b);
  }

  lemma XorInjective(a: bv32, b: bv32, c: bv32)
    requires Xor(a, c) == Xor(b, c)
    ensures a == b
  {
    hide Xor;
    XorCancel(a, c);
    XorCancel(b, c);
  }

  // ----- shifting is linear and, for an odd generator, injective

  lemma RawTop16(x: bv32, y: bv32)
    ensures (x ^ y) & 0x8000 != 0 <==> ((x & 0x8000 != 0) != (y & 0x8000 != 0))
  {
  }

  lemma RawTop32(x: bv32, y: bv32)
    ensures (x ^ y) & 0x8000_0000 != 0 <==> ((x & 0x8000_0000 != 0) != (y & 0x8000_0000 != 0))
  {
  }

  lemma TopXor(w: nat, x: bv32, y: bv32)
    requires Width(w)
    ensures TopSet(w, Xor(x, y)) <==> (TopSet(w, x) != TopSet(w, y))
  {
    if w == 16 {
      RawTop16(x, y);
    } else {
      RawTop32(x, y);
    }
  }

  lemma RawLeftXor(x: bv32, y: bv32, m: bv32)
    ensures ((x ^ y) << 1) & m == ((x << 1) & m) ^ ((y << 1) & m)
  {
  }

  lemma LeftXor(w: nat, x: bv32, y: bv32)
    requires Width(w)
    ensures Left(w, Xor(x, y)) == Xor(Left(w, x), Left(w, y))
  {
    RawLeftXor(x, y, Mask(w));
  }

  lemma ShiftXor(w: nat, poly: bv32, x: bv32, y: bv32)
    requires Width(w)
    ensures Shift(w, poly, Xor(x, y)) == Xor(Shift(w, poly, x), Shift(w, poly, y))
  {
    hide Left, TopSet, Xor;
    var a, b := Left(w, x), Left(w, y);
    LeftXor(w, x, y);
    TopXor(w, x, y);
    XorSwap(a, b, poly);
    XorAssoc(a, b, poly);
    XorSwap(a, poly, Xor(b, poly));
    XorAssoc(a, Xor(b, poly), poly);
    XorCancel(b, poly);
  }

  lemma {:induction false} ShiftsXor(w: nat, poly: bv32, x: bv32, y: bv32, n: nat)
    requires Width(w)
    ensures Shifts(w, poly, Xor(x, y), n) == Xor(Shifts(w, poly, x, n), Shifts(w, poly, y, n))
  {
    hide Shift, Xor;
    if n > 0 {
      ShiftsXor(w, poly, x, y, n - 1);
      ShiftXor(w, poly, Shifts(w, poly, x, n - 1), Shifts(w, poly, y, n - 1));
    }
  }

  lemma {:induction false} ShiftsAdd(w: nat, poly: bv32, r: bv32, m: nat, n: nat)
    requires Width(w)
    ensures Shifts(w, poly, Shifts(w, poly, r, m), n) == Shifts(w, poly, r, m + n)
  {
    hide Shift;
    if n > 0 {
      ShiftsAdd(w, poly, r, m, n - 1);
    }
  }

  lemma {:induction false} ShiftsOfZero(w: nat, poly: bv32, n: nat)
    requires Width(w)
    ensures Shifts(w, poly, 0, n) == 0
  {
    if n > 0 {
      ShiftsOfZero(w, poly, n - 1);
    }
  }

  lemma ShiftFits(w: nat, poly: bv32, r: bv32)
    requires Width(w) && Fits(w, poly)
    ensures Fits(w, Shift(w, poly, r))
  {
  }

  lemma {:induction false} ShiftsFit(w: nat, poly: bv32, r: bv32, n: nat)
    requires Width(w) && Fits(w, poly) && Fits(w, r)
    ensures Fits(w, Shifts(w, poly, r, n))
  {
    hide Shift, Fits;
    if n > 0 {
      ShiftsFit(w, poly, r, n - 1);
      ShiftFits(w, poly, Shifts(w, poly, r, n - 1));
    }
  }

  lemma LeftInjective(w: nat, x: bv32, y: bv32)
    requires Width(w) && Fits(w, x) && Fits(w, y)
    requires Left(w, x) == Left(w, y) && TopSet(w, x) == TopSet(w, y)
    ensures x == y
  {
  }

  /** With an odd generator the low bit after a shift tells whether the generator was added. */
  lemma LowBit(w: nat, poly: bv32, r: bv32)
    requires Width(w) && Odd(poly)
    ensures Odd(Shift(w, poly, r)) <==> TopSet(w, r)
  {
  }

  lemma ShiftInjective(w: nat, poly: bv32, x: bv32, y: bv32)
    requires Width(w) && Odd(poly) && Fits(w, x) && Fits(w, y)
    requires Shift(w, poly, x) == Shift(w, poly, y)
    ensures x == y
  {
    hide Left, TopSet, Xor, Odd, Fits;
    LowBit(w, poly, x);
    LowBit(w, poly, y);
    if TopSet(w, x) {
      XorInjective(Left(w, x), Left(w, y), poly);
    }
    LeftInjective(w, x, y);
  }

  lemma {:induction false} ShiftsInjective(w: nat, poly: bv32, x: bv32, y: bv32, n: nat)
    requires Width(w) && Odd(poly) && Fits(w, poly) && Fits(w, x) && Fits(w, y)
    requires Shifts(w, poly, x, n) == Shifts(w, poly, y, n)
    ensures x == y
  {
    hide Shift, Odd, Fits;
    if n > 0 {
      ShiftsFit(w, poly, x, n - 1);
      ShiftsFit(w, poly, y, n - 1);
      ShiftInjective(w, poly, Shifts(w, poly, x, n - 1), Shifts(w, poly, y, n - 1));
      ShiftsInjective(w, poly, x, y, n - 1);
    }
  }

  // ----- bits and bytes

  /** The bits of a byte, highest first. */
  function Bits(b: bv8): (bits: seq<bool>)
    ensures |bits| == 8
  {
    [b & 0x80 != 0, b & 0x40 != 0, b & 0x20 != 0, b & 0x10 != 0,
     b & 0x08 != 0, b & 0x04 != 0, b & 0x02 != 0, b & 0x01 != 0]
  }

  function MessageBits(message: seq<bv8>): (bits: seq<bool>)
    ensures |bits| == 8 * |message|
  {
    if message == [] then [] else
      var last := |message| - 1;
      MessageBits(message[..last]) + Bits(message[last])
  }

  lemma {:induction false} MessageBitsJoin(a: seq<bv8>, b: seq<bv8>)
    ensures MessageBits(a + b) == MessageBits(a) + MessageBits(b)
    decreases |b|
  {
    hide Bits;
    if b == [] {
      assert a + b == a;
    } else {
      var last := |b| - 1;
      assert (a + b)[..|a| + last] == a + b[..last];
      MessageBitsJoin(a, b[..last]);
    }
  }

  /** A byte at the top of the register. */
  function High(w: nat, b: bv8): bv32
    requires Width(w)
  {
    if w == 16 then (b as bv32) << 8 else (b as bv32) << 24
  }

  /** A byte right below the top byte. */
  function Second(w: nat, b: bv8): bv32
    requires Width(w)
  {
    if w == 16 then b as bv32 else (b as bv32) << 16
  }

  function ByteXor(a: bv8, b: bv8): bv8 {
    a ^ b
  }

  lemma RawHigh16(d: bv8, e: bv8)
    ensures ((d ^ e) as bv32) << 8 == ((d as bv32) << 8) ^ ((e as bv32) << 8)
  {
  }

  lemma High16Linear(d: bv8, e: bv8)
    ensures High(16, ByteXor(d, e)) == Xor(High(16, d), High(16, e))
  {
    RawHigh16(d, e);
  }

  lemma RawHigh32(d: bv8, e: bv8)
    ensures ((d ^ e) as bv32) << 24 == ((d as bv32) << 24) ^ ((e as bv32) << 24)
  {
  }

  lemma High32Linear(d: bv8, e: bv8)
    ensures High(32, ByteXor(d, e)) == Xor(High(32, d), High(32, e))
  {
    RawHigh32(d, e);
  }

  lemma HighLinear(w: nat, d: bv8, e: bv8)
    requires Width(w)
    ensures High(w, ByteXor(d, e)) == Xor(High(w, d), High(w, e))
  {
    hide High, Xor, ByteXor;
    if w == 16 {
      High16Linear(d, e);
    } else {
      High32Linear(d, e);
    }
  }

  /** A byte shifted left within itself. */
  function ByteLeft(b: bv8, n: nat): bv8 {
    if n == 0 then b else ByteLeft(b, n - 1) << 1
  }

  lemma LeftOfHigh(w: nat, b: bv8)
    requires Width(w)
    ensures Left(w, High(w, b)) == High(w, b << 1)
    ensures TopSet(w, High(w, b)) <==> b & 0x80 != 0
    ensures Fits(w, High(w, b)) && Fits(w, Second(w, b))
  {
  }

  lemma {:induction false} LeftsOfHigh(w: nat, b: bv8, k: nat)
    requires Width(w)
    ensures Lefts(w, High(w, b), k) == High(w, ByteLeft(b, k))
  {
    hide Left, High;
    if k > 0 {
      LeftsOfHigh(w, b, k - 1);
      LeftOfHigh(w, ByteLeft(b, k - 1));
    }
  }

  lemma ByteLefts(b: bv8)
    ensures ByteLeft(b, 0) == b && ByteLeft(b, 1) == b << 1 && ByteLeft(b, 2) == b << 2
    ensures ByteLeft(b, 3) == b << 3 && ByteLeft(b, 4) == b << 4 && ByteLeft(b, 5) == b << 5
    ensures ByteLeft(b, 6) == b << 6 && ByteLeft(b, 7) == b << 7 && ByteLeft(b, 8) == 0
  {
    assert ByteLeft(b, 1) == b << 1;
    assert ByteLeft(b, 2) == b << 2;
    assert ByteLeft(b, 3) == b << 3;
    assert ByteLeft(b, 4) == b << 4;
    assert ByteLeft(b, 5) == b << 5;
    assert ByteLeft(b, 6) == b << 6;
    assert ByteLeft(b, 7) == b << 7;
  }

  lemma RawBits(b: bv8)
    ensures (b << 1) & 0x80 != 0 <==> b & 0x40 != 0
    ensures (b << 2) & 0x80 != 0 <==> b & 0x20 != 0
    ensures (b << 3) & 0x80 != 0 <==> b & 0x10 != 0
    ensures (b << 4) & 0x80 != 0 <==> b & 0x08 != 0
    ensures (b << 5) & 0x80 != 0 <==> b & 0x04 != 0
    ensures (b << 6) & 0x80 != 0 <==> b & 0x02 != 0
    ensures (b << 7) & 0x80 != 0 <==> b & 0x01 != 0
  {
  }

  lemma TopOfByteLeft(b: bv8, k: nat)
    requires k < 8
    ensures ByteLeft(b, k) & 0x80 != 0 <==> Bits(b)[k]
    ensures ByteLeft(b, 8) == 0
  {
    hide ByteLeft;
    ByteLefts(b);
    RawBits(b);
    assert k == 0 || k == 1 || k == 2 || k == 3 || k == 4 || k == 5 || k == 6 || k == 7;
  }

  /** The bits of a byte leave the top of the register in order, and then none is left. */
  lemma TopOfLefts(w: nat, b: bv8, k: nat)
    requires Width(w) && k < 8
    ensures TopSet(w, Lefts(w, High(w, b), k)) == Bits(b)[k]
    ensures Lefts(w, High(w, b), 8) == 0
  {
    LeftsOfHigh(w, b, k);
    LeftsOfHigh(w, b, 8);
    TopOfByteLeft(b, k);
    hide TopSet, High;
    LeftOfHigh(w, ByteLeft(b, k));
  }

  // ----- eight shifts at once

  /** What is left of a register below its top byte. */
  function Low(w: nat, r: bv32): bv32
    requires Width(w)
  {
    if w == 16 then r & 0xFF else r & 0xFF_FFFF
  }

  function TopByte(w: nat, r: bv32): bv8
    requires Width(w)
  {
    if w == 16 then ((r >> 8) & 0xFF) as bv8 else ((r >> 24) & 0xFF) as bv8
  }

  /** The register shifted left by a byte. */
  function LeftByte(w: nat, r: bv32): bv32
    requires Width(w)
  {
    (r << 8) & Mask(w)
  }

  /** The top `8 - k` bits of the register are clear. */
  predicate Clear(w: nat, r: bv32, k: nat)
    requires Width(w) && k <= 8
  {
    if w == 16 then
      r <= match k
           case 0 => 0x00FF
           case 1 => 0x01FF
           case 2 => 0x03FF
           case 3 => 0x07FF
           case 4 => 0x0FFF
           case 5 => 0x1FFF
           case 6 => 0x3FFF
           case 7 => 0x7FFF
           case 8 => 0xFFFF
    else
      r <= match k
           case 0 => 0x00FF_FFFF
           case 1 => 0x01FF_FFFF
           case 2 => 0x03FF_FFFF
           case 3 => 0x07FF_FFFF
           case 4 => 0x0FFF_FFFF
           case 5 => 0x1FFF_FFFF
           case 6 => 0x3FFF_FFFF
           case 7 => 0x7FFF_FFFF
           case 8 => 0xFFFF_FFFF
  }

  lemma ClearStep(w: nat, r: bv32, k: nat)
    requires Width(w) && k < 8 && Clear(w, r, k)
    ensures !TopSet(w, r) && Clear(w, Left(w, r), k + 1)
  {
    if w == 16 {
    } else {
    }
  }

  lemma {:induction false} ShiftsOfClear(w: nat, poly: bv32, r: bv32, k: nat)
    requires Width(w) && k <= 8 && Clear(w, r, 0)
    ensures Shifts(w, poly, r, k) == Lefts(w, r, k) && Clear(w, Lefts(w, r, k), k)
  {
    hide Clear, TopSet, Left, Xor;
    if k > 0 {
      ShiftsOfClear(w, poly, r, k - 1);
      ClearStep(w, Lefts(w, r, k - 1), k - 1);
    }
  }

  lemma RawLeft8(r: bv32, m: bv32)
    requires m == 0xFFFF || m == 0xFFFF_FFFF
    ensures ((((((((((((((((r << 1) & m) << 1) & m) << 1) & m) << 1) & m) << 1) & m) << 1) & m) << 1) & m) << 1) & m)
         == (r << 8) & m
  {
  }

  lemma LeftsIsLeftByte(w: nat, r: bv32)
    requires Width(w)
    ensures Lefts(w, r, 8) == LeftByte(w, r)
  {
    hide Left;
    Lefts8(w, r);
    Left8(w, r);
  }

  lemma Left8(w: nat, r: bv32)
    requires Width(w)
    ensures Left(w, Left(w, Left(w, Left(w, Left(w, Left(w, Left(w, Left(w, r)))))))) == LeftByte(w, r)
  {
    RawLeft8(r, Mask(w));
  }

  lemma Lefts8(w: nat, r: bv32)
    requires Width(w)
    ensures Lefts(w, r, 8) == Left(w, Left(w, Left(w, Left(w, Left(w, Left(w, Left(w, Left(w, r))))))))
  {
    hide Left;
    assert Lefts(w, r, 1) == Left(w, r);
    assert Lefts(w, r, 2) == Left(w, Lefts(w, r, 1));
    assert Lefts(w, r, 3) == Left(w, Lefts(w, r, 2));
    assert Lefts(w, r, 4) == Left(w, Lefts(w, r, 3));
    assert Lefts(w, r, 5) == Left(w, Lefts(w, r, 4));
    assert Lefts(w, r, 6) == Left(w, Lefts(w, r, 5));
    assert Lefts(w, r, 7) == Left(w, Lefts(w, r, 6));
  }

  /** Below the top byte, eight shifts only move bits. */
  lemma ShiftsOfLow(w: nat, poly: bv32, r: bv32)
    requires Width(w) && Clear(w, r, 0)
    ensures Shifts(w, poly, r, 8) == LeftByte(w, r)
  {
    ShiftsOfClear(w, poly, r, 8);
    LeftsIsLeftByte(w, r);
  }
}
