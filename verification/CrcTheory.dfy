/**
 What a CRC is: the remainder of the message, followed by as many zero bits as the
 register is wide, under long division by the generator, one bit at a time (section 2
 of ITU-T V.41).  The register form that takes each message bit in at the top computes
 the same without the extra zeros.
 */
module CrcTheory {
  import opened ShiftRegister

  /** Long division: the register holds the remainder so far, the next bit comes in at the low end. */
  function Divide(w: nat, poly: bv32, r: bv32, bits: seq<bool>): bv32
    requires Width(w)
  {
    if bits == [] then r else
      var last := |bits| - 1;
      Xor(Shift(w, poly, Divide(w, poly, r, bits[..last])), if bits[last] then 1 else 0)
  }

  function SerialStep(w: nat, poly: bv32, r: bv32, bit: bool): bv32
    requires Width(w)
  {
    if TopSet(w, r) != bit then Xor(Left(w, r), poly) else Left(w, r)
  }

  /** The bit-serial CRC register. */
  function Serial(w: nat, poly: bv32, r: bv32, bits: seq<bool>): bv32
    requires Width(w)
  {
    if bits == [] then r else
      var last := |bits| - 1;
      SerialStep(w, poly, Serial(w, poly, r, bits[..last]), bits[last])
  }

  function Zeros(n: nat): seq<bool> {
    seq(n, _ => false)
  }

  // ----- the register form is long division

  lemma SerialStepIsShift(w: nat, poly: bv32, r: bv32, bit: bool)
    requires Width(w)
    ensures SerialStep(w, poly, r, bit) == Xor(Shift(w, poly, r), if bit then poly else 0)
  {
    hide Xor, Left, TopSet;
    XorCancel(Left(w, r), poly);
    XorZero(Left(w, r));
    XorZero(Shift(w, poly, r));
  }

  lemma {:induction false} DivideZeros(w: nat, poly: bv32, r: bv32, n: nat)
    requires Width(w)
    ensures Divide(w, poly, r, Zeros(n)) == Shifts(w, poly, r, n)
  {
    hide Xor, Shift;
    if n > 0 {
      assert Zeros(n)[..n - 1] == Zeros(n - 1);
      DivideZeros(w, poly, r, n - 1);
      XorZero(Shift(w, poly, Shifts(w, poly, r, n - 1)));
    }
  }

  lemma {:induction false} DivideJoin(w: nat, poly: bv32, r: bv32, a: seq<bool>, b: seq<bool>)
    requires Width(w)
    ensures Divide(w, poly, r, a + b) == Divide(w, poly, Divide(w, poly, r, a), b)
    decreases |b|
  {
    hide Xor, Shift;
    if b == [] {
      assert a + b == a;
    } else {
      assert (a + b)[..|a + b| - 1] == a + b[..|b| - 1];
      DivideJoin(w, poly, r, a, b[..|b| - 1]);
    }
  }

  lemma {:induction false} SerialJoin(w: nat, poly: bv32, r: bv32, a: seq<bool>, b: seq<bool>)
    requires Width(w)
    ensures Serial(w, poly, r, a + b) == Serial(w, poly, Serial(w, poly, r, a), b)
    decreases |b|
  {
    hide SerialStep;
    if b == [] {
      assert a + b == a;
    } else {
      assert (a + b)[..|a + b| - 1] == a + b[..|b| - 1];
      SerialJoin(w, poly, r, a, b[..|b| - 1]);
    }
  }

  /** 1, shifted by the register width, is the generator itself. */
  lemma OneByWidth(w: nat, poly: bv32)
    requires Width(w)
    ensures Shifts(w, poly, 1, w) == poly
  {
    hide Shift, Shifts;
    if w == 16 {
      ShiftsOfLow(w, poly, 1);
      ShiftsAdd(w, poly, 1, 8, 8);
    } else {
      ShiftsOfLow(w, poly, 1);
      ShiftsOfLow(w, poly, 0x100);
      ShiftsOfLow(w, poly, 0x1_0000);
      ShiftsAdd(w, poly, 1, 8, 8);
      ShiftsAdd(w, poly, 1, 16, 8);
      ShiftsAdd(w, poly, 1, 24, 8);
    }
    ShiftsOfTopOne(w, poly);
  }

  lemma ShiftsOfTopOne(w: nat, poly: bv32)
    requires Width(w)
    ensures Shifts(w, poly, High(w, 1), 8) == poly
  {
    ShiftsOfTopOneBy(w, poly, 7);
    assert ByteLeft(1, 7) == 0x80 by { ByteLefts(1); }
    assert Shift(w, poly, High(w, 0x80)) == poly;
  }

  lemma {:induction false} ShiftsOfTopOneBy(w: nat, poly: bv32, k: nat)
    requires Width(w) && k < 8
    ensures Shifts(w, poly, High(w, 1), k) == High(w, ByteLeft(1, k))
  {
    hide High, TopSet, Left, Xor;
    if k > 0 {
      ShiftsOfTopOneBy(w, poly, k - 1);
      LeftOfHigh(w, ByteLeft(1, k - 1));
      TopOfByteLeft(1, k - 1);
      assert forall j :: 0 <= j < 7 ==> !Bits(1)[j];
    }
  }

  /** Feeding the register form equals long division followed by a register of zeros. */
  lemma {:induction false} SerialIsShiftedDivision(w: nat, poly: bv32, r: bv32, bits: seq<bool>)
    requires Width(w)
    ensures Serial(w, poly, Shifts(w, poly, r, w), bits) == Shifts(w, poly, Divide(w, poly, r, bits), w)
    decreases |bits|
  {
    hide Xor, Shift, Shifts, SerialStep;
    if bits != [] {
      var last := |bits| - 1;
      var d := Divide(w, poly, r, bits[..last]);
      SerialIsShiftedDivision(w, poly, r, bits[..last]);
      SerialStepIsShift(w, poly, Shifts(w, poly, d, w), bits[last]);
      ShiftsXor(w, poly, Shift(w, poly, d), if bits[last] then 1 else 0, w);
      OneByWidth(w, poly);
      ShiftsOfZero(w, poly, w);
      ShiftCommutes(w, poly, d, w);
    }
  }

  lemma ShiftCommutes(w: nat, poly: bv32, r: bv32, n: nat)
    requires Width(w)
    ensures Shifts(w, poly, Shift(w, poly, r), n) == Shift(w, poly, Shifts(w, poly, r, n))
  {
    hide Shift;
    assert Shifts(w, poly, r, 0) == r;
    assert Shifts(w, poly, r, 1) == Shift(w, poly, r);
    ShiftsAdd(w, poly, r, 1, n);
    ShiftsAdd(w, poly, r, n, 1);
    assert Shifts(w, poly, Shifts(w, poly, r, n), 0) == Shifts(w, poly, r, n);
  }

  /** The register form computes the remainder of the message times x to the register width. */
  lemma SerialIsRemainder(w: nat, poly: bv32, bits: seq<bool>)
    requires Width(w)
    ensures Serial(w, poly, 0, bits) == Divide(w, poly, 0, bits + Zeros(w))
  {
    hide Divide, Serial, Shifts;
    ShiftsOfZero(w, poly, w);
    SerialIsShiftedDivision(w, poly, 0, bits);
    DivideJoin(w, poly, 0, bits, Zeros(w));
    DivideZeros(w, poly, Divide(w, poly, 0, bits), w);
  }

  // ----- a byte at a time

  /** The register after one more byte: eight shifts of the register with the byte added at the top. */
  function ByteStep(w: nat, poly: bv32, r: bv32, b: bv8): bv32
    requires Width(w)
  {
    Shifts(w, poly, Xor(r, High(w, b)), 8)
  }

  /** The bits of `b` not yet fed after `k` of them are still waiting at the top. */
  lemma {:induction false} SerialOfByteBits(w: nat, poly: bv32, r: bv32, b: bv8, k: nat)
    requires Width(w) && k <= 8
    ensures Shifts(w, poly, Xor(r, High(w, b)), k)
         == Xor(Serial(w, poly, r, Bits(b)[..k]), Lefts(w, High(w, b), k))
  {
    hide Xor, Left, TopSet, High, Bits, SerialStep;
    if k > 0 {
      var s, rest := Serial(w, poly, r, Bits(b)[..k - 1]), Lefts(w, High(w, b), k - 1);
      var bit := Bits(b)[k - 1];
      SerialOfByteBits(w, poly, r, b, k - 1);
      assert Bits(b)[..k][..k - 1] == Bits(b)[..k - 1];
      ShiftXor(w, poly, s, rest);
      TopOfLefts(w, b, k - 1);
      SerialStepIsShift(w, poly, s, bit);
      MoveGenerator(Shift(w, poly, s), Left(w, rest), if bit then poly else 0);
      XorZero(Left(w, rest));
    }
  }

  lemma MoveGenerator(a: bv32, b: bv32, c: bv32)
    ensures Xor(a, Xor(b, c)) == Xor(Xor(a, c), b)
  {
    hide Xor;
    XorAssoc(a, b, c);
    XorSwap(a, b, c);
  }

  lemma SerialOfByte(w: nat, poly: bv32, r: bv32, b: bv8)
    requires Width(w)
    ensures Serial(w, poly, r, Bits(b)) == ByteStep(w, poly, r, b)
  {
    hide Xor, High, Bits, Serial, Shifts;
    SerialOfByteBits(w, poly, r, b, 8);
    assert Bits(b)[..8] == Bits(b);
    TopOfLefts(w, b, 0);
    XorZero(Serial(w, poly, r, Bits(b)));
  }

  /** The register after a message. */
  function Register(w: nat, poly: bv32, r: bv32, message: seq<bv8>): bv32
    requires Width(w)
  {
    if message == [] then r else
      var last := |message| - 1;
      ByteStep(w, poly, Register(w, poly, r, message[..last]), message[last])
  }

  lemma {:induction false} RegisterIsSerial(w: nat, poly: bv32, r: bv32, message: seq<bv8>)
    requires Width(w)
    ensures Register(w, poly, r, message) == Serial(w, poly, r, MessageBits(message))
    decreases |message|
  {
    hide ByteStep, Bits;
    if message != [] {
      var last := |message| - 1;
      RegisterIsSerial(w, poly, r, message[..last]);
      SerialOfByte(w, poly, Register(w, poly, r, message[..last]), message[last]);
      SerialJoin(w, poly, r, MessageBits(message[..last]), Bits(message[last]));
    }
  }

  lemma {:induction false} RegisterJoin(w: nat, poly: bv32, r: bv32, a: seq<bv8>, b: seq<bv8>)
    requires Width(w)
    ensures Register(w, poly, r, a + b) == Register(w, poly, Register(w, poly, r, a), b)
    decreases |b|
  {
    hide ByteStep;
    if b == [] {
      assert a + b == a;
    } else {
      assert (a + b)[..|a + b| - 1] == a + b[..|b| - 1];
      RegisterJoin(w, poly, r, a, b[..|b| - 1]);
    }
  }

  // ----- a table entry replaces eight shifts

  lemma RawTopAndLow16(r: bv32)
    requires r & 0xFFFF == r
    ensures r == ((((r >> 8) & 0xFF) as bv8 as bv32) << 8) ^ (r & 0xFF)
  {
  }

  lemma TopAndLow16(r: bv32)
    requires Fits(16, r)
    ensures r == Xor(High(16, TopByte(16, r)), Low(16, r))
  {
    RawTopAndLow16(r);
  }

  lemma RawTopAndLow32(r: bv32)
    ensures r == ((((r >> 24) & 0xFF) as bv8 as bv32) << 24) ^ (r & 0xFF_FFFF)
  {
  }

  lemma TopAndLow32(r: bv32)
    ensures r == Xor(High(32, TopByte(32, r)), Low(32, r))
  {
    RawTopAndLow32(r);
  }

  lemma TopAndLow(w: nat, r: bv32)
    requires Width(w) && Fits(w, r)
    ensures r == Xor(High(w, TopByte(w, r)), Low(w, r))
  {
    hide High, Xor, TopByte, Low, Fits;
    if w == 16 {
      TopAndLow16(r);
    } else {
      TopAndLow32(r);
    }
  }

  /** The byte a register and a data byte look up. */
  function TableIndex(w: nat, r: bv32, d: bv8): bv8
    requires Width(w)
  {
    ByteXor(TopByte(w, r), d)
  }

  /** Adding a data byte changes the top byte only. */
  lemma SplitRegister(w: nat, r: bv32, d: bv8)
    requires Width(w) && Fits(w, r)
    ensures Xor(r, High(w, d)) == Xor(High(w, TableIndex(w, r, d)), Low(w, r))
  {
    hide Xor, High, Low, TopByte, Fits, ByteXor;
    TopAndLow(w, r);
    HighLinear(w, TopByte(w, r), d);
    XorSwap(High(w, TopByte(w, r)), Low(w, r), High(w, d));
  }

  lemma RawLow16(r: bv32)
    ensures (r & 0xFF) <= 0xFF && ((r & 0xFF) << 8) & 0xFFFF == (r << 8) & 0xFFFF
  {
  }

  lemma RawLow32(r: bv32)
    ensures (r & 0xFF_FFFF) <= 0xFF_FFFF && ((r & 0xFF_FFFF) << 8) & 0xFFFF_FFFF == (r << 8) & 0xFFFF_FFFF
  {
  }

  lemma LowIsClear(w: nat, r: bv32)
    requires Width(w)
    ensures Clear(w, Low(w, r), 0)
    ensures LeftByte(w, Low(w, r)) == LeftByte(w, r)
  {
    if w == 16 {
      RawLow16(r);
    } else {
      RawLow32(r);
    }
  }

  /** Table entry of a byte: the byte at the top of the register, shifted eight times. */
  function Entry(w: nat, poly: bv32, d: bv8): bv32
    requires Width(w)
  {
    Shifts(w, poly, High(w, d), 8)
  }

  /** Looking up the top byte and moving the rest up is eight shifts of the register. */
  lemma TableStep(w: nat, poly: bv32, r: bv32, d: bv8)
    requires Width(w) && Fits(w, r)
    ensures Xor(Entry(w, poly, TableIndex(w, r, d)), LeftByte(w, r)) == ByteStep(w, poly, r, d)
  {
    hide Xor, High, Low, TableIndex, LeftByte, Fits, Clear, Shifts;
    SplitRegister(w, r, d);
    LowIsClear(w, r);
    ShiftsXor(w, poly, High(w, TableIndex(w, r, d)), Low(w, r), 8);
    ShiftsOfLow(w, poly, Low(w, r));
  }

  lemma StepFits(w: nat, poly: bv32, r: bv32, d: bv8)
    requires Width(w) && Fits(w, poly) && Fits(w, r)
    ensures Fits(w, ByteStep(w, poly, r, d))
  {
    hide Xor, High, Fits, Shifts;
    LeftOfHigh(w, d);
    XorFits(w, r, High(w, d));
    ShiftsFit(w, poly, Xor(r, High(w, d)), 8);
  }

  // ----- what a CRC detects

  lemma RawPack(a: bv8, b: bv8, c: bv8, d: bv8)
    ensures ((a as bv32) << 8) ^ (b as bv32) == ((c as bv32) << 8) ^ (d as bv32) ==> a == c && b == d
    ensures ((a as bv32) << 24) ^ ((b as bv32) << 16) == ((c as bv32) << 24) ^ ((d as bv32) << 16) ==> a == c && b == d
  {
  }

  /** Two bytes side by side at the top of the register. */
  function Pair(w: nat, a: bv8, b: bv8): bv32
    requires Width(w)
  {
    Xor(High(w, a), Second(w, b))
  }

  lemma PairInjective(w: nat, a: bv8, b: bv8, c: bv8, d: bv8)
    requires Width(w) && Pair(w, a, b) == Pair(w, c, d)
    ensures a == c && b == d
  {
    RawPack(a, b, c, d);
  }

  lemma SecondBecomesHigh(w: nat, poly: bv32, b: bv8)
    requires Width(w)
    ensures Shifts(w, poly, Second(w, b), 8) == High(w, b)
  {
    hide Shifts;
    ShiftsOfLow(w, poly, Second(w, b));
  }

  /** Two bytes are fed as one pair. */
  lemma TwoBytes(w: nat, poly: bv32, r: bv32, a: bv8, b: bv8)
    requires Width(w)
    ensures ByteStep(w, poly, ByteStep(w, poly, r, a), b) == Shifts(w, poly, Xor(r, Pair(w, a, b)), 16)
  {
    hide Xor, High, Second, Shifts;
    var x := Xor(r, High(w, a));
    SecondBecomesHigh(w, poly, b);
    ShiftsXor(w, poly, x, Second(w, b), 8);
    XorAssoc(r, High(w, a), Second(w, b));
    ShiftsAdd(w, poly, Xor(r, Pair(w, a, b)), 8, 8);
  }

  lemma XorFits(w: nat, a: bv32, b: bv32)
    requires Width(w) && Fits(w, a) && Fits(w, b)
    ensures Fits(w, Xor(a, b))
  {
  }

  lemma {:induction false} RegisterFits(w: nat, poly: bv32, r: bv32, message: seq<bv8>)
    requires Width(w) && Fits(w, poly) && Fits(w, r)
    ensures Fits(w, Register(w, poly, r, message))
    decreases |message|
  {
    hide Fits, Xor, High, Shifts;
    if message != [] {
      var last := |message| - 1;
      var x := Register(w, poly, r, message[..last]);
      RegisterFits(w, poly, r, message[..last]);
      LeftOfHigh(w, message[last]);
      XorFits(w, x, High(w, message[last]));
      ShiftsFit(w, poly, Xor(x, High(w, message[last])), 8);
    }
  }

  lemma PairFits(w: nat, r: bv32, a: bv8, b: bv8)
    requires Width(w) && Fits(w, r)
    ensures Fits(w, Xor(r, Pair(w, a, b)))
  {
    hide Fits, Xor, High, Second;
    LeftOfHigh(w, a);
    LeftOfHigh(w, b);
    XorFits(w, High(w, a), Second(w, b));
    XorFits(w, r, Pair(w, a, b));
  }

  /** From one register, different byte pairs lead to different registers. */
  lemma PairsDiffer(w: nat, poly: bv32, r: bv32, a: bv8, b: bv8, c: bv8, d: bv8)
    requires Width(w) && Odd(poly) && Fits(w, poly) && Fits(w, r)
    requires Register(w, poly, r, [a, b]) == Register(w, poly, r, [c, d])
    ensures a == c && b == d
  {
    hide Fits, Xor, High, Second, Odd, Pair, Shifts, ByteStep;
    RegisterOfTwo(w, poly, r, a, b);
    RegisterOfTwo(w, poly, r, c, d);
    PairFits(w, r, a, b);
    PairFits(w, r, c, d);
    ShiftsInjective(w, poly, Xor(r, Pair(w, a, b)), Xor(r, Pair(w, c, d)), 16);
    XorComm(r, Pair(w, a, b));
    XorComm(r, Pair(w, c, d));
    XorInjective(Pair(w, a, b), Pair(w, c, d), r);
    PairInjective(w, a, b, c, d);
  }

  lemma RegisterOfTwo(w: nat, poly: bv32, r: bv32, a: bv8, b: bv8)
    requires Width(w)
    ensures Register(w, poly, r, [a, b]) == Shifts(w, poly, Xor(r, Pair(w, a, b)), 16)
  {
    hide Xor, High, Second, Pair, Shifts, ByteStep;
    assert [a, b][..1] == [a];
    assert [a][..0] == [];
    assert Register(w, poly, r, [a]) == ByteStep(w, poly, r, a);
    TwoBytes(w, poly, r, a, b);
  }

  /** After the same bytes, different registers stay different. */
  lemma {:induction false} RegistersStayDifferent(w: nat, poly: bv32, r: bv32, r': bv32, message: seq<bv8>)
    requires Width(w) && Odd(poly) && Fits(w, poly) && Fits(w, r) && Fits(w, r')
    requires Register(w, poly, r, message) == Register(w, poly, r', message)
    ensures r == r'
    decreases |message|
  {
    hide Fits, Odd, Xor, High, Shifts;
    if message != [] {
      var last := |message| - 1;
      var b := message[last];
      var x, x' := Register(w, poly, r, message[..last]), Register(w, poly, r', message[..last]);
      RegisterFits(w, poly, r, message[..last]);
      RegisterFits(w, poly, r', message[..last]);
      LeftOfHigh(w, b);
      XorFits(w, x, High(w, b));
      XorFits(w, x', High(w, b));
      ShiftsInjective(w, poly, Xor(x, High(w, b)), Xor(x', High(w, b)), 8);
      XorInjective(x, x', High(w, b));
      RegistersStayDifferent(w, poly, r, r', message[..last]);
    }
  }

  /** Equal-length messages that differ only within bytes `k` and `k + 1`. */
  ghost predicate DifferWithinTwo(m: seq<bv8>, m': seq<bv8>, k: nat) {
    && |m| == |m'|
    && m != m'
    && k + 1 < |m|
    && m[..k] == m'[..k]
    && m[k + 2..] == m'[k + 2..]
  }

  /** Every error confined to two adjacent bytes changes the CRC, for every odd generator. */
  lemma TwoByteErrorsDetected(w: nat, poly: bv32, r: bv32, m: seq<bv8>, m': seq<bv8>, k: nat)
    requires Width(w) && Odd(poly) && Fits(w, poly) && Fits(w, r)
    requires DifferWithinTwo(m, m', k)
    ensures Register(w, poly, r, m) != Register(w, poly, r, m')
  {
    hide Fits, Odd, Register;
    var head, tail := m[..k], m[k + 2..];
    var pair, pair' := [m[k], m[k + 1]], [m'[k], m'[k + 1]];
    assert m == head + (pair + tail);
    assert m' == head + (pair' + tail);
    var x := Register(w, poly, r, head);
    RegisterFits(w, poly, r, head);
    RegisterJoin(w, poly, r, head, pair + tail);
    RegisterJoin(w, poly, r, head, pair' + tail);
    RegisterJoin(w, poly, x, pair, tail);
    RegisterJoin(w, poly, x, pair', tail);
    if Register(w, poly, r, m) == Register(w, poly, r, m') {
      RegisterFits(w, poly, x, pair);
      RegisterFits(w, poly, x, pair');
      RegistersStayDifferent(w, poly, Register(w, poly, x, pair), Register(w, poly, x, pair'), tail);
      PairsDiffer(w, poly, x, m[k], m[k + 1], m'[k], m'[k + 1]);
      assert false;
    }
  }

  /** The register becomes 0 exactly when it is fed, at the top, what it holds. */
  lemma ZeroIffSame(w: nat, poly: bv32, r: bv32, a: bv8, b: bv8)
    requires Width(w) && Odd(poly) && Fits(w, poly) && Fits(w, r)
    ensures Register(w, poly, r, [a, b]) == 0 <==> r == Pair(w, a, b)
  {
    hide Fits, Xor, High, Second, Odd, Pair, Shifts, Register;
    RegisterOfTwo(w, poly, r, a, b);
    PairFits(w, r, a, b);
    ShiftsOfZero(w, poly, 16);
    XorZero(Pair(w, a, b));
    assert Fits(w, 0) by { ZeroFits(w); }
    if Register(w, poly, r, [a, b]) == 0 {
      ShiftsInjective(w, poly, Xor(r, Pair(w, a, b)), 0, 16);
      XorInjective(r, Pair(w, a, b), Pair(w, a, b));
    }
  }

  lemma ZeroFits(w: nat)
    requires Width(w)
    ensures Fits(w, 0)
  {
  }
}
