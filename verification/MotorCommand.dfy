/**
 Motor commands: five real values are clamped, quantised and packed into eight bytes.  Floats
 are modelled as reals, and bit operations on non-negative integers as arithmetic.
 */
module MotorCommand {
  type byte = x: int | 0 <= x < 256

  // ----- quantisation

  function Pow2(k: nat): (p: nat)
    ensures p >= 1 && (k > 0 ==> p >= 2)
  {
    if k == 0 then 1 else 2 * Pow2(k - 1)
  }

  /** Conversion to an integer drops the fraction. */
  function Truncated(x: real): int {
    if x >= 0.0 then x.Floor else -(-x).Floor
  }

  function Clamp(x: real, lo: real, hi: real): real {
    if x > hi then hi else if x < lo then lo else x
  }

  /** `a` times `b` over `c`: from one scale to another. */
  function Scale(a: real, b: real, c: real): real
    requires c != 0.0
  {
    a * b / c
  }

  /** The largest code of so many bits. */
  function MaxCode(bits: nat): (n: real)
    ensures n >= 0.0 && (bits > 0 ==> n >= 1.0) && n == (Pow2(bits) - 1) as real
  {
    (Pow2(bits) - 1) as real
  }

  function FloatToUint(x: real, lo: real, hi: real, bits: nat): int
    requires lo < hi
  {
    Truncated(Scale(x - lo, MaxCode(bits), hi - lo))
  }

  function UintToFloat(k: int, lo: real, hi: real, bits: nat): real
    requires lo < hi && bits >= 1
  {
    Scale(k as real, hi - lo, MaxCode(bits)) + lo
  }

  lemma ScaleBack(a: real, b: real, c: real)
    requires b > 0.0 && c > 0.0
    ensures Scale(Scale(a, b, c), c, b) == a
  {
    assert Scale(a, b, c) * c == a * b;
  }

  lemma ScaleAdds(a: real, d: real, b: real, c: real)
    requires c > 0.0
    ensures Scale(a + d, b, c) == Scale(a, b, c) + Scale(d, b, c)
  {
    assert (a + d) * b == a * b + d * b;
    assert (a * b + d * b) / c == a * b / c + d * b / c;
  }

  lemma ScaleEnds(b: real, c: real)
    requires c > 0.0
    ensures Scale(0.0, b, c) == 0.0 && Scale(c, b, c) == b && Scale(1.0, b, c) == b / c
  {
    assert c * b / c == b;
  }

  lemma ScaleGrows(a: real, d: real, b: real, c: real)
    requires b >= 0.0 && c > 0.0
    ensures a <= d ==> Scale(a, b, c) <= Scale(d, b, c)
    ensures a < d && b > 0.0 ==> Scale(a, b, c) < Scale(d, b, c)
  {
    var e := d - a;
    ScaleAdds(a, e, b, c);
    if e >= 0.0 {
      assert e * b >= 0.0 && e * b / c >= 0.0;
    }
    if e > 0.0 && b > 0.0 {
      assert e * b > 0.0 && e * b / c > 0.0;
    }
  }

  /** The code of a clamped value is in range and stands for a value at or below it, by less than
      one step. */
  lemma QuantiseError(x: real, lo: real, hi: real, bits: nat)
    requires lo < hi && bits >= 1
    ensures var c, k := Clamp(x, lo, hi), FloatToUint(Clamp(x, lo, hi), lo, hi, bits);
            && 0 <= k < Pow2(bits)
            && UintToFloat(k, lo, hi, bits) <= c < UintToFloat(k, lo, hi, bits) + (hi - lo) / MaxCode(bits)
  {
    hide Scale, Pow2;
    var n, span, c := MaxCode(bits), hi - lo, Clamp(x, lo, hi);
    var v := Scale(c - lo, n, span);
    ScaleEnds(n, span);
    ScaleEnds(span, n);
    ScaleGrows(0.0, c - lo, n, span);
    ScaleGrows(c - lo, span, n, span);
    var k := v.Floor;
    ScaleBack(c - lo, n, span);
    ScaleGrows(k as real, v, span, n);
    ScaleGrows(v, k as real + 1.0, span, n);
    ScaleAdds(k as real, 1.0, span, n);
  }

  /** Quantising undoes dequantising on every code. */
  lemma QuantiseUndoes(k: nat, lo: real, hi: real, bits: nat)
    requires lo < hi && bits >= 1 && k < Pow2(bits)
    ensures FloatToUint(UintToFloat(k, lo, hi, bits), lo, hi, bits) == k
    ensures lo <= UintToFloat(k, lo, hi, bits) <= hi
  {
    hide Scale, Pow2;
    var n, span := MaxCode(bits), hi - lo;
    ScaleBack(k as real, span, n);
    ScaleEnds(span, n);
    ScaleGrows(0.0, k as real, span, n);
    ScaleGrows(k as real, n, span, n);
  }

  /** Larger values never get smaller codes. */
  lemma QuantiseMonotone(x: real, y: real, lo: real, hi: real, bits: nat)
    requires lo < hi && x <= y
    ensures FloatToUint(Clamp(x, lo, hi), lo, hi, bits) <= FloatToUint(Clamp(y, lo, hi), lo, hi, bits)
  {
    hide Scale, Pow2;
    var n, span := MaxCode(bits), hi - lo;
    ScaleEnds(n, span);
    ScaleGrows(0.0, Clamp(x, lo, hi) - lo, n, span);
    ScaleGrows(Clamp(x, lo, hi) - lo, Clamp(y, lo, hi) - lo, n, span);
  }

  // ----- packing

  /** Bitwise or. */
  function Or(a: nat, b: nat): nat
    decreases a + b
  {
    if a == 0 then b
    else if b == 0 then a
    else 2 * Or(a / 2, b / 2) + if a % 2 == 1 || b % 2 == 1 then 1 else 0
  }

  /** Fields that do not overlap are simply put side by side. */
  lemma {:induction false} OrDisjoint(q: nat, b: nat, k: nat)
    requires b < Pow2(k)
    ensures Or(q * Pow2(k), b) == q * Pow2(k) + b
    decreases k
  {
    if k > 0 {
      var p := Pow2(k - 1);
      assert q * Pow2(k) == 2 * (q * p);
      OrDisjoint(q, b / 2, k - 1);
    }
  }

  lemma Powers()
    ensures Pow2(1) == 2 && Pow2(4) == 0x10 && Pow2(5) == 0x20 && Pow2(6) == 0x40
    ensures Pow2(9) == 0x200 && Pow2(12) == 0x1000 && Pow2(16) == 0x1_0000
  {
    assert Pow2(4) == 0x10;
    assert Pow2(8) == 0x100;
    assert Pow2(12) == 0x1000;
  }

  /** Stored in one byte. */
  function Byte(x: nat): byte {
    x % 0x100
  }

  datatype Codes = Codes(kp: nat, kd: nat, pos: nat, spd: nat, tor: nat)

  predicate Fit(c: Codes) {
    c.kp < 0x1000 && c.kd < 0x200 && c.pos < 0x1_0000 && c.spd < 0x1000 && c.tor < 0x1000
  }

  function CtrlBytes(c: Codes): (s: seq<byte>)
    ensures |s| == 8
  {
    [Byte(c.kp / 0x80),
     Byte(Or(c.kp % 0x80 * 2, c.kd / 0x100 % 2)),
     Byte(c.kd % 0x100),
     Byte(c.pos / 0x100),
     Byte(c.pos % 0x100),
     Byte(c.spd / 0x10),
     Byte(Or(c.spd % 0x10 * 0x10, c.tor / 0x100)),
     Byte(c.tor % 0x100)]
  }

  /** The fields of a frame: three bits zero, then 12, 9, 16, 12 and 12 bits. */
  function CtrlFields(s: seq<byte>): Codes
    requires |s| == 8
  {
    Codes(s[0] % 0x20 * 0x80 + s[1] as int / 2, s[1] % 2 * 0x100 + s[2] as int, s[3] as int * 0x100 + s[4] as int,
          s[5] as int * 0x10 + s[6] as int / 0x10, s[6] % 0x10 * 0x100 + s[7] as int)
  }

  /** Two fields in one byte, the upper one of weight `m`. */
  lemma Side2(hi: nat, lo: nat)
    requires hi < 0x80 && lo < 2
    ensures Byte(Or(hi * 2, lo)) == hi * 2 + lo && (hi * 2 + lo) / 2 == hi && (hi * 2 + lo) % 2 == lo
  {
    hide Or, Pow2;
    Powers();
    OrDisjoint(hi, lo, 1);
  }

  lemma Side16(hi: nat, lo: nat)
    requires hi < 0x10 && lo < 0x10
    ensures Byte(Or(hi * 0x10, lo)) == hi * 0x10 + lo
    ensures (hi * 0x10 + lo) / 0x10 == hi && (hi * 0x10 + lo) % 0x10 == lo
  {
    hide Or, Pow2;
    Powers();
    OrDisjoint(hi, lo, 4);
  }

  /** Codes that fit their fields come back from the eight bytes. */
  lemma CtrlUnpacks(c: Codes)
    requires Fit(c)
    ensures CtrlFields(CtrlBytes(c)) == c && CtrlBytes(c)[0] < 0x20
  {
    hide Or, Pow2;
    Side2(c.kp % 0x80, c.kd / 0x100);
    Side16(c.spd % 0x10, c.tor / 0x100);
    var s := CtrlBytes(c);
    assert s[0] == c.kp / 0x80 && s[1] == c.kp % 0x80 * 2 + c.kd / 0x100;
    assert s[5] == c.spd / 0x10 && s[6] == c.spd % 0x10 * 0x10 + c.tor / 0x100;
  }

  /** Every frame with three leading zero bits is that of exactly one set of codes. */
  lemma CtrlPacks(s: seq<byte>)
    requires |s| == 8 && s[0] < 0x20
    ensures Fit(CtrlFields(s)) && CtrlBytes(CtrlFields(s)) == s
  {
    hide Or, Pow2;
    var c := CtrlFields(s);
    FieldParts(s);
    Side2(c.kp % 0x80, c.kd / 0x100);
    Side16(c.spd % 0x10, c.tor / 0x100);
    var b := CtrlBytes(c);
    assert b[0] == s[0] && b[1] == s[1] && b[2] == s[2] && b[3] == s[3];
    assert b[4] == s[4] && b[5] == s[5] && b[6] == s[6] && b[7] == s[7];
  }

  lemma FieldParts(s: seq<byte>)
    requires |s| == 8 && s[0] < 0x20
    ensures var c := CtrlFields(s);
            && Fit(c)
            && c.kp / 0x80 == s[0] as int && c.kp % 0x80 == s[1] as int / 2
            && c.kd / 0x100 == s[1] as int % 2 && c.kd % 0x100 == s[2] as int
            && c.spd / 0x10 == s[5] as int && c.spd % 0x10 == s[6] as int / 0x10
            && c.tor / 0x100 == s[6] as int % 0x10 && c.tor % 0x100 == s[7] as int
  {
  }

  // ----- the control command

  datatype MotorType = S_4310 | M_8112 | L_10020 | H_13715

  function TorqueMax(t: MotorType): real {
    match t
    case S_4310 => 30.0
    case M_8112 => 90.0
    case L_10020 => 150.0
    case H_13715 => 320.0
  }

  function Code(x: real, lo: real, hi: real, bits: nat): (k: nat)
    requires lo < hi && bits >= 1
    ensures k < Pow2(bits)
  {
    QuantiseError(x, lo, hi, bits);
    FloatToUint(Clamp(x, lo, hi), lo, hi, bits)
  }

  /** The five codes of a command. */
  function CtrlCodes(t: MotorType, kp: real, kd: real, pos: real, spd: real, tor: real): Codes {
    Codes(Code(kp, 0.0, 1500.0, 12), Code(kd, 0.0, 50.0, 9), Code(pos, -12.5, 12.5, 16), Code(spd, -18.0, 18.0, 12),
          Code(tor, -TorqueMax(t), TorqueMax(t), 12))
  }

  /** `k` stands for a value at or below `x` clamped, by less than one step. */
  predicate Close(k: nat, x: real, lo: real, hi: real, bits: nat)
    requires lo < hi && bits >= 1
  {
    UintToFloat(k, lo, hi, bits) <= Clamp(x, lo, hi) < UintToFloat(k, lo, hi, bits) + (hi - lo) / MaxCode(bits)
  }

  /** For every command and motor type, what is read back from the eight bytes are five codes in
      range that stand for the clamped values, each low by less than one step. */
  lemma CommandArrives(t: MotorType, kp: real, kd: real, pos: real, spd: real, tor: real)
    ensures var c := CtrlCodes(t, kp, kd, pos, spd, tor);
            && Fit(c)
            && CtrlFields(CtrlBytes(c)) == c
            && Close(c.kp, kp, 0.0, 1500.0, 12)
            && Close(c.kd, kd, 0.0, 50.0, 9)
            && Close(c.pos, pos, -12.5, 12.5, 16)
            && Close(c.spd, spd, -18.0, 18.0, 12)
            && Close(c.tor, tor, -TorqueMax(t), TorqueMax(t), 12)
  {
    hide Pow2, CtrlBytes, CtrlFields, UintToFloat, FloatToUint, Clamp, MaxCode;
    Powers();
    QuantiseError(kp, 0.0, 1500.0, 12);
    QuantiseError(kd, 0.0, 50.0, 9);
    QuantiseError(pos, -12.5, 12.5, 16);
    QuantiseError(spd, -18.0, 18.0, 12);
    QuantiseError(tor, -TorqueMax(t), TorqueMax(t), 12);
    CtrlUnpacks(CtrlCodes(t, kp, kd, pos, spd, tor));
  }

  // ----- the position command

  /** Mode 1, a 32-bit float given by its bytes from the lowest, speed and current. */
  datatype PositionFields = PositionFields(mode: nat, float: seq<byte>, spd: nat, cur: nat)

  function PositionBytes(f: seq<byte>, spd: nat, cur: nat): (s: seq<byte>)
    requires |f| == 4
    ensures |s| == 8
  {
    [Byte(Or(0x20, f[3] as int / 8)),
     Byte(Or(f[3] as int * 0x20, f[2] as int / 8)),
     Byte(Or(f[2] as int * 0x20, f[1] as int / 8)),
     Byte(Or(f[1] as int * 0x20, f[0] as int / 8)),
     Byte(Or(f[0] as int * 0x20, spd / 0x400)),
     Byte(spd % 0x400 / 4),
     Byte(Or(spd % 4 * 0x40, cur / 0x40)),
     Byte(Or(cur % 0x40 * 4, 1))]
  }

  function PositionOf(s: seq<byte>): PositionFields
    requires |s| == 8
  {
    PositionFields(s[0] as int / 0x20,
                   [s[3] % 0x20 * 8 + s[4] / 0x20, s[2] % 0x20 * 8 + s[3] / 0x20,
                    s[1] % 0x20 * 8 + s[2] / 0x20, s[0] % 0x20 * 8 + s[1] / 0x20],
                   s[4] as int % 0x20 * 0x400 + s[5] as int * 4 + s[6] as int / 0x40,
                   s[6] as int % 0x40 * 0x40 + s[7] as int / 4)
  }

  /** The lower five bits of one byte of the float and the upper three of the next. */
  lemma Side32(hi: byte, lo: nat)
    requires lo < 0x20
    ensures var b := Byte(Or(hi as int * 0x20, lo));
            b as int / 0x20 == hi as int % 8 && b as int % 0x20 == lo
  {
    hide Or, Pow2;
    Powers();
    OrDisjoint(hi, lo, 5);
    var u, v := hi as int / 8, hi as int % 8;
    assert hi as int * 0x20 + lo == u * 0x100 + (v * 0x20 + lo);
  }

  lemma Side64(hi: nat, lo: nat)
    requires hi < 4 && lo < 0x40
    ensures Byte(Or(hi * 0x40, lo)) == hi * 0x40 + lo
    ensures (hi * 0x40 + lo) / 0x40 == hi && (hi * 0x40 + lo) % 0x40 == lo
  {
    hide Or, Pow2;
    Powers();
    OrDisjoint(hi, lo, 6);
  }

  lemma Side4(hi: nat)
    requires hi < 0x40
    ensures Byte(Or(hi * 4, 1)) == hi * 4 + 1
  {
    assert Pow2(2) == 4;
    OrDisjoint(hi, 1, 2);
  }

  /** Speed and current are not clamped: the fields come back exactly if speed fits 15 bits and
      current 12. */
  lemma PositionUnpacksIffFit(f: seq<byte>, spd: nat, cur: nat)
    requires |f| == 4 && spd < 0x1_0000 && cur < 0x1_0000
    ensures PositionOf(PositionBytes(f, spd, cur)) == PositionFields(1, f, spd, cur) <==> spd < 0x8000 && cur < 0x1000
  {
    if spd < 0x8000 && cur < 0x1000 {
      PositionUnpacks(f, spd, cur);
    } else {
      PositionInRange(PositionBytes(f, spd, cur));
    }
  }

  lemma PositionInRange(s: seq<byte>)
    requires |s| == 8
    ensures PositionOf(s).spd < 0x8000 && PositionOf(s).cur < 0x1000
  {
  }

  lemma PositionUnpacks(f: seq<byte>, spd: nat, cur: nat)
    requires |f| == 4 && spd < 0x8000 && cur < 0x1000
    ensures PositionOf(PositionBytes(f, spd, cur)) == PositionFields(1, f, spd, cur)
  {
    hide Or, Pow2, Byte;
    Side32(1, f[3] as int / 8);
    Side32(f[3], f[2] as int / 8);
    Side32(f[2], f[1] as int / 8);
    Side32(f[1], f[0] as int / 8);
    Side32(f[0], spd / 0x400);
    Side64(spd % 4, cur / 0x40);
    Side4(cur % 0x40);
    ByteSmall(spd % 0x400 / 4);
    var s := PositionBytes(f, spd, cur);
    assert s[5] == spd % 0x400 / 4;
    assert PositionOf(s).float == f;
  }

  lemma ByteSmall(x: nat)
    requires x < 0x100
    ensures Byte(x) == x
  {
  }
}
