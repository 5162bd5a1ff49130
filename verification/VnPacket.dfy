/**
 Packets of the IMU link: validity, the length a binary packet announces, and the
 commands the host finalises.
 */
module VnPacket {
  import opened ErrorDetection
  import opened ShiftRegister
  import CrcTheory

  const DOLLAR: bv8 := 0x24
  const STAR: bv8 := 0x2A
  const LETTER_X: bv8 := 0x58
  const CR: bv8 := 0x0D
  const LF: bv8 := 0x0A
  const SYNC: bv8 := 0xFA

  // ----- hexadecimal text

  /** Prints a nibble. */
  function HexChar(n: bv8): bv8 {
    if n < 10 then n + 0x30 else n + 0x37
  }

  /** Reads a hexadecimal character; `char` is signed, so bytes from 0x80 count as negative. */
  function FromHexChar(c: bv8): bv8 {
    if c >= 0x80 || c < 0x3A then c - 0x30
    else if c < 0x47 then c - 0x37
    else c - 0x57
  }

  function Hex2(v: bv8): (text: seq<bv8>)
    ensures |text| == 2
  {
    [HexChar(v >> 4), HexChar(v & 0x0F)]
  }

  function FromHex2(hi: bv8, lo: bv8): bv8 {
    (FromHexChar(hi) << 4) + FromHexChar(lo)
  }

  function Hex4(v: bv16): (text: seq<bv8>)
    ensures |text| == 4
  {
    Hex2((v >> 8) as bv8) + Hex2((v & 0xFF) as bv8)
  }

  function FromHex4(a: bv8, b: bv8, c: bv8, d: bv8): bv16 {
    ((FromHex2(a, b) as bv16) << 8) + (FromHex2(c, d) as bv16)
  }

  lemma HexCharRoundTrip(n: bv8)
    requires n < 16
    ensures FromHexChar(HexChar(n)) == n
    ensures HexChar(n) != LETTER_X && HexChar(n) != STAR
  {
    if n < 10 {
      assert n + 0x30 < 0x3A;
    } else {
      assert 0x41 <= n + 0x37 < 0x47;
    }
  }

  lemma RawNibbles(v: bv8)
    ensures v >> 4 < 16 && v & 0x0F < 16
    ensures ((v >> 4) << 4) + (v & 0x0F) == v
  {
  }

  lemma Hex2RoundTrip(v: bv8)
    ensures FromHex2(Hex2(v)[0], Hex2(v)[1]) == v
    ensures forall k :: 0 <= k < 2 ==> Hex2(v)[k] != LETTER_X && Hex2(v)[k] != STAR
  {
    hide HexChar, FromHexChar;
    RawNibbles(v);
    HexCharRoundTrip(v >> 4);
    HexCharRoundTrip(v & 0x0F);
  }

  lemma RawHalves16(v: bv16)
    ensures (((v >> 8) as bv8 as bv16) << 8) + ((v & 0xFF) as bv8 as bv16) == v
  {
  }

  lemma Hex4RoundTrip(v: bv16)
    ensures FromHex4(Hex4(v)[0], Hex4(v)[1], Hex4(v)[2], Hex4(v)[3]) == v
    ensures forall k :: 0 <= k < 4 ==> Hex4(v)[k] != LETTER_X && Hex4(v)[k] != STAR
  {
    hide Hex2, FromHex2;
    RawHalves16(v);
    Hex2RoundTrip((v >> 8) as bv8);
    Hex2RoundTrip((v & 0xFF) as bv8);
  }

  // ----- validity

  /** What the validity test answers, or that it throws because it knows no such packet type. */
  datatype Answer = Valid | Invalid | NotImplemented

  function ToAnswer(b: bool): Answer {
    if b then Valid else Invalid
  }

  function Check(data: seq<bv8>): Answer {
    var n := |data|;
    if n < 7 then Invalid
    else if data[0] == DOLLAR then
      if data[n - 3] == LETTER_X && data[n - 4] == LETTER_X then Valid
      else if data[n - 5] == STAR then
        ToAnswer(FromHex2(data[n - 4], data[n - 3]) == XorAll(data[1..n - 5]))
      else if data[n - 7] == STAR then
        ToAnswer(FromHex4(data[n - 6], data[n - 5], data[n - 4], data[n - 3]) == Crc16Of(data[1..n - 7]))
      else Invalid
    else if data[0] == SYNC then
      ToAnswer(Crc16Of(data[1..]) == 0)
    else NotImplemented
  }

  method IsValid(data: seq<bv8>) returns (answer: Answer)
    ensures answer == Check(data)
  {
    var n := |data|;
    if n < 7 {
      return Invalid;
    }
    if data[0] == DOLLAR {
      if data[n - 3] == LETTER_X && data[n - 4] == LETTER_X {
        return Valid;
      }
      if data[n - 5] == STAR {
        var computed := Checksum8(data[1..n - 5]);
        return ToAnswer(FromHex2(data[n - 4], data[n - 3]) == computed);
      } else if data[n - 7] == STAR {
        var computed := Crc16(data[1..n - 7]);
        return ToAnswer(FromHex4(data[n - 6], data[n - 5], data[n - 4], data[n - 3]) == computed);
      }
      return Invalid;
    }
    if data[0] == SYNC {
      var computed := Crc16(data[1..]);
      return ToAnswer(computed == 0);
    }
    return NotImplemented;
  }

  /** A binary packet is valid exactly when its last two bytes are the CRC, high byte first,
      of everything between the sync byte and them. */
  lemma BinaryValidIffCrcAppended(p: seq<bv8>)
    requires |p| >= 7 && p[0] == SYNC
    ensures Check(p) == Valid <==> Crc16Of(p[1..|p| - 2]) == BigEndian(p[|p| - 2], p[|p| - 1])
  {
    hide Crc16Of, BigEndian;
    var n := |p|;
    assert p[1..] == p[1..n - 2] + [p[n - 2], p[n - 1]];
    ResidueIffAppended(p[1..n - 2], p[n - 2], p[n - 1]);
  }

  /** Damage within two adjacent bytes after the sync byte makes a valid binary packet invalid. */
  lemma BinaryDamageDetected(p: seq<bv8>, p': seq<bv8>, k: nat)
    requires |p| >= 7 && p[0] == SYNC && p' != [] && p'[0] == SYNC
    requires CrcTheory.DifferWithinTwo(p[1..], p'[1..], k)
    requires Check(p) == Valid
    ensures Check(p') == Invalid
  {
    hide Crc16Of;
    assert p'[0] == p[0];
    Crc16DetectsTwoBytes(p[1..], p'[1..], k);
  }

  // ----- commands of the host

  datatype ErrorDetectionMode = NoDetection | Checksum | Crc

  function Finalized(mode: ErrorDetectionMode, command: seq<bv8>): seq<bv8>
    requires command != []
  {
    match mode
    case Checksum => command + [STAR] + Hex2(XorAll(command[1..])) + [CR, LF]
    case Crc => command + [STAR] + Hex4(Crc16Of(command[1..])) + [CR, LF]
    case NoDetection => command + [STAR, LETTER_X, LETTER_X, CR, LF]
  }

  /** Bytes printed behind the command, the terminating zero included. */
  function SuffixRoom(mode: ErrorDetectionMode): nat {
    if mode == Crc then 8 else 6
  }

  /** Appends error detection and line end to a command in `packet[..length]`, and the zero that
      printing leaves behind them. */
  method FinalizeCommand(mode: ErrorDetectionMode, packet: array<bv8>, length: nat) returns (newLength: nat)
    requires 0 < length && length + SuffixRoom(mode) <= packet.Length
    modifies packet
    ensures newLength + 1 == length + SuffixRoom(mode)
    ensures packet[..newLength] == Finalized(mode, old(packet[..length])) && packet[newLength] == 0
    ensures packet[newLength + 1..] == old(packet[..])[newLength + 1..]
  {
    ghost var command := packet[..length];
    newLength := length;
    match mode {
      case Checksum =>
        var sum := Checksum8(packet[1..length]);
        newLength := Append(packet, length, [STAR] + Hex2(sum) + [CR, LF]);
      case Crc =>
        var crc := Crc16(packet[1..length]);
        newLength := Append(packet, length, [STAR] + Hex4(crc) + [CR, LF]);
      case NoDetection =>
        newLength := Append(packet, length, [STAR, LETTER_X, LETTER_X, CR, LF]);
    }
  }

  /** Prints `text` and a terminating zero behind the first `length` bytes of a buffer. */
  method Append(packet: array<bv8>, length: nat, text: seq<bv8>) returns (newLength: nat)
    requires length + |text| + 1 <= packet.Length
    modifies packet
    ensures newLength == length + |text|
    ensures packet[..newLength] == old(packet[..length]) + text && packet[newLength] == 0
    ensures packet[newLength + 1..] == old(packet[..])[newLength + 1..]
  {
    newLength := length + |text|;
    for i := 0 to |text|
      invariant packet[..length] == old(packet[..length])
      invariant packet[length..length + i] == text[..i]
      invariant packet[newLength..] == old(packet[..])[newLength..]
    {
      packet[length + i] := text[i];
    }
    ghost var printed := packet[..newLength];
    packet[newLength] := 0;
    assert packet[..newLength] == printed;
  }

  /** A finalised `$` command passes the validity test exactly when it is long enough: two
      bytes before error detection, or one with the longer CRC suffix. */
  lemma FinalizedIsValid(mode: ErrorDetectionMode, command: seq<bv8>)
    requires command != [] && command[0] == DOLLAR
    ensures Check(Finalized(mode, command)) == (if |command| >= 2 || mode == Crc then Valid else Invalid)
  {
    hide Crc16Of, XorAll, HexChar, FromHexChar, FromHex2, FromHex4, Hex2, Hex4;
    var p := Finalized(mode, command);
    var n := |p|;
    var body := command[1..];
    match mode {
      case Checksum =>
        Hex2RoundTrip(XorAll(body));
        assert n >= 7 ==> p[1..n - 5] == body;
      case Crc =>
        Hex4RoundTrip(Crc16Of(body));
        assert p[1..n - 7] == body;
      case NoDetection =>
    }
  }

  /** In checksum mode no change of a single body byte goes unnoticed. */
  lemma ChecksumModeDetectsOneByte(command: seq<bv8>, k: nat, b: bv8)
    requires |command| >= 2 && command[0] == DOLLAR
    requires 1 <= k < |command| && b != command[k]
    ensures Check(Finalized(Checksum, command)[k := b]) == Invalid
  {
    hide XorAll, HexChar, FromHexChar, FromHex2, Hex2;
    var p := Finalized(Checksum, command);
    var p' := p[k := b];
    var n := |p|;
    var body := command[1..];
    Hex2RoundTrip(XorAll(body));
    assert p'[1..n - 5] == body[k - 1 := b];
    OneByteErrorDetected(body, k - 1, b);
  }

  /** In CRC mode no damage within two adjacent body bytes goes unnoticed. */
  lemma CrcModeDetectsTwoBytes(command: seq<bv8>, damaged: seq<bv8>, k: nat)
    requires command != [] && command[0] == DOLLAR && damaged != [] && damaged[0] == DOLLAR
    requires CrcTheory.DifferWithinTwo(command[1..], damaged[1..], k)
    ensures var p := Finalized(Crc, command);
            Check(damaged + p[|command|..]) == Invalid
  {
    hide Crc16Of, HexChar, FromHexChar, FromHex2, FromHex4, Hex2, Hex4;
    var p := Finalized(Crc, command);
    var p' := damaged + p[|command|..];
    var n := |p'|;
    Hex4RoundTrip(Crc16Of(command[1..]));
    assert p'[1..n - 7] == damaged[1..];
    Crc16DetectsTwoBytes(command[1..], damaged[1..], k);
  }
}
