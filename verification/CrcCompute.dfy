/**
 The table-driven CRC of the remote-control link, for 16- and 32-bit registers.
 */
module CrcCompute {
  import opened ShiftRegister
  import opened CrcTheory
  import ErrorDetection

  /** The CRC by bit-serial division: the register after the message, with the final value added. */
  function CrcOf(w: nat, poly: bv32, init: bv32, final: bv32, message: seq<bv8>): bv32
    requires Width(w)
  {
    Xor(Serial(w, poly, init, MessageBits(message)), final)
  }

  class Crc {
    const width: nat
    const polynomial: bv32
    const initialRemainder: bv32
    const finalXorValue: bv32
    var remainder: bv32
    const crcTable: array<bv32>

    /** The parameters are values of the register type. */
    ghost predicate Parameters() {
      Width(width) && Fits(width, polynomial) && Fits(width, initialRemainder)
    }

    /** Every table entry is the division of its byte. */
    ghost predicate Tabled()
      requires Width(width)
      reads crcTable
    {
      && crcTable.Length == 256
      && forall d: bv8 :: crcTable[d as int] == Entry(width, polynomial, d)
    }

    ghost predicate Valid()
      reads this, crcTable
    {
      Parameters() && Tabled() && Fits(width, remainder)
    }

    constructor (width: nat, polynomial: bv32, initialRemainder: bv32, finalXorValue: bv32)
      requires Width(width) && Fits(width, polynomial) && Fits(width, initialRemainder)
      ensures Valid() && fresh(crcTable)
      ensures this.width == width && this.polynomial == polynomial
      ensures this.initialRemainder == initialRemainder && this.finalXorValue == finalXorValue
    {
      this.width := width;
      this.polynomial := polynomial;
      this.initialRemainder := initialRemainder;
      this.finalXorValue := finalXorValue;
      this.remainder := initialRemainder;
      this.crcTable := new bv32[256];
      new;
      CrcInit();
    }

    /** Fills the table by long division, a bit at a time. */
    method CrcInit()
      requires Width(width) && crcTable.Length == 256
      modifies crcTable
      ensures Tabled()
    {
      hide Shift, High, Entry;
      for dividend := 0 to 256
        invariant forall d: bv8 :: d as int < dividend ==> crcTable[d as int] == Entry(width, polynomial, d)
      {
        var r := DivideByte(dividend as bv8);
        crcTable[dividend] := r;
        ByteIndex(dividend);
      }
    }

    /** One table entry: eight steps of the division. */
    method DivideByte(dividend: bv8) returns (r: bv32)
      requires Width(width)
      ensures r == Entry(width, polynomial, dividend)
    {
      hide TopSet, High, Left, Xor;
      r := High(width, dividend);
      for bit := 0 to 8
        invariant r == Shifts(width, polynomial, High(width, dividend), bit)
      {
        if TopSet(width, r) {
          r := Xor(Left(width, r), polynomial);
        } else {
          r := Left(width, r);
        }
      }
    }

    /** One byte of a message through the table. */
    method Lookup(remainder: bv32, d: bv8) returns (r: bv32)
      requires Parameters() && Tabled() && Fits(width, remainder)
      ensures r == ByteStep(width, polynomial, remainder, d)
      ensures Fits(width, r)
    {
      hide ByteStep, Fits, Entry, LeftByte, Xor, TableIndex;
      var byte := TableIndex(width, remainder, d);
      r := Xor(crcTable[byte as int], LeftByte(width, remainder));
      TableStep(width, polynomial, remainder, d);
      StepFits(width, polynomial, remainder, d);
    }

    /** The CRC of a whole message. */
    method Compute(message: seq<bv8>) returns (crc: bv32)
      requires Valid()
      ensures crc == CrcOf(width, polynomial, initialRemainder, finalXorValue, message)
    {
      hide ByteStep, Fits, Xor, Serial, MessageBits, Tabled;
      var r := initialRemainder;
      for offset := 0 to |message|
        invariant Fits(width, r)
        invariant r == Register(width, polynomial, initialRemainder, message[..offset])
      {
        assert message[..offset + 1][..offset] == message[..offset];
        r := Lookup(r, message[offset]);
      }
      assert message[..|message|] == message;
      RegisterIsSerial(width, polynomial, initialRemainder, message);
      crc := Xor(r, finalXorValue);
    }

    /** The CRC of a message that arrives in pieces; `reinit` starts a new message. */
    method ComputeNext(message: seq<bv8>, reinit: bool) returns (crc: bv32)
      requires Valid()
      modifies this`remainder
      ensures Valid()
      ensures remainder == Serial(width, polynomial, if reinit then initialRemainder else old(remainder), MessageBits(message))
      ensures crc == Xor(remainder, finalXorValue)
    {
      hide ByteStep, Fits, Xor, Serial, MessageBits, Entry;
      if reinit {
        remainder := initialRemainder;
      }
      ghost var start := remainder;
      for offset := 0 to |message|
        invariant Valid()
        invariant remainder == Register(width, polynomial, start, message[..offset])
      {
        assert message[..offset + 1][..offset] == message[..offset];
        remainder := Lookup(remainder, message[offset]);
      }
      assert message[..|message|] == message;
      RegisterIsSerial(width, polynomial, start, message);
      crc := Xor(remainder, finalXorValue);
    }

    /** A message fed piece by piece, only the first piece starting anew, has the CRC of the whole. */
    method ComputePieces(pieces: seq<seq<bv8>>) returns (crc: bv32)
      requires Valid() && pieces != []
      modifies this`remainder
      ensures Valid()
      ensures crc == CrcOf(width, polynomial, initialRemainder, finalXorValue, Concat(pieces))
    {
      hide Xor, Serial, MessageBits, Fits, Entry;
      crc := ComputeNext(pieces[0], true);
      assert pieces[..1] == [pieces[0]];
      ConcatOne(pieces[0]);
      for i := 1 to |pieces|
        invariant Valid()
        invariant remainder == Serial(width, polynomial, initialRemainder, MessageBits(Concat(pieces[..i])))
        invariant crc == Xor(remainder, finalXorValue)
      {
        assert pieces[..i + 1][..i] == pieces[..i];
        crc := ComputeNext(pieces[i], false);
        MessageBitsJoin(Concat(pieces[..i]), pieces[i]);
        SerialJoin(width, polynomial, initialRemainder, MessageBits(Concat(pieces[..i])), MessageBits(pieces[i]));
      }
      assert pieces[..|pieces|] == pieces;
    }
  }

  /** The table-free CRC of the IMU link is the table-driven one for its parameters. */
  lemma NibbleTrickIsTable(message: seq<bv8>)
    ensures ErrorDetection.Wide(ErrorDetection.Crc16Of(message)) == CrcOf(16, ErrorDetection.CCITT, 0, 0, message)
  {
    hide Xor, Serial, Register, ErrorDetection.Crc16Of, ErrorDetection.Wide;
    ErrorDetection.Crc16IsRegister(message);
    RegisterIsSerial(16, ErrorDetection.CCITT, 0, message);
    XorZero(Serial(16, ErrorDetection.CCITT, 0, MessageBits(message)));
  }

  function Concat(pieces: seq<seq<bv8>>): seq<bv8> {
    if pieces == [] then [] else Concat(pieces[..|pieces| - 1]) + pieces[|pieces| - 1]
  }

  lemma ConcatOne(piece: seq<bv8>)
    ensures Concat([piece]) == piece
  {
    assert [piece][..0] == [];
  }

  lemma ByteIndex(i: int)
    requires 0 <= i < 256
    ensures (i as bv8) as int == i
    ensures forall d: bv8 {:trigger d as int} :: d as int == i ==> d == i as bv8
  {
    forall d: bv8 {:trigger d as int} | d as int == i
      ensures d == i as bv8
    {
      assert (d as int) as bv8 == d;
    }
  }
}
