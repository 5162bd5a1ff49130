/**
 CANopen-over-EtherCAT SDO download: one value split over mailbox frames.

 Bit fields of the command byte are written as arithmetic.  A frame keeps the bytes behind
 its command byte, up to the end of the mailbox; the length field says how many of them
 count.  The answers of the slave are a parameter.
 */
module SdoWrite {
  type byte = x: int | 0 <= x < 256

  /** A mailbox frame: length field, session counter, SDO command, bytes behind the command. */
  datatype Frame = Frame(length: nat, counter: nat, command: nat, body: seq<byte>)

  /** What becomes of a frame: answered well, never sent, sent without an answer, or answered
      by an abort or an unexpected frame. */
  datatype Answer = Accepted | SendFailed | NoReply | Refused

  const DOWN_INIT := 0x21
  const DOWN_EXPEDITED := 0x23
  const DOWN_INIT_CA := 0x31
  const TOGGLE := 0x10

  function NextCount(counter: nat): nat {
    if counter + 1 > 7 then 1 else counter + 1
  }

  /** Sizes of single frames are kept in 16 bits. */
  function Short(size: nat): nat {
    size % 0x10000
  }

  function Little2(n: nat): seq<byte> {
    [n % 0x100, n / 0x100 % 0x100]
  }

  function Little4(n: nat): seq<byte> {
    [n % 0x100, n / 0x100 % 0x100, n / 0x1_0000 % 0x100, n / 0x100_0000 % 0x100]
  }

  function Zeros(n: nat): (s: seq<byte>)
    ensures |s| == n
  {
    seq(n, _ => 0)
  }

  /** The buffer after copying `chunk` to its start; the rest is left from the frame before. */
  function Overwrite(buffer: seq<byte>, chunk: seq<byte>): (s: seq<byte>)
    requires |chunk| <= |buffer|
    ensures |s| == |buffer| && s[..|chunk|] == chunk
  {
    chunk + buffer[|chunk|..]
  }

  // ----- frames, as sent one by one

  /** Bytes that fit behind a header of `header` bytes in a mailbox of `mbx`, and whether the
      rest needs further frames. */
  function Portion(mbx: nat, header: nat, size: nat): (n: nat)
    requires header <= mbx
    ensures n <= size && n <= mbx - header
  {
    if Short(size) > mbx - header then mbx - header else Short(size)
  }

  predicate MoreFollows(mbx: nat, header: nat, size: nat)
    requires header <= mbx
  {
    Short(size) > mbx - header
  }

  function Expedited(mbx: nat, counter: nat, index: nat, subindex: byte, data: seq<byte>): Frame
    requires mbx >= 16 && |data| <= 4
  {
    Frame(10, NextCount(counter), DOWN_EXPEDITED + (4 - |data|) * 4 % 16,
          Overwrite(Zeros(mbx - 9), Little2(index) + [subindex] + data))
  }

  function Initial(mbx: nat, counter: nat, index: nat, subindex: byte, ca: bool, data: seq<byte>): Frame
    requires mbx >= 16
  {
    var n := Portion(mbx, 16, |data|);
    Frame(10 + n, NextCount(counter), if ca then DOWN_INIT_CA else DOWN_INIT,
          Overwrite(Zeros(mbx - 9),
                    Little2(index) + [if ca && subindex > 1 then 1 else subindex] + Little4(|data|) + data[..n]))
  }

  function Segment(mbx: nat, counter: nat, buffer: seq<byte>, toggle: nat, data: seq<byte>): (f: Frame)
    requires mbx >= 16 && |buffer| == mbx - 9
    ensures |f.body| == mbx - 9
  {
    var n := Portion(mbx, 9, |data|);
    var last := !MoreFollows(mbx, 9, |data|);
    Frame(if last && n < 7 then 10 else n + 3,
          NextCount(counter),
          (if !last then 0x00 else if n < 7 then 0x01 + (7 - n) * 2 else 0x01) + toggle,
          Overwrite(buffer, data[..n]))
  }

  function Segments(mbx: nat, counter: nat, buffer: seq<byte>, toggle: nat, data: seq<byte>): (fs: seq<Frame>)
    requires mbx >= 16 && |buffer| == mbx - 9 && toggle <= TOGGLE
    ensures |fs| > 0
    decreases |data|
  {
    var f := Segment(mbx, counter, buffer, toggle, data);
    if MoreFollows(mbx, 9, |data|)
    then [f] + Segments(mbx, f.counter, f.body, TOGGLE - toggle, data[Portion(mbx, 9, |data|)..])
    else [f]
  }

  /** All frames of a download that is not broken off. */
  function Download(mbx: nat, counter: nat, index: nat, subindex: byte, ca: bool, data: seq<byte>): (fs: seq<Frame>)
    requires mbx >= 16
    ensures |fs| > 0
  {
    if |data| <= 4 && !ca then [Expedited(mbx, counter, index, subindex, data)]
    else
      var f := Initial(mbx, counter, index, subindex, ca, data);
      if MoreFollows(mbx, 16, |data|)
      then [f] + Segments(mbx, f.counter, f.body, 0, data[Portion(mbx, 16, |data|)..])
      else [f]
  }

  /** Of `n` frames, how many are sent when frame `k` is next: the first must be answered well,
      the others only must not be refused. */
  function SentFrom(answers: nat -> Answer, k: nat, n: nat): (m: nat)
    requires k < n
    ensures k < m <= n
    decreases n - k
  {
    if k + 1 < n && (if k == 0 then answers(k).Accepted? else !answers(k).Refused?)
    then SentFrom(answers, k + 1, n)
    else k + 1
  }

  /** Fills the mailbox with the next segment. */
  method NextSegment(out: array<byte>, mbx: nat, cnt: nat, toggle: nat, data: seq<byte>, hp: nat)
    returns (f: Frame, size: nat, notLast: bool)
    requires mbx >= 16 && out.Length == mbx - 9 && hp <= |data|
    modifies out
    ensures f == Segment(mbx, cnt, old(out[..]), toggle, data[hp..]) && out[..] == f.body
    ensures size == Portion(mbx, 9, |data| - hp) && notLast == MoreFollows(mbx, 9, |data| - hp)
    ensures notLast ==> size > 0
  {
    size := Short(|data| - hp);
    notLast := false;
    var command := 0x01;
    if size > mbx - 9 {
      size := mbx - 9;
      notLast := true;
      command := 0x00;
    }
    var length := size + 3;
    if !notLast && size < 7 {
      length := 10;
      command := 0x01 + (7 - size) * 2;
    }
    command := command + toggle;
    assert data[hp..hp + size] == data[hp..][..size];
    Copy(out, data[hp..hp + size]);
    f := Frame(length, NextCount(cnt), command, out[..]);
  }

  method Copy(buffer: array<byte>, chunk: seq<byte>)
    requires |chunk| <= buffer.Length
    modifies buffer
    ensures buffer[..] == Overwrite(old(buffer[..]), chunk)
  {
    forall i | 0 <= i < |chunk| {
      buffer[i] := chunk[i];
    }
  }

  /** The loop over the segments, after a well answered first frame. */
  method SendSegments(out: array<byte>, mbx: nat, first: Frame, data: seq<byte>, start: nat, answers: nat -> Answer)
    returns (sent: seq<Frame>, ok: bool)
    requires mbx >= 16 && out.Length == mbx - 9 && out[..] == first.body
    requires start <= |data| && answers(0).Accepted?
    modifies out
    ensures var all := [first] + Segments(mbx, first.counter, first.body, 0, data[start..]);
            sent == all[..SentFrom(answers, 0, |all|)]
    ensures ok <==> answers(|sent| - 1).Accepted?
  {
    hide Segment, Portion, MoreFollows;
    ghost var all := [first] + Segments(mbx, first.counter, first.body, 0, data[start..]);
    var cnt, hp, toggle, notLast := first.counter, start, 0, true;
    sent, ok := [first], true;
    while notLast
      invariant 0 < |sent| <= |all| && hp <= |data| && 0 <= toggle <= TOGGLE
      invariant ok <==> answers(|sent| - 1).Accepted?
      invariant notLast ==> sent + Segments(mbx, cnt, out[..], toggle, data[hp..]) == all
      invariant notLast ==> SentFrom(answers, 0, |all|) == SentFrom(answers, |sent|, |all|)
      invariant !notLast ==> sent == all[..SentFrom(answers, 0, |all|)]
      decreases notLast, |data| - hp
    {
      ghost var rest := data[hp..];
      ghost var before := sent;
      var k := |sent|;
      var f: Frame;
      var size;
      f, size, notLast := NextSegment(out, mbx, cnt, toggle, data, hp);
      cnt := f.counter;
      sent := sent + [f];
      hp := hp + size;
      assert data[hp..] == rest[size..];
      ghost var next := if notLast then Segments(mbx, cnt, out[..], TOGGLE - toggle, data[hp..]) else [];
      assert all == before + ([f] + next) == sent + next;
      ok := answers(k).Accepted?;
      if answers(k).Refused? {
        notLast := false;
      }
      toggle := TOGGLE - toggle;
    }
  }

  /** Sends the frames of the download one after the other, as far as the answers let it. */
  method SdoWrite(mbx: nat, counter: nat, index: nat, subindex: byte, ca: bool, data: seq<byte>,
                  answers: nat -> Answer)
    returns (sent: seq<Frame>, ok: bool)
    requires mbx >= 16
    ensures var all := Download(mbx, counter, index, subindex, ca, data);
            sent == all[..SentFrom(answers, 0, |all|)]
    ensures ok <==> answers(|sent| - 1).Accepted?
  {
    hide Segments;
    var out := new byte[mbx - 9](_ => 0);
    assert out[..] == Zeros(mbx - 9);
    var cnt := NextCount(counter);
    if |data| <= 4 && !ca {
      Copy(out, Little2(index) + [subindex] + data);
      sent := [Frame(10, cnt, DOWN_EXPEDITED + (4 - |data|) * 4 % 16, out[..])];
      ok := answers(0).Accepted?;
      return;
    }
    var size := Short(|data|);
    var notLast := false;
    if size > mbx - 16 {
      size := mbx - 16;
      notLast := true;
    }
    Copy(out, Little2(index) + [if ca && subindex > 1 then 1 else subindex] + Little4(|data|) + data[..size]);
    var first := Frame(10 + size, cnt, if ca then DOWN_INIT_CA else DOWN_INIT, out[..]);
    assert first == Initial(mbx, counter, index, subindex, ca, data);
    sent := [first];
    ok := answers(0).Accepted?;
    if ok && notLast {
      sent, ok := SendSegments(out, mbx, first, data, size, answers);
    }
  }
}
