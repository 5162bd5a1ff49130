/**
 Download and upload together: the reader rebuilds any split of a value, the writer makes
 such a split, and what happens past 16-bit sizes and when segments get lost.
 */
module SdoTransfer {
  import opened SdoWrite
  import opened SdoRead

  // ----- any split is read back

  function Concat(chunks: seq<seq<byte>>): seq<byte> {
    if chunks == [] then [] else chunks[0] + Concat(chunks[1..])
  }

  /** A segment frame carries `chunk`: a last one shorter than seven bytes is padded to seven
      and names the unused ones. */
  predicate Carries(f: Frame, chunk: seq<byte>, last: bool) {
    && f.command < 0x20
    && (Last(f) <==> last)
    && |chunk| <= |f.body|
    && f.body[..|chunk|] == chunk
    && Formed(f, 3)
    && if last && |chunk| < 7
       then f.length == 10 && f.command / 2 % 8 == 7 - |chunk|
       else f.length == |chunk| + 3 && (last && |chunk| == 7 ==> f.command / 2 % 8 == 0)
  }

  predicate CarriesAll(fs: seq<Frame>, chunks: seq<seq<byte>>) {
    && |fs| == |chunks| > 0
    && Carries(fs[0], chunks[0], |fs| == 1)
    && (|fs| > 1 ==> CarriesAll(fs[1..], chunks[1..]))
  }

  /** A first frame that announces `size` bytes and carries `chunk`. */
  predicate Opens(f: Frame, index: nat, size: nat, chunk: seq<byte>) {
    && Formed(f, 10)
    && f.length == 10 + |chunk|
    && f.command / 2 % 2 == 0
    && f.body[..2] == Little2(index)
    && Big4(f.body[3..7]) == size
    && f.body[7..7 + |chunk|] == chunk
  }

  function Replies(fs: seq<Frame>): (rs: seq<Reply>)
    ensures |rs| == |fs|
  {
    seq(|fs|, k requires 0 <= k < |fs| => Response(fs[k]))
  }

  lemma {:induction false} SegmentsCollected(fs: seq<Frame>, chunks: seq<seq<byte>>)
    requires CarriesAll(fs, chunks)
    ensures WellFormed(Replies(fs), 3) && Collected(Replies(fs)) == (Concat(chunks), Complete)
  {
    var rs := Replies(fs);
    assert rs[1..] == Replies(fs[1..]);
    assert SegmentData(fs[0]) == chunks[0];
    if |fs| > 1 {
      SegmentsCollected(fs[1..], chunks[1..]);
      forall k | 0 <= k < |rs|
        ensures rs[k].Response? ==> Formed(rs[k].frame, 3)
      {
        assert k > 0 ==> rs[k] == rs[1..][k - 1];
      }
    } else {
      assert Concat(chunks[1..]) == [];
      assert chunks[0] + [] == chunks[0];
    }
  }

  /** What the reader makes of a first frame that announces `size` bytes and of segments. */
  function Received(size: nat, room: nat, start: seq<byte>, chunks: seq<seq<byte>>): (seq<byte>, Upload) {
    if Signed(size) > room then ([], Failed)
    else if Signed(size) < 0 then ([], Negative)
    else if |start| < size then (start + Concat(chunks), if chunks == [] then Asking else Complete)
    else (start[..size], Complete)
  }

  lemma FramesAreReceived(index: nat, size: nat, room: nat, first: Frame, fs: seq<Frame>, start: seq<byte>,
                          chunks: seq<seq<byte>>)
    requires Opens(first, index, size, start)
    requires if fs == [] then chunks == [] else CarriesAll(fs, chunks)
    ensures WellFormed(Replies([first] + fs), 3) && WellFormed(Replies([first] + fs)[..1], 10)
    ensures Uploaded(index, room, Replies([first] + fs)) == Received(size, room, start, chunks)
  {
    hide Carries, Big4, Little2;
    var rs := Replies([first] + fs);
    assert rs[1..] == Replies(fs) && rs[..1] == [Response(first)];
    assert rs[0].frame == first && first.body[7..7 + |start|] == start;
    if fs != [] {
      SegmentsCollected(fs, chunks);
      forall k | 0 <= k < |rs|
        ensures rs[k].Response? ==> Formed(rs[k].frame, 3)
      {
        assert k > 0 ==> rs[k] == rs[1..][k - 1];
      }
    }
    if |start| >= size {
      assert first.body[7..7 + size] == start[..size];
    }
  }

  lemma OpensFits(f: Frame, index: nat, size: nat, chunk: seq<byte>)
    requires Opens(f, index, size, chunk)
    ensures size < 0x1_0000_0000
  {
  }

  /** Whatever the sizes of the pieces, the reader puts them together and returns their count. */
  lemma AnySplitIsRead(index: nat, room: nat, first: Frame, fs: seq<Frame>, start: seq<byte>, chunks: seq<seq<byte>>)
    requires Opens(first, index, |start + Concat(chunks)|, start) && |start + Concat(chunks)| <= room
    requires if fs == [] then chunks == [] else CarriesAll(fs, chunks) && Concat(chunks) != []
    ensures WellFormed(Replies([first] + fs), 3) && WellFormed(Replies([first] + fs)[..1], 10)
    ensures Uploaded(index, room, Replies([first] + fs))
         == if |start + Concat(chunks)| < 0x8000_0000 then (start + Concat(chunks), Complete) else ([], Negative)
  {
    hide Carries, Opens;
    OpensFits(first, index, |start + Concat(chunks)|, start);
    FramesAreReceived(index, |start + Concat(chunks)|, room, first, fs, start, chunks);
    assert start[..|start|] == start && start + [] == start;
  }

  // ----- the writer makes such a split

  /** The pieces of the segments that the writer makes. */
  function Pieces(mbx: nat, data: seq<byte>): (chunks: seq<seq<byte>>)
    requires mbx >= 16
    ensures |chunks| > 0
    decreases |data|
  {
    var n := Portion(mbx, 9, |data|);
    [data[..n]] + if MoreFollows(mbx, 9, |data|) then Pieces(mbx, data[n..]) else []
  }

  /** Only the bytes below the 16-bit size of the data are ever sent. */
  lemma {:induction false} PiecesTile(mbx: nat, data: seq<byte>)
    requires mbx >= 16
    ensures Concat(Pieces(mbx, data)) == data[..Short(|data|)]
    ensures forall k | 0 <= k < |Pieces(mbx, data)| :: Short(|data|) > 0 ==> |Pieces(mbx, data)[k]| > 0
    decreases |data|
  {
    var n := Portion(mbx, 9, |data|);
    var chunks := Pieces(mbx, data);
    if MoreFollows(mbx, 9, |data|) {
      ShortAfter(|data|, n);
      PiecesTile(mbx, data[n..]);
      assert chunks[1..] == Pieces(mbx, data[n..]);
      assert data[..Short(|data|)] == data[..n] + data[n..][..Short(|data|) - n];
      forall k | 0 <= k < |chunks|
        ensures |chunks[k]| > 0
      {
        assert k > 0 ==> chunks[k] == chunks[1..][k - 1];
      }
    } else {
      assert chunks[1..] == [] && chunks[0] + [] == chunks[0];
    }
  }

  lemma ShortAfter(size: nat, n: nat)
    requires n <= Short(size)
    ensures n <= size && Short(size - n) == Short(size) - n
  {
    var q := size / 0x10000;
    assert size - n == q * 0x10000 + (Short(size) - n);
  }

  /** The segments carry the pieces, fit the mailbox, and alternate the toggle bit. */
  predicate Proper(f: Frame, mbx: nat, toggle: nat) {
    6 + f.length <= mbx && f.command / TOGGLE * TOGGLE == toggle && 1 <= f.counter <= 7
  }

  predicate ProperAll(fs: seq<Frame>, mbx: nat, toggle: nat)
    requires toggle <= TOGGLE
  {
    fs != [] ==> Proper(fs[0], mbx, toggle) && ProperAll(fs[1..], mbx, TOGGLE - toggle)
  }

  lemma SegmentCarries(mbx: nat, counter: nat, buffer: seq<byte>, toggle: nat, data: seq<byte>)
    requires 16 <= mbx < 0x1_0000 && |buffer| == mbx - 9 && (toggle == 0 || toggle == TOGGLE)
    ensures Carries(Segment(mbx, counter, buffer, toggle, data), data[..Portion(mbx, 9, |data|)],
                    !MoreFollows(mbx, 9, |data|))
    ensures Proper(Segment(mbx, counter, buffer, toggle, data), mbx, toggle)
  {
    var f := Segment(mbx, counter, buffer, toggle, data);
    var n := Portion(mbx, 9, |data|);
    assert f.body[..n] == data[..n];
  }

  lemma {:induction false} SegmentsCarryPieces(mbx: nat, counter: nat, buffer: seq<byte>, toggle: nat, data: seq<byte>)
    requires 16 <= mbx < 0x1_0000 && |buffer| == mbx - 9 && (toggle == 0 || toggle == TOGGLE)
    ensures CarriesAll(Segments(mbx, counter, buffer, toggle, data), Pieces(mbx, data))
    ensures ProperAll(Segments(mbx, counter, buffer, toggle, data), mbx, toggle)
    decreases |data|
  {
    hide Carries, Segment, Proper;
    var f := Segment(mbx, counter, buffer, toggle, data);
    var fs := Segments(mbx, counter, buffer, toggle, data);
    var chunks := Pieces(mbx, data);
    var n := Portion(mbx, 9, |data|);
    SegmentCarries(mbx, counter, buffer, toggle, data);
    if MoreFollows(mbx, 9, |data|) {
      SegmentsCarryPieces(mbx, f.counter, f.body, TOGGLE - toggle, data[n..]);
      assert fs[1..] == Segments(mbx, f.counter, f.body, TOGGLE - toggle, data[n..]);
      assert chunks[1..] == Pieces(mbx, data[n..]);
    } else {
      assert fs[1..] == [];
    }
  }

  lemma LittleThenBig(size: nat)
    requires size < 0x1_0000_0000
    ensures Big4(Little4(size)) == size
  {
  }

  lemma InitialOpens(mbx: nat, counter: nat, index: nat, subindex: byte, ca: bool, data: seq<byte>)
    requires 16 <= mbx < 0x1_0000 && |data| < 0x8000_0000
    ensures Opens(Initial(mbx, counter, index, subindex, ca, data), index, |data|, data[..Portion(mbx, 16, |data|)])
    ensures 6 + Initial(mbx, counter, index, subindex, ca, data).length <= mbx
  {
    hide Little4, Big4;
    var f := Initial(mbx, counter, index, subindex, ca, data);
    var n := Portion(mbx, 16, |data|);
    LittleThenBig(|data|);
    assert |Little2(index)| == 2 && |Little4(|data|)| == 4 by {
      assert |Little4(|data|)| == 4 by {
        LittleSize(|data|);
      }
    }
    var header := Little2(index) + [if ca && subindex > 1 then 1 else subindex] + Little4(|data|);
    var rest := Zeros(mbx - 9)[7 + n..];
    assert f.body == header + data[..n] + rest;
    assert f.body[3..7] == header[3..7] == Little4(|data|);
    assert f.body[7..7 + n] == data[..n];
  }

  lemma LittleSize(size: nat)
    ensures |Little4(size)| == 4
  {
  }

  /** The download splits the data by the rules that the upload undoes: every frame fits the
      mailbox, toggle bits alternate from 0, only the final segment carries the last bit, and
      exactly the first |data| mod 65536 bytes are carried, in order. */
  lemma DownloadIsSplit(mbx: nat, counter: nat, index: nat, subindex: byte, ca: bool, data: seq<byte>)
    requires 16 <= mbx < 0x1_0000 && |data| < 0x8000_0000 && (ca || |data| > 4)
    ensures var fs := Download(mbx, counter, index, subindex, ca, data);
            var n := Portion(mbx, 16, |data|);
            && Opens(fs[0], index, |data|, data[..n])
            && 6 + fs[0].length <= mbx
            && if MoreFollows(mbx, 16, |data|)
               then && CarriesAll(fs[1..], Pieces(mbx, data[n..]))
                    && ProperAll(fs[1..], mbx, 0)
                    && data[..n] + Concat(Pieces(mbx, data[n..])) == data[..Short(|data|)]
               else |fs| == 1 && n == Short(|data|)
  {
    hide Initial, Segments, Opens, CarriesAll, ProperAll;
    var f := Initial(mbx, counter, index, subindex, ca, data);
    var fs := Download(mbx, counter, index, subindex, ca, data);
    var n := Portion(mbx, 16, |data|);
    InitialOpens(mbx, counter, index, subindex, ca, data);
    if MoreFollows(mbx, 16, |data|) {
      BodySize(mbx, counter, index, subindex, ca, data);
      SegmentsCarryPieces(mbx, f.counter, f.body, 0, data[n..]);
      assert fs[1..] == Segments(mbx, f.counter, f.body, 0, data[n..]);
      ShortAfter(|data|, n);
      PiecesTile(mbx, data[n..]);
      assert data[..n] + data[n..][..Short(|data|) - n] == data[..Short(|data|)];
    }
  }

  lemma BodySize(mbx: nat, counter: nat, index: nat, subindex: byte, ca: bool, data: seq<byte>)
    requires mbx >= 16
    ensures |Initial(mbx, counter, index, subindex, ca, data).body| == mbx - 9
  {
  }

  /** The upload undoes the download exactly for sizes below 65536, and an empty value must not
      go as an expedited transfer: its size field then reads four. */
  lemma UploadUndoesDownload(mbx: nat, counter: nat, index: nat, subindex: byte, ca: bool, data: seq<byte>, room: nat)
    requires 16 <= mbx < 0x1_0000 && |data| < 0x8000_0000 && |data| <= room
    ensures var rs := Replies(Download(mbx, counter, index, subindex, ca, data));
            && WellFormed(rs, 3) && WellFormed(rs[..1], 10)
            && (Uploaded(index, room, rs) == (data, Complete) <==> |data| < 0x1_0000 && (ca || |data| > 0))
  {
    hide Opens, CarriesAll, ProperAll, Pieces, Portion, Uploaded, WellFormed;
    var fs := Download(mbx, counter, index, subindex, ca, data);
    if |data| <= 4 && !ca {
      ExpeditedIsRead(mbx, counter, index, subindex, data, room);
    } else {
      DownloadIsSplit(mbx, counter, index, subindex, ca, data);
      var n := Portion(mbx, 16, |data|);
      assert [fs[0]] + fs[1..] == fs;
      if MoreFollows(mbx, 16, |data|) {
        FramesAreReceived(index, |data|, room, fs[0], fs[1..], data[..n], Pieces(mbx, data[n..]));
        assert |data[..Short(|data|)]| == Short(|data|);
        assert |data| < 0x1_0000 ==> data[..Short(|data|)] == data;
      } else {
        FramesAreReceived(index, |data|, room, fs[0], fs[1..], data[..n], []);
        assert n == |data| ==> data[..n][..n] == data;
      }
    }
  }

  lemma ExpeditedIsRead(mbx: nat, counter: nat, index: nat, subindex: byte, data: seq<byte>, room: nat)
    requires 16 <= mbx < 0x1_0000 && |data| <= 4 && |data| <= room
    ensures var rs := Replies([Expedited(mbx, counter, index, subindex, data)]);
            && WellFormed(rs, 3) && WellFormed(rs[..1], 10)
            && (Uploaded(index, room, rs) == (data, Complete) <==> |data| > 0)
  {
    var f := Expedited(mbx, counter, index, subindex, data);
    assert f.body[3..3 + |data|] == data;
    assert f.body[..2] == Little2(index);
    assert Replies([f])[0] == Response(f);
  }

  // ----- segments that are never sent

  /** The frames that were put into the slave's mailbox; `s[0]` is frame number `k`. */
  function Arrived<T>(s: seq<T>, answers: nat -> Answer, k: nat): (r: seq<T>)
    ensures |r| <= |s|
  {
    if s == [] then [] else (if answers(k).SendFailed? then [] else [s[0]]) + Arrived(s[1..], answers, k + 1)
  }

  /** The writer reports success only if it sent every frame and none was refused. */
  lemma {:induction false} SuccessSentAll(answers: nat -> Answer, k: nat, n: nat)
    requires k < n && answers(SentFrom(answers, k, n) - 1).Accepted?
    ensures SentFrom(answers, k, n) == n && answers(n - 1).Accepted? && (k == 0 ==> answers(0).Accepted?)
    decreases n - k
  {
    if k + 1 < n && (if k == 0 then answers(k).Accepted? else !answers(k).Refused?) {
      SuccessSentAll(answers, k + 1, n);
    }
  }

  lemma {:induction false} ArrivedCarry(fs: seq<Frame>, chunks: seq<seq<byte>>, answers: nat -> Answer, k: nat)
    requires CarriesAll(fs, chunks) && answers(k + |fs| - 1).Accepted?
    ensures CarriesAll(Arrived(fs, answers, k), Arrived(chunks, answers, k))
  {
    hide Carries;
    if |fs| > 1 {
      ArrivedCarry(fs[1..], chunks[1..], answers, k + 1);
      var f, c := Arrived(fs, answers, k), Arrived(chunks, answers, k);
      if !answers(k).SendFailed? {
        assert f[1..] == Arrived(fs[1..], answers, k + 1) && c[1..] == Arrived(chunks[1..], answers, k + 1);
        assert f[0] == fs[0] && c[0] == chunks[0] && |f| > 1;
      } else {
        assert f == Arrived(fs[1..], answers, k + 1) && c == Arrived(chunks[1..], answers, k + 1);
      }
    } else {
      assert Arrived(fs, answers, k) == fs && Arrived(chunks, answers, k) == chunks by {
        assert Arrived(fs[1..], answers, k + 1) == [] && Arrived(chunks[1..], answers, k + 1) == [];
      }
    }
  }

  /** Every piece holds data, so what arrives is as long as what was sent only if nothing is
      missing. */
  lemma {:induction false} LossShortens(chunks: seq<seq<byte>>, answers: nat -> Answer, k: nat)
    requires forall i | 0 <= i < |chunks| :: |chunks[i]| > 0
    ensures |Concat(Arrived(chunks, answers, k))| <= |Concat(chunks)|
    ensures |Concat(Arrived(chunks, answers, k))| == |Concat(chunks)|
       <==> forall i | k <= i < k + |chunks| :: !answers(i).SendFailed?
    ensures (forall i | k <= i < k + |chunks| :: !answers(i).SendFailed?) ==> Arrived(chunks, answers, k) == chunks
  {
    if chunks != [] {
      LossShortens(chunks[1..], answers, k + 1);
      var rest := Arrived(chunks[1..], answers, k + 1);
      assert !answers(k).SendFailed? ==> ([chunks[0]] + rest)[1..] == rest;
      assert answers(k).SendFailed? ==> [] + rest == rest;
    }
  }

  /** A download that reports success delivered the value if and only if every frame was put
      into the mailbox: the loop goes on when sending a segment fails, and only the exchange of
      the final segment decides what is reported. */
  lemma SuccessIsDelivery(mbx: nat, counter: nat, index: nat, subindex: byte, ca: bool, data: seq<byte>,
                          answers: nat -> Answer)
    requires 16 <= mbx < 0x1_0000 && |data| < 0x1_0000 && (ca || |data| > 4)
    requires var n := |Download(mbx, counter, index, subindex, ca, data)|;
             answers(SentFrom(answers, 0, n) - 1).Accepted?
    ensures var fs := Download(mbx, counter, index, subindex, ca, data);
            var rs := Replies(Arrived(fs, answers, 0));
            && SentFrom(answers, 0, |fs|) == |fs|
            && WellFormed(rs, 3) && WellFormed(rs[..if |rs| > 0 then 1 else 0], 10)
            && (Uploaded(index, |data|, rs) == (data, Complete)
                <==> forall k | 0 <= k < |fs| :: !answers(k).SendFailed?)
  {
    hide Opens, Carries, ProperAll, Pieces, Portion, Uploaded, WellFormed, Download, SentFrom;
    var fs := Download(mbx, counter, index, subindex, ca, data);
    SuccessSentAll(answers, 0, |fs|);
    DownloadIsSplit(mbx, counter, index, subindex, ca, data);
    var n := Portion(mbx, 16, |data|);
    assert data[..Short(|data|)] == data;
    var chunks := if MoreFollows(mbx, 16, |data|) then Pieces(mbx, data[n..]) else [];
    var sent, arrived := Arrived(fs[1..], answers, 1), Arrived(chunks, answers, 1);
    assert Arrived(fs, answers, 0) == [fs[0]] + sent;
    if chunks != [] {
      ShortAfter(|data|, n);
      PiecesTile(mbx, data[n..]);
      ArrivedCarry(fs[1..], chunks, answers, 1);
    }
    LossShortens(chunks, answers, 1);
    assert |fs| == 1 + |chunks|;
    FramesAreReceived(index, |data|, |data|, fs[0], sent, data[..n], arrived);
    assert Uploaded(index, |data|, Replies(Arrived(fs, answers, 0))) == Received(|data|, |data|, data[..n], arrived);
    if chunks != [] {
      assert |data[..n] + Concat(arrived)| == n + |Concat(arrived)|;
    }
  }

  // ----- witnesses

  /** The third and fourth frame are not sent. */
  function TwoLost(k: nat): Answer {
    if k == 2 || k == 3 then SendFailed else Accepted
  }

  lemma FourPieces(data: seq<byte>)
    requires |data| == 28
    ensures |Pieces(16, data)| == 4
  {
    assert |Pieces(16, data[7..][7..][7..])| == 1;
    assert |Pieces(16, data[7..][7..])| == 2;
    assert |Pieces(16, data[7..])| == 3;
  }

  /** A value of 28 bytes in a mailbox of 16: two segments in a row are lost, success is reported,
      the toggle bits of what arrives still alternate, and the value is cut. */
  lemma LossGoesUnnoticed(counter: nat, index: nat, subindex: byte, data: seq<byte>)
    requires |data| == 28
    ensures var fs := Download(16, counter, index, subindex, false, data);
            var arrived := Arrived(fs, TwoLost, 0);
            && TwoLost(SentFrom(TwoLost, 0, |fs|) - 1) == Accepted
            && |fs| == 5 && arrived == [fs[0], fs[1], fs[4]]
            && ProperAll(arrived[1..], 16, 0)
            && WellFormed(Replies(arrived), 3) && WellFormed(Replies(arrived)[..1], 10)
            && Uploaded(index, 28, Replies(arrived)) != (data, Complete)
  {
    hide Opens, Carries, Pieces, Uploaded, WellFormed, Download, Proper;
    var fs := Download(16, counter, index, subindex, false, data);
    DownloadIsSplit(16, counter, index, subindex, false, data);
    FourPieces(data);
    assert data[0..] == data && |fs[1..]| == 4;
    ArrivedOfFive(fs);
    TwoOfFour(fs[1..]);
    assert Arrived(fs, TwoLost, 0)[1..] == [fs[1], fs[4]];
    SuccessIsDelivery(16, counter, index, subindex, false, data, TwoLost);
    assert TwoLost(2).SendFailed?;
  }

  lemma ArrivedOfFive(fs: seq<Frame>)
    requires |fs| == 5
    ensures Arrived(fs, TwoLost, 0) == [fs[0], fs[1], fs[4]]
    ensures SentFrom(TwoLost, 0, 5) == 5
  {
    assert Arrived(fs[1..][1..][1..][1..][1..], TwoLost, 5) == [];
    assert Arrived(fs[1..][1..][1..][1..], TwoLost, 4) == [fs[4]];
    assert Arrived(fs[1..][1..], TwoLost, 2) == [fs[4]];
    assert Arrived(fs[1..], TwoLost, 1) == [fs[1], fs[4]];
    assert SentFrom(TwoLost, 4, 5) == 5 && SentFrom(TwoLost, 2, 5) == 5;
  }

  lemma TwoOfFour(fs: seq<Frame>)
    requires |fs| == 4 && ProperAll(fs, 16, 0)
    ensures ProperAll([fs[0], fs[3]], 16, 0)
  {
    hide Proper;
    assert ProperAll(fs[1..][1..], 16, 0) && ProperAll(fs[1..][1..][1..], 16, TOGGLE);
    assert fs[1..][1..][1..] == [fs[3]];
    assert [fs[0], fs[3]][1..] == [fs[3]];
  }

  /** What the frames make the reader copy stays within the caller's buffer if and only if the
      upload is refused, negative or in one piece, or its pieces together fit; pieces that add up
      to the announced size always do. */
  lemma CopiesStayInside(index: nat, size: nat, room: nat, first: Frame, fs: seq<Frame>, start: seq<byte>,
                         chunks: seq<seq<byte>>)
    requires Opens(first, index, size, start)
    requires if fs == [] then chunks == [] else CarriesAll(fs, chunks)
    ensures WellFormed(Replies([first] + fs), 3) && WellFormed(Replies([first] + fs)[..1], 10)
    ensures |Uploaded(index, room, Replies([first] + fs)).0| <= room
       <==> Signed(size) > room || Signed(size) <= |start| || |start + Concat(chunks)| <= room
    ensures |start + Concat(chunks)| == size ==> |Uploaded(index, room, Replies([first] + fs)).0| <= room
  {
    hide Carries, Opens;
    FramesAreReceived(index, size, room, first, fs, start, chunks);
    OpensFits(first, index, size, start);
  }
}
