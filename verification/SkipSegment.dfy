/** Decoder::skip: finding the end of a segment without decoding it. It works because the coder
    never writes four zero bytes in a row before the terminator. */
module SkipSegment {
  import opened Bits
  import opened Bytes
  import opened RangeCoder

  // ---- No four zero bytes ----

  predicate ZerosAt(s: seq<byte>, i: nat) {
    i + 3 < |s| && s[i] == s[i + 1] == s[i + 2] == s[i + 3] == 0
  }

  /** None of the first n positions of s starts four zero bytes. */
  predicate Lively(s: seq<byte>, n: nat) {
    forall i: nat | i < n :: !ZerosAt(s, i)
  }

  lemma LivelyBehind(a: seq<byte>, s: seq<byte>, n: nat, m: nat)
    requires Lively(a + s, |a|) && Lively(s, n) && m <= |a| + n
    ensures Lively(a + s, m)
  {
    var t := a + s;
    forall i: nat | i < m
      ensures !ZerosAt(t, i)
    {
      if i >= |a| {
        assert !ZerosAt(s, i - |a|);
        assert ZerosAt(t, i) ==> ZerosAt(s, i - |a|);
      }
    }
  }

  lemma WithinIsLively(s: seq<byte>, c: Coder)
    requires Within(s, c) && c.low >= 1
    ensures !ZerosAt(s, 0)
  {
  }

  lemma {:induction false} NormalizeLively(c: Coder, s: seq<byte>)
    requires 1 <= c.low <= c.high && Within(s, Normalize(c).c)
    ensures Lively(Normalize(c).bytes + s, |Normalize(c).bytes|)
    decreases 0x1_0000_0000 - (c.high - c.low)
  {
    if SameTop(c) {
      ShiftWidens(c);
      var r := Normalize(ShiftOut(c));
      var b: byte := c.high / TOP;
      NormalizeLively(ShiftOut(c), s);
      NormalizeBack(c, s);
      assert Normalize(c).bytes + s == [b] + (r.bytes + s);
      WithinIsLively([b] + (r.bytes + s), c);
      LivelyBehind([b], r.bytes + s, |r.bytes|, 1 + |r.bytes|);
    }
  }

  lemma BitLively(c: Coder, y: bool, p: Prob, s: seq<byte>)
    requires Ready(c) && Within(s, EncodeBit(c, y, p).c)
    ensures var e := EncodeBit(c, y, p); Lively(e.bytes + s, |e.bytes|)
  {
    NormalizeLively(Narrow(c, y, p), s);
  }

  lemma {:induction false} BitsLively(model: Model, c: Coder, hist: seq<bool>, b: byte, n: nat, s: seq<byte>)
    requires Ready(c) && Within(s, EncodeBits(model, c, hist, b, n).c)
    ensures var e := EncodeBits(model, c, hist, b, n); Lively(e.bytes + s, |e.bytes|)
    decreases n
  {
    hide EncodeBit, Within, Lively;
    if n > 0 {
      var y, p := BitOf(b, n - 1), PredictProb(model, hist);
      var e := EncodeBit(c, y, p);
      var r := EncodeBits(model, e.c, hist + [y], b, n - 1);
      BitsLively(model, e.c, hist + [y], b, n - 1, s);
      BitsWindow(model, e.c, hist + [y], b, n - 1, s);
      BitLively(c, y, p, r.bytes + s);
      LivelyBehind(e.bytes, r.bytes + s, |r.bytes|, |e.bytes| + |r.bytes|);
      Associate(e.bytes, r.bytes, s);
    } else {
      NothingIsLively(EncodeBits(model, c, hist, b, n).bytes + s);
    }
  }

  lemma NothingIsLively(s: seq<byte>)
    ensures Lively(s, 0)
  {
  }

  lemma ByteLively(model: Model, c: Coder, hist: seq<bool>, b: byte, s: seq<byte>)
    requires Ready(c) && Within(s, EncodeByte(model, c, hist, b).c)
    ensures var e := EncodeByte(model, c, hist, b); Lively(e.bytes + s, |e.bytes|)
  {
    hide EncodeBit, EncodeBits, Within, Lively;
    var e := EncodeBit(c, false, 0);
    var r := EncodeBits(model, e.c, hist, b, 8);
    BitsLively(model, e.c, hist, b, 8, s);
    BitsWindow(model, e.c, hist, b, 8, s);
    BitLively(c, false, 0, r.bytes + s);
    LivelyBehind(e.bytes, r.bytes + s, |r.bytes|, |e.bytes| + |r.bytes|);
    Associate(e.bytes, r.bytes, s);
  }

  lemma EndLively(c: Coder, s: seq<byte>)
    requires Ready(c)
    ensures |EncodeBit(c, true, 0).bytes| == 4 && Lively(EncodeBit(c, true, 0).bytes + s, 1)
  {
    EndWindow(c, s);
  }

  /** The bytes of a segment, end-of-segment code included, never hold four zero bytes in a row,
      whatever the model, the data and the bytes behind them. */
  lemma {:induction false} SegmentLively(model: Model, c: Coder, hist: seq<bool>, data: seq<byte>, s: seq<byte>)
    requires Ready(c)
    ensures var e := EncodeSegment(model, c, hist, data); |e.bytes| >= 4 && Lively(e.bytes + s, |e.bytes| - 3)
    decreases |data|
  {
    hide EncodeBit, EncodeByte, Within, Lively;
    if data == [] {
      EndLively(c, s);
    } else {
      var e := EncodeByte(model, c, hist, data[0]);
      var r := EncodeSegment(model, e.c, e.hist, data[1..]);
      SegmentLively(model, e.c, e.hist, data[1..], s);
      SegmentWindow(model, e.c, e.hist, data[1..], s);
      ByteLively(model, c, hist, data[0], r.bytes + s);
      LivelyBehind(e.bytes, r.bytes + s, |r.bytes| - 3, |e.bytes| + |r.bytes| - 3);
      Associate(e.bytes, r.bytes, s);
    }
  }

  // ---- skip() ----

  /** Decoder::skip. No byte to return is end of input. */
  datatype Skipped = Skipped(next: Option<byte>, rest: seq<byte>)

  /** While curr is zero, replace it by the next byte; -1 at the end of input is all ones. */
  function SkipLead(curr: u32, rest: seq<byte>): (r: (u32, seq<byte>))
    decreases |rest|, curr == 0
  {
    if curr != 0 then (curr, rest)
    else if rest == [] then (0xFFFF_FFFF, [])
    else SkipLead(rest[0], rest[1..])
  }

  /** Shift bytes in until the last four are zero. */
  function SkipToZeros(curr: u32, rest: seq<byte>): seq<byte>
    decreases |rest|
  {
    if curr == 0 || rest == [] then rest else SkipToZeros(ShiftLeft(curr, rest[0]), rest[1..])
  }

  function SkipZeros(rest: seq<byte>): Skipped {
    if rest == [] then Skipped(None, [])
    else if rest[0] == 0 then SkipZeros(rest[1..])
    else Skipped(Some(rest[0]), rest[1..])
  }

  function Skip(r: Reader): Skipped {
    var (curr, rest) := SkipLead(r.curr, r.rest);
    SkipZeros(SkipToZeros(curr, rest))
  }

  /** Up to n zeros and then a marker. */
  lemma {:induction false} SkipZerosFinds(n: nat, marker: byte, trailer: seq<byte>)
    requires marker != 0
    ensures SkipZeros(seq(n, _ => 0) + [marker] + trailer) == Skipped(Some(marker), trailer)
  {
    var s := seq(n, _ => 0) + [marker] + trailer;
    if n == 0 {
      assert s == [marker] + trailer;
    } else {
      assert s[1..] == seq(n - 1, _ => 0) + [marker] + trailer;
      SkipZerosFinds(n - 1, marker, trailer);
    }
  }

  lemma TailIsZeros(bytes: seq<byte>, i: nat, marker: byte, trailer: seq<byte>)
    requires |bytes| <= i + 3 && i <= |bytes|
    ensures (bytes + (TERMINATOR + ([marker] + trailer)))[i + 4..] == seq(|bytes| - i, _ => 0) + [marker] + trailer
  {
  }

  lemma WindowNext(s: seq<byte>, i: nat)
    requires i + 4 < |s|
    ensures ShiftLeft(Window(s[i..]), s[i + 4]) == Window(s[i + 1..]) && s[i + 4..][0] == s[i + 4] && s[i + 4..][1..] == s[i + 5..]
  {
    ShiftWord(s[i], s[i + 1], s[i + 2], s[i + 3], s[i + 4]);
  }

  lemma WindowZero(s: seq<byte>, i: nat)
    requires i + 4 <= |s|
    ensures Window(s[i..]) == 0 <==> ZerosAt(s, i)
  {
  }

  /** From any position of a lively segment, the terminator's end is found. */
  lemma {:induction false} ScanFinds(bytes: seq<byte>, i: nat, marker: byte, trailer: seq<byte>)
    requires marker != 0 && |bytes| >= 4 && i <= |bytes|
    requires Lively(bytes + (TERMINATOR + ([marker] + trailer)), |bytes| - 3)
    ensures var s := bytes + (TERMINATOR + ([marker] + trailer));
      SkipZeros(SkipToZeros(Window(s[i..]), s[i + 4..])) == Skipped(Some(marker), trailer)
    decreases |bytes| - i
  {
    var s := bytes + (TERMINATOR + ([marker] + trailer));
    WindowZero(s, i);
    if ZerosAt(s, i) {
      TailIsZeros(bytes, i, marker, trailer);
      SkipZerosFinds(|bytes| - i, marker, trailer);
    } else {
      assert i < |bytes|;
      WindowNext(s, i);
      ScanFinds(bytes, i + 1, marker, trailer);
    }
  }

  lemma Fill(s: seq<byte>, z: nat)
    requires z + 4 <= |s| && s[z] != 0
    ensures SkipToZeros(s[z], s[z + 1..]) == SkipToZeros(Window(s[z..]), s[z + 4..])
  {
    var a, b, c, d := s[z], s[z + 1], s[z + 2], s[z + 3];
    FillStep(s, z + 1, Word(0, 0, 0, a), Word(0, 0, a, b));
    FillStep(s, z + 2, Word(0, 0, a, b), Word(0, a, b, c));
    FillStep(s, z + 3, Word(0, a, b, c), Word(a, b, c, d));
  }

  lemma FillStep(s: seq<byte>, i: nat, curr: u32, next: u32)
    requires i < |s| && curr != 0 && next == ShiftLeft(curr, s[i])
    ensures SkipToZeros(curr, s[i..]) == SkipToZeros(next, s[i + 1..])
  {
    assert s[i..][1..] == s[i + 1..];
  }

  lemma {:induction false} LeadEnds(s: seq<byte>, i: nat) returns (z: nat)
    requires i <= 3 && |s| >= 4 && !ZerosAt(s, 0)
    requires forall j: nat | j < i :: s[j] == 0
    ensures z <= 3 && s[z] != 0 && SkipLead(0, s[i..]) == (s[z], s[z + 1..])
    decreases 4 - i
  {
    assert s[i..][1..] == s[i + 1..];
    if s[i] != 0 {
      z := i;
    } else {
      z := LeadEnds(s, i + 1);
    }
  }

  /** From the start of a segment. */
  lemma SkipFromStart(bytes: seq<byte>, c: Coder, marker: byte, trailer: seq<byte>)
    requires marker != 0 && |bytes| >= 4 && Lively(bytes + (TERMINATOR + ([marker] + trailer)), |bytes| - 3)
    ensures Skip(Reader(c, 0, bytes + (TERMINATOR + ([marker] + trailer)))) == Skipped(Some(marker), trailer)
  {
    var s := bytes + (TERMINATOR + ([marker] + trailer));
    var z := LeadEnds(s, 0);
    assert s[0..] == s;
    Fill(s, z);
    ScanFinds(bytes, z, marker, trailer);
  }

  /** From behind a decoded prefix. */
  lemma SkipFromInside(bytes: seq<byte>, c: Coder, marker: byte, trailer: seq<byte>)
    requires marker != 0 && |bytes| >= 4 && Lively(bytes + (TERMINATOR + ([marker] + trailer)), |bytes| - 3)
    ensures Skip(ReaderOf(c, bytes + (TERMINATOR + ([marker] + trailer)))) == Skipped(Some(marker), trailer)
  {
    var s := bytes + (TERMINATOR + ([marker] + trailer));
    WindowZero(s, 0);
    assert s[0..] == s;
    ScanFinds(bytes, 0, marker, trailer);
  }

  // ---- Decoding some bytes and skipping the rest ----

  /** n calls of decompress, each of which must give a byte. */
  function DecodeSome(model: Model, r: Reader, hist: seq<bool>, n: nat): Segment
    requires Ready(r.c)
    decreases n, |hist|
  {
    if n == 0 then Segment([], hist, r)
    else match DecodeByte(model, r, hist)
      case Corrupt => Damaged
      case EndOfSegment(_) => Damaged
      case NextByte(b, hist', r') =>
        match DecodeSome(model, r', hist', n - 1)
        case Damaged => Damaged
        case Segment(data, h, rr) => Segment([b] + data, h, rr)
  }

  /** After n bytes the decoder stands at the start of the code of the remaining ones. */
  lemma {:induction false} PrefixFollows(model: Model, c: Coder, hist: seq<bool>, data: seq<byte>, n: nat, s: seq<byte>)
    returns (e: Coded)
    requires Ready(c) && n <= |data| && |s| >= 4
    ensures Ready(e.c)
    ensures DecodeSome(model, ReaderOf(c, EncodeSegment(model, c, hist, data).bytes + s), hist, n)
         == Segment(data[..n], e.hist, ReaderOf(e.c, EncodeSegment(model, e.c, e.hist, data[n..]).bytes + s))
    decreases n
  {
    hide EncodeByte, DecodeByte, EncodeBit, Within, ReaderOf;
    if n == 0 {
      e := Coded(c, hist, []);
      assert data[n..] == data;
    } else {
      var b := EncodeByte(model, c, hist, data[0]);
      var r := EncodeSegment(model, b.c, b.hist, data[1..]);
      SegmentWindow(model, b.c, b.hist, data[1..], s);
      ByteFollows(model, c, hist, data[0], r.bytes + s);
      Associate(b.bytes, r.bytes, s);
      e := PrefixFollows(model, b.c, b.hist, data[1..], n - 1, s);
      assert data[1..][n - 1..] == data[n..] && [data[0]] + data[1..][..n - 1] == data[..n];
    }
  }

  lemma StartIsPrimed(model: Model, c: Coder, all: seq<byte>, hist: seq<bool>, n: nat)
    requires Ready(c) && Within(all, c) && n > 0
    ensures DecodeSome(model, Reader(c, 0, all), hist, n) == DecodeSome(model, ReaderOf(c, all), hist, n)
  {
    hide DecodeBit, DecodeBits, Narrow, Prime;
    PrimeReads(c, all);
    assert DecodeByte(model, Reader(c, 0, all), hist) == DecodeByte(model, ReaderOf(c, all), hist);
  }

  /** At the start of a segment or behind any n decoded bytes of it, skip() returns the marker byte
      and leaves the input where decoding to the end of the segment would. */
  lemma SkipAgreesWithDecoding(model: Model, c: Coder, hist: seq<bool>, data: seq<byte>, n: nat, marker: byte, trailer: seq<byte>)
    requires Ready(c) && n <= |data| && marker != 0
    ensures var e := EncodeSegment(model, c, hist, data);
      var start := Reader(c, 0, e.bytes + (TERMINATOR + ([marker] + trailer)));
      var d := DecodeSome(model, start, hist, n);
      && d.Segment? && d.data == data[..n]
      && Skip(d.r) == Skipped(Some(marker), trailer)
      && DecodeSegment(model, start, hist, |data|) == Segment(data, e.hist, Reader(e.c, 0, [marker] + trailer))
  {
    hide EncodeByte, DecodeByte, EncodeBit, Within, ReaderOf, Skip, DecodeSegment, Lively;
    var s := TERMINATOR + ([marker] + trailer);
    var e := EncodeSegment(model, c, hist, data);
    SegmentRoundTrip(model, c, hist, data, [marker] + trailer, |data|);
    SegmentLively(model, c, hist, data, s);
    if n == 0 {
      SkipFromStart(e.bytes, c, marker, trailer);
    } else {
      SegmentWindow(model, c, hist, data, s);
      StartIsPrimed(model, c, e.bytes + s, hist, n);
      var m := PrefixFollows(model, c, hist, data, n, s);
      SegmentLively(model, m.c, m.hist, data[n..], s);
      SkipFromInside(EncodeSegment(model, m.c, m.hist, data[n..]).bytes, m.c, marker, trailer);
    }
  }
}
