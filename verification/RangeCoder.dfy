/** The binary range coder of libzpaq: 32-bit bounds, no carries, and a segment that ends in an
    end-of-segment code and four zero bytes. The predictor is any function of the bits so far. */
module RangeCoder {
  import opened Bits
  import opened Bytes

  const TOP := 0x100_0000

  /** A probability in 16 bits, scaled by 65536. */
  type Prob = p: nat | p < 0x1_0000

  /** pr.predict(): 15 bits, from the bits coded so far. */
  type Prediction = p: nat | p < 0x8000
  type Model = seq<bool> -> Prediction

  datatype Coder = Coder(low: u32, high: u32)

  predicate Ready(c: Coder) {
    1 <= c.low < c.high
  }

  const INITIAL := Coder(1, 0xFFFF_FFFF)

  // ---- Splitting and shifting ----

  /** m splits the range in proportion: below it lies the share p of the range, rounded down. */
  predicate SplitsAt(c: Coder, p: Prob, m: u32)
    requires c.low <= c.high
  {
    (m - c.low) * 0x1_0000 <= (c.high - c.low) * p < (m - c.low + 1) * 0x1_0000
  }

  function Mid(c: Coder, p: Prob): (m: u32)
    requires c.low < c.high
    ensures c.low <= m < c.high
    ensures SplitsAt(c, p, m)
    ensures p == 0 ==> m == c.low
  {
    var w := c.high - c.low;
    MulLess(w, p);
    c.low + w * p / 0x1_0000
  }

  lemma MulLess(w: nat, p: Prob)
    requires w > 0
    ensures 0 <= w * p / 0x1_0000 < w
    ensures p == 0 ==> w * p / 0x1_0000 == 0
  {
    MulMonotone(w, p, 0xFFFF);
  }

  /** A range has one such split. */
  lemma SplitUnique(c: Coder, p: Prob, m: u32)
    requires c.low < c.high && SplitsAt(c, p, m)
    ensures m == Mid(c, p)
  {
  }

  /** The part of the range that codes bit y. */
  function Narrow(c: Coder, y: bool, p: Prob): (r: Coder)
    requires c.low < c.high
    ensures c.low <= r.low <= r.high <= c.high
  {
    if y then c.(high := Mid(c, p)) else c.(low := Mid(c, p) + 1)
  }

  /** How many points a range has. */
  function Points(c: Coder): int {
    c.high - c.low + 1
  }

  /** A bit gets its share of the range to within one point, none less than one, and the more the
      more probable it is; both parts together are the range. */
  lemma ShareOfBit(c: Coder, p: Prob, q: Prob)
    requires c.low < c.high && p <= q
    ensures var w, one, zero := c.high - c.low, Points(Narrow(c, true, p)), Points(Narrow(c, false, p));
      && one >= 1 && zero >= 1 && one + zero == Points(c)
      && w * p < one * 0x1_0000 <= w * p + 0x1_0000
      && w * (0x1_0000 - p) <= zero * 0x1_0000 < w * (0x1_0000 - p) + 0x1_0000
    ensures Points(Narrow(c, true, p)) <= Points(Narrow(c, true, q))
    ensures Points(Narrow(c, false, p)) >= Points(Narrow(c, false, q))
  {
    hide Mid;
    var w, m, n := c.high - c.low, Mid(c, p), Mid(c, q);
    assert w * (0x1_0000 - p) == w * 0x1_0000 - w * p;
    MulMonotone(w, p, q);
    assert (m - c.low) * 0x1_0000 < (n - c.low + 1) * 0x1_0000;
  }

  /** No range is wider than the one a segment starts with. */
  lemma InitialIsWidest(c: Coder)
    requires Ready(c)
    ensures Points(c) <= Points(INITIAL) && Ready(INITIAL)
  {
  }

  predicate SameTop(c: Coder) {
    Xor(c.high, c.low) < TOP
  }

  lemma SameTopByte(c: Coder)
    ensures SameTop(c) <==> c.high / TOP == c.low / TOP
  {
    Pow2Values();
    XorBelow(c.high, c.low, 24);
  }

  function ShiftLeft(x: u32, fill: byte): u32 {
    x % TOP * 0x100 + fill
  }

  function NonZero(x: u32): u32 {
    if x == 0 then 1 else x
  }

  function ShiftOut(c: Coder): Coder {
    Coder(NonZero(ShiftLeft(c.low, 0)), ShiftLeft(c.high, 0xFF))
  }

  lemma ShiftWidens(c: Coder)
    requires c.low <= c.high && SameTop(c)
    ensures var d := ShiftOut(c); 1 <= d.low <= d.high && d.high - d.low > c.high - c.low
  {
    SameTopByte(c);
  }

  /** A byte shifted out makes the range 256 times as wide, but for the point that keeps low from 0. */
  lemma ShiftScales(c: Coder)
    requires c.low <= c.high && SameTop(c)
    ensures Points(ShiftOut(c)) == 0x100 * Points(c) - (if c.low % TOP == 0 then 1 else 0)
  {
    SameTopByte(c);
  }

  datatype Emission = Emission(c: Coder, bytes: seq<byte>)

  /** Write identical leading bytes. */
  function Normalize(c: Coder): (r: Emission)
    requires 1 <= c.low <= c.high
    ensures Ready(r.c)
    decreases 0x1_0000_0000 - (c.high - c.low)
  {
    SameTopByte(c);
    if SameTop(c) then
      ShiftWidens(c);
      var r := Normalize(ShiftOut(c));
      Emission(r.c, [c.high / TOP] + r.bytes)
    else Emission(c, [])
  }

  lemma NormalizeStep(c: Coder)
    requires 1 <= c.low <= c.high && SameTop(c)
    ensures var d := ShiftOut(c);
      && 1 <= d.low <= d.high && d.high - d.low > c.high - c.low
      && Normalize(c) == Emission(Normalize(d).c, [c.high / TOP] + Normalize(d).bytes)
  {
    ShiftWidens(c);
  }

  /** Bytes are written until the first bytes of the bounds differ, and no longer; each pays for a
      256th of the range. */
  lemma {:induction false} NormalizeScales(c: Coder)
    requires 1 <= c.low <= c.high
    ensures var r := Normalize(c);
      && !SameTop(r.c)
      && Points(r.c) <= Pow256(|r.bytes|) * Points(c) < Points(r.c) + Pow256(|r.bytes|)
    decreases 0x1_0000_0000 - (c.high - c.low)
  {
    hide SameTop, Points;
    if SameTop(c) {
      NormalizeStep(c);
      ShiftScales(c);
      var d := ShiftOut(c);
      NormalizeScales(d);
      ScaleOn(Pow256(|Normalize(d).bytes|), Points(c), Points(d), Points(Normalize(d).c));
    }
  }

  lemma ScaleOn(k: nat, was: int, shifted: int, end: int)
    requires k > 0 && 0x100 * was - 1 <= shifted <= 0x100 * was && end <= k * shifted < end + k
    ensures end <= 0x100 * k * was < end + 0x100 * k
  {
    var lost := 0x100 * was - shifted;
    assert k * shifted == 0x100 * k * was - k * lost;
    assert k * lost == if lost == 0 then 0 else k;
  }

  function EncodeBit(c: Coder, y: bool, p: Prob): (r: Emission)
    requires Ready(c)
    ensures Ready(r.c)
  {
    Normalize(Narrow(c, y, p))
  }

  /** The probability of bit y, scaled by 65536. */
  function Chance(y: bool, p: Prob): nat {
    if y then p else 0x1_0000 - p
  }

  /** What a bit costs: with every byte written, the range after it is as much wider as the bit's
      probability made it narrower, to within a point for each byte. */
  lemma BitCost(c: Coder, y: bool, p: Prob)
    requires Ready(c)
    ensures var e, w := EncodeBit(c, y, p), c.high - c.low;
      var k := Pow256(|e.bytes|);
      k * (w * Chance(y, p)) <= 0x1_0000 * (Points(e.c) + k) && Points(e.c) * 0x1_0000 <= k * (w * Chance(y, p) + 0x1_0000)
  {
    hide Mid, Normalize, Narrow, Points;
    var n, w := Narrow(c, y, p), c.high - c.low;
    var k := Pow256(|Normalize(n).bytes|);
    ShareOfBit(c, p, p);
    NormalizeScales(n);
    CostOf(k, w * Chance(y, p), Points(n), Points(Normalize(n).c));
  }

  lemma CostOf(k: nat, share: nat, points: nat, end: int)
    requires share <= points * 0x1_0000 <= share + 0x1_0000 && end <= k * points < end + k
    ensures k * share <= 0x1_0000 * (end + k) && end * 0x1_0000 <= k * (share + 0x1_0000)
  {
    MulMonotone(k, share, points * 0x1_0000);
    MulMonotone(k, points * 0x1_0000, share + 0x1_0000);
    assert k * (points * 0x1_0000) == 0x1_0000 * (k * points);
  }

  // ---- Windows of four bytes ----

  function Word(b0: byte, b1: byte, b2: byte, b3: byte): u32 {
    TOP * b0 + 0x1_0000 * b1 + 0x100 * b2 + b3
  }

  lemma ShiftWord(b0: byte, b1: byte, b2: byte, b3: byte, f: byte)
    ensures ShiftLeft(Word(b0, b1, b2, b3), f) == Word(b1, b2, b3, f)
    ensures Word(b0, b1, b2, b3) / TOP == b0
  {
  }

  function Window(s: seq<byte>): u32
    requires |s| >= 4
  {
    Word(s[0], s[1], s[2], s[3])
  }

  predicate Within(s: seq<byte>, c: Coder) {
    |s| >= 4 && c.low <= Window(s) <= c.high
  }

  lemma WindowShift(b: byte, s: seq<byte>)
    requires |s| >= 4
    ensures var t := [b] + s;
      && Window(t) == b * TOP + Window(s) / 0x100
      && Window(s) == ShiftLeft(Window(t), s[3]) && t[4..] == s[3..]
  {
  }

  /** If what follows lies within the shifted range, the byte written and what follows lie within
      the range before the shift. */
  lemma ShiftBack(c: Coder, s: seq<byte>)
    requires 1 <= c.low <= c.high && SameTop(c) && Within(s, ShiftOut(c))
    ensures Within([c.high / TOP] + s, c)
  {
    SameTopByte(c);
    WindowShift(c.high / TOP, s);
  }

  lemma {:induction false} NormalizeBack(c: Coder, s: seq<byte>)
    requires 1 <= c.low <= c.high && Within(s, Normalize(c).c)
    ensures Within(Normalize(c).bytes + s, c)
    decreases 0x1_0000_0000 - (c.high - c.low)
  {
    if SameTop(c) {
      ShiftWidens(c);
      var r := Normalize(ShiftOut(c));
      NormalizeBack(ShiftOut(c), s);
      ShiftBack(c, r.bytes + s);
      assert Normalize(c).bytes + s == [c.high / TOP] + (r.bytes + s);
    } else {
      assert Normalize(c).bytes + s == s;
    }
  }

  /** The bytes that code a bit, and what follows them, stay within that bit's part of the range. */
  lemma BitWindow(c: Coder, y: bool, p: Prob, s: seq<byte>)
    requires Ready(c) && Within(s, EncodeBit(c, y, p).c)
    ensures Within(EncodeBit(c, y, p).bytes + s, Narrow(c, y, p))
    ensures Within(EncodeBit(c, y, p).bytes + s, c)
  {
    NormalizeBack(Narrow(c, y, p), s);
  }

  // ---- Decoding a bit ----

  /** The decoder's view: the coder's range, the next four bytes as a number, and the rest. */
  datatype Reader = Reader(c: Coder, curr: u32, rest: seq<byte>)

  datatype Shifted = Shifted(r: Reader) | UnexpectedEnd

  function NormalizeIn(r: Reader): (s: Shifted)
    requires 1 <= r.c.low <= r.c.high
    ensures s.Shifted? ==> Ready(s.r.c)
    decreases 0x1_0000_0000 - (r.c.high - r.c.low)
  {
    SameTopByte(r.c);
    if SameTop(r.c) then
      ShiftWidens(r.c);
      if r.rest == [] then UnexpectedEnd
      else NormalizeIn(Reader(ShiftOut(r.c), ShiftLeft(r.curr, r.rest[0]), r.rest[1..]))
    else Shifted(r)
  }

  datatype Bit = Bit(y: bool, r: Reader) | BadInput

  function DecodeBit(r: Reader, p: Prob): (b: Bit)
    requires Ready(r.c)
    ensures b.Bit? ==> Ready(b.r.c)
  {
    if r.curr < r.c.low || r.curr > r.c.high then BadInput
    else
      var y := r.curr <= Mid(r.c, p);
      match NormalizeIn(r.(c := Narrow(r.c, y, p)))
      case UnexpectedEnd => BadInput
      case Shifted(r') => Bit(y, r')
  }

  /** The reader of a stream: its first four bytes are in curr. */
  function ReaderOf(c: Coder, s: seq<byte>): Reader
    requires |s| >= 4
  {
    Reader(c, Window(s), s[4..])
  }

  lemma {:induction false} NormalizeInFollows(c: Coder, s: seq<byte>)
    requires 1 <= c.low <= c.high && |s| >= 4
    ensures NormalizeIn(ReaderOf(c, Normalize(c).bytes + s)) == Shifted(ReaderOf(Normalize(c).c, s))
    decreases 0x1_0000_0000 - (c.high - c.low)
  {
    if SameTop(c) {
      ShiftWidens(c);
      var r := Normalize(ShiftOut(c));
      var t := r.bytes + s;
      assert Normalize(c).bytes + s == [c.high / TOP] + t;
      WindowShift(c.high / TOP, t);
      assert t[3..][1..] == t[4..];
      NormalizeInFollows(ShiftOut(c), s);
    } else {
      assert Normalize(c).bytes + s == s;
    }
  }

  /** The decoder follows the encoder over one bit. */
  lemma DecodeBitFollows(c: Coder, y: bool, p: Prob, s: seq<byte>)
    requires Ready(c) && |s| >= 4
    requires Within(EncodeBit(c, y, p).bytes + s, Narrow(c, y, p))
    ensures DecodeBit(ReaderOf(c, EncodeBit(c, y, p).bytes + s), p) == Bit(y, ReaderOf(EncodeBit(c, y, p).c, s))
  {
    NormalizeInFollows(Narrow(c, y, p), s);
  }

  // ---- Bytes and segments ----

  /** The model's 15 bits, in the middle of what they stand for, so never 0. */
  function PredictProb(model: Model, hist: seq<bool>): (p: Prob)
    ensures p % 2 == 1 && p / 2 == model(hist)
  {
    model(hist) * 2 + 1
  }

  datatype Coded = Coded(c: Coder, hist: seq<bool>, bytes: seq<byte>)

  /** Bit i of a byte. */
  function BitOf(b: byte, i: nat): bool {
    b / Pow2(i) % 2 == 1
  }

  /** The lowest n bits of b, highest first, with the model's probabilities. */
  function EncodeBits(model: Model, c: Coder, hist: seq<bool>, b: byte, n: nat): (r: Coded)
    requires Ready(c)
    ensures Ready(r.c)
    decreases n, |hist|
  {
    if n == 0 then Coded(c, hist, [])
    else
      var y := BitOf(b, n - 1);
      var e := EncodeBit(c, y, PredictProb(model, hist));
      var r := EncodeBits(model, e.c, hist + [y], b, n - 1);
      r.(bytes := e.bytes + r.bytes)
  }

  /** Each bit is coded in the part of the range that the model's prediction, from the bits before
      it, gives it. */
  lemma BitsAreShares(model: Model, c: Coder, hist: seq<bool>, b: byte, n: nat, m: u32)
    requires Ready(c) && n > 0 && SplitsAt(c, 2 * model(hist) + 1, m)
    ensures c.low <= m < c.high
    ensures var y := b / Pow2(n - 1) % 2 == 1;
      var e := Normalize(if y then Coder(c.low, m) else Coder(m + 1, c.high));
      var r := EncodeBits(model, e.c, hist + [y], b, n - 1);
      EncodeBits(model, c, hist, b, n) == Coded(r.c, r.hist, e.bytes + r.bytes)
  {
    hide Mid, Normalize, Pow2, SplitsAt;
    SplitUnique(c, 2 * model(hist) + 1, m);
  }

  /** Encoder::compress for a byte: a flag that says another byte follows, then its bits. */
  function EncodeByte(model: Model, c: Coder, hist: seq<bool>, b: byte): (r: Coded)
    requires Ready(c)
    ensures Ready(r.c)
  {
    var e := EncodeBit(c, false, 0);
    var r := EncodeBits(model, e.c, hist, b, 8);
    r.(bytes := e.bytes + r.bytes)
  }

  /** All the bytes of a segment and the end-of-segment code. */
  function EncodeSegment(model: Model, c: Coder, hist: seq<bool>, data: seq<byte>): (r: Coded)
    requires Ready(c)
    ensures Ready(r.c)
    decreases |data|
  {
    if data == [] then
      var e := EncodeBit(c, true, 0);
      Coded(e.c, hist, e.bytes)
    else
      var e := EncodeByte(model, c, hist, data[0]);
      var r := EncodeSegment(model, e.c, e.hist, data[1..]);
      r.(bytes := e.bytes + r.bytes)
  }

  const TERMINATOR: seq<byte> := [0, 0, 0, 0]

  // ---- Decoding bytes and segments ----

  datatype Collected = Collected(value: nat, hist: seq<bool>, r: Reader) | NoBits

  /** n more bits behind those already in `value`, as Decoder::decompress collects them. */
  function DecodeBits(model: Model, r: Reader, hist: seq<bool>, value: nat, n: nat): (b: Collected)
    requires Ready(r.c)
    ensures b.Collected? ==> Ready(b.r.c)
    decreases n, |hist|
  {
    if n == 0 then Collected(value, hist, r)
    else match DecodeBit(r, PredictProb(model, hist))
      case BadInput => NoBits
      case Bit(y, r') => DecodeBits(model, r', hist + [y], 2 * value + (if y then 1 else 0), n - 1)
  }

  /** The decoder asks the same split which bit it was. */
  lemma BitsFromShares(model: Model, r: Reader, hist: seq<bool>, value: nat, n: nat, m: u32)
    requires Ready(r.c) && n > 0 && SplitsAt(r.c, 2 * model(hist) + 1, m)
    ensures r.c.low <= m < r.c.high
    ensures var y := r.curr <= m;
      DecodeBits(model, r, hist, value, n) ==
      if r.curr < r.c.low || r.curr > r.c.high then NoBits
      else match NormalizeIn(r.(c := if y then Coder(r.c.low, m) else Coder(m + 1, r.c.high)))
        case UnexpectedEnd => NoBits
        case Shifted(r') => DecodeBits(model, r', hist + [y], 2 * value + (if y then 1 else 0), n - 1)
  {
    hide Mid, NormalizeIn, SplitsAt;
    SplitUnique(r.c, 2 * model(hist) + 1, m);
  }

  /** Fill curr from n more bytes; past the end of the input get() gives -1, all ones. */
  function Prime(r: Reader, n: nat): (p: Reader)
    ensures p.c == r.c
    decreases n, |r.rest|
  {
    if n == 0 then r
    else if r.rest == [] then Prime(r.(curr := 0xFFFF_FFFF), n - 1)
    else Prime(Reader(r.c, ShiftLeft(r.curr, r.rest[0]), r.rest[1..]), n - 1)
  }

  /** With fewer bytes left the word ends as all ones. */
  lemma {:induction false} PrimeEnds(r: Reader, n: nat)
    requires |r.rest| < n
    ensures Prime(r, n).curr == 0xFFFF_FFFF && Prime(r, n).rest == []
    decreases n
  {
    if r.rest != [] {
      PrimeEnds(Reader(r.c, ShiftLeft(r.curr, r.rest[0]), r.rest[1..]), n - 1);
    } else if n > 1 {
      PrimeEnds(r.(curr := 0xFFFF_FFFF), n - 1);
    }
  }

  lemma PrimeReads(c: Coder, s: seq<byte>)
    requires |s| >= 4
    ensures Prime(Reader(c, 0, s), 4) == ReaderOf(c, s)
  {
    ShiftWord(0, 0, 0, 0, s[0]);
    ShiftWord(0, 0, 0, s[0], s[1]);
    ShiftWord(0, 0, s[0], s[1], s[2]);
    ShiftWord(0, s[0], s[1], s[2], s[3]);
    var r3 := Reader(c, Word(0, s[0], s[1], s[2]), s[3..]);
    assert s[3..][1..] == s[4..] && s[2..][1..] == s[3..] && s[1..][1..] == s[2..];
    assert Prime(r3, 1) == ReaderOf(c, s);
    assert Prime(Reader(c, Word(0, 0, s[0], s[1]), s[2..]), 2) == Prime(r3, 1);
    assert Prime(Reader(c, Word(0, 0, 0, s[0]), s[1..]), 3) == Prime(r3, 1);
  }

  datatype Unit = NextByte(b: nat, hist: seq<bool>, r: Reader) | EndOfSegment(r: Reader) | Corrupt

  /** Decoder::decompress: the next byte or the end of the segment. */
  function DecodeByte(model: Model, r: Reader, hist: seq<bool>): (u: Unit)
    requires Ready(r.c)
    ensures u.NextByte? ==> Ready(u.r.c)
    ensures u.EndOfSegment? ==> u.r.curr == 0
  {
    var start := if r.curr == 0 then Prime(r, 4) else r;
    match DecodeBit(start, 0)
    case BadInput => Corrupt
    case Bit(y, r1) =>
      if y then (if r1.curr != 0 then Corrupt else EndOfSegment(r1))
      else match DecodeBits(model, r1, hist, 1, 8)
        case NoBits => Corrupt
        case Collected(value, hist', r2) => if value >= 0x100 then NextByte(value - 0x100, hist', r2) else Corrupt
  }

  datatype Segment = Segment(data: seq<nat>, hist: seq<bool>, r: Reader) | Damaged

  /** Decompress until the end of the segment. */
  function DecodeSegment(model: Model, r: Reader, hist: seq<bool>, limit: nat): Segment
    requires Ready(r.c)
    decreases limit
  {
    match DecodeByte(model, r, hist)
    case Corrupt => Damaged
    case EndOfSegment(r') => Segment([], hist, r')
    case NextByte(b, hist', r') =>
      if limit == 0 then Damaged
      else match DecodeSegment(model, r', hist', limit - 1)
        case Damaged => Damaged
        case Segment(data, h, rr) => Segment([b] + data, h, rr)
  }

  // ---- The round trip ----

  /** Bits: what follows within the range afterwards puts the whole within the range before. */
  lemma {:induction false} BitsWindow(model: Model, c: Coder, hist: seq<bool>, b: byte, n: nat, s: seq<byte>)
    requires Ready(c) && Within(s, EncodeBits(model, c, hist, b, n).c)
    ensures Within(EncodeBits(model, c, hist, b, n).bytes + s, c)
    decreases n
  {
    var all := EncodeBits(model, c, hist, b, n).bytes;
    if n == 0 {
      assert all + s == s;
    } else {
      var y := BitOf(b, n - 1);
      var e := EncodeBit(c, y, PredictProb(model, hist));
      var r := EncodeBits(model, e.c, hist + [y], b, n - 1);
      BitsWindow(model, e.c, hist + [y], b, n - 1, s);
      BitWindow(c, y, PredictProb(model, hist), r.bytes + s);
      Associate(e.bytes, r.bytes, s);
    }
  }

  lemma ByteWindow(model: Model, c: Coder, hist: seq<bool>, b: byte, s: seq<byte>)
    requires Ready(c) && Within(s, EncodeByte(model, c, hist, b).c)
    ensures Within(EncodeByte(model, c, hist, b).bytes + s, c)
  {
    var e := EncodeBit(c, false, 0);
    var r := EncodeBits(model, e.c, hist, b, 8);
    BitsWindow(model, e.c, hist, b, 8, s);
    BitWindow(c, false, 0, r.bytes + s);
    Associate(e.bytes, r.bytes, s);
  }

  lemma NormalizeOnce(c: Coder, bytes: seq<byte>)
    requires 1 <= c.low <= c.high && c.low / TOP == c.high / TOP
    requires var d := ShiftOut(c); 1 <= d.low <= d.high && Normalize(d).bytes == bytes
    ensures Normalize(c).bytes == [c.high / TOP] + bytes
  {
    SameTopByte(c);
  }

  function Nudge(b0: byte, b1: byte, b2: byte): byte {
    if b0 == b1 == b2 == 0 then 1 else 0
  }

  lemma ShiftOutWords(b0: byte, b1: byte, b2: byte, b3: byte, h1: byte, h2: byte, h3: byte)
    ensures ShiftOut(Coder(Word(b0, b1, b2, b3), Word(b0, h1, h2, h3)))
         == Coder(Word(b1, b2, b3, Nudge(b1, b2, b3)), Word(h1, h2, h3, 0xFF))
  {
    ShiftWord(b0, b1, b2, b3, 0);
    ShiftWord(b0, h1, h2, h3, 0xFF);
  }

  lemma NormalizeWords(b0: byte, b1: byte, b2: byte, b3: byte, h1: byte, h2: byte, h3: byte, bytes: seq<byte>)
    requires var c := Coder(Word(b0, b1, b2, b3), Word(b0, h1, h2, h3)); 1 <= c.low <= c.high
    requires var d := Coder(Word(b1, b2, b3, Nudge(b1, b2, b3)), Word(h1, h2, h3, 0xFF));
      1 <= d.low <= d.high && Normalize(d).bytes == bytes
    ensures Normalize(Coder(Word(b0, b1, b2, b3), Word(b0, h1, h2, h3))).bytes == [b0] + bytes
  {
    ShiftOutWords(b0, b1, b2, b3, h1, h2, h3);
    ShiftWord(b0, b1, b2, b3, 0);
    ShiftWord(b0, h1, h2, h3, 0);
    NormalizeOnce(Coder(Word(b0, b1, b2, b3), Word(b0, h1, h2, h3)), bytes);
  }

  /** A range of one point is written out byte by byte, all four of them. */
  lemma PointIsWritten(b0: byte, b1: byte, b2: byte, b3: byte)
    requires Word(b0, b1, b2, b3) >= 1
    ensures Normalize(Coder(Word(b0, b1, b2, b3), Word(b0, b1, b2, b3))).bytes == [b0, b1, b2, b3]
  {
    var z1 := Nudge(b1, b2, b3);
    var z2 := Nudge(b2, b3, z1);
    var z3 := Nudge(b3, z1, z2);
    var z4 := Nudge(z1, z2, z3);
    var last := Coder(Word(z1, z2, z3, z4), Word(0xFF, 0xFF, 0xFF, 0xFF));
    SameTopByte(last);
    assert Normalize(last).bytes == [];
    NormalizeWords(b3, z1, z2, z3, 0xFF, 0xFF, 0xFF, []);
    NormalizeWords(b2, b3, z1, z2, b3, 0xFF, 0xFF, [b3]);
    NormalizeWords(b1, b2, b3, z1, b2, b3, 0xFF, [b2, b3]);
    NormalizeWords(b0, b1, b2, b3, b1, b2, b3, [b1, b2, b3]);
  }

  lemma SplitWord(x: u32) returns (b0: byte, b1: byte, b2: byte, b3: byte)
    ensures x == Word(b0, b1, b2, b3)
  {
    var high, low := x / 0x1_0000, x % 0x1_0000;
    b0, b1, b2, b3 := high / 0x100, high % 0x100, low / 0x100, low % 0x100;
    assert high == 0x100 * b0 + b1 && low == 0x100 * b2 + b3;
  }

  /** The end-of-segment code narrows the range to one point and so writes exactly the four bytes
      of the lower bound. */
  lemma EndWindow(c: Coder, s: seq<byte>)
    requires Ready(c)
    ensures |EncodeBit(c, true, 0).bytes| == 4
    ensures Window(EncodeBit(c, true, 0).bytes + s) == c.low
  {
    var b0, b1, b2, b3 := SplitWord(c.low);
    assert Narrow(c, true, 0) == Coder(c.low, c.low);
    PointIsWritten(b0, b1, b2, b3);
  }

  /** Whatever follows, the bytes of a whole segment start within the range they were coded in. */
  lemma {:induction false} SegmentWindow(model: Model, c: Coder, hist: seq<bool>, data: seq<byte>, s: seq<byte>)
    requires Ready(c)
    ensures Within(EncodeSegment(model, c, hist, data).bytes + s, c)
    decreases |data|
  {
    if data == [] {
      EndWindow(c, s);
    } else {
      var e := EncodeByte(model, c, hist, data[0]);
      var r := EncodeSegment(model, e.c, e.hist, data[1..]);
      SegmentWindow(model, e.c, e.hist, data[1..], s);
      ByteWindow(model, c, hist, data[0], r.bytes + s);
      Associate(e.bytes, r.bytes, s);
    }
  }

  lemma TwoHalves(m: nat, q: nat, y: nat)
    requires y <= 1
    ensures m * (2 * q + y) == 2 * m * q + m * y && m * y == if y == 1 then m else 0
  {
    assert m * (2 * q + y) == m * (2 * q) + m * y;
    assert m * (2 * q) == 2 * m * q;
  }

  lemma BitSplit(b: nat, n: nat)
    requires n > 0
    ensures b % Pow2(n) == (if b / Pow2(n - 1) % 2 == 1 then Pow2(n - 1) else 0) + b % Pow2(n - 1)
  {
    var m := Pow2(n - 1);
    var q, r := b / m, b % m;
    assert b == m * q + r;
    var q2, y := q / 2, q % 2;
    TwoHalves(m, q2, y);
    ModUnique(b, 2 * m, q2, m * y + r);
  }

  /** The value that collecting the lowest n bits of b behind `value` comes to. */
  function Collect(value: nat, b: byte, n: nat): nat
    decreases n, value
  {
    if n == 0 then value else Collect(2 * value + (if BitOf(b, n - 1) then 1 else 0), b, n - 1)
  }

  lemma {:induction false} CollectIs(value: nat, b: byte, n: nat)
    ensures Collect(value, b, n) == value * Pow2(n) + b % Pow2(n)
    decreases n
  {
    if n > 0 {
      var bit := if BitOf(b, n - 1) then 1 else 0;
      CollectIs(2 * value + bit, b, n - 1);
      BitSplit(b, n);
      Distribute(value, bit, Pow2(n - 1));
    }
  }

  lemma Distribute(v: nat, bit: nat, m: nat)
    ensures (2 * v + bit) * m == v * (2 * m) + bit * m
  {
  }

  lemma {:induction false} BitsFollow(model: Model, c: Coder, hist: seq<bool>, b: byte, value: nat, n: nat, s: seq<byte>)
    requires Ready(c) && Within(s, EncodeBits(model, c, hist, b, n).c)
    ensures var e := EncodeBits(model, c, hist, b, n);
      DecodeBits(model, ReaderOf(c, e.bytes + s), hist, value, n) == Collected(Collect(value, b, n), e.hist, ReaderOf(e.c, s))
    decreases n
  {
    hide EncodeBit, DecodeBit, Narrow, Window;
    if n == 0 {
      assert EncodeBits(model, c, hist, b, n).bytes + s == s;
    } else {
      var y, p := BitOf(b, n - 1), PredictProb(model, hist);
      var e := EncodeBit(c, y, p);
      var r := EncodeBits(model, e.c, hist + [y], b, n - 1);
      BitsWindow(model, e.c, hist + [y], b, n - 1, s);
      BitWindow(c, y, p, r.bytes + s);
      DecodeBitFollows(c, y, p, r.bytes + s);
      Associate(e.bytes, r.bytes, s);
      BitsFollow(model, e.c, hist + [y], b, 2 * value + (if y then 1 else 0), n - 1, s);
    }
  }

  lemma ByteFollows(model: Model, c: Coder, hist: seq<bool>, b: byte, s: seq<byte>)
    requires Ready(c) && Within(s, EncodeByte(model, c, hist, b).c)
    ensures var e := EncodeByte(model, c, hist, b);
      DecodeByte(model, ReaderOf(c, e.bytes + s), hist) == NextByte(b, e.hist, ReaderOf(e.c, s))
  {
    hide EncodeBit, DecodeBit, Narrow, Window, EncodeBits, DecodeBits, Collect;
    var e := EncodeBit(c, false, 0);
    var r := EncodeBits(model, e.c, hist, b, 8);
    BitsWindow(model, e.c, hist, b, 8, s);
    BitWindow(c, false, 0, r.bytes + s);
    DecodeBitFollows(c, false, 0, r.bytes + s);
    Associate(e.bytes, r.bytes, s);
    BitsFollow(model, e.c, hist, b, 1, 8, s);
    assert Collect(1, b, 8) == 0x100 + b by {
      CollectIs(1, b, 8);
      Pow2Values();
    }
  }

  lemma EndFollows(model: Model, c: Coder, hist: seq<bool>, trailer: seq<byte>)
    requires Ready(c)
    ensures var e := EncodeBit(c, true, 0);
      DecodeByte(model, ReaderOf(c, e.bytes + (TERMINATOR + trailer)), hist) == EndOfSegment(Reader(e.c, 0, trailer))
  {
    var s := TERMINATOR + trailer;
    EndWindow(c, s);
    DecodeBitFollows(c, true, 0, s);
    assert s[4..] == trailer;
    assert ReaderOf(EncodeBit(c, true, 0).c, s) == Reader(EncodeBit(c, true, 0).c, 0, trailer);
  }

  lemma {:induction false} SegmentFollows(model: Model, c: Coder, hist: seq<bool>, data: seq<byte>,
                                          trailer: seq<byte>, limit: nat)
    requires Ready(c) && limit >= |data|
    ensures var e := EncodeSegment(model, c, hist, data);
      DecodeSegment(model, ReaderOf(c, e.bytes + (TERMINATOR + trailer)), hist, limit)
      == Segment(data, e.hist, Reader(e.c, 0, trailer))
    decreases |data|
  {
    hide EncodeByte, DecodeByte, EncodeBit, Within, ReaderOf;
    var s := TERMINATOR + trailer;
    SegmentWindow(model, c, hist, data, s);
    if data == [] {
      EndFollows(model, c, hist, trailer);
    } else {
      var e := EncodeByte(model, c, hist, data[0]);
      var r := EncodeSegment(model, e.c, e.hist, data[1..]);
      SegmentWindow(model, e.c, e.hist, data[1..], s);
      ByteFollows(model, c, hist, data[0], r.bytes + s);
      Associate(e.bytes, r.bytes, s);
      SegmentFollows(model, e.c, e.hist, data[1..], trailer, limit - 1);
      assert [data[0]] + data[1..] == data;
    }
  }

  /** For every model, every coder state a block can be in and every byte string: decompressing a
      segment gives back exactly its bytes and then the end of the segment, and leaves the decoder
      at the byte behind the terminator with the coder state and history of the encoder. */
  lemma SegmentRoundTrip(model: Model, c: Coder, hist: seq<bool>, data: seq<byte>, trailer: seq<byte>, limit: nat)
    requires Ready(c) && limit >= |data|
    ensures var e := EncodeSegment(model, c, hist, data);
      DecodeSegment(model, Reader(c, 0, e.bytes + (TERMINATOR + trailer)), hist, limit)
      == Segment(data, e.hist, Reader(e.c, 0, trailer))
  {
    var all := EncodeSegment(model, c, hist, data).bytes + (TERMINATOR + trailer);
    SegmentWindow(model, c, hist, data, TERMINATOR + trailer);
    PrimeReads(c, all);
    assert DecodeByte(model, Reader(c, 0, all), hist) == DecodeByte(model, ReaderOf(c, all), hist);
    SegmentFollows(model, c, hist, data, trailer, limit);
  }
}
