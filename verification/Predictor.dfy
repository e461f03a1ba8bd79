/** The interpreted predictor of libzpaq: every component's prediction and its training keep the
    12-, 20- and 23-bit bounds, and no product or sum leaves 32 bits. */
module Predictor {
  import opened Bits
  import opened Bytes

  type int32 = x: int | -0x8000_0000 <= x < 0x8000_0000
  type uint32 = x: int | 0 <= x < 0x1_0000_0000

  /** A prediction in the logistic domain: 12 bits, signed. */
  type Stretched = x: int | -2048 <= x <= 2047

  /** A probability in 15 bits. */
  type Squashed = x: int | 0 <= x <= 32767

  /** A weight: 20 bits, signed. */
  type Weight = x: int | -0x8_0000 <= x < 0x8_0000

  /** The tables built at start, and the counts n0 and n1 of a bit history. */
  datatype Tables = Tables(squash: Stretched -> Squashed, stretch: Squashed -> Stretched, n0: byte -> byte, n1: byte -> byte)

  /** A more probable bit has no smaller logistic value. */
  ghost predicate Rising(t: Tables) {
    forall a: Squashed, b: Squashed | a <= b :: t.stretch(a) <= t.stretch(b)
  }

  /** q is num / d, rounded down as a shift does. */
  predicate IsFloor(num: int, d: int, q: int) {
    d * q <= num < d * (q + 1)
  }

  /** r is the number nearest to v between lo and hi. */
  predicate IsNearest(v: int, lo: int, hi: int, r: int) {
    && lo <= r <= hi
    && (lo <= v <= hi ==> r == v)
    && (v < lo ==> r == lo)
    && (v > hi ==> r == hi)
  }

  /** r is w moved by num / d, rounded down, or the bound nearest to that. */
  ghost predicate Moves(w: int, num: int, d: int, lo: int, hi: int, r: int) {
    forall k: int | IsFloor(num, d, k) :: IsNearest(w + k, lo, hi, r)
  }

  lemma MovesBy(w: int, num: int, d: int, lo: int, hi: int, r: int)
    requires d > 0 && IsNearest(w + num / d, lo, hi, r)
    ensures Moves(w, num, d, lo, hi, r)
  {
    hide IsFloor;
    forall k: int | IsFloor(num, d, k)
      ensures k == num / d
    {
      FloorUnique(num, d, k);
    }
  }

  function Clamp2k(x: int): (r: Stretched)
    ensures IsNearest(x, -2048, 2047, r)
  {
    if x < -2048 then -2048 else if x > 2047 then 2047 else x
  }

  function Clamp512k(x: int): (r: Weight)
    ensures IsNearest(x, -0x8_0000, 0x7_FFFF, r)
  {
    if x < -0x8_0000 then -0x8_0000 else if x >= 0x8_0000 then 0x7_FFFF else x
  }

  /** The table dt: how fast a probability seen count times moves, in 2^17ths. */
  function Rate(count: nat): (r: nat)
    ensures r <= 87380 && r % 2 == 0 && IsFloor(0x2_0000, 2 * count + 3, r / 2)
  {
    FloorOf(0x2_0000, count * 2 + 3);
    assert 0x2_0000 / (count * 2 + 3) * 2 / 2 == 0x2_0000 / (count * 2 + 3);
    0x2_0000 / (count * 2 + 3) * 2
  }

  /** The table dt2k. */
  function Dt2k(len: byte): (r: nat)
    ensures r <= 2048 && (len > 0 ==> r >= 8)
  {
    if len == 0 then 0 else 2048 / len
  }

  // ---- Components ----

  /** A component's line of the header. */
  datatype Kind =
    | CONS(c: byte)
    | CM(bits: byte, limit: byte)
    | ICM(bits: byte)
    | MATCH(bits: byte, bufbits: byte)
    | AVG(j: byte, k: byte, wt: byte)
    | MIX2(bits: byte, j: byte, k: byte, rate: byte, mask: byte)
    | MIX(bits: byte, j: byte, m: byte, rate: byte, mask: byte)
    | ISSE(bits: byte, j: byte)
    | SSE(bits: byte, j: byte, start: byte, limit: byte)

  /** Predictor::init accepts this line as component i. */
  predicate Accepts(kind: Kind, i: nat) {
    match kind
    case CONS(_) => true
    case CM(bits, _) => bits <= 32
    case ICM(bits) => bits <= 26
    case MATCH(bits, bufbits) => bits <= 32 && bufbits <= 32
    case AVG(j, k, _) => j < i && k < i
    case MIX2(bits, j, k, _, _) => bits <= 32 && k < i && j < i
    case MIX(bits, j, m, _, _) => bits <= 32 && j < i && 1 <= m <= i - j
    case ISSE(bits, j) => bits <= 32 && j < i
    case SSE(bits, j, start, limit) => bits <= 32 && j < i && start <= limit * 4
  }

  /** The number of cells of a component's table. */
  function Cells(kind: Kind): nat {
    match kind
    case CONS(_) => 0
    case AVG(_, _, _) => 0
    case MATCH(_, _) => 0
    case CM(bits, _) => Pow2(bits)
    case ICM(_) => 256
    case MIX2(bits, _, _, _, _) => Pow2(bits)
    case MIX(bits, _, m, _, _) => Pow2(bits) * m
    case ISSE(_, _) => 512
    case SSE(bits, _, _, _) => Pow2(bits) * 32
  }

  /** What a cell may hold. */
  predicate CellOk(kind: Kind, v: int) {
    match kind
    case ICM(_) => 0 <= v < 0x80_0000
    case MIX2(_, _, _, _, _) => 0 <= v <= 65535
    case MIX(_, _, _, _, _) => -0x8_0000 <= v < 0x8_0000
    case ISSE(_, _) => -0x8_0000 <= v < 0x8_0000
    case CONS(_) => true
    case AVG(_, _, _) => true
    case MATCH(_, _) => true
    case CM(_, _) => 0 <= v < 0x1_0000_0000
    case SSE(_, _, _, _) => 0 <= v < 0x1_0000_0000
  }

  /** The 2^23-scaled probability a bit history starts with. */
  function CmInit(t: Tables, state: byte): (r: int32)
    ensures 0 <= r < 0x80_0000
    ensures IsFloor((t.n1(state) * 2 + 1) * 0x40_0000, t.n0(state) + t.n1(state) + 1, r)
  {
    var n0, n1 := t.n0(state), t.n1(state);
    var num: int32 := (n1 * 2 + 1) * 0x40_0000;
    InitBelow(n0, n1);
    FloorOf(num, n0 + n1 + 1);
    num / (n0 + n1 + 1)
  }

  lemma FloorOf(num: int, d: int)
    requires d > 0
    ensures IsFloor(num, d, num / d)
  {
    assert num == d * (num / d) + num % d;
  }

  lemma FloorUnique(num: int, d: int, q: int)
    requires d > 0 && IsFloor(num, d, q)
    ensures q == num / d
  {
    FloorOf(num, d);
    var r := num / d;
    assert d * (r + 1 - q) == d * (r + 1) - d * q;
    assert d * (q + 1 - r) == d * (q + 1) - d * r;
    Positive(d, r + 1 - q);
    Positive(d, q + 1 - r);
  }

  lemma InitBelow(n0: byte, n1: byte)
    ensures 0 <= (n1 * 2 + 1) * 0x40_0000 / (n0 + n1 + 1) < 0x80_0000
  {
    var d := n0 + n1 + 1;
    var num := (n1 * 2 + 1) * 0x40_0000;
    assert num < 0x80_0000 * d;
    QuotientBelow(num, d, 0x80_0000);
  }

  lemma QuotientBelow(num: nat, d: nat, q: nat)
    requires d > 0 && num < q * d
    ensures 0 <= num / d < q
  {
  }

  /** The value a cell is initialised to. */
  function InitialCell(t: Tables, kind: Kind, i: nat): int
    requires kind.MIX? ==> kind.m >= 1
  {
    match kind
    case CM(_, _) => 0x8000_0000
    case ICM(_) => CmInit(t, i % 0x100)
    case MIX2(_, _, _, _, _) => 32768
    case MIX(_, _, m, _, _) => 65536 / m
    case ISSE(_, _) =>
      if i % 2 == 0 then 0x8000 else Clamp512k(t.stretch(CmInit(t, i / 2 % 0x100) / 0x100) * 1024)
    case SSE(_, _, start, _) => t.squash(i % 32 * 64 - 992) * 0x2_0000 + start
    case CONS(_) => 0
    case AVG(_, _, _) => 0
    case MATCH(_, _) => 0
  }

  lemma InitialCellOk(t: Tables, kind: Kind, i: nat)
    requires kind.MIX? ==> kind.m >= 1
    ensures CellOk(kind, InitialCell(t, kind, i))
  {
    if kind.MIX? {
      QuotientBelow(65536, kind.m, 65537);
    }
  }

  // ---- Predicting ----

  lemma Between(v: int, lo: int, hi: int, n: int)
    requires n > 0 && lo * n <= v < (hi + 1) * n
    ensures lo <= v / n <= hi
  {
    var q, r := v / n, v % n;
    assert v == n * q + r;
    assert n * (q + 1 - lo) == n * q + n - lo * n;
    assert n * (hi + 1 - q) == (hi + 1) * n - n * q;
    Positive(n, q + 1 - lo);
    Positive(n, hi + 1 - q);
  }

  lemma Positive(n: int, k: int)
    requires n > 0 && n * k > 0
    ensures k > 0
  {
    if k <= 0 {
      MulOrder(n, k, 0);
    }
  }

  lemma MulBounds(x: int, y: int, a: int, b: int)
    requires -a <= x <= a && -b <= y <= b
    ensures -(a * b) <= x * y <= a * b
  {
    if x >= 0 {
      MulOrder(x, y, b);
      MulOrder(x, -b, y);
      MulOrder(b, x, a);
    } else {
      MulOrder(-x, y, b);
      MulOrder(-x, -b, y);
      MulOrder(b, -x, a);
    }
  }

  lemma MulOrder(x: int, y: int, z: int)
    requires x >= 0 && y <= z
    ensures x * y <= x * z
  {
  }

  /** A weighted mean of two predictions lies between them. */
  lemma MeanBounds(a: Stretched, b: Stretched, w: int, total: int)
    requires 0 <= w <= total && total > 0
    ensures var lo, hi := if a <= b then a else b, if a <= b then b else a;
      lo * total <= a * w + b * (total - w) < (hi + 1) * total
  {
    var u := total - w;
    var lo, hi := if a <= b then a else b, if a <= b then b else a;
    MulOrder(w, lo, a);
    MulOrder(w, a, hi);
    MulOrder(u, lo, b);
    MulOrder(u, b, hi);
    assert lo * w + lo * u == lo * total && hi * w + hi * u == hi * total;
  }

  predicate Amid(r: int, a: int, b: int) {
    if a <= b then a <= r <= b else b <= r <= a
  }

  function PredictAvg(a: Stretched, b: Stretched, wt: byte): (r: Stretched)
    ensures Amid(r, a, b) && IsFloor(a * wt + b * (256 - wt), 256, r)
  {
    MeanBounds(a, b, wt, 256);
    MulBounds(a, wt, 2048, 256);
    MulBounds(b, 256 - wt, 2048, 256);
    var x: int32 := a * wt;
    var y: int32 := b * (256 - wt);
    var sum: int32 := x + y;
    Between(sum, if a <= b then a else b, if a <= b then b else a, 256);
    sum / 256
  }

  function PredictMix2(a: Stretched, b: Stretched, w: int): (r: Stretched)
    requires 0 <= w <= 65535
    ensures Amid(r, a, b) && IsFloor(w * a + (65536 - w) * b, 65536, r)
  {
    MeanBounds(a, b, w, 65536);
    MulBounds(w, a, 65536, 2048);
    MulBounds(65536 - w, b, 65536, 2048);
    var x: int32 := w * a;
    var y: int32 := (65536 - w) * b;
    var sum: int32 := x + y;
    Between(sum, if a <= b then a else b, if a <= b then b else a, 65536);
    sum / 65536
  }

  function PredictIsse(w0: Weight, w1: Weight, a: Stretched): (r: Stretched)
    ensures Moves(0, w0 * a + w1 * 64, 65536, -2048, 2047, r)
    ensures w0 == 0x1_0000 && w1 == 0 ==> r == a
  {
    MulBounds(w0, a, 0x8_0000, 2048);
    var x: int32 := w0 * a;
    var y: int32 := w1 * 64;
    var sum: int32 := x + y;
    MovesBy(0, sum, 65536, -2048, 2047, Clamp2k(sum / 65536));
    Clamp2k(sum / 65536)
  }

  /** One more input of a mixer. */
  function AddInput(sum: int32, w: Weight, a: Stretched, ghost done: nat): (r: int32)
    requires done < 255 && -0x40_0000 * done <= sum <= 0x40_0000 * done
    ensures -0x40_0000 * (done + 1) <= r <= 0x40_0000 * (done + 1)
    ensures forall k: int | IsFloor(w, 256, k) :: r == sum + k * a
  {
    Between(w, -2048, 2047, 256);
    MulBounds(w / 256, a, 2048, 2048);
    var x: int32 := w / 256 * a;
    sum + x
  }

  /** The weighted sum of the first n inputs of a mixer. */
  function Dot(wt: seq<int>, p: seq<int>, n: nat): (r: int32)
    requires n <= |wt| && n <= |p| && n <= 255 && AllWeights(wt) && AllStretched(p)
    ensures -0x40_0000 * n <= r <= 0x40_0000 * n
  {
    if n == 0 then 0 else AddInput(Dot(wt, p, n - 1), wt[n - 1], p[n - 1], n - 1)
  }

  function PredictMix(wt: seq<int>, p: seq<int>): (r: Stretched)
    requires |wt| == |p| <= 255 && AllWeights(wt) && AllStretched(p)
    ensures Moves(0, Dot(wt, p, |p|), 0x100, -2048, 2047, r)
  {
    MovesBy(0, Dot(wt, p, |p|), 0x100, -2048, 2047, Clamp2k(Dot(wt, p, |p|) / 0x100));
    Clamp2k(Dot(wt, p, |p|) / 0x100)
  }

  /** The sum takes each weight with its own input. */
  lemma {:induction false} DotPush(wt: seq<int>, p: seq<int>, w: Weight, a: Stretched, k: int)
    requires |wt| == |p| < 255 && AllWeights(wt) && AllStretched(p) && IsFloor(w, 256, k)
    ensures AllWeights(wt + [w]) && AllStretched(p + [a])
    ensures Dot(wt + [w], p + [a], |p| + 1) == Dot(wt, p, |p|) + k * a
  {
    DotFront(wt, p, wt + [w], p + [a], |p|);
  }

  lemma {:induction false} DotFront(wt: seq<int>, p: seq<int>, wt': seq<int>, p': seq<int>, n: nat)
    requires n <= |wt| <= |wt'| && n <= |p| <= |p'| && n <= 255
    requires wt == wt'[..|wt|] && p == p'[..|p|]
    requires AllWeights(wt) && AllStretched(p) && AllWeights(wt') && AllStretched(p')
    ensures Dot(wt', p', n) == Dot(wt, p, n)
  {
    if n > 0 {
      DotFront(wt, p, wt', p', n - 1);
    }
  }

  predicate AllWeights(wt: seq<int>) {
    forall i | 0 <= i < |wt| :: -0x8_0000 <= wt[i] < 0x8_0000
  }

  predicate AllStretched(p: seq<int>) {
    forall i | 0 <= i < |p| :: -2048 <= p[i] <= 2047
  }

  // ---- Training ----

  /** How far a prediction was off, scaled by a rate. */
  function Error(y: bool, guess: Squashed, rate: byte): (e: int32)
    ensures -8355585 <= e <= 8355585
    ensures y ==> e == (32767 - guess) * rate >= 0
    ensures !y ==> e == -(guess * rate) <= 0
  {
    var off: int32 := (if y then 32767 else 0) - guess;
    MulBounds(off, rate, 32767, 255);
    ErrorSign(y, guess, off, rate);
    off * rate
  }

  lemma ErrorSign(y: bool, guess: Squashed, off: int, rate: byte)
    requires off == (if y then 32767 else 0) - guess
    ensures y ==> off * rate == (32767 - guess) * rate >= 0
    ensures !y ==> off * rate == -(guess * rate) <= 0
  {
    MulOrder(if y then off else guess, 0, rate);
  }

  function TrainIcm(pn: int, y: bool): (r: int)
    requires 0 <= pn < 0x80_0000
    ensures 0 <= r < 0x80_0000
    ensures IsFloor((if y then 32767 else 0) - pn / 0x100, 4, r - pn)
    ensures if y then r >= pn else r <= pn
  {
    var step: int32 := ((if y then 32767 else 0) - pn / 0x100) / 4;
    pn + step
  }

  function TrainMix2(w: int, err: int32, a: Stretched, b: Stretched): (r: int)
    requires -0x4_0000 <= err <= 0x4_0000 && 0 <= w <= 65535
    ensures 0 <= r <= 65535
    ensures Moves(w, err * (a - b) + 0x1000, 0x2000, 0, 65535, r)
  {
    MulBounds(err, a - b, 0x4_0000, 4095);
    var d: int32 := err * (a - b);
    var d1: int32 := d + 0x1000;
    var v: int32 := w + d1 / 0x2000;
    MovesBy(w, d1, 0x2000, 0, 65535, if v < 0 then 0 else if v > 65535 then 65535 else v);
    if v < 0 then 0 else if v > 65535 then 65535 else v
  }

  function TrainMix(w: Weight, err: int32, a: Stretched): (r: Weight)
    requires -0x8_0000 <= err <= 0x8_0000
    ensures Moves(w, err * a + 0x1000, 0x2000, -0x8_0000, 0x7_FFFF, r)
  {
    MulBounds(err, a, 0x8_0000, 2048);
    var d: int32 := err * a;
    var d1: int32 := d + 0x1000;
    var v: int32 := w + d1 / 0x2000;
    MovesBy(w, d1, 0x2000, -0x8_0000, 0x7_FFFF, Clamp512k(v));
    Clamp512k(v)
  }

  function TrainBias(w: Weight, err: int32): (r: Weight)
    requires -0x8_0000 <= err <= 0x8_0000
    ensures Moves(w, err + 16, 32, -0x8_0000, 0x7_FFFF, r)
  {
    MovesBy(w, err + 16, 32, -0x8_0000, 0x7_FFFF, Clamp512k(w + (err + 16) / 32));
    Clamp512k(w + (err + 16) / 32)
  }

  /** A counted probability: 22 bits that move by the error times the rate of the count in the low
      10 bits. The product may leave 32 bits, the result does not: the step never goes beyond the
      ends of the range. */
  function TrainCounted(pn: int, limit: nat, y: bool): (r: int)
    requires 0 <= pn < 0x1_0000_0000 && limit <= 1020
    ensures 0 <= r < 0x1_0000_0000
    ensures r % 0x400 == if pn % 0x400 < limit then pn % 0x400 + 1 else pn % 0x400
    ensures IsFloor(((if y then 32767 else 0) - pn / 0x2_0000) * Rate(pn % 0x400), 0x400, r / 0x400 - pn / 0x400)
    ensures if y then r / 0x400 >= pn / 0x400 else r / 0x400 <= pn / 0x400
  {
    hide Rate, IsFloor;
    var count := pn % 0x400;
    var step := ((if y then 32767 else 0) - pn / 0x2_0000) * Rate(count);
    StepStays(pn, step, Rate(count), y);
    StaysPacked(pn, step, if count < limit then 1 else 0);
    FloorOf(step, 0x400);
    (pn + (step - step % 0x400) + (if count < limit then 1 else 0)) % 0x1_0000_0000
  }

  lemma StepStays(pn: int, step: int, rate: nat, y: bool)
    requires 0 <= pn < 0x1_0000_0000 && rate <= 0x2_0000
    requires step == ((if y then 32767 else 0) - pn / 0x2_0000) * rate
    ensures if y then step >= 0 else step <= 0
    ensures 0 <= pn / 0x400 + step / 0x400 < 0x40_0000
  {
    var p := pn / 0x2_0000;
    assert 0 <= p <= 32767;
    if y {
      WithinShare(32767 - p, rate, step);
      StepBounds(pn, step, 32767 - p, 0);
    } else {
      assert -step == p * rate;
      WithinShare(p, rate, -step);
      StepBounds(pn, step, 0, p);
    }
  }

  lemma StepBounds(pn: int, step: int, above: nat, below: nat)
    requires 0 <= pn < 0x1_0000_0000 && -(below * 0x2_0000) <= step <= above * 0x2_0000
    requires below <= pn / 0x2_0000 && above + pn / 0x2_0000 <= 32767
    ensures 0 <= pn / 0x400 + step / 0x400 < 0x40_0000
  {
    assert -(below * 0x80) <= step / 0x400 <= above * 0x80;
  }

  lemma StaysPacked(pn: nat, step: int, one: nat)
    requires pn % 0x400 + one < 0x400 && 0 <= pn / 0x400 + step / 0x400 < 0x40_0000
    ensures var r := (pn + (step - step % 0x400) + one) % 0x1_0000_0000;
      r / 0x400 == pn / 0x400 + step / 0x400 && r % 0x400 == pn % 0x400 + one
  {
    var q, low := pn / 0x400 + step / 0x400, pn % 0x400 + one;
    assert pn + (step - step % 0x400) + one == 0x400 * q + low;
  }

  lemma WithinShare(p: nat, rate: nat, step: int)
    requires rate <= 0x2_0000 && step == p * rate
    ensures 0 <= step <= p * 0x2_0000
  {
    MulOrder(p, 0, rate);
    MulOrder(p, rate, 0x2_0000);
  }

  // ---- The bits of the current byte ----

  /** c8 is a leading one and the bits of this byte so far, hmap4 the same in two nibbles. */
  datatype Context = Context(c8: nat, hmap4: nat)

  const START := Context(1, 1)

  function NextContext(c: Context, y: bool): Context {
    var bit := if y then 1 else 0;
    var c8 := c.c8 * 2 + bit;
    if c8 >= 256 then START
    else if 16 <= c8 < 32 then Context(c8, c.hmap4 % 16 * 32 + bit * 16 + 1)
    else Context(c8, c.hmap4 / 16 % 32 * 16 + (c.hmap4 % 16 * 2 + bit) % 16)
  }

  /** In the second nibble: h is a leading one and the first nibble, n stands for the bits seen
      since and l is their value. */
  predicate InNibble(c: Context, h: nat, n: nat, l: nat) {
    && 16 <= h < 32 && (n == 1 || n == 2 || n == 4 || n == 8) && l < n
    && c == Context(h * n + l, h * 16 + n + l)
  }

  ghost predicate ContextOk(c: Context) {
    (1 <= c.c8 < 16 && c.hmap4 == c.c8) || exists h: nat, n: nat, l: nat :: InNibble(c, h, n, l)
  }

  lemma Nibbles(h: nat, x: nat, n: nat)
    requires x < n
    ensures (h * n + x) / n == h && (h * n + x) % n == x
  {
    ModUnique(h * n + x, n, h, x);
  }

  lemma NibbleBounds(c: Context, h: nat, n: nat, l: nat)
    requires InNibble(c, h, n, l)
    ensures 16 * n <= c.c8 < 32 * n && c.hmap4 / 16 == h && c.hmap4 % 16 == n + l <= 15
  {
    Nibbles(h, n + l, 16);
    MulOrder(n, 16, h);
    MulOrder(n, h, 31);
  }

  lemma NextInNibble(c: Context, y: bool, h: nat, n: nat, l: nat)
    requires InNibble(c, h, n, l)
    ensures ContextOk(NextContext(c, y))
  {
    var bit := if y then 1 else 0;
    NibbleBounds(c, h, n, l);
    if n < 8 {
      assert (h * n + l) * 2 + bit == h * (2 * n) + (2 * l + bit);
      assert InNibble(NextContext(c, y), h, 2 * n, 2 * l + bit);
    }
  }

  /** Every bit keeps the two views of the current byte in step. */
  lemma NextContextOk(c: Context, y: bool)
    requires ContextOk(c)
    ensures ContextOk(NextContext(c, y))
  {
    if 1 <= c.c8 < 16 && c.hmap4 == c.c8 {
      if c.c8 >= 8 {
        assert InNibble(NextContext(c, y), c.c8 * 2 + (if y then 1 else 0), 1, 0);
      }
    } else {
      var h: nat, n: nat, l: nat :| InNibble(c, h, n, l);
      NextInNibble(c, y, h, n, l);
    }
  }

  /** The bounds the source asserts; the cell of a bit-history row that a context selects is never
      the row's checksum. */
  lemma ContextBounds(c: Context)
    requires ContextOk(c)
    ensures 1 <= c.c8 <= 255 && 1 <= c.hmap4 <= 511 && 1 <= c.hmap4 % 16 <= 15
  {
    if !(1 <= c.c8 < 16 && c.hmap4 == c.c8) {
      var h: nat, n: nat, l: nat :| InNibble(c, h, n, l);
      NibbleBounds(c, h, n, l);
    }
  }

  // ---- One component ----

  /** What the context hash, the bit-history table and the match buffer give a component for one
      bit: a row, and a match's length and next bit. */
  datatype Pick = Pick(row: nat, len: byte, bit: bool)

  datatype Component = Component(cm: seq<int>, cxt: nat)

  ghost predicate CellsOk(kind: Kind, cm: seq<int>) {
    |cm| == Cells(kind) && forall i | 0 <= i < |cm| :: CellOk(kind, cm[i])
  }

  /** The cell a row selects. */
  function CellOf(kind: Kind, row: nat): nat {
    match kind
    case CM(bits, _) => row % Pow2(bits)
    case ICM(_) => row % 256
    case MIX2(bits, _, _, _, _) => row % Pow2(bits)
    case MIX(bits, _, m, _, _) => row % Pow2(bits) * m
    case ISSE(_, _) => row % 256 * 2
    case SSE(bits, _, _, _) => row * 32 % (Pow2(bits) * 32)
    case CONS(_) => 0
    case AVG(_, _, _) => 0
    case MATCH(_, _) => 0
  }

  ghost predicate IsCell(kind: Kind, cxt: nat) {
    exists row: nat :: cxt == CellOf(kind, row)
  }

  lemma SelectsCell(kind: Kind, row: nat, cxt: nat)
    requires cxt == CellOf(kind, row)
    ensures IsCell(kind, cxt)
  {
    hide CellOf;
  }

  /** The cells that one bit reads and trains lie within the table. */
  lemma CellOfWithin(kind: Kind, row: nat)
    ensures (kind.CM? || kind.ICM? || kind.MIX2? || kind.SSE?) ==> CellOf(kind, row) < Cells(kind)
    ensures kind.ISSE? ==> CellOf(kind, row) + 1 < Cells(kind)
    ensures kind.MIX? ==> CellOf(kind, row) + kind.m <= Cells(kind)
  {
    hide Pow2;
    if kind.MIX? {
      var r, rows := row % Pow2(kind.bits), Pow2(kind.bits);
      MulOrder(kind.m, r + 1, rows);
      assert (r + 1) * kind.m == r * kind.m + kind.m;
    }
  }

  /** Where between two cells an SSE input falls: the cell's offset and the weight of the next. */
  function SsePlace(a: Stretched): (r: (nat, nat))
    ensures r.0 <= 30 && r.1 < 64
    ensures IsNearest(a + 992, 0, 1983, r.0 * 64 + r.1)
  {
    var pq := if a + 992 < 0 then 0 else if a + 992 > 1983 then 1983 else a + 992;
    (pq / 64, pq % 64)
  }

  lemma SseBounds(a: int, b: int, w: nat)
    requires 0 <= a <= 0x3F_FFFF && 0 <= b <= 0x3F_FFFF && w < 64
    ensures 0 <= a * (64 - w) + b * w <= 0x3F_FFFF * 64
  {
    Scaled(a, 64 - w);
    Scaled(b, w);
  }

  lemma Scaled(a: int, w: nat)
    requires 0 <= a <= 0x3F_FFFF
    ensures 0 <= a * w <= 0x3F_FFFF * w
  {
    MulOrder(w, a, 0x3F_FFFF);
    MulOrder(w, 0, a);
  }

  lemma SseSame(x: uint32, a: int, b: int, w: nat)
    requires w < 64 && a == x / 0x400
    ensures a == b ==> (a * (64 - w) + b * w) / 0x2000 == x / 0x2_0000
  {
    if a == b {
      assert a * (64 - w) + a * w == a * 64;
    }
  }

  /** r is the logistic value of the probability num / d, rounded down. */
  ghost predicate Stretches(t: Tables, num: int, d: int, r: Stretched) {
    forall q: int | IsFloor(num, d, q) :: 0 <= q <= 32767 && r == t.stretch(q)
  }

  lemma StretchesIs(t: Tables, num: int, d: int, r: Stretched)
    requires d > 0 && 0 <= num / d <= 32767 && r == t.stretch(num / d)
    ensures Stretches(t, num, d, r)
  {
    hide IsFloor;
    forall q: int | IsFloor(num, d, q)
      ensures q == num / d
    {
      FloorUnique(num, d, q);
    }
  }

  function PredictSse(t: Tables, x: uint32, y: uint32, w: nat): (r: Stretched)
    requires w < 64
    ensures Stretches(t, x / 0x400 * (64 - w) + y / 0x400 * w, 0x2000, r)
    ensures x / 0x400 == y / 0x400 ==> r == t.stretch(x / 0x2_0000)
  {
    var a, b := x / 0x400, y / 0x400;
    SseBounds(a, b, w);
    SseSame(x, a, b, w);
    var sum: uint32 := a * (64 - w) + b * w;
    StretchesIs(t, sum, 0x2000, t.stretch(sum / 0x2000));
    t.stretch(sum / 0x2000)
  }

  /** The longer the match, the surer its next bit. */
  function PredictMatch(t: Tables, len: byte, bit: bool): (r: Stretched)
    ensures len == 0 ==> r == 0
    ensures len > 0 && !bit ==> r == t.stretch(2048 / len)
    ensures len > 0 && bit ==> r == t.stretch(0x8000 - 2048 / len)
  {
    if len == 0 then 0
    else
      t.stretch(Dt2k(len) * (if bit then -1 else 1) % 0x8000)
  }

  /** predict0 for component i, from the predictions of the components before it; `was` is its
      own last prediction, which a constant keeps. */
  function Predicted(t: Tables, kind: Kind, i: nat, cm: seq<int>, pick: Pick, p: seq<int>, was: Stretched): Stretched
    requires Accepts(kind, i) && i <= |p| && i <= 255 && AllStretched(p) && CellsOk(kind, cm)
  {
    CellOfWithin(kind, pick.row);
    var c := CellOf(kind, pick.row);
    match kind
    case CONS(_) => was
    case CM(_, _) => t.stretch(cm[c] / 0x2_0000)
    case ICM(_) => t.stretch(cm[c] / 0x100)
    case MATCH(_, _) => PredictMatch(t, pick.len, pick.bit)
    case AVG(j, k, wt) => PredictAvg(p[j], p[k], wt)
    case MIX2(_, j, k, _, _) => PredictMix2(p[j], p[k], cm[c])
    case MIX(_, j, m, _, _) => PredictMix(cm[c..c + m], p[j..j + m])
    case ISSE(_, j) => PredictIsse(cm[c], cm[c + 1], p[j])
    case SSE(bits, j, _, _) =>
      var place := SsePlace(p[j]);
      PredictSse(t, cm[(c + place.0) % |cm|], cm[(c + place.0 + 1) % |cm|], place.1)
  }

  /** The cell that update0 will train. */
  function Saved(kind: Kind, pick: Pick, p: seq<int>): nat
    requires AllStretched(p) && (kind.SSE? ==> kind.j < |p|)
  {
    if kind.SSE? then
      var place := SsePlace(p[kind.j]);
      CellOf(kind, pick.row) + place.0 + place.1 / 32
    else CellOf(kind, pick.row)
  }

  /** update0 for component i: its table after training on bit y. */
  function Trained(t: Tables, kind: Kind, i: nat, cm: seq<int>, cxt: nat, p: seq<int>, y: bool): (r: seq<int>)
    requires Accepts(kind, i) && i < |p| && AllStretched(p) && CellsOk(kind, cm)
    requires !kind.SSE? ==> IsCell(kind, cxt)
    ensures |r| == |cm|
  {
    assert !kind.SSE? ==> IsCell(kind, cxt) && CellOfOk(kind, cxt) by {
      if !kind.SSE? {
        var row: nat :| cxt == CellOf(kind, row);
        CellOfWithin(kind, row);
      }
    }
    match kind
    case CONS(_) => cm
    case AVG(_, _, _) => cm
    case MATCH(_, _) => cm
    case CM(_, limit) => cm[cxt := TrainCounted(cm[cxt], limit * 4, y)]
    case ICM(_) => cm[cxt := TrainIcm(cm[cxt], y)]
    case MIX2(_, j, k, rate, _) => cm[cxt := TrainMix2(cm[cxt], Error(y, t.squash(p[i]), rate) / 32, p[j], p[k])]
    case MIX(_, j, m, rate, _) => TrainRow(cm, cxt, m, Error(y, t.squash(p[i]), rate) / 16, p[j..j + m])
    case ISSE(_, j) =>
      var err := Error(y, t.squash(p[i]), 1);
      cm[cxt := TrainMix(cm[cxt], err, p[j])][cxt + 1 := TrainBias(cm[cxt + 1], err)]
    case SSE(_, _, _, limit) => cm[cxt % |cm| := TrainCounted(cm[cxt % |cm|], limit * 4, y)]
  }

  predicate CellOfOk(kind: Kind, cxt: nat) {
    && ((kind.CM? || kind.ICM? || kind.MIX2?) ==> cxt < Cells(kind))
    && (kind.ISSE? ==> cxt + 1 < Cells(kind))
    && (kind.MIX? ==> cxt + kind.m <= Cells(kind))
  }

  /** Every weight of a mixer's row moves by its own input. */
  function TrainRow(cm: seq<int>, cxt: nat, m: nat, err: int32, inputs: seq<int>): (r: seq<int>)
    requires cxt + m <= |cm| && |inputs| == m && AllWeights(cm) && AllStretched(inputs)
    requires -0x8_0000 <= err <= 0x8_0000
    ensures |r| == |cm| && AllWeights(r)
  {
    seq(|cm|, x requires 0 <= x < |cm| =>
      if cxt <= x < cxt + m then TrainMix(cm[x], err, inputs[x - cxt]) else cm[x])
  }

  /** Training keeps every cell within its component's bounds. */
  lemma TrainedOk(t: Tables, kind: Kind, i: nat, cm: seq<int>, cxt: nat, p: seq<int>, y: bool)
    requires Accepts(kind, i) && i < |p| && AllStretched(p) && CellsOk(kind, cm)
    requires !kind.SSE? ==> IsCell(kind, cxt)
    ensures CellsOk(kind, Trained(t, kind, i, cm, cxt, p, y))
  {
  }

  // ---- The predictor ----

  ghost predicate AllAccepted(header: seq<Kind>) {
    1 <= |header| <= 255 && forall i: nat | i < |header| :: Accepts(header[i], i)
  }

  /** A component's table within its bounds and a saved cell within its table. */
  ghost predicate ComponentOk(kind: Kind, c: Component) {
    CellsOk(kind, c.cm) && (!kind.SSE? ==> IsCell(kind, c.cxt))
  }

  class Predictor {
    const t: Tables
    const header: seq<Kind>
    const p: array<int>
    const comp: array<Component>
    var context: Context

    ghost predicate Valid()
      reads this, p, comp
    {
      && AllAccepted(header) && ContextOk(context)
      && p.Length == 256 && AllStretched(p[..])
      && comp.Length == |header|
      && forall i: nat | i < |header| :: ComponentOk(header[i], comp[i])
    }

    /** Predictor::init for an accepted header. */
    constructor (t: Tables, header: seq<Kind>)
      requires AllAccepted(header)
      ensures Valid() && fresh(p) && fresh(comp) && this.t == t && this.header == header && context == START
      ensures forall i: nat | i < |header| :: header[i].CONS? ==> p[i] == (header[i].c - 128) * 4
    {
      this.t, this.header, context := t, header, START;
      var ps := new int[256](_ => 0);
      var comps := new Component[|header|](_ => Component([], 0));
      for i := 0 to |header|
        invariant AllStretched(ps[..])
        invariant forall k: nat | k < i :: ComponentOk(header[k], comps[k])
        invariant forall k: nat | k < i :: header[k].CONS? ==> ps[k] == (header[k].c - 128) * 4
      {
        if header[i].CONS? {
          ps[i] := (header[i].c - 128) * 4;
        }
        comps[i] := InitialComponent(t, header[i]);
      }
      p, comp := ps, comps;
    }

    /** predict0: each component in turn, and the squashed prediction of the last. */
    method Predict(picks: seq<Pick>) returns (r: int)
      requires Valid() && |picks| == |header|
      modifies p, comp
      ensures Valid() && context == old(context)
      ensures forall i: nat | i < |header| :: comp[i].cm == old(comp[i].cm)
      ensures forall i: nat | i < |header| :: -2048 <= p[i] <= 2047
      ensures forall i: nat | i < |header| :: p[i] == Predicted(t, header[i], i, comp[i].cm, picks[i], p[..i], old(p[i]))
      ensures forall i: nat | i < |header| :: comp[i].cxt == Saved(header[i], picks[i], p[..i])
      ensures 0 <= r <= 32767 && r == t.squash(p[|header| - 1])
    {
      hide Predicted, Saved, CellOf, CellsOk;
      var n := |header|;
      for i := 0 to n
        invariant Valid() && context == old(context)
        invariant forall k: nat | k < n :: comp[k].cm == old(comp[k].cm)
        invariant forall k: nat | i <= k < n :: p[k] == old(p[k])
        invariant forall k: nat | k < i :: p[k] == Predicted(t, header[k], k, comp[k].cm, picks[k], p[..k], old(p[k]))
        invariant forall k: nat | k < i :: comp[k].cxt == Saved(header[k], picks[k], p[..k])
      {
        ghost var before := p[..];
        PredictOne(i, picks[i]);
        forall k: nat | k <= i
          ensures p[..k] == before[..k]
        {
        }
      }
      r := t.squash(p[n - 1]);
    }

    method PredictOne(i: nat, pick: Pick)
      requires Valid() && i < |header|
      modifies p, comp
      ensures Valid() && context == old(context)
      ensures forall k: nat | k < p.Length && k != i :: p[k] == old(p[k])
      ensures forall k: nat | k < |header| :: comp[k].cm == old(comp[k].cm)
      ensures forall k: nat | k < |header| && k != i :: comp[k].cxt == old(comp[k].cxt)
      ensures p[i] == Predicted(t, header[i], i, comp[i].cm, pick, p[..i], old(p[i]))
      ensures comp[i].cxt == Saved(header[i], pick, p[..i])
    {
      hide Predicted, CellsOk, CellOf;
      ghost var before := p[..i];
      assert Accepts(header[i], i);
      var saved := Saved(header[i], pick, p[..i]);
      SavedIsCell(header[i], pick, p[..i]);
      p[i] := Predicted(t, header[i], i, comp[i].cm, pick, p[..i], p[i]);
      comp[i] := comp[i].(cxt := saved);
      assert p[..i] == before;
    }

    /** update0: train each component on the bit and take note of it. */
    method Update(y: bool)
      requires Valid()
      modifies this`context, comp
      ensures Valid() && context == NextContext(old(context), y)
      ensures forall i: nat | i < |header| ::
        comp[i] == Component(Trained(t, header[i], i, old(comp[i].cm), old(comp[i].cxt), p[..], y), old(comp[i].cxt))
    {
      hide Trained, CellsOk, CellOf;
      for i := 0 to |header|
        invariant Valid() && context == old(context)
        invariant forall k: nat | i <= k < |header| :: comp[k] == old(comp[k])
        invariant forall k: nat | k < i ::
          comp[k] == Component(Trained(t, header[k], k, old(comp[k].cm), old(comp[k].cxt), p[..], y), old(comp[k].cxt))
      {
        TrainedOk(t, header[i], i, comp[i].cm, comp[i].cxt, p[..], y);
        comp[i] := comp[i].(cm := Trained(t, header[i], i, comp[i].cm, comp[i].cxt, p[..], y));
      }
      NextContextOk(context, y);
      context := NextContext(context, y);
    }
  }

  lemma SavedIsCell(kind: Kind, pick: Pick, p: seq<int>)
    requires AllStretched(p) && (kind.SSE? ==> kind.j < |p|)
    ensures !kind.SSE? ==> IsCell(kind, Saved(kind, pick, p))
  {
    hide CellOf, IsCell;
    SelectsCell(kind, pick.row, CellOf(kind, pick.row));
  }

  /** A component's table as init leaves it. */
  function InitialComponent(t: Tables, kind: Kind): (c: Component)
    requires kind.MIX? ==> kind.m >= 1
    ensures ComponentOk(kind, c)
  {
    var cm := seq(Cells(kind), i requires 0 <= i < Cells(kind) => InitialCell(t, kind, i));
    assert forall i | 0 <= i < |cm| :: CellOk(kind, cm[i]) by {
      forall i | 0 <= i < |cm| ensures CellOk(kind, cm[i]) { InitialCellOk(t, kind, i); }
    }
    SelectsCell(kind, 0, CellOf(kind, 0));
    Component(cm, CellOf(kind, 0))
  }
}
