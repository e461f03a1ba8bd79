/** What a prediction and a training step of the predictor come to, component by component, and
    that every step moves the prediction towards the bit that was seen. */
module Learning {
  import opened Bits
  import opened Bytes
  import opened Predictor

  // ---- The arithmetic of predict0 and update0 ----

  /** Each component's prediction as the shifts of predict0 round it. */
  lemma PredictedExactly(t: Tables, kind: Kind, i: nat, cm: seq<int>, pick: Pick, p: seq<int>, was: Stretched)
    requires Accepts(kind, i) && i <= |p| && i <= 255 && AllStretched(p) && CellsOk(kind, cm)
    ensures var r, c := Predicted(t, kind, i, cm, pick, p, was), CellOf(kind, pick.row);
      match kind
      case CONS(_) => r == was
      case CM(_, _) => c < |cm| && Stretches(t, cm[c], 0x2_0000, r)
      case ICM(_) => c < |cm| && Stretches(t, cm[c], 0x100, r)
      case MATCH(_, _) => r == PredictMatch(t, pick.len, pick.bit)
      case AVG(j, k, wt) => IsFloor(p[j] * wt + p[k] * (256 - wt), 256, r)
      case MIX2(_, j, k, _, _) => c < |cm| && IsFloor(cm[c] * p[j] + (65536 - cm[c]) * p[k], 65536, r)
      case MIX(_, j, m, _, _) => c + m <= |cm| && Moves(0, Dot(cm[c..c + m], p[j..j + m], m), 256, -2048, 2047, r)
      case ISSE(_, j) => c + 1 < |cm| && Moves(0, cm[c] * p[j] + cm[c + 1] * 64, 65536, -2048, 2047, r)
      case SSE(_, j, _, _) => SseMixes(t, cm, c, p[j], r)
  {
    hide Pow2, CellOf, IsNearest, Moves, Stretches, SseMixes, SsePlace, PredictMatch, IsFloor, Dot;
    CellOfWithin(kind, pick.row);
    if kind.CM? || kind.ICM? {
      var c, d := CellOf(kind, pick.row), if kind.CM? then 0x2_0000 else 0x100;
      StretchesIs(t, cm[c], d, Predicted(t, kind, i, cm, pick, p, was));
    } else if kind.SSE? {
      SseMixed(t, kind, i, cm, pick, p, was);
    }
  }

  lemma SseMixed(t: Tables, kind: Kind, i: nat, cm: seq<int>, pick: Pick, p: seq<int>, was: Stretched)
    requires Accepts(kind, i) && i <= |p| && i <= 255 && AllStretched(p) && CellsOk(kind, cm) && kind.SSE?
    ensures SseMixes(t, cm, CellOf(kind, pick.row), p[kind.j], Predicted(t, kind, i, cm, pick, p, was))
  {
    hide Pow2, IsNearest, Stretches, SsePlace, SseAt, PredictSse;
    SseCells(t, kind, i, cm, pick, p, was);
    forall q: nat, w: nat | q <= 30 && w < 64 && SseAt(p[kind.j], q, w)
      ensures SsePlace(p[kind.j]) == (q, w)
    {
      OnePlace(p[kind.j], q, w);
    }
  }

  /** An SSE's prediction mixes the two cells of the row between which the input falls. */
  ghost predicate SseMixes(t: Tables, cm: seq<int>, c: nat, a: Stretched, r: Stretched) {
    && |cm| >= 32
    && forall q: nat, w: nat | q <= 30 && w < 64 && SseAt(a, q, w) ::
         Stretches(t, cm[(c + q) % |cm|] / 0x400 * (64 - w) + cm[(c + q + 1) % |cm|] / 0x400 * w, 0x2000, r)
  }

  predicate SseAt(a: Stretched, q: nat, w: nat) {
    IsNearest(a + 992, 0, 1983, 64 * q + w)
  }

  lemma OnePlace(a: Stretched, q: nat, w: nat)
    requires q <= 30 && w < 64 && SseAt(a, q, w)
    ensures SsePlace(a) == (q, w)
  {
  }

  /** Each component's table r after training: how far the trained cells move, and that the others
      stay. */
  ghost predicate TrainsTo(t: Tables, kind: Kind, cm: seq<int>, cxt: nat, p: seq<int>, guess: Squashed, y: bool, r: seq<int>)
    requires |r| == |cm| && AllStretched(p)
  {
    var off := (if y then 32767 else 0) - guess;
    match kind
    case CONS(_) => r == cm
    case MATCH(_, _) => r == cm
    case AVG(_, _, _) => r == cm
    case CM(_, limit) => cxt < |cm| && CellCounts(cm, r, cxt, limit * 4, y)
    case SSE(_, _, _, limit) => |cm| > 0 && CellCounts(cm, r, cxt % |cm|, limit * 4, y)
    case ICM(_) =>
      && cxt < |cm| && r == cm[cxt := r[cxt]]
      && IsFloor((if y then 32767 else 0) - cm[cxt] / 0x100, 4, r[cxt] - cm[cxt])
    case MIX2(_, j, k, rate, _) =>
      && cxt < |cm| && j < |p| && k < |p| && r == cm[cxt := r[cxt]]
      && forall err: int | IsFloor(off * rate, 32, err) ::
           Moves(cm[cxt], err * (p[j] - p[k]) + 4096, 8192, 0, 65535, r[cxt])
    case ISSE(_, j) =>
      && cxt + 1 < |cm| && j < |p| && r == cm[cxt := r[cxt]][cxt + 1 := r[cxt + 1]]
      && Moves(cm[cxt], off * p[j] + 4096, 8192, -0x8_0000, 0x7_FFFF, r[cxt])
      && Moves(cm[cxt + 1], off + 16, 32, -0x8_0000, 0x7_FFFF, r[cxt + 1])
    case MIX(_, j, m, rate, _) =>
      && cxt + m <= |cm| && j + m <= |p|
      && forall err: int | IsFloor(off * rate, 16, err) :: RowMoves(cm, r, cxt, m, p[j..j + m], err)
  }

  /** A counted cell moves by its error at the rate of its count, and the count goes up to the limit. */
  ghost predicate CellCounts(cm: seq<int>, r: seq<int>, c: nat, limit: nat, y: bool)
    requires c < |cm| == |r|
  {
    && r == cm[c := r[c]]
    && r[c] % 0x400 == (if cm[c] % 0x400 < limit then cm[c] % 0x400 + 1 else cm[c] % 0x400)
    && IsFloor(((if y then 32767 else 0) - cm[c] / 0x2_0000) * Rate(cm[c] % 0x400), 0x400, r[c] / 0x400 - cm[c] / 0x400)
  }

  lemma TrainedExactly(t: Tables, kind: Kind, i: nat, cm: seq<int>, cxt: nat, p: seq<int>, y: bool)
    requires Accepts(kind, i) && i < |p| && AllStretched(p) && CellsOk(kind, cm)
    requires !kind.SSE? ==> IsCell(kind, cxt)
    ensures TrainsTo(t, kind, cm, cxt, p, t.squash(p[i]), y, Trained(t, kind, i, cm, cxt, p, y))
  {
    hide Trained, CellsOk, IsCell, Moves, CellCounts, RowMoves, IsFloor, Cells, CellOk, TrainsTo;
    match kind
    case CM(_, _) => CounterTrained(t, kind, i, cm, cxt, p, y);
    case SSE(_, _, _, _) => SseTrained(t, kind, i, cm, cxt, p, y);
    case ICM(_) => IcmTrained(t, kind, i, cm, cxt, p, y);
    case ISSE(_, _) => IsseTrained(t, kind, i, cm, cxt, p, y);
    case MIX2(_, _, _, _, _) => Mix2Trained(t, kind, i, cm, cxt, p, y);
    case MIX(_, _, _, _, _) => MixTrained(t, kind, i, cm, cxt, p, y);
    case _ => NotTrained(t, kind, i, cm, cxt, p, y);
  }

  lemma NotTrained(t: Tables, kind: Kind, i: nat, cm: seq<int>, cxt: nat, p: seq<int>, y: bool)
    requires Accepts(kind, i) && i < |p| && AllStretched(p) && CellsOk(kind, cm)
    requires (kind.CONS? || kind.MATCH? || kind.AVG?) && IsCell(kind, cxt)
    ensures TrainsTo(t, kind, cm, cxt, p, t.squash(p[i]), y, Trained(t, kind, i, cm, cxt, p, y))
  {
  }

  lemma CounterTrained(t: Tables, kind: Kind, i: nat, cm: seq<int>, cxt: nat, p: seq<int>, y: bool)
    requires Accepts(kind, i) && i < |p| && AllStretched(p) && CellsOk(kind, cm)
    requires kind.CM? && IsCell(kind, cxt)
    ensures TrainsTo(t, kind, cm, cxt, p, t.squash(p[i]), y, Trained(t, kind, i, cm, cxt, p, y))
  {
    hide TrainCounted, IsFloor, CellsOk, IsCell, Cells, Rate;
    AllCellsOk(kind, cm);
    TrainedCells(kind, cm, cxt);
  }

  lemma SseTrained(t: Tables, kind: Kind, i: nat, cm: seq<int>, cxt: nat, p: seq<int>, y: bool)
    requires Accepts(kind, i) && i < |p| && AllStretched(p) && CellsOk(kind, cm)
    requires kind.SSE?
    ensures TrainsTo(t, kind, cm, cxt, p, t.squash(p[i]), y, Trained(t, kind, i, cm, cxt, p, y))
  {
    hide TrainCounted, IsFloor, CellsOk, IsCell, Rate;
    AllCellsOk(kind, cm);
    TrainedCells(kind, cm, cxt);
  }

  lemma IcmTrained(t: Tables, kind: Kind, i: nat, cm: seq<int>, cxt: nat, p: seq<int>, y: bool)
    requires Accepts(kind, i) && i < |p| && AllStretched(p) && CellsOk(kind, cm)
    requires kind.ICM? && IsCell(kind, cxt)
    ensures TrainsTo(t, kind, cm, cxt, p, t.squash(p[i]), y, Trained(t, kind, i, cm, cxt, p, y))
  {
    hide TrainIcm, IsFloor, CellsOk, IsCell, Cells;
    AllCellsOk(kind, cm);
    TrainedCells(kind, cm, cxt);
  }

  lemma IsseTrained(t: Tables, kind: Kind, i: nat, cm: seq<int>, cxt: nat, p: seq<int>, y: bool)
    requires Accepts(kind, i) && i < |p| && AllStretched(p) && CellsOk(kind, cm)
    requires kind.ISSE? && IsCell(kind, cxt)
    ensures TrainsTo(t, kind, cm, cxt, p, t.squash(p[i]), y, Trained(t, kind, i, cm, cxt, p, y))
  {
    hide TrainMix, TrainBias, Error, Moves, CellsOk, IsCell, Cells;
    AllCellsOk(kind, cm);
    TrainedCells(kind, cm, cxt);
    ErrorIs(y, t.squash(p[i]), 1);
  }

  lemma Mix2Trained(t: Tables, kind: Kind, i: nat, cm: seq<int>, cxt: nat, p: seq<int>, y: bool)
    requires Accepts(kind, i) && i < |p| && AllStretched(p) && CellsOk(kind, cm)
    requires kind.MIX2? && IsCell(kind, cxt)
    ensures TrainsTo(t, kind, cm, cxt, p, t.squash(p[i]), y, Trained(t, kind, i, cm, cxt, p, y))
  {
    hide TrainMix2, Error, CellsOk, Moves, IsFloor, IsCell, Cells;
    AllCellsOk(kind, cm);
    TrainedCells(kind, cm, cxt);
    ErrorIs(y, t.squash(p[i]), kind.rate);
    FloorsAre(Error(y, t.squash(p[i]), kind.rate), 32);
  }

  lemma MixTrained(t: Tables, kind: Kind, i: nat, cm: seq<int>, cxt: nat, p: seq<int>, y: bool)
    requires Accepts(kind, i) && i < |p| && AllStretched(p) && CellsOk(kind, cm)
    requires kind.MIX? && IsCell(kind, cxt)
    ensures TrainsTo(t, kind, cm, cxt, p, t.squash(p[i]), y, Trained(t, kind, i, cm, cxt, p, y))
  {
    hide TrainRow, Error, CellsOk, RowMoves, IsFloor, IsCell, Cells;
    AllCellsOk(kind, cm);
    TrainedCells(kind, cm, cxt);
    ErrorIs(y, t.squash(p[i]), kind.rate);
    FloorsAre(Error(y, t.squash(p[i]), kind.rate), 16);
    RowIsTrained(cm, cxt, kind.m, Error(y, t.squash(p[i]), kind.rate) / 16, p[kind.j..kind.j + kind.m]);
  }

  lemma ErrorIs(y: bool, guess: Squashed, rate: byte)
    ensures Error(y, guess, rate) == ((if y then 32767 else 0) - guess) * rate
  {
  }

  lemma AllCellsOk(kind: Kind, cm: seq<int>)
    requires CellsOk(kind, cm)
    ensures |cm| == Cells(kind) && forall i | 0 <= i < |cm| :: CellOk(kind, cm[i])
  {
  }

  /** The weights of a mixer's row move each by its own input, and no other does. */
  ghost predicate RowMoves(cm: seq<int>, r: seq<int>, cxt: nat, m: nat, inputs: seq<int>, err: int)
    requires cxt + m <= |cm| == |r| && |inputs| == m
  {
    forall x: nat | x < |cm| ::
      if cxt <= x < cxt + m then Moves(cm[x], err * inputs[x - cxt] + 4096, 8192, -0x8_0000, 0x7_FFFF, r[x])
      else r[x] == cm[x]
  }

  lemma RowIsTrained(cm: seq<int>, cxt: nat, m: nat, err: int32, inputs: seq<int>)
    requires cxt + m <= |cm| && |inputs| == m && AllWeights(cm) && AllStretched(inputs)
    requires -0x8_0000 <= err <= 0x8_0000
    ensures RowMoves(cm, TrainRow(cm, cxt, m, err, inputs), cxt, m, inputs, err)
  {
    hide TrainMix, Moves;
  }

  lemma TrainedCells(kind: Kind, cm: seq<int>, cxt: nat)
    requires |cm| == Cells(kind) && (!kind.SSE? ==> IsCell(kind, cxt))
    ensures (kind.CM? || kind.ICM? || kind.MIX2?) ==> cxt < |cm|
    ensures kind.ISSE? ==> cxt + 1 < |cm|
    ensures kind.MIX? ==> cxt + kind.m <= |cm|
  {
    if !kind.SSE? {
      var row: nat :| cxt == CellOf(kind, row);
      CellOfWithin(kind, row);
    }
  }

  lemma FloorsAre(num: int, d: int)
    requires d > 0
    ensures forall q: int | IsFloor(num, d, q) :: q == num / d
  {
    forall q: int | IsFloor(num, d, q)
      ensures q == num / d
    {
      FloorUnique(num, d, q);
    }
  }

  // ---- Training moves predictions towards the bit ----

  /** b lies at a or from it towards bit y. */
  predicate Towards(a: int, b: int, y: bool) {
    if y then b >= a else b <= a
  }

  /** The step of a weight has the sign of the error times the input. */
  lemma WeightTowards(w: Weight, err: int32, a: Stretched, y: bool)
    requires -0x8_0000 <= err <= 0x8_0000 && Towards(0, err, y)
    ensures Towards(w * a, TrainMix(w, err, a) * a, y)
    ensures Towards(w / 256 * a, TrainMix(w, err, a) / 256 * a, y)
  {
    var r := TrainMix(w, err, a);
    assert Moves(w, err * a + 0x1000, 0x2000, -0x8_0000, 0x7_FFFF, r);
    FloorOf(err * a + 0x1000, 0x2000);
    SignOf(err, a, y);
    ScaledBy(w, r, a, y);
    ScaledBy(w / 256, r / 256, a, y);
  }

  lemma SignOf(err: int, a: int, y: bool)
    requires Towards(0, err, y)
    ensures if (a >= 0) == y then err * a >= 0 else err * a <= 0
  {
    if a >= 0 {
      MulOrder(a, if y then 0 else err, if y then err else 0);
    } else {
      MulOrder(-a, if y then 0 else err, if y then err else 0);
    }
  }

  lemma ScaledBy(w: int, r: int, a: int, y: bool)
    requires if (a >= 0) == y then w <= r else r <= w
    ensures Towards(w * a, r * a, y)
  {
    if a >= 0 {
      MulOrder(a, if y then w else r, if y then r else w);
    } else {
      MulOrder(-a, if y then r else w, if y then w else r);
    }
  }

  /** With the same inputs, the sum over a trained row lies towards the bit. */
  lemma {:induction false} DotTowards(wt: seq<int>, trained: seq<int>, p: seq<int>, err: int32, n: nat, y: bool)
    requires n <= |wt| == |trained| <= 255 && |wt| <= |p| && AllWeights(wt) && AllWeights(trained) && AllStretched(p)
    requires -0x8_0000 <= err <= 0x8_0000 && Towards(0, err, y)
    requires forall x: nat | x < n :: trained[x] == TrainMix(wt[x], err, p[x])
    ensures Towards(Dot(wt, p, n), Dot(trained, p, n), y)
  {
    if n > 0 {
      DotTowards(wt, trained, p, err, n - 1, y);
      WeightTowards(wt[n - 1], err, p[n - 1], y);
      FloorOf(wt[n - 1], 256);
      FloorOf(trained[n - 1], 256);
    }
  }

  lemma ErrorTowards(t: Tables, y: bool, guess: Squashed, rate: byte, d: nat)
    requires d > 0
    ensures Towards(0, Error(y, guess, rate), y) && Towards(0, Error(y, guess, rate) / d, y)
  {
    var e := Error(y, guess, rate);
    FloorOf(e, d);
    if y {
      QuotientSign(e, d);
    } else {
      QuotientSign(-e, d);
      NegativeSign(e, d);
    }
  }

  lemma QuotientSign(e: int, d: int)
    requires e >= 0 && d > 0
    ensures e / d >= 0
  {
    if e / d < 0 {
      FloorOf(e, d);
      MulOrder(d, e / d + 1, 0);
    }
  }

  lemma NegativeSign(e: int, d: int)
    requires e <= 0 && d > 0
    ensures e / d <= 0
  {
    FloorOf(e, d);
    if e / d > 0 {
      MulOrder(d, 1, e / d);
    }
  }

  lemma FloorTowards(a: int, b: int, d: int, y: bool)
    requires d > 0 && Towards(a, b, y)
    ensures Towards(a / d, b / d, y)
  {
    var lo, hi := if y then a else b, if y then b else a;
    FloorOf(lo, d);
    FloorOf(hi, d);
    if hi / d < lo / d {
      MulOrder(d, hi / d + 1, lo / d);
    }
  }

  lemma ClampTowards(a: int, b: int, y: bool)
    requires Towards(a, b, y)
    ensures Towards(Clamp2k(a), Clamp2k(b), y)
  {
  }

  lemma Mix2Towards(w: int, err: int32, a: Stretched, b: Stretched, y: bool)
    requires 0 <= w <= 65535 && -0x4_0000 <= err <= 0x4_0000 && Towards(0, err, y)
    ensures Towards(PredictMix2(a, b, w), PredictMix2(a, b, TrainMix2(w, err, a, b)), y)
  {
    var r := TrainMix2(w, err, a, b);
    assert Moves(w, err * (a - b) + 0x1000, 0x2000, 0, 65535, r);
    FloorOf(err * (a - b) + 0x1000, 0x2000);
    SignOf(err, a - b, y);
    ScaledBy(w, r, a - b, y);
    assert w * a + (65536 - w) * b == 65536 * b + w * (a - b);
    assert r * a + (65536 - r) * b == 65536 * b + r * (a - b);
  }

  lemma IsseTowards(w0: Weight, w1: Weight, err: int32, a: Stretched, y: bool)
    requires -0x8_0000 <= err <= 0x8_0000 && Towards(0, err, y)
    ensures Towards(PredictIsse(w0, w1, a), PredictIsse(TrainMix(w0, err, a), TrainBias(w1, err), a), y)
  {
    var r0: int, r1: int := TrainMix(w0, err, a), TrainBias(w1, err);
    WeightTowards(w0, err, a, y);
    assert Moves(w1, err + 16, 32, -0x8_0000, 0x7_FFFF, r1);
    FloorOf(err + 16, 32);
    assert Towards(w1, r1, y);
    hide TrainMix, TrainBias, Moves, PredictIsse;
    IsseOf(w0, w1, a);
    IsseOf(r0, r1, a);
    FloorTowards(w0 * a + w1 * 64, r0 * a + r1 * 64, 65536, y);
    ClampTowards((w0 * a + w1 * 64) / 65536, (r0 * a + r1 * 64) / 65536, y);
  }

  lemma IsseOf(w0: Weight, w1: Weight, a: Stretched)
    ensures PredictIsse(w0, w1, a) == Clamp2k((w0 * a + w1 * 64) / 65536)
  {
  }

  lemma SseTowards(t: Tables, x: uint32, x': uint32, z: uint32, z': uint32, w: nat, y: bool)
    requires Rising(t) && w < 64 && Towards(x / 0x400, x' / 0x400, y) && Towards(z / 0x400, z' / 0x400, y)
    ensures Towards(PredictSse(t, x, z, w), PredictSse(t, x', z', w), y)
  {
    var a, b, a', b' := x / 0x400, z / 0x400, x' / 0x400, z' / 0x400;
    ScaledBy(a, a', 64 - w, y);
    ScaledBy(b, b', w, y);
    SseBounds(a, b, w);
    SseBounds(a', b', w);
    FloorTowards(a * (64 - w) + b * w, a' * (64 - w) + b' * w, 0x2000, y);
  }

  /** With the same row and the same inputs, a component that has been trained on a bit predicts it
      with no smaller probability than before. */
  lemma LearnsTowardsBit(t: Tables, kind: Kind, i: nat, cm: seq<int>, pick: Pick, p: seq<int>, was: Stretched, y: bool)
    requires Rising(t) && Accepts(kind, i) && i < |p| && i <= 255 && AllStretched(p) && CellsOk(kind, cm)
    ensures !kind.SSE? ==> IsCell(kind, Saved(kind, pick, p))
    ensures var now := Trained(t, kind, i, cm, Saved(kind, pick, p), p, y);
      && CellsOk(kind, now)
      && Towards(Predicted(t, kind, i, cm, pick, p, was), Predicted(t, kind, i, now, pick, p, was), y)
  {
    hide Trained, Predicted, CellsOk, Saved, IsCell, Rising;
    SavedIsCell(kind, pick, p);
    TrainedOk(t, kind, i, cm, Saved(kind, pick, p), p, y);
    match kind
    case CM(_, _) => CounterLearns(t, kind, i, cm, pick, p, was, y);
    case ICM(_) => IcmLearns(t, kind, i, cm, pick, p, was, y);
    case MIX2(_, _, _, _, _) => Mix2Learns(t, kind, i, cm, pick, p, was, y);
    case MIX(_, _, _, _, _) => MixLearns(t, kind, i, cm, pick, p, was, y);
    case ISSE(_, _) => IsseLearns(t, kind, i, cm, pick, p, was, y);
    case SSE(_, _, _, _) => SseLearns(t, kind, i, cm, pick, p, was, y);
    case _ => NothingToLearn(t, kind, i, cm, pick, p, was, y);
  }

  lemma NothingToLearn(t: Tables, kind: Kind, i: nat, cm: seq<int>, pick: Pick, p: seq<int>, was: Stretched, y: bool)
    requires Accepts(kind, i) && i < |p| && i <= 255 && AllStretched(p) && CellsOk(kind, cm)
    requires (kind.CONS? || kind.MATCH? || kind.AVG?) && IsCell(kind, Saved(kind, pick, p))
    requires CellsOk(kind, Trained(t, kind, i, cm, Saved(kind, pick, p), p, y))
    ensures var now := Trained(t, kind, i, cm, Saved(kind, pick, p), p, y);
      Towards(Predicted(t, kind, i, cm, pick, p, was), Predicted(t, kind, i, now, pick, p, was), y)
  {
  }

  lemma CounterLearns(t: Tables, kind: Kind, i: nat, cm: seq<int>, pick: Pick, p: seq<int>, was: Stretched, y: bool)
    requires Accepts(kind, i) && i < |p| && i <= 255 && AllStretched(p) && CellsOk(kind, cm)
    requires Rising(t) && kind.CM? && IsCell(kind, Saved(kind, pick, p))
    requires CellsOk(kind, Trained(t, kind, i, cm, Saved(kind, pick, p), p, y))
    ensures var now := Trained(t, kind, i, cm, Saved(kind, pick, p), p, y);
      Towards(Predicted(t, kind, i, cm, pick, p, was), Predicted(t, kind, i, now, pick, p, was), y)
  {
    hide TrainCounted, CellsOk, IsCell, Cells, CellOf, Rising, Pow2;
    AllCellsOk(kind, cm);
    CellOfWithin(kind, pick.row);
    CountTowards(t, cm[CellOf(kind, pick.row)], kind.limit * 4, y);
  }

  lemma CountTowards(t: Tables, pn: uint32, limit: nat, y: bool)
    requires Rising(t) && limit <= 1020
    ensures var r := TrainCounted(pn, limit, y);
      Towards(pn / 0x400, r / 0x400, y) && Towards(t.stretch(pn / 0x2_0000), t.stretch(r / 0x2_0000), y)
  {
    var r := TrainCounted(pn, limit, y);
    hide TrainCounted, IsFloor;
    assert pn / 0x2_0000 == pn / 0x400 / 0x80 && r / 0x2_0000 == r / 0x400 / 0x80;
  }

  lemma IcmLearns(t: Tables, kind: Kind, i: nat, cm: seq<int>, pick: Pick, p: seq<int>, was: Stretched, y: bool)
    requires Accepts(kind, i) && i < |p| && i <= 255 && AllStretched(p) && CellsOk(kind, cm)
    requires Rising(t) && kind.ICM? && IsCell(kind, Saved(kind, pick, p))
    requires CellsOk(kind, Trained(t, kind, i, cm, Saved(kind, pick, p), p, y))
    ensures var now := Trained(t, kind, i, cm, Saved(kind, pick, p), p, y);
      Towards(Predicted(t, kind, i, cm, pick, p, was), Predicted(t, kind, i, now, pick, p, was), y)
  {
    hide TrainIcm, CellsOk, IsCell, Cells;
    AllCellsOk(kind, cm);
    CellOfWithin(kind, pick.row);
  }

  lemma Mix2Learns(t: Tables, kind: Kind, i: nat, cm: seq<int>, pick: Pick, p: seq<int>, was: Stretched, y: bool)
    requires Accepts(kind, i) && i < |p| && i <= 255 && AllStretched(p) && CellsOk(kind, cm)
    requires kind.MIX2? && IsCell(kind, Saved(kind, pick, p))
    requires CellsOk(kind, Trained(t, kind, i, cm, Saved(kind, pick, p), p, y))
    ensures var now := Trained(t, kind, i, cm, Saved(kind, pick, p), p, y);
      Towards(Predicted(t, kind, i, cm, pick, p, was), Predicted(t, kind, i, now, pick, p, was), y)
  {
    hide TrainMix2, PredictMix2, Error, CellsOk, IsCell, Cells;
    AllCellsOk(kind, cm);
    CellOfWithin(kind, pick.row);
    ErrorTowards(t, y, t.squash(p[i]), kind.rate, 32);
    var c := CellOf(kind, pick.row);
    Mix2Towards(cm[c], Error(y, t.squash(p[i]), kind.rate) / 32, p[kind.j], p[kind.k], y);
  }

  lemma IsseLearns(t: Tables, kind: Kind, i: nat, cm: seq<int>, pick: Pick, p: seq<int>, was: Stretched, y: bool)
    requires Accepts(kind, i) && i < |p| && i <= 255 && AllStretched(p) && CellsOk(kind, cm)
    requires kind.ISSE? && IsCell(kind, Saved(kind, pick, p))
    requires CellsOk(kind, Trained(t, kind, i, cm, Saved(kind, pick, p), p, y))
    ensures var now := Trained(t, kind, i, cm, Saved(kind, pick, p), p, y);
      Towards(Predicted(t, kind, i, cm, pick, p, was), Predicted(t, kind, i, now, pick, p, was), y)
  {
    hide TrainMix, TrainBias, PredictIsse, Error, CellsOk, IsCell, Cells;
    AllCellsOk(kind, cm);
    CellOfWithin(kind, pick.row);
    ErrorTowards(t, y, t.squash(p[i]), 1, 1);
    ErrorIs(y, t.squash(p[i]), 1);
    var c := CellOf(kind, pick.row);
    IsseTowards(cm[c], cm[c + 1], Error(y, t.squash(p[i]), 1), p[kind.j], y);
  }

  /** The row of weights that a mixer reads and trains. */
  lemma MixRow(t: Tables, kind: Kind, i: nat, cm: seq<int>, pick: Pick, p: seq<int>, was: Stretched)
    requires Accepts(kind, i) && i <= |p| && i <= 255 && AllStretched(p) && CellsOk(kind, cm) && kind.MIX?
    ensures var c, m := CellOf(kind, pick.row), kind.m;
      && c + m <= |cm| && kind.j + m <= |p| && m <= 255 && AllWeights(cm)
      && Saved(kind, pick, p) == c
      && Predicted(t, kind, i, cm, pick, p, was) == Clamp2k(Dot(cm[c..c + m], p[kind.j..kind.j + m], m) / 256)
  {
    hide Dot, CellOf, Pow2;
    CellOfWithin(kind, pick.row);
  }

  lemma MixIsTrained(t: Tables, kind: Kind, i: nat, cm: seq<int>, cxt: nat, p: seq<int>, y: bool)
    requires Accepts(kind, i) && i < |p| && AllStretched(p) && CellsOk(kind, cm)
    requires kind.MIX? && IsCell(kind, cxt)
    ensures cxt + kind.m <= |cm| && kind.j + kind.m <= |p| && AllWeights(cm)
    ensures Trained(t, kind, i, cm, cxt, p, y)
      == TrainRow(cm, cxt, kind.m, Error(y, t.squash(p[i]), kind.rate) / 16, p[kind.j..kind.j + kind.m])
  {
    hide TrainRow, Error, Cells;
    TrainedCells(kind, cm, cxt);
  }

  lemma MixLearns(t: Tables, kind: Kind, i: nat, cm: seq<int>, pick: Pick, p: seq<int>, was: Stretched, y: bool)
    requires Accepts(kind, i) && i < |p| && i <= 255 && AllStretched(p) && CellsOk(kind, cm)
    requires kind.MIX? && IsCell(kind, Saved(kind, pick, p))
    requires CellsOk(kind, Trained(t, kind, i, cm, Saved(kind, pick, p), p, y))
    ensures var now := Trained(t, kind, i, cm, Saved(kind, pick, p), p, y);
      Towards(Predicted(t, kind, i, cm, pick, p, was), Predicted(t, kind, i, now, pick, p, was), y)
  {
    hide TrainMix, Dot, Error, CellsOk, IsCell, Cells, CellOf, Predicted, Trained, Saved, Clamp2k;
    var c, m, inputs := CellOf(kind, pick.row), kind.m, p[kind.j..kind.j + kind.m];
    MixRow(t, kind, i, cm, pick, p, was);
    MixIsTrained(t, kind, i, cm, c, p, y);
    var now := Trained(t, kind, i, cm, c, p, y);
    MixRow(t, kind, i, now, pick, p, was);
    ErrorTowards(t, y, t.squash(p[i]), kind.rate, 16);
    var row, trained := cm[c..c + m], now[c..c + m];
    DotTowards(row, trained, inputs, Error(y, t.squash(p[i]), kind.rate) / 16, m, y);
    FloorTowards(Dot(row, inputs, m), Dot(trained, inputs, m), 256, y);
    ClampTowards(Dot(row, inputs, m) / 256, Dot(trained, inputs, m) / 256, y);
  }

  /** The two cells that an SSE reads, and of them the one it trains. */
  lemma SseCells(t: Tables, kind: Kind, i: nat, cm: seq<int>, pick: Pick, p: seq<int>, was: Stretched)
    requires Accepts(kind, i) && i <= |p| && i <= 255 && AllStretched(p) && CellsOk(kind, cm) && kind.SSE?
    ensures var n, place := |cm|, SsePlace(p[kind.j]);
      && n > 0
      && var c := CellOf(kind, pick.row) + place.0;
         && 0 <= cm[c % n] < 0x1_0000_0000 && 0 <= cm[(c + 1) % n] < 0x1_0000_0000
         && Predicted(t, kind, i, cm, pick, p, was) == PredictSse(t, cm[c % n], cm[(c + 1) % n], place.1)
         && (Saved(kind, pick, p) == if place.1 < 32 then c else c + 1)
  {
    hide PredictSse, Pow2, IsNearest, SsePlace, CellOf;
    CellOfWithin(kind, pick.row);
  }

  lemma SseLearns(t: Tables, kind: Kind, i: nat, cm: seq<int>, pick: Pick, p: seq<int>, was: Stretched, y: bool)
    requires Accepts(kind, i) && i < |p| && i <= 255 && AllStretched(p) && CellsOk(kind, cm)
    requires Rising(t) && kind.SSE?
    requires CellsOk(kind, Trained(t, kind, i, cm, Saved(kind, pick, p), p, y))
    ensures var now := Trained(t, kind, i, cm, Saved(kind, pick, p), p, y);
      Towards(Predicted(t, kind, i, cm, pick, p, was), Predicted(t, kind, i, now, pick, p, was), y)
  {
    hide TrainCounted, PredictSse, CellsOk, IsCell, CellOf, Rising, SsePlace, Pow2, Cells, IsNearest, Predicted, Saved;
    var now, n := Trained(t, kind, i, cm, Saved(kind, pick, p), p, y), |cm|;
    SseCells(t, kind, i, cm, pick, p, was);
    SseCells(t, kind, i, now, pick, p, was);
    var place := SsePlace(p[kind.j]);
    var c := CellOf(kind, pick.row) + place.0;
    var x, z := c % n, (c + 1) % n;
    CountTowards(t, cm[x], kind.limit * 4, y);
    CountTowards(t, cm[z], kind.limit * 4, y);
    SseTowards(t, cm[x], now[x], cm[z], now[z], place.1, y);
  }

  // ---- Before anything is learned ----

  /** What a component predicts as init leaves it: a counter nothing, a mixer of two their mean, a
      bit history what its counts say, an SSE its input's own probability, as if seen `start` times. */
  ghost predicate Neutral(t: Tables, kind: Kind, cm: seq<int>, pick: Pick, p: seq<int>, r: Stretched)
    requires AllStretched(p)
  {
    match kind
    case CM(_, _) => r == t.stretch(0x4000) && forall x | 0 <= x < |cm| :: cm[x] % 0x400 == 0
    case ICM(_) => Stretches(t, CmInit(t, pick.row % 256), 0x100, r)
    case MIX2(_, j, k, _, _) => j < |p| && k < |p| && IsFloor(p[j] + p[k], 2, r)
    case MIX(_, _, m, _, _) => forall x | 0 <= x < |cm| :: IsFloor(65536, m, cm[x])
    case ISSE(_, j) =>
      && j < |p|
      && exists bias: Weight ::
        && IsNearest(t.stretch(CmInit(t, pick.row % 256) / 0x100) * 1024, -0x8_0000, 0x7_FFFF, bias)
        && Moves(0, 0x8000 * p[j] + bias * 64, 65536, -2048, 2047, r)
    case SSE(_, j, start, _) =>
      && j < |p| && (forall x | 0 <= x < |cm| :: cm[x] % 0x400 == start)
      && forall q: nat, w: nat | q <= 30 && w < 64 && SseAt(p[j], q, w) ::
           Stretches(t, t.squash(64 * q - 992) * (64 - w) + t.squash(64 * q - 928) * w, 64, r)
    case _ => true
  }

  lemma UntrainedIsNeutral(t: Tables, kind: Kind, i: nat, pick: Pick, p: seq<int>, was: Stretched)
    requires Accepts(kind, i) && i <= |p| && i <= 255 && AllStretched(p)
    ensures var cm := InitialComponent(t, kind).cm;
      CellsOk(kind, cm) && Neutral(t, kind, cm, pick, p, Predicted(t, kind, i, cm, pick, p, was))
  {
    hide Predicted, InitialComponent, Neutral, CellsOk, IsCell;
    match kind
    case CM(_, _) => NeutralCounter(t, kind, i, pick, p, was);
    case ICM(_) => NeutralCounter(t, kind, i, pick, p, was);
    case MIX2(_, _, _, _, _) => NeutralMixer(t, kind, i, pick, p, was);
    case MIX(_, _, _, _, _) => NeutralMixer(t, kind, i, pick, p, was);
    case ISSE(_, _) => NeutralIsse(t, kind, i, pick, p, was);
    case SSE(_, _, _, _) => NeutralSse(t, kind, i, pick, p, was);
    case _ => NeutralOthers(t, kind, i, pick, p, was);
  }

  lemma InitialCells(t: Tables, kind: Kind)
    requires kind.MIX? ==> kind.m >= 1
    ensures var cm := InitialComponent(t, kind).cm;
      CellsOk(kind, cm) && |cm| == Cells(kind) && forall x | 0 <= x < |cm| :: cm[x] == InitialCell(t, kind, x)
  {
    hide Cells, InitialCell;
  }

  lemma NeutralOthers(t: Tables, kind: Kind, i: nat, pick: Pick, p: seq<int>, was: Stretched)
    requires Accepts(kind, i) && i <= |p| && i <= 255 && AllStretched(p)
    requires kind.CONS? || kind.MATCH? || kind.AVG?
    ensures var cm := InitialComponent(t, kind).cm;
      CellsOk(kind, cm) && Neutral(t, kind, cm, pick, p, Predicted(t, kind, i, cm, pick, p, was))
  {
    hide InitialComponent, CellsOk;
    InitialCells(t, kind);
    CellOfWithin(kind, pick.row);
  }

  lemma NeutralCounter(t: Tables, kind: Kind, i: nat, pick: Pick, p: seq<int>, was: Stretched)
    requires Accepts(kind, i) && i <= |p| && i <= 255 && AllStretched(p)
    requires kind.CM? || kind.ICM?
    ensures var cm := InitialComponent(t, kind).cm;
      CellsOk(kind, cm) && Neutral(t, kind, cm, pick, p, Predicted(t, kind, i, cm, pick, p, was))
  {
    hide InitialComponent, CellsOk, CmInit, Stretches;
    InitialCells(t, kind);
    CellOfWithin(kind, pick.row);
    if kind.ICM? {
      StretchesIs(t, CmInit(t, pick.row % 256), 0x100, t.stretch(CmInit(t, pick.row % 256) / 0x100));
    }
  }

  lemma NeutralMixer(t: Tables, kind: Kind, i: nat, pick: Pick, p: seq<int>, was: Stretched)
    requires Accepts(kind, i) && i <= |p| && i <= 255 && AllStretched(p)
    requires kind.MIX2? || kind.MIX?
    ensures var cm := InitialComponent(t, kind).cm;
      CellsOk(kind, cm) && Neutral(t, kind, cm, pick, p, Predicted(t, kind, i, cm, pick, p, was))
  {
    hide InitialComponent, CellsOk, Cells, Predicted, CellOf;
    InitialCells(t, kind);
    CellOfWithin(kind, pick.row);
    if kind.MIX? {
      FloorOf(65536, kind.m);
    } else {
      PredictedExactly(t, kind, i, InitialComponent(t, kind).cm, pick, p, was);
    }
  }

  lemma NeutralIsse(t: Tables, kind: Kind, i: nat, pick: Pick, p: seq<int>, was: Stretched)
    requires Accepts(kind, i) && i <= |p| && i <= 255 && AllStretched(p)
    requires kind.ISSE?
    ensures var cm := InitialComponent(t, kind).cm;
      CellsOk(kind, cm) && Neutral(t, kind, cm, pick, p, Predicted(t, kind, i, cm, pick, p, was))
  {
    hide InitialComponent, CellsOk, CmInit, Predicted, Moves, InitialCell;
    InitialCells(t, kind);
    CellOfWithin(kind, pick.row);
    PredictedExactly(t, kind, i, InitialComponent(t, kind).cm, pick, p, was);
    var state := pick.row % 256;
    IsseCells(t, kind, state);
  }

  lemma IsseCells(t: Tables, kind: Kind, state: nat)
    requires kind.ISSE? && state < 256
    ensures InitialCell(t, kind, state * 2) == 0x8000
    ensures InitialCell(t, kind, state * 2 + 1) == Clamp512k(t.stretch(CmInit(t, state) / 0x100) * 1024)
  {
    hide CmInit;
  }

  lemma SseCounts(t: Tables, kind: Kind)
    requires kind.SSE?
    ensures forall x: nat :: InitialCell(t, kind, x) % 0x400 == kind.start
  {
  }

  lemma NeutralSse(t: Tables, kind: Kind, i: nat, pick: Pick, p: seq<int>, was: Stretched)
    requires Accepts(kind, i) && i <= |p| && i <= 255 && AllStretched(p)
    requires kind.SSE?
    ensures var cm := InitialComponent(t, kind).cm;
      CellsOk(kind, cm) && Neutral(t, kind, cm, pick, p, Predicted(t, kind, i, cm, pick, p, was))
  {
    hide InitialComponent, CellsOk, Predicted, CellOf, Stretches, InitialCell, Pow2;
    InitialCells(t, kind);
    CellOfWithin(kind, pick.row);
    SseCounts(t, kind);
    var cm, c, a := InitialComponent(t, kind).cm, CellOf(kind, pick.row), p[kind.j];
    PredictedExactly(t, kind, i, cm, pick, p, was);
    var r := Predicted(t, kind, i, cm, pick, p, was);
    forall q: nat, w: nat | q <= 30 && w < 64 && SseAt(a, q, w)
      ensures Stretches(t, t.squash(64 * q - 992) * (64 - w) + t.squash(64 * q - 928) * w, 64, r)
    {
      RowCell(t, kind, pick, q);
      RowCell(t, kind, pick, q + 1);
      InSteps(t, t.squash(64 * q - 992), t.squash(64 * q - 928), w, r);
    }
  }

  /** Cell q of a fresh SSE's row holds the probability that its place stands for. */
  lemma RowCell(t: Tables, kind: Kind, pick: Pick, q: nat)
    requires kind.SSE? && q < 32
    ensures var cm, c := InitialComponent(t, kind).cm, CellOf(kind, pick.row);
      |cm| >= 32 && cm[(c + q) % |cm|] / 0x400 == t.squash(64 * q - 992) * 128
  {
    hide InitialComponent, CellsOk;
    InitialCells(t, kind);
    var rows, c := Pow2(kind.bits), CellOf(kind, pick.row);
    RowStart(pick.row, rows);
    var k := pick.row % rows;
    assert c + q == 32 * k + q < 32 * rows;
    ModUnique(c + q, 32 * rows, 0, c + q);
    ModUnique(c + q, 32, k, q);
  }

  lemma RowStart(row: nat, rows: nat)
    requires rows > 0
    ensures row * 32 % (rows * 32) == row % rows * 32 <= 32 * (rows - 1)
  {
    ModUnique(row * 32, rows * 32, row / rows, row % rows * 32);
  }

  lemma InSteps(t: Tables, a: Squashed, b: Squashed, w: nat, r: Stretched)
    requires w < 64 && Stretches(t, a * 128 * (64 - w) + b * 128 * w, 0x2000, r)
    ensures Stretches(t, a * (64 - w) + b * w, 64, r)
  {
    var n := a * (64 - w) + b * w;
    assert a * 128 * (64 - w) + b * 128 * w == 128 * n;
    forall q: int | IsFloor(n, 64, q)
      ensures IsFloor(128 * n, 0x2000, q)
    {
    }
  }

  // ---- Contexts ----

  /** How many rows a context selects from, and how many cells belong to a row. */
  function Rows(kind: Kind): nat {
    match kind
    case CM(bits, _) => Pow2(bits)
    case MIX2(bits, _, _, _, _) => Pow2(bits)
    case MIX(bits, _, _, _, _) => Pow2(bits)
    case SSE(bits, _, _, _) => Pow2(bits)
    case _ => 256
  }

  function RowLength(kind: Kind): nat {
    match kind
    case MIX(_, _, m, _, _) => m
    case ISSE(_, _) => 2
    case SSE(_, _, _, _) => 32
    case _ => 1
  }

  /** Two contexts that differ modulo the number of rows select rows that share no cell; the others
      select the same one. */
  lemma RowsApart(kind: Kind, row: nat, other: nat)
    requires !kind.CONS? && !kind.MATCH? && !kind.AVG?
    requires row % Rows(kind) <= other % Rows(kind)
    ensures if row % Rows(kind) == other % Rows(kind) then CellOf(kind, row) == CellOf(kind, other)
      else CellOf(kind, row) + RowLength(kind) <= CellOf(kind, other)
  {
    if kind.SSE? {
      RowStart(row, Pow2(kind.bits));
      RowStart(other, Pow2(kind.bits));
    } else if kind.MIX? {
      var a, b := row % Pow2(kind.bits), other % Pow2(kind.bits);
      if a < b {
        MulOrder(kind.m, a + 1, b);
        assert kind.m * (a + 1) == a * kind.m + kind.m;
      }
    }
  }

  /** Bits as a number, highest first. */
  function ValueOf(bits: seq<bool>): (v: nat)
    ensures v < Pow2(|bits|)
  {
    if bits == [] then 0 else 2 * ValueOf(bits[..|bits| - 1]) + (if bits[|bits| - 1] then 1 else 0)
  }

  /** A leading one and the bits. */
  function Marked(bits: seq<bool>): nat {
    Pow2(|bits|) + ValueOf(bits)
  }

  /** The context behind the first bits of a byte. */
  function ContextOf(bits: seq<bool>): Context {
    if bits == [] then START else NextContext(ContextOf(bits[..|bits| - 1]), bits[|bits| - 1])
  }

  lemma MarkedPush(bits: seq<bool>)
    requires bits != []
    ensures Marked(bits) == 2 * Marked(bits[..|bits| - 1]) + (if bits[|bits| - 1] then 1 else 0)
    ensures Pow2(|bits|) <= Marked(bits) < 2 * Pow2(|bits|)
  {
  }

  lemma MarkedBounds(bits: seq<bool>)
    ensures Pow2(|bits|) <= Marked(bits) < 2 * Pow2(|bits|)
  {
  }

  lemma MarkedNone()
    ensures Marked([]) == 1
  {
  }

  lemma NextByte(c: Context, y: bool)
    requires c.c8 >= 128
    ensures NextContext(c, y) == START
  {
  }

  lemma NextInFirst(m: nat, y: bool)
    requires 1 <= m < 8
    ensures var m' := 2 * m + (if y then 1 else 0); NextContext(Context(m, m), y) == Context(m', m')
  {
  }

  lemma NextToSecond(m: nat, y: bool)
    requires 8 <= m < 16
    ensures var m' := 2 * m + (if y then 1 else 0); NextContext(Context(m, m), y) == Context(m', m' * 16 + 1)
  {
  }

  lemma NextInSecond(m: nat, h: nat, l: nat, y: bool)
    requires 16 <= m < 128 && h < 32 && l < 8
    ensures var bit := if y then 1 else 0;
      NextContext(Context(m, h * 16 + l), y) == Context(2 * m + bit, h * 16 + (2 * l + bit))
  {
    Nibbles(h, l, 16);
  }

  /** Within a byte the context is a leading one and the bits so far, and in the second nibble also
      the two nibbles, each behind a leading one; behind the byte it is as at the start. */
  lemma {:induction false} ContextIsBits(bits: seq<bool>)
    requires |bits| <= 8
    ensures ContextOf(bits) ==
      if |bits| < 4 then Context(Marked(bits), Marked(bits))
      else if |bits| < 8 then Context(Marked(bits), Marked(bits[..4]) * 16 + Marked(bits[4..]))
      else START
    decreases |bits|
  {
    hide NextContext, Marked;
    SmallPowers();
    if bits == [] {
      MarkedNone();
    } else {
      var n := |bits| - 1;
      var before, y := bits[..n], bits[n];
      ContextIsBits(before);
      MarkedPush(bits);
      if n < 3 {
        NextInFirst(Marked(before), y);
      } else if n == 3 {
        assert bits[..4] == bits && bits[4..] == [];
        MarkedNone();
        NextToSecond(Marked(before), y);
      } else if n < 7 {
        var h, l := before[..4], before[4..];
        assert h == bits[..4] && l == bits[4..][..n - 4];
        MarkedPush(bits[4..]);
        MarkedBounds(h);
        MarkedBounds(l);
        NextInSecond(Marked(before), Marked(h), Marked(l), y);
      } else {
        MarkedBounds(before);
        NextByte(ContextOf(before), y);
      }
    }
  }

  lemma SmallPowers()
    ensures Pow2(0) == 1 && Pow2(1) == 2 && Pow2(2) == 4 && Pow2(3) == 8 && Pow2(4) == 16
    ensures Pow2(5) == 32 && Pow2(6) == 64 && Pow2(7) == 128 && Pow2(8) == 256
  {
  }
}
