/** CRC-32 (section 8 of RFC 1952): the bitwise definition, the generated tables, and the update
    that takes twelve bytes at a time. */
module Crc {
  const POLY: bv32 := 0xEDB8_8320

  function Sum(x: bv32, y: bv32): bv32 {
    x ^ y
  }

  function Down(r: bv32): bv32 {
    r >> 1
  }

  function Masked(r: bv32, m: bv32): bv32 {
    r & m
  }

  function LowByte(v: bv32): bv32 {
    v & 0xFF
  }

  function Shift8(v: bv32): bv32 {
    v >> 8
  }

  // ---- The definition ----

  /** The polynomial, if the lowest bit is set. */
  function Feedback(r: bv32): bv32 {
    if r & 1 == 1 then POLY else 0
  }

  /** The exponents of the generator polynomial below 32; the bit of the highest is the lowest. */
  const EXPONENTS := {0, 1, 2, 4, 5, 7, 8, 10, 11, 12, 16, 22, 23, 26}

  lemma PolyIsGenerator(e: nat)
    requires e < 32
    ensures (POLY >> (31 - e)) & 1 == 1 <==> e in EXPONENTS
  {
  }

  function Step(r: bv32): bv32 {
    Sum(Down(r), Feedback(r))
  }

  function Steps(r: bv32, n: nat): bv32
    decreases n
  {
    if n == 0 then r else Steps(Step(r), n - 1)
  }

  function Wide(b: bv8): bv32 {
    b as bv32
  }

  /** One byte, lowest bit first. */
  function CrcByte(v: bv32, b: bv8): bv32 {
    Steps(Sum(v, Wide(b)), 8)
  }

  function CrcBytes(v: bv32, data: seq<bv8>): bv32
    decreases |data|
  {
    if data == [] then v else CrcBytes(CrcByte(v, data[0]), data[1..])
  }

  /** The check value of CRC-32: the nine digits give this remainder. */
  lemma CheckValue()
    ensures CrcBytes(0xFFFF_FFFF, [0x31, 0x32, 0x33, 0x34, 0x35, 0x36, 0x37, 0x38, 0x39]) ^ 0xFFFF_FFFF == 0xCBF4_3926
  {
    hide CrcByte;
    Digits();
    var none: seq<bv8> := [];
    FirstByte(0xFFFF_FFFF, 0x31, [0x32, 0x33, 0x34, 0x35, 0x36, 0x37, 0x38, 0x39]);
    FirstByte(0x7C23_1048, 0x32, [0x33, 0x34, 0x35, 0x36, 0x37, 0x38, 0x39]);
    FirstByte(0xB0AC_BB32, 0x33, [0x34, 0x35, 0x36, 0x37, 0x38, 0x39]);
    FirstByte(0x77B7_9C2D, 0x34, [0x35, 0x36, 0x37, 0x38, 0x39]);
    FirstByte(0x641C_1F5C, 0x35, [0x36, 0x37, 0x38, 0x39]);
    FirstByte(0x340A_C5E3, 0x36, [0x37, 0x38, 0x39]);
    FirstByte(0xF68D_2C9E, 0x37, [0x38, 0x39]);
    FirstByte(0xAFFC_9660, 0x38, [0x39]);
    FirstByte(0x651F_2550, 0x39, none);
  }

  lemma FirstByte(v: bv32, b: bv8, rest: seq<bv8>)
    ensures CrcBytes(v, [b] + rest) == CrcBytes(CrcByte(v, b), rest)
  {
    assert ([b] + rest)[1..] == rest;
  }

  lemma Digits()
    ensures CrcByte(0xFFFF_FFFF, 0x31) == 0x7C23_1048
    ensures CrcByte(0x7C23_1048, 0x32) == 0xB0AC_BB32
    ensures CrcByte(0xB0AC_BB32, 0x33) == 0x77B7_9C2D
    ensures CrcByte(0x77B7_9C2D, 0x34) == 0x641C_1F5C
    ensures CrcByte(0x641C_1F5C, 0x35) == 0x340A_C5E3
    ensures CrcByte(0x340A_C5E3, 0x36) == 0xF68D_2C9E
    ensures CrcByte(0xF68D_2C9E, 0x37) == 0xAFFC_9660
    ensures CrcByte(0xAFFC_9660, 0x38) == 0x651F_2550
    ensures CrcByte(0x651F_2550, 0x39) == 0x340B_C6D9
  {
    EightSteps(Sum(0xFFFF_FFFF, Wide(0x31)));
    EightSteps(Sum(0x7C23_1048, Wide(0x32)));
    EightSteps(Sum(0xB0AC_BB32, Wide(0x33)));
    EightSteps(Sum(0x77B7_9C2D, Wide(0x34)));
    EightSteps(Sum(0x641C_1F5C, Wide(0x35)));
    EightSteps(Sum(0x340A_C5E3, Wide(0x36)));
    EightSteps(Sum(0xF68D_2C9E, Wide(0x37)));
    EightSteps(Sum(0xAFFC_9660, Wide(0x38)));
    EightSteps(Sum(0x651F_2550, Wide(0x39)));
  }

  lemma EightSteps(r: bv32)
    ensures Steps(r, 8) == Step(Step(Step(Step(Step(Step(Step(Step(r))))))))
  {
    hide Step;
  }

  lemma {:induction false} CrcAppend(v: bv32, a: seq<bv8>, b: seq<bv8>)
    ensures CrcBytes(v, a + b) == CrcBytes(CrcBytes(v, a), b)
    decreases |a|
  {
    hide CrcByte;
    if a == [] {
      assert a + b == b;
    } else {
      assert (a + b)[1..] == a[1..] + b;
      CrcAppend(CrcByte(v, a[0]), a[1..], b);
    }
  }

  // ---- Linearity ----

  lemma DownSum(x: bv32, y: bv32)
    ensures Down(Sum(x, y)) == Sum(Down(x), Down(y))
  {
  }

  lemma LowBitSum(x: bv32, y: bv32)
    ensures (x ^ y) & 1 == (x & 1) ^ (y & 1)
    ensures x & 1 == 0 || x & 1 == 1
    ensures y & 1 == 0 || y & 1 == 1
  {
  }

  lemma FeedbackSum(x: bv32, y: bv32)
    ensures Feedback(Sum(x, y)) == Sum(Feedback(x), Feedback(y))
  {
    LowBitSum(x, y);
  }

  lemma SumAssociates(a: bv32, b: bv32, c: bv32)
    ensures Sum(Sum(a, b), c) == Sum(a, Sum(b, c))
  {
  }

  lemma SumCommutes(a: bv32, b: bv32)
    ensures Sum(a, b) == Sum(b, a)
  {
  }

  lemma SumFour(a: bv32, b: bv32, c: bv32, d: bv32)
    ensures Sum(Sum(a, b), Sum(c, d)) == Sum(Sum(a, c), Sum(b, d))
  {
    hide Sum;
    SumAssociates(a, b, Sum(c, d));
    SumAssociates(b, c, d);
    SumCommutes(b, c);
    SumAssociates(c, b, d);
    SumAssociates(a, c, Sum(b, d));
  }

  lemma StepLinear(x: bv32, y: bv32)
    ensures Step(Sum(x, y)) == Sum(Step(x), Step(y))
  {
    hide Sum, Feedback, Down;
    DownSum(x, y);
    FeedbackSum(x, y);
    SumFour(Down(x), Down(y), Feedback(x), Feedback(y));
  }

  lemma {:induction false} StepsLinear(x: bv32, y: bv32, n: nat)
    ensures Steps(Sum(x, y), n) == Sum(Steps(x, n), Steps(y, n))
    decreases n
  {
    hide Sum, Step;
    if n > 0 {
      StepLinear(x, y);
      StepsLinear(Step(x), Step(y), n - 1);
    }
  }

  lemma {:induction false} StepsAdd(r: bv32, m: nat, n: nat)
    ensures Steps(r, m + n) == Steps(Steps(r, m), n)
    decreases m
  {
    hide Step;
    if m > 0 {
      StepsAdd(Step(r), m - 1, n);
    }
  }

  // ---- Shifts ----

  function Low(n: nat): bv32
    requires n <= 8
  {
    if n == 0 then 0 else if n == 1 then 1 else if n == 2 then 3 else if n == 3 then 7 else if n == 4 then 15
    else if n == 5 then 31 else if n == 6 then 63 else if n == 7 then 127 else 255
  }

  function Downs(r: bv32, n: nat): bv32
    decreases n
  {
    if n == 0 then r else Downs(Down(r), n - 1)
  }

  lemma DownMask(r: bv32, m: bv32)
    requires Masked(r, m) == 0
    ensures Masked(Down(r), Down(m)) == 0
  {
  }

  lemma LowDown(n: nat)
    requires 1 <= n <= 8
    ensures Down(Low(n)) == Low(n - 1) && Masked(Low(n), 1) == 1
  {
  }

  lemma EvenStep(r: bv32, m: bv32)
    requires Masked(r, m) == 0 && Masked(m, 1) == 1
    ensures Step(r) == Down(r)
  {
    assert r & 1 == 0;
  }

  predicate LowClear(r: bv32, n: nat)
    requires n <= 8
  {
    Masked(r, Low(n)) == 0
  }

  lemma ClearStep(r: bv32, n: nat)
    requires 1 <= n <= 8 && LowClear(r, n)
    ensures LowClear(Down(r), n - 1) && Step(r) == Down(r)
  {
    hide Low, Step, Masked, Down;
    LowDown(n);
    DownMask(r, Low(n));
    EvenStep(r, Low(n));
  }

  /** Without low bits, steps are shifts. */
  lemma {:induction false} StepsDown(r: bv32, n: nat)
    requires n <= 8 && LowClear(r, n)
    ensures Steps(r, n) == Downs(r, n)
    decreases n
  {
    hide LowClear, Step, Down;
    if n > 0 {
      ClearStep(r, n);
      StepsDown(Down(r), n - 1);
    }
  }

  lemma DownTwice(r: bv32)
    ensures Down(Down(r)) == r >> 2
    ensures (r >> 2) >> 2 == r >> 4
    ensures (r >> 4) >> 4 == r >> 8
  {
  }

  lemma DownEight(r: bv32)
    ensures Downs(r, 8) == Shift8(r)
  {
    DownTwice(r);
    DownTwice(r >> 2);
    DownTwice(r >> 4);
    DownTwice(r >> 6);
  }

  /** A byte that stands n bytes up comes down in 8 * n steps. */
  lemma StepsEight(r: bv32)
    requires LowByte(r) == 0
    ensures Steps(r, 8) == Shift8(r)
  {
    hide Step, Steps, Downs;
    assert LowClear(r, 8);
    StepsDown(r, 8);
    DownEight(r);
  }

  // ---- The tables ----

  const TABLES := 12

  /** Table k at b: the CRC of b followed by k zero bytes. */
  function Entry(b: bv32, k: nat): bv32 {
    Steps(b, 8 * (k + 1))
  }

  lemma {:induction false} EntryIsCrc(b: bv8, k: nat)
    ensures Entry(Wide(b), k) == CrcBytes(0, [b] + seq(k, _ => 0))
  {
    hide Step;
    var data := [b] + seq(k, _ => 0);
    ZeroSum(Wide(b));
    StepsAdd(Wide(b), 8, 8 * k);
    ZerosStep(CrcByte(0, b), k);
    assert data[1..] == seq(k, _ => 0);
  }

  lemma ZeroSum(x: bv32)
    ensures Sum(0, x) == x && Sum(x, 0) == x && Wide(0) == 0
  {
  }

  lemma {:induction false} ZerosStep(v: bv32, k: nat)
    ensures CrcBytes(v, seq(k, _ => 0)) == Steps(v, 8 * k)
    decreases k
  {
    hide Step, Sum, Wide;
    if k > 0 {
      ZeroSum(v);
      assert seq(k, _ => 0 as bv8)[1..] == seq(k - 1, _ => 0 as bv8);
      StepsAdd(v, 8, 8 * (k - 1));
      ZerosStep(Steps(v, 8), k - 1);
    }
  }

  function High(v: bv32): bv32 {
    v & 0xFFFF_FF00
  }

  lemma SplitLow(v: bv32)
    ensures Sum(High(v), LowByte(v)) == v
    ensures LowByte(High(v)) == 0 && Shift8(High(v)) == Shift8(v)
  {
  }

  /** The byte of v that leaves, through a table, and the rest shifted down. */
  lemma SplitSteps(v: bv32, n: nat)
    ensures Steps(v, 8 + n) == Sum(Steps(LowByte(v), 8 + n), Steps(Shift8(v), n))
  {
    hide Step, Steps, Sum, LowByte, Shift8, High;
    SplitLow(v);
    StepsEight(High(v));
    StepsAdd(High(v), 8, n);
    StepsLinear(High(v), LowByte(v), 8 + n);
    SumCommutes(Steps(High(v), 8 + n), Steps(LowByte(v), 8 + n));
  }

  // ---- Looking up ----

  const ROW := 256

  function ByteOf(i: nat): bv8 {
    (i % ROW) as bv8
  }

  function EntryAt(i: nat): bv32 {
    Entry(Wide(ByteOf(i)), i / ROW)
  }

  /** The first n entries are those of the tables. */
  ghost predicate Filled(t: seq<bv32>, n: nat) {
    n <= |t| && forall i: nat | i < n :: t[i] == EntryAt(i)
  }

  ghost predicate TablesOk(t: seq<bv32>) {
    |t| == ROW * TABLES && Filled(t, |t|)
  }

  function Index8(d: bv32): bv8 {
    (d & 0xFF) as bv8
  }

  /** Table k at the lowest byte of d. */
  function Lookup(t: seq<bv32>, k: nat, d: bv32): bv32
    requires |t| == ROW * TABLES && k < TABLES
  {
    t[ROW * k + (Index8(d) as int)]
  }

  lemma LowByteNarrow(d: bv32)
    ensures Wide(Index8(d)) == LowByte(d)
  {
  }

  lemma IndexOf(k: nat, b: bv8)
    ensures ByteOf(ROW * k + (b as int)) == b && (ROW * k + (b as int)) / ROW == k
  {
  }

  lemma LookupIs(t: seq<bv32>, k: nat, d: bv32)
    requires TablesOk(t) && k < TABLES
    ensures Lookup(t, k, d) == Entry(LowByte(d), k)
  {
    hide Entry, Wide, LowByte, Index8;
    LowByteNarrow(d);
    IndexOf(k, Index8(d));
  }

  /** CRC_UPDATE_BYTE. */
  function ByteStep(t: seq<bv32>, v: bv32, b: bv8): bv32
    requires |t| == ROW * TABLES
  {
    Sum(Lookup(t, 0, Sum(v, Wide(b))), Shift8(v))
  }

  lemma Shift8Ignores(v: bv32, b: bv8)
    ensures Shift8(Sum(v, Wide(b))) == Shift8(v)
  {
  }

  lemma ByteStepIs(t: seq<bv32>, v: bv32, b: bv8)
    requires TablesOk(t)
    ensures ByteStep(t, v, b) == CrcByte(v, b)
  {
    hide Step, Sum, Shift8, LowByte, Wide, TablesOk;
    var x := Sum(v, Wide(b));
    LookupIs(t, 0, x);
    SplitSteps(x, 0);
    Shift8Ignores(v, b);
  }

  /** The four lookups for a word that has 4 * n more bytes to go. */
  function Q(t: seq<bv32>, n: nat, d: bv32): bv32
    requires |t| == ROW * TABLES && n < 3
  {
    var d1 := Shift8(d);
    var d2 := Shift8(d1);
    var d3 := Shift8(d2);
    Sum(Lookup(t, 4 * n + 3, d), Sum(Lookup(t, 4 * n + 2, d1), Sum(Lookup(t, 4 * n + 1, d2), Lookup(t, 4 * n, d3))))
  }

  lemma TopByte(d: bv32)
    ensures var d3 := Shift8(Shift8(Shift8(d))); LowByte(d3) == d3
  {
  }

  lemma QIs(t: seq<bv32>, n: nat, d: bv32)
    requires TablesOk(t) && n < 3
    ensures Q(t, n, d) == Steps(d, 32 * (n + 1))
  {
    hide Step, Steps, Sum, Shift8, LowByte, Lookup, TablesOk;
    var d1 := Shift8(d);
    var d2 := Shift8(d1);
    var d3 := Shift8(d2);
    LookupIs(t, 4 * n + 3, d);
    LookupIs(t, 4 * n + 2, d1);
    LookupIs(t, 4 * n + 1, d2);
    LookupIs(t, 4 * n, d3);
    SplitSteps(d, 24 + 32 * n);
    SplitSteps(d1, 16 + 32 * n);
    SplitSteps(d2, 8 + 32 * n);
    TopByte(d);
  }

  // ---- Words ----

  function Up8(x: bv32): bv32 {
    x << 8
  }

  /** Four bytes, lowest first, as a little-endian machine reads them. */
  function Word(p: seq<bv8>): bv32
    requires |p| == 4
  {
    Sum(Wide(p[0]), Up8(Sum(Wide(p[1]), Up8(Sum(Wide(p[2]), Up8(Wide(p[3])))))))
  }

  lemma UpDown(x: bv32)
    requires x < 0x100_0000
    ensures LowByte(Up8(x)) == 0 && Shift8(Up8(x)) == x
  {
  }

  /** One byte goes in, the bytes behind it come one place down. */
  lemma ByteIn(v: bv32, b: bv8, x: bv32, n: nat)
    requires x < 0x100_0000
    ensures Steps(Sum(v, Sum(Wide(b), Up8(x))), 8 + n) == Steps(Sum(CrcByte(v, b), x), n)
  {
    hide Step, Steps, Sum, Up8, Wide;
    var y := Sum(v, Sum(Wide(b), Up8(x)));
    SumAssociates(v, Wide(b), Up8(x));
    StepsAdd(y, 8, n);
    StepsLinear(Sum(v, Wide(b)), Up8(x), 8);
    UpDown(x);
    StepsEight(Up8(x));
  }

  lemma WordBounds(a: bv8, b: bv8, c: bv8)
    ensures Wide(a) < 0x100_0000
    ensures Sum(Wide(b), Up8(Wide(a))) < 0x100_0000
    ensures Sum(Wide(c), Up8(Sum(Wide(b), Up8(Wide(a))))) < 0x100_0000
  {
  }

  lemma WordIs(v: bv32, p: seq<bv8>)
    requires |p| == 4
    ensures CrcBytes(v, p) == Steps(Sum(v, Word(p)), 32)
  {
    hide Step, Steps, Sum, Up8, Wide, CrcByte;
    WordBounds(p[3], p[2], p[1]);
    var x3 := Wide(p[3]);
    var x2 := Sum(Wide(p[2]), Up8(x3));
    var x1 := Sum(Wide(p[1]), Up8(x2));
    var v1 := CrcByte(v, p[0]);
    var v2 := CrcByte(v1, p[1]);
    var v3 := CrcByte(v2, p[2]);
    ByteIn(v, p[0], x1, 24);
    ByteIn(v1, p[1], x2, 16);
    ByteIn(v2, p[2], x3, 8);
    assert Steps(Sum(v3, x3), 8) == CrcByte(v3, p[3]) by {
      LastByte(v3, p[3]);
    }
    FourBytes(v, p);
  }

  lemma LastByte(v: bv32, b: bv8)
    ensures Steps(Sum(v, Wide(b)), 8) == CrcByte(v, b)
  {
  }

  lemma FourBytes(v: bv32, p: seq<bv8>)
    requires |p| == 4
    ensures CrcBytes(v, p) == CrcByte(CrcByte(CrcByte(CrcByte(v, p[0]), p[1]), p[2]), p[3])
  {
    hide CrcByte;
    CrcAppend(v, p[..2], p[2..]);
    assert p == p[..2] + p[2..];
    TwoBytes(v, p[..2]);
    TwoBytes(CrcBytes(v, p[..2]), p[2..]);
  }

  lemma TwoBytes(v: bv32, p: seq<bv8>)
    requires |p| == 2
    ensures CrcBytes(v, p) == CrcByte(CrcByte(v, p[0]), p[1])
  {
    hide CrcByte;
    var w, rest := CrcByte(v, p[0]), p[1..];
    assert CrcBytes(v, p) == CrcBytes(w, rest);
    assert rest[1..] == [];
    assert CrcBytes(w, rest) == CrcBytes(CrcByte(w, rest[0]), rest[1..]);
  }

  /** Twelve bytes in one step. */
  function TwelveStep(t: seq<bv32>, v: bv32, p: seq<bv8>): bv32
    requires |t| == ROW * TABLES && |p| == 12
  {
    Sum(Sum(Q(t, 1, Word(p[4..8])), Q(t, 0, Word(p[8..12]))), Q(t, 2, Sum(v, Word(p[0..4]))))
  }

  lemma TwelveStepIs(t: seq<bv32>, v: bv32, p: seq<bv8>)
    requires TablesOk(t) && |p| == 12
    ensures TwelveStep(t, v, p) == CrcBytes(v, p)
  {
    hide Step, Steps, Sum, Q, Word, CrcBytes;
    var w0, w1, w2 := Word(p[0..4]), Word(p[4..8]), Word(p[8..12]);
    var x0 := Sum(v, w0);
    var v1 := CrcBytes(v, p[0..4]);
    var v2 := CrcBytes(v1, p[4..8]);
    WordIs(v, p[0..4]);
    WordIs(v1, p[4..8]);
    WordIs(v2, p[8..12]);
    StepsLinear(v1, w1, 32);
    StepsAdd(x0, 32, 32);
    StepsLinear(v2, w2, 32);
    StepsLinear(Steps(x0, 64), Steps(w1, 32), 32);
    StepsAdd(x0, 64, 32);
    StepsAdd(w1, 32, 32);
    QIs(t, 0, w2);
    QIs(t, 1, w1);
    QIs(t, 2, x0);
    SumAssociates(Steps(x0, 96), Steps(w1, 64), Steps(w2, 32));
    SumCommutes(Steps(x0, 96), Sum(Steps(w1, 64), Steps(w2, 32)));
    CrcAppend(v, p[0..4], p[4..8]);
    CrcAppend(v, p[0..4] + p[4..8], p[8..12]);
    assert p[0..4] + p[4..8] + p[8..12] == p;
  }

  // ---- The code ----

  /** The entry of the first table for one byte. */
  method FirstEntry(b: bv8) returns (r: bv32)
    ensures r == Steps(Wide(b), 8)
  {
    hide Steps, Down, Sum, Feedback;
    r := b as bv32;
    for j := 0 to 8
      invariant Steps(r, 8 - j) == Steps(Wide(b), 8)
    {
      StepCoded(r, 8 - j);
      r := (r >> 1) ^ (POLY & (0 - (r & 1)));
    }
    StepsNone(r);
  }

  lemma StepsNone(r: bv32)
    ensures Steps(r, 0) == r
  {
  }

  /** The branch-free form of a step. */
  lemma StepCoded(r: bv32, n: nat)
    requires n > 0
    ensures Steps(r, n) == Steps((r >> 1) ^ (POLY & (0 - (r & 1))), n - 1)
  {
    assert Step(r) == (r >> 1) ^ (POLY & (0 - (r & 1))) by {
      assert r & 1 == 0 || r & 1 == 1;
    }
  }

  lemma RowAbove(i: nat)
    requires i >= ROW
    ensures ByteOf(i - ROW) == ByteOf(i) && (i - ROW) / ROW == i / ROW - 1
  {
    assert (i - ROW) % ROW == i % ROW;
  }

  /** An entry of a later table from the one before. */
  lemma NextEntry(t: seq<bv32>, i: nat)
    requires |t| == ROW * TABLES && ROW <= i < |t| && Filled(t, i)
    ensures EntryAt(i) == Sum(t[Index8(t[i - ROW]) as int], Shift8(t[i - ROW]))
  {
    hide Wide, Step, Steps, Sum, Shift8, LowByte, Index8, ByteOf;
    var r := t[i - ROW];
    var b, k := ByteOf(i), i / ROW;
    RowAbove(i);
    assert r == Steps(Wide(b), 8 * k);
    StepsAdd(Wide(b), 8 * k, 8);
    SplitSteps(r, 0);
    LowByteNarrow(r);
    IndexOf(0, Index8(r));
    StepsNone(Shift8(r));
  }

  lemma FirstRow(i: nat)
    requires i < ROW
    ensures EntryAt(i) == Steps(Wide(ByteOf(i)), 8)
  {
    hide Step, Wide, ByteOf;
  }

  lemma FilledOneMore(t: seq<bv32>, i: nat, r: bv32)
    requires i < |t| && Filled(t, i) && r == EntryAt(i)
    ensures Filled(t[i := r], i + 1)
  {
    hide EntryAt;
  }

  method SetEntry(table: array<bv32>, i: nat, r: bv32)
    requires i < table.Length && Filled(table[..], i) && r == EntryAt(i)
    modifies table
    ensures Filled(table[..], i + 1)
  {
    hide EntryAt;
    FilledOneMore(table[..], i, r);
    ghost var t := table[..];
    table[i] := r;
    assert table[..] == t[i := r];
  }

  method CrcGenerateTable(table: array<bv32>)
    requires table.Length == ROW * TABLES
    modifies table
    ensures TablesOk(table[..])
  {
    hide EntryAt, Index8, ByteOf, Steps, Filled, Sum, Shift8;
    NoneFilled(table[..]);
    for i := 0 to ROW
      invariant Filled(table[..], i)
    {
      var r := FirstEntry(ByteOf(i));
      FirstRow(i);
      SetEntry(table, i, r);
    }
    for i := ROW to ROW * TABLES
      invariant Filled(table[..], i)
    {
      var r := table[i - ROW];
      NextEntry(table[..], i);
      SetEntry(table, i, Sum(table[Index8(r) as int], Shift8(r)));
    }
  }

  lemma NoneFilled(t: seq<bv32>)
    ensures Filled(t, 0)
  {
  }

  /** From any start value, at any alignment, for any length. */
  method CrcUpdateT12(v0: bv32, data: seq<bv8>, address: nat, table: array<bv32>) returns (v: bv32)
    requires table.Length == ROW * TABLES && TablesOk(table[..])
    ensures v == CrcBytes(v0, data)
  {
    hide CrcByte, TablesOk, ByteStep, TwelveStep;
    ghost var t := table[..];
    v := v0;
    var p := 0;
    assert data[0..] == data;
    while p < |data| && (address + p) % 4 != 0
      invariant p <= |data|
      invariant CrcBytes(v, data[p..]) == CrcBytes(v0, data)
    {
      ByteStepIs(t, v, data[p]);
      v := ByteStep(table[..], v, data[p]);
      p := p + 1;
    }
    while |data| - p >= 12
      invariant p <= |data|
      invariant CrcBytes(v, data[p..]) == CrcBytes(v0, data)
    {
      TwelveStepIs(t, v, data[p..p + 12]);
      CrcAppend(v, data[p..p + 12], data[p + 12..]);
      assert data[p..p + 12] + data[p + 12..] == data[p..];
      v := TwelveStep(table[..], v, data[p..p + 12]);
      p := p + 12;
    }
    while p < |data|
      invariant p <= |data|
      invariant CrcBytes(v, data[p..]) == CrcBytes(v0, data)
    {
      ByteStepIs(t, v, data[p]);
      v := ByteStep(table[..], v, data[p]);
      p := p + 1;
    }
  }
}
