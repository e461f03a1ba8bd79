/** MD5 (RFC 1321) as a context that takes its message piece by piece, over any block function. */
module Md5 {
  import opened Bytes
  import opened Bits

  const BLOCK := 64
  const W64 := 0x1_0000_0000_0000_0000

  datatype State = State(A: u32, B: u32, C: u32, D: u32)

  const INITIAL := State(0x6745_2301, 0xEFCD_AB89, 0x98BA_DCFE, 0x1032_5476)

  /** The block function. */
  type Compress = (State, seq<byte>) -> State

  // ---- The definition ----

  function Blocks(f: Compress, st: State, data: seq<byte>): State
    decreases |data|
  {
    if |data| < BLOCK then st else Blocks(f, f(st, data[..BLOCK]), data[BLOCK..])
  }

  lemma {:induction false} BlocksAppend(f: Compress, st: State, a: seq<byte>, b: seq<byte>)
    requires |a| % BLOCK == 0
    ensures Blocks(f, st, a + b) == Blocks(f, Blocks(f, st, a), b)
    decreases |a|
  {
    if a == [] {
      assert a + b == b;
    } else {
      assert (a + b)[..BLOCK] == a[..BLOCK] && (a + b)[BLOCK..] == a[BLOCK..] + b;
      BlocksAppend(f, f(st, a[..BLOCK]), a[BLOCK..], b);
    }
  }

  /** A block goes through the block function once. */
  lemma OneBlock(f: Compress, st: State, b: seq<byte>)
    requires |b| == 64
    ensures Blocks(f, st, b) == f(st, b)
  {
    assert b[..BLOCK] == b && b[BLOCK..] == [];
  }

  function Zeros(n: nat): seq<byte> {
    seq(n, _ => 0)
  }

  /** Sections 3.1 and 3.2 of RFC 1321: a one bit, zeros up to eight bytes before the end of a
      block, and the length in bits, modulo 2^64, lowest byte first. */
  function Padding(n: nat): seq<byte> {
    [0x80] + Zeros((119 - n % BLOCK) % BLOCK) + ToLE(n * 8 % W64, 8)
  }

  lemma PaddingFillsBlocks(n: nat)
    ensures (n + |Padding(n)|) % BLOCK == 0 && 9 <= |Padding(n)| <= BLOCK + 8
  {
    var r, q := n % BLOCK, n / BLOCK;
    if r <= 55 {
      Bits.ModUnique(n + |Padding(n)|, BLOCK, q + 1, 0);
    } else {
      Bits.ModUnique(n + |Padding(n)|, BLOCK, q + 2, 0);
    }
  }

  /** What three bytes are padded with. */
  lemma PaddingOfThree()
    ensures Padding(3) == [0x80] + Zeros(52) + [24, 0, 0, 0, 0, 0, 0, 0]
  {
    var none: seq<byte> := [];
    assert ToLE(0, 0) == none;
    ZerosLE(7);
    assert ToLE(24, 8) == [24] + ToLE(0, 7);
  }

  lemma {:induction false} ZerosLE(k: nat)
    ensures ToLE(0, k) == Zeros(k)
  {
    if k > 0 {
      ZerosLE(k - 1);
    }
  }

  function Digest(st: State): seq<byte> {
    ToLE(st.A, 4) + ToLE(st.B, 4) + ToLE(st.C, 4) + ToLE(st.D, 4)
  }

  /** Section 3.3 of RFC 1321: the bytes of the four words at the start. */
  lemma InitialBytes()
    ensures Digest(INITIAL) == [0x01, 0x23, 0x45, 0x67, 0x89, 0xAB, 0xCD, 0xEF, 0xFE, 0xDC, 0xBA, 0x98, 0x76, 0x54, 0x32, 0x10]
  {
    WordBytes(0x01, 0x23, 0x45, 0x67);
    WordBytes(0x89, 0xAB, 0xCD, 0xEF);
    WordBytes(0xFE, 0xDC, 0xBA, 0x98);
    WordBytes(0x76, 0x54, 0x32, 0x10);
  }

  lemma WordBytes(a: byte, b: byte, c: byte, d: byte)
    ensures ToLE(((d * 0x100 + c) * 0x100 + b) * 0x100 + a, 4) == [a, b, c, d]
  {
    var none: seq<byte> := [];
    assert ToLE(d, 1) == [d] + none;
    assert ToLE(d * 0x100 + c, 2) == [c] + ToLE(d, 1);
    assert ToLE((d * 0x100 + c) * 0x100 + b, 3) == [b] + ToLE(d * 0x100 + c, 2);
  }

  function Md5Of(f: Compress, msg: seq<byte>): seq<byte> {
    Digest(Blocks(f, INITIAL, msg + Padding(|msg|)))
  }

  // ---- The length ----

  /** Two 32-bit words hold the number of bytes modulo 2^64. */
  predicate Counts(total0: u32, total1: u32, n: nat) {
    total1 * W32 + total0 == n % W64
  }

  /** The two words after adding len, with the carry taken from the wrapped sum. */
  lemma CarryCounts(total0: u32, total1: u32, n: nat, len: nat, sum0: u32, sum1: u32)
    requires Counts(total0, total1, n)
    requires sum0 == (total0 + len % W32) % W32
    requires sum1 == (total1 + len / W32 % W32 + (if sum0 < len % W32 then 1 else 0)) % W32
    ensures Counts(sum0, sum1, n + len)
  {
    var lo, hi := len % W32, len / W32;
    var carry := if sum0 < lo then 1 else 0;
    assert total0 + lo == carry * W32 + sum0;
    var t := total1 + hi % W32 + carry;
    var wraps := t / W32;
    assert t == wraps * W32 + sum1;
    var q := n / W64;
    assert n == q * W64 + total1 * W32 + total0;
    var more := q + hi / W32 + wraps;
    assert hi == hi / W32 * W32 + hi % W32;
    assert len == hi * W32 + lo;
    assert n + len == W64 * more + (sum1 * W32 + sum0);
    Bits.ModUnique(n + len, W64, more, sum1 * W32 + sum0);
  }

  /** The two words in bits are the length field. */
  lemma BitLength(total0: u32, total1: u32, n: nat)
    requires Counts(total0, total1, n)
    ensures (total1 * 8 % W32 + total0 / 0x2000_0000) * W32 + total0 * 8 % W32 == n * 8 % W64
  {
    var low, top := total0 % 0x2000_0000, total0 / 0x2000_0000;
    assert total0 * 8 == top * W32 + low * 8;
    assert total0 * 8 % W32 == low * 8 by {
      Bits.ModUnique(total0 * 8, W32, top, low * 8);
    }
    var lo1, hi1 := total1 % 0x2000_0000, total1 / 0x2000_0000;
    assert total1 * 8 % W32 == lo1 * 8 by {
      Bits.ModUnique(total1 * 8, W32, hi1, lo1 * 8);
    }
    var q := n / W64;
    assert n == q * W64 + total1 * W32 + total0;
    assert n * 8 == W64 * (q * 8 + hi1) + ((lo1 * 8 + top) * W32 + low * 8);
    Bits.ModUnique(n * 8, W64, q * 8 + hi1, (lo1 * 8 + top) * W32 + low * 8);
  }

  lemma {:induction false} LESplit(lo: nat, hi: nat, k: nat, j: nat)
    requires lo < Pow256(k)
    ensures ToLE(hi * Pow256(k) + lo, k + j) == ToLE(lo, k) + ToLE(hi, j)
    decreases k
  {
    if k > 0 {
      var m := Pow256(k - 1);
      DropByte(lo, hi, m);
      LESplit(lo / 0x100, hi, k - 1, j);
    }
  }

  lemma DropByte(lo: nat, hi: nat, m: nat)
    requires lo < 0x100 * m
    ensures lo / 0x100 < m
    ensures (hi * (0x100 * m) + lo) % 0x100 == lo % 0x100
    ensures (hi * (0x100 * m) + lo) / 0x100 == hi * m + lo / 0x100
  {
    assert hi * (0x100 * m) == 0x100 * (hi * m);
    Bits.ModUnique(hi * (0x100 * m) + lo, 0x100, hi * m + lo / 0x100, lo % 0x100);
  }

  // ---- The context ----

  /** The first byte of padding and the zeros behind it. */
  function Fill(n: nat): (r: seq<byte>)
    requires 1 <= n <= BLOCK
    ensures |r| == n
  {
    [0x80] + Zeros(n - 1)
  }

  class Md5Ctx {
    const f: Compress
    var st: State
    var total0: u32
    var total1: u32
    const buffer: array<byte>
    var buflen: nat
    /** The part of the message that has gone through the block function. */
    ghost var processed: seq<byte>

    /** Between calls the buffer holds at most one block, which may be a whole one. */
    ghost predicate Valid()
      reads this, buffer
    {
      buffer.Length == 2 * BLOCK && buflen <= BLOCK && Through()
    }

    ghost predicate Through()
      reads this
    {
      && |processed| % BLOCK == 0
      && st == Blocks(f, INITIAL, processed)
      && Counts(total0, total1, |processed|)
    }

    /** The message so far. */
    ghost function Msg(): seq<byte>
      requires buflen <= buffer.Length
      reads this, buffer
    {
      processed + buffer[..buflen]
    }

    constructor (f: Compress)
      ensures Valid() && Msg() == [] && this.f == f && fresh(buffer)
    {
      this.f, st, total0, total1, buflen, processed := f, INITIAL, 0, 0, 0, [];
      buffer := new byte[2 * BLOCK](_ => 0);
    }

    /** md5_process_block: whole blocks go through the block function and are counted. */
    method ProcessBlock(data: seq<byte>)
      requires |data| % BLOCK == 0 && Through()
      modifies this`st, this`total0, this`total1, this`processed
      ensures Through() && processed == old(processed) + data
    {
      hide Counts, Blocks;
      Count(|data|);
      BlocksAppend(f, INITIAL, processed, data);
      RunBlocks(data);
      processed := processed + data;
    }

    /** Add to the two words of the count, with a carry. */
    method Count(len: nat)
      modifies this`total0, this`total1
      ensures forall n: nat | old(Counts(total0, total1, n)) :: Counts(total0, total1, n + len)
    {
      var lolen := len % W32;
      ghost var t0, t1 := total0, total1;
      total0 := (total0 + lolen) % W32;
      total1 := (total1 + len / W32 % W32 + (if total0 < lolen then 1 else 0)) % W32;
      forall n: nat | Counts(t0, t1, n)
        ensures Counts(total0, total1, n + len)
      {
        CarryCounts(t0, t1, n, len, total0, total1);
      }
    }

    /** Put bytes behind what is buffered. */
    method Buffer(data: seq<byte>)
      requires buflen + |data| <= buffer.Length
      modifies this`buflen, buffer
      ensures buflen == old(buflen) + |data| && buffer[..buflen] == old(buffer[..buflen]) + data
    {
      forall i | 0 <= i < |data| {
        buffer[buflen + i] := data[i];
      }
      buflen := buflen + |data|;
    }

    /** Process the first n buffered bytes and move the rest to the front. */
    method Unbuffer(n: nat)
      requires n <= buflen <= buffer.Length && n % BLOCK == 0 && Through()
      modifies this`st, this`total0, this`total1, this`processed, this`buflen, buffer
      ensures Through() && buflen == old(buflen) - n && Msg() == old(Msg())
    {
      hide Counts, Blocks;
      ghost var all := buffer[..buflen];
      ProcessBlock(buffer[..n]);
      var rest := buflen - n;
      forall i | 0 <= i < rest {
        buffer[i] := buffer[n + i];
      }
      buflen := rest;
      assert all == all[..n] + all[n..];
      assert buffer[..buflen] == all[n..];
    }

    /** md5_process_bytes: any number of bytes, from aligned or unaligned memory. */
    method ProcessBytes(data: seq<byte>, aligned: bool)
      requires Valid()
      modifies this, buffer
      ensures Valid() && Msg() == old(Msg()) + data
    {
      hide Through;
      var add := TopUp(data);
      var bulk := Bulk(data[add..], aligned);
      Keep(data[add + bulk..]);
      assert data == data[..add] + data[add..][..bulk] + data[add + bulk..];
    }

    /** Fill up what is buffered, if anything is, and process it when it exceeds a block. */
    method TopUp(data: seq<byte>) returns (add: nat)
      requires Valid()
      modifies this, buffer
      ensures Valid() && add <= |data| && Msg() == old(Msg()) + data[..add]
      ensures add < |data| ==> buflen == 0
    {
      if buflen == 0 {
        return 0;
      }
      add := if 2 * BLOCK - buflen > |data| then |data| else 2 * BLOCK - buflen;
      ghost var was := buffer[..buflen];
      Buffer(data[..add]);
      assert processed + (was + data[..add]) == processed + was + data[..add];
      if buflen > BLOCK {
        Unbuffer(buflen / BLOCK * BLOCK);
      }
    }

    /** Whole blocks straight from the input; the unaligned path leaves a last whole block. */
    method Bulk(data: seq<byte>, aligned: bool) returns (n: nat)
      requires Valid() && (data != [] ==> buflen == 0)
      modifies this, buffer
      ensures Valid() && n <= |data| && Msg() == old(Msg()) + data[..n] && |data| - n <= BLOCK
      ensures n < |data| ==> buflen == 0
    {
      hide Through;
      n := 0;
      if |data| >= BLOCK {
        if aligned {
          n := |data| / BLOCK * BLOCK;
          ProcessBlock(data[..n]);
        } else {
          while |data| - n > BLOCK
            invariant Valid() && n <= |data| && n % BLOCK == 0 && buflen == 0
            invariant processed == old(processed) + data[..n]
          {
            assert data[..n] + data[n..n + BLOCK] == data[..n + BLOCK];
            ProcessBlock(data[n..n + BLOCK]);
            n := n + BLOCK;
          }
        }
      }
    }

    /** Keep the remaining bytes; a whole block is processed at once. */
    method Keep(data: seq<byte>)
      requires Valid() && |data| <= BLOCK && (data != [] ==> buflen == 0)
      modifies this, buffer
      ensures Valid() && Msg() == old(Msg()) + data
    {
      if data == [] {
        return;
      }
      Buffer(data);
      if buflen >= BLOCK {
        Unbuffer(BLOCK);
      }
    }

    /** md5_finish_ctx: the digest of the whole message. */
    method Finish() returns (digest: seq<byte>)
      requires Valid()
      modifies this, buffer
      ensures digest == Md5Of(f, old(Msg()))
    {
      hide Counts, Blocks, ToLE, Digest, Fill, Padding;
      var bytes := buflen;
      var size := if bytes < 56 then BLOCK else 2 * BLOCK;
      var length := SealLength();
      var last := buffer[..bytes] + Fill(size - 8 - bytes) + length;
      PaddedTail(processed, buffer[..bytes], size, length);
      BlocksAppend(f, INITIAL, processed, last);
      RunBlocks(last);
      digest := Digest(st);
    }

    /** Count what is buffered and give the length field of the padding. */
    method SealLength() returns (length: seq<byte>)
      requires Valid()
      modifies this`total0, this`total1
      ensures length == ToLE((|processed| + buflen) * 8 % W64, 8)
    {
      hide Counts, Blocks, ToLE;
      ghost var t0, t1 := total0, total1;
      total0 := (total0 + buflen) % W32;
      if total0 < buflen {
        total1 := (total1 + 1) % W32;
      }
      FinalCount(t0, t1, |processed|, buflen, total0, total1);
      LengthField(total0, total1, |processed| + buflen);
      length := ToLE(total0 * 8 % W32, 4) + ToLE(total1 * 8 % W32 + total0 / 0x2000_0000, 4);
    }

    /** The loop over whole blocks. */
    method RunBlocks(data: seq<byte>)
      requires |data| % BLOCK == 0
      modifies this`st
      ensures st == Blocks(f, old(st), data)
    {
      var words := 0;
      assert data[0..] == data;
      while words < |data|
        invariant words <= |data| && words % BLOCK == 0
        invariant Blocks(f, st, data[words..]) == Blocks(f, old(st), data)
      {
        assert data[words..][..BLOCK] == data[words..words + BLOCK];
        assert data[words..][BLOCK..] == data[words + BLOCK..];
        st := f(st, data[words..words + BLOCK]);
        words := words + BLOCK;
      }
    }
  }

  lemma FinalCount(total0: u32, total1: u32, n: nat, bytes: nat, sum0: u32, sum1: u32)
    requires Counts(total0, total1, n) && bytes <= BLOCK
    requires sum0 == (total0 + bytes) % W32
    requires sum1 == if sum0 < bytes then (total1 + 1) % W32 else total1
    ensures Counts(sum0, sum1, n + bytes)
  {
    hide Counts;
    assert bytes % W32 == bytes && bytes / W32 == 0;
    CarryCounts(total0, total1, n, bytes, sum0, sum1);
  }

  lemma LengthField(total0: u32, total1: u32, n: nat)
    requires Counts(total0, total1, n)
    ensures ToLE(total0 * 8 % W32, 4) + ToLE(total1 * 8 % W32 + total0 / 0x2000_0000, 4) == ToLE(n * 8 % W64, 8)
  {
    BitLength(total0, total1, n);
    assert Pow256(4) == W32 by {
      assert Pow256(1) == 0x100 && Pow256(2) == 0x1_0000 && Pow256(3) == 0x100_0000;
    }
    LESplit(total0 * 8 % W32, total1 * 8 % W32 + total0 / 0x2000_0000, 4, 4);
  }

  /** What is buffered, the fill bytes and the length are the message's tail and its padding. */
  lemma {:induction false} PaddedTail(processed: seq<byte>, tail: seq<byte>, size: nat, length: seq<byte>)
    requires |processed| % BLOCK == 0 && |tail| <= BLOCK && size == (if |tail| < 56 then BLOCK else 2 * BLOCK)
    requires length == ToLE((|processed| + |tail|) * 8 % W64, 8)
    ensures var msg := processed + tail;
      msg + Padding(|msg|) == processed + (tail + Fill(size - 8 - |tail|) + length)
  {
    var n := |processed| + |tail|;
    var fill := Fill(size - 8 - |tail|);
    FillIsPadding(n, |tail|, size);
    assert Padding(n) == fill + length;
    Bytes.Associate(processed, tail, fill + length);
    Bytes.Associate(tail, fill, length);
  }

  lemma FillIsPadding(n: nat, tail: nat, size: nat)
    requires tail <= BLOCK && (n - tail) % BLOCK == 0 && n >= tail && size == (if tail < 56 then BLOCK else 2 * BLOCK)
    ensures Fill(size - 8 - tail) == [0x80] + Zeros((119 - n % BLOCK) % BLOCK)
  {
    var q := (n - tail) / BLOCK;
    if tail < BLOCK {
      Bits.ModUnique(n, BLOCK, q, tail);
    } else {
      Bits.ModUnique(n, BLOCK, q + 1, 0);
    }
    assert (119 - n % BLOCK) % BLOCK == size - 9 - tail;
  }
}
