/** The encoder and decoder objects of libzpaq, whose methods shift their fields in place. */
module ZpaqCoder {
  import opened Bits
  import opened Bytes
  import opened RangeCoder
  import opened SkipSegment

  const WITHOUT_HASH: byte := 254
  const WITH_HASH: byte := 253

  /** What endSegment writes behind the terminator. */
  function Ending(hash: Option<seq<byte>>): seq<byte> {
    match hash
    case None => [WITHOUT_HASH]
    case Some(h) => [WITH_HASH] + h
  }

  /** What compress(c) codes. */
  function CodeOf(model: Model, c: Coder, hist: seq<bool>, what: Option<byte>): Coded
    requires Ready(c)
  {
    match what
    case None => var e := EncodeBit(c, true, 0); Coded(e.c, hist, e.bytes)
    case Some(b) => EncodeByte(model, c, hist, b)
  }

  class Encoder {
    const model: Model
    var low: u32
    var high: u32
    var hist: seq<bool>
    var out: seq<byte>

    ghost predicate Valid()
      reads this
    {
      1 <= low < high
    }

    ghost function State(): (c: Coder)
      reads this
    {
      Coder(low, high)
    }

    /** The encoder is in the state and history of `coded` and has written its bytes behind `before`. */
    ghost predicate Wrote(coded: Coded, before: seq<byte>)
      reads this
    {
      State() == coded.c && hist == coded.hist && out == before + coded.bytes
    }

    constructor (m: Model)
      ensures Valid() && model == m && State() == INITIAL && hist == [] && out == []
    {
      model, low, high, hist, out := m, 1, 0xFFFF_FFFF, [], [];
    }

    /** Code bit y, which has probability p of being set. */
    method Encode(y: bool, p: Prob)
      requires Valid()
      modifies this
      ensures Valid() && hist == old(hist)
      ensures var e := EncodeBit(old(State()), y, p); State() == e.c && out == old(out) + e.bytes
    {
      hide Mid, Xor;
      var mid := Mid(Coder(low, high), p);
      if y {
        high := mid;
      } else {
        low := mid + 1;
      }
      ghost var e := EncodeBit(old(State()), y, p);
      while Xor(high, low) < TOP
        invariant 1 <= low <= high && hist == old(hist)
        invariant out + Normalize(State()).bytes == old(out) + e.bytes
        invariant Normalize(State()).c == e.c
        decreases 0x1_0000_0000 - (high - low)
      {
        Shift();
      }
      assert Normalize(State()).bytes == [];
    }

    method Shift()
      requires 1 <= low <= high && SameTop(State())
      modifies this
      ensures 1 <= low <= high && high - low > old(high) - old(low) && hist == old(hist)
      ensures Normalize(State()).c == Normalize(old(State())).c
      ensures out + Normalize(State()).bytes == old(out) + Normalize(old(State())).bytes
    {
      hide Normalize, SameTop, ShiftLeft, NonZero;
      NormalizeStep(State());
      ghost var later := Normalize(ShiftOut(State())).bytes;
      Associate(out, [high / TOP], later);
      out := out + [high / TOP];
      high := ShiftLeft(high, 0xFF);
      low := NonZero(ShiftLeft(low, 0));
      assert State() == ShiftOut(old(State()));
    }

    /** Code byte c, or the end of the segment. */
    method Compress(c: Option<byte>)
      requires Valid()
      modifies this
      ensures Valid() && Wrote(CodeOf(model, old(State()), old(hist), c), old(out))
    {
      hide EncodeBit;
      if c == None {
        Encode(true, 0);
      } else {
        Encode(false, 0);
        CompressBits(c.value);
      }
    }

    method CompressBits(b: byte)
      requires Valid()
      modifies this
      ensures Valid() && Wrote(EncodeBits(model, old(State()), old(hist), b, 8), old(out))
    {
      hide EncodeBit;
      var i := 8;
      ghost var all := EncodeBits(model, State(), hist, b, 8);
      while i > 0
        invariant Valid() && i <= 8
        invariant Completes(EncodeBits(model, State(), hist, b, i), old(out), all)
      {
        i := i - 1;
        CompressBit(b, i);
      }
    }

    method CompressBit(b: byte, i: nat)
      requires Valid() && i < 8
      modifies this
      ensures Valid()
      ensures forall all, before | old(Completes(EncodeBits(model, State(), hist, b, i + 1), before, all)) ::
        Completes(EncodeBits(model, State(), hist, b, i), before, all)
    {
      hide EncodeBit, BitOf, PredictProb;
      var y := BitOf(b, i);
      ghost var e := EncodeBit(State(), y, PredictProb(model, hist));
      Encode(y, PredictProb(model, hist));
      hist := hist + [y];
      ghost var r := EncodeBits(model, State(), hist, b, i);
      Associate(old(out), e.bytes, r.bytes);
    }

    /** What is written so far and what `rest` will write make up `all` behind `before`. */
    ghost predicate Completes(rest: Coded, before: seq<byte>, all: Coded)
      reads this
    {
      rest.c == all.c && rest.hist == all.hist && out + rest.bytes == before + all.bytes
    }

    /** Byte i of a segment. */
    method CompressNext(data: seq<byte>, i: nat, ghost all: Coded, ghost before: seq<byte>)
      requires Valid() && i < |data|
      requires Completes(EncodeSegment(model, State(), hist, data[i..]), before, all)
      modifies this
      ensures Valid() && Completes(EncodeSegment(model, State(), hist, data[i + 1..]), before, all)
    {
      hide EncodeBit, EncodeByte;
      ghost var was := out;
      ghost var e := EncodeByte(model, State(), hist, data[i]);
      ghost var r := EncodeSegment(model, e.c, e.hist, data[i + 1..]);
      assert data[i..][0] == data[i] && data[i..][1..] == data[i + 1..];
      Compress(Some(data[i]));
      Associate(was, e.bytes, r.bytes);
    }

    /** A whole segment: its bytes, the end code, the terminator and the marker. */
    method CompressSegment(data: seq<byte>, hash: Option<seq<byte>>)
      requires Valid()
      modifies this
      ensures Valid()
      ensures var e := EncodeSegment(model, old(State()), old(hist), data);
        Wrote(e.(bytes := e.bytes + (TERMINATOR + Ending(hash))), old(out))
    {
      hide EncodeBit, EncodeByte;
      ghost var all := EncodeSegment(model, State(), hist, data);
      assert data[0..] == data;
      for i := 0 to |data|
        invariant Valid()
        invariant Completes(EncodeSegment(model, State(), hist, data[i..]), old(out), all)
      {
        CompressNext(data, i, all, old(out));
      }
      Compress(None);
      assert out == old(out) + all.bytes;
      out := out + TERMINATOR + Ending(hash);
    }
  }

  /** The underlying input. Each read returns some bytes, none only at the end. */
  class Input {
    var data: seq<byte>

    method Read(n: nat) returns (r: seq<byte>)
      requires n > 0
      modifies this
      ensures |r| <= n && r + data == old(data) && (r == [] <==> old(data) == [])
    {
      if data == [] {
        r := [];
      } else {
        var k :| 0 < k <= n && k <= |data|;
        r, data := data[..k], data[k..];
      }
    }
  }

  const BUFSIZE := 0x1_0000

  datatype Result = Byte(b: byte) | End | Error

  class Decoder {
    const model: Model
    const input: Input
    const buf: array<byte>
    var low: u32
    var high: u32
    var curr: u32
    var rpos: nat
    var wpos: nat
    var hist: seq<bool>

    ghost predicate Valid()
      reads this, input, buf
    {
      1 <= low <= high && rpos <= wpos <= buf.Length == BUFSIZE
    }

    /** The unread bytes: those buffered and those still in the input. */
    ghost function Unread(): seq<byte>
      requires Valid()
      reads this, input, buf
    {
      buf[rpos..wpos] + input.data
    }

    ghost function View(): Reader
      requires Valid()
      reads this, input, buf
    {
      Reader(Coder(low, high), curr, Unread())
    }

    constructor (m: Model, i: Input)
      ensures Valid() && fresh(buf) && model == m && input == i && hist == []
      ensures View() == Reader(INITIAL, 0, i.data)
    {
      model, input, hist := m, i, [];
      low, high, curr, rpos, wpos := 1, 0xFFFF_FFFF, 0, 0, 0;
      buf := new byte[BUFSIZE];
    }

    /** The next byte of buffered input, or none at the end. */
    method Get() returns (c: Option<byte>)
      requires Valid()
      modifies this`rpos, this`wpos, input, buf
      ensures Valid()
      ensures old(Unread()) == [] ==> c == None && Unread() == []
      ensures old(Unread()) != [] ==> c == Some(old(Unread())[0]) && Unread() == old(Unread())[1..]
    {
      Refill();
      if rpos < wpos {
        ghost var unread := Unread();
        c := Some(buf[rpos]);
        rpos := rpos + 1;
        assert unread[1..] == Unread();
      } else {
        c := None;
      }
    }

    /** When everything buffered is read, the buffer is filled again. */
    method Refill()
      requires Valid()
      modifies this`rpos, this`wpos, input, buf
      ensures Valid() && Unread() == old(Unread())
      ensures rpos == wpos ==> Unread() == []
    {
      if rpos == wpos {
        rpos := 0;
        var got := input.Read(BUFSIZE);
        wpos := |got|;
        forall k | 0 <= k < |got| {
          buf[k] := got[k];
        }
        assert buf[0..wpos] == got;
      }
    }

    /** The next bit, or none for damaged input. */
    method Decode(p: Prob) returns (y: Option<bool>)
      requires Valid() && low < high
      modifies this, input, buf
      ensures Valid() && hist == old(hist)
      ensures match DecodeBit(old(View()), p)
        case BadInput => y == None
        case Bit(b, r) => y == Some(b) && View() == r
    {
      hide Mid, Xor;
      if curr < low || curr > high {
        return None;
      }
      var mid := Mid(Coder(low, high), p);
      if curr <= mid {
        y, high := Some(true), mid;
      } else {
        y, low := Some(false), mid + 1;
      }
      ghost var start := View();
      while Xor(high, low) < TOP
        invariant Valid() && hist == old(hist)
        invariant NormalizeIn(View()) == NormalizeIn(start)
        decreases 0x1_0000_0000 - (high - low)
      {
        var ok := Shift();
        if !ok {
          return None;
        }
      }
    }

    method Shift() returns (ok: bool)
      requires Valid() && SameTop(Coder(low, high))
      modifies this, input, buf
      ensures Valid() && hist == old(hist) && high - low > old(high) - old(low)
      ensures ok <==> old(Unread()) != []
      ensures var r := old(View());
        ok ==> View() == Reader(ShiftOut(r.c), ShiftLeft(r.curr, r.rest[0]), r.rest[1..])
    {
      ShiftWidens(Coder(low, high));
      high := ShiftLeft(high, 0xFF);
      low := NonZero(ShiftLeft(low, 0));
      var c := Get();
      if c == None {
        return false;
      }
      curr := ShiftLeft(curr, c.value);
      return true;
    }

    /** Fill curr from the next four bytes. */
    method PrimeCurr()
      requires Valid()
      modifies this, input, buf
      ensures Valid() && hist == old(hist) && View() == Prime(old(View()), 4)
    {
      for i := 0 to 4
        invariant Valid() && hist == old(hist)
        invariant Prime(View(), 4 - i) == Prime(old(View()), 4)
        invariant low == old(low) && high == old(high)
      {
        var c := Get();
        match c {
          case None => curr := 0xFFFF_FFFF;
          case Some(b) => curr := ShiftLeft(curr, b);
        }
      }
    }

    /** The answer r and the new state are those of `u`. */
    ghost predicate Answers(u: Unit, r: Result, before: seq<bool>)
      requires Valid()
      reads this, input, buf
    {
      match u
      case Corrupt => r == Error
      case EndOfSegment(next) => r == End && View() == next && hist == before
      case NextByte(b, h, next) => b < 0x100 && r == Byte(b) && View() == next && hist == h
    }

    ghost predicate AnswersByte(c: Collected, r: Result)
      requires Valid()
      reads this, input, buf
    {
      match c
      case NoBits => r == Error
      case Collected(value, h, next) => 0x100 <= value < 0x200 && r == Byte(value - 0x100) && View() == next && hist == h
    }

    /** Decompress one byte or find the end of the segment. */
    method Decompress() returns (r: Result)
      requires Valid() && low < high
      modifies this, input, buf
      ensures Valid()
      ensures Answers(DecodeByte(model, old(View()), old(hist)), r, old(hist))
    {
      hide DecodeBit, Prime;
      if curr == 0 {
        PrimeCurr();
      }
      var flag := Decode(0);
      if flag == None {
        return Error;
      }
      if flag == Some(true) {
        return if curr != 0 then Error else End;
      }
      r := DecompressBits();
    }

    /** One modelled bit: predict, decode, update. */
    method DecompressBit() returns (y: Option<bool>)
      requires Valid() && low < high
      modifies this, input, buf
      ensures Valid()
      ensures match DecodeBit(old(View()), PredictProb(model, old(hist)))
        case BadInput => y == None
        case Bit(b, r) => y == Some(b) && View() == r && hist == old(hist) + [b]
    {
      hide DecodeBit, PredictProb;
      y := Decode(PredictProb(model, hist));
      if y != None {
        hist := hist + [y.value];
      }
    }

    method DecompressBits() returns (r: Result)
      requires Valid() && low < high
      modifies this, input, buf
      ensures Valid() && AnswersByte(DecodeBits(model, old(View()), old(hist), 1, 8), r)
    {
      hide DecodeBit, PredictProb;
      var c := 1;
      ghost var n: nat := 8;
      Pow2Values();
      while c < 0x100
        invariant n <= 8 && Pow2(8 - n) <= c < 2 * Pow2(8 - n)
        invariant Valid() && low < high
        invariant DecodeBits(model, View(), hist, c, n) == DecodeBits(model, old(View()), old(hist), 1, 8)
        decreases n
      {
        NotYetWhole(c, n);
        var y := DecompressBit();
        if y == None {
          return Error;
        }
        c := 2 * c + (if y.value then 1 else 0);
        n := n - 1;
      }
      NotYetWhole(c, n);
      r := Byte(c - 0x100);
    }

    /** n bits to go: the collected value has its leading one n places below the ninth. */
    lemma {:induction false} NotYetWhole(c: nat, n: nat)
      requires n <= 8 && Pow2(8 - n) <= c < 2 * Pow2(8 - n)
      ensures c < 0x100 <==> n > 0
      ensures n == 0 ==> c < 0x200
    {
      Pow2Values();
      if n > 0 {
        Pow2Monotone(8 - n, 7);
      }
    }

    /** Find the end of the segment and return the byte behind it. */
    method SkipToEnd() returns (c: Option<byte>)
      requires Valid()
      modifies this, input, buf
      ensures Valid() && Skipped(c, Unread()) == Skip(old(View()))
    {
      SkipLeading();
      SkipZeroRun();
      c := Get();
      while c == Some(0)
        invariant Valid()
        invariant SkipZeros((if c == None then [] else [c.value]) + Unread()) == Skip(old(View()))
        invariant c == None ==> Unread() == []
        decreases |Unread()|, c.Some?
      {
        c := Get();
      }
    }

    method SkipLeading()
      requires Valid()
      modifies this, input, buf
      ensures Valid() && curr != 0 && (curr, Unread()) == SkipLead(old(curr), old(Unread()))
    {
      while curr == 0
        invariant Valid()
        invariant SkipLead(curr, Unread()) == SkipLead(old(curr), old(Unread()))
        decreases |Unread()|, curr == 0
      {
        var c := Get();
        curr := if c == None then 0xFFFF_FFFF else c.value;
      }
    }

    method SkipZeroRun()
      requires Valid()
      modifies this, input, buf
      ensures Valid() && Unread() == SkipToZeros(old(curr), old(Unread()))
    {
      while curr != 0
        invariant Valid() && SkipToZeros(curr, Unread()) == SkipToZeros(old(curr), old(Unread()))
        decreases |Unread()|
      {
        var c := Get();
        if c == None {
          return;
        }
        curr := ShiftLeft(curr, c.value);
      }
    }
  }
}
