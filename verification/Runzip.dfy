/** runzip_chunk: the token loop of the decoder, over a windowed reader of the control stream. */
module Runzip {
  import opened Bytes
  import opened Tokens
  import opened Container
  import opened StreamIn

  const RUNZIP_S0_WIN := 4096

  // ---- The two streams ----

  /** Between two reads. */
  ghost predicate Open(ss: StreamReader)
    reads ss, ss.slots, ss.s
  {
    ss.Valid() && ss.Settled(0) && ss.Settled(1)
  }

  /** Both streams can be read to their ends. */
  ghost predicate Ready(ss: StreamReader)
    reads ss, ss.slots, ss.s
  {
    Open(ss) && ss.Rest(0).Some? && ss.Rest(1).Some?
  }

  /** What is left of a stream that can be read to its end. */
  ghost function Left(ss: StreamReader, k: nat): seq<byte>
    requires Open(ss) && k < NUM_STREAMS
    reads ss, ss.slots, ss.s
  {
    if ss.Rest(k).Some? then ss.Rest(k).value else []
  }

  /** Every byte read is counted, and a stream that cannot be read to its end stays so. */
  twostate predicate Tallied(ss: StreamReader)
    requires old(Open(ss)) && Open(ss)
    reads ss, ss.slots, ss.s
  {
    && ss.totalRead + ss.Owed(0) + ss.Owed(1) == old(ss.totalRead) + old(ss.Owed(0)) + old(ss.Owed(1))
    && ss.Listing(0).Broken? == old(ss.Listing(0)).Broken? && ss.Listing(1).Broken? == old(ss.Listing(1)).Broken?
    && ss.s[1].total == old(ss.s[1].total)
  }

  /** Streams that can be read stay so, and an empty last block of stream 1 does not come back. */
  twostate predicate StillReady(ss: StreamReader)
    requires old(Open(ss)) && Open(ss)
    reads ss, ss.slots, ss.s
  {
    old(Ready(ss)) ==> Ready(ss) && ss.TailKept(1)
  }

  /** read_stream on a stream that can be read: fewer bytes than asked for only at its end. Only
      asking stream 1 for too much can fail. */
  method ReadFrom(ss: StreamReader, k: nat, len: nat) returns (p: Option<seq<byte>>)
    requires Open(ss) && k < NUM_STREAMS
    modifies ss, ss.slots, ss.s
    ensures p.Some? ==> Open(ss) && Tallied(ss) && StillReady(ss) && |p.value| <= len
    ensures p.Some? ==> ss.Volume(k) + |p.value| == old(ss.Volume(k)) && ss.Volume(1 - k) == old(ss.Volume(1 - k))
    ensures old(Ready(ss)) && p.Some? ==>
      && Left(ss, 1 - k) == old(Left(ss, 1 - k))
      && |p.value| == (if len <= |old(Left(ss, k))| then len else |old(Left(ss, k))|)
      && old(Left(ss, k)) == p.value + Left(ss, k)
    ensures old(Ready(ss)) && p.None? ==> k == 1 && len > |old(Left(ss, 1))|
  {
    hide RingOk, RamOf, AllocSum, Ahead, AheadLen, SumLen, Uncounted, EndsEmpty, Remaining, AllBelow, AllAtLeast, Exact;
    if k == 0 {
      NeverPending(ss.file, ss.s[0].lastHead, ss.wl, ss.maxRam);
    }
    p := ss.ReadStream(k, len);
  }

  class ControlReader {
    const buf: array<byte>
    var pos: nat
    var end: nat
    const ss: StreamReader

    ghost predicate Valid()
      reads this, ss, ss.slots, ss.s
    {
      pos <= end <= buf.Length == RUNZIP_S0_WIN && Open(ss)
    }

    /** The window is invisible: what is still to be read from the control stream. */
    ghost function Rest(): seq<byte>
      requires Valid()
      reads this, buf, ss, ss.slots, ss.s
    {
      buf[pos..end] + Left(ss, 0)
    }

    /** The bytes that can at most still be taken. */
    ghost function Volume(): nat
      requires Valid()
      reads this, ss, ss.slots, ss.s
    {
      end - pos + ss.Volume(0)
    }

    /** What every method keeps. */
    twostate predicate Kept()
      requires old(Valid()) && Valid()
      reads this, buf, ss, ss.slots, ss.s
    {
      Tallied(ss) && StillReady(ss) && (old(Ready(ss)) ==> Left(ss, 1) == old(Left(ss, 1)))
    }

    constructor (ss: StreamReader)
      requires Open(ss)
      ensures Valid() && Rest() == Left(ss, 0) && this.ss == ss && fresh(buf)
    {
      this.ss := ss;
      buf := new byte[RUNZIP_S0_WIN](_ => 0);
      pos := 0;
      end := 0;
    }

    /** Move what is buffered to the front of the window. */
    method Compact()
      requires Valid()
      modifies this, buf
      ensures Valid() && pos == 0 && end == old(end - pos)
      ensures Rest() == old(Rest()) && Volume() == old(Volume())
    {
      hide Open, Ready, Left, StreamReader.Volume;
      var have := end - pos;
      if pos > 0 {
        ghost var was := buf[pos..end];
        forall i | 0 <= i < have {
          buf[i] := buf[pos + i];
        }
        pos := 0;
        end := have;
        assert buf[pos..end] == was;
      }
    }

    method Fill(space: nat) returns (got: Option<nat>)
      requires Valid() && space == RUNZIP_S0_WIN - end
      modifies this`end, buf, ss, ss.slots, ss.s
      ensures got.Some? ==> Valid() && Kept() && end == old(end) + got.value && Volume() == old(Volume())
      ensures old(Ready(ss)) ==>
        && got.Some? && Rest() == old(Rest())
        && (got.value < space ==> Left(ss, 0) == [])
    {
      hide Open, Ready, Left, Tallied, StillReady, StreamReader.Volume;
      ghost var was := buf[pos..end];
      assert (buf as object) != ss.slots && (buf as object) != ss.s;
      var p := ReadFrom(ss, 0, space);
      if p == None {
        return None;
      }
      assert buf[pos..end] == was;
      Store(p.value);
      return Some(|p.value|);
    }

    method Store(data: seq<byte>)
      requires pos <= end && end + |data| <= buf.Length
      modifies this`end, buf
      ensures end == old(end) + |data| && buf[pos..end] == old(buf[pos..end]) + data
    {
      forall i | 0 <= i < |data| {
        buf[end + i] := data[i];
      }
      end := end + |data|;
    }

    /** Ensure that at least `need` bytes are buffered. On streams that can be read this fails
        exactly when the control stream is too short. */
    method Need(need: nat) returns (ok: bool)
      requires Valid() && need <= RUNZIP_S0_WIN
      modifies this, buf, ss, ss.slots, ss.s
      ensures ok ==> Valid() && Kept() && Volume() == old(Volume()) && end - pos >= need
      ensures old(Ready(ss)) ==> Valid() && Kept() && Rest() == old(Rest()) && (ok <==> |Rest()| >= need)
    {
      hide Open, Ready, Left, StreamReader.Listing, StreamReader.TailPending, StreamReader.OneByOne, StreamReader.Ample,
        StreamReader.TailAhead, StreamReader.Owed, StreamReader.Volume;
      if end - pos >= need {
        return true;
      }
      Compact();
      ok := FillUp(need);
    }

    /** Read into the window until `need` bytes are there or the stream has no more. */
    method FillUp(need: nat) returns (ok: bool)
      requires Valid() && need <= RUNZIP_S0_WIN && pos == 0
      modifies this, buf, ss, ss.slots, ss.s
      ensures ok ==> Valid() && Kept() && Volume() == old(Volume()) && end - pos >= need
      ensures old(Ready(ss)) ==> Valid() && Kept() && Rest() == old(Rest()) && (ok <==> |Rest()| >= need)
    {
      hide Open, Ready, Left, StreamReader.Listing, StreamReader.TailPending, StreamReader.OneByOne, StreamReader.Ample,
        StreamReader.TailAhead, StreamReader.Owed, StreamReader.Volume;
      while end < need
        invariant Valid() && pos == 0 && Kept() && Volume() == old(Volume())
        invariant old(Ready(ss)) ==> Rest() == old(Rest())
        decreases need - end
      {
        var space := RUNZIP_S0_WIN - end;
        var got := Fill(space);
        if got == None {
          return false;
        }
        if got.value == 0 || got.value < space {
          break;
        }
      }
      ok := end >= need;
    }

    /** The next `n` bytes, or None when fewer are left. */
    method Take(n: nat) returns (r: Option<seq<byte>>)
      requires Valid() && n <= RUNZIP_S0_WIN
      modifies this, buf, ss, ss.slots, ss.s
      ensures r.Some? ==> Valid() && Kept() && |r.value| == n && Volume() + n == old(Volume())
      ensures old(Ready(ss)) ==>
        && (r.None? <==> |old(Rest())| < n)
        && (r.Some? ==> old(Rest()) == r.value + Rest())
    {
      hide Open, Ready, Left, Tallied, StillReady, StreamReader.Volume;
      var ok := Need(n);
      if !ok {
        return None;
      }
      r := Some(buf[pos..pos + n]);
      pos := pos + n;
    }
  }

  // ---- Matches ----

  /** Grow the first `period` bytes of a repeating pattern to `len` bytes, one period per copy. */
  method MatchExpand(buf: array<byte>, period: nat, offset: nat, len: nat)
    requires 1 <= offset && period == (if len < offset then len else offset) && len <= buf.Length
    modifies buf
    ensures buf[..period] == old(buf[..period])
    ensures forall k: nat | offset <= k < len :: buf[k] == buf[k - offset]
  {
    var pos := period;
    while pos < len
      invariant period <= pos <= len
      invariant buf[..period] == old(buf[..period])
      invariant forall k: nat | offset <= k < pos :: buf[k] == buf[k - offset]
    {
      var n := if len - pos < offset then len - pos else offset;
      forall i | 0 <= i < n {
        buf[pos + i] := buf[pos + i - offset];
      }
      pos := pos + n;
    }
  }

  lemma ExpandedIsCopy(out: seq<byte>, ofs: nat, len: nat, expanded: seq<byte>)
    requires 1 <= ofs <= |out| && |expanded| == len
    requires forall k: nat | k < len && k < ofs :: expanded[k] == out[|out| - ofs + k]
    requires forall k: nat | ofs <= k < len :: expanded[k] == expanded[k - ofs]
    ensures out + expanded == CopyBack(out, ofs, len)
  {
    var r := out + expanded;
    forall k: nat | |out| <= k < |r|
      ensures r[k] == r[k - ofs]
    {
      assert r[k] == expanded[k - |out|];
    }
    CopyBackUnique(out, ofs, len, r);
  }

  /** unzip_match, from the point where its offset is known to be in range. */
  method UnzipMatch(out: seq<byte>, ofs: nat, len: nat) returns (grown: seq<byte>)
    requires 1 <= ofs <= |out| && len >= 1
    ensures grown == CopyBack(out, ofs, len)
  {
    var period := if len < ofs then len else ofs;
    var buf := new byte[len](_ => 0);
    var hist := |out| - ofs;
    forall i | 0 <= i < period {
      buf[i] := out[hist + i];
    }
    ghost var first := buf[..period];
    MatchExpand(buf, period, ofs, len);
    forall k: nat | k < len && k < ofs
      ensures buf[..][k] == out[hist + k]
    {
      assert buf[..period][k] == first[k];
    }
    ExpandedIsCopy(out, ofs, len, buf[..]);
    grown := out + buf[..];
  }

  // ---- The token loop ----

  datatype Result = Restored(out: seq<byte>) | Unreadable

  method ReadHeader(s0: ControlReader) returns (ok: bool, head: byte, len: nat)
    requires s0.Valid()
    modifies s0, s0.buf, s0.ss, s0.ss.slots, s0.ss.s
    ensures ok ==> s0.Valid() && s0.Kept() && s0.Volume() + HEADER_LEN == old(s0.Volume())
    ensures old(Ready(s0.ss)) ==>
      && (ok <==> |old(s0.Rest())| >= HEADER_LEN)
      && (ok ==> head == old(s0.Rest())[0] && len == FromLE(old(s0.Rest())[1..HEADER_LEN]))
      && (ok ==> s0.Rest() == old(s0.Rest())[HEADER_LEN..])
  {
    hide Open, Ready, Left, Tallied, StillReady, FromLE, StreamReader.Volume;
    ghost var control := s0.Rest();
    ghost var ready := Ready(s0.ss);
    var header := s0.Take(HEADER_LEN);
    if header.None? {
      return false, 0, 0;
    }
    if ready {
      assert control[1..HEADER_LEN] == header.value[1..] && control[HEADER_LEN..] == s0.Rest();
    }
    return true, header.value[0], FromLE(header.value[1..]);
  }

  method ReadOffset(s0: ControlReader, chunkBytes: nat) returns (ok: bool, ofs: nat)
    requires s0.Valid() && chunkBytes <= 8
    modifies s0, s0.buf, s0.ss, s0.ss.slots, s0.ss.s
    ensures ok ==> s0.Valid() && s0.Kept() && s0.Volume() <= old(s0.Volume())
    ensures old(Ready(s0.ss)) ==>
      && (ok <==> |old(s0.Rest())| >= chunkBytes)
      && (ok ==> ofs == FromLE(old(s0.Rest())[..chunkBytes]) && s0.Rest() == old(s0.Rest())[chunkBytes..])
  {
    hide Open, Ready, Left, Tallied, StillReady, FromLE, StreamReader.Volume;
    ghost var control := s0.Rest();
    ghost var ready := Ready(s0.ss);
    var field := s0.Take(chunkBytes);
    if field.None? {
      return false, 0;
    }
    if ready {
      assert control[..chunkBytes] == field.value && control[chunkBytes..] == s0.Rest();
    }
    return true, FromLE(field.value);
  }

  /** unzip_literal: the next len bytes of the literal stream, or failure when there are fewer. */
  method UnzipLiteral(s0: ControlReader, len: nat) returns (ok: bool, data: seq<byte>)
    requires s0.Valid()
    modifies s0.ss, s0.ss.slots, s0.ss.s
    ensures ok ==> s0.Valid() && Tallied(s0.ss) && StillReady(s0.ss) && s0.Volume() == old(s0.Volume())
    ensures old(Ready(s0.ss)) ==>
      && (ok <==> |old(Left(s0.ss, 1))| >= len)
      && (ok ==> s0.Rest() == old(s0.Rest()))
      && (ok ==> data == old(Left(s0.ss, 1))[..len] && Left(s0.ss, 1) == old(Left(s0.ss, 1))[len..])
  {
    hide Ready, Left, Tallied, StillReady, StreamReader.Volume;
    ghost var before := Left(s0.ss, 1);
    ghost var ready := Ready(s0.ss);
    assert (s0.buf as object) != s0.ss.slots && (s0.buf as object) != s0.ss.s;
    var p := ReadFrom(s0.ss, 1, len);
    if p == None || |p.value| != len {
      return false, [];
    }
    if ready {
      assert before[..len] == p.value && before[len..] == Left(s0.ss, 1);
    }
    return true, p.value;
  }

  datatype Next = Another | AtEnd | Bad

  /** One token. */
  method RunToken(s0: ControlReader, out: seq<byte>, chunkBytes: nat) returns (next: Next, grown: seq<byte>)
    requires s0.Valid() && 1 <= chunkBytes <= 8
    modifies s0, s0.buf, s0.ss, s0.ss.slots, s0.ss.s
    ensures next != Bad ==> s0.Valid() && Tallied(s0.ss) && StillReady(s0.ss)
    ensures next != Bad ==> s0.Volume() + HEADER_LEN <= old(s0.Volume())
    ensures old(Ready(s0.ss)) ==>
      var was := old(Decode(s0.Rest(), Left(s0.ss, 1), out, chunkBytes));
      match next
      case Bad => was == Corrupt
      case AtEnd => was == Done(out, s0.Rest(), Left(s0.ss, 1)) && grown == out
      case Another => was == Decode(s0.Rest(), Left(s0.ss, 1), grown, chunkBytes)
  {
    hide Open, Ready, Left, FromLE, CopyBack, StreamReader.Listing, StreamReader.TailPending, StreamReader.OneByOne,
      StreamReader.Ample, StreamReader.TailAhead, StreamReader.Owed, StreamReader.Volume;
    var ok, head, len := ReadHeader(s0);
    if !ok {
      return Bad, out;
    }
    if head == 0 && len == 0 {
      return AtEnd, out;
    }
    if head == 0 {
      var enough, data := UnzipLiteral(s0, len);
      return (if enough then Another else Bad), out + data;
    }
    var enough, ofs := ReadOffset(s0, chunkBytes);
    if !enough || ofs < 1 || ofs > |out| || len < 1 {
      return Bad, out;
    }
    grown := UnzipMatch(out, ofs, len);
    return Another, grown;
  }

  /** Decode one chunk behind what has been written already. */
  method RunzipChunk(s0: ControlReader, out0: seq<byte>, chunkBytes: nat) returns (r: Result)
    requires s0.Valid() && 1 <= chunkBytes <= 8
    modifies s0, s0.buf, s0.ss, s0.ss.slots, s0.ss.s
    ensures r.Restored? ==> s0.Valid() && Tallied(s0.ss) && StillReady(s0.ss)
    ensures old(s0.Volume()) < HEADER_LEN ==> r == Unreadable
    ensures old(Ready(s0.ss)) ==>
      match old(Decode(s0.Rest(), Left(s0.ss, 1), out0, chunkBytes))
      case Corrupt => r == Unreadable
      case Done(out, control, lits) => r == Restored(out) && s0.Rest() == control && Left(s0.ss, 1) == lits
  {
    hide Open, Ready, Left, Decode, StreamReader.Listing, StreamReader.TailPending, StreamReader.OneByOne, StreamReader.Ample,
      StreamReader.TailAhead, StreamReader.Owed, StreamReader.Volume;
    var out := out0;
    while true
      invariant s0.Valid() && Tallied(s0.ss) && StillReady(s0.ss) && s0.Volume() <= old(s0.Volume())
      invariant old(Ready(s0.ss)) ==>
        Decode(s0.Rest(), Left(s0.ss, 1), out, chunkBytes) == old(Decode(s0.Rest(), Left(s0.ss, 1), out0, chunkBytes))
      decreases s0.Volume()
    {
      var next;
      next, out := RunToken(s0, out, chunkBytes);
      match next
      case Bad => return Unreadable;
      case AtEnd => return Restored(out);
      case Another =>
    }
  }
}
