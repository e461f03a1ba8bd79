/** How rzip.c writes tokens: control bytes are batched in a fixed buffer in front of stream 0,
    literal bytes go to stream 1. */
module ControlWriter {
  import opened Bytes
  import opened Tokens
  import opened StreamOut

  const RZIP_S0_BUFSIZE := 4096

  lemma LiteralSplit(chunk: seq<byte>, from: nat, p: nat)
    requires from + MAX_TOKEN_LEN < p <= |chunk|
    ensures LiteralPieces(chunk[from..p])
      == [Literal(chunk[from..from + MAX_TOKEN_LEN])] + LiteralPieces(chunk[from + MAX_TOKEN_LEN..p])
  {
    assert chunk[from..p][..MAX_TOKEN_LEN] == chunk[from..from + MAX_TOKEN_LEN];
    assert chunk[from..p][MAX_TOKEN_LEN..] == chunk[from + MAX_TOKEN_LEN..p];
  }

  class ControlWriter {
    const s0Buf: array<byte>
    var s0Len: nat
    const ss: StreamInfo
    const chunkBytes: nat
    ghost var toks: seq<Token>

    ghost predicate Valid()
      reads this, s0Buf, ss
    {
      && s0Buf.Length == RZIP_S0_BUFSIZE
      && s0Len < RZIP_S0_BUFSIZE
      && ss.Valid()
    }

    /** Batching is invisible: what has been written to the control stream so far. */
    ghost function Control(): seq<byte>
      requires Valid()
      reads this, s0Buf, ss
    {
      ss.Written(0) + s0Buf[..s0Len]
    }

    ghost function Literals(): seq<byte>
      requires Valid()
      reads this, s0Buf, ss
    {
      ss.Written(1)
    }

    ghost predicate Printed()
      reads this, s0Buf, ss
    {
      Valid() && Control() == ControlBytes(toks, chunkBytes) && Literals() == LiteralBytes(toks)
    }

    constructor (ss: StreamInfo, chunkBytes: nat)
      requires ss.Valid() && ss.Written(0) == [] && ss.Written(1) == []
      ensures Printed() && toks == [] && fresh(s0Buf)
      ensures this.ss == ss && this.chunkBytes == chunkBytes
    {
      this.ss := ss;
      this.chunkBytes := chunkBytes;
      s0Buf := new byte[RZIP_S0_BUFSIZE](_ => 0);
      s0Len := 0;
      toks := [];
    }

    method S0Flush()
      requires s0Buf.Length == RZIP_S0_BUFSIZE && s0Len <= RZIP_S0_BUFSIZE && ss.Valid()
      modifies this`s0Len, ss
      ensures Valid() && s0Len == 0
      ensures ss.Written(0) == old(ss.Written(0) + s0Buf[..s0Len])
      ensures ss.Written(1) == old(ss.Written(1))
    {
      if s0Len > 0 {
        ss.WriteStream(0, s0Buf[..s0Len]);
        s0Len := 0;
      }
    }

    method AppendToBuffer(piece: seq<byte>)
      requires Valid() && s0Len + |piece| <= RZIP_S0_BUFSIZE
      modifies this`s0Len, s0Buf
      ensures s0Len == old(s0Len) + |piece| && s0Buf[..s0Len] == old(s0Buf[..s0Len]) + piece
    {
      forall i | 0 <= i < |piece| {
        s0Buf[s0Len + i] := piece[i];
      }
      s0Len := s0Len + |piece|;
    }

    method S0Write(p: seq<byte>)
      requires Valid()
      modifies this`s0Len, s0Buf, ss
      ensures Valid()
      ensures Control() == old(Control()) + p && Literals() == old(Literals())
    {
      var done := 0;
      while done < |p|
        invariant 0 <= done <= |p| && Valid()
        invariant ss.Written(0) + s0Buf[..s0Len] == old(Control()) + p[..done]
        invariant ss.Written(1) == old(Literals())
      {
        var room := RZIP_S0_BUFSIZE - s0Len;
        var n := if room > |p| - done then |p| - done else room;
        ghost var was, before, piece := s0Buf[..s0Len], p[..done], p[done..done + n];
        AppendToBuffer(p[done..done + n]);
        assert ss.Written(0) + s0Buf[..s0Len] == ss.Written(0) + was + piece;
        assert p[..done + n] == before + piece;
        done := done + n;
        if s0Len == RZIP_S0_BUFSIZE {
          S0Flush();
        }
      }
      assert p[..done] == p;
    }

    method PutHeader(head: byte, len: nat)
      requires Valid()
      modifies this`s0Len, s0Buf, ss
      ensures Valid()
      ensures Control() == old(Control()) + ([head] + ToLE(len, 2)) && Literals() == old(Literals())
    {
      S0Write([head]);
      S0Write(ToLE(len, 2));
    }

    ghost method RecordToken(tok: Token)
      requires Valid()
      requires Control() == ControlBytes(toks, chunkBytes) + TokenBytes(tok, chunkBytes)
      requires Literals() == LiteralBytes(toks) + TokenLiteral(tok)
      modifies this`toks
      ensures Printed() && toks == old(toks) + [tok]
    {
      ControlAppend(toks, [tok], chunkBytes);
      LiteralAppend(toks, [tok]);
      toks := toks + [tok];
    }

    method PutMatchToken(ofs: nat, n: nat)
      requires Printed()
      modifies this, s0Buf, ss
      ensures Printed() && toks == old(toks) + [Match(ofs, n)]
    {
      ghost var c := Control();
      PutHeader(1, n);
      S0Write(ToLE(ofs, chunkBytes));
      Associate(c, [1] + ToLE(n, 2), ToLE(ofs, chunkBytes));
      RecordToken(Match(ofs, n));
    }

    method PutLiteralToken(data: seq<byte>)
      requires Printed()
      modifies this, s0Buf, ss
      ensures Printed() && toks == old(toks) + [Literal(data)]
    {
      PutHeader(0, |data|);
      if |data| > 0 {
        ss.WriteStream(1, data);
      }
      assert old(Literals()) + data == LiteralBytes(toks) + TokenLiteral(Literal(data));
      RecordToken(Literal(data));
    }

    method PutMatch(p: nat, offset: nat, len: nat)
      requires Printed() && offset < p
      modifies this, s0Buf, ss
      ensures Printed() && toks == old(toks) + MatchPieces(p - offset, len)
    {
      hide ControlBytes, LiteralBytes;
      var ofs := p - offset;
      var left: nat := len;
      while left > MAX_TOKEN_LEN
        invariant Printed()
        invariant toks + MatchPieces(ofs, left) == old(toks) + MatchPieces(ofs, len)
        decreases left
      {
        ghost var was := toks;
        PutMatchToken(ofs, MAX_TOKEN_LEN);
        left := left - MAX_TOKEN_LEN;
        Associate(was, [Match(ofs, MAX_TOKEN_LEN)], MatchPieces(ofs, left));
      }
      PutMatchToken(ofs, left);
    }

    method PutLiteral(chunk: seq<byte>, last: nat, p: nat)
      requires Printed() && last <= p <= |chunk|
      modifies this, s0Buf, ss
      ensures Printed() && toks == old(toks) + LiteralPieces(chunk[last..p])
    {
      hide ControlBytes, LiteralBytes;
      var from: nat := last;
      while p - from > MAX_TOKEN_LEN
        invariant Printed() && from <= p
        invariant toks + LiteralPieces(chunk[from..p]) == old(toks) + LiteralPieces(chunk[last..p])
        decreases p - from
      {
        ghost var was := toks;
        LiteralSplit(chunk, from, p);
        PutLiteralToken(chunk[from..from + MAX_TOKEN_LEN]);
        from := from + MAX_TOKEN_LEN;
        Associate(was, [Literal(chunk[from - MAX_TOKEN_LEN..from])], LiteralPieces(chunk[from..p]));
      }
      PutLiteralToken(chunk[from..p]);
    }
  }
}
