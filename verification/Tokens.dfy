/** The rzip control stream: literal and match tokens, what they expand to, how they are
    printed, and how runzip_chunk reads them back. */
module Tokens {
  import opened Bytes

  const MAX_TOKEN_LEN := 0xFFFF

  datatype Token = Literal(data: seq<byte>) | Match(ofs: nat, len: nat)

  // ---- Expansion ----

  /** Copy `len` bytes one at a time from `ofs` back; the source may overlap the copy. */
  function CopyBack(out: seq<byte>, ofs: nat, len: nat): (r: seq<byte>)
    requires 1 <= ofs <= |out|
    ensures |r| == |out| + len && out <= r
    decreases len, |out|
  {
    if len == 0 then out else CopyBack(out + [out[|out| - ofs]], ofs, len - 1)
  }

  /** One token, unless it refers to before the start of the output. */
  function Apply(out: seq<byte>, tok: Token): Option<seq<byte>> {
    match tok
    case Literal(data) => Some(out + data)
    case Match(ofs, len) => if 1 <= ofs <= |out| then Some(CopyBack(out, ofs, len)) else None
  }

  function Replay(out: seq<byte>, toks: seq<Token>): Option<seq<byte>>
    decreases |toks|
  {
    if toks == [] then Some(out)
    else match Apply(out, toks[0])
      case None => None
      case Some(next) => Replay(next, toks[1..])
  }

  lemma {:induction false} ReplayAppend(out: seq<byte>, a: seq<Token>, b: seq<Token>)
    ensures Replay(out, a + b) ==
      match Replay(out, a) case None => None case Some(mid) => Replay(mid, b)
    decreases |a|
  {
    if a == [] {
      assert a + b == b;
    } else {
      assert (a + b)[1..] == a[1..] + b;
      if Apply(out, a[0]).Some? {
        ReplayAppend(Apply(out, a[0]).value, a[1..], b);
      }
    }
  }

  lemma {:induction false} CopyBackSplit(out: seq<byte>, ofs: nat, m: nat, n: nat)
    requires 1 <= ofs <= |out|
    ensures CopyBack(CopyBack(out, ofs, m), ofs, n) == CopyBack(out, ofs, m + n)
    decreases m
  {
    if m > 0 {
      CopyBackSplit(out + [out[|out| - ofs]], ofs, m - 1, n);
    }
  }

  /** Byte k of a copy is the byte `ofs` before it. */
  lemma {:induction false} CopyBackAt(out: seq<byte>, ofs: nat, len: nat, k: nat)
    requires 1 <= ofs <= |out| <= k < |out| + len
    ensures CopyBack(out, ofs, len)[k] == CopyBack(out, ofs, len)[k - ofs]
    decreases len
  {
    var next := out + [out[|out| - ofs]];
    if k == |out| {
      assert next <= CopyBack(next, ofs, len - 1);
    } else {
      CopyBackAt(next, ofs, len - 1, k);
    }
  }

  /** That recurrence determines the copy. */
  lemma {:induction false} CopyBackUnique(out: seq<byte>, ofs: nat, len: nat, r: seq<byte>)
    requires 1 <= ofs <= |out| && |r| == |out| + len && out <= r
    requires forall k: nat | |out| <= k < |r| :: r[k] == r[k - ofs]
    ensures r == CopyBack(out, ofs, len)
    decreases len
  {
    if len > 0 {
      assert r[|out|] == r[|out| - ofs] == out[|out| - ofs];
      CopyBackUnique(out + [out[|out| - ofs]], ofs, len - 1, r);
    }
  }

  // ---- Pieces: put_match and put_literal cap every token at 0xFFFF bytes ----

  function MatchPieces(ofs: nat, len: nat): seq<Token>
    decreases len
  {
    if len <= MAX_TOKEN_LEN then [Match(ofs, len)]
    else [Match(ofs, MAX_TOKEN_LEN)] + MatchPieces(ofs, len - MAX_TOKEN_LEN)
  }

  function LiteralPieces(data: seq<byte>): seq<Token>
    decreases |data|
  {
    if |data| <= MAX_TOKEN_LEN then [Literal(data)]
    else [Literal(data[..MAX_TOKEN_LEN])] + LiteralPieces(data[MAX_TOKEN_LEN..])
  }

  lemma ReplayMatch(out: seq<byte>, ofs: nat, len: nat, rest: seq<Token>)
    requires 1 <= ofs <= |out|
    ensures Replay(out, [Match(ofs, len)] + rest) == Replay(CopyBack(out, ofs, len), rest)
  {
    assert ([Match(ofs, len)] + rest)[1..] == rest;
  }

  /** A split match expands like the match it came from. */
  lemma {:induction false} MatchPiecesReplay(out: seq<byte>, ofs: nat, len: nat)
    requires 1 <= ofs <= |out|
    ensures Replay(out, MatchPieces(ofs, len)) == Some(CopyBack(out, ofs, len))
    decreases len
  {
    if len <= MAX_TOKEN_LEN {
      ReplayMatch(out, ofs, len, []);
      assert [Match(ofs, len)] + [] == MatchPieces(ofs, len);
    } else {
      var rest := len - MAX_TOKEN_LEN;
      ReplayMatch(out, ofs, MAX_TOKEN_LEN, MatchPieces(ofs, rest));
      MatchPiecesReplay(CopyBack(out, ofs, MAX_TOKEN_LEN), ofs, rest);
      CopyBackSplit(out, ofs, MAX_TOKEN_LEN, rest);
    }
  }

  lemma {:induction false} LiteralPiecesReplay(out: seq<byte>, data: seq<byte>)
    ensures Replay(out, LiteralPieces(data)) == Some(out + data)
    ensures LiteralBytes(LiteralPieces(data)) == data
    decreases |data|
  {
    if |data| > MAX_TOKEN_LEN {
      var head, rest := data[..MAX_TOKEN_LEN], data[MAX_TOKEN_LEN..];
      assert LiteralPieces(data)[1..] == LiteralPieces(rest);
      LiteralPiecesReplay(out + head, rest);
      assert head + rest == data;
      assert out + head + rest == out + data;
    } else {
      assert LiteralPieces(data)[1..] == [];
    }
  }

  // ---- Printing ----

  function TokenBytes(tok: Token, chunkBytes: nat): seq<byte> {
    match tok
    case Literal(data) => [0] + ToLE(|data|, 2)
    case Match(ofs, len) => [1] + ToLE(len, 2) + ToLE(ofs, chunkBytes)
  }

  function TokenLiteral(tok: Token): seq<byte> {
    if tok.Literal? then tok.data else []
  }

  function ControlBytes(toks: seq<Token>, chunkBytes: nat): seq<byte> {
    if toks == [] then [] else TokenBytes(toks[0], chunkBytes) + ControlBytes(toks[1..], chunkBytes)
  }

  function LiteralBytes(toks: seq<Token>): seq<byte> {
    if toks == [] then [] else TokenLiteral(toks[0]) + LiteralBytes(toks[1..])
  }

  lemma {:induction false} ControlAppend(a: seq<Token>, b: seq<Token>, chunkBytes: nat)
    ensures ControlBytes(a + b, chunkBytes) == ControlBytes(a, chunkBytes) + ControlBytes(b, chunkBytes)
  {
    if a == [] {
      assert a + b == b;
    } else {
      assert (a + b)[1..] == a[1..] + b && (a + b)[0] == a[0];
      ControlAppend(a[1..], b, chunkBytes);
    }
  }

  lemma {:induction false} LiteralAppend(a: seq<Token>, b: seq<Token>)
    ensures LiteralBytes(a + b) == LiteralBytes(a) + LiteralBytes(b)
  {
    if a == [] {
      assert a + b == b;
    } else {
      assert (a + b)[1..] == a[1..] + b && (a + b)[0] == a[0];
      LiteralAppend(a[1..], b);
    }
  }

  /** What a control stream can carry: no token is empty and none is over its field width. */
  predicate Printable(tok: Token, chunkBytes: nat) {
    match tok
    case Literal(data) => 1 <= |data| <= MAX_TOKEN_LEN
    case Match(ofs, len) => 1 <= len <= MAX_TOKEN_LEN && 1 <= ofs < Pow256(chunkBytes)
  }

  ghost predicate AllPrintable(toks: seq<Token>, chunkBytes: nat) {
    forall i | 0 <= i < |toks| :: Printable(toks[i], chunkBytes)
  }

  lemma {:induction false} MatchPiecesPrintable(ofs: nat, len: nat, chunkBytes: nat)
    requires 1 <= ofs < Pow256(chunkBytes) && 1 <= len
    ensures AllPrintable(MatchPieces(ofs, len), chunkBytes)
    ensures LiteralBytes(MatchPieces(ofs, len)) == []
    decreases len
  {
    if len > MAX_TOKEN_LEN {
      assert MatchPieces(ofs, len)[1..] == MatchPieces(ofs, len - MAX_TOKEN_LEN);
      MatchPiecesPrintable(ofs, len - MAX_TOKEN_LEN, chunkBytes);
    }
  }

  lemma {:induction false} LiteralPiecesPrintable(data: seq<byte>, chunkBytes: nat)
    requires data != []
    ensures AllPrintable(LiteralPieces(data), chunkBytes)
    decreases |data|
  {
    if |data| > MAX_TOKEN_LEN {
      LiteralPiecesPrintable(data[MAX_TOKEN_LEN..], chunkBytes);
    }
  }

  // ---- How long the control stream is ----

  /** Into how many tokens n bytes are split. */
  function Pieces(n: nat): (k: nat)
    ensures k >= 1 && MAX_TOKEN_LEN * (k - 1) <= n
    ensures n <= 0xFFFF * k && (k > 1 ==> n > 0xFFFF * (k - 1))
  {
    if n <= MAX_TOKEN_LEN then 1 else 1 + Pieces(n - MAX_TOKEN_LEN)
  }

  lemma {:induction false} LiteralCost(data: seq<byte>, chunkBytes: nat)
    ensures |ControlBytes(LiteralPieces(data), chunkBytes)| == 3 * Pieces(|data|)
    decreases |data|
  {
    if |data| > MAX_TOKEN_LEN {
      assert LiteralPieces(data)[1..] == LiteralPieces(data[MAX_TOKEN_LEN..]);
      LiteralCost(data[MAX_TOKEN_LEN..], chunkBytes);
    } else {
      assert LiteralPieces(data)[1..] == [];
    }
  }

  lemma OneMore(m: nat, k: nat)
    ensures m * (1 + k) == m + m * k
  {
  }

  lemma {:induction false} MatchCost(ofs: nat, len: nat, chunkBytes: nat)
    ensures |ControlBytes(MatchPieces(ofs, len), chunkBytes)| == (3 + chunkBytes) * Pieces(len)
    decreases len
  {
    if len > MAX_TOKEN_LEN {
      assert MatchPieces(ofs, len)[1..] == MatchPieces(ofs, len - MAX_TOKEN_LEN);
      MatchCost(ofs, len - MAX_TOKEN_LEN, chunkBytes);
      OneMore(3 + chunkBytes, Pieces(len - MAX_TOKEN_LEN));
    } else {
      assert MatchPieces(ofs, len)[1..] == [];
    }
  }

  // ---- Parsing ----

  datatype Outcome = Done(out: seq<byte>, control: seq<byte>, literals: seq<byte>) | Corrupt

  const HEADER_LEN := 3

  /** The token loop of runzip_chunk over what is left of the two streams. `out` is everything
      written so far, earlier chunks included. */
  function Decode(control: seq<byte>, literals: seq<byte>, out: seq<byte>, chunkBytes: nat): Outcome
    decreases |control|
  {
    if |control| < HEADER_LEN then Corrupt
    else
      var head, len, rest := control[0], FromLE(control[1..HEADER_LEN]), control[HEADER_LEN..];
      if head == 0 && len == 0 then Done(out, rest, literals)
      else if head == 0 then
        if |literals| < len then Corrupt
        else Decode(rest, literals[len..], out + literals[..len], chunkBytes)
      else if |rest| < chunkBytes then Corrupt
      else
        var ofs := FromLE(rest[..chunkBytes]);
        if ofs < 1 || ofs > |out| || len < 1 then Corrupt
        else Decode(rest[chunkBytes..], literals, CopyBack(out, ofs, len), chunkBytes)
  }

  const END_MARK: seq<byte> := [0, 0, 0]

  lemma DecodeEndMark(control: seq<byte>, literals: seq<byte>, out: seq<byte>, chunkBytes: nat)
    ensures Decode(END_MARK + control, literals, out, chunkBytes) == Done(out, control, literals)
  {
    var all := END_MARK + control;
    assert all[1..HEADER_LEN] == [0, 0] && all[HEADER_LEN..] == control;
    assert FromLE([0, 0]) == 0 by {
      assert [0, 0][1..] == [0];
    }
  }

  lemma LengthField(len: nat)
    requires len <= MAX_TOKEN_LEN
    ensures FromLE(ToLE(len, 2)) == len
  {
    assert Pow256(1) == 0x100;
    assert Pow256(2) == 0x1_0000;
    LERoundTrip(len, 2);
  }

  lemma DecodeLiteral(data: seq<byte>, control: seq<byte>, literals: seq<byte>, out: seq<byte>, chunkBytes: nat)
    requires 1 <= |data| <= MAX_TOKEN_LEN
    ensures Decode([0] + ToLE(|data|, 2) + control, data + literals, out, chunkBytes)
         == Decode(control, literals, out + data, chunkBytes)
  {
    var all, lits := [0] + ToLE(|data|, 2) + control, data + literals;
    LengthField(|data|);
    assert all[1..HEADER_LEN] == ToLE(|data|, 2);
    assert all[HEADER_LEN..] == control;
    assert lits[..|data|] == data && lits[|data|..] == literals;
  }

  lemma DecodeMatch(ofs: nat, len: nat, control: seq<byte>, literals: seq<byte>, out: seq<byte>, chunkBytes: nat)
    requires Printable(Match(ofs, len), chunkBytes)
    ensures Decode([1] + ToLE(len, 2) + ToLE(ofs, chunkBytes) + control, literals, out, chunkBytes)
         == if ofs <= |out| then Decode(control, literals, CopyBack(out, ofs, len), chunkBytes) else Corrupt
  {
    var all := [1] + ToLE(len, 2) + ToLE(ofs, chunkBytes) + control;
    var rest := all[HEADER_LEN..];
    LengthField(len);
    LERoundTrip(ofs, chunkBytes);
    assert all[1..HEADER_LEN] == ToLE(len, 2);
    assert rest == ToLE(ofs, chunkBytes) + control;
    assert rest[..chunkBytes] == ToLE(ofs, chunkBytes);
    assert rest[chunkBytes..] == control;
  }

  lemma DecodeToken(tok: Token, control: seq<byte>, literals: seq<byte>, out: seq<byte>, chunkBytes: nat)
    requires Printable(tok, chunkBytes)
    ensures Decode(TokenBytes(tok, chunkBytes) + control, TokenLiteral(tok) + literals, out, chunkBytes)
         == match Apply(out, tok) case None => Corrupt case Some(next) => Decode(control, literals, next, chunkBytes)
  {
    match tok
    case Literal(data) => DecodeLiteral(data, control, literals, out, chunkBytes);
    case Match(ofs, len) =>
      DecodeMatch(ofs, len, control, literals, out, chunkBytes);
      assert TokenLiteral(tok) + literals == literals;
  }

  /** Decoding printed tokens expands them, stops at the end mark and leaves both streams just
      behind what was printed. */
  lemma {:induction false} DecodePrinted(toks: seq<Token>, control: seq<byte>, literals: seq<byte>,
                                         out: seq<byte>, chunkBytes: nat)
    requires AllPrintable(toks, chunkBytes)
    ensures Decode(ControlBytes(toks, chunkBytes) + (END_MARK + control), LiteralBytes(toks) + literals, out, chunkBytes)
         == match Replay(out, toks) case None => Corrupt case Some(r) => Done(r, control, literals)
    decreases |toks|
  {
    if toks == [] {
      assert [] + (END_MARK + control) == END_MARK + control && [] + literals == literals;
      DecodeEndMark(control, literals, out, chunkBytes);
    } else {
      var laterControl := ControlBytes(toks[1..], chunkBytes) + (END_MARK + control);
      var laterLiterals := LiteralBytes(toks[1..]) + literals;
      assert ControlBytes(toks, chunkBytes) + (END_MARK + control) == TokenBytes(toks[0], chunkBytes) + laterControl;
      assert LiteralBytes(toks) + literals == TokenLiteral(toks[0]) + laterLiterals;
      assert Printable(toks[0], chunkBytes);
      DecodeToken(toks[0], laterControl, laterLiterals, out, chunkBytes);
      if Apply(out, toks[0]).Some? {
        DecodePrinted(toks[1..], control, literals, Apply(out, toks[0]).value, chunkBytes);
      }
    }
  }

  /** What hash_search leaves on the two streams for a chunk. */
  ghost predicate Encodes(control: seq<byte>, literals: seq<byte>, chunk: seq<byte>, chunkBytes: nat) {
    exists toks: seq<Token> ::
      && AllPrintable(toks, chunkBytes)
      && control == ControlBytes(toks, chunkBytes) + END_MARK
      && literals == LiteralBytes(toks)
      && Replay([], toks) == Some(chunk)
  }

  lemma {:induction false} ReplayBehind(earlier: seq<byte>, out: seq<byte>, toks: seq<Token>)
    requires Replay(out, toks).Some?
    ensures Replay(earlier + out, toks) == Some(earlier + Replay(out, toks).value)
    decreases |toks|
  {
    if toks != [] {
      match toks[0]
      case Literal(data) =>
        assert earlier + out + data == earlier + (out + data);
        ReplayBehind(earlier, out + data, toks[1..]);
      case Match(ofs, len) =>
        CopyBackBehind(earlier, out, ofs, len);
        ReplayBehind(earlier, CopyBack(out, ofs, len), toks[1..]);
    }
  }

  lemma {:induction false} CopyBackBehind(earlier: seq<byte>, out: seq<byte>, ofs: nat, len: nat)
    requires 1 <= ofs <= |out|
    ensures CopyBack(earlier + out, ofs, len) == earlier + CopyBack(out, ofs, len)
    decreases len
  {
    if len > 0 {
      var b := out[|out| - ofs];
      assert (earlier + out)[|earlier + out| - ofs] == b;
      assert earlier + out + [b] == earlier + (out + [b]);
      CopyBackBehind(earlier, out + [b], ofs, len - 1);
    }
  }

  /** The round trip of a chunk: whatever was written before it, the decoder appends exactly the
      chunk and consumes exactly the two streams. */
  lemma DecodeRestoresChunk(control: seq<byte>, literals: seq<byte>, chunk: seq<byte>, out: seq<byte>, chunkBytes: nat)
    requires Encodes(control, literals, chunk, chunkBytes)
    ensures Decode(control, literals, out, chunkBytes) == Done(out + chunk, [], [])
  {
    var toks: seq<Token> :|
      && AllPrintable(toks, chunkBytes)
      && control == ControlBytes(toks, chunkBytes) + END_MARK
      && literals == LiteralBytes(toks)
      && Replay([], toks) == Some(chunk);
    ReplayBehind(out, [], toks);
    assert out + [] == out;
    DecodePrinted(toks, [], [], out, chunkBytes);
    assert ControlBytes(toks, chunkBytes) + (END_MARK + []) == control;
    assert LiteralBytes(toks) + [] == literals;
  }
}
