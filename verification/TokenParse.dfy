/** What the token loop of runzip_chunk accepts: exactly the streams that some tokens print. */
module TokenParse {
  import opened Bytes
  import opened Tokens
  import Bits

  /** The bytes print the tokens, but any head other than 0 stands for a match. */
  ghost predicate Spells(bytes: seq<byte>, toks: seq<Token>, chunkBytes: nat) {
    if toks == [] then bytes == []
    else
      var t := TokenBytes(toks[0], chunkBytes);
      && |bytes| >= |t| && bytes[1..|t|] == t[1..] && (bytes[0] == 0 <==> toks[0].Literal?)
      && Spells(bytes[|t|..], toks[1..], chunkBytes)
  }

  lemma TwoBytes(s: seq<byte>)
    requires |s| == 2
    ensures FromLE(s) <= MAX_TOKEN_LEN && ToLE(FromLE(s), 2) == s
    ensures FromLE(s) == 0 ==> s == [0, 0]
  {
    ToLEOfFrom(s);
    assert Pow256(1) == 0x100 && Pow256(2) == 0x1_0000;
    assert s[1..][1..] == [];
  }

  /** The first token of a control stream that is accepted, and how many bytes it takes. */
  ghost predicate StartsWith(control: seq<byte>, literals: seq<byte>, out: seq<byte>, chunkBytes: nat, tok: Token, k: nat) {
    && Printable(tok, chunkBytes) && 3 <= k == |TokenBytes(tok, chunkBytes)| <= |control|
    && control[1..k] == TokenBytes(tok, chunkBytes)[1..] && (control[0] == 0 <==> tok.Literal?)
    && TokenLiteral(tok) <= literals && Apply(out, tok).Some?
    && Decode(control, literals, out, chunkBytes)
       == Decode(control[k..], literals[|TokenLiteral(tok)|..], Apply(out, tok).value, chunkBytes)
  }

  lemma FirstLiteral(control: seq<byte>, literals: seq<byte>, out: seq<byte>, chunkBytes: nat)
    requires Decode(control, literals, out, chunkBytes).Done?
    requires |control| >= 3 && control[0] == 0 && FromLE(control[1..3]) > 0
    ensures var len := FromLE(control[1..3]);
      len <= |literals| && StartsWith(control, literals, out, chunkBytes, Literal(literals[..len]), 3)
  {
    hide ToLE, FromLE, CopyBack, Pow256;
    TwoBytes(control[1..3]);
  }

  lemma FirstMatch(control: seq<byte>, literals: seq<byte>, out: seq<byte>, chunkBytes: nat)
    requires Decode(control, literals, out, chunkBytes).Done?
    requires |control| >= 3 && control[0] != 0
    ensures |control| >= 3 + chunkBytes
    ensures var tok := Match(FromLE(control[3..3 + chunkBytes]), FromLE(control[1..3]));
      StartsWith(control, literals, out, chunkBytes, tok, 3 + chunkBytes)
  {
    hide ToLE, FromLE, CopyBack, Pow256;
    var len, rest, k := FromLE(control[1..3]), control[3..], 3 + chunkBytes;
    assert |rest| >= chunkBytes;
    var field := rest[..chunkBytes];
    assert field == control[3..k] && rest[chunkBytes..] == control[k..];
    TwoBytes(control[1..3]);
    ToLEOfFrom(field);
    assert control[1..k] == control[1..3] + field;
    assert ([1] + ToLE(len, 2) + ToLE(FromLE(field), chunkBytes))[1..] == ToLE(len, 2) + ToLE(FromLE(field), chunkBytes);
  }

  /** What a token list says about the streams and the output. */
  ghost predicate Reads(control: seq<byte>, literals: seq<byte>, out: seq<byte>, chunkBytes: nat, toks: seq<Token>,
                        bytes: seq<byte>, d: Outcome)
  {
    && d.Done? && AllPrintable(toks, chunkBytes) && Spells(bytes, toks, chunkBytes)
    && control == bytes + END_MARK + d.control
    && literals == LiteralBytes(toks) + d.literals
    && Replay(out, toks) == Some(d.out)
  }

  lemma OneMoreToken(control: seq<byte>, literals: seq<byte>, out: seq<byte>, chunkBytes: nat, tok: Token, k: nat,
                     later: seq<Token>, rest: seq<byte>, d: Outcome)
    requires StartsWith(control, literals, out, chunkBytes, tok, k)
    requires Reads(control[k..], literals[|TokenLiteral(tok)|..], Apply(out, tok).value, chunkBytes, later, rest, d)
    ensures Reads(control, literals, out, chunkBytes, [tok] + later, control[..k] + rest, d)
  {
    hide Printable, Apply, Decode, TokenBytes, TokenLiteral;
    var toks, bytes, lit := [tok] + later, control[..k] + rest, TokenLiteral(tok);
    assert toks[1..] == later && bytes[k..] == rest && bytes[1..k] == control[1..k] && bytes[0] == control[0];
    assert control == control[..k] + control[k..] && literals == lit + literals[|lit|..];
    assert LiteralBytes(toks) == lit + LiteralBytes(later);
    assert Spells(bytes, toks, chunkBytes);
    assert control == bytes + END_MARK + d.control;
  }

  /** Whatever the token loop accepts is a list of tokens with lengths from 1 to 0xFFFF, each match
      reaching back into the output, then the end mark; it writes what they replay to and leaves
      what is behind them. */
  lemma {:induction false} AcceptedIsPrinted(control: seq<byte>, literals: seq<byte>, out: seq<byte>, chunkBytes: nat)
    returns (toks: seq<Token>, bytes: seq<byte>)
    requires Decode(control, literals, out, chunkBytes).Done?
    ensures Reads(control, literals, out, chunkBytes, toks, bytes, Decode(control, literals, out, chunkBytes))
    decreases |control|
  {
    if control[0] == 0 && FromLE(control[1..3]) == 0 {
      TwoBytes(control[1..3]);
      toks, bytes := [], [];
      assert control == END_MARK + control[3..];
    } else {
      hide Decode, FromLE, Printable, Apply, TokenBytes, TokenLiteral, Reads;
      var tok, k;
      if control[0] == 0 {
        FirstLiteral(control, literals, out, chunkBytes);
        tok, k := Literal(literals[..FromLE(control[1..3])]), 3;
      } else {
        FirstMatch(control, literals, out, chunkBytes);
        tok, k := Match(FromLE(control[3..3 + chunkBytes]), FromLE(control[1..3])), 3 + chunkBytes;
      }
      var later, rest := AcceptedIsPrinted(control[k..], literals[|TokenLiteral(tok)|..], Apply(out, tok).value, chunkBytes);
      OneMoreToken(control, literals, out, chunkBytes, tok, k, later, rest, Decode(control, literals, out, chunkBytes));
      toks, bytes := [tok] + later, control[..k] + rest;
    }
  }

  lemma AnyHead(control: seq<byte>, head: byte, literals: seq<byte>, out: seq<byte>, chunkBytes: nat)
    requires control != [] && (control[0] == 0 <==> head == 0)
    ensures Decode(control[0 := head], literals, out, chunkBytes) == Decode(control, literals, out, chunkBytes)
  {
    var other := control[0 := head];
    if |control| >= 3 {
      assert other[1..3] == control[1..3] && other[3..] == control[3..];
    }
  }

  /** A token, whatever its head if it is a match, is parsed and applied. */
  lemma SpelledFirst(tok: Token, head: seq<byte>, control: seq<byte>, literals: seq<byte>, out: seq<byte>, chunkBytes: nat)
    requires Printable(tok, chunkBytes) && |head| == |TokenBytes(tok, chunkBytes)| > 0
    requires head[1..] == TokenBytes(tok, chunkBytes)[1..] && (head[0] == 0 <==> tok.Literal?)
    ensures Decode(head + control, TokenLiteral(tok) + literals, out, chunkBytes)
         == match Apply(out, tok) case None => Corrupt case Some(next) => Decode(control, literals, next, chunkBytes)
  {
    hide Decode, Apply, Printable, ToLE;
    var t, all := TokenBytes(tok, chunkBytes), head + control;
    AnyHead(all, t[0], TokenLiteral(tok) + literals, out, chunkBytes);
    assert head == [head[0]] + head[1..] && t == [t[0]] + t[1..];
    assert all[0 := t[0]] == t + control;
    DecodeToken(tok, control, literals, out, chunkBytes);
  }

  /** And every such list is accepted, if its matches reach back no further than the output. */
  lemma {:induction false} SpelledIsDecoded(toks: seq<Token>, bytes: seq<byte>, control: seq<byte>, literals: seq<byte>,
                                            out: seq<byte>, chunkBytes: nat)
    requires AllPrintable(toks, chunkBytes) && Spells(bytes, toks, chunkBytes)
    ensures Decode(bytes + (END_MARK + control), LiteralBytes(toks) + literals, out, chunkBytes)
         == match Replay(out, toks) case None => Corrupt case Some(r) => Done(r, control, literals)
    decreases |toks|
  {
    hide Decode, Apply, Printable, TokenLiteral;
    if toks == [] {
      assert [] + (END_MARK + control) == END_MARK + control && [] + literals == literals;
      DecodeEndMark(control, literals, out, chunkBytes);
    } else {
      var k := |TokenBytes(toks[0], chunkBytes)|;
      assert k > 0;
      hide TokenBytes;
      var head, rest := bytes[..k], bytes[k..];
      Associate(head, rest, END_MARK + control);
      Associate(TokenLiteral(toks[0]), LiteralBytes(toks[1..]), literals);
      assert bytes == head + rest && head[1..] == bytes[1..k];
      assert Printable(toks[0], chunkBytes);
      SpelledFirst(toks[0], head, rest + (END_MARK + control), LiteralBytes(toks[1..]) + literals, out, chunkBytes);
      if Apply(out, toks[0]).Some? {
        SpelledIsDecoded(toks[1..], rest, control, literals, Apply(out, toks[0]).value, chunkBytes);
      }
    }
  }
}
