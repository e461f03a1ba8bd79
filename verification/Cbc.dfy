/** lrz_crypt: cipher block chaining with ciphertext stealing, in place, over any block cipher. */
module Cbc {
  const CBC_LEN := 16

  type Block = s: seq<bv8> | |s| == CBC_LEN witness seq(CBC_LEN, _ => 0)

  /** What the key and the salt come to: the block functions and the first chaining value. */
  datatype Cipher = Cipher(enc: Block -> Block, dec: Block -> Block, iv: Block)

  ghost predicate Inverse(c: Cipher) {
    forall b: Block :: c.dec(c.enc(b)) == b
  }

  function Xor(a: Block, b: Block): Block {
    seq(CBC_LEN, i requires 0 <= i < CBC_LEN => a[i] ^ b[i])
  }

  /** A byte of the result is zero exactly where the blocks agree, and zeros change nothing. */
  lemma XorIsDifference(a: Block, b: Block)
    ensures forall i | 0 <= i < CBC_LEN :: Xor(a, b)[i] == 0 <==> a[i] == b[i]
    ensures (forall i | 0 <= i < CBC_LEN :: b[i] == 0) ==> Xor(a, b) == a
  {
    forall i | 0 <= i < CBC_LEN
      ensures Xor(a, b)[i] == 0 <==> a[i] == b[i]
      ensures b[i] == 0 ==> Xor(a, b)[i] == a[i]
    {
      BitsDiffer(a[i], b[i]);
    }
  }

  lemma BitsDiffer(a: bv8, b: bv8)
    ensures a ^ b == 0 <==> a == b
    ensures b == 0 ==> a ^ b == a
  {
  }

  lemma XorTwice(a: Block, b: Block)
    ensures Xor(Xor(a, b), b) == a
  {
    forall i | 0 <= i < CBC_LEN
      ensures Xor(Xor(a, b), b)[i] == a[i]
    {
      BitsTwice(a[i], b[i]);
    }
  }

  lemma BitsTwice(a: bv8, b: bv8)
    ensures (a ^ b) ^ b == a
  {
  }

  // ---- Chaining ----

  function Enc(c: Cipher, iv: Block, p: seq<bv8>): (r: seq<bv8>)
    ensures |p| % CBC_LEN == 0 ==> |r| == |p|
    decreases |p|
  {
    if |p| < CBC_LEN then []
    else
      var b := c.enc(Xor(p[..CBC_LEN], iv));
      b + Enc(c, b, p[CBC_LEN..])
  }

  function Dec(c: Cipher, iv: Block, s: seq<bv8>): (r: seq<bv8>)
    ensures |s| % CBC_LEN == 0 ==> |r| == |s|
    decreases |s|
  {
    if |s| < CBC_LEN then []
    else Xor(c.dec(s[..CBC_LEN]), iv) + Dec(c, s[..CBC_LEN], s[CBC_LEN..])
  }

  /** The chaining value behind some ciphertext. */
  function Last(iv: Block, s: seq<bv8>): Block {
    if |s| < CBC_LEN then iv else s[|s| - CBC_LEN..]
  }

  lemma {:induction false} EncAppend(c: Cipher, iv: Block, p: seq<bv8>, q: seq<bv8>)
    requires |p| % CBC_LEN == 0
    ensures Enc(c, iv, p + q) == Enc(c, iv, p) + Enc(c, Last(iv, Enc(c, iv, p)), q)
    decreases |p|
  {
    hide Xor, Last;
    if p == [] {
      assert p + q == q;
      LastBehind(iv, iv, []);
    } else {
      var b := c.enc(Xor(p[..CBC_LEN], iv));
      var rest := Enc(c, b, p[CBC_LEN..]);
      assert (p + q)[..CBC_LEN] == p[..CBC_LEN] && (p + q)[CBC_LEN..] == p[CBC_LEN..] + q;
      EncAppend(c, b, p[CBC_LEN..], q);
      LastBehind(iv, b, rest);
      assert Enc(c, iv, p) == b + rest && Enc(c, iv, p + q) == b + Enc(c, b, p[CBC_LEN..] + q);
    }
  }

  lemma LastBehind(iv: Block, b: Block, rest: seq<bv8>)
    requires |rest| % CBC_LEN == 0
    ensures Last(iv, b + rest) == Last(b, rest) && Last(iv, []) == iv
  {
  }

  lemma {:induction false} DecAppend(c: Cipher, iv: Block, s: seq<bv8>, t: seq<bv8>)
    requires |s| % CBC_LEN == 0
    ensures Dec(c, iv, s + t) == Dec(c, iv, s) + Dec(c, Last(iv, s), t)
    decreases |s|
  {
    hide Xor, Last;
    if s == [] {
      assert s + t == t;
      LastBehind(iv, iv, []);
    } else {
      assert (s + t)[..CBC_LEN] == s[..CBC_LEN] && (s + t)[CBC_LEN..] == s[CBC_LEN..] + t;
      DecAppend(c, s[..CBC_LEN], s[CBC_LEN..], t);
      assert s == s[..CBC_LEN] + s[CBC_LEN..];
      LastBehind(iv, s[..CBC_LEN], s[CBC_LEN..]);
    }
  }

  lemma {:induction false} ChainRoundTrip(c: Cipher, iv: Block, p: seq<bv8>)
    requires Inverse(c) && |p| % CBC_LEN == 0
    ensures Dec(c, iv, Enc(c, iv, p)) == p
    decreases |p|
  {
    if p != [] {
      var b := c.enc(Xor(p[..CBC_LEN], iv));
      var s := Enc(c, iv, p);
      assert s[..CBC_LEN] == b && s[CBC_LEN..] == Enc(c, b, p[CBC_LEN..]);
      ChainRoundTrip(c, b, p[CBC_LEN..]);
      XorTwice(p[..CBC_LEN], iv);
      assert p == p[..CBC_LEN] + p[CBC_LEN..];
    }
  }

  /** Every block is encrypted together with the ciphertext block before it, the first with the
      initial value. */
  lemma EncAt(c: Cipher, iv: Block, p: seq<bv8>, k: nat)
    requires |p| % CBC_LEN == 0 && k % CBC_LEN == 0 && k + CBC_LEN <= |p|
    ensures var s := Enc(c, iv, p);
      s[k..k + CBC_LEN] == c.enc(Xor(p[k..k + CBC_LEN], if k == 0 then iv else s[k - CBC_LEN..k]))
  {
    hide Xor;
    var front, rest := p[..k], p[k..];
    assert p == front + rest && rest[..CBC_LEN] == p[k..k + CBC_LEN];
    EncAppend(c, iv, front, rest);
    var done := Enc(c, iv, front);
    assert k > 0 ==> Last(iv, done) == done[k - CBC_LEN..];
  }

  // ---- Stealing ----

  /** Data that can be encrypted: none, or at least one whole block. */
  predicate LongEnough(n: nat) {
    n == 0 || n >= CBC_LEN
  }

  function Padded(t: seq<bv8>): Block
    requires |t| <= CBC_LEN
  {
    t + seq(CBC_LEN - |t|, _ => 0)
  }

  function Encrypted(c: Cipher, p: seq<bv8>): seq<bv8>
    requires LongEnough(|p|)
  {
    var m := |p| % CBC_LEN;
    var n := |p| - m;
    var s := Enc(c, c.iv, p[..n]);
    if m == 0 then s
    else
      var last := s[n - CBC_LEN..];
      s[..n - CBC_LEN] + c.enc(Xor(Padded(p[n..]), last)) + last[..m]
  }

  function Decrypted(c: Cipher, s: seq<bv8>): seq<bv8>
    requires LongEnough(|s|)
  {
    var m := |s| % CBC_LEN;
    var n := |s| - m;
    if m == 0 then Dec(c, c.iv, s)
    else
      var head := s[..n - CBC_LEN];
      var mixed := Xor(c.dec(s[n - CBC_LEN..n]), Padded(s[n..]));
      var stolen := s[n..] + mixed[m..];
      Dec(c, c.iv, head) + Xor(c.dec(stolen), Last(c.iv, head)) + mixed[..m]
  }

  /** Encryption is the chain over the data filled up with zeros, with its last two blocks exchanged and
      cut to the data's length. */
  lemma EncryptedIsChain(c: Cipher, p: seq<bv8>)
    requires LongEnough(|p|)
    ensures |p| % CBC_LEN == 0 ==> Encrypted(c, p) == Enc(c, c.iv, p)
    ensures |p| % CBC_LEN != 0 ==>
      var m := |p| % CBC_LEN;
      var n, full := |p| - m, Enc(c, c.iv, p + Zeros(CBC_LEN - m));
      && |full| == n + CBC_LEN
      && Encrypted(c, p) == full[..n - CBC_LEN] + full[n..] + full[n - CBC_LEN..n - CBC_LEN + m]
  {
    var m := |p| % CBC_LEN;
    var n := |p| - m;
    if m == 0 {
      assert p[..n] == p;
    } else {
      FullChain(c, p, n, m);
    }
  }

  function Zeros(n: nat): seq<bv8> {
    seq(n, _ => 0)
  }

  lemma FullChain(c: Cipher, p: seq<bv8>, n: nat, m: nat)
    requires |p| == n + m && n % CBC_LEN == 0 && n > 0 && 0 < m < CBC_LEN
    ensures var s, k, full := Enc(c, c.iv, p[..n]), n - CBC_LEN, Enc(c, c.iv, p + Zeros(CBC_LEN - m));
      full == s + c.enc(Xor(Padded(p[n..]), s[k..])) && |s| == n
  {
    var s, tail := Enc(c, c.iv, p[..n]), Padded(p[n..]);
    assert p + Zeros(CBC_LEN - m) == p[..n] + tail;
    EncAppend(c, c.iv, p[..n], tail);
    assert tail[..CBC_LEN] == tail && tail[CBC_LEN..] == [];
  }

  /** XOR with the padded tail and with the stolen bytes again: the tail comes back in front, and
      behind it the bytes of the last ciphertext block that were not stored. */
  lemma Unmix(tail: seq<bv8>, last: Block)
    requires |tail| < CBC_LEN
    ensures var m := |tail|;
      var mixed := Xor(Xor(Padded(tail), last), Padded(last[..m]));
      mixed[..m] == tail && last[..m] + mixed[m..] == last
  {
    var m := |tail|;
    var mixed := Xor(Xor(Padded(tail), last), Padded(last[..m]));
    forall i | 0 <= i < CBC_LEN
      ensures mixed[i] == if i < m then tail[i] else last[i]
    {
      assert mixed[i] == (Padded(tail)[i] ^ last[i]) ^ Padded(last[..m])[i];
      if i < m {
        BitsTwice(tail[i], last[i]);
      } else {
        NoBits(last[i]);
      }
    }
  }

  lemma NoBits(a: bv8)
    ensures (0 ^ a) ^ 0 == a
  {
  }

  /** A whole block of chaining at the end. */
  lemma LastBlock(c: Cipher, iv: Block, p: seq<bv8>)
    requires Inverse(c) && |p| % CBC_LEN == 0 && p != []
    ensures var s, k := Enc(c, iv, p), |p| - CBC_LEN;
      && Dec(c, iv, s[..k]) == p[..k]
      && Xor(c.dec(s[k..]), Last(iv, s[..k])) == p[k..]
  {
    var s, k := Enc(c, iv, p), |p| - CBC_LEN;
    assert p == p[..k] + p[k..] && s == s[..k] + s[k..];
    DecAppend(c, iv, s[..k], s[k..]);
    ChainRoundTrip(c, iv, p);
    OneBlock(c, Last(iv, s[..k]), s[k..]);
  }

  lemma OneBlock(c: Cipher, iv: Block, b: Block)
    ensures Dec(c, iv, b) == Xor(c.dec(b), iv)
  {
    assert b[..CBC_LEN] == b && b[CBC_LEN..] == [];
  }

  /** Decryption undoes encryption and keeps the length, for every length that can be encrypted. */
  lemma CryptRoundTrip(c: Cipher, p: seq<bv8>)
    requires Inverse(c) && LongEnough(|p|)
    ensures |Encrypted(c, p)| == |p|
    ensures Decrypted(c, Encrypted(c, p)) == p
  {
    var m := |p| % CBC_LEN;
    var n := |p| - m;
    if m == 0 {
      assert p[..n] == p;
      ChainRoundTrip(c, c.iv, p);
    } else {
      StealingRoundTrip(c, p, n, m);
    }
  }

  lemma StealingRoundTrip(c: Cipher, p: seq<bv8>, n: nat, m: nat)
    requires Inverse(c) && |p| == n + m && n % CBC_LEN == 0 && n > 0 && 0 < m < CBC_LEN
    ensures |Encrypted(c, p)| == |p|
    ensures Decrypted(c, Encrypted(c, p)) == p
  {
    hide Enc, Dec, Xor;
    var k := n - CBC_LEN;
    var s := Enc(c, c.iv, p[..n]);
    var last := s[k..];
    var swapped := c.enc(Xor(Padded(p[n..]), last));
    var out := Encrypted(c, p);
    assert out == s[..k] + swapped + last[..m];
    assert out[..k] == s[..k] && out[k..n] == swapped && out[n..] == last[..m];
    Unmix(p[n..], last);
    LastBlock(c, c.iv, p[..n]);
    assert p == p[..k] + p[k..n] + p[n..];
    assert p[..n][..k] == p[..k] && p[..n][k..] == p[k..n];
  }

  // ---- In place ----

  /** Store bytes at `at`; what is before and behind stays. */
  method Store(buf: array<bv8>, at: nat, b: seq<bv8>)
    requires at + |b| <= buf.Length
    modifies buf
    ensures buf[..at] == old(buf[..at]) && buf[at..at + |b|] == b && buf[at + |b|..] == old(buf[at + |b|..])
  {
    forall i | 0 <= i < |b| {
      buf[at + i] := b[i];
    }
  }

  lemma EncBlock(c: Cipher, iv: Block, p: seq<bv8>, at: nat, b: seq<bv8>)
    requires at + CBC_LEN <= |p| && b == p[at..at + CBC_LEN]
    ensures Enc(c, iv, p[at..]) == c.enc(Xor(b, iv)) + Enc(c, c.enc(Xor(b, iv)), p[at + CBC_LEN..])
  {
    assert p[at..][..CBC_LEN] == b && p[at..][CBC_LEN..] == p[at + CBC_LEN..];
  }

  lemma DecBlock(c: Cipher, iv: Block, s: seq<bv8>, at: nat, b: seq<bv8>)
    requires at + CBC_LEN <= |s| && b == s[at..at + CBC_LEN]
    ensures Dec(c, iv, s[at..]) == Xor(c.dec(b), iv) + Dec(c, b, s[at + CBC_LEN..])
  {
    assert s[at..][..CBC_LEN] == b && s[at..][CBC_LEN..] == s[at + CBC_LEN..];
  }

  /** The part not yet done is as it was. */
  lemma Untouched(now: seq<bv8>, was: seq<bv8>, at: nat, length: nat)
    requires |now| == |was| && at + CBC_LEN <= length <= |now| && now[at..] == was[at..]
    ensures now[at..at + CBC_LEN] == was[..length][at..at + CBC_LEN]
    ensures now[at + CBC_LEN..] == was[at + CBC_LEN..]
  {
    assert now[at + CBC_LEN..] == now[at..][CBC_LEN..] && was[at + CBC_LEN..] == was[at..][CBC_LEN..];
    assert now[at..at + CBC_LEN] == now[at..][..CBC_LEN] && was[at..][..CBC_LEN] == was[..length][at..at + CBC_LEN];
  }

  lemma Extended(now: seq<bv8>, was: seq<bv8>, at: nat, b: seq<bv8>, rest: seq<bv8>)
    requires |now| == |was| && at + |b| <= |now|
    requires now[..at] == was[..at] && now[at..at + |b|] == b
    ensures now[..at + |b|] + rest == was[..at] + (b + rest)
  {
    assert now[..at + |b|] == now[..at] + now[at..at + |b|];
  }

  lemma LastOf(iv: Block, s: seq<bv8>, at: nat, b: Block)
    requires at + CBC_LEN <= |s| && s[at..at + CBC_LEN] == b
    ensures Last(iv, s[..at + CBC_LEN]) == b
  {
    assert s[..at + CBC_LEN][at..] == b;
  }

  /** Store a block behind what is done; `rest` is what is still to come. */
  method Put(buf: array<bv8>, at: nat, b: Block, ghost rest: seq<bv8>)
    requires at + CBC_LEN <= buf.Length
    modifies buf
    ensures buf[at..at + CBC_LEN] == b && buf[at + CBC_LEN..] == old(buf[at + CBC_LEN..])
    ensures buf[..at + CBC_LEN] + rest == old(buf[..at]) + (b + rest)
  {
    ghost var now := buf[..];
    Store(buf, at, b);
    Extended(buf[..], now, at, b, rest);
  }

  /** The block at `at` of the data `was`, the ones before it being done. */
  method EncryptBlock(c: Cipher, length: nat, at: nat, ghost iv0: Block, iv: Block, buf: array<bv8>, ghost was: seq<bv8>)
    returns (next: Block)
    requires at + CBC_LEN <= length <= buf.Length == |was| && buf[at..] == was[at..]
    modifies buf
    ensures buf[at + CBC_LEN..] == was[at + CBC_LEN..]
    ensures var p := was[..length];
      buf[..at + CBC_LEN] + Enc(c, next, p[at + CBC_LEN..]) == old(buf[..at]) + Enc(c, iv, p[at..])
    ensures next == Last(iv0, buf[..at + CBC_LEN])
  {
    hide Enc, Last, Xor;
    ghost var p := was[..length];
    Untouched(buf[..], was, at, length);
    EncBlock(c, iv, p, at, buf[at..at + CBC_LEN]);
    next := c.enc(Xor(buf[at..at + CBC_LEN], iv));
    Put(buf, at, next, Enc(c, next, p[at + CBC_LEN..]));
    LastOf(iv0, buf[..], at, next);
  }

  /** aes_crypt_cbc for encryption, in place: the first `length` bytes of buf; iv ends as the last
      ciphertext block. */
  method AesCbcEncrypt(c: Cipher, length: nat, iv0: Block, buf: array<bv8>) returns (iv: Block)
    requires length % CBC_LEN == 0 && length <= buf.Length
    modifies buf
    ensures buf[..length] == Enc(c, iv0, old(buf[..length])) && buf[length..] == old(buf[length..])
    ensures iv == Last(iv0, buf[..length])
  {
    hide Enc, Last, Xor;
    ghost var was := buf[..];
    ghost var p := was[..length];
    iv := iv0;
    var at := 0;
    NothingDone(c, iv0, p, was);
    while at < length
      invariant at <= length && at % CBC_LEN == 0
      invariant buf[at..] == was[at..]
      invariant buf[..at] + Enc(c, iv, p[at..]) == Enc(c, iv0, p)
      invariant iv == Last(iv0, buf[..at])
    {
      iv := EncryptBlock(c, length, at, iv0, iv, buf, was);
      at := at + CBC_LEN;
    }
    NothingLeft(c, iv, p, at);
    Ended(buf[..], was, at, length);
  }

  lemma Ended(now: seq<bv8>, was: seq<bv8>, at: nat, length: nat)
    requires at == length <= |now| == |was| && now[at..] == was[at..]
    ensures now[..at] == now[..length] && now[..at] + [] == now[..length] && now[length..] == was[length..]
  {
  }

  lemma NothingDone(c: Cipher, iv: Block, p: seq<bv8>, was: seq<bv8>)
    ensures was[..0] + Enc(c, iv, p[0..]) == Enc(c, iv, p) && was[..0] + Dec(c, iv, p[0..]) == Dec(c, iv, p)
    ensures iv == Last(iv, was[..0]) && iv == Last(iv, p[..0])
  {
    assert p[0..] == p;
  }

  lemma NothingLeft(c: Cipher, iv: Block, p: seq<bv8>, at: nat)
    requires at == |p|
    ensures Enc(c, iv, p[at..]) == [] && Dec(c, iv, p[at..]) == []
  {
  }

  /** The same for decryption: the ciphertext block is kept for the next one before it is overwritten. */
  method DecryptBlock(c: Cipher, length: nat, at: nat, ghost iv0: Block, iv: Block, buf: array<bv8>, ghost was: seq<bv8>)
    returns (temp: Block)
    requires at + CBC_LEN <= length <= buf.Length == |was| && buf[at..] == was[at..]
    modifies buf
    ensures buf[at + CBC_LEN..] == was[at + CBC_LEN..]
    ensures var s := was[..length];
      && buf[..at + CBC_LEN] + Dec(c, temp, s[at + CBC_LEN..]) == old(buf[..at]) + Dec(c, iv, s[at..])
      && temp == Last(iv0, s[..at + CBC_LEN])
  {
    hide Dec, Last, Xor;
    ghost var s := was[..length];
    Untouched(buf[..], was, at, length);
    temp := buf[at..at + CBC_LEN];
    DecBlock(c, iv, s, at, temp);
    Put(buf, at, Xor(c.dec(temp), iv), Dec(c, temp, s[at + CBC_LEN..]));
    LastOf(iv0, s, at, temp);
  }

  /** aes_crypt_cbc for decryption, in place; iv ends as the last ciphertext block. */
  method AesCbcDecrypt(c: Cipher, length: nat, iv0: Block, buf: array<bv8>) returns (iv: Block)
    requires length % CBC_LEN == 0 && length <= buf.Length
    modifies buf
    ensures buf[..length] == Dec(c, iv0, old(buf[..length])) && buf[length..] == old(buf[length..])
    ensures iv == Last(iv0, old(buf[..length]))
  {
    hide Dec, Last, Xor;
    ghost var was := buf[..];
    ghost var s := was[..length];
    iv := iv0;
    var at := 0;
    NothingDone(c, iv0, s, was);
    while at < length
      invariant at <= length && at % CBC_LEN == 0
      invariant buf[at..] == was[at..]
      invariant buf[..at] + Dec(c, iv, s[at..]) == Dec(c, iv0, s)
      invariant iv == Last(iv0, s[..at])
    {
      iv := DecryptBlock(c, length, at, iv0, iv, buf, was);
      at := at + CBC_LEN;
    }
    NothingLeft(c, iv, s, at);
    assert s[..at] == s;
  }

  lemma Pieces(s: seq<bv8>, k: nat, n: nat)
    requires k <= n <= |s|
    ensures s == s[..k] + s[k..n] + s[n..]
  {
  }

  /** The pieces of a slice that was swapped behind and then at its end. */
  lemma Swapped(t1: seq<bv8>, t2: seq<bv8>, t3: seq<bv8>, k: nat, n: nat)
    requires |t1| == |t2| == |t3| && k <= n <= |t1|
    requires t2[..n] == t1[..n] && t3[..k] == t2[..k] && t3[n..] == t2[n..]
    ensures t3 == t1[..k] + t3[k..n] + t2[n..]
  {
    Pieces(t3, k, n);
    assert t2[..k] == t2[..n][..k] && t1[..k] == t1[..n][..k];
  }

  lemma PaddedIs(t: seq<bv8>)
    requires |t| <= CBC_LEN
    ensures Padded(t) == t + seq(CBC_LEN - |t|, _ => 0)
  {
  }

  /** Encrypt the buffer in place. */
  method LrzEncrypt(c: Cipher, buf: array<bv8>)
    requires LongEnough(buf.Length)
    modifies buf
    ensures buf[..] == Encrypted(c, old(buf[..]))
  {
    hide Enc, Xor, Padded;
    ghost var p := buf[..];
    var m := buf.Length % CBC_LEN;
    var n := buf.Length - m;
    var iv := AesCbcEncrypt(c, n, c.iv, buf);
    ghost var t1 := buf[..];
    assert t1[..n] == Enc(c, c.iv, p[..n]) && t1[n..] == p[n..];
    if m > 0 {
      var k := n - CBC_LEN;
      assert iv == t1[..n][k..];
      PaddedIs(buf[n..]);
      var tmp0: Block := buf[n..] + seq(CBC_LEN - m, _ => 0);
      var tmp1 := c.enc(Xor(tmp0, iv));
      var stolen := buf[k..k + m];
      assert stolen == iv[..m];
      Store(buf, n, stolen);
      ghost var t2 := buf[..];
      Store(buf, k, tmp1);
      Swapped(t1, t2, buf[..], k, n);
      assert t2[n..] == stolen && t1[..k] == t1[..n][..k];
    } else {
      assert t1[..n] == t1;
    }
  }

  /** Behind k nothing has changed. */
  lemma SameBehind(now: seq<bv8>, was: seq<bv8>, k: nat, n: nat)
    requires |now| == |was| && n == k + CBC_LEN <= |now| && now[k..] == was[k..]
    ensures now[k..n] == was[k..n] && now[n..] == was[n..]
  {
    assert now[k..n] == now[k..][..CBC_LEN] && was[k..n] == was[k..][..CBC_LEN];
    assert now[n..] == now[k..][CBC_LEN..] && was[n..] == was[k..][CBC_LEN..];
  }

  lemma DecryptedIs(c: Cipher, s: seq<bv8>, k: nat, n: nat, mixed: Block)
    requires LongEnough(|s|) && |s| % CBC_LEN == |s| - n > 0 && n == k + CBC_LEN
    requires mixed == Xor(c.dec(s[k..n]), s[n..] + seq(CBC_LEN - (|s| - n), _ => 0))
    ensures var m := |s| - n;
      Decrypted(c, s) == Dec(c, c.iv, s[..k]) + Xor(c.dec(s[n..] + mixed[m..]), Last(c.iv, s[..k])) + mixed[..m]
  {
    hide Dec, Xor, Padded, Last;
    PaddedIs(s[n..]);
  }

  /** The data's tail, whose bytes the last whole block was filled up with: that block first, and then
      the one in front of it. */
  method DecryptStolen(c: Cipher, buf: array<bv8>, k: nat, n: nat, m: nat)
    requires k % CBC_LEN == 0 && n == k + CBC_LEN && buf.Length == n + m && 0 < m < CBC_LEN
    modifies buf
    ensures var s := old(buf[..]);
      var mixed := Xor(c.dec(s[k..n]), s[n..] + seq(CBC_LEN - m, _ => 0));
      buf[..] == Dec(c, c.iv, s[..k]) + Xor(c.dec(s[n..] + mixed[m..]), Last(c.iv, s[..k])) + mixed[..m]
  {
    hide Dec, Xor, Last;
    ghost var s := buf[..];
    var iv := AesCbcDecrypt(c, k, c.iv, buf);
    ghost var t1 := buf[..];
    SameBehind(t1, s, k, n);
    var tmp1: Block := buf[n..] + seq(CBC_LEN - m, _ => 0);
    var tmp0 := Xor(c.dec(buf[k..n]), tmp1);
    var stolen := buf[n..] + tmp0[m..];
    Store(buf, n, tmp0[..m]);
    ghost var t2 := buf[..];
    Store(buf, k, Xor(c.dec(stolen), iv));
    Swapped(t1, t2, buf[..], k, n);
    assert t2[n..] == tmp0[..m];
  }

  /** Decrypt the buffer in place. */
  method LrzDecrypt(c: Cipher, buf: array<bv8>)
    requires LongEnough(buf.Length)
    modifies buf
    ensures buf[..] == Decrypted(c, old(buf[..]))
  {
    hide Dec, Xor, Last;
    ghost var s := buf[..];
    var m := buf.Length % CBC_LEN;
    var n := buf.Length - m;
    if m > 0 {
      ghost var mixed := Xor(c.dec(s[n - CBC_LEN..n]), s[n..] + seq(CBC_LEN - m, _ => 0));
      DecryptedIs(c, s, n - CBC_LEN, n, mixed);
      DecryptStolen(c, buf, n - CBC_LEN, n, m);
    } else {
      var iv := AesCbcDecrypt(c, buf.Length, c.iv, buf);
      assert s[..buf.Length] == s && buf[..buf.Length] == buf[..];
    }
  }
}
