/** Bytes and little-endian numbers of a fixed width. */
module Bytes {
  import Bits

  type byte = b: nat | b < 0x100

  datatype Option<+T> = None | Some(value: T)

  function Pow256(k: nat): (r: nat)
    ensures r > 0
  {
    if k == 0 then 1 else 0x100 * Pow256(k - 1)
  }

  /** The low `width` bytes of n, least significant first. */
  function ToLE(n: nat, width: nat): (r: seq<byte>)
    ensures |r| == width
  {
    if width == 0 then [] else [n % 0x100] + ToLE(n / 0x100, width - 1)
  }

  function FromLE(s: seq<byte>): (r: nat) {
    if s == [] then 0 else s[0] + 0x100 * FromLE(s[1..])
  }

  lemma {:induction false} LERemainder(n: nat, width: nat)
    ensures FromLE(ToLE(n, width)) == n % Pow256(width)
  {
    if width > 0 {
      LERemainder(n / 0x100, width - 1);
      assert ToLE(n, width)[1..] == ToLE(n / 0x100, width - 1);
      Mod256(n, Pow256(width - 1));
    }
  }

  lemma Mod256(n: nat, m: nat)
    requires m > 0
    ensures n % (0x100 * m) == n % 0x100 + 0x100 * (n / 0x100 % m)
  {
    var q, r := n / 0x100 / m, n / 0x100 % m;
    assert n == 0x100 * m * q + (n % 0x100 + 0x100 * r);
    Bits.ModUnique(n, 0x100 * m, q, n % 0x100 + 0x100 * r);
  }

  lemma LERoundTrip(n: nat, width: nat)
    requires n < Pow256(width)
    ensures FromLE(ToLE(n, width)) == n
  {
    LERemainder(n, width);
    Bits.ModUnique(n, Pow256(width), 0, n);
  }

  /** Every byte string of this width is a number's. */
  lemma {:induction false} ToLEOfFrom(s: seq<byte>)
    ensures ToLE(FromLE(s), |s|) == s && FromLE(s) < Pow256(|s|)
  {
    if s != [] {
      ToLEOfFrom(s[1..]);
      var n := FromLE(s);
      assert n % 0x100 == s[0] && n / 0x100 == FromLE(s[1..]);
    }
  }

  lemma AllZero(s: seq<byte>)
    ensures FromLE(s) == 0 <==> s == ToLE(0, |s|)
  {
    ToLEOfFrom(s);
    LERemainder(0, |s|);
  }

  function Flat(blocks: seq<seq<byte>>): seq<byte> {
    if blocks == [] then [] else blocks[0] + Flat(blocks[1..])
  }

  lemma FlatPush(blocks: seq<seq<byte>>, b: seq<byte>)
    ensures Flat(blocks + [b]) == Flat(blocks) + b
  {
    FlatAppend(blocks, [b]);
    var one := [b];
    assert one[1..] == [];
    assert Flat(one) == b;
  }

  lemma {:induction false} FlatAppend(a: seq<seq<byte>>, b: seq<seq<byte>>)
    ensures Flat(a + b) == Flat(a) + Flat(b)
  {
    if a == [] {
      assert a + b == b;
    } else {
      assert (a + b)[1..] == a[1..] + b;
      FlatAppend(a[1..], b);
    }
  }

  lemma Associate<T>(a: seq<T>, b: seq<T>, c: seq<T>)
    ensures a + b + c == a + (b + c)
  {
  }

  lemma SliceOfSlice<T>(s: seq<T>, from: nat, length: nat, offset: nat, size: nat)
    requires from + length <= |s| && offset + size <= length
    ensures s[from + offset..from + offset + size] == s[from..from + length][offset..offset + size]
  {
    var a, b := s[from + offset..from + offset + size], s[from..from + length][offset..offset + size];
    forall i | 0 <= i < size
      ensures a[i] == b[i]
    {
    }
    assert |a| == |b| == size;
  }
}
