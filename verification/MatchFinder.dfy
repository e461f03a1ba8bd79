/** Rolling tags, match lengths and the search of the tag table for the best match. */
module MatchFinder {
  import opened Bits
  import opened Bytes
  import opened TagTable
  import opened AllOnes
  import opened Sweep
  import opened HashTable

  const MINIMUM_MATCH := 31

  type HashIndex = h: seq<Tag> | |h| == 0x100 witness seq(0x100, _ => 0)

  // ---- Tags ----

  /** The exclusive or of hash_index over n bytes from p. */
  function XorRange(index: HashIndex, chunk: seq<byte>, p: nat, n: nat): (r: Tag)
    requires p + n <= |chunk|
    decreases n, |chunk|
  {
    if n == 0 then 0 else XorTag(XorRange(index, chunk, p, n - 1), index[chunk[p + n - 1]])
  }

  function XorTag(a: Tag, b: Tag): (r: Tag) {
    Pow2Values();
    XorBounded(a, b, 32);
    Xor(a, b)
  }

  function TagAt(index: HashIndex, chunk: seq<byte>, p: nat): Tag
    requires p + MINIMUM_MATCH <= |chunk|
  {
    XorRange(index, chunk, p, MINIMUM_MATCH)
  }

  lemma {:induction false} XorRangeFront(index: HashIndex, chunk: seq<byte>, p: nat, n: nat)
    requires p + n + 1 <= |chunk|
    ensures XorRange(index, chunk, p, n + 1) == Xor(index[chunk[p]], XorRange(index, chunk, p + 1, n))
    decreases n
  {
    if n == 0 {
      XorCommutes(0, index[chunk[p]]);
    } else {
      XorRangeFront(index, chunk, p, n - 1);
      XorAssociates(index[chunk[p]], XorRange(index, chunk, p + 1, n - 1), index[chunk[p + n]]);
    }
  }

  /** next_tag: dropping the byte left behind and adding the byte come into view. */
  lemma NextTagRolls(index: HashIndex, chunk: seq<byte>, p: nat)
    requires 1 <= p && p + MINIMUM_MATCH <= |chunk|
    ensures XorTag(XorTag(TagAt(index, chunk, p - 1), index[chunk[p - 1]]), index[chunk[p + MINIMUM_MATCH - 1]])
         == TagAt(index, chunk, p)
  {
    var n := MINIMUM_MATCH;
    RollBy(index, chunk, p, n);
  }

  lemma RollBy(index: HashIndex, chunk: seq<byte>, p: nat, n: nat)
    requires 1 <= p && 1 <= n && p + n <= |chunk|
    ensures XorTag(XorTag(XorRange(index, chunk, p - 1, n), index[chunk[p - 1]]), index[chunk[p + n - 1]])
         == XorRange(index, chunk, p, n)
  {
    var out, rest := index[chunk[p - 1]], XorRange(index, chunk, p, n - 1);
    XorRangeFront(index, chunk, p - 1, n - 1);
    XorCommutes(out, rest);
    XorAssociates(rest, out, out);
    XorSelf(out);
    XorZero(rest);
  }

  method FullTag(index: HashIndex, chunk: seq<byte>, p: nat) returns (ret: Tag)
    requires p + MINIMUM_MATCH <= |chunk|
    ensures ret == TagAt(index, chunk, p)
  {
    ret := 0;
    for i := 0 to MINIMUM_MATCH
      invariant ret == XorRange(index, chunk, p, i)
    {
      ret := XorTag(ret, index[chunk[p + i]]);
    }
  }

  method NextTag(index: HashIndex, chunk: seq<byte>, p: nat, t: Tag) returns (next: Tag)
    requires 1 <= p && p + MINIMUM_MATCH <= |chunk|
    requires t == TagAt(index, chunk, p - 1)
    ensures next == TagAt(index, chunk, p)
  {
    next := XorTag(t, index[chunk[p - 1]]);
    next := XorTag(next, index[chunk[p + MINIMUM_MATCH - 1]]);
    NextTagRolls(index, chunk, p);
  }

  // ---- Match lengths ----

  predicate SameBytes(chunk: seq<byte>, o: nat, p: nat, n: nat) {
    o + n <= |chunk| && p + n <= |chunk| && chunk[o..o + n] == chunk[p..p + n]
  }

  lemma SameSplit(chunk: seq<byte>, o: nat, p: nat, m: nat, n: nat)
    requires o + m + n <= |chunk| && p + m + n <= |chunk|
    ensures SameBytes(chunk, o, p, m + n) <==> SameBytes(chunk, o, p, m) && SameBytes(chunk, o + m, p + m, n)
  {
    assert chunk[o..o + (m + n)] == chunk[o..o + m] + chunk[o + m..o + m + n];
    assert chunk[p..p + (m + n)] == chunk[p..p + m] + chunk[p + m..p + m + n];
    if chunk[o..o + (m + n)] == chunk[p..p + (m + n)] {
      assert chunk[o..o + m] == chunk[o..o + (m + n)][..m];
      assert chunk[p..p + m] == chunk[p..p + (m + n)][..m];
      assert chunk[o + m..o + m + n] == chunk[o..o + (m + n)][m..];
      assert chunk[p + m..p + m + n] == chunk[p..p + (m + n)][m..];
    }
  }

  lemma SameJoin(chunk: seq<byte>, o: nat, p: nat, m: nat, n: nat, o': nat, p': nat)
    requires o' == o + m && p' == p + m
    requires SameBytes(chunk, o, p, m) && SameBytes(chunk, o', p', n)
    ensures SameBytes(chunk, o, p, m + n)
  {
    SameSplit(chunk, o, p, m, n);
  }

  lemma SameNone(chunk: seq<byte>, o: nat, p: nat)
    requires o <= |chunk| && p <= |chunk|
    ensures SameBytes(chunk, o, p, 0)
  {
  }

  lemma SameOne(chunk: seq<byte>, o: nat, p: nat)
    requires o < |chunk| && p < |chunk|
    ensures SameBytes(chunk, o, p, 1) <==> chunk[o] == chunk[p]
  {
    assert chunk[o..o + 1] == [chunk[o]] && chunk[p..p + 1] == [chunk[p]];
  }

  /** How many bytes agree going forward from p and o, within [p, end). */
  function FwdLen(chunk: seq<byte>, p: nat, o: nat, end: nat): (f: nat)
    requires o <= p <= end <= |chunk|
    ensures f <= end - p
    decreases end - p
  {
    if p < end && chunk[p] == chunk[o] then 1 + FwdLen(chunk, p + 1, o + 1, end) else 0
  }

  /** How many bytes agree going backward from p and o, no further than lo and the start. */
  function RevLen(chunk: seq<byte>, p: nat, o: nat, lo: nat): (r: nat)
    requires o <= p <= |chunk| && lo <= p
    ensures r <= p - lo && r <= o
    decreases o
  {
    if p > lo && o > 0 && chunk[p - 1] == chunk[o - 1] then 1 + RevLen(chunk, p - 1, o - 1, lo) else 0
  }

  lemma {:induction false} FwdLenMaximal(chunk: seq<byte>, p: nat, o: nat, end: nat)
    requires o <= p <= end <= |chunk|
    ensures var f := FwdLen(chunk, p, o, end);
      SameBytes(chunk, o, p, f) && (p + f == end || chunk[p + f] != chunk[o + f])
    decreases end - p
  {
    hide SameBytes;
    if p < end && chunk[p] == chunk[o] {
      FwdLenMaximal(chunk, p + 1, o + 1, end);
      SameOne(chunk, o, p);
      SameSplit(chunk, o, p, 1, FwdLen(chunk, p + 1, o + 1, end));
    } else {
      SameNone(chunk, o, p);
    }
  }

  lemma {:induction false} RevLenStops(chunk: seq<byte>, p: nat, o: nat, lo: nat)
    requires o <= p <= |chunk| && lo <= p
    ensures var r := RevLen(chunk, p, o, lo);
      (p - r == lo || o - r == 0 || chunk[p - r - 1] != chunk[o - r - 1])
    decreases o
  {
    if p > lo && o > 0 && chunk[p - 1] == chunk[o - 1] {
      RevLenStops(chunk, p - 1, o - 1, lo);
    }
  }

  lemma {:induction false} RevLenAgrees(chunk: seq<byte>, p: nat, o: nat, lo: nat)
    requires o <= p <= |chunk| && lo <= p
    ensures var r := RevLen(chunk, p, o, lo);
      && SameBytes(chunk, o - r, p - r, r)
    decreases o
  {
    hide SameBytes;
    if p > lo && o > 0 && chunk[p - 1] == chunk[o - 1] {
      var g := RevLen(chunk, p - 1, o - 1, lo);
      RevLenAgrees(chunk, p - 1, o - 1, lo);
      SameOne(chunk, o - 1, p - 1);
      SameJoin(chunk, o - 1 - g, p - 1 - g, g, 1, o - 1, p - 1);
    } else {
      SameNone(chunk, o, p);
    }
  }

  function MatchTotal(chunk: seq<byte>, p: nat, o: nat, lo: nat, end: nat): nat
    requires o <= p && lo <= p <= end <= |chunk|
  {
    FwdLen(chunk, p, o, end) + RevLen(chunk, p, o, lo)
  }

  lemma {:induction false} FwdLenSkip(chunk: seq<byte>, p: nat, o: nat, end: nat, n: nat)
    requires o <= p && p + n <= end <= |chunk|
    requires SameBytes(chunk, o, p, n)
    ensures FwdLen(chunk, p, o, end) == n + FwdLen(chunk, p + n, o + n, end)
    decreases n
  {
    if n > 0 {
      SameSplit(chunk, o, p, 1, n - 1);
      SameOne(chunk, o, p);
      FwdLenSkip(chunk, p + 1, o + 1, end, n - 1);
    }
  }

  /** A candidate at o would give this match, extended both ways. */
  ghost predicate GivesMatch(o: nat, chunk: seq<byte>, lo: nat, p: nat, end: nat,
                             length: nat, offset: nat, reverse: nat)
    requires lo <= p <= end <= |chunk|
  {
    && o < p
    && length == MatchTotal(chunk, p, o, lo, end) >= MINIMUM_MATCH
    && reverse == RevLen(chunk, p, o, lo)
    && offset == o - reverse
  }

  /** A candidate at o gives nothing longer than length. */
  ghost predicate NoBetter(o: nat, chunk: seq<byte>, lo: nat, p: nat, end: nat, length: nat)
    requires lo <= p <= end <= |chunk|
  {
    o < p ==> MatchTotal(chunk, p, o, lo, end) < MINIMUM_MATCH || MatchTotal(chunk, p, o, lo, end) <= length
  }

  const WORD := 8

  /** The forward half of match_len_linear: whole words first, then single bytes. */
  method ForwardLinear(chunk: seq<byte>, p0: nat, op: nat, end: nat) returns (f: nat)
    requires op < p0 <= end <= |chunk|
    ensures f == FwdLen(chunk, p0, op, end)
  {
    hide SameBytes;
    var maxFwd := end - p0;
    f := 0;
    while f + WORD <= maxFwd
      invariant f <= maxFwd
      invariant FwdLen(chunk, p0, op, end) == f + FwdLen(chunk, p0 + f, op + f, end)
    {
      if !SameBytes(chunk, op + f, p0 + f, WORD) {
        break;
      }
      FwdLenSkip(chunk, p0 + f, op + f, end, WORD);
      f := f + WORD;
    }
    while f < maxFwd && chunk[p0 + f] == chunk[op + f]
      invariant f <= maxFwd
      invariant FwdLen(chunk, p0, op, end) == f + FwdLen(chunk, p0 + f, op + f, end)
    {
      f := f + 1;
    }
  }

  method ReverseLinear(chunk: seq<byte>, p0: nat, op: nat, revEnd: nat) returns (rev: nat)
    requires op < p0 <= |chunk| && revEnd <= p0
    ensures rev == RevLen(chunk, p0, op, revEnd)
  {
    var p: nat, o: nat := p0, op;
    while p > revEnd && o > 0 && chunk[o - 1] == chunk[p - 1]
      invariant revEnd <= p <= p0 && p0 - p == op - o && o <= op
      invariant RevLen(chunk, p0, op, revEnd) == p0 - p + RevLen(chunk, p, o, revEnd)
      decreases p
    {
      o := o - 1;
      p := p - 1;
    }
    rev := p0 - p;
  }

  /** match_len_linear. A length of 0 means no match that beats `best`. */
  method MatchLenLinear(chunk: seq<byte>, lastMatch: nat, p0: nat, op: nat, end: nat, best: nat)
    returns (len: nat, rev: nat)
    requires lastMatch <= p0 <= end <= |chunk|
    ensures len == 0 ==> NoBetter(op, chunk, lastMatch, p0, end, best)
    ensures len > 0 ==> len > best && rev <= op && GivesMatch(op, chunk, lastMatch, p0, end, len, op - rev, rev)
  {
    rev := 0;
    if op >= p0 {
      return 0, rev;
    }
    var f := ForwardLinear(chunk, p0, op, end);
    var maxRev := p0 - lastMatch;
    if maxRev > op {
      maxRev := op;
    }
    if f + maxRev < MINIMUM_MATCH || f + maxRev <= best {
      return 0, rev;
    }
    rev := ReverseLinear(chunk, p0, op, lastMatch);
    len := f + rev;
    if len < MINIMUM_MATCH || len <= best {
      return 0, rev;
    }
  }

  // ---- Search ----

  /** The offsets of the tag's entries that a lookup examines: at most `hits` of them within at
      most `probes` occupied slots. */
  function Candidates(slots: seq<Entry>, t: Tag, h: nat, hits: nat, probes: nat): seq<nat>
    requires h < |slots|
    decreases probes
  {
    if slots[h] == EMPTY || probes == 0 then []
    else if slots[h].t != t then Candidates(slots, t, Next(h, |slots|), hits, probes - 1)
    else if hits == 0 then []
    else [slots[h].off] + Candidates(slots, t, Next(h, |slots|), hits - 1, probes - 1)
  }

  /** An entry for t with this offset stands m slots behind h. */
  ghost predicate StandsAt(slots: seq<Entry>, t: Tag, h: nat, m: nat, off: nat) {
    h < |slots| && slots[(h + m) % |slots|] == Entry(t, off)
  }

  /** A lookup examines no more entries than it may, all of them entries of its tag within the slots
      it may probe. */
  lemma {:induction false} CandidatesAreStored(slots: seq<Entry>, t: Tag, h: nat, hits: nat, probes: nat)
    requires h < |slots|
    ensures |Candidates(slots, t, h, hits, probes)| <= hits
    ensures forall o | o in Candidates(slots, t, h, hits, probes) :: exists m: nat :: m < probes && StandsAt(slots, t, h, m, o)
    decreases probes
  {
    var n := |slots|;
    if slots[h] != EMPTY && probes > 0 && (slots[h].t != t || hits > 0) {
      var next, hits' := Next(h, n), if slots[h].t == t then hits - 1 else hits;
      CandidatesAreStored(slots, t, next, hits', probes - 1);
      forall o | o in Candidates(slots, t, h, hits, probes)
        ensures exists m: nat :: m < probes && StandsAt(slots, t, h, m, o)
      {
        if slots[h].t == t && o == slots[h].off {
          ModUnique(h + 0, n, 0, h);
          assert StandsAt(slots, t, h, 0, o);
        } else {
          var m: nat :| m < probes - 1 && StandsAt(slots, t, next, m, o);
          NextSlots(h, m, n);
          assert StandsAt(slots, t, h, m + 1, o);
        }
      }
    }
  }

  lemma NextSlots(h: nat, m: nat, n: nat)
    requires h < n
    ensures (Next(h, n) + m) % n == (h + (m + 1)) % n
  {
    if h + 1 == n {
      ModUnique(h + (m + 1), n, m / n + 1, m % n);
    }
  }

  const PROBES_PER_HIT := 4
  const EXTRA_PROBES := 16

  function MaxProbes(maxChain: nat): nat {
    maxChain * PROBES_PER_HIT + EXTRA_PROBES
  }

  /** The offsets that a lookup of t in this table examines. */
  function Looked(tb: Table, t: Tag): seq<nat>
    requires |tb.slots| > 0
  {
    Candidates(tb.slots, t, Primary(t, |tb.slots|), tb.maxChain, MaxProbes(tb.maxChain))
  }

  /** That is at most as many as a tag may have copies, all within four slots for each and sixteen more. */
  lemma LookedIsCapped(tb: Table, t: Tag)
    requires |tb.slots| > 0
    ensures |Looked(tb, t)| <= tb.maxChain
    ensures forall o | o in Looked(tb, t) ::
      exists m: nat :: m < 4 * tb.maxChain + 16 && StandsAt(tb.slots, t, Primary(t, |tb.slots|), m, o)
  {
    CandidatesAreStored(tb.slots, t, Primary(t, |tb.slots|), tb.maxChain, MaxProbes(tb.maxChain));
  }

  /** (length, offset, reverse) is the longest match of at least 31 bytes among the candidates, of
      several the first one met, and length is 0 exactly when there is none. */
  ghost predicate BestOf(cands: seq<nat>, chunk: seq<byte>, lo: nat, p: nat, end: nat,
                         length: nat, offset: nat, reverse: nat)
    requires lo <= p <= end <= |chunk|
  {
    && (forall o | o in cands :: NoBetter(o, chunk, lo, p, end, length))
    && (length > 0 ==>
         exists i: nat | i < |cands| :: FirstBest(cands, i, chunk, lo, p, end, length, offset, reverse))
  }

  /** Candidate i gives this match, and every candidate before it a shorter one or none. */
  ghost predicate FirstBest(cands: seq<nat>, i: nat, chunk: seq<byte>, lo: nat, p: nat, end: nat,
                            length: nat, offset: nat, reverse: nat)
    requires i < |cands| && lo <= p <= end <= |chunk| && length > 0
  {
    && GivesMatch(cands[i], chunk, lo, p, end, length, offset, reverse)
    && forall o | o in cands[..i] :: NoBetter(o, chunk, lo, p, end, length - 1)
  }

  lemma {:induction false} GivenIsMatch(o: nat, chunk: seq<byte>, lo: nat, p: nat, end: nat, length: nat, offset: nat, reverse: nat)
    requires lo <= p <= end <= |chunk|
    requires GivesMatch(o, chunk, lo, p, end, length, offset, reverse)
    ensures reverse <= p && lo <= p - reverse && p - reverse + length <= end && offset < p - reverse
    ensures SameBytes(chunk, offset, p - reverse, length)
  {
    FwdLenMaximal(chunk, p, o, end);
    RevLenAgrees(chunk, p, o, lo);
    SameJoin(chunk, offset, p - reverse, reverse, FwdLen(chunk, p, o, end), o, p);
  }

  /** A best match really is one: the bytes at its source and destination agree, the source is
      strictly before the destination, and it stays within [lo, end). */
  lemma BestIsMatch(cands: seq<nat>, chunk: seq<byte>, lo: nat, p: nat, end: nat,
                    length: nat, offset: nat, reverse: nat)
    requires lo <= p <= end <= |chunk| && length > 0
    requires BestOf(cands, chunk, lo, p, end, length, offset, reverse)
    ensures length >= MINIMUM_MATCH
    ensures reverse <= p && lo <= p - reverse && p - reverse + length <= end && offset < p - reverse
    ensures SameBytes(chunk, offset, p - reverse, length)
  {
    var i: nat :| i < |cands| && FirstBest(cands, i, chunk, lo, p, end, length, offset, reverse);
    GivenIsMatch(cands[i], chunk, lo, p, end, length, offset, reverse);
  }

  method FindBestMatch(table: HashTable, chunk: seq<byte>, lastMatch: nat, t: Tag, p: nat, end: nat)
    returns (length: nat, offset: nat, reverse: nat)
    requires table.Valid() && lastMatch <= p <= end <= |chunk|
    ensures BestOf(Looked(table.View(), t), chunk, lastMatch, p, end, length, offset, reverse)
  {
    hide GivesMatch, NoBetter, SameBytes, FwdLen, RevLen;
    length, offset, reverse := 0, 0, 0;
    var maxTag := table.maxChain;
    var maxProbes := maxTag * 4 + 16;
    var probes, tagHits: nat := 0, 0;
    var h := table.PrimaryHash(t);
    ghost var slots := table.table[..];
    ghost var all := Candidates(slots, t, h, maxTag, maxProbes);
    ghost var seen: seq<nat> := [];
    var e := table.table[h];
    while e != EMPTY && probes < maxProbes
      invariant h < table.table.Length && e == slots[h]
      invariant probes <= maxProbes && tagHits <= maxTag
      invariant all == seen + Candidates(slots, t, h, maxTag - tagHits, maxProbes - probes)
      invariant BestOf(seen, chunk, lastMatch, p, end, length, offset, reverse)
      decreases maxProbes - probes
    {
      probes := probes + 1;
      if t == e.t {
        if tagHits >= maxTag {
          break;
        }
        tagHits := tagHits + 1;
        var mlen, rev := MatchLenLinear(chunk, lastMatch, p, e.off, end, length);
        ExtendBest(seen, e.off, chunk, lastMatch, p, end, length, offset, reverse, mlen, rev);
        if mlen > 0 {
          length := mlen;
          offset := e.off - rev;
          reverse := rev;
        }
        seen := seen + [e.off];
      }
      h := table.NextSlot(h);
      e := table.table[h];
    }
    assert all == seen;
  }

  lemma ExtendBest(seen: seq<nat>, o: nat, chunk: seq<byte>, lo: nat, p: nat, end: nat,
                   length: nat, offset: nat, reverse: nat, mlen: nat, rev: nat)
    requires lo <= p <= end <= |chunk|
    requires BestOf(seen, chunk, lo, p, end, length, offset, reverse)
    requires if mlen == 0 then NoBetter(o, chunk, lo, p, end, length)
      else mlen > length && o >= rev && GivesMatch(o, chunk, lo, p, end, mlen, o - rev, rev)
    ensures if mlen == 0 then BestOf(seen + [o], chunk, lo, p, end, length, offset, reverse)
      else BestOf(seen + [o], chunk, lo, p, end, mlen, o - rev, rev)
  {
    var now := seen + [o];
    assert now[|seen|] == o;
    forall c | c in now
      ensures NoBetter(c, chunk, lo, p, end, if mlen == 0 then length else mlen)
    {
      if c in seen {
        assert NoBetter(c, chunk, lo, p, end, length);
      }
    }
    if mlen > 0 {
      assert now[..|seen|] == seen;
      forall c | c in seen
        ensures NoBetter(c, chunk, lo, p, end, mlen - 1)
      {
        assert NoBetter(c, chunk, lo, p, end, length);
      }
      assert FirstBest(now, |seen|, chunk, lo, p, end, mlen, o - rev, rev);
    } else if length > 0 {
      var i: nat :| i < |seen| && FirstBest(seen, i, chunk, lo, p, end, length, offset, reverse);
      assert now[..i] == seen[..i];
      assert FirstBest(now, i, chunk, lo, p, end, length, offset, reverse);
    }
  }

  // ---- What a lookup cannot miss ----

  /** Slot s holds a copy of t that is neither due nor all ones. */
  ghost predicate StrongCopy(tb: Table, t: Tag, s: nat) {
    s < |tb.slots| && tb.slots[s] != EMPTY && tb.slots[s].t == t && !Weak(tb.k, t) && t != ALL_ONES
  }

  lemma SolidOnTheWay(tb: Table, t: Tag, s: nat, h: nat)
    requires Chains(tb.slots, tb.k) && StrongCopy(tb, t, s)
    requires h < |tb.slots| && (h == s || Between(Primary(t, |tb.slots|), h, s))
    ensures Solid(tb.k, tb.slots[h], t)
  {
    assert Chained(tb.slots, tb.k, s);
    RankIsTrailing(t);
    RankIsTrailing(tb.slots[h].t);
  }

  lemma CopyAhead(tb: Table, t: Tag, s: nat, h: nat)
    requires |tb.slots| > 0 && CopiesBounded(tb.slots, tb.k, tb.maxChain) && StrongCopy(tb, t, s)
    requires Path(tb.slots, tb.k, t, h) && !Between(Primary(t, |tb.slots|), s, h)
    ensures |Copies(tb.slots, t, h)| < tb.maxChain
  {
    var passed := Copies(tb.slots, t, h);
    assert s !in passed;
    assert passed + {s} <= AllCopies(tb.slots, t);
    SubsetSize(passed + {s}, AllCopies(tb.slots, t));
  }

  lemma {:induction false} WalkFinds(tb: Table, t: Tag, s: nat, h: nat, hits: nat, probes: nat)
    requires WellFormed(tb) && HasRoom(tb) && Chains(tb.slots, tb.k) && CopiesBounded(tb.slots, tb.k, tb.maxChain)
    requires StrongCopy(tb, t, s)
    requires h < |tb.slots| && Path(tb.slots, tb.k, t, h)
    requires !Between(Primary(t, |tb.slots|), s, h)
    requires hits + |Copies(tb.slots, t, h)| == tb.maxChain
    requires Dist(Primary(t, |tb.slots|), s, |tb.slots|) - Dist(Primary(t, |tb.slots|), h, |tb.slots|) < probes
    ensures tb.slots[s].off in Candidates(tb.slots, t, h, hits, probes)
    decreases probes
  {
    CopyAhead(tb, t, s, h);
    SolidOnTheWay(tb, t, s, h);
    if s != h {
      PathStep(tb, t, h);
      WalkFinds(tb, t, s, Next(h, |tb.slots|), if tb.slots[h].t == t then hits - 1 else hits, probes - 1);
    }
  }

  /** In every table a run can reach, a stored tag that is neither due nor all ones is examined
      whenever it lies within the probe limit, whatever was displaced, replaced or cleaned; and a
      tag that hash_search skips without looking is not stored at all. */
  lemma LookupIsComplete(sc: Scan, limit: nat, k0: nat, t: Tag, s: nat)
    requires ScanInvariant(sc, limit, k0)
    requires StrongCopy(sc.tb, t, s)
    requires Dist(Primary(t, |sc.tb.slots|), s, |sc.tb.slots|) < MaxProbes(sc.tb.maxChain)
    ensures sc.tb.slots[s].off in Looked(sc.tb, t)
    ensures forall u: Tag, x: nat | x < |sc.tb.slots| && !Meets(sc.tb.k, u) && sc.tb.slots[x] != EMPTY ::
      sc.tb.slots[x].t != u
  {
    UnderLimitHasRoom(sc.tb, limit);
    assert Copies(sc.tb.slots, t, Primary(t, |sc.tb.slots|)) == {};
    WalkFinds(sc.tb, t, s, Primary(t, |sc.tb.slots|), sc.tb.maxChain, MaxProbes(sc.tb.maxChain));
  }
}
