/** hash_search: one scan of a chunk that finds long matches with the rolling tag and writes the
    chunk as literal and match tokens. */
module HashSearch {
  import opened Bits
  import opened Bytes
  import opened TagTable
  import opened Sweep
  import opened HashTable
  import opened Tokens
  import opened StreamOut
  import opened ControlWriter
  import opened MatchFinder

  // ---- Levels and the size of the table ----

  datatype Level = Level(mbUsed: nat, initialFreq: nat, maxChainLen: nat)

  const LEVELS: seq<Level> := [
    Level(1, 4, 1), Level(2, 4, 2), Level(4, 4, 2), Level(8, 4, 2), Level(16, 4, 3),
    Level(32, 4, 4), Level(32, 2, 6), Level(64, 1, 16), Level(64, 1, 32), Level(64, 1, 128)
  ]

  const SLOTS_PER_MB := 1024 * 1024 / 8

  /** As many eight-byte slots as the level's megabytes hold, but no more than the chunk can use. */
  function WantedSlots(level: Level, chunkSize: nat): (r: nat)
    ensures 8 * r <= level.mbUsed * 0x10_0000 && r <= Max(chunkSize, 0x1_0000)
    ensures 8 * r == level.mbUsed * 0x10_0000 || r == Max(chunkSize, 0x1_0000)
  {
    var cap := if chunkSize < 0x1_0000 then 0x1_0000 else chunkSize;
    if level.mbUsed * SLOTS_PER_MB > cap then cap else level.mbUsed * SLOTS_PER_MB
  }

  method HashBits(wanted: nat) returns (bits: nat)
    requires 0x1_0000 <= wanted <= 0x100_0000
    ensures 16 <= bits <= 24 && Pow2(bits) >= wanted
    ensures bits > 0 ==> Pow2(bits - 1) < wanted
  {
    Pow2Values();
    bits := 0;
    while Pow2(bits) < wanted
      invariant bits <= 24
      invariant bits > 0 ==> Pow2(bits - 1) < wanted
      decreases 24 - bits
    {
      bits := bits + 1;
    }
    if bits < 16 {
      Pow2Monotone(bits, 16);
    }
  }

  /** Two thirds of the slots leave room, and far more than all the copies of the all-ones tag. */
  lemma LimitIsRoomy(bits: nat, level: nat)
    requires 16 <= bits && level < |LEVELS|
    ensures 34 * LEVELS[level].maxChainLen <= Pow2(bits) / 3 * 2 < Pow2(bits)
  {
    Pow2Values();
    Pow2Monotone(16, bits);
  }

  // ---- The width of positions ----

  lemma {:induction false} Pow256IsPow2(k: nat)
    ensures Pow256(k) == Pow2(8 * k)
  {
    if k > 0 {
      Pow2Doubled(8 * (k - 1), 8);
      Pow2Values();
      Pow256IsPow2(k - 1);
    }
  }

  lemma {:induction false} Pow2Doubled(k: nat, n: nat)
    ensures Pow2(k + n) == Pow2(n) * Pow2(k)
    decreases n
  {
    if n > 0 {
      Pow2Doubled(k, n - 1);
    }
  }

  function ShiftRight(n: nat, k: nat): int {
    n / Pow2(k)
  }

  /** The smallest number of bytes, at least one, that hold every position of the chunk. */
  method ByteWidth(chunkSize: nat) returns (chunkBytes: nat)
    ensures chunkBytes >= 1 && chunkSize < Pow256(chunkBytes)
    ensures chunkBytes > 1 ==> chunkSize >= Pow256(chunkBytes - 1)
  {
    hide Pow2, Pow256, ShiftRight;
    var bits := 8;
    while ShiftRight(chunkSize, bits) > 0
      invariant bits >= 8 && (bits > 8 ==> chunkSize >= Pow2(bits - 1))
      decreases chunkSize - bits
    {
      BitsBelow(chunkSize, bits);
      bits := bits + 1;
    }
    chunkBytes := bits / 8;
    if bits % 8 != 0 {
      chunkBytes := chunkBytes + 1;
    }
    NothingAbove(chunkSize, bits);
    RoundedUp(chunkSize, bits, chunkBytes);
  }

  lemma {:induction false} RoundedUp(chunkSize: nat, bits: nat, chunkBytes: nat)
    requires bits >= 8 && chunkBytes == (if bits % 8 == 0 then bits / 8 else bits / 8 + 1)
    requires chunkSize < Pow2(bits) && (bits > 8 ==> chunkSize >= Pow2(bits - 1))
    ensures chunkBytes >= 1 && chunkSize < Pow256(chunkBytes)
    ensures chunkBytes > 1 ==> chunkSize >= Pow256(chunkBytes - 1)
  {
    hide Pow2, Pow256;
    Pow2Monotone(bits, 8 * chunkBytes);
    Pow256IsPow2(chunkBytes);
    if chunkBytes > 1 {
      Pow2Monotone(8 * (chunkBytes - 1), bits - 1);
      Pow256IsPow2(chunkBytes - 1);
    }
  }

  lemma NothingAbove(n: nat, k: nat)
    requires ShiftRight(n, k) <= 0
    ensures n < Pow2(k)
  {
    var p := Pow2(k);
    assert n == p * (n / p) + n % p;
  }

  lemma BitsBelow(n: nat, k: nat)
    requires ShiftRight(n, k) > 0
    ensures k < Pow2(k) <= n
  {
    var p := Pow2(k);
    assert n == p * (n / p) + n % p;
    MulMonotone(p, 1, n / p);
    SmallerThanPow2(k);
  }

  lemma {:induction false} SmallerThanPow2(k: nat)
    ensures k < Pow2(k)
  {
    if k > 0 {
      SmallerThanPow2(k - 1);
    }
  }

  // ---- The pending match ----

  datatype Pending = Pending(p: nat, ofs: nat, len: nat)

  ghost predicate PendingOk(cur: Pending, chunk: seq<byte>, lastMatch: nat, end: nat) {
    cur.len > 0 ==>
      && cur.len >= MINIMUM_MATCH
      && lastMatch <= cur.p && cur.p + cur.len <= end
      && cur.ofs < cur.p
      && SameBytes(chunk, cur.ofs, cur.p, cur.len)
  }

  /** Copying a verified match extends the restored prefix of the chunk. */
  lemma CopyRestores(chunk: seq<byte>, p: nat, ofs: nat, len: nat)
    requires ofs < p && SameBytes(chunk, ofs, p, len)
    ensures CopyBack(chunk[..p], p - ofs, len) == chunk[..p + len]
  {
    var r := chunk[..p + len];
    forall k: nat | p <= k < p + len
      ensures r[k] == r[k - (p - ofs)]
    {
      assert chunk[ofs..ofs + len][k - p] == chunk[p..p + len][k - p];
    }
    CopyBackUnique(chunk[..p], p - ofs, len, r);
  }

  /** The tokens so far restore exactly the first n bytes of the chunk. */
  ghost predicate Restores(toks: seq<Token>, chunk: seq<byte>, n: nat, chunkBytes: nat) {
    && n <= |chunk|
    && AllPrintable(toks, chunkBytes)
    && Replay([], toks) == Some(chunk[..n])
  }

  lemma NothingRestored(chunk: seq<byte>, chunkBytes: nat)
    ensures Restores([], chunk, 0, chunkBytes) && LeanTo([], 0, chunkBytes)
  {
  }

  lemma PrintableAppend(a: seq<Token>, b: seq<Token>, chunkBytes: nat)
    requires AllPrintable(a, chunkBytes) && AllPrintable(b, chunkBytes)
    ensures AllPrintable(a + b, chunkBytes)
  {
    forall i | 0 <= i < |a + b|
      ensures Printable((a + b)[i], chunkBytes)
    {
      if i >= |a| {
        assert (a + b)[i] == b[i - |a|];
      }
    }
  }

  lemma LiteralRestores(toks: seq<Token>, chunk: seq<byte>, last: nat, p: nat, chunkBytes: nat)
    requires Restores(toks, chunk, last, chunkBytes) && last < p <= |chunk|
    ensures Restores(toks + LiteralPieces(chunk[last..p]), chunk, p, chunkBytes)
  {
    var pieces := LiteralPieces(chunk[last..p]);
    LiteralPiecesPrintable(chunk[last..p], chunkBytes);
    PrintableAppend(toks, pieces, chunkBytes);
    ReplayAppend([], toks, pieces);
    LiteralPiecesReplay(chunk[..last], chunk[last..p]);
    assert chunk[..last] + chunk[last..p] == chunk[..p];
  }

  lemma MatchRestores(toks: seq<Token>, chunk: seq<byte>, cur: Pending, chunkBytes: nat)
    requires Restores(toks, chunk, cur.p, chunkBytes)
    requires cur.len > 0 && cur.ofs < cur.p && SameBytes(chunk, cur.ofs, cur.p, cur.len)
    requires |chunk| < Pow256(chunkBytes)
    ensures Restores(toks + MatchPieces(cur.p - cur.ofs, cur.len), chunk, cur.p + cur.len, chunkBytes)
  {
    var back := cur.p - cur.ofs;
    var pieces := MatchPieces(back, cur.len);
    assert AllPrintable(toks + pieces, chunkBytes) by {
      MatchPiecesPrintable(back, cur.len, chunkBytes);
      PrintableAppend(toks, pieces, chunkBytes);
    }
    CopyRestores(chunk, cur.p, cur.ofs, cur.len);
    var whole := chunk[..cur.p + cur.len];
    assert Replay([], toks + pieces) == Some(whole) by {
      ReplayAppend([], toks, pieces);
      MatchPiecesReplay(chunk[..cur.p], back, cur.len);
    }
  }

  // ---- The control stream is short ----

  /** The tokens take at most half as many control bytes as they restore. */
  ghost predicate LeanTo(toks: seq<Token>, n: nat, chunkBytes: nat) {
    chunkBytes <= 8 ==> 2 * |ControlBytes(toks, chunkBytes)| <= n
  }

  /** A match pays for itself and for the literal in front of it. */
  lemma MatchPays(literal: nat, len: nat, chunkBytes: nat)
    requires chunkBytes <= 8 && len >= MINIMUM_MATCH
    ensures 2 * ((if literal > 0 then 3 * Pieces(literal) else 0) + (3 + chunkBytes) * Pieces(len)) <= literal + len
  {
    var k := Pieces(len);
    assert (3 + chunkBytes) * k <= 11 * k;
  }

  lemma EmissionIsLean(toks: seq<Token>, lastMatch: nat, literal: seq<byte>, ofs: nat, len: nat, chunkBytes: nat)
    requires LeanTo(toks, lastMatch, chunkBytes) && len >= MINIMUM_MATCH
    ensures var put := if literal == [] then toks else toks + LiteralPieces(literal);
      LeanTo(put + MatchPieces(ofs, len), lastMatch + |literal| + len, chunkBytes)
  {
    hide ControlBytes, Pieces;
    if chunkBytes <= 8 {
      LiteralCost(literal, chunkBytes);
      MatchCost(ofs, len, chunkBytes);
      MatchPays(|literal|, len, chunkBytes);
      var put := if literal == [] then toks else toks + LiteralPieces(literal);
      ControlAppend(toks, LiteralPieces(literal), chunkBytes);
      ControlAppend(put, MatchPieces(ofs, len), chunkBytes);
    }
  }

  /** The rest of the chunk and the end mark may take six bytes more than their half. */
  lemma RestIsLean(toks: seq<Token>, lastMatch: nat, literal: seq<byte>, chunkBytes: nat)
    requires LeanTo(toks, lastMatch, chunkBytes)
    ensures var put := if literal == [] then toks else toks + LiteralPieces(literal);
      chunkBytes <= 8 ==> 2 * |ControlBytes(put, chunkBytes) + END_MARK| <= lastMatch + |literal| + 12
  {
    hide ControlBytes;
    LiteralCost(literal, chunkBytes);
    ControlAppend(toks, LiteralPieces(literal), chunkBytes);
  }

  /** The tokens and, behind them, the literal bytes from `from` to `to`, if any. */
  function WithLiteral(toks: seq<Token>, chunk: seq<byte>, from: nat, to: nat): seq<Token>
    requires from <= to <= |chunk|
  {
    if from == to then toks else toks + LiteralPieces(chunk[from..to])
  }

  /** The tokens and, behind them, a match and the literal bytes in front of it. */
  function WithMatch(toks: seq<Token>, chunk: seq<byte>, lastMatch: nat, m: Pending): seq<Token>
    requires lastMatch <= m.p <= |chunk| && m.ofs <= m.p
  {
    WithLiteral(toks, chunk, lastMatch, m.p) + MatchPieces(m.p - m.ofs, m.len)
  }

  /** Write the literal bytes before the pending match, if any, and the match. */
  method Emit(w: ControlWriter, chunk: seq<byte>, lastMatch: nat, cur: Pending, end: nat)
    requires w.Printed() && Restores(w.toks, chunk, lastMatch, w.chunkBytes)
    requires end <= |chunk| < Pow256(w.chunkBytes)
    requires cur.len > 0 && PendingOk(cur, chunk, lastMatch, end) && LeanTo(w.toks, lastMatch, w.chunkBytes)
    modifies w, w.s0Buf, w.ss
    ensures w.Printed() && Restores(w.toks, chunk, cur.p + cur.len, w.chunkBytes)
    ensures LeanTo(w.toks, cur.p + cur.len, w.chunkBytes)
    ensures w.toks == WithMatch(old(w.toks), chunk, lastMatch, cur)
  {
    hide Restores, LeanTo, ControlBytes, LiteralBytes, SameBytes;
    EmissionIsLean(w.toks, lastMatch, chunk[lastMatch..cur.p], cur.p - cur.ofs, cur.len, w.chunkBytes);
    if lastMatch < cur.p {
      LiteralRestores(w.toks, chunk, lastMatch, cur.p, w.chunkBytes);
      w.PutLiteral(chunk, lastMatch, cur.p);
    }
    MatchRestores(w.toks, chunk, cur, w.chunkBytes);
    w.PutMatch(cur.p, cur.ofs, cur.len);
  }

  /** Write the rest of the chunk as literal bytes, the end mark, and flush. */
  method Finish(w: ControlWriter, chunk: seq<byte>, lastMatch: nat)
    requires w.Printed() && Restores(w.toks, chunk, lastMatch, w.chunkBytes) && LeanTo(w.toks, lastMatch, w.chunkBytes)
    modifies w, w.s0Buf, w.ss
    ensures w.Valid() && Encodes(w.ss.Written(0), w.ss.Written(1), chunk, w.chunkBytes)
    ensures w.chunkBytes <= 8 ==> 2 * |w.ss.Written(0)| <= |chunk| + 12
    ensures var all := WithLiteral(old(w.toks), chunk, lastMatch, |chunk|);
      && w.ss.Written(0) == ControlBytes(all, w.chunkBytes) + END_MARK
      && w.ss.Written(1) == LiteralBytes(all)
  {
    RestIsLean(w.toks, lastMatch, chunk[lastMatch..], w.chunkBytes);
    assert chunk[lastMatch..|chunk|] == chunk[lastMatch..];
    if lastMatch < |chunk| {
      LiteralRestores(w.toks, chunk, lastMatch, |chunk|, w.chunkBytes);
      w.PutLiteral(chunk, lastMatch, |chunk|);
    }
    assert chunk[..|chunk|] == chunk;
    ghost var toks := w.toks;
    w.PutLiteral(chunk, 0, 0);
    EndMarkPrinted(toks, chunk, w.chunkBytes);
    w.S0Flush();
  }

  lemma EndMarkPrinted(toks: seq<Token>, chunk: seq<byte>, chunkBytes: nat)
    ensures ControlBytes(toks + LiteralPieces(chunk[0..0]), chunkBytes) == ControlBytes(toks, chunkBytes) + END_MARK
    ensures LiteralBytes(toks + LiteralPieces(chunk[0..0])) == LiteralBytes(toks)
  {
    var mark := LiteralPieces(chunk[0..0]);
    assert mark == [Literal([])];
    assert ControlBytes(mark, chunkBytes) == END_MARK by {
      assert mark[1..] == [];
      assert ToLE(0, 1) == [0];
      assert ToLE(0, 2) == [0, 0];
    }
    assert LiteralBytes(mark) == [] by {
      assert mark[1..] == [];
    }
    ControlAppend(toks, mark, chunkBytes);
    LiteralAppend(toks, mark);
  }

  // ---- The tags that are stored ----

  /** Every entry's tag is the tag of the 31 bytes at its offset. */
  ghost predicate Tagged(slots: seq<Entry>, index: HashIndex, chunk: seq<byte>) {
    forall e | e in slots && e != EMPTY :: TaggedEntry(e, index, chunk)
  }

  ghost predicate TaggedEntry(e: Entry, index: HashIndex, chunk: seq<byte>) {
    e.off > 0 && e.off + MINIMUM_MATCH <= |chunk| && e.t == TagAt(index, chunk, e.off)
  }

  lemma InsertTagged(tb: Table, t: Tag, off: nat, index: HashIndex, chunk: seq<byte>)
    requires WellFormed(tb) && HasRoom(tb) && Tagged(tb.slots, index, chunk)
    requires TaggedEntry(Entry(t, off), index, chunk)
    ensures Tagged(Insert(tb, t, off).slots, index, chunk)
  {
    InsertConserves(tb, t, off);
    forall e | e in Insert(tb, t, off).slots
      ensures e in tb.slots || e == Entry(t, off)
    {
      assert e in multiset(Insert(tb, t, off).slots) + multiset{Evicted(tb, t)};
    }
  }

  lemma {:induction false} CleanTagged(tb: Table, index: HashIndex, chunk: seq<byte>)
    requires CanClean(tb) && Tagged(tb.slots, index, chunk)
    ensures Tagged(Clean(tb).slots, index, chunk)
    decreases 32 - tb.k, tb.ptr
  {
    if SweepPass(tb).Again? {
      if tb.k == 32 && tb.ptr == 0 {
        DueAtLast(tb);
      } else {
        CleanTagged(SweepPass(tb).tb, index, chunk);
      }
    }
  }

  /** The table of a running scan. */
  ghost predicate ScanOk(table: HashTable, j: nat, limit: nat, k0: nat, index: HashIndex, chunk: seq<byte>)
    reads table, table.table
  {
    && table.Valid() && table.OffsetsFit()
    && ScanInvariant(Scan(table.View(), j), limit, k0)
    && Tagged(table.table[..], index, chunk)
  }

  /** Store the tag of the bytes at p and clean one entry if that overfills the table. */
  method InsertTag(table: HashTable, limit: nat, tagMask: Tag, t: Tag, p: nat, index: HashIndex, chunk: seq<byte>,
                   ghost k0: nat, ghost j: nat)
    returns (mask: Tag, ghost j': nat)
    requires ScanOk(table, j, limit, k0, index, chunk)
    requires tagMask == LowOnes(j) && Meets(j, t)
    requires TaggedEntry(Entry(t, p), index, chunk) && (table.hashWide || p <= UINT32_MAX)
    modifies table, table.table
    ensures ScanOk(table, j', limit, k0, index, chunk)
    ensures mask == LowOnes(j')
    ensures Scan(table.View(), j') == Offer(Scan(old(table.View()), j), limit, t, p)
  {
    hide ScanInvariant, Tagged, Insert, Clean, Pow2, LowOnes, Narrow;
    ghost var sc := Scan(table.View(), j);
    RoomAtLimit(sc, limit, k0);
    InsertAtLimit(sc, limit, k0, t, p);
    mask, j' := tagMask, j;
    table.hashCount := table.hashCount + 1;
    ghost var tb1 := table.View();
    InsertTagged(tb1, t, p, index, chunk);
    table.InsertHash(t, p);
    ghost var sc2 := Scan(table.View(), j);
    CleanAtLimit(sc2, limit, k0);
    if table.hashCount > limit {
      CleanTagged(sc2.tb, index, chunk);
      mask := table.CleanOneFromHash();
      j' := MoreBits(table.maskBits);
    }
  }

  // ---- The scan ----

  const GREAT_MATCH := 1024

  /** A fresh table for the chunk, sized as for rzip-2.1 and filled to two thirds at most. */
  method NewTable(chunk: seq<byte>, level: nat, index: HashIndex, victimRound: nat)
    returns (table: HashTable, limit: nat)
    requires level < |LEVELS| && victimRound < LEVELS[level].maxChainLen
    ensures fresh(table) && fresh(table.table)
    ensures ScanOk(table, LEVELS[level].initialFreq, limit, LEVELS[level].initialFreq, index, chunk)
    ensures limit == table.table.Length / 3 * 2
    ensures table.table.Length >= WantedSlots(LEVELS[level], |chunk|) > table.table.Length / 2
    ensures table.View() == Cleared(table.table.Length, LEVELS[level].initialFreq, victimRound, LEVELS[level].maxChainLen)
    ensures table.hashWide <==> |chunk| > UINT32_MAX
  {
    var lv := LEVELS[level];
    var bits := HashBits(WantedSlots(lv, |chunk|));
    table := new HashTable(bits, |chunk| > UINT32_MAX, lv.maxChainLen, lv.initialFreq, victimRound);
    limit := Pow2(bits) / 3 * 2;
    LimitIsRoomy(bits, level);
    ClearedStartsRun(Pow2(bits), lv.initialFreq, victimRound, lv.maxChainLen, limit);
  }

  /** Of the pending match and those the candidates give, the longest is kept: the pending one if
      none is longer, and otherwise the first of the longest. */
  ghost predicate Keeps(cands: seq<nat>, chunk: seq<byte>, lo: nat, p: nat, end: nat, current: Pending, next: Pending)
    requires lo <= p <= end <= |chunk|
  {
    && (forall o | o in cands :: NoBetter(o, chunk, lo, p, end, next.len))
    && (next == current || (next.len > current.len && IsFirstBest(cands, chunk, lo, p, end, next)))
  }

  ghost predicate IsFirstBest(cands: seq<nat>, chunk: seq<byte>, lo: nat, p: nat, end: nat, m: Pending)
    requires lo <= p <= end <= |chunk| && m.len > 0
  {
    exists i: nat, reverse: nat ::
      i < |cands| && FirstBest(cands, i, chunk, lo, p, end, m.len, m.ofs, reverse) && m.p + reverse == p
  }

  method KeepLonger(table: HashTable, t: Tag, p: nat, chunk: seq<byte>, lastMatch: nat, end: nat, current: Pending)
    returns (next: Pending)
    requires table.Valid() && lastMatch <= p <= end <= |chunk|
    requires PendingOk(current, chunk, lastMatch, end) && current.p <= p
    ensures PendingOk(next, chunk, lastMatch, end) && next.p <= p
    ensures Keeps(Looked(table.View(), t), chunk, lastMatch, p, end, current, next)
  {
    next := current;
    ghost var cands := Looked(table.View(), t);
    var mlen, offset, reverse := FindBestMatch(table, chunk, lastMatch, t, p, end);
    if mlen > current.len {
      BestIsMatch(cands, chunk, lastMatch, p, end, mlen, offset, reverse);
      next := Pending(p - reverse, offset, mlen);
    }
  }

  /** Look up the tag at p, store it if it meets tag_mask, and keep the longer of the match found
      and the pending one. */
  method Examine(table: HashTable, limit: nat, tagMask: Tag, t: Tag, p: nat, index: HashIndex, chunk: seq<byte>,
                 lastMatch: nat, end: nat, current: Pending, ghost k0: nat, ghost j: nat)
    returns (mask: Tag, next: Pending, ghost j': nat)
    requires ScanOk(table, j, limit, k0, index, chunk) && tagMask == LowOnes(j)
    requires lastMatch <= p && 0 < p <= end && end + MINIMUM_MATCH == |chunk|
    requires t == TagAt(index, chunk, p) && (table.hashWide || p <= UINT32_MAX)
    requires PendingOk(current, chunk, lastMatch, end) && current.p <= p
    modifies table, table.table
    ensures ScanOk(table, j', limit, k0, index, chunk) && mask == LowOnes(j')
    ensures PendingOk(next, chunk, lastMatch, end) && next.p <= p
    ensures Scan(table.View(), j') == Offer(Scan(old(table.View()), j), limit, t, p)
    ensures Keeps(Looked(old(table.View()), t), chunk, lastMatch, p, end, current, next)
  {
    hide Keeps, Looked;
    mask, j' := tagMask, j;
    next := KeepLonger(table, t, p, chunk, lastMatch, end, current);
    MaskTest(j, t);
    if And(t, tagMask) == tagMask {
      mask, j' := InsertTag(table, limit, tagMask, t, p, index, chunk, k0, j);
    }
  }

  /** The variables of the scan: the position, the tag there, the end of the last match written
      and the pending match. */
  datatype Cursor = Cursor(p: nat, t: Tag, lastMatch: nat, current: Pending)

  ghost predicate CursorOk(c: Cursor, chunk: seq<byte>, index: HashIndex, end: nat) {
    && end + MINIMUM_MATCH == |chunk|
    && c.lastMatch <= c.p <= end && c.current.p <= c.p
    && c.t == TagAt(index, chunk, c.p)
    && PendingOk(c.current, chunk, c.lastMatch, end)
  }

  /** A match is written at p if it has 1024 bytes, or at least 31 and starts 31 bytes behind. */
  predicate IsDue(m: Pending, p: nat) {
    m.len >= 31 && (m.len >= 1024 || p >= m.p + 31)
  }

  /** The scan goes on right behind this match, with nothing pending. */
  ghost predicate Resumes(c: Cursor, m: Pending, chunk: seq<byte>, index: HashIndex)
    requires m.p + m.len + MINIMUM_MATCH <= |chunk|
  {
    var p := m.p + m.len;
    c.p == c.lastMatch == c.current.p == p && c.t == TagAt(index, chunk, p) && c.current.len == 0
  }

  /** Write the pending match if it is long enough or 31 bytes behind, and resume right after it,
      which may lie before p. */
  method EmitIfDue(w: ControlWriter, chunk: seq<byte>, index: HashIndex, end: nat, c: Cursor) returns (c': Cursor)
    requires w.Printed() && Restores(w.toks, chunk, c.lastMatch, w.chunkBytes)
    requires CursorOk(c, chunk, index, end) && |chunk| < Pow256(w.chunkBytes) && LeanTo(w.toks, c.lastMatch, w.chunkBytes)
    modifies w, w.s0Buf, w.ss
    ensures w.Printed() && Restores(w.toks, chunk, c'.lastMatch, w.chunkBytes)
    ensures LeanTo(w.toks, c'.lastMatch, w.chunkBytes)
    ensures CursorOk(c', chunk, index, end)
    ensures if IsDue(c.current, c.p)
      then Resumes(c', c.current, chunk, index) && w.toks == WithMatch(old(w.toks), chunk, c.lastMatch, c.current)
      else c' == c && w.toks == old(w.toks)
  {
    hide Restores, SameBytes, XorRange, LeanTo, WithMatch;
    var cur := c.current;
    c' := c;
    if (cur.len >= GREAT_MATCH || c.p >= cur.p + MINIMUM_MATCH) && cur.len >= MINIMUM_MATCH {
      Emit(w, chunk, c.lastMatch, cur, end);
      var p := cur.p + cur.len;
      var t := FullTag(index, chunk, p);
      c' := Cursor(p, t, p, Pending(p, cur.ofs, 0));
    }
  }

  /** Where a scan stands: the table and the mask, the variables, and the tokens written. */
  datatype Snapshot = Snapshot(sc: Scan, c: Cursor, toks: seq<Token>)

  ghost predicate SnapOk(s: Snapshot, chunk: seq<byte>, index: HashIndex, end: nat, limit: nat, k0: nat) {
    CursorOk(s.c, chunk, index, end) && ScanInvariant(s.sc, limit, k0)
  }

  /** One iteration leads from s to s'. A tag that no stored one can equal is passed over. For any
      other, the longest match is kept, the tag is offered to the table as it was before, and what
      is due is written. */
  ghost predicate Iterates(s: Snapshot, s': Snapshot, chunk: seq<byte>, index: HashIndex, end: nat, limit: nat)
    requires CursorOk(s.c, chunk, index, end) && s.c.p < end && |s.sc.tb.slots| > 0
  {
    var p := s.c.p + 1;
    var t := TagAt(index, chunk, p);
    if !Meets(s.sc.tb.k, t) then s' == s.(c := s.c.(p := p, t := t))
    else
      && s'.sc == Offer(s.sc, limit, t, p)
      && exists next: Pending ::
        && PendingOk(next, chunk, s.c.lastMatch, end)
        && Keeps(Looked(s.sc.tb, t), chunk, s.c.lastMatch, p, end, s.c.current, next)
        && (if IsDue(next, p) then Writes(s, s', next, chunk, index, end)
            else s'.c == s.c.(p := p, t := t, current := next) && s'.toks == s.toks)
  }

  /** This match is written between s and s'. */
  ghost predicate Writes(s: Snapshot, s': Snapshot, m: Pending, chunk: seq<byte>, index: HashIndex, end: nat) {
    && end + MINIMUM_MATCH == |chunk| && m.len >= MINIMUM_MATCH && PendingOk(m, chunk, s.c.lastMatch, end)
    && Resumes(s'.c, m, chunk, index)
    && s'.toks == WithMatch(s.toks, chunk, s.c.lastMatch, m)
  }

  /** A scan from its start as far as it has come, one snapshot for each iteration. */
  ghost predicate IsRun(run: seq<Snapshot>, chunk: seq<byte>, index: HashIndex, end: nat, limit: nat, k0: nat) {
    && |run| > 0
    && (forall i | 0 <= i < |run| :: SnapOk(run[i], chunk, index, end, limit, k0))
    && (forall i | 0 <= i < |run| - 1 :: run[i].c.p < end && Iterates(run[i], run[i + 1], chunk, index, end, limit))
  }

  /** The scan of a chunk longer than 31 bytes, from a cleared table and the chunk's first byte to
      `end`, and the tokens it has written by then. */
  ghost predicate Scanned(run: seq<Snapshot>, toks: seq<Token>, chunk: seq<byte>, index: HashIndex, level: nat, victimRound: nat)
    requires level < |LEVELS|
  {
    if |chunk| <= MINIMUM_MATCH then run == [] && toks == WithLiteral([], chunk, 0, |chunk|)
    else
      && |run| > 0
      && var first, last, slots := run[0], run[|run| - 1], |run[0].sc.tb.slots|;
         && IsRun(run, chunk, index, |chunk| - MINIMUM_MATCH, slots / 3 * 2, LEVELS[level].initialFreq)
         && slots >= WantedSlots(LEVELS[level], |chunk|) > slots / 2
         && StartsAt(first, Scan(Cleared(slots, LEVELS[level].initialFreq, victimRound, LEVELS[level].maxChainLen),
                                 LEVELS[level].initialFreq))
         && last.c.p == |chunk| - MINIMUM_MATCH
         && toks == WithLiteral(last.toks, chunk, last.c.lastMatch, |chunk|)
  }

  lemma RunGrows(run: seq<Snapshot>, s: Snapshot, chunk: seq<byte>, index: HashIndex, end: nat, limit: nat, k0: nat)
    requires IsRun(run, chunk, index, end, limit, k0) && SnapOk(s, chunk, index, end, limit, k0)
    requires run[|run| - 1].c.p < end && Iterates(run[|run| - 1], s, chunk, index, end, limit)
    ensures IsRun(run + [s], chunk, index, end, limit, k0)
  {
    hide SnapOk, Iterates;
  }

  /** One iteration of the scan. */
  method ScanStep(w: ControlWriter, table: HashTable, limit: nat, tagMask: Tag, chunk: seq<byte>, index: HashIndex,
                  end: nat, c: Cursor, ghost k0: nat, ghost j: nat)
    returns (mask: Tag, c': Cursor, ghost j': nat)
    requires w.Printed() && Restores(w.toks, chunk, c.lastMatch, w.chunkBytes)
    requires CursorOk(c, chunk, index, end) && c.p < end && |chunk| < Pow256(w.chunkBytes)
    requires ScanOk(table, j, limit, k0, index, chunk) && tagMask == LowOnes(j)
    requires table.hashWide || |chunk| <= UINT32_MAX
    requires LeanTo(w.toks, c.lastMatch, w.chunkBytes)
    modifies w, w.s0Buf, w.ss, table, table.table
    ensures w.Printed() && Restores(w.toks, chunk, c'.lastMatch, w.chunkBytes)
    ensures LeanTo(w.toks, c'.lastMatch, w.chunkBytes)
    ensures CursorOk(c', chunk, index, end)
    ensures ScanOk(table, j', limit, k0, index, chunk) && mask == LowOnes(j')
    ensures c'.lastMatch > c.lastMatch || (c'.lastMatch == c.lastMatch && c'.p == c.p + 1)
    ensures Iterates(Snapshot(Scan(old(table.View()), j), c, old(w.toks)), Snapshot(Scan(table.View(), j'), c', w.toks),
                     chunk, index, end, limit)
  {
    hide Restores, SameBytes, XorRange, Tagged, ScanInvariant, LeanTo, Keeps, Looked, WithMatch;
    mask, j' := tagMask, j;
    var p := c.p + 1;
    var t := NextTag(index, chunk, p, c.t);
    var current := c.current;
    MaskTest(table.maskBits, t);
    if And(t, table.minimumTagMask) != table.minimumTagMask {
      c' := Cursor(p, t, c.lastMatch, current);
      return;
    }
    mask, current, j' := Examine(table, limit, tagMask, t, p, index, chunk, c.lastMatch, end, current, k0, j);
    c' := EmitIfDue(w, chunk, index, end, Cursor(p, t, c.lastMatch, current));
  }

  /** The loop of hash_search, for a chunk longer than 31 bytes. It ends although p can move backward:
      each iteration moves last_match, or leaves it and moves p, towards the end. */
  method ScanChunk(w: ControlWriter, table: HashTable, limit: nat, chunk: seq<byte>, index: HashIndex, k0: nat)
    returns (lastMatch: nat, ghost j: nat, ghost run: seq<Snapshot>)
    requires w.Printed() && w.toks == [] && MINIMUM_MATCH < |chunk| < Pow256(w.chunkBytes)
    requires k0 <= 32 && ScanOk(table, k0, limit, k0, index, chunk)
    requires table.hashWide || |chunk| <= UINT32_MAX
    modifies w, w.s0Buf, w.ss, table, table.table
    ensures w.Printed() && Restores(w.toks, chunk, lastMatch, w.chunkBytes) && LeanTo(w.toks, lastMatch, w.chunkBytes)
    ensures lastMatch <= |chunk|
    ensures ScanOk(table, j, limit, k0, index, chunk)
    ensures IsRun(run, chunk, index, |chunk| - MINIMUM_MATCH, limit, k0)
    ensures |run| > 0 && StartsAt(run[0], Scan(old(table.View()), k0)) && run[|run| - 1].c.p == |chunk| - MINIMUM_MATCH
    ensures run[|run| - 1].sc == Scan(table.View(), j)
    ensures run[|run| - 1].toks == w.toks && run[|run| - 1].c.lastMatch == lastMatch
  {
    hide Restores, SameBytes, XorRange, Tagged, ScanInvariant, LeanTo, Iterates, IsRun;
    NothingRestored(chunk, w.chunkBytes);
    IncreaseMaskOnes(k0);
    var tagMask: Tag := LowOnes(k0);
    j := k0;
    var end: nat := |chunk| - MINIMUM_MATCH;
    var t := FullTag(index, chunk, 0);
    var c := Cursor(0, t, 0, Pending(0, 0, 0));
    ghost var first := Snapshot(Scan(table.View(), j), c, []);
    run := [first];
    RunStarts(first, chunk, index, end, limit, k0);
    while c.p < end
      invariant w.Printed() && Restores(w.toks, chunk, c.lastMatch, w.chunkBytes)
      invariant LeanTo(w.toks, c.lastMatch, w.chunkBytes)
      invariant CursorOk(c, chunk, index, end)
      invariant ScanOk(table, j, limit, k0, index, chunk) && tagMask == LowOnes(j)
      invariant IsRun(run, chunk, index, end, limit, k0)
      invariant |run| > 0 && run[0] == first && run[|run| - 1] == Snapshot(Scan(table.View(), j), c, w.toks)
      decreases |chunk| - c.lastMatch, end - c.p
    {
      tagMask, c, j := ScanStep(w, table, limit, tagMask, chunk, index, end, c, k0, j);
      RunGrows(run, Snapshot(Scan(table.View(), j), c, w.toks), chunk, index, end, limit, k0);
      run := run + [Snapshot(Scan(table.View(), j), c, w.toks)];
    }
    lastMatch := c.lastMatch;
  }

  /** Nothing is read, written or pending yet. */
  ghost predicate StartsAt(s: Snapshot, sc: Scan) {
    s.sc == sc && s.toks == [] && s.c.p == s.c.lastMatch == s.c.current.p == s.c.current.len == 0
  }

  lemma RunStarts(s: Snapshot, chunk: seq<byte>, index: HashIndex, end: nat, limit: nat, k0: nat)
    requires SnapOk(s, chunk, index, end, limit, k0)
    ensures IsRun([s], chunk, index, end, limit, k0)
  {
  }

  /** Whatever the chunk, the level and the tag index: the two streams encode exactly the chunk, the
      control stream is about half as long at most, they are the tokens of the scan, and the table
      ends in a state its invariant allows. */
  method HashSearch(chunk: seq<byte>, level: nat, index: HashIndex, w: ControlWriter, victimRound: nat)
    returns (table: HashTable, limit: nat, ghost j: nat, ghost run: seq<Snapshot>, ghost toks: seq<Token>)
    requires level < |LEVELS| && victimRound < LEVELS[level].maxChainLen
    requires w.Printed() && w.toks == [] && |chunk| < Pow256(w.chunkBytes)
    modifies w, w.s0Buf, w.ss
    ensures w.Valid() && Encodes(w.ss.Written(0), w.ss.Written(1), chunk, w.chunkBytes)
    ensures w.chunkBytes <= 8 ==> 2 * |w.ss.Written(0)| <= |chunk| + 12
    ensures Scanned(run, toks, chunk, index, level, victimRound)
    ensures w.ss.Written(0) == ControlBytes(toks, w.chunkBytes) + END_MARK && w.ss.Written(1) == LiteralBytes(toks)
    ensures ScanOk(table, j, limit, LEVELS[level].initialFreq, index, chunk)
    ensures run != [] ==> run[|run| - 1].sc == Scan(table.View(), j)
  {
    hide Restores, ScanOk, LeanTo, IsRun, WithLiteral, Encodes, ControlBytes, LiteralBytes, Cleared, WantedSlots;
    NothingRestored(chunk, w.chunkBytes);
    table, limit := NewTable(chunk, level, index, victimRound);
    j := LEVELS[level].initialFreq;
    var lastMatch := 0;
    run := [];
    if |chunk| > MINIMUM_MATCH {
      lastMatch, j, run := ScanChunk(w, table, limit, chunk, index, LEVELS[level].initialFreq);
    }
    toks := WithLiteral(w.toks, chunk, lastMatch, |chunk|);
    Finish(w, chunk, lastMatch);
  }
}
