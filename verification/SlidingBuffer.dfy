/** The sliding buffer: a chunk of the input file seen through two memory maps, a large low one
    that follows the search and a one-page high one that goes wherever else a byte is needed. */
module SlidingBuffer {
  import opened Bits
  import opened Bytes
  import opened TagTable
  import opened MatchFinder

  predicate Aligned(n: nat, page: nat) {
    page > 0 && n % page == 0
  }

  function PageStart(p: nat, page: nat): nat
    requires page > 0
  {
    p - p % page
  }

  /** Whole pages, and at least one. */
  function RoundToPage(size: nat, page: nat): nat
    requires page > 0
  {
    var r := size - size % page;
    if r == 0 then page else r
  }

  lemma PageStarts(p: nat, page: nat)
    requires page > 0
    ensures PageStart(p, page) <= p < PageStart(p, page) + page && Aligned(PageStart(p, page), page)
    ensures p >= page ==> RoundToPage(p, page) == PageStart(p, page) >= page
  {
    ModUnique(p - p % page, page, p / page, 0);
    if p >= page {
      assert p / page >= 1;
      WholePages(page, p / page);
    }
  }

  lemma WholePages(page: nat, n: nat)
    requires n >= 1
    ensures page * n >= page
  {
    assert page * n == page + page * (n - 1);
  }

  lemma SumOfPages(a: nat, b: nat, page: nat)
    requires Aligned(a, page) && Aligned(b, page)
    ensures Aligned(a + b, page)
  {
    ModUnique(a + b, page, a / page + b / page, 0);
  }

  /** Rounding within the file is rounding within a chunk that starts at a page boundary. */
  lemma SamePage(p: nat, origOffset: nat, page: nat)
    requires Aligned(origOffset, page)
    ensures p - (p + origOffset) % page == PageStart(p, page)
  {
    ModUnique(p + origOffset, page, p / page + origOffset / page, p % page);
  }

  class SlidingBuffer {
    const file: seq<byte>
    const page: nat
    const origOffset: nat
    const origSize: nat
    const highLength: nat
    var bufLow: seq<byte>
    var bufHigh: seq<byte>
    var offsetLow: nat
    var offsetHigh: nat
    var sizeLow: nat
    var sizeHigh: nat
    var offsetSearch: nat

    /** What the maps stand for: the chunk as one array. */
    ghost function Chunk(): seq<byte>
      requires origOffset + origSize <= |file|
    {
      file[origOffset..origOffset + origSize]
    }

    /** The chunk lies in the file at a page boundary; each map shows the part of it that its
        offset and size say, and starts at a page boundary of the file. */
    ghost predicate Valid()
      reads this
    {
      && Aligned(origOffset, page) && origOffset + origSize <= |file| && highLength == page
      && Aligned(offsetLow, page) && Aligned(offsetHigh, page)
      && page <= offsetLow + sizeLow <= origSize && offsetHigh + sizeHigh <= origSize
      && bufLow == Chunk()[offsetLow..offsetLow + sizeLow]
      && bufHigh == Chunk()[offsetHigh..offsetHigh + sizeHigh]
    }

    /** init_sliding_mmap: the low map covers mmap_size bytes, the high one the first page. */
    constructor (file: seq<byte>, page: nat, origOffset: nat, mmapSize: nat, chunkSize: nat)
      requires Aligned(origOffset, page) && origOffset + chunkSize <= |file|
      requires page <= mmapSize < chunkSize
      ensures Valid() && Chunk() == file[origOffset..origOffset + chunkSize] && offsetSearch == 0
    {
      this.file, this.page, this.origOffset, origSize, highLength := file, page, origOffset, chunkSize, page;
      offsetLow, offsetHigh, offsetSearch, sizeLow, sizeHigh := 0, 0, 0, mmapSize, page;
      bufLow := file[origOffset..origOffset + mmapSize];
      bufHigh := file[origOffset..origOffset + page];
      PageStarts(0, page);
      hide Aligned;
      SliceOfSlice(file, origOffset, chunkSize, 0, mmapSize);
      SliceOfSlice(file, origOffset, chunkSize, 0, page);
    }

    /** mmap: a part of the chunk, from a page boundary of the file. */
    method Map(offset: nat, size: nat) returns (buf: seq<byte>)
      requires Aligned(origOffset + offset, page)
      requires offset + size <= origSize && origOffset + origSize <= |file|
      ensures buf == Chunk()[offset..offset + size]
    {
      buf := file[origOffset + offset..origOffset + offset + size];
      SliceOfSlice(file, origOffset, origSize, offset, size);
    }

    /** Move the low map up to the page of the search position. */
    method RemapLow()
      requires Valid() && offsetLow + sizeLow < offsetSearch < origSize
      modifies this`offsetLow, this`sizeLow, this`bufLow
      ensures Valid() && offsetLow == PageStart(offsetSearch, page)
    {
      PageStarts(offsetSearch, page);
      hide RoundToPage, PageStart, Aligned;
      var newOffset := RoundToPage(offsetSearch, page);
      if newOffset + sizeLow > origSize {
        sizeLow := origSize - newOffset;
      }
      offsetLow := newOffset;
      SumOfPages(origOffset, offsetLow, page);
      bufLow := Map(offsetLow, sizeLow);
    }

    /** Move the high map to the page of p. */
    method RemapHigh(p: nat)
      requires Valid() && p < origSize
      modifies this`offsetHigh, this`sizeHigh, this`bufHigh
      ensures Valid() && offsetHigh <= p < offsetHigh + sizeHigh
    {
      PageStarts(p, page);
      SamePage(p, origOffset, page);
      hide PageStart, Aligned;
      sizeHigh := highLength;
      offsetHigh := p - (p + origOffset) % page;
      if offsetHigh + sizeHigh > origSize {
        sizeHigh := origSize - offsetHigh;
      }
      SumOfPages(origOffset, offsetHigh, page);
      bufHigh := Map(offsetHigh, sizeHigh);
    }

    /** The search has come to p: the low map follows once p is past its end. */
    method Search(p: nat)
      requires Valid() && p < origSize
      modifies this`offsetSearch, this`offsetLow, this`sizeLow, this`bufLow
      ensures Valid() && offsetSearch == p
    {
      offsetSearch := p;
      if offsetSearch > offsetLow + sizeLow {
        RemapLow();
      }
    }

    predicate InLow(p: int, len: int)
      reads this
    {
      p >= offsetLow && len >= 0 && p + len <= offsetLow + sizeLow
    }

    /** A contiguous run of the chunk that starts at p. */
    method MapForward(p: nat) returns (run: seq<byte>)
      requires Valid() && p < origSize
      modifies this`offsetHigh, this`sizeHigh, this`bufHigh
      ensures Valid() && 1 <= |run| <= origSize - p && run == Chunk()[p..p + |run|]
    {
      if offsetLow <= p < offsetLow + sizeLow {
        run := bufLow[p - offsetLow..];
        SliceTail(Chunk(), offsetLow, sizeLow, p);
        return;
      }
      if !(offsetHigh <= p < offsetHigh + sizeHigh) {
        RemapHigh(p);
      }
      run := bufHigh[p - offsetHigh..];
      SliceTail(Chunk(), offsetHigh, sizeHigh, p);
    }

    /** The byte at p. */
    method GetByte(p: nat) returns (b: byte)
      requires Valid() && p < origSize
      modifies this`offsetHigh, this`sizeHigh, this`bufHigh
      ensures Valid() && b == Chunk()[p]
    {
      if offsetLow <= p < offsetLow + sizeLow {
        return bufLow[p - offsetLow];
      }
      if offsetHigh <= p < offsetHigh + sizeHigh {
        return bufHigh[p - offsetHigh];
      }
      RemapHigh(p);
      return bufHigh[p - offsetHigh];
    }

    /** How many mapped bytes lie right before p, and that many bytes. */
    method MapBackward(p: nat) returns (run: seq<byte>)
      requires Valid() && p <= origSize
      modifies this`offsetHigh, this`sizeHigh, this`bufHigh
      ensures Valid() && |run| <= p && run == Chunk()[p - |run|..p]
      ensures p > 0 ==> run != []
    {
      if p == 0 {
        return [];
      }
      var q := p - 1;
      if offsetLow <= q < offsetLow + sizeLow {
        SliceHead(Chunk(), offsetLow, sizeLow, p);
        return bufLow[..p - offsetLow];
      }
      if !(offsetHigh <= q < offsetHigh + sizeHigh) {
        RemapHigh(q);
      }
      SliceHead(Chunk(), offsetHigh, sizeHigh, p);
      return bufHigh[..p - offsetHigh];
    }

    /** sliding_mcpy: a part of the chunk, run by run. */
    method Copy(offset: nat, len: nat) returns (buf: seq<byte>)
      requires Valid() && offset + len <= origSize
      modifies this`offsetHigh, this`sizeHigh, this`bufHigh
      ensures Valid() && buf == Chunk()[offset..offset + len]
    {
      buf := [];
      var n := 0;
      while n < len
        invariant Valid() && n <= len && buf == Chunk()[offset..offset + n]
      {
        var run := MapForward(offset + n);
        var m := if |run| < len - n then |run| else len - n;
        SliceJoin(Chunk(), offset, n, run, m);
        buf := buf + run[..m];
        n := n + m;
      }
    }

    /** sliding_next_tag: from the tag at p - 1 to the tag at p. */
    method NextTag(index: HashIndex, p: nat, t: Tag) returns (next: Tag)
      requires Valid() && 1 <= p && p + MINIMUM_MATCH <= origSize
      requires t == TagAt(index, Chunk(), p - 1)
      modifies this`offsetHigh, this`sizeHigh, this`bufHigh
      ensures Valid() && next == TagAt(index, Chunk(), p)
    {
      NextTagRolls(index, Chunk(), p);
      var p1, p2 := p - 1, p + MINIMUM_MATCH - 1;
      if InLow(p1, 1) && InLow(p2, 1) {
        next := XorTag(t, index[bufLow[p1 - offsetLow]]);
        return XorTag(next, index[bufLow[p2 - offsetLow]]);
      }
      var out := GetByte(p1);
      next := XorTag(t, index[out]);
      var inn := GetByte(p2);
      next := XorTag(next, index[inn]);
    }

    /** sliding_full_tag: the tag at p, wherever its 31 bytes are mapped. */
    method FullTag(index: HashIndex, p: nat) returns (ret: Tag)
      requires Valid() && p + MINIMUM_MATCH <= origSize
      modifies this`offsetHigh, this`sizeHigh, this`bufHigh
      ensures Valid() && ret == TagAt(index, Chunk(), p)
    {
      hide XorRange, Aligned;
      StartOfRange(index, Chunk(), p);
      if InLow(p, MINIMUM_MATCH) {
        SliceTail(Chunk(), offsetLow, sizeLow, p);
        SliceFirst(Chunk(), p, bufLow[p - offsetLow..], MINIMUM_MATCH);
        ret := XorRun(index, Chunk(), p, 0, bufLow[p - offsetLow..][..MINIMUM_MATCH], 0);
        return;
      }
      var run := MapForward(p);
      if |run| >= MINIMUM_MATCH {
        SliceFirst(Chunk(), p, run, MINIMUM_MATCH);
        ret := XorRun(index, Chunk(), p, 0, run[..MINIMUM_MATCH], 0);
        return;
      }
      ret := 0;
      var i := 0;
      while i < MINIMUM_MATCH
        invariant Valid() && i <= MINIMUM_MATCH && ret == XorRange(index, Chunk(), p, i)
      {
        run := MapForward(p + i);
        var n := if |run| > MINIMUM_MATCH - i then MINIMUM_MATCH - i else |run|;
        SliceFirst(Chunk(), p + i, run, n);
        ret := XorRun(index, Chunk(), p, i, run[..n], ret);
        i := i + n;
      }
    }
  }

  /** Add the index values of a run of bytes behind the first i. */
  method XorRun(index: HashIndex, ghost chunk: seq<byte>, ghost p: nat, ghost i: nat, run: seq<byte>, ret0: Tag) returns (ret: Tag)
    requires p + i + |run| <= |chunk| && run == chunk[p + i..p + i + |run|]
    requires ret0 == XorRange(index, chunk, p, i)
    ensures ret == XorRange(index, chunk, p, i + |run|)
  {
    ret := ret0;
    for j := 0 to |run|
      invariant ret == XorRange(index, chunk, p, i + j)
    {
      assert run[j] == chunk[p + (i + j + 1) - 1];
      ret := XorTag(ret, index[run[j]]);
    }
  }

  lemma StartOfRange(index: HashIndex, chunk: seq<byte>, p: nat)
    requires p <= |chunk|
    ensures XorRange(index, chunk, p, 0) == 0
  {
  }

  lemma SliceFirst(chunk: seq<byte>, p: nat, run: seq<byte>, n: nat)
    requires p + |run| <= |chunk| && run == chunk[p..p + |run|] && n <= |run|
    ensures run[..n] == chunk[p..p + n]
  {
  }

  lemma SliceTail(chunk: seq<byte>, offset: nat, size: nat, p: nat)
    requires offset <= p <= offset + size <= |chunk|
    ensures chunk[offset..offset + size][p - offset..] == chunk[p..offset + size]
  {
  }

  lemma SliceHead(chunk: seq<byte>, offset: nat, size: nat, p: nat)
    requires offset <= p <= offset + size <= |chunk|
    ensures chunk[offset..offset + size][..p - offset] == chunk[offset..p]
  {
  }

  lemma SliceJoin(chunk: seq<byte>, offset: nat, n: nat, run: seq<byte>, m: nat)
    requires offset + n + |run| <= |chunk| && run == chunk[offset + n..offset + n + |run|] && m <= |run|
    ensures chunk[offset..offset + n] + run[..m] == chunk[offset..offset + (n + m)]
  {
  }
}
