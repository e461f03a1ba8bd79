/** A whole file: compressed chunk by chunk, written by concurrent threads in any interleaving, and
    decompressed again. */
module WholeFile {
  import opened Archive
  import opened Bytes
  import opened Container
  import opened ContainerReading
  import opened EndToEnd
  import opened Tokens
  import Bits
  import HashSearch
  import MatchFinder
  import OutputTurns
  import Runzip
  import StreamOut

  const LRZ_FILTER_NONE: byte := 0
  const LRZ_CHUNK_FILTER_MAX: byte := 2
  const MAX_I64 := 0x7FFF_FFFF_FFFF_FFFF

  // ---- Chunk headers ----

  datatype Found = Found(head: Head, eof: bool, start: nat)

  /** The chunk header at pos, if it is acceptable, and where the container behind it starts. */
  function ReadHead(file: seq<byte>, pos: nat): Option<Found> {
    if pos + 3 > |file| then None
    else
      var wl, filter, eof := file[pos], file[pos + 1], file[pos + 2];
      if wl < 1 || wl > 8 || filter > LRZ_CHUNK_FILTER_MAX || pos + 3 + wl > |file| then None
      else
        var size := FromLE(file[pos + 3..pos + 3 + wl]);
        if size > MAX_I64 then None else Some(Found(Head(wl, filter, size), eof != 0, pos + 3 + wl))
  }

  predicate HeadOk(h: Head) {
    1 <= h.wl <= 8 && h.filter == LRZ_FILTER_NONE && h.size < Pow256(h.wl) && h.size <= MAX_I64
  }

  lemma HeadIsRead(before: seq<byte>, h: Head, eof: bool, rest: seq<byte>)
    requires HeadOk(h)
    ensures ReadHead(before + HeadBytes(h, eof) + rest, |before|) == Some(Found(h, eof, |before| + |HeadBytes(h, eof)|))
  {
    hide ToLE, FromLE, Pow256;
    var file, pos := before + HeadBytes(h, eof) + rest, |before|;
    assert file[pos..pos + 3] == HeadBytes(h, eof)[..3];
    assert file[pos + 3..pos + 3 + h.wl] == ToLE(h.size, h.wl);
    LERoundTrip(h.size, h.wl);
  }

  // ---- Chunks from parts ----

  /** A header is accepted exactly if its width is 1 to 8, its filter known and its size below 2^63. */
  lemma HeadIsAccepted(before: seq<byte>, h: Head, eof: bool, rest: seq<byte>)
    requires h.size < Pow256(h.wl)
    ensures ReadHead(before + HeadBytes(h, eof) + rest, |before|) ==
      if 1 <= h.wl <= 8 && h.filter <= 2 && h.size < 0x8000_0000_0000_0000 then Some(Found(h, eof, |before| + 3 + h.wl))
      else None
  {
    hide ToLE, FromLE, Pow256;
    var file, pos := before + HeadBytes(h, eof) + rest, |before|;
    assert file[pos..pos + 3] == HeadBytes(h, eof)[..3];
    assert file[pos] == h.wl && file[pos + 1] == h.filter && file[pos + 2] == if eof then 1 else 0;
    assert file[pos + 3..pos + 3 + h.wl] == ToLE(h.size, h.wl);
    LERoundTrip(h.size, h.wl);
  }

  function ChunksOf(codec: Codec, parts: seq<Part>, heads: seq<Head>): seq<Chunk>
    requires |parts| == |heads|
  {
    seq(|parts|, i requires 0 <= i < |parts| => Chunk(heads[i], PackAll(codec, parts[i].jobs)))
  }

  /** Each part is a compressed chunk, and its header is acceptable. */
  ghost predicate PartsOk(parts: seq<Part>, heads: seq<Head>) {
    && |parts| == |heads|
    && forall i | 0 <= i < |parts| :: PartOk(parts[i], heads[i].wl) && HeadOk(heads[i])
  }

  /** The size in a chunk's header: at least a page, and its low bytes only. */
  function HeadSize(size: nat, page: nat, wl: nat): (r: nat)
    ensures r < Pow256(wl)
    ensures page <= size < Pow256(wl) ==> r == size
    ensures size < page < Pow256(wl) ==> r == page
  {
    LowBytes(Bits.Max(size, page), wl);
    Bits.Max(size, page) % Pow256(wl)
  }

  /** The chunks one after the other. */
  function Original(parts: seq<Part>): seq<byte>
    decreases |parts|
  {
    if parts == [] then [] else Original(parts[..|parts| - 1]) + parts[|parts| - 1].chunk
  }

  lemma PartsGiveChunks(codec: Codec, parts: seq<Part>, heads: seq<Head>)
    requires PartsOk(parts, heads)
    ensures ChunksOk(ChunksOf(codec, parts, heads)) && HeadsOf(ChunksOf(codec, parts, heads)) == heads
  {
    hide Encodes, Pack;
    forall i | 0 <= i < |parts|
      ensures PackAll(codec, parts[i].jobs) != [] && JobsOk(PackAll(codec, parts[i].jobs))
    {
      assert PartOk(parts[i], heads[i].wl);
      assert StreamOut.BlocksOf(parts[i].jobs, 0) != [];
      PackedOk(codec, parts[i].jobs);
    }
  }

  // ---- Where a chunk stands in the file ----

  /** What stands behind chunk c. */
  function Behind(chunks: seq<Chunk>, flags: seq<bool>, c: nat): seq<byte>
    requires c < |chunks| <= |flags|
    decreases |chunks|
  {
    var n := |chunks| - 1;
    if c == n then []
    else Behind(chunks[..n], flags, c) + HeadBytes(chunks[n].head, flags[n]) + WriteAll(chunks[n].jobs, chunks[n].head.wl).file
  }

  lemma {:induction false} BehindIsRest(chunks: seq<Chunk>, flags: seq<bool>, c: nat)
    requires c < |chunks| <= |flags|
    ensures FileOf(chunks, flags) == FileOf(chunks[..c + 1], flags) + Behind(chunks, flags, c)
    decreases |chunks|
  {
    hide HeadBytes, WriteAll;
    var n := |chunks| - 1;
    if c == n {
      assert chunks[..c + 1] == chunks;
    } else {
      assert chunks[..n][..c + 1] == chunks[..c + 1];
      BehindIsRest(chunks[..n], flags, c);
      var head, container := HeadBytes(chunks[n].head, flags[n]), WriteAll(chunks[n].jobs, chunks[n].head.wl).file;
      Associate(FileOf(chunks[..c + 1], flags), Behind(chunks[..n], flags, c), head);
      Associate(FileOf(chunks[..c + 1], flags), Behind(chunks[..n], flags, c) + head, container);
    }
  }

  lemma FileUpTo(chunks: seq<Chunk>, flags: seq<bool>, c: nat)
    requires c < |chunks| <= |flags|
    ensures FileOf(chunks[..c + 1], flags)
         == FileOf(chunks[..c], flags) + HeadBytes(chunks[c].head, flags[c]) + WriteAll(chunks[c].jobs, chunks[c].head.wl).file
  {
    hide HeadBytes, WriteAll;
    assert chunks[..c + 1][..c] == chunks[..c];
  }

  lemma ChunkStands(chunks: seq<Chunk>, flags: seq<bool>, c: nat)
    requires c < |chunks| <= |flags|
    ensures var h, container := chunks[c].head, WriteAll(chunks[c].jobs, chunks[c].head.wl).file;
      && FileOf(chunks, flags) == FileOf(chunks[..c], flags) + HeadBytes(h, flags[c]) + (container + Behind(chunks, flags, c))
      && FileOf(chunks[..c + 1], flags) == FileOf(chunks[..c], flags) + HeadBytes(h, flags[c]) + container
  {
    hide HeadBytes, WriteAll, FileOf, Behind;
    var container := WriteAll(chunks[c].jobs, chunks[c].head.wl).file;
    FileUpTo(chunks, flags, c);
    BehindIsRest(chunks, flags, c);
    Associate(FileOf(chunks[..c], flags) + HeadBytes(chunks[c].head, flags[c]), container, Behind(chunks, flags, c));
  }

  // ---- Compressing ----

  /** The fewest bytes for a chunk's positions are at most eight. */
  lemma {:induction false} WidthIsSmall(size: nat, width: nat)
    requires size <= MAX_I64 && width > 8
    ensures size < Pow256(width - 1)
    decreases width
  {
    if width == 9 {
      assert Pow256(2) == 0x100 * Pow256(1) == 0x1_0000;
      assert Pow256(4) == 0x100 * Pow256(3) == 0x1_0000_0000;
      assert Pow256(6) == 0x100 * Pow256(5) == 0x1_0000_0000_0000;
      assert Pow256(8) == 0x100 * Pow256(7) == 0x1_0000_0000_0000_0000;
    } else {
      WidthIsSmall(size, width - 1);
    }
  }

  /** rzip_fd: each chunk in turn, with positions as wide as it needs. The static victim_round and
      the buffer size are given for each chunk. */
  method CompressChunks(chunks: seq<seq<byte>>, level: nat, index: MatchFinder.HashIndex, rounds: seq<nat>,
                        bufsizes: seq<nat>, page: nat)
    returns (parts: seq<Part>, heads: seq<Head>)
    requires level < |HashSearch.LEVELS| && |rounds| == |bufsizes| == |chunks| && page <= MAX_I64
    requires forall i | 0 <= i < |chunks| ::
      rounds[i] < HashSearch.LEVELS[level].maxChainLen && bufsizes[i] > 0 && |chunks[i]| <= MAX_I64
    ensures PartsOk(parts, heads) && |parts| == |chunks|
    ensures forall i | 0 <= i < |chunks| ::
      && parts[i].chunk == chunks[i] && parts[i].bufsize == bufsizes[i] && Lean(parts[i])
      && heads[i].size == HeadSize(|chunks[i]|, page, heads[i].wl)
      && |chunks[i]| < Pow256(heads[i].wl) && (heads[i].wl > 1 ==> |chunks[i]| >= Pow256(heads[i].wl - 1))
  {
    hide PartOk, Pow256, HeadSize, Lean;
    parts, heads := [], [];
    for i := 0 to |chunks|
      invariant PartsOk(parts, heads) && |parts| == i
      invariant forall j | 0 <= j < i ::
        && parts[j].chunk == chunks[j] && parts[j].bufsize == bufsizes[j] && Lean(parts[j])
        && heads[j].size == HeadSize(|chunks[j]|, page, heads[j].wl)
        && |chunks[j]| < Pow256(heads[j].wl) && (heads[j].wl > 1 ==> |chunks[j]| >= Pow256(heads[j].wl - 1))
    {
      var p, h := CompressNext(chunks[i], level, index, rounds[i], bufsizes[i], page);
      parts, heads := parts + [p], heads + [h];
    }
  }

  method CompressNext(chunk: seq<byte>, level: nat, index: MatchFinder.HashIndex, round: nat, bufsize: nat, page: nat)
    returns (p: Part, h: Head)
    requires level < |HashSearch.LEVELS| && round < HashSearch.LEVELS[level].maxChainLen
    requires bufsize > 0 && |chunk| <= MAX_I64 && page <= MAX_I64
    ensures PartOk(p, h.wl) && HeadOk(h) && h.size == HeadSize(|chunk|, page, h.wl)
    ensures p.chunk == chunk && p.bufsize == bufsize && Lean(p)
    ensures |chunk| < Pow256(h.wl) && (h.wl > 1 ==> |chunk| >= Pow256(h.wl - 1))
  {
    hide Encodes, Pow256;
    var chunkBytes := HashSearch.ByteWidth(|chunk|);
    if chunkBytes > 8 {
      WidthIsSmall(|chunk|, chunkBytes);
    }
    var jobs := CompressChunk(chunk, level, index, round, chunkBytes, bufsize);
    LowBytes(Bits.Max(|chunk|, page), chunkBytes);
    p, h := Part(chunk, jobs, bufsize), Head(chunkBytes, LRZ_FILTER_NONE, HeadSize(|chunk|, page, chunkBytes));
  }

  lemma LowBytes(n: nat, wl: nat)
    ensures n % Pow256(wl) < Pow256(wl) && n % Pow256(wl) <= n && (n < Pow256(wl) ==> n % Pow256(wl) == n)
  {
    if n < Pow256(wl) {
      RemainderSame(n, Pow256(wl));
    }
  }

  // ---- Decompressing ----

  /** Every chunk can be restored, the end of every chunk but the last is found, and only the last
      may be empty. */
  ghost predicate Restorable(codec: Codec, parts: seq<Part>, heads: seq<Head>, threads: nat, maxRam: nat)
    requires PartsOk(parts, heads)
  {
    && Honest(codec)
    && forall i | 0 <= i < |parts| ::
         && BlocksAccepted(parts[i], maxRam) && PartFits(codec, parts[i], heads[i].wl) && ControlEnds(parts[i])
         && (i < |parts| - 1 ==> EndNoticed(parts[i], threads, maxRam) && parts[i].chunk != [])
  }

  /** The file holds these parts, and reading has come to part c. */
  ghost predicate Reached(file: seq<byte>, codec: Codec, parts: seq<Part>, heads: seq<Head>, flags: seq<bool>,
                          trailer: seq<byte>, c: nat, out: seq<byte>, pos: nat)
    requires PartsOk(parts, heads)
  {
    && c < |parts| <= |flags| && file == FileOf(ChunksOf(codec, parts, heads), flags) + trailer
    && out == Original(parts[..c]) && pos == |FileOf(ChunksOf(codec, parts, heads)[..c], flags)|
  }

  lemma PartStands(file: seq<byte>, codec: Codec, parts: seq<Part>, heads: seq<Head>, flags: seq<bool>,
                   trailer: seq<byte>, c: nat, out: seq<byte>, pos: nat)
    requires PartsOk(parts, heads) && Reached(file, codec, parts, heads, flags, trailer, c, out, pos)
    ensures var start, wl := pos + |HeadBytes(heads[c], flags[c])|, heads[c].wl;
      var behind := Behind(ChunksOf(codec, parts, heads), flags, c) + trailer;
      && ReadHead(file, pos) == Some(Found(heads[c], flags[c], start)) && start <= |file|
      && file[start..] == Written(codec, parts[c], wl).file + behind
      && start + Written(codec, parts[c], wl).curPos == |FileOf(ChunksOf(codec, parts, heads)[..c + 1], flags)|
      && Original(parts[..c + 1]) == out + parts[c].chunk
  {
    hide HeadBytes, WriteAll, ReadHead, Encodes, PackAll, ListsOf, Behind, FileOf;
    var chunks := ChunksOf(codec, parts, heads);
    var before, head := FileOf(chunks[..c], flags), HeadBytes(heads[c], flags[c]);
    var container := Written(codec, parts[c], heads[c].wl);
    var behind := Behind(chunks, flags, c);
    ChunkStands(chunks, flags, c);
    assert file == before + head + (container.file + behind + trailer);
    HeadIsRead(before, heads[c], flags[c], container.file + behind + trailer);
    assert file[pos + |head|..] == container.file + (behind + trailer);
    PartsGiveChunks(codec, parts, heads);
    WriteAllHolds(chunks[c].jobs, heads[c].wl);
    assert parts[..c + 1][..c] == parts[..c];
  }

  /** runzip_chunk: one chunk, its header included. */
  method RestoreNext(file: seq<byte>, pos: nat, maxRam: nat, codec: Codec, threads: nat, out: seq<byte>,
                     ghost parts: seq<Part>, ghost heads: seq<Head>, ghost flags: seq<bool>, ghost trailer: seq<byte>, ghost c: nat)
    returns (r: Runzip.Result, next: nat, eof: bool)
    requires threads >= 1 && PartsOk(parts, heads)
    ensures r.Restored? ==> pos < next && pos < |file|
    ensures Restorable(codec, parts, heads, threads, maxRam) && Reached(file, codec, parts, heads, flags, trailer, c, out, pos) ==>
      && r == Runzip.Restored(Original(parts[..c + 1])) && eof == flags[c]
      && r.out == out + parts[c].chunk
      && (c < |parts| - 1 ==> Reached(file, codec, parts, heads, flags, trailer, c + 1, r.out, next))
  {
    hide Encodes, PartOk, PackAll, WriteAll, FileOf, Honest, ControlEnds, EndNoticed, PartFits, HeadBytes, Original, Behind;
    if Reached(file, codec, parts, heads, flags, trailer, c, out, pos) {
      PartStands(file, codec, parts, heads, flags, trailer, c, out, pos);
    }
    var found := ReadHead(file, pos);
    if found.None? || found.value.head.filter != LRZ_FILTER_NONE {
      return Runzip.Unreadable, 0, false;
    }
    var Found(head, last, start) := found.value;
    ghost var reached := Reached(file, codec, parts, heads, flags, trailer, c, out, pos);
    ghost var p := if reached then parts[c] else Part([], [], 1);
    ghost var behind := if reached then Behind(ChunksOf(codec, parts, heads), flags, c) + trailer else [];
    var end;
    r, end := RestoreChunk(file[start..], head.wl, maxRam, codec, threads, out, p, behind);
    next, eof := start + end, last;
  }

  function FirstFlag(flags: seq<bool>): (k: nat)
    ensures k <= |flags|
    ensures forall i | 0 <= i < k :: !flags[i]
    ensures k < |flags| ==> flags[k]
  {
    if flags == [] || flags[0] then 0 else 1 + FirstFlag(flags[1..])
  }

  lemma {:induction false} OriginalStarts(parts: seq<Part>, m: nat)
    requires m <= |parts|
    ensures Original(parts[..m]) <= Original(parts)
    decreases |parts|
  {
    if m == |parts| {
      assert parts[..m] == parts;
    } else {
      assert parts[..|parts| - 1][..m] == parts[..m];
      OriginalStarts(parts[..|parts| - 1], m);
    }
  }

  /** The file holds all parts; the last one's header says that it is the last. */
  ghost predicate IsFile(file: seq<byte>, codec: Codec, parts: seq<Part>, heads: seq<Head>, flags: seq<bool>, trailer: seq<byte>)
    requires PartsOk(parts, heads)
  {
    && parts != [] && |flags| == |parts| && flags[|parts| - 1]
    && file == FileOf(ChunksOf(codec, parts, heads), flags) + trailer
  }

  /** What a reader gets: everything if it knows the size, and otherwise everything up to the first
      chunk whose header says that it is the last. */
  function Decompressed(parts: seq<Part>, flags: seq<bool>, expectedSize: nat): seq<byte>
    requires |flags| == |parts| && parts != [] && flags[|parts| - 1]
  {
    if expectedSize > 0 then Original(parts) else Original(parts[..FirstFlag(flags) + 1])
  }

  lemma GoesOn(parts: seq<Part>, flags: seq<bool>, expectedSize: nat, c: nat, out: seq<byte>, grown: seq<byte>)
    requires |flags| == |parts| && c < |parts| && flags[|parts| - 1]
    requires c < |parts| - 1 ==> parts[c].chunk != []
    requires out == Original(parts[..c]) && grown == Original(parts[..c + 1]) == out + parts[c].chunk
    requires expectedSize == 0 || expectedSize == |Original(parts)|
    requires expectedSize == 0 ==> c <= FirstFlag(flags)
    ensures |grown| <= |out| ==> |out| >= expectedSize
    ensures if |grown| >= expectedSize && (expectedSize > 0 || flags[c]) then grown == Decompressed(parts, flags, expectedSize)
      else c + 1 < |parts| && (expectedSize == 0 ==> c + 1 <= FirstFlag(flags))
  {
    hide Original;
    OriginalStarts(parts, c + 1);
    if c == |parts| - 1 {
      assert parts[..c + 1] == parts;
    }
  }

  /** runzip_fd: chunk after chunk, until the size known beforehand is reached or, if none is known,
      a header says that its chunk is the last. */
  method RestoreFile(file: seq<byte>, expectedSize: nat, maxRam: nat, codec: Codec, threads: nat,
                     ghost parts: seq<Part>, ghost heads: seq<Head>, ghost flags: seq<bool>, ghost trailer: seq<byte>)
    returns (r: Runzip.Result)
    requires threads >= 1 && PartsOk(parts, heads)
    ensures Restorable(codec, parts, heads, threads, maxRam) && IsFile(file, codec, parts, heads, flags, trailer) ==>
      expectedSize == 0 || expectedSize == |Original(parts)| ==> r == Runzip.Restored(Decompressed(parts, flags, expectedSize))
  {
    hide Original, FileOf, PartOk, ChunksOf, Decompressed, HeadOk, PartFits, ControlEnds, EndNoticed;
    var out: seq<byte>, pos := [], 0;
    ghost var good := Restorable(codec, parts, heads, threads, maxRam) && IsFile(file, codec, parts, heads, flags, trailer)
      && (expectedSize == 0 || expectedSize == |Original(parts)|);
    ghost var c := 0;
    if good {
      NothingYet(file, codec, parts, heads, flags, trailer);
    }
    while true
      invariant good ==> Reached(file, codec, parts, heads, flags, trailer, c, out, pos)
      invariant good && expectedSize == 0 ==> c <= FirstFlag(flags)
      decreases |file| - pos
    {
      var next, end, eof := RestoreNext(file, pos, maxRam, codec, threads, out, parts, heads, flags, trailer, c);
      if good {
        GoesOn(parts, flags, expectedSize, c, out, next.out);
      }
      if next.Unreadable? || (|next.out| <= |out| && |out| < expectedSize) {
        return Runzip.Unreadable;
      }
      out, pos, c := next.out, end, c + 1;
      if |out| >= expectedSize && (expectedSize > 0 || eof) {
        return Runzip.Restored(out);
      }
    }
  }

  lemma NothingYet(file: seq<byte>, codec: Codec, parts: seq<Part>, heads: seq<Head>, flags: seq<bool>, trailer: seq<byte>)
    requires PartsOk(parts, heads) && IsFile(file, codec, parts, heads, flags, trailer)
    ensures Reached(file, codec, parts, heads, flags, trailer, 0, [], 0)
  {
  }

  // ---- Both ways ----

  lemma {:induction false} OriginalIsFlat(parts: seq<Part>, chunks: seq<seq<byte>>)
    requires |parts| == |chunks| && forall i | 0 <= i < |parts| :: parts[i].chunk == chunks[i]
    ensures Original(parts) == Flat(chunks)
    decreases |parts|
  {
    if parts != [] {
      var n := |parts| - 1;
      OriginalIsFlat(parts[..n], chunks[..n]);
      FlatPush(chunks[..n], chunks[n]);
      assert chunks == chunks[..n] + [chunks[n]];
    }
  }

  /** How the program is called, as far as waiting and the size in the magic header depend on it. */
  datatype Mode = Mode(encrypt: bool, stdin: bool, stdout: bool)

  /** At the end of a chunk the main thread waits for the threads to rewrite encrypted headers and to
      flush to standard output. */
  predicate Waits(m: Mode) {
    m.encrypt || m.stdout
  }

  /** The size a reader finds in the magic header, or 0: encrypted files have a salt there, and from
      standard input to standard output the header is written with the first chunk. */
  function KnownSize(m: Mode, size: nat, chunkCount: nat): (r: nat)
    ensures m.encrypt ==> r == 0
    ensures m.stdin && m.stdout && chunkCount > 1 ==> r == 0
    ensures !m.encrypt && (!m.stdin || !m.stdout || chunkCount <= 1) ==> r == size
  {
    if m.encrypt || (m.stdin && m.stdout && chunkCount > 1) then 0 else size
  }

  lemma OnlyLastFlag(flags: seq<bool>)
    requires flags != [] && flags[|flags| - 1] && forall c | 0 <= c < |flags| - 1 :: !flags[c]
    ensures FirstFlag(flags) == |flags| - 1
  {
  }

  /** The whole program, however it is called: compress the chunks, let the threads write them in any
      order of steps that completes the work, and decompress the file, whatever follows in it. If
      every part is restorable, all chunks come back: where a header may say too early that its
      chunk is the last, the reader knows the size. */
  method RoundTrip(chunks: seq<seq<byte>>, level: nat, index: MatchFinder.HashIndex, rounds: seq<nat>, bufsizes: seq<nat>,
                   page: nat, codec: Codec, mode: Mode, workers: nat,
                   schedule: OutputTurns.Work -> seq<OutputTurns.Action>, trailer: seq<byte>, maxRam: nat, threads: nat)
    returns (parts: seq<Part>, heads: seq<Head>, written: bool, r: Runzip.Result)
    requires level < |HashSearch.LEVELS| && |rounds| == |bufsizes| == |chunks| > 0 && workers > 0 && threads > 0
    requires page <= MAX_I64
    requires forall i | 0 <= i < |chunks| ::
      rounds[i] < HashSearch.LEVELS[level].maxChainLen && bufsizes[i] > 0 && |chunks[i]| <= MAX_I64
    ensures PartsOk(parts, heads) && |parts| == |chunks|
    ensures forall i | 0 <= i < |chunks| :: parts[i].chunk == chunks[i] && parts[i].bufsize == bufsizes[i]
    ensures var work := OutputTurns.WorkOf(ChunksOf(codec, parts, heads), Waits(mode));
      written <==> OutputTurns.Completes(OutputTurns.Start(workers, work), schedule(work), work)
    ensures written && Restorable(codec, parts, heads, threads, maxRam) ==> r == Runzip.Restored(Flat(chunks))
  {
    hide PartOk, HeadOk, Original, FileOf, PackAll, OutputTurns.RunFrom, OutputTurns.Complete, OutputTurns.Start, Restorable,
      Flat, ChunksOf, Decompressed, FirstFlag;
    parts, heads := CompressChunks(chunks, level, index, rounds, bufsizes, page);
    var archive := ChunksOf(codec, parts, heads);
    var work := OutputTurns.WorkOf(archive, Waits(mode));
    PartsGiveChunks(codec, parts, heads);
    var end := OutputTurns.RunFrom(OutputTurns.Start(workers, work), schedule(work), work);
    if end.None? || !OutputTurns.Complete(end.value, work) {
      return parts, heads, false, Runzip.Unreadable;
    }
    OutputTurns.ConcurrentIsSequential(workers, schedule(work), archive, Waits(mode), end.value);
    ghost var flags := end.value.out.flags;
    var size := KnownSize(mode, |Flat(chunks)|, |chunks|);
    OriginalIsFlat(parts, chunks);
    written := true;
    r := RestoreFile(end.value.out.file + trailer, size, maxRam, codec, threads, parts, heads, flags, trailer);
    AllOrPart(parts, chunks, flags, size);
    if size == 0 && |Flat(chunks)| > 0 {
      OnlyLastFlag(flags);
      assert chunks[..|chunks|] == chunks;
    }
  }

  lemma AllOrPart(parts: seq<Part>, chunks: seq<seq<byte>>, flags: seq<bool>, expectedSize: nat)
    requires |flags| == |parts| == |chunks| > 0 && flags[|parts| - 1]
    requires forall i | 0 <= i < |parts| :: parts[i].chunk == chunks[i]
    ensures var part := Flat(chunks[..FirstFlag(flags) + 1]);
      && Decompressed(parts, flags, expectedSize) == (if expectedSize > 0 then Flat(chunks) else part)
      && (Flat(chunks) == [] ==> part == [])
  {
    var k := FirstFlag(flags) + 1;
    OriginalIsFlat(parts, chunks);
    OriginalIsFlat(parts[..k], chunks[..k]);
    OriginalStarts(parts, k);
  }
}
