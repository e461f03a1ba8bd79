/** Where a chunk is not restored, or its end not found: an input for each condition of
    EndToEnd.RestoreChunk, with buffers as open_stream_out sizes them, and bounds that rule the first
    and the last out. Chunks without repeats are written as literals alone. */
module Shortfalls {
  import opened Bytes
  import opened Tokens
  import opened Container
  import opened ContainerReading
  import opened EndToEnd
  import opened StreamIn
  import StreamOut
  import Bits

  // ---- Chunks whose control stream ends ----

  /** Matches are long, so the control stream of a chunk less than twice as long as the buffer does
      not fill it. */
  lemma ShortChunkEnds(p: Part, wl: nat)
    requires PartOk(p, wl) && Lean(p) && |p.chunk| + 12 < 2 * p.bufsize
    ensures ControlEnds(p)
  {
    assert Contents(p.jobs, 0) != [] by {
      ControlIsMarked(Contents(p.jobs, 0), Contents(p.jobs, 1), p.chunk, wl);
    }
    Bits.ModUnique(|Contents(p.jobs, 0)|, p.bufsize, 0, |Contents(p.jobs, 0)|);
  }

  lemma ControlIsMarked(control: seq<byte>, literals: seq<byte>, chunk: seq<byte>, chunkBytes: nat)
    requires Encodes(control, literals, chunk, chunkBytes)
    ensures |control| >= 3
  {
  }

  /** With a buffer as open_stream_out allots it and pages of at least thirteen bytes, that is so of
      every chunk shorter than 20 MB by twelve bytes. */
  lemma ChunkEnds(p: Part, wl: nat, page: nat)
    requires PartOk(p, wl) && Lean(p) && page > 12
    requires p.bufsize >= Bits.Min(StreamOut.STREAM_BUFSIZE, Bits.Max(|p.chunk|, page))
    requires |p.chunk| + 12 < 2 * StreamOut.STREAM_BUFSIZE
    ensures ControlEnds(p)
  {
    ShortChunkEnds(p, wl);
  }

  // ---- Containers whose numbers fit ----

  lemma {:induction false} PackedLength(codec: Codec, blocks: seq<seq<byte>>, k: nat, wl: nat)
    requires Honest(codec)
    ensures TotalLen(PackBlocks(codec, blocks, k), wl) <= |blocks| * HeaderLen(wl) + |Flat(blocks)|
  {
    hide Pack, Honest;
    if blocks != [] {
      PackIsSound(codec, blocks[0], 0);
      PackedLength(codec, blocks[1..], k, wl);
      assert PackBlocks(codec, blocks, k)[1..] == PackBlocks(codec, blocks[1..], k);
    }
  }

  lemma {:induction false} PackedSizes(codec: Codec, jobs: seq<StreamOut.Job>, bound: nat)
    requires Honest(codec) && forall i | 0 <= i < |jobs| :: |jobs[i].data| < bound
    ensures |PackAll(codec, jobs)| == |jobs|
    ensures forall i | 0 <= i < |jobs| :: PackAll(codec, jobs)[i].ulen < bound
  {
    hide Pack, Honest;
    if jobs != [] {
      PackIsSound(codec, jobs[0].data, 0);
      PackedSizes(codec, jobs[1..], bound);
    }
  }

  lemma CutCount(data: seq<byte>, blocks: seq<seq<byte>>, bufsize: nat)
    requires bufsize > 0 && StreamOut.CutInto(data, blocks, bufsize)
    ensures |blocks| == |data| / bufsize + 1 && forall i | 0 <= i < |blocks| :: |blocks[i]| <= |data|
  {
    var full, last := blocks[..|blocks| - 1], blocks[|blocks| - 1];
    assert blocks == full + [last];
    FlatPush(full, last);
    StreamOut.FlatOfFull(full, bufsize);
    Bits.ModUnique(|data|, bufsize, |full|, |last|);
    forall i | 0 <= i < |blocks|
      ensures |blocks[i]| <= |data|
    {
      if i < |full| {
        assert full[i] == blocks[i];
        assert |full| * bufsize >= bufsize;
      }
    }
  }

  lemma {:induction false} JobInBlocks(jobs: seq<StreamOut.Job>, i: nat)
    requires i < |jobs|
    ensures jobs[i].data in StreamOut.BlocksOf(jobs, jobs[i].stream)
  {
    if i > 0 {
      JobInBlocks(jobs[1..], i - 1);
    }
  }

  /** The longest container that streams of these lengths can give. */
  function LongestContainer(control: nat, literals: nat, bufsize: nat, wl: nat): nat
    requires bufsize > 0
  {
    NUM_STREAMS * HeaderLen(wl) + Room(control, bufsize, wl) + Room(literals, bufsize, wl)
  }

  function Room(data: nat, bufsize: nat, wl: nat): nat
    requires bufsize > 0
  {
    (data / bufsize + 1) * HeaderLen(wl) + data
  }

  lemma RoomHolds(data: nat, bufsize: nat, wl: nat)
    requires bufsize > 0
    ensures data < Room(data, bufsize, wl)
  {
    assert data / bufsize >= 0;
    assert (data / bufsize + 1) * HeaderLen(wl) >= HeaderLen(wl);
  }

  /** A stream's blocks, compressed or not, take no more than its room. */
  lemma StreamRoom(codec: Codec, jobs: seq<StreamOut.Job>, bufsize: nat, k: nat, wl: nat)
    requires Honest(codec) && Wrote(jobs, bufsize) && k < NUM_STREAMS
    ensures TotalLen(JobsOf(PackAll(codec, jobs), k), wl) <= Room(|Contents(jobs, k)|, bufsize, wl)
  {
    hide Honest, HeaderLen;
    JobsOfPacked(codec, jobs, k);
    PackedLength(codec, StreamOut.BlocksOf(jobs, k), k, wl);
    CutCount(Contents(jobs, k), StreamOut.BlocksOf(jobs, k), bufsize);
  }

  lemma JobWithinStream(jobs: seq<StreamOut.Job>, bufsize: nat, i: nat)
    requires Wrote(jobs, bufsize) && i < |jobs|
    ensures jobs[i].stream < NUM_STREAMS && |jobs[i].data| <= |Contents(jobs, jobs[i].stream)|
  {
    var k := jobs[i].stream;
    JobInBlocks(jobs, i);
    CutCount(Contents(jobs, k), StreamOut.BlocksOf(jobs, k), bufsize);
  }

  /** What can be checked before anything is compressed: then every number fits. */
  lemma ShortStreamsFit(codec: Codec, jobs: seq<StreamOut.Job>, bufsize: nat, wl: nat)
    requires Honest(codec) && Wrote(jobs, bufsize)
    requires LongestContainer(|Contents(jobs, 0)|, |Contents(jobs, 1)|, bufsize, wl) <= Pow256(wl)
    ensures JobsFit(PackAll(codec, jobs), wl)
  {
    hide Pow256, Honest, HeaderLen, JobsFit, Room, TotalLen, PackAll, Contents, JobsOf;
    var all := PackAll(codec, jobs);
    StreamRoom(codec, jobs, bufsize, 0, wl);
    StreamRoom(codec, jobs, bufsize, 1, wl);
    RoomHolds(|Contents(jobs, 0)|, bufsize, wl);
    RoomHolds(|Contents(jobs, 1)|, bufsize, wl);
    forall i | 0 <= i < |jobs|
      ensures |jobs[i].data| < Pow256(wl)
    {
      JobWithinStream(jobs, bufsize, i);
    }
    PackedOk(codec, jobs);
    PackedSizes(codec, jobs, Pow256(wl));
    WriterLength(all, wl);
    StreamsSplitLength(all, wl);
    ShortFileFits(all, wl);
  }

  // ---- A control stream that fills its buffer ----

  /** The control stream's full buffer goes first; then both streams are closed. */
  function FullControlJobs(control: seq<byte>, literals: seq<byte>): seq<StreamOut.Job> {
    [StreamOut.Job(0, control), StreamOut.Job(0, []), StreamOut.Job(1, literals)]
  }

  lemma FullControlBlocks(control: seq<byte>, literals: seq<byte>)
    ensures var jobs := FullControlJobs(control, literals);
      && StreamOut.BlocksOf(jobs, 0) == [control, []] && StreamOut.BlocksOf(jobs, 1) == [literals]
      && StreamOut.OnStreams(jobs)
  {
    var first, second, third := StreamOut.Job(0, control), StreamOut.Job(0, []), StreamOut.Job(1, literals);
    var none: seq<StreamOut.Job> := [];
    assert FullControlJobs(control, literals) == none + [first] + [second] + [third];
    forall k: nat
      ensures StreamOut.BlocksOf(FullControlJobs(control, literals), k)
           == if k == 0 then [control, []] else if k == 1 then [literals] else []
    {
      StreamOut.BlocksOfPush(none, first, k);
      StreamOut.BlocksOfPush(none + [first], second, k);
      StreamOut.BlocksOfPush(none + [first] + [second], third, k);
    }
  }

  lemma FlatOfTwo(a: seq<byte>, b: seq<byte>)
    ensures Flat([a, b]) == a + b && Flat([a]) == a
  {
    assert [a, b][1..] == [b] && [b][1..] == [] && [a][1..] == [];
    assert Flat([b]) == b + Flat([]);
    assert Flat([a]) == a + Flat([]);
  }

  /** A chunk whose tokens take exactly one buffer of control bytes cannot be read to its end. */
  lemma ControlUnending(codec: Codec, toks: seq<Token>, chunk: seq<byte>, wl: nat, bufsize: nat)
    requires Honest(codec) && AllPrintable(toks, wl) && Replay([], toks) == Some(chunk)
    requires |ControlBytes(toks, wl)| + 3 == bufsize && |LiteralBytes(toks)| < bufsize
    requires LongestContainer(bufsize, |LiteralBytes(toks)|, bufsize, wl) <= Pow256(wl)
    ensures var p := Part(chunk, FullControlJobs(ControlBytes(toks, wl) + END_MARK, LiteralBytes(toks)), bufsize);
      PartOk(p, wl) && PartFits(codec, p, wl) && !ControlEnds(p)
  {
    hide ControlBytes, LiteralBytes, Replay, Pow256, JobsFit, LongestContainer, StreamOut.BlocksOf, FullControlJobs, Flat;
    var control, literals := ControlBytes(toks, wl) + END_MARK, LiteralBytes(toks);
    var jobs := FullControlJobs(control, literals);
    FullControlBlocks(control, literals);
    FlatOfTwo(control, []);
    FlatOfTwo(literals, []);
    assert control + [] == control;
    assert [control, []][..1] == [control];
    var none: seq<seq<byte>> := [];
    assert [literals][..0] == none;
    assert Encodes(control, literals, chunk, wl);
    ShortStreamsFit(codec, jobs, bufsize, wl);
  }

  const MATCH_COUNT := 1497964

  /** Three literals and as many shortest matches as it takes, in fields of four bytes. */
  function TenMegabytes(): seq<Token> {
    [Literal([0]), Literal([1]), Literal([2])] + Matches(MATCH_COUNT)
  }

  function Matches(n: nat): seq<Token> {
    seq(n, _ => Match(3, 31))
  }

  lemma {:induction false} MatchesExpand(out: seq<byte>, n: nat)
    requires |out| >= 3
    ensures |ControlBytes(Matches(n), 4)| == 7 * n && LiteralBytes(Matches(n)) == []
    ensures Replay(out, Matches(n)).Some? && |Replay(out, Matches(n)).value| == |out| + 31 * n
    decreases n
  {
    if n > 0 {
      assert Matches(n)[1..] == Matches(n - 1);
      MatchesExpand(CopyBack(out, 3, 31), n - 1);
    }
  }

  lemma LiteralsExpand()
    ensures var toks: seq<Token> := [Literal([0]), Literal([1]), Literal([2])];
      |ControlBytes(toks, 4)| == 9 && |LiteralBytes(toks)| == 3 && Replay([], toks) == Some([0, 1, 2])
  {
    var toks: seq<Token> := [Literal([0]), Literal([1]), Literal([2])];
    assert toks[1..] == [Literal([1]), Literal([2])] && toks[1..][1..] == [Literal([2])] && toks[1..][1..][1..] == [];
    assert [] + [0] == [0] && [0] + [1] == [0, 1] && [0, 1] + [2] == [0, 1, 2];
  }

  /** Such tokens exist for the least buffer that a large chunk gets. */
  lemma TenMegabytesOfControl()
    ensures var toks := TenMegabytes();
      && AllPrintable(toks, 4) && Replay([], toks).Some? && |Replay([], toks).value| == 3 + 31 * MATCH_COUNT
      && |ControlBytes(toks, 4)| + 3 == StreamOut.STREAM_BUFSIZE && |LiteralBytes(toks)| == 3
      && LongestContainer(StreamOut.STREAM_BUFSIZE, 3, StreamOut.STREAM_BUFSIZE, 4) <= Pow256(4)
  {
    hide ControlBytes, LiteralBytes, Replay;
    var literals: seq<Token>, matches := [Literal([0]), Literal([1]), Literal([2])], Matches(MATCH_COUNT);
    LiteralsExpand();
    MatchesExpand([0, 1, 2], MATCH_COUNT);
    ControlAppend(literals, matches, 4);
    LiteralAppend(literals, matches);
    ReplayAppend([], literals, matches);
    FourBytes();
  }

  /** So there is a part in a buffer of 10 MB, no denser than a scan writes them, that cannot be read
      to its end. */
  lemma FullControlExists(codec: Codec)
    requires Honest(codec)
    ensures exists p: Part ::
      && p.bufsize == StreamOut.STREAM_BUFSIZE < |p.chunk| && Pow256(3) <= |p.chunk| < Pow256(4)
      && PartOk(p, 4) && Lean(p) && PartFits(codec, p, 4) && !ControlEnds(p)
  {
    hide ControlBytes, LiteralBytes, Replay, JobsFit, Encodes, StreamOut.BlocksOf, FullControlJobs, TenMegabytes;
    var toks, bufsize := TenMegabytes(), StreamOut.STREAM_BUFSIZE;
    TenMegabytesOfControl();
    FourBytes();
    var chunk := Replay([], toks).value;
    var control := ControlBytes(toks, 4) + END_MARK;
    var p := Part(chunk, FullControlJobs(control, LiteralBytes(toks)), bufsize);
    ControlUnending(codec, toks, chunk, 4, bufsize);
    FullControlBlocks(control, LiteralBytes(toks));
    FlatOfTwo(control, []);
    assert control + [] == control;
    assert Lean(p);
  }

  lemma FourBytes()
    ensures Pow256(4) == 0x1_0000_0000 && Pow256(3) == 0x100_0000 && Pow256(2) == 0x1_0000
  {
    assert Pow256(1) == 0x100;
    assert Pow256(2) == 0x1_0000;
    assert Pow256(3) == 0x100_0000;
  }

  // ---- A chunk without repeats ----

  function PlainControl(chunk: seq<byte>, chunkBytes: nat): seq<byte> {
    ControlBytes(LiteralPieces(chunk), chunkBytes) + END_MARK
  }

  /** The literal stream's one full buffer goes first; then both streams are closed. */
  function LiteralJobs(chunk: seq<byte>, control: seq<seq<byte>>): seq<StreamOut.Job> {
    [StreamOut.Job(1, chunk)] + ControlJobs(control) + [StreamOut.Job(1, [])]
  }

  function ControlJobs(control: seq<seq<byte>>): seq<StreamOut.Job> {
    seq(|control|, i requires 0 <= i < |control| => StreamOut.Job(0, control[i]))
  }

  lemma {:induction false} ControlJobsBlocks(control: seq<seq<byte>>)
    ensures StreamOut.BlocksOf(ControlJobs(control), 0) == control
    ensures StreamOut.BlocksOf(ControlJobs(control), 1) == []
  {
    if control != [] {
      ControlJobsBlocks(control[1..]);
      assert ControlJobs(control)[1..] == ControlJobs(control[1..]);
      assert control == [control[0]] + control[1..];
    }
  }

  lemma LiteralBlocks(chunk: seq<byte>, control: seq<seq<byte>>)
    ensures StreamOut.BlocksOf(LiteralJobs(chunk, control), 0) == control
    ensures StreamOut.BlocksOf(LiteralJobs(chunk, control), 1) == [chunk, []]
    ensures StreamOut.OnStreams(LiteralJobs(chunk, control))
  {
    var jobs, close := LiteralJobs(chunk, control), StreamOut.Job(1, []);
    ControlJobsBlocks(control);
    StreamOut.BlocksOfPush(ControlJobs(control), close, 0);
    StreamOut.BlocksOfPush(ControlJobs(control), close, 1);
    assert jobs[1..] == ControlJobs(control) + [close];
  }

  /** The part of a chunk without repeats in a buffer of its own size. */
  function PlainPart(chunk: seq<byte>, chunkBytes: nat): Part {
    Part(chunk, LiteralJobs(chunk, [PlainControl(chunk, chunkBytes)]), |chunk|)
  }

  lemma PlainEncodes(chunk: seq<byte>, chunkBytes: nat)
    requires chunk != []
    ensures Encodes(PlainControl(chunk, chunkBytes), chunk, chunk, chunkBytes)
    ensures |PlainControl(chunk, chunkBytes)| == 3 * Pieces(|chunk|) + 3
  {
    hide ControlBytes;
    var toks := LiteralPieces(chunk);
    LiteralPiecesPrintable(chunk, chunkBytes);
    LiteralPiecesReplay([], chunk);
    LiteralCost(chunk, chunkBytes);
    assert [] + chunk == chunk;
  }

  lemma CutInOne(data: seq<byte>, n: nat)
    requires |data| < n
    ensures StreamOut.CutInto(data, [data], n)
  {
    var blocks, none := [data], [];
    assert blocks[1..] == none && Flat(blocks) == data + Flat(none);
  }

  lemma PlainIsPart(chunk: seq<byte>, chunkBytes: nat)
    requires |chunk| >= 7
    ensures var p := PlainPart(chunk, chunkBytes);
      && PartOk(p, chunkBytes) && ControlEnds(p)
      && Contents(p.jobs, 0) == PlainControl(chunk, chunkBytes) && Contents(p.jobs, 1) == chunk
  {
    hide Encodes, StreamOut.BlocksOf, LiteralJobs, PlainControl;
    var control, lits := PlainControl(chunk, chunkBytes), [chunk, []];
    PlainEncodes(chunk, chunkBytes);
    LiteralBlocks(chunk, [control]);
    CutInOne(control, |chunk|);
    FlatOfTwo(chunk, []);
    FlatOfTwo(control, []);
    assert chunk + [] == chunk && lits[..1] == [chunk];
    Bits.ModUnique(|control|, |chunk|, 0, |control|);
  }

  /** A chunk of at least a page without repeats, in a buffer of its own size: its literals fill the
      buffer, and unless several threads prefetch, the empty block behind them goes unnoticed. */
  lemma TailUnnoticed(codec: Codec, chunk: seq<byte>, wl: nat)
    requires Honest(codec) && |chunk| >= 4096
    requires |chunk| + 3 * Pieces(|chunk|) + 3 + 5 * HeaderLen(wl) <= Pow256(wl)
    ensures var p := PlainPart(chunk, wl);
      && PartOk(p, wl) && PartFits(codec, p, wl) && ControlEnds(p)
      && forall threads: nat, maxRam: nat | threads > 0 ::
           EndNoticed(p, threads, maxRam) <==> threads > 1 && maxRam > |chunk|
  {
    hide Pow256, JobsFit, HeaderLen, Wrote, LiteralJobs, PlainControl, Encodes;
    var p := PlainPart(chunk, wl);
    PlainIsPart(chunk, wl);
    PlainEncodes(chunk, wl);
    PlainLength(chunk, wl);
    ShortStreamsFit(codec, p.jobs, |chunk|, wl);
  }

  lemma PlainLength(chunk: seq<byte>, wl: nat)
    requires |chunk| >= 7
    ensures |PlainControl(chunk, wl)| < |chunk|
    ensures LongestContainer(|PlainControl(chunk, wl)|, |chunk|, |chunk|, wl)
         == |chunk| + 3 * Pieces(|chunk|) + 3 + 5 * HeaderLen(wl)
  {
    hide PlainControl, HeaderLen;
    PlainEncodes(chunk, wl);
    var n := |PlainControl(chunk, wl)|;
    Bits.ModUnique(n, |chunk|, 0, n);
    Bits.ModUnique(|chunk|, |chunk|, 1, 0);
  }

  // ---- Fields that are too narrow ----

  lemma {:induction false} OffsetNext(blocks: seq<Block>, i: nat, wl: nat)
    requires i < |blocks|
    ensures Offset(blocks, i + 1, wl) == Offset(blocks, i, wl) + BlockLen(blocks[i], wl)
  {
    if i > 0 {
      OffsetNext(blocks[1..], i - 1, wl);
    }
  }

  /** Where five blocks stand and what links to what: a literal block, the control block and the
      last literal block behind the two initial headers. */
  lemma ThreeBlocks(jobs: seq<Job>, wl: nat)
    requires |jobs| == 3 && jobs[0].stream == 1 && jobs[1].stream == 0 && jobs[2].stream == 1
    ensures var blocks := ListsOf(jobs, wl).blocks;
      && |blocks| == 5 && blocks[2].stream == 1
      && Offset(blocks, 2, wl) == 2 * HeaderLen(wl)
      && blocks[0].link == 3 * HeaderLen(wl) + |jobs[0].payload|
      && blocks[2].link == 4 * HeaderLen(wl) + |jobs[0].payload| + |jobs[1].payload|
  {
    hide Offset;
    var blocks := ListsOf(jobs, wl).blocks;
    ListsAreJobs(jobs, wl);
    WriteAllHolds(jobs, wl);
    assert |Unlinked(blocks)| == 5;
    assert forall i | 0 <= i < 5 :: Unlinked(blocks)[i] == blocks[i].(link := 0);
    assert blocks[0].link == LinkOf(blocks, 0, wl) && blocks[2].link == LinkOf(blocks, 2, wl);
    assert NextOf(blocks, 0, 1) == 3 && NextOf(blocks, 1, 3) == 4;
    assert Offset(blocks, 0, wl) == 0 by {
      OffsetOfStart(blocks, wl);
    }
    OffsetNext(blocks, 0, wl);
    OffsetNext(blocks, 1, wl);
    OffsetNext(blocks, 2, wl);
    OffsetNext(blocks, 3, wl);
  }

  lemma OffsetOfStart(blocks: seq<Block>, wl: nat)
    ensures Offset(blocks, 0, wl) == 0
  {
  }

  /** The high byte of a two-byte link just above 0x1_0000 is zero. */
  lemma HighByte(link: nat)
    requires 0x1_0000 <= link < 0x1_0100
    ensures ToLE(link, 2)[1] == 0 && link % Pow256(2) == link - 0x1_0000
  {
    assert Pow256(1) == 0x100;
    assert ToLE(link, 2)[1] == link / 0x100 % 0x100;
  }

  /** A full literal block of 65535 bytes, stored, in fields of two bytes: the control block behind
      it stands at 65556, its link says 20, and there is no block there. */
  lemma ControlMisplaced(jobs: seq<Job>, trailer: seq<byte>, maxRam: nat)
    requires |jobs| == 3 && jobs[0].stream == 1 && jobs[1].stream == 0 && jobs[2].stream == 1
    requires |jobs[0].payload| == 0xFFFF && |jobs[1].payload| <= 0xE0
    ensures !JobsFit(jobs, 2) && ControlUnreadable(WriteAll(jobs, 2).file + trailer, 2, maxRam)
  {
    hide BlockBytes, ToLE, Offset, ListsOf, WriteAll, FileBytes, FromLE, DataOk, Pow256;
    var blocks, file := ListsOf(jobs, 2).blocks, WriteAll(jobs, 2).file + trailer;
    ThreeBlocks(jobs, 2);
    WriteAllHolds(jobs, 2);
    HighByte(blocks[0].link);
    HighByte(blocks[2].link);
    FirstLinkPlaced(blocks, 0, trailer, 2);
    AllFitIsJobsFit(jobs, 2);
    if AllFit(blocks, 2) {
      FitsAt(blocks, 0, 2);
      RemainderSame(blocks[0].link, Pow256(2));
    }
    FileSplit(blocks, 2, 2);
    OffsetIsLength(blocks, 2, 2);
    BlockFields(blocks[2], 2);
    assert file[20] == BlockBytes(blocks[2], 2)[6] == BlockBytes(blocks[2], 2)[5..7][1];
    assert file[20] == 0;
    NoType(file, 2, maxRam);
  }

  lemma NoType(file: seq<byte>, wl: nat, maxRam: nat)
    requires |file| > 20 && file[20] == 0
    ensures FetchBlock(file, 20, wl, 0, maxRam).Invalid?
  {
  }

  /** A chunk of 65535 bytes without repeats, left uncompressed: it is written in fields as wide as
      the code chooses, and the decoder cannot read it. */
  lemma FieldsTooNarrow(codec: Codec, chunk: seq<byte>, trailer: seq<byte>, maxRam: nat)
    requires Honest(codec) && |chunk| == 0xFFFF && codec.compress(chunk).None?
    ensures var p := PlainPart(chunk, 2);
      && Pow256(1) <= |chunk| < Pow256(2) && PartOk(p, 2) && ControlEnds(p) && !PartFits(codec, p, 2)
      && ControlUnreadable(Written(codec, p, 2).file + trailer, 2, maxRam)
  {
    hide Encodes, Contents, JobsFit, ControlUnreadable, PlainControl, Wrote;
    var p := PlainPart(chunk, 2);
    PlainIsPart(chunk, 2);
    PlainEncodes(chunk, 2);
    FourBytes();
    assert Pow256(1) == 0x100;
    PlainPacked(codec, chunk, 2);
    ControlMisplaced(PackAll(codec, p.jobs), trailer, maxRam);
  }

  lemma ThreePacked(codec: Codec, jobs: seq<StreamOut.Job>)
    requires |jobs| == 3
    ensures PackAll(codec, jobs) == [Packed(codec, jobs[0]), Packed(codec, jobs[1]), Packed(codec, jobs[2])]
  {
    hide Packed;
    assert jobs[1..][1..] == [jobs[2]] && [jobs[2]][1..] == [];
    assert PackAll(codec, jobs[1..]) == [Packed(codec, jobs[1])] + PackAll(codec, jobs[1..][1..]);
    assert PackAll(codec, [jobs[2]]) == [Packed(codec, jobs[2])] + PackAll(codec, []);
  }

  lemma PlainPacked(codec: Codec, chunk: seq<byte>, wl: nat)
    ensures var control := PlainControl(chunk, wl);
      PackAll(codec, PlainPart(chunk, wl).jobs)
      == [Packed(codec, StreamOut.Job(1, chunk)), Packed(codec, StreamOut.Job(0, control)), Packed(codec, StreamOut.Job(1, []))]
  {
    hide Packed, PlainControl;
    var jobs := PlainPart(chunk, wl).jobs;
    assert jobs == [StreamOut.Job(1, chunk), StreamOut.Job(0, PlainControl(chunk, wl)), StreamOut.Job(1, [])];
    ThreePacked(codec, jobs);
  }

  // ---- Why the third condition is only sufficient ----

  /** The back end is switched off. */
  ghost predicate StoresAll(codec: Codec) {
    forall b: seq<byte> :: codec.compress(b).None?
  }

  const ALMOST_16_MB := 0x100_0000 - 31

  /** Nine zero bytes, and whatever is in front of them, are taken for the empty last block. */
  lemma ZerosAreTail(file: seq<byte>, pos: nat, maxRam: nat)
    requires pos + 10 <= |file| && forall i | pos < i < pos + 10 :: file[i] == 0
    ensures FetchBlock(file, pos, 3, 1, maxRam) == EmptyTail
  {
    ThreeZeros(file[pos + 1..pos + 4]);
    ThreeZeros(file[pos + 4..pos + 7]);
    ThreeZeros(file[pos + 7..pos + 10]);
  }

  lemma ThreeZeros(s: seq<byte>)
    requires |s| == 3 && s[0] == s[1] == s[2] == 0
    ensures FromLE(s) == 0
  {
    var none: seq<byte> := [];
    assert s == [0, 0, 0] && [0, 0, 0][1..] == [0, 0] && [0, 0][1..] == [0] && [0][1..] == none;
  }

  lemma PayloadStands(blocks: seq<Block>, i: nat, trailer: seq<byte>, wl: nat)
    requires i < |blocks|
    ensures var file, at := FileBytes(blocks, wl) + trailer, Offset(blocks, i, wl) + HeaderLen(wl);
      at + |blocks[i].payload| <= |file| && file[at..at + |blocks[i].payload|] == blocks[i].payload
  {
    hide FileBytes, BlockBytes;
    var before, after := FileBytes(blocks[..i], wl), FileBytes(blocks[i + 1..], wl);
    FileSplit(blocks, i, wl);
    OffsetIsLength(blocks, i, wl);
    Associate(before + BlockBytes(blocks[i], wl), after, trailer);
    HeaderFields(before, blocks[i], after + trailer, wl);
  }

  /** The container of a plain part that is stored: a literal block, the control block and the empty
      literal block, whose position is the first and only one that does not fit. */
  ghost predicate Lay(blocks: seq<Block>, chunk: seq<byte>, control: seq<byte>) {
    && |blocks| == 5 && Linked(blocks, 3) && |chunk| == ALMOST_16_MB && |control| == 774
    && JobOf(blocks[2]) == Job(1, CTYPE_NONE, |chunk|, chunk) && JobOf(blocks[3]) == Job(0, CTYPE_NONE, |control|, control)
    && JobOf(blocks[4]) == Job(1, CTYPE_NONE, 0, [])
    && blocks[0].stream == 0 && blocks[1].stream == 1
    && Offset(blocks, 2, 3) == 20 && Offset(blocks, 3, 3) == 30 + |chunk| && Offset(blocks, 4, 3) == 40 + |chunk| + 774
  }

  /** The control block fits and is read. */
  lemma ControlSeen(fetch: nat -> Fetch, blocks: seq<Block>, chunk: seq<byte>, control: seq<byte>, maxRam: nat, limit: nat)
    requires Lay(blocks, chunk, control) && (maxRam == 0 || maxRam >= |chunk|)
    ensures Successor(blocks, 0) == 3
    ensures SeenFrom(fetch, blocks, 3, 3, maxRam, limit) == Listed([Data(CTYPE_NONE, 774, control)], 784)
  {
    hide Offset, Pow256;
    FourBytes();
    assert NextOf(blocks, 0, 4) == 5;
    assert NextOf(blocks, 0, 1) == 3;
    NoSuccessor(blocks, 3, 3);
    StoredIsFaithful(blocks[3], 3);
    RemainderSame(0, Pow256(3));
  }

  /** The literal block's link leads into its own payload, and there is the end of the list. */
  lemma LiteralsSeen(fetch: nat -> Fetch, blocks: seq<Block>, chunk: seq<byte>, control: seq<byte>, maxRam: nat, limit: nat)
    requires Lay(blocks, chunk, control) && (maxRam == 0 || maxRam >= |chunk|)
    requires limit > 783 && fetch(783) == EmptyTail
    ensures Successor(blocks, 1) == 2
    ensures SeenFrom(fetch, blocks, 2, 3, maxRam, limit) == Listed([Data(CTYPE_NONE, |chunk|, chunk)], 20 + |chunk|)
  {
    hide Offset, Pow256;
    FourBytes();
    assert NextOf(blocks, 1, 3) == 4 && NextOf(blocks, 1, 2) == 2;
    LinkNamesSuccessor(blocks, 2, 3);
    StoredPayload(blocks[2], 3);
    RemainderSame(|chunk|, Pow256(3));
    assert chunk[..|chunk|] == chunk;
    Bits.ModUnique(Offset(blocks, 4, 3), Pow256(3), 1, 783);
    assert Stored(blocks[2], 3) == Block(1, CTYPE_NONE, |chunk|, 783, chunk);
    assert SeenFrom(fetch, blocks, 4, 3, maxRam, limit) == Follow(fetch, 783, 3, limit) == Listed([], 10);
    assert FetchOf(Stored(blocks[2], 3), 20, maxRam) == Fetched(CTYPE_NONE, |chunk|, chunk, 783);
    assert Seen(fetch, blocks, 2, 3, maxRam, limit)
        == Before(Data(CTYPE_NONE, |chunk|, chunk), 10 + |chunk|, SeenFrom(fetch, blocks, 4, 3, maxRam, limit));
    assert [Data(CTYPE_NONE, |chunk|, chunk)] + [] == [Data(CTYPE_NONE, |chunk|, chunk)];
  }

  lemma StoredLay(jobs: seq<Job>, chunk: seq<byte>, control: seq<byte>)
    requires |chunk| == ALMOST_16_MB && |control| == 774
    requires jobs == [Job(1, CTYPE_NONE, |chunk|, chunk), Job(0, CTYPE_NONE, |control|, control), Job(1, CTYPE_NONE, 0, [])]
    ensures Lay(ListsOf(jobs, 3).blocks, chunk, control)
  {
    hide Offset, Pow256;
    var blocks := ListsOf(jobs, 3).blocks;
    ListsAreJobs(jobs, 3);
    WriteAllHolds(jobs, 3);
    BlockOfJob(jobs, blocks, 0);
    BlockOfJob(jobs, blocks, 1);
    BlockOfJob(jobs, blocks, 2);
    OffsetOfStart(blocks, 3);
    OffsetNext(blocks, 0, 3);
    OffsetNext(blocks, 1, 3);
    OffsetNext(blocks, 2, 3);
    OffsetNext(blocks, 3, 3);
  }

  lemma StoredPlain(codec: Codec, chunk: seq<byte>)
    requires StoresAll(codec) && |chunk| == ALMOST_16_MB
    ensures var control := PlainControl(chunk, 3);
      && |control| == 774
      && PackAll(codec, PlainPart(chunk, 3).jobs)
         == [Job(1, CTYPE_NONE, |chunk|, chunk), Job(0, CTYPE_NONE, |control|, control), Job(1, CTYPE_NONE, 0, [])]
  {
    hide PlainControl, PlainPart;
    PlainEncodes(chunk, 3);
    PieceCount(256, 225);
    PlainPacked(codec, chunk, 3);
  }

  lemma {:induction false} PieceCount(k: nat, rest: nat)
    requires 1 <= rest <= MAX_TOKEN_LEN
    ensures Pieces(MAX_TOKEN_LEN * k + rest) == k + 1
    decreases k
  {
    if k > 0 {
      PieceCount(k - 1, rest);
    }
  }

  /** The streams of three such blocks and what reading them completely comes to. */
  lemma ThreeOf(jobs: seq<Job>)
    requires |jobs| == 3 && jobs[0].stream == 1 && jobs[1].stream == 0 && jobs[2].stream == 1
    requires !EmptyJob(jobs[1]) && EmptyJob(jobs[2])
    ensures JobsOk(jobs) && JobsOf(jobs, 0) == [jobs[1]] && JobsOf(jobs, 1) == [jobs[0], jobs[2]]
    ensures Whole(jobs, 0, 3) == Listed([DataOf(jobs[1])], 20 + |jobs[1].payload|)
    ensures Whole(jobs, 1, 3) == Listed([DataOf(jobs[0])], 30 + |jobs[0].payload|)
  {
    assert jobs == [jobs[0], jobs[1], jobs[2]];
    var none: seq<Job>, rest, last := [], [jobs[1], jobs[2]], [jobs[2]];
    assert jobs[1..] == rest && rest[1..] == last && last[1..] == none;
    forall k: nat
      ensures JobsOf(last, k) == (if k == 1 then last else [])
      ensures JobsOf(rest, k) == (if k == 0 then [jobs[1]] else []) + JobsOf(last, k)
    {
      assert JobsOf(none, k) == [];
    }
    var zero, one := [jobs[1]], [jobs[0], jobs[2]];
    assert JobsOf(jobs, 0) == zero && JobsOf(jobs, 1) == one;
    assert zero[1..] == none && one[1..] == last && one[..1] == [jobs[0]];
    assert TotalLen(zero, 3) == JobLen(jobs[1], 3) + TotalLen(none, 3);
    assert TotalLen(last, 3) == JobLen(jobs[2], 3) + TotalLen(none, 3);
    assert DataSeq(zero) == [DataOf(jobs[1])] && DataSeq([jobs[0]]) == [DataOf(jobs[0])];
  }

  /** The empty block does not fit. */
  lemma TailTooFar(jobs: seq<Job>, chunk: seq<byte>, control: seq<byte>)
    requires |jobs| == 3 && JobsOk(jobs) && Lay(ListsOf(jobs, 3).blocks, chunk, control)
    ensures !JobsFit(jobs, 3)
  {
    hide Offset, Pow256;
    LastPosition(jobs, 3);
    FourBytes();
  }

  /** A chunk of almost 16 MB without repeats, stored: its last block does not fit in the fields, and
      still both streams are read completely, because the link to it leads to nine zero bytes of
      the chunk itself. */
  lemma MisplacedYetRead(codec: Codec, chunk: seq<byte>, trailer: seq<byte>, maxRam: nat)
    requires StoresAll(codec) && |chunk| == ALMOST_16_MB && (maxRam == 0 || maxRam >= |chunk|)
    requires forall i | 754 <= i < 763 :: chunk[i] == 0
    ensures var p := PlainPart(chunk, 3);
      var jobs, file := PackAll(codec, p.jobs), Written(codec, p, 3).file + trailer;
      && Pow256(2) <= |chunk| < Pow256(3) && PartOk(p, 3) && ControlEnds(p) && !PartFits(codec, p, 3)
      && BothStreams(jobs)
      && ReadStream(file, 0, 3, maxRam) == Whole(jobs, 0, 3) && ReadStream(file, 1, 3, maxRam) == Whole(jobs, 1, 3)
  {
    hide FetchBlock, FileBytes, ListsOf, WriteAll, Offset, PlainPart, PlainControl, JobsFit, AllFit, Pow256, Seen, SeenFrom,
      ReadStream, Skipped, PackAll, ControlEnds, PartOk;
    var p, control := PlainPart(chunk, 3), PlainControl(chunk, 3);
    var jobs, file := PackAll(codec, p.jobs), Written(codec, p, 3).file + trailer;
    FourBytes();
    PlainIsPart(chunk, 3);
    StoredPlain(codec, chunk);
    var blocks := ListsOf(jobs, 3).blocks;
    StoredLay(jobs, chunk, control);
    ThreeOf(jobs);
    TailTooFar(jobs, chunk, control);
    WriteAllHolds(jobs, 3);
    PayloadStands(blocks, 2, trailer, 3);
    assert forall i | 783 < i < 793 :: file[i] == file[30..30 + |chunk|][i - 30];
    ZerosAreTail(file, 783, maxRam);
    ControlSeen(Fetcher(file, 3, 0, maxRam), blocks, chunk, control, maxRam, |file|);
    LiteralsSeen(Fetcher(file, 3, 1, maxRam), blocks, chunk, control, maxRam, |file|);
    StreamIsSeen(jobs, 0, trailer, 3, maxRam);
    StreamIsSeen(jobs, 1, trailer, 3, maxRam);
    RemainderSame(Offset(blocks, 3, 3), Pow256(3));
  }
}
