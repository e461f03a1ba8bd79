/** A chunk from the compressor's input to the decompressor's output: the match finder, the two
    streams' buffers, the back ends, the container, the prefetching reader and the token loop. */
module EndToEnd {
  import opened Bytes
  import opened Tokens
  import opened Container
  import opened ContainerReading
  import opened StreamIn
  import Bits
  import StreamOut
  import ControlWriter
  import HashSearch
  import MatchFinder
  import Runzip

  // ---- Back ends ----

  /** A back end compresses a block, or leaves it stored; `decompress` also takes the block's type. */
  datatype Codec = Codec(compress: seq<byte> -> Option<(byte, seq<byte>)>, decompress: (byte, seq<byte>) -> Option<seq<byte>>)

  const MIN_COMPRESS := 64

  /** What a compression thread makes of a block. */
  function Pack(codec: Codec, b: seq<byte>): Data {
    if |b| < MIN_COMPRESS then Data(CTYPE_NONE, |b|, b)
    else match codec.compress(b)
      case None => Data(CTYPE_NONE, |b|, b)
      case Some((ctype, c)) => Data(ctype, |b|, c)
  }

  /** What a decompression thread makes of it: bytes of the announced length, or an error. */
  function Unpack(codec: Codec, d: Data): Option<seq<byte>> {
    var bytes := if d.ctype == CTYPE_NONE then Some(d.payload) else codec.decompress(d.ctype, d.payload);
    if bytes.Some? && |bytes.value| == d.ulen then bytes else None
  }

  function Unpacker(codec: Codec): StreamIn.Unpack {
    (d: Data) => Unpack(codec, d)
  }

  /** Decompressing what was compressed gives it back; a result that is not smaller is not used. */
  ghost predicate Honest(codec: Codec) {
    forall b: seq<byte> :: codec.compress(b).Some? ==> HonestAbout(codec, b, codec.compress(b).value)
  }

  ghost predicate HonestAbout(codec: Codec, b: seq<byte>, r: (byte, seq<byte>)) {
    && CTYPE_NONE < r.0 <= CTYPE_LAST && 1 <= |r.1| < |b|
    && (r.0 == CTYPE_BZIP2 ==> |b| <= Bits.UINT32_MAX)
    && codec.decompress(r.0, r.1) == Some(b)
  }

  lemma PackIsSound(codec: Codec, b: seq<byte>, maxRam: nat)
    requires Honest(codec) && (maxRam > 0 ==> |b| <= maxRam)
    ensures Unpack(codec, Pack(codec, b)) == Some(b) && Pack(codec, b).ulen == |b|
    ensures b != [] ==> DataOk(Pack(codec, b).ctype, |Pack(codec, b).payload|, |b|, maxRam)
    ensures b == [] ==> Pack(codec, b) == Data(CTYPE_NONE, 0, [])
    ensures |Pack(codec, b).payload| <= |b| == Alloc(Pack(codec, b))
  {
    if codec.compress(b).Some? {
      assert HonestAbout(codec, b, codec.compress(b).value);
    }
  }

  /** The back end's result for a block, where it is asked and has one. */
  ghost predicate Compresses(codec: Codec, b: seq<byte>) {
    |b| >= 64 && codec.compress(b).Some?
  }

  /** A block gets shorter exactly if it has 64 bytes and the back end compresses it; then its type
      and bytes are the back end's, and otherwise it is stored. */
  lemma PackCompresses(codec: Codec, b: seq<byte>)
    requires Honest(codec)
    ensures |Pack(codec, b).payload| < |b| <==> Compresses(codec, b)
    ensures Compresses(codec, b) ==> (Pack(codec, b).ctype, Pack(codec, b).payload) == codec.compress(b).value
    ensures !Compresses(codec, b) ==> Pack(codec, b) == Data(CTYPE_NONE, |b|, b)
  {
    if codec.compress(b).Some? {
      assert HonestAbout(codec, b, codec.compress(b).value);
    }
  }

  // ---- From blocks to jobs ----

  function Packed(codec: Codec, job: StreamOut.Job): Job {
    var d := Pack(codec, job.data);
    Job(job.stream, d.ctype, d.ulen, d.payload)
  }

  function PackAll(codec: Codec, jobs: seq<StreamOut.Job>): seq<Job> {
    if jobs == [] then [] else [Packed(codec, jobs[0])] + PackAll(codec, jobs[1..])
  }

  /** The jobs as they would be without a back end. */
  function StoreAll(jobs: seq<StreamOut.Job>): seq<Job> {
    if jobs == [] then []
    else [Job(jobs[0].stream, CTYPE_NONE, |jobs[0].data|, jobs[0].data)] + StoreAll(jobs[1..])
  }

  /** How many bytes the back end saves. */
  ghost function Savings(codec: Codec, jobs: seq<StreamOut.Job>): int {
    if jobs == [] then 0
    else
      var b := jobs[0].data;
      (if Compresses(codec, b) then |b| - |codec.compress(b).value.1| else 0) + Savings(codec, jobs[1..])
  }

  /** The container is as much shorter than one of stored blocks as the back end saves on the blocks
      it compresses. */
  lemma ContainerShrinks(codec: Codec, jobs: seq<StreamOut.Job>, wl: nat)
    requires Honest(codec) && StreamOut.OnStreams(jobs)
    ensures WriteAll(PackAll(codec, jobs), wl).curPos == WriteAll(StoreAll(jobs), wl).curPos - Savings(codec, jobs)
  {
    hide WriteAll, Honest;
    BothOnStreams(codec, jobs);
    PackedTotal(codec, jobs, wl);
    WriterLength(PackAll(codec, jobs), wl);
    WriterLength(StoreAll(jobs), wl);
  }

  lemma {:induction false} BothOnStreams(codec: Codec, jobs: seq<StreamOut.Job>)
    requires StreamOut.OnStreams(jobs)
    ensures JobsOk(PackAll(codec, jobs)) && JobsOk(StoreAll(jobs))
  {
    hide Pack;
    if jobs != [] {
      BothOnStreams(codec, jobs[1..]);
    }
  }

  lemma {:induction false} PackedTotal(codec: Codec, jobs: seq<StreamOut.Job>, wl: nat)
    requires Honest(codec)
    ensures TotalLen(PackAll(codec, jobs), wl) == TotalLen(StoreAll(jobs), wl) - Savings(codec, jobs)
  {
    hide Pack, Honest;
    if jobs != [] {
      PackCompresses(codec, jobs[0].data);
      PackedTotal(codec, jobs[1..], wl);
      assert PackAll(codec, jobs)[1..] == PackAll(codec, jobs[1..]);
      assert StoreAll(jobs)[1..] == StoreAll(jobs[1..]);
    }
  }

  function PackBlocks(codec: Codec, blocks: seq<seq<byte>>, k: nat): seq<Job> {
    if blocks == [] then [] else [Packed(codec, StreamOut.Job(k, blocks[0]))] + PackBlocks(codec, blocks[1..], k)
  }

  /** Packing keeps each stream's blocks in order. */
  lemma {:induction false} JobsOfPacked(codec: Codec, jobs: seq<StreamOut.Job>, k: nat)
    ensures JobsOf(PackAll(codec, jobs), k) == PackBlocks(codec, StreamOut.BlocksOf(jobs, k), k)
  {
    hide Pack;
    if jobs != [] {
      var rest := StreamOut.BlocksOf(jobs[1..], k);
      JobsOfPacked(codec, jobs[1..], k);
      assert PackAll(codec, jobs)[1..] == PackAll(codec, jobs[1..]);
      if jobs[0].stream == k {
        assert StreamOut.BlocksOf(jobs, k) == [jobs[0].data] + rest;
        assert StreamOut.BlocksOf(jobs, k)[1..] == rest;
        assert jobs[0] == StreamOut.Job(k, jobs[0].data);
      } else {
        assert StreamOut.BlocksOf(jobs, k) == rest;
      }
    }
  }

  lemma {:induction false} PackedAt(codec: Codec, blocks: seq<seq<byte>>, k: nat)
    ensures |PackBlocks(codec, blocks, k)| == |blocks|
    ensures forall i | 0 <= i < |blocks| :: PackBlocks(codec, blocks, k)[i] == Packed(codec, StreamOut.Job(k, blocks[i]))
  {
    hide Packed;
    if blocks != [] {
      PackedAt(codec, blocks[1..], k);
    }
  }

  /** No block is larger than the reader's memory limit. */
  ghost predicate Accepted(blocks: seq<seq<byte>>, maxRam: nat) {
    maxRam > 0 ==> forall i | 0 <= i < |blocks| :: |blocks[i]| <= maxRam
  }

  /** The blocks of a closed stream are as the reader wants them. */
  lemma PackedReadable(codec: Codec, data: seq<byte>, blocks: seq<seq<byte>>, bufsize: nat, k: nat, maxRam: nat)
    requires Honest(codec) && StreamOut.CutInto(data, blocks, bufsize)
    requires bufsize > 0 && Accepted(blocks, maxRam)
    ensures var jobs := PackBlocks(codec, blocks, k);
      && Readable(jobs, maxRam)
      && (EmptyJob(jobs[|jobs| - 1]) <==> |data| % bufsize == 0)
  {
    PackedAt(codec, blocks, k);
    forall i | 0 <= i < |blocks|
      ensures |blocks[i]| <= bufsize && (i < |blocks| - 1 ==> blocks[i] != [])
    {
      assert i < |blocks| - 1 ==> blocks[..|blocks| - 1][i] == blocks[i];
    }
    forall i | 0 <= i < |blocks|
      ensures var job := Packed(codec, StreamOut.Job(k, blocks[i]));
        (blocks[i] != [] ==> SoundJob(job, maxRam)) && (EmptyJob(job) <==> blocks[i] == [])
    {
      PackIsSound(codec, blocks[i], maxRam);
    }
    StreamOut.LastBlockEmpty(data, blocks, bufsize);
  }

  /** Unpacking the blocks that are read gives the stream back. */
  lemma {:induction false} PackedDelivers(codec: Codec, blocks: seq<seq<byte>>, k: nat)
    requires Honest(codec)
    ensures Deliver(Unpacker(codec), DataSeq(PackBlocks(codec, blocks, k))) == Some(Flat(blocks))
  {
    hide Pack, Unpack;
    PackedAt(codec, blocks, k);
    var all := DataSeq(PackBlocks(codec, blocks, k));
    if blocks != [] {
      PackIsSound(codec, blocks[0], 0);
      PackedDelivers(codec, blocks[1..], k);
      assert all[0] == Pack(codec, blocks[0]);
      assert all[1..] == DataSeq(PackBlocks(codec, blocks[1..], k));
    } else {
      assert all == [];
    }
  }

  // ---- What the reader starts with ----

  /** Everything the jobs of stream k hold. */
  function Contents(jobs: seq<StreamOut.Job>, k: nat): seq<byte> {
    Flat(StreamOut.BlocksOf(jobs, k))
  }

  /** Both streams were cut into full buffers and a shorter, possibly empty, rest. */
  ghost predicate Wrote(jobs: seq<StreamOut.Job>, bufsize: nat) {
    && bufsize > 0 && StreamOut.OnStreams(jobs)
    && forall k: nat | k < NUM_STREAMS :: StreamOut.CutInto(Contents(jobs, k), StreamOut.BlocksOf(jobs, k), bufsize)
  }

  lemma {:induction false} PackedOk(codec: Codec, jobs: seq<StreamOut.Job>)
    requires StreamOut.OnStreams(jobs)
    ensures JobsOk(PackAll(codec, jobs)) && |PackAll(codec, jobs)| == |jobs|
  {
    hide Pack;
    if jobs != [] {
      PackedOk(codec, jobs[1..]);
    }
  }

  lemma PackedBoth(codec: Codec, jobs: seq<StreamOut.Job>, bufsize: nat)
    requires Wrote(jobs, bufsize)
    ensures BothStreams(PackAll(codec, jobs))
  {
    hide Pack;
    forall k: nat | k < NUM_STREAMS
      ensures JobsOf(PackAll(codec, jobs), k) != []
    {
      JobsOfPacked(codec, jobs, k);
      PackedAt(codec, StreamOut.BlocksOf(jobs, k), k);
    }
  }

  /** Following a list counts a header for every block, the empty one at its end included, and
      every payload. */
  function Counted(data: seq<Data>, wl: nat): nat {
    if data == [] then 0 else HeaderLen(wl) + |data[0].payload| + Counted(data[1..], wl)
  }

  lemma {:induction false} FollowCounts(fetch: nat -> Fetch, pos: nat, wl: nat, limit: nat)
    requires Follow(fetch, pos, wl, limit).Listed?
    ensures var l := Follow(fetch, pos, wl, limit);
      l.totalRead == Counted(l.data, wl) + (if EndsEmpty(fetch, pos, limit) then HeaderLen(wl) else 0)
    decreases limit - pos
  {
    var l := Follow(fetch, pos, wl, limit);
    if fetch(pos).Fetched? {
      assert l.data[1..] == (if fetch(pos).link == 0 then [] else Follow(fetch, fetch(pos).link, wl, limit).data);
      if fetch(pos).link != 0 {
        FollowCounts(fetch, fetch(pos).link, wl, limit);
      }
    }
  }

  lemma {:induction false} CountedJobs(jobs: seq<Job>, wl: nat)
    ensures Counted(DataSeq(jobs), wl) == TotalLen(jobs, wl)
  {
    if jobs != [] {
      assert DataSeq(jobs)[1..] == DataSeq(jobs[1..]);
      CountedJobs(jobs[1..], wl);
    }
  }

  /** A whole list leaves an empty block at its end exactly when its last job was empty. */
  lemma WholeEndsEmpty(fetch: nat -> Fetch, pos: nat, wl: nat, limit: nat, mine: seq<Job>)
    requires mine != []
    requires Follow(fetch, pos, wl, limit) == Listed(DataSeq(DropEmptyLast(mine)), TotalLen(mine, wl))
    ensures EndsEmpty(fetch, pos, limit) <==> EmptyJob(mine[|mine| - 1])
  {
    FollowCounts(fetch, pos, wl, limit);
    CountedJobs(DropEmptyLast(mine), wl);
    if EmptyJob(mine[|mine| - 1]) {
      var last := mine[|mine| - 1];
      assert mine == mine[..|mine| - 1] + [last];
      TotalLenPush(mine[..|mine| - 1], last, wl);
    }
  }

  lemma PackedFront(codec: Codec, blocks: seq<seq<byte>>, k: nat)
    requires blocks != []
    ensures var n := |blocks| - 1;
      |PackBlocks(codec, blocks, k)| == n + 1 && PackBlocks(codec, blocks, k)[..n] == PackBlocks(codec, blocks[..n], k)
  {
    hide Packed;
    PackedAt(codec, blocks, k);
    PackedAt(codec, blocks[..|blocks| - 1], k);
  }

  lemma FlatFront(blocks: seq<seq<byte>>)
    requires blocks != [] && blocks[|blocks| - 1] == []
    ensures Flat(blocks[..|blocks| - 1]) == Flat(blocks)
  {
    var full, last := blocks[..|blocks| - 1], blocks[|blocks| - 1];
    assert blocks == full + [last];
    FlatPush(full, last);
  }

  lemma WithoutEmptyLast(codec: Codec, data: seq<byte>, blocks: seq<seq<byte>>, bufsize: nat, k: nat)
    requires Honest(codec) && bufsize > 0 && StreamOut.CutInto(data, blocks, bufsize)
    ensures PackBlocks(codec, blocks, k) != []
    ensures Deliver(Unpacker(codec), DataSeq(DropEmptyLast(PackBlocks(codec, blocks, k)))) == Some(data)
  {
    hide Pack, Packed, PackBlocks, Unpack, Deliver, DataOk, DataSeq, Flat, EmptyJob, StreamOut.AllFull, Honest;
    PackedReadable(codec, data, blocks, bufsize, k, 0);
    PackedFront(codec, blocks, k);
    PackedDelivers(codec, blocks, k);
    if EmptyJob(PackBlocks(codec, blocks, k)[|blocks| - 1]) {
      StreamOut.LastBlockEmpty(data, blocks, bufsize);
      FlatFront(blocks);
      PackedDelivers(codec, blocks[..|blocks| - 1], k);
    }
  }

  ghost predicate AllTake(blocks: seq<Data>, n: nat) {
    forall d | d in blocks :: Alloc(d) == n
  }

  lemma TakenAlike(blocks: seq<Data>, n: nat, maxRam: nat)
    requires AllTake(blocks, n)
    ensures blocks == [] || n >= maxRam ==> AllAtLeast(blocks, maxRam)
    ensures n < maxRam ==> AllBelow(blocks, maxRam)
  {
  }

  /** A stream that fills its buffers without remainder is read as full blocks only. */
  lemma {:induction false} FullBlocks(codec: Codec, data: seq<byte>, blocks: seq<seq<byte>>, bufsize: nat, k: nat)
    requires Honest(codec) && bufsize > 0 && StreamOut.CutInto(data, blocks, bufsize) && |data| % bufsize == 0
    ensures PackBlocks(codec, blocks, k) != []
    ensures var read := DataSeq(DropEmptyLast(PackBlocks(codec, blocks, k)));
      AllTake(read, bufsize) && (read == [] <==> data == [])
  {
    hide Pack, Honest;
    var n, jobs := |blocks|, PackBlocks(codec, blocks, k);
    PackedAt(codec, blocks, k);
    PackedReadable(codec, data, blocks, bufsize, k, 0);
    var full, last := blocks[..n - 1], blocks[n - 1];
    assert blocks == full + [last];
    FlatPush(full, last);
    StreamOut.FlatOfFull(full, bufsize);
    StreamOut.LastBlockEmpty(data, blocks, bufsize);
    var read := DataSeq(DropEmptyLast(jobs));
    assert |data| == (n - 1) * bufsize && |read| == n - 1;
    forall i | 0 <= i < |read|
      ensures Alloc(read[i]) == bufsize
    {
      assert full[i] == blocks[i];
      PackIsSound(codec, blocks[i], 0);
    }
  }

  /** Following a list delivers this stream. */
  ghost predicate Follows(l: Listing, codec: Codec, stream: seq<byte>) {
    l.Listed? && Deliver(Unpacker(codec), l.data) == Some(stream)
  }

  /** A fetch gives a sound block's payload and link; an empty or unacceptable one gives none. */
  lemma FetchGives(b: Block, pos: nat, maxRam: nat)
    requires b.link == 0 || b.link > pos
    ensures var f := FetchOf(b, pos, maxRam);
      && (f.Fetched? ==> f.payload == b.payload && f.link == b.link)
      && (SoundJob(JobOf(b), maxRam) ==> f.Fetched?)
  {
  }

  lemma ReadableRest(jobs: seq<Job>, maxRam: nat)
    requires Readable(jobs, maxRam)
    ensures |jobs| == 1 ==> SoundJob(jobs[0], maxRam) || EmptyJob(jobs[0])
    ensures |jobs| > 1 ==> SoundJob(jobs[0], maxRam) && Readable(jobs[1..], maxRam)
  {
    assert |jobs| > 1 ==> jobs[1..][|jobs| - 2] == jobs[|jobs| - 1];
  }

  /** The weight of a list is at most the length of its stream's jobs, and no less if only the last
      of them may be refused. */
  lemma {:induction false} ListWeighs(fetch: nat -> Fetch, blocks: seq<Block>, i: nat, wl: nat, maxRam: nat,
                                      limit: nat, jobs: seq<Job>)
    requires i < |blocks| && FetchesStream(fetch, blocks, blocks[i].stream, wl, maxRam)
    requires Linked(blocks, wl) && AllFit(blocks, wl) && Offset(blocks, |blocks|, wl) <= limit
    requires jobs == [JobOf(blocks[i])] + StreamJobs(blocks, blocks[i].stream, i + 1)
    ensures Weight(fetch, Offset(blocks, i, wl), wl, limit) <= TotalLen(jobs, wl)
    ensures Readable(jobs, maxRam) ==> Weight(fetch, Offset(blocks, i, wl), wl, limit) == TotalLen(jobs, wl)
    decreases |blocks| - i
  {
    hide Pow256, Offset, LinkOf, NextOf, Stored, Fits, FetchOf, DataOk, Readable, StreamJobs;
    var k, n := blocks[i].stream, Successor(blocks, i);
    assert FetchesBlock(fetch, blocks, i, wl, maxRam);
    FitsAt(blocks, i, wl);
    StoredIsFaithful(blocks[i], wl);
    LinkFits(blocks, i, wl);
    FetchGives(blocks[i], Offset(blocks, i, wl), maxRam);
    OffsetGrows(blocks, i, |blocks|, wl);
    NextOfFilters(blocks, k, i + 1);
    assert jobs[1..] == StreamJobs(blocks, k, i + 1);
    if Readable(jobs, maxRam) {
      ReadableRest(jobs, maxRam);
    }
    if n < |blocks| {
      ListWeighs(fetch, blocks, n, wl, maxRam, limit, jobs[1..]);
    }
  }

  lemma StreamWeighs(jobs: seq<Job>, k: nat, file: seq<byte>, trailer: seq<byte>, wl: nat, maxRam: nat)
    requires JobsOk(jobs) && k < NUM_STREAMS && JobsOf(jobs, k) != []
    requires JobsFit(jobs, wl) && file == WriteAll(jobs, wl).file + trailer
    ensures FirstLink(file, k, wl).Some?
    ensures var weight := Weight(Fetcher(file, wl, k, maxRam), FirstLink(file, k, wl).value, wl, |file|);
      var mine := JobsOf(jobs, k);
      weight <= TotalLen(mine, wl) && (Readable(mine, maxRam) ==> weight == TotalLen(mine, wl))
  {
    hide FetchBlock, AllFit, JobsFit, Weight, Readable, Pow256;
    var blocks := ListsOf(jobs, wl).blocks;
    AllFitIsJobsFit(jobs, wl);
    FileHoldsJobs(jobs, wl, k);
    WriteAllHolds(jobs, wl);
    FirstLinkPlaced(blocks, k, trailer, wl);
    FileFetchesStream(blocks, k, trailer, wl, maxRam);
    OffsetOfEnd(blocks, wl);
    assert blocks[k].link % Pow256(wl) == blocks[k].link by {
      FitsAt(blocks, k, wl);
      RemainderSame(blocks[k].link, Pow256(wl));
    }
    HeldWeighs(Fetcher(file, wl, k, maxRam), blocks, k, wl, maxRam, |file|, JobsOf(jobs, k));
  }

  lemma HeldWeighs(fetch: nat -> Fetch, blocks: seq<Block>, k: nat, wl: nat, maxRam: nat, limit: nat, jobs: seq<Job>)
    requires StartsWithHeaders(blocks) && Linked(blocks, wl) && k < NUM_STREAMS
    requires jobs == StreamJobs(blocks, k, NUM_STREAMS) && jobs != []
    requires AllFit(blocks, wl) && FetchesStream(fetch, blocks, k, wl, maxRam) && Offset(blocks, |blocks|, wl) <= limit
    ensures Weight(fetch, blocks[k].link, wl, limit) <= TotalLen(jobs, wl)
    ensures Readable(jobs, maxRam) ==> Weight(fetch, blocks[k].link, wl, limit) == TotalLen(jobs, wl)
  {
    HeadLeadsToStream(blocks, k, wl);
    ListWeighs(fetch, blocks, Successor(blocks, k), wl, maxRam, limit, jobs);
  }

  /** What a reader finds in front of it: the written stream, unless it is stream 0 and ends in an
      empty block, and in either case exactly its share of the file to be counted. */
  lemma StreamStarts(codec: Codec, jobs: seq<StreamOut.Job>, bufsize: nat, k: nat,
                     file: seq<byte>, trailer: seq<byte>, wl: nat, maxRam: nat)
    requires Honest(codec) && Wrote(jobs, bufsize)
    requires k < NUM_STREAMS && Accepted(StreamOut.BlocksOf(jobs, k), maxRam)
    requires JobsFit(PackAll(codec, jobs), wl)
    requires file == WriteAll(PackAll(codec, jobs), wl).file + trailer
    ensures FirstLink(file, k, wl).Some? && Skipped(file, wl) == 0
    ensures var fetch, first := Fetcher(file, wl, k, maxRam), FirstLink(file, k, wl).value;
      && Weight(fetch, first, wl, |file|) == TotalLen(JobsOf(PackAll(codec, jobs), k), wl)
      && (if k == 0 && |Contents(jobs, 0)| % bufsize == 0 then Follow(fetch, first, wl, |file|).Broken?
          else Follows(Follow(fetch, first, wl, |file|), codec, Contents(jobs, k)))
      && (k == 1 ==> (EndsEmpty(fetch, first, |file|) <==> |Contents(jobs, 1)| % bufsize == 0))
      && (k == 1 && |Contents(jobs, 1)| % bufsize == 0 ==>
          var list := Follow(fetch, first, wl, |file|);
          list.Listed? && AllTake(list.data, bufsize) && (list.data == [] <==> Contents(jobs, 1) == []))
  {
    hide FetchBlock, Pack, Unpack, Deliver, JobsFit, EmptyJob, Readable, Weight;
    var all, blocks := PackAll(codec, jobs), StreamOut.BlocksOf(jobs, k);
    var mine := JobsOf(all, k);
    PackedOk(codec, jobs);
    JobsOfPacked(codec, jobs, k);
    PackedReadable(codec, Contents(jobs, k), blocks, bufsize, k, maxRam);
    JobsOfStream(all, k);
    PackedBoth(codec, jobs, bufsize);
    StreamWeighs(all, k, file, trailer, wl, maxRam);
    StreamIsRead(all, k, trailer, wl, maxRam);
    ListingComplete(mine, k, wl, maxRam);
    WithoutEmptyLast(codec, Contents(jobs, k), blocks, bufsize, k);
    if k == 1 {
      WholeEndsEmpty(Fetcher(file, wl, k, maxRam), FirstLink(file, k, wl).value, wl, |file|, mine);
      if |Contents(jobs, 1)| % bufsize == 0 {
        FullBlocks(codec, Contents(jobs, k), blocks, bufsize, k);
      }
    }
  }

  lemma {:induction false} ListingRefused(jobs: seq<Job>, i: nat, wl: nat, maxRam: nat)
    requires i < |jobs| && !SoundJob(jobs[i], maxRam) && !EmptyJob(jobs[i])
    ensures ListingOf(jobs, wl, maxRam) == Broken
    decreases |jobs|
  {
    if i > 0 {
      ListingRefused(jobs[1..], i - 1, wl, maxRam);
    }
  }

  /** A stream with a block larger than the reader's memory limit cannot be followed. */
  lemma StreamRefused(codec: Codec, jobs: seq<StreamOut.Job>, bufsize: nat, k: nat,
                      file: seq<byte>, trailer: seq<byte>, wl: nat, maxRam: nat)
    requires Honest(codec) && Wrote(jobs, bufsize) && k < NUM_STREAMS && !Accepted(StreamOut.BlocksOf(jobs, k), maxRam)
    requires JobsFit(PackAll(codec, jobs), wl)
    requires file == WriteAll(PackAll(codec, jobs), wl).file + trailer
    ensures FirstLink(file, k, wl).Some? && Skipped(file, wl) == 0
    ensures var fetch, first := Fetcher(file, wl, k, maxRam), FirstLink(file, k, wl).value;
      && Weight(fetch, first, wl, |file|) <= TotalLen(JobsOf(PackAll(codec, jobs), k), wl)
      && Follow(fetch, first, wl, |file|).Broken?
  {
    hide FetchBlock, Pack, Unpack, JobsFit, Weight, Honest;
    var all, blocks := PackAll(codec, jobs), StreamOut.BlocksOf(jobs, k);
    var i :| 0 <= i < |blocks| && |blocks[i]| > maxRam;
    PackedOk(codec, jobs);
    JobsOfPacked(codec, jobs, k);
    PackedAt(codec, blocks, k);
    PackIsSound(codec, blocks[i], 0);
    PackedBoth(codec, jobs, bufsize);
    ListingRefused(JobsOf(all, k), i, wl, maxRam);
    StreamWeighs(all, k, file, trailer, wl, maxRam);
    StreamIsRead(all, k, trailer, wl, maxRam);
  }

  // ---- A chunk ----

  /** Find the chunk's matches, write the two streams and close them. */
  method CompressChunk(chunk: seq<byte>, level: nat, index: MatchFinder.HashIndex, victimRound: nat,
                       chunkBytes: nat, bufsize: nat)
    returns (jobs: seq<StreamOut.Job>)
    requires level < |HashSearch.LEVELS| && victimRound < HashSearch.LEVELS[level].maxChainLen
    requires |chunk| < Pow256(chunkBytes) && bufsize > 0
    ensures Wrote(jobs, bufsize) && Encodes(Contents(jobs, 0), Contents(jobs, 1), chunk, chunkBytes)
    ensures chunkBytes <= 8 ==> 2 * |Contents(jobs, 0)| <= |chunk| + 12
  {
    hide Encodes, AllPrintable, ControlBytes, LiteralBytes;
    var streams := new StreamOut.StreamInfo(bufsize);
    var w := new ControlWriter.ControlWriter(streams, chunkBytes);
    var table, _, _, _, _ := HashSearch.HashSearch(chunk, level, index, w, victimRound);
    streams.CloseStreamOut();
    jobs := streams.jobs;
  }

  lemma UnpackerIsExact(codec: Codec)
    ensures Exact(Unpacker(codec))
  {
  }

  lemma StartsWith(st: Stream, l: Listing, codec: Codec, stream: seq<byte>)
    requires Follows(l, codec, stream) && st.buf == [] && st.bufp == 0
    ensures Remaining(st, [], l, Unpacker(codec)) == Some(stream)
  {
    assert [] + l.data == l.data && st.buf[0..] + stream == stream;
  }

  /** A reader that stands before two lists. */
  method OpenStreams(file: seq<byte>, wl: nat, maxRam: nat, codec: Codec, threads: nat, first0: nat, first1: nat,
                     ghost data0: seq<byte>, ghost data1: seq<byte>)
    returns (ss: StreamReader)
    requires threads >= 1
    ensures fresh(ss) && fresh(ss.slots) && fresh(ss.s) && Runzip.Open(ss)
    ensures Follows(Follow(Fetcher(file, wl, 0, maxRam), first0, wl, |file|), codec, data0) ==> ss.Rest(0) == Some(data0)
    ensures Follows(Follow(Fetcher(file, wl, 1, maxRam), first1, wl, |file|), codec, data1) ==> ss.Rest(1) == Some(data1)
    ensures ss.Listing(0).Broken? == Follow(Fetcher(file, wl, 0, maxRam), first0, wl, |file|).Broken?
    ensures ss.Listing(1).Broken? == Follow(Fetcher(file, wl, 1, maxRam), first1, wl, |file|).Broken?
    ensures ss.totalRead == NUM_STREAMS * HeaderLen(wl)
    ensures ss.Owed(0) == Weight(Fetcher(file, wl, 0, maxRam), first0, wl, |file|)
    ensures ss.Owed(1) == Weight(Fetcher(file, wl, 1, maxRam), first1, wl, |file|)
    ensures ss.Volume(0) == ListLen(Fetcher(file, wl, 0, maxRam), first0, |file|)
    ensures ss.TailPending(1) <==> EndsEmpty(Fetcher(file, wl, 1, maxRam), first1, |file|)
    ensures var list := Follow(Fetcher(file, wl, 1, maxRam), first1, wl, |file|);
      list.Listed? ==>
        && (threads == 1 || AllAtLeast(list.data, maxRam) ==> ss.OneByOne(1))
        && (threads >= 2 && maxRam > 0 && AllBelow(list.data, maxRam) ==> ss.Ample(1))
        && (list.data != [] ==> ss.TailAhead(1))
  {
    hide RingOk, RamOf, AllocSum, Follow, Weight, EndsEmpty, Remaining, FetchBlock, Exact, Unpacker, Follows, ListLen,
      AllBelow, AllAtLeast;
    UnpackerIsExact(codec);
    ss := new StreamReader(file, wl, maxRam, Unpacker(codec), threads, first0, first1);
    if Follows(ss.Listing(0), codec, data0) {
      StartsWith(ss.s[0], ss.Listing(0), codec, data0);
    }
    if Follows(ss.Listing(1), codec, data1) {
      StartsWith(ss.s[1], ss.Listing(1), codec, data1);
    }
    if ss.Listing(1).Listed? {
      assert [] + ss.Listing(1).data == ss.Listing(1).data;
    }
  }

  /** Everything has been read out of both streams. */
  lemma AllRead(s0: Runzip.ControlReader)
    requires s0.Valid() && Runzip.Ready(s0.ss) && s0.Rest() == [] && Runzip.Left(s0.ss, 1) == []
    ensures s0.ss.Valid() && s0.ss.Rest(0) == Some([]) && s0.ss.Rest(1) == Some([])
  {
  }

  /** Run the tokens on opened streams and report where the container was taken to end: in its
      right place, `all`, exactly if no empty last block was left unnoticed. */
  method RunTokens(ss: StreamReader, wl: nat, out: seq<byte>, ghost all: nat) returns (r: Runzip.Result, end: nat)
    requires Runzip.Open(ss) && 1 <= wl <= 8 && ss.totalRead + ss.Owed(0) + ss.Owed(1) == all
    modifies ss, ss.slots, ss.s
    ensures old(Runzip.Ready(ss)) ==>
      var decoded := old(Decode(Runzip.Left(ss, 0), Runzip.Left(ss, 1), out, wl));
      decoded.Done? && decoded.control == [] && decoded.literals == [] ==>
        && r == Runzip.Restored(decoded.out)
        && (old(ss.OneByOne(1)) ==> (end == all <==> !old(ss.TailPending(1))))
        && (old(ss.Ample(1) && ss.TailAhead(1)) ==> end == all)
        && (!old(ss.TailPending(1)) ==> end == all)
    ensures old(ss.Listing(0)).Broken? || old(ss.Listing(1)).Broken? ==> r == Runzip.Unreadable || end < all
    ensures old(ss.Volume(0)) < HEADER_LEN ==> r == Runzip.Unreadable
  {
    hide RingOk, RamOf, AllocSum, Ahead, Uncounted, AheadLen, EndsEmpty, Remaining, Decode, Exact, AllNonEmpty,
      AllBelow, AllAtLeast;
    var s0 := new Runzip.ControlReader(ss);
    r := Runzip.RunzipChunk(s0, out, wl);
    end := ss.totalRead;
    if r.Restored? {
      if ss.Listing(0).Broken? || ss.Listing(1).Broken? {
        ss.BrokenIsShort(all);
      }
      if s0.Rest() == [] && Runzip.Ready(ss) && Runzip.Left(ss, 1) == [] {
        AllRead(s0);
        ss.CountedWhenNoticed(all);
        if ss.TailAhead(1) {
          ss.TailNoticed();
        }
      }
    }
  }

  /** The control stream's first block is refused. */
  predicate ControlUnreadable(file: seq<byte>, wl: nat, maxRam: nat) {
    var first := FirstLink(file, 0, wl);
    first.Some? && first.value != 0 && FetchBlock(file, first.value, wl, 0, maxRam).Invalid?
  }

  lemma UnreadableIsEmpty(file: seq<byte>, wl: nat, maxRam: nat)
    requires ControlUnreadable(file, wl, maxRam)
    ensures ListLen(Fetcher(file, wl, 0, maxRam), FirstLink(file, 0, wl).value, |file|) == 0
  {
  }

  /** A chunk, the blocks its streams were cut into and the size of the buffers. */
  datatype Part = Part(chunk: seq<byte>, jobs: seq<StreamOut.Job>, bufsize: nat)

  /** What the compressor leaves of a chunk. */
  ghost predicate PartOk(p: Part, wl: nat) {
    && Wrote(p.jobs, p.bufsize)
    && Encodes(Contents(p.jobs, 0), Contents(p.jobs, 1), p.chunk, wl)
  }

  /** The reader accepts blocks of this size. */
  ghost predicate BlocksAccepted(p: Part, maxRam: nat) {
    Accepted(StreamOut.BlocksOf(p.jobs, 0), maxRam) && Accepted(StreamOut.BlocksOf(p.jobs, 1), maxRam)
  }

  /** The control stream is about half as long as the chunk at most, as matches are long. */
  predicate Lean(p: Part) {
    2 * |Contents(p.jobs, 0)| <= |p.chunk| + 12
  }

  /** The container of a part. */
  function Written(codec: Codec, p: Part, wl: nat): Writer {
    WriteAll(PackAll(codec, p.jobs), wl)
  }

  /** Every number fits in its field. */
  predicate PartFits(codec: Codec, p: Part, wl: nat) {
    JobsFit(PackAll(codec, p.jobs), wl)
  }

  /** The control stream does not fill its buffers without remainder. */
  predicate ControlEnds(p: Part)
    requires p.bufsize > 0
  {
    |Contents(p.jobs, 0)| % p.bufsize != 0
  }

  /** The reader takes note of an empty last block of the literal stream, or there is none. */
  predicate EndNoticed(p: Part, threads: nat, maxRam: nat)
    requires p.bufsize > 0
  {
    var literals := |Contents(p.jobs, 1)|;
    literals % p.bufsize != 0 || (threads >= 2 && literals > 0 && p.bufsize < maxRam)
  }

  /** The file starts with what an honest back end left of the part, and nothing was truncated. */
  ghost predicate Intact(file: seq<byte>, codec: Codec, p: Part, wl: nat, trailer: seq<byte>) {
    && Honest(codec) && PartOk(p, wl)
    && file == Written(codec, p, wl).file + trailer && PartFits(codec, p, wl)
  }

  /** Open the streams, run the tokens, and report where the container was taken to end, for any
      file. If it is what was written for a part, and every number fits in its field, then the chunk
      comes back and the end is right if and only if no block is too large for the reader, the
      control stream does not fill its buffers without remainder, and the literal stream does not
      either or its last block is prefetched. In the last case only the end is wrong. A control
      stream whose first block cannot be fetched is an error. */
  method RestoreChunk(file: seq<byte>, wl: nat, maxRam: nat, codec: Codec, threads: nat, out: seq<byte>,
                      ghost p: Part, ghost trailer: seq<byte>)
    returns (r: Runzip.Result, end: nat)
    requires 1 <= wl <= 8 && threads >= 1
    ensures Intact(file, codec, p, wl, trailer) ==>
      if ControlEnds(p) && BlocksAccepted(p, maxRam) then
        && r == Runzip.Restored(out + p.chunk)
        && (end == Written(codec, p, wl).curPos <==> EndNoticed(p, threads, maxRam))
      else r == Runzip.Unreadable || end != Written(codec, p, wl).curPos
    ensures ControlUnreadable(file, wl, maxRam) ==> r == Runzip.Unreadable
  {
    hide Contents, Encodes, JobsFit, JobsOk, Honest, Follows, Follow, Weight, EndsEmpty, FetchBlock, FirstLink, PackAll,
      WriteAll, Skipped, ListsOf, JobsOf, TotalLen, ListLen, RingOk, RamOf, AllocSum, Ahead, Uncounted, AheadLen, Remaining,
      Decode, Exact, AllTake, AllBelow, AllAtLeast;
    if Intact(file, codec, p, wl, trailer) {
      if BlocksAccepted(p, maxRam) {
        PartStarts(codec, p, file, trailer, wl, maxRam);
      } else {
        PartRefused(codec, p, file, trailer, wl, maxRam);
      }
    }
    var skip := Skipped(file, wl);
    var container := file[skip..];
    assert skip == 0 ==> container == file;
    var first0, first1 := FirstLink(container, 0, wl), FirstLink(container, 1, wl);
    if first0.None? || first1.None? {
      return Runzip.Unreadable, 0;
    }
    var ss := OpenStreams(container, wl, maxRam, codec, threads, first0.value, first1.value,
                          Contents(p.jobs, 0), Contents(p.jobs, 1));
    ghost var counted := ss.totalRead + ss.Owed(0) + ss.Owed(1);
    if Intact(file, codec, p, wl, trailer) {
      DecodeRestoresChunk(Contents(p.jobs, 0), Contents(p.jobs, 1), p.chunk, out, wl);
    }
    if ControlUnreadable(file, wl, maxRam) {
      UnreadableIsEmpty(file, wl, maxRam);
    }
    r, end := RunTokens(ss, wl, out, counted);
    // Skipped headers move the start of the container and are counted as read.
    end := skip + (skip + end);
  }

  /** What the reader of a part starts with. */
  lemma PartStarts(codec: Codec, p: Part, file: seq<byte>, trailer: seq<byte>, wl: nat, maxRam: nat)
    requires Intact(file, codec, p, wl, trailer)
    requires BlocksAccepted(p, maxRam)
    ensures FirstLink(file, 0, wl).Some? && FirstLink(file, 1, wl).Some? && Skipped(file, wl) == 0
    ensures var fetch0, fetch1 := Fetcher(file, wl, 0, maxRam), Fetcher(file, wl, 1, maxRam);
      var first0, first1 := FirstLink(file, 0, wl).value, FirstLink(file, 1, wl).value;
      var list0, list1 := Follow(fetch0, first0, wl, |file|), Follow(fetch1, first1, wl, |file|);
      && NUM_STREAMS * HeaderLen(wl) + Weight(fetch0, first0, wl, |file|) + Weight(fetch1, first1, wl, |file|)
         == Written(codec, p, wl).curPos
      && (if ControlEnds(p) then Follows(list0, codec, Contents(p.jobs, 0)) else list0.Broken?)
      && Follows(list1, codec, Contents(p.jobs, 1)) && list1.Listed?
      && (EndsEmpty(fetch1, first1, |file|) <==> |Contents(p.jobs, 1)| % p.bufsize == 0)
      && (|Contents(p.jobs, 1)| % p.bufsize == 0 ==>
            && (list1.data == [] || p.bufsize >= maxRam ==> AllAtLeast(list1.data, maxRam))
            && (p.bufsize < maxRam ==> AllBelow(list1.data, maxRam))
            && (list1.data == [] <==> Contents(p.jobs, 1) == []))
  {
    hide Contents, Encodes, JobsFit, JobsOk, Honest, Follow, Weight, EndsEmpty, FetchBlock, FirstLink, PackAll, WriteAll,
      ListsOf, JobsOf, TotalLen, AllTake, AllBelow, AllAtLeast, Deliver;
    var all := PackAll(codec, p.jobs);
    PackedOk(codec, p.jobs);
    StreamStarts(codec, p.jobs, p.bufsize, 0, file, trailer, wl, maxRam);
    StreamStarts(codec, p.jobs, p.bufsize, 1, file, trailer, wl, maxRam);
    WriterLength(all, wl);
    StreamsSplitLength(all, wl);
    if |Contents(p.jobs, 1)| % p.bufsize == 0 {
      TakenAlike(Follow(Fetcher(file, wl, 1, maxRam), FirstLink(file, 1, wl).value, wl, |file|).data, p.bufsize, maxRam);
    }
  }

  /** Where a block is too large, a list breaks off, and what is counted stays below the whole. */
  lemma PartRefused(codec: Codec, p: Part, file: seq<byte>, trailer: seq<byte>, wl: nat, maxRam: nat)
    requires Intact(file, codec, p, wl, trailer) && !BlocksAccepted(p, maxRam)
    ensures FirstLink(file, 0, wl).Some? && FirstLink(file, 1, wl).Some? && Skipped(file, wl) == 0
    ensures var fetch0, fetch1 := Fetcher(file, wl, 0, maxRam), Fetcher(file, wl, 1, maxRam);
      var first0, first1 := FirstLink(file, 0, wl).value, FirstLink(file, 1, wl).value;
      && NUM_STREAMS * HeaderLen(wl) + Weight(fetch0, first0, wl, |file|) + Weight(fetch1, first1, wl, |file|)
         <= Written(codec, p, wl).curPos
      && (Follow(fetch0, first0, wl, |file|).Broken? || Follow(fetch1, first1, wl, |file|).Broken?)
  {
    hide Contents, Encodes, JobsFit, JobsOk, Honest, Follow, Weight, EndsEmpty, FetchBlock, FirstLink, PackAll, WriteAll,
      ListsOf, JobsOf, TotalLen, AllTake, Deliver, Follows, Accepted;
    var all := PackAll(codec, p.jobs);
    PackedOk(codec, p.jobs);
    forall k: nat | k < NUM_STREAMS
      ensures FirstLink(file, k, wl).Some? && Skipped(file, wl) == 0
      ensures Weight(Fetcher(file, wl, k, maxRam), FirstLink(file, k, wl).value, wl, |file|) <= TotalLen(JobsOf(all, k), wl)
      ensures !Accepted(StreamOut.BlocksOf(p.jobs, k), maxRam) ==>
        Follow(Fetcher(file, wl, k, maxRam), FirstLink(file, k, wl).value, wl, |file|).Broken?
    {
      if Accepted(StreamOut.BlocksOf(p.jobs, k), maxRam) {
        StreamStarts(codec, p.jobs, p.bufsize, k, file, trailer, wl, maxRam);
      } else {
        StreamRefused(codec, p.jobs, p.bufsize, k, file, trailer, wl, maxRam);
      }
    }
    WriterLength(all, wl);
    StreamsSplitLength(all, wl);
  }
}
