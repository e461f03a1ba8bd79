/** Reading back what the container's writer placed: each stream's list yields its own blocks, in
    order, and the two lists account for every byte of the file. */
module ContainerReading {
  import opened Bytes
  import opened Container
  import Bits

  function JobOf(b: Block): Job {
    Job(b.stream, b.ctype, b.ulen, b.payload)
  }

  /** The jobs of stream k, in order. */
  function JobsOf(jobs: seq<Job>, k: nat): seq<Job> {
    if jobs == [] then []
    else (if jobs[0].stream == k then [jobs[0]] else []) + JobsOf(jobs[1..], k)
  }

  /** The jobs of stream k that the blocks from i on came from. */
  function StreamJobs(blocks: seq<Block>, k: nat, i: nat): seq<Job>
    requires i <= |blocks|
    decreases |blocks| - i
  {
    if i == |blocks| then []
    else (if blocks[i].stream == k then [JobOf(blocks[i])] else []) + StreamJobs(blocks, k, i + 1)
  }

  lemma {:induction false} StreamJobsAre(blocks: seq<Block>, jobs: seq<Job>, k: nat, i: nat)
    requires |blocks| == NUM_STREAMS + |jobs| && i <= |jobs|
    requires forall x: nat | x < |jobs| :: JobOf(blocks[NUM_STREAMS + x]) == jobs[x]
    ensures StreamJobs(blocks, k, NUM_STREAMS + i) == JobsOf(jobs[i..], k)
    decreases |jobs| - i
  {
    if i < |jobs| {
      assert jobs[i..][1..] == jobs[i + 1..];
      StreamJobsAre(blocks, jobs, k, i + 1);
    }
  }

  lemma FileHoldsJobs(jobs: seq<Job>, wl: nat, k: nat)
    requires JobsOk(jobs)
    ensures var blocks := ListsOf(jobs, wl).blocks;
      |blocks| == NUM_STREAMS + |jobs| && StreamJobs(blocks, k, NUM_STREAMS) == JobsOf(jobs, k)
  {
    var blocks := ListsOf(jobs, wl).blocks;
    ListsAreJobs(jobs, wl);
    assert |Unlinked(blocks)| == NUM_STREAMS + |jobs|;
    forall x: nat | x < |jobs|
      ensures JobOf(blocks[NUM_STREAMS + x]) == jobs[x]
    {
      assert Unlinked(blocks)[NUM_STREAMS + x] == PlacedAll(jobs)[x];
    }
    StreamJobsAre(blocks, jobs, k, 0);
    assert jobs[0..] == jobs;
  }

  lemma {:induction false} NextOfFilters(blocks: seq<Block>, k: nat, i: nat)
    requires i <= |blocks|
    ensures var n := NextOf(blocks, k, i);
      StreamJobs(blocks, k, i) == if n == |blocks| then [] else [JobOf(blocks[n])] + StreamJobs(blocks, k, n + 1)
    decreases |blocks| - i
  {
    if i < |blocks| && blocks[i].stream != k {
      NextOfFilters(blocks, k, i + 1);
    }
  }

  // ---- Following the links ----

  ghost predicate AllFit(blocks: seq<Block>, wl: nat) {
    forall i | 0 <= i < |blocks| :: Fits(blocks[i], wl)
  }

  predicate EmptyJob(job: Job) {
    job.payload == [] && job.ulen == 0
  }

  predicate SoundJob(job: Job, maxRam: nat) {
    DataOk(job.ctype, |job.payload|, job.ulen, maxRam)
  }

  function DataOf(job: Job): Data {
    Data(job.ctype, job.ulen, job.payload)
  }

  function JobLen(job: Job, wl: nat): nat {
    HeaderLen(wl) + |job.payload|
  }

  /** What reading a list that holds these jobs comes to. */
  function ListingOf(jobs: seq<Job>, wl: nat, maxRam: nat): Listing
    requires jobs != []
  {
    var job := jobs[0];
    if |jobs| == 1 && EmptyJob(job) && job.stream == 1 then Listed([], HeaderLen(wl))
    else if !SoundJob(job, maxRam) then Broken
    else if |jobs| == 1 then Listed([DataOf(job)], JobLen(job, wl))
    else match ListingOf(jobs[1..], wl, maxRam)
      case Broken => Broken
      case Listed(rest, total) => Listed([DataOf(job)] + rest, JobLen(job, wl) + total)
  }

  /** The stream's next block behind block i, or the number of blocks. */
  function Successor(blocks: seq<Block>, i: nat): (n: nat)
    requires i < |blocks|
    ensures i < n <= |blocks|
  {
    NextOf(blocks, blocks[i].stream, i + 1)
  }

  /** The link a reader finds in block i leads to its successor exactly when that block's position
      fits in the field. */
  lemma LinkNamesSuccessor(blocks: seq<Block>, i: nat, wl: nat)
    requires i < |blocks| && Linked(blocks, wl) && Successor(blocks, i) < |blocks|
    ensures var pos := Offset(blocks, Successor(blocks, i), wl);
      Stored(blocks[i], wl).link == pos % Pow256(wl) && (Stored(blocks[i], wl).link == pos <==> pos < Pow256(wl))
  {
    assert blocks[i].link == LinkOf(blocks, i, wl);
    RemainderSame(Offset(blocks, Successor(blocks, i), wl), Pow256(wl));
  }

  /** The last block of a stream links to nothing, and so it stays. */
  lemma NoSuccessor(blocks: seq<Block>, i: nat, wl: nat)
    requires i < |blocks| && Linked(blocks, wl) && Successor(blocks, i) == |blocks|
    ensures blocks[i].link == 0 && Stored(blocks[i], wl).link == 0
  {
    assert blocks[i].link == LinkOf(blocks, i, wl);
    RemainderSame(0, Pow256(wl));
  }

  /** fetch finds the blocks of stream k as their headers announce them. */
  ghost predicate FetchesStream(fetch: nat -> Fetch, blocks: seq<Block>, k: nat, wl: nat, maxRam: nat) {
    forall i: nat {:trigger FetchesBlock(fetch, blocks, i, wl, maxRam)} | i < |blocks| && blocks[i].stream == k ::
      FetchesBlock(fetch, blocks, i, wl, maxRam)
  }

  ghost predicate FetchesBlock(fetch: nat -> Fetch, blocks: seq<Block>, i: nat, wl: nat, maxRam: nat)
    requires i < |blocks|
  {
    fetch(Offset(blocks, i, wl)) == FetchOf(Stored(blocks[i], wl), Offset(blocks, i, wl), maxRam)
  }

  lemma FileFetchesStream(blocks: seq<Block>, k: nat, trailer: seq<byte>, wl: nat, maxRam: nat)
    ensures FetchesStream(Fetcher(FileBytes(blocks, wl) + trailer, wl, k, maxRam), blocks, k, wl, maxRam)
  {
    hide FetchBlock, FetchOf;
    forall i: nat | i < |blocks| && blocks[i].stream == k
      ensures FetchesBlock(Fetcher(FileBytes(blocks, wl) + trailer, wl, k, maxRam), blocks, i, wl, maxRam)
    {
      FetchPlaced(blocks, i, trailer, wl, maxRam);
    }
  }

  /** A block in front of what follows it. */
  function Before(data: Data, len: nat, l: Listing): Listing {
    match l
    case Broken => Broken
    case Listed(rest, total) => Listed([data] + rest, len + total)
  }

  /** What following a list from block i comes to: the stream's own blocks, as announced, up to the
      first whose successor's position is too wide for a link. From there on it is whatever stands
      at the position that is left of it, or the end of the list if nothing is left. */
  ghost function Seen(fetch: nat -> Fetch, blocks: seq<Block>, i: nat, wl: nat, maxRam: nat, limit: nat): Listing
    requires i < |blocks|
    decreases |blocks| - i, 0
  {
    var n := Successor(blocks, i);
    match FetchOf(Stored(blocks[i], wl), Offset(blocks, i, wl), maxRam)
    case Invalid => Broken
    case EmptyTail => Listed([], HeaderLen(wl))
    case Fetched(ctype, ulen, payload, _) =>
      var data, len := Data(ctype, ulen, payload), HeaderLen(wl) + |payload|;
      if n == |blocks| || Offset(blocks, n, wl) % Pow256(wl) == 0 then Listed([data], len)
      else Before(data, len, SeenFrom(fetch, blocks, n, wl, maxRam, limit))
  }

  /** Where the link to block n leads. */
  ghost function SeenFrom(fetch: nat -> Fetch, blocks: seq<Block>, n: nat, wl: nat, maxRam: nat, limit: nat): Listing
    requires n < |blocks|
    decreases |blocks| - n, 1
  {
    if Offset(blocks, n, wl) < Pow256(wl) then Seen(fetch, blocks, n, wl, maxRam, limit)
    else Follow(fetch, Offset(blocks, n, wl) % Pow256(wl), wl, limit)
  }

  lemma {:induction false} ListIsFollowed(fetch: nat -> Fetch, blocks: seq<Block>, i: nat, wl: nat, maxRam: nat, limit: nat)
    requires i < |blocks| && Linked(blocks, wl) && FetchesStream(fetch, blocks, blocks[i].stream, wl, maxRam)
    requires Offset(blocks, |blocks|, wl) <= limit
    ensures Follow(fetch, Offset(blocks, i, wl), wl, limit) == Seen(fetch, blocks, i, wl, maxRam, limit)
    decreases |blocks| - i
  {
    hide Stored, DataOk;
    var n := Successor(blocks, i);
    assert FetchesBlock(fetch, blocks, i, wl, maxRam);
    OffsetGrows(blocks, i, |blocks|, wl);
    if n < |blocks| {
      LinkNamesSuccessor(blocks, i, wl);
      ListIsFollowed(fetch, blocks, n, wl, maxRam, limit);
    } else {
      NoSuccessor(blocks, i, wl);
    }
  }

  /** If every number fits, that is what the stream's own jobs come to. */
  lemma {:induction false} SeenIsListing(fetch: nat -> Fetch, blocks: seq<Block>, i: nat, wl: nat, maxRam: nat, limit: nat)
    requires i < |blocks| && Linked(blocks, wl) && AllFit(blocks, wl)
    ensures Seen(fetch, blocks, i, wl, maxRam, limit)
         == ListingOf([JobOf(blocks[i])] + StreamJobs(blocks, blocks[i].stream, i + 1), wl, maxRam)
    decreases |blocks| - i
  {
    hide Pow256, Offset, LinkOf, StreamJobs, NextOf, Stored, Fits;
    var n, k := Successor(blocks, i), blocks[i].stream;
    var rest := StreamJobs(blocks, k, i + 1);
    FitsAt(blocks, i, wl);
    StoredIsFaithful(blocks[i], wl);
    NextOfFilters(blocks, k, i + 1);
    assert ([JobOf(blocks[i])] + rest)[1..] == rest;
    LinkFits(blocks, i, wl);
    if n < |blocks| {
      SeenIsListing(fetch, blocks, n, wl, maxRam, limit);
    }
  }

  lemma LinkFits(blocks: seq<Block>, i: nat, wl: nat)
    requires i < |blocks| && Linked(blocks, wl) && Fits(blocks[i], wl)
    ensures var n := Successor(blocks, i);
      && (n == |blocks| ==> blocks[i].link == 0)
      && (n < |blocks| ==>
          blocks[i].link == Offset(blocks, n, wl) == Offset(blocks, n, wl) % Pow256(wl) < Pow256(wl)
          && Offset(blocks, n, wl) > Offset(blocks, i, wl))
  {
    var n := Successor(blocks, i);
    assert blocks[i].link == LinkOf(blocks, i, wl);
    if n < |blocks| {
      OffsetGrows(blocks, i, n, wl);
      RemainderSame(Offset(blocks, n, wl), Pow256(wl));
    }
  }

  /** open_stream_in and then fill_buffer until the stream ends: `first` is the link in the
      stream's initial header. */
  function ReadFrom(first: Option<nat>, fetch: nat -> Fetch, wl: nat, limit: nat): Listing {
    match first
    case None => Broken
    case Some(pos) =>
      match Follow(fetch, pos, wl, limit)
      case Broken => Broken
      case Listed(data, total) => Listed(data, HeaderLen(wl) + total)
  }

  /** The stream close workaround: initial headers of stream 0 that lead nowhere are skipped, and the
      container is taken to start behind them. */
  function Skipped(file: seq<byte>, wl: nat): (n: nat)
    ensures n <= |file| && (n == 0 <==> FirstLink(file, 0, wl) != Some(0))
    decreases |file|
  {
    if FirstLink(file, 0, wl) == Some(0) then HeaderLen(wl) + Skipped(file[HeaderLen(wl)..], wl) else 0
  }

  function ReadStream(file: seq<byte>, stream: nat, wl: nat, maxRam: nat): Listing {
    var rest := file[Skipped(file, wl)..];
    ReadFrom(FirstLink(rest, stream, wl), Fetcher(rest, wl, stream, maxRam), wl, |rest|)
  }

  function WithHeader(l: Listing, wl: nat): Listing {
    match l
    case Broken => Broken
    case Listed(data, total) => Listed(data, HeaderLen(wl) + total)
  }

  /** open_stream_in reads the low bytes of the first block's position. */
  lemma FirstLinkPlaced(blocks: seq<Block>, k: nat, trailer: seq<byte>, wl: nat)
    requires StartsWithHeaders(blocks) && k < NUM_STREAMS
    ensures FirstLink(FileBytes(blocks, wl) + trailer, k, wl) == Some(blocks[k].link % Pow256(wl))
  {
    hide FromLE, BlockBytes, FileBytes, Pow256;
    var before, after := FileBytes(blocks[..k], wl), FileBytes(blocks[k + 1..], wl);
    assert |before| == k * HeaderLen(wl) by {
      OffsetIsLength(blocks, k, wl);
      assert Offset(blocks[1..], 0, wl) == 0;
    }
    FileSplit(blocks, k, wl);
    Associate(before + BlockBytes(blocks[k], wl), after, trailer);
    HeaderFields(before, blocks[k], after + trailer, wl);
    RemainderSame(0, Pow256(wl));
  }

  /** Both streams have blocks, as close_stream_out sees to. */
  predicate BothStreams(jobs: seq<Job>) {
    JobsOf(jobs, 0) != [] && JobsOf(jobs, 1) != []
  }

  lemma StreamIsSeen(jobs: seq<Job>, k: nat, trailer: seq<byte>, wl: nat, maxRam: nat)
    requires JobsOk(jobs) && k < NUM_STREAMS && BothStreams(jobs)
    ensures var file, blocks := WriteAll(jobs, wl).file + trailer, ListsOf(jobs, wl).blocks;
      && Successor(blocks, 0) < |blocks| && Successor(blocks, k) < |blocks|
      && (Skipped(file, wl) == 0 <==> Offset(blocks, Successor(blocks, 0), wl) % Pow256(wl) != 0)
      && (Skipped(file, wl) == 0 ==>
          ReadStream(file, k, wl, maxRam)
          == WithHeader(SeenFrom(Fetcher(file, wl, k, maxRam), blocks, Successor(blocks, k), wl, maxRam, |file|), wl))
  {
    hide FetchBlock, FirstLink, Pow256, JobsOf, WriteAll, ListsOf, Skipped;
    var w, blocks := WriteAll(jobs, wl), ListsOf(jobs, wl).blocks;
    var file := w.file + trailer;
    FileHoldsJobs(jobs, wl, 0);
    FileHoldsJobs(jobs, wl, k);
    WriteAllHolds(jobs, wl);
    FirstLinkPlaced(blocks, 0, trailer, wl);
    FirstLinkPlaced(blocks, k, trailer, wl);
    FileFetchesStream(blocks, k, trailer, wl, maxRam);
    OffsetOfEnd(blocks, wl);
    HeadLeadsToStream(blocks, 0, wl);
    HeadLeadsToStream(blocks, k, wl);
    assert file[0..] == file;
    HeldIsFollowed(Fetcher(file, wl, k, maxRam), blocks, k, wl, maxRam, |file|);
  }

  lemma HeldIsFollowed(fetch: nat -> Fetch, blocks: seq<Block>, k: nat, wl: nat, maxRam: nat, limit: nat)
    requires k < |blocks| && Linked(blocks, wl) && FetchesStream(fetch, blocks, k, wl, maxRam)
    requires var n := Successor(blocks, k); n < |blocks| && blocks[n].stream == k && blocks[k].link == Offset(blocks, n, wl)
    requires Offset(blocks, |blocks|, wl) <= limit
    ensures Follow(fetch, blocks[k].link % Pow256(wl), wl, limit)
         == SeenFrom(fetch, blocks, Successor(blocks, k), wl, maxRam, limit)
  {
    hide Pow256, Seen;
    var n := Successor(blocks, k);
    RemainderSame(Offset(blocks, n, wl), Pow256(wl));
    ListIsFollowed(fetch, blocks, n, wl, maxRam, limit);
  }

  /** In every order of writing and for every width of the fields: reading a stream follows its own
      blocks up to the first position that does not fit, and goes on wherever the link then leads,
      unless nothing is left of stream 0's first position and the workaround skips its header. If
      every number fits, reading gives exactly what the stream's own jobs give, whatever the other
      stream's blocks are and whatever follows in the file. */
  lemma StreamIsRead(jobs: seq<Job>, k: nat, trailer: seq<byte>, wl: nat, maxRam: nat)
    requires JobsOk(jobs) && k < NUM_STREAMS && BothStreams(jobs)
    ensures var file, blocks := WriteAll(jobs, wl).file + trailer, ListsOf(jobs, wl).blocks;
      && Successor(blocks, 0) < |blocks| && Successor(blocks, k) < |blocks|
      && (Skipped(file, wl) == 0 <==> Offset(blocks, Successor(blocks, 0), wl) % Pow256(wl) != 0)
      && (Skipped(file, wl) == 0 ==>
          ReadStream(file, k, wl, maxRam)
          == WithHeader(SeenFrom(Fetcher(file, wl, k, maxRam), blocks, Successor(blocks, k), wl, maxRam, |file|), wl))
    ensures JobsFit(jobs, wl) ==>
      && Skipped(WriteAll(jobs, wl).file + trailer, wl) == 0
      && ReadStream(WriteAll(jobs, wl).file + trailer, k, wl, maxRam) == WithHeader(ListingOf(JobsOf(jobs, k), wl, maxRam), wl)
  {
    hide FetchBlock, Pow256, JobsFit, AllFit, Seen, ReadStream, Skipped, ListingOf, WriteAll, ListsOf, JobsOf;
    StreamIsSeen(jobs, k, trailer, wl, maxRam);
    if JobsFit(jobs, wl) {
      var blocks, file := ListsOf(jobs, wl).blocks, WriteAll(jobs, wl).file + trailer;
      AllFitIsJobsFit(jobs, wl);
      FileHoldsJobs(jobs, wl, k);
      WriteAllHolds(jobs, wl);
      HeadLeadsToStream(blocks, k, wl);
      SeenIsListing(Fetcher(file, wl, k, maxRam), blocks, Successor(blocks, k), wl, maxRam, |file|);
      FitsAt(blocks, 0, wl);
      FitsAt(blocks, k, wl);
      LinkFits(blocks, 0, wl);
      LinkFits(blocks, k, wl);
    }
  }

  lemma FitsAt(blocks: seq<Block>, i: nat, wl: nat)
    requires AllFit(blocks, wl) && i < |blocks|
    ensures Fits(blocks[i], wl)
  {
  }

  lemma HeadLeadsToStream(blocks: seq<Block>, k: nat, wl: nat)
    requires StartsWithHeaders(blocks) && Linked(blocks, wl) && k < NUM_STREAMS
    requires StreamJobs(blocks, k, NUM_STREAMS) != []
    ensures var n := Successor(blocks, k);
      && n < |blocks| && blocks[n].stream == k && blocks[k].link == Offset(blocks, n, wl)
      && StreamJobs(blocks, k, NUM_STREAMS) == [JobOf(blocks[n])] + StreamJobs(blocks, k, n + 1)
  {
    NextOfFilters(blocks, k, NUM_STREAMS);
    assert NextOf(blocks, k, NUM_STREAMS) == NextOf(blocks, k, k + 1) by {
      assert k == 0 ==> blocks[1].stream != 0;
    }
    assert blocks[k].link == LinkOf(blocks, k, wl);
  }

  // ---- When every number fits ----

  /** Every length fits in its field, and so does the position of the last block written: all that
      has to be known before the file is written. */
  predicate JobsFit(jobs: seq<Job>, wl: nat) {
    && (forall i | 0 <= i < |jobs| :: SizesFit(jobs[i], wl))
    && (jobs != [] ==> NUM_STREAMS * HeaderLen(wl) + TotalLen(jobs[..|jobs| - 1], wl) < Pow256(wl))
  }

  predicate SizesFit(job: Job, wl: nat) {
    |job.payload| < Pow256(wl) && job.ulen < Pow256(wl)
  }

  /** Exactly then no number of the file is truncated. */
  lemma AllFitIsJobsFit(jobs: seq<Job>, wl: nat)
    requires JobsOk(jobs)
    ensures AllFit(ListsOf(jobs, wl).blocks, wl) <==> JobsFit(jobs, wl)
  {
    hide Pow256, TotalLen;
    var blocks := ListsOf(jobs, wl).blocks;
    ListsAreJobs(jobs, wl);
    WriteAllHolds(jobs, wl);
    if jobs != [] {
      LastPosition(jobs, wl);
    }
    if AllFit(blocks, wl) {
      forall i | 0 <= i < |jobs|
        ensures SizesFit(jobs[i], wl)
      {
        BlockOfJob(jobs, blocks, i);
        FitsAt(blocks, NUM_STREAMS + i, wl);
      }
    }
    if jobs != [] && JobsFit(jobs, wl) {
      forall i: nat | i < |blocks|
        ensures Fits(blocks[i], wl)
      {
        BlockFits(jobs, blocks, i, wl);
      }
    }
  }

  lemma BlockOfJob(jobs: seq<Job>, blocks: seq<Block>, i: nat)
    requires Unlinked(blocks) == [InitialBlock(0), InitialBlock(1)] + PlacedAll(jobs) && i < |jobs|
    ensures |blocks| == NUM_STREAMS + |jobs| && JobOf(blocks[NUM_STREAMS + i]) == jobs[i]
  {
    assert Unlinked(blocks)[NUM_STREAMS + i] == PlacedAll(jobs)[i];
  }

  /** The last block stands behind all the others, and some link leads to it. */
  lemma LastPosition(jobs: seq<Job>, wl: nat)
    requires JobsOk(jobs) && jobs != []
    ensures var blocks := ListsOf(jobs, wl).blocks;
      && Offset(blocks, |blocks| - 1, wl) == NUM_STREAMS * HeaderLen(wl) + TotalLen(jobs[..|jobs| - 1], wl)
      && exists i :: 0 <= i < |blocks| && blocks[i].link == Offset(blocks, |blocks| - 1, wl)
  {
    var earlier, job := jobs[..|jobs| - 1], jobs[|jobs| - 1];
    var l := ListsOf(earlier, wl);
    RelinkOffsets(l.blocks, l.last[job.stream], job, wl, |l.blocks|);
    WriteAllHolds(earlier, wl);
    OffsetOfEnd(l.blocks, wl);
    WriterLength(earlier, wl);
    assert ListsOf(jobs, wl).blocks[l.last[job.stream]].link == Offset(l.blocks, |l.blocks|, wl);
  }

  lemma LinksBefore(blocks: seq<Block>, i: nat, wl: nat)
    requires i < |blocks| && Linked(blocks, wl)
    ensures blocks[i].link == 0 || blocks[i].link <= Offset(blocks, |blocks| - 1, wl)
  {
    var n := Successor(blocks, i);
    assert blocks[i].link == LinkOf(blocks, i, wl);
    if n < |blocks| - 1 {
      OffsetGrows(blocks, n, |blocks| - 1, wl);
    }
  }

  lemma BlockFits(jobs: seq<Job>, blocks: seq<Block>, i: nat, wl: nat)
    requires i < |blocks| && Linked(blocks, wl) && jobs != []
    requires Unlinked(blocks) == [InitialBlock(0), InitialBlock(1)] + PlacedAll(jobs)
    requires forall x | 0 <= x < |jobs| :: SizesFit(jobs[x], wl)
    requires Offset(blocks, |blocks| - 1, wl) < Pow256(wl)
    ensures Fits(blocks[i], wl)
  {
    hide Pow256;
    LinksBefore(blocks, i, wl);
    assert |Unlinked(blocks)| == |blocks|;
    if i >= NUM_STREAMS {
      BlockOfJob(jobs, blocks, i - NUM_STREAMS);
    } else {
      assert Unlinked(blocks)[i] == InitialBlock(i);
    }
  }

  // ---- When a number does not fit ----

  lemma {:induction false} SeenBroken(fetch: nat -> Fetch, blocks: seq<Block>, j: nat, i: nat, wl: nat, maxRam: nat, limit: nat)
    requires Linked(blocks, wl) && j <= i < |blocks| && blocks[j].stream == blocks[i].stream
    requires Successor(blocks, i) < |blocks|
    requires Offset(blocks, i, wl) < Pow256(wl) < Offset(blocks, Successor(blocks, i), wl) <= Offset(blocks, i, wl) + Pow256(wl)
    ensures Seen(fetch, blocks, j, wl, maxRam, limit) == Broken
    decreases i - j
  {
    hide Pow256, Offset, DataOk, LinkOf;
    var n := Successor(blocks, j);
    LinkNamesSuccessor(blocks, j, wl);
    OffsetGrows(blocks, j, n, wl);
    if j < i {
      if n < i {
        OffsetGrows(blocks, n, i, wl);
      }
      SeenBroken(fetch, blocks, n, i, wl, maxRam, limit);
      RemainderSame(Offset(blocks, n, wl), Pow256(wl));
    } else {
      Bits.ModUnique(Offset(blocks, n, wl), Pow256(wl), 1, Offset(blocks, n, wl) - Pow256(wl));
    }
  }

  /** A link that is truncated to a position not behind its own block makes the whole stream
      unreadable: that is so of every first position that does not fit, if the block is no further
      from its predecessor than the field is wide and does not start exactly at its limit. */
  lemma BackwardLinkBreaks(jobs: seq<Job>, i: nat, trailer: seq<byte>, wl: nat, maxRam: nat)
    requires JobsOk(jobs) && i < |jobs| && BothStreams(jobs)
    requires var blocks, b := ListsOf(jobs, wl).blocks, NUM_STREAMS + i;
      && |blocks| == NUM_STREAMS + |jobs| && Successor(blocks, b) < |blocks|
      && Offset(blocks, b, wl) < Pow256(wl) < Offset(blocks, Successor(blocks, b), wl) <= Offset(blocks, b, wl) + Pow256(wl)
    ensures var file := WriteAll(jobs, wl).file + trailer;
      Skipped(file, wl) == 0 ==> ReadStream(file, jobs[i].stream, wl, maxRam) == Broken
    ensures jobs[i].stream == 0 ==> Skipped(WriteAll(jobs, wl).file + trailer, wl) == 0
  {
    hide FetchBlock, Pow256, Seen, ReadStream, Skipped, Offset, WriteAll, ListsOf, JobsOf;
    var k, b, blocks, file := jobs[i].stream, NUM_STREAMS + i, ListsOf(jobs, wl).blocks, WriteAll(jobs, wl).file + trailer;
    ListsAreJobs(jobs, wl);
    WriteAllHolds(jobs, wl);
    BlockOfJob(jobs, blocks, i);
    FileHoldsJobs(jobs, wl, k);
    StreamIsSeen(jobs, k, trailer, wl, maxRam);
    var n := Successor(blocks, k);
    if n < b {
      OffsetGrows(blocks, n, b, wl);
    }
    OffsetGrows(blocks, k, n, wl);
    RemainderSame(Offset(blocks, n, wl), Pow256(wl));
    SeenBroken(Fetcher(file, wl, k, maxRam), blocks, n, b, wl, maxRam, |file|);
  }

  // ---- When a stream can be read back ----

  /** Every block but the last is sound, and the last is sound or empty: what the streams'
      buffers dispatch. */
  predicate Readable(jobs: seq<Job>, maxRam: nat) {
    && jobs != []
    && (forall i | 0 <= i < |jobs| - 1 :: SoundJob(jobs[i], maxRam))
    && (SoundJob(jobs[|jobs| - 1], maxRam) || EmptyJob(jobs[|jobs| - 1]))
  }

  function DropEmptyLast(jobs: seq<Job>): seq<Job>
    requires jobs != []
  {
    if EmptyJob(jobs[|jobs| - 1]) then jobs[..|jobs| - 1] else jobs
  }

  function DataSeq(jobs: seq<Job>): seq<Data> {
    seq(|jobs|, i requires 0 <= i < |jobs| => DataOf(jobs[i]))
  }

  function TotalLen(jobs: seq<Job>, wl: nat): nat {
    if jobs == [] then 0 else JobLen(jobs[0], wl) + TotalLen(jobs[1..], wl)
  }

  lemma DataOfMore(jobs: seq<Job>)
    requires |jobs| > 1
    ensures DataSeq(DropEmptyLast(jobs)) == [DataOf(jobs[0])] + DataSeq(DropEmptyLast(jobs[1..]))
  {
    hide EmptyJob, DataOf;
    var rest, n := jobs[1..], |jobs| - 1;
    assert rest[n - 1] == jobs[n];
    if EmptyJob(jobs[n]) {
      assert rest[..n - 1] == jobs[..n][1..];
    }
  }

  /** A stream whose blocks are as the buffers dispatch them is read back completely, unless it
      is stream 0 and its last block is empty: then reading it fails. */
  lemma {:induction false} ListingComplete(jobs: seq<Job>, k: nat, wl: nat, maxRam: nat)
    requires Readable(jobs, maxRam) && forall i | 0 <= i < |jobs| :: jobs[i].stream == k
    ensures ListingOf(jobs, wl, maxRam) ==
      if EmptyJob(jobs[|jobs| - 1]) && k != 1 then Broken
      else Listed(DataSeq(DropEmptyLast(jobs)), TotalLen(jobs, wl))
    decreases |jobs|
  {
    if |jobs| > 1 {
      var rest := jobs[1..];
      assert rest[|rest| - 1] == jobs[|jobs| - 1];
      ListingComplete(rest, k, wl, maxRam);
      assert SoundJob(jobs[0], maxRam);
      DataOfMore(jobs);
    } else {
      assert jobs[1..] == [];
      if !EmptyJob(jobs[0]) {
        assert DataSeq(jobs) == [DataOf(jobs[0])];
      }
    }
  }

  // ---- Every byte is accounted for ----

  lemma {:induction false} TotalLenPush(jobs: seq<Job>, job: Job, wl: nat)
    ensures TotalLen(jobs + [job], wl) == TotalLen(jobs, wl) + JobLen(job, wl)
    decreases |jobs|
  {
    if jobs == [] {
      assert (jobs + [job])[1..] == [];
    } else {
      assert (jobs + [job])[1..] == jobs[1..] + [job];
      TotalLenPush(jobs[1..], job, wl);
    }
  }

  lemma {:induction false} WriterLength(jobs: seq<Job>, wl: nat)
    requires JobsOk(jobs)
    ensures WriteAll(jobs, wl).curPos == NUM_STREAMS * HeaderLen(wl) + TotalLen(jobs, wl)
    decreases |jobs|
  {
    if jobs != [] {
      var earlier, job := jobs[..|jobs| - 1], jobs[|jobs| - 1];
      WriterLength(earlier, wl);
      TotalLenPush(earlier, job, wl);
      assert jobs == earlier + [job];
      assert WriteAll(jobs, wl) == WriteBlock(WriteAll(earlier, wl), job, wl) by {
        WriteAllHolds(earlier, wl);
        WriteBlockHolds(WriteAll(earlier, wl), ListsOf(earlier, wl).blocks, ListsOf(earlier, wl).last, job, wl);
      }
    }
  }

  lemma {:induction false} StreamsSplitLength(jobs: seq<Job>, wl: nat)
    requires JobsOk(jobs)
    ensures TotalLen(JobsOf(jobs, 0), wl) + TotalLen(JobsOf(jobs, 1), wl) == TotalLen(jobs, wl)
  {
    if jobs != [] {
      var rest := jobs[1..];
      StreamsSplitLength(rest, wl);
      assert jobs[0].stream < NUM_STREAMS;
      if jobs[0].stream == 0 {
        assert JobsOf(jobs, 0)[1..] == JobsOf(rest, 0) && JobsOf(jobs, 1) == JobsOf(rest, 1);
      } else {
        assert JobsOf(jobs, 1)[1..] == JobsOf(rest, 1) && JobsOf(jobs, 0) == JobsOf(rest, 0);
      }
    }
  }

  lemma {:induction false} JobsOfStream(jobs: seq<Job>, k: nat)
    ensures forall i | 0 <= i < |JobsOf(jobs, k)| :: JobsOf(jobs, k)[i].stream == k
  {
    if jobs != [] {
      JobsOfStream(jobs[1..], k);
    }
  }

  /** What a complete reading of stream k comes to. */
  function Whole(jobs: seq<Job>, k: nat, wl: nat): Listing
    requires JobsOf(jobs, k) != []
  {
    Listed(DataSeq(DropEmptyLast(JobsOf(jobs, k))), HeaderLen(wl) + TotalLen(JobsOf(jobs, k), wl))
  }

  /** The container round trip, for every interleaving of the two streams' blocks and whatever
      follows in the file: if every number fits, stream 1 is always read back, stream 0 exactly
      when its last block is not empty, and the two readings then end where the writer ended. */
  lemma ContainerRoundTrip(jobs: seq<Job>, trailer: seq<byte>, wl: nat, maxRam: nat)
    requires JobsOk(jobs)
    requires Readable(JobsOf(jobs, 0), maxRam) && Readable(JobsOf(jobs, 1), maxRam)
    ensures var file, mine := WriteAll(jobs, wl).file + trailer, JobsOf(jobs, 0);
      JobsFit(jobs, wl) ==>
        && ReadStream(file, 1, wl, maxRam) == Whole(jobs, 1, wl)
        && ReadStream(file, 0, wl, maxRam) == (if EmptyJob(mine[|mine| - 1]) then Broken else Whole(jobs, 0, wl))
    ensures Whole(jobs, 0, wl).totalRead + Whole(jobs, 1, wl).totalRead == WriteAll(jobs, wl).curPos
  {
    hide FetchBlock, ListingOf, WriteAll, ListsOf, JobsFit, EmptyJob, SoundJob, ReadStream, JobsOk, SeenFrom;
    JobsOfStream(jobs, 0);
    JobsOfStream(jobs, 1);
    StreamIsRead(jobs, 0, trailer, wl, maxRam);
    StreamIsRead(jobs, 1, trailer, wl, maxRam);
    ListingComplete(JobsOf(jobs, 0), 0, wl, maxRam);
    ListingComplete(JobsOf(jobs, 1), 1, wl, maxRam);
    WriterLength(jobs, wl);
    StreamsSplitLength(jobs, wl);
  }

  /** That is so for every container no longer than its own field width allows. */
  lemma ShortFileFits(jobs: seq<Job>, wl: nat)
    requires JobsOk(jobs) && WriteAll(jobs, wl).curPos <= Pow256(wl)
    requires forall i | 0 <= i < |jobs| :: jobs[i].ulen < Pow256(wl)
    ensures JobsFit(jobs, wl)
  {
    WriterLength(jobs, wl);
    forall i | 0 <= i < |jobs|
      ensures SizesFit(jobs[i], wl)
    {
      PartOfTotal(jobs, i, wl);
    }
    if jobs != [] {
      var last := jobs[|jobs| - 1];
      TotalLenPush(jobs[..|jobs| - 1], last, wl);
      assert jobs == jobs[..|jobs| - 1] + [last];
    }
  }

  lemma {:induction false} PartOfTotal(jobs: seq<Job>, i: nat, wl: nat)
    requires i < |jobs|
    ensures JobLen(jobs[i], wl) <= TotalLen(jobs, wl)
  {
    if i > 0 {
      PartOfTotal(jobs[1..], i - 1, wl);
    }
  }
}
