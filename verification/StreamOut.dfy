/** The writer's side of the two streams: bytes collect in one buffer per stream, and a buffer
    that is full is dispatched as a job for a compression thread. */
module StreamOut {
  import opened Bits
  import opened Bytes
  import Container

  /** The least buffer for a large chunk. */
  const STREAM_BUFSIZE := 1024 * 1024 * 10

  /** Division as in C, towards zero. */
  function Quotient(a: int, b: nat): int
    requires b > 0
  {
    if a >= 0 then a / b else -(-a / b)
  }

  /** What each of so many threads leaves for the buffers. */
  function ShareOf(threads: nat, usableRam: nat, overhead: nat, noCompress: bool): int {
    Quotient(usableRam - overhead * threads, if noCompress then 1 else 2)
  }

  /** Memory for two buffers of the chunk's size, or one, leaves a share of that size, and only then. */
  lemma ShareSuffices(chunkLimit: nat, usableRam: nat, used: nat, testbufs: nat)
    requires chunkLimit >= 1 && (testbufs == 1 || testbufs == 2)
    ensures chunkLimit * testbufs + used <= usableRam <==> Quotient(usableRam - used, testbufs) >= chunkLimit
  {
  }

  /** open_stream_out: the buffer is the whole chunk, and at least a page, if memory and the number
      of threads allow; it is cut down to what each thread can have, but never below 10 MB. */
  method BufferSize(chunkSize: nat, page: nat, threads: nat, usableRam: nat, overhead: nat, noCompress: bool)
    returns (bufsize: nat, threadsLeft: nat)
    requires threads >= 1 && page >= 1
    ensures 1 <= threadsLeft <= threads
    ensures Min(STREAM_BUFSIZE, Max(chunkSize, page)) <= bufsize <= Max(chunkSize, page)
    ensures var enough, share := Min(STREAM_BUFSIZE, Max(chunkSize, page)), ShareOf(threadsLeft, usableRam, overhead, noCompress);
      && (threadsLeft == 1 || share >= enough)
      && (forall t | threadsLeft < t <= threads :: ShareOf(t, usableRam, overhead, noCompress) < enough)
      && var limit := Min(Max(share, STREAM_BUFSIZE), Max(chunkSize, page));
         bufsize == Min(limit, Max((limit + threadsLeft - 1) / threadsLeft, STREAM_BUFSIZE))
    ensures Max(chunkSize, page) * 2 + overhead * threads <= usableRam ==>
      && threadsLeft == threads
      && bufsize == Min(Max(chunkSize, page), Max((Max(chunkSize, page) + threads - 1) / threads, STREAM_BUFSIZE))
  {
    var chunkLimit := Max(chunkSize, page);
    var limit := chunkLimit;
    var testbufs := if noCompress then 1 else 2;
    threadsLeft := threads;
    ghost var enough := Min(STREAM_BUFSIZE, chunkLimit);
    ShareSuffices(chunkLimit, usableRam, overhead * threads, testbufs);
    if limit * testbufs + overhead * threadsLeft > usableRam {
      limit := Quotient(usableRam - overhead * threadsLeft, testbufs);
    }
    while limit < STREAM_BUFSIZE && limit < chunkLimit && threadsLeft > 1
      invariant 1 <= threadsLeft <= threads
      invariant limit == Min(ShareOf(threadsLeft, usableRam, overhead, noCompress), chunkLimit)
      invariant forall t | threadsLeft < t <= threads :: ShareOf(t, usableRam, overhead, noCompress) < enough
      invariant chunkLimit * 2 + overhead * threads <= usableRam ==> limit == chunkLimit && threadsLeft == threads
      decreases threadsLeft
    {
      threadsLeft := threadsLeft - 1;
      limit := Min(Quotient(usableRam - overhead * threadsLeft, testbufs), chunkLimit);
    }
    limit := Min(Max(limit, STREAM_BUFSIZE), chunkLimit);
    bufsize := Min(limit, Max((limit + threadsLeft - 1) / threadsLeft, STREAM_BUFSIZE));
  }

  datatype Job = Job(stream: nat, data: seq<byte>)

  /** The blocks dispatched for stream k, in order. */
  function BlocksOf(jobs: seq<Job>, k: nat): seq<seq<byte>> {
    if jobs == [] then []
    else (if jobs[0].stream == k then [jobs[0].data] else []) + BlocksOf(jobs[1..], k)
  }

  lemma {:induction false} BlocksOfPush(jobs: seq<Job>, job: Job, k: nat)
    ensures BlocksOf(jobs + [job], k) ==
      if job.stream == k then BlocksOf(jobs, k) + [job.data] else BlocksOf(jobs, k)
    decreases |jobs|
  {
    if jobs == [] {
      assert (jobs + [job])[1..] == [];
    } else {
      assert (jobs + [job])[1..] == jobs[1..] + [job];
      BlocksOfPush(jobs[1..], job, k);
    }
  }

  ghost predicate AllFull(blocks: seq<seq<byte>>, bufsize: nat) {
    forall i | 0 <= i < |blocks| :: |blocks[i]| == bufsize
  }

  /** Data cut into full blocks and one shorter, possibly empty, last block. */
  ghost predicate CutInto(data: seq<byte>, blocks: seq<seq<byte>>, bufsize: nat) {
    && |blocks| > 0
    && Flat(blocks) == data
    && AllFull(blocks[..|blocks| - 1], bufsize)
    && |blocks[|blocks| - 1]| < bufsize
  }

  lemma {:induction false} FlatOfFull(blocks: seq<seq<byte>>, bufsize: nat)
    requires AllFull(blocks, bufsize)
    ensures |Flat(blocks)| == |blocks| * bufsize
  {
    if blocks != [] {
      FlatOfFull(blocks[1..], bufsize);
    }
  }

  /** The last block is empty exactly when the data fills its buffers without remainder. */
  lemma LastBlockEmpty(data: seq<byte>, blocks: seq<seq<byte>>, bufsize: nat)
    requires bufsize > 0 && CutInto(data, blocks, bufsize)
    ensures blocks[|blocks| - 1] == [] <==> |data| % bufsize == 0
  {
    var full, last := blocks[..|blocks| - 1], blocks[|blocks| - 1];
    assert blocks == full + [last];
    FlatPush(full, last);
    FlatOfFull(full, bufsize);
    ModUnique(|data|, bufsize, |full|, |last|);
  }

  ghost predicate OnStreams(jobs: seq<Job>) {
    forall i | 0 <= i < |jobs| :: jobs[i].stream < Container.NUM_STREAMS
  }

  class StreamInfo {
    const bufsize: nat
    var bufs: seq<seq<byte>>
    var jobs: seq<Job>

    ghost predicate Valid()
      reads this
    {
      && bufsize > 0
      && |bufs| == Container.NUM_STREAMS && OnStreams(jobs)
      && forall k: nat | k < Container.NUM_STREAMS :: |bufs[k]| < bufsize && AllFull(BlocksOf(jobs, k), bufsize)
    }

    /** Everything written to stream k so far. */
    ghost function Written(k: nat): seq<byte>
      requires k < |bufs|
      reads this
    {
      Flat(BlocksOf(jobs, k)) + bufs[k]
    }

    constructor (bufsize: nat)
      requires bufsize > 0
      ensures Valid() && this.bufsize == bufsize && jobs == []
      ensures Written(0) == [] && Written(1) == []
    {
      this.bufsize := bufsize;
      bufs := [[], []];
      jobs := [];
    }

    /** Hand the buffer of stream k to the next thread. */
    method ClearBuffer(k: nat)
      requires k < |bufs|
      modifies this
      ensures jobs == old(jobs) + [Job(k, old(bufs)[k])]
      ensures bufs == old(bufs)[k := []]
    {
      jobs := jobs + [Job(k, bufs[k])];
      bufs := bufs[k := []];
    }

    method Flush(k: nat)
      requires k < |bufs| == Container.NUM_STREAMS && bufsize > 0
      requires forall i: nat | i < Container.NUM_STREAMS :: AllFull(BlocksOf(jobs, i), bufsize) && (i != k ==> |bufs[i]| < bufsize)
      requires |bufs[k]| == bufsize && OnStreams(jobs)
      modifies this
      ensures Valid()
      ensures forall i: nat | i < Container.NUM_STREAMS :: Written(i) == old(Written(i))
    {
      ghost var was, job := jobs, Job(k, bufs[k]);
      ClearBuffer(k);
      forall i: nat | i < Container.NUM_STREAMS
        ensures AllFull(BlocksOf(jobs, i), bufsize)
        ensures Flat(BlocksOf(jobs, i)) == Flat(BlocksOf(was, i)) + (if i == k then job.data else [])
      {
        BlocksOfPush(was, job, i);
        FlatPush(BlocksOf(was, i), job.data);
      }
    }

    method WriteStream(k: nat, p: seq<byte>)
      requires Valid() && k < Container.NUM_STREAMS
      modifies this
      ensures Valid()
      ensures Written(k) == old(Written(k)) + p
      ensures forall i: nat | i < Container.NUM_STREAMS && i != k :: Written(i) == old(Written(i))
    {
      hide BlocksOf, Flat, AllFull;
      var done := 0;
      while done < |p|
        invariant 0 <= done <= |p| && Valid()
        invariant Written(k) == old(Written(k)) + p[..done]
        invariant forall i: nat | i < Container.NUM_STREAMS && i != k :: Written(i) == old(Written(i))
      {
        var room := bufsize - |bufs[k]|;
        var n := if room < |p| - done then room else |p| - done;
        ghost var before, piece := Written(k), p[done..done + n];
        bufs := bufs[k := bufs[k] + p[done..done + n]];
        assert Written(k) == before + piece;
        assert p[..done + n] == p[..done] + piece;
        done := done + n;
        if |bufs[k]| == bufsize {
          Flush(k);
        }
      }
      assert p[..done] == p;
    }

    /** Dispatch what is left in each buffer, even when that is nothing. */
    method CloseStreamOut()
      requires Valid()
      modifies this
      ensures OnStreams(jobs)
      ensures forall k: nat | k < Container.NUM_STREAMS :: CutInto(old(Written(k)), BlocksOf(jobs, k), bufsize)
    {
      ghost var was, b0, b1 := jobs, bufs[0], bufs[1];
      ClearBuffer(0);
      ClearBuffer(1);
      forall k: nat | k < Container.NUM_STREAMS
        ensures BlocksOf(jobs, k) == BlocksOf(was, k) + [old(bufs)[k]]
      {
        BlocksOfPush(was, Job(0, b0), k);
        BlocksOfPush(was + [Job(0, b0)], Job(1, b1), k);
      }
      forall k: nat | k < Container.NUM_STREAMS
        ensures CutInto(old(Written(k)), BlocksOf(jobs, k), bufsize)
      {
        var last := old(bufs)[k];
        FlatPush(BlocksOf(was, k), last);
        assert BlocksOf(jobs, k)[..|BlocksOf(jobs, k)| - 1] == BlocksOf(was, k);
      }
    }
  }
}
