/** A file of several chunks, each a header and a container, as it is when the blocks are written
    one after the other. */
module Archive {
  import opened Bytes
  import opened Container

  /** What a chunk's header says besides whether it is the last one. */
  datatype Head = Head(wl: byte, filter: byte, size: nat)

  function HeadBytes(h: Head, eof: bool): seq<byte> {
    [h.wl, h.filter, if eof then 1 else 0] + ToLE(h.size, h.wl)
  }

  datatype Chunk = Chunk(head: Head, jobs: seq<Job>)

  /** A block and the chunk it belongs to. */
  datatype Task = Task(chunk: nat, job: Job)

  /** The whole file, with the flag each chunk's header has. */
  function FileOf(chunks: seq<Chunk>, flags: seq<bool>): seq<byte>
    requires |chunks| <= |flags|
    decreases |chunks|
  {
    if chunks == [] then []
    else
      var n := |chunks| - 1;
      FileOf(chunks[..n], flags) + HeadBytes(chunks[n].head, flags[n]) + WriteAll(chunks[n].jobs, chunks[n].head.wl).file
  }

  // ---- Writing block after block ----

  /** What stands in front of the current chunk's container, header included, and that container. */
  datatype Disk = Disk(before: seq<byte>, chunk: Option<nat>, w: Writer)

  function OnDisk(d: Disk): seq<byte> {
    d.before + d.w.file
  }

  const NOTHING := Disk([], None, Writer([], 0, []))

  /** The first block of a chunk brings the chunk's header and the initial headers with it. */
  function Open(d: Disk, c: nat, head: Head, eof: bool): (o: Disk)
    ensures o.chunk == Some(c)
  {
    if d.chunk == Some(c) then d else Disk(OnDisk(d) + HeadBytes(head, eof), Some(c), Initial(head.wl))
  }

  function WriteTask(d: Disk, t: Task, head: Head, eof: bool): Disk {
    var o := Open(d, t.chunk, head, eof);
    o.(w := WriteNext(o.w, t.job, head.wl))
  }

  ghost predicate TasksIn(ts: seq<Task>, n: nat) {
    forall i | 0 <= i < |ts| :: ts[i].chunk < n && ts[i].job.stream < NUM_STREAMS
  }

  function Sequential(ts: seq<Task>, heads: seq<Head>, flags: seq<bool>): (d: Disk)
    requires TasksIn(ts, |heads|) && |heads| == |flags|
    ensures d.chunk == if ts == [] then None else Some(ts[|ts| - 1].chunk)
    decreases |ts|
  {
    if ts == [] then NOTHING
    else
      var t := ts[|ts| - 1];
      WriteTask(Sequential(ts[..|ts| - 1], heads, flags), t, heads[t.chunk], flags[t.chunk])
  }

  /** The jobs of the current chunk. */
  function Latest(ts: seq<Task>): (jobs: seq<Job>)
    ensures ts != [] ==> jobs != []
    decreases |ts|
  {
    if ts == [] then []
    else
      var t, earlier := ts[|ts| - 1], ts[..|ts| - 1];
      if earlier != [] && earlier[|earlier| - 1].chunk == t.chunk then Latest(earlier) + [t.job] else [t.job]
  }

  lemma WriteAllPush(jobs: seq<Job>, job: Job, wl: nat)
    ensures WriteAll(jobs + [job], wl) == WriteNext(WriteAll(jobs, wl), job, wl)
  {
    assert (jobs + [job])[..|jobs|] == jobs;
  }

  /** The current chunk's container holds the jobs written since its first one. */
  lemma {:induction false} SequentialHolds(ts: seq<Task>, heads: seq<Head>, flags: seq<bool>)
    requires TasksIn(ts, |heads|) && |heads| == |flags| && ts != []
    ensures JobsOk(Latest(ts))
    ensures Sequential(ts, heads, flags).w == WriteAll(Latest(ts), heads[ts[|ts| - 1].chunk].wl)
    decreases |ts|
  {
    var t, earlier := ts[|ts| - 1], ts[..|ts| - 1];
    var wl := heads[t.chunk].wl;
    if earlier != [] && earlier[|earlier| - 1].chunk == t.chunk {
      SequentialHolds(earlier, heads, flags);
      WriteAllPush(Latest(earlier), t.job, wl);
    } else {
      WriteAllPush([], t.job, wl);
      assert [] + [t.job] == [t.job];
    }
  }

  /** A chunk that has not been opened has no flag yet. */
  lemma {:induction false} SequentialIgnores(ts: seq<Task>, heads: seq<Head>, flags: seq<bool>, c: nat, eof: bool)
    requires TasksIn(ts, |heads|) && |heads| == |flags| && c < |heads|
    requires forall i | 0 <= i < |ts| :: ts[i].chunk != c
    ensures Sequential(ts, heads, flags[c := eof]) == Sequential(ts, heads, flags)
    decreases |ts|
  {
    if ts != [] {
      SequentialIgnores(ts[..|ts| - 1], heads, flags, c, eof);
    }
  }

  // ---- All blocks of all chunks ----

  function ChunkTasks(c: nat, jobs: seq<Job>): seq<Task> {
    seq(|jobs|, i requires 0 <= i < |jobs| => Task(c, jobs[i]))
  }

  /** Chunk after chunk, job after job. */
  function TasksOf(chunks: seq<Chunk>): seq<Task>
    decreases |chunks|
  {
    if chunks == [] then []
    else TasksOf(chunks[..|chunks| - 1]) + ChunkTasks(|chunks| - 1, chunks[|chunks| - 1].jobs)
  }

  function HeadsOf(chunks: seq<Chunk>): seq<Head> {
    seq(|chunks|, i requires 0 <= i < |chunks| => chunks[i].head)
  }

  /** close_stream_out gives every chunk a block for each stream. */
  ghost predicate ChunksOk(chunks: seq<Chunk>) {
    forall c | 0 <= c < |chunks| :: chunks[c].jobs != [] && JobsOk(chunks[c].jobs)
  }

  ghost predicate Ordered(ts: seq<Task>) {
    forall i, j | 0 <= i < j < |ts| :: ts[i].chunk <= ts[j].chunk
  }

  /** How many blocks stand in front of chunk c's. */
  function FirstOf(ts: seq<Task>, c: nat): (f: nat)
    ensures f <= |ts|
    ensures forall i | 0 <= i < f :: ts[i].chunk < c
    ensures f < |ts| ==> ts[f].chunk >= c
  {
    if ts == [] || ts[0].chunk >= c then 0 else 1 + FirstOf(ts[1..], c)
  }

  lemma {:induction false} TasksOk(chunks: seq<Chunk>)
    requires ChunksOk(chunks)
    ensures TasksIn(TasksOf(chunks), |chunks|) && Ordered(TasksOf(chunks))
    ensures chunks != [] ==> TasksOf(chunks) != [] && TasksOf(chunks)[|TasksOf(chunks)| - 1].chunk == |chunks| - 1
    decreases |chunks|
  {
    if chunks != [] {
      var n, earlier := |chunks| - 1, chunks[..|chunks| - 1];
      assert forall c | 0 <= c < n :: earlier[c] == chunks[c];
      TasksOk(earlier);
      assert JobsOk(chunks[n].jobs);
    }
  }

  lemma SequentialPush(ts: seq<Task>, t: Task, heads: seq<Head>, flags: seq<bool>)
    requires TasksIn(ts, |heads|) && |heads| == |flags| && t.chunk < |heads| && t.job.stream < NUM_STREAMS
    ensures TasksIn(ts + [t], |heads|)
    ensures Sequential(ts + [t], heads, flags) == WriteTask(Sequential(ts, heads, flags), t, heads[t.chunk], flags[t.chunk])
  {
    assert (ts + [t])[..|ts|] == ts;
  }

  /** The first block of a chunk opens it. */
  lemma FirstIsWritten(earlier: seq<Task>, t: Task, heads: seq<Head>, flags: seq<bool>)
    requires TasksIn(earlier, t.chunk) && t.chunk < |heads| == |flags| && t.job.stream < NUM_STREAMS
    ensures TasksIn(earlier + [t], |heads|)
    ensures Sequential(earlier + [t], heads, flags) ==
      Disk(OnDisk(Sequential(earlier, heads, flags)) + HeadBytes(heads[t.chunk], flags[t.chunk]), Some(t.chunk),
           WriteAll([t.job], heads[t.chunk].wl))
  {
    hide WriteNext, HeadBytes;
    SequentialPush(earlier, t, heads, flags);
    assert [] + [t.job] == [t.job];
    WriteAllPush([], t.job, heads[t.chunk].wl);
  }

  lemma TasksSplit(earlier: seq<Task>, c: nat, jobs: seq<Job>)
    requires jobs != []
    ensures earlier + ChunkTasks(c, jobs) == earlier + ChunkTasks(c, jobs[..|jobs| - 1]) + [Task(c, jobs[|jobs| - 1])]
    ensures |jobs| == 1 ==> earlier + ChunkTasks(c, jobs) == earlier + [Task(c, jobs[0])] && jobs == [jobs[0]]
  {
  }

  lemma {:induction false} ChunkIsWritten(earlier: seq<Task>, c: nat, jobs: seq<Job>, heads: seq<Head>, flags: seq<bool>)
    requires TasksIn(earlier, c) && c < |heads| == |flags| && jobs != [] && JobsOk(jobs)
    ensures TasksIn(earlier + ChunkTasks(c, jobs), |heads|)
    ensures Sequential(earlier + ChunkTasks(c, jobs), heads, flags) ==
      Disk(OnDisk(Sequential(earlier, heads, flags)) + HeadBytes(heads[c], flags[c]), Some(c), WriteAll(jobs, heads[c].wl))
    decreases |jobs|
  {
    hide WriteNext, Initial, HeadBytes, Sequential, OnDisk, ChunkTasks, WriteAll;
    var fewer, last := jobs[..|jobs| - 1], jobs[|jobs| - 1];
    TasksSplit(earlier, c, jobs);
    if fewer == [] {
      FirstIsWritten(earlier, Task(c, last), heads, flags);
    } else {
      ChunkIsWritten(earlier, c, fewer, heads, flags);
      SequentialPush(earlier + ChunkTasks(c, fewer), Task(c, last), heads, flags);
      WriteAllPush(fewer, last, heads[c].wl);
      assert jobs == fewer + [last];
    }
  }

  /** Written block after block, the chunks give the file they should. */
  lemma {:induction false} SequentialIsFile(chunks: seq<Chunk>, heads: seq<Head>, flags: seq<bool>)
    requires ChunksOk(chunks) && |chunks| <= |heads| == |flags| && HeadsOf(chunks) == heads[..|chunks|]
    ensures TasksIn(TasksOf(chunks), |heads|)
    ensures OnDisk(Sequential(TasksOf(chunks), heads, flags)) == FileOf(chunks, flags)
    decreases |chunks|
  {
    TasksOk(chunks);
    if chunks != [] {
      var n, earlier := |chunks| - 1, chunks[..|chunks| - 1];
      assert forall c | 0 <= c < n :: earlier[c] == chunks[c];
      TasksOk(earlier);
      assert HeadsOf(earlier) == heads[..n];
      SequentialIsFile(earlier, heads, flags);
      assert heads[n] == heads[..n + 1][n] == HeadsOf(chunks)[n] == chunks[n].head;
      ChunkIsWritten(TasksOf(earlier), n, chunks[n].jobs, heads, flags);
    }
  }
}
