/** The container of one chunk: the compressed blocks of two streams interleaved in one file as
    two linked lists. Each block header ends in the position of the stream's next block, written
    back into it when that block is placed. Positions are relative to the start of the lists. */
module Container {
  import opened Bytes

  const CTYPE_NONE: byte := 3
  const CTYPE_LAST: byte := 14
  const NUM_STREAMS := 2

  /** A block as it stands in the file: `clen` is the length of its payload, `link` the position
      of the stream's next block or 0. The initial header of a stream is a block with no data. */
  datatype Block = Block(stream: nat, ctype: byte, ulen: nat, link: nat, payload: seq<byte>)

  // ---- Bytes of blocks ----

  function HeaderLen(wl: nat): nat {
    1 + wl * 3
  }

  function BlockBytes(b: Block, wl: nat): (r: seq<byte>) {
    [b.ctype] + ToLE(|b.payload|, wl) + ToLE(b.ulen, wl) + ToLE(b.link, wl) + b.payload
  }

  function BlockLen(b: Block, wl: nat): nat {
    HeaderLen(wl) + |b.payload|
  }

  function FileBytes(blocks: seq<Block>, wl: nat): seq<byte> {
    if blocks == [] then [] else BlockBytes(blocks[0], wl) + FileBytes(blocks[1..], wl)
  }

  function Offset(blocks: seq<Block>, i: nat, wl: nat): nat
    requires i <= |blocks|
  {
    if i == 0 then 0 else BlockLen(blocks[0], wl) + Offset(blocks[1..], i - 1, wl)
  }

  function LinkOffset(wl: nat): nat {
    1 + wl * 2
  }

  lemma {:induction false} OffsetIsLength(blocks: seq<Block>, i: nat, wl: nat)
    requires i <= |blocks|
    ensures Offset(blocks, i, wl) == |FileBytes(blocks[..i], wl)|
  {
    if i > 0 {
      OffsetIsLength(blocks[1..], i - 1, wl);
      assert blocks[..i][1..] == blocks[1..][..i - 1];
    }
  }

  lemma {:induction false} FileAppend(a: seq<Block>, b: seq<Block>, wl: nat)
    ensures FileBytes(a + b, wl) == FileBytes(a, wl) + FileBytes(b, wl)
  {
    if a == [] {
      assert a + b == b;
    } else {
      assert (a + b)[1..] == a[1..] + b && (a + b)[0] == a[0];
      FileAppend(a[1..], b, wl);
    }
  }

  lemma FileAround(a: seq<Block>, b: Block, c: seq<Block>, wl: nat)
    ensures FileBytes(a + ([b] + c), wl) == FileBytes(a, wl) + BlockBytes(b, wl) + FileBytes(c, wl)
  {
    var tail := [b] + c;
    FileAppend(a, tail, wl);
    assert FileBytes(tail, wl) == BlockBytes(b, wl) + FileBytes(c, wl) by {
      assert tail[1..] == c;
    }
  }

  lemma UpdateAround<T>(s: seq<T>, i: nat, v: T)
    requires i < |s|
    ensures s[i := v] == s[..i] + ([v] + s[i + 1..])
    ensures s[i := s[i]] == s
  {
  }

  lemma FileSplit(blocks: seq<Block>, i: nat, wl: nat)
    requires i < |blocks|
    ensures FileBytes(blocks, wl) ==
      FileBytes(blocks[..i], wl) + BlockBytes(blocks[i], wl) + FileBytes(blocks[i + 1..], wl)
  {
    var a, b, c := blocks[..i], blocks[i], blocks[i + 1..];
    FileAround(a, b, c, wl);
    UpdateAround(blocks, i, b);
  }

  lemma {:induction false} OffsetGrows(blocks: seq<Block>, i: nat, j: nat, wl: nat)
    requires i < j <= |blocks|
    ensures Offset(blocks, i, wl) + BlockLen(blocks[i], wl) <= Offset(blocks, j, wl)
    decreases j
  {
    if i == 0 {
    } else {
      OffsetGrows(blocks[1..], i - 1, j - 1, wl);
    }
  }

  // ---- Writing ----

  datatype Writer = Writer(file: seq<byte>, curPos: nat, lastHead: seq<nat>)

  /** Overwrite the file at pos; the write may extend it. */
  function WriteAt(file: seq<byte>, pos: nat, data: seq<byte>): seq<byte>
    requires pos <= |file|
  {
    if pos + |data| <= |file| then file[..pos] + data + file[pos + |data|..] else file[..pos] + data
  }

  function InitialBlock(stream: nat): Block {
    Block(stream, CTYPE_NONE, 0, 0, [])
  }

  function Initial(wl: nat): Writer {
    Writer(BlockBytes(InitialBlock(0), wl) + BlockBytes(InitialBlock(1), wl),
           2 * HeaderLen(wl),
           [LinkOffset(wl), HeaderLen(wl) + LinkOffset(wl)])
  }

  /** A job that is done: what a compression thread has to place in the file. */
  datatype Job = Job(stream: nat, ctype: byte, ulen: nat, payload: seq<byte>)

  function Placed(job: Job): Block {
    Block(job.stream, job.ctype, job.ulen, 0, job.payload)
  }

  predicate CanWrite(w: Writer, job: Job) {
    job.stream < |w.lastHead| && w.lastHead[job.stream] <= |w.file| && w.curPos == |w.file|
  }

  /** The write section of compthread: store the block's position in the stream's last header,
      then write the block. A position wider than the field is truncated. */
  function WriteBlock(w: Writer, job: Job, wl: nat): Writer
    requires CanWrite(w, job)
    requires w.lastHead[job.stream] + wl <= |w.file|
  {
    var patched := WriteAt(w.file, w.lastHead[job.stream], ToLE(w.curPos, wl));
    Writer(WriteAt(patched, w.curPos, BlockBytes(Placed(job), wl)),
           w.curPos + HeaderLen(wl) + |job.payload|,
           w.lastHead[job.stream := w.curPos + LinkOffset(wl)])
  }

  // ---- The blocks a file holds ----

  /** The next block of the same stream, or the number of blocks. */
  function NextOf(blocks: seq<Block>, k: nat, from: nat): (r: nat)
    requires from <= |blocks|
    ensures from <= r <= |blocks|
    ensures r < |blocks| ==> blocks[r].stream == k
    ensures forall i | from <= i < r :: blocks[i].stream != k
    decreases |blocks| - from
  {
    if from == |blocks| || blocks[from].stream == k then from else NextOf(blocks, k, from + 1)
  }

  /** The last block of stream k, or the number of blocks when it has none. */
  ghost predicate IsLast(blocks: seq<Block>, k: nat, i: nat) {
    i < |blocks| && blocks[i].stream == k && forall j | i < j < |blocks| :: blocks[j].stream != k
  }

  function LinkOf(blocks: seq<Block>, i: nat, wl: nat): nat
    requires i < |blocks|
  {
    var n := NextOf(blocks, blocks[i].stream, i + 1);
    if n < |blocks| then Offset(blocks, n, wl) else 0
  }

  ghost predicate Linked(blocks: seq<Block>, wl: nat) {
    forall i: nat {:trigger LinkOf(blocks, i, wl)} | i < |blocks| :: blocks[i].link == LinkOf(blocks, i, wl)
  }

  ghost predicate StartsWithHeaders(blocks: seq<Block>) {
    && |blocks| >= NUM_STREAMS
    && forall k: nat | k < NUM_STREAMS ::
         blocks[k].stream == k && blocks[k].ctype == CTYPE_NONE && blocks[k].ulen == 0 && blocks[k].payload == []
  }

  /** The writer's file holds exactly these blocks, linked stream by stream; last[k] is the last
      block of stream k, and last_head points at its link. */
  ghost predicate Holds(w: Writer, blocks: seq<Block>, last: seq<nat>, wl: nat) {
    && StartsWithHeaders(blocks)
    && w.file == FileBytes(blocks, wl) && w.curPos == |w.file|
    && Linked(blocks, wl)
    && HeadsAt(w.lastHead, blocks, last, wl)
  }

  ghost predicate HeadsAt(lastHead: seq<nat>, blocks: seq<Block>, last: seq<nat>, wl: nat) {
    && |lastHead| == |last| == NUM_STREAMS
    && forall k: nat | k < NUM_STREAMS ::
         IsLast(blocks, k, last[k]) && lastHead[k] == Offset(blocks, last[k], wl) + LinkOffset(wl)
  }

  lemma {:induction false} OffsetIgnoresLinks(a: seq<Block>, b: seq<Block>, i: nat, wl: nat)
    requires i <= |a| && i <= |b|
    requires forall j: nat | j < i :: |a[j].payload| == |b[j].payload|
    ensures Offset(a, i, wl) == Offset(b, i, wl)
    decreases i
  {
    if i > 0 {
      forall j: nat | j < i - 1
        ensures |a[1..][j].payload| == |b[1..][j].payload|
      {
        assert a[1..][j] == a[j + 1] && b[1..][j] == b[j + 1];
      }
      OffsetIgnoresLinks(a[1..], b[1..], i - 1, wl);
    }
  }

  /** Writing a link in place rewrites just that link of that block. */
  lemma PatchBlock(b: Block, link: nat, wl: nat)
    ensures WriteAt(BlockBytes(b, wl), LinkOffset(wl), ToLE(link, wl)) == BlockBytes(b.(link := link), wl)
    ensures LinkOffset(wl) + wl <= |BlockBytes(b, wl)| == BlockLen(b, wl)
  {
    var before := [b.ctype] + ToLE(|b.payload|, wl) + ToLE(b.ulen, wl);
    assert BlockBytes(b, wl) == before + ToLE(b.link, wl) + b.payload;
    assert |before| == LinkOffset(wl);
    assert BlockBytes(b, wl)[..LinkOffset(wl)] == before;
    assert BlockBytes(b, wl)[LinkOffset(wl) + wl..] == b.payload;
  }

  lemma WriteAtInside(before: seq<byte>, mid: seq<byte>, after: seq<byte>, pos: nat, data: seq<byte>)
    requires pos + |data| <= |mid|
    ensures WriteAt(before + mid + after, |before| + pos, data) == before + WriteAt(mid, pos, data) + after
  {
    var all := before + mid + after;
    assert all[..|before| + pos] == before + mid[..pos];
    assert all[|before| + pos + |data|..] == mid[pos + |data|..] + after;
  }

  /** Writing behind a prefix leaves the prefix alone. */
  lemma WriteAtBehind(before: seq<byte>, rest: seq<byte>, pos: nat, data: seq<byte>)
    requires pos <= |rest|
    ensures WriteAt(before + rest, |before| + pos, data) == before + WriteAt(rest, pos, data)
  {
    var all := before + rest;
    assert all[..|before| + pos] == before + rest[..pos];
    if pos + |data| <= |rest| {
      assert all[|before| + pos + |data|..] == rest[pos + |data|..];
    }
  }

  lemma {:induction false} PatchMiddle(a: seq<Block>, b: Block, c: seq<Block>, pos: nat, link: nat, wl: nat)
    requires pos == |FileBytes(a, wl)| + LinkOffset(wl)
    ensures pos + wl <= |FileBytes(a + ([b] + c), wl)|
    ensures WriteAt(FileBytes(a + ([b] + c), wl), pos, ToLE(link, wl))
         == FileBytes(a + ([b.(link := link)] + c), wl)
  {
    hide BlockBytes, FileBytes, ToLE, WriteAt;
    FileAround(a, b, c, wl);
    FileAround(a, b.(link := link), c, wl);
    PatchBlock(b, link, wl);
    WriteAtInside(FileBytes(a, wl), BlockBytes(b, wl), FileBytes(c, wl), LinkOffset(wl), ToLE(link, wl));
  }

  lemma PatchFile(blocks: seq<Block>, i: nat, pos: nat, link: nat, wl: nat)
    requires i < |blocks| && pos == Offset(blocks, i, wl) + LinkOffset(wl)
    ensures pos + wl <= |FileBytes(blocks, wl)|
    ensures WriteAt(FileBytes(blocks, wl), pos, ToLE(link, wl)) == FileBytes(blocks[i := blocks[i].(link := link)], wl)
  {
    var a, b, c := blocks[..i], blocks[i], blocks[i + 1..];
    assert Offset(blocks, i, wl) == |FileBytes(a, wl)| by {
      OffsetIsLength(blocks, i, wl);
    }
    PatchMiddle(a, b, c, pos, link, wl);
    UpdateAround(blocks, i, b);
    UpdateAround(blocks, i, b.(link := link));
  }

  // ---- Placing a block keeps the lists ----

  function Relink(blocks: seq<Block>, last: nat, job: Job, wl: nat): seq<Block>
    requires last < |blocks|
  {
    blocks[last := blocks[last].(link := Offset(blocks, |blocks|, wl))] + [Placed(job)]
  }

  lemma {:induction false} NextOfPush(blocks: seq<Block>, b: Block, k: nat, from: nat)
    requires from <= |blocks|
    ensures NextOf(blocks + [b], k, from) ==
      if NextOf(blocks, k, from) < |blocks| then NextOf(blocks, k, from)
      else if b.stream == k then |blocks| else |blocks| + 1
    decreases |blocks| - from
  {
    var now := blocks + [b];
    if from < |blocks| && blocks[from].stream != k {
      NextOfPush(blocks, b, k, from + 1);
    }
  }

  lemma {:induction false} NextOfIgnoresLinks(a: seq<Block>, b: seq<Block>, k: nat, from: nat)
    requires |a| == |b| && from <= |a|
    requires forall i: nat | i < |a| :: a[i].stream == b[i].stream
    ensures NextOf(a, k, from) == NextOf(b, k, from)
    decreases |a| - from
  {
    if from < |a| && a[from].stream != k {
      NextOfIgnoresLinks(a, b, k, from + 1);
    }
  }

  lemma RelinkOffsets(blocks: seq<Block>, last: nat, job: Job, wl: nat, i: nat)
    requires last < |blocks| && i <= |blocks|
    ensures Offset(Relink(blocks, last, job, wl), i, wl) == Offset(blocks, i, wl)
  {
    OffsetIgnoresLinks(Relink(blocks, last, job, wl), blocks, i, wl);
  }

  lemma RelinkNext(blocks: seq<Block>, last: nat, job: Job, wl: nat, i: nat)
    requires i < |blocks| && IsLast(blocks, job.stream, last)
    ensures NextOf(Relink(blocks, last, job, wl), blocks[i].stream, i + 1) ==
      if i == last then |blocks|
      else if NextOf(blocks, blocks[i].stream, i + 1) < |blocks| then NextOf(blocks, blocks[i].stream, i + 1)
      else |blocks| + 1
  {
    var patched := blocks[last := blocks[last].(link := Offset(blocks, |blocks|, wl))];
    var k := blocks[i].stream;
    NextOfPush(patched, Placed(job), k, i + 1);
    NextOfIgnoresLinks(patched, blocks, k, i + 1);
    if k == job.stream && i != last {
      assert i < last;
    }
  }

  lemma RelinkKeepsLinks(blocks: seq<Block>, last: nat, job: Job, wl: nat)
    requires Linked(blocks, wl) && IsLast(blocks, job.stream, last)
    ensures Linked(Relink(blocks, last, job, wl), wl)
  {
    var now := Relink(blocks, last, job, wl);
    forall i: nat | i < |now|
      ensures now[i].link == LinkOf(now, i, wl)
    {
      if i < |blocks| {
        RelinkNext(blocks, last, job, wl, i);
        var n := NextOf(blocks, blocks[i].stream, i + 1);
        RelinkOffsets(blocks, last, job, wl, n);
        RelinkOffsets(blocks, last, job, wl, |blocks|);
        assert blocks[i].link == LinkOf(blocks, i, wl);
      }
    }
  }

  lemma RelinkLast(blocks: seq<Block>, last: nat, job: Job, wl: nat, k: nat, i: nat)
    requires IsLast(blocks, job.stream, last) && IsLast(blocks, k, i)
    ensures IsLast(Relink(blocks, last, job, wl), k, if k == job.stream then |blocks| else i)
  {
  }

  lemma FilePush(blocks: seq<Block>, b: Block, wl: nat)
    ensures FileBytes(blocks + [b], wl) == FileBytes(blocks, wl) + BlockBytes(b, wl)
  {
    var one := [b];
    FileAppend(blocks, one, wl);
    assert one[1..] == [];
  }

  lemma InitialHolds(wl: nat)
    ensures Holds(Initial(wl), [InitialBlock(0), InitialBlock(1)], [0, 1], wl)
  {
    var b0, b1 := InitialBlock(0), InitialBlock(1);
    FilePush([], b0, wl);
    assert [] + [b0] == [b0];
    FilePush([b0], b1, wl);
    assert [b0] + [b1] == [b0, b1];
    OffsetIsLength([b0, b1], 1, wl);
    assert [b0, b1][..1] == [b0];
  }

  lemma OffsetOfEnd(blocks: seq<Block>, wl: nat)
    ensures Offset(blocks, |blocks|, wl) == |FileBytes(blocks, wl)|
  {
    OffsetIsLength(blocks, |blocks|, wl);
    assert blocks[..|blocks|] == blocks;
  }

  lemma WriteBlockFile(w: Writer, blocks: seq<Block>, i: nat, job: Job, wl: nat)
    requires i < |blocks| && w.file == FileBytes(blocks, wl) && w.curPos == |w.file| && job.stream < |w.lastHead|
    requires w.lastHead[job.stream] == Offset(blocks, i, wl) + LinkOffset(wl)
    ensures CanWrite(w, job) && w.lastHead[job.stream] + wl <= |w.file|
    ensures WriteBlock(w, job, wl).file == FileBytes(Relink(blocks, i, job, wl), wl)
    ensures WriteBlock(w, job, wl).curPos == |WriteBlock(w, job, wl).file|
  {
    hide FileBytes, BlockBytes, ToLE, Offset;
    PatchFile(blocks, i, w.lastHead[job.stream], w.curPos, wl);
    OffsetOfEnd(blocks, wl);
    var patched := blocks[i := blocks[i].(link := w.curPos)];
    FilePush(patched, Placed(job), wl);
    BlockFields(Placed(job), wl);
  }

  lemma RelinkHeads(lastHead: seq<nat>, blocks: seq<Block>, last: seq<nat>, job: Job, wl: nat, curPos: nat)
    requires HeadsAt(lastHead, blocks, last, wl) && job.stream < NUM_STREAMS
    requires curPos == Offset(blocks, |blocks|, wl)
    ensures HeadsAt(lastHead[job.stream := curPos + LinkOffset(wl)],
                    Relink(blocks, last[job.stream], job, wl), last[job.stream := |blocks|], wl)
  {
    var k := job.stream;
    RelinkOffsets(blocks, last[k], job, wl, |blocks|);
    RelinkLast(blocks, last[k], job, wl, 0, last[0]);
    RelinkLast(blocks, last[k], job, wl, 1, last[1]);
    RelinkOffsets(blocks, last[k], job, wl, last[0]);
    RelinkOffsets(blocks, last[k], job, wl, last[1]);
  }

  /** The write section places the block at the end of the file and links it to the end of its
      stream's list; nothing else in the file changes. */
  lemma {:induction false} WriteBlockHolds(w: Writer, blocks: seq<Block>, last: seq<nat>, job: Job, wl: nat)
    requires Holds(w, blocks, last, wl) && job.stream < NUM_STREAMS
    ensures CanWrite(w, job) && w.lastHead[job.stream] + wl <= |w.file|
    ensures Holds(WriteBlock(w, job, wl), Relink(blocks, last[job.stream], job, wl), last[job.stream := |blocks|], wl)
  {
    WriteBlockFile(w, blocks, last[job.stream], job, wl);
    RelinkKeepsLinks(blocks, last[job.stream], job, wl);
    OffsetOfEnd(blocks, wl);
    RelinkHeads(w.lastHead, blocks, last, job, wl, w.curPos);
  }

  // ---- Whole runs of the writer ----

  ghost predicate JobsOk(jobs: seq<Job>) {
    forall i | 0 <= i < |jobs| :: jobs[i].stream < NUM_STREAMS
  }

  /** The blocks of the file, links included, and the last block of each stream. */
  datatype Lists = Lists(blocks: seq<Block>, last: seq<nat>)

  function ListsOf(jobs: seq<Job>, wl: nat): (r: Lists)
    requires JobsOk(jobs)
    ensures |r.last| == NUM_STREAMS && r.last[0] < |r.blocks| && r.last[1] < |r.blocks|
    decreases |jobs|
  {
    if jobs == [] then Lists([InitialBlock(0), InitialBlock(1)], [0, 1])
    else
      var earlier, job := ListsOf(jobs[..|jobs| - 1], wl), jobs[|jobs| - 1];
      Lists(Relink(earlier.blocks, earlier.last[job.stream], job, wl),
            earlier.last[job.stream := |earlier.blocks|])
  }

  /** The writer after the jobs have been written in this order. */
  function WriteAll(jobs: seq<Job>, wl: nat): Writer
    decreases |jobs|
  {
    if jobs == [] then Initial(wl) else WriteNext(WriteAll(jobs[..|jobs| - 1], wl), jobs[|jobs| - 1], wl)
  }

  function WriteNext(w: Writer, job: Job, wl: nat): Writer {
    if job.stream < |w.lastHead| && w.lastHead[job.stream] + wl <= |w.file| == w.curPos then WriteBlock(w, job, wl) else w
  }

  lemma {:induction false} WriteAllHolds(jobs: seq<Job>, wl: nat)
    requires JobsOk(jobs)
    ensures Holds(WriteAll(jobs, wl), ListsOf(jobs, wl).blocks, ListsOf(jobs, wl).last, wl)
    decreases |jobs|
  {
    if jobs == [] {
      InitialHolds(wl);
    } else {
      var earlier := jobs[..|jobs| - 1];
      WriteAllHolds(earlier, wl);
      WriteBlockHolds(WriteAll(earlier, wl), ListsOf(earlier, wl).blocks, ListsOf(earlier, wl).last, jobs[|jobs| - 1], wl);
    }
  }

  function Unlinked(blocks: seq<Block>): seq<Block> {
    seq(|blocks|, i requires 0 <= i < |blocks| => blocks[i].(link := 0))
  }

  function PlacedAll(jobs: seq<Job>): seq<Block> {
    seq(|jobs|, i requires 0 <= i < |jobs| => Placed(jobs[i]))
  }

  lemma RelinkUnlinked(blocks: seq<Block>, last: nat, job: Job, wl: nat)
    requires last < |blocks|
    ensures Unlinked(Relink(blocks, last, job, wl)) == Unlinked(blocks) + [Placed(job)]
  {
  }

  /** Links aside, the blocks of the file are the jobs in the order they were written. */
  lemma {:induction false} ListsAreJobs(jobs: seq<Job>, wl: nat)
    requires JobsOk(jobs)
    ensures Unlinked(ListsOf(jobs, wl).blocks) == [InitialBlock(0), InitialBlock(1)] + PlacedAll(jobs)
    decreases |jobs|
  {
    if jobs != [] {
      var earlier, job := jobs[..|jobs| - 1], jobs[|jobs| - 1];
      ListsAreJobs(earlier, wl);
      var l := ListsOf(earlier, wl);
      RelinkUnlinked(l.blocks, l.last[job.stream], job, wl);
      assert PlacedAll(jobs) == PlacedAll(earlier) + [Placed(job)];
    }
  }

  // ---- Reading ----

  const CTYPE_BZIP2: byte := 4

  /** What one step of fill_buffer finds at a position. */
  datatype Fetch =
    | Fetched(ctype: byte, ulen: nat, payload: seq<byte>, link: nat)
    | EmptyTail
    | Invalid

  predicate SizeOk(n: nat, maxRam: nat) {
    n >= 1 && (maxRam > 0 ==> n <= maxRam)
  }

  predicate DataOk(ctype: byte, clen: nat, ulen: nat, maxRam: nat) {
    && CTYPE_NONE <= ctype <= CTYPE_LAST
    && SizeOk(clen, maxRam) && SizeOk(ulen, maxRam)
    && (ctype == CTYPE_NONE ==> clen == ulen)
    && (ctype == CTYPE_BZIP2 ==> clen <= Bits.UINT32_MAX && ulen <= Bits.UINT32_MAX)
  }

  /** Read and check the header at pos and the payload behind it. */
  function FetchBlock(file: seq<byte>, pos: nat, wl: nat, stream: nat, maxRam: nat): Fetch {
    if pos + HeaderLen(wl) > |file| then Invalid
    else
      var ctype := file[pos];
      var clen := FromLE(file[pos + 1..pos + 1 + wl]);
      var ulen := FromLE(file[pos + 1 + wl..pos + 1 + wl * 2]);
      var link := FromLE(file[pos + 1 + wl * 2..pos + 1 + wl * 3]);
      if clen == 0 && ulen == 0 && stream == 1 && link == 0 then EmptyTail
      else if clen < 1 || ulen < 1 || (link != 0 && link <= pos) || !DataOk(ctype, clen, ulen, maxRam) then Invalid
      else if pos + HeaderLen(wl) + clen > |file| then Invalid
      else Fetched(ctype, ulen, file[pos + HeaderLen(wl)..pos + HeaderLen(wl) + clen], link)
  }

  /** Whatever stands in a file, what is fetched is within its limits: a known type, lengths of at
      least one byte and within the memory limit, a stored block of its own length, a link that leads
      forward, and a payload that lies in the file. */
  lemma FetchedIsSound(file: seq<byte>, pos: nat, wl: nat, stream: nat, maxRam: nat)
    ensures var f := FetchBlock(file, pos, wl, stream, maxRam);
      && (f.EmptyTail? ==> stream == 1)
      && (f.Fetched? ==>
           && 3 <= f.ctype <= 14 && |f.payload| >= 1 && f.ulen >= 1
           && (maxRam > 0 ==> |f.payload| <= maxRam && f.ulen <= maxRam)
           && (f.ctype == 3 ==> |f.payload| == f.ulen)
           && (f.ctype == 4 ==> |f.payload| < 0x1_0000_0000 && f.ulen < 0x1_0000_0000)
           && (f.link == 0 || f.link > pos)
           && var start := pos + 1 + 3 * wl;
              start + |f.payload| <= |file| && f.payload == file[start..start + |f.payload|] && f.ctype == file[pos])
  {
    hide FromLE;
  }

  datatype Data = Data(ctype: byte, ulen: nat, payload: seq<byte>)

  datatype Listing = Listed(data: seq<Data>, totalRead: nat) | Broken

  /** Follow a list from the block at pos: what fill_buffer hands out, call by call, and how many
      bytes of the file that accounts for. */
  function Follow(fetch: nat -> Fetch, pos: nat, wl: nat, limit: nat): Listing
    decreases limit - pos
  {
    if pos >= limit then Broken
    else match fetch(pos)
      case Invalid => Broken
      case EmptyTail => Listed([], HeaderLen(wl))
      case Fetched(ctype, ulen, payload, link) =>
        var data, len := Data(ctype, ulen, payload), HeaderLen(wl) + |payload|;
        if link == 0 then Listed([data], len)
        else if link <= pos then Broken
        else match Follow(fetch, link, wl, limit)
          case Broken => Broken
          case Listed(rest, total) => Listed([data] + rest, len + total)
  }

  function Fetcher(file: seq<byte>, wl: nat, stream: nat, maxRam: nat): nat -> Fetch {
    (pos: nat) => FetchBlock(file, pos, wl, stream, maxRam)
  }

  /** The link in a stream's initial header, as open_stream_in reads it. */
  function FirstLink(file: seq<byte>, stream: nat, wl: nat): Option<nat> {
    var pos := stream * HeaderLen(wl);
    if pos + HeaderLen(wl) > |file| then None
    else if file[pos] != CTYPE_NONE then None
    else if FromLE(file[pos + 1..pos + 1 + wl]) != 0 then None
    else if FromLE(file[pos + 1 + wl..pos + 1 + wl * 2]) != 0 then None
    else Some(FromLE(file[pos + 1 + wl * 2..pos + 1 + wl * 3]))
  }

  /** It takes the header for one only if it is of a stored block with no bytes. */
  lemma FirstLinkIsEmpty(file: seq<byte>, stream: nat, wl: nat)
    ensures var pos := stream * HeaderLen(wl);
      FirstLink(file, stream, wl).Some? <==>
      && pos + HeaderLen(wl) <= |file| && file[pos] == 3
      && file[pos + 1..pos + 1 + wl] == ToLE(0, wl) && file[pos + 1 + wl..pos + 1 + wl * 2] == ToLE(0, wl)
  {
    hide FromLE, ToLE;
    var pos := stream * HeaderLen(wl);
    if pos + HeaderLen(wl) <= |file| {
      AllZero(file[pos + 1..pos + 1 + wl]);
      AllZero(file[pos + 1 + wl..pos + 1 + wl * 2]);
    }
  }

  /** Every number of the block fits in its field. */
  predicate Fits(b: Block, wl: nat) {
    |b.payload| < Pow256(wl) && b.ulen < Pow256(wl) && b.link < Pow256(wl)
  }

  /** A block as its header announces it to a reader: each field keeps its low wl bytes. */
  function Stored(b: Block, wl: nat): Block {
    var m := Pow256(wl);
    Block(b.stream, b.ctype, b.ulen % m, b.link % m, if |b.payload| < m then b.payload else b.payload[..|b.payload| % m])
  }

  lemma StoredPayload(b: Block, wl: nat)
    ensures var k := |b.payload| % Pow256(wl); k <= |b.payload| && Stored(b, wl).payload == b.payload[..k]
  {
    var n, m := |b.payload|, Pow256(wl);
    RemainderSame(n, m);
    if n < m {
      assert b.payload[..n] == b.payload;
    }
  }

  lemma RemainderSame(n: nat, m: nat)
    requires m > 0
    ensures n % m == n <==> n < m
  {
    if n < m {
      Bits.ModUnique(n, m, 0, n);
    }
  }

  /** A reader is told the truth exactly when every number fits. */
  lemma StoredIsFaithful(b: Block, wl: nat)
    ensures Stored(b, wl) == b <==> Fits(b, wl)
  {
    var m := Pow256(wl);
    RemainderSame(b.ulen, m);
    RemainderSame(b.link, m);
    if |b.payload| >= m {
      assert |Stored(b, wl).payload| < m;
    }
  }

  lemma SliceWithin(before: seq<byte>, mid: seq<byte>, after: seq<byte>, i: nat, j: nat)
    requires i <= j <= |mid|
    ensures (before + mid + after)[|before| + i..|before| + j] == mid[i..j]
  {
  }

  lemma BlockFields(b: Block, wl: nat)
    ensures var s := BlockBytes(b, wl);
      && |s| == BlockLen(b, wl)
      && s[0] == b.ctype
      && s[1..1 + wl] == ToLE(|b.payload|, wl)
      && s[1 + wl..1 + wl * 2] == ToLE(b.ulen, wl)
      && s[1 + wl * 2..1 + wl * 3] == ToLE(b.link, wl)
      && s[HeaderLen(wl)..BlockLen(b, wl)] == b.payload
  {
  }

  /** A header is read back field by field, modulo the width of the fields. */
  lemma HeaderFields(before: seq<byte>, b: Block, after: seq<byte>, wl: nat)
    ensures var file, pos, m := before + BlockBytes(b, wl) + after, |before|, Pow256(wl);
      && pos + BlockLen(b, wl) <= |file|
      && file[pos] == b.ctype
      && FromLE(file[pos + 1..pos + 1 + wl]) == |b.payload| % m
      && FromLE(file[pos + 1 + wl..pos + 1 + wl * 2]) == b.ulen % m
      && FromLE(file[pos + 1 + wl * 2..pos + 1 + wl * 3]) == b.link % m
      && file[pos + HeaderLen(wl)..pos + BlockLen(b, wl)] == b.payload
  {
    hide FromLE, ToLE, BlockBytes;
    var mid := BlockBytes(b, wl);
    BlockFields(b, wl);
    LERemainder(|b.payload|, wl);
    LERemainder(b.ulen, wl);
    LERemainder(b.link, wl);
    SliceWithin(before, mid, after, 1, 1 + wl);
    SliceWithin(before, mid, after, 1 + wl, 1 + wl * 2);
    SliceWithin(before, mid, after, 1 + wl * 2, 1 + wl * 3);
    SliceWithin(before, mid, after, HeaderLen(wl), BlockLen(b, wl));
  }

  /** And a block within these limits is fetched. */
  lemma SoundIsFetched(before: seq<byte>, b: Block, after: seq<byte>, wl: nat, maxRam: nat)
    requires Fits(b, wl)
    ensures var f := FetchBlock(before + BlockBytes(b, wl) + after, |before|, wl, b.stream, maxRam);
      f == Fetched(b.ctype, b.ulen, b.payload, b.link) <==>
      && 3 <= b.ctype <= 14 && |b.payload| >= 1 && b.ulen >= 1
      && (maxRam > 0 ==> |b.payload| <= maxRam && b.ulen <= maxRam)
      && (b.ctype == 3 ==> |b.payload| == b.ulen)
      && (b.ctype == 4 ==> |b.payload| < 0x1_0000_0000 && b.ulen < 0x1_0000_0000)
      && (b.link == 0 || b.link > |before|)
  {
    hide BlockBytes, FetchBlock;
    FetchPrinted(before, b, after, wl, maxRam);
    StoredIsFaithful(b, wl);
  }

  /** What a fetch at block i of the file finds, from the block alone. */
  function FetchOf(b: Block, pos: nat, maxRam: nat): Fetch {
    if b.payload == [] && b.ulen == 0 && b.stream == 1 && b.link == 0 then EmptyTail
    else if b.payload == [] || b.ulen == 0 || (b.link != 0 && b.link <= pos)
      || !DataOk(b.ctype, |b.payload|, b.ulen, maxRam) then Invalid
    else Fetched(b.ctype, b.ulen, b.payload, b.link)
  }

  lemma FetchPrinted(before: seq<byte>, b: Block, after: seq<byte>, wl: nat, maxRam: nat)
    ensures FetchBlock(before + BlockBytes(b, wl) + after, |before|, wl, b.stream, maxRam)
         == FetchOf(Stored(b, wl), |before|, maxRam)
  {
    hide FromLE, BlockBytes;
    var file, pos, h, n := before + BlockBytes(b, wl) + after, |before|, HeaderLen(wl), |b.payload|;
    HeaderFields(before, b, after, wl);
    StoredPayload(b, wl);
    SliceOfSlice(file, pos + h, n, 0, n % Pow256(wl));
  }

  lemma FetchPlaced(blocks: seq<Block>, i: nat, trailer: seq<byte>, wl: nat, maxRam: nat)
    requires i < |blocks|
    ensures FetchBlock(FileBytes(blocks, wl) + trailer, Offset(blocks, i, wl), wl, blocks[i].stream, maxRam)
         == FetchOf(Stored(blocks[i], wl), Offset(blocks, i, wl), maxRam)
  {
    hide FetchBlock, Stored, FetchOf;
    var before, after := FileBytes(blocks[..i], wl), FileBytes(blocks[i + 1..], wl);
    assert |before| == Offset(blocks, i, wl) by {
      OffsetIsLength(blocks, i, wl);
    }
    FileSplit(blocks, i, wl);
    Associate(before + BlockBytes(blocks[i], wl), after, trailer);
    FetchPrinted(before, blocks[i], after + trailer, wl, maxRam);
  }
}
