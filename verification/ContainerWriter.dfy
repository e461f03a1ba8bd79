/** The write section of a compression thread, on an open file with a position. */
module ContainerWriter {
  import opened Archive
  import opened Bytes
  import opened Container

  class ArchiveFile {
    const wl: nat
    var file: seq<byte>
    var at: nat
    var initialPos: nat
    var curPos: nat
    const lastHead: array<nat>

    /** The container as the file holds it behind initial_pos. */
    ghost function View(): Writer
      reads this, lastHead
      requires initialPos <= |file|
    {
      Writer(file[initialPos..], curPos, lastHead[..])
    }

    ghost predicate Valid()
      reads this, lastHead
    {
      && initialPos <= |file| && lastHead.Length == NUM_STREAMS
      && curPos == |file| - initialPos
      && forall k: nat | k < NUM_STREAMS :: lastHead[k] + wl <= curPos
    }

    constructor (file: seq<byte>, wl: nat)
      ensures this.file == file && this.wl == wl && at == |file| && fresh(lastHead) && lastHead.Length == NUM_STREAMS
      ensures curPos == 0
    {
      this.file, this.wl, at, initialPos, curPos := file, wl, |file|, 0, 0;
      lastHead := new nat[NUM_STREAMS](_ => 0);
    }

    method SeekTo(pos: nat)
      requires initialPos + pos <= |file|
      modifies this`at
      ensures at == initialPos + pos
    {
      at := initialPos + pos;
    }

    /** Write at the position and move behind what was written. */
    method WriteBuf(data: seq<byte>)
      requires at <= |file|
      modifies this`file, this`at
      ensures file == WriteAt(old(file), old(at), data) && at == old(at) + |data|
    {
      file := if at + |data| <= |file| then file[..at] + data + file[at + |data|..] else file[..at] + data;
      at := at + |data|;
    }

    /** At the end of the file, writing appends. */
    method AppendBuf(data: seq<byte>)
      requires at == |file|
      modifies this`file, this`at
      ensures file == old(file) + data && at == |file|
    {
      WriteBuf(data);
    }

    /** The lowest n bytes of v, lowest first. */
    method AppendVal(v: nat, n: nat)
      requires at == |file|
      modifies this`file, this`at
      ensures file == old(file) + ToLE(v, n) && at == |file|
    {
      AppendBuf(ToLE(v, n));
    }

    /** Type, two lengths and an open link. */
    method AppendHeader(ctype: byte, clen: nat, ulen: nat)
      requires at == |file|
      modifies this`file, this`at
      ensures at == |file|
      ensures file == old(file) + ([ctype] + ToLE(clen, wl) + ToLE(ulen, wl) + ToLE(0, wl))
    {
      AppendBuf([ctype]);
      AppendVal(clen, wl);
      AppendVal(ulen, wl);
      AppendVal(0, wl);
    }

    /** The next stream's initial header. */
    method AppendInitial(j: nat)
      requires at == |file| && initialPos + curPos == |file| && j < lastHead.Length
      modifies this`file, this`at, this`curPos, lastHead
      ensures at == |file| && initialPos + curPos == |file|
      ensures file == old(file) + BlockBytes(InitialBlock(j), wl) && curPos == old(curPos) + HeaderLen(wl)
      ensures lastHead[..] == old(lastHead[..])[j := old(curPos) + LinkOffset(wl)]
    {
      hide ToLE;
      lastHead[j] := curPos + 1 + wl * 2;
      AppendHeader(CTYPE_NONE, 0, 0);
      curPos := curPos + 1 + wl * 3;
    }

    /** The chunk's own header. */
    method AppendHead(filter: byte, eof: bool, size: nat)
      requires at == |file| && wl < 0x100
      modifies this`file, this`at
      ensures at == |file| && file == old(file) + HeadBytes(Head(wl, filter, size), eof)
    {
      AppendBuf([wl, filter, if eof then 1 else 0]);
      AppendVal(size, wl);
    }

    /** The chunk's own header and the two streams' initial headers, once per chunk. */
    method StartChunk(filter: byte, eof: bool, size: nat)
      requires at == |file| && curPos == 0 && wl < 0x100 && lastHead.Length == NUM_STREAMS
      modifies this, lastHead
      ensures Valid() && at == |file| && View() == Initial(wl)
      ensures file[..initialPos] == old(file) + HeadBytes(Head(wl, filter, size), eof)
    {
      hide BlockBytes, HeadBytes;
      AppendHead(filter, eof, size);
      initialPos := at;
      ghost var before := file;
      for j := 0 to NUM_STREAMS
        invariant at == |file| && initialPos == |before| && initialPos + curPos == |file| && curPos == j * HeaderLen(wl)
        invariant forall k: nat | k < j :: lastHead[k] == k * HeaderLen(wl) + LinkOffset(wl)
        invariant file == before + InitialBytes(j, wl)
      {
        ghost var bytes := InitialBytes(j, wl);
        AppendInitial(j);
        assert file == before + (bytes + BlockBytes(InitialBlock(j), wl));
      }
      assert file[initialPos..] == InitialBytes(2, wl);
      TwoHeaders(wl);
      assert lastHead[..] == Initial(wl).lastHead;
    }

    /** Store the position of the next block in the last header of stream k. */
    method PatchLink(k: nat)
      requires Valid() && k < NUM_STREAMS
      modifies this`file, this`at, lastHead
      ensures |file| == |old(file)| && file[..initialPos] == old(file[..initialPos])
      ensures file[initialPos..] == WriteAt(old(file[initialPos..]), old(lastHead[k]), ToLE(curPos, wl))
      ensures lastHead[..] == old(lastHead[..])[k := curPos + LinkOffset(wl)]
    {
      ghost var before, rest := file[..initialPos], file[initialPos..];
      assert file == before + rest;
      SeekTo(lastHead[k]);
      WriteBuf(ToLE(curPos, wl));
      WriteAtBehind(before, rest, lastHead[k], ToLE(curPos, wl));
      lastHead[k] := curPos + 1 + wl * 2;
    }

    /** Append the block and count it. */
    method AppendJob(job: Job)
      requires initialPos <= |file| && curPos == |file| - initialPos
      modifies this`file, this`at, this`curPos
      ensures file == old(file) + BlockBytes(Placed(job), wl)
      ensures curPos == old(curPos) + HeaderLen(wl) + |job.payload|
    {
      hide ToLE;
      SeekTo(curPos);
      AppendHeader(job.ctype, |job.payload|, job.ulen);
      curPos := curPos + 1 + wl * 3;
      AppendBuf(job.payload);
      curPos := curPos + |job.payload|;
    }

    /** The write section: link the block, then append it. */
    method WriteJob(job: Job)
      requires Valid() && job.stream < NUM_STREAMS
      modifies this, lastHead
      ensures Valid() && View() == WriteBlock(old(View()), job, wl)
      ensures initialPos == old(initialPos) && file[..initialPos] == old(file[..initialPos])
    {
      hide BlockBytes, ToLE, WriteAt;
      BlockFields(Placed(job), wl);
      PatchLink(job.stream);
      ghost var patched := file;
      AppendJob(job);
      AppendedBehind(patched, initialPos, BlockBytes(Placed(job), wl));
    }
  }

  function InitialBytes(j: nat, wl: nat): seq<byte> {
    if j == 0 then [] else InitialBytes(j - 1, wl) + BlockBytes(InitialBlock(j - 1), wl)
  }

  lemma TwoHeaders(wl: nat)
    ensures InitialBytes(2, wl) == Initial(wl).file
  {
    assert InitialBytes(1, wl) == BlockBytes(InitialBlock(0), wl);
  }

  lemma AppendedBehind(file: seq<byte>, initialPos: nat, data: seq<byte>)
    requires initialPos <= |file|
    ensures (file + data)[initialPos..] == WriteAt(file[initialPos..], |file| - initialPos, data)
    ensures (file + data)[..initialPos] == file[..initialPos]
  {
  }
}
