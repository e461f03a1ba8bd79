# lrzip, verified

lrzip compresses long-range: an rzip stage finds repeated byte ranges in a chunk that may be as
large as memory and writes literal and match tokens on two streams; the streams are cut into blocks
that threads compress with a back end and place, in a fixed order, in one file as two linked lists;
the reader follows the lists through a ring of prefetching threads and replays the tokens. This
project models that path and the arithmetic it rests on, and proves what it promises.

Main results, each for all inputs and all runs:

- **Tag table.** `Sweep.EveryRunIsSound`: over every run of insertions and sweeps no probe chain is
  cut, every stored tag meets the mask, the count is exact and below the limit, and equal tags are
  bounded. `MatchFinder.LookupIsComplete`: a lookup therefore reaches every stored copy of a tag
  that is not due for cleaning, as long as the probe caps allow. `Sweep.OfferStores`: what an offer
  stores and what it may drop. `VictimRound.WholeTurn`: insertions of a tag that has all its copies
  replace each of them in its turn. The tag 0xFFFFFFFF has rank 0 in the source's comparison and is
  swept by nothing: `Sweep.SpinsOnOnes` shows that the cleaning loop never ends on a table that
  holds nothing else, and `Sweep.OverfullIsSweepable` that this cannot happen in any run.
- **Match finder.** `HashSearch.HashSearch` terminates although its position moves backward, and its
  streams encode exactly the chunk. `Greedy.ScanIsGreedy`, `Greedy.RepetitionIsTaken` and
  `Greedy.WrittenIsLongest`: on every chunk, no position is left out, no repetition of which the
  table holds the tag is passed without it or a longer one being written or pending, tags are
  remembered as long as they are safe, and each match written is the first of the longest that the
  lookups since the one before it gave.
- **Decoder.** The streams decode to exactly the chunk (`Tokens.DecodeRestoresChunk`,
  `Runzip.RunzipChunk`), self-overlapping and split matches included; what the token loop accepts is
  exactly what some tokens print (`TokenParse.AcceptedIsPrinted`, `TokenParse.SpelledIsDecoded`).
- **Container.** `OutputTurns.EveryRunIsOrdered` and `ConcurrentIsSequential`: however the threads
  interleave, over all chunks of a file, the file holds what a single thread would write, but for
  the flag by which a header says that its chunk is the last; `EarlyFlag.EarlyFlagOfChunks` says
  exactly which earlier headers can have it. `OutputTurns.CanComplete`: every started run can be
  completed.
  `ContainerReading.StreamIsRead`: what reading a list gives, for every interleaving of the blocks
  and every width of the fields, and `ContainerReading.ContainerRoundTrip`: each list is read back
  exactly if the fields are wide enough. `StreamIn.StreamReader.ReadStream`: the ring delivers the
  blocks' bytes in order for every number of threads and every memory limit.
- **End to end.** `EndToEnd.RestoreChunk`: from a container to the decoder's output and the position
  where the reader believes the container ends, with the exact condition for both to be right.
  `WholeFile.RoundTrip`: a file of any number of chunks, compressed, written by any completed run of
  the threads, and decompressed, gives all chunks back, whether or not the reader knows its size.
  `EndToEnd.ContainerShrinks`: by exactly how much the back end makes a container shorter.
- **Range coder.** `RangeCoder.SegmentRoundTrip` for every model; `RangeCoder.ShareOfBit` and
  `RangeCoder.BitCost`: a bit gets its share of the range to within a point, and costs what its
  probability says; `SkipSegment.SegmentLively` (never four zero bytes in a row) and
  `SkipSegment.SkipAgreesWithDecoding`.
- **Predictor.** All bounds, for every accepted header (`Predictor.Predictor`);
  `Learning.PredictedExactly` and `Learning.TrainedExactly`: every shift and clamp of the
  components; `Learning.LearnsTowardsBit`: training on a bit never makes any component's prediction
  of it smaller.
- **Fast forms.** Twelve-byte CRC (`Crc.CrcUpdateT12`), buffered and threaded MD5
  (`Md5.Md5Ctx.ProcessBytes`, `Md5Worker.ThreadedDigest`), CBC with ciphertext stealing
  (`Cbc.CryptRoundTrip`), two-window reads (`SlidingBuffer.SlidingBuffer`).

## Where the code does less than it should

Three conditions came out of the proofs, all of which can be checked before a file is written.
`EndToEnd.RestoreChunk` shows that, for a container whose numbers fit (3) and a reader whose memory
limit accepts its blocks, the chunk comes back with its end in the right place exactly if (1) and
(2) hold. `Shortfalls` has an input for each of the three.

1. `write_stream` dispatches a block whenever its buffer is full and `close_stream_out` dispatches
   what is left, even nothing. The last block of a stream is empty exactly when its length is a
   multiple of the buffer size (`StreamOut.LastBlockEmpty`). `fill_buffer` accepts an empty last
   block on stream 1 only, so the length of stream 0 must not be such a multiple: otherwise
   decompressing the chunk fails or ends short of the container's end. The buffer is the chunk's
   size or at least 10 MB (`StreamOut.BufferSize`), and matches are so long that stream 0 takes at
   most half the chunk's size and six bytes (`HashSearch.HashSearch`), so no chunk shorter than
   20 MB by more than twelve bytes is affected (`Shortfalls.ChunkEnds`). Every part whose tokens
   take exactly one buffer of control bytes is (`Shortfalls.ControlUnending`), for example one of
   shortest matches in a buffer of 10 MB (`Shortfalls.FullControlExists`).
2. An empty last block of stream 1 is noticed only by prefetching. If the length of stream 1 is a
   multiple of the buffer size, the block's header is counted, and the end is right, exactly when
   there are at least two decompression threads, the stream is not empty, and the buffer size is
   below the memory limit (`EndToEnd.EndNoticed`). The chunk comes back in any case; what suffers is
   the chunk behind it and the check of a framed size. A chunk of a page or more without repeats, in
   a buffer of its own size, is an example (`Shortfalls.TailUnnoticed`).
3. The fields of a container are as wide as the chunk's length needs, but the container of a chunk
   that does not compress is longer than the chunk, and `write_val` truncates a position that does
   not fit. Nothing is truncated if and only if every length and the position of the last block fit
   (`ContainerReading.AllFitIsJobsFit`); `Shortfalls.ShortStreamsFit` bounds that by the streams'
   lengths alone. A stored link leads to its block exactly when the block's position fits
   (`ContainerReading.LinkNamesSuccessor`). A chunk of 65535 bytes without repeats, left
   uncompressed, cannot be read (`Shortfalls.FieldsTooNarrow`), nor can any stream of which a link
   is truncated to a position not behind its own block (`ContainerReading.BackwardLinkBreaks`).
   Reading can succeed without the condition when the bytes at a truncated position happen to be
   the image of the missing block: a stored chunk of 31 bytes less than 16 MB with nine zero bytes
   where the last link leads is read completely (`Shortfalls.MisplacedYetRead`).

One more thing looks wrong and does no harm. `eof` is one flag shared by the main thread and all
workers, read when a chunk's first block is written, and the main thread may set it for the last
chunk before that. Unless the main thread waits between chunks, the header of an earlier chunk can
say that it is the last exactly when the blocks from that chunk up to the last one, without the last
one's, are no more than the threads' slots (`EarlyFlag.EarlyFlagOfChunks`). When encrypting
(stream.c:2388-2398) or writing to standard output (rzip.c:1571-1577) it waits, and no earlier
header says so; otherwise the file's header has the size (lrzip.c:187-191), and a reader who knows
the size ignores the flag (`WholeFile.RestoreFile`).

Two things cost compression only. The position right behind a match is neither looked up nor stored
(`Greedy.NoneLeftOut`). And a match that is still pending when the scan reaches its end, 31 bytes
before the chunk's, is never written: it has less than 1024 bytes, and nothing has been looked up 31 or
more bytes behind its start (`Greedy.PendingIsYoung`).

## Modelling decisions

- Bytes are naturals below 256 (`bv8` in `Crc` and `Cbc`); C's unsigned words are naturals with the
  wrap-around written out, or `bv32`. File offsets and sizes are unbounded; a number wider than its
  field is truncated when written, as in the code.
- A file is a byte sequence, a semaphore a counter, an `mmap` a slice at a page boundary. Joining a
  thread that was never started is modelled as a failure.
- Back ends are a pair of functions where decompressing what was compressed gives it back; the block
  functions of AES and MD5 are arbitrary (for AES, inverse of each other). The predictor of the
  range coder is any function of the bits coded so far.
- `squash`, `stretch` and the bit-history counts are tables with the ranges their types give, and
  where a law needs it `stretch` rises, as the one built at libzpaq/libzpaq.cpp:1744-1750 does; `dt`
  and `dt2k` are the formulas their comments give (libzpaq/libzpaq.cpp:1271, 1307).
- The product of an error and a rate, which can leave 32 bits for a probability never trained before,
  is computed without bound: the sum modulo 2^32 is the same, and it stays in range
  (`Predictor.TrainCounted`).
  ZPAQL's context hashes, the bit-history rows and the match buffer reach the predictor as inputs.
- The waits of the main thread between chunks are a flag of the work (`OutputTurns.Work`); the page
  and the buffer sizes are parameters of `WholeFile.RoundTrip`.
- The position `tag_clean_ptr`, the masks and the victim counter are fields of the hash table object;
  the function-static `victim_round` starts anywhere below the chain limit.

## Model

| member | source | states |
|---|---|---|
| TagTable.RankIsTrailing | rzip.c:392-398 | the source's rank, ffs of the complement, is the number of trailing ones plus one, and 0 for the all-ones tag alone |
| TagTable.MaskTest | rzip.c:1034-1035 | the mask test holds exactly of the tags with enough trailing ones |
| TagTable.IncreaseMaskOnes | rzip.c:379-383 | increasing a mask of k ones gives k + 1 ones, and 32 ones stay 32 |
| TagTable.MinimumBitness | rzip.c:385-390 | an entry is due for cleaning exactly when its tag has fewer trailing ones than the better mask |
| TagTable.ProbeStops | rzip.c:451-486 | from any slot of a probe the walk ends at a vacant, due, outranked or victim slot, never without one |
| TagTable.FirstStopWell | rzip.c:451-486 | the probe of an insertion always finds a stopping slot, every slot before it being occupied by entries that outrank or equal the new tag |
| TagTable.InsertKeepsSlots | rzip.c:442-489 | slot by slot, an insertion keeps entries that outrank the tag and only raises the rank of the others |
| TagTable.InsertConserves | rzip.c:442-489 | the new contents are the old ones plus the new entry minus at most one evicted entry, and hash_count changes accordingly |
| TagTable.EvictedIsExpendable | rzip.c:456-481 | what an insertion drops is due for cleaning or one of a full chain of equal tags |
| TagTable.InsertKeepsChains | rzip.c:442-489 | for every stored tag that is not due, all slots from its primary one to its own stay occupied by entries of at least its rank |
| TagTable.InsertBoundsCopies | rzip.c:469-482 | no more than max_chain_len copies of a tag that is not due |
| VictimRound.VictimIsRound | rzip.c:471-475 | the copy that is replaced has as many copies in front of it on its probe as victim_round says |
| VictimRound.RoundMoves | rzip.c:476-478 | victim_round goes up by one, from the last back to 0, exactly when a copy of a full chain is dropped, by the tag itself or by one it displaces |
| VictimRound.FullChainStops | rzip.c:469-482 | the probe for a tag with a full chain ends at one of its copies, whatever else is stored |
| VictimRound.OfferTakesTurn | rzip.c:469-482 | offering a tag with a full chain replaces the copy whose turn it is and changes nothing else |
| VictimRound.RunRotates | rzip.c:469-482 | after any number of such insertions up to max_chain_len, which copies are replaced, by which offset, and which are not |
| VictimRound.WholeTurn | rzip.c:469-482 | in every state of a run, max_chain_len insertions of a tag that has all its copies replace each of them in its turn, and nothing else |
| AllOnes.InsertKeepsCap | rzip.c:442-489 | a bound on the copies of the tag 0xFFFFFFFF, which displacement can multiply, holds through every insertion |
| AllOnes.InsertKeepsFresh | rzip.c:442-489 | before the first sweep the copies of that tag stay within one chain |
| Sweep.DueAtLast | rzip.c:504-518 | with the strictest mask, a pass from the start finds an entry to clear as soon as one is not all ones |
| Sweep.SpinsOnOnes | rzip.c:493-519 | with only all-ones tags stored, no pass of clean_one_from_hash clears anything and the loop starts over |
| Sweep.InsertCounts | rzip.c:1043-1044 | incremented before the insertion, hash_count afterwards equals the number of occupied slots |
| Sweep.InsertKeepsMasks | rzip.c:442-489 | every stored tag still meets minimum_tag_mask and every slot before tag_clean_ptr the better mask |
| Sweep.InsertKeepsRun | rzip.c:1041-1044 | an insertion keeps the whole invariant of a run |
| Sweep.RemoveKeepsChains | rzip.c:508-511 | clearing a due slot cuts no probe chain of an entry that is not due |
| Sweep.RemoveKeepsRun | rzip.c:504-512 | clearing one entry keeps the invariant of a run |
| Sweep.RaiseKeepsRun | rzip.c:515-518 | raising the mask at the end of a pass keeps the invariant of a run |
| Sweep.CleanKeepsRun | rzip.c:493-519 | clean_one_from_hash keeps the invariant of a run and removes exactly one entry |
| Sweep.OverfullIsSweepable | rzip.c:1045-1046 | whenever clean_one_from_hash is called, some stored tag is not all ones, so it returns |
| Sweep.CleanDropsDue | rzip.c:504-518 | clean_one_from_hash clears the first slot that is due behind where the sweep has got to, or with none left and a stricter mask, behind the start, and leaves the pointer there |
| Sweep.OfferStores | rzip.c:1040-1047 | an offered tag that meets the mask is stored, and at most two entries go: one that was due or of a full chain, or else, above the limit, one that is due; any other tag changes nothing |
| Sweep.OfferKeepsEntry | rzip.c:1040-1047 | an entry that is neither due by the mask after an offer nor one of a full chain stays |
| Sweep.OfferIsFound | rzip.c:1040-1047 | the entry offered is in the table afterwards, unless it is itself due by the new mask |
| Sweep.UnderLimitHasRoom | rzip.c:970-971 | at most hash_limit entries leave an empty slot |
| Sweep.OfferKeepsRun | rzip.c:1040-1047 | one scan step's insertion and cleaning keeps the invariant and the limit |
| Sweep.EveryRunIsSound | rzip.c:1040-1047 | so does every sequence of them from a cleared table |
| Sweep.ClearedStartsRun | rzip.c:968-976 | the cleared table starts a run |
| HashTable.HashTable.constructor | rzip.c:949-976 | an empty table of 2^bits slots in its starting state |
| HashTable.HashTable.PrimaryHash | rzip.c:374-377 | the masked tag is the slot the chains start from |
| HashTable.HashTable.MinimumBitness | rzip.c:385-390 | answers whether an entry is due |
| HashTable.HashTable.LesserBitness | rzip.c:392-398 | of two tags the one with fewer trailing ones is lesser; the all-ones tag counts as the least, so it is lesser than every other and none is lesser than it |
| HashTable.HashTable.Set | rzip.c:420-433 | wide tables store any offset, narrow ones its low 32 bits |
| HashTable.HashTable.FindSlot | rzip.c:451-486 | the loop stops where the specified probe does |
| HashTable.HashTable.InsertHash | rzip.c:442-489 | insert_hash, in place, victim_round included, makes of the table what the specification says |
| HashTable.HashTable.SweepOnce | rzip.c:500-517 | one pass from tag_clean_ptr |
| HashTable.HashTable.CleanOneFromHash | rzip.c:493-519 | clean_one_from_hash, in place, and the mask it returns |
| HashTable.InsertStaysNarrow | rzip.c:420-433 | offsets that fit in 32 bits stay so when entries are moved |
| MatchFinder.NextTagRolls | rzip.c:521-529 | taking the byte left behind out and the new byte in gives the tag one position on |
| MatchFinder.FullTag | rzip.c:547-555 | the tag of the 31 bytes at a position |
| MatchFinder.NextTag | rzip.c:521-529 | from the tag at p - 1 to the tag at p |
| MatchFinder.FwdLenMaximal | rzip.c:612-628 | forward extension: the bytes agree and the next ones do not, or the end is reached |
| MatchFinder.RevLenAgrees | rzip.c:630-645 | backward extension: the bytes agree |
| MatchFinder.RevLenStops | rzip.c:630-645 | backward extension goes as far as it can, not before last_match |
| MatchFinder.ForwardLinear | rzip.c:612-628 | word-wise then byte-wise comparison gives the longest forward match |
| MatchFinder.ReverseLinear | rzip.c:638-645 | the longest backward extension |
| MatchFinder.MatchLenLinear | rzip.c:602-651 | a match of at least 31 bytes longer than the best so far, or 0 when the candidate gives none |
| MatchFinder.BestIsMatch | rzip.c:772-814 | what find_best_match returns really is a match: equal bytes, source before destination, within the chunk and behind last_match |
| MatchFinder.FindBestMatch | rzip.c:772-814 | the best of the candidates within the probe and chain caps; later ones win only when longer, so every earlier candidate was shorter |
| MatchFinder.CandidatesAreStored | rzip.c:789-811 | every candidate of a lookup is an entry of its tag within the slots it may probe, and there are no more than it may hit |
| MatchFinder.LookedIsCapped | rzip.c:781-782 | at most max_chain_len of them, within four slots for each and sixteen more |
| MatchFinder.WalkFinds | rzip.c:789-811 | the walk reaches a stored copy of the tag as long as the caps allow |
| MatchFinder.LookupIsComplete | rzip.c:789-811 | in every state of a run, an uncapped lookup meets every stored copy of a tag that is not due |
| HashSearch.HashBits | rzip.c:952-953 | the fewest bits whose table has the wanted number of slots |
| HashSearch.WantedSlots | rzip.c:935-947 | as many eight-byte slots as the level's megabytes hold, but no more than the chunk, or 65536, can use |
| HashSearch.LimitIsRoomy | rzip.c:970-971 | every level's limit exceeds all the copies the all-ones tag can have |
| HashSearch.ByteWidth | rzip.c:1510-1514 | the smallest number of bytes that holds every position of the chunk |
| HashSearch.CopyRestores | rzip.c:1055-1062 | copying a verified match extends the restored prefix by exactly its length |
| HashSearch.LiteralRestores | rzip.c:1057-1058 | the literal bytes before a match extend the restored prefix to its start |
| HashSearch.MatchRestores | rzip.c:1059-1060 | a match, in pieces, extends it to its end |
| HashSearch.Emit | rzip.c:1055-1060 | the tokens written restore the chunk up to the end of the match |
| HashSearch.Finish | rzip.c:1081-1095 | the tokens written restore the whole chunk and end with the only (0,0) header |
| HashSearch.MatchPays | rzip.c:309-328 | the headers of a match of at least 31 bytes, in pieces, take at most half as many bytes as it stands for, with room for the literal header before it |
| HashSearch.EmissionIsLean | rzip.c:1055-1060 | so an emission keeps the control stream within half of the bytes encoded |
| HashSearch.InsertTagged | rzip.c:1044-1044 | every entry's tag is the tag of the 31 bytes at its offset, insertion |
| HashSearch.CleanTagged | rzip.c:1046-1046 | the same, cleaning |
| HashSearch.InsertTag | rzip.c:1040-1047 | one insertion and, above the limit, one cleaning, and the mask asked of later insertions |
| HashSearch.NewTable | rzip.c:933-976 | a fresh table sized for level and chunk starts a run |
| HashSearch.KeepLonger | rzip.c:1049-1053 | no candidate gives a longer match than the one kept, which is the pending one or the first of the longest |
| HashSearch.Examine | rzip.c:1037-1053 | lookup in the table as it was, occasional insertion, and of the pending match and all the candidates the longest kept: the pending one if none is longer, otherwise the first of the longest |
| HashSearch.EmitIfDue | rzip.c:1055-1064 | exactly if the pending match has 1024 bytes, or 31 and starts 31 bytes behind, it and the literal bytes before it are written, and p goes to its end, forward or backward, with the tag recomputed; otherwise nothing changes |
| HashSearch.ScanStep | rzip.c:996-1064 | each iteration moves last_match, or leaves it and moves p by one, and keeps all invariants; exactly if the tag does not meet minimum_tag_mask nothing else happens, and otherwise the longest match is kept, the tag is offered to the table, and what is due is written |
| HashSearch.HashSearch | rzip.c:918-1096 | terminates; the two streams encode exactly the chunk, and the control stream has at most half the chunk's bytes and six; they are the tokens of a scan that iterates so from a cleared table to 31 bytes before the end, and the rest as a literal; the table's invariant holds at the end |
| Greedy.OfferIsTaken | rzip.c:1049-1060 | what a lookup offers is surpassed by nothing shorter: the next match written is at least as long, or one at least as long is pending at the end |
| Greedy.StoredMatchIsTaken | rzip.c:1032-1060 | where the table holds an entry for the tag within the probe limit, not due, the tag is looked up and the match there, or a longer one, is taken |
| Greedy.WrittenIsLongest | rzip.c:1049-1060 | each match written was found since the one before, is longer than anything offered before it was found, and nothing longer was offered since |
| Greedy.PendingIsYoung | rzip.c:1055-1056 | a match left pending has less than 1024 bytes, and nothing was looked up 31 or more bytes behind its start |
| Greedy.NoneLeftOut | rzip.c:996-1064 | although the position jumps forward and backward, each one is that of an iteration, or of a match written or right behind it |
| Greedy.TableIsRun | rzip.c:1040-1047 | the table at any point of a scan is what offering it the tags looked up, one after the other, gives |
| Greedy.TagIsRemembered | rzip.c:1040-1047 | an offered tag that met the mask is in the table with its position as long as it is not due and its chain is not full |
| Greedy.RepetitionIsTaken | rzip.c:1032-1060 | 31 bytes that repeat those of a remembered position have the same tag, the table holds that position, and within the probe limit the match or a longer one is taken |
| Greedy.ScanIsGreedy | rzip.c:996-1064 | for every chunk longer than 31 bytes, every level and every tag index: no position is left out and no repetition of which the table holds the tag is passed |
| Tokens.CopyBackAt | runzip.c:363-373 | a back reference is the byte-by-byte copy that may overlap its source |
| Tokens.CopyBackUnique | runzip.c:363-373 | only one extension repeats at the given distance |
| Tokens.CopyBackSplit | rzip.c:309-328 | a long match split in pieces copies what the whole would |
| Tokens.MatchPiecesReplay | rzip.c:309-328 | put_match's pieces of at most 0xFFFF bytes replay as one match |
| Tokens.LiteralPiecesReplay | rzip.c:349-366 | put_literal's pieces replay as one literal |
| Tokens.MatchPiecesPrintable | rzip.c:309-328 | every piece's length fits two bytes and its offset chunk_bytes bytes |
| Tokens.LiteralPiecesPrintable | rzip.c:349-366 | pieces of a literal have 1 to 0xFFFF bytes |
| Tokens.LiteralCost | rzip.c:349-366 | a literal takes three control bytes per piece |
| Tokens.MatchCost | rzip.c:309-328 | a match takes three control bytes and an offset per piece |
| Tokens.Pieces | rzip.c:309-328 | as few pieces as 0xFFFF bytes each allow, and at least one |
| Tokens.DecodeToken | runzip.c:618-641 | parsing a printed token applies it and consumes exactly its bytes |
| Tokens.DecodePrinted | runzip.c:618-657 | parsing a printed token list replays it, stops at the (0,0) header, and fails exactly when the replay does |
| Tokens.ReplayBehind | runzip.c:618-657 | output of earlier chunks does not change what a chunk decodes to |
| Tokens.DecodeRestoresChunk | runzip.c:618-657 | whatever was written before, the decoder appends exactly the chunk and consumes exactly both streams |
| TokenParse.AcceptedIsPrinted | runzip.c:618-657 | whatever the token loop accepts is a list of tokens of 1 to 0xFFFF bytes, each match reaching back into the output, and the end mark, where any head but 0 stands for a match; it writes what they replay to and leaves the rest |
| TokenParse.SpelledIsDecoded | runzip.c:618-657 | and every such list is accepted, and fails exactly when a match reaches back too far |
| ControlWriter.ControlWriter.S0Write | rzip.c:274-289 | batching in 4096 bytes is invisible: the control stream grows by exactly the bytes |
| ControlWriter.ControlWriter.S0Flush | rzip.c:266-272 | flushing moves the batch to the stream |
| ControlWriter.ControlWriter.PutHeader | rzip.c:303-307 | one byte and a two-byte length |
| ControlWriter.ControlWriter.PutMatch | rzip.c:309-328 | the match's pieces are appended to the tokens printed |
| ControlWriter.ControlWriter.PutLiteral | rzip.c:349-366 | the literal's pieces are appended, on both streams |
| Runzip.ReadFrom | stream.c:2347-2377 | reading one stream leaves the other's remaining bytes alone and counts every byte of the file, readable streams or not |
| Runzip.ControlReader.Compact | runzip.c:74-79 | moving the window's rest to its front is invisible |
| Runzip.ControlReader.Fill | runzip.c:80-92 | a read into the window is invisible; a short one means the end of the stream |
| Runzip.ControlReader.Need | runzip.c:66-95 | succeeds exactly when the stream has enough bytes left |
| Runzip.ControlReader.Take | runzip.c:97-107 | the next bytes of the control stream, window or not |
| Runzip.MatchExpand | runzip.c:363-373 | one period at a time, every byte repeats at the match's distance |
| Runzip.ExpandedIsCopy | runzip.c:363-373 | that is the byte-by-byte copy |
| Runzip.UnzipMatch | runzip.c:375-452 | the output grows by the byte-by-byte copy |
| Runzip.ReadHeader | runzip.c:179-191 | head and length of the next token |
| Runzip.ReadOffset | runzip.c:390-399 | the match offset in chunk_bytes bytes |
| Runzip.UnzipLiteral | runzip.c:314-347 | exactly len literal bytes, or failure |
| Runzip.RunToken | runzip.c:618-641 | one iteration does what the specified parser does |
| Runzip.RunzipChunk | runzip.c:618-657 | the token loop over the windowed, prefetched streams equals the parser on the streams' bytes, in result, in failure and in what it leaves unread; a control stream with less than a header is an error |
| StreamOut.BufferSize | stream.c:1157-1242 | the most threads are kept whose share of the memory is 10 MB or a buffer of the chunk, or one; the buffer is their share of what they can have, never longer than the chunk or a page, and never shorter than that or 10 MB |
| StreamOut.LastBlockEmpty | stream.c:2325-2343 | the last dispatched block is empty exactly when the stream's length is a multiple of the buffer size |
| StreamOut.StreamInfo.ClearBuffer | stream.c:1889-1929 | the buffer goes to the next job, in order |
| StreamOut.StreamInfo.WriteStream | stream.c:2325-2343 | the stream grows by exactly the bytes; full buffers and only those are dispatched |
| StreamOut.StreamInfo.CloseStreamOut | stream.c:2380-2386 | each stream's blocks are its data cut into full buffers and one shorter rest |
| Container.WriteBlockHolds | stream.c:1738-1847 | patching the last header and appending the block yields the file of the linked block list, with last_head and cur_pos at the right places |
| Container.WriteAllHolds | stream.c:1667-1847 | so does every sequence of writes |
| Container.ListsAreJobs | stream.c:1667-1847 | the file's blocks are the jobs, in the order of writing |
| Container.InitialHolds | stream.c:1709-1735 | the two initial headers are an empty pair of lists |
| Container.PatchFile | stream.c:1740-1748 | storing a position in a header changes that link and nothing else |
| Container.NextOfPush | stream.c:1740-1754 | a new block becomes the successor of its stream's last block and of no other |
| Container.HeaderFields | stream.c:2073-2095 | a printed header is read back field by field, each number modulo the width of its field |
| Container.FetchPlaced | stream.c:2034-2248 | a fetch at a block's position finds its data, the empty-block marker or an error, from the block with its numbers truncated |
| Container.FetchedIsSound | stream.c:2102-2177 | in any file, what is fetched has a known type, lengths of at least a byte and within the memory limit, the length of its data if stored, a forward link, and lies in the file; an empty end is accepted on stream 1 alone |
| Container.SoundIsFetched | stream.c:2128-2177 | and a block is fetched exactly if it is within these limits |
| Container.FirstLinkIsEmpty | stream.c:1407-1491 | open_stream_in takes for an initial header exactly one of a stored block with no bytes |
| Container.StoredIsFaithful | stream.c:1777-1780 | a block is announced as it is exactly when its three numbers fit in their fields |
| ContainerWriter.ArchiveFile.StartChunk | stream.c:1687-1735 | chunk header and initial stream headers, once per chunk |
| ContainerWriter.ArchiveFile.PatchLink | stream.c:1740-1754 | seek, overwrite the link, remember the new last_head; the rest of the file stays |
| ContainerWriter.ArchiveFile.WriteJob | stream.c:1738-1847 | the write section, with its seeks, does to the file what the specification says, behind whatever precedes the chunk |
| ContainerReading.NextOfFilters | stream.c:2257-2257 | going from a block to its successor skips exactly the other stream's blocks |
| ContainerReading.ListIsFollowed | stream.c:2034-2297 | following the links from a block yields that stream's blocks as announced up to the first successor whose position does not fit, and from there on what stands at the truncated position |
| ContainerReading.SeenIsListing | stream.c:2257-2257 | if every number fits, that is the stream's own jobs, in order |
| ContainerReading.LinkNamesSuccessor | stream.c:1745-1745 | a link is stored modulo the width of its field and leads to the next block exactly when that block's position fits |
| ContainerReading.FirstLinkPlaced | stream.c:1428-1490 | the initial header gives the low bytes of the first block's position |
| ContainerReading.StreamIsRead | stream.c:1407-1491 | reading a stream, in every interleaving and for every width of the fields, unless stream 0's first link is truncated to 0 and the close workaround skips its header; if every number fits it depends on the stream's own jobs only |
| ContainerReading.AllFitIsJobsFit | stream.c:1745-1745 | no number of the file is truncated if and only if the jobs' lengths and the position of the last block fit |
| ContainerReading.BackwardLinkBreaks | stream.c:2137-2140 | a link truncated to a position not behind its own block makes the whole stream unreadable |
| ContainerReading.ListingComplete | stream.c:2098-2140 | a stream as the buffers dispatch it is read completely, unless it is stream 0 and its last block is empty |
| ContainerReading.WriterLength | stream.c:1726-1846 | cur_pos is the two initial headers plus every block's header and payload |
| ContainerReading.StreamsSplitLength | stream.c:2430-2437 | the two streams' lengths make up the file |
| ContainerReading.ContainerRoundTrip | stream.c:2008-2322 | if every number fits, stream 1 is always read back and stream 0 exactly when its last block is not empty; complete readings account for cur_pos bytes |
| ContainerReading.ShortFileFits | stream.c:1745-1745 | every number fits as long as the container is no longer than its field width allows |
| Archive.SequentialHolds | stream.c:1667-1847 | block after block, the current chunk's container is that of the jobs written since the chunk was opened |
| Archive.SequentialIsFile | stream.c:1667-1847 | all blocks of all chunks in dispatch order give the chunks' headers and containers one behind the other |
| OutputTurns.OpenShows | stream.c:1667-1735 | chunks++ opens a chunk with its first block, at the end of the file, and never again |
| OutputTurns.LinkShows | stream.c:1740-1754 | storing a link relative to initial_pos does to the file what it does to the chunk's container |
| OutputTurns.BlockShows | stream.c:1759-1846 | the same for the block |
| OutputTurns.StepKeepsInvariant | stream.c:1649-1879 | every step of the main thread or a worker keeps turn order, slot ownership, the log, the file and the flag |
| OutputTurns.RunKeepsInvariant | stream.c:1649-1879 | so does every run |
| OutputTurns.EveryRunIsOrdered | stream.c:1648-1879 | in every reachable state at most one worker is in its write section, its block is the next one, the log of written blocks is strictly in dispatch order, and outside of write sections the file is what writing those blocks one after the other gives |
| OutputTurns.ConcurrentIsSequential | stream.c:1649-1928 | when no block was given up, the finished file holds every chunk as written sequentially, the last one flagged as last; if the main thread waits between chunks, only that one |
| OutputTurns.ThreadStepsAreFinite | stream.c:1572-1879 | every step of a worker brings it closer to posting its semaphore |
| OutputTurns.NeverStuck | stream.c:1851-1879 | while blocks are unfinished or undispatched some step is enabled, also when workers fail |
| OutputTurns.CanReach | stream.c:1851-1879 | from every state of a run without failures, any further number of blocks can be written and all threads come to rest |
| OutputTurns.CanComplete | stream.c:1851-1879 | from every state of a run without failures the work can be completed |
| EarlyFlag.EarlyFlagBound | stream.c:1698-1699 | if a finished run flags a chunk, the blocks from its first one up to the last chunk's first are no more than the slots; with waiting, only the last chunk is flagged |
| EarlyFlag.EarlyFlagIff | rzip.c:1554-1556 | without waiting, some complete run flags an earlier chunk if and only if those blocks are no more than the slots |
| EarlyFlag.EarlyFlagOfChunks | rzip.c:1554-1556 | for every archive, number of slots and earlier chunk: some complete run flags it if and only if the main thread does not wait and the chunks from it up to the last one, without it, have no more blocks than there are slots |
| StreamIn.RingStart | stream.c:2251-2287 | starting a thread keeps the busy slots a cyclic interval |
| StreamIn.RingTake | stream.c:2306-2319 | taking a thread's data keeps it so, and it is the oldest block's |
| StreamIn.RamUpdate | stream.c:2202-2206 | the memory total changes by exactly one slot's allocation |
| StreamIn.TakeFirst | stream.c:2311-2316 | taking the first block leaves the remaining bytes as they were |
| StreamIn.Exhausted | stream.c:2029-2033 | with nothing left to read the ring is empty and at most an unnoticed empty block remains |
| StreamIn.NeverPending | stream.c:2102-2102 | stream 0 never accepts an empty block |
| StreamIn.StreamReader.constructor | stream.c:1331-1359 | one slot for stream 0, threads + 1 for stream 1, or one with a single thread |
| StreamIn.StreamReader.Begin | stream.c:2206-2287 | ring, memory total and blocks in flight after starting a thread |
| StreamIn.StreamReader.Release | stream.c:2308-2319 | the same after taking one |
| StreamIn.StreamReader.StartNext | stream.c:2034-2294 | one block moves from the list to the ring, or the empty block is noticed; every byte read is counted |
| StreamIn.StreamReader.Prefetch | stream.c:2034-2297 | however many blocks are prefetched, list plus ring stay the same sequence; prefetching goes on until the list ends, the ring is full or the memory limit is reached |
| StreamIn.StreamReader.FetchAhead | stream.c:2289-2297 | blocks that each exhaust the memory limit are fetched one at a time and leave an empty last block pending; smaller ones leave at least two in the ring unless the list has ended |
| StreamIn.SumOfSmall | stream.c:2295-2296 | blocks below the memory limit that together reach it are at least two |
| StreamIn.StreamReader.FillBuffer | stream.c:2008-2322 | the buffer gets the next block's bytes; what remains to be read is unchanged; fails exactly when only an unnoticed empty block is left; an empty last block stays unnoticed with one block at a time and has data in front of it otherwise |
| StreamIn.StreamReader.ReadStream | stream.c:2347-2377 | the next bytes of the concatenation of the blocks, short only at its end; what is known of an empty last block is kept |
| StreamIn.WeightIsCounted | stream.c:2090-2248 | what following a whole list counts is its weight, and no list weighs nothing |
| StreamIn.StreamReader.BrokenIsShort | stream.c:2430-2450 | while a list cannot be followed to its end, total_read stays below what both lists weigh |
| StreamIn.StreamReader.CountedWhenNoticed | stream.c:2430-2450 | after both streams are read out, total_read is the container's length exactly when no empty block is left unnoticed |
| StreamIn.StreamReader.TailNoticed | stream.c:2029-2033 | read out with data in front of it, an empty last block has been noticed |
| EndToEnd.PackIsSound | stream.c:1604-1624 | a block of any size unpacks to itself, and its header passes the reader's checks |
| EndToEnd.PackCompresses | stream.c:1604-1624 | a block gets shorter exactly if it has 64 bytes and the back end compresses it; then its type and bytes are the back end's, otherwise it is stored |
| EndToEnd.ContainerShrinks | stream.c:1781-1806 | the container is as much shorter than one of stored blocks as the back end saves on the blocks it compresses |
| EndToEnd.JobsOfPacked | stream.c:1889-1929 | compressing keeps each stream's blocks in order |
| EndToEnd.PackedReadable | stream.c:2098-2177 | a closed stream's blocks are acceptable, and the last is empty exactly when the length is a multiple of the buffer size |
| EndToEnd.PackedDelivers | stream.c:1936-2003 | decompressing a stream's blocks gives the stream back |
| EndToEnd.FollowCounts | stream.c:2090-2103 | following a list counts a header per block, an empty last one included, and every payload |
| EndToEnd.StreamStarts | stream.c:1407-1491 | if every number fits and no block is too large, an opened reader has exactly the written stream in front of it |
| EndToEnd.StreamRefused | stream.c:2168-2173 | a stream with a block larger than the reader's memory limit cannot be followed |
| EndToEnd.FullBlocks | stream.c:2325-2343 | a stream that fills its buffers without remainder is read as full blocks only |
| EndToEnd.RunTokens | runzip.c:618-697 | the tokens run on opened streams: the parser's result, and the end in the right place exactly if no empty last block was left unnoticed |
| EndToEnd.CompressChunk | rzip.c:1271-1296 | a chunk becomes two streams that encode it, cut into jobs, the control stream at most half the chunk's size and six bytes |
| EndToEnd.OpenStreams | stream.c:1317-1491 | the reader stands before both streams with everything counted so far |
| EndToEnd.ListWeighs | stream.c:2034-2297 | what a list can have counted is at most the length of its stream's blocks, and exactly that when at most the last block is refused |
| EndToEnd.RestoreChunk | runzip.c:526-697 | for every file, number of threads, memory limit and back end; of a container whose numbers fit: the chunk and the right end position if and only if no block is too large, stream 0 does not end in an empty block, and an empty last block of stream 1 is prefetched; a control stream that starts with no block is an error |
| Shortfalls.ShortChunkEnds | stream.c:2102-2102 | a chunk less than twice as long as its buffer, by twelve bytes, has a control stream that ends |
| Shortfalls.ChunkEnds | stream.c:1157-1242 | with a buffer of the size the code allots, so has every chunk shorter than 20 MB by more than twelve bytes |
| Shortfalls.ControlUnending | stream.c:2102-2102 | every chunk whose tokens take exactly one buffer of control bytes, in fields wide enough, cannot be read to its end |
| Shortfalls.FullControlExists | stream.c:2102-2102 | there is such a part in a buffer of 10 MB with no more control bytes than a scan can write |
| Shortfalls.TailUnnoticed | stream.c:2295-2296 | for every chunk of a page or more without repeats, in a buffer of its own size and in fields wide enough, the end is found if and only if several threads decompress it and the memory limit is above its size |
| Shortfalls.ControlMisplaced | stream.c:1745-1745 | behind a stored block of 65535 bytes in fields of two bytes there is no control block where the link leads |
| Shortfalls.FieldsTooNarrow | rzip.c:1510-1514 | a chunk of 65535 bytes, compressed as the code does it, that the decoder cannot read |
| Shortfalls.ShortStreamsFit | stream.c:1745-1745 | every number fits if the streams are short enough for blocks that do not compress |
| Shortfalls.ZerosAreTail | stream.c:2098-2103 | nine zero bytes behind any byte are read as an empty last block |
| Shortfalls.MisplacedYetRead | stream.c:2034-2248 | a stored chunk of almost 16 MB whose last block does not fit and which is read completely all the same |
| WholeFile.HeadIsRead | runzip.c:562-583 | a chunk header is read back where it was written |
| WholeFile.HeadIsAccepted | runzip.c:562-583 | and accepted exactly if its width is 1 to 8, its filter known and its size below 2^63 |
| WholeFile.HeadSize | stream.c:1159-1161 | the size in a header is the chunk's, or a page's for a shorter chunk, if the field holds it |
| WholeFile.CompressChunks | rzip.c:1423-1565 | every chunk is encoded by two streams with positions as wide as its length needs and no wider, at most eight bytes; its header has its size, at least a page, modulo the field |
| WholeFile.RestoreNext | runzip.c:526-697 | one chunk and its header: the chunk behind what was restored, and the position of the next header |
| WholeFile.RestoreFile | runzip.c:722-779 | all chunks if the size is known, otherwise those up to the first flagged as last |
| WholeFile.RoundTrip | rzip.c:1423-1612 | compressing, every completed interleaving of the workers, and decompressing give all chunks back, in every mode of waiting and of knowing the size |
| RangeCoder.Mid | libzpaq/libzpaq.cpp:2407-2407 | the split is where the probability's share of the range ends, rounded down |
| RangeCoder.ShareOfBit | libzpaq/libzpaq.cpp:2407-2409 | a bit gets its share of the range to within one point and at least one point, the more the more probable it is, and both parts make up the range |
| RangeCoder.InitialIsWidest | libzpaq/libzpaq.cpp:2395-2396 | no range is wider than the one a segment starts with |
| RangeCoder.ShiftWidens | libzpaq/libzpaq.cpp:2410-2415 | shifting a byte out widens the range, so the loop ends |
| RangeCoder.ShiftScales | libzpaq/libzpaq.cpp:2410-2415 | a byte shifted out makes the range 256 times as wide, but for the point that keeps low from 0 |
| RangeCoder.NormalizeScales | libzpaq/libzpaq.cpp:2410-2415 | bytes are written exactly until the bounds differ in the first byte, each for a 256th of the range |
| RangeCoder.BitCost | libzpaq/libzpaq.cpp:2402-2416 | the bytes written for a bit widen the range by as much as its probability narrowed it, to within a point for each |
| RangeCoder.PredictProb | libzpaq/libzpaq.cpp:2428-2428 | the model's 15 bits and a lowest bit that is set |
| RangeCoder.BitsAreShares | libzpaq/libzpaq.cpp:2428-2433 | each bit of a byte, highest first, is coded in the part of the range that the model's prediction from the bits before it gives it |
| RangeCoder.BitsFromShares | libzpaq/libzpaq.cpp:2138-2144 | the decoder asks the same split which bit it was, and refuses a code outside of the range |
| RangeCoder.NormalizeBack | libzpaq/libzpaq.cpp:2410-2415 | what follows within the shifted range puts the bytes written and what follows within the range before |
| RangeCoder.BitWindow | libzpaq/libzpaq.cpp:2402-2416 | the code of a bit lies in that bit's part of the range |
| RangeCoder.NormalizeInFollows | libzpaq/libzpaq.cpp:2115-2122 | the decoder shifts in exactly what the encoder shifted out |
| RangeCoder.DecodeBitFollows | libzpaq/libzpaq.cpp:2104-2124 | the decoder recovers the bit and stays in step |
| RangeCoder.PrimeReads | libzpaq/libzpaq.cpp:2129-2132 | priming reads the next four bytes |
| RangeCoder.PrimeEnds | libzpaq/libzpaq.cpp:2129-2132 | with fewer bytes left the word ends as all ones |
| RangeCoder.DecodeByte | libzpaq/libzpaq.cpp:2127-2146 | an end of segment is accepted only with curr == 0 |
| RangeCoder.PointIsWritten | libzpaq/libzpaq.cpp:2410-2415 | a range of one point is written out in four bytes |
| RangeCoder.EndWindow | libzpaq/libzpaq.cpp:2422-2423 | the end-of-segment code is exactly the four bytes of the lower bound |
| RangeCoder.SegmentWindow | libzpaq/libzpaq.cpp:2419-2435 | a whole segment starts within the range it was coded in |
| RangeCoder.BitsFollow | libzpaq/libzpaq.cpp:2138-2144 | the decoder collects the bits of a byte |
| RangeCoder.ByteFollows | libzpaq/libzpaq.cpp:2127-2146 | the decoder recovers a byte and stays in step |
| RangeCoder.EndFollows | libzpaq/libzpaq.cpp:2133-2136 | at the end code the decoder sees curr == 0 behind the four zero bytes |
| RangeCoder.SegmentRoundTrip | libzpaq/libzpaq.cpp:2947-2959 | for every model, coder state and byte string, decompressing a segment gives its bytes and then the end, and leaves the decoder behind the terminator in the encoder's state |
| SkipSegment.NormalizeLively | libzpaq/libzpaq.cpp:2414-2414 | no shift lets four zero bytes start |
| SkipSegment.SegmentLively | libzpaq/libzpaq.cpp:2410-2415 | the bytes of a segment never hold four zero bytes in a row |
| SkipSegment.ScanFinds | libzpaq/libzpaq.cpp:2163-2165 | from any position of a segment, scanning for four zeros finds the terminator |
| SkipSegment.SkipFromStart | libzpaq/libzpaq.cpp:2158-2166 | skip() from the start of a segment, leading zero bytes included |
| SkipSegment.PrefixFollows | libzpaq/libzpaq.cpp:2127-2146 | after n decoded bytes the decoder stands at the code of the remaining ones |
| SkipSegment.SkipAgreesWithDecoding | libzpaq/libzpaq.cpp:2158-2166 | at the start or behind any decoded prefix, skip() returns the marker that decoding to the end would read next |
| ZpaqCoder.Encoder.Encode | libzpaq/libzpaq.cpp:2402-2416 | the encoder object codes a bit as specified |
| ZpaqCoder.Encoder.Compress | libzpaq/libzpaq.cpp:2419-2435 | a byte or the end code |
| ZpaqCoder.Encoder.CompressSegment | libzpaq/libzpaq.cpp:2920-2968 | a whole segment with terminator and marker |
| ZpaqCoder.Decoder.Get | libzpaq/libzpaq.h:1205-1212 | buffering is invisible: the next byte of the input, or the end |
| ZpaqCoder.Decoder.Decode | libzpaq/libzpaq.cpp:2104-2124 | the decoder object decodes a bit as specified, errors included |
| ZpaqCoder.Decoder.Decompress | libzpaq/libzpaq.cpp:2127-2146 | the next byte, the end of the segment or an error |
| ZpaqCoder.Decoder.SkipToEnd | libzpaq/libzpaq.cpp:2158-2166 | the three loops find what the specification says |
| Predictor.CmInit | libzpaq/libzpaq.h:1106-1109 | a bit history's first probability is the quotient of its counts, rounded down, and below 2^23 |
| Predictor.InitialCellOk | libzpaq/libzpaq.cpp:1776-1846 | every table starts within its component's bounds |
| Predictor.PredictAvg | libzpaq/libzpaq.cpp:1893-1895 | the weighted mean, rounded down, lies between the two predictions; products and sum fit in 32 bits |
| Predictor.PredictMix2 | libzpaq/libzpaq.cpp:1896-1904 | the same with a 16-bit weight |
| Predictor.Dot | libzpaq/libzpaq.cpp:1913-1917 | the weighted sum of up to 255 inputs stays within 2^22 per input |
| Predictor.DotPush | libzpaq/libzpaq.cpp:1915-1916 | one more input adds itself times its own weight, without the weight's low 8 bits |
| Predictor.PredictIsse | libzpaq/libzpaq.cpp:1925-1926 | the weighted sum, rounded down and clamped to 12 bits; 32-bit intermediates; the neutral weights pass the input on |
| Predictor.PredictSse | libzpaq/libzpaq.cpp:1929-1940 | the logistic value of the two cells' mean, rounded down, weighted by where the input falls between them |
| Predictor.PredictMatch | libzpaq/libzpaq.cpp:1887-1891 | a match of n bytes predicts its next bit with a miss of one in 16 n, none predicts nothing |
| Predictor.TrainIcm | libzpaq/libzpaq.cpp:1975-1976 | an indirect cell moves a quarter of its error towards the bit, rounded down, and stays below 2^23 |
| Predictor.TrainMix2 | libzpaq/libzpaq.cpp:2013-2018 | the weight moves by the error times the difference of the inputs, rounded to 2^13ths, or to the nearer end of 0..65535; intermediates fit in 32 bits |
| Predictor.TrainMix | libzpaq/libzpaq.cpp:2029-2030 | a weight moves by the error times its input, rounded to 2^13ths, or to the nearer end of 20 bits; intermediates fit in 32 bits |
| Predictor.TrainBias | libzpaq/libzpaq.cpp:2038-2038 | the bias moves by the error, rounded to 32nds, or to the nearer end of 20 bits |
| Predictor.TrainCounted | libzpaq/libzpaq.h:1151-1157 | 22 bits of probability move towards the bit by the error at the rate of the count, without ever leaving their range, and the count goes up to its limit |
| Predictor.Rate | libzpaq/libzpaq.cpp:1307-1309 | the table dt: 2^17 over twice the count and three, rounded down, and doubled |
| Predictor.TrainedOk | libzpaq/libzpaq.cpp:1965-2047 | training keeps every cell of every component within its bounds |
| Predictor.CellOfWithin | libzpaq/libzpaq.cpp:1898-1925 | every context selects cells inside the table, whole mixer rows included |
| Predictor.NextContextOk | libzpaq/libzpaq.cpp:2055-2065 | c8 and hmap4 stay two views of the same bits |
| Predictor.ContextBounds | libzpaq/libzpaq.cpp:1955-1958 | c8 in 1..255, hmap4 in 1..511, and a row's checksum cell is never selected |
| Predictor.Predictor.constructor | libzpaq/libzpaq.cpp:1764-1850 | init of an accepted header establishes all bounds |
| Predictor.Predictor.Predict | libzpaq/libzpaq.cpp:1854-1951 | every prediction is in -2048..2047 and computed from the earlier ones, every component notes the cell to be trained; the result is the last one's, in 0..32767 |
| Predictor.Predictor.Update | libzpaq/libzpaq.cpp:1954-2066 | every component is trained on the bit; all bounds hold for the next one |
| Learning.PredictedExactly | libzpaq/libzpaq.cpp:1866-1945 | each component's prediction from its cells and inputs, with every rounding and clamp of predict0 |
| Learning.TrainedExactly | libzpaq/libzpaq.cpp:1966-2047 | how far each component's trained cells move, with every rounding and clamp of update0, and that its other cells stay |
| Learning.WeightTowards | libzpaq/libzpaq.cpp:2029-2030 | a weight's step has the sign of the error times the input, so the product with the same input does not move away from the bit |
| Learning.DotTowards | libzpaq/libzpaq.cpp:2029-2030 | with the same inputs, the sum over a trained row is no smaller if the error is positive and no larger if it is negative |
| Learning.Mix2Towards | libzpaq/libzpaq.cpp:2012-2018 | the same for the mean of two |
| Learning.IsseTowards | libzpaq/libzpaq.cpp:2034-2038 | the same for a bit history's weights and bias |
| Learning.SseTowards | libzpaq/libzpaq.cpp:1929-1940 | the same for a mean of two cells |
| Learning.LearnsTowardsBit | libzpaq/libzpaq.cpp:1965-2047 | with the same context and inputs, a component trained on a bit predicts it with no smaller probability than before, for every kind of component |
| Learning.UntrainedIsNeutral | libzpaq/libzpaq.cpp:1776-1846 | before training a counter predicts one half, a mixer of two their mean, a bit history what its counts say, an SSE the interpolated probability of its input |
| Learning.RowsApart | libzpaq/libzpaq.cpp:1870-1924 | contexts equal modulo the number of rows select the same cells, others select rows that share none |
| Learning.ContextIsBits | libzpaq/libzpaq.cpp:2055-2065 | within a byte c8 is a leading one and the bits so far, hmap4 in the second nibble the two nibbles, each behind a leading one, and behind the byte both are 1 |
| Crc.StepsLinear | lzma/C/7zCrc.c:319-320 | the CRC shift is linear over exclusive or |
| Crc.EntryIsCrc | lzma/C/7zCrc.c:311-328 | table k at byte b is the CRC of b followed by k zero bytes |
| Crc.StepCoded | lzma/C/7zCrc.c:319-320 | the branch-free step is the step |
| Crc.NextEntry | lzma/C/7zCrc.c:324-328 | a later table's entry from the one before |
| Crc.CrcGenerateTable | lzma/C/7zCrc.c:308-328 | fills all twelve tables |
| Crc.ByteStepIs | lzma/C/7zCrcOpt.c:33-33 | CRC_UPDATE_BYTE is the bytewise CRC step |
| Crc.QIs | lzma/C/7zCrcOpt.c:35-39 | four lookups advance a word by its own and the later bytes |
| Crc.WordIs | lzma/C/7zCrcOpt.c:41-41 | a little-endian word goes in at once |
| Crc.TwelveStepIs | lzma/C/7zCrcOpt.c:62-89 | the twelve-byte step is twelve bytewise steps |
| Crc.CrcUpdateT12 | lzma/C/7zCrcOpt.c:50-100 | for every start value, alignment and length, the CRC of the bytes (section 8 of RFC 1952) |
| Crc.PolyIsGenerator | lzma/C/7zCrc.c:316-316 | the polynomial has the fourteen terms below x^32 of CRC-32 (section 8 of RFC 1952) |
| Crc.CheckValue | lzma/C/7zCrc.c:319-320 | the CRC of the nine digits is 0xCBF43926 |
| Cbc.ChainRoundTrip | aes.c:511-542 | decrypting a chain gives it back |
| Cbc.XorIsDifference | aes.c:533-534 | a byte of the result is zero exactly where the blocks agree, and zeros change nothing |
| Cbc.EncAt | aes.c:529-542 | every block is encrypted together with the ciphertext block before it, the first with the initial value |
| Cbc.EncryptedIsChain | util.c:411-427 | the ciphertext is the chain over the data filled up with zeros, its last two blocks exchanged and cut to the data's length |
| Cbc.Unmix | util.c:435-441 | the tail and the stolen bytes come apart again |
| Cbc.CryptRoundTrip | util.c:394-448 | for every length that can be encrypted, decryption undoes encryption and the length is kept |
| Cbc.AesCbcEncrypt | aes.c:529-542 | in place, the chain and the last chaining value; bytes behind it untouched |
| Cbc.AesCbcDecrypt | aes.c:511-528 | the same for decryption, where a block is overwritten before it chains |
| Cbc.LrzEncrypt | util.c:411-427 | the buffer becomes the specified ciphertext |
| Cbc.LrzDecrypt | util.c:428-448 | the buffer becomes the specified plaintext |
| Md5.PaddingFillsBlocks | md5.c:112-124 | padding completes a block and leaves room for the length |
| Md5.PaddingOfThree | md5.c:112-124 | what a message of three bytes is padded with |
| Md5.InitialBytes | md5.c:74-77 | the first state as bytes (section 3.3 of RFC 1321) |
| Md5.OneBlock | md5.c:305-328 | a block goes through the block function once |
| Md5.CarryCounts | md5.c:321-322 | two wrapping words with a carry count bytes modulo 2^64 |
| Md5.BitLength | md5.c:121-122 | the two words, shifted, are the length in bits modulo 2^64 |
| Md5.PaddedTail | md5.c:112-127 | what is buffered, the fill bytes and the length are the message's padded tail (sections 3.1 and 3.2 of RFC 1321) |
| Md5.Md5Ctx.ProcessBlock | md5.c:305-328 | whole blocks are processed and counted |
| Md5.Md5Ctx.TopUp | md5.c:230-251 | filling up the buffer; a block that is exactly full waits |
| Md5.Md5Ctx.ProcessBytes | md5.c:225-290 | the message grows by the bytes; at most 64 stay buffered, from aligned or unaligned memory |
| Md5.Md5Ctx.Finish | md5.c:108-130 | the digest of the padded message |
| Md5Worker.StepKeeps | rzip.c:845-916 | every step keeps one ownership token and every byte hashed or pending, in order |
| Md5Worker.EveryRunFeeds | runzip.c:214-298 | producer and worker never own the buffer together; when the producer owns it again or has joined, everything is hashed |
| Md5Worker.NeverStuck | runzip.c:255-275 | no reachable state before the join is deadlocked |
| Md5Worker.DigestBatches | rzip.c:854-856 | the digest of batches is that of their concatenation |
| Md5Worker.ThreadedDigest | rzip.c:897-910 | after the join the digest is that of everything produced, for every interleaving and batching |
| SlidingBuffer.PageStarts | util.c:176-181 | rounding to a page |
| SlidingBuffer.SamePage | rzip.c:130-132 | with a page-aligned chunk, rounding in the file and in the chunk agree |
| SlidingBuffer.SlidingBuffer.RemapLow | rzip.c:108-123 | the low map shows the chunk from the search position's page |
| SlidingBuffer.SlidingBuffer.RemapHigh | rzip.c:125-139 | the high map shows the page of a position, cut at the chunk's end |
| SlidingBuffer.SlidingBuffer.Search | rzip.c:999-1001 | advancing the search keeps both maps true |
| SlidingBuffer.SlidingBuffer.GetByte | rzip.c:154-170 | the chunk's byte, wherever it is mapped |
| SlidingBuffer.SlidingBuffer.MapForward | rzip.c:173-194 | a run of the chunk's bytes from a position |
| SlidingBuffer.SlidingBuffer.MapBackward | rzip.c:196-223 | a run of the chunk's bytes before a position |
| SlidingBuffer.SlidingBuffer.Copy | rzip.c:252-263 | the same bytes as direct indexing |
| SlidingBuffer.SlidingBuffer.NextTag | rzip.c:531-545 | the same rolling tag |
| SlidingBuffer.SlidingBuffer.FullTag | rzip.c:557-595 | the same tag, mapped in one piece or several |

## Left out

- EndToEnd.RestoreChunk: of a container with a truncated number only ContainerReading.StreamIsRead, ContainerReading.BackwardLinkBreaks and the refusal of a misplaced first control block say what is read; what a decoder makes of other bytes depends on those bytes.
- `payload_end` and `infile_size` (stream.c:2143-2156, 2179-2192): links and blocks are not bounded by the end of a frame, and a link past the end of the file is refused only when it is followed.
- A magic header, the stored MD5 and LRZC headers in `WholeFile`: a file is its chunks and whatever follows them.
- `sliding_match_len` (rzip.c:662-744): it keeps two window pointers across calls that may remap; the linear matcher stands for both.
- Systems with a page size different from the compiled one; `mmap` failures and the retries they cause.
- Encryption of the container, its headers and its salt; AEAD; key derivation. CBC is modelled on its own, and in `WholeFile.RoundTrip` encrypting decides only whether the main thread waits and whether the size is known.
- LRZC framing and the end-of-frame checks, magic and option parsing, formats before 0.7.
- The retries of `open_stream_out` after a failed `malloc` (stream.c:1208-1235), and that the thread count it lowers is the one the slots are taken from; progress output, priorities.
- Failures that end the process: a worker that gives up releases its turn in `OutputTurns`, but the exit that follows is not modelled.
- Chunk prefilters and their choice; the back ends themselves.
- The store mode of the range coder for headers without components (libzpaq/libzpaq.cpp:2147-2154, 2168-2180, 2436-2446), which lrzip never selects; ZPAQL programs, the post-processor and the JIT.
- `find` and the bit-history rows, the match model's buffer: inputs of the predictor.
- AES and SHA rounds, MD5's rounds and constants.
- The all-ones tag is exempt from reachability and lookup claims.
