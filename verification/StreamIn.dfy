/** The reader's side of the two streams: fill_buffer keeps a ring of decompressing threads per
    stream ahead of read_stream. */
module StreamIn {
  import opened Bytes
  import opened Container
  import Bits

  // ---- One stream's ring ----

  /** struct uncomp_thread: what a thread is given, and the bytes counted for it. */
  datatype Slot = Slot(busy: bool, data: Data, mAlloced: nat)

  /** struct stream, as far as reading goes. */
  datatype Stream = Stream(base: nat, total: nat, uthread: nat, unext: nat, lastHead: nat, eos: bool,
                           buf: seq<byte>, bufp: nat)

  /** The allocation for a block. */
  function Alloc(d: Data): nat {
    Bits.Max(d.ulen, |d.payload|)
  }

  function Busy(d: Data): Slot {
    Slot(true, d, Alloc(d))
  }

  predicate Idle(slot: Slot) {
    !slot.busy && slot.mAlloced == 0
  }

  /** The slot i places behind the next one to be taken. */
  function SlotAt(st: Stream, i: nat): nat {
    if st.unext + i >= st.base + st.total then st.unext + i - st.total else st.unext + i
  }

  function Advance(st: Stream, slot: nat): nat {
    if slot + 1 == st.base + st.total then st.base else slot + 1
  }

  /** The busy slots are the cyclic interval from unext to uthread and hold the blocks of q, in
      order; the others are idle. */
  ghost predicate RingOk(st: Stream, slots: seq<Slot>, q: seq<Data>) {
    && 0 < st.total && st.base <= st.unext < st.base + st.total <= |slots|
    && |q| <= st.total && st.uthread == SlotAt(st, |q|)
    && (forall i: nat | i < |q| :: slots[SlotAt(st, i)] == Busy(q[i]))
    && (forall i: nat | |q| <= i < st.total :: Idle(slots[SlotAt(st, i)]))
  }

  lemma RingStart(st: Stream, slots: seq<Slot>, q: seq<Data>, d: Data)
    requires RingOk(st, slots, q) && |q| < st.total
    ensures !slots[st.uthread].busy && slots[st.uthread].mAlloced == 0
    ensures RingOk(st.(uthread := Advance(st, st.uthread)), slots[st.uthread := Busy(d)], q + [d])
  {
    assert Idle(slots[SlotAt(st, |q|)]);
    var st' := st.(uthread := Advance(st, st.uthread));
    forall i: nat | |q| < i < st.total
      ensures Idle(slots[st.uthread := Busy(d)][SlotAt(st', i)])
    {
      assert SlotAt(st', i) == SlotAt(st, i) != st.uthread;
      assert Idle(slots[SlotAt(st, i)]);
    }
  }

  lemma RingBounds(st: Stream, slots: seq<Slot>, q: seq<Data>)
    requires RingOk(st, slots, q)
    ensures 0 < st.total && st.base + st.total <= |slots| && |q| <= st.total
    ensures st.base <= st.unext < st.base + st.total && st.base <= st.uthread < st.base + st.total
    ensures slots[st.unext].busy <==> q != []
    ensures q != [] ==> slots[st.unext] == Busy(q[0])
  {
    assert SlotAt(st, 0) == st.unext;
    if q == [] {
      assert Idle(slots[SlotAt(st, 0)]);
    }
  }

  /** A ring does not depend on the other fields. */
  lemma RingSame(st: Stream, st': Stream, slots: seq<Slot>, q: seq<Data>)
    requires RingOk(st, slots, q)
    requires st'.base == st.base && st'.total == st.total && st'.uthread == st.uthread && st'.unext == st.unext
    ensures RingOk(st', slots, q)
  {
    forall i: nat | i < st.total
      ensures SlotAt(st', i) == SlotAt(st, i)
    {
    }
  }

  lemma RingTake(st: Stream, slots: seq<Slot>, q: seq<Data>, idle: Slot)
    requires RingOk(st, slots, q) && q != [] && Idle(idle)
    ensures slots[st.unext] == Busy(q[0])
    ensures RingOk(st.(unext := Advance(st, st.unext)), slots[st.unext := idle], q[1..])
  {
    assert SlotAt(st, 0) == st.unext;
    var st' := st.(unext := Advance(st, st.unext));
    forall i: nat | i < |q| - 1
      ensures slots[st.unext := idle][SlotAt(st', i)] == Busy(q[1..][i])
    {
      assert SlotAt(st', i) == SlotAt(st, i + 1);
    }
    forall i: nat | |q| - 1 <= i < st.total
      ensures Idle(slots[st.unext := idle][SlotAt(st', i)])
    {
      assert i + 1 < st.total ==> SlotAt(st', i) == SlotAt(st, i + 1);
    }
  }

  lemma RingElsewhere(st: Stream, slots: seq<Slot>, q: seq<Data>, j: nat, slot: Slot)
    requires RingOk(st, slots, q) && j < |slots| && !(st.base <= j < st.base + st.total)
    ensures RingOk(st, slots[j := slot], q)
  {
  }

  // ---- The memory accounted for ----

  function RamOf(slots: seq<Slot>): nat {
    if slots == [] then 0 else slots[0].mAlloced + RamOf(slots[1..])
  }

  lemma {:induction false} RamUpdate(slots: seq<Slot>, i: nat, slot: Slot)
    requires i < |slots|
    ensures RamOf(slots[i := slot]) + slots[i].mAlloced == RamOf(slots) + slot.mAlloced
    decreases i
  {
    if i == 0 {
      assert slots[0 := slot][1..] == slots[1..];
    } else {
      assert slots[i := slot][1..] == slots[1..][i - 1 := slot];
      RamUpdate(slots[1..], i - 1, slot);
    }
  }

  /** What the blocks of a ring take. */
  function AllocSum(q: seq<Data>): nat {
    if q == [] then 0 else Alloc(q[0]) + AllocSum(q[1..])
  }

  lemma {:induction false} AllocSumPush(q: seq<Data>, d: Data)
    ensures AllocSum(q + [d]) == AllocSum(q) + Alloc(d)
    decreases |q|
  {
    if q == [] {
      assert (q + [d])[1..] == [];
    } else {
      assert (q + [d])[1..] == q[1..] + [d];
      AllocSumPush(q[1..], d);
    }
  }

  lemma AllocSumFirst(q: seq<Data>)
    requires q != []
    ensures AllocSum(q) == Alloc(q[0]) + AllocSum(q[1..])
  {
  }

  lemma AllocOne(q: seq<Data>)
    requires |q| == 1
    ensures AllocSum(q) == Alloc(q[0])
  {
    assert q[1..] == [];
  }

  ghost predicate AllAtLeast(ds: seq<Data>, m: nat) {
    forall d | d in ds :: Alloc(d) >= m
  }

  lemma AtLeastRest(ds: seq<Data>, q: seq<Data>, rest: seq<Data>, m: nat)
    requires AllAtLeast(ds, m) && ds == q + rest
    ensures AllAtLeast(rest, m)
  {
    forall d | d in rest
      ensures d in ds
    {
    }
  }

  ghost predicate AllBelow(ds: seq<Data>, m: nat) {
    forall d | d in ds :: Alloc(d) < m
  }

  lemma BelowRest(q: seq<Data>, rest: seq<Data>, m: nat)
    requires q != [] && AllBelow(q + rest, m)
    ensures AllBelow(q[1..] + rest, m)
  {
    assert q + rest == [q[0]] + (q[1..] + rest);
    forall d | d in q[1..] + rest
      ensures d in q + rest
    {
    }
  }

  lemma OneFills(q: seq<Data>, d: Data, ds: seq<Data>, m: nat)
    requires q == [d] && d in ds && AllAtLeast(ds, m)
    ensures AllocSum(q) >= m
  {
    AllocOne(q);
  }

  /** Small blocks that together reach the limit are at least two. */
  lemma SumOfSmall(q: seq<Data>, rest: seq<Data>, m: nat)
    requires AllBelow(q + rest, m) && AllocSum(q) >= m > 0
    ensures |q| >= 2
  {
    assert q != [] ==> (q + rest)[0] == q[0];
    if |q| == 1 {
      AllocOne(q);
    }
  }

  lemma {:induction false} NoRam(slots: seq<Slot>)
    requires forall slot | slot in slots :: slot.mAlloced == 0
    ensures RamOf(slots) == 0
  {
    if slots != [] {
      NoRam(slots[1..]);
    }
  }

  // ---- What is still to come ----

  /** A back end: gives the ulen bytes of a block, or none for damaged data. */
  type Unpack = Data -> Option<seq<byte>>

  /** The bytes of these blocks, if every one of them unpacks. */
  function Deliver(unpack: Unpack, blocks: seq<Data>): Option<seq<byte>> {
    if blocks == [] then Some([])
    else match unpack(blocks[0])
      case None => None
      case Some(bytes) =>
        match Deliver(unpack, blocks[1..])
        case None => None
        case Some(rest) => Some(bytes + rest)
  }

  /** The blocks of the list that have not been started, and the bytes they take. */
  function Ahead(st: Stream, fetch: nat -> Fetch, wl: nat, limit: nat): Listing {
    if st.eos then Listed([], 0) else Follow(fetch, st.lastHead, wl, limit)
  }

  /** The bytes of the file that following a list from pos counts, up to a header that cannot be
      accepted, if there is one. */
  function Weight(fetch: nat -> Fetch, pos: nat, wl: nat, limit: nat): nat
    decreases limit - pos
  {
    if pos >= limit then HeaderLen(wl)
    else match fetch(pos)
      case Invalid => HeaderLen(wl)
      case EmptyTail => HeaderLen(wl)
      case Fetched(_, _, payload, link) =>
        HeaderLen(wl) + |payload|
        + (if link == 0 then 0 else if link <= pos then HeaderLen(wl) else Weight(fetch, link, wl, limit))
  }

  lemma {:induction false} WeightIsCounted(fetch: nat -> Fetch, pos: nat, wl: nat, limit: nat)
    ensures Weight(fetch, pos, wl, limit) >= HeaderLen(wl)
    ensures var l := Follow(fetch, pos, wl, limit); l.Listed? ==> l.totalRead == Weight(fetch, pos, wl, limit)
    decreases limit - pos
  {
    if pos < limit && fetch(pos).Fetched? && fetch(pos).link > pos {
      WeightIsCounted(fetch, fetch(pos).link, wl, limit);
    }
  }

  /** What is still to be counted of a list. */
  function Uncounted(st: Stream, fetch: nat -> Fetch, wl: nat, limit: nat): nat {
    if st.eos then 0 else Weight(fetch, st.lastHead, wl, limit)
  }

  /** The decompressed bytes the blocks of a ring announce. */
  function SumLen(q: seq<Data>): nat {
    if q == [] then 0 else q[0].ulen + SumLen(q[1..])
  }

  lemma {:induction false} SumLenPush(q: seq<Data>, d: Data)
    ensures SumLen(q + [d]) == SumLen(q) + d.ulen
    decreases |q|
  {
    if q == [] {
      assert (q + [d])[1..] == [];
    } else {
      assert (q + [d])[1..] == q[1..] + [d];
      SumLenPush(q[1..], d);
    }
  }

  /** Those of a list, up to a header that cannot be accepted. */
  function ListLen(fetch: nat -> Fetch, pos: nat, limit: nat): nat
    decreases limit - pos
  {
    if pos >= limit then 0
    else match fetch(pos)
      case Invalid => 0
      case EmptyTail => 0
      case Fetched(_, ulen, _, link) => ulen + (if link <= pos then 0 else ListLen(fetch, link, limit))
  }

  function AheadLen(st: Stream, fetch: nat -> Fetch, limit: nat): nat {
    if st.eos then 0 else ListLen(fetch, st.lastHead, limit)
  }

  /** Everything a caller can still read: the buffer, the ring, and the rest of the list. */
  function Remaining(st: Stream, q: seq<Data>, ahead: Listing, unpack: Unpack): Option<seq<byte>> {
    if ahead.Broken? || st.bufp > |st.buf| then None
    else match Deliver(unpack, q + ahead.data)
      case None => None
      case Some(bytes) => Some(st.buf[st.bufp..] + bytes)
  }

  /** The list from pos ends with an empty block. */
  predicate EndsEmpty(fetch: nat -> Fetch, pos: nat, limit: nat)
    decreases limit - pos
  {
    pos < limit && match fetch(pos)
    case Invalid => false
    case EmptyTail => true
    case Fetched(_, _, _, link) => link > pos && EndsEmpty(fetch, link, limit)
  }

  /** One block further along the list. */
  lemma AheadStep(st: Stream, st': Stream, fetch: nat -> Fetch, wl: nat, limit: nat)
    requires !st.eos && !fetch(st.lastHead).Invalid? && st.lastHead < limit
    requires fetch(st.lastHead).Fetched? ==>
      var link := fetch(st.lastHead).link;
      (link == 0 || link > st.lastHead) && st'.lastHead == link && (st'.eos <==> link == 0)
    requires fetch(st.lastHead).EmptyTail? ==> st'.eos
    ensures Ahead(st', fetch, wl, limit).Listed? <==> Ahead(st, fetch, wl, limit).Listed?
    ensures var f := fetch(st.lastHead);
      Uncounted(st, fetch, wl, limit)
      == HeaderLen(wl) + (if f.Fetched? then |f.payload| else 0) + Uncounted(st', fetch, wl, limit)
    ensures AheadLen(st, fetch, limit)
      == (if fetch(st.lastHead).Fetched? then fetch(st.lastHead).ulen else 0) + AheadLen(st', fetch, limit)
    ensures var f, now, next := fetch(st.lastHead), Ahead(st, fetch, wl, limit), Ahead(st', fetch, wl, limit);
      now.Listed? ==>
        now.data == (if f.Fetched? then [Data(f.ctype, f.ulen, f.payload)] else []) + next.data
        && (f.EmptyTail? ==> now.data == [])
    ensures EndsEmpty(fetch, st.lastHead, limit) <==>
      fetch(st.lastHead).EmptyTail? || (!st'.eos && EndsEmpty(fetch, st'.lastHead, limit))
  {
  }

  /** A list that can be followed does not start with an invalid header. */
  lemma ListedStarts(st: Stream, fetch: nat -> Fetch, wl: nat, limit: nat)
    requires !st.eos && Ahead(st, fetch, wl, limit).Listed?
    ensures !fetch(st.lastHead).Invalid?
  {
  }

  lemma FetchSound(file: seq<byte>, pos: nat, wl: nat, k: nat, maxRam: nat)
    ensures var f := FetchBlock(file, pos, wl, k, maxRam);
      && (f.EmptyTail? ==> k == 1)
      && (f.Fetched? ==> f.ulen >= 1 && (f.link == 0 || f.link > pos))
      && (!f.Invalid? ==> pos < |file|)
  {
  }

  ghost predicate AllNonEmpty(blocks: seq<Data>) {
    forall d | d in blocks :: d.ulen >= 1
  }

  /** What unpacks has the length its header says. */
  ghost predicate Exact(unpack: Unpack) {
    forall d: Data :: unpack(d).Some? ==> |unpack(d).value| == d.ulen
  }

  /** Taking the first block's bytes leaves the rest as what remains. */
  lemma TakeFirst(st: Stream, st': Stream, q: seq<Data>, ahead: Listing, unpack: Unpack)
    requires Remaining(st, q, ahead, unpack).Some? && st.bufp == |st.buf| && q != [] && Exact(unpack) && AllNonEmpty(q)
    requires st'.bufp == 0 && (unpack(q[0]).Some? ==> st'.buf == unpack(q[0]).value)
    ensures unpack(q[0]).Some? && st'.buf != []
    ensures Remaining(st', q[1..], ahead, unpack) == Remaining(st, q, ahead, unpack)
  {
    assert (q + ahead.data)[0] == q[0] && (q + ahead.data)[1..] == q[1..] + ahead.data;
    assert |unpack(q[0]).value| == q[0].ulen by {
      assert q[0] in q;
    }
    assert st'.buf[0..] == st'.buf && st.buf[st.bufp..] == [];
    assert Deliver(unpack, q[1..] + ahead.data).Some?;
    assert [] + Deliver(unpack, q + ahead.data).value == Deliver(unpack, q + ahead.data).value;
  }

  lemma SameRemains(st: Stream, st': Stream, q: seq<Data>, q': seq<Data>, ahead: Listing, ahead': Listing, unpack: Unpack)
    requires ahead.Listed? && ahead'.Listed? && q + ahead.data == q' + ahead'.data
    requires st.bufp == |st.buf| && st'.bufp == |st'.buf|
    ensures Remaining(st', q', ahead', unpack) == Remaining(st, q, ahead, unpack)
  {
    assert st.buf[st.bufp..] == st'.buf[st'.bufp..];
  }

  lemma NothingLeft(st: Stream, q: seq<Data>, fetch: nat -> Fetch, wl: nat, limit: nat, unpack: Unpack)
    requires st.eos && q == [] && st.bufp <= |st.buf|
    ensures Remaining(st, q, Ahead(st, fetch, wl, limit), unpack) == Some(st.buf[st.bufp..])
  {
    assert q + [] == [] && st.buf[st.bufp..] + [] == st.buf[st.bufp..];
  }

  lemma SameAhead(st: Stream, st': Stream, fetch: nat -> Fetch, wl: nat, limit: nat)
    requires st'.lastHead == st.lastHead && st'.eos == st.eos
    ensures Ahead(st', fetch, wl, limit) == Ahead(st, fetch, wl, limit)
    ensures Uncounted(st', fetch, wl, limit) == Uncounted(st, fetch, wl, limit)
    ensures AheadLen(st', fetch, limit) == AheadLen(st, fetch, limit)
  {
  }

  lemma FirstDelivers(unpack: Unpack, blocks: seq<Data>)
    requires Exact(unpack) && Deliver(unpack, blocks).Some?
    ensures blocks != [] && blocks[0].ulen >= 1 ==> Deliver(unpack, blocks).value != []
  {
  }

  lemma FirstOfRing(q: seq<Data>, rest: seq<Data>)
    requires AllNonEmpty(q)
    ensures q != [] ==> (q + rest)[0].ulen >= 1
  {
    assert q != [] ==> q[0] in q;
  }

  /** Nothing is left to read: the ring is empty and at most an empty block is left in the list. */
  lemma {:induction false} Exhausted(st: Stream, q: seq<Data>, file: seq<byte>, wl: nat, k: nat, maxRam: nat, unpack: Unpack)
    requires Exact(unpack) && AllNonEmpty(q)
    requires Remaining(st, q, Ahead(st, Fetcher(file, wl, k, maxRam), wl, |file|), unpack) == Some([])
    ensures q == [] && (st.eos || EndsEmpty(Fetcher(file, wl, k, maxRam), st.lastHead, |file|))
    ensures !st.eos ==> Ahead(st, Fetcher(file, wl, k, maxRam), wl, |file|) == Listed([], HeaderLen(wl))
  {
    hide FetchBlock;
    var ahead := Ahead(st, Fetcher(file, wl, k, maxRam), wl, |file|);
    var all := q + ahead.data;
    assert Deliver(unpack, all) == Some([]) by {
      assert |st.buf[st.bufp..] + Deliver(unpack, all).value| == 0;
    }
    FirstDelivers(unpack, all);
    FetchSound(file, st.lastHead, wl, k, maxRam);
    FirstOfRing(q, ahead.data);
  }

  // ---- The reader ----

  /** What one pass of fill_buffer's loop does. */
  datatype Start = Failed | Ended | More

  class StreamReader {
    const file: seq<byte>
    const wl: nat
    const maxRam: nat
    const unpack: Unpack
    const slots: array<Slot>
    const s: array<Stream>
    var ramAlloced: nat
    var totalRead: nat
    /** The blocks in each ring, the next to be taken first. */
    ghost var rings: seq<seq<Data>>

    ghost function Fetches(k: nat): nat -> Fetch {
      Fetcher(file, wl, k, maxRam)
    }

    ghost predicate Valid()
      reads this, slots, s
    {
      && s.Length == NUM_STREAMS && |rings| == NUM_STREAMS
      && s[0].base + s[0].total <= s[1].base
      && (forall k: nat | k < NUM_STREAMS ::
            RingOk(s[k], slots[..], rings[k]) && s[k].bufp <= |s[k].buf| && AllNonEmpty(rings[k]))
      && Exact(unpack)
      && ramAlloced == RamOf(slots[..]) == AllocSum(rings[0]) + AllocSum(rings[1])
      && s[0].total == 1
    }

    ghost function Listing(k: nat): Listing
      requires k < s.Length
      reads this, s
    {
      Ahead(s[k], Fetches(k), wl, |file|)
    }

    /** Two rings of idle slots, one for stream 0 and the rest for stream 1, before the lists'
        first blocks. */
    constructor (file: seq<byte>, wl: nat, maxRam: nat, unpack: Unpack, threads: nat, first0: nat, first1: nat)
      requires Exact(unpack) && threads >= 1
      ensures Valid() && fresh(slots) && fresh(s)
      ensures this.file == file && this.wl == wl && this.maxRam == maxRam && this.unpack == unpack
      ensures rings == [[], []] && totalRead == NUM_STREAMS * HeaderLen(wl)
      ensures s[0] == Stream(0, 1, 0, 0, first0, false, [], 0)
      ensures s[1] == Stream(1, if threads > 1 then threads + 1 else 1, 1, 1, first1, false, [], 0)
    {
      this.file, this.wl, this.maxRam, this.unpack := file, wl, maxRam, unpack;
      var total := if threads > 1 then threads + 2 else threads + 1;
      slots := new Slot[total](_ => Slot(false, Data(0, 0, []), 0));
      s := new Stream[2];
      rings := [[], []];
      ramAlloced, totalRead := 0, NUM_STREAMS * HeaderLen(wl);
      new;
      s[0] := Stream(0, 1, 0, 0, first0, false, [], 0);
      s[1] := Stream(1, total - 1, 1, 1, first1, false, [], 0);
      NoRam(slots[..]);
    }

    /** What can still be read from stream k. */
    ghost function Rest(k: nat): Option<seq<byte>>
      requires k < s.Length && k < |rings|
      reads this, s
    {
      Remaining(s[k], rings[k], Listing(k), unpack)
    }

    /** An empty block ends the list, and nobody has taken note of it yet. */
    ghost predicate TailPending(k: nat)
      requires k < s.Length
      reads this, s
    {
      !s[k].eos && EndsEmpty(Fetches(k), s[k].lastHead, |file|)
    }

    /** The list of stream k is taken block by block: its ring has one slot, or every block
        exhausts the memory limit. Between calls the ring is then empty. */
    ghost predicate OneByOne(k: nat)
      requires k < s.Length && k < |rings|
      reads this, s
    {
      Listing(k).Listed? && (s[k].total == 1 || (rings[k] == [] && AllAtLeast(Listing(k).data, maxRam)))
    }

    /** Prefetching does not stop at the first block. */
    ghost predicate Ample(k: nat)
      requires k < s.Length && k < |rings|
      reads this, s
    {
      Listing(k).Listed? && s[k].total >= 3 && maxRam > 0 && AllBelow(rings[k] + Listing(k).data, maxRam)
    }

    /** An unnoticed empty block has data in front of it that is still to be read. */
    ghost predicate TailAhead(k: nat)
      requires k < s.Length && k < |rings|
      reads this, s
    {
      Listing(k).Listed? && TailPending(k) ==> rings[k] + Listing(k).data != []
    }

    twostate predicate SameTail(k: nat)
      requires k < s.Length && k < |rings| && old(k < |rings|)
      reads this, s
    {
      && TailPending(k) == old(TailPending(k)) && OneByOne(k) == old(OneByOne(k))
      && Ample(k) == old(Ample(k)) && TailAhead(k) == old(TailAhead(k))
    }

    /** Between calls there is always a free slot. */
    ghost predicate Settled(k: nat)
      requires k < s.Length && k < |rings|
      reads this, s
    {
      |rings[k]| < s[k].total
    }

    /** The other stream is as it was. */
    twostate predicate Untouched(k: nat)
      requires Valid() && old(Valid())
      reads this, slots, s
    {
      forall i: nat | i < NUM_STREAMS && i != k :: s[i] == old(s[i]) && rings[i] == old(rings[i])
    }

    twostate predicate SameBuffer(k: nat)
      requires k < s.Length
      reads this, s
    {
      s[k].buf == old(s[k].buf) && s[k].bufp == old(s[k].bufp) && s[k].total == old(s[k].total)
    }

    /** What is still to be counted of stream k's list. */
    ghost function Owed(k: nat): nat
      requires k < s.Length
      reads this, s
    {
      Uncounted(s[k], Fetches(k), wl, |file|)
    }

    /** The bytes that can at most still be read from stream k. */
    ghost function Volume(k: nat): nat
      requires k < s.Length && k < |rings| && s[k].bufp <= |s[k].buf|
      reads this, s
    {
      |s[k].buf| - s[k].bufp + SumLen(rings[k]) + AheadLen(s[k], Fetches(k), |file|)
    }

    /** n bytes have been handed out; every byte read from the file has been counted; a list that
        cannot be followed to its end stays so. */
    twostate predicate Counted(k: nat, n: nat)
      requires k < NUM_STREAMS && old(Valid()) && Valid()
      reads this, slots, s
    {
      && totalRead + Owed(k) == old(totalRead) + old(Owed(k))
      && Volume(k) + n == old(Volume(k))
      && Listing(k).Broken? == old(Listing(k)).Broken?
      && s[k].total == old(s[k].total)
    }

    /** Blocks have moved from the list to the ring. */
    twostate predicate Onward(k: nat)
      requires k < s.Length && old(k < |rings|) && k < |rings|
      reads this, s
    {
      && old(Listing(k)).Listed? && Listing(k).Listed?
      && rings[k] + Listing(k).data == old(rings[k]) + old(Listing(k)).data
    }

    /** Give the slot at uthread a block. */
    method Begin(k: nat, d: Data)
      requires Valid() && k < NUM_STREAMS && |rings[k]| < s[k].total && d.ulen >= 1
      modifies this`ramAlloced, this`rings, slots, s
      ensures Valid() && Untouched(k)
      ensures s[k] == old(s[k]).(uthread := s[k].uthread) && rings[k] == old(rings[k]) + [d]
    {
      hide RingOk, RamOf, AllocSum;
      var st := s[k];
      ghost var was := slots[..];
      AllocSumPush(rings[k], d);
      RingBounds(st, slots[..], rings[k]);
      RingBounds(s[1 - k], slots[..], rings[1 - k]);
      ramAlloced := ramAlloced + Alloc(d);
      RingStart(st, slots[..], rings[k], d);
      RingElsewhere(s[1 - k], slots[..], rings[1 - k], st.uthread, Busy(d));
      RamUpdate(slots[..], st.uthread, Busy(d));
      slots[st.uthread] := Busy(d);
      assert slots[..] == was[st.uthread := Busy(d)];
      rings := rings[k := rings[k] + [d]];
      s[k] := st.(uthread := Advance(st, st.uthread));
    }

    /** Free the slot at unext, keeping its bytes. */
    method Release(k: nat, bytes: seq<byte>)
      requires Valid() && k < NUM_STREAMS && rings[k] != []
      modifies this`ramAlloced, this`rings, slots, s
      ensures Valid() && Untouched(k)
      ensures s[k] == old(s[k]).(unext := s[k].unext, buf := bytes, bufp := 0) && rings[k] == old(rings[k])[1..]
    {
      hide RingOk, RamOf, AllocSum;
      var st := s[k];
      ghost var was := slots[..];
      RingBounds(st, slots[..], rings[k]);
      RingBounds(s[1 - k], slots[..], rings[1 - k]);
      var slot := slots[st.unext];
      var idle := slot.(busy := false, mAlloced := 0);
      AllocSumFirst(rings[k]);
      RingTake(st, slots[..], rings[k], idle);
      RingElsewhere(s[1 - k], slots[..], rings[1 - k], st.unext, idle);
      RamUpdate(slots[..], st.unext, idle);
      ramAlloced := ramAlloced - slot.mAlloced;
      slots[st.unext] := idle;
      assert slots[..] == was[st.unext := idle];
      rings := rings[k := rings[k][1..]];
      s[k] := st.(unext := Advance(st, st.unext), buf := bytes, bufp := 0);
      RingSame(st.(unext := Advance(st, st.unext)), s[k], slots[..], rings[k]);
    }

    /** An empty block ends the list. */
    method EndList(k: nat)
      requires Valid() && k < NUM_STREAMS
      modifies this`totalRead, s
      ensures Valid() && Untouched(k) && rings == old(rings)
      ensures s[k] == old(s[k]).(eos := true) && totalRead == old(totalRead) + HeaderLen(wl)
    {
      hide RingOk, RamOf, AllocSum;
      totalRead := totalRead + HeaderLen(wl);
      s[k] := s[k].(eos := true);
      RingSame(old(s[k]), s[k], slots[..], rings[k]);
    }

    /** A block is started; its link leads on. */
    method StartBlock(k: nat, d: Data, link: nat)
      requires Valid() && k < NUM_STREAMS && |rings[k]| < s[k].total && d.ulen >= 1
      modifies this, slots, s
      ensures Valid() && Untouched(k)
      ensures s[k] == old(s[k]).(uthread := s[k].uthread, lastHead := link, eos := link == 0)
      ensures rings[k] == old(rings[k]) + [d]
      ensures totalRead == old(totalRead) + HeaderLen(wl) + |d.payload|
    {
      hide RingOk, RamOf, AllocSum;
      totalRead := totalRead + HeaderLen(wl) + |d.payload|;
      Begin(k, d);
      var st := s[k];
      s[k] := st.(lastHead := link, eos := link == 0);
      RingSame(st, s[k], slots[..], rings[k]);
    }

    /** Read the header and the payload of the next block of stream k and start a thread on it. */
    method StartNext(k: nat) returns (r: Start)
      requires Valid() && k < NUM_STREAMS && !s[k].eos && |rings[k]| < s[k].total
      modifies this, slots, s
      ensures r != Failed ==> Valid() && Untouched(k) && (r == Ended <==> s[k].eos) && SameBuffer(k)
      ensures r != Failed ==> Counted(k, 0)
      ensures r == More ==> |rings[k]| == |old(rings[k])| + 1
      ensures old(Listing(k)).Listed? ==> r != Failed && Onward(k)
      ensures old(Listing(k)).Listed? ==> TailPending(k) == (old(TailPending(k)) && r != Ended)
      ensures old(Listing(k)).Listed? && old(Listing(k)).data != [] ==>
        rings[k] == old(rings[k]) + [old(Listing(k)).data[0]] && TailPending(k) == old(TailPending(k))
    {
      hide FetchBlock, RingOk, RamOf, Ahead, Uncounted, AheadLen, EndsEmpty, Exact, AllNonEmpty;
      ghost var st := s[k];
      if old(Listing(k)).Listed? {
        ListedStarts(st, Fetches(k), wl, |file|);
      }
      FetchSound(file, st.lastHead, wl, k, maxRam);
      match FetchBlock(file, s[k].lastHead, wl, k, maxRam) {
        case Invalid =>
          r := Failed;
        case EmptyTail =>
          EndList(k);
          r := Ended;
        case Fetched(ctype, ulen, payload, link) =>
          SumLenPush(rings[k], Data(ctype, ulen, payload));
          StartBlock(k, Data(ctype, ulen, payload), link);
          r := if link == 0 then Ended else More;
      }
      if r != Failed {
        AheadStep(st, s[k], Fetches(k), wl, |file|);
      }
    }

    /** Wait for the next thread of stream k and take its bytes. */
    method TakeNext(k: nat) returns (ok: bool)
      requires Valid() && k < NUM_STREAMS
      modifies this, slots, s
      ensures ok ==> Valid() && Untouched(k)
      ensures ok <==> old(rings[k]) != [] && unpack(old(rings[k])[0]).Some?
      ensures ok ==>
        && s[k] == old(s[k]).(unext := s[k].unext, buf := unpack(old(rings[k])[0]).value, bufp := 0)
        && rings[k] == old(rings[k])[1..]
        && totalRead == old(totalRead)
    {
      var st := s[k];
      ghost var q := rings[k];
      hide RingOk, RamOf, AllocSum;
      RingBounds(st, slots[..], q);
      var slot := slots[st.unext];
      if !slot.busy {
        return false;
      }
      match unpack(slot.data) {
        case None =>
          return false;
        case Some(bytes) =>
          Release(k, bytes);
          return true;
      }
    }

    /** Start threads on the next blocks of stream k while slots are free and memory allows. */
    method Prefetch(k: nat) returns (ok: bool)
      requires Valid() && k < NUM_STREAMS && Settled(k) && !s[k].eos
      modifies this, slots, s
      ensures ok ==> Valid() && Untouched(k) && SameBuffer(k) && Counted(k, 0)
      ensures old(Listing(k)).Listed? ==> ok && Onward(k) && (TailPending(k) ==> old(TailPending(k)))
      ensures old(OneByOne(k)) && old(Listing(k)).data != [] ==> |rings[k]| == 1 && TailPending(k) == old(TailPending(k))
      ensures ok && !s[k].eos ==> rings[k] != [] && (|rings[k]| >= s[k].total || ramAlloced >= maxRam)
    {
      hide RingOk, RamOf, AllocSum, Ahead, Uncounted, AheadLen, EndsEmpty, Exact, AllNonEmpty, AllAtLeast;
      ghost var list := Listing(k);
      var r := StartNext(k);
      if r == Failed {
        return false;
      }
      if old(OneByOne(k)) && list.data != [] && s[k].total != 1 {
        OneFills(rings[k], list.data[0], list.data, maxRam);
      }
      while r == More && CanStart(k)
        invariant Valid() && Untouched(k) && Counted(k, 0)
        invariant old(Listing(k)).Listed? ==> Onward(k) && TailPending(k) == (old(TailPending(k)) && r != Ended)
        invariant old(OneByOne(k)) && old(Listing(k)).data != [] ==>
          |rings[k]| == 1 && !CanStart(k) && TailPending(k) == old(TailPending(k))
        invariant r != Failed && (r == Ended <==> s[k].eos)
        invariant r == More ==> rings[k] != []
        invariant SameBuffer(k)
        decreases r == More, s[k].total - |rings[k]|
      {
        r := StartNext(k);
        if r == Failed {
          return false;
        }
      }
      return true;
    }

    /** Prefetch, and what is then known of the end of the list. */
    method FetchAhead(k: nat) returns (ok: bool)
      requires Valid() && k < NUM_STREAMS && Settled(0) && Settled(1) && !s[k].eos && s[k].bufp == |s[k].buf|
      modifies this, slots, s
      ensures ok ==> Valid() && Untouched(k) && SameBuffer(k) && Counted(k, 0) && (rings[k] == [] ==> s[k].eos)
      ensures old(Listing(k)).Listed? ==>
        ok && Onward(k) && (TailPending(k) ==> old(TailPending(k))) && Rest(k) == old(Rest(k))
      ensures old(OneByOne(k)) && old(Listing(k)).data != [] ==>
        && |rings[k]| == 1 && TailPending(k) == old(TailPending(k))
        && (s[k].total == 1 || AllAtLeast(Listing(k).data, maxRam))
      ensures old(Ample(k)) ==> Ample(k) && (TailPending(k) ==> |rings[k]| >= 2)
    {
      hide RingOk, RamOf, Ahead, Uncounted, AheadLen, EndsEmpty, Exact, AllNonEmpty, AllAtLeast, AllBelow, Deliver;
      ghost var st, q, list := s[k], rings[k], Listing(k);
      ok := Prefetch(k);
      if list.Listed? {
        SameRemains(st, s[k], q, rings[k], list, Listing(k), unpack);
      }
      if old(OneByOne(k)) && list.data != [] && s[k].total != 1 {
        AtLeastRest(list.data, rings[k], Listing(k).data, maxRam);
      }
      if old(Ample(k)) && ramAlloced >= maxRam {
        SumOfSmall(rings[k], Listing(k).data, maxRam);
      }
    }

    /** The test before starting another thread. */
    predicate CanStart(k: nat)
      requires Valid() && k < NUM_STREAMS
      reads this, slots, s
      ensures rings[k] != [] ==> (CanStart(k) <==> |rings[k]| < s[k].total && ramAlloced < maxRam)
    {
      RingBounds(s[k], slots[..], rings[k]);
      s[k].uthread != s[k].unext && !slots[s[k].uthread].busy && ramAlloced < maxRam
    }

    /** Drop the used-up buffer of stream k. */
    method DropBuffer(k: nat)
      requires Valid() && k < NUM_STREAMS && s[k].bufp == |s[k].buf|
      modifies s
      ensures Valid() && Untouched(k) && s[k] == old(s[k]).(buf := [], bufp := 0) && Counted(k, 0)
      ensures Listing(k) == old(Listing(k)) && SameTail(k) && Rest(k) == old(Rest(k))
    {
      hide RingOk, RamOf, AllocSum, Follow, EndsEmpty;
      s[k] := s[k].(buf := [], bufp := 0);
      RingSame(old(s[k]), s[k], slots[..], rings[k]);
      if Listing(k).Listed? {
        SameRemains(old(s[k]), s[k], rings[k], rings[k], Listing(k), Listing(k), unpack);
      }
    }

    /** Take the bytes of the next block into the empty buffer. */
    method Refill(k: nat) returns (ok: bool)
      requires Valid() && k < NUM_STREAMS && s[k].bufp == |s[k].buf|
      modifies this, slots, s
      ensures ok ==> Valid() && Settled(k) && Untouched(k) && Counted(k, 0)
      ensures old(rings[k]) == [] ==> !ok
      ensures old(Rest(k)).Some? && old(rings[k]) != [] ==>
        && ok && Rest(k) == old(Rest(k)) && s[k].bufp == 0 < |s[k].buf|
        && rings[k] == old(rings[k])[1..] && Listing(k) == old(Listing(k)) && TailPending(k) == old(TailPending(k))
        && (old(Ample(k)) ==> Ample(k))
    {
      hide RingOk, RamOf, AllocSum, Ahead, Uncounted, AheadLen, EndsEmpty, Deliver, AllBelow;
      ghost var st, q, ahead := s[k], rings[k], Listing(k);
      RingBounds(st, slots[..], q);
      if Rest(k).Some? && q != [] {
        TakeFirst(st, st.(buf := if unpack(q[0]).Some? then unpack(q[0]).value else [], bufp := 0), q, ahead, unpack);
      }
      if Ample(k) && q != [] {
        BelowRest(q, ahead.data, maxRam);
      }
      ok := TakeNext(k);
      if ok {
        SameAhead(st, s[k], Fetches(k), wl, |file|);
      }
    }

    /** An unnoticed empty block does not come back. It is never noticed when the blocks are taken
        one by one, and always before the last data is handed out when several are prefetched. */
    twostate predicate TailKept(k: nat)
      requires k < s.Length && k < |rings| && old(k < |rings|)
      reads this, s
    {
      && (TailPending(k) ==> old(TailPending(k)))
      && (old(OneByOne(k)) ==> OneByOne(k) && TailPending(k) == old(TailPending(k)))
      && (old(Ample(k)) ==> Ample(k) && (old(TailAhead(k)) ==> TailAhead(k)))
    }

    /** Get the next block's bytes into the empty buffer of stream k. */
    method FillBuffer(k: nat) returns (ok: bool)
      requires Valid() && k < NUM_STREAMS && Settled(0) && Settled(1) && s[k].bufp == |s[k].buf|
      modifies this, slots, s
      ensures ok ==> Valid() && Settled(0) && Settled(1) && Untouched(k) && Counted(k, 0)
      ensures old(Rest(k)).Some? && old(Rest(k)).value != [] ==>
        ok && Rest(k) == old(Rest(k)) && s[k].bufp == 0 < |s[k].buf| && TailKept(k)
      ensures old(Rest(k)) == Some([]) ==>
        && (ok <==> !old(TailPending(k)))
        && (ok ==> Rest(k) == Some([]) && !TailPending(k) && TailKept(k))
    {
      hide RingOk, RamOf, AllocSum, Ahead, Uncounted, AheadLen, EndsEmpty, Deliver, AllNonEmpty, Exact, AllAtLeast, AllBelow;
      DropBuffer(k);
      ghost var st, q, ahead := s[k], rings[k], Listing(k);
      RingBounds(s[k], slots[..], rings[k]);
      if Rest(k) == Some([]) {
        Exhausted(st, q, file, wl, k, maxRam, unpack);
      }
      if s[k].eos {
        if !slots[s[k].unext].busy {
          NothingLeft(s[k], rings[k], Fetches(k), wl, |file|, unpack);
          return true;
        }
      } else {
        ok := FetchAhead(k);
        if !ok {
          return;
        }
      }
      if rings[k] == [] {
        NothingLeft(s[k], rings[k], Fetches(k), wl, |file|, unpack);
      }
      ok := Refill(k);
    }

    /** Copy n bytes out of the buffer. */
    method CopyOut(k: nat, n: nat) returns (p: seq<byte>)
      requires Valid() && k < NUM_STREAMS && n <= |s[k].buf| - s[k].bufp
      modifies s
      ensures Valid() && Untouched(k) && s[k] == old(s[k]).(bufp := old(s[k]).bufp + n) && |p| == n && Counted(k, n)
      ensures Listing(k) == old(Listing(k)) && SameTail(k)
      ensures Rest(k) == (if old(Rest(k)).None? then None else Some(old(Rest(k)).value[n..]))
      ensures old(Rest(k)).Some? ==> n <= |old(Rest(k)).value| && p == old(Rest(k)).value[..n]
    {
      hide RingOk, RamOf, AllocSum, Follow, EndsEmpty, Deliver;
      ghost var st := s[k];
      p := s[k].buf[s[k].bufp..s[k].bufp + n];
      s[k] := s[k].(bufp := s[k].bufp + n);
      RingSame(old(s[k]), s[k], slots[..], rings[k]);
      if Rest(k).Some? {
        ghost var more := Deliver(unpack, rings[k] + Listing(k).data).value;
        assert st.buf[st.bufp..] + more == p + (s[k].buf[s[k].bufp..] + more);
      }
    }

    /** One round of read_stream: copy what is buffered, and fill the buffer if that was too little. */
    method ReadSome(k: nat, left: nat) returns (ok: bool, p: seq<byte>, ended: bool)
      requires Valid() && k < NUM_STREAMS && Settled(0) && Settled(1) && left > 0
      modifies this, slots, s
      ensures ok ==> Valid() && Settled(0) && Settled(1) && Untouched(k) && Counted(k, |p|) && |p| <= left
      ensures ok && !ended && |p| < left ==> |p| > 0 || (s[k].bufp < |s[k].buf| && old(s[k].bufp == |s[k].buf|))
      ensures old(Rest(k)).Some? && ok ==> TailKept(k) && Rest(k).Some? && p + Rest(k).value == old(Rest(k)).value
      ensures old(Rest(k)).Some? && ok && ended ==> Rest(k) == Some([]) && !TailPending(k)
      ensures old(Rest(k)).Some? && !ok ==> old(TailPending(k)) && |old(Rest(k)).value| < left
      ensures ended ==> |p| < left
    {
      hide RingOk, RamOf, AllocSum, Ahead, Uncounted, AheadLen, EndsEmpty, Remaining, Exact, AllNonEmpty;
      hide OneByOne, Ample, TailAhead;
      var n := if |s[k].buf| - s[k].bufp < left then |s[k].buf| - s[k].bufp else left;
      p := CopyOut(k, n);
      ok, ended := true, false;
      if |p| < left {
        ok := FillBuffer(k);
        ended := ok && s[k].bufp == |s[k].buf|;
      }
    }

    /** The next len bytes of stream k, fewer only at its end. Asking for more than there is fails
        when the list ends with an empty block that has not been noticed: there is no thread to
        wait for. */
    method ReadStream(k: nat, len: nat) returns (r: Option<seq<byte>>)
      requires Valid() && k < NUM_STREAMS && Settled(0) && Settled(1)
      modifies this, slots, s
      ensures r.Some? ==> Valid() && Settled(0) && Settled(1) && Untouched(k) && Counted(k, |r.value|) && |r.value| <= len
      ensures old(Rest(k)).Some? && r.Some? ==> TailKept(k)
      ensures old(Rest(k)).Some? && len <= |old(Rest(k)).value| ==>
        r == Some(old(Rest(k)).value[..len]) && Rest(k) == Some(old(Rest(k)).value[len..])
      ensures old(Rest(k)).Some? && len > |old(Rest(k)).value| ==>
        && (r.Some? ==> r == old(Rest(k)) && Rest(k) == Some([]) && !TailPending(k))
        && (r.None? ==> old(TailPending(k)))
    {
      hide RingOk, RamOf, AllocSum, Ahead, Uncounted, AheadLen, EndsEmpty, Remaining, Exact, AllNonEmpty,
        Listing, TailPending, Owed;
      var p: seq<byte> := [];
      ghost var rest := Rest(k);
      while |p| < len
        invariant Valid() && Settled(0) && Settled(1) && Untouched(k) && Counted(k, |p|) && |p| <= len
        invariant rest.Some? ==> TailKept(k) && Rest(k).Some? && p + Rest(k).value == rest.value
        decreases len - |p|, s[k].bufp == |s[k].buf|
      {
        var ok, piece, ended := ReadSome(k, len - |p|);
        if !ok {
          return None;
        }
        Associate(p, piece, if rest.Some? then Rest(k).value else []);
        p := p + piece;
        if ended {
          AllTaken(p, if rest.Some? then Rest(k).value else []);
          return Some(p);
        }
      }
      Taken(p, if rest.Some? then Rest(k).value else []);
      return Some(p);
    }

    /** When both streams have been read out, the bytes counted are those of the two lists exactly
        if no empty last block has been left unnoticed. */
    lemma CountedWhenNoticed(all: nat)
      requires Valid() && Rest(0) == Some([]) && Rest(1) == Some([])
      requires totalRead + Owed(0) + Owed(1) == all
      ensures totalRead == all <==> !TailPending(1)
    {
      hide FetchBlock, RingOk, Follow, Weight;
      Exhausted(s[0], rings[0], file, wl, 0, maxRam, unpack);
      Exhausted(s[1], rings[1], file, wl, 1, maxRam, unpack);
      NeverPending(file, s[0].lastHead, wl, maxRam);
      WeightIsCounted(Fetches(1), s[1].lastHead, wl, |file|);
    }

    /** Read out with data in front of it, an empty last block has been noticed. */
    lemma TailNoticed()
      requires Valid() && Rest(1) == Some([]) && TailAhead(1)
      ensures !TailPending(1)
    {
      hide FetchBlock, RingOk, Follow;
      Exhausted(s[1], rings[1], file, wl, 1, maxRam, unpack);
    }

    /** While a list cannot be followed to its end, something is left to be counted. */
    lemma BrokenIsShort(all: nat)
      requires s.Length == NUM_STREAMS && (Listing(0).Broken? || Listing(1).Broken?)
      requires totalRead + Owed(0) + Owed(1) == all
      ensures totalRead < all
    {
      WeightIsCounted(Fetches(0), s[0].lastHead, wl, |file|);
      WeightIsCounted(Fetches(1), s[1].lastHead, wl, |file|);
    }
  }

  lemma AllTaken(p: seq<byte>, rest: seq<byte>)
    ensures rest == [] ==> p + rest == p
  {
  }

  lemma Taken(p: seq<byte>, rest: seq<byte>)
    ensures |p| <= |p + rest| && (p + rest)[..|p|] == p && (p + rest)[|p|..] == rest
  {
  }

  /** No list of stream 0 ends with an accepted empty block. */
  lemma {:induction false} NeverPending(file: seq<byte>, pos: nat, wl: nat, maxRam: nat)
    ensures !EndsEmpty(Fetcher(file, wl, 0, maxRam), pos, |file|)
    decreases |file| - pos
  {
    hide FetchBlock;
    FetchSound(file, pos, wl, 0, maxRam);
    var f := Fetcher(file, wl, 0, maxRam)(pos);
    if pos < |file| && f.Fetched? && f.link > pos {
      NeverPending(file, f.link, wl, maxRam);
    }
  }
}
