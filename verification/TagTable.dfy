/** The rzip tag table as a value: open addressing with linear probing, where a tag that will
    be swept earlier may never stand in the way of one that will be swept later. `Insert` and
    `Clean` say what the C functions do to the table; HashTable.dfy holds the class that
    overwrites slots in place and is proved equal to them. */
module TagTable {
  import opened Bits

  type Tag = t: nat | t < 0x1_0000_0000

  const ALL_ONES: Tag := 0xFFFF_FFFF

  datatype Entry = Entry(t: Tag, off: nat)

  const EMPTY := Entry(0, 0)

  /** `k` is the number of low ones in minimum_tag_mask. */
  datatype Table = Table(
    slots: seq<Entry>,
    k: nat,
    ptr: nat,
    count: int,
    victimRound: nat,
    maxChain: nat)

  // ---- Bitness ----

  function Trailing(t: Tag): (r: nat) {
    Pow2Values();
    if t == ALL_ONES then 32 else Ctz(Not(t, 32))
  }

  /** The rank that lesser_bitness compares. The all-ones tag has rank 0. */
  function Rank(t: Tag): nat {
    Pow2Values();
    Ffs(Not(t, 32))
  }

  predicate Meets(k: nat, t: Tag) {
    t == ALL_ONES || Trailing(t) >= k
  }

  /** Due for cleaning: does not meet the next mask up. */
  predicate Weak(k: nat, t: Tag) {
    !Meets(k + 1, t)
  }

  function IncreaseMask(m: Tag): Tag {
    (2 * m + 1) % 0x1_0000_0000
  }

  lemma {:induction false} CtzBelow(a: nat, w: nat)
    requires 0 < a < Pow2(w)
    ensures Ctz(a) < w
  {
    if a % 2 == 0 {
      CtzBelow(a / 2, w - 1);
    }
  }

  lemma RankIsTrailing(t: Tag)
    ensures Rank(t) == if t == ALL_ONES then 0 else Trailing(t) + 1
    ensures Trailing(t) <= 32
    ensures t != ALL_ONES ==> Trailing(t) < 32
  {
    Pow2Values();
    if t != ALL_ONES {
      CtzBelow(Not(t, 32), 32);
    }
  }

  /** The mask test of the C code, `(t & mask) == mask`, asks whether t meets the mask. */
  lemma MaskTest(k: nat, t: Tag)
    requires k <= 32
    ensures And(t, LowOnes(k)) == LowOnes(k) <==> Meets(k, t)
  {
    Pow2Values();
    AndLowOnes(t, k);
    MeetsIffTrailing(t, k, 32);
    RankIsTrailing(t);
  }

  function MoreBits(k: nat): nat {
    if k < 32 then k + 1 else 32
  }

  lemma IncreaseMaskOnes(k: nat)
    requires k <= 32
    ensures LowOnes(k) < 0x1_0000_0000
    ensures IncreaseMask(LowOnes(k)) == LowOnes(MoreBits(k))
  {
    Pow2Values();
    Pow2Monotone(k, 32);
    if k < 32 {
      Pow2Monotone(k + 1, 32);
    }
  }

  /** minimum_bitness, as the C code computes it, singles out exactly the weak tags. */
  lemma MinimumBitness(k: nat, t: Tag)
    requires k <= 32
    ensures var better := LowOnes(MoreBits(k)); And(t, better) != better <==> Weak(k, t)
  {
    MaskTest(MoreBits(k), t);
    RankIsTrailing(t);
  }

  // ---- Cyclic positions ----

  function Primary(t: Tag, n: nat): nat
    requires n > 0
  {
    t % n
  }

  function Next(h: nat, n: nat): nat
    requires h < n
  {
    if h + 1 == n then 0 else h + 1
  }

  /** x lies on the cyclic walk that starts at q and has not yet looked at h. */
  predicate Between(q: nat, x: nat, h: nat) {
    if q <= h then q <= x < h else x >= q || x < h
  }

  function Dist(q: nat, h: nat, n: nat): nat
    requires q < n && h < n
  {
    if q <= h then h - q else h - q + n
  }

  lemma BetweenNext(q: nat, h: nat, n: nat)
    requires q < n && h < n && Next(h, n) != q
    ensures forall x: nat | x < n :: Between(q, x, Next(h, n)) <==> Between(q, x, h) || x == h
    ensures Dist(q, Next(h, n), n) == Dist(q, h, n) + 1
  {
  }

  // ---- Insertion ----

  ghost predicate WellFormed(tb: Table) {
    && |tb.slots| > 0
    && tb.k <= 32
    && tb.victimRound < tb.maxChain
  }

  ghost predicate HasRoom(tb: Table) {
    EMPTY in tb.slots
  }

  datatype Stop = Vacant(h: nat) | Due(h: nat) | Lesser(h: nat) | Victim(h: nat) | Lost

  /** Where the probe loop of insert_hash stops. `left` counts the slots not yet looked at;
      a table with room never loses the probe. */
  function Probe(tb: Table, t: Tag, h: nat, round: nat, victim: nat, left: nat): Stop
    requires h < |tb.slots|
    decreases left
  {
    var e := tb.slots[h];
    if e == EMPTY then Vacant(h)
    else if Weak(tb.k, e.t) then Due(h)
    else if Rank(e.t) < Rank(t) then Lesser(h)
    else
      var victim' := if e.t == t && round == tb.victimRound then h else victim;
      var round' := if e.t == t then round + 1 else round;
      if e.t == t && round' == tb.maxChain then Victim(victim')
      else if left == 0 then Lost
      else Probe(tb, t, Next(h, |tb.slots|), round', victim', left - 1)
  }

  function FirstStop(tb: Table, t: Tag): Stop
    requires |tb.slots| > 0
  {
    Probe(tb, t, Primary(t, |tb.slots|), 0, 0, |tb.slots| - 1)
  }

  function NextVictimRound(tb: Table): nat {
    if tb.victimRound + 1 == tb.maxChain then 0 else tb.victimRound + 1
  }

  /** What insert_hash makes of the table. */
  function Insert(tb: Table, t: Tag, off: nat): (r: Table)
    requires |tb.slots| > 0
    ensures |r.slots| == |tb.slots| && r.k == tb.k && r.ptr == tb.ptr && r.maxChain == tb.maxChain
    decreases Rank(t)
  {
    match FirstStop(tb, t)
    case Vacant(h) => if h < |tb.slots| then tb.(slots := tb.slots[h := Entry(t, off)]) else tb
    case Due(h) =>
      if h < |tb.slots| then tb.(slots := tb.slots[h := Entry(t, off)], count := tb.count - 1) else tb
    case Victim(h) =>
      if h < |tb.slots| then
        tb.(slots := tb.slots[h := Entry(t, off)], count := tb.count - 1, victimRound := NextVictimRound(tb))
      else tb
    case Lesser(h) =>
      if h < |tb.slots| && Rank(tb.slots[h].t) < Rank(t) then
        var mid := Insert(tb, tb.slots[h].t, tb.slots[h].off);
        mid.(slots := mid.slots[h := Entry(t, off)])
      else tb
    case Lost => tb
  }

  /** The entry that an insertion drops, EMPTY when it fills a vacant slot. */
  function Evicted(tb: Table, t: Tag): Entry
    requires |tb.slots| > 0
    decreases Rank(t)
  {
    match FirstStop(tb, t)
    case Vacant(h) => EMPTY
    case Due(h) => if h < |tb.slots| then tb.slots[h] else EMPTY
    case Victim(h) => if h < |tb.slots| then tb.slots[h] else EMPTY
    case Lesser(h) =>
      if h < |tb.slots| && Rank(tb.slots[h].t) < Rank(t) then Evicted(tb, tb.slots[h].t) else EMPTY
    case Lost => EMPTY
  }

  /** An occupied slot that an insertion of t passes over. */
  predicate Solid(k: nat, e: Entry, t: Tag) {
    e != EMPTY && !Weak(k, e.t) && Rank(e.t) >= Rank(t)
  }

  ghost predicate Path(slots: seq<Entry>, k: nat, t: Tag, h: nat)
    requires |slots| > 0
  {
    forall x: nat | x < |slots| && Between(Primary(t, |slots|), x, h) :: Solid(k, slots[x], t)
  }

  ghost function Copies(slots: seq<Entry>, t: Tag, h: nat): set<nat>
    requires |slots| > 0
  {
    set x: nat | x < |slots| && Between(Primary(t, |slots|), x, h) && slots[x].t == t
  }

  /** The probe for t gets as far as h, past fewer than maxChain copies of t. */
  ghost predicate Reaches(tb: Table, t: Tag, h: nat)
    requires |tb.slots| > 0
  {
    h < |tb.slots| && Path(tb.slots, tb.k, t, h) && |Copies(tb.slots, t, h)| < tb.maxChain
  }

  ghost predicate StopsWell(tb: Table, t: Tag, s: Stop)
    requires |tb.slots| > 0
  {
    match s
    case Vacant(h) => Reaches(tb, t, h) && tb.slots[h] == EMPTY
    case Due(h) => Reaches(tb, t, h) && tb.slots[h] != EMPTY && Weak(tb.k, tb.slots[h].t)
    case Lesser(h) =>
      && Reaches(tb, t, h)
      && tb.slots[h] != EMPTY && !Weak(tb.k, tb.slots[h].t) && Rank(tb.slots[h].t) < Rank(t)
    case Victim(h) =>
      && h < |tb.slots| && Solid(tb.k, tb.slots[h], t) && tb.slots[h].t == t
      && |Copies(tb.slots, t, h)| == tb.victimRound
      && exists end: nat :: FullChain(tb, t, end) && InChain(tb, t, end, h)
    case Lost => false
  }

  /** The probe meets the last copy of t that the chain limit allows at slot end. */
  ghost predicate FullChain(tb: Table, t: Tag, end: nat)
    requires |tb.slots| > 0
  {
    && Reaches(tb, t, end)
    && Solid(tb.k, tb.slots[end], t) && tb.slots[end].t == t
    && |Copies(tb.slots, t, end)| + 1 == tb.maxChain
  }

  /** Slot x is one of the copies that such a probe meets. */
  ghost predicate InChain(tb: Table, t: Tag, end: nat, x: nat)
    requires |tb.slots| > 0
  {
    x == end || x in Copies(tb.slots, t, end)
  }

  lemma PathStep(tb: Table, t: Tag, h: nat)
    requires WellFormed(tb) && HasRoom(tb)
    requires h < |tb.slots| && Path(tb.slots, tb.k, t, h) && Solid(tb.k, tb.slots[h], t)
    ensures var h', n, q := Next(h, |tb.slots|), |tb.slots|, Primary(t, |tb.slots|);
      && Path(tb.slots, tb.k, t, h')
      && Dist(q, h', n) == Dist(q, h, n) + 1
      && Copies(tb.slots, t, h') == Copies(tb.slots, t, h) + (if tb.slots[h].t == t then {h} else {})
      && h !in Copies(tb.slots, t, h)
  {
    var q, n := Primary(t, |tb.slots|), |tb.slots|;
    var room: nat :| room < n && tb.slots[room] == EMPTY;
    assert room != h && !Between(q, room, h);
    BetweenNext(q, h, n);
  }

  lemma {:induction false} ProbeStops(tb: Table, t: Tag, h: nat, round: nat, victim: nat, left: nat)
    requires WellFormed(tb) && HasRoom(tb)
    requires Reaches(tb, t, h) && round == |Copies(tb.slots, t, h)|
    requires Dist(Primary(t, |tb.slots|), h, |tb.slots|) + left == |tb.slots| - 1
    requires round > tb.victimRound ==>
      && victim in Copies(tb.slots, t, h) && Solid(tb.k, tb.slots[victim], t)
      && |Copies(tb.slots, t, victim)| == tb.victimRound
    ensures StopsWell(tb, t, Probe(tb, t, h, round, victim, left))
    decreases left
  {
    var e := tb.slots[h];
    if Solid(tb.k, e, t) {
      PathStep(tb, t, h);
      if e.t == t && round + 1 == tb.maxChain {
        assert FullChain(tb, t, h);
      } else {
        var victim' := if e.t == t && round == tb.victimRound then h else victim;
        var round' := if e.t == t then round + 1 else round;
        ProbeStops(tb, t, Next(h, |tb.slots|), round', victim', left - 1);
      }
    }
  }

  lemma FirstStopWell(tb: Table, t: Tag)
    requires WellFormed(tb) && HasRoom(tb)
    ensures StopsWell(tb, t, FirstStop(tb, t))
  {
    assert Copies(tb.slots, t, Primary(t, |tb.slots|)) == {};
    ProbeStops(tb, t, Primary(t, |tb.slots|), 0, 0, |tb.slots| - 1);
  }

  // ---- What an insertion keeps ----

  /** Slot contents that outrank the new tag stay; the others only get stronger. */
  ghost predicate SlotKept(k: nat, was: Entry, now: Entry, t: Tag, off: nat) {
    && (Solid(k, was, t) ==> now == was || (was.t == t && now == Entry(t, off)))
    && (was != EMPTY && !Weak(k, was.t) ==> now != EMPTY && Rank(now.t) >= Rank(was.t))
    && (now != was ==> now != EMPTY && (now.t == t || (!Weak(k, now.t) && Rank(now.t) < Rank(t))))
  }

  lemma {:induction false} InsertKeepsSlots(tb: Table, t: Tag, off: nat)
    requires WellFormed(tb) && HasRoom(tb) && Entry(t, off) != EMPTY
    ensures WellFormed(Insert(tb, t, off))
    ensures forall x: nat | x < |tb.slots| :: SlotKept(tb.k, tb.slots[x], Insert(tb, t, off).slots[x], t, off)
    decreases Rank(t)
  {
    FirstStopWell(tb, t);
    match FirstStop(tb, t)
    case Lesser(h) =>
      InsertKeepsSlots(tb, tb.slots[h].t, tb.slots[h].off);
    case _ =>
  }

  /** An insertion adds its entry and drops one at most, which was due for cleaning or was
      another copy of a tag that has maxChain of them. */
  lemma {:induction false} InsertConserves(tb: Table, t: Tag, off: nat)
    requires WellFormed(tb) && HasRoom(tb) && Entry(t, off) != EMPTY
    ensures multiset(Insert(tb, t, off).slots) + multiset{Evicted(tb, t)}
         == multiset(tb.slots) + multiset{Entry(t, off)}
    ensures Insert(tb, t, off).count == tb.count - (if Evicted(tb, t) == EMPTY then 0 else 1)
    decreases Rank(t)
  {
    FirstStopWell(tb, t);
    match FirstStop(tb, t)
    case Lesser(h) =>
      var e := tb.slots[h];
      InsertConserves(tb, e.t, e.off);
      InsertKeepsSlots(tb, e.t, e.off);
      var mid := Insert(tb, e.t, e.off);
      assert SlotKept(tb.k, tb.slots[h], mid.slots[h], e.t, e.off);
      assert mid.slots[h] == e;
      ReplaceOne(mid.slots, h, Entry(t, off));
      Exchange(multiset(tb.slots), multiset(mid.slots), multiset(Insert(tb, t, off).slots),
        Evicted(tb, e.t), e, Entry(t, off));
    case Vacant(h) => ReplaceOne(tb.slots, h, Entry(t, off));
    case Due(h) => ReplaceOne(tb.slots, h, Entry(t, off));
    case Victim(h) => ReplaceOne(tb.slots, h, Entry(t, off));
  }

  lemma Exchange(a: multiset<Entry>, b: multiset<Entry>, c: multiset<Entry>, dropped: Entry, moved: Entry, added: Entry)
    requires b + multiset{dropped} == a + multiset{moved}
    requires c + multiset{moved} == b + multiset{added}
    ensures c + multiset{dropped} == a + multiset{added}
  {
    forall e: Entry
      ensures (c + multiset{dropped})[e] == (a + multiset{added})[e]
    {
      assert (b + multiset{dropped})[e] == (a + multiset{moved})[e];
      assert (c + multiset{moved})[e] == (b + multiset{added})[e];
    }
  }

  lemma ReplaceOne(slots: seq<Entry>, h: nat, e: Entry)
    requires h < |slots|
    ensures multiset(slots[h := e]) + multiset{slots[h]} == multiset(slots) + multiset{e}
  {
  }

  // ---- Probe chains ----

  /** The probe for every strong stored tag crosses only slots that will not be swept before it. */
  ghost predicate Chained(slots: seq<Entry>, k: nat, s: nat)
    requires s < |slots|
  {
    var e := slots[s];
    e != EMPTY && !Weak(k, e.t) && e.t != ALL_ONES ==>
      forall x: nat | x < |slots| && Between(Primary(e.t, |slots|), x, s) ::
        slots[x] != EMPTY && Rank(slots[x].t) >= Rank(e.t)
  }

  ghost predicate Chains(slots: seq<Entry>, k: nat) {
    forall s: nat | s < |slots| :: Chained(slots, k, s)
  }

  lemma {:induction false} InsertKeepsChains(tb: Table, t: Tag, off: nat)
    requires WellFormed(tb) && HasRoom(tb) && Entry(t, off) != EMPTY
    requires Chains(tb.slots, tb.k)
    ensures Chains(Insert(tb, t, off).slots, tb.k)
    decreases Rank(t)
  {
    FirstStopWell(tb, t);
    match FirstStop(tb, t)
    case Lesser(h) =>
      var e := tb.slots[h];
      InsertKeepsChains(tb, e.t, e.off);
      InsertKeepsSlots(tb, e.t, e.off);
      var mid := Insert(tb, e.t, e.off);
      forall x: nat | x < |tb.slots| && Between(Primary(t, |tb.slots|), x, h)
        ensures mid.slots[x] == tb.slots[x]
      {
        assert Solid(tb.k, tb.slots[x], t);
        assert SlotKept(tb.k, tb.slots[x], mid.slots[x], e.t, e.off);
      }
      PlaceKeepsChains(mid.slots, tb.k, h, Entry(t, off));
    case Vacant(h) => PlaceKeepsChains(tb.slots, tb.k, h, Entry(t, off));
    case Due(h) => PlaceKeepsChains(tb.slots, tb.k, h, Entry(t, off));
    case Victim(h) => PlaceKeepsChains(tb.slots, tb.k, h, Entry(t, off));
  }

  lemma PlaceKeepsChains(slots: seq<Entry>, k: nat, h: nat, e: Entry)
    requires h < |slots| && Chains(slots, k) && e != EMPTY
    requires slots[h] == EMPTY || Weak(k, slots[h].t) || Rank(slots[h].t) <= Rank(e.t)
    requires (slots[h] != EMPTY && slots[h].t == e.t) || Path(slots, k, e.t, h)
    ensures Chains(slots[h := e], k)
  {
    var now := slots[h := e];
    forall s: nat | s < |slots| && s != h
      ensures Chained(now, k, s)
    {
      assert Chained(slots, k, s);
      RankIsTrailing(slots[s].t);
      RankIsTrailing(slots[h].t);
    }
    assert Chained(slots, k, h);
    assert Chained(now, k, h);
  }

  /** What is dropped was due for cleaning, or its tag had all the copies it may have. */
  lemma {:induction false} EvictedIsExpendable(tb: Table, t: Tag)
    requires WellFormed(tb) && HasRoom(tb)
    ensures var e := Evicted(tb, t);
      || e == EMPTY
      || (e in tb.slots && Weak(tb.k, e.t))
      || (e in tb.slots && exists end: nat :: FullChain(tb, e.t, end))
    decreases Rank(t)
  {
    FirstStopWell(tb, t);
    match FirstStop(tb, t)
    case Lesser(h) => EvictedIsExpendable(tb, tb.slots[h].t);
    case _ =>
  }

  // ---- Copies of one tag ----

  ghost function AllCopies(slots: seq<Entry>, t: Tag): set<nat> {
    set x: nat | x < |slots| && slots[x] != EMPTY && slots[x].t == t
  }

  ghost predicate CopiesBounded(slots: seq<Entry>, k: nat, maxChain: nat) {
    forall t: Tag | !Weak(k, t) && t != ALL_ONES :: |AllCopies(slots, t)| <= maxChain
  }

  /** A probe that stops short of a full chain has passed every copy of a strong tag. */
  lemma AllCopiesPassed(tb: Table, t: Tag, h: nat)
    requires WellFormed(tb) && Reaches(tb, t, h) && Chains(tb.slots, tb.k)
    requires !Weak(tb.k, t) && t != ALL_ONES
    requires tb.slots[h] == EMPTY || Rank(tb.slots[h].t) < Rank(t)
    ensures |AllCopies(tb.slots, t)| < tb.maxChain
  {
    forall s | s in AllCopies(tb.slots, t)
      ensures s in Copies(tb.slots, t, h)
    {
      assert Chained(tb.slots, tb.k, s);
      assert s != h;
      assert !Between(Primary(t, |tb.slots|), h, s);
    }
    SubsetSize(AllCopies(tb.slots, t), Copies(tb.slots, t, h));
  }

  lemma {:induction false} SubsetSize<T>(a: set<T>, b: set<T>)
    requires a <= b
    ensures |a| <= |b|
  {
    if a != {} {
      var x :| x in a;
      SubsetSize(a - {x}, b - {x});
    }
  }

  lemma {:induction false} InsertBoundsCopies(tb: Table, t: Tag, off: nat)
    requires WellFormed(tb) && HasRoom(tb) && Entry(t, off) != EMPTY
    requires Chains(tb.slots, tb.k) && CopiesBounded(tb.slots, tb.k, tb.maxChain)
    ensures CopiesBounded(Insert(tb, t, off).slots, tb.k, tb.maxChain)
    decreases Rank(t)
  {
    FirstStopWell(tb, t);
    RankIsTrailing(t);
    match FirstStop(tb, t)
    case Lesser(h) =>
      var e := tb.slots[h];
      InsertBoundsCopies(tb, e.t, e.off);
      InsertKeepsSlots(tb, e.t, e.off);
      var mid := Insert(tb, e.t, e.off);
      if !Weak(tb.k, t) {
        OutrankedCopies(tb.slots, mid.slots, tb.k, t, e.t, e.off);
        RankIsTrailing(e.t);
        AllCopiesPassed(tb, t, h);
      }
      PlaceBoundsCopies(mid.slots, tb.k, tb.maxChain, h, Entry(t, off));
    case Victim(h) => PlaceBoundsCopies(tb.slots, tb.k, tb.maxChain, h, Entry(t, off));
    case Vacant(h) =>
      if !Weak(tb.k, t) && t != ALL_ONES {
        AllCopiesPassed(tb, t, h);
      }
      PlaceBoundsCopies(tb.slots, tb.k, tb.maxChain, h, Entry(t, off));
    case Due(h) =>
      RankIsTrailing(tb.slots[h].t);
      if !Weak(tb.k, t) && t != ALL_ONES {
        AllCopiesPassed(tb, t, h);
      }
      PlaceBoundsCopies(tb.slots, tb.k, tb.maxChain, h, Entry(t, off));
  }

  /** Inserting a tag does not touch the copies of a strong tag that outranks it. */
  lemma OutrankedCopies(was: seq<Entry>, now: seq<Entry>, k: nat, t: Tag, u: Tag, off: nat)
    requires |was| == |now| && !Weak(k, t) && Rank(u) < Rank(t)
    requires forall x: nat | x < |was| :: SlotKept(k, was[x], now[x], u, off)
    ensures AllCopies(now, t) == AllCopies(was, t)
  {
    forall x: nat | x < |was|
      ensures x in AllCopies(now, t) <==> x in AllCopies(was, t)
    {
      assert SlotKept(k, was[x], now[x], u, off);
    }
  }

  lemma PlaceBoundsCopies(slots: seq<Entry>, k: nat, maxChain: nat, h: nat, e: Entry)
    requires h < |slots| && e != EMPTY && CopiesBounded(slots, k, maxChain)
    requires Weak(k, e.t) || e.t == ALL_ONES || (slots[h] != EMPTY && slots[h].t == e.t)
      || |AllCopies(slots, e.t)| < maxChain
    ensures CopiesBounded(slots[h := e], k, maxChain)
  {
    forall t: Tag | !Weak(k, t) && t != ALL_ONES
      ensures |AllCopies(slots[h := e], t)| <= maxChain
    {
      if t == e.t {
        assert AllCopies(slots[h := e], t) == AllCopies(slots, t) + {h};
      } else {
        assert AllCopies(slots[h := e], t) == AllCopies(slots, t) - {h};
      }
    }
  }
}
