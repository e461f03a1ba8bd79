/** Cleaning the tag table and whole runs of insertions and sweeps. */
module Sweep {
  import opened Bits
  import opened TagTable
  import opened AllOnes

  /** Some stored tag is not all ones, so some mask will single it out. */
  ghost predicate Sweepable(slots: seq<Entry>) {
    exists s: nat :: s < |slots| && slots[s] != EMPTY && slots[s].t != ALL_ONES
  }

  function FirstDue(slots: seq<Entry>, k: nat, p: nat): (r: nat)
    requires p <= |slots|
    ensures p <= r <= |slots|
    ensures r < |slots| ==> slots[r] != EMPTY && Weak(k, slots[r].t)
    ensures forall x | p <= x < r :: slots[x] == EMPTY || !Weak(k, slots[x].t)
    decreases |slots| - p
  {
    if p == |slots| || (slots[p] != EMPTY && Weak(k, slots[p].t)) then p else FirstDue(slots, k, p + 1)
  }

  /** One pass of clean_one_from_hash from tag_clean_ptr: either an entry goes, or every entry
      left meets the better mask and the sweep starts over with it. */
  datatype Pass = Cleaned(tb: Table) | Again(tb: Table)

  function SweepPass(tb: Table): Pass
    requires tb.ptr <= |tb.slots|
  {
    var p := FirstDue(tb.slots, tb.k, tb.ptr);
    if p < |tb.slots| then Cleaned(tb.(slots := tb.slots[p := EMPTY], count := tb.count - 1, ptr := p))
    else Again(tb.(k := MoreBits(tb.k), ptr := 0))
  }

  lemma DueAtLast(tb: Table)
    requires Sweepable(tb.slots) && tb.k == 32 && tb.ptr == 0
    ensures SweepPass(tb).Cleaned?
  {
    var s: nat :| s < |tb.slots| && tb.slots[s] != EMPTY && tb.slots[s].t != ALL_ONES;
    RankIsTrailing(tb.slots[s].t);
  }

  /** What clean_one_from_hash makes of the table. */
  function Clean(tb: Table): (r: Table)
    requires tb.ptr <= |tb.slots| && tb.k <= 32 && Sweepable(tb.slots)
    ensures |r.slots| == |tb.slots| && r.maxChain == tb.maxChain && r.count == tb.count - 1
    decreases 32 - tb.k, tb.ptr
  {
    match SweepPass(tb)
    case Cleaned(done) => done
    case Again(next) =>
      assert tb.k == 32 && tb.ptr == 0 ==> false by {
        if tb.k == 32 && tb.ptr == 0 {
          DueAtLast(tb);
        }
      }
      Clean(next)
  }

  /** With nothing but all-ones tags stored, every pass of clean_one_from_hash ends in another:
      the loop has an exit exactly when the table is sweepable. */
  lemma SpinsOnOnes(tb: Table)
    requires tb.ptr <= |tb.slots| && tb.k <= 32 && !Sweepable(tb.slots)
    ensures SweepPass(tb).Again? && !Sweepable(SweepPass(tb).tb.slots)
      && SweepPass(tb).tb.ptr <= |SweepPass(tb).tb.slots| && SweepPass(tb).tb.k <= 32
  {
  }

  // ---- The invariant of a run ----

  ghost predicate AllMeet(slots: seq<Entry>, k: nat) {
    forall s: nat | s < |slots| && slots[s] != EMPTY :: Meets(k, slots[s].t)
  }

  /** Slots behind tag_clean_ptr hold nothing that is due. */
  ghost predicate SweptTo(slots: seq<Entry>, k: nat, ptr: nat) {
    ptr <= |slots| && forall s: nat | s < ptr && slots[s] != EMPTY :: !Weak(k, slots[s].t)
  }

  ghost function Occupied(slots: seq<Entry>): set<nat> {
    set s: nat | s < |slots| && slots[s] != EMPTY
  }

  /** How far the run is: `k0` is the mask it started with and `j` the number of low ones that
      hash_search asks of a tag it inserts. */
  ghost predicate Stage(tb: Table, k0: nat, j: nat) {
    && k0 <= tb.k <= 32 && k0 < 32
    && (j == MoreBits(tb.k) || (j == tb.k == k0 && tb.ptr == 0))
  }

  ghost predicate OnesBounded(tb: Table, k0: nat, j: nat)
    requires |tb.slots| > 0 && k0 <= tb.k
  {
    if j == MoreBits(tb.k) then Capped(tb.slots, tb.k, tb.maxChain * (tb.k - k0 + 1), tb.maxChain)
    else Fresh(tb.slots, tb.k, tb.maxChain)
  }

  ghost predicate Sound(tb: Table, k0: nat, j: nat) {
    && WellFormed(tb)
    && Stage(tb, k0, j)
    && AllMeet(tb.slots, tb.k)
    && SweptTo(tb.slots, tb.k, tb.ptr)
    && Chains(tb.slots, tb.k)
    && CopiesBounded(tb.slots, tb.k, tb.maxChain)
    && OnesBounded(tb, k0, j)
  }

  ghost predicate RunInvariant(tb: Table, k0: nat, j: nat) {
    Sound(tb, k0, j) && tb.count == |Occupied(tb.slots)|
  }

  // ---- Insertions ----

  /** A tag that hash_search inserts once a sweep has begun is not itself due. */
  lemma BetterIsStrong(k: nat, t: Tag)
    requires k <= 32 && Meets(MoreBits(k), t)
    ensures !Weak(k, t)
  {
    RankIsTrailing(t);
  }

  lemma {:induction false} CountEmpty(slots: seq<Entry>)
    ensures |Occupied(slots)| + multiset(slots)[EMPTY] == |slots|
  {
    if slots != [] {
      var last := |slots| - 1;
      CountEmpty(slots[..last]);
      assert slots == slots[..last] + [slots[last]];
      if slots[last] == EMPTY {
        assert Occupied(slots) == Occupied(slots[..last]);
      } else {
        assert Occupied(slots) == Occupied(slots[..last]) + {last};
      }
    }
  }

  lemma InsertCounts(tb: Table, t: Tag, off: nat)
    requires WellFormed(tb) && HasRoom(tb) && Entry(t, off) != EMPTY
    requires tb.count == |Occupied(tb.slots)| + 1
    ensures Insert(tb, t, off).count == |Occupied(Insert(tb, t, off).slots)|
  {
    InsertConserves(tb, t, off);
    var now := Insert(tb, t, off).slots;
    CountEmpty(tb.slots);
    CountEmpty(now);
    assert (multiset(now) + multiset{Evicted(tb, t)})[EMPTY] == (multiset(tb.slots) + multiset{Entry(t, off)})[EMPTY];
  }

  lemma InsertKeepsMasks(tb: Table, t: Tag, off: nat, j: nat)
    requires WellFormed(tb) && HasRoom(tb) && Entry(t, off) != EMPTY
    requires AllMeet(tb.slots, tb.k) && SweptTo(tb.slots, tb.k, tb.ptr)
    requires j == MoreBits(tb.k) || (j == tb.k && tb.ptr == 0)
    requires Meets(j, t)
    ensures var now := Insert(tb, t, off).slots; AllMeet(now, tb.k) && SweptTo(now, tb.k, tb.ptr)
  {
    var now := Insert(tb, t, off).slots;
    InsertKeepsSlots(tb, t, off);
    if j == MoreBits(tb.k) {
      BetterIsStrong(tb.k, t);
    }
    forall s: nat | s < |now| && now[s] != EMPTY
      ensures Meets(tb.k, now[s].t)
      ensures s < tb.ptr ==> !Weak(tb.k, now[s].t)
    {
      assert SlotKept(tb.k, tb.slots[s], now[s], t, off);
    }
  }

  lemma {:induction false} InsertBoundsOnes(tb: Table, t: Tag, off: nat, k0: nat, j: nat)
    requires WellFormed(tb) && HasRoom(tb) && Entry(t, off) != EMPTY && Meets(j, t) && k0 <= tb.k
    requires OnesBounded(tb, k0, j)
    ensures OnesBounded(Insert(tb, t, off), k0, j)
  {
    hide Capped, Fresh;
    if j == MoreBits(tb.k) {
      BetterIsStrong(tb.k, t);
      InsertKeepsCap(tb, t, off, tb.maxChain * (tb.k - k0 + 1));
    } else {
      InsertKeepsFresh(tb, t, off);
    }
  }

  lemma InsertKeepsSound(tb: Table, t: Tag, off: nat, k0: nat, j: nat)
    requires Sound(tb, k0, j)
    requires HasRoom(tb) && Entry(t, off) != EMPTY && Meets(j, t)
    ensures Sound(Insert(tb, t, off), k0, j)
  {
    var now := Insert(tb, t, off);
    assert Stage(now, k0, j);
    InsertKeepsMasks(tb, t, off, j);
    assert Chains(now.slots, tb.k) by {
      InsertKeepsChains(tb, t, off);
    }
    assert CopiesBounded(now.slots, tb.k, tb.maxChain) by {
      InsertBoundsCopies(tb, t, off);
    }
    assert OnesBounded(now, k0, j) by {
      InsertBoundsOnes(tb, t, off, k0, j);
    }
    assert WellFormed(now) by {
      InsertKeepsSlots(tb, t, off);
    }
  }

  lemma InsertKeepsRun(tb: Table, t: Tag, off: nat, k0: nat, j: nat)
    requires Sound(tb, k0, j) && tb.count == |Occupied(tb.slots)| + 1
    requires HasRoom(tb) && Entry(t, off) != EMPTY && Meets(j, t)
    ensures RunInvariant(Insert(tb, t, off), k0, j)
  {
    InsertKeepsSound(tb, t, off, k0, j);
    InsertCounts(tb, t, off);
  }

  // ---- Sweeps ----

  lemma {:induction false} BeginSweep(tb: Table, k0: nat, j: nat)
    requires RunInvariant(tb, k0, j)
    ensures RunInvariant(tb, k0, MoreBits(tb.k))
  {
    hide Capped, Fresh, Chains, CopiesBounded, AllMeet, Occupied;
    if j != MoreBits(tb.k) {
      FreshIsCapped(tb.slots, tb.k, tb.maxChain);
      assert tb.maxChain * (tb.k - k0 + 1) == tb.maxChain;
    }
  }

  lemma FreshIsCapped(slots: seq<Entry>, k: nat, maxChain: nat)
    requires |slots| > 0 && k <= 32 && Fresh(slots, k, maxChain)
    ensures Capped(slots, k, maxChain, maxChain)
  {
    SubsetSize(Far(slots, k), Ones(slots));
  }

  lemma RemoveKeepsChains(slots: seq<Entry>, k: nat, p: nat)
    requires p < |slots| && Weak(k, slots[p].t) && Chains(slots, k)
    ensures Chains(slots[p := EMPTY], k)
  {
    var now := slots[p := EMPTY];
    RankIsTrailing(slots[p].t);
    forall s: nat | s < |now| && s != p
      ensures Chained(now, k, s)
    {
      assert Chained(slots, k, s);
      RankIsTrailing(now[s].t);
    }
    assert Chained(now, k, p);
  }

  lemma RemoveBoundsCopies(slots: seq<Entry>, k: nat, p: nat, maxChain: nat)
    requires p < |slots| && CopiesBounded(slots, k, maxChain)
    ensures CopiesBounded(slots[p := EMPTY], k, maxChain)
  {
    forall t: Tag | !Weak(k, t) && t != ALL_ONES
      ensures |AllCopies(slots[p := EMPTY], t)| <= maxChain
    {
      SubsetSize(AllCopies(slots[p := EMPTY], t), AllCopies(slots, t));
    }
  }

  lemma RemoveKeepsCap(slots: seq<Entry>, k: nat, p: nat, cap: nat, maxChain: nat)
    requires p < |slots| && slots[p] != EMPTY && Weak(k, slots[p].t) && Capped(slots, k, cap, maxChain)
    ensures Capped(slots[p := EMPTY], k, cap, maxChain)
  {
    var now := slots[p := EMPTY];
    assert Ones(now) == Ones(slots);
    forall x: nat | x < |now|
      ensures Near(now, k, x) <==> Near(slots, k, x)
    {
      if Near(slots, k, x) {
        assert !Solid(k, slots[p], ALL_ONES);
      }
    }
    assert Far(now, k) == Far(slots, k);
  }

  lemma FirstDueIsDue(slots: seq<Entry>, k: nat, ptr: nat)
    requires ptr <= |slots|
    ensures var p := FirstDue(slots, k, ptr); p < |slots| ==> slots[p] != EMPTY && Weak(k, slots[p].t)
  {
  }

  lemma RemoveKeepsSwept(slots: seq<Entry>, k: nat, ptr: nat, p: nat)
    requires ptr <= |slots| && p == FirstDue(slots, k, ptr) < |slots| && AllMeet(slots, k) && SweptTo(slots, k, ptr)
    ensures AllMeet(slots[p := EMPTY], k) && SweptTo(slots[p := EMPTY], k, p)
    ensures |Occupied(slots[p := EMPTY])| == |Occupied(slots)| - 1
  {
    assert Occupied(slots[p := EMPTY]) == Occupied(slots) - {p} && p in Occupied(slots);
  }

  lemma {:induction false} RemoveKeepsRun(tb: Table, p: nat, k0: nat)
    requires RunInvariant(tb, k0, MoreBits(tb.k))
    requires p == FirstDue(tb.slots, tb.k, tb.ptr) < |tb.slots|
    ensures RunInvariant(tb.(slots := tb.slots[p := EMPTY], count := tb.count - 1, ptr := p), k0, MoreBits(tb.k))
  {
    hide Chains, CopiesBounded, Capped, Fresh, AllMeet, SweptTo, Occupied, Weak;
    FirstDueIsDue(tb.slots, tb.k, tb.ptr);
    RemoveKeepsSwept(tb.slots, tb.k, tb.ptr, p);
    RemoveKeepsChains(tb.slots, tb.k, p);
    RemoveBoundsCopies(tb.slots, tb.k, p, tb.maxChain);
    RemoveKeepsCap(tb.slots, tb.k, p, tb.maxChain * (tb.k - k0 + 1), tb.maxChain);
  }

  /** When a pass reaches the end of the table, what is left meets the better mask. */
  lemma EndOfPass(tb: Table)
    requires tb.k <= 32 && SweptTo(tb.slots, tb.k, tb.ptr)
    requires FirstDue(tb.slots, tb.k, tb.ptr) == |tb.slots|
    ensures AllMeet(tb.slots, MoreBits(tb.k))
  {
    forall s: nat | s < |tb.slots| && tb.slots[s] != EMPTY
      ensures Meets(MoreBits(tb.k), tb.slots[s].t)
    {
      assert !Weak(tb.k, tb.slots[s].t);
    }
  }

  lemma RaiseKeepsChains(slots: seq<Entry>, k: nat, maxChain: nat)
    requires Chains(slots, k) && CopiesBounded(slots, k, maxChain)
    ensures Chains(slots, MoreBits(k)) && CopiesBounded(slots, MoreBits(k), maxChain)
  {
    forall s: nat | s < |slots|
      ensures Chained(slots, MoreBits(k), s)
    {
      assert Chained(slots, k, s);
      RankIsTrailing(slots[s].t);
    }
    forall t: Tag | !Weak(MoreBits(k), t) && t != ALL_ONES
      ensures !Weak(k, t)
    {
      RankIsTrailing(t);
    }
  }

  lemma RaiseKeepsCap(tb: Table, k0: nat)
    requires |tb.slots| > 0 && k0 <= tb.k <= 32 && OnesBounded(tb, k0, MoreBits(tb.k))
    ensures OnesBounded(tb.(k := MoreBits(tb.k), ptr := 0), k0, MoreBits(MoreBits(tb.k)))
  {
    hide Near;
    if tb.k < 32 {
      SubsetSize(Far(tb.slots, tb.k + 1), Ones(tb.slots));
      assert tb.maxChain * (tb.k + 1 - k0 + 1) == tb.maxChain * (tb.k - k0 + 1) + tb.maxChain;
    }
  }

  lemma RaiseKeepsRun(tb: Table, k0: nat)
    requires RunInvariant(tb, k0, MoreBits(tb.k))
    requires FirstDue(tb.slots, tb.k, tb.ptr) == |tb.slots|
    ensures RunInvariant(tb.(k := MoreBits(tb.k), ptr := 0), k0, MoreBits(MoreBits(tb.k)))
  {
    EndOfPass(tb);
    RaiseKeepsChains(tb.slots, tb.k, tb.maxChain);
    RaiseKeepsCap(tb, k0);
  }

  lemma {:induction false} CleanKeepsRun(tb: Table, k0: nat)
    requires RunInvariant(tb, k0, MoreBits(tb.k)) && Sweepable(tb.slots)
    ensures RunInvariant(Clean(tb), k0, MoreBits(Clean(tb).k))
    decreases 32 - tb.k, tb.ptr
  {
    var p := FirstDue(tb.slots, tb.k, tb.ptr);
    if p < |tb.slots| {
      RemoveKeepsRun(tb, p, k0);
    } else {
      RaiseKeepsRun(tb, k0);
      if tb.k == 32 && tb.ptr == 0 {
        DueAtLast(tb);
      } else {
        CleanKeepsRun(tb.(k := MoreBits(tb.k), ptr := 0), k0);
      }
    }
  }

  // ---- Whole runs ----

  /** The hash limit leaves the all-ones tag a minority: the largest level keeps 128 copies of a
      tag, and the smallest table has 65536 slots. */
  ghost predicate Roomy(tb: Table, limit: nat) {
    34 * tb.maxChain <= limit < |tb.slots|
  }

  lemma OnesAreFew(tb: Table, k0: nat, j: nat)
    requires RunInvariant(tb, k0, j)
    ensures |Ones(tb.slots)| <= 34 * tb.maxChain
  {
    BeginSweep(tb, k0, j);
    MulMonotone(tb.maxChain, tb.k - k0 + 1, 33);
  }

  /** An overfull table always holds a tag that some sweep will remove, so clean_one_from_hash
      returns in every run. */
  lemma OverfullIsSweepable(tb: Table, limit: nat, k0: nat, j: nat)
    requires RunInvariant(tb, k0, j) && Roomy(tb, limit) && tb.count > limit
    ensures Sweepable(tb.slots)
  {
    OnesAreFew(tb, k0, j);
    if !Sweepable(tb.slots) {
      SubsetSize(Occupied(tb.slots), Ones(tb.slots));
    }
  }

  lemma UnderLimitHasRoom(tb: Table, limit: nat)
    requires tb.count == |Occupied(tb.slots)| <= limit < |tb.slots|
    ensures HasRoom(tb)
  {
    CountEmpty(tb.slots);
  }

  /** The table together with the mask that hash_search asks of a tag before inserting it. */
  datatype Scan = Scan(tb: Table, j: nat)

  ghost predicate CanClean(tb: Table) {
    tb.ptr <= |tb.slots| && tb.k <= 32 && Sweepable(tb.slots)
  }

  ghost function CleanOver(sc: Scan, limit: nat): (r: Scan)
    ensures |r.tb.slots| == |sc.tb.slots|
  {
    if sc.tb.count > limit && CanClean(sc.tb) then
      var done := Clean(sc.tb);
      Scan(done, MoreBits(done.k))
    else sc
  }

  /** One tag as hash_search offers it: inserted if it meets the mask, and then one entry is
      cleaned if the table is over its limit. */
  ghost function Offer(sc: Scan, limit: nat, t: Tag, off: nat): (r: Scan)
    requires |sc.tb.slots| > 0
    ensures |r.tb.slots| > 0
  {
    if !Meets(sc.j, t) then sc
    else CleanOver(Scan(Insert(sc.tb.(count := sc.tb.count + 1), t, off), sc.j), limit)
  }

  ghost predicate ScanInvariant(sc: Scan, limit: nat, k0: nat) {
    RunInvariant(sc.tb, k0, sc.j) && Roomy(sc.tb, limit) && sc.tb.count <= limit
  }

  lemma InsertAtLimit(sc: Scan, limit: nat, k0: nat, t: Tag, off: nat)
    requires ScanInvariant(sc, limit, k0) && off > 0 && Meets(sc.j, t)
    ensures var tb := Insert(sc.tb.(count := sc.tb.count + 1), t, off);
      RunInvariant(tb, k0, sc.j) && Roomy(tb, limit) && tb.count <= limit + 1
  {
    var tb1 := sc.tb.(count := sc.tb.count + 1);
    UnderLimitHasRoom(sc.tb, limit);
    assert Sound(tb1, k0, sc.j);
    InsertKeepsRun(tb1, t, off, k0, sc.j);
    InsertConserves(tb1, t, off);
  }

  /** clean_one_from_hash returns whenever hash_search calls it, and brings the table back
      within its limit. */
  lemma CleanAtLimit(sc: Scan, limit: nat, k0: nat)
    requires RunInvariant(sc.tb, k0, sc.j) && Roomy(sc.tb, limit) && sc.tb.count <= limit + 1
    ensures sc.tb.count > limit ==> CanClean(sc.tb)
    ensures ScanInvariant(CleanOver(sc, limit), limit, k0)
  {
    if sc.tb.count > limit {
      OverfullIsSweepable(sc.tb, limit, k0, sc.j);
      BeginSweep(sc.tb, k0, sc.j);
      CleanKeepsRun(sc.tb, k0);
    }
  }

  lemma OfferKeepsRun(sc: Scan, limit: nat, k0: nat, t: Tag, off: nat)
    requires ScanInvariant(sc, limit, k0) && off > 0
    ensures ScanInvariant(Offer(sc, limit, t, off), limit, k0)
  {
    hide ScanInvariant, Insert, Clean;
    if Meets(sc.j, t) {
      InsertAtLimit(sc, limit, k0, t, off);
      CleanAtLimit(Scan(Insert(sc.tb.(count := sc.tb.count + 1), t, off), sc.j), limit, k0);
    }
  }

  /** No slot from `from` up to p is due. */
  ghost predicate NoneDue(slots: seq<Entry>, k: nat, from: nat, p: nat) {
    p <= |slots| && forall x: nat | from <= x < p :: slots[x] == EMPTY || !Weak(k, slots[x].t)
  }

  /** Cleaning clears one slot and leaves tag_clean_ptr there: the first that is due behind where the
      sweep has got to, or, with none left and a stricter mask, behind the start. */
  lemma {:induction false} CleanDropsDue(tb: Table) returns (dropped: Entry)
    requires CanClean(tb)
    ensures var now := Clean(tb);
      && now.ptr < |tb.slots| && now.slots == tb.slots[now.ptr := EMPTY]
      && dropped == tb.slots[now.ptr] != EMPTY && Weak(now.k, dropped.t)
      && if now.k == tb.k && now.ptr >= tb.ptr then NoneDue(tb.slots, now.k, tb.ptr, now.ptr)
         else NoneDue(tb.slots, tb.k, tb.ptr, |tb.slots|) && NoneDue(tb.slots, now.k, 0, now.ptr) && now.k >= MoreBits(tb.k)
    ensures multiset(Clean(tb).slots) + multiset{dropped} == multiset(tb.slots) + multiset{EMPTY}
    decreases 32 - tb.k, tb.ptr
  {
    dropped := EMPTY;
    var p := FirstDue(tb.slots, tb.k, tb.ptr);
    if p < |tb.slots| {
      dropped := tb.slots[p];
      ReplaceOne(tb.slots, p, EMPTY);
    } else if tb.k == 32 && tb.ptr == 0 {
      DueAtLast(tb);
    } else {
      dropped := CleanDropsDue(SweepPass(tb).tb);
    }
  }

  /** What an offer does to the table's contents. A tag that does not meet the mask changes nothing.
      Any other is stored, and then at most two entries are gone: one that the insertion could spare,
      and, if that leaves more than the limit, one that is due. */
  lemma OfferStores(sc: Scan, limit: nat, k0: nat, t: Tag, off: nat) returns (spared: Entry, cleaned: Entry)
    requires ScanInvariant(sc, limit, k0) && off > 0
    ensures !Meets(sc.j, t) ==> Offer(sc, limit, t, off) == sc
    ensures Meets(sc.j, t) ==>
      var now := Offer(sc, limit, t, off).tb;
      && multiset(now.slots) + multiset{spared, cleaned} == multiset(sc.tb.slots) + multiset{Entry(t, off), EMPTY}
      && (spared == EMPTY || spared in sc.tb.slots)
      && (spared == EMPTY || Weak(sc.tb.k, spared.t) || exists end: nat :: FullChain(sc.tb, spared.t, end))
      && (cleaned == EMPTY || (spared == EMPTY && sc.tb.count == limit && Weak(now.k, cleaned.t)))
      && (spared == EMPTY && sc.tb.count == limit ==> cleaned != EMPTY)
  {
    hide ScanInvariant, Insert, Clean, CleanOver, Weak, FullChain;
    spared, cleaned := EMPTY, EMPTY;
    if Meets(sc.j, t) {
      var tb1 := sc.tb.(count := sc.tb.count + 1);
      RoomAtLimit(sc, limit, k0);
      SameChains(sc.tb, tb1, Evicted(tb1, t).t);
      spared := InsertSpares(tb1, t, off);
      InsertAtLimit(sc, limit, k0, t, off);
      var mid := Scan(Insert(tb1, t, off), sc.j);
      cleaned := CleanOverDrops(mid, limit, k0);
      BothGone(multiset(sc.tb.slots), multiset(mid.tb.slots), multiset(CleanOver(mid, limit).tb.slots),
               Entry(t, off), spared, cleaned);
    }
  }

  lemma InsertSpares(tb: Table, t: Tag, off: nat) returns (spared: Entry)
    requires WellFormed(tb) && HasRoom(tb) && off > 0
    ensures spared == Evicted(tb, t)
    ensures multiset(Insert(tb, t, off).slots) + multiset{spared} == multiset(tb.slots) + multiset{Entry(t, off)}
    ensures spared == EMPTY || spared in tb.slots
    ensures spared == EMPTY || Weak(tb.k, spared.t) || exists end: nat :: FullChain(tb, spared.t, end)
    ensures Insert(tb, t, off).count == tb.count - (if spared == EMPTY then 0 else 1)
  {
    InsertConserves(tb, t, off);
    EvictedIsExpendable(tb, t);
    spared := Evicted(tb, t);
  }

  lemma CleanOverDrops(sc: Scan, limit: nat, k0: nat) returns (cleaned: Entry)
    requires RunInvariant(sc.tb, k0, sc.j) && Roomy(sc.tb, limit) && sc.tb.count <= limit + 1
    ensures sc.tb.count <= limit ==> cleaned == EMPTY
    ensures sc.tb.count > limit ==> cleaned != EMPTY && Weak(CleanOver(sc, limit).tb.k, cleaned.t)
    ensures multiset(CleanOver(sc, limit).tb.slots) + multiset{cleaned} == multiset(sc.tb.slots) + multiset{EMPTY}
  {
    cleaned := EMPTY;
    CleanAtLimit(sc, limit, k0);
    if sc.tb.count > limit {
      cleaned := CleanDropsDue(sc.tb);
    }
  }

  lemma BothGone(was: multiset<Entry>, mid: multiset<Entry>, now: multiset<Entry>, added: Entry, spared: Entry, cleaned: Entry)
    requires mid + multiset{spared} == was + multiset{added}
    requires now + multiset{cleaned} == mid + multiset{EMPTY}
    ensures now + multiset{spared, cleaned} == was + multiset{added, EMPTY}
  {
    assert now + multiset{spared, cleaned} == (now + multiset{cleaned}) + multiset{spared};
    assert was + multiset{added, EMPTY} == (was + multiset{added}) + multiset{EMPTY};
  }

  lemma RoomAtLimit(sc: Scan, limit: nat, k0: nat)
    requires ScanInvariant(sc, limit, k0)
    ensures WellFormed(sc.tb) && HasRoom(sc.tb) && sc.tb.count <= limit
  {
    UnderLimitHasRoom(sc.tb, limit);
  }

  lemma SameChains(tb: Table, tb1: Table, t: Tag)
    requires |tb.slots| > 0 && tb1 == tb.(count := tb.count + 1)
    ensures forall end: nat :: FullChain(tb1, t, end) <==> FullChain(tb, t, end)
  {
  }

  lemma {:induction false} CleanRaises(tb: Table)
    requires CanClean(tb)
    ensures tb.k <= Clean(tb).k <= 32
    decreases 32 - tb.k, tb.ptr
  {
    if SweepPass(tb).Again? {
      if tb.k == 32 && tb.ptr == 0 {
        DueAtLast(tb);
      } else {
        CleanRaises(SweepPass(tb).tb);
      }
    }
  }

  /** The mask only gets stricter. */
  lemma OfferRaises(sc: Scan, limit: nat, t: Tag, off: nat)
    requires |sc.tb.slots| > 0 && sc.tb.k <= 32
    ensures sc.tb.k <= Offer(sc, limit, t, off).tb.k
  {
    hide Insert, Clean, Sweepable, Meets;
    var mid := Scan(Insert(sc.tb.(count := sc.tb.count + 1), t, off), sc.j);
    if Meets(sc.j, t) && mid.tb.count > limit && CanClean(mid.tb) {
      CleanRaises(mid.tb);
    }
  }

  lemma WeakStays(k: nat, k': nat, t: Tag)
    requires k <= k' && Weak(k, t)
    ensures Weak(k', t)
  {
  }

  /** An entry that is neither due by the mask after an offer nor one of a full chain stays. */
  lemma OfferKeepsEntry(sc: Scan, limit: nat, k0: nat, t: Tag, off: nat, e: Entry)
    requires ScanInvariant(sc, limit, k0) && off > 0
    requires e in sc.tb.slots && e != EMPTY && !(exists end: nat :: FullChain(sc.tb, e.t, end))
    requires !Weak(Offer(sc, limit, t, off).tb.k, e.t)
    ensures e in Offer(sc, limit, t, off).tb.slots
  {
    hide Offer, ScanInvariant, Weak, FullChain;
    RoomAtLimit(sc, limit, k0);
    OfferRaises(sc, limit, t, off);
    if Weak(sc.tb.k, e.t) {
      WeakStays(sc.tb.k, Offer(sc, limit, t, off).tb.k, e.t);
    }
    var spared, cleaned := OfferStores(sc, limit, k0, t, off);
    if Meets(sc.j, t) {
      var now := multiset(Offer(sc, limit, t, off).tb.slots);
      assert (now + multiset{spared, cleaned})[e] == (multiset(sc.tb.slots) + multiset{Entry(t, off), EMPTY})[e];
    }
  }

  /** The entry offered is there afterwards, unless it is itself due by the new mask. */
  lemma OfferIsFound(sc: Scan, limit: nat, k0: nat, t: Tag, off: nat)
    requires ScanInvariant(sc, limit, k0) && off > 0 && Meets(sc.j, t)
    requires !Weak(Offer(sc, limit, t, off).tb.k, t)
    ensures Entry(t, off) in Offer(sc, limit, t, off).tb.slots
  {
    hide Offer, ScanInvariant, Weak, FullChain;
    var spared, cleaned := OfferStores(sc, limit, k0, t, off);
    RoomAtLimit(sc, limit, k0);
    var e, now := Entry(t, off), multiset(Offer(sc, limit, t, off).tb.slots);
    assert (now + multiset{spared, cleaned})[e] == (multiset(sc.tb.slots) + multiset{e, EMPTY})[e];
  }

  ghost function Run(sc: Scan, limit: nat, offers: seq<Entry>): (r: Scan)
    requires |sc.tb.slots| > 0
    decreases |offers|
  {
    if offers == [] then sc
    else Run(Offer(sc, limit, offers[0].t, offers[0].off), limit, offers[1..])
  }

  lemma {:induction false} EveryRunIsSound(sc: Scan, limit: nat, k0: nat, offers: seq<Entry>)
    requires ScanInvariant(sc, limit, k0)
    requires forall i | 0 <= i < |offers| :: offers[i].off > 0
    ensures ScanInvariant(Run(sc, limit, offers), limit, k0)
    decreases |offers|
  {
    if offers != [] {
      var next := Offer(sc, limit, offers[0].t, offers[0].off);
      OfferKeepsRun(sc, limit, k0, offers[0].t, offers[0].off);
      EveryRunIsSound(next, limit, k0, offers[1..]);
    }
  }

  /** The table that a chunk starts with: all slots zeroed, the mask of the level's initial_freq. */
  function Cleared(n: nat, k0: nat, victimRound: nat, maxChain: nat): (r: Table)
    ensures |r.slots| == n
  {
    Table(seq(n, _ => EMPTY), k0, 0, 0, victimRound, maxChain)
  }

  lemma ClearedStartsRun(n: nat, k0: nat, victimRound: nat, maxChain: nat, limit: nat)
    requires 0 < n && k0 < 32 && victimRound < maxChain && 34 * maxChain <= limit < n
    ensures ScanInvariant(Scan(Cleared(n, k0, victimRound, maxChain), k0), limit, k0)
  {
    var tb := Cleared(n, k0, victimRound, maxChain);
    assert Occupied(tb.slots) == {} && Ones(tb.slots) == {};
    forall t: Tag
      ensures AllCopies(tb.slots, t) == {}
    {
    }
    assert Far(tb.slots, k0) == {};
  }
}
