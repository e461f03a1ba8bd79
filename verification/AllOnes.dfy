/** How many copies of the all-ones tag the table can hold. The tag is never due for cleaning
    and is never protected from being cut off, so the chain limit alone does not bound it; yet
    the sweep terminates only while some other tag is stored. */
module AllOnes {
  import opened Bits
  import opened TagTable

  ghost function Ones(slots: seq<Entry>): set<nat> {
    set x: nat | x < |slots| && slots[x].t == ALL_ONES
  }

  /** A probe for the all-ones tag would get to slot x. */
  ghost predicate Near(slots: seq<Entry>, k: nat, x: nat)
    requires |slots| > 0
  {
    Path(slots, k, ALL_ONES, x)
  }

  ghost function Far(slots: seq<Entry>, k: nat): set<nat>
    requires |slots| > 0
  {
    set x: nat | x < |slots| && slots[x].t == ALL_ONES && !Near(slots, k, x)
  }

  lemma RankOfOnes(t: Tag)
    ensures Rank(ALL_ONES) == 0
    ensures t != ALL_ONES ==> Rank(t) > 0
  {
    RankIsTrailing(ALL_ONES);
    RankIsTrailing(t);
  }

  lemma AddBound(a: set<nat>, x: nat, b: set<nat>)
    requires b <= a + {x}
    ensures |b| <= |a| + 1
  {
    SubsetSize(b, a + {x});
  }

  // ---- While tags are being swept ----

  ghost predicate Capped(slots: seq<Entry>, k: nat, cap: nat, maxChain: nat)
    requires |slots| > 0
  {
    |Far(slots, k)| <= cap && |Ones(slots)| <= cap + maxChain
  }

  lemma NearStays(was: seq<Entry>, now: seq<Entry>, k: nat, t: Tag, off: nat, x: nat)
    requires |was| == |now| > 0 && !Weak(k, t)
    requires forall y: nat | y < |was| :: SlotKept(k, was[y], now[y], t, off)
    requires Near(was, k, x)
    ensures Near(now, k, x)
  {
    RankOfOnes(t);
    forall y: nat | y < |was| && Between(Primary(ALL_ONES, |was|), y, x)
      ensures Solid(k, now[y], ALL_ONES)
    {
      assert SlotKept(k, was[y], now[y], t, off);
    }
  }

  lemma {:induction false} NewOnesAreNear(tb: Table, t: Tag, off: nat, x: nat)
    requires WellFormed(tb) && HasRoom(tb) && Entry(t, off) != EMPTY && !Weak(tb.k, t)
    requires x < |tb.slots| && tb.slots[x].t != ALL_ONES
    requires Insert(tb, t, off).slots[x].t == ALL_ONES
    ensures Near(Insert(tb, t, off).slots, tb.k, x)
    decreases Rank(t)
  {
    FirstStopWell(tb, t);
    RankOfOnes(t);
    match FirstStop(tb, t)
    case Lesser(h) =>
      var e := tb.slots[h];
      NewOnesAreNear(tb, e.t, e.off, x);
      var mid := Insert(tb, e.t, e.off);
      assert Solid(tb.k, Entry(t, off), ALL_ONES);
    case _ =>
  }

  lemma {:induction false} InsertAddsOne(tb: Table, t: Tag, off: nat)
    requires WellFormed(tb) && HasRoom(tb) && Entry(t, off) != EMPTY
    ensures |Ones(Insert(tb, t, off).slots)| <= |Ones(tb.slots)| + (if t == ALL_ONES then 1 else 0)
    decreases Rank(t)
  {
    FirstStopWell(tb, t);
    RankOfOnes(t);
    var now := Insert(tb, t, off).slots;
    match FirstStop(tb, t)
    case Lesser(h) =>
      var e := tb.slots[h];
      InsertAddsOne(tb, e.t, e.off);
      InsertKeepsSlots(tb, e.t, e.off);
      var mid := Insert(tb, e.t, e.off).slots;
      assert SlotKept(tb.k, tb.slots[h], mid[h], e.t, e.off);
      assert Ones(now) == Ones(mid) - {h};
      if e.t == ALL_ONES {
        assert h in Ones(mid);
      }
    case Vacant(h) => AddBound(Ones(tb.slots), h, Ones(now)); NoNewOnes(tb.slots, now, h, t);
    case Due(h) => AddBound(Ones(tb.slots), h, Ones(now)); NoNewOnes(tb.slots, now, h, t);
    case Victim(h) => AddBound(Ones(tb.slots), h, Ones(now)); NoNewOnes(tb.slots, now, h, t);
  }

  lemma NoNewOnes(was: seq<Entry>, now: seq<Entry>, h: nat, t: Tag)
    requires h < |was| && exists off: nat :: now == was[h := Entry(t, off)]
    ensures t != ALL_ONES ==> |Ones(now)| <= |Ones(was)|
  {
    if t != ALL_ONES {
      SubsetSize(Ones(now), Ones(was));
    }
  }

  /** Inserting the all-ones tag adds a copy only if fewer than maxChain copies are near. */
  lemma OnesWhenInserted(tb: Table, off: nat)
    requires WellFormed(tb) && HasRoom(tb)
    ensures var now := Insert(tb, ALL_ONES, off).slots;
      |Ones(now)| <= |Ones(tb.slots)| || |Ones(now)| <= tb.maxChain + |Far(tb.slots, tb.k)|
  {
    FirstStopWell(tb, ALL_ONES);
    RankOfOnes(ALL_ONES);
    var now := Insert(tb, ALL_ONES, off).slots;
    match FirstStop(tb, ALL_ONES)
    case Victim(h) => assert Ones(now) == Ones(tb.slots);
    case Vacant(h) => OnesSplit(tb, h); AddBound(Ones(tb.slots), h, Ones(now));
    case Due(h) => OnesSplit(tb, h); AddBound(Ones(tb.slots), h, Ones(now));
    case Lesser(h) =>
  }

  lemma OnesSplit(tb: Table, h: nat)
    requires WellFormed(tb) && Reaches(tb, ALL_ONES, h)
    requires tb.slots[h] == EMPTY || Weak(tb.k, tb.slots[h].t)
    ensures |Ones(tb.slots)| < tb.maxChain + |Far(tb.slots, tb.k)|
  {
    var near, far := Copies(tb.slots, ALL_ONES, h), Far(tb.slots, tb.k);
    forall x | x in Ones(tb.slots)
      ensures x in near + far
    {
      if !Between(Primary(ALL_ONES, |tb.slots|), x, h) {
        assert x != h;
        assert !Solid(tb.k, tb.slots[h], ALL_ONES);
      }
    }
    SubsetSize(Ones(tb.slots), near + far);
  }

  lemma InsertKeepsCap(tb: Table, t: Tag, off: nat, cap: nat)
    requires WellFormed(tb) && HasRoom(tb) && Entry(t, off) != EMPTY && !Weak(tb.k, t)
    requires Capped(tb.slots, tb.k, cap, tb.maxChain)
    ensures Capped(Insert(tb, t, off).slots, tb.k, cap, tb.maxChain)
  {
    var now := Insert(tb, t, off).slots;
    InsertKeepsSlots(tb, t, off);
    forall x | x in Far(now, tb.k)
      ensures x in Far(tb.slots, tb.k)
    {
      if tb.slots[x].t != ALL_ONES {
        NewOnesAreNear(tb, t, off, x);
      } else if Near(tb.slots, tb.k, x) {
        NearStays(tb.slots, now, tb.k, t, off, x);
      }
    }
    SubsetSize(Far(now, tb.k), Far(tb.slots, tb.k));
    InsertAddsOne(tb, t, off);
    if t == ALL_ONES {
      OnesWhenInserted(tb, off);
    }
  }

  // ---- Before the first sweep ----

  /** A weak slot in front of an all-ones entry. */
  ghost predicate WeakBefore(slots: seq<Entry>, k: nat, y: nat, x: nat)
    requires |slots| > 0 && y < |slots|
  {
    Between(Primary(ALL_ONES, |slots|), y, x) && Weak(k, slots[y].t)
  }

  ghost predicate Unbroken(slots: seq<Entry>)
    requires |slots| > 0
  {
    forall x: nat, y: nat | x in Ones(slots) && y < |slots| && Between(Primary(ALL_ONES, |slots|), y, x) ::
      slots[y] != EMPTY
  }

  ghost predicate OneWeakBefore(slots: seq<Entry>, k: nat)
    requires |slots| > 0
  {
    forall x: nat, x': nat, y: nat, y': nat |
      && x in Ones(slots) && x' in Ones(slots) && y < |slots| && y' < |slots|
      && WeakBefore(slots, k, y, x) && WeakBefore(slots, k, y', x') ::
      y == y'
  }

  /** Nothing has been cleaned yet: there is no gap before an all-ones entry and at most one
      weak slot, and if there is one then the tag has room for another copy. */
  ghost predicate Fresh(slots: seq<Entry>, k: nat, maxChain: nat)
    requires |slots| > 0
  {
    && Unbroken(slots)
    && OneWeakBefore(slots, k)
    && |Ones(slots)| <= maxChain
    && (Far(slots, k) != {} ==> |Ones(slots)| < maxChain)
  }

  lemma NearIsFresh(slots: seq<Entry>, k: nat, maxChain: nat)
    requires |slots| > 0 && |Ones(slots)| <= maxChain
    requires forall x | x in Ones(slots) :: Near(slots, k, x)
    ensures Fresh(slots, k, maxChain) && Far(slots, k) == {}
  {
    forall x: nat, y: nat | x in Ones(slots) && y < |slots| && Between(Primary(ALL_ONES, |slots|), y, x)
      ensures Solid(k, slots[y], ALL_ONES)
    {
      assert Near(slots, k, x);
    }
  }

  lemma FreshOnesInserted(tb: Table, off: nat)
    requires WellFormed(tb) && HasRoom(tb) && Fresh(tb.slots, tb.k, tb.maxChain)
    ensures var now := Insert(tb, ALL_ONES, off).slots;
      Fresh(now, tb.k, tb.maxChain) && Far(now, tb.k) == {}
  {
    var now := Insert(tb, ALL_ONES, off).slots;
    FirstStopWell(tb, ALL_ONES);
    RankOfOnes(ALL_ONES);
    InsertKeepsSlots(tb, ALL_ONES, off);
    match FirstStop(tb, ALL_ONES)
    case Victim(h) =>
      var end: nat :| FullChain(tb, ALL_ONES, end);
      FullChainIsAll(tb, end);
      assert Ones(now) == Ones(tb.slots);
      FreshIfNear(tb, off);
    case Vacant(h) =>
      forall x | x in Ones(tb.slots)
        ensures x in Copies(tb.slots, ALL_ONES, h) && Near(tb.slots, tb.k, x)
      {
        assert x != h && !Between(Primary(ALL_ONES, |now|), h, x);
        OnesBefore(tb, h, x);
      }
      SubsetSize(Ones(tb.slots), Copies(tb.slots, ALL_ONES, h));
      AddBound(Ones(tb.slots), h, Ones(now));
      FreshIfNear(tb, off);
    case Due(h) =>
      FreshDue(tb, off, h);
    case Lesser(h) =>
  }

  lemma OnesBefore(tb: Table, h: nat, x: nat)
    requires WellFormed(tb) && Reaches(tb, ALL_ONES, h)
    requires x in Ones(tb.slots) && x != h && !Between(Primary(ALL_ONES, |tb.slots|), h, x)
    ensures x in Copies(tb.slots, ALL_ONES, h) && Near(tb.slots, tb.k, x)
  {
  }

  lemma FullChainIsAll(tb: Table, end: nat)
    requires WellFormed(tb) && FullChain(tb, ALL_ONES, end) && |Ones(tb.slots)| <= tb.maxChain
    ensures forall x | x in Ones(tb.slots) :: Near(tb.slots, tb.k, x)
  {
    var seen := Copies(tb.slots, ALL_ONES, end) + {end};
    assert !Between(Primary(ALL_ONES, |tb.slots|), end, end);
    SameSize(seen, Ones(tb.slots));
  }

  lemma SameSize(a: set<nat>, b: set<nat>)
    requires a <= b && |b| <= |a|
    ensures a == b
  {
    assert a + (b - a) == b;
  }

  /** If every copy was near before the all-ones tag is inserted, every copy is near after. */
  lemma FreshIfNear(tb: Table, off: nat)
    requires WellFormed(tb) && HasRoom(tb)
    requires forall x | x in Ones(tb.slots) :: Near(tb.slots, tb.k, x)
    requires |Ones(Insert(tb, ALL_ONES, off).slots)| <= tb.maxChain
    ensures var now := Insert(tb, ALL_ONES, off).slots;
      Fresh(now, tb.k, tb.maxChain) && Far(now, tb.k) == {}
  {
    var now := Insert(tb, ALL_ONES, off).slots;
    InsertKeepsSlots(tb, ALL_ONES, off);
    forall x | x in Ones(now)
      ensures Near(now, tb.k, x)
    {
      if tb.slots[x].t == ALL_ONES {
        NearStays(tb.slots, now, tb.k, ALL_ONES, off, x);
      } else {
        NewOnesAreNear(tb, ALL_ONES, off, x);
      }
    }
    NearIsFresh(now, tb.k, tb.maxChain);
  }

  lemma FreshDue(tb: Table, off: nat, h: nat)
    requires WellFormed(tb) && HasRoom(tb) && Fresh(tb.slots, tb.k, tb.maxChain)
    requires FirstStop(tb, ALL_ONES) == Due(h) && Reaches(tb, ALL_ONES, h)
    requires tb.slots[h] != EMPTY && Weak(tb.k, tb.slots[h].t)
    ensures var now := Insert(tb, ALL_ONES, off).slots;
      Fresh(now, tb.k, tb.maxChain) && Far(now, tb.k) == {}
  {
    var now := Insert(tb, ALL_ONES, off).slots;
    RankOfOnes(ALL_ONES);
    forall x | x in Ones(now)
      ensures Near(now, tb.k, x)
    {
      if x != h {
        NearOnceFilled(tb.slots, tb.k, h, off, x);
      }
    }
    if Far(tb.slots, tb.k) == {} {
      OnesSplit(tb, h);
    }
    AddBound(Ones(tb.slots), h, Ones(now));
    NearIsFresh(now, tb.k, tb.maxChain);
  }

  lemma NearOnceFilled(slots: seq<Entry>, k: nat, h: nat, off: nat, x: nat)
    requires h < |slots| && Weak(k, slots[h].t) && Path(slots, k, ALL_ONES, h)
    requires Unbroken(slots) && OneWeakBefore(slots, k)
    requires x in Ones(slots) && x != h
    ensures Near(slots[h := Entry(ALL_ONES, off)], k, x)
  {
    var q := Primary(ALL_ONES, |slots|);
    RankOfOnes(ALL_ONES);
    forall y: nat | y < |slots| && Between(q, y, x) && y != h
      ensures Solid(k, slots[y], ALL_ONES)
    {
      if Between(q, h, x) && WeakBefore(slots, k, y, x) {
        assert WeakBefore(slots, k, h, x);
      } else if !Between(q, h, x) {
        assert Between(q, y, h);
      }
    }
  }

  /** Putting another tag where no all-ones entry stands leaves the copies as near as before. */
  lemma PlaceKeepsFresh(slots: seq<Entry>, k: nat, maxChain: nat, h: nat, e: Entry)
    requires h < |slots| && Fresh(slots, k, maxChain)
    requires e != EMPTY && e.t != ALL_ONES && slots[h].t != ALL_ONES
    requires Weak(k, e.t) ==> slots[h] == EMPTY || Weak(k, slots[h].t)
    ensures Fresh(slots[h := e], k, maxChain)
  {
    var now := slots[h := e];
    assert Ones(now) == Ones(slots);
    forall x: nat, y: nat | x in Ones(now) && y < |now| && WeakBefore(now, k, y, x)
      ensures WeakBefore(slots, k, y, x)
    {
      assert slots[y] != EMPTY;
    }
    forall x | x in Ones(slots) && Near(slots, k, x)
      ensures Near(now, k, x)
    {
      RankOfOnes(e.t);
      assert Between(Primary(ALL_ONES, |slots|), h, x) ==> Solid(k, slots[h], ALL_ONES);
    }
    assert Far(now, k) <= Far(slots, k);
  }

  /** A tag takes the slot of an all-ones entry that has just been stored again elsewhere. */
  lemma TakeOverKeepsFresh(slots: seq<Entry>, k: nat, maxChain: nat, h: nat, e: Entry)
    requires h < |slots| && Fresh(slots, k, maxChain) && Far(slots, k) == {}
    requires e != EMPTY && e.t != ALL_ONES && slots[h].t == ALL_ONES
    ensures Fresh(slots[h := e], k, maxChain)
  {
    var now := slots[h := e];
    assert Ones(now) == Ones(slots) - {h};
    assert h in Ones(slots);
    forall x: nat, y: nat | x in Ones(now) && y < |now| && WeakBefore(now, k, y, x)
      ensures y == h
    {
      assert x !in Far(slots, k);
    }
  }

  lemma {:induction false} InsertKeepsFresh(tb: Table, t: Tag, off: nat)
    requires WellFormed(tb) && HasRoom(tb) && Entry(t, off) != EMPTY
    requires Fresh(tb.slots, tb.k, tb.maxChain)
    ensures Fresh(Insert(tb, t, off).slots, tb.k, tb.maxChain)
    decreases Rank(t)
  {
    if t == ALL_ONES {
      FreshOnesInserted(tb, off);
    } else {
      FirstStopWell(tb, t);
      match FirstStop(tb, t)
      case Lesser(h) =>
        var e := tb.slots[h];
        var mid := Insert(tb, e.t, e.off).slots;
        InsertKeepsSlots(tb, e.t, e.off);
        assert SlotKept(tb.k, e, mid[h], e.t, e.off);
        if e.t == ALL_ONES {
          FreshOnesInserted(tb, e.off);
          TakeOverKeepsFresh(mid, tb.k, tb.maxChain, h, Entry(t, off));
        } else {
          InsertKeepsFresh(tb, e.t, e.off);
          RankIsTrailing(e.t);
          RankIsTrailing(t);
          PlaceKeepsFresh(mid, tb.k, tb.maxChain, h, Entry(t, off));
        }
      case Vacant(h) => PlaceKeepsFresh(tb.slots, tb.k, tb.maxChain, h, Entry(t, off));
      case Due(h) => PlaceKeepsFresh(tb.slots, tb.k, tb.maxChain, h, Entry(t, off));
      case Victim(h) => PlaceKeepsFresh(tb.slots, tb.k, tb.maxChain, h, Entry(t, off));
    }
  }
}
