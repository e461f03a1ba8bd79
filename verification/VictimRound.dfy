/** Which copy goes when a tag has all the copies it may have: insert_hash takes them in turn. */
module VictimRound {
  import opened Bits
  import opened TagTable
  import opened Sweep

  /** An insertion drops a copy of a full chain, or nothing that is not due. */
  ghost predicate DropsCopy(tb: Table, t: Tag)
    requires |tb.slots| > 0
  {
    Evicted(tb, t) != EMPTY && !Weak(tb.k, Evicted(tb, t).t)
  }

  /** The copy that goes has as many copies in front of it as victim_round says. */
  lemma VictimIsRound(tb: Table, t: Tag)
    requires WellFormed(tb) && HasRoom(tb) && FirstStop(tb, t).Victim?
    ensures var h := FirstStop(tb, t).h;
      h < |tb.slots| && tb.slots[h].t == t && |Copies(tb.slots, t, h)| == tb.victimRound
  {
    FirstStopWell(tb, t);
  }

  /** The round goes up by one, and from the last back to 0, exactly when a copy of a full chain
      is dropped, by the new tag or by one that it displaces. */
  lemma {:induction false} RoundMoves(tb: Table, t: Tag, off: nat)
    requires WellFormed(tb) && HasRoom(tb)
    ensures Insert(tb, t, off).victimRound ==
      if !DropsCopy(tb, t) then tb.victimRound
      else if tb.victimRound == tb.maxChain - 1 then 0
      else tb.victimRound + 1
    decreases Rank(t)
  {
    FirstStopWell(tb, t);
    match FirstStop(tb, t)
    case Lesser(h) => RoundMoves(tb, tb.slots[h].t, tb.slots[h].off);
    case _ =>
  }

  // ---- A full chain ----

  lemma CopiesGrow(tb: Table, t: Tag, x: nat, y: nat)
    requires x < |tb.slots| && y < |tb.slots| && tb.slots[x].t == t && Between(Primary(t, |tb.slots|), x, y)
    ensures |Copies(tb.slots, t, x)| < |Copies(tb.slots, t, y)|
  {
    var before := Copies(tb.slots, t, x);
    assert x !in before && before + {x} <= Copies(tb.slots, t, y);
    SubsetSize(before + {x}, Copies(tb.slots, t, y));
  }

  /** The probe for a tag with a full chain ends at the copy whose turn it is. */
  lemma FullChainStops(tb: Table, t: Tag, end: nat)
    requires WellFormed(tb) && HasRoom(tb) && FullChain(tb, t, end)
    ensures FirstStop(tb, t).Victim? && InChain(tb, t, end, FirstStop(tb, t).h)
  {
    var q := Primary(t, |tb.slots|);
    FirstStopWell(tb, t);
    var s := FirstStop(tb, t);
    if s.Victim? {
      var end': nat :| FullChain(tb, t, end') && InChain(tb, t, end', s.h);
      if Between(q, end, end') {
        CopiesGrow(tb, t, end, end');
      } else if end != end' {
        CopiesGrow(tb, t, end', end);
      }
    } else {
      NotSolid(tb, t, s);
      NotInFront(tb, t, end, s.h);
      CopiesGrow(tb, t, end, s.h);
    }
  }

  lemma NotSolid(tb: Table, t: Tag, s: Stop)
    requires |tb.slots| > 0 && StopsWell(tb, t, s) && !s.Victim?
    ensures Reaches(tb, t, s.h) && !Solid(tb.k, tb.slots[s.h], t)
  {
  }

  lemma NotInFront(tb: Table, t: Tag, end: nat, h: nat)
    requires |tb.slots| > 0 && FullChain(tb, t, end) && h < |tb.slots| && !Solid(tb.k, tb.slots[h], t)
    ensures Between(Primary(t, |tb.slots|), end, h)
  {
  }

  lemma IndexUnique(tb: Table, t: Tag, x: nat, y: nat)
    requires x < |tb.slots| && y < |tb.slots| && tb.slots[x].t == tb.slots[y].t == t
    requires |Copies(tb.slots, t, x)| == |Copies(tb.slots, t, y)|
    ensures x == y
  {
    if Between(Primary(t, |tb.slots|), x, y) {
      CopiesGrow(tb, t, x, y);
    } else if x != y {
      CopiesGrow(tb, t, y, x);
    }
  }

  /** The table with slot h overwritten by another entry of the same tag, and the next round. */
  ghost predicate TurnTaken(was: Table, now: Table, h: nat, t: Tag, off: nat) {
    && h < |was.slots|
    && now == was.(slots := was.slots[h := Entry(t, off)],
                   victimRound := if was.victimRound == was.maxChain - 1 then 0 else was.victimRound + 1)
  }

  lemma InsertTakesTurn(tb: Table, t: Tag, off: nat, end: nat) returns (h: nat)
    requires WellFormed(tb) && HasRoom(tb) && FullChain(tb, t, end)
    ensures InChain(tb, t, end, h) && |Copies(tb.slots, t, h)| == tb.victimRound
    ensures TurnTaken(tb.(count := tb.count - 1), Insert(tb, t, off), h, t, off)
  {
    hide FullChain, InChain, HasRoom, FirstStop, Copies;
    FullChainStops(tb, t, end);
    VictimIsRound(tb, t);
    h := FirstStop(tb, t).h;
  }

  /** Offering a tag with a full chain replaces the copy whose turn it is and changes nothing else. */
  lemma OfferTakesTurn(sc: Scan, limit: nat, t: Tag, off: nat, end: nat) returns (h: nat)
    requires WellFormed(sc.tb) && HasRoom(sc.tb) && FullChain(sc.tb, t, end)
    requires Meets(sc.j, t) && sc.tb.count <= limit && off > 0
    ensures InChain(sc.tb, t, end, h) && |Copies(sc.tb.slots, t, h)| == sc.tb.victimRound
    ensures Offer(sc, limit, t, off).j == sc.j && TurnTaken(sc.tb, Offer(sc, limit, t, off).tb, h, t, off)
  {
    hide FirstStop, Insert, Path, Copies;
    var tb1 := sc.tb.(count := sc.tb.count + 1);
    h := InsertTakesTurn(tb1, t, off, end);
  }

  /** The chain stays full, with its copies in the same places. */
  lemma TurnKeepsChain(was: Table, now: Table, h: nat, t: Tag, off: nat, end: nat)
    requires WellFormed(was) && HasRoom(was) && FullChain(was, t, end) && InChain(was, t, end, h)
    requires TurnTaken(was, now, h, t, off) && off > 0
    ensures WellFormed(now) && HasRoom(now) && FullChain(now, t, end)
    ensures forall x: nat | x < |was.slots| ::
      Copies(now.slots, t, x) == Copies(was.slots, t, x) && (InChain(now, t, end, x) <==> InChain(was, t, end, x))
  {
    var room: nat :| room < |was.slots| && was.slots[room] == EMPTY;
    assert Solid(was.k, was.slots[h], t);
    assert now.slots[room] == EMPTY;
    forall x: nat | x < |was.slots|
      ensures Copies(now.slots, t, x) == Copies(was.slots, t, x)
    {
    }
    forall x: nat | x < |was.slots| && Between(Primary(t, |was.slots|), x, end)
      ensures Solid(now.k, now.slots[x], t)
    {
      assert Solid(was.k, was.slots[x], t);
    }
  }

  // ---- A whole turn ----

  function Offers(t: Tag, offs: seq<nat>): seq<Entry> {
    seq(|offs|, i requires 0 <= i < |offs| => Entry(t, offs[i]))
  }

  /** How many insertions from now the copy with this many copies in front of it is replaced. */
  function Turn(index: nat, round: nat, maxChain: nat): int {
    if index >= round then index - round else index - round + maxChain
  }

  /** What each slot holds after these insertions. */
  ghost predicate Rotated(was: Table, now: Table, t: Tag, offs: seq<nat>, end: nat)
    requires |was.slots| > 0
  {
    && now == was.(slots := now.slots, victimRound := now.victimRound) && |now.slots| == |was.slots|
    && forall x: nat | x < |was.slots| :: SlotRotated(was, now, t, offs, end, x)
  }

  ghost predicate SlotRotated(was: Table, now: Table, t: Tag, offs: seq<nat>, end: nat, x: nat)
    requires x < |now.slots| == |was.slots|
  {
    var turn := Turn(|Copies(was.slots, t, x)|, was.victimRound, was.maxChain);
    now.slots[x] == if InChain(was, t, end, x) && 0 <= turn < |offs| then Entry(t, offs[turn]) else was.slots[x]
  }

  lemma IndexBelow(tb: Table, t: Tag, end: nat, x: nat)
    requires |tb.slots| > 0 && FullChain(tb, t, end) && InChain(tb, t, end, x)
    ensures x < |tb.slots| && tb.slots[x].t == t && |Copies(tb.slots, t, x)| < tb.maxChain
  {
    if x != end {
      CopiesGrow(tb, t, x, end);
    }
  }

  lemma {:induction false} RunRotates(sc: Scan, limit: nat, t: Tag, offs: seq<nat>, end: nat)
    requires WellFormed(sc.tb) && HasRoom(sc.tb) && FullChain(sc.tb, t, end)
    requires Meets(sc.j, t) && sc.tb.count <= limit && |offs| <= sc.tb.maxChain
    requires forall i | 0 <= i < |offs| :: offs[i] > 0
    ensures Run(sc, limit, Offers(t, offs)).j == sc.j
    ensures Rotated(sc.tb, Run(sc, limit, Offers(t, offs)).tb, t, offs, end)
    decreases |offs|
  {
    hide FullChain, InChain, HasRoom, Offer, Meets;
    if offs != [] {
      var rest := offs[1..];
      assert Offers(t, offs)[1..] == Offers(t, rest);
      var h := OfferTakesTurn(sc, limit, t, offs[0], end);
      var mid := Offer(sc, limit, t, offs[0]);
      TurnKeepsChain(sc.tb, mid.tb, h, t, offs[0], end);
      RunRotates(mid, limit, t, rest, end);
      var now := Run(mid, limit, Offers(t, rest)).tb;
      forall x: nat | x < |sc.tb.slots|
        ensures SlotRotated(sc.tb, now, t, offs, end, x)
      {
        OneMoreTurn(sc.tb, mid.tb, now, h, t, offs, end, x);
      }
    }
  }

  lemma OneMoreTurn(was: Table, mid: Table, now: Table, h: nat, t: Tag, offs: seq<nat>, end: nat, x: nat)
    requires WellFormed(was) && FullChain(was, t, end) && InChain(was, t, end, h) && offs != [] && |offs| <= was.maxChain
    requires |Copies(was.slots, t, h)| == was.victimRound && TurnTaken(was, mid, h, t, offs[0])
    requires x < |was.slots| == |now.slots| && Copies(mid.slots, t, x) == Copies(was.slots, t, x)
    requires InChain(mid, t, end, x) <==> InChain(was, t, end, x)
    requires SlotRotated(mid, now, t, offs[1..], end, x)
    ensures SlotRotated(was, now, t, offs, end, x)
  {
    hide FullChain, InChain, Copies;
    IndexBelow(was, t, end, h);
    if InChain(was, t, end, x) {
      IndexBelow(was, t, end, x);
      if |Copies(was.slots, t, x)| == was.victimRound {
        IndexUnique(was, t, x, h);
      }
    }
  }

  lemma StopsAtVictim(tb: Table, t: Tag)
    requires WellFormed(tb) && HasRoom(tb) && Chains(tb.slots, tb.k)
    requires !Weak(tb.k, t) && t != ALL_ONES && |AllCopies(tb.slots, t)| == tb.maxChain
    ensures FirstStop(tb, t).Victim?
  {
    FirstStopWell(tb, t);
    RankIsTrailing(t);
    match FirstStop(tb, t)
    case Vacant(h) => AllCopiesPassed(tb, t, h);
    case Lesser(h) => AllCopiesPassed(tb, t, h);
    case Due(h) =>
      RankIsTrailing(tb.slots[h].t);
      AllCopiesPassed(tb, t, h);
    case Victim(h) =>
  }

  /** With all its copies stored, a tag has a full chain. */
  lemma AllCopiesChain(tb: Table, t: Tag) returns (end: nat)
    requires WellFormed(tb) && HasRoom(tb) && Chains(tb.slots, tb.k)
    requires !Weak(tb.k, t) && t != ALL_ONES && |AllCopies(tb.slots, t)| == tb.maxChain
    ensures FullChain(tb, t, end)
    ensures forall x: nat :: x in AllCopies(tb.slots, t) <==> InChain(tb, t, end, x)
  {
    StopsAtVictim(tb, t);
    FirstStopWell(tb, t);
    end :| FullChain(tb, t, end) && InChain(tb, t, end, FirstStop(tb, t).h);
    var chain := Copies(tb.slots, t, end) + {end};
    forall x | x in chain
      ensures x in AllCopies(tb.slots, t)
    {
      assert Solid(tb.k, tb.slots[x], t);
    }
    forall x | x in AllCopies(tb.slots, t)
      ensures x in chain
    {
      if x !in chain {
        SubsetSize(chain + {x}, AllCopies(tb.slots, t));
      }
    }
  }

  /** As many insertions of a tag as it may have copies replace them all: in every state of a run,
      each copy in its turn, none of them twice, and nothing else. */
  lemma WholeTurn(sc: Scan, limit: nat, k0: nat, t: Tag, offs: seq<nat>)
    requires ScanInvariant(sc, limit, k0) && Meets(sc.j, t)
    requires !Weak(sc.tb.k, t) && t != ALL_ONES && |AllCopies(sc.tb.slots, t)| == sc.tb.maxChain == |offs|
    requires forall i | 0 <= i < |offs| :: offs[i] > 0
    ensures var was, now := sc.tb.slots, Run(sc, limit, Offers(t, offs)).tb.slots;
      && |now| == |was| && AllCopies(now, t) == AllCopies(was, t)
      && (forall x: nat | x < |was| && x !in AllCopies(was, t) :: now[x] == was[x])
      && forall x | x in AllCopies(was, t) ::
           var turn := Turn(|Copies(was, t, x)|, sc.tb.victimRound, sc.tb.maxChain);
           0 <= turn < |offs| && now[x] == Entry(t, offs[turn])
  {
    UnderLimitHasRoom(sc.tb, limit);
    var end := AllCopiesChain(sc.tb, t);
    RunRotates(sc, limit, t, offs, end);
    var was, now := sc.tb, Run(sc, limit, Offers(t, offs)).tb;
    forall x: nat | x < |was.slots|
      ensures SlotRotated(was, now, t, offs, end, x)
      ensures x in AllCopies(was.slots, t) ==> 0 <= Turn(|Copies(was.slots, t, x)|, was.victimRound, was.maxChain) < |offs|
    {
      if x in AllCopies(was.slots, t) {
        IndexBelow(was, t, end, x);
      }
    }
  }
}
