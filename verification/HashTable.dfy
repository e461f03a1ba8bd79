/** The tag table of rzip.c as it is kept in memory: an array of slots overwritten in place,
    the entry count, the sweep pointer and the mask that stored tags meet. */
module HashTable {
  import opened Bits
  import opened TagTable
  import opened Sweep

  ghost predicate Narrow(slots: seq<Entry>) {
    forall s: nat | s < |slots| :: slots[s].off <= UINT32_MAX
  }

  lemma {:induction false} InsertStaysNarrow(tb: Table, t: Tag, off: nat)
    requires |tb.slots| > 0 && Narrow(tb.slots) && off <= UINT32_MAX
    ensures Narrow(Insert(tb, t, off).slots)
    decreases Rank(t)
  {
    match FirstStop(tb, t)
    case Lesser(h) =>
      if h < |tb.slots| && Rank(tb.slots[h].t) < Rank(t) {
        InsertStaysNarrow(tb, tb.slots[h].t, tb.slots[h].off);
      }
    case _ =>
  }

  class HashTable {
    const hashBits: nat
    const hashWide: bool
    const maxChain: nat
    const table: array<Entry>
    var hashCount: int
    var minimumTagMask: Tag
    var tagCleanPtr: nat
    var victimRound: nat
    ghost var maskBits: nat

    ghost predicate Valid()
      reads this, table
    {
      && hashBits <= 32
      && table.Length == Pow2(hashBits)
      && maskBits <= 32 && minimumTagMask == LowOnes(maskBits)
      && tagCleanPtr <= table.Length
      && victimRound < maxChain
    }

    ghost function View(): Table
      reads this, table
    {
      Table(table[..], maskBits, tagCleanPtr, hashCount, victimRound, maxChain)
    }

    /** A table for one chunk. `victimRound` is static in insert_hash and outlives the chunk. */
    constructor (hashBits: nat, hashWide: bool, maxChain: nat, initialFreq: nat, victimRound: nat)
      requires hashBits <= 32 && initialFreq <= 32 && victimRound < maxChain
      ensures Valid() && fresh(table)
      ensures this.hashBits == hashBits && this.hashWide == hashWide && this.maxChain == maxChain
      ensures View() == Cleared(Pow2(hashBits), initialFreq, victimRound, maxChain)
    {
      this.hashBits := hashBits;
      this.hashWide := hashWide;
      this.maxChain := maxChain;
      this.victimRound := victimRound;
      table := new Entry[Pow2(hashBits)](_ => EMPTY);
      hashCount := 0;
      tagCleanPtr := 0;
      IncreaseMaskOnes(initialFreq);
      minimumTagMask := LowOnes(initialFreq);
      maskBits := initialFreq;
    }

    /** A narrow slot keeps the low 32 bits of an offset. */
    method Set(h: nat, t: Tag, offset: nat)
      requires Valid() && h < table.Length
      modifies table
      ensures Valid()
      ensures table[..] == old(table[..])[h := Entry(t, if hashWide then offset else offset % (UINT32_MAX + 1))]
    {
      table[h] := Entry(t, if hashWide then offset else offset % (UINT32_MAX + 1));
    }

    method NextSlot(h: nat) returns (next: nat)
      requires Valid() && h < table.Length
      ensures next == Next(h, table.Length)
    {
      next := And(h + 1, LowOnes(hashBits));
      AndLowOnes(h + 1, hashBits);
      if h + 1 == table.Length {
        ModUnique(h + 1, table.Length, 1, 0);
      } else {
        ModUnique(h + 1, table.Length, 0, h + 1);
      }
    }

    method PrimaryHash(t: Tag) returns (h: nat)
      requires Valid()
      ensures h == Primary(t, table.Length) < table.Length
    {
      h := And(t, LowOnes(hashBits));
      AndLowOnes(t, hashBits);
    }

    method MinimumBitness(t: Tag) returns (b: bool)
      requires Valid()
      ensures b == Weak(maskBits, t)
    {
      var better := IncreaseMask(minimumTagMask);
      b := And(t, better) != better;
      IncreaseMaskOnes(maskBits);
      TagTable.MinimumBitness(maskBits, t);
    }

    /** Is a to be cleaned before b? It is when it has fewer trailing ones, but a tag of all ones
        counts as having fewer than any other. */
    method LesserBitness(a: Tag, b: Tag) returns (r: bool)
      ensures r <==> b != ALL_ONES && (a == ALL_ONES || Trailing(a) < Trailing(b))
      ensures r <==> Rank(a) < Rank(b)
    {
      Pow2Values();
      r := Ffs(Not(a, 32)) < Ffs(Not(b, 32));
      RankIsTrailing(a);
      RankIsTrailing(b);
    }

    ghost predicate OffsetsFit()
      reads this, table
    {
      hashWide || Narrow(table[..])
    }

    /** The probe loop of insert_hash: the slot to overwrite and why the probe ended there. */
    method FindSlot(t: Tag) returns (stop: Stop)
      requires Valid() && HasRoom(View())
      ensures stop == FirstStop(View(), t)
    {
      hide Pow2, LowOnes, HasRoom, Weak, Rank, Copies, Path;
      ghost var tb := View();
      FirstStopWell(tb, t);
      ghost var left: nat := table.Length - 1;
      var victimH, round := 0, 0;
      var h := PrimaryHash(t);
      var e := table[h];
      while e != EMPTY
        invariant h < table.Length && e == tb.slots[h]
        invariant FirstStop(tb, t) == Probe(tb, t, h, round, victimH, left)
        decreases left
      {
        var due := MinimumBitness(e.t);
        if due {
          return Due(h);
        }
        var lesser := LesserBitness(e.t, t);
        if lesser {
          return Lesser(h);
        }
        if e.t == t {
          if round == victimRound {
            victimH := h;
          }
          round := round + 1;
          if round == maxChain {
            return Victim(victimH);
          }
        }
        h := NextSlot(h);
        e := table[h];
        left := left - 1;
      }
      return Vacant(h);
    }

    method InsertHash(t: Tag, offset: nat)
      requires Valid() && HasRoom(View()) && Entry(t, offset) != EMPTY
      requires OffsetsFit() && (hashWide || offset <= UINT32_MAX)
      modifies this`hashCount, this`victimRound, table
      ensures Valid() && OffsetsFit()
      ensures View() == Insert(old(View()), t, offset)
      decreases Rank(t)
    {
      hide HasRoom, FirstStop, Rank, Pow2, LowOnes, Weak, Primary;
      ghost var was := View();
      FirstStopWell(was, t);
      var stop := FindSlot(t);
      match stop {
        case Due(h) =>
          hashCount := hashCount - 1;
        case Lesser(h) =>
          InsertHash(table[h].t, table[h].off);
        case Victim(h) =>
          hashCount := hashCount - 1;
          victimRound := victimRound + 1;
          if victimRound == maxChain {
            victimRound := 0;
          }
        case Vacant(h) =>
      }
      Set(stop.h, t, offset);
      if !hashWide {
        InsertStaysNarrow(was, t, offset);
      }
    }

    /** One pass of the sweep from tag_clean_ptr: clear the first entry that is due, or raise the
        mask and go back to the start of the table. */
    method SweepOnce() returns (cleared: bool)
      requires Valid() && OffsetsFit()
      modifies this`hashCount, this`minimumTagMask, this`tagCleanPtr, this`maskBits, table
      ensures Valid() && OffsetsFit()
      ensures View() == SweepPass(old(View())).tb && cleared == SweepPass(old(View())).Cleaned?
    {
      ghost var was := View();
      ghost var p := FirstDue(was.slots, was.k, was.ptr);
      while tagCleanPtr < table.Length
        invariant Valid() && OffsetsFit() && View() == was.(ptr := tagCleanPtr)
        invariant p == FirstDue(was.slots, was.k, tagCleanPtr)
        decreases table.Length - tagCleanPtr
      {
        var e := table[tagCleanPtr];
        var due := MinimumBitness(e.t);
        if e != EMPTY && due {
          Set(tagCleanPtr, 0, 0);
          hashCount := hashCount - 1;
          return true;
        }
        tagCleanPtr := tagCleanPtr + 1;
      }
      IncreaseMaskOnes(maskBits);
      minimumTagMask := IncreaseMask(minimumTagMask);
      maskBits := MoreBits(maskBits);
      tagCleanPtr := 0;
      return false;
    }

    /** Eliminate one entry with the fewest low ones; returns the mask new entries must meet. */
    method CleanOneFromHash() returns (mask: Tag)
      requires Valid() && OffsetsFit() && Sweepable(table[..])
      modifies this`hashCount, this`minimumTagMask, this`tagCleanPtr, this`maskBits, table
      ensures Valid() && OffsetsFit()
      ensures View() == Clean(old(View()))
      ensures mask == LowOnes(MoreBits(maskBits))
    {
      ghost var was := View();
      var cleared := false;
      while !cleared
        invariant Valid() && OffsetsFit()
        invariant if cleared then View() == Clean(was) else CanClean(View()) && Clean(View()) == Clean(was)
        decreases !cleared, 32 - maskBits, tagCleanPtr
      {
        if maskBits == 32 && tagCleanPtr == 0 {
          DueAtLast(View());
        }
        cleared := SweepOnce();
      }
      IncreaseMaskOnes(maskBits);
      mask := IncreaseMask(minimumTagMask);
    }
  }
}
