/** What a whole scan of hash_search looks for, finds and writes: laws of its runs. */
module Greedy {
  import opened Bits
  import opened Bytes
  import opened TagTable
  import opened Sweep
  import opened Tokens
  import opened MatchFinder
  import opened HashSearch

  /** What the scan of one chunk is about. */
  datatype Setting = Setting(chunk: seq<byte>, index: HashIndex, end: nat, limit: nat, k0: nat)

  ghost predicate RunOf(run: seq<Snapshot>, g: Setting) {
    IsRun(run, g.chunk, g.index, g.end, g.limit, g.k0)
  }

  /** Iteration i looks its tag up. */
  ghost predicate LooksUp(run: seq<Snapshot>, i: nat, g: Setting)
    requires RunOf(run, g) && i < |run| - 1
  {
    Meets(run[i].sc.tb.k, TagAt(g.index, g.chunk, run[i].c.p + 1))
  }

  ghost function CandidatesAt(run: seq<Snapshot>, i: nat, g: Setting): seq<nat>
    requires RunOf(run, g) && i < |run| - 1 && |run[i].sc.tb.slots| > 0
  {
    Looked(run[i].sc.tb, TagAt(g.index, g.chunk, run[i].c.p + 1))
  }

  /** Candidate o of iteration i gives a match of len bytes, which may reach back to the last match
      written. */
  ghost predicate Offers(run: seq<Snapshot>, i: nat, o: nat, len: nat, g: Setting)
    requires RunOf(run, g) && i < |run| - 1
  {
    var p := run[i].c.p + 1;
    o < p && len == MatchTotal(g.chunk, p, o, run[i].c.lastMatch, g.end) >= MINIMUM_MATCH
  }

  /** Iteration i writes match m. */
  ghost predicate WritesAt(run: seq<Snapshot>, i: nat, m: Pending, g: Setting)
    requires i < |run| - 1
  {
    Writes(run[i], run[i + 1], m, g.chunk, g.index, g.end)
  }

  // ---- One iteration ----

  lemma RunStep(run: seq<Snapshot>, i: nat, g: Setting)
    requires RunOf(run, g) && i < |run| - 1
    ensures SnapOk(run[i], g.chunk, g.index, g.end, g.limit, g.k0)
    ensures SnapOk(run[i + 1], g.chunk, g.index, g.end, g.limit, g.k0)
    ensures |run[i].sc.tb.slots| > 0 && run[i].c.p < g.end
    ensures Iterates(run[i], run[i + 1], g.chunk, g.index, g.end, g.limit)
  {
  }

  /** An iteration without a lookup moves on; one with a lookup keeps the longest match, and writes it
      if it is due. */
  lemma StepCases(run: seq<Snapshot>, i: nat, g: Setting) returns (next: Pending)
    requires RunOf(run, g) && i < |run| - 1
    ensures |run[i].sc.tb.slots| > 0 && run[i].c.lastMatch <= run[i].c.p < g.end <= |g.chunk|
    ensures !LooksUp(run, i, g) ==>
      next == run[i].c.current && run[i + 1].c.current == next && run[i + 1].c.lastMatch == run[i].c.lastMatch
    ensures LooksUp(run, i, g) ==>
      var s, p := run[i], run[i].c.p + 1;
      && PendingOk(next, g.chunk, s.c.lastMatch, g.end)
      && Keeps(CandidatesAt(run, i, g), g.chunk, s.c.lastMatch, p, g.end, s.c.current, next)
      && (IsDue(next, p) <==> run[i + 1].c.lastMatch > s.c.lastMatch)
      && (if IsDue(next, p) then WritesAt(run, i, next, g)
          else run[i + 1].c.current == next && run[i + 1].c.lastMatch == s.c.lastMatch)
    ensures run[i + 1].c.lastMatch == run[i].c.lastMatch ==> run[i + 1].c.p == run[i].c.p + 1
    ensures run[i + 1].c.lastMatch >= run[i].c.lastMatch
    ensures next.len >= run[i].c.current.len && next.p <= run[i].c.p + 1
  {
    hide Keeps, Looked, TagAt, ScanInvariant, SameBytes, WithMatch, Offer;
    RunStep(run, i, g);
    next := run[i].c.current;
    if LooksUp(run, i, g) {
      var s, p, t := run[i], run[i].c.p + 1, TagAt(g.index, g.chunk, run[i].c.p + 1);
      next :| PendingOk(next, g.chunk, s.c.lastMatch, g.end)
        && Keeps(Looked(s.sc.tb, t), g.chunk, s.c.lastMatch, p, g.end, s.c.current, next)
        && (if IsDue(next, p) then Writes(s, run[i + 1], next, g.chunk, g.index, g.end)
            else run[i + 1].c == s.c.(p := p, t := t, current := next) && run[i + 1].toks == s.toks);
      KeepsLonger(Looked(s.sc.tb, t), g.chunk, s.c.lastMatch, p, g.end, s.c.current, next);
    }
  }

  lemma KeepsLonger(cands: seq<nat>, chunk: seq<byte>, lo: nat, p: nat, end: nat, current: Pending, next: Pending)
    requires lo <= p <= end <= |chunk| && Keeps(cands, chunk, lo, p, end, current, next) && current.p <= p
    ensures next.len >= current.len && next.p <= p
  {
  }

  // ---- No match is passed ----

  /** From iteration i on, the first match written has at least len bytes, or none is written and one
      that long is pending at the end. */
  ghost predicate Taken(run: seq<Snapshot>, i: nat, len: nat, g: Setting)
    requires i < |run|
  {
    var last, lo := run[|run| - 1].c, run[i].c.lastMatch;
    || (exists j: nat, m: Pending ::
          i <= j < |run| - 1 && run[j].c.lastMatch == lo && WritesAt(run, j, m, g) && m.len >= len)
    || (last.lastMatch == lo && last.current.len >= len)
  }

  lemma {:induction false} PendingIsTaken(run: seq<Snapshot>, i: nat, len: nat, g: Setting)
    requires RunOf(run, g) && i < |run| && run[i].c.current.len >= len > 0
    ensures Taken(run, i, len, g)
    decreases |run| - i
  {
    hide WritesAt, CandidatesAt, Keeps, RunOf, LooksUp, IsDue;
    if i < |run| - 1 {
      var next := StepCases(run, i, g);
      if run[i + 1].c.lastMatch == run[i].c.lastMatch {
        PendingIsTaken(run, i + 1, len, g);
      }
    }
  }

  /** Whatever a lookup offers is surpassed by nothing shorter: the next match written is at least as
      long, or one at least as long is pending at the end. */
  lemma OfferIsTaken(run: seq<Snapshot>, i: nat, o: nat, len: nat, g: Setting)
    requires RunOf(run, g) && i < |run| - 1 && |run[i].sc.tb.slots| > 0
    requires LooksUp(run, i, g) && o in CandidatesAt(run, i, g) && Offers(run, i, o, len, g)
    ensures Taken(run, i, len, g)
  {
    hide WritesAt, CandidatesAt, RunOf, LooksUp, MatchTotal, IsDue;
    var next := StepCases(run, i, g);
    assert NoBetter(o, g.chunk, run[i].c.lastMatch, run[i].c.p + 1, g.end, next.len);
    if run[i + 1].c.lastMatch == run[i].c.lastMatch {
      PendingIsTaken(run, i + 1, len, g);
    }
  }

  /** A slot within the probe limit holds an entry for the tag of the 31 bytes at the position of
      iteration i, neither due for cleaning nor all ones, and so many bytes agree there that a match of
      len bytes results. */
  ghost predicate Holds(run: seq<Snapshot>, i: nat, slot: nat, len: nat, g: Setting)
    requires RunOf(run, g) && i < |run| - 1
  {
    var tb, t := run[i].sc.tb, TagAt(g.index, g.chunk, run[i].c.p + 1);
    && StrongCopy(tb, t, slot)
    && Dist(Primary(t, |tb.slots|), slot, |tb.slots|) < 4 * tb.maxChain + 16
    && Offers(run, i, tb.slots[slot].off, len, g)
  }

  /** A repetition of which the table holds the tag is not passed: the tag is looked up, and the match
      or a longer one is taken. */
  lemma StoredMatchIsTaken(run: seq<Snapshot>, i: nat, slot: nat, len: nat, g: Setting)
    requires RunOf(run, g) && i < |run| - 1
    requires Holds(run, i, slot, len, g)
    ensures Taken(run, i, len, g)
  {
    hide Taken, Looked, MatchTotal;
    RunStep(run, i, g);
    var tb, t := run[i].sc.tb, TagAt(g.index, g.chunk, run[i].c.p + 1);
    LookupIsComplete(run[i].sc, g.limit, g.k0, t, slot);
    assert tb.slots[slot].t == t;
    OfferIsTaken(run, i, tb.slots[slot].off, len, g);
  }

  // ---- What is written is the best there was ----

  /** The iterations from f to i all start behind the same match. */
  ghost predicate SameStretch(run: seq<Snapshot>, f: nat, i: nat) {
    f <= i < |run| && forall x | f <= x <= i :: run[x].c.lastMatch == run[f].c.lastMatch
  }

  /** m is what the lookup of iteration x gives at best, and the lookups before it in the stretch from
      f on gave nothing as long. */
  ghost predicate FoundAt(run: seq<Snapshot>, f: nat, x: nat, m: Pending, g: Setting)
    requires RunOf(run, g) && x < |run| - 1 && |run[x].sc.tb.slots| > 0 && m.len > 0
  {
    && f <= x && run[x].c.current.len < m.len && LooksUp(run, x, g)
    && IsFirstBest(CandidatesAt(run, x, g), g.chunk, run[x].c.lastMatch, run[x].c.p + 1, g.end, m)
  }

  /** The pending match, if any, was found since the last match was written, and its length is that of
      the longest offered since. */
  lemma {:induction false} PendingWasFound(run: seq<Snapshot>, f: nat, i: nat, g: Setting) returns (x: nat)
    requires RunOf(run, g) && SameStretch(run, f, i) && run[f].c.current.len == 0 < run[i].c.current.len
    ensures x < i && |run[x].sc.tb.slots| > 0 && FoundAt(run, f, x, run[i].c.current, g)
    decreases i
  {
    hide CandidatesAt, RunOf, LooksUp, IsDue, WritesAt, IsFirstBest;
    var next := StepCases(run, i - 1, g);
    if LooksUp(run, i - 1, g) && next != run[i - 1].c.current {
      x := i - 1;
    } else {
      x := PendingWasFound(run, f, i - 1, g);
    }
  }

  /** Within a stretch the pending match only gets longer. */
  lemma {:induction false} PendingGrows(run: seq<Snapshot>, f: nat, a: nat, b: nat, g: Setting)
    requires RunOf(run, g) && SameStretch(run, f, b) && f <= a <= b
    ensures run[a].c.current.len <= run[b].c.current.len
    decreases b
  {
    hide CandidatesAt, RunOf, LooksUp, WritesAt, Keeps, IsDue;
    if a < b {
      PendingGrows(run, f, a, b - 1, g);
      var next := StepCases(run, b - 1, g);
    }
  }

  /** What was offered in a stretch is no longer than what is pending after it. */
  lemma OfferIsBelow(run: seq<Snapshot>, f: nat, y: nat, o: nat, len: nat, j: nat, g: Setting)
    requires RunOf(run, g) && SameStretch(run, f, j) && f <= y < j
    requires |run[y].sc.tb.slots| > 0 && LooksUp(run, y, g) && o in CandidatesAt(run, y, g) && Offers(run, y, o, len, g)
    ensures len <= run[j].c.current.len
  {
    hide CandidatesAt, RunOf, LooksUp, WritesAt, MatchTotal, IsDue;
    var next := StepCases(run, y, g);
    assert NoBetter(o, g.chunk, run[y].c.lastMatch, run[y].c.p + 1, g.end, next.len);
    PendingGrows(run, f, y + 1, j, g);
  }

  /** A match that is written was found by a lookup since the one before, is longer than anything
      offered before it, and nothing longer was offered since. */
  lemma WrittenIsLongest(run: seq<Snapshot>, f: nat, j: nat, g: Setting) returns (m: Pending, x: nat)
    requires RunOf(run, g) && SameStretch(run, f, j) && run[f].c.current.len == 0
    requires j < |run| - 1 && run[j + 1].c.lastMatch > run[j].c.lastMatch
    ensures WritesAt(run, j, m, g) && m.len >= MINIMUM_MATCH
    ensures x <= j && |run[x].sc.tb.slots| > 0 && FoundAt(run, f, x, m, g)
    ensures forall y: nat, o: nat, len: nat |
      f <= y <= j && |run[y].sc.tb.slots| > 0 && LooksUp(run, y, g) && o in CandidatesAt(run, y, g) && Offers(run, y, o, len, g)
      :: len <= m.len && (y < x ==> len < m.len)
  {
    hide CandidatesAt, RunOf, LooksUp, WritesAt, IsFirstBest, MatchTotal, Keeps;
    m := StepCases(run, j, g);
    if m == run[j].c.current {
      x := PendingWasFound(run, f, j, g);
    } else {
      x := j;
      KeptIsFound(CandidatesAt(run, j, g), g.chunk, run[j].c.lastMatch, run[j].c.p + 1, g.end, run[j].c.current, m);
    }
    forall y: nat, o: nat, len: nat |
      f <= y <= j && |run[y].sc.tb.slots| > 0 && LooksUp(run, y, g) && o in CandidatesAt(run, y, g) && Offers(run, y, o, len, g)
      ensures len <= m.len && (y < x ==> len < m.len)
    {
      if y < x {
        StretchOf(run, f, x, j);
        OfferIsBelow(run, f, y, o, len, x, g);
      }
      if y < j {
        OfferIsBelow(run, f, y, o, len, j, g);
      } else {
        KeptIsBest(CandidatesAt(run, j, g), o, g.chunk, run[j].c.lastMatch, run[j].c.p + 1, g.end, run[j].c.current, m);
      }
    }
  }

  lemma StretchOf(run: seq<Snapshot>, f: nat, x: nat, j: nat)
    requires SameStretch(run, f, j) && f <= x <= j
    ensures SameStretch(run, f, x)
  {
  }

  lemma KeptIsFound(cands: seq<nat>, chunk: seq<byte>, lo: nat, p: nat, end: nat, current: Pending, next: Pending)
    requires lo <= p <= end <= |chunk| && Keeps(cands, chunk, lo, p, end, current, next) && next != current
    ensures current.len < next.len && IsFirstBest(cands, chunk, lo, p, end, next)
  {
  }

  lemma KeptIsBest(cands: seq<nat>, o: nat, chunk: seq<byte>, lo: nat, p: nat, end: nat, current: Pending, next: Pending)
    requires lo <= p <= end <= |chunk| && Keeps(cands, chunk, lo, p, end, current, next) && o in cands
    ensures NoBetter(o, chunk, lo, p, end, next.len)
  {
  }

  // ---- What is left pending, and what is looked at ----

  /** The lookups of the stretch that ends at i were at positions less than 31 bytes behind p. */
  ghost predicate LookedBefore(run: seq<Snapshot>, i: nat, p: nat, g: Setting)
    requires RunOf(run, g) && i < |run|
  {
    forall x: nat | x < i && run[x].c.lastMatch == run[i].c.lastMatch && LooksUp(run, x, g) :: run[x].c.p + 1 < p + 31
  }

  /** A match that stays pending has less than 1024 bytes, and the scan has looked nothing up 31 bytes
      behind its start. So a match is lost at the end of a chunk in this case alone. */
  lemma {:induction false} PendingIsYoung(run: seq<Snapshot>, i: nat, g: Setting)
    requires RunOf(run, g) && i < |run| && run[0].c.current.len == 0 < run[i].c.current.len
    ensures run[i].c.current.len < 1024 && LookedBefore(run, i, run[i].c.current.p, g)
    decreases i
  {
    hide CandidatesAt, RunOf, LooksUp, WritesAt, Keeps;
    var next := StepCases(run, i - 1, g);
    NothingAfterWriting(run, i - 1, g);
    if !LooksUp(run, i - 1, g) {
      PendingIsYoung(run, i - 1, g);
    } else {
      PositionsGrow(run, i, g);
    }
  }

  lemma NothingAfterWriting(run: seq<Snapshot>, i: nat, g: Setting)
    requires RunOf(run, g) && i < |run| - 1 && run[i + 1].c.current.len > 0
    ensures run[i + 1].c.lastMatch == run[i].c.lastMatch
  {
    hide CandidatesAt, RunOf, LooksUp, Keeps;
    var next := StepCases(run, i, g);
  }

  /** Within a stretch positions go up. */
  lemma {:induction false} PositionsGrow(run: seq<Snapshot>, i: nat, g: Setting)
    requires RunOf(run, g) && i < |run|
    ensures forall x: nat | x <= i :: run[x].c.lastMatch <= run[i].c.lastMatch
    ensures forall x: nat | x < i && run[x].c.lastMatch == run[i].c.lastMatch :: run[x].c.p < run[i].c.p
    decreases i
  {
    hide CandidatesAt, RunOf, LooksUp, WritesAt, Keeps;
    if i > 0 {
      var next := StepCases(run, i - 1, g);
      PositionsGrow(run, i - 1, g);
    }
  }

  /** Position q is that of an iteration before i, or one of a match written before i or right behind. */
  ghost predicate Examined(run: seq<Snapshot>, i: nat, q: nat, g: Setting)
    requires i < |run|
  {
    || (exists x: nat :: x < i && run[x].c.p + 1 == q)
    || (exists x: nat, m: Pending :: x < i && WritesAt(run, x, m, g) && m.p <= q <= m.p + m.len)
  }

  ghost predicate AllExamined(run: seq<Snapshot>, i: nat, g: Setting)
    requires i < |run|
  {
    forall q: nat | 1 <= q <= run[i].c.p :: Examined(run, i, q, g)
  }

  /** Although the position jumps, forward and backward, none is left out. */
  lemma {:induction false} NoneLeftOut(run: seq<Snapshot>, i: nat, g: Setting)
    requires RunOf(run, g) && i < |run| && run[0].c.p == 0
    ensures AllExamined(run, i, g)
    decreases i
  {
    hide CandidatesAt, RunOf, LooksUp, Keeps, WritesAt, Examined;
    if i > 0 {
      NoneLeftOut(run, i - 1, g);
      var next := StepCases(run, i - 1, g);
      forall q: nat | 1 <= q <= run[i].c.p
        ensures Examined(run, i, q, g)
      {
        if q <= run[i - 1].c.p {
          StaysExamined(run, i - 1, q, g);
        } else {
          NewlyExamined(run, i - 1, q, next, g);
        }
      }
    }
  }

  lemma StaysExamined(run: seq<Snapshot>, i: nat, q: nat, g: Setting)
    requires i + 1 < |run| && Examined(run, i, q, g)
    ensures Examined(run, i + 1, q, g)
  {
    hide WritesAt;
  }

  lemma NewlyExamined(run: seq<Snapshot>, i: nat, q: nat, m: Pending, g: Setting)
    requires i + 1 < |run| && run[i].c.p < q <= run[i + 1].c.p && m.p <= run[i].c.p + 1
    requires run[i + 1].c.p == run[i].c.p + 1 || WritesAt(run, i, m, g)
    ensures Examined(run, i + 1, q, g)
  {
    if q > run[i].c.p + 1 {
      assert m.p <= q <= m.p + m.len;
    }
  }

  // ---- The table of a scan ----

  /** The tags looked up before iteration i, with their positions, in order. */
  ghost function OfferedBy(run: seq<Snapshot>, i: nat, g: Setting): seq<Entry>
    requires RunOf(run, g) && i < |run|
  {
    if i == 0 then []
    else
      var p := run[i - 1].c.p + 1;
      OfferedBy(run, i - 1, g) + (if LooksUp(run, i - 1, g) then [Entry(TagAt(g.index, g.chunk, p), p)] else [])
  }

  lemma {:induction false} RunPush(sc: Scan, limit: nat, offers: seq<Entry>, e: Entry)
    requires |sc.tb.slots| > 0
    ensures |Run(sc, limit, offers).tb.slots| > 0
    ensures Run(sc, limit, offers + [e]) == Offer(Run(sc, limit, offers), limit, e.t, e.off)
    decreases |offers|
  {
    hide Offer;
    if offers == [] {
      assert offers + [e] == [e] && [e][1..] == [];
    } else {
      assert (offers + [e])[1..] == offers[1..] + [e];
      RunPush(Offer(sc, limit, offers[0].t, offers[0].off), limit, offers[1..], e);
    }
  }

  lemma StepTable(run: seq<Snapshot>, i: nat, g: Setting)
    requires RunOf(run, g) && i < |run| - 1
    ensures |run[i].sc.tb.slots| > 0 && run[i].c.p < g.end && g.end + MINIMUM_MATCH == |g.chunk|
    ensures var p := run[i].c.p + 1;
      run[i + 1].sc == if LooksUp(run, i, g) then Offer(run[i].sc, g.limit, TagAt(g.index, g.chunk, p), p) else run[i].sc
  {
    hide Offer, TagAt, Keeps, Looked, ScanInvariant, SameBytes, WithMatch;
    RunStep(run, i, g);
  }

  /** The table at any point is what offering it these tags one after the other gives. */
  lemma {:induction false} TableIsRun(run: seq<Snapshot>, i: nat, g: Setting)
    requires RunOf(run, g) && i < |run| && |run[0].sc.tb.slots| > 0
    ensures run[i].sc == Run(run[0].sc, g.limit, OfferedBy(run, i, g))
  {
    hide Offer, TagAt, RunOf, LooksUp;
    if i > 0 {
      var p := run[i - 1].c.p + 1;
      StepTable(run, i - 1, g);
      TableIsRun(run, i - 1, g);
      assert OfferedBy(run, i - 1, g) + [] == OfferedBy(run, i - 1, g);
      RunPush(run[0].sc, g.limit, OfferedBy(run, i - 1, g), Entry(TagAt(g.index, g.chunk, p), p));
    }
  }

  /** Between iterations a and b the tag t never had all the copies it may have, and it is not due by the
      mask at b. */
  ghost predicate Safe(run: seq<Snapshot>, a: nat, b: nat, t: Tag) {
    && a <= b < |run|
    && (forall x | a <= x < b :: |run[x].sc.tb.slots| > 0 && !(exists end: nat :: FullChain(run[x].sc.tb, t, end)))
    && !Weak(run[b].sc.tb.k, t)
  }

  lemma StepRaises(run: seq<Snapshot>, x: nat, g: Setting)
    requires RunOf(run, g) && x < |run| - 1
    ensures run[x].sc.tb.k <= run[x + 1].sc.tb.k
  {
    hide Offer, TagAt, ScanInvariant, Iterates, RunOf, LooksUp;
    StepTable(run, x, g);
    RunStep(run, x, g);
    RoomAtLimit(run[x].sc, g.limit, g.k0);
    OfferRaises(run[x].sc, g.limit, TagAt(g.index, g.chunk, run[x].c.p + 1), run[x].c.p + 1);
  }

  lemma {:induction false} SafeBefore(run: seq<Snapshot>, a: nat, b: nat, t: Tag, g: Setting)
    requires RunOf(run, g) && a < b && Safe(run, a, b, t)
    ensures Safe(run, a, b - 1, t)
  {
    hide RunOf, FullChain, Weak;
    StepRaises(run, b - 1, g);
    if Weak(run[b - 1].sc.tb.k, t) {
      WeakStays(run[b - 1].sc.tb.k, run[b].sc.tb.k, t);
    }
  }

  /** An entry stays as long as it is safe. */
  lemma {:induction false} EntryStays(run: seq<Snapshot>, a: nat, b: nat, e: Entry, g: Setting)
    requires RunOf(run, g) && Safe(run, a, b, e.t) && e in run[a].sc.tb.slots && e != EMPTY
    ensures e in run[b].sc.tb.slots
    decreases b
  {
    hide Offer, TagAt, FullChain, Weak, RunOf, LooksUp, ScanInvariant;
    if a < b {
      SafeBefore(run, a, b, e.t, g);
      EntryStays(run, a, b - 1, e, g);
      StepTable(run, b - 1, g);
      RunStep(run, b - 1, g);
      var p := run[b - 1].c.p + 1;
      if LooksUp(run, b - 1, g) {
        OfferKeepsEntry(run[b - 1].sc, g.limit, g.k0, TagAt(g.index, g.chunk, p), p, e);
      }
    }
  }

  /** Iteration a looks up position q and offers its tag, which meets the mask asked of new tags. */
  ghost predicate StoresAt(run: seq<Snapshot>, a: nat, g: Setting)
    requires RunOf(run, g) && a < |run| - 1
  {
    LooksUp(run, a, g) && Meets(run[a].sc.j, TagAt(g.index, g.chunk, run[a].c.p + 1))
  }

  /** What a scan remembers: a tag that was offered and met the mask is in the table, with its position,
      at every later iteration up to which it is safe. */
  lemma TagIsRemembered(run: seq<Snapshot>, a: nat, b: nat, g: Setting)
    requires RunOf(run, g) && a < b < |run| && StoresAt(run, a, g)
    requires Safe(run, a + 1, b, TagAt(g.index, g.chunk, run[a].c.p + 1))
    ensures var q := run[a].c.p + 1; Entry(TagAt(g.index, g.chunk, q), q) in run[b].sc.tb.slots
  {
    hide Offer, TagAt, FullChain, Weak, ScanInvariant;
    var q := run[a].c.p + 1;
    var t := TagAt(g.index, g.chunk, q);
    SafeAtOnce(run, a + 1, b, t, g);
    StepTable(run, a, g);
    RunStep(run, a, g);
    OfferIsFound(run[a].sc, g.limit, g.k0, t, q);
    EntryStays(run, a + 1, b, Entry(t, q), g);
  }

  lemma {:induction false} SafeAtOnce(run: seq<Snapshot>, a: nat, b: nat, t: Tag, g: Setting)
    requires RunOf(run, g) && Safe(run, a, b, t)
    ensures !Weak(run[a].sc.tb.k, t)
    decreases b
  {
    hide RunOf, FullChain, Weak;
    if a < b {
      SafeBefore(run, a, b, t, g);
      SafeAtOnce(run, a, b - 1, t, g);
    }
  }

  lemma {:induction false} SameTags(index: HashIndex, chunk: seq<byte>, p: nat, q: nat, n: nat)
    requires SameBytes(chunk, q, p, n)
    ensures XorRange(index, chunk, p, n) == XorRange(index, chunk, q, n)
    decreases n
  {
    if n > 0 {
      SameSplit(chunk, q, p, n - 1, 1);
      SameOne(chunk, q + n - 1, p + n - 1);
      SameTags(index, chunk, p, q, n - 1);
    }
  }

  /** A repetition is found: if the 31 bytes at iteration b are those at an iteration a whose tag was
      offered, met the mask and has been safe since, and the match there has len bytes, then the
      table holds the earlier position, and if that is within the probe limit the match or a longer
      one is taken. */
  lemma RepetitionIsTaken(run: seq<Snapshot>, a: nat, b: nat, len: nat, g: Setting) returns (slot: nat)
    requires RunOf(run, g) && a < b < |run| - 1 && StoresAt(run, a, g)
    requires var q, p := run[a].c.p + 1, run[b].c.p + 1;
      && SameBytes(g.chunk, q, p, MINIMUM_MATCH)
      && TagAt(g.index, g.chunk, q) != ALL_ONES && Safe(run, a + 1, b, TagAt(g.index, g.chunk, q))
      && Offers(run, b, q, len, g)
    ensures var tb, q := run[b].sc.tb, run[a].c.p + 1;
      && slot < |tb.slots| && tb.slots[slot] == Entry(TagAt(g.index, g.chunk, q), q)
      && (Dist(Primary(TagAt(g.index, g.chunk, q), |tb.slots|), slot, |tb.slots|) < 4 * tb.maxChain + 16
          ==> Taken(run, b, len, g))
  {
    hide RunOf, Taken, LooksUp, MatchTotal, Weak, FullChain, XorRange, Offers, StoresAt;
    var q, p, tb := run[a].c.p + 1, run[b].c.p + 1, run[b].sc.tb;
    var t := TagAt(g.index, g.chunk, q);
    SameTags(g.index, g.chunk, p, q, MINIMUM_MATCH);
    TagIsRemembered(run, a, b, g);
    slot :| slot < |tb.slots| && tb.slots[slot] == Entry(t, q);
    if Dist(Primary(t, |tb.slots|), slot, |tb.slots|) < 4 * tb.maxChain + 16 {
      StoredMatchIsTaken(run, b, slot, len, g);
    }
  }

  // ---- A whole scan ----

  ghost function SettingOf(chunk: seq<byte>, index: HashIndex, level: nat, slots: nat): Setting
    requires level < |LEVELS| && |chunk| > MINIMUM_MATCH
  {
    Setting(chunk, index, |chunk| - MINIMUM_MATCH, slots / 3 * 2, LEVELS[level].initialFreq)
  }

  /** What hash_search does on any chunk longer than 31 bytes, at any level: every position behind the
      first is one at which a tag is taken or belongs to a match written, right behind it included;
      and where a tag is taken, no repetition of which the table holds the tag is passed. */
  lemma ScanIsGreedy(run: seq<Snapshot>, toks: seq<Token>, chunk: seq<byte>, index: HashIndex, level: nat, victimRound: nat)
    requires level < |LEVELS| && Scanned(run, toks, chunk, index, level, victimRound) && |chunk| > MINIMUM_MATCH
    ensures |run| > 0
    ensures var g := SettingOf(chunk, index, level, |run[0].sc.tb.slots|);
      && RunOf(run, g)
      && run[|run| - 1].c.p == g.end && AllExamined(run, |run| - 1, g)
      && (forall i: nat, slot: nat, len: nat | i < |run| - 1 && Holds(run, i, slot, len, g) :: Taken(run, i, len, g))
  {
    hide IsRun, Cleared, WithLiteral, AllExamined, Taken, Holds;
    var g := SettingOf(chunk, index, level, |run[0].sc.tb.slots|);
    NoneLeftOut(run, |run| - 1, g);
    forall i: nat, slot: nat, len: nat | i < |run| - 1 && Holds(run, i, slot, len, g)
      ensures Taken(run, i, len, g)
    {
      StoredMatchIsTaken(run, i, slot, len, g);
    }
  }
}
