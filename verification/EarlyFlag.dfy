/** When a chunk's header can say too early that its chunk is the last: the main thread sets eof for
    the last chunk while the chunk's first block is still in flight. */
module EarlyFlag {
  import opened Archive
  import opened Bytes
  import opened Container
  import opened OutputTurns

  /** Chunk c has blocks, as close_stream_out sees to, and so has the last one. */
  ghost predicate HasBlocks(work: Work, c: nat) {
    var f := FirstOf(work.tasks, c);
    f < |work.tasks| && work.tasks[f].chunk == c
  }

  /** Once a chunk has been opened, its header's flag stays. */
  lemma {:induction false} FlagStays(s: State, actions: seq<Action>, work: Work, c: nat)
    requires c < |s.out.infos| == |s.out.flags| && s.out.infos[c].chunks > 0 && RunFrom(s, actions, work).Some?
    ensures var out := RunFrom(s, actions, work).value.out; c < |out.flags| && out.flags[c] == s.out.flags[c]
    decreases |actions|
  {
    hide HeadBytes, BlockBytes, WriteAt, Initial, ToLE;
    if actions != [] {
      FlagStays(Step(s, actions[0], work), actions[1..], work, c);
    }
  }

  /** All blocks from f on that have been dispatched are still being compressed. */
  ghost predicate InFlight(s: State, work: Work, f: nat) {
    && Invariant(s, work) && Healthy(s) && s.released == f && !s.eof
    && forall i: nat | i < |s.slots| :: s.slots[i].Idle? || s.slots[i].Working?
  }

  lemma FreeSlot(s: State, work: Work, f: nat)
    requires InFlight(s, work, f) && s.dispatched < f + |s.slots|
    ensures s.nextSlot < |s.slots| == |s.posted| && s.posted[s.nextSlot]
  {
    assert SlotOk(s, s.nextSlot);
    var p := s.slots[s.nextSlot];
    if p.Working? {
      SlotsDiffer(p.job, s.dispatched, |s.slots|);
    }
  }

  /** Blocks can be dispatched up to the number of slots before any of them is written. */
  lemma {:induction false} CanDispatch(s: State, work: Work, f: nat, m: nat) returns (end: State)
    requires InFlight(s, work, f) && !work.waits && s.dispatched <= m <= f + |s.slots| && m <= LastStart(work)
    ensures Leads(s, end, work) && InFlight(end, work, f) && end.dispatched == m && |end.slots| == |s.slots| && end.out == s.out
    decreases m - s.dispatched
  {
    hide FileOk, LogOk, EofOk, EarlyOk, SlotsOk, RunFrom, LastStart;
    if s.dispatched == m {
      NoActions(s, work);
      end := s;
    } else {
      FreeSlot(s, work, f);
      LastFromStart(work, s.dispatched);
      StepKeepsInvariant(s, Dispatch, work);
      LeadsBy(s, Dispatch, work);
      end := CanDispatch(Step(s, Dispatch, work), work, f, m);
      LeadsOn(s, Step(s, Dispatch, work), end, work);
    }
  }

  /** If no thread gave up, an early flag means that all blocks from the chunk's first one up to the
      last chunk's fitted in the slots. */
  lemma EarlyFlagBound(n: nat, actions: seq<Action>, work: Work, s: State, c: nat)
    requires n > 0 && WorkOk(work) && c < |work.heads|
    requires RunFrom(Start(n, work), actions, work) == Some(s) && s.failed == {}
    requires c < |s.out.flags| && s.out.flags[c]
    ensures LastStart(work) <= FirstOf(work.tasks, c) + n
    ensures work.waits ==> c + 1 == |work.heads|
  {
    StartInvariant(n, work);
    RunKeepsInvariant(Start(n, work), actions, work);
    SlotsStay(Start(n, work), actions, work);
  }

  lemma {:induction false} SlotsStay(s: State, actions: seq<Action>, work: Work)
    requires RunFrom(s, actions, work).Some?
    ensures |RunFrom(s, actions, work).value.slots| == |s.slots|
    decreases |actions|
  {
    if actions != [] {
      SameSlots(s, actions[0], work);
      SlotsStay(Step(s, actions[0], work), actions[1..], work);
    }
  }

  /** With the last chunk's first block about to be dispatched, eof is set and then block f opens its
      chunk. */
  lemma CanOpenFlagged(s: State, work: Work, f: nat) returns (end: State)
    requires InFlight(s, work, f) && !work.waits && f < s.dispatched && InLastChunk(work, s.dispatched)
    requires FirstOf(work.tasks, work.tasks[f].chunk) == f
    ensures Leads(s, end, work) && Invariant(end, work) && Healthy(end)
    ensures var c := work.tasks[f].chunk;
      c < |end.out.infos| == |end.out.flags| && end.out.infos[c].chunks > 0 && end.out.flags[c]
  {
    hide FileOk, LogOk, EofOk, EarlyOk, SlotsOk, RunFrom, LastStart, Write, Step, Enabled;
    RaiseStep(s, work);
    var i := f % |s.slots|;
    var s1 := Step(s, RaiseEof, work);
    WorkingStep(s1, work, i);
    var s2 := Step(s1, Compress(i, true), work);
    ReadyStep(s2, work, i);
    var s3 := Step(s2, TakeTurn(i), work);
    HeadingStep(s3, work, i);
    end := Step(s3, WriteHeads(i), work);
    LeadsOn(s, s1, s2, work);
    LeadsOn(s, s2, s3, work);
    LeadsOn(s, s3, end, work);
  }

  /** The state of slot i while its thread brings block f to its write section, eof being set. */
  ghost predicate Nearer(s: State, work: Work, i: nat, f: nat) {
    && Invariant(s, work) && Healthy(s) && s.eof && s.released == f < s.dispatched && i < |s.slots| && s.outputThread == i
    && !s.slots[i].Idle? && s.slots[i].job == f
  }

  lemma RaiseStep(s: State, work: Work)
    requires Invariant(s, work) && Healthy(s) && !s.eof && !work.waits && InLastChunk(work, s.dispatched)
    requires s.released < s.dispatched && forall i: nat | i < |s.slots| :: s.slots[i].Idle? || s.slots[i].Working?
    ensures |s.slots| > 0 && Enabled(s, RaiseEof, work) && Leads(s, Step(s, RaiseEof, work), work)
    ensures var s', i := Step(s, RaiseEof, work), s.released % |s.slots|;
      Nearer(s', work, i, s.released) && s'.slots[i].Working?
  {
    hide FileOk, LogOk, EofOk, EarlyOk, RunFrom;
    StepKeepsInvariant(s, RaiseEof, work);
    LeadsBy(s, RaiseEof, work);
    assert Owned(s, s.released);
  }

  lemma WorkingStep(s: State, work: Work, i: nat)
    requires i < |s.slots| && Nearer(s, work, i, s.released) && s.slots[i].Working?
    ensures Enabled(s, Compress(i, true), work) && Leads(s, Step(s, Compress(i, true), work), work)
    ensures var s' := Step(s, Compress(i, true), work);
      Nearer(s', work, i, s.released) && s'.released == s.released && s'.slots[i].Ready?
  {
    hide FileOk, LogOk, EofOk, EarlyOk, SlotsOk, RunFrom;
    StepKeepsInvariant(s, Compress(i, true), work);
    LeadsBy(s, Compress(i, true), work);
  }

  lemma ReadyStep(s: State, work: Work, i: nat)
    requires i < |s.slots| && Nearer(s, work, i, s.released) && s.slots[i].Ready?
    ensures Enabled(s, TakeTurn(i), work) && Leads(s, Step(s, TakeTurn(i), work), work)
    ensures var s' := Step(s, TakeTurn(i), work);
      Nearer(s', work, i, s.released) && s'.released == s.released && s'.slots[i].Heading?
  {
    hide FileOk, LogOk, EofOk, EarlyOk, SlotsOk, RunFrom;
    StepKeepsInvariant(s, TakeTurn(i), work);
    LeadsBy(s, TakeTurn(i), work);
  }

  /** A chunk's first block finds it not yet opened. */
  lemma NotOpened(s: State, work: Work)
    requires Invariant(s, work) && s.released < |work.tasks| && Current(s).Heading?
    requires FirstOf(work.tasks, work.tasks[s.released].chunk) == s.released
    ensures var c := work.tasks[s.released].chunk;
      c < |s.out.infos| == |s.out.flags| == |work.heads| && s.out.infos[c].chunks == 0
  {
    hide Successes, OnDisk, SlotOk, Owned;
    SuccessesBelow(s.released, s.failed);
    var ts := TasksAt(work.tasks, s.log);
    if ts != [] {
      assert ts[|ts| - 1] == work.tasks[s.log[|ts| - 1]];
    }
  }

  lemma HeadingStep(s: State, work: Work, i: nat)
    requires i < |s.slots| && Nearer(s, work, i, s.released) && s.slots[i].Heading?
    requires s.released < |work.tasks| && FirstOf(work.tasks, work.tasks[s.released].chunk) == s.released
    ensures Enabled(s, WriteHeads(i), work) && Leads(s, Step(s, WriteHeads(i), work), work)
    ensures var s', c := Step(s, WriteHeads(i), work), work.tasks[s.released].chunk;
      && Invariant(s', work) && Healthy(s')
      && c < |s'.out.infos| == |s'.out.flags| && s'.out.infos[c].chunks > 0 && s'.out.flags[c]
  {
    hide FileOk, LogOk, EofOk, EarlyOk, SlotsOk, RunFrom, HeadBytes, Initial;
    StepKeepsInvariant(s, WriteHeads(i), work);
    LeadsBy(s, WriteHeads(i), work);
    CurrentSlot(s, i);
    NotOpened(s, work);
  }

  /** Some completed run leaves chunk c with the flag. */
  ghost predicate CanBeFlagged(n: nat, work: Work, c: nat) {
    exists actions: seq<Action> ::
      && Completes(Start(n, work), actions, work)
      && var flags := RunFrom(Start(n, work), actions, work).value.out.flags;
         c < |flags| && flags[c]
  }

  /** In a mode without waiting, a chunk before the last one can claim to be the last if and only if
      the blocks from its first one up to the last chunk's first are no more than the slots. */
  lemma EarlyFlagIff(n: nat, work: Work, c: nat)
    requires n > 0 && WorkOk(work) && !work.waits && c + 1 < |work.heads|
    requires HasBlocks(work, c) && HasBlocks(work, |work.heads| - 1)
    ensures CanBeFlagged(n, work, c) <==> LastStart(work) - FirstOf(work.tasks, c) <= n
  {
    hide RunFrom, Complete, Start;
    if CanBeFlagged(n, work, c) {
      var actions: seq<Action> :|
        && Completes(Start(n, work), actions, work)
        && var flags := RunFrom(Start(n, work), actions, work).value.out.flags;
           c < |flags| && flags[c];
      CompleteHasNoFailures(RunFrom(Start(n, work), actions, work).value, work);
      EarlyFlagBound(n, actions, work, RunFrom(Start(n, work), actions, work).value, c);
    }
    if LastStart(work) - FirstOf(work.tasks, c) <= n {
      EarlyFlagRun(n, work, c);
    }
  }

  lemma CompleteHasNoFailures(s: State, work: Work)
    requires Complete(s, work)
    ensures s.failed == {}
  {
  }

  lemma StartIsHealthy(n: nat, work: Work)
    requires n > 0 && WorkOk(work)
    ensures Invariant(Start(n, work), work) && Healthy(Start(n, work)) && !Start(n, work).eof
    ensures |Start(n, work).slots| == n && Start(n, work).dispatched == 0
  {
    StartInvariant(n, work);
  }

  lemma RestIsInFlight(s: State, work: Work)
    requires Invariant(s, work) && Healthy(s) && AtRest(s) && !s.eof
    ensures InFlight(s, work, s.dispatched)
  {
  }

  lemma NotBeyond(s: State, work: Work)
    requires Invariant(s, work)
    ensures s.dispatched <= |work.tasks|
  {
  }

  /** Completing the work leaves the flag. */
  lemma CompletedFlag(n: nat, work: Work, flagged: State, end: State, c: nat)
    requires Leads(Start(n, work), flagged, work) && RestsAt(flagged, end, work, |work.tasks|)
    requires c < |flagged.out.infos| == |flagged.out.flags| && flagged.out.infos[c].chunks > 0 && flagged.out.flags[c]
    ensures CanBeFlagged(n, work, c)
  {
    hide RunFrom, Start, FileOk, LogOk, EofOk, EarlyOk, FirstBusy;
    var first: seq<Action> :| RunFrom(Start(n, work), first, work) == Some(flagged);
    var later: seq<Action> :| RunFrom(flagged, later, work) == Some(end);
    RunAppend(Start(n, work), first, later, work);
    FlagStays(flagged, later, work, c);
    NothingPending(end);
    assert Completes(Start(n, work), first + later, work);
  }

  lemma EarlyFlagRun(n: nat, work: Work, c: nat)
    requires n > 0 && WorkOk(work) && !work.waits && c + 1 < |work.heads|
    requires HasBlocks(work, c) && HasBlocks(work, |work.heads| - 1)
    requires LastStart(work) - FirstOf(work.tasks, c) <= n
    ensures CanBeFlagged(n, work, c)
  {
    hide RunFrom, Invariant, Start, Healthy, FirstBusy;
    var f, start := FirstOf(work.tasks, c), Start(n, work);
    assert f < LastStart(work) by {
      LastFromStart(work, f);
    }
    StartIsHealthy(n, work);
    var quiet := CanReach(start, work, f);
    RestIsInFlight(quiet, work);
    var full := CanDispatch(quiet, work, f, LastStart(work));
    var flagged := CanOpenFlagged(full, work, f);
    NotBeyond(flagged, work);
    var end := CanReach(flagged, work, |work.tasks|);
    LeadsOn(start, quiet, full, work);
    LeadsOn(start, full, flagged, work);
    CompletedFlag(n, work, flagged, end, c);
  }

  // ---- In terms of the chunks ----

  lemma {:induction false} FirstOfFront(a: seq<Task>, b: seq<Task>, c: nat)
    requires TasksIn(a, c) && b != [] && b[0].chunk >= c
    ensures FirstOf(a + b, c) == |a|
    decreases |a|
  {
    if a == [] {
      assert a + b == b;
    } else {
      assert (a + b)[1..] == a[1..] + b && (a + b)[0] == a[0];
      FirstOfFront(a[1..], b, c);
    }
  }

  /** The tasks of chunk c and of those behind it. */
  lemma {:induction false} TasksFrom(chunks: seq<Chunk>, c: nat)
    requires ChunksOk(chunks) && c < |chunks|
    ensures TasksOf(chunks[..c]) <= TasksOf(chunks) && |TasksOf(chunks[..c])| < |TasksOf(chunks)|
    ensures TasksOf(chunks)[|TasksOf(chunks[..c])|].chunk == c
    decreases |chunks|
  {
    var n, earlier := |chunks| - 1, chunks[..|chunks| - 1];
    assert chunks[n].jobs != [];
    if c < n {
      assert forall i | 0 <= i < n :: earlier[i] == chunks[i];
      assert earlier[..c] == chunks[..c];
      TasksFrom(earlier, c);
    }
  }

  lemma BlocksBefore(chunks: seq<Chunk>, waits: bool, c: nat)
    requires ChunksOk(chunks) && c < |chunks|
    ensures FirstOf(TasksOf(chunks), c) == |TasksOf(chunks[..c])| && HasBlocks(WorkOf(chunks, waits), c)
  {
    var front, all := TasksOf(chunks[..c]), TasksOf(chunks);
    TasksFrom(chunks, c);
    assert all == front + all[|front|..];
    assert ChunksOk(chunks[..c]) by {
      assert forall i | 0 <= i < c :: chunks[..c][i] == chunks[i];
    }
    TasksOk(chunks[..c]);
    FirstOfFront(front, all[|front|..], c);
  }

  /** Where the main thread does not wait, the header of a chunk before the last one can say that it
      is the last if and only if the chunks from it on up to the last one have together no more
      blocks than there are slots. Where it waits, no such header does. */
  lemma EarlyFlagOfChunks(n: nat, chunks: seq<Chunk>, waits: bool, c: nat)
    requires n > 0 && ChunksOk(chunks) && c + 1 < |chunks|
    ensures CanBeFlagged(n, WorkOf(chunks, waits), c) <==>
      !waits && |TasksOf(chunks[..|chunks| - 1])| - |TasksOf(chunks[..c])| <= n
  {
    hide CanBeFlagged, TasksOf, FirstOf;
    var work := WorkOf(chunks, waits);
    TasksOk(chunks);
    BlocksBefore(chunks, waits, c);
    BlocksBefore(chunks, waits, |chunks| - 1);
    if waits {
      NoEarlyFlag(n, work, c);
    } else {
      EarlyFlagIff(n, work, c);
    }
  }

  lemma NoEarlyFlag(n: nat, work: Work, c: nat)
    requires n > 0 && WorkOk(work) && work.waits && c + 1 < |work.heads|
    ensures !CanBeFlagged(n, work, c)
  {
    hide RunFrom, Start, Complete;
    if CanBeFlagged(n, work, c) {
      var actions: seq<Action> :|
        && Completes(Start(n, work), actions, work)
        && var flags := RunFrom(Start(n, work), actions, work).value.out.flags;
           c < |flags| && flags[c];
      CompleteHasNoFailures(RunFrom(Start(n, work), actions, work).value, work);
      EarlyFlagBound(n, actions, work, RunFrom(Start(n, work), actions, work).value, c);
    }
  }
}
