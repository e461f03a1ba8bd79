/** The ordered output of the compression threads as a step system, over all chunks of a file: the
    main thread hands block after block to N slots in turn, and the thread of a slot may write only
    while output_thread names its slot. Steps of different threads interleave freely. */
module OutputTurns {
  import opened Archive
  import opened Bits
  import opened Bytes
  import opened Container

  /** Where the thread of a slot is. `Serial` compresses again while it holds the turn, `Heading`
      looks whether its chunk has been opened, `Leaving` is about to pass the turn on, and `Done`
      has passed it on but not yet posted its semaphore. */
  datatype Phase =
    | Idle
    | Working(job: nat)
    | Ready(job: nat)
    | Failed(job: nat)
    | Serial(job: nat)
    | Heading(job: nat)
    | Patching(job: nat)
    | Appending(job: nat)
    | Leaving(job: nat)
    | Aborting(job: nat)
    | Done(job: nat)

  predicate HasTurn(p: Phase) {
    p.Serial? || p.Heading? || p.Patching? || p.Appending? || p.Leaving?
  }

  /** Owns a job that has not passed the turn on. */
  predicate Active(p: Phase) {
    !p.Idle? && !p.Done?
  }

  /** A chunk's stream_info: its blocks so far, where its lists start in the file, how long they
      are, and the last link of each stream relative to their start. */
  datatype Info = Info(chunks: nat, initialPos: nat, curPos: nat, lastHead: seq<nat>)

  /** The file and the chunks' stream_infos; `flags` notes what eof was when a chunk was opened. */
  datatype Output = Output(file: seq<byte>, infos: seq<Info>, flags: seq<bool>)

  /** `posted` are the slots' semaphores, `released` counts how often the turn was passed on, `eof`
      is the flag the main thread shares with the workers, `log` lists the blocks written and
      `failed` those given up. */
  datatype State = State(
    slots: seq<Phase>,
    posted: seq<bool>,
    outputThread: nat,
    nextSlot: nat,
    dispatched: nat,
    released: nat,
    eof: bool,
    out: Output,
    log: seq<nat>,
    failed: set<nat>)

  datatype Action =
    | Dispatch
    | RaiseEof
    | Compress(i: nat, ok: bool)
    | GiveUp(i: nat)
    | TakeTurn(i: nat)
    | Recompress(i: nat, ok: bool)
    | WriteHeads(i: nat)
    | PatchLink(i: nat)
    | AppendBlock(i: nat)
    | PassTurn(i: nat)
    | Post(i: nat)

  /** The blocks in the order of dispatch, and whether the main thread waits for the threads at the
      end of every chunk, as it does to rewrite encrypted headers and to flush to standard output. */
  datatype Work = Work(heads: seq<Head>, tasks: seq<Task>, waits: bool)

  function WorkOf(chunks: seq<Chunk>, waits: bool): Work {
    Work(HeadsOf(chunks), TasksOf(chunks), waits)
  }

  ghost predicate WorkOk(work: Work) {
    TasksIn(work.tasks, |work.heads|) && Ordered(work.tasks)
  }

  /** Block j belongs to the last chunk. */
  predicate InLastChunk(work: Work, j: nat) {
    j < |work.tasks| && work.tasks[j].chunk + 1 == |work.heads|
  }

  /** Block j is the first of its chunk. */
  predicate StartsChunk(work: Work, j: nat) {
    j < |work.tasks| && (j > 0 ==> work.tasks[j - 1].chunk != work.tasks[j].chunk)
  }

  /** How many blocks are in front of the last chunk's. */
  function LastStart(work: Work): (f: nat)
    ensures f <= |work.tasks|
  {
    if work.heads == [] then 0 else FirstOf(work.tasks, |work.heads| - 1)
  }

  predicate Main(a: Action) {
    a.Dispatch? || a.RaiseEof?
  }

  predicate AllPosted(s: State) {
    forall i: nat | i < |s.posted| :: s.posted[i]
  }

  /** rzip_fd sets eof before it goes through the last chunk, whatever the threads are doing unless
      it has waited for them. */
  predicate Enabled(s: State, a: Action, work: Work) {
    match a
    case Dispatch =>
      s.nextSlot < |s.slots| == |s.posted| && s.posted[s.nextSlot] && s.dispatched < |work.tasks|
      && (InLastChunk(work, s.dispatched) ==> s.eof)
      && (work.waits && StartsChunk(work, s.dispatched) ==> AllPosted(s))
    case RaiseEof => !s.eof && InLastChunk(work, s.dispatched) && (work.waits ==> AllPosted(s))
    case Compress(i, _) => i < |s.slots| && s.slots[i].Working?
    case GiveUp(i) => i < |s.slots| && s.slots[i].Working?
    case TakeTurn(i) =>
      i < |s.slots| && (s.slots[i].Ready? || s.slots[i].Failed?) && s.outputThread == i
    case Recompress(i, _) => i < |s.slots| && s.slots[i].Serial?
    case WriteHeads(i) => i < |s.slots| && s.slots[i].Heading?
    case PatchLink(i) => i < |s.slots| && s.slots[i].Patching?
    case AppendBlock(i) => i < |s.slots| && s.slots[i].Appending?
    case PassTurn(i) =>
      i < |s.slots| && (s.slots[i].Leaving? || s.slots[i].Aborting?) && s.outputThread == i
    case Post(i) => i < |s.slots| == |s.posted| && s.slots[i].Done?
  }

  function Advance(t: nat, n: nat): nat {
    if t + 1 == n then 0 else t + 1
  }

  function GoTo(s: State, i: nat, p: Phase): State
    requires i < |s.slots|
  {
    s.(slots := s.slots[i := p])
  }

  // ---- The write section ----

  /** The first block of a chunk writes the chunk's header, with eof as it is at that moment, and
      the initial headers of both streams. */
  function OpenChunk(out: Output, t: Task, eof: bool, work: Work): Output {
    if t.chunk < |out.infos| == |out.flags| == |work.heads| then
      var h, info := work.heads[t.chunk], out.infos[t.chunk];
      if info.chunks > 0 then out.(infos := out.infos[t.chunk := info.(chunks := info.chunks + 1)])
      else
        Output(out.file + HeadBytes(h, eof) + Initial(h.wl).file,
               out.infos[t.chunk := Info(1, |out.file + HeadBytes(h, eof)|, Initial(h.wl).curPos, Initial(h.wl).lastHead)],
               out.flags[t.chunk := eof])
    else out
  }

  /** The position of the new block goes into the stream's last header. */
  function StoreLink(out: Output, t: Task, work: Work): Output {
    if t.chunk < |out.infos| == |work.heads| && t.job.stream < |out.infos[t.chunk].lastHead| then
      var wl, info := work.heads[t.chunk].wl, out.infos[t.chunk];
      var pos := info.initialPos + info.lastHead[t.job.stream];
      if pos <= |out.file| then
        out.(file := WriteAt(out.file, pos, ToLE(info.curPos, wl)),
             infos := out.infos[t.chunk := info.(lastHead := info.lastHead[t.job.stream := info.curPos + LinkOffset(wl)])])
      else out
    else out
  }

  /** Then the block itself. */
  function StoreBlock(out: Output, t: Task, work: Work): Output {
    if t.chunk < |out.infos| == |work.heads| then
      var wl, info := work.heads[t.chunk].wl, out.infos[t.chunk];
      var pos := info.initialPos + info.curPos;
      if pos <= |out.file| then
        out.(file := WriteAt(out.file, pos, BlockBytes(Placed(t.job), wl)),
             infos := out.infos[t.chunk := info.(curPos := info.curPos + HeaderLen(wl) + |t.job.payload|)])
      else out
    else out
  }

  /** What the thread of a slot does to the output in its write section. */
  function Write(out: Output, p: Phase, eof: bool, work: Work): Output {
    if p.Idle? || p.job >= |work.tasks| then out
    else
      var t := work.tasks[p.job];
      match p
      case Heading(_) => OpenChunk(out, t, eof, work)
      case Patching(_) => StoreLink(out, t, work)
      case Appending(_) => StoreBlock(out, t, work)
      case _ => out
  }

  function Step(s: State, a: Action, work: Work): State
    requires Enabled(s, a, work)
  {
    match a
    case Dispatch =>
      s.(slots := s.slots[s.nextSlot := Working(s.dispatched)],
         posted := s.posted[s.nextSlot := false],
         nextSlot := Advance(s.nextSlot, |s.slots|),
         dispatched := s.dispatched + 1)
    case RaiseEof => s.(eof := true)
    case Compress(i, ok) => GoTo(s, i, if ok then Ready(s.slots[i].job) else Failed(s.slots[i].job))
    case GiveUp(i) => GoTo(s, i, Aborting(s.slots[i].job))
    case TakeTurn(i) => GoTo(s, i, if s.slots[i].Ready? then Heading(s.slots[i].job) else Serial(s.slots[i].job))
    case Recompress(i, ok) =>
      if ok then GoTo(s, i, Heading(s.slots[i].job))
      else GoTo(s, i, Leaving(s.slots[i].job)).(failed := s.failed + {s.slots[i].job})
    case WriteHeads(i) => GoTo(s, i, Patching(s.slots[i].job)).(out := Write(s.out, s.slots[i], s.eof, work))
    case PatchLink(i) => GoTo(s, i, Appending(s.slots[i].job)).(out := Write(s.out, s.slots[i], s.eof, work))
    case AppendBlock(i) =>
      GoTo(s, i, Leaving(s.slots[i].job)).(out := Write(s.out, s.slots[i], s.eof, work), log := s.log + [s.slots[i].job])
    case PassTurn(i) =>
      var job := s.slots[i].job;
      GoTo(s, i, Done(job)).(
        outputThread := Advance(s.outputThread, |s.slots|),
        released := s.released + 1,
        failed := if s.slots[i].Aborting? then s.failed + {job} else s.failed)
    case Post(i) => GoTo(s, i, Idle).(posted := s.posted[i := true])
  }

  /** All chunks still to be opened, all slots free. */
  function Start(n: nat, work: Work): State {
    State(seq(n, _ => Idle), seq(n, _ => true), 0, 0, 0, 0, false,
          Output([], seq(|work.heads|, _ => Info(0, 0, 0, [])), seq(|work.heads|, _ => false)), [], {})
  }

  /** The state after a run, if every action was enabled when it was taken. */
  function RunFrom(s: State, actions: seq<Action>, work: Work): Option<State>
    decreases |actions|
  {
    if actions == [] then Some(s)
    else if Enabled(s, actions[0], work) then RunFrom(Step(s, actions[0], work), actions[1..], work)
    else None
  }

  // ---- The invariant ----

  /** The jobs below n that were not given up. */
  function Successes(n: nat, failed: set<nat>): seq<nat> {
    if n == 0 then [] else Successes(n - 1, failed) + (if n - 1 in failed then [] else [n - 1])
  }

  ghost predicate SlotsOk(s: State) {
    && |s.slots| == |s.posted| > 0
    && s.outputThread == s.released % |s.slots|
    && s.nextSlot == s.dispatched % |s.slots|
    && s.released <= s.dispatched <= s.released + |s.slots|
    && (forall i: nat | i < |s.slots| :: SlotOk(s, i))
    && (forall j: nat | s.released <= j < s.dispatched :: Owned(s, j))
  }

  ghost predicate SlotOk(s: State, i: nat)
    requires i < |s.slots| == |s.posted|
  {
    var p := s.slots[i];
    && (s.posted[i] <==> p.Idle?)
    && (!p.Idle? ==> p.job % |s.slots| == i && p.job < s.dispatched)
    && (Active(p) ==> s.released <= p.job)
    && (p.Done? ==> p.job < s.released)
    && (HasTurn(p) ==> p.job == s.released)
  }

  /** Job j, dispatched but not released, is held by its slot. */
  ghost predicate Owned(s: State, j: nat)
    requires |s.slots| > 0
  {
    Active(s.slots[j % |s.slots|]) && s.slots[j % |s.slots|].job == j
  }

  /** The tasks of the log, in the order written. */
  function TasksAt(tasks: seq<Task>, log: seq<nat>): seq<Task>
    requires LogIn(tasks, log)
  {
    seq(|log|, i requires 0 <= i < |log| => tasks[log[i]])
  }

  predicate LogIn(tasks: seq<Task>, log: seq<nat>) {
    forall i | 0 <= i < |log| :: log[i] < |tasks|
  }

  /** The phase of the job whose turn it is. */
  function Current(s: State): Phase
    requires |s.slots| > 0
  {
    s.slots[s.released % |s.slots|]
  }

  /** The file is this one, and the stream_infos of its current chunk and of those still to be
      opened say so. */
  ghost predicate Shows(out: Output, d: Disk, n: nat) {
    && |out.infos| == |out.flags| == n && out.file == OnDisk(d)
    && (d.chunk.Some? ==>
        d.chunk.value < n
        && var info := out.infos[d.chunk.value];
           info.chunks > 0 && info.initialPos == |d.before| && info.curPos == d.w.curPos && info.lastHead == d.w.lastHead)
    && forall c: nat | c < n && (d.chunk.None? || c > d.chunk.value) :: out.infos[c].chunks == 0
  }

  /** The first half of a block's write section. */
  function Patch(w: Writer, job: Job, wl: nat): Writer {
    if job.stream < |w.lastHead| && w.lastHead[job.stream] + wl <= |w.file| == w.curPos then
      w.(file := WriteAt(w.file, w.lastHead[job.stream], ToLE(w.curPos, wl)),
         lastHead := w.lastHead[job.stream := w.curPos + LinkOffset(wl)])
    else w
  }

  /** The file when the blocks of the log have been written one after the other. */
  function Logged(out: Output, log: seq<nat>, work: Work): Disk
    requires TasksIn(work.tasks, |work.heads|) && LogIn(work.tasks, log) && |out.flags| == |work.heads|
  {
    Sequential(TasksAt(work.tasks, log), work.heads, out.flags)
  }

  /** That file, or how far the thread that has the turn has got in its write section. */
  function Expected(s: State, work: Work): Disk
    requires TasksIn(work.tasks, |work.heads|) && LogIn(work.tasks, s.log) && |s.out.flags| == |work.heads| && |s.slots| > 0
  {
    var d, cur := Logged(s.out, s.log, work), Current(s);
    if (cur.Patching? || cur.Appending?) && cur.job == s.released < |work.tasks| then
      var t := work.tasks[s.released];
      var o := Open(d, t.chunk, work.heads[t.chunk], s.out.flags[t.chunk]);
      if cur.Patching? then o else o.(w := Patch(o.w, t.job, work.heads[t.chunk].wl))
    else d
  }

  /** The log holds the released jobs that succeeded, plus the current one once it is written. */
  ghost predicate LogOk(s: State, work: Work)
    requires |s.slots| > 0
  {
    var cur := Current(s);
    && s.dispatched <= |work.tasks|
    && (forall f | f in s.failed :: f < s.dispatched && (f < s.released || (cur.Leaving? && f == s.released)))
    && s.log == Successes(if cur.Leaving? && cur.job == s.released then s.released + 1 else s.released, s.failed)
    && LogIn(work.tasks, s.log)
  }

  ghost predicate FileOk(s: State, work: Work)
    requires |s.slots| > 0 && LogIn(work.tasks, s.log) && TasksIn(work.tasks, |work.heads|)
  {
    |s.out.flags| == |work.heads| && Shows(s.out, Expected(s, work), |work.heads|)
  }

  /** eof is set before the last chunk's first block is dispatched, so its header has it. If the
      main thread waits, no other header has. */
  ghost predicate EofOk(s: State, work: Work) {
    && |s.out.infos| == |s.out.flags| == |work.heads|
    && (s.dispatched > 0 && InLastChunk(work, s.dispatched - 1) ==> s.eof)
    && (s.eof ==> LastStart(work) <= s.dispatched && (work.waits ==> LastStart(work) <= s.released))
    && (forall c: nat | c < |work.heads| && s.out.flags[c] :: s.eof && (work.waits ==> c + 1 == |work.heads|))
    && (|work.heads| > 0 && s.out.infos[|work.heads| - 1].chunks > 0 ==> s.out.flags[|work.heads| - 1])
  }

  /** A header that says too early that its chunk is the last was written while all blocks from it
      on up to the last chunk were in flight. */
  ghost predicate EarlyOk(s: State, work: Work) {
    s.failed == {} ==>
      forall c: nat | c < |work.heads| && c < |s.out.flags| && s.out.flags[c] ::
        LastStart(work) <= FirstOf(work.tasks, c) + |s.slots|
  }

  ghost predicate Invariant(s: State, work: Work) {
    WorkOk(work) && SlotsOk(s) && LogOk(s, work) && FileOk(s, work) && EofOk(s, work) && EarlyOk(s, work)
  }

  // ---- Slots ----

  lemma AdvanceMod(j: nat, n: nat)
    requires n > 0
    ensures Advance(j % n, n) == (j + 1) % n
  {
    var q, r := j / n, j % n;
    assert j == n * q + r;
    if r + 1 == n {
      assert n * (q + 1) == n * q + n;
      ModUnique(j + 1, n, q + 1, 0);
    } else {
      ModUnique(j + 1, n, q, r + 1);
    }
  }

  /** Jobs less than n apart have different slots. */
  lemma SlotsDiffer(j: nat, k: nat, n: nat)
    requires n > 0 && j < k < j + n
    ensures j % n != k % n
  {
    var q, r := j / n, j % n;
    assert j == n * q + r;
    if r + (k - j) < n {
      ModUnique(k, n, q, r + (k - j));
    } else {
      assert n * (q + 1) == n * q + n;
      ModUnique(k, n, q + 1, r + (k - j) - n);
    }
  }

  /** A turn can only be taken by the oldest job that has not released it. */
  lemma TurnIsOldest(s: State, i: nat)
    requires SlotsOk(s) && i < |s.slots| && Active(s.slots[i]) && s.outputThread == i
    ensures s.slots[i].job == s.released
  {
    assert SlotOk(s, i);
    var j := s.slots[i].job;
    if j != s.released {
      SlotsDiffer(s.released, j, |s.slots|);
    }
  }

  lemma MoveKeepsSlots(s: State, i: nat, p: Phase)
    requires SlotsOk(s) && i < |s.slots| && Active(s.slots[i]) && Active(p) && p.job == s.slots[i].job
    requires HasTurn(p) ==> p.job == s.released
    ensures SlotsOk(GoTo(s, i, p))
  {
    var s' := GoTo(s, i, p);
    forall x: nat | x < |s'.slots|
      ensures SlotOk(s', x)
    {
      assert SlotOk(s, x);
    }
    forall j: nat | s'.released <= j < s'.dispatched
      ensures Owned(s', j)
    {
      assert Owned(s, j);
    }
  }

  /** With the next slot idle, fewer blocks are pending than there are slots. */
  lemma OneIsFree(s: State)
    requires SlotsOk(s) && s.nextSlot < |s.slots| == |s.posted| && s.posted[s.nextSlot]
    ensures s.dispatched < s.released + |s.slots|
  {
    var n := |s.slots|;
    assert SlotOk(s, s.nextSlot);
    if s.dispatched == s.released + n {
      assert Owned(s, s.released);
      ModUnique(s.dispatched, n, s.released / n + 1, s.released % n);
    }
  }

  lemma DispatchKeepsSlots(s: State, work: Work)
    requires SlotsOk(s) && Enabled(s, Dispatch, work)
    ensures SlotsOk(Step(s, Dispatch, work))
  {
    var s', n, i := Step(s, Dispatch, work), |s.slots|, s.nextSlot;
    AdvanceMod(s.dispatched, n);
    assert SlotOk(s, i);
    OneIsFree(s);
    forall x: nat | x < n
      ensures SlotOk(s', x)
    {
      assert SlotOk(s, x);
    }
    forall j: nat | s'.released <= j < s'.dispatched
      ensures Owned(s', j)
    {
      if j < s.dispatched {
        assert Owned(s, j);
      }
    }
  }

  lemma PassTurnKeepsSlots(s: State, i: nat, work: Work)
    requires SlotsOk(s) && Enabled(s, PassTurn(i), work)
    ensures SlotsOk(Step(s, PassTurn(i), work))
    ensures s.slots[i].job == s.released < s.dispatched
  {
    var s', n := Step(s, PassTurn(i), work), |s.slots|;
    TurnIsOldest(s, i);
    AdvanceMod(s.released, n);
    assert SlotOk(s, i);
    forall x: nat | x < n
      ensures SlotOk(s', x)
    {
      assert SlotOk(s, x);
      if x != i && Active(s.slots[x]) {
        assert s.slots[x].job != s.released;
      }
    }
    forall j: nat | s'.released <= j < s'.dispatched
      ensures Owned(s', j)
    {
      assert Owned(s, j);
      SlotsDiffer(s.released, j, n);
    }
  }

  lemma PostKeepsSlots(s: State, i: nat, work: Work)
    requires SlotsOk(s) && Enabled(s, Post(i), work)
    ensures SlotsOk(Step(s, Post(i), work))
  {
    var s' := Step(s, Post(i), work);
    forall x: nat | x < |s.slots|
      ensures SlotOk(s', x)
    {
      assert SlotOk(s, x);
    }
    forall j: nat | s'.released <= j < s'.dispatched
      ensures Owned(s', j)
    {
      assert Owned(s, j);
    }
  }

  lemma RestKeepsSlots(s: State, s': State)
    requires SlotsOk(s) && s' == s.(eof := s'.eof, out := s'.out, log := s'.log, failed := s'.failed)
    ensures SlotsOk(s')
  {
    forall x: nat | x < |s.slots|
      ensures SlotOk(s', x)
    {
      assert SlotOk(s, x);
    }
    forall j: nat | s.released <= j < s.dispatched
      ensures Owned(s', j)
    {
      assert Owned(s, j);
    }
  }

  lemma StepKeepsSlots(s: State, a: Action, work: Work)
    requires SlotsOk(s) && Enabled(s, a, work)
    ensures SlotsOk(Step(s, a, work))
  {
    if a.Dispatch? {
      DispatchKeepsSlots(s, work);
    } else if a.PassTurn? {
      PassTurnKeepsSlots(s, a.i, work);
    } else if a.Post? {
      PostKeepsSlots(s, a.i, work);
    } else if a.RaiseEof? {
      RestKeepsSlots(s, Step(s, a, work));
    } else {
      var p := Step(s, a, work).slots[a.i];
      if a.TakeTurn? {
        TurnIsOldest(s, a.i);
      }
      assert SlotOk(s, a.i);
      MoveKeepsSlots(s, a.i, p);
      RestKeepsSlots(GoTo(s, a.i, p), Step(s, a, work));
    }
  }

  // ---- The file ----

  lemma {:induction false} SuccessesIgnore(n: nat, failed: set<nat>, f: nat)
    requires f >= n
    ensures Successes(n, failed + {f}) == Successes(n, failed)
  {
    if n > 0 {
      SuccessesIgnore(n - 1, failed, f);
    }
  }

  lemma {:induction false} SuccessesBelow(n: nat, failed: set<nat>)
    ensures forall i | 0 <= i < |Successes(n, failed)| :: Successes(n, failed)[i] < n
  {
    if n > 0 {
      SuccessesBelow(n - 1, failed);
    }
  }

  lemma {:induction false} SuccessesIncrease(n: nat, failed: set<nat>)
    ensures forall i, j | 0 <= i < j < |Successes(n, failed)| :: Successes(n, failed)[i] < Successes(n, failed)[j]
  {
    if n > 0 {
      SuccessesIncrease(n - 1, failed);
      SuccessesBelow(n - 1, failed);
    }
  }

  lemma {:induction false} SuccessesAll(n: nat)
    ensures Successes(n, {}) == seq(n, i => i)
  {
    if n > 0 {
      SuccessesAll(n - 1);
    }
  }

  lemma CurrentSlot(s: State, i: nat)
    requires SlotsOk(s) && i < |s.slots| && !s.slots[i].Idle? && s.slots[i].job == s.released
    ensures i == s.released % |s.slots| && s.slots[i] == Current(s)
  {
    assert SlotOk(s, i);
  }

  /** A thread in its write section is the current one. */
  lemma WriterIsCurrent(s: State, i: nat)
    requires SlotsOk(s) && i < |s.slots| && HasTurn(s.slots[i])
    ensures s.slots[i].job == s.released < s.dispatched && i == s.released % |s.slots| && s.slots[i] == Current(s)
  {
    assert SlotOk(s, i);
    CurrentSlot(s, i);
  }

  // ---- The log ----

  lemma AppendKeepsLog(s: State, i: nat, work: Work)
    requires SlotsOk(s) && LogOk(s, work) && Enabled(s, AppendBlock(i), work)
    ensures LogOk(Step(s, AppendBlock(i), work), work)
    ensures s.log == Successes(s.released, s.failed)
  {
    WriterIsCurrent(s, i);
  }

  lemma RecompressKeepsLog(s: State, i: nat, ok: bool, work: Work)
    requires SlotsOk(s) && LogOk(s, work) && Enabled(s, Recompress(i, ok), work)
    ensures LogOk(Step(s, Recompress(i, ok), work), work)
  {
    WriterIsCurrent(s, i);
    SuccessesIgnore(s.released, s.failed, s.released);
  }

  /** The thread whose turn comes next is not in its write section yet. */
  lemma NextIsQuiet(s: State, i: nat, work: Work)
    requires SlotsOk(s) && Enabled(s, PassTurn(i), work)
    ensures SlotsOk(Step(s, PassTurn(i), work)) && !HasTurn(Current(Step(s, PassTurn(i), work)))
    ensures i == s.released % |s.slots| && s.slots[i] == Current(s) && s.slots[i].job == s.released
  {
    var s' := Step(s, PassTurn(i), work);
    TurnIsOldest(s, i);
    PassTurnKeepsSlots(s, i, work);
    CurrentSlot(s, i);
    assert SlotOk(s', s'.released % |s.slots|);
    assert SlotOk(s, s'.released % |s.slots|);
  }

  lemma PassTurnKeepsLog(s: State, i: nat, work: Work)
    requires SlotsOk(s) && LogOk(s, work) && Enabled(s, PassTurn(i), work)
    ensures LogOk(Step(s, PassTurn(i), work), work)
  {
    NextIsQuiet(s, i, work);
    SuccessesIgnore(s.released, s.failed, s.released);
  }

  /** Actions that touch neither the output nor the log. */
  predicate Quiet(a: Action) {
    a.Dispatch? || a.RaiseEof? || a.Compress? || a.GiveUp? || a.TakeTurn? || a.Post?
  }

  /** Phases in which the log and the file are as they are between turns. */
  predicate Calm(p: Phase) {
    !p.Patching? && !p.Appending? && !p.Leaving?
  }

  lemma QuietStays(s: State, a: Action, work: Work)
    requires SlotsOk(s) && Enabled(s, a, work) && Quiet(a)
    ensures var s' := Step(s, a, work);
      && s'.released == s.released && s'.log == s.log && s'.failed == s.failed && s'.out == s.out
      && |s'.slots| == |s.slots| && s.dispatched <= s'.dispatched
      && (s.dispatched <= |work.tasks| ==> s'.dispatched <= |work.tasks|)
      && (Current(s') == Current(s) || (Calm(Current(s)) && Calm(Current(s'))))
  {
    if !a.RaiseEof? {
      var i := if a.Dispatch? then s.nextSlot else a.i;
      assert SlotOk(s, i);
    }
  }

  lemma QuietKeepsLog(s: State, a: Action, work: Work)
    requires SlotsOk(s) && LogOk(s, work) && Enabled(s, a, work) && Quiet(a)
    ensures LogOk(Step(s, a, work), work)
  {
    QuietStays(s, a, work);
  }

  lemma HeadsKeepLog(s: State, a: Action, work: Work)
    requires SlotsOk(s) && LogOk(s, work) && Enabled(s, a, work) && (a.WriteHeads? || a.PatchLink?)
    ensures LogOk(Step(s, a, work), work)
    ensures s.log == Successes(s.released, s.failed)
  {
    WriterIsCurrent(s, a.i);
  }

  lemma StepKeepsLog(s: State, a: Action, work: Work)
    requires SlotsOk(s) && LogOk(s, work) && Enabled(s, a, work)
    ensures LogOk(Step(s, a, work), work)
  {
    match a
    case Recompress(i, ok) => RecompressKeepsLog(s, i, ok, work);
    case WriteHeads(_) => HeadsKeepLog(s, a, work);
    case PatchLink(_) => HeadsKeepLog(s, a, work);
    case AppendBlock(i) => AppendKeepsLog(s, i, work);
    case PassTurn(i) => PassTurnKeepsLog(s, i, work);
    case _ => QuietKeepsLog(s, a, work);
  }

  // ---- The write section does to the file what it should ----

  lemma OpenShows(out: Output, d: Disk, t: Task, eof: bool, work: Work)
    requires Shows(out, d, |work.heads|) && t.chunk < |work.heads| && (d.chunk.Some? ==> d.chunk.value <= t.chunk)
    ensures var out' := OpenChunk(out, t, eof, work);
      && out'.flags == (if d.chunk == Some(t.chunk) then out.flags else out.flags[t.chunk := eof])
      && Shows(out', Open(d, t.chunk, work.heads[t.chunk], out'.flags[t.chunk]), |work.heads|)
  {
    hide HeadBytes, Initial;
  }

  lemma LinkShows(out: Output, d: Disk, t: Task, work: Work)
    requires Shows(out, d, |work.heads|) && d.chunk == Some(t.chunk)
    requires CanWrite(d.w, t.job) && d.w.lastHead[t.job.stream] + work.heads[t.chunk].wl <= |d.w.file|
    ensures var out' := StoreLink(out, t, work);
      && out'.flags == out.flags
      && Shows(out', d.(w := Patch(d.w, t.job, work.heads[t.chunk].wl)), |work.heads|)
  {
    hide ToLE, WriteAt;
    WriteAtBehind(d.before, d.w.file, d.w.lastHead[t.job.stream], ToLE(d.w.curPos, work.heads[t.chunk].wl));
  }

  lemma BlockShows(out: Output, d: Disk, t: Task, work: Work)
    requires Shows(out, d, |work.heads|) && d.chunk == Some(t.chunk) && d.w.curPos == |d.w.file|
    ensures var out' := StoreBlock(out, t, work);
      && out'.flags == out.flags
      && Shows(out', d.(w := Append(d.w, t.job, work.heads[t.chunk].wl)), |work.heads|)
  {
    hide BlockBytes, WriteAt;
    WriteAtBehind(d.before, d.w.file, d.w.curPos, BlockBytes(Placed(t.job), work.heads[t.chunk].wl));
  }

  /** The second half of a block's write section. */
  function Append(w: Writer, job: Job, wl: nat): Writer {
    if w.curPos <= |w.file| then
      w.(file := WriteAt(w.file, w.curPos, BlockBytes(Placed(job), wl)),
         curPos := w.curPos + HeaderLen(wl) + |job.payload|)
    else w
  }

  lemma PatchThenAppend(w: Writer, job: Job, wl: nat)
    requires CanWrite(w, job) && w.lastHead[job.stream] + wl <= |w.file|
    ensures Append(Patch(w, job, wl), job, wl) == WriteNext(w, job, wl)
    ensures Patch(w, job, wl).curPos == |Patch(w, job, wl).file|
  {
  }

  /** A chunk that is open can take the next block. */
  lemma OpenCanWrite(ts: seq<Task>, t: Task, heads: seq<Head>, flags: seq<bool>)
    requires TasksIn(ts, |heads|) && |heads| == |flags| && t.chunk < |heads| && t.job.stream < NUM_STREAMS
    ensures var w, wl := Open(Sequential(ts, heads, flags), t.chunk, heads[t.chunk], flags[t.chunk]).w, heads[t.chunk].wl;
      CanWrite(w, t.job) && w.lastHead[t.job.stream] + wl <= |w.file|
  {
    var wl := heads[t.chunk].wl;
    var jobs := if ts != [] && ts[|ts| - 1].chunk == t.chunk then Latest(ts) else [];
    if jobs != [] {
      SequentialHolds(ts, heads, flags);
    }
    WriteAllHolds(jobs, wl);
    WriteBlockHolds(WriteAll(jobs, wl), ListsOf(jobs, wl).blocks, ListsOf(jobs, wl).last, t.job, wl);
  }

  /** Only chunks up to that of the next block have been opened. */
  lemma LoggedBefore(s: State, work: Work)
    requires WorkOk(work) && LogIn(work.tasks, s.log) && |s.out.flags| == |work.heads|
    requires s.released < |work.tasks| && s.log == Successes(s.released, s.failed)
    ensures TasksIn(TasksAt(work.tasks, s.log), |work.heads|)
    ensures var d, c := Logged(s.out, s.log, work), work.tasks[s.released].chunk;
      && (d.chunk.Some? ==> d.chunk.value <= c)
      && (d.chunk != Some(c) ==> forall i | 0 <= i < |TasksAt(work.tasks, s.log)| :: TasksAt(work.tasks, s.log)[i].chunk != c)
  {
    SuccessesBelow(s.released, s.failed);
    SuccessesIncrease(s.released, s.failed);
    var ts, c := TasksAt(work.tasks, s.log), work.tasks[s.released].chunk;
    forall i | 0 <= i < |ts|
      ensures ts[i].chunk <= ts[|ts| - 1].chunk <= c
    {
      assert s.log[i] <= s.log[|ts| - 1] < s.released;
    }
  }

  lemma HeadsKeepFile(s: State, i: nat, work: Work)
    requires WorkOk(work) && SlotsOk(s) && LogOk(s, work) && FileOk(s, work) && Enabled(s, WriteHeads(i), work)
    ensures LogOk(Step(s, WriteHeads(i), work), work) && FileOk(Step(s, WriteHeads(i), work), work)
  {
    hide Sequential, OpenChunk, Open, Shows, Successes, TasksAt;
    WriterIsCurrent(s, i);
    var t := work.tasks[s.released];
    HeadsKeepLog(s, WriteHeads(i), work);
    LoggedBefore(s, work);
    var d := Logged(s.out, s.log, work);
    OpenShows(s.out, d, t, s.eof, work);
    if d.chunk != Some(t.chunk) {
      SequentialIgnores(TasksAt(work.tasks, s.log), work.heads, s.out.flags, t.chunk, s.eof);
    }
  }

  lemma PatchKeepsFile(s: State, i: nat, work: Work)
    requires WorkOk(work) && SlotsOk(s) && LogOk(s, work) && FileOk(s, work) && Enabled(s, PatchLink(i), work)
    ensures LogOk(Step(s, PatchLink(i), work), work) && FileOk(Step(s, PatchLink(i), work), work)
  {
    hide Sequential, StoreLink, Shows, Patch, Open, Successes, TasksAt;
    WriterIsCurrent(s, i);
    var t := work.tasks[s.released];
    HeadsKeepLog(s, PatchLink(i), work);
    LoggedBefore(s, work);
    OpenCanWrite(TasksAt(work.tasks, s.log), t, work.heads, s.out.flags);
    LinkShows(s.out, Expected(s, work), t, work);
  }

  lemma AppendKeepsFile(s: State, i: nat, work: Work)
    requires WorkOk(work) && SlotsOk(s) && LogOk(s, work) && FileOk(s, work) && Enabled(s, AppendBlock(i), work)
    ensures LogOk(Step(s, AppendBlock(i), work), work) && FileOk(Step(s, AppendBlock(i), work), work)
  {
    hide Sequential, StoreBlock, Shows, Patch, Append, Open, WriteNext, Successes, TasksAt;
    WriterIsCurrent(s, i);
    var t := work.tasks[s.released];
    AppendKeepsLog(s, i, work);
    LoggedBefore(s, work);
    OpenCanWrite(TasksAt(work.tasks, s.log), t, work.heads, s.out.flags);
    var d := Logged(s.out, s.log, work);
    var o := Open(d, t.chunk, work.heads[t.chunk], s.out.flags[t.chunk]);
    PatchThenAppend(o.w, t.job, work.heads[t.chunk].wl);
    BlockShows(s.out, Expected(s, work), t, work);
    LoggedNext(s.out, s.log, s.released, work);
  }

  lemma LoggedNext(out: Output, log: seq<nat>, j: nat, work: Work)
    requires TasksIn(work.tasks, |work.heads|) && LogIn(work.tasks, log) && j < |work.tasks| && |out.flags| == |work.heads|
    ensures LogIn(work.tasks, log + [j])
    ensures var t := work.tasks[j];
      Logged(out, log + [j], work) == WriteTask(Logged(out, log, work), t, work.heads[t.chunk], out.flags[t.chunk])
  {
    var ts := TasksAt(work.tasks, log + [j]);
    assert ts == TasksAt(work.tasks, log) + [work.tasks[j]];
    assert ts[..|log|] == TasksAt(work.tasks, log);
  }

  lemma PassTurnKeepsFile(s: State, i: nat, work: Work)
    requires WorkOk(work) && SlotsOk(s) && LogOk(s, work) && FileOk(s, work) && Enabled(s, PassTurn(i), work)
    ensures LogOk(Step(s, PassTurn(i), work), work) && FileOk(Step(s, PassTurn(i), work), work)
  {
    hide Sequential, Shows;
    NextIsQuiet(s, i, work);
    PassTurnKeepsLog(s, i, work);
  }

  lemma RecompressKeepsFile(s: State, i: nat, ok: bool, work: Work)
    requires WorkOk(work) && SlotsOk(s) && LogOk(s, work) && FileOk(s, work) && Enabled(s, Recompress(i, ok), work)
    ensures LogOk(Step(s, Recompress(i, ok), work), work) && FileOk(Step(s, Recompress(i, ok), work), work)
  {
    hide Sequential, Shows;
    WriterIsCurrent(s, i);
    RecompressKeepsLog(s, i, ok, work);
  }

  lemma QuietKeepsFile(s: State, a: Action, work: Work)
    requires WorkOk(work) && SlotsOk(s) && LogOk(s, work) && FileOk(s, work) && Enabled(s, a, work) && Quiet(a)
    ensures LogOk(Step(s, a, work), work) && FileOk(Step(s, a, work), work)
  {
    hide Sequential, Shows;
    QuietStays(s, a, work);
    QuietKeepsLog(s, a, work);
  }

  // ---- The flag ----

  /** Patching and appending open no chunk. */
  lemma WriteKeepsInfos(out: Output, p: Phase, eof: bool, work: Work)
    ensures |Write(out, p, eof, work).infos| == |out.infos| && |Write(out, p, eof, work).flags| == |out.flags|
    ensures !p.Heading? ==> Write(out, p, eof, work).flags == out.flags
    ensures !p.Heading? ==> forall c | 0 <= c < |out.infos| :: Write(out, p, eof, work).infos[c].chunks == out.infos[c].chunks
  {
    hide HeadBytes, BlockBytes, WriteAt, Initial, ToLE;
  }

  /** While something is pending, some semaphore is not posted. */
  lemma PendingIsBusy(s: State)
    requires SlotsOk(s) && s.released < s.dispatched
    ensures !AllPosted(s)
  {
    var i := s.released % |s.slots|;
    assert Owned(s, s.released);
    assert SlotOk(s, i);
    assert !s.posted[i];
  }

  /** From the last chunk's first block on, every block is the last chunk's. */
  lemma LastFromStart(work: Work, j: nat)
    requires WorkOk(work) && j < |work.tasks|
    ensures InLastChunk(work, j) ==> LastStart(work) <= j
    ensures LastStart(work) <= j ==> work.tasks[j].chunk + 1 == |work.heads|
  {
    var f := LastStart(work);
    if f <= j {
      assert work.tasks[f].chunk <= work.tasks[j].chunk;
    }
  }

  lemma HeadsKeepEof(s: State, i: nat, work: Work)
    requires WorkOk(work) && SlotsOk(s) && LogOk(s, work) && EofOk(s, work) && Enabled(s, WriteHeads(i), work)
    ensures EofOk(Step(s, WriteHeads(i), work), work)
  {
    hide HeadBytes, BlockBytes, WriteAt, Initial, SlotsOk, Successes, LogIn, StoreLink, StoreBlock, LastStart;
    WriterIsCurrent(s, i);
    assert work.tasks[s.released].chunk <= work.tasks[s.dispatched - 1].chunk;
    LastFromStart(work, s.released);
  }

  lemma NotAhead(s: State)
    requires SlotsOk(s)
    ensures s.released <= s.dispatched
  {
  }

  lemma MainKeepsEof(s: State, a: Action, work: Work)
    requires WorkOk(work) && SlotsOk(s) && LogOk(s, work) && EofOk(s, work) && Enabled(s, a, work) && Main(a)
    ensures EofOk(Step(s, a, work), work)
  {
    hide SlotsOk, Successes, LogIn, LastStart;
    LastFromStart(work, s.dispatched);
    assert s.released <= s.dispatched by {
      NotAhead(s);
    }
    if s.released < s.dispatched {
      PendingIsBusy(s);
    }
  }

  lemma StepKeepsEof(s: State, a: Action, work: Work)
    requires WorkOk(work) && SlotsOk(s) && LogOk(s, work) && EofOk(s, work) && Enabled(s, a, work)
    ensures EofOk(Step(s, a, work), work)
  {
    hide HeadBytes, BlockBytes, WriteAt, Initial, SlotsOk, Successes, LogIn, OpenChunk, StoreLink, StoreBlock, LastStart;
    if Main(a) {
      MainKeepsEof(s, a, work);
    } else if a.WriteHeads? {
      HeadsKeepEof(s, a.i, work);
    } else {
      WriteKeepsInfos(s.out, s.slots[a.i], s.eof, work);
    }
  }

  /** Without failures a chunk is opened by its first block. */
  lemma OpenedByFirst(s: State, work: Work)
    requires WorkOk(work) && SlotsOk(s) && LogOk(s, work) && FileOk(s, work) && s.failed == {}
    requires s.released < |work.tasks| && Current(s).Heading?
    ensures var c := work.tasks[s.released].chunk;
      c < |s.out.infos| && (s.out.infos[c].chunks == 0 ==> s.released == FirstOf(work.tasks, c))
  {
    hide Successes, OnDisk, SlotOk, Owned, Sequential, FirstOf;
    var j, c := s.released, work.tasks[s.released].chunk;
    SuccessesAll(j);
    if FirstOf(work.tasks, c) < j {
      assert work.tasks[FirstOf(work.tasks, c)].chunk <= work.tasks[j - 1].chunk <= work.tasks[j].chunk;
      assert TasksAt(work.tasks, s.log)[j - 1] == work.tasks[j - 1];
    }
  }

  lemma HeadsKeepEarly(s: State, i: nat, work: Work)
    requires WorkOk(work) && SlotsOk(s) && LogOk(s, work) && FileOk(s, work) && EofOk(s, work) && EarlyOk(s, work)
    requires Enabled(s, WriteHeads(i), work)
    ensures EarlyOk(Step(s, WriteHeads(i), work), work)
  {
    hide HeadBytes, BlockBytes, WriteAt, Initial, Successes, StoreLink, StoreBlock, LastStart, FileOk, SlotOk, Owned;
    WriterIsCurrent(s, i);
    if s.failed == {} {
      OpenedByFirst(s, work);
    }
  }

  lemma StepKeepsEarly(s: State, a: Action, work: Work)
    requires WorkOk(work) && SlotsOk(s) && LogOk(s, work) && FileOk(s, work) && EofOk(s, work) && EarlyOk(s, work)
    requires Enabled(s, a, work)
    ensures EarlyOk(Step(s, a, work), work)
  {
    hide HeadBytes, BlockBytes, WriteAt, Initial, Successes, OpenChunk, StoreLink, StoreBlock, LastStart, FileOk, SlotsOk, LogOk;
    if a.WriteHeads? {
      HeadsKeepEarly(s, a.i, work);
    } else if !Main(a) {
      WriteKeepsInfos(s.out, s.slots[a.i], s.eof, work);
    }
  }

  // ---- Every step ----

  lemma StepKeepsInvariant(s: State, a: Action, work: Work)
    requires Invariant(s, work) && Enabled(s, a, work)
    ensures Invariant(Step(s, a, work), work)
  {
    hide SlotsOk, FileOk, LogOk, EofOk, EarlyOk;
    StepKeepsSlots(s, a, work);
    StepKeepsLog(s, a, work);
    StepKeepsEof(s, a, work);
    StepKeepsEarly(s, a, work);
    assert LogIn(work.tasks, Step(s, a, work).log) && FileOk(Step(s, a, work), work) by {
      match a
      case Recompress(i, ok) => RecompressKeepsFile(s, i, ok, work);
      case WriteHeads(i) => HeadsKeepFile(s, i, work);
      case PatchLink(i) => PatchKeepsFile(s, i, work);
      case AppendBlock(i) => AppendKeepsFile(s, i, work);
      case PassTurn(i) => PassTurnKeepsFile(s, i, work);
      case _ => QuietKeepsFile(s, a, work);
    }
  }

  lemma StartInvariant(n: nat, work: Work)
    requires n > 0 && WorkOk(work)
    ensures Invariant(Start(n, work), work)
  {
    var s := Start(n, work);
    assert TasksAt(work.tasks, s.log) == [];
    forall x: nat | x < n
      ensures SlotOk(s, x)
    {
    }
  }

  lemma {:induction false} RunKeepsInvariant(s: State, actions: seq<Action>, work: Work)
    requires Invariant(s, work) && RunFrom(s, actions, work).Some?
    ensures Invariant(RunFrom(s, actions, work).value, work)
    decreases |actions|
  {
    hide Invariant;
    if actions != [] {
      StepKeepsInvariant(s, actions[0], work);
      RunKeepsInvariant(Step(s, actions[0], work), actions[1..], work);
    }
  }

  // ---- What every run guarantees ----

  lemma PendingIsActive(s: State)
    requires SlotsOk(s)
    ensures s.released == s.dispatched || exists i: nat :: i < |s.slots| && Active(s.slots[i])
  {
    assert s.released < s.dispatched ==> Owned(s, s.released);
  }

  /** In every interleaving: at most one thread holds the turn, every block before its own has
      released it, the blocks are written in the order of dispatch, and outside of write sections
      the file is what writing those blocks one after the other gives. */
  lemma EveryRunIsOrdered(n: nat, actions: seq<Action>, work: Work, s: State)
    requires n > 0 && WorkOk(work)
    requires RunFrom(Start(n, work), actions, work) == Some(s)
    ensures forall i: nat, j: nat | i < |s.slots| && j < |s.slots| && HasTurn(s.slots[i]) && HasTurn(s.slots[j]) :: i == j
    ensures forall i: nat | i < |s.slots| && HasTurn(s.slots[i]) :: s.slots[i].job == s.released
    ensures LogIn(work.tasks, s.log) && |s.out.flags| == |work.heads|
    ensures s.log == Successes(s.released, s.failed) || s.log == Successes(s.released + 1, s.failed)
    ensures forall i, j | 0 <= i < j < |s.log| :: s.log[i] < s.log[j]
    ensures (forall i: nat | i < |s.slots| :: !s.slots[i].Patching? && !s.slots[i].Appending?) ==>
      s.out.file == OnDisk(Logged(s.out, s.log, work))
    ensures Finished(s) ==> s.released == s.dispatched && s.log == Successes(s.dispatched, s.failed)
  {
    hide Invariant, RunFrom, Successes, Logged;
    StartInvariant(n, work);
    RunKeepsInvariant(Start(n, work), actions, work);
    SuccessesIncrease(s.released, s.failed);
    SuccessesIncrease(s.released + 1, s.failed);
    OrderOf(s, work);
    FileBetweenTurns(s, work);
  }

  lemma OrderOf(s: State, work: Work)
    requires Invariant(s, work)
    ensures forall i: nat, j: nat | i < |s.slots| && j < |s.slots| && HasTurn(s.slots[i]) && HasTurn(s.slots[j]) :: i == j
    ensures forall i: nat | i < |s.slots| && HasTurn(s.slots[i]) :: s.slots[i].job == s.released
    ensures LogIn(work.tasks, s.log)
    ensures s.log == Successes(s.released, s.failed) || s.log == Successes(s.released + 1, s.failed)
    ensures Finished(s) ==> s.released == s.dispatched && s.log == Successes(s.dispatched, s.failed)
  {
    hide FileOk, EofOk, Successes;
    forall i: nat | i < |s.slots| && HasTurn(s.slots[i])
      ensures i == s.released % |s.slots| && s.slots[i].job == s.released
    {
      assert SlotOk(s, i);
    }
    if Finished(s) {
      PendingIsActive(s);
      assert !Active(Current(s));
    }
  }

  lemma FileBetweenTurns(s: State, work: Work)
    requires Invariant(s, work)
    ensures LogIn(work.tasks, s.log) && |s.out.flags| == |work.heads|
    ensures (forall i: nat | i < |s.slots| :: !s.slots[i].Patching? && !s.slots[i].Appending?) ==>
      s.out.file == OnDisk(Logged(s.out, s.log, work))
  {
    hide Successes, EofOk, Sequential, SlotOk, Owned;
  }

  /** No thread has anything left to write. */
  predicate Finished(s: State) {
    forall i: nat | i < |s.slots| :: !Active(s.slots[i])
  }

  /** Everything has been dispatched and written. */
  predicate Complete(s: State, work: Work) {
    s.dispatched == |work.tasks| && s.failed == {} && Finished(s)
  }

  lemma FinishedFile(n: nat, actions: seq<Action>, work: Work, s: State)
    requires n > 0 && WorkOk(work)
    requires RunFrom(Start(n, work), actions, work) == Some(s) && Complete(s, work)
    ensures |s.out.flags| == |work.heads| && s.out.file == OnDisk(Sequential(work.tasks, work.heads, s.out.flags))
  {
    hide Sequential, Successes, RunFrom, Start;
    EveryRunIsOrdered(n, actions, work, s);
    SuccessesAll(|work.tasks|);
    assert TasksAt(work.tasks, s.log) == work.tasks;
    assert forall i: nat | i < |s.slots| :: !s.slots[i].Patching? && !s.slots[i].Appending?;
  }

  lemma LastFlag(n: nat, actions: seq<Action>, work: Work, s: State)
    requires n > 0 && WorkOk(work)
    requires RunFrom(Start(n, work), actions, work) == Some(s)
    ensures |s.out.infos| == |s.out.flags| == |work.heads|
    ensures |work.heads| > 0 && s.out.infos[|work.heads| - 1].chunks > 0 ==> s.out.flags[|work.heads| - 1]
    ensures work.waits ==> forall c: nat | c < |work.heads| && s.out.flags[c] :: c + 1 == |work.heads|
  {
    StartInvariant(n, work);
    RunKeepsInvariant(Start(n, work), actions, work);
  }

  /** When all is written, the stream_infos of the last block's chunk say that it was opened. */
  lemma LastOpened(n: nat, actions: seq<Action>, work: Work, s: State)
    requires n > 0 && WorkOk(work) && work.tasks != []
    requires RunFrom(Start(n, work), actions, work) == Some(s) && Complete(s, work)
    ensures var c := work.tasks[|work.tasks| - 1].chunk; c < |s.out.infos| && s.out.infos[c].chunks > 0
  {
    hide Sequential;
    StartInvariant(n, work);
    RunKeepsInvariant(Start(n, work), actions, work);
    EveryRunIsOrdered(n, actions, work, s);
    SuccessesAll(|work.tasks|);
    assert TasksAt(work.tasks, s.log) == work.tasks;
    assert !Active(Current(s));
  }

  /** If no thread gave up, the finished file holds every chunk as a single thread would have
      written it, except that, when the main thread does not wait, the header of a chunk before the
      last one may say that it is the last. */
  lemma ConcurrentIsSequential(n: nat, actions: seq<Action>, chunks: seq<Chunk>, waits: bool, s: State)
    requires n > 0 && ChunksOk(chunks)
    requires RunFrom(Start(n, WorkOf(chunks, waits)), actions, WorkOf(chunks, waits)) == Some(s)
    requires Complete(s, WorkOf(chunks, waits))
    ensures |s.out.flags| == |chunks| && s.out.file == FileOf(chunks, s.out.flags)
    ensures chunks != [] ==> s.out.flags[|chunks| - 1]
    ensures waits ==> forall c | 0 <= c < |chunks| - 1 :: !s.out.flags[c]
  {
    hide RunFrom, Sequential, Complete;
    var work := WorkOf(chunks, waits);
    TasksOk(chunks);
    FinishedFile(n, actions, work, s);
    SequentialIsFile(chunks, work.heads, s.out.flags);
    if chunks != [] {
      LastOpened(n, actions, work, s);
      LastFlag(n, actions, work, s);
    }
  }

  // ---- No deadlock ----

  /** How many steps the thread of a slot still has before it is idle. */
  function StepsLeft(p: Phase): nat {
    match p
    case Idle => 0
    case Done(_) => 1
    case Leaving(_) => 2
    case Aborting(_) => 2
    case Appending(_) => 3
    case Patching(_) => 4
    case Heading(_) => 5
    case Serial(_) => 6
    case Ready(_) => 7
    case Failed(_) => 7
    case Working(_) => 8
  }

  function TotalSteps(slots: seq<Phase>): nat {
    if slots == [] then 0 else StepsLeft(slots[0]) + TotalSteps(slots[1..])
  }

  lemma {:induction false} TotalStepsUpdate(slots: seq<Phase>, i: nat, p: Phase)
    requires i < |slots|
    ensures TotalSteps(slots[i := p]) == TotalSteps(slots) - StepsLeft(slots[i]) + StepsLeft(p)
    ensures TotalSteps(slots) >= StepsLeft(slots[i])
    decreases |slots|
  {
    if i > 0 {
      TotalStepsUpdate(slots[1..], i - 1, p);
      assert slots[i := p][1..] == slots[1..][i - 1 := p];
    } else {
      assert slots[i := p][1..] == slots[1..];
    }
  }

  /** Every step of a thread brings it nearer to idle: between two dispatches only finitely many
      steps are possible. */
  lemma ThreadStepsAreFinite(s: State, a: Action, work: Work)
    requires Enabled(s, a, work) && !Main(a)
    ensures TotalSteps(Step(s, a, work).slots) < TotalSteps(s.slots)
  {
    hide Write, TotalSteps;
    TotalStepsUpdate(s.slots, a.i, Step(s, a, work).slots[a.i]);
  }

  function NextMove(p: Phase, i: nat): Action {
    match p
    case Working(_) => Compress(i, true)
    case Ready(_) => TakeTurn(i)
    case Failed(_) => TakeTurn(i)
    case Serial(_) => Recompress(i, true)
    case Heading(_) => WriteHeads(i)
    case Patching(_) => PatchLink(i)
    case Appending(_) => AppendBlock(i)
    case Leaving(_) => PassTurn(i)
    case Aborting(_) => PassTurn(i)
    case Done(_) => Post(i)
    case Idle => Dispatch
  }

  /** The first slot whose thread has not posted its semaphore, or the number of slots. */
  function FirstBusy(slots: seq<Phase>): (i: nat)
    ensures i <= |slots| && (i < |slots| ==> !slots[i].Idle?)
    ensures forall x: nat | x < i :: slots[x].Idle?
  {
    if slots == [] || !slots[0].Idle? then 0 else 1 + FirstBusy(slots[1..])
  }

  /** The thread whose turn it is goes on; when there is none, a finished one posts its semaphore;
      when all have, the main thread goes on. */
  function NextAction(s: State, work: Work): Action
    requires s.outputThread < |s.slots|
  {
    if s.released < s.dispatched then NextMove(s.slots[s.outputThread], s.outputThread)
    else if FirstBusy(s.slots) < |s.slots| then Post(FirstBusy(s.slots))
    else if !s.eof && InLastChunk(work, s.dispatched) then RaiseEof
    else Dispatch
  }

  /** Nothing is dispatched that has not been written, and all semaphores are posted. */
  predicate AtRest(s: State) {
    s.released == s.dispatched && FirstBusy(s.slots) == |s.slots|
  }

  lemma NextIsEnabled(s: State, work: Work)
    requires SlotsOk(s) && (!AtRest(s) || s.dispatched < |work.tasks|)
    ensures Enabled(s, NextAction(s, work), work)
    ensures s.released < s.dispatched ==> !Main(NextAction(s, work))
  {
    var i := FirstBusy(s.slots);
    assert SlotOk(s, s.outputThread);
    if s.released < s.dispatched {
      assert Owned(s, s.released);
    } else if i < |s.slots| {
      assert SlotOk(s, i);
    } else {
      forall x: nat | x < |s.slots|
        ensures s.posted[x]
      {
        assert SlotOk(s, x);
      }
    }
  }

  /** While a block is pending, a thread can move; once none is, the main thread can go on or a
      finished thread can post its semaphore. */
  lemma {:induction false} NeverStuck(n: nat, actions: seq<Action>, work: Work, s: State)
    requires n > 0 && WorkOk(work)
    requires RunFrom(Start(n, work), actions, work) == Some(s)
    ensures s.released < s.dispatched ==> exists a: Action :: !Main(a) && Enabled(s, a, work)
    ensures s.dispatched < |work.tasks| ==> exists a: Action :: Enabled(s, a, work)
  {
    hide SlotsOk, FileOk, LogOk, EofOk, EarlyOk, Enabled, NextAction;
    StartInvariant(n, work);
    RunKeepsInvariant(Start(n, work), actions, work);
    if s.released < s.dispatched || s.dispatched < |work.tasks| {
      NextIsEnabled(s, work);
    }
  }

  // ---- Runs can be completed ----

  /** No thread has failed for good. */
  ghost predicate Healthy(s: State) {
    s.failed == {} && forall i: nat | i < |s.slots| :: !s.slots[i].Aborting?
  }

  lemma NextStaysHealthy(s: State, work: Work)
    requires SlotsOk(s) && Healthy(s) && Enabled(s, NextAction(s, work), work)
    ensures Healthy(Step(s, NextAction(s, work), work))
  {
    hide Write;
  }

  lemma NextComesNearer(s: State, work: Work)
    requires SlotsOk(s) && Enabled(s, NextAction(s, work), work)
    ensures var s' := Step(s, NextAction(s, work), work);
      && s'.dispatched >= s.dispatched && (s.eof ==> s'.eof)
      && (s'.dispatched > s.dispatched || (!s.eof && s'.eof) || TotalSteps(s'.slots) < TotalSteps(s.slots))
      && (!AtRest(s) ==> s'.dispatched == s.dispatched && s'.eof == s.eof)
      && s'.dispatched <= s.dispatched + 1 && (!InLastChunk(work, s.dispatched) ==> s'.eof == s.eof)
  {
    hide Write, TotalSteps;
    var a := NextAction(s, work);
    if s.released < s.dispatched {
      NextIsEnabled(s, work);
    }
    if !Main(a) {
      ThreadStepsAreFinite(s, a, work);
    }
  }

  /** Some run leads from s to s'. */
  ghost predicate Leads(s: State, s': State, work: Work) {
    exists actions: seq<Action> :: RunFrom(s, actions, work) == Some(s')
  }

  lemma {:induction false} RunAppend(s: State, first: seq<Action>, later: seq<Action>, work: Work)
    requires RunFrom(s, first, work).Some?
    ensures RunFrom(s, first + later, work) == RunFrom(RunFrom(s, first, work).value, later, work)
    decreases |first|
  {
    if first == [] {
      assert first + later == later;
    } else {
      assert (first + later)[1..] == first[1..] + later;
      RunAppend(Step(s, first[0], work), first[1..], later, work);
    }
  }

  lemma LeadsOn(s: State, mid: State, end: State, work: Work)
    requires Leads(s, mid, work) && Leads(mid, end, work)
    ensures Leads(s, end, work)
  {
    var first: seq<Action> :| RunFrom(s, first, work) == Some(mid);
    var later: seq<Action> :| RunFrom(mid, later, work) == Some(end);
    RunAppend(s, first, later, work);
  }

  lemma LeadsBy(s: State, a: Action, work: Work)
    requires Enabled(s, a, work)
    ensures Leads(s, s, work) && Leads(s, Step(s, a, work), work)
  {
    assert RunFrom(s, [], work) == Some(s);
    assert [a][1..] == [];
    assert RunFrom(s, [a], work) == RunFrom(Step(s, a, work), [], work);
  }

  /** s' is a state at rest in which m blocks have been written, and eof is set only if it must be. */
  ghost predicate RestsAt(s: State, s': State, work: Work, m: nat) {
    && Leads(s, s', work) && Invariant(s', work) && Healthy(s') && |s'.slots| == |s.slots|
    && AtRest(s') && s'.dispatched == m && (m <= LastStart(work) ==> s'.eof == s.eof)
  }

  /** From every state of a run in which no thread has failed, any further number of blocks can be
      written. */
  lemma {:induction false} CanReach(s: State, work: Work, m: nat) returns (end: State)
    requires Invariant(s, work) && Healthy(s) && s.dispatched <= m <= |work.tasks|
    ensures RestsAt(s, end, work, m)
    decreases m - s.dispatched, !s.eof, TotalSteps(s.slots)
  {
    hide FileOk, EofOk, EarlyOk, Enabled, NextAction, Step, TotalSteps, SlotOk, Owned, RunFrom, AtRest, FirstBusy, LastStart;
    if AtRest(s) && s.dispatched == m {
      assert RunFrom(s, [], work) == Some(s) by {
        NoActions(s, work);
      }
      end := s;
    } else {
      var a := NextAction(s, work);
      NextIsEnabled(s, work);
      NextStaysHealthy(s, work);
      NextComesNearer(s, work);
      StepKeepsInvariant(s, a, work);
      if s.dispatched < m {
        LastFromStart(work, s.dispatched);
      }
      LeadsBy(s, a, work);
      SameSlots(s, a, work);
      end := CanReach(Step(s, a, work), work, m);
      LeadsOn(s, Step(s, a, work), end, work);
    }
  }

  lemma NoActions(s: State, work: Work)
    ensures RunFrom(s, [], work) == Some(s)
  {
  }

  lemma SameSlots(s: State, a: Action, work: Work)
    requires Enabled(s, a, work)
    ensures |Step(s, a, work).slots| == |s.slots|
  {
    hide Write;
  }

  predicate Completes(s: State, actions: seq<Action>, work: Work) {
    var end := RunFrom(s, actions, work);
    end.Some? && Complete(end.value, work)
  }

  /** So the work can always be completed. */
  lemma CanComplete(s: State, work: Work)
    requires Invariant(s, work) && Healthy(s)
    ensures exists actions: seq<Action> :: Completes(s, actions, work)
  {
    hide FileOk, EofOk, EarlyOk, RunFrom;
    var end := CanReach(s, work, |work.tasks|);
    var actions: seq<Action> :| RunFrom(s, actions, work) == Some(end);
    NothingPending(end);
    assert Completes(s, actions, work);
  }

  lemma NothingPending(s: State)
    requires SlotsOk(s) && s.released == s.dispatched
    ensures Finished(s)
  {
    forall i: nat | i < |s.slots|
      ensures !Active(s.slots[i])
    {
      assert SlotOk(s, i);
    }
  }
}
