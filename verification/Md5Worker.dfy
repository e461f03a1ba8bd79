/** The hand-over of data to the MD5 thread as a step system: one buffer, one semaphore for each
    direction, and a producer and a worker whose steps interleave freely. */
module Md5Worker {
  import opened Bytes
  import opened Md5

  /** `Filling` owns the buffer and may have put data in it; `Stopped` has asked the worker to
      exit and waits for it. */
  datatype Producer = Free | Filling(loaded: bool) | Stopped | Joined

  datatype Worker = Asleep | Awake | Worked | Exited

  /** cksumsem says that the buffer is free, worksem that it has work. `produced` is everything the
      producer ever put in, `fed` lists the batches the worker has hashed. */
  datatype System = System(
    cksumsem: nat,
    worksem: nat,
    producer: Producer,
    worker: Worker,
    buf: seq<byte>,
    shutdown: bool,
    produced: seq<byte>,
    fed: seq<seq<byte>>)

  datatype Action = Acquire | Put(bytes: seq<byte>) | Submit | Return | Shutdown | Join | Wake | Hash | Post | Exit

  function Start(): System {
    System(1, 0, Free, Asleep, [], false, [], [])
  }

  /** What the buffer holds after more bytes are put in: the first ones replace what is there. */
  function Loaded(s: System, bytes: seq<byte>): seq<byte> {
    if s.producer.Filling? && s.producer.loaded then s.buf + bytes else bytes
  }

  predicate Enabled(s: System, a: Action, capacity: nat) {
    match a
    case Acquire => s.producer.Free? && s.cksumsem > 0
    case Put(bytes) => s.producer.Filling? && bytes != [] && |Loaded(s, bytes)| <= capacity
    case Submit => s.producer.Filling? && s.producer.loaded
    case Return => s.producer.Filling? && !s.producer.loaded
    case Shutdown => s.producer.Filling? && !s.producer.loaded
    case Join => s.producer.Stopped? && s.worker.Exited?
    case Wake => s.worker.Asleep? && s.worksem > 0
    case Hash => s.worker.Awake? && !s.shutdown
    case Post => s.worker.Worked?
    case Exit => s.worker.Awake? && s.shutdown
  }

  function Step(s: System, a: Action, capacity: nat): System
    requires Enabled(s, a, capacity)
  {
    match a
    case Acquire => s.(cksumsem := s.cksumsem - 1, producer := Filling(false))
    case Put(bytes) => s.(buf := Loaded(s, bytes), producer := Filling(true), produced := s.produced + bytes)
    case Submit => s.(producer := Free, worksem := s.worksem + 1)
    case Return => s.(producer := Free, cksumsem := s.cksumsem + 1)
    case Shutdown => s.(producer := Stopped, shutdown := true, buf := [], worksem := s.worksem + 1)
    case Join => s.(producer := Joined)
    case Wake => s.(worksem := s.worksem - 1, worker := Awake)
    case Hash => s.(worker := Worked, fed := if s.buf == [] then s.fed else s.fed + [s.buf])
    case Post => s.(worker := Asleep, cksumsem := s.cksumsem + 1)
    case Exit => s.(worker := Exited, cksumsem := s.cksumsem + 1)
  }

  function Run(s: System, actions: seq<Action>, capacity: nat): Option<System>
    decreases |actions|
  {
    if actions == [] then Some(s)
    else if !Enabled(s, actions[0], capacity) then None
    else Run(Step(s, actions[0], capacity), actions[1..], capacity)
  }

  // ---- One token ----

  predicate WorkerHolds(s: System) {
    s.worker.Awake? || s.worker.Worked?
  }

  /** Who may touch the buffer: the holder of either semaphore's count, the producer or the worker. */
  function Tokens(s: System): nat {
    s.cksumsem + s.worksem + (if s.producer.Filling? then 1 else 0) + (if WorkerHolds(s) then 1 else 0)
  }

  /** Data put in but not hashed yet. */
  function Pending(s: System): seq<byte> {
    if s.producer.Filling? then (if s.producer.loaded then s.buf else [])
    else if (s.worksem > 0 || s.worker.Awake?) && !s.shutdown then s.buf
    else []
  }

  ghost predicate Invariant(s: System, capacity: nat) {
    && Tokens(s) == 1
    && s.produced == Flat(s.fed) + Pending(s)
    && |s.buf| <= capacity
    && (s.shutdown <==> s.producer.Stopped? || s.producer.Joined?)
    && (s.worker.Exited? ==> s.shutdown && s.worksem == 0)
    && (s.producer.Joined? ==> s.worker.Exited?)
    && (s.shutdown && !s.worker.Exited? ==> s.worksem + (if s.worker.Awake? then 1 else 0) == 1)
  }

  lemma PutKeeps(s: System, bytes: seq<byte>, capacity: nat)
    requires Invariant(s, capacity) && Enabled(s, Put(bytes), capacity)
    ensures Invariant(Step(s, Put(bytes), capacity), capacity)
  {
    assert Flat(s.fed) + Pending(s) + bytes == Flat(s.fed) + (Pending(s) + bytes);
    assert Loaded(s, bytes) == Pending(s) + bytes;
  }

  lemma HashKeeps(s: System, capacity: nat)
    requires Invariant(s, capacity) && Enabled(s, Hash, capacity)
    ensures Invariant(Step(s, Hash, capacity), capacity)
  {
    FlatPush(s.fed, s.buf);
  }

  /** Every step keeps the single token, and every byte is hashed or pending, in order. */
  lemma StepKeeps(s: System, a: Action, capacity: nat)
    requires Invariant(s, capacity) && Enabled(s, a, capacity)
    ensures Invariant(Step(s, a, capacity), capacity)
  {
    match a
    case Put(bytes) => PutKeeps(s, bytes, capacity);
    case Hash => HashKeeps(s, capacity);
    case Acquire =>
    case Submit =>
    case Return =>
    case Shutdown =>
    case Join =>
    case Wake =>
    case Post =>
    case Exit =>
  }

  lemma {:induction false} RunKeeps(s: System, actions: seq<Action>, capacity: nat)
    requires Invariant(s, capacity) && Run(s, actions, capacity).Some?
    ensures Invariant(Run(s, actions, capacity).value, capacity)
    decreases |actions|
  {
    if actions != [] {
      StepKeeps(s, actions[0], capacity);
      RunKeeps(Step(s, actions[0], capacity), actions[1..], capacity);
    }
  }

  /** For every interleaving: the producer and the worker never own the buffer together; once the
      producer owns it again, or has joined the worker, everything put in before has been hashed. */
  lemma EveryRunFeeds(actions: seq<Action>, capacity: nat, s: System)
    requires Run(Start(), actions, capacity) == Some(s)
    ensures !(s.producer.Filling? && WorkerHolds(s)) && s.cksumsem <= 1 && s.worksem <= 1
    ensures s.producer == Filling(false) || s.producer.Joined? ==> Flat(s.fed) == s.produced
  {
    RunKeeps(Start(), actions, capacity);
  }

  /** Until the worker has been joined, some step can be taken. */
  lemma NeverStuck(actions: seq<Action>, capacity: nat, s: System) returns (a: Action)
    requires Run(Start(), actions, capacity) == Some(s) && !s.producer.Joined?
    ensures Enabled(s, a, capacity)
  {
    RunKeeps(Start(), actions, capacity);
    a :=
      if s.worker.Worked? then Post
      else if s.worker.Awake? then (if s.shutdown then Exit else Hash)
      else if s.producer.Filling? then (if s.producer.loaded then Submit else Return)
      else if s.producer.Stopped? && s.worker.Exited? then Join
      else if s.worksem > 0 then Wake
      else Acquire;
  }

  // ---- The digest ----

  /** The worker's calls, batch by batch, and the final one. */
  method DigestBatches(f: Compress, batches: seq<seq<byte>>, aligned: seq<bool>) returns (digest: seq<byte>)
    requires |aligned| == |batches|
    ensures digest == Md5Of(f, Flat(batches))
  {
    var ctx := new Md5Ctx(f);
    for i := 0 to |batches|
      invariant ctx.Valid() && fresh(ctx) && fresh(ctx.buffer) && ctx.f == f
      invariant ctx.Msg() == Flat(batches[..i])
    {
      ctx.ProcessBytes(batches[i], aligned[i]);
      FlatPush(batches[..i], batches[i]);
      assert batches[..i + 1] == batches[..i] + [batches[i]];
    }
    assert batches[..|batches|] == batches;
    digest := ctx.Finish();
  }

  /** Threaded MD5 is MD5: the worker's digest after the join is that of all the bytes produced. */
  method ThreadedDigest(f: Compress, ghost actions: seq<Action>, ghost capacity: nat, s: System, aligned: seq<bool>)
    returns (digest: seq<byte>)
    requires Run(Start(), actions, capacity) == Some(s) && s.producer.Joined? && |aligned| == |s.fed|
    ensures digest == Md5Of(f, s.produced)
  {
    EveryRunFeeds(actions, capacity, s);
    digest := DigestBatches(f, s.fed, aligned);
  }
}
