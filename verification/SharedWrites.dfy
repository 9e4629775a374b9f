/** Several tasks writing to the same streams: what holds of `Stream.write` when writes on one connection id overlap. */
module SharedWrites {
  import opened Wire
  import opened Seqs
  import opened Socket

  type ConnId = n: nat | n < 0x1_0000_0000

  /** One call of `write`: the data, and how much of it has been sent. */
  datatype Job = Job(id: ConnId, data: bytes, at: nat)

  /** A message on the wire, and whose chunk it is. */
  datatype Sending = Piece(task: nat, id: ConnId, chunk: bytes) | Plain(msg: bytes)

  datatype Work = Work(wire: bytes, jobs: map<nat, Job>, log: seq<Sending>)

  const NO_WORK := Work([], map[], [])

  datatype Turn = Start(task: nat, id: ConnId, data: bytes) | Send(task: nat) | Message(msg: bytes)

  function MsgOf(s: Sending): bytes {
    if s.Plain? then s.msg else EncodeSend(s.id, s.chunk)
  }

  function Next(job: Job): bytes
    requires job.at <= |job.data|
  {
    Take(job.data[job.at..], MAX_SEND_CHUNK)
  }

  predicate Legal(w: Work, a: Turn) {
    match a
    case Start(task, _, _) => task !in w.jobs
    case Send(task) => task in w.jobs && w.jobs[task].at < |w.jobs[task].data|
    case Message(msg) => Fits(msg)
  }

  function Apply(w: Work, a: Turn): Work
    requires Legal(w, a)
  {
    match a
    case Start(task, id, data) => w.(jobs := w.jobs[task := Job(id, data, 0)])
    case Send(task) =>
      var job := w.jobs[task];
      ParseEncoded(job.id, Next(job));
      Work(w.wire + Frame(EncodeSend(job.id, Next(job))),
           w.jobs[task := job.(at := job.at + |Next(job)|)],
           w.log + [Piece(task, job.id, Next(job))])
    case Message(msg) => w.(wire := w.wire + Frame(msg), log := w.log + [Plain(msg)])
  }

  predicate LegalRun(w: Work, turns: seq<Turn>)
    decreases |turns|
  {
    turns != [] ==> Legal(w, turns[0]) && LegalRun(Apply(w, turns[0]), turns[1..])
  }

  function Run(w: Work, turns: seq<Turn>): Work
    requires LegalRun(w, turns)
    decreases |turns|
  {
    if turns == [] then w else Run(Apply(w, turns[0]), turns[1..])
  }

  /** The chunks of one write that are on the wire, in order. */
  function ChunksOf(log: seq<Sending>, task: nat): seq<bytes> {
    if log == [] then []
    else
      var s := log[|log| - 1];
      ChunksOf(log[..|log| - 1], task) + if s.Piece? && s.task == task then [s.chunk] else []
  }

  function BytesOf(log: seq<Sending>, task: nat): bytes {
    if log == [] then []
    else
      var s := log[|log| - 1];
      BytesOf(log[..|log| - 1], task) + if s.Piece? && s.task == task then s.chunk else []
  }

  /** The write is sent up to where it is, in order; one that fits a chunk is sent in one piece. */
  predicate JobOk(log: seq<Sending>, task: nat, job: Job) {
    && job.at <= |job.data| && BytesOf(log, task) == job.data[..job.at]
    && (|job.data| <= MAX_SEND_CHUNK ==> ChunksOf(log, task) == if job.at == 0 then [] else [job.data])
    && (|job.data| <= MAX_SEND_CHUNK ==> job.at == 0 || job.at == |job.data|)
  }

  /** The wire reads as the messages of the log, each of legal length, and every write is in order. */
  ghost predicate InOrder(w: Work) {
    && Clean(w.wire) && Deframe(w.wire).msgs == Map(w.log, MsgOf)
    && (forall task <- w.jobs :: JobOk(w.log, task, w.jobs[task]))
    && (forall task :: task !in w.jobs ==> ChunksOf(w.log, task) == [] && BytesOf(w.log, task) == [])
  }

  lemma LogMore(log: seq<Sending>, s: Sending, task: nat)
    ensures ChunksOf(log + [s], task) == ChunksOf(log, task) + if s.Piece? && s.task == task then [s.chunk] else []
    ensures BytesOf(log + [s], task) == BytesOf(log, task) + if s.Piece? && s.task == task then s.chunk else []
  {
    assert (log + [s])[..|log|] == log;
  }

  lemma WireMore(w: Work, s: Sending)
    requires Clean(w.wire) && Deframe(w.wire).msgs == Map(w.log, MsgOf) && Fits(MsgOf(s))
    ensures Clean(w.wire + Frame(MsgOf(s))) && Deframe(w.wire + Frame(MsgOf(s))).msgs == Map(w.log + [s], MsgOf)
  {
    hide Deframe, Frame, MsgOf;
    DeframeSnoc(w.wire, MsgOf(s));
    assert Map(w.log + [s], MsgOf) == Map(w.log, MsgOf) + [MsgOf(s)];
  }

  lemma JobAdvances(log: seq<Sending>, task: nat, job: Job)
    requires JobOk(log, task, job) && job.at < |job.data|
    ensures JobOk(log + [Piece(task, job.id, Next(job))], task, job.(at := job.at + |Next(job)|))
  {
    hide BytesOf, ChunksOf;
    LogMore(log, Piece(task, job.id, Next(job)), task);
    var at := job.at + |Next(job)|;
    assert job.data[..at] == job.data[..job.at] + Next(job);
    assert job.data[0..] == job.data;
  }

  lemma OthersStay(log: seq<Sending>, s: Sending, task: nat, job: Job)
    requires JobOk(log, task, job) && !(s.Piece? && s.task == task)
    ensures JobOk(log + [s], task, job)
  {
    hide BytesOf, ChunksOf;
    LogMore(log, s, task);
  }

  lemma StepInOrder(w: Work, a: Turn)
    requires InOrder(w) && Legal(w, a)
    ensures InOrder(Apply(w, a))
  {
    hide Clean, Deframe, JobOk, BytesOf, ChunksOf, MsgOf, Frame;
    var t := Apply(w, a);
    match a
    case Start(task, id, data) => NewJob(w.log, task, Job(id, data, 0));
    case Send(task) =>
      var job := w.jobs[task];
      JobInRange(w.log, task, job);
      var s := Piece(task, job.id, Next(job));
      PieceFits(s, job);
      WireMore(w, s);
      JobAdvances(w.log, task, job);
      LogStays(w, s);
    case Message(msg) =>
      PlainMessage(msg);
      WireMore(w, Plain(msg));
      LogStays(w, Plain(msg));
  }

  lemma NewJob(log: seq<Sending>, task: nat, job: Job)
    requires job.at == 0 && ChunksOf(log, task) == [] && BytesOf(log, task) == []
    ensures JobOk(log, task, job)
  {
  }

  lemma JobInRange(log: seq<Sending>, task: nat, job: Job)
    requires JobOk(log, task, job)
    ensures job.at <= |job.data|
  {
  }

  lemma PieceFits(s: Sending, job: Job)
    requires job.at < |job.data| && s.Piece? && s.id == job.id && s.chunk == Next(job)
    ensures MsgOf(s) == EncodeSend(job.id, Next(job)) && Fits(MsgOf(s))
  {
    ParseEncoded(job.id, Next(job));
  }

  lemma PlainMessage(msg: bytes)
    ensures MsgOf(Plain(msg)) == msg
  {
  }

  /** What one message changes for the writes it is no chunk of: nothing. */
  lemma LogStays(w: Work, s: Sending)
    requires InOrder(w)
    ensures forall task <- w.jobs :: !(s.Piece? && s.task == task) ==> JobOk(w.log + [s], task, w.jobs[task])
    ensures forall task :: task !in w.jobs && !(s.Piece? && s.task == task) ==>
              ChunksOf(w.log + [s], task) == [] && BytesOf(w.log + [s], task) == []
  {
    hide Clean, Deframe, JobOk, BytesOf, ChunksOf, MsgOf;
    forall task | task in w.jobs && !(s.Piece? && s.task == task) ensures JobOk(w.log + [s], task, w.jobs[task]) {
      OthersStay(w.log, s, task, w.jobs[task]);
    }
    forall task | task !in w.jobs && !(s.Piece? && s.task == task)
      ensures ChunksOf(w.log + [s], task) == [] && BytesOf(w.log + [s], task) == []
    {
      LogMore(w.log, s, task);
    }
  }

  /** In every interleaving of writes, on the same connection id or not: the wire is whole frames of legal length, each
      write's chunks are on it in order and complete up to where the write is, and a write of at most one chunk's size
      is never torn apart. */
  lemma {:induction false} OverlappingWrites(w: Work, turns: seq<Turn>)
    requires InOrder(w) && LegalRun(w, turns)
    ensures InOrder(Run(w, turns))
    decreases |turns|
  {
    hide InOrder, Legal, Apply;
    if turns != [] {
      StepInOrder(w, turns[0]);
      OverlappingWrites(Apply(w, turns[0]), turns[1..]);
    }
  }

  lemma WritesFromNothing(turns: seq<Turn>)
    requires LegalRun(NO_WORK, turns)
    ensures InOrder(Run(NO_WORK, turns))
  {
    hide Run, LegalRun;
    assert InOrder(NO_WORK);
    OverlappingWrites(NO_WORK, turns);
  }
}
