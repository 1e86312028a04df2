/** One ublk queue as a step system: the runner's per-tag state machine, its submission and
    completion rings as queues, and a kernel that takes published commands when it likes and
    completes each of them once, with any result. A run is a sequence of labelled steps. */
module Protocol {
  import opened Words
  import opened FlatDisk
  import opened Ublk
  import opened RequestIo

  /** Why the I/O loop ended. */
  datatype Error =
    | WaitFailed | FlushFailed | NeedGetData | UnexpectedFetch | CommitError | UnexpectedCommit | IoPanic
    | AlreadyInitialized | CompletionInOwned | NotOwned | RingFull

  /** The errors the code has branches for and its comments say cannot happen. */
  predicate ShouldNeverHappen(e: Error) {
    e.AlreadyInitialized? || e.CompletionInOwned? || e.NotOwned? || e.RingFull?
  }

  /** Where the runner's thread is. */
  datatype Phase =
    | Priming                                                 // in Prime, between tags
    | PrimeFlush                                              // in SubmitIOCmd, between prepare and flush
    | Idle                                                    // about to wait for completions
    | Handling                                                // in the loop over a batch
    | Serving(tag: nat)                                       // the tag is Owned, its request not yet read
    | Committing(tag: nat, desc: Desc, ioErr: bool)           // the request is done, not yet committed
    | Stopped(err: Error)

  datatype LogEntry = LogEntry(tag: nat, req: Request)

  datatype Queue = Queue(
    c: Config,
    tagState: seq<TagState>,
    primed: nat,                 // tags 0..primed have been given their FETCH_REQ
    phase: Phase,
    local: seq<Sqe>,             // prepared, not yet published
    shared: seq<Sqe>,            // published, not yet consumed by the kernel
    armed: map<nat, Sqe>,        // consumed by the kernel, not yet completed
    cq: seq<Cqe>,                // posted, not yet drained
    batch: seq<Cqe>,             // drained, not yet handled
    descs: seq<Desc>,            // descriptor array
    mem: seq<byte>,              // tag buffers
    disk: seq<byte>,             // backend
    failed: set<nat>,            // the tag whose completion ended the loop, if one did
    issued: seq<seq<Request>>,   // per tag, what the kernel has asked for
    served: seq<seq<Reply>>,     // per tag, what the runner has answered
    log: seq<LogEntry>)          // the requests served, in order

  datatype Step =
    | PrimeTag
    | Flush(ok: bool)
    | Drain(n: nat)
    | WaitError
    | Take
    | Serve(pool: seq<byte>)
    | CommitTag
    | Consume
    | Complete(tag: nat, res: int, desc: Desc, data: seq<byte>)

  predicate Shape(q: Queue) {
    && ValidConfig(q.c)
    && |q.tagState| == |q.descs| == |q.issued| == |q.served| == q.c.depth
    && |q.mem| == BufAt(q.c.depth)
    && q.primed <= q.c.depth
  }

  function Init(c: Config, disk: seq<byte>): (q: Queue)
    requires ValidConfig(c)
    ensures Shape(q)
  {
    var n := c.depth;
    Queue(c, seq(n, i => InFlightFetch), 0, Priming, [], [], map[], [], [],
          seq(n, i => NO_DESC), Zeros(BufAt(n)), disk, {}, seq(n, i => []), seq(n, i => []), [])
  }

  // ---- The runner's steps ----

  /** prepareSQE's test: the ring has no room for another entry. */
  predicate SqFull(q: Queue) {
    |q.local| + |q.shared| >= q.c.sqEntries
  }

  /** submitInitialFetchReq for the next tag, up to the flush. */
  function DoPrime(q: Queue): Queue
    requires Shape(q) && q.primed < q.c.depth
  {
    if q.tagState[q.primed] != InFlightFetch then q.(phase := Stopped(AlreadyInitialized))
    else if SqFull(q) then q.(phase := Stopped(RingFull))
    else q.(local := q.local + [MakeSqe(q.c, Fetch, q.primed, 0)], primed := q.primed + 1, phase := PrimeFlush)
  }

  /** flushSubmissions: the tail is published before the system call that may fail. */
  function DoFlush(q: Queue, ok: bool): Queue {
    var next :=
      if !ok && q.local != [] then Stopped(FlushFailed)
      else if q.phase.PrimeFlush? && q.primed < q.c.depth then Priming
      else Idle;
    q.(shared := q.shared + q.local, local := [], phase := next)
  }

  function DoDrain(q: Queue, n: nat): Queue
    requires n <= |q.cq|
  {
    q.(batch := q.cq[..n], cq := q.cq[n..], phase := if n == 0 then Idle else Handling)
  }

  /** processRequests' loop body and handleCompletion up to processIOAndCommit. */
  function DoTake(q: Queue): Queue
    requires Shape(q) && q.batch != []
  {
    var tag, res := DecodeTag(q.batch[0].userData), q.batch[0].res;
    var r := q.(batch := q.batch[1..]);
    if tag >= q.c.depth then r
    else
      var own := r.(tagState := r.tagState[tag := Owned]);
      match q.tagState[tag]
      case InFlightFetch =>
        if res == 0 then own.(phase := Serving(tag))
        else if res == 1 then own.(phase := Stopped(NeedGetData))
        else r.(phase := Stopped(UnexpectedFetch), failed := {tag})
      case InFlightCommit =>
        if res == 0 then own.(phase := Serving(tag))
        else if res == 1 then own.(phase := Stopped(NeedGetData))
        else if res < 0 then own.(phase := Stopped(CommitError))
        else r.(phase := Stopped(UnexpectedCommit), failed := {tag})
      case Owned => r.(phase := Stopped(CompletionInOwned), failed := {tag})
  }

  /** processIOAndCommit up to the commit. */
  function DoServe(q: Queue, pool: seq<byte>): Queue
    requires Shape(q) && q.phase.Serving? && q.phase.tag < q.c.depth && |pool| == MAX_POOLED
  {
    var tag := q.phase.tag;
    var d := q.descs[tag];
    var io := if IsEmpty(d) then Done(q.disk, q.mem, false) else HandleIo(q.c, q.disk, q.mem, tag, d, pool);
    if io.Panic? then q.(phase := Stopped(IoPanic), failed := {tag})
    else
      q.(disk := io.disk, mem := io.mem, phase := Committing(tag, d, io.ioErr),
         served := q.served[tag := q.served[tag] + [Reply(CommitResult(d, io.ioErr), TagBuffer(io.mem, tag))]],
         log := q.log + [LogEntry(tag, Request(d, TagBuffer(q.mem, tag)))])
  }

  /** submitCommitAndFetch. */
  function DoCommit(q: Queue): Queue
    requires Shape(q) && q.phase.Committing? && q.phase.tag < q.c.depth
  {
    var tag := q.phase.tag;
    var result := CommitResult(q.phase.desc, q.phase.ioErr);
    if q.tagState[tag] != Owned then q.(phase := Stopped(NotOwned))
    else if SqFull(q) then q.(phase := Stopped(RingFull))
    else
      q.(local := q.local + [MakeSqe(q.c, Commit, tag, result)],
         tagState := q.tagState[tag := InFlightCommit], phase := Handling)
  }

  // ---- The kernel's steps ----

  function DoConsume(q: Queue): Queue
    requires q.shared != []
  {
    q.(armed := q.armed[q.shared[0].cmd.tag := q.shared[0]], shared := q.shared[1..])
  }

  /** Completion of an armed command. With result 0 the kernel has first put the request's data at
      the address it was given, and then filled the descriptor. A write longer than one tag's
      buffer runs into the next tag's. */
  function DoComplete(q: Queue, tag: nat, res: int, d: Desc, data: seq<byte>): Queue
    requires Shape(q) && tag < q.c.depth && CanComplete(q, tag, d, data)
  {
    var r := q.(cq := q.cq + [Cqe(q.armed[tag].userData, res)], armed := q.armed - {tag});
    if res != 0 then r
    else
      var mem := Splice(q.mem, q.armed[tag].cmd.addr - q.c.base, data);
      r.(descs := q.descs[tag := d], mem := mem,
         issued := q.issued[tag := q.issued[tag] + [Request(d, TagBuffer(mem, tag))]])
  }

  /** Of the data, what lies in the tag memory. */
  predicate CanComplete(q: Queue, tag: nat, d: Desc, data: seq<byte>) {
    && tag in q.armed
    && q.c.base <= q.armed[tag].cmd.addr
    && |data| <= DataLimit(q.c, d)
    && q.armed[tag].cmd.addr - q.c.base + |data| <= |q.mem|
  }

  // ---- Runs ----

  predicate Enabled(q: Queue, s: Step)
    requires Shape(q)
  {
    match s
    case PrimeTag => q.phase.Priming? && q.primed < q.c.depth
    case Flush(_) => q.phase.PrimeFlush? || (q.phase.Handling? && q.batch == [])
    case Drain(n) => q.phase.Idle? && n <= |q.cq|
    case WaitError => q.phase.Idle?
    case Take => q.phase.Handling? && q.batch != []
    case Serve(pool) => q.phase.Serving? && q.phase.tag < q.c.depth && |pool| == MAX_POOLED
    case CommitTag => q.phase.Committing? && q.phase.tag < q.c.depth
    case Consume => q.shared != []
    case Complete(tag, _, d, data) => tag < q.c.depth && CanComplete(q, tag, d, data)
  }

  function Apply(q: Queue, s: Step): (r: Queue)
    requires Shape(q) && Enabled(q, s)
    ensures Shape(r) && r.c == q.c && |r.disk| == |q.disk|
  {
    match s
    case PrimeTag => DoPrime(q)
    case Flush(ok) => DoFlush(q, ok)
    case Drain(n) => DoDrain(q, n)
    case WaitError => q.(phase := Stopped(WaitFailed))
    case Take => DoTake(q)
    case Serve(pool) => DoServe(q, pool)
    case CommitTag => DoCommit(q)
    case Consume => DoConsume(q)
    case Complete(tag, res, d, data) => DoComplete(q, tag, res, d, data)
  }

  /** The state a run reaches, if every step of it is enabled in turn. */
  datatype Reached = Nowhere | At(q: Queue)

  function Run(q: Queue, steps: seq<Step>): (r: Reached)
    requires Shape(q)
    ensures r.At? ==> Shape(r.q) && r.q.c == q.c
    decreases |steps|
  {
    if steps == [] then At(q)
    else
      var n := |steps| - 1;
      var before := Run(q, steps[..n]);
      if before.At? && Enabled(before.q, steps[n]) then At(Apply(before.q, steps[n])) else Nowhere
  }

  lemma RunExtends(q: Queue, steps: seq<Step>, s: Step)
    requires Shape(q)
    requires Run(q, steps).At? && Enabled(Run(q, steps).q, s)
    ensures Run(q, steps + [s]) == At(Apply(Run(q, steps).q, s))
  {
    assert (steps + [s])[..|steps|] == steps;
  }

  // ---- Runs, state by state ----

  /** Where a step leads, if it is enabled. */
  function Next(q: Queue, s: Step): Reached {
    if Shape(q) && Enabled(q, s) then At(Apply(q, s)) else Nowhere
  }

  /** Step s leads from q to r. */
  predicate Follows(q: Queue, s: Step, r: Queue) {
    Next(q, s) == At(r)
  }

  /** The states a run passes through. */
  ghost predicate Trace(q0: Queue, steps: seq<Step>, states: seq<Queue>, q: Queue) {
    && |states| == |steps| + 1 && states[0] == q0 && states[|steps|] == q
    && forall i {:trigger steps[i]} :: 0 <= i < |steps| ==> Follows(states[i], steps[i], states[i + 1])
  }

  /** The steps are a run from q0 to q. */
  ghost predicate Leads(q0: Queue, steps: seq<Step>, q: Queue) {
    exists states: seq<Queue> :: Trace(q0, steps, states, q)
  }

  lemma LeadsNowhere(q0: Queue)
    ensures Leads(q0, [], q0)
  {
    assert Trace(q0, [], [q0], q0);
  }

  lemma LeadsFurther(q0: Queue, steps: seq<Step>, q: Queue, s: Step, r: Queue)
    requires Leads(q0, steps, q) && Follows(q, s, r)
    ensures Leads(q0, steps + [s], r)
  {
    var states: seq<Queue> :| Trace(q0, steps, states, q);
    var all, more := steps + [s], states + [r];
    forall i {:trigger all[i]} | 0 <= i < |all|
      ensures Follows(more[i], all[i], more[i + 1])
    {
      if i < |steps| {
        assert all[i] == steps[i];
      }
    }
    assert Trace(q0, all, more, r);
  }

  /** A trace without its last step. */
  lemma TracePrefix(q0: Queue, steps: seq<Step>, states: seq<Queue>, q: Queue)
    requires Trace(q0, steps, states, q) && steps != []
    ensures Trace(q0, steps[..|steps| - 1], states[..|steps|], states[|steps| - 1])
    ensures Follows(states[|steps| - 1], steps[|steps| - 1], q)
  {
    var n := |steps| - 1;
    var before := steps[..n];
    forall i {:trigger before[i]} | 0 <= i < |before|
      ensures Follows(states[..|steps|][i], before[i], states[..|steps|][i + 1])
    {
      assert before[i] == steps[i];
    }
    assert Follows(states[n], steps[n], states[n + 1]);
  }

  lemma {:induction false} TraceRuns(q0: Queue, steps: seq<Step>, states: seq<Queue>, q: Queue)
    requires Shape(q0) && Trace(q0, steps, states, q)
    ensures Run(q0, steps) == At(q)
    decreases |steps|
  {
    if steps == [] {
    } else {
      TracePrefix(q0, steps, states, q);
      TraceRuns(q0, steps[..|steps| - 1], states[..|steps|], states[|steps| - 1]);
    }
  }

  lemma LeadsRuns(q0: Queue, steps: seq<Step>, q: Queue)
    requires Shape(q0) && Leads(q0, steps, q)
    ensures Run(q0, steps) == At(q)
  {
    var states: seq<Queue> :| Trace(q0, steps, states, q);
    TraceRuns(q0, steps, states, q);
  }

  /** Some run leads from q to r. */
  ghost predicate Advances(q: Queue, r: Queue) {
    exists steps: seq<Step> :: Leads(q, steps, r)
  }

  lemma AdvancesNowhere(q: Queue)
    ensures Advances(q, q)
  {
    LeadsNowhere(q);
  }

  lemma AdvancesStep(q0: Queue, q: Queue, s: Step, r: Queue)
    requires Advances(q0, q) && Follows(q, s, r)
    ensures Advances(q0, r)
  {
    var steps: seq<Step> :| Leads(q0, steps, q);
    LeadsFurther(q0, steps, q, s, r);
  }

  lemma {:induction false} LeadsOn(
    q0: Queue, before: seq<Step>, q: Queue, steps: seq<Step>, states: seq<Queue>, r: Queue)
    requires Leads(q0, before, q) && Trace(q, steps, states, r)
    ensures Leads(q0, before + steps, r)
    decreases |steps|
  {
    if steps == [] {
      assert before + steps == before;
    } else {
      var n := |steps| - 1;
      TracePrefix(q, steps, states, r);
      LeadsOn(q0, before, q, steps[..n], states[..|steps|], states[n]);
      LeadsFurther(q0, before + steps[..n], states[n], steps[n], r);
      assert before + steps[..n] + [steps[n]] == before + steps;
    }
  }

  lemma AdvancesOn(q0: Queue, q: Queue, r: Queue)
    requires Advances(q0, q) && Advances(q, r)
    ensures Advances(q0, r)
  {
    var before: seq<Step> :| Leads(q0, before, q);
    var steps: seq<Step> :| Leads(q, steps, r);
    var states: seq<Queue> :| Trace(q, steps, states, r);
    LeadsOn(q0, before, q, steps, states, r);
  }
}
