/** Bounded progress of one queue: left alone, the runner finishes its batch within a number of steps
    known beforehand, with every request it had drained answered. */
module ProtocolProgress {
  import opened Words
  import opened FlatDisk
  import opened Ublk
  import opened Shards
  import opened RequestIo
  import opened Protocol
  import opened ProtocolTokens
  import opened ProtocolSafety
  import opened ProtocolData
  import opened ProtocolTheorems

  predicate AtRest(q: Queue) {
    q.phase.Idle? || q.phase.Stopped?
  }

  /** The runner's next step, its system calls succeeding. */
  function NextStep(q: Queue): Step
    requires !AtRest(q)
  {
    match q.phase
    case Priming => PrimeTag
    case PrimeFlush => Flush(true)
    case Handling => if q.batch == [] then Flush(true) else Take
    case Serving(_) => Serve(Zeros(MAX_POOLED))
    case Committing(_, _, _) => CommitTag
  }

  /** How many steps the runner needs at most to come to rest. */
  function StepsLeft(q: Queue): int {
    match q.phase
    case Priming => 2 * (q.c.depth - q.primed)
    case PrimeFlush => 2 * (q.c.depth - q.primed) + 1
    case Handling => 3 * |q.batch| + 1
    case Serving(_) => 3 * |q.batch| + 3
    case Committing(_, _, _) => 3 * |q.batch| + 2
    case Idle => 0
    case Stopped(_) => 0
  }

  /** A request that does not panic. */
  predicate Servable(c: Config, d: Desc) {
    IsEmpty(d) || (Length(c, d) <= MAX_POOLED && (TouchesDisk(GetOp(d)) ==> Offset(c, d) >= 0))
  }

  /** What is left of the batch completed without error and brought servable requests. */
  ghost predicate Clean(q: Queue)
    requires Shape(q)
  {
    && !q.phase.Stopped?
    && (forall i :: 0 <= i < |q.batch| ==>
          q.batch[i].res == 0
          && (DecodeTag(q.batch[i].userData) < q.c.depth ==> Servable(q.c, q.descs[DecodeTag(q.batch[i].userData)])))
    && (q.phase.Serving? && q.phase.tag < q.c.depth ==> Servable(q.c, q.descs[q.phase.tag]))
  }

  lemma ServesServable(q: Queue, pool: seq<byte>)
    requires Shape(q) && Enabled(q, Serve(pool)) && Servable(q.c, q.descs[q.phase.tag])
    ensures DoServe(q, pool).phase.Committing?
  {
    var tag := q.phase.tag;
    CallPanicsExactlyWhen(|q.disk|, Offset(q.c, q.descs[tag]), Length(q.c, q.descs[tag]));
  }

  lemma NextStepFalls(q: Queue)
    requires TokenInv(q) && !AtRest(q)
    ensures Enabled(q, NextStep(q)) && 0 <= StepsLeft(Apply(q, NextStep(q))) < StepsLeft(q)
  {
  }

  lemma TakeClean(q: Queue)
    requires TokenInv(q) && Clean(q) && q.phase.Handling? && q.batch != []
    ensures Clean(DoTake(q))
  {
    var t := DecodeTag(q.batch[0].userData);
    assert GoodCqe(q.c, q.tagState, q.primed, q.batch[0]) && q.batch[0].res == 0;
    TakeServes(q, t);
    var r := DoTake(q);
    assert r.batch == q.batch[1..] && r.descs == q.descs;
    forall i | 0 <= i < |r.batch|
      ensures r.batch[i].res == 0
        && (DecodeTag(r.batch[i].userData) < r.c.depth ==> Servable(r.c, r.descs[DecodeTag(r.batch[i].userData)]))
    {
      assert r.batch[i] == q.batch[i + 1];
    }
  }

  /** Without an error to handle, the runner's next step meets none. */
  lemma NextStepClean(q: Queue)
    requires TokenInv(q) && Clean(q) && !AtRest(q)
    ensures Enabled(q, NextStep(q)) && Clean(Apply(q, NextStep(q)))
  {
    NextStepFalls(q);
    StepTokens(q, NextStep(q));
    if q.phase.Handling? && q.batch != [] {
      TakeClean(q);
    } else if q.phase.Serving? {
      ServesServable(q, Zeros(MAX_POOLED));
    }
  }

  predicate RunnerStep(s: Step) {
    s.PrimeTag? || s.Flush? || s.Take? || s.Serve? || s.CommitTag?
  }

  /** The errors a completion or a request can bring about. */
  predicate Deserved(e: Error) {
    e.NeedGetData? || e.UnexpectedFetch? || e.CommitError? || e.UnexpectedCommit? || e.IoPanic?
  }

  lemma NextStepStops(q: Queue)
    requires TokenInv(q) && !AtRest(q) && Enabled(q, NextStep(q)) && Apply(q, NextStep(q)).phase.Stopped?
    ensures Deserved(Apply(q, NextStep(q)).phase.err)
  {
    StepTokens(q, NextStep(q));
  }

  /** How a run that began in q has come to rest in r. */
  ghost predicate Rests(q: Queue, r: Queue) {
    && Shape(q) && AtRest(r)
    && (r.phase.Stopped? && !q.phase.Stopped? ==> Deserved(r.phase.err))
    && (Clean(q) ==> r.phase.Idle?)
  }

  /** Where the runner's next step leads. */
  ghost predicate Advances(q: Queue, r: Queue) {
    && Shape(q) && Shape(r) && !q.phase.Stopped?
    && 0 <= StepsLeft(r) < StepsLeft(q)
    && (r.phase.Stopped? ==> Deserved(r.phase.err))
    && (Clean(q) ==> Clean(r))
  }

  lemma NextStepAdvances(c: Config, disk0: seq<byte>, steps: seq<Step>, q: Queue) returns (s: Step, r: Queue)
    requires ValidConfig(c) && Run(Init(c, disk0), steps) == At(q) && !AtRest(q)
    ensures RunnerStep(s) && Advances(q, r) && Run(Init(c, disk0), steps + [s]) == At(r)
  {
    s := NextStep(q);
    RunTokens(c, disk0, steps);
    NextStepFalls(q);
    if Clean(q) {
      NextStepClean(q);
    }
    if Apply(q, NextStep(q)).phase.Stopped? {
      NextStepStops(q);
    }
    RunExtends(Init(c, disk0), steps, s);
    r := Apply(q, s);
  }

  lemma RestsLater(q: Queue, r: Queue, end: Queue)
    requires Advances(q, r) && Rests(r, end) && (r.phase.Stopped? ==> end == r)
    ensures Rests(q, end)
  {
  }

  lemma StepsLeftNat(q: Queue)
    requires Shape(q)
    ensures StepsLeft(q) >= 0
  {
  }

  /** Run all continues run steps with the runner's own steps. */
  ghost predicate Continues(steps: seq<Step>, all: seq<Step>) {
    steps <= all && forall i :: |steps| <= i < |all| ==> RunnerStep(all[i])
  }

  lemma ContinuesOne(steps: seq<Step>, s: Step, all: seq<Step>)
    requires RunnerStep(s) && Continues(steps + [s], all)
    ensures Continues(steps, all)
  {
    assert all[|steps|] == s;
  }

  /** From every reachable state the runner alone comes to rest within StepsLeft steps: idle, or stopped
      for an error that a completion or a request has brought about; and idle if there is none. */
  lemma {:induction false} ComesToRest(c: Config, disk0: seq<byte>, steps: seq<Step>, q: Queue)
    returns (all: seq<Step>, end: Queue)
    requires ValidConfig(c) && Run(Init(c, disk0), steps) == At(q)
    ensures Continues(steps, all) && |all| - |steps| <= StepsLeft(q)
    ensures Run(Init(c, disk0), all) == At(end) && Rests(q, end)
    ensures q.phase.Stopped? ==> end == q
    decreases StepsLeft(q)
  {
    StepsLeftNat(q);
    if AtRest(q) {
      all, end := steps, q;
    } else {
      var s, r := NextStepAdvances(c, disk0, steps, q);
      all, end := ComesToRest(c, disk0, steps + [s], r);
      ContinuesOne(steps, s, all);
      RestsLater(q, r, end);
    }
  }

  /** At rest in the loop, every request is answered except those whose completion is still undrained. */
  lemma RestedHasAnswered(c: Config, disk0: seq<byte>, steps: seq<Step>, t: nat)
    requires ValidConfig(c) && Run(Init(c, disk0), steps).At? && Run(Init(c, disk0), steps).q.phase.Idle?
    requires t < c.depth
    ensures
      var q := Run(Init(c, disk0), steps).q;
      |q.issued[t]| == |q.served[t]| + if HasOk(q.cq, t) then 1 else 0
  {
    QuietBetweenIterations(c, disk0, steps);
    RunInv(c, disk0, steps);
    var q := Run(Init(c, disk0), steps).q;
    assert q.failed == {};
    AnsweredOnce(c, disk0, steps, t);
  }

  // ---- With the kernel running ----

  predicate KernelStep(s: Step) {
    s.Consume? || s.Complete?
  }

  /** The runner's steps among these. */
  function RunnerSteps(steps: seq<Step>): nat {
    if steps == [] then 0 else RunnerSteps(steps[..|steps| - 1]) + if RunnerStep(steps[|steps| - 1]) then 1 else 0
  }

  /** Every step of the runner, whatever its outcome, leaves fewer to come. */
  lemma RunnerStepFalls(q: Queue, s: Step)
    requires TokenInv(q) && Enabled(q, s) && RunnerStep(s)
    ensures 0 <= StepsLeft(Apply(q, s)) < StepsLeft(q)
  {
  }

  lemma KernelStepKeeps(q: Queue, s: Step)
    requires Shape(q) && Enabled(q, s) && KernelStep(s)
    ensures StepsLeft(Apply(q, s)) == StepsLeft(q)
  {
  }

  lemma RunnerStepsNext(steps: seq<Step>, s: Step)
    ensures RunnerSteps(steps + [s]) == RunnerSteps(steps) + if RunnerStep(s) then 1 else 0
  {
    assert (steps + [s])[..|steps|] == steps;
  }

  /** The last step of a run. */
  lemma LastStepWork(c: Config, disk0: seq<byte>, before: seq<Step>, s: Step) returns (q: Queue, r: Queue)
    requires ValidConfig(c) && Run(Init(c, disk0), before + [s]).At? && (RunnerStep(s) || KernelStep(s))
    ensures Run(Init(c, disk0), before) == At(q) && Run(Init(c, disk0), before + [s]) == At(r)
    ensures StepsLeft(r) + (if RunnerStep(s) then 1 else 0) <= StepsLeft(q)
  {
    assert (before + [s])[..|before|] == before;
    q := Run(Init(c, disk0), before).q;
    r := Apply(q, s);
    RunTokens(c, disk0, before);
    if RunnerStep(s) {
      RunnerStepFalls(q, s);
    } else {
      KernelStepKeeps(q, s);
    }
  }

  /** In every run, with the kernel's steps interleaved anyhow and whatever fails, the runner takes at most
      StepsLeft steps from any state before it waits again. */
  lemma {:induction false} BoundedWork(c: Config, disk0: seq<byte>, steps: seq<Step>, more: seq<Step>)
    returns (q: Queue, r: Queue)
    requires ValidConfig(c) && Run(Init(c, disk0), steps + more).At?
    requires forall i :: 0 <= i < |more| ==> RunnerStep(more[i]) || KernelStep(more[i])
    ensures Run(Init(c, disk0), steps) == At(q) && Run(Init(c, disk0), steps + more) == At(r)
    ensures RunnerSteps(more) + StepsLeft(r) <= StepsLeft(q) && StepsLeft(r) >= 0
    decreases |more|
  {
    if more == [] {
      assert steps + more == steps;
      q := Run(Init(c, disk0), steps).q;
      r := q;
    } else {
      var n := |more| - 1;
      var init, s := more[..n], more[n];
      assert more == init + [s];
      assert steps + more == (steps + init) + [s];
      var mid;
      mid, r := LastStepWork(c, disk0, steps + init, s);
      var end;
      q, end := BoundedWork(c, disk0, steps, init);
      RunnerStepsNext(init, s);
    }
    StepsLeftNat(r);
  }
}
