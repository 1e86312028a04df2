/** The lock-free maximum of RecordQueueDepth: any number of concurrent recorders, each loading the
    maximum, giving up when it is large enough, and otherwise trying to swap its own depth in, again
    and again until one of the two happens. */
module QueueDepthMax {

  datatype Pc = Loading | Swapping(loaded: nat) | Done

  datatype Recorder = Recorder(depth: nat, pc: Pc)

  datatype State = State(max: nat, recorders: seq<Recorder>)

  function Init(depths: seq<nat>): State {
    State(0, seq(|depths|, i requires 0 <= i < |depths| => Recorder(depths[i], Loading)))
  }

  predicate Enabled(s: State, t: nat) {
    t < |s.recorders| && !s.recorders[t].pc.Done?
  }

  /** One atomic access of recorder t. */
  function Step(s: State, t: nat): State
    requires Enabled(s, t)
  {
    var r := s.recorders[t];
    match r.pc
    case Loading =>
      s.(recorders := s.recorders[t := r.(pc := if r.depth <= s.max then Done else Swapping(s.max))])
    case Swapping(loaded) =>
      if s.max == loaded then State(r.depth, s.recorders[t := r.(pc := Done)])
      else s.(recorders := s.recorders[t := r.(pc := Loading)])
  }

  ghost predicate Inv(s: State) {
    && (s.max == 0 || exists t :: 0 <= t < |s.recorders| && s.recorders[t].depth == s.max)
    && (forall t :: 0 <= t < |s.recorders| ==>
          match s.recorders[t].pc
          case Loading => true
          case Swapping(loaded) => loaded <= s.max && loaded < s.recorders[t].depth
          case Done => s.recorders[t].depth <= s.max)
  }

  /** The maximum never decreases, and the invariant is kept. */
  lemma StepInv(s: State, t: nat)
    requires Inv(s) && Enabled(s, t)
    ensures Inv(Step(s, t)) && s.max <= Step(s, t).max
    ensures |Step(s, t).recorders| == |s.recorders|
    ensures forall u :: 0 <= u < |s.recorders| ==> Step(s, t).recorders[u].depth == s.recorders[u].depth
  {
    var r := Step(s, t);
    if r.max != 0 {
      if r.max == s.max {
        var u :| 0 <= u < |s.recorders| && s.recorders[u].depth == s.max;
        assert r.recorders[u].depth == r.max;
      } else {
        assert r.recorders[t].depth == r.max;
      }
    }
  }

  /** A failed swap leaves the recorder strictly nearer to the maximum than when it loaded it. */
  lemma FailedSwapGains(s: State, t: nat)
    requires Inv(s) && Enabled(s, t) && s.recorders[t].pc.Swapping? && s.max != s.recorders[t].pc.loaded
    ensures s.recorders[t].depth - s.max < s.recorders[t].depth - s.recorders[t].pc.loaded
  {
  }

  datatype Reached = Nowhere | At(s: State)

  function Run(s: State, schedule: seq<nat>): Reached
    decreases |schedule|
  {
    if schedule == [] then At(s)
    else
      var n := |schedule| - 1;
      var before := Run(s, schedule[..n]);
      if before.At? && Enabled(before.s, schedule[n]) then At(Step(before.s, schedule[n])) else Nowhere
  }

  // ---- Termination ----

  function Gap(depth: nat, max: nat): nat {
    if depth > max then depth - max else 0
  }

  /** A bound on the accesses a recorder has left. */
  function Left(max: nat, r: Recorder): nat {
    match r.pc
    case Loading => 2 * Gap(r.depth, max) + 1
    case Swapping(loaded) => 2 * Gap(r.depth, loaded)
    case Done => 0
  }

  function Total(max: nat, rs: seq<Recorder>): nat {
    if rs == [] then 0 else Left(max, rs[0]) + Total(max, rs[1..])
  }

  lemma {:induction false} TotalFalls(max: nat, max': nat, rs: seq<Recorder>, t: nat, r: Recorder)
    requires t < |rs| && max <= max' && Left(max', r) < Left(max, rs[t])
    ensures Total(max', rs[t := r]) < Total(max, rs)
    decreases |rs|
  {
    if t == 0 {
      assert rs[0 := r][1..] == rs[1..];
      TotalNotAbove(max, max', rs[1..]);
    } else {
      TotalFalls(max, max', rs[1..], t - 1, r);
      assert rs[t := r][1..] == rs[1..][t - 1 := r];
    }
  }

  lemma {:induction false} TotalNotAbove(max: nat, max': nat, rs: seq<Recorder>)
    requires max <= max'
    ensures Total(max', rs) <= Total(max, rs)
    decreases |rs|
  {
    if rs == [] {
    } else {
      TotalNotAbove(max, max', rs[1..]);
    }
  }

  lemma StepFalls(s: State, t: nat)
    requires Inv(s) && Enabled(s, t)
    ensures Total(Step(s, t).max, Step(s, t).recorders) < Total(s.max, s.recorders)
  {
    var r := Step(s, t);
    TotalFalls(s.max, r.max, s.recorders, t, r.recorders[t]);
  }

  // ---- Whole runs ----

  /** Whatever the schedule: it is no longer than the accesses there can be; the maximum is zero or a
      recorded depth throughout; and when all recorders are done it is the largest depth recorded. */
  lemma {:induction false} MaximumIsExact(depths: seq<nat>, schedule: seq<nat>)
    requires Run(Init(depths), schedule).At?
    ensures
      var s := Run(Init(depths), schedule).s;
      && Inv(s) && |s.recorders| == |depths| && (forall t :: 0 <= t < |depths| ==> s.recorders[t].depth == depths[t])
      && |schedule| + Total(s.max, s.recorders) <= Total(0, Init(depths).recorders)
      && (s.max == 0 || s.max in depths)
      && ((forall t :: 0 <= t < |depths| ==> !Enabled(s, t)) ==> forall t :: 0 <= t < |depths| ==> depths[t] <= s.max)
    decreases |schedule|
  {
    if schedule == [] {
    } else {
      var n := |schedule| - 1;
      MaximumIsExact(depths, schedule[..n]);
      var s := Run(Init(depths), schedule[..n]).s;
      StepInv(s, schedule[n]);
      StepFalls(s, schedule[n]);
    }
    var s := Run(Init(depths), schedule).s;
    if s.max != 0 {
      var t :| 0 <= t < |s.recorders| && s.recorders[t].depth == s.max;
      assert depths[t] == s.max;
    }
    if forall t :: 0 <= t < |depths| ==> !Enabled(s, t) {
      forall t | 0 <= t < |depths| ensures depths[t] <= s.max {
        assert !Enabled(s, t);
        assert s.recorders[t].depth == depths[t];
      }
    }
  }

  /** The maximum never decreases along a run. */
  lemma {:induction false} MaximumNeverFalls(depths: seq<nat>, schedule: seq<nat>, m: nat)
    requires m <= |schedule| && Run(Init(depths), schedule).At?
    ensures Run(Init(depths), schedule[..m]).At?
    ensures Run(Init(depths), schedule[..m]).s.max <= Run(Init(depths), schedule).s.max
    decreases |schedule|
  {
    if m == |schedule| {
      assert schedule[..m] == schedule;
    } else {
      var n := |schedule| - 1;
      MaximumNeverFalls(depths, schedule[..n], m);
      assert schedule[..n][..m] == schedule[..m];
      MaximumIsExact(depths, schedule[..n]);
      StepInv(Run(Init(depths), schedule[..n]).s, schedule[n]);
    }
  }
}
