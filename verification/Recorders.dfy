/** Many runners record into the same counters at once. A recording is a sequence of atomic additions,
    as RecordRead, RecordWrite, RecordDiscard and RecordFlush make them, and the additions of different
    recordings interleave in any way. */
module Recorders {
  import opened Words
  import opened Metrics

  datatype Kind = Reads | Writes | Discards | Flushes

  datatype Counter =
    | Ops(kind: Kind)
    | Bytes(kind: Kind)
    | Errors(kind: Kind)
    | TotalLatency
    | OpCount
    | Bucket(i: nat)

  datatype Add = Add(counter: Counter, amount: nat)

  /** One completed operation, as it is recorded. */
  datatype Operation = Operation(kind: Kind, bytes: nat, latency: nat, success: bool)

  /** The loop over the buckets, from i on. */
  function BucketAdds(latency: nat, i: nat): seq<Add>
    requires i <= BUCKETS
    decreases BUCKETS - i
  {
    if i == BUCKETS then []
    else (if latency <= BOUNDS[i] then [Add(Bucket(i), 1)] else []) + BucketAdds(latency, i + 1)
  }

  /** The additions before the loop. */
  function FirstAdds(o: Operation): seq<Add> {
    [Add(Ops(o.kind), 1)]
    + (if !o.success then [Add(Errors(o.kind), 1)] else if o.kind.Flushes? then [] else [Add(Bytes(o.kind), o.bytes)])
    + [Add(TotalLatency, o.latency)]
    + [Add(OpCount, 1)]
  }

  /** The additions of one recording, in the order the code makes them. */
  function Adds(o: Operation): seq<Add> {
    FirstAdds(o) + BucketAdds(o.latency, 0)
  }

  function Plans(os: seq<Operation>): (plans: seq<seq<Add>>)
    ensures |plans| == |os|
  {
    if os == [] then [] else Plans(os[..|os| - 1]) + [Adds(os[|os| - 1])]
  }

  /** A recording and how many of its additions it has made. */
  datatype Recorder = Recorder(adds: seq<Add>, done: nat)

  datatype State = State(counters: map<Counter, nat>, recorders: seq<Recorder>)

  function Value(counters: map<Counter, nat>, c: Counter): nat {
    if c in counters then counters[c] else 0
  }

  function Init(plans: seq<seq<Add>>): State {
    State(map[], seq(|plans|, i requires 0 <= i < |plans| => Recorder(plans[i], 0)))
  }

  predicate Enabled(s: State, t: nat) {
    t < |s.recorders| && s.recorders[t].done < |s.recorders[t].adds|
  }

  /** One atomic addition. */
  function Step(s: State, t: nat): State
    requires Enabled(s, t)
  {
    var r := s.recorders[t];
    var a := r.adds[r.done];
    State(s.counters[a.counter := Value(s.counters, a.counter) + a.amount],
          s.recorders[t := Recorder(r.adds, r.done + 1)])
  }

  datatype Reached = Nowhere | At(s: State)

  function Run(s: State, schedule: seq<nat>): Reached
    decreases |schedule|
  {
    if schedule == [] then At(s)
    else
      var n := |schedule| - 1;
      var before := Run(s, schedule[..n]);
      if before.At? && Enabled(before.s, schedule[n]) then At(Step(before.s, schedule[n])) else Nowhere
  }

  // ---- What the counters hold at any time ----

  /** How much a list of additions adds to a counter. */
  function Amount(adds: seq<Add>, c: Counter): nat {
    if adds == [] then 0
    else Amount(adds[..|adds| - 1], c) + if adds[|adds| - 1].counter == c then adds[|adds| - 1].amount else 0
  }

  /** How much the recorders have added to a counter so far. */
  function Added(rs: seq<Recorder>, c: Counter): nat
    requires forall i :: 0 <= i < |rs| ==> rs[i].done <= |rs[i].adds|
  {
    if rs == [] then 0
    else
      var r := rs[|rs| - 1];
      Added(rs[..|rs| - 1], c) + Amount(r.adds[..r.done], c)
  }

  lemma {:induction false} AddedUpdate(rs: seq<Recorder>, t: nat, c: Counter)
    requires (forall i :: 0 <= i < |rs| ==> rs[i].done <= |rs[i].adds|) && t < |rs| && rs[t].done < |rs[t].adds|
    ensures
      var r, a := rs[t], rs[t].adds[rs[t].done];
      Added(rs[t := Recorder(r.adds, r.done + 1)], c) == Added(rs, c) + if a.counter == c then a.amount else 0
    decreases |rs|
  {
    var r := rs[t];
    var n := |rs| - 1;
    var changed := rs[t := Recorder(r.adds, r.done + 1)];
    if t == n {
      assert changed[..n] == rs[..n];
      assert r.adds[..r.done + 1][..r.done] == r.adds[..r.done];
    } else {
      AddedUpdate(rs[..n], t, c);
      assert changed[..n] == rs[..n][t := Recorder(r.adds, r.done + 1)];
    }
  }

  ghost predicate Inv(plans: seq<seq<Add>>, s: State) {
    && |s.recorders| == |plans|
    && (forall i :: 0 <= i < |plans| ==> s.recorders[i].adds == plans[i] && s.recorders[i].done <= |plans[i]|)
    && (forall c :: Value(s.counters, c) == Added(s.recorders, c))
  }

  lemma {:induction false} NothingAdded(rs: seq<Recorder>, c: Counter)
    requires forall i :: 0 <= i < |rs| ==> rs[i].done == 0
    ensures Added(rs, c) == 0
    decreases |rs|
  {
    if rs == [] {
    } else {
      NothingAdded(rs[..|rs| - 1], c);
    }
  }

  lemma StepInv(plans: seq<seq<Add>>, s: State, t: nat)
    requires Inv(plans, s) && Enabled(s, t)
    ensures Inv(plans, Step(s, t))
  {
    var r := Step(s, t);
    forall c
      ensures Value(r.counters, c) == Added(r.recorders, c)
    {
      AddedUpdate(s.recorders, t, c);
    }
  }

  lemma {:induction false} RunInv(plans: seq<seq<Add>>, schedule: seq<nat>)
    requires Run(Init(plans), schedule).At?
    ensures Inv(plans, Run(Init(plans), schedule).s)
    decreases |schedule|
  {
    if schedule == [] {
      forall c
        ensures Value(map[], c) == Added(Init(plans).recorders, c)
      {
        NothingAdded(Init(plans).recorders, c);
      }
    } else {
      var n := |schedule| - 1;
      RunInv(plans, schedule[..n]);
      StepInv(plans, Run(Init(plans), schedule[..n]).s, schedule[n]);
    }
  }

  /** How much complete recordings have added to a counter. */
  function Amounts(plans: seq<seq<Add>>, c: Counter): nat {
    if plans == [] then 0 else Amounts(plans[..|plans| - 1], c) + Amount(plans[|plans| - 1], c)
  }

  lemma {:induction false} AllAdded(plans: seq<seq<Add>>, rs: seq<Recorder>, c: Counter)
    requires |rs| == |plans| && forall i :: 0 <= i < |plans| ==> rs[i] == Recorder(plans[i], |plans[i]|)
    ensures Added(rs, c) == Amounts(plans, c)
    decreases |plans|
  {
    if plans == [] {
    } else {
      var n := |plans| - 1;
      AllAdded(plans[..n], rs[..n], c);
      assert rs[n].adds[..rs[n].done] == plans[n];
    }
  }

  /** Whatever the additions and their interleaving, once all are made each counter holds their sum. */
  lemma SumAtQuiescence(plans: seq<seq<Add>>, schedule: seq<nat>, c: Counter)
    requires Run(Init(plans), schedule).At?
    requires forall t: nat :: !Enabled(Run(Init(plans), schedule).s, t)
    ensures Value(Run(Init(plans), schedule).s.counters, c) == Amounts(plans, c)
  {
    RunInv(plans, schedule);
    var s := Run(Init(plans), schedule).s;
    forall i | 0 <= i < |plans|
      ensures s.recorders[i] == Recorder(plans[i], |plans[i]|)
    {
      assert !Enabled(s, i);
    }
    AllAdded(plans, s.recorders, c);
  }

  // ---- What they hold when nobody is recording ----

  lemma {:induction false} AmountAppend(a: seq<Add>, b: seq<Add>, c: Counter)
    ensures Amount(a + b, c) == Amount(a, c) + Amount(b, c)
    decreases |b|
  {
    if b == [] {
      assert a + b == a;
    } else {
      var n := |b| - 1;
      assert (a + b)[..|a + b| - 1] == a + b[..n];
      AmountAppend(a, b[..n], c);
    }
  }

  lemma AmountOne(a: Add, c: Counter)
    ensures Amount([a], c) == if a.counter == c then a.amount else 0
  {
    assert [a][..0] == [];
  }

  lemma {:induction false} BucketAmounts(latency: nat, i: nat, c: Counter)
    requires i <= BUCKETS
    ensures Amount(BucketAdds(latency, i), c)
      == if c.Bucket? && i <= c.i < BUCKETS && latency <= BOUNDS[c.i] then 1 else 0
    decreases BUCKETS - i
  {
    if i == BUCKETS {
    } else {
      var first := if latency <= BOUNDS[i] then [Add(Bucket(i), 1)] else [];
      BucketAmounts(latency, i + 1, c);
      AmountAppend(first, BucketAdds(latency, i + 1), c);
      AmountOne(Add(Bucket(i), 1), c);
    }
  }

  /** What one recording adds to a counter in all. */
  function Share(o: Operation, c: Counter): nat {
    match c
    case Ops(k) => if k == o.kind then 1 else 0
    case Bytes(k) => if k == o.kind && o.success && !k.Flushes? then o.bytes else 0
    case Errors(k) => if k == o.kind && !o.success then 1 else 0
    case TotalLatency => o.latency
    case OpCount => 1
    case Bucket(i) => if i < BUCKETS && o.latency <= BOUNDS[i] then 1 else 0
  }

  lemma AmountOfFour(a: Add, result: seq<Add>, b: Add, d: Add, c: Counter)
    ensures Amount([a] + result + [b] + [d], c) == Amount([a], c) + Amount(result, c) + Amount([b], c) + Amount([d], c)
  {
    AmountAppend([a] + result + [b], [d], c);
    AmountAppend([a] + result, [b], c);
    AmountAppend([a], result, c);
  }

  lemma FirstAmounts(o: Operation, c: Counter)
    ensures Amount(FirstAdds(o), c) == if c.Bucket? then 0 else Share(o, c)
  {
    var ops, total, count := Add(Ops(o.kind), 1), Add(TotalLatency, o.latency), Add(OpCount, 1);
    AmountOne(ops, c);
    AmountOne(total, c);
    AmountOne(count, c);
    if !o.success {
      AmountOfFour(ops, [Add(Errors(o.kind), 1)], total, count, c);
      AmountOne(Add(Errors(o.kind), 1), c);
    } else if o.kind.Flushes? {
      AmountOfFour(ops, [], total, count, c);
    } else {
      AmountOfFour(ops, [Add(Bytes(o.kind), o.bytes)], total, count, c);
      AmountOne(Add(Bytes(o.kind), o.bytes), c);
    }
  }

  lemma RecordingAmounts(o: Operation, c: Counter)
    ensures Amount(Adds(o), c) == Share(o, c)
  {
    AmountAppend(FirstAdds(o), BucketAdds(o.latency, 0), c);
    FirstAmounts(o, c);
    BucketAmounts(o.latency, 0, c);
  }

  function Shares(os: seq<Operation>, c: Counter): nat {
    if os == [] then 0 else Shares(os[..|os| - 1], c) + Share(os[|os| - 1], c)
  }

  lemma {:induction false} PlansAmount(os: seq<Operation>, c: Counter)
    ensures Amounts(Plans(os), c) == Shares(os, c)
    decreases |os|
  {
    if os == [] {
    } else {
      var n := |os| - 1;
      PlansAmount(os[..n], c);
      RecordingAmounts(os[n], c);
      AmountsNext(Plans(os[..n]), Adds(os[n]), c);
    }
  }

  lemma AmountsNext(plans: seq<seq<Add>>, plan: seq<Add>, c: Counter)
    ensures Amounts(plans + [plan], c) == Amounts(plans, c) + Amount(plan, c)
  {
    assert (plans + [plan])[..|plans|] == plans;
  }

  /** The latencies recorded, in any order one likes to write the operations. */
  function Latencies(os: seq<Operation>): (h: seq<nat>)
    ensures |h| == |os|
  {
    if os == [] then [] else Latencies(os[..|os| - 1]) + [os[|os| - 1].latency]
  }

  lemma {:induction false} SharesOfLatencies(os: seq<Operation>, i: nat)
    requires i < BUCKETS
    ensures Shares(os, Bucket(i)) == CountLe(Latencies(os), BOUNDS[i])
    ensures Shares(os, OpCount) == |os| && Shares(os, TotalLatency) == Sum(Latencies(os))
    decreases |os|
  {
    if os == [] {
    } else {
      var n := |os| - 1;
      SharesOfLatencies(os[..n], i);
      CountAppend(Latencies(os[..n]), os[n].latency, BOUNDS[i]);
    }
  }

  /** Whatever the interleaving, once every recording is complete each counter holds the sum of what the
      recordings add to it: each bucket is the number of latencies at most its bound, and the operation
      count, total latency, operations, bytes and errors of each kind are exact. */
  lemma ExactAtQuiescence(os: seq<Operation>, schedule: seq<nat>, c: Counter)
    requires Run(Init(Plans(os)), schedule).At?
    requires forall t: nat :: !Enabled(Run(Init(Plans(os)), schedule).s, t)
    ensures
      var counters := Run(Init(Plans(os)), schedule).s.counters;
      && Value(counters, c) == Shares(os, c)
      && Value(counters, OpCount) == |os| && Value(counters, TotalLatency) == Sum(Latencies(os))
      && forall i :: 0 <= i < BUCKETS ==> Value(counters, Bucket(i)) == Counts(Latencies(os))[i]
  {
    CounterAtQuiescence(os, schedule, c);
    CounterAtQuiescence(os, schedule, OpCount);
    CounterAtQuiescence(os, schedule, TotalLatency);
    SharesOfLatencies(os, 0);
    forall i | 0 <= i < BUCKETS
      ensures Value(Run(Init(Plans(os)), schedule).s.counters, Bucket(i)) == Counts(Latencies(os))[i]
    {
      CounterAtQuiescence(os, schedule, Bucket(i));
      SharesOfLatencies(os, i);
    }
  }

  lemma CounterAtQuiescence(os: seq<Operation>, schedule: seq<nat>, c: Counter)
    requires Run(Init(Plans(os)), schedule).At?
    requires forall t: nat :: !Enabled(Run(Init(Plans(os)), schedule).s, t)
    ensures Value(Run(Init(Plans(os)), schedule).s.counters, c) == Shares(os, c)
  {
    SumAtQuiescence(Plans(os), schedule, c);
    PlansAmount(os, c);
  }
}
