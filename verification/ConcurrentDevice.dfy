/** The whole device at the grain of its locks: the queues of MultiQueue over the sharded backend of
    ShardLocks. A queue that serves a request for the disk makes a backend call; the call's locking, byte
    copies and unlocking are interleaved with those of other queues' calls and with every other step of
    every queue and of the kernel. The request counts as served at its call's lock point, and is committed
    when the call has returned. */
module ConcurrentDevice {
  import opened Words
  import opened FlatDisk
  import opened Ublk
  import opened RequestIo
  import Protocol
  import ProtocolData
  import ProtocolTheorems
  import Progress = ProtocolProgress
  import MQ = MultiQueue
  import SL = ShardLocks

  /** The queues, the backend with all calls made so far, where in the log of requests each call's own is,
      and the call each queue is in. */
  datatype State = State(d: MQ.Device, b: SL.State, points: map<nat, nat>, calls: map<nat, nat>)

  datatype Step =
    | Begin(queue: nat)                         // the queue calls the backend
    | Inner(t: nat)                             // call t locks, copies a byte, or unlocks
    | Point(queue: nat, pool: seq<byte>)        // the queue's call holds all its locks
    | Other(queue: nat, step: Protocol.Step)    // any step of a queue that makes no call

  predicate AtLockPoint(b: SL.State, t: nat) {
    t < |b.threads| && b.threads[t].pc.Locking? && b.threads[t].pc.i > SL.Last(|b.data|, b.threads[t].op)
  }

  predicate Serving(q: MQ.Queue) {
    Protocol.Shape(q) && q.phase.Serving? && q.phase.tag < q.c.depth
  }

  function RequestOf(q: MQ.Queue): (r: Request)
    requires Serving(q)
    ensures |r.buffer| == BUF
  {
    Request(q.descs[q.phase.tag], TagBuffer(q.mem, q.phase.tag))
  }

  /** The request served is a backend call that takes locks: it does not panic before, and is on the disk. */
  predicate MakesCall(q: MQ.Queue, size: nat)
    requires Serving(q)
  {
    var m := MeaningOf(q.c, RequestOf(q));
    Progress.Servable(q.c, RequestOf(q).desc) && m.Call? && m.op.off < size
  }

  predicate Enabled(s: State, step: Step) {
    SL.Shape(s.b) &&
    match step
    case Begin(i) =>
      && i < |s.d.queues| && i !in s.calls
      && Serving(MQ.View(s.d, i)) && MakesCall(MQ.View(s.d, i), |s.b.data|)
    case Inner(t) => SL.Enabled(s.b, t) && !AtLockPoint(s.b, t)
    case Point(i, pool) =>
      && i in s.calls && AtLockPoint(s.b, s.calls[i]) && SL.Enabled(s.b, s.calls[i])
      && MQ.Enabled(s.d, i, Protocol.Serve(pool))
      && (var q := MQ.View(s.d, i);
          && Serving(q) && MakesCall(q, |s.b.data|)
          && MeaningOf(q.c, RequestOf(q)).op == s.b.threads[s.calls[i]].op)
    case Other(i, p) =>
      && MQ.Enabled(s.d, i, p)
      && (p.Serve? ==> i !in s.calls && Serving(MQ.View(s.d, i)) && !MakesCall(MQ.View(s.d, i), |s.b.data|))
      && (p.CommitTag? && i in s.calls ==> s.calls[i] < |s.b.threads| && s.b.threads[s.calls[i]].pc.Finished?)
  }

  function Apply(s: State, step: Step): State
    requires Enabled(s, step)
  {
    match step
    case Begin(i) =>
      var q := MQ.View(s.d, i);
      s.(b := SL.Spawn(s.b, MeaningOf(q.c, RequestOf(q)).op), calls := s.calls[i := |s.b.threads|])
    case Inner(t) => s.(b := SL.Step(s.b, t))
    case Point(i, pool) =>
      var t := s.calls[i];
      State(MQ.Apply(s.d, i, Protocol.Serve(pool)), SL.Step(s.b, t), s.points[t := |s.d.log|], s.calls)
    case Other(i, p) => s.(d := MQ.Apply(s.d, i, p), calls := if p.CommitTag? then s.calls - {i} else s.calls)
  }

  predicate ValidConfigs(cs: seq<Config>) {
    forall i :: 0 <= i < |cs| ==> ValidConfig(cs[i])
  }

  function Init(cs: seq<Config>, disk: seq<byte>): State
    requires ValidConfigs(cs)
  {
    State(MQ.Init(cs, disk), SL.Init(disk, []), map[], map[])
  }

  datatype Reached = Nowhere | At(s: State)

  function Run(s: State, steps: seq<Step>): Reached
    decreases |steps|
  {
    if steps == [] then At(s)
    else
      var n := |steps| - 1;
      var before := Run(s, steps[..n]);
      if before.At? && Enabled(before.s, steps[n]) then At(Apply(before.s, steps[n])) else Nowhere
  }

  // ---- Calls and the queues that make them ----

  /** Every call that has not returned is some queue's. */
  ghost predicate Owned(b: SL.State, calls: map<nat, nat>) {
    forall t :: 0 <= t < |b.threads| && !b.threads[t].pc.Finished? ==> Owner(calls, t)
  }

  ghost predicate Owner(calls: map<nat, nat>, t: nat) {
    exists i :: i in calls && calls[i] == t
  }

  /** Different queues are in different calls. */
  ghost predicate Apart(b: SL.State, calls: map<nat, nat>) {
    && (forall i :: i in calls ==> calls[i] < |b.threads|)
    && (forall i, j :: i in calls && j in calls && calls[i] == calls[j] ==> i == j)
  }

  lemma BeginOwned(s: State, i: nat)
    requires Enabled(s, Begin(i)) && Owned(s.b, s.calls) && Apart(s.b, s.calls)
    ensures Owned(Apply(s, Begin(i)).b, Apply(s, Begin(i)).calls)
    ensures Apart(Apply(s, Begin(i)).b, Apply(s, Begin(i)).calls)
  {
    var r, n := Apply(s, Begin(i)), |s.b.threads|;
    forall t | 0 <= t < |r.b.threads| && !r.b.threads[t].pc.Finished?
      ensures Owner(r.calls, t)
    {
      if t < n {
        assert Owner(s.calls, t);
        var j :| j in s.calls && s.calls[j] == t;
        assert j in r.calls && r.calls[j] == t;
      } else {
        assert i in r.calls && r.calls[i] == t;
      }
    }
  }

  lemma LockOwned(b: SL.State, calls: map<nat, nat>, t: nat)
    requires SL.Shape(b) && SL.Enabled(b, t) && Owned(b, calls) && Apart(b, calls)
    ensures Owned(SL.Step(b, t), calls) && Apart(SL.Step(b, t), calls)
  {
    var r := SL.Step(b, t);
    forall u | 0 <= u < |r.threads| && !r.threads[u].pc.Finished?
      ensures Owner(calls, u)
    {
      assert !b.threads[u].pc.Finished?;
    }
  }

  lemma CommitOwned(b: SL.State, calls: map<nat, nat>, i: nat)
    requires Owned(b, calls) && Apart(b, calls) && (i in calls ==> b.threads[calls[i]].pc.Finished?)
    ensures Owned(b, calls - {i}) && Apart(b, calls - {i})
  {
    forall t | 0 <= t < |b.threads| && !b.threads[t].pc.Finished?
      ensures Owner(calls - {i}, t)
    {
      assert Owner(calls, t);
      var j :| j in calls && calls[j] == t;
      assert j in calls - {i} && (calls - {i})[j] == t;
    }
  }

  /** A call that has not reached its lock point is the one its queue's present request makes. */
  ghost predicate InCall(q: MQ.Queue, b: SL.State, t: nat) {
    t < |b.threads| && !SL.PastLockPoint(b.threads[t]) ==>
      Serving(q) && MakesCall(q, |b.data|) && MeaningOf(q.c, RequestOf(q)).op == b.threads[t].op
  }

  ghost predicate AllInCall(d: MQ.Device, b: SL.State, calls: map<nat, nat>) {
    forall i :: i in calls ==> i < |d.queues| && InCall(MQ.View(d, i), b, calls[i])
  }

  lemma CompletionSpares(q: MQ.Queue, tag: nat, res: int, d: Desc, data: seq<byte>)
    requires Serving(q) && Protocol.Enabled(q, Protocol.Complete(tag, res, d, data)) && tag != q.phase.tag
    requires q.armed[tag].cmd.addr == BufferAddr(q.c, tag) && (res == 0 ==> |data| <= BUF)
    ensures
      var r := Protocol.DoComplete(q, tag, res, d, data);
      Serving(r) && r.c == q.c && RequestOf(r) == RequestOf(q)
  {
    if res == 0 {
      BufferFrame(q.mem, tag, data, q.phase.tag);
    }
  }

  /** While a request is being served the kernel's steps leave it as it is. */
  lemma RequestStays(q: MQ.Queue, p: Protocol.Step)
    requires ProtocolTheorems.LocalInv(q) && Serving(q) && Protocol.Enabled(q, p) && !p.Serve?
    requires ProtocolData.AllShort(q.c, Protocol.Apply(q, p).issued)
    ensures Serving(Protocol.Apply(q, p)) && Protocol.Apply(q, p).c == q.c
    ensures RequestOf(Protocol.Apply(q, p)) == RequestOf(q)
  {
    if p.Complete? {
      ProtocolTheorems.ArmedCommand(q, p.tag);
      if p.res == 0 {
        ProtocolData.CompleteShort(q, p.tag, p.desc, p.data);
      }
      CompletionSpares(q, p.tag, p.res, p.desc, p.data);
    } else {
      assert p == Protocol.Consume;
    }
  }

  /** The rest of a queue's state does not matter to its call. */
  lemma SameInCall(q: MQ.Queue, r: MQ.Queue, b: SL.State, t: nat)
    requires InCall(q, b, t) && (Serving(q) ==> Serving(r) && r.c == q.c && RequestOf(r) == RequestOf(q))
    ensures InCall(r, b, t)
  {
  }

  lemma OwnStepInCall(d: MQ.Device, b: SL.State, i: nat, p: Protocol.Step, t: nat)
    requires MQ.Enabled(d, i, p) && ProtocolTheorems.LocalInv(MQ.View(d, i)) && InCall(MQ.View(d, i), b, t)
    requires Serving(MQ.View(d, i)) ==> !p.Serve?
    requires ProtocolData.AllShort(MQ.View(d, i).c, Protocol.Apply(MQ.View(d, i), p).issued)
    ensures InCall(Protocol.Apply(MQ.View(d, i), p), b, t)
  {
    var q := MQ.View(d, i);
    if Serving(q) {
      RequestStays(q, p);
    }
    SameInCall(q, Protocol.Apply(q, p), b, t);
  }

  lemma OtherInCall(s: State, i: nat, p: Protocol.Step)
    requires Enabled(s, Other(i, p)) && AllInCall(s.d, s.b, s.calls)
    requires ProtocolTheorems.LocalInv(MQ.View(s.d, i))
    requires ProtocolData.AllShort(MQ.View(s.d, i).c, Protocol.Apply(MQ.View(s.d, i), p).issued)
    ensures AllInCall(Apply(s, Other(i, p)).d, s.b, Apply(s, Other(i, p)).calls)
  {
    var r := Apply(s, Other(i, p));
    forall j | j in r.calls
      ensures j < |r.d.queues| && InCall(MQ.View(r.d, j), s.b, r.calls[j])
    {
      assert InCall(MQ.View(s.d, j), s.b, s.calls[j]);
      if j == i {
        OwnStepInCall(s.d, s.b, i, p, s.calls[i]);
        assert MQ.View(r.d, i) == Protocol.Apply(MQ.View(s.d, i), p);
      } else {
        SameInCall(MQ.View(s.d, j), MQ.View(r.d, j), s.b, s.calls[j]);
      }
    }
  }

  lemma LockInCall(d: MQ.Device, b: SL.State, calls: map<nat, nat>, t: nat)
    requires SL.Shape(b) && SL.Enabled(b, t) && AllInCall(d, b, calls)
    ensures AllInCall(d, SL.Step(b, t), calls)
  {
    var r := SL.Step(b, t);
    forall i | i in calls
      ensures i < |d.queues| && InCall(MQ.View(d, i), r, calls[i])
    {
      assert InCall(MQ.View(d, i), b, calls[i]);
    }
  }

  lemma BeginInCall(s: State, i: nat)
    requires Enabled(s, Begin(i)) && AllInCall(s.d, s.b, s.calls) && Apart(s.b, s.calls)
    ensures AllInCall(s.d, Apply(s, Begin(i)).b, Apply(s, Begin(i)).calls)
  {
    var r := Apply(s, Begin(i));
    forall j | j in r.calls
      ensures j < |s.d.queues| && InCall(MQ.View(s.d, j), r.b, r.calls[j])
    {
      if j != i {
        assert InCall(MQ.View(s.d, j), s.b, s.calls[j]);
      }
    }
  }

  lemma PointInCall(s: State, i: nat, pool: seq<byte>)
    requires Enabled(s, Point(i, pool)) && AllInCall(s.d, s.b, s.calls) && Apart(s.b, s.calls)
    ensures AllInCall(Apply(s, Point(i, pool)).d, Apply(s, Point(i, pool)).b, s.calls)
  {
    var r := Apply(s, Point(i, pool));
    LockInCall(s.d, s.b, s.calls, s.calls[i]);
    PointKeeps(s.b, s.calls[i], s.calls[i]);
    forall j | j in s.calls
      ensures j < |r.d.queues| && InCall(MQ.View(r.d, j), r.b, s.calls[j])
    {
      if j != i {
        SameInCall(MQ.View(s.d, j), MQ.View(r.d, j), r.b, s.calls[j]);
      }
    }
  }

  // ---- Calls and the log ----

  /** Call t is past its lock point, belongs to the p-th request served, and wants what the disk gives
      that request at its place. */
  ghost predicate Linked(cs: seq<Config>, d: MQ.Device, b: SL.State, disk0: seq<byte>, t: nat, p: nat)
    requires SL.Shape(b) && MQ.AllSmall(cs, d.log)
  {
    && t < |b.threads| && SL.PastLockPoint(b.threads[t]) && p < |d.log|
    && MeaningOf(cs[d.log[p].queue], d.log[p].req) == Call(b.threads[t].op)
    && b.want[t] == Output(MQ.DiskAfter(cs, disk0, d.log[..p]), b.threads[t].op)
  }

  ghost predicate Joined(cs: seq<Config>, s: State, disk0: seq<byte>)
    requires SL.Shape(s.b)
  {
    && MQ.AllSmall(cs, s.d.log)
    && s.b.spec == s.d.disk
    && forall t :: t in s.points ==> Linked(cs, s.d, s.b, disk0, t, s.points[t])
  }

  ghost predicate Inv(cs: seq<Config>, s: State, disk0: seq<byte>) {
    && SL.Inv(s.b, disk0) && MQ.DeviceInv(cs, s.d, disk0)
    && Owned(s.b, s.calls) && Apart(s.b, s.calls)
    && (MQ.Short(s.d) ==> Joined(cs, s, disk0) && AllInCall(s.d, s.b, s.calls))
  }

  lemma BeginJoined(cs: seq<Config>, s: State, i: nat, disk0: seq<byte>)
    requires Enabled(s, Begin(i)) && Joined(cs, s, disk0)
    ensures Joined(cs, Apply(s, Begin(i)), disk0)
  {
    var r := Apply(s, Begin(i));
    forall u | u in r.points
      ensures Linked(cs, r.d, r.b, disk0, u, r.points[u])
    {
      assert Linked(cs, s.d, s.b, disk0, u, s.points[u]);
    }
  }

  lemma InnerKeeps(b: SL.State, t: nat, u: nat)
    requires SL.Shape(b) && SL.Enabled(b, t) && !AtLockPoint(b, t) && u < |b.threads|
    ensures
      var r := SL.Step(b, t);
      && r.spec == b.spec && r.want == b.want && r.threads[u].op == b.threads[u].op
      && (SL.PastLockPoint(b.threads[u]) ==> SL.PastLockPoint(r.threads[u]))
  {
  }

  lemma InnerJoined(cs: seq<Config>, s: State, t: nat, disk0: seq<byte>)
    requires Enabled(s, Inner(t)) && Joined(cs, s, disk0)
    ensures Joined(cs, Apply(s, Inner(t)), disk0)
  {
    var r := Apply(s, Inner(t));
    InnerKeeps(s.b, t, t);
    forall u | u in r.points
      ensures Linked(cs, r.d, r.b, disk0, u, r.points[u])
    {
      assert Linked(cs, s.d, s.b, disk0, u, s.points[u]);
      InnerKeeps(s.b, t, u);
    }
  }

  /** A longer log leaves a call's place and what it wants as they were. */
  lemma LinkedLater(cs: seq<Config>, d: MQ.Device, r: MQ.Device, b: SL.State, disk0: seq<byte>, t: nat, p: nat)
    requires SL.Shape(b) && MQ.AllSmall(cs, d.log) && MQ.AllSmall(cs, r.log) && d.log <= r.log
    requires Linked(cs, d, b, disk0, t, p)
    ensures Linked(cs, r, b, disk0, t, p)
  {
    assert r.log[..p] == d.log[..p] && r.log[p] == d.log[p];
  }

  /** Serving a request that makes no call leaves the disk as it is. */
  lemma NoCallNoChange(cs: seq<Config>, s: State, i: nat, p: Protocol.Step, disk0: seq<byte>)
    requires MQ.DeviceInv(cs, s.d, disk0) && MQ.Short(s.d) && Enabled(s, Other(i, p)) && |s.b.data| == |s.d.disk|
    ensures MQ.Apply(s.d, i, p).disk == s.d.disk && s.d.log <= MQ.Apply(s.d, i, p).log
  {
    var q := MQ.View(s.d, i);
    if p.Serve? && !Protocol.DoServe(q, p.pool).phase.Stopped? {
      MQ.ServedHere(s.d, i, p.pool);
      ServedIsServable(q, p.pool);
    } else {
      MQ.QuietStep(q, p);
    }
  }

  lemma ServedIsServable(q: MQ.Queue, pool: seq<byte>)
    requires Serving(q) && |pool| == MAX_POOLED && !Protocol.DoServe(q, pool).phase.Stopped?
    ensures Progress.Servable(q.c, RequestOf(q).desc)
  {
    var d := q.descs[q.phase.tag];
    if !IsEmpty(d) {
      PanicsExactlyWhen(q.c, q.disk, q.mem, q.phase.tag, d, pool);
    }
  }

  lemma OtherJoined(cs: seq<Config>, s: State, i: nat, p: Protocol.Step, disk0: seq<byte>)
    requires Inv(cs, s, disk0) && Enabled(s, Other(i, p)) && MQ.Short(MQ.Apply(s.d, i, p))
    ensures Joined(cs, Apply(s, Other(i, p)), disk0)
  {
    var r := Apply(s, Other(i, p));
    MQ.StepWasShort(s.d, i, p);
    MQ.StepDevice(cs, s.d, i, p, disk0);
    NoCallNoChange(cs, s, i, p, disk0);
    forall t | t in r.points
      ensures Linked(cs, r.d, r.b, disk0, t, r.points[t])
    {
      LinkedLater(cs, s.d, r.d, s.b, disk0, t, s.points[t]);
    }
  }

  lemma PointKeeps(b: SL.State, t: nat, u: nat)
    requires SL.Shape(b) && SL.Enabled(b, t) && AtLockPoint(b, t) && u < |b.threads|
    ensures
      var r := SL.Step(b, t);
      && r.spec == After(b.spec, b.threads[t].op) && r.threads[u].op == b.threads[u].op
      && r.want == b.want[t := Output(b.spec, b.threads[t].op)]
      && SL.PastLockPoint(r.threads[t])
      && (SL.PastLockPoint(b.threads[u]) ==> u != t && SL.PastLockPoint(r.threads[u]))
  {
  }

  /** At a lock point the queue serves the call's request. */
  lemma PointServes(s: State, i: nat, pool: seq<byte>)
    requires Enabled(s, Point(i, pool)) && MQ.AllLocal(s.d) && MQ.Short(s.d)
    ensures
      var q, r := MQ.View(s.d, i), MQ.Apply(s.d, i, Protocol.Serve(pool));
      && r.log == s.d.log + [MQ.Entry(i, q.phase.tag, RequestOf(q))]
      && r.disk == After(s.d.disk, s.b.threads[s.calls[i]].op)
      && MeaningOf(q.c, RequestOf(q)) == Call(s.b.threads[s.calls[i]].op)
  {
    var q := MQ.View(s.d, i);
    Progress.ServesServable(q, pool);
    MQ.ServedHere(s.d, i, pool);
  }

  /** A call at its lock point is linked to the request its queue serves there. */
  lemma PointLinked(cs: seq<Config>, s: State, i: nat, pool: seq<byte>, disk0: seq<byte>, r: State)
    requires MQ.Configured(cs, s.d) && Enabled(s, Point(i, pool)) && r == Apply(s, Point(i, pool))
    requires MQ.AllSmall(cs, s.d.log) && MQ.AllSmall(cs, r.d.log) && s.b.spec == MQ.DiskAfter(cs, disk0, s.d.log)
    requires
      var q := MQ.View(s.d, i);
      && r.d.log == s.d.log + [MQ.Entry(i, q.phase.tag, RequestOf(q))]
      && MeaningOf(q.c, RequestOf(q)) == Call(s.b.threads[s.calls[i]].op)
    ensures Linked(cs, r.d, r.b, disk0, s.calls[i], |s.d.log|)
  {
    PointKeeps(s.b, s.calls[i], s.calls[i]);
    assert r.d.log[..|s.d.log|] == s.d.log;
  }

  lemma LinkedOther(cs: seq<Config>, d: MQ.Device, b: SL.State, t: nat, disk0: seq<byte>, u: nat, p: nat)
    requires SL.Shape(b) && SL.Enabled(b, t) && AtLockPoint(b, t) && MQ.AllSmall(cs, d.log)
    requires Linked(cs, d, b, disk0, u, p)
    ensures Linked(cs, d, SL.Step(b, t), disk0, u, p)
  {
    PointKeeps(b, t, u);
  }

  lemma PointJoined(cs: seq<Config>, s: State, i: nat, pool: seq<byte>, disk0: seq<byte>)
    requires Inv(cs, s, disk0) && Enabled(s, Point(i, pool))
    requires MQ.Short(MQ.Apply(s.d, i, Protocol.Serve(pool)))
    ensures Joined(cs, Apply(s, Point(i, pool)), disk0)
  {
    var r, t := Apply(s, Point(i, pool)), s.calls[i];
    MQ.StepWasShort(s.d, i, Protocol.Serve(pool));
    MQ.StepDevice(cs, s.d, i, Protocol.Serve(pool), disk0);
    PointServes(s, i, pool);
    PointKeeps(s.b, t, t);
    forall u | u in r.points
      ensures Linked(cs, r.d, r.b, disk0, u, r.points[u])
    {
      if u == t {
        PointLinked(cs, s, i, pool, disk0, r);
      } else {
        assert Linked(cs, s.d, s.b, disk0, u, s.points[u]);
        LinkedLater(cs, s.d, r.d, s.b, disk0, u, s.points[u]);
        LinkedOther(cs, r.d, s.b, t, disk0, u, s.points[u]);
      }
    }
  }

  // ---- Every step ----

  lemma BeginInv(cs: seq<Config>, s: State, i: nat, disk0: seq<byte>)
    requires Inv(cs, s, disk0) && Enabled(s, Begin(i))
    ensures Inv(cs, Apply(s, Begin(i)), disk0)
  {
    var q := MQ.View(s.d, i);
    SL.SpawnInv(s.b, MeaningOf(q.c, RequestOf(q)).op, disk0);
    BeginOwned(s, i);
    if MQ.Short(s.d) {
      BeginJoined(cs, s, i, disk0);
      BeginInCall(s, i);
    }
  }

  lemma InnerInv(cs: seq<Config>, s: State, t: nat, disk0: seq<byte>)
    requires Inv(cs, s, disk0) && Enabled(s, Inner(t))
    ensures Inv(cs, Apply(s, Inner(t)), disk0)
  {
    SL.StepInv(s.b, t, disk0);
    LockOwned(s.b, s.calls, t);
    if MQ.Short(s.d) {
      InnerJoined(cs, s, t, disk0);
      LockInCall(s.d, s.b, s.calls, t);
    }
  }

  lemma PointInv(cs: seq<Config>, s: State, i: nat, pool: seq<byte>, disk0: seq<byte>)
    requires Inv(cs, s, disk0) && Enabled(s, Point(i, pool))
    ensures Inv(cs, Apply(s, Point(i, pool)), disk0)
  {
    SL.StepInv(s.b, s.calls[i], disk0);
    LockOwned(s.b, s.calls, s.calls[i]);
    MQ.StepDevice(cs, s.d, i, Protocol.Serve(pool), disk0);
    if MQ.Short(MQ.Apply(s.d, i, Protocol.Serve(pool))) {
      MQ.StepWasShort(s.d, i, Protocol.Serve(pool));
      PointJoined(cs, s, i, pool, disk0);
      PointInCall(s, i, pool);
    }
  }

  lemma OtherInv(cs: seq<Config>, s: State, i: nat, p: Protocol.Step, disk0: seq<byte>)
    requires Inv(cs, s, disk0) && Enabled(s, Other(i, p))
    ensures Inv(cs, Apply(s, Other(i, p)), disk0)
  {
    var r := Apply(s, Other(i, p));
    MQ.StepDevice(cs, s.d, i, p, disk0);
    if p.CommitTag? {
      CommitOwned(s.b, s.calls, i);
    }
    if MQ.Short(MQ.Apply(s.d, i, p)) {
      MQ.StepWasShort(s.d, i, p);
      OtherJoined(cs, s, i, p, disk0);
      assert ProtocolTheorems.LocalInv(MQ.View(s.d, i));
      assert ProtocolData.AllShort(r.d.queues[i].c, r.d.queues[i].issued);
      OtherInCall(s, i, p);
    }
  }

  lemma StepInv(cs: seq<Config>, s: State, step: Step, disk0: seq<byte>)
    requires Inv(cs, s, disk0) && Enabled(s, step)
    ensures Inv(cs, Apply(s, step), disk0)
  {
    match step
    case Begin(i) => BeginInv(cs, s, i, disk0);
    case Inner(t) => InnerInv(cs, s, t, disk0);
    case Point(i, pool) => PointInv(cs, s, i, pool, disk0);
    case Other(i, p) => OtherInv(cs, s, i, p, disk0);
  }

  lemma {:induction false} RunInv(cs: seq<Config>, disk0: seq<byte>, steps: seq<Step>)
    requires ValidConfigs(cs) && Run(Init(cs, disk0), steps).At?
    ensures Inv(cs, Run(Init(cs, disk0), steps).s, disk0)
    decreases |steps|
  {
    if steps == [] {
      SL.InitInv(disk0, []);
      MQ.InitDevice(cs, disk0);
    } else {
      var n := |steps| - 1;
      RunInv(cs, disk0, steps[..n]);
      StepInv(cs, Run(Init(cs, disk0), steps[..n]).s, steps[n], disk0);
    }
  }

  // ---- What it means: the data ----

  /** Leaving out the locks, a run of the device is one of its queues over an atomic backend. */
  lemma {:induction false} Projects(cs: seq<Config>, disk0: seq<byte>, steps: seq<Step>)
    returns (served: seq<(nat, Protocol.Step)>)
    requires ValidConfigs(cs) && Run(Init(cs, disk0), steps).At?
    ensures MQ.Run(MQ.Init(cs, disk0), served) == MQ.At(Run(Init(cs, disk0), steps).s.d)
    decreases |steps|
  {
    if steps == [] {
      served := [];
    } else {
      var n := |steps| - 1;
      served := Projects(cs, disk0, steps[..n]);
      if steps[n].Point? {
        served := served + [(steps[n].queue, Protocol.Serve(steps[n].pool))];
      } else if steps[n].Other? {
        served := served + [(steps[n].queue, steps[n].step)];
      }
    }
  }

  /** At the grain of its locks, the device is one atomic disk: whenever no call is copying, the
      backend's bytes are what serving all queues' requests in the order of their lock points leaves,
      and those are the requests issued to each tag and answered, in the order they were issued. */
  lemma BytesAreTheDisk(cs: seq<Config>, disk0: seq<byte>, steps: seq<Step>)
    requires ValidConfigs(cs) && Run(Init(cs, disk0), steps).At?
    requires
      var s := Run(Init(cs, disk0), steps).s;
      MQ.Short(s.d) && forall t :: 0 <= t < |s.b.threads| ==> !s.b.threads[t].pc.Copying?
    ensures
      var s := Run(Init(cs, disk0), steps).s;
      && MQ.AllSmall(cs, s.d.log) && s.b.data == MQ.DiskAfter(cs, disk0, s.d.log)
      && |s.d.queues| == |cs| && MQ.Shaped(s.d)
      && forall i, t :: 0 <= i < |cs| && 0 <= t < cs[i].depth ==> s.d.queues[i].c == cs[i] && MQ.LogsIssued(s.d, i, t)
  {
    RunInv(cs, disk0, steps);
    var s := Run(Init(cs, disk0), steps).s;
    assert forall a :: 0 <= a < |s.b.data| ==> s.b.data[a] == s.b.spec[a];
    var served := Projects(cs, disk0, steps);
    MQ.DeviceIsAtomicDisk(cs, disk0, served);
  }

  lemma CopyAnswers(cs: seq<Config>, d: MQ.Device, b: SL.State, disk0: seq<byte>, t: nat, p: nat)
    requires SL.Shape(b) && MQ.AllSmall(cs, d.log) && Linked(cs, d, b, disk0, t, p) && SL.ReaderOk(b, t)
    requires b.threads[t].op.Read? && !b.threads[t].pc.Copying?
    ensures |b.threads[t].buf| <= BUF
    ensures MQ.AnswerAt(cs, disk0, d.log, p).buffer == Splice(d.log[p].req.buffer, 0, b.threads[t].buf)
  {
    assert MQ.Small(cs, d.log[p]);
    assert b.threads[t].buf == b.want[t];
  }

  lemma AnswerIsServed(cs: seq<Config>, d: MQ.Device, disk0: seq<byte>, p: nat)
    requires MQ.DeviceInv(cs, d, disk0) && MQ.Short(d) && p < |d.log|
    ensures MQ.AllSmall(cs, d.log) && MQ.Small(cs, d.log[p])
    ensures
      var e := d.log[p];
      var k := |MQ.RequestsFor(d.log[..p], e.queue, e.tag)|;
      && k < |d.queues[e.queue].served[e.tag]|
      && d.queues[e.queue].served[e.tag][k] == MQ.AnswerAt(cs, disk0, d.log, p)
  {
    var e := d.log[p];
    assert MQ.Small(cs, e);
    MQ.ReplyAt(cs, disk0, d.log, p, |MQ.RequestsFor(d.log[..p], e.queue, e.tag)|);
    assert d.queues[e.queue].served[e.tag] == MQ.RepliesTo(cs, disk0, d.log, e.queue, e.tag);
  }

  /** And the bytes a read has copied, one by one among other queues' writes, are those its tag is
      answered with: of the tag's answers, the one as many others precede as requests of the tag precede
      this one in the log. */
  lemma CopiesAreTheAnswers(cs: seq<Config>, disk0: seq<byte>, steps: seq<Step>, t: nat)
    requires ValidConfigs(cs) && Run(Init(cs, disk0), steps).At?
    requires
      var s := Run(Init(cs, disk0), steps).s;
      MQ.Short(s.d) && t in s.points && t < |s.b.threads| && s.b.threads[t].op.Read? && !s.b.threads[t].pc.Copying?
    ensures
      var s := Run(Init(cs, disk0), steps).s;
      var p := s.points[t];
      && MQ.Configured(cs, s.d) && MQ.Shaped(s.d) && p < |s.d.log| && MQ.Small(cs, s.d.log[p])
      && (var e, buf := s.d.log[p], s.b.threads[t].buf;
          var k := |MQ.RequestsFor(s.d.log[..p], e.queue, e.tag)|;
          && |buf| <= BUF
          && k < |s.d.queues[e.queue].served[e.tag]|
          && s.d.queues[e.queue].served[e.tag][k].buffer == Splice(e.req.buffer, 0, buf))
  {
    RunInv(cs, disk0, steps);
    var s := Run(Init(cs, disk0), steps).s;
    assert Linked(cs, s.d, s.b, disk0, t, s.points[t]);
    AnswerIsServed(cs, s.d, disk0, s.points[t]);
    CopyAnswers(cs, s.d, s.b, disk0, t, s.points[t]);
  }

  // ---- What it means: time ----

  lemma {:induction false} LogGrows(cs: seq<Config>, disk0: seq<byte>, steps: seq<Step>, m: nat)
    requires ValidConfigs(cs) && Run(Init(cs, disk0), steps).At? && m <= |steps|
    ensures Run(Init(cs, disk0), steps[..m]).At?
    ensures Run(Init(cs, disk0), steps[..m]).s.d.log <= Run(Init(cs, disk0), steps).s.d.log
    decreases |steps|
  {
    if m == |steps| {
      assert steps[..m] == steps;
    } else {
      var n := |steps| - 1;
      LogGrows(cs, disk0, steps[..n], m);
      assert steps[..n][..m] == steps[..m];
    }
  }

  /** A request committed before another is issued comes earlier in the order of lock points. */
  lemma RealTimeOrder(cs: seq<Config>, disk0: seq<byte>, steps: seq<Step>, m: nat, p: nat, r: nat)
    requires ValidConfigs(cs) && Run(Init(cs, disk0), steps).At? && m <= |steps| && Run(Init(cs, disk0), steps[..m]).At?
    requires MQ.Answered(Run(Init(cs, disk0), steps[..m]).s.d, Run(Init(cs, disk0), steps).s.d.log, p)
    requires MQ.NotIssued(Run(Init(cs, disk0), steps[..m]).s.d, Run(Init(cs, disk0), steps).s.d.log, r)
    ensures p < r
  {
    var early, log := Run(Init(cs, disk0), steps[..m]).s.d, Run(Init(cs, disk0), steps).s.d.log;
    var served := Projects(cs, disk0, steps[..m]);
    MQ.RunDevice(cs, disk0, served);
    MQ.RunMerged(cs, disk0, served);
    MQ.RunCounted(cs, disk0, served);
    LogGrows(cs, disk0, steps, m);
    MQ.AnsweredIsLogged(early, log, p);
    MQ.NotIssuedIsNotLogged(early, log, r);
  }

  /** A step of some call. */
  ghost predicate CallCanStep(s: State) {
    (exists t :: Enabled(s, Inner(t))) || exists i, pool :: Enabled(s, Point(i, pool))
  }

  /** Where the lock machine can step, so can the device: a call at its lock point is that of the request
      its queue is still serving. */
  lemma LockStepLifts(s: State, t: nat)
    requires SL.Shape(s.b) && SL.Enabled(s.b, t) && MQ.Shaped(s.d)
    requires Owned(s.b, s.calls) && AllInCall(s.d, s.b, s.calls)
    ensures CallCanStep(s)
  {
    if AtLockPoint(s.b, t) {
      assert Owner(s.calls, t);
      var i :| i in s.calls && s.calls[i] == t;
      assert InCall(MQ.View(s.d, i), s.b, t);
      assert Enabled(s, Point(i, Zeros(MAX_POOLED)));
    } else {
      assert Enabled(s, Inner(t));
    }
  }

  /** The device cannot deadlock: whatever the queues and the kernel are at, while a call has not returned
      some call can step. */
  lemma NoDeadlock(cs: seq<Config>, disk0: seq<byte>, steps: seq<Step>, w: nat)
    requires ValidConfigs(cs) && Run(Init(cs, disk0), steps).At? && MQ.Short(Run(Init(cs, disk0), steps).s.d)
    requires
      var s := Run(Init(cs, disk0), steps).s;
      w < |s.b.threads| && !s.b.threads[w].pc.Finished?
    ensures CallCanStep(Run(Init(cs, disk0), steps).s)
  {
    RunInv(cs, disk0, steps);
    var s := Run(Init(cs, disk0), steps).s;
    SL.Progress(s.b, disk0, w);
    var t: nat :| t < |s.b.threads| && SL.Enabled(s.b, t);
    LockStepLifts(s, t);
  }

  /** And no call goes on for ever: each of its steps lowers what the calls have left by one, and no step of
      a queue or of the kernel raises it. */
  lemma CallsRunDown(s: State, step: Step)
    requires Enabled(s, step) && !step.Begin?
    ensures SL.Total(|s.b.data|, Apply(s, step).b.threads)
      == SL.Total(|s.b.data|, s.b.threads) - if step.Other? then 0 else 1
  {
    match step
    case Inner(t) => SL.StepLeft(s.b, t);
    case Point(i, pool) => SL.StepLeft(s.b, s.calls[i]);
    case Other(i, p) =>
  }
}
