/** Several queues over one backend. Each queue is a run of its own protocol, its steps interleaved
    with those of the others in any way; a request is served in one step on the backend they share,
    which is where it holds all its shard locks. */
module MultiQueue {
  import opened Words
  import opened Ublk
  import opened RequestIo
  import opened ProtocolTokens
  import opened ProtocolData
  import opened ProtocolTheorems

  type Queue = Protocol.Queue

  /** A request served, by which queue and tag. */
  datatype Entry = Entry(queue: nat, tag: nat, req: Request)

  /** The queues, the backend, and the requests served, in order. */
  datatype Device = Device(queues: seq<Queue>, disk: seq<byte>, log: seq<Entry>)

  /** Queue i as it sees the backend. */
  function View(d: Device, i: nat): Queue
    requires i < |d.queues|
  {
    d.queues[i].(disk := d.disk)
  }

  ghost predicate Shaped(d: Device) {
    forall i :: 0 <= i < |d.queues| ==> Protocol.Shape(d.queues[i])
  }

  predicate Enabled(d: Device, i: nat, s: Protocol.Step) {
    i < |d.queues| && Protocol.Shape(View(d, i)) && Protocol.Enabled(View(d, i), s)
  }

  /** Queue i takes a step; the others see the backend it leaves. */
  function Apply(d: Device, i: nat, s: Protocol.Step): (r: Device)
    requires Enabled(d, i, s)
    ensures |r.queues| == |d.queues| && |r.disk| == |d.disk|
  {
    var q := View(d, i);
    var r := Protocol.Apply(q, s);
    Device(d.queues[i := r], r.disk, d.log + Served(q, r, i))
  }

  /** The request served in a step of queue i, if one was. */
  function Served(q: Queue, r: Queue, i: nat): seq<Entry> {
    if |r.log| > |q.log| then [Entry(i, r.log[|r.log| - 1].tag, r.log[|r.log| - 1].req)] else []
  }

  function Init(cs: seq<Config>, disk: seq<byte>): Device
    requires forall i :: 0 <= i < |cs| ==> ValidConfig(cs[i])
  {
    Device(seq(|cs|, i requires 0 <= i < |cs| => Protocol.Init(cs[i], disk)), disk, [])
  }

  datatype Reached = Nowhere | At(d: Device)

  function Run(d: Device, steps: seq<(nat, Protocol.Step)>): Reached
    decreases |steps|
  {
    if steps == [] then At(d)
    else
      var n := |steps| - 1;
      var before := Run(d, steps[..n]);
      if before.At? && Enabled(before.d, steps[n].0, steps[n].1)
      then At(Apply(before.d, steps[n].0, steps[n].1)) else Nowhere
  }

  // ---- The atomic disk all queues share ----

  predicate Small(cs: seq<Config>, e: Entry) {
    && e.queue < |cs| && e.tag < cs[e.queue].depth
    && FitsBuffer(cs[e.queue], e.req.desc) && |e.req.buffer| == BUF
  }

  ghost predicate AllSmall(cs: seq<Config>, log: seq<Entry>) {
    forall i :: 0 <= i < |log| ==> Small(cs, log[i])
  }

  ghost function DiskAfter(cs: seq<Config>, disk: seq<byte>, log: seq<Entry>): (d: seq<byte>)
    requires AllSmall(cs, log)
    ensures |d| == |disk|
    decreases |log|
  {
    if log == [] then disk
    else
      var e := Last(log);
      AtomicDisk(cs[e.queue], DiskAfter(cs, disk, log[..|log| - 1]), e.req)
  }

  /** The answers tag t of queue i gets when the whole log is served serially. */
  ghost function RepliesTo(cs: seq<Config>, disk: seq<byte>, log: seq<Entry>, i: nat, t: nat): seq<Reply>
    requires AllSmall(cs, log)
    decreases |log|
  {
    if log == [] then []
    else
      var init, e := log[..|log| - 1], Last(log);
      RepliesTo(cs, disk, init, i, t)
      + if e.queue == i && e.tag == t then [AtomicReply(cs[i], DiskAfter(cs, disk, init), e.req)] else []
  }

  lemma Extend(cs: seq<Config>, disk: seq<byte>, log: seq<Entry>, e: Entry, i: nat, t: nat)
    requires AllSmall(cs, log) && Small(cs, e)
    ensures AllSmall(cs, log + [e])
    ensures DiskAfter(cs, disk, log + [e]) == AtomicDisk(cs[e.queue], DiskAfter(cs, disk, log), e.req)
    ensures RepliesTo(cs, disk, log + [e], i, t) == RepliesTo(cs, disk, log, i, t)
      + if e.queue == i && e.tag == t then [AtomicReply(cs[i], DiskAfter(cs, disk, log), e.req)] else []
  {
    assert (log + [e])[..|log|] == log && Last(log + [e]) == e;
  }

  // ---- The invariant ----

  ghost predicate Configured(cs: seq<Config>, d: Device) {
    |d.queues| == |cs| && forall i :: 0 <= i < |cs| ==> d.queues[i].c == cs[i]
  }

  ghost predicate AllLocal(d: Device) {
    forall i :: 0 <= i < |d.queues| ==> LocalInv(View(d, i))
  }

  /** No queue has been issued a read or write longer than a tag's buffer. */
  ghost predicate Short(d: Device) {
    forall i :: 0 <= i < |d.queues| ==> AllShort(d.queues[i].c, d.queues[i].issued)
  }

  ghost predicate Atomic(cs: seq<Config>, d: Device, disk0: seq<byte>)
    requires Configured(cs, d) && Shaped(d)
  {
    && AllSmall(cs, d.log)
    && d.disk == DiskAfter(cs, disk0, d.log)
    && forall i, t :: 0 <= i < |cs| && 0 <= t < cs[i].depth ==>
         d.queues[i].served[t] == RepliesTo(cs, disk0, d.log, i, t)
  }

  ghost predicate DeviceInv(cs: seq<Config>, d: Device, disk0: seq<byte>) {
    Configured(cs, d) && Shaped(d) && AllLocal(d) && |d.disk| == |disk0| && (Short(d) ==> Atomic(cs, d, disk0))
  }

  /** Another queue's writes do not touch what holds of a queue whatever its backend holds. */
  lemma OtherDisk(q: Queue, disk: seq<byte>)
    requires LocalInv(q) && |disk| == |q.disk|
    ensures LocalInv(q.(disk := disk))
  {
    var r := q.(disk := disk);
    OtherDiskTokens(q, disk);
    assert Histories(r) && Results(r);
  }

  lemma OtherDiskTokens(q: Queue, disk: seq<byte>)
    requires TokenInv(q)
    ensures TokenInv(q.(disk := disk))
  {
    var r := q.(disk := disk);
    assert forall t :: Tokens(r, t) == Tokens(q, t);
  }

  lemma StepLocals(d: Device, i: nat, s: Protocol.Step)
    requires AllLocal(d) && Enabled(d, i, s)
    ensures AllLocal(Apply(d, i, s))
  {
    var r := Apply(d, i, s);
    forall j | 0 <= j < |r.queues|
      ensures LocalInv(View(r, j))
    {
      assert LocalInv(View(d, j));
      if j == i {
        StepLocal(View(d, i), s);
        assert View(r, i) == Protocol.Apply(View(d, i), s);
      } else {
        OtherDisk(View(d, j), r.disk);
        assert View(r, j) == View(d, j).(disk := r.disk);
      }
    }
  }

  lemma StepWasShort(d: Device, i: nat, s: Protocol.Step)
    requires Enabled(d, i, s) && Short(Apply(d, i, s))
    ensures Short(d)
  {
    var r := Apply(d, i, s);
    forall j | 0 <= j < |d.queues|
      ensures AllShort(d.queues[j].c, d.queues[j].issued)
    {
      assert AllShort(r.queues[j].c, r.queues[j].issued);
      if j == i {
        StepShort(View(d, i), s);
      }
    }
  }

  /** What a step of a queue does to the backend, its answers and the log. */
  ghost predicate Quiet(q: Queue, r: Queue) {
    r.disk == q.disk && r.served == q.served && r.log == q.log
  }

  lemma QuietStep(q: Queue, s: Protocol.Step)
    requires Protocol.Shape(q) && Protocol.Enabled(q, s)
    requires s.Serve? ==> Protocol.Apply(q, s).phase.Stopped?
    ensures Quiet(q, Protocol.Apply(q, s))
  {
    if s.Serve? {
      ServeEffect(q, s.pool);
    } else {
      HistoryEffect(q, s);
    }
  }

  lemma QuietAtomic(cs: seq<Config>, d: Device, r: Device, disk0: seq<byte>)
    requires Configured(cs, d) && Shaped(d) && Configured(cs, r) && Shaped(r) && Atomic(cs, d, disk0)
    requires r.disk == d.disk && r.log == d.log
    requires forall i :: 0 <= i < |cs| ==> r.queues[i].served == d.queues[i].served
    ensures Atomic(cs, r, disk0)
  {
  }

  /** The device after queue i has served the request it was at. */
  lemma ServedHere(d: Device, i: nat, pool: seq<byte>)
    requires AllLocal(d) && Short(d) && Enabled(d, i, Protocol.Serve(pool))
    requires !Protocol.DoServe(View(d, i), pool).phase.Stopped?
    ensures
      var q, r := View(d, i), Apply(d, i, Protocol.Serve(pool));
      var req := Request(q.descs[q.phase.tag], TagBuffer(q.mem, q.phase.tag));
      && FitsBuffer(q.c, req.desc)
      && r.log == d.log + [Entry(i, q.phase.tag, req)] && r.disk == AtomicDisk(q.c, d.disk, req)
      && r.queues == d.queues[i := r.queues[i]]
      && r.queues[i].served == q.served[q.phase.tag := q.served[q.phase.tag] + [AtomicReply(q.c, d.disk, req)]]
  {
    var q := View(d, i);
    assert LocalInv(q) && AllShort(q.c, q.issued);
    PendingShort(q, q.phase.tag);
    ServedAtomically(q, pool);
  }

  /** One request more, served by queue i. */
  lemma ServeAtomicHere(cs: seq<Config>, d: Device, i: nat, pool: seq<byte>, disk0: seq<byte>)
    requires Configured(cs, d) && Shaped(d) && AllLocal(d) && Short(d) && Atomic(cs, d, disk0)
    requires Enabled(d, i, Protocol.Serve(pool)) && !Protocol.DoServe(View(d, i), pool).phase.Stopped?
    requires Configured(cs, Apply(d, i, Protocol.Serve(pool))) && Shaped(Apply(d, i, Protocol.Serve(pool)))
    ensures Atomic(cs, Apply(d, i, Protocol.Serve(pool)), disk0)
  {
    var q, r := View(d, i), Apply(d, i, Protocol.Serve(pool));
    var e := Entry(i, q.phase.tag, Request(q.descs[q.phase.tag], TagBuffer(q.mem, q.phase.tag)));
    ServedHere(d, i, pool);
    Extend(cs, disk0, d.log, e, i, e.tag);
    forall j, t | 0 <= j < |cs| && 0 <= t < cs[j].depth
      ensures r.queues[j].served[t] == RepliesTo(cs, disk0, r.log, j, t)
    {
      Extend(cs, disk0, d.log, e, j, t);
      assert d.queues[j].served[t] == RepliesTo(cs, disk0, d.log, j, t);
    }
  }

  lemma StepShape(cs: seq<Config>, d: Device, i: nat, s: Protocol.Step)
    requires Configured(cs, d) && Shaped(d) && Enabled(d, i, s)
    ensures Configured(cs, Apply(d, i, s)) && Shaped(Apply(d, i, s))
  {
  }

  /** Every step of every queue keeps the invariant of the device. */
  lemma StepDevice(cs: seq<Config>, d: Device, i: nat, s: Protocol.Step, disk0: seq<byte>)
    requires DeviceInv(cs, d, disk0) && Enabled(d, i, s)
    ensures DeviceInv(cs, Apply(d, i, s), disk0)
  {
    var r := Apply(d, i, s);
    StepShape(cs, d, i, s);
    StepLocals(d, i, s);
    if Short(r) {
      StepWasShort(d, i, s);
      if s.Serve? && !Protocol.DoServe(View(d, i), s.pool).phase.Stopped? {
        ServeAtomicHere(cs, d, i, s.pool, disk0);
      } else {
        QuietStep(View(d, i), s);
        QuietAtomic(cs, d, r, disk0);
      }
    }
  }

  lemma InitDevice(cs: seq<Config>, disk0: seq<byte>)
    requires forall i :: 0 <= i < |cs| ==> ValidConfig(cs[i])
    ensures DeviceInv(cs, Init(cs, disk0), disk0)
  {
    var d := Init(cs, disk0);
    forall i | 0 <= i < |cs|
      ensures LocalInv(View(d, i))
    {
      InitInv(cs[i], disk0);
      assert View(d, i) == Protocol.Init(cs[i], disk0);
    }
  }

  lemma {:induction false} RunDevice(cs: seq<Config>, disk0: seq<byte>, steps: seq<(nat, Protocol.Step)>)
    requires (forall i :: 0 <= i < |cs| ==> ValidConfig(cs[i])) && Run(Init(cs, disk0), steps).At?
    ensures DeviceInv(cs, Run(Init(cs, disk0), steps).d, disk0)
    decreases |steps|
  {
    if steps == [] {
      InitDevice(cs, disk0);
    } else {
      var n := |steps| - 1;
      RunDevice(cs, disk0, steps[..n]);
      StepDevice(cs, Run(Init(cs, disk0), steps[..n]).d, steps[n].0, steps[n].1, disk0);
    }
  }

  // ---- The log and the requests issued ----

  /** The requests of tag t of queue i in the device's log. */
  function RequestsFor(log: seq<Entry>, i: nat, t: nat): seq<Request>
    decreases |log|
  {
    if log == [] then []
    else
      var e := log[|log| - 1];
      RequestsFor(log[..|log| - 1], i, t) + if e.queue == i && e.tag == t then [e.req] else []
  }

  lemma RequestsForNext(log: seq<Entry>, e: Entry, i: nat, t: nat)
    ensures RequestsFor(log + [e], i, t) == RequestsFor(log, i, t) + if e.queue == i && e.tag == t then [e.req] else []
  {
    assert (log + [e])[..|log|] == log;
  }

  /** A queue's own log grows by the request it serves, and by nothing else. */
  lemma LogStep(q: Queue, s: Protocol.Step)
    requires Protocol.Shape(q) && Protocol.Enabled(q, s)
    ensures
      var r := Protocol.Apply(q, s);
      r.log == q.log || (r.log != [] && r.log == q.log + [Last(r.log)])
  {
    if s.Serve? {
      ServeEffect(q, s.pool);
    } else {
      HistoryEffect(q, s);
    }
  }

  /** The device's log interleaves the queues' own. */
  ghost predicate Merged(d: Device) {
    forall i, t: nat :: 0 <= i < |d.queues| ==> RequestsFor(d.log, i, t) == RequestsOf(d.queues[i].log, t)
  }

  lemma StepMerged(d: Device, i: nat, s: Protocol.Step)
    requires Merged(d) && Enabled(d, i, s)
    ensures Merged(Apply(d, i, s))
  {
    var q, r := View(d, i), Protocol.Apply(View(d, i), s);
    LogStep(q, s);
    forall j, t: nat | 0 <= j < |d.queues|
      ensures RequestsFor(Apply(d, i, s).log, j, t) == RequestsOf(Apply(d, i, s).queues[j].log, t)
    {
      assert RequestsFor(d.log, j, t) == RequestsOf(d.queues[j].log, t);
      if r.log == q.log {
        assert d.log + [] == d.log;
      } else {
        var e := Last(r.log);
        RequestsForNext(d.log, Entry(i, e.tag, e.req), j, t);
        RequestsExtend(q.log, e, t);
      }
    }
  }

  lemma {:induction false} RunMerged(cs: seq<Config>, disk0: seq<byte>, steps: seq<(nat, Protocol.Step)>)
    requires (forall i :: 0 <= i < |cs| ==> ValidConfig(cs[i])) && Run(Init(cs, disk0), steps).At?
    ensures Merged(Run(Init(cs, disk0), steps).d)
    decreases |steps|
  {
    if steps == [] {
    } else {
      var n := |steps| - 1;
      RunMerged(cs, disk0, steps[..n]);
      StepMerged(Run(Init(cs, disk0), steps[..n]).d, steps[n].0, steps[n].1);
    }
  }

  /** The requests of a tag in the log are those issued to it and answered, in the order they were issued. */
  ghost predicate LogsIssued(d: Device, i: nat, t: nat)
    requires i < |d.queues| && Protocol.Shape(d.queues[i]) && t < d.queues[i].c.depth
  {
    var q := d.queues[i];
    |q.served[t]| <= |q.issued[t]| && RequestsFor(d.log, i, t) == q.issued[t][..|q.served[t]|]
  }

  lemma IssuedInOrder(cs: seq<Config>, d: Device, disk0: seq<byte>, i: nat, t: nat)
    requires DeviceInv(cs, d, disk0) && Merged(d) && Short(d) && i < |cs| && t < cs[i].depth
    ensures LogsIssued(d, i, t)
  {
    assert LocalInv(View(d, i));
    assert RequestsFor(d.log, i, t) == RequestsOf(d.queues[i].log, t);
  }

  /** Any number of queues, any interleaving: while every read and write issued is at most BUF bytes long,
      the device is one atomic disk. Its bytes are what serving the requests of all queues in the order
      of the log leaves, every answer of every queue is the one of that serial run, and the log holds
      each tag's answered requests in the order they were issued. */
  lemma DeviceIsAtomicDisk(cs: seq<Config>, disk0: seq<byte>, steps: seq<(nat, Protocol.Step)>)
    requires (forall i :: 0 <= i < |cs| ==> ValidConfig(cs[i])) && Run(Init(cs, disk0), steps).At?
    requires Short(Run(Init(cs, disk0), steps).d)
    ensures
      var d := Run(Init(cs, disk0), steps).d;
      && |d.queues| == |cs| && Shaped(d) && AllSmall(cs, d.log) && d.disk == DiskAfter(cs, disk0, d.log)
      && forall i, t :: 0 <= i < |cs| && 0 <= t < cs[i].depth ==>
           && d.queues[i].c == cs[i]
           && d.queues[i].served[t] == RepliesTo(cs, disk0, d.log, i, t)
           && LogsIssued(d, i, t)
  {
    RunDevice(cs, disk0, steps);
    RunMerged(cs, disk0, steps);
    var d := Run(Init(cs, disk0), steps).d;
    forall i, t | 0 <= i < |cs| && 0 <= t < cs[i].depth
      ensures LogsIssued(d, i, t)
    {
      IssuedInOrder(cs, d, disk0, i, t);
    }
  }

  // ---- Places in the log ----

  /** What the p-th request of the log is answered when all are served serially. */
  ghost function AnswerAt(cs: seq<Config>, disk0: seq<byte>, log: seq<Entry>, p: nat): Reply
    requires AllSmall(cs, log) && p < |log|
  {
    AtomicReply(cs[log[p].queue], DiskAfter(cs, disk0, log[..p]), log[p].req)
  }

  /** The answer to the p-th request of the log is its tag's k-th, where k of the tag's requests come before it. */
  lemma {:induction false} ReplyAt(cs: seq<Config>, disk0: seq<byte>, log: seq<Entry>, p: nat, k: nat)
    requires AllSmall(cs, log) && p < |log| && k == |RequestsFor(log[..p], log[p].queue, log[p].tag)|
    ensures k < |RepliesTo(cs, disk0, log, log[p].queue, log[p].tag)|
    ensures RepliesTo(cs, disk0, log, log[p].queue, log[p].tag)[k] == AnswerAt(cs, disk0, log, p)
    decreases |log|
  {
    var n := |log| - 1;
    var init, e, i, t := log[..n], log[n], log[p].queue, log[p].tag;
    assert log == init + [e];
    Extend(cs, disk0, init, e, i, t);
    if p == n {
      RepliesCount(cs, disk0, init, i, t);
    } else {
      assert init[..p] == log[..p] && init[p] == log[p];
      ReplyAt(cs, disk0, init, p, k);
    }
  }

  lemma {:induction false} RepliesCount(cs: seq<Config>, disk0: seq<byte>, log: seq<Entry>, i: nat, t: nat)
    requires AllSmall(cs, log)
    ensures |RepliesTo(cs, disk0, log, i, t)| == |RequestsFor(log, i, t)|
    decreases |log|
  {
    if log == [] {
    } else {
      RepliesCount(cs, disk0, log[..|log| - 1], i, t);
    }
  }

  /** How many of a tag's requests come before the p-th of the log, which is one of its own. */
  lemma {:induction false} CountBefore(log: seq<Entry>, p: nat, i: nat, t: nat)
    requires p < |log| && log[p].queue == i && log[p].tag == t
    ensures |RequestsFor(log[..p], i, t)| < |RequestsFor(log, i, t)|
    decreases |log|
  {
    var n := |log| - 1;
    if p == n {
    } else {
      CountBefore(log[..n], p, i, t);
      assert log[..n][..p] == log[..p];
    }
  }

  lemma {:induction false} CountMono(log: seq<Entry>, m: nat, i: nat, t: nat)
    requires m <= |log|
    ensures |RequestsFor(log[..m], i, t)| <= |RequestsFor(log, i, t)|
    decreases |log|
  {
    if m == |log| {
      assert log[..m] == log;
    } else {
      var n := |log| - 1;
      CountMono(log[..n], m, i, t);
      assert log[..n][..m] == log[..m];
    }
  }

  // ---- Real time ----

  /** The log holds as many requests of a tag as it has had answers. */
  ghost predicate Counted(d: Device) {
    forall i, t :: 0 <= i < |d.queues| && 0 <= t < |d.queues[i].served| ==>
      |RequestsOf(d.queues[i].log, t)| == |d.queues[i].served[t]|
  }

  ghost predicate CountedHere(q: Queue) {
    forall t :: 0 <= t < |q.served| ==> |RequestsOf(q.log, t)| == |q.served[t]|
  }

  lemma StepCountedHere(q: Queue, s: Protocol.Step)
    requires Protocol.Shape(q) && Protocol.Enabled(q, s) && CountedHere(q)
    ensures CountedHere(Protocol.Apply(q, s))
  {
    var r := Protocol.Apply(q, s);
    if s.Serve? {
      ServeEffect(q, s.pool);
      if !r.phase.Stopped? {
        var e := Last(r.log);
        forall t | 0 <= t < |r.served|
          ensures |RequestsOf(r.log, t)| == |r.served[t]|
        {
          RequestsExtend(q.log, e, t);
        }
      }
    } else {
      HistoryEffect(q, s);
    }
  }

  lemma StepCounted(d: Device, i: nat, s: Protocol.Step)
    requires Counted(d) && Enabled(d, i, s)
    ensures Counted(Apply(d, i, s))
  {
    assert CountedHere(View(d, i));
    StepCountedHere(View(d, i), s);
  }

  lemma {:induction false} RunCounted(cs: seq<Config>, disk0: seq<byte>, steps: seq<(nat, Protocol.Step)>)
    requires (forall i :: 0 <= i < |cs| ==> ValidConfig(cs[i])) && Run(Init(cs, disk0), steps).At?
    ensures Counted(Run(Init(cs, disk0), steps).d)
    decreases |steps|
  {
    if steps == [] {
    } else {
      var n := |steps| - 1;
      RunCounted(cs, disk0, steps[..n]);
      StepCounted(Run(Init(cs, disk0), steps[..n]).d, steps[n].0, steps[n].1);
    }
  }

  /** In state d, which comes before the log, the p-th request of the log has been answered. */
  ghost predicate Answered(d: Device, log: seq<Entry>, p: nat) {
    && p < |log| && log[p].queue < |d.queues| && log[p].tag < |d.queues[log[p].queue].served|
    && |RequestsFor(log[..p], log[p].queue, log[p].tag)| < |d.queues[log[p].queue].served[log[p].tag]|
  }

  /** In state d, which comes before the log, the p-th request of the log has not been issued. */
  ghost predicate NotIssued(d: Device, log: seq<Entry>, p: nat) {
    && p < |log| && log[p].queue < |d.queues| && log[p].tag < |d.queues[log[p].queue].issued|
    && |RequestsFor(log[..p], log[p].queue, log[p].tag)| >= |d.queues[log[p].queue].issued[log[p].tag]|
  }

  lemma AnsweredIsLogged(d: Device, log: seq<Entry>, p: nat)
    requires Merged(d) && Counted(d) && d.log <= log && Answered(d, log, p)
    ensures p < |d.log|
  {
    var i, t := log[p].queue, log[p].tag;
    assert RequestsFor(d.log, i, t) == RequestsOf(d.queues[i].log, t);
    if p >= |d.log| {
      assert log[..p][..|d.log|] == d.log;
      CountMono(log[..p], |d.log|, i, t);
    }
  }

  lemma NotIssuedIsNotLogged(d: Device, log: seq<Entry>, p: nat)
    requires Merged(d) && Counted(d) && AllLocal(d) && Shaped(d) && d.log <= log && NotIssued(d, log, p)
    ensures |d.log| <= p
  {
    var i, t := log[p].queue, log[p].tag;
    assert RequestsFor(d.log, i, t) == RequestsOf(d.queues[i].log, t);
    assert Answers(d.queues[i].c, |d.disk|, View(d, i).issued[t], View(d, i).served[t]) by {
      assert LocalInv(View(d, i));
    }
    if p < |d.log| {
      assert d.log[..p] == log[..p];
      CountBefore(d.log, p, i, t);
    }
  }

  /** A request answered before another is issued, by whichever queues and tags, comes earlier in the log,
      and so in the serial order: the device is linearizable. */
  lemma RealTimeOrder(cs: seq<Config>, disk0: seq<byte>, steps: seq<(nat, Protocol.Step)>, m: nat, p: nat, r: nat)
    requires (forall i :: 0 <= i < |cs| ==> ValidConfig(cs[i])) && Run(Init(cs, disk0), steps).At? && m <= |steps|
    requires Run(Init(cs, disk0), steps[..m]).At?
    requires Answered(Run(Init(cs, disk0), steps[..m]).d, Run(Init(cs, disk0), steps).d.log, p)
    requires NotIssued(Run(Init(cs, disk0), steps[..m]).d, Run(Init(cs, disk0), steps).d.log, r)
    ensures p < r
  {
    var early, log := Run(Init(cs, disk0), steps[..m]).d, Run(Init(cs, disk0), steps).d.log;
    RunDevice(cs, disk0, steps[..m]);
    RunMerged(cs, disk0, steps[..m]);
    RunCounted(cs, disk0, steps[..m]);
    LogGrows(cs, disk0, steps, m);
    AnsweredIsLogged(early, log, p);
    NotIssuedIsNotLogged(early, log, r);
  }

  lemma {:induction false} LogGrows(cs: seq<Config>, disk0: seq<byte>, steps: seq<(nat, Protocol.Step)>, m: nat)
    requires (forall i :: 0 <= i < |cs| ==> ValidConfig(cs[i])) && Run(Init(cs, disk0), steps).At? && m <= |steps|
    ensures Run(Init(cs, disk0), steps[..m]).At?
    ensures Run(Init(cs, disk0), steps[..m]).d.log <= Run(Init(cs, disk0), steps).d.log
    decreases |steps|
  {
    if m == |steps| {
      assert steps[..m] == steps;
    } else {
      var n := |steps| - 1;
      LogGrows(cs, disk0, steps[..n], m);
      assert steps[..n][..m] == steps[..m];
    }
  }
}
