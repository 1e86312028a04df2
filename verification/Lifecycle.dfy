/** The device lifecycle of backend.go. Every outcome the kernel, udev or the scheduler decides is a parameter
    or left open; the log of a Kernel records what the device asked of it. */
module Lifecycle {
  import opened Commands

  class Kernel {
    const shape: Shape
    var log: seq<Event>
    var made: nat
    ghost var m: Monitor

    ghost predicate Valid()
      reads this
    {
      && Legal(shape, log) && m == Replay(log)
      && (forall r: nat :: r in m.queueOf || r in m.closed ==> r < made)
      && (forall r: nat, tag: nat :: (r, tag) in m.fetched ==> r in m.queueOf)
    }

    constructor (c: Shape)
      ensures Valid() && shape == c && log == [] && m == Start()
    {
      shape, log, made, m := c, [], 0, Commands.Start();
    }

    method Issue(e: Event)
      requires Valid() && Allowed(shape, m, e) && !e.Create?
      modifies this`log, this`m
      ensures Valid() && log == old(log) + [e] && m == After(old(m), e)
    {
      Appended(shape, log, e);
      log := log + [e];
      m := After(m, e);
    }

    /** NewRunner: a runner of a new identity, or an error that leaves nothing behind. */
    method NewRunner(queue: nat, ok: bool) returns (r: nat)
      requires Valid() && m.added && !m.deleted && queue < shape.queues
      modifies this
      ensures Valid() && old(log) <= log
      ensures m == if ok then After(old(m), Create(r, queue)) else old(m)
      ensures ok ==> r !in old(m.queueOf) && r !in m.closed
      ensures forall e :: e in log[|old(log)|..] ==> e.Create?
    {
      r := made;
      if ok {
        made := made + 1;
        Appended(shape, log, Create(r, queue));
        log := log + [Create(r, queue)];
        m := After(m, Create(r, queue));
      }
    }

    /** Runner.Start: the I/O loop primes the queue, one FETCH_REQ per tag, until one fails. A fetch whose
        system call fails may have been published before it. The first to fail, if any, is given. */
    method StartRunner(r: nat, failsAt: nat, published: bool) returns (ok: bool)
      requires Valid() && m.added && !m.deleted && m.Live(r) && forall tag: nat :: (r, tag) !in m.fetched
      modifies this`log, this`m
      ensures Valid() && old(log) <= log
      ensures m == old(m).(fetched := m.fetched)
      ensures forall s: nat, tag: nat :: s != r ==> ((s, tag) in m.fetched <==> (s, tag) in old(m.fetched))
      ensures ok <==> failsAt >= shape.depth
      ensures ok ==> m.Primed(shape, r)
      ensures forall e :: e in log[|old(log)|..] ==> e.Fetch?
    {
      for tag := 0 to shape.depth
        invariant Valid() && old(log) <= log
        invariant m == old(m).(fetched := m.fetched)
        invariant forall s: nat, t: nat :: s != r ==> ((s, t) in m.fetched <==> (s, t) in old(m.fetched))
        invariant tag <= failsAt
        invariant forall t: nat :: (r, t) in m.fetched <==> t < tag
        invariant forall e :: e in log[|old(log)|..] ==> e.Fetch?
      {
        if tag < failsAt || published {
          Issue(Fetch(r, tag));
        }
        if tag == failsAt {
          return false;
        }
      }
      return true;
    }

    /** The cleanup loop over a list of runners. */
    method CloseAll(runners: seq<nat>)
      requires Valid() && m.added && !m.deleted
      requires forall i :: 0 <= i < |runners| ==> m.Live(runners[i])
      requires forall i, j :: 0 <= i < j < |runners| ==> runners[i] != runners[j]
      modifies this`log, this`m
      ensures Valid() && old(log) <= log
      ensures m == old(m).(closed := m.closed)
      ensures forall r: nat :: r in m.closed <==> r in old(m.closed) || r in runners
      ensures forall e :: e in log[|old(log)|..] ==> e.Close?
    {
      for i := 0 to |runners|
        invariant Valid() && old(log) <= log
        invariant m == old(m).(closed := m.closed)
        invariant forall r: nat :: r in m.closed <==> r in old(m.closed) || r in runners[..i]
        invariant forall e :: e in log[|old(log)|..] ==> e.Close?
      {
        Issue(Close(runners[i]));
      }
    }
  }

  lemma Appended(c: Shape, log: seq<Event>, e: Event)
    requires Legal(c, log) && Allowed(c, Replay(log), e)
    ensures Legal(c, log + [e]) && Replay(log + [e]) == After(Replay(log), e)
  {
    assert (log + [e])[..|log|] == log;
  }

  // ---- Devices ----

  /** The live runners are exactly those listed, the i-th serving queue i. */
  ghost predicate Staffed(m: Monitor, runners: seq<nat>) {
    && (forall i :: 0 <= i < |runners| ==> m.Serves(runners[i], i))
    && (forall r: nat :: m.Live(r) ==> r in runners)
  }

  ghost predicate AllPrimed(c: Shape, m: Monitor, runners: seq<nat>) {
    forall i :: 0 <= i < |runners| ==> m.Primed(c, runners[i])
  }

  ghost predicate NoneLive(m: Monitor) {
    forall r: nat :: !m.Live(r)
  }

  /** Nothing but runners and START_DEV since the log had this many events. */
  ghost predicate OnlyRunners(log: seq<Event>, from: nat) {
    forall i :: from <= i < |log| ==> log[i].Create? || log[i].Fetch? || log[i].Close? || log[i].StartDev?
  }

  lemma StaffedIsReady(c: Shape, m: Monitor, runners: seq<nat>)
    requires Staffed(m, runners) && AllPrimed(c, m, runners) && |runners| == c.queues
    ensures m.Ready(c)
  {
    forall q: nat | q < c.queues
      ensures m.Covered(q)
    {
      assert m.Serves(runners[q], q);
    }
  }

  /** What becomes of starting the queues: per queue, whether its runner can be created and which tag's
      fetch fails, if one does; whether that fetch was published; and START_DEV. */
  datatype Outcomes = Outcomes(creates: seq<bool>, failsAt: seq<nat>, published: bool, starts: bool)

  predicate ForQueues(c: Shape, o: Outcomes) {
    |o.creates| == |o.failsAt| == c.queues
  }

  predicate AllCreated(c: Shape, o: Outcomes)
    requires ForQueues(c, o)
  {
    forall i :: 0 <= i < c.queues ==> o.creates[i]
  }

  predicate AllFetch(c: Shape, o: Outcomes)
    requires ForQueues(c, o)
  {
    forall i :: 0 <= i < c.queues ==> o.failsAt[i] >= c.depth
  }

  datatype DeviceState = Created | Running | Stopped | Closed

  class Device {
    const k: Kernel
    var started: bool
    var closed: bool
    var cancelled: bool // the context's; there is none before the first start
    var runners: seq<nat>

    ghost predicate Valid()
      reads this, k
    {
      && k.Valid() && k.m.added && closed == k.m.deleted
      && Staffed(k.m, runners)
      && (closed ==> !started)
      && (!started ==> runners == [])
      && (started ==> k.m.online)
      && (started ==> (runners == [] && cancelled) || (|runners| == k.shape.queues && AllPrimed(k.shape, k.m, runners)))
    }

    function State(): DeviceState
      reads this
    {
      if closed then Closed else if !started then Created else if cancelled then Stopped else Running
    }

    constructor (kernel: Kernel)
      requires kernel.Valid() && kernel.m.added && !kernel.m.deleted && NoneLive(kernel.m)
      ensures Valid() && k == kernel && !started && !closed
    {
      k, started, closed, cancelled, runners := kernel, false, false, false, [];
    }

    /** The context given to Start may be cancelled from outside at any time. */
    method ContextCancelled()
      requires Valid()
      modifies this`cancelled
      ensures Valid() && cancelled
    {
      cancelled := true;
    }

    method CloseRunners()
      requires k.Valid() && k.m.added && !k.m.deleted && Staffed(k.m, runners)
      modifies this`runners, k
      ensures k.Valid() && k.m == old(k.m).(closed := k.m.closed)
      ensures runners == [] && Staffed(k.m, [])
      ensures old(k.log) <= k.log && OnlyRunners(k.log, |old(k.log)|)
    {
      k.CloseAll(runners);
      runners := [];
    }

    /** A runner for the next queue. */
    method AddRunner(ok: bool)
      requires k.Valid() && k.m.added && !k.m.deleted && Staffed(k.m, runners) && |runners| < k.shape.queues
      modifies this`runners, k
      ensures k.Valid() && k.m.added && !k.m.deleted && Staffed(k.m, runners)
      ensures k.m == old(k.m).(queueOf := k.m.queueOf)
      ensures if ok then |runners| == |old(runners)| + 1 && old(runners) <= runners else runners == old(runners)
      ensures ok ==> forall tag: nat :: (runners[|old(runners)|], tag) !in k.m.fetched
      ensures old(k.log) <= k.log && OnlyRunners(k.log, |old(k.log)|)
    {
      var r := k.NewRunner(|runners|, ok);
      if ok {
        runners := runners + [r];
      }
    }

    /** Start's first loop: one runner per queue; on failure those made so far are closed. */
    method CreateRunners(o: Outcomes) returns (ok: bool)
      requires ForQueues(k.shape, o) && k.Valid() && k.m.added && !k.m.deleted && runners == [] && Staffed(k.m, [])
      modifies this`runners, k
      ensures k.Valid() && k.m.added && !k.m.deleted && Staffed(k.m, runners)
      ensures ok <==> AllCreated(k.shape, o)
      ensures |runners| == if ok then k.shape.queues else 0
      ensures forall i, tag: nat :: 0 <= i < |runners| ==> (runners[i], tag) !in k.m.fetched
      ensures old(k.log) <= k.log && OnlyRunners(k.log, |old(k.log)|)
    {
      for i := 0 to k.shape.queues
        invariant k.Valid() && k.m.added && !k.m.deleted && Staffed(k.m, runners) && |runners| == i
        invariant forall j, tag: nat :: 0 <= j < |runners| ==> (runners[j], tag) !in k.m.fetched
        invariant old(k.log) <= k.log && OnlyRunners(k.log, |old(k.log)|)
        invariant forall j :: 0 <= j < i ==> o.creates[j]
      {
        AddRunner(o.creates[i]);
        if !o.creates[i] {
          CloseRunners();
          return false;
        }
      }
      return true;
    }

    /** Runner i fetches its tags; the others' fetches stay as they were. */
    method StartRunner(i: nat, failsAt: nat, published: bool) returns (ok: bool)
      requires k.Valid() && k.m.added && !k.m.deleted && Staffed(k.m, runners) && i < |runners|
      requires forall tag: nat :: (runners[i], tag) !in k.m.fetched
      modifies k
      ensures k.Valid() && k.m.added && !k.m.deleted && Staffed(k.m, runners)
      ensures ok <==> failsAt >= k.shape.depth
      ensures ok ==> k.m.Primed(k.shape, runners[i])
      ensures forall j, tag: nat :: 0 <= j < |runners| && j != i ==>
        ((runners[j], tag) in k.m.fetched <==> (runners[j], tag) in old(k.m.fetched))
      ensures old(k.log) <= k.log && OnlyRunners(k.log, |old(k.log)|)
    {
      ok := k.StartRunner(runners[i], failsAt, published);
    }

    lemma StillPrimed(c: Shape, before: Monitor, m: Monitor, i: nat)
      requires i < |runners| && AllPrimed(c, before, runners[..i]) && m.Primed(c, runners[i])
      requires forall j, tag: nat :: 0 <= j < |runners| && j != i ==>
        ((runners[j], tag) in m.fetched <==> (runners[j], tag) in before.fetched)
      ensures AllPrimed(c, m, runners[..i + 1])
    {
      forall j | 0 <= j < i + 1
        ensures m.Primed(c, runners[j])
      {
        if j < i {
          assert before.Primed(c, runners[..i][j]);
        }
      }
    }

    /** Start's second loop: every runner fetches all its tags; on failure all of them are closed. */
    method StartRunners(o: Outcomes) returns (ok: bool)
      requires ForQueues(k.shape, o) && |runners| == k.shape.queues
      requires k.Valid() && k.m.added && !k.m.deleted && Staffed(k.m, runners)
      requires forall i, tag: nat :: 0 <= i < |runners| ==> (runners[i], tag) !in k.m.fetched
      modifies this`runners, k
      ensures k.Valid() && k.m.added && !k.m.deleted && Staffed(k.m, runners)
      ensures ok <==> AllFetch(k.shape, o)
      ensures if ok then runners == old(runners) && AllPrimed(k.shape, k.m, runners) else runners == []
      ensures old(k.log) <= k.log && OnlyRunners(k.log, |old(k.log)|)
    {
      for i := 0 to |runners|
        invariant k.Valid() && k.m.added && !k.m.deleted && runners == old(runners) && Staffed(k.m, runners)
        invariant AllPrimed(k.shape, k.m, runners[..i])
        invariant forall j, tag: nat :: i <= j < |runners| ==> (runners[j], tag) !in k.m.fetched
        invariant old(k.log) <= k.log && OnlyRunners(k.log, |old(k.log)|)
        invariant forall j :: 0 <= j < i ==> o.failsAt[j] >= k.shape.depth
      {
        ghost var before := k.m;
        ok := StartRunner(i, o.failsAt[i], o.published);
        if !ok {
          CloseRunners();
          return;
        }
        StillPrimed(k.shape, before, k.m, i);
      }
      ok := true;
    }

    /** CreateAndServe's loop body: the next queue's runner is created and started at once. */
    method LaunchNext(o: Outcomes) returns (ok: bool)
      requires ForQueues(k.shape, o) && |runners| < k.shape.queues
      requires k.Valid() && k.m.added && !k.m.deleted && Staffed(k.m, runners)
      requires AllPrimed(k.shape, k.m, runners)
      modifies this`runners, k
      ensures k.Valid() && k.m.added && !k.m.deleted && Staffed(k.m, runners)
      ensures ok <==> o.creates[|old(runners)|] && o.failsAt[|old(runners)|] >= k.shape.depth
      ensures ok ==> |runners| == |old(runners)| + 1 && AllPrimed(k.shape, k.m, runners)
      ensures old(k.log) <= k.log && OnlyRunners(k.log, |old(k.log)|)
    {
      var i := |runners|;
      ok := o.creates[i];
      AddRunner(ok);
      if ok {
        ghost var before := k.m;
        assert runners[..i] == old(runners);
        ok := StartRunner(i, o.failsAt[i], o.published);
        if ok {
          StillPrimed(k.shape, before, k.m, i);
          assert runners[..i + 1] == runners;
        }
      }
    }

    /** CreateAndServe's loop. */
    method Launch(o: Outcomes) returns (ok: bool)
      requires ForQueues(k.shape, o) && k.Valid() && k.m.added && !k.m.deleted && runners == [] && Staffed(k.m, [])
      modifies this`runners, k
      ensures k.Valid() && k.m.added && !k.m.deleted && Staffed(k.m, runners)
      ensures ok <==> AllCreated(k.shape, o) && AllFetch(k.shape, o)
      ensures |runners| == if ok then k.shape.queues else 0
      ensures AllPrimed(k.shape, k.m, runners)
      ensures old(k.log) <= k.log && OnlyRunners(k.log, |old(k.log)|)
    {
      for i := 0 to k.shape.queues
        invariant k.Valid() && k.m.added && !k.m.deleted && Staffed(k.m, runners) && |runners| == i
        invariant AllPrimed(k.shape, k.m, runners)
        invariant old(k.log) <= k.log && OnlyRunners(k.log, |old(k.log)|)
        invariant forall j :: 0 <= j < i ==> o.creates[j] && o.failsAt[j] >= k.shape.depth
      {
        ok := LaunchNext(o);
        if !ok {
          CloseRunners();
          return;
        }
      }
      ok := true;
    }

    /** Start, with the outcomes of opening the character device, of starting the queues, of making a
        controller and of START_DEV: it succeeds exactly when they all do. */
    method Start(opening: Opened, o: Outcomes, controller: bool) returns (ok: bool)
      requires Valid() && ForQueues(k.shape, o)
      modifies this, k
      ensures Valid() && closed == old(closed)
      ensures old(closed || started) ==>
        !ok && k.log == old(k.log) && started == old(started) && runners == old(runners) && cancelled == old(cancelled)
      ensures old(!closed && !started) ==> started == ok && (!ok ==> NoneLive(k.m))
      ensures old(!closed && !started) ==>
        (ok <==> opening == Open && AllCreated(k.shape, o) && AllFetch(k.shape, o) && controller && o.starts)
    {
      if closed {
        return false;
      }
      if started {
        return false;
      }
      cancelled := *; // a new context, whose parent may be cancelled already
      k.Issue(OpenChar(opening));
      if opening != Open {
        return false;
      }
      ok := CreateRunners(o);
      if !ok {
        return;
      }
      ok := StartRunners(o);
      if !ok {
        return;
      }
      ok := Activate(controller, o.starts);
    }

    /** Start's end: a controller, then START_DEV. */
    method Activate(controller: bool, starts: bool) returns (ok: bool)
      requires k.Valid() && k.m.added && !k.m.deleted && !closed && !started
      requires Staffed(k.m, runners) && |runners| == k.shape.queues && AllPrimed(k.shape, k.m, runners)
      modifies this`started, this`runners, k
      ensures Valid() && started == ok && (!ok ==> NoneLive(k.m))
      ensures ok <==> controller && starts
    {
      if !controller {
        CloseRunners();
        return false;
      }
      ok := StartDevice(starts);
    }

    /** START_DEV itself; when it fails the runners are closed. */
    method StartDevice(starts: bool) returns (ok: bool)
      requires k.Valid() && k.m.added && !k.m.deleted && !closed && !started
      requires Staffed(k.m, runners) && |runners| == k.shape.queues && AllPrimed(k.shape, k.m, runners)
      modifies this`started, this`runners, k
      ensures Valid() && started == ok == starts
      ensures if ok then runners == old(runners) else NoneLive(k.m)
      ensures old(k.log) <= k.log && OnlyRunners(k.log, |old(k.log)|)
    {
      StaffedIsReady(k.shape, k.m, runners);
      ok := starts;
      k.Issue(StartDev(ok));
      if ok {
        started := true;
      } else {
        CloseRunners();
      }
    }

    /** Stop, with the outcomes of making a controller and of STOP_DEV. */
    method Stop(controller: bool, stopped: bool) returns (ok: bool)
      requires Valid()
      modifies this, k
      ensures Valid() && closed == old(closed)
      ensures old(!closed && started) ==> ok == (controller && stopped)
      ensures old(closed || !started) ==>
        !ok && k.log == old(k.log) && started == old(started) && runners == old(runners) && cancelled == old(cancelled)
      ensures old(!closed && started) ==>
        NoneLive(k.m) && cancelled && k.m.online == !ok && State() == (if ok then Created else Stopped)
      ensures old(!closed && started) && controller ==> k.log != [] && k.log[|k.log| - 1] == StopDev(stopped)
    {
      if closed {
        return false;
      }
      if !started {
        return false;
      }
      cancelled := true;
      CloseRunners();
      if !controller {
        return false;
      }
      k.Issue(StopDev(stopped));
      if stopped {
        started := false;
      }
      return stopped;
    }

    /** Close, with the outcomes of making a controller, of STOP_DEV and of DEL_DEV: it succeeds exactly when
        there is a controller and the deletion succeeds, and it always asks for the deletion then. */
    method Close(controller: bool, stopped: bool, deleted: bool) returns (ok: bool)
      requires Valid()
      modifies this, k
      ensures Valid() && NoneLive(k.m)
      ensures State() == if ok then Closed else Created
      ensures old(closed) ==> ok && k.log == old(k.log)
      ensures old(!closed && started) ==> cancelled
      ensures old(!closed) ==> (ok <==> controller && deleted)
      ensures old(!closed) && controller ==>
        2 <= |k.log| && k.log[|k.log| - 2..] == [StopDev(stopped), DelDev(deleted)]
    {
      if closed {
        return true;
      }
      if started {
        cancelled := true;
        CloseRunners();
        started := false;
      }
      ok := Delete(controller, stopped, deleted);
    }

    /** STOP_DEV, its outcome ignored, then DEL_DEV. */
    method Delete(controller: bool, stopped: bool, deleted: bool) returns (ok: bool)
      requires Valid() && !closed && !started
      modifies this`closed, k
      ensures Valid() && closed == ok == (controller && deleted)
      ensures k.log == if controller then old(k.log) + [StopDev(stopped), DelDev(deleted)] else old(k.log)
    {
      if !controller {
        return false;
      }
      k.Issue(StopDev(stopped));
      k.Issue(DelDev(deleted));
      if deleted {
        closed := true;
      }
      return deleted;
    }
  }

  // ---- Creation ----

  ghost predicate DeleteTried(log: seq<Event>) {
    exists i :: 0 <= i < |log| && log[i].DelDev?
  }

  ghost predicate OpenRefused(log: seq<Event>) {
    exists i :: 0 <= i < |log| && log[i] == OpenChar(Refused)
  }

  lemma NeitherYet(log: seq<Event>)
    requires forall i :: 0 <= i < |log| ==> log[i].AddDev? || log[i].SetParams?
    ensures !DeleteTried(log) && !OpenRefused(log)
  {
  }

  /** Outcomes of the calls that come first: making a controller, ADD_DEV, SET_PARAMS, and opening the
      character device. */
  datatype Script = Script(controller: bool, added: bool, params: bool, opening: Opened)

  /** The part Create and CreateAndServe share: ADD_DEV, then SET_PARAMS. */
  method Register(k: Kernel, s: Script) returns (ok: bool)
    requires k.Valid() && k.log == []
    modifies k
    ensures k.Valid() && NoneLive(k.m) && !OpenRefused(k.log)
    ensures ok <==> s.controller && s.added && s.params
    ensures ok ==> k.log == [AddDev(true), SetParams(true)]
    ensures ok ==> k.m.added && !k.m.deleted && !DeleteTried(k.log)
    ensures !ok ==> (DeleteTried(k.log) <==> k.m.added)
  {
    if !s.controller {
      return false;
    }
    k.Issue(AddDev(s.added));
    NeitherYet(k.log);
    if !s.added {
      return false;
    }
    k.Issue(SetParams(s.params));
    NeitherYet(k.log);
    if !s.params {
      Abandon(k);
    }
    return s.params;
  }

  method Create(k: Kernel, s: Script) returns (d: Device?)
    requires k.Valid() && k.log == []
    modifies k
    ensures k.Valid()
    ensures d != null <==> s.controller && s.added && s.params
    ensures d != null ==> fresh(d) && d.k == k && d.Valid() && d.State() == Created
    ensures d == null ==> NoneLive(k.m) && (k.m.added <==> DeleteTried(k.log))
  {
    var ok := Register(k, s);
    if !ok {
      return null;
    }
    d := new Device(k);
  }

  lemma RunnersDoNotMatter(before: seq<Event>, log: seq<Event>)
    requires before <= log && OnlyRunners(log, |before|)
    ensures DeleteTried(log) <==> DeleteTried(before)
    ensures OpenRefused(log) <==> OpenRefused(before)
  {
    forall i | 0 <= i < |before|
      ensures before[i] == log[i]
    {
    }
    if DeleteTried(before) {
      var i :| 0 <= i < |before| && before[i].DelDev?;
      assert log[i].DelDev?;
    }
    if OpenRefused(before) {
      var i :| 0 <= i < |before| && before[i] == OpenChar(Refused);
      assert log[i] == OpenChar(Refused);
    }
  }

  /** The deletion attempted on the failing paths of CreateAndServe, its outcome ignored. */
  method Abandon(k: Kernel)
    requires k.Valid() && k.m.added && !k.m.deleted
    modifies k
    ensures k.Valid() && k.m.added && (NoneLive(old(k.m)) ==> NoneLive(k.m))
    ensures DeleteTried(k.log) && (OpenRefused(k.log) <==> OpenRefused(old(k.log)))
  {
    var ok := *;
    k.Issue(DelDev(ok));
    assert k.log[|old(k.log)|].DelDev?;
    assert forall r: nat :: k.m.Live(r) == old(k.m).Live(r);
    if OpenRefused(old(k.log)) {
      var i :| 0 <= i < |old(k.log)| && old(k.log)[i] == OpenChar(Refused);
      assert k.log[i] == OpenChar(Refused);
    }
  }

  /** The character device, opened once and shared. */
  method OpenShared(k: Kernel, found: Opened)
    requires k.Valid() && k.m.added && !k.m.deleted && !OpenRefused(k.log) && !DeleteTried(k.log)
    modifies k
    ensures k.Valid() && k.m == old(k.m) && !DeleteTried(k.log)
    ensures k.log == old(k.log) + [OpenChar(found)] && (OpenRefused(k.log) <==> found == Refused)
  {
    k.Issue(OpenChar(found));
    assert k.log[|old(k.log)|] == OpenChar(found);
  }

  /** Everything at once. On failure no runner is left live, and the device that was added is deleted
      except when opening its character device was refused. */
  method CreateAndServe(k: Kernel, s: Script, o: Outcomes) returns (d: Device?)
    requires k.Valid() && k.log == [] && ForQueues(k.shape, o)
    modifies k
    ensures k.Valid()
    ensures d != null <==>
      && s == Script(true, true, true, Open)
      && AllCreated(k.shape, o) && AllFetch(k.shape, o) && o.starts
    ensures d != null ==> fresh(d) && d.k == k && d.Valid() && d.started && |d.runners| == k.shape.queues
    ensures d == null ==> NoneLive(k.m) && (DeleteTried(k.log) <==> k.m.added && !OpenRefused(k.log))
    ensures s == Script(true, true, true, Refused) ==>
      d == null && k.log == [AddDev(true), SetParams(true), OpenChar(Refused)]
  {
    var ok := Register(k, s);
    if !ok {
      return null;
    }
    OpenShared(k, s.opening);
    if s.opening == Refused {
      return null;
    }
    if s.opening == NeverAppeared {
      Abandon(k);
      return null;
    }
    d := Serve(k, o);
  }

  /** CreateAndServe from the open device on. */
  method Serve(k: Kernel, o: Outcomes) returns (d: Device?)
    requires ForQueues(k.shape, o) && k.Valid() && k.m.added && !k.m.deleted
    requires NoneLive(k.m) && !OpenRefused(k.log) && !DeleteTried(k.log)
    modifies k
    ensures k.Valid()
    ensures d != null <==> AllCreated(k.shape, o) && AllFetch(k.shape, o) && o.starts
    ensures d != null ==> fresh(d) && d.k == k && d.Valid() && d.started && |d.runners| == k.shape.queues
    ensures d == null ==> k.m.added && NoneLive(k.m) && DeleteTried(k.log) && !OpenRefused(k.log)
  {
    d := new Device(k);
    d.cancelled := *;
    var ok := d.Launch(o);
    if ok {
      ok := d.StartDevice(o.starts);
    }
    RunnersDoNotMatter(old(k.log), k.log);
    if !ok {
      Abandon(k);
      return null;
    }
  }

  // ---- Two failures ----

  /** A refused open: the device is left registered, and nothing has tried to delete it. */
  method RefusedOpen(c: Shape, o: Outcomes) returns (k: Kernel, d: Device?)
    requires ForQueues(c, o)
    ensures d == null && k.Valid() && k.log == [AddDev(true), SetParams(true), OpenChar(Refused)]
    ensures k.m.added && !DeleteTried(k.log)
  {
    k := new Kernel(c);
    d := CreateAndServe(k, Script(true, true, true, Refused), o);
    assert k.log[0] == AddDev(true);
    assert OpenRefused(k.log) by {
      assert k.log[2] == OpenChar(Refused);
    }
    Remembers(c, k.log);
  }

  /** A Stop whose STOP_DEV fails: no runner serves the device, yet it counts as started, and Start refuses it. */
  method FailedStop(d: Device, opening: Opened, o: Outcomes, controller: bool) returns (restarted: bool)
    requires d.Valid() && d.State() == Running && ForQueues(d.k.shape, o)
    modifies d, d.k
    ensures d.Valid() && d.started && d.State() == Stopped && NoneLive(d.k.m) && !restarted
  {
    var ok := d.Stop(true, false);
    restarted := d.Start(opening, o, controller);
  }

  // ---- What a state tells ----

  /** A running device has one live runner per queue, each with all its tags fetched. */
  lemma RunningServes(d: Device, q: nat)
    requires d.Valid() && d.State() == Running
    ensures |d.runners| == d.k.shape.queues && d.k.m.Ready(d.k.shape)
    ensures q < d.k.shape.queues ==> d.k.m.Serves(d.runners[q], q) && d.k.m.Primed(d.k.shape, d.runners[q])
  {
    StaffedIsReady(d.k.shape, d.k.m, d.runners);
  }

  /** A device not started, or closed, has none. */
  lemma IdleHasNoRunners(d: Device)
    requires d.Valid() && (d.State() == Created || d.State() == Closed)
    ensures d.runners == [] && NoneLive(d.k.m)
  {
  }

  /** DEL_DEV succeeded exactly on closed devices, as their log's last event. */
  lemma ClosedExactlyWhenDeleted(d: Device)
    requires d.Valid()
    ensures d.State() == Closed <==> d.k.log != [] && d.k.log[|d.k.log| - 1] == DelDev(true)
  {
    var log := d.k.log;
    Remembers(d.k.shape, log);
    if d.State() == Closed {
      var i :| 0 <= i < |log| && log[i] == DelDev(true);
      NothingAfterDeletion(d.k.shape, log, i);
    }
  }
}
