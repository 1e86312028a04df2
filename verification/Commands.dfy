/** What a device may ask of the kernel, in which order. The log records control commands with their
    outcomes, opens of the character device, and each queue runner's creation, fetches and close. */
module Commands {

  datatype Opened = Open | NeverAppeared | Refused

  datatype Event =
    | AddDev(ok: bool)
    | SetParams(ok: bool)
    | OpenChar(result: Opened)
    | Create(runner: nat, queue: nat)
    | Fetch(runner: nat, tag: nat)
    | Close(runner: nat)
    | StartDev(ok: bool)
    | StopDev(ok: bool)
    | DelDev(ok: bool)

  datatype Shape = Shape(queues: nat, depth: nat)

  /** What the log so far amounts to. */
  datatype Monitor = Monitor(
    added: bool,
    online: bool,
    deleted: bool,
    queueOf: map<nat, nat>,
    closed: set<nat>,
    fetched: set<(nat, nat)>)
  {
    ghost predicate Live(r: nat) {
      r in queueOf && r !in closed
    }

    ghost predicate Serves(r: nat, q: nat) {
      Live(r) && queueOf[r] == q
    }

    ghost predicate Covered(q: nat) {
      exists r: nat :: Serves(r, q)
    }

    /** Runner r has fetched every tag. */
    ghost predicate Primed(c: Shape, r: nat) {
      forall tag: nat :: tag < c.depth ==> (r, tag) in fetched
    }

    /** Every queue has one live runner, and each has fetched every tag. */
    ghost predicate Ready(c: Shape) {
      && (forall q: nat :: q < c.queues ==> Covered(q))
      && (forall r: nat, s: nat, q: nat :: Serves(r, q) && Serves(s, q) ==> r == s)
      && (forall r: nat :: Live(r) ==> Primed(c, r))
    }
  }

  function Start(): Monitor {
    Monitor(false, false, false, map[], {}, {})
  }

  /** The rules: nothing before the device is added or after it is deleted; a runner is created once,
      fetches each tag at most once and is closed at most once, while live; START_DEV needs every queue ready. */
  ghost predicate Allowed(c: Shape, m: Monitor, e: Event) {
    && !m.deleted
    && m.added != e.AddDev?
    && match e
       case Create(r, q) => r !in m.queueOf && r !in m.closed && q < c.queues
       case Fetch(r, tag) => m.Live(r) && tag < c.depth && (r, tag) !in m.fetched
       case Close(r) => m.Live(r)
       case StartDev(ok) => m.Ready(c)
       case _ => true
  }

  function After(m: Monitor, e: Event): Monitor {
    match e
    case AddDev(ok) => m.(added := m.added || ok)
    case StartDev(ok) => m.(online := m.online || ok)
    case StopDev(ok) => m.(online := m.online && !ok)
    case DelDev(ok) => m.(deleted := m.deleted || ok)
    case Create(r, q) => m.(queueOf := m.queueOf[r := q])
    case Fetch(r, tag) => m.(fetched := m.fetched + {(r, tag)})
    case Close(r) => m.(closed := m.closed + {r})
    case _ => m
  }

  function Replay(log: seq<Event>): Monitor {
    if log == [] then Start() else After(Replay(log[..|log| - 1]), log[|log| - 1])
  }

  ghost predicate Legal(c: Shape, log: seq<Event>) {
    log != [] ==>
      var before := log[..|log| - 1];
      Legal(c, before) && Allowed(c, Replay(before), log[|log| - 1])
  }

  // ---- What the monitor remembers is what the log says ----

  lemma {:induction false} RemembersDevice(c: Shape, log: seq<Event>)
    requires Legal(c, log)
    ensures Replay(log).added <==> AddDev(true) in log
    ensures Replay(log).deleted <==> DelDev(true) in log
    decreases |log|
  {
    if log == [] {
    } else {
      var before, e := log[..|log| - 1], log[|log| - 1];
      RemembersDevice(c, before);
      assert log == before + [e];
    }
  }

  lemma {:induction false} RemembersRunners(c: Shape, log: seq<Event>)
    requires Legal(c, log)
    ensures
      var m := Replay(log);
      && (forall r: nat :: r in m.closed <==> Close(r) in log)
      && (forall r: nat, tag: nat :: (r, tag) in m.fetched <==> Fetch(r, tag) in log)
      && (forall r: nat, q: nat :: r in m.queueOf && m.queueOf[r] == q <==> Create(r, q) in log)
    decreases |log|
  {
    if log == [] {
    } else {
      var before, e := log[..|log| - 1], log[|log| - 1];
      RemembersRunners(c, before);
      assert log == before + [e];
    }
  }

  lemma Remembers(c: Shape, log: seq<Event>)
    requires Legal(c, log)
    ensures
      var m := Replay(log);
      && (m.added <==> AddDev(true) in log)
      && (m.deleted <==> DelDev(true) in log)
      && (forall r: nat :: r in m.closed <==> Close(r) in log)
      && (forall r: nat, tag: nat :: (r, tag) in m.fetched <==> Fetch(r, tag) in log)
      && (forall r: nat, q: nat :: r in m.queueOf && m.queueOf[r] == q <==> Create(r, q) in log)
  {
    RemembersDevice(c, log);
    RemembersRunners(c, log);
  }

  lemma {:induction false} LegalPrefix(c: Shape, log: seq<Event>, i: nat)
    requires Legal(c, log) && i <= |log|
    ensures Legal(c, log[..i])
    decreases |log| - i
  {
    if i < |log| {
      LegalPrefix(c, log, i + 1);
      assert log[..i + 1][..i] == log[..i];
    } else {
      assert log[..i] == log;
    }
  }

  /** The rule that event i met. */
  lemma AllowedAt(c: Shape, log: seq<Event>, i: nat)
    requires Legal(c, log) && i < |log|
    ensures Legal(c, log[..i]) && Allowed(c, Replay(log[..i]), log[i])
  {
    LegalPrefix(c, log, i + 1);
    assert log[..i + 1][..i] == log[..i];
  }

  lemma Earlier(log: seq<Event>, i: nat, j: nat)
    requires i < j < |log|
    ensures log[i] in log[..j]
  {
    assert log[..j][i] == log[i];
  }

  // ---- What legal logs guarantee ----

  /** Creations, fetches, closes and the deletion happen at most once each. */
  lemma AtMostOnce(c: Shape, log: seq<Event>, i: nat, j: nat)
    requires Legal(c, log) && i < |log| && j < |log| && log[i] == log[j]
    requires log[i].Create? || log[i].Fetch? || log[i].Close? || log[i] == DelDev(true) || log[i] == AddDev(true)
    ensures i == j
  {
    if i < j {
      AllowedAt(c, log, j);
      Remembers(c, log[..j]);
      Earlier(log, i, j);
    } else if j < i {
      AllowedAt(c, log, i);
      Remembers(c, log[..i]);
      Earlier(log, j, i);
    }
  }

  /** Nothing is asked of the kernel once the device is deleted. */
  lemma NothingAfterDeletion(c: Shape, log: seq<Event>, i: nat)
    requires Legal(c, log) && i < |log| && log[i] == DelDev(true)
    ensures i == |log| - 1
  {
    if i < |log| - 1 {
      Earlier(log, i, |log| - 1);
      AllowedAt(c, log, |log| - 1);
      Remembers(c, log[..|log| - 1]);
    }
  }

  /** Runner r is created for queue q and not closed within the first i events. */
  ghost predicate LiveAt(log: seq<Event>, i: nat, r: nat, q: nat)
    requires i <= |log|
  {
    Create(r, q) in log[..i] && Close(r) !in log[..i]
  }

  /** Event j is a fetch of the tag by queue q's runner, still live at i. */
  ghost predicate FetchFor(log: seq<Event>, i: nat, q: nat, tag: nat, j: nat)
    requires i <= |log|
  {
    j < i && log[j].Fetch? && log[j].tag == tag && LiveAt(log, i, log[j].runner, q)
  }

  /** When START_DEV is issued, every queue and tag has had exactly one fetch from a runner still live. */
  lemma StartAfterFetches(c: Shape, log: seq<Event>, i: nat, q: nat, tag: nat)
    requires Legal(c, log) && i < |log| && log[i].StartDev? && q < c.queues && tag < c.depth
    ensures exists j: nat :: FetchFor(log, i, q, tag, j) && forall k: nat :: FetchFor(log, i, q, tag, k) ==> k == j
  {
    AllowedAt(c, log, i);
    var past := log[..i];
    var m := Replay(past);
    assert m.Covered(q);
    var r: nat :| m.Serves(r, q);
    RunnerAt(c, log, i, r, q);
    assert m.Primed(c, r);
    var j := FetchAt(c, past, r, tag);
    assert log[j] == past[j];
    forall k: nat | FetchFor(log, i, q, tag, k)
      ensures k == j
    {
      RunnerAt(c, log, i, log[k].runner, q);
      AtMostOnce(c, log, j, k);
    }
    assert FetchFor(log, i, q, tag, j);
  }

  lemma RunnerAt(c: Shape, log: seq<Event>, i: nat, r: nat, q: nat)
    requires Legal(c, log) && i <= |log|
    ensures LiveAt(log, i, r, q) <==> Replay(log[..i]).Serves(r, q)
  {
    LegalPrefix(c, log, i);
    Remembers(c, log[..i]);
    var m := Replay(log[..i]);
    assert Create(r, q) in log[..i] <==> r in m.queueOf && m.queueOf[r] == q;
    assert Close(r) in log[..i] <==> r in m.closed;
  }

  lemma FetchAt(c: Shape, log: seq<Event>, r: nat, tag: nat) returns (j: nat)
    requires Legal(c, log) && (r, tag) in Replay(log).fetched
    ensures j < |log| && log[j] == Fetch(r, tag)
  {
    Remembers(c, log);
    assert Fetch(r, tag) in log;
    j :| j < |log| && log[j] == Fetch(r, tag);
  }
}
