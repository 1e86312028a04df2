/** Every step of the queue protocol keeps the token invariant. */
module ProtocolSafety {
  import opened Words
  import opened Ublk
  import opened Protocol
  import opened ProtocolTokens

  lemma InitTokens(c: Config, disk: seq<byte>)
    requires ValidConfig(c)
    ensures TokenInv(Init(c, disk))
  {
    var q := Init(c, disk);
    assert SqTags([]) == [] && CqTags([]) == [];
    forall t: nat ensures Tokens(q, t) == 0 {}
  }

  // ---- One token per tag ----

  lemma PrimeCount(q: Queue)
    requires Shape(q) && OneToken(q) && Enabled(q, PrimeTag) && q.failed == {}
    ensures OneToken(DoPrime(q)) && !SqFull(q)
  {
    QueuedBound(q);
    var x := MakeSqe(q.c, Fetch, q.primed, 0);
    var r := DoPrime(q);
    forall t: nat
      ensures Tokens(r, t) == Tokens(q, t) + if r.primed > q.primed && t == q.primed then 1 else 0
    {
      SqAppend(q.local, [x], t);
      SqOne(x, t);
    }
  }

  lemma FlushCount(q: Queue, ok: bool)
    requires Shape(q) && OneToken(q)
    ensures OneToken(DoFlush(q, ok))
  {
    var r := DoFlush(q, ok);
    forall t: nat ensures Tokens(r, t) == Tokens(q, t) {
      SqAppend(q.shared, q.local, t);
      assert SqTags([]) == [];
    }
  }

  lemma DrainCount(q: Queue, n: nat)
    requires Shape(q) && OneToken(q) && n <= |q.cq| && q.batch == []
    ensures OneToken(DoDrain(q, n))
  {
    var r := DoDrain(q, n);
    assert q.cq == q.cq[..n] + q.cq[n..];
    forall t: nat ensures Tokens(r, t) == Tokens(q, t) {
      CqAppend(q.cq[..n], q.cq[n..], t);
      assert CqTags([]) == [];
    }
  }

  /** The tag at the head of the batch is nowhere else. */
  lemma HeadIsAlone(q: Queue)
    requires Shape(q) && OneToken(q) && q.batch != []
    ensures
      var t := DecodeTag(q.batch[0].userData);
      && t < q.primed && !q.tagState[t].Owned?
      && Absent(q.(batch := q.batch[1..]), t)
  {
    var t := DecodeTag(q.batch[0].userData);
    CqHead(q.batch, t);
    assert Tokens(q, t) <= 1;
    CountedAbsent(q.(batch := q.batch[1..]), t);
  }

  /** What taking the head of the batch changes. */
  lemma TakeEffect(q: Queue)
    requires Shape(q) && OneToken(q) && q.batch != []
    ensures
      var r, tag := DoTake(q), DecodeTag(q.batch[0].userData);
      && r.local == q.local && r.shared == q.shared && r.armed == q.armed && r.cq == q.cq
      && r.batch == q.batch[1..] && r.primed == q.primed && tag < q.primed
      && ((r.tagState == q.tagState && r.failed == {tag})
          || (r.tagState == q.tagState[tag := Owned] && r.failed == q.failed))
  {
    HeadIsAlone(q);
  }

  lemma TakeCount(q: Queue)
    requires Shape(q) && OneToken(q) && Enabled(q, Take) && q.failed == {}
    ensures OneToken(DoTake(q))
  {
    var r := DoTake(q);
    HeadIsAlone(q);
    TakeEffect(q);
    forall t: nat
      ensures if t >= r.primed then Tokens(r, t) == 0
        else if t in r.failed then Tokens(r, t) <= 1 else Tokens(r, t) == 1
    {
      PopCount(q, r, t);
    }
  }

  lemma PopCount(q: Queue, r: Queue, t: nat)
    requires Shape(q) && Shape(r) && OneToken(q) && q.batch != [] && q.failed == {} && r.c == q.c
    requires r.local == q.local && r.shared == q.shared && r.armed == q.armed && r.cq == q.cq
    requires r.batch == q.batch[1..] && r.primed == q.primed
    requires
      var tag := DecodeTag(q.batch[0].userData);
      && tag < q.primed && !q.tagState[tag].Owned?
      && ((r.tagState == q.tagState && r.failed == {tag}) || (r.tagState == q.tagState[tag := Owned] && r.failed == {}))
    ensures if t >= r.primed then Tokens(r, t) == 0 else if t in r.failed then Tokens(r, t) <= 1 else Tokens(r, t) == 1
  {
    CqHead(q.batch, t);
    assert if t >= q.primed then Tokens(q, t) == 0 else Tokens(q, t) == 1;
  }

  /** A step that moves no command and changes no tag's state. */
  lemma SameCount(q: Queue, r: Queue)
    requires Shape(q) && Shape(r) && OneToken(q)
    requires r.local == q.local && r.shared == q.shared && r.armed == q.armed && r.cq == q.cq && r.batch == q.batch
    requires r.c == q.c && r.tagState == q.tagState && r.primed == q.primed && q.failed <= r.failed
    ensures OneToken(r)
  {
    forall t: nat ensures Tokens(r, t) == Tokens(q, t) {}
  }

  /** An Owned tag is nowhere else. */
  lemma OwnedIsAlone(q: Queue, t: nat)
    requires Shape(q) && OneToken(q) && t < q.c.depth && q.tagState[t].Owned?
    ensures t < q.primed && Absent(q, t)
  {
    assert Tokens(q, t) <= 1;
    CountedAbsent(q, t);
  }

  lemma CommitCount(q: Queue)
    requires Shape(q) && OneToken(q) && Enabled(q, CommitTag) && q.tagState[q.phase.tag].Owned?
    ensures OneToken(DoCommit(q)) && !SqFull(q)
  {
    var tag := q.phase.tag;
    RoomFor(q, tag);
    var x := MakeSqe(q.c, Commit, tag, CommitResult(q.phase.desc, q.phase.ioErr));
    var r := DoCommit(q);
    forall t: nat ensures Tokens(r, t) == Tokens(q, t) {
      SqAppend(q.local, [x], t);
      SqOne(x, t);
    }
  }

  lemma ConsumeCount(q: Queue)
    requires Shape(q) && OneToken(q) && q.shared != []
    ensures OneToken(DoConsume(q)) && q.shared[0].cmd.tag !in q.armed
  {
    var r := DoConsume(q);
    var x := q.shared[0];
    SqHead(q.shared, x.cmd.tag);
    assert Tokens(q, x.cmd.tag) <= 1;
    forall t: nat ensures Tokens(r, t) == Tokens(q, t) { SqHead(q.shared, t); }
  }

  lemma CompleteCount(q: Queue, tag: nat, res: int, d: Desc, data: seq<byte>)
    requires Shape(q) && OneToken(q) && Enabled(q, Complete(tag, res, d, data))
    requires DecodeTag(q.armed[tag].userData) == tag
    ensures OneToken(DoComplete(q, tag, res, d, data))
  {
    var r := DoComplete(q, tag, res, d, data);
    var e := Cqe(q.armed[tag].userData, res);
    forall t: nat ensures Tokens(r, t) == Tokens(q, t) {
      CqAppend(q.cq, [e], t);
      CqOne(e, t);
    }
  }

  // ---- Tokens carry the command their tag's state says ----

  lemma PrimeMatches(q: Queue)
    requires Shape(q) && Matches(q) && Phases(q) && Enabled(q, PrimeTag) && !SqFull(q)
    ensures Matches(DoPrime(q))
  {
    var x := MakeSqe(q.c, Fetch, q.primed, 0);
    assert GoodSqe(q.c, q.tagState, q.primed + 1, x);
  }

  lemma TakeMatches(q: Queue)
    requires Shape(q) && OneToken(q) && Matches(q) && Enabled(q, Take)
    ensures Matches(DoTake(q))
  {
    HeadIsAlone(q);
    var r := q.(batch := q.batch[1..]);
    assert Matches(r);
    AbsentFrame(r, DecodeTag(q.batch[0].userData), Owned);
  }

  lemma CommitMatches(q: Queue)
    requires Shape(q) && OneToken(q) && Matches(q) && Enabled(q, CommitTag) && q.tagState[q.phase.tag].Owned?
    ensures Matches(DoCommit(q))
  {
    var tag := q.phase.tag;
    OwnedIsAlone(q, tag);
    AbsentFrame(q, tag, InFlightCommit);
    var x := MakeSqe(q.c, Commit, tag, CommitResult(q.phase.desc, q.phase.ioErr));
    assert GoodSqe(q.c, q.tagState[tag := InFlightCommit], q.primed, x);
  }

  lemma CompleteMatches(q: Queue, tag: nat, res: int, d: Desc, data: seq<byte>)
    requires Shape(q) && Matches(q) && Enabled(q, Complete(tag, res, d, data))
    ensures Matches(DoComplete(q, tag, res, d, data))
    ensures DecodeTag(q.armed[tag].userData) == tag
  {
    CompletionDecodes(q.c, q.tagState, q.primed, q.armed[tag], res);
  }

  lemma MoveMatches(q: Queue, s: Step)
    requires Shape(q) && Matches(q) && Enabled(q, s) && (s.Flush? || s.Drain? || s.Consume?)
    ensures Matches(Apply(q, s))
  {
    var r := Apply(q, s);
    assert r.c == q.c && r.tagState == q.tagState && r.primed == q.primed;
  }

  lemma StepMatches(q: Queue, s: Step)
    requires Shape(q) && OneToken(q) && Matches(q) && Phases(q) && Enabled(q, s)
    ensures Matches(Apply(q, s))
  {
    match s
    case PrimeTag => PrimeCount(q); PrimeMatches(q);
    case Take => TakeMatches(q);
    case CommitTag => CommitMatches(q);
    case Complete(tag, res, d, data) => CompleteMatches(q, tag, res, d, data);
    case Flush(ok) => MoveMatches(q, s);
    case Drain(n) => MoveMatches(q, s);
    case Consume => MoveMatches(q, s);
    case WaitError =>
    case Serve(pool) =>
  }

  lemma StepCount(q: Queue, s: Step)
    requires TokenInv(q) && Enabled(q, s)
    ensures OneToken(Apply(q, s))
  {
    match s
    case PrimeTag => PrimeCount(q);
    case Flush(ok) => FlushCount(q, ok);
    case Drain(n) => DrainCount(q, n);
    case WaitError => SameCount(q, Apply(q, s));
    case Take => TakeCount(q);
    case Serve(pool) => SameCount(q, Apply(q, s));
    case CommitTag => CommitCount(q);
    case Consume => ConsumeCount(q);
    case Complete(tag, res, d, data) =>
      CompleteMatches(q, tag, res, d, data);
      CompleteCount(q, tag, res, d, data);
  }

  // ---- Phases ----

  lemma TakePhases(q: Queue)
    requires Shape(q) && Phases(q) && Enabled(q, Take)
    requires DecodeTag(q.batch[0].userData) < q.c.depth && !q.tagState[DecodeTag(q.batch[0].userData)].Owned?
    ensures Phases(DoTake(q))
  {
  }

  lemma StepPhases(q: Queue, s: Step)
    requires Shape(q) && Phases(q) && Enabled(q, s) && !s.Take?
    requires s.PrimeTag? || s.CommitTag? ==> !SqFull(q)
    ensures Phases(Apply(q, s))
  {
  }

  /** The invariant is kept by every step of the runner and of the kernel. */
  lemma StepTokens(q: Queue, s: Step)
    requires TokenInv(q) && Enabled(q, s)
    ensures TokenInv(Apply(q, s))
  {
    StepCount(q, s);
    StepMatches(q, s);
    if s.PrimeTag? {
      PrimeCount(q);
    } else if s.CommitTag? {
      CommitCount(q);
    }
    if s.Take? {
      HeadIsAlone(q);
      TakePhases(q);
    } else {
      StepPhases(q, s);
    }
  }

  lemma {:induction false} RunTokens(c: Config, disk: seq<byte>, steps: seq<Step>)
    requires ValidConfig(c) && Run(Init(c, disk), steps).At?
    ensures TokenInv(Run(Init(c, disk), steps).q)
    decreases |steps|
  {
    if steps == [] {
      InitTokens(c, disk);
    } else {
      var n := |steps| - 1;
      RunTokens(c, disk, steps[..n]);
      StepTokens(Run(Init(c, disk), steps[..n]).q, steps[n]);
    }
  }
}
