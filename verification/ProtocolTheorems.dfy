/** What holds in every state of every run of one queue. */
module ProtocolTheorems {
  import opened Words
  import opened FlatDisk
  import opened Ublk
  import opened RequestIo
  import opened Protocol
  import opened ProtocolTokens
  import opened ProtocolSafety
  import opened ProtocolData

  /** What holds of a queue whatever its backend holds: tokens, histories and results; and while every
      read and write issued is short, the contents of the tag buffers and the log. */
  ghost predicate LocalInv(q: Queue) {
    && TokenInv(q) && Histories(q) && Results(q) && OwnResults(q)
    && (AllShort(q.c, q.issued) ==> Contents(q) && Logged(q))
  }

  /** The same, and while every read and write issued is short, the disk. */
  ghost predicate QueueInv(q: Queue, disk0: seq<byte>) {
    LocalInv(q) && |q.disk| == |disk0| && (AllShort(q.c, q.issued) ==> Atomic(q, disk0))
  }

  lemma InitInv(c: Config, disk0: seq<byte>)
    requires ValidConfig(c)
    ensures QueueInv(Init(c, disk0), disk0)
  {
    InitTokens(c, disk0);
  }

  lemma StepShort(q: Queue, s: Step)
    requires Shape(q) && Enabled(q, s) && AllShort(q.c, Apply(q, s).issued)
    ensures AllShort(q.c, q.issued)
  {
    if s.Serve? {
      ServeEffect(q, s.pool);
    } else {
      HistoryEffect(q, s);
      ShortBefore(q.c, q.issued, Apply(q, s).issued);
    }
  }

  lemma StepLocal(q: Queue, s: Step)
    requires LocalInv(q) && Enabled(q, s)
    ensures LocalInv(Apply(q, s))
  {
    StepTokens(q, s);
    StepHistories(q, s);
    StepResults(q, s);
    StepAnswers(q, s);
    if AllShort(q.c, Apply(q, s).issued) {
      StepShort(q, s);
      StepLogged(q, s);
    }
  }

  /** Every step of the runner and of the kernel keeps the invariant. */
  lemma StepInv(q: Queue, s: Step, disk0: seq<byte>)
    requires QueueInv(q, disk0) && Enabled(q, s)
    ensures QueueInv(Apply(q, s), disk0)
  {
    StepLocal(q, s);
    if AllShort(q.c, Apply(q, s).issued) {
      StepShort(q, s);
      StepAtomic(q, s, disk0);
    }
  }

  lemma {:induction false} RunInv(c: Config, disk0: seq<byte>, steps: seq<Step>)
    requires ValidConfig(c) && Run(Init(c, disk0), steps).At?
    ensures QueueInv(Run(Init(c, disk0), steps).q, disk0)
    decreases |steps|
  {
    if steps == [] {
      InitInv(c, disk0);
    } else {
      var n := |steps| - 1;
      RunInv(c, disk0, steps[..n]);
      StepInv(Run(Init(c, disk0), steps[..n]).q, steps[n], disk0);
    }
  }

  /** Each primed tag is in exactly one place, unless its own completion ended the loop; its state
      says which command is out for it; and the loop never ends with an error that cannot happen. */
  lemma OnePlacePerTag(c: Config, disk0: seq<byte>, steps: seq<Step>, t: nat)
    requires ValidConfig(c) && Run(Init(c, disk0), steps).At?
    ensures
      var q := Run(Init(c, disk0), steps).q;
      && (t >= q.primed ==> Tokens(q, t) == 0)
      && (t < q.primed ==> Tokens(q, t) <= 1)
      && (t < q.primed && !q.phase.Stopped? ==> Tokens(q, t) == 1)
      && (t in q.armed ==> t < q.c.depth && q.tagState[t] == StateOf(q.armed[t].kind))
      && (forall i :: 0 <= i < |q.local| && q.local[i].cmd.tag == t ==> q.tagState[t] == StateOf(q.local[i].kind))
      && (forall i :: 0 <= i < |q.shared| && q.shared[i].cmd.tag == t ==> q.tagState[t] == StateOf(q.shared[i].kind))
      && (q.phase.Stopped? ==> !ShouldNeverHappen(q.phase.err))
  {
    RunTokens(c, disk0, steps);
  }

  /** A completion taken from the ring decodes to a tag within range and to the command that is out for it. */
  lemma CompletionsDecode(c: Config, disk0: seq<byte>, steps: seq<Step>, e: Cqe)
    requires ValidConfig(c) && Run(Init(c, disk0), steps).At?
    requires e in Run(Init(c, disk0), steps).q.batch || e in Run(Init(c, disk0), steps).q.cq
    ensures
      var q, t := Run(Init(c, disk0), steps).q, DecodeTag(e.userData);
      && t < q.c.depth
      && q.tagState[t] == (if DecodeCommit(e.userData) then InFlightCommit else InFlightFetch)
      && e.userData == EncodeUserData(if DecodeCommit(e.userData) then Commit else Fetch, c.qid, t)
  {
    RunTokens(c, disk0, steps);
    var q := Run(Init(c, disk0), steps).q;
    if e in q.batch {
      var i :| 0 <= i < |q.batch| && q.batch[i] == e;
      assert GoodCqe(q.c, q.tagState, q.primed, q.batch[i]);
    } else {
      var i :| 0 <= i < |q.cq| && q.cq[i] == e;
      assert GoodCqe(q.c, q.tagState, q.primed, q.cq[i]);
    }
  }

  /** However few of the published entries the kernel has taken: there is room whenever the runner
      prepares, room in the completion ring whenever the kernel posts, and a batch never exceeds it. */
  lemma RingsNeverFull(c: Config, disk0: seq<byte>, steps: seq<Step>)
    requires ValidConfig(c) && Run(Init(c, disk0), steps).At?
    ensures
      var q := Run(Init(c, disk0), steps).q;
      && (Enabled(q, PrimeTag) || Enabled(q, CommitTag) ==> |q.local| + |q.shared| < c.sqEntries)
      && |q.local| + |q.shared| + |q.cq| + |q.batch| <= c.depth
      && (q.armed != map[] ==> |q.cq| < c.cqEntries)
      && |q.batch| <= c.cqEntries
  {
    RunTokens(c, disk0, steps);
    var q := Run(Init(c, disk0), steps).q;
    QueuedBound(q);
    if Enabled(q, CommitTag) {
      RoomFor(q, q.phase.tag);
    }
    if q.armed != map[] {
      var t :| t in q.armed;
      assert GoodSqe(q.c, q.tagState, q.primed, q.armed[t]);
      RoomFor(q, t);
    }
  }

  /** Between iterations of the I/O loop no tag is Owned, nothing is unpublished and nothing unhandled. */
  lemma QuietBetweenIterations(c: Config, disk0: seq<byte>, steps: seq<Step>)
    requires ValidConfig(c) && Run(Init(c, disk0), steps).At? && Run(Init(c, disk0), steps).q.phase.Idle?
    ensures
      var q := Run(Init(c, disk0), steps).q;
      && q.primed == c.depth && q.local == [] && q.batch == []
      && forall t :: 0 <= t < c.depth ==> !q.tagState[t].Owned?
  {
    RunTokens(c, disk0, steps);
  }

  /** While every read and write issued is at most BUF bytes long, the queue is an atomic disk: the backend
      holds what serving the log serially leaves, every answer is the serial one, and the log
      interleaves, for each tag, the requests issued to it in their order. */
  lemma IsAtomicDisk(c: Config, disk0: seq<byte>, steps: seq<Step>)
    requires ValidConfig(c) && Run(Init(c, disk0), steps).At?
    requires AllShort(c, Run(Init(c, disk0), steps).q.issued)
    ensures
      var q := Run(Init(c, disk0), steps).q;
      && AllSmall(c, q.log)
      && q.disk == DiskAfter(c, disk0, q.log)
      && forall t :: 0 <= t < c.depth ==>
           && q.served[t] == RepliesTo(c, disk0, q.log, t)
           && |q.served[t]| <= |q.issued[t]|
           && RequestsOf(q.log, t) == q.issued[t][..|q.served[t]|]
  {
    RunInv(c, disk0, steps);
  }

  /** At most one request per tag is unanswered, and only while its completion is on its way to the
      runner or being served. */
  lemma AnsweredOnce(c: Config, disk0: seq<byte>, steps: seq<Step>, t: nat)
    requires ValidConfig(c) && Run(Init(c, disk0), steps).At? && t < c.depth
    requires t !in Run(Init(c, disk0), steps).q.failed
    ensures
      var q := Run(Init(c, disk0), steps).q;
      |q.issued[t]| == |q.served[t]| + if Pending(q, t) then 1 else 0
  {
    RunInv(c, disk0, steps);
    assert TagHistory(Run(Init(c, disk0), steps).q, t);
  }

  /** The command is prepared, published, or in the kernel. */
  ghost predicate IsOut(q: Queue, s: Sqe) {
    s in q.local || s in q.shared || (s.cmd.tag in q.armed && q.armed[s.cmd.tag] == s)
  }

  lemma OutFacts(q: Queue, s: Sqe)
    requires TokenInv(q) && Results(q) && IsOut(q, s)
    ensures GoodSqe(q.c, q.tagState, q.primed, s) && Carries(q.served, s) && !Pending(q, s.cmd.tag)
  {
    if s in q.local {
      var i :| 0 <= i < |q.local| && q.local[i] == s;
      assert SqTags(q.local)[i] == s.cmd.tag;
      assert s.cmd.tag in multiset(SqTags(q.local));
    } else if s in q.shared {
      var i :| 0 <= i < |q.shared| && q.shared[i] == s;
      assert SqTags(q.shared)[i] == s.cmd.tag;
      assert s.cmd.tag in multiset(SqTags(q.shared));
    }
    OutIsAlone(q, s.cmd.tag);
  }

  /** While a COMMIT is in the submission ring or in the kernel, it carries the result of the tag's
      last answer and the tag's buffer address; and while every read and write issued is at most BUF bytes
      long, that buffer still holds the answer's bytes. */
  lemma KernelSeesTheAnswer(c: Config, disk0: seq<byte>, steps: seq<Step>, s: Sqe)
    requires ValidConfig(c) && Run(Init(c, disk0), steps).At?
    requires
      var q := Run(Init(c, disk0), steps).q;
      IsOut(q, s) && s.kind.Commit? && s.cmd.tag !in q.failed
    ensures
      var q, t := Run(Init(c, disk0), steps).q, s.cmd.tag;
      && t < c.depth && q.served[t] != []
      && s.cmd.result == Last(q.served[t]).result
      && s.cmd.addr == c.base + BufAt(t)
      && (AllShort(c, q.issued) ==> TagBuffer(q.mem, t) == Last(q.served[t]).buffer)
  {
    RunInv(c, disk0, steps);
    var q := Run(Init(c, disk0), steps).q;
    OutFacts(q, s);
    assert TagHistory(q, s.cmd.tag);
    assert AllShort(c, q.issued) ==> TagContents(q, s.cmd.tag);
  }

  // ---- Requests longer than a tag's buffer ----

  /** Tag t has bytes to keep, and its buffer holds them. */
  ghost predicate HoldsBytes(q: Queue, t: nat) {
    Shape(q) && t < q.c.depth && TagHistory(q, t) && TagContents(q, t) && (Pending(q, t) || q.served[t] != [])
  }

  /** Whatever data a request of descriptor d brings to one tag, tag t's buffer holds its bytes after it. */
  ghost predicate Spares(q: Queue, tag: nat, d: Desc, t: nat)
    requires Shape(q) && tag < q.c.depth
  {
    forall data: seq<byte> :: CanComplete(q, tag, d, data) ==> HoldsBytes(DoComplete(q, tag, 0, d, data), t)
  }

  predicate Sparing(c: Config, d: Desc) {
    GetOp(d) != OP_WRITE || Length(c, d) <= BUF
  }

  lemma ShortSpares(q: Queue, tag: nat, d: Desc, t: nat)
    requires tag in q.armed && tag < q.c.depth && t != tag && HoldsBytes(q, t) && Sparing(q.c, d)
    requires q.armed[tag].cmd.addr == BufferAddr(q.c, tag) && DecodeTag(q.armed[tag].userData) == tag
    requires !Pending(q, tag)
    ensures Spares(q, tag, d, t)
  {
    forall data: seq<byte> | CanComplete(q, tag, d, data)
      ensures HoldsBytes(DoComplete(q, tag, 0, d, data), t)
    {
      CompleteTag(q, tag, 0, d, data, t);
      CompletePending(q, tag, 0, d, data, t);
    }
  }

  /** A completion that reaches one byte into the next buffer. */
  lemma IntruderCompletes(q: Queue, tag: nat, d: Desc)
    requires Shape(q) && tag in q.armed && tag + 1 < q.c.depth && !Sparing(q.c, d)
    requires q.armed[tag].cmd.addr == BufferAddr(q.c, tag)
    ensures HasBuffer(q.mem, tag + 1) && CanComplete(q, tag, d, Intruder(q.mem, tag))
    ensures
      var r := DoComplete(q, tag, 0, d, Intruder(q.mem, tag));
      && r.issued[tag + 1] == q.issued[tag + 1] && r.served == q.served
      && TagBuffer(r.mem, tag + 1) != TagBuffer(q.mem, tag + 1)
  {
    IntruderReaches(q.mem, tag);
  }

  lemma ArmedCommand(q: Queue, tag: nat)
    requires TokenInv(q) && tag in q.armed
    ensures q.armed[tag].cmd.addr == BufferAddr(q.c, tag) && DecodeTag(q.armed[tag].userData) == tag
    ensures tag < q.c.depth && !Pending(q, tag)
  {
    assert GoodSqe(q.c, q.tagState, q.primed, q.armed[tag]);
    CompletionDecodes(q.c, q.tagState, q.primed, q.armed[tag], 0);
    OutIsAlone(q, tag);
  }

  lemma LongIntrudes(q: Queue, tag: nat, d: Desc)
    requires tag in q.armed && HoldsBytes(q, tag + 1) && !Sparing(q.c, d)
    requires q.armed[tag].cmd.addr == BufferAddr(q.c, tag) && DecodeTag(q.armed[tag].userData) == tag
    ensures !Spares(q, tag, d, tag + 1)
  {
    IntruderCompletes(q, tag, d);
    var data := Intruder(q.mem, tag);
    CompletePending(q, tag, 0, d, data, tag + 1);
    BytesLost(q, DoComplete(q, tag, 0, d, data), tag + 1);
  }

  lemma BytesLost(q: Queue, r: Queue, t: nat)
    requires HoldsBytes(q, t) && Shape(r) && r.c == q.c && r.issued[t] == q.issued[t] && r.served[t] == q.served[t]
    requires (Pending(r, t) <==> Pending(q, t)) && TagBuffer(r.mem, t) != TagBuffer(q.mem, t)
    ensures !HoldsBytes(r, t)
  {
  }

  lemma SparesExactly(q: Queue, tag: nat, d: Desc)
    requires TokenInv(q) && tag in q.armed && tag + 1 < q.c.depth && HoldsBytes(q, tag + 1)
    ensures Spares(q, tag, d, tag + 1) <==> Sparing(q.c, d)
  {
    ArmedCommand(q, tag);
    if Sparing(q.c, d) {
      ShortSpares(q, tag, d, tag + 1);
    } else {
      LongIntrudes(q, tag, d);
    }
  }

  /** In any state of any run, a request issued to one tag spares the bytes in the next tag's buffer,
      whatever data it brings, exactly when it is no write or at most BUF bytes long. */
  lemma SparesExactlyUpToBuf(c: Config, disk0: seq<byte>, steps: seq<Step>, tag: nat, d: Desc)
    requires ValidConfig(c) && Run(Init(c, disk0), steps).At? && tag + 1 < c.depth
    requires tag in Run(Init(c, disk0), steps).q.armed && HoldsBytes(Run(Init(c, disk0), steps).q, tag + 1)
    ensures Spares(Run(Init(c, disk0), steps).q, tag, d, tag + 1) <==> GetOp(d) != OP_WRITE || Length(c, d) <= BUF
  {
    RunTokens(c, disk0, steps);
    SparesExactly(Run(Init(c, disk0), steps).q, tag, d);
  }

  /** A buffer's worth of bytes and one more, which differs from what the next buffer begins with. */
  function Intruder(mem: seq<byte>, tag: nat): (data: seq<byte>)
    requires HasBuffer(mem, tag + 1)
    ensures |data| == BUF + 1
  {
    Zeros(BUF) + [if mem[BufAt(tag + 1)] == 0 then 1 else 0]
  }

  lemma IntruderReaches(mem: seq<byte>, tag: nat)
    requires HasBuffer(mem, tag + 1)
    ensures TagBuffer(Splice(mem, BufAt(tag), Intruder(mem, tag)), tag + 1) != TagBuffer(mem, tag + 1)
  {
    var m := Splice(mem, BufAt(tag), Intruder(mem, tag));
    assert m[BufAt(tag + 1)] == Intruder(mem, tag)[BUF];
    assert TagBuffer(m, tag + 1)[0] == m[BufAt(tag + 1)];
    assert TagBuffer(mem, tag + 1)[0] == mem[BufAt(tag + 1)];
  }

  // ---- Commits over a whole run ----

  /** The results of the COMMITs prepared for tag t along a run. */
  ghost function Commits(q0: Queue, steps: seq<Step>, t: nat): seq<int>
    requires Shape(q0) && Run(q0, steps).At?
    decreases |steps|
  {
    if steps == [] then []
    else
      var n := |steps| - 1;
      var q := Run(q0, steps[..n]).q;
      Commits(q0, steps[..n], t)
      + if steps[n].CommitTag? && q.phase.tag == t && Apply(q, steps[n]).phase.Handling?
        then [Last(Apply(q, steps[n]).local).cmd.result] else []
  }

  /** The successful completions handled for tag t along a run. */
  ghost function Handled(q0: Queue, steps: seq<Step>, t: nat): nat
    requires Shape(q0) && Run(q0, steps).At?
    decreases |steps|
  {
    if steps == [] then 0
    else
      var n := |steps| - 1;
      var q := Run(q0, steps[..n]).q;
      Handled(q0, steps[..n], t)
      + if steps[n].Take? && q.batch[0].res == 0 && DecodeTag(q.batch[0].userData) == t then 1 else 0
  }

  function ResultsOf(rs: seq<Reply>): (r: seq<int>)
    ensures |r| == |rs|
    ensures forall i :: 0 <= i < |rs| ==> r[i] == rs[i].result
  {
    seq(|rs|, i requires 0 <= i < |rs| => rs[i].result)
  }

  /** The answers committed so far. */
  function Committed(q: Queue, t: nat): seq<Reply>
    requires Shape(q) && t < q.c.depth
  {
    if q.phase.Committing? && q.phase.tag == t && q.served[t] != []
    then q.served[t][..|q.served[t]| - 1] else q.served[t]
  }

  lemma StepCommits(q: Queue, s: Step, t: nat)
    requires Shape(q) && OneToken(q) && Phases(q) && Results(q) && Enabled(q, s) && t < q.c.depth
    ensures ResultsOf(Committed(Apply(q, s), t)) == ResultsOf(Committed(q, t)) +
      if s.CommitTag? && q.phase.tag == t && Apply(q, s).phase.Handling?
      then [Last(Apply(q, s).local).cmd.result] else []
  {
    var r := Apply(q, s);
    if s.CommitTag? {
      CommitCount(q);
      HistoryEffect(q, s);
    } else if s.Serve? {
      ServeEffect(q, s.pool);
      ServeCommitted(q, s.pool, t);
    } else {
      HistoryEffect(q, s);
      assert Committed(r, t) == Committed(q, t);
    }
  }

  lemma ServeCommitted(q: Queue, pool: seq<byte>, t: nat)
    requires Shape(q) && Phases(q) && Enabled(q, Serve(pool)) && t < q.c.depth
    ensures Committed(DoServe(q, pool), t) == Committed(q, t)
  {
    ServeEffect(q, pool);
    var r := DoServe(q, pool);
    if t == q.phase.tag && !r.phase.Stopped? {
      assert r.served[t][..|r.served[t]| - 1] == q.served[t];
    }
  }

  /** The COMMITs prepared for a tag are its answers, each once and in order, save the one being prepared. */
  lemma {:induction false} CommitsAreTheAnswers(c: Config, disk0: seq<byte>, steps: seq<Step>, t: nat)
    requires ValidConfig(c) && Run(Init(c, disk0), steps).At? && t < c.depth
    ensures Commits(Init(c, disk0), steps, t) == ResultsOf(Committed(Run(Init(c, disk0), steps).q, t))
    decreases |steps|
  {
    var q0 := Init(c, disk0);
    if steps == [] {
    } else {
      var n := |steps| - 1;
      CommitsAreTheAnswers(c, disk0, steps[..n], t);
      RunInv(c, disk0, steps[..n]);
      StepCommits(Run(q0, steps[..n]).q, steps[n], t);
    }
  }

  /** The i-th COMMIT prepared for a tag carries the result of the i-th request issued to it: its bytes
      as the descriptor counts them, or an error exactly for unknown operations and writes beyond the end. */
  lemma CommitsCarryTheirOwnResults(c: Config, disk0: seq<byte>, steps: seq<Step>, t: nat, i: nat)
    requires ValidConfig(c) && Run(Init(c, disk0), steps).At? && t < c.depth
    requires i < |Commits(Init(c, disk0), steps, t)|
    ensures
      var issued := Run(Init(c, disk0), steps).q.issued[t];
      && i < |issued|
      && Commits(Init(c, disk0), steps, t)[i] == CommitResult(issued[i].desc, Refused(c, |disk0|, issued[i].desc))
  {
    CommitsAreTheAnswers(c, disk0, steps, t);
    RunInv(c, disk0, steps);
    var q := Run(Init(c, disk0), steps).q;
    assert Answers(q.c, |q.disk|, q.issued[t], q.served[t]);
    assert Committed(q, t) <= q.served[t];
  }

  lemma StepHandled(q: Queue, s: Step, t: nat)
    requires Shape(q) && OneToken(q) && Phases(q) && Enabled(q, s) && t < q.c.depth
    ensures
      var r := Apply(q, s);
      t !in r.failed ==>
        |r.served[t]| + (if r.phase == Serving(t) then 1 else 0)
        == |q.served[t]| + (if q.phase == Serving(t) then 1 else 0)
           + if s.Take? && q.batch[0].res == 0 && DecodeTag(q.batch[0].userData) == t then 1 else 0
  {
    if s.Take? {
      HistoryEffect(q, s);
      TakeServes(q, t);
    } else if s.Serve? {
      ServeEffect(q, s.pool);
    } else {
      HistoryEffect(q, s);
    }
  }

  lemma TakeServes(q: Queue, t: nat)
    requires Shape(q) && OneToken(q) && Enabled(q, Take)
    ensures DoTake(q).phase == Serving(t) <==> q.batch[0].res == 0 && DecodeTag(q.batch[0].userData) == t
  {
    HeadIsAlone(q);
  }

  /** For each tag, the COMMITs prepared are as many as the successful completions handled, less the
      one at hand. */
  lemma {:induction false} OneCommitPerCompletion(c: Config, disk0: seq<byte>, steps: seq<Step>, t: nat)
    requires ValidConfig(c) && Run(Init(c, disk0), steps).At? && t < c.depth
    requires t !in Run(Init(c, disk0), steps).q.failed
    ensures
      var q := Run(Init(c, disk0), steps).q;
      |q.served[t]| + (if q.phase == Serving(t) then 1 else 0) == Handled(Init(c, disk0), steps, t)
    ensures
      var q := Run(Init(c, disk0), steps).q;
      q.phase.Idle? ==> |Commits(Init(c, disk0), steps, t)| == Handled(Init(c, disk0), steps, t)
    decreases |steps|
  {
    var q0 := Init(c, disk0);
    CommitsAreTheAnswers(c, disk0, steps, t);
    if steps == [] {
    } else {
      var n := |steps| - 1;
      RunInv(c, disk0, steps[..n]);
      var q := Run(q0, steps[..n]).q;
      StepHandled(q, steps[n], t);
      FailedStay(q, steps[n]);
      OneCommitPerCompletion(c, disk0, steps[..n], t);
    }
  }
}
