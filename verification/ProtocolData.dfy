/** What the queue protocol does with data: every request the kernel issues is answered once, in
    order, by a commit that carries its own result and buffer, and the answers are those of an
    atomic flat disk serving the requests in the order they were handled. */
module ProtocolData {
  import opened Words
  import opened Ublk
  import opened RequestIo
  import opened Protocol
  import opened ProtocolTokens
  import opened ProtocolSafety

  function Last<T>(s: seq<T>): T
    requires s != []
  {
    s[|s| - 1]
  }

  // ---- Requests and answers, per tag ----

  /** A successful completion for tag t is among s. */
  ghost predicate HasOk(s: seq<Cqe>, t: nat) {
    exists i :: 0 <= i < |s| && s[i].res == 0 && DecodeTag(s[i].userData) == t
  }

  /** A request for tag t has been issued and not yet answered. */
  ghost predicate Pending(q: Queue, t: nat) {
    HasOk(q.cq, t) || HasOk(q.batch, t) || q.phase == Serving(t)
  }

  /** Each request is answered once, and the tag's descriptor is that of the one unanswered. */
  ghost predicate TagHistory(q: Queue, t: nat)
    requires Shape(q) && t < q.c.depth
  {
    && |q.issued[t]| == |q.served[t]| + (if Pending(q, t) then 1 else 0)
    && (Pending(q, t) ==> Last(q.issued[t]).desc == q.descs[t])
  }

  /** The tag's buffer holds the bytes of the request unanswered, or else of the last answer. */
  ghost predicate TagContents(q: Queue, t: nat)
    requires Shape(q) && t < q.c.depth && TagHistory(q, t)
  {
    && (Pending(q, t) ==> Last(q.issued[t]).buffer == TagBuffer(q.mem, t))
    && (!Pending(q, t) && q.served[t] != [] ==> TagBuffer(q.mem, t) == Last(q.served[t]).buffer)
  }

  ghost predicate Histories(q: Queue)
    requires Shape(q)
  {
    forall t :: 0 <= t < q.c.depth && t !in q.failed ==> TagHistory(q, t)
  }

  ghost predicate Contents(q: Queue)
    requires Shape(q) && Histories(q)
  {
    forall t :: 0 <= t < q.c.depth && t !in q.failed ==> TagContents(q, t)
  }

  /** No read or write issued so far is longer than one tag's buffer. */
  ghost predicate AllShort(c: Config, issued: seq<seq<Request>>) {
    forall t, i :: 0 <= t < |issued| && 0 <= i < |issued[t]| ==> FitsBuffer(c, issued[t][i].desc)
  }

  lemma ShortBefore(c: Config, before: seq<seq<Request>>, issued: seq<seq<Request>>)
    requires AllShort(c, issued) && |before| == |issued|
    requires forall t :: 0 <= t < |before| ==> before[t] <= issued[t]
    ensures AllShort(c, before)
  {
    forall t, i | 0 <= t < |before| && 0 <= i < |before[t]|
      ensures FitsBuffer(c, before[t][i].desc)
    {
      assert before[t][i] == issued[t][i];
    }
  }

  /** A command carries the result of the last answer given for its tag. */
  predicate Carries(served: seq<seq<Reply>>, s: Sqe) {
    if s.kind.Fetch? then s.cmd.result == 0
    else s.cmd.tag < |served| && served[s.cmd.tag] != [] && s.cmd.result == Last(served[s.cmd.tag]).result
  }

  ghost predicate AllCarry(served: seq<seq<Reply>>, l: seq<Sqe>) {
    forall i :: 0 <= i < |l| ==> Carries(served, l[i])
  }

  ghost predicate Results(q: Queue)
    requires Shape(q)
  {
    && AllCarry(q.served, q.local)
    && AllCarry(q.served, q.shared)
    && (forall t :: t in q.armed ==> Carries(q.served, q.armed[t]))
    && (q.phase.Committing? ==>
          && q.phase.tag < q.c.depth && q.served[q.phase.tag] != []
          && Last(q.served[q.phase.tag]).result == CommitResult(q.phase.desc, q.phase.ioErr))
  }

  lemma HasOkAppend(a: seq<Cqe>, b: seq<Cqe>, t: nat)
    ensures HasOk(a + b, t) <==> HasOk(a, t) || HasOk(b, t)
  {
    if HasOk(a, t) {
      var i :| 0 <= i < |a| && a[i].res == 0 && DecodeTag(a[i].userData) == t;
      assert (a + b)[i] == a[i];
    }
    if HasOk(b, t) {
      var i :| 0 <= i < |b| && b[i].res == 0 && DecodeTag(b[i].userData) == t;
      assert (a + b)[|a| + i] == b[i];
    }
  }

  lemma HasOkOne(e: Cqe, t: nat)
    ensures HasOk([e], t) <==> e.res == 0 && DecodeTag(e.userData) == t
  {
    assert [e][0] == e;
  }

  lemma DrainPending(q: Queue, n: nat, t: nat)
    requires n <= |q.cq| && q.phase.Idle? && q.batch == []
    ensures Pending(DoDrain(q, n), t) <==> Pending(q, t)
  {
    assert q.cq == q.cq[..n] + q.cq[n..];
    HasOkAppend(q.cq[..n], q.cq[n..], t);
  }

  lemma TakePending(q: Queue, t: nat)
    requires Shape(q) && OneToken(q) && Enabled(q, Take) && q.failed == {} && t < q.c.depth && t !in DoTake(q).failed
    ensures Pending(DoTake(q), t) <==> Pending(q, t)
  {
    var e := q.batch[0];
    HeadIsAlone(q);
    assert q.batch == [e] + q.batch[1..];
    HasOkAppend([e], q.batch[1..], t);
    HasOkOne(e, t);
  }

  lemma CompletePending(q: Queue, tag: nat, res: int, d: Desc, data: seq<byte>, t: nat)
    requires Shape(q) && Enabled(q, Complete(tag, res, d, data)) && DecodeTag(q.armed[tag].userData) == tag
    ensures Pending(DoComplete(q, tag, res, d, data), t) <==> Pending(q, t) || (t == tag && res == 0)
  {
    var e := Cqe(q.armed[tag].userData, res);
    HasOkAppend(q.cq, [e], t);
    HasOkOne(e, t);
  }

  /** An owned tag is pending only while it is served. */
  lemma ServePending(q: Queue, pool: seq<byte>, t: nat)
    requires Shape(q) && OneToken(q) && Phases(q) && Enabled(q, Serve(pool))
    requires t !in DoServe(q, pool).failed
    ensures Pending(q, q.phase.tag)
    ensures Pending(DoServe(q, pool), t) <==> Pending(q, t) && t != q.phase.tag
  {
    OwnedIsAlone(q, q.phase.tag);
    assert !HasOk(q.cq, q.phase.tag) && !HasOk(q.batch, q.phase.tag);
  }

  lemma ServeFrame(q: Queue, pool: seq<byte>, other: nat)
    requires Shape(q) && Enabled(q, Serve(pool)) && other < q.c.depth && other != q.phase.tag
    ensures TagBuffer(DoServe(q, pool).mem, other) == TagBuffer(q.mem, other)
  {
    var tag := q.phase.tag;
    var d := q.descs[tag];
    if !IsEmpty(d) && HandleIo(q.c, q.disk, q.mem, tag, d, pool).Done? {
      SmallRequestIsAtomic(q.c, q.disk, q.mem, tag, d, pool, other);
    }
  }

  /** A tag whose command is out has nothing pending. */
  lemma OutIsAlone(q: Queue, t: nat)
    requires Shape(q) && OneToken(q) && Phases(q)
    requires t in q.armed || InSq(q.local, t) > 0 || InSq(q.shared, t) > 0
    ensures !Pending(q, t)
  {
    assert Tokens(q, t) <= 1;
    CountedAbsent(q.(armed := map[], local := [], shared := []), t) by {
      assert SqTags([]) == [];
    }
  }

  lemma ServeHistories(q: Queue, pool: seq<byte>)
    requires Shape(q) && OneToken(q) && Phases(q) && Histories(q) && Enabled(q, Serve(pool))
    ensures Histories(DoServe(q, pool))
    ensures Contents(q) ==> Contents(DoServe(q, pool))
  {
    var r := DoServe(q, pool);
    var tag := q.phase.tag;
    forall t | 0 <= t < q.c.depth && t !in r.failed
      ensures TagHistory(r, t) && (Contents(q) ==> TagContents(r, t))
    {
      assert TagHistory(q, t);
      assert Contents(q) ==> TagContents(q, t);
      ServePending(q, pool, t);
      if t != tag {
        ServeFrame(q, pool, t);
      }
    }
  }

  lemma QuietHistory(q: Queue, r: Queue, t: nat)
    requires Shape(q) && Shape(r) && t < q.c.depth == r.c.depth && TagHistory(q, t)
    requires r.issued == q.issued && r.served == q.served && r.descs == q.descs && r.mem == q.mem
    requires Pending(r, t) <==> Pending(q, t)
    ensures TagHistory(r, t) && (TagContents(q, t) ==> TagContents(r, t))
  {
  }

  lemma QuietEffect(q: Queue, s: Step)
    requires Shape(q) && Enabled(q, s) && !s.Serve? && !s.Complete?
    ensures
      var r := Apply(q, s);
      && r.c == q.c && r.issued == q.issued && r.served == q.served && r.descs == q.descs && r.mem == q.mem
      && r.log == q.log && r.disk == q.disk
  {
  }

  lemma QuietPending(q: Queue, s: Step, t: nat)
    requires TokenInv(q) && Enabled(q, s) && !s.Serve? && !s.Complete?
    requires t < q.c.depth && t !in q.failed && t !in Apply(q, s).failed
    ensures Pending(Apply(q, s), t) <==> Pending(q, t)
  {
    if s.Drain? {
      DrainPending(q, s.n, t);
    } else if s.Take? {
      TakePending(q, t);
    }
  }

  lemma FailedStay(q: Queue, s: Step)
    requires Shape(q) && Phases(q) && Enabled(q, s)
    ensures q.failed <= Apply(q, s).failed
  {
  }

  lemma QuietHistories(q: Queue, s: Step)
    requires TokenInv(q) && Histories(q) && Enabled(q, s) && !s.Serve? && !s.Complete?
    ensures Histories(Apply(q, s))
    ensures Contents(q) ==> Contents(Apply(q, s))
  {
    var r := Apply(q, s);
    QuietEffect(q, s);
    FailedStay(q, s);
    forall t | 0 <= t < q.c.depth && t !in r.failed
      ensures TagHistory(r, t) && (Contents(q) ==> TagContents(r, t))
    {
      assert TagHistory(q, t);
      assert Contents(q) ==> TagContents(q, t);
      QuietPending(q, s, t);
      QuietHistory(q, r, t);
    }
  }

  /** A completion adds at most one request, to its own tag; the data it brings stays in that tag's
      buffer when it is short. */
  lemma CompleteTag(q: Queue, tag: nat, res: int, d: Desc, data: seq<byte>, t: nat)
    requires Shape(q) && Enabled(q, Complete(tag, res, d, data)) && t < q.c.depth && TagHistory(q, t)
    requires q.armed[tag].cmd.addr == BufferAddr(q.c, tag) && DecodeTag(q.armed[tag].userData) == tag
    requires !Pending(q, tag)
    ensures TagHistory(DoComplete(q, tag, res, d, data), t)
    ensures TagContents(q, t) && (res == 0 ==> |data| <= BUF) ==> TagContents(DoComplete(q, tag, res, d, data), t)
  {
    CompletePending(q, tag, res, d, data, t);
    if res == 0 && |data| <= BUF {
      BufferFrame(q.mem, tag, data, t);
    }
  }

  lemma CompleteHistories(q: Queue, tag: nat, res: int, d: Desc, data: seq<byte>)
    requires TokenInv(q) && Histories(q) && Enabled(q, Complete(tag, res, d, data))
    ensures Histories(DoComplete(q, tag, res, d, data))
    ensures Contents(q) && (res == 0 ==> |data| <= BUF) ==> Contents(DoComplete(q, tag, res, d, data))
  {
    var r := DoComplete(q, tag, res, d, data);
    CompletionDecodes(q.c, q.tagState, q.primed, q.armed[tag], res);
    OutIsAlone(q, tag);
    forall t | 0 <= t < q.c.depth && t !in q.failed
      ensures TagHistory(r, t) && (Contents(q) && (res == 0 ==> |data| <= BUF) ==> TagContents(r, t))
    {
      assert TagHistory(q, t);
      assert Contents(q) ==> TagContents(q, t);
      CompleteTag(q, tag, res, d, data, t);
    }
  }

  /** The data of a completion fits the buffer when its request is short, as the last one issued. */
  lemma CompleteShort(q: Queue, tag: nat, d: Desc, data: seq<byte>)
    requires Shape(q) && Enabled(q, Complete(tag, 0, d, data))
    requires AllShort(q.c, DoComplete(q, tag, 0, d, data).issued)
    ensures |data| <= BUF
  {
    var issued := DoComplete(q, tag, 0, d, data).issued;
    assert Last(issued[tag]).desc == d;
    assert FitsBuffer(q.c, issued[tag][|issued[tag]| - 1].desc);
  }

  lemma StepHistories(q: Queue, s: Step)
    requires TokenInv(q) && Histories(q) && Enabled(q, s)
    ensures Histories(Apply(q, s))
    ensures Contents(q) && AllShort(q.c, Apply(q, s).issued) ==> Contents(Apply(q, s))
  {
    match s
    case Serve(pool) => ServeHistories(q, pool);
    case Complete(tag, res, d, data) =>
      CompleteHistories(q, tag, res, d, data);
      if res == 0 && AllShort(q.c, Apply(q, s).issued) {
        CompleteShort(q, tag, d, data);
      }
    case _ =>
      QuietHistories(q, s);
  }

  // ---- Answers and the requests they answer ----

  /** Every answer carries the result of its own request's descriptor, at any length. */
  ghost predicate Answers(c: Config, size: nat, issued: seq<Request>, served: seq<Reply>) {
    |served| <= |issued| &&
    forall i :: 0 <= i < |served| ==>
      served[i].result == CommitResult(issued[i].desc, Refused(c, size, issued[i].desc))
  }

  ghost predicate OwnResults(q: Queue)
    requires Shape(q)
  {
    forall t :: 0 <= t < q.c.depth ==> Answers(q.c, |q.disk|, q.issued[t], q.served[t])
  }

  lemma ServeAnswers(q: Queue, pool: seq<byte>)
    requires Shape(q) && Histories(q) && OwnResults(q) && Enabled(q, Serve(pool)) && q.phase.tag !in q.failed
    ensures OwnResults(DoServe(q, pool))
  {
    var r, tag := DoServe(q, pool), q.phase.tag;
    var d := q.descs[tag];
    ServeEffect(q, pool);
    assert TagHistory(q, tag) && Pending(q, tag);
    if !r.phase.Stopped? {
      if !IsEmpty(d) {
        RefusedExactlyWhen(q.c, q.disk, q.mem, tag, d, pool);
      }
      assert Last(r.served[tag]).result == CommitResult(d, Refused(q.c, |q.disk|, d));
      assert Answers(q.c, |q.disk|, q.issued[tag], q.served[tag]);
    }
    forall t | 0 <= t < q.c.depth
      ensures Answers(r.c, |r.disk|, r.issued[t], r.served[t])
    {
      assert Answers(q.c, |q.disk|, q.issued[t], q.served[t]);
    }
  }

  lemma AnswersExtend(c: Config, size: nat, before: seq<Request>, issued: seq<Request>, served: seq<Reply>)
    requires Answers(c, size, before, served) && before <= issued
    ensures Answers(c, size, issued, served)
  {
  }

  lemma StepAnswers(q: Queue, s: Step)
    requires Shape(q) && Phases(q) && Histories(q) && OwnResults(q) && Enabled(q, s)
    ensures OwnResults(Apply(q, s))
  {
    if s.Serve? {
      ServeAnswers(q, s.pool);
    } else {
      HistoryEffect(q, s);
      var r := Apply(q, s);
      forall t | 0 <= t < q.c.depth
        ensures Answers(r.c, |r.disk|, r.issued[t], r.served[t])
      {
        AnswersExtend(q.c, |q.disk|, q.issued[t], r.issued[t], q.served[t]);
      }
    }
  }

  // ---- Commands and the answers they carry ----

  /** A new answer for a tag with no command out disturbs no command. */
  lemma CarryFrame(served: seq<seq<Reply>>, l: seq<Sqe>, tag: nat, rs: seq<Reply>)
    requires AllCarry(served, l) && tag < |served|
    requires forall i :: 0 <= i < |l| ==> l[i].cmd.tag != tag
    ensures AllCarry(served[tag := rs], l)
  {
  }

  lemma ServeResults(q: Queue, pool: seq<byte>)
    requires Shape(q) && OneToken(q) && Matches(q) && Phases(q) && Results(q) && Enabled(q, Serve(pool))
    ensures Results(DoServe(q, pool))
  {
    var r, tag := DoServe(q, pool), q.phase.tag;
    OwnedIsAlone(q, tag);
    CarryFrame(q.served, q.local, tag, r.served[tag]);
    CarryFrame(q.served, q.shared, tag, r.served[tag]);
    assert r.served == q.served[tag := r.served[tag]];
    forall t | t in r.armed ensures Carries(r.served, r.armed[t]) {
      assert Carries(q.served, q.armed[t]) && q.armed[t].cmd.tag == t;
    }
  }

  lemma PrepareResults(q: Queue, s: Step)
    requires Shape(q) && Results(q) && Enabled(q, s) && (s.PrimeTag? || s.CommitTag?)
    ensures Results(Apply(q, s))
  {
  }

  lemma MoveResults(q: Queue, s: Step)
    requires Shape(q) && Results(q) && Enabled(q, s) && (s.Flush? || s.Consume?)
    ensures Results(Apply(q, s))
  {
  }

  lemma QuietResults(q: Queue, s: Step)
    requires Shape(q) && Results(q) && Enabled(q, s)
    requires s.Drain? || s.WaitError? || s.Take? || s.Complete?
    ensures Results(Apply(q, s))
  {
    var r := Apply(q, s);
    HistoryEffect(q, s);
    assert r.local == q.local && r.shared == q.shared;
  }

  lemma StepResults(q: Queue, s: Step)
    requires Shape(q) && OneToken(q) && Matches(q) && Phases(q) && Results(q) && Enabled(q, s)
    ensures Results(Apply(q, s))
  {
    if s.Serve? {
      ServeResults(q, s.pool);
    } else if s.PrimeTag? || s.CommitTag? {
      PrepareResults(q, s);
    } else if s.Flush? || s.Consume? {
      MoveResults(q, s);
    } else {
      QuietResults(q, s);
    }
  }

  // ---- The atomic disk ----

  predicate Small(c: Config, e: LogEntry) {
    FitsBuffer(c, e.req.desc) && |e.req.buffer| == BUF
  }

  ghost predicate AllSmall(c: Config, log: seq<LogEntry>) {
    forall i :: 0 <= i < |log| ==> Small(c, log[i])
  }

  /** The disk after serving a log serially. */
  ghost function DiskAfter(c: Config, disk: seq<byte>, log: seq<LogEntry>): (d: seq<byte>)
    requires AllSmall(c, log)
    ensures |d| == |disk|
    decreases |log|
  {
    if log == [] then disk
    else AtomicDisk(c, DiskAfter(c, disk, log[..|log| - 1]), Last(log).req)
  }

  /** The answers tag t gets when a log is served serially. */
  ghost function RepliesTo(c: Config, disk: seq<byte>, log: seq<LogEntry>, t: nat): seq<Reply>
    requires AllSmall(c, log)
    decreases |log|
  {
    if log == [] then []
    else
      var init := log[..|log| - 1];
      RepliesTo(c, disk, init, t)
      + if Last(log).tag == t then [AtomicReply(c, DiskAfter(c, disk, init), Last(log).req)] else []
  }

  /** The requests of tag t in a log. */
  function RequestsOf(log: seq<LogEntry>, t: nat): seq<Request>
    decreases |log|
  {
    if log == [] then []
    else RequestsOf(log[..|log| - 1], t) + if Last(log).tag == t then [Last(log).req] else []
  }

  /** The log holds, for each tag, exactly the requests answered so far, in the order they were issued. */
  ghost predicate Logged(q: Queue)
    requires Shape(q)
  {
    forall t :: 0 <= t < q.c.depth ==>
      |q.served[t]| <= |q.issued[t]| && RequestsOf(q.log, t) == q.issued[t][..|q.served[t]|]
  }

  /** The backend and the answers are those of the atomic disk serving the log. */
  ghost predicate Atomic(q: Queue, disk0: seq<byte>)
    requires Shape(q)
  {
    && AllSmall(q.c, q.log)
    && q.disk == DiskAfter(q.c, disk0, q.log)
    && forall t :: 0 <= t < q.c.depth ==> q.served[t] == RepliesTo(q.c, disk0, q.log, t)
  }

  lemma LogInit(log: seq<LogEntry>, e: LogEntry)
    ensures (log + [e])[..|log + [e]| - 1] == log && Last(log + [e]) == e
  {
  }

  lemma RequestsExtend(log: seq<LogEntry>, e: LogEntry, t: nat)
    ensures RequestsOf(log + [e], t) == RequestsOf(log, t) + if e.tag == t then [e.req] else []
  {
    LogInit(log, e);
  }

  /** What serving changes in the history. */
  lemma ServeEffect(q: Queue, pool: seq<byte>)
    requires Shape(q) && Enabled(q, Serve(pool))
    ensures
      var r, tag := DoServe(q, pool), q.phase.tag;
      && r.issued == q.issued
      && (r.phase.Stopped? ==> r.served == q.served && r.log == q.log)
      && (!r.phase.Stopped? ==>
            && r.log == q.log + [LogEntry(tag, Request(q.descs[tag], TagBuffer(q.mem, tag)))]
            && |r.served[tag]| == |q.served[tag]| + 1
            && r.served == q.served[tag := r.served[tag]])
  {
  }

  lemma ServeLogged(q: Queue, pool: seq<byte>)
    requires Shape(q) && Histories(q) && Contents(q) && Logged(q)
    requires Enabled(q, Serve(pool)) && q.phase.tag !in q.failed
    ensures Logged(DoServe(q, pool))
  {
    var r := DoServe(q, pool);
    var tag := q.phase.tag;
    var e := LogEntry(tag, Request(q.descs[tag], TagBuffer(q.mem, tag)));
    ServeEffect(q, pool);
    assert TagHistory(q, tag) && TagContents(q, tag) && Pending(q, tag);
    var n := |q.served[tag]|;
    assert n < |q.issued[tag]| && q.issued[tag][n] == e.req;
    forall t | 0 <= t < r.c.depth
      ensures |r.served[t]| <= |r.issued[t]| && RequestsOf(r.log, t) == r.issued[t][..|r.served[t]|]
    {
      RequestsExtend(q.log, e, t);
      if t == tag {
        assert q.issued[tag][..n + 1] == q.issued[tag][..n] + [e.req];
      }
    }
  }

  lemma ServedAtomically(q: Queue, pool: seq<byte>)
    requires Shape(q) && Enabled(q, Serve(pool)) && !DoServe(q, pool).phase.Stopped?
    requires FitsBuffer(q.c, q.descs[q.phase.tag])
    ensures
      var r, tag := DoServe(q, pool), q.phase.tag;
      var req := Request(q.descs[tag], TagBuffer(q.mem, tag));
      && r.disk == AtomicDisk(q.c, q.disk, req)
      && r.served == q.served[tag := q.served[tag] + [AtomicReply(q.c, q.disk, req)]]
      && r.log == q.log + [LogEntry(tag, req)]
  {
    var tag := q.phase.tag;
    var d := q.descs[tag];
    if !IsEmpty(d) {
      SmallRequestIsAtomic(q.c, q.disk, q.mem, tag, d, pool, tag);
    }
  }

  lemma SmallNext(c: Config, log: seq<LogEntry>, e: LogEntry)
    requires AllSmall(c, log) && Small(c, e)
    ensures AllSmall(c, log + [e])
  {
  }

  /** The atomic disk, one request further. */
  lemma AtomicExtend(c: Config, disk0: seq<byte>, log: seq<LogEntry>, e: LogEntry, t: nat)
    requires AllSmall(c, log) && AllSmall(c, log + [e]) && Small(c, e)
    ensures DiskAfter(c, disk0, log + [e]) == AtomicDisk(c, DiskAfter(c, disk0, log), e.req)
    ensures RepliesTo(c, disk0, log + [e], t)
      == RepliesTo(c, disk0, log, t) + if e.tag == t then [AtomicReply(c, DiskAfter(c, disk0, log), e.req)] else []
  {
    LogInit(log, e);
  }

  lemma ServeAtomic(q: Queue, pool: seq<byte>, disk0: seq<byte>)
    requires Shape(q) && Histories(q) && AllShort(q.c, q.issued) && Atomic(q, disk0)
    requires Enabled(q, Serve(pool)) && q.phase.tag !in q.failed
    ensures Atomic(DoServe(q, pool), disk0)
  {
    var r := DoServe(q, pool);
    var tag := q.phase.tag;
    ServeEffect(q, pool);
    if !r.phase.Stopped? {
      var e := LogEntry(tag, Request(q.descs[tag], TagBuffer(q.mem, tag)));
      PendingShort(q, tag);
      SmallNext(q.c, q.log, e);
      ServedAtomically(q, pool);
      AtomicNext(q, r, disk0, e);
    }
  }

  lemma AtomicNext(q: Queue, r: Queue, disk0: seq<byte>, e: LogEntry)
    requires Shape(q) && Shape(r) && r.c == q.c && Atomic(q, disk0) && Small(q.c, e) && AllSmall(q.c, q.log + [e])
    requires r.disk == AtomicDisk(q.c, q.disk, e.req) && r.log == q.log + [e] && e.tag < q.c.depth
    requires r.served == q.served[e.tag := q.served[e.tag] + [AtomicReply(q.c, q.disk, e.req)]]
    ensures Atomic(r, disk0)
  {
    AtomicExtend(q.c, disk0, q.log, e, e.tag);
    forall t | 0 <= t < q.c.depth
      ensures r.served[t] == RepliesTo(q.c, disk0, r.log, t)
    {
      AtomicExtend(q.c, disk0, q.log, e, t);
    }
  }

  lemma PendingShort(q: Queue, t: nat)
    requires Shape(q) && Histories(q) && AllShort(q.c, q.issued) && t < q.c.depth && t !in q.failed && Pending(q, t)
    ensures FitsBuffer(q.c, q.descs[t])
  {
    assert TagHistory(q, t);
    assert Last(q.issued[t]) == q.issued[t][|q.issued[t]| - 1];
  }

  lemma CompleteEffect(q: Queue, tag: nat, res: int, d: Desc, data: seq<byte>)
    requires Shape(q) && Enabled(q, Complete(tag, res, d, data))
    ensures
      var r := DoComplete(q, tag, res, d, data);
      && r.c == q.c && r.served == q.served && r.log == q.log && r.disk == q.disk
      && forall t :: 0 <= t < q.c.depth ==> q.issued[t] <= r.issued[t]
  {
  }

  /** Only serving changes the disk, the answers and the log; only completing adds requests. */
  lemma HistoryEffect(q: Queue, s: Step)
    requires Shape(q) && Enabled(q, s) && !s.Serve?
    ensures
      var r := Apply(q, s);
      && r.c == q.c && r.served == q.served && r.log == q.log && r.disk == q.disk
      && forall t :: 0 <= t < q.c.depth ==> q.issued[t] <= r.issued[t]
  {
    if s.Complete? {
      CompleteEffect(q, s.tag, s.res, s.desc, s.data);
    } else {
      QuietEffect(q, s);
    }
  }

  lemma StepLogged(q: Queue, s: Step)
    requires Shape(q) && Phases(q) && Histories(q) && Contents(q) && Logged(q) && Enabled(q, s)
    ensures Logged(Apply(q, s))
  {
    if s.Serve? {
      ServeLogged(q, s.pool);
    } else {
      HistoryEffect(q, s);
    }
  }

  lemma StepAtomic(q: Queue, s: Step, disk0: seq<byte>)
    requires Shape(q) && Phases(q) && Histories(q) && AllShort(q.c, q.issued) && Atomic(q, disk0) && Enabled(q, s)
    ensures Atomic(Apply(q, s), disk0)
  {
    if s.Serve? {
      ServeAtomic(q, s.pool, disk0);
    } else {
      HistoryEffect(q, s);
    }
  }
}
