/** The queue runner of internal/queue/runner.go in place: tag states, command records, rings,
    tag buffers and backend are updated by the methods below, with the kernel running between
    them. Valid() says that memory holds a state of the protocol, and Reached that a run leads to
    it, so each method is proved to perform protocol steps and nothing else. */
module Runner {
  import opened Words
  import opened FlatDisk
  import opened Ublk
  import opened RequestIo
  import opened Shards
  import opened Ring
  import opened Backends
  import opened Protocol
  import opened ProtocolTheorems

  datatype Outcome = Fine | Failed(err: Protocol.Error)

  class Runner {
    const c: Config
    const ring: Ring
    const tagStates: array<TagState>
    const ioCmds: array<IoCmd>
    const descs: array<Desc>       // written by the kernel
    const bufs: array<byte>        // also written by the kernel
    const backend: MemoryBackend
    const pool: BufferPool.GlobalPool         // shared by all runners
    var armed: map<nat, Sqe>       // the kernel's own: commands taken and not yet completed

    ghost const disk0: seq<byte>
    ghost var q: Queue

    ghost predicate Layout()
      reads ring
    {
      && ValidConfig(c)
      && ring.sqEntries == c.sqEntries && ring.cqEntries == c.cqEntries
      && tagStates.Length == ioCmds.Length == descs.Length == c.depth
      && bufs.Length == BufAt(c.depth)
      && bufs != backend.data
    }

    /** Memory holds the protocol state q. */
    ghost predicate Mirrors()
      requires ring.Valid()
      reads this`q, this`armed, ring, ring.sqes, ring.sqArray, ring.cqes, tagStates, descs, bufs, backend.data
    {
      && q.tagState == tagStates[..]
      && q.local == ring.Local() && q.shared == ring.Shared() && q.cq == ring.Completions()
      && q.armed == armed
      && q.descs == descs[..] && q.mem == bufs[..] && q.disk == backend.data[..]
    }

    /** Memory is laid out as the runner does it and holds the protocol state q. */
    ghost predicate Valid()
      reads this`q, this`armed, ring, ring.sqes, ring.sqArray, ring.cqes, tagStates, descs, bufs, backend.data
    {
      ring.Valid() && Layout() && Mirrors() && Shape(q) && q.c == c
    }

    /** A run of the protocol leads from the initial state to the given one, and on to the present. */
    ghost predicate Reached(from: Queue)
      reads this`q
    {
      ValidConfig(c) && Advances(Init(c, disk0), from) && Advances(from, q)
    }

    /** A new runner is in the initial state of its protocol. */
    constructor (c: Config, backend: MemoryBackend, pool: BufferPool.GlobalPool)
      requires ValidConfig(c) && RingSize(c.sqEntries) && RingSize(c.cqEntries)
      ensures Valid() && this.c == c && this.backend == backend && this.pool == pool
      ensures disk0 == backend.data[..] && q == Init(c, disk0) && Reached(q)
      ensures fresh(ring) && fresh(ring.sqes) && fresh(ring.sqArray) && fresh(ring.cqes) && fresh(ring.cqePool)
      ensures fresh(tagStates) && fresh(ioCmds) && fresh(descs) && fresh(bufs)
    {
      this.c, this.backend, this.pool := c, backend, pool;
      ring := new Ring(c.sqEntries, c.cqEntries);
      tagStates := new TagState[c.depth](_ => InFlightFetch);
      ioCmds := new IoCmd[c.depth](_ => IoCmd(0, 0, 0, 0));
      descs := new Desc[c.depth](_ => NO_DESC);
      bufs := new byte[BufAt(c.depth)](_ => 0);
      armed := map[];
      disk0, q := backend.data[..], Init(c, backend.data[..]);
      AdvancesNowhere(Init(c, backend.data[..]));
    }

    /** The step just taken continues the run. */
    lemma Noted(from: Queue, was: Queue, s: Step)
      requires ValidConfig(c) && Advances(Init(c, disk0), from) && Advances(from, was) && Follows(was, s, q)
      ensures Reached(from)
    {
      AdvancesStep(from, was, s, q);
    }

    /** The run that has led here. */
    lemma RunSoFar(from: Queue) returns (steps: seq<Step>)
      requires Reached(from)
      ensures Run(Init(c, disk0), steps) == At(q)
    {
      AdvancesOn(Init(c, disk0), from, q);
      steps :| Leads(Init(c, disk0), steps, q);
      LeadsRuns(Init(c, disk0), steps, q);
    }

    // ---- Memory operations, each a protocol transition on what memory holds ----

    /** The kernel takes the oldest published command. */
    method ConsumeEntry()
      requires Valid() && ring.taken < ring.published
      modifies this`armed, this`q, ring`sqHead, ring`taken
      ensures Valid() && old(q).shared != [] && q == DoConsume(old(q))
    {
      q := DoConsume(q);
      var sqe := ring.KernelConsume();
      armed := armed[sqe.cmd.tag := sqe];
    }

    /** The kernel posts the completion of a command it holds. */
    method PostEntry(tag: nat, res: int)
      requires Valid() && tag in armed && |q.cq| < c.cqEntries
      modifies this`armed, this`q, ring`cqTail, ring`posted, ring.cqes
      ensures Valid() && |ring.posted| > |old(ring.posted)|
      ensures q == old(q).(cq := old(q).cq + [Cqe(old(armed[tag]).userData, res)], armed := old(q).armed - {tag})
    {
      var e := Cqe(armed[tag].userData, res);
      ring.KernelPost(e);
      armed := armed - {tag};
      q := q.(cq := q.cq + [e], armed := armed);
    }

    /** The kernel writes a request: its bytes at an address, then the tag's descriptor. */
    method FillRequest(tag: nat, at: nat, d: Desc, data: seq<byte>)
      requires Valid() && tag < c.depth && at + |data| <= bufs.Length
      modifies this`q, descs, bufs
      ensures Valid()
      ensures |old(q).mem| == bufs.Length && |old(q).issued| == c.depth && |old(q).descs| == c.depth
      ensures
        var mem := Splice(old(q).mem, at, data);
        q == old(q).(descs := old(q).descs[tag := d], mem := mem,
                     issued := old(q).issued[tag := old(q).issued[tag] + [Request(d, TagBuffer(mem, tag))]])
    {
      ghost var mem := Splice(q.mem, at, data);
      q := q.(descs := q.descs[tag := d], mem := mem,
              issued := q.issued[tag := q.issued[tag] + [Request(d, TagBuffer(mem, tag))]]);
      Put(bufs, at, data);
      descs[tag] := d;
    }

    /** The tag's command record is filled in and its bytes prepared in the ring (PrepareIOCmd). */
    method PrepareIoCmd(k: Kind, tag: nat, result: int) returns (ok: bool)
      requires ring.Valid() && tag < ioCmds.Length
      modifies ioCmds, ring`sqTailLocal, ring`prepared, ring.sqes, ring.sqArray
      ensures ring.Valid() && ring.Shared() == old(ring.Shared())
      ensures ok <==> |old(ring.Local())| + |ring.Shared()| < ring.sqEntries
      ensures ring.Local() == if ok then old(ring.Local()) + [MakeSqe(c, k, tag, result)] else old(ring.Local())
    {
      ioCmds[tag] := IoCmd(c.qid, tag, result, BufferAddr(c, tag));
      ok := ring.PrepareSqe(Sqe(k, EncodeUserData(k, c.qid, tag), ioCmds[tag]));
    }

    /** submitInitialFetchReq up to the flush. */
    method PrepareFetch(tag: nat) returns (o: Outcome)
      requires Valid() && tag == q.primed < c.depth
      modifies this`q, ioCmds, ring`sqTailLocal, ring`prepared, ring.sqes, ring.sqArray
      ensures Valid() && q == DoPrime(old(q))
      ensures o == if q.phase.Stopped? then Failed(q.phase.err) else Fine
    {
      if tagStates[tag] != InFlightFetch {
        q := DoPrime(q);
        return Failed(AlreadyInitialized);
      }
      var ok := PrepareIoCmd(Fetch, tag, 0);
      q := DoPrime(q);
      if !ok {
        return Failed(RingFull);
      }
      return Fine;
    }

    /** FlushSubmissions. */
    method FlushRing(callOk: bool, reported: nat) returns (o: Outcome)
      requires Valid() && !q.phase.Stopped?
      modifies this`q, ring`sqTail, ring`published
      ensures Valid() && q == DoFlush(old(q), callOk)
      ensures o == if q.phase.Stopped? then Failed(q.phase.err) else Fine
    {
      q := DoFlush(q, callOk);
      var submitted, ok := ring.FlushSubmissions(callOk, reported);
      return if ok then Fine else Failed(FlushFailed);
    }

    /** One drain of the completion ring: the batch is in the pool records, in order. */
    method DrainRing() returns (records: seq<Record>)
      requires Valid()
      modifies this`q, ring`cqHead, ring`cqePoolIndex, ring`reaped, ring.cqePool
      ensures Valid() && q == DoDrain(old(q), |old(q).cq|)
      ensures ring.reaped == |old(ring.posted)|
      ensures Holds(records, q.batch)
    {
      q := DoDrain(q, |q.cq|);
      records := ring.Drain();
    }

    /** The records are pool entries that hold the completions. */
    ghost predicate Holds(records: seq<Record>, batch: seq<Cqe>)
      reads ring.cqePool
    {
      |records| == |batch| <= ring.cqePool.Length &&
      forall i :: 0 <= i < |batch| ==>
        && records[i].Pooled? && records[i].index < ring.cqePool.Length
        && ring.cqePool[records[i].index] == batch[i]
    }

    static lemma TakeFollows(q: Queue)
      requires Shape(q) && q.phase.Handling? && q.batch != []
      ensures Follows(q, Take, DoTake(q)) && DoTake(q).batch == q.batch[1..] && !CallFailed(DoTake(q).phase)
    {
    }

    /** handleCompletion's switch on the tag's state and the result. */
    method AcceptCompletion(tag: nat, isCommit: bool, res: int) returns (o: Outcome)
      requires Valid() && q.batch != [] && q.phase.Handling?
      requires tag == DecodeTag(q.batch[0].userData) < c.depth && res == q.batch[0].res
      modifies this`q, tagStates
      ensures Valid() && Follows(old(q), Take, q) && q.batch == old(q.batch)[1..]
      ensures o == if q.phase.Stopped? then Failed(q.phase.err) else Fine
      ensures !q.phase.Stopped? ==> q.phase == Serving(tag)
      ensures !CallFailed(q.phase)
    {
      TakeFollows(q);
      q := DoTake(q);
      o := Fine;
      match tagStates[tag] {
      case InFlightFetch =>
        if res == 0 {
          tagStates[tag] := Owned;
        } else if res == 1 {
          tagStates[tag] := Owned;
          return Failed(NeedGetData);
        } else {
          return Failed(UnexpectedFetch);
        }
      case InFlightCommit =>
        if res == 0 {
          tagStates[tag] := Owned;
        } else if res == 1 {
          tagStates[tag] := Owned;
          return Failed(NeedGetData);
        } else if res < 0 {
          tagStates[tag] := Owned;
          return Failed(CommitError);
        } else {
          return Failed(UnexpectedCommit);
        }
      case Owned =>
        return Failed(CompletionInOwned);
      }
    }

    /** submitCommitAndFetch. */
    method SubmitCommitAndFetch(tag: nat, ioErr: bool, d: Desc) returns (o: Outcome)
      requires Valid() && tag < c.depth && q.phase == Committing(tag, d, ioErr)
      modifies this`q, tagStates, ioCmds, ring`sqTailLocal, ring`prepared, ring.sqes, ring.sqArray
      ensures Valid() && q == DoCommit(old(q))
      ensures o == if q.phase.Stopped? then Failed(q.phase.err) else Fine
    {
      var result := if ioErr then -5 else ToI32(d.nrSectors * 512);
      if tagStates[tag] != Owned {
        q := DoCommit(q);
        return Failed(NotOwned);
      }
      o := PrepareCommit(tag, result);
    }

    /** The commit of an owned tag. */
    method PrepareCommit(tag: nat, result: int) returns (o: Outcome)
      requires Valid() && tag < c.depth && q.phase.Committing? && q.phase.tag == tag && tagStates[tag] == Owned
      requires result == CommitResult(q.phase.desc, q.phase.ioErr)
      modifies this`q, tagStates, ioCmds, ring`sqTailLocal, ring`prepared, ring.sqes, ring.sqArray
      ensures Valid() && q == DoCommit(old(q))
      ensures o == if q.phase.Stopped? then Failed(q.phase.err) else Fine
    {
      var ok := PrepareIoCmd(Commit, tag, result);
      q := DoCommit(q);
      if !ok {
        return Failed(RingFull);
      }
      tagStates[tag] := InFlightCommit;
      return Fine;
    }

    /** A buffer for a request: the tag's own, or a pooled one when it is longer. */
    ghost predicate FitsPool(len: nat, pooled: array<byte>) {
      pooled != bufs && pooled != backend.data && pooled.Length <= MAX_POOLED && (len > BUF ==> len <= pooled.Length)
    }

    /** The pooled buffer's bytes, as the protocol's step names them. */
    static ghost function Whole(s: seq<byte>): (w: seq<byte>)
      requires |s| <= MAX_POOLED
      ensures |w| == MAX_POOLED && w[..|s|] == s
    {
      s + Zeros(MAX_POOLED - |s|)
    }

    method ReadRequest(tag: nat, off: int, len: nat, pooled: array<byte>) returns (panics: bool)
      requires Layout() && tag < c.depth && FitsPool(len, pooled)
      modifies bufs, pooled
      ensures panics <==> CallPanics(backend.data.Length, off, len)
      ensures panics || len > BUF ==> bufs[..] == old(bufs[..])
      ensures !panics ==> off >= 0
      ensures !panics && len <= BUF ==>
        && HasBuffer(old(bufs[..]), tag)
        && bufs[..] == Splice(old(bufs[..]), BufAt(tag), Output(backend.data[..], Read(off, len)))
    {
      var r;
      if len > BUF {
        r := backend.ReadAt(pooled, 0, len, off);
      } else {
        r := backend.ReadAt(bufs, BufAt(tag), len, off);
      }
      return r.Panic?;
    }

    method WriteRequest(tag: nat, off: int, len: nat, pooled: array<byte>) returns (panics: bool, ioErr: bool)
      requires Layout() && tag < c.depth && FitsPool(len, pooled)
      modifies backend.data
      ensures panics <==> CallPanics(backend.data.Length, off, len)
      ensures panics ==> backend.data[..] == old(backend.data[..])
      ensures !panics ==>
        && off >= 0 && (ioErr <==> off >= backend.data.Length)
        && backend.data[..] == After(old(backend.data[..]), Write(off, Source(tag, len, pooled)))
    {
      if len > BUF {
        panics, ioErr := WriteFrom(pooled, 0, off, len);
      } else {
        panics, ioErr := WriteFrom(bufs, BufAt(tag), off, len);
      }
    }

    method WriteFrom(a: array<byte>, at: nat, off: int, len: nat) returns (panics: bool, ioErr: bool)
      requires a != backend.data && at + len <= a.Length
      modifies backend.data
      ensures panics <==> CallPanics(backend.data.Length, off, len)
      ensures panics ==> backend.data[..] == old(backend.data[..])
      ensures !panics ==> off >= 0 && (ioErr <==> off >= backend.data.Length)
      ensures !panics ==> backend.data[..] == After(old(backend.data[..]), Write(off, a[at..at + len]))
    {
      var r := backend.WriteAt(a, at, len, off);
      return r.Panic?, r.Err?;
    }

    /** The bytes a write stores. */
    ghost function Source(tag: nat, len: nat, pooled: array<byte>): seq<byte>
      requires Layout() && tag < c.depth && FitsPool(len, pooled)
      reads ring, bufs, pooled
    {
      if len > BUF then pooled[0..0 + len] else bufs[BufAt(tag)..BufAt(tag) + len]
    }

    /** The switch of handleIORequest. */
    method PerformIo(tag: nat, op: nat, off: int, len: nat, pooled: array<byte>) returns (panics: bool, ioErr: bool)
      requires Layout() && tag < c.depth && len <= MAX_POOLED && FitsPool(len, pooled)
      modifies bufs, backend.data, pooled
      ensures panics <==> TouchesDisk(op) && CallPanics(backend.data.Length, off, len)
      ensures panics ==> bufs[..] == old(bufs[..]) && backend.data[..] == old(backend.data[..])
      ensures !panics ==>
        && HasBuffer(old(bufs[..]), tag)
        && Perform(old(backend.data[..]), old(bufs[..]), tag, op, if off < 0 then 0 else off, len,
                   Whole(old(pooled[..])))
           == RequestIo.Done(backend.data[..], bufs[..], ioErr)
    {
      panics, ioErr := false, false;
      if op == OP_READ {
        panics := ReadRequest(tag, off, len, pooled);
      } else if op == OP_WRITE {
        panics, ioErr := WriteRequest(tag, off, len, pooled);
        if !panics && len > BUF {
          WholePrefix(old(pooled[..]), len);
          assert pooled[0..0 + len] == old(pooled[..])[..len];
        }
      } else if op == OP_FLUSH {
        return false, false;
      } else if op == OP_DISCARD {
        var r := backend.Discard(off, len);
        panics := r.Panic?;
      } else {
        return false, true;
      }
    }

    static lemma WholePrefix(s: seq<byte>, len: nat)
      requires len <= |s| <= MAX_POOLED
      ensures Whole(s)[..len] == s[..len]
    {
    }

    /** Every buffer is where it should be if it was, and callers hold what they held. */
    twostate predicate PoolKept()
      reads pool
    {
      BufferPool.Inv(old(pool.View())) ==> BufferPool.Inv(pool.View()) && pool.live == old(pool.live)
    }

    /** A long request: the pooled array's bytes are what its last user left, and it is put back, also
        when the backend panics. */
    method LongIo(tag: nat, op: nat, off: int, len: nat) returns (panics: bool, ioErr: bool, ghost left: seq<byte>)
      requires Layout() && tag < c.depth && len > BUF
      modifies bufs, backend.data, pool
      ensures PoolKept()
      ensures panics <==> PoolPanics(len) || (TouchesDisk(op) && CallPanics(backend.data.Length, off, len))
      ensures panics ==> bufs[..] == old(bufs[..]) && backend.data[..] == old(backend.data[..])
      ensures |left| == MAX_POOLED
      ensures !panics ==>
        && len <= MAX_POOLED && HasBuffer(old(bufs[..]), tag)
        && Perform(old(backend.data[..]), old(bufs[..]), tag, op, if off < 0 then 0 else off, len, left)
           == RequestIo.Done(backend.data[..], bufs[..], ioErr)
    {
      var got, _ := pool.GetBuffer(len);
      if got.Panic? {
        return true, false, Zeros(MAX_POOLED);
      }
      var pooled := new byte[got.buf.len];
      left := Whole(pooled[..]);
      panics, ioErr := PerformIo(tag, op, off, len, pooled);
      pool.PutBuffer(got.buf);
    }

    /** handleIORequest up to the commit. */
    method HandleIoRequest(tag: nat, d: Desc) returns (panics: bool, ioErr: bool, ghost left: seq<byte>)
      requires Layout() && tag < c.depth
      modifies bufs, backend.data, pool
      ensures PoolKept()
      ensures panics ==> bufs[..] == old(bufs[..]) && backend.data[..] == old(backend.data[..])
      ensures |left| == MAX_POOLED && HasBuffer(old(bufs[..]), tag)
      ensures HandleIo(c, old(backend.data[..]), old(bufs[..]), tag, d, left)
        == if panics then RequestIo.Panic else RequestIo.Done(backend.data[..], bufs[..], ioErr)
    {
      var op, off, len := GetOp(d), Offset(c, d), Length(c, d);
      if len > BUF {
        panics, ioErr, left := LongIo(tag, op, off, len);
      } else {
        var none := new byte[0];
        left := Whole(none[..]);
        panics, ioErr := PerformIo(tag, op, off, len, none);
      }
    }

    static lemma ServeFollows(q: Queue, left: seq<byte>)
      requires Shape(q) && q.phase.Serving? && q.phase.tag < q.c.depth && |left| == MAX_POOLED
      ensures Follows(q, Serve(left), DoServe(q, left)) && DoServe(q, left).batch == q.batch
    {
    }

    /** processIOAndCommit up to the commit. */
    method ServeRequest(tag: nat) returns (o: Outcome, d: Desc, ioErr: bool, ghost left: seq<byte>)
      requires Valid() && tag < c.depth && q.phase == Serving(tag)
      modifies this`q, bufs, backend.data, pool
      ensures Valid() && |left| == MAX_POOLED && q == DoServe(old(q), left)
      ensures PoolKept()
      ensures o == if q.phase.Stopped? then Failed(q.phase.err) else Fine
      ensures !q.phase.Stopped? ==> q.phase == Committing(tag, d, ioErr)
    {
      d, ioErr, left := descs[tag], false, Zeros(MAX_POOLED);
      if d.opFlags == 0 && d.nrSectors == 0 {
        q := DoServe(q, left);
        return Fine, d, false, left;
      }
      var panics;
      panics, ioErr, left := HandleIoRequest(tag, d);
      q := DoServe(q, left);
      o := if panics then Failed(IoPanic) else Fine;
    }

    // ---- Each transition is a step ----

    /** Ended by a system call that failed. */
    static predicate CallFailed(p: Phase) {
      p == Stopped(WaitFailed) || p == Stopped(FlushFailed)
    }

    static lemma ConsumeFollows(q: Queue)
      requires Shape(q) && q.shared != []
      ensures Follows(q, Consume, DoConsume(q)) && ServerUnchanged(q, DoConsume(q))
    {
    }

    static lemma PrimeFollows(q: Queue)
      requires Shape(q) && q.phase.Priming? && q.primed < q.c.depth
      ensures Follows(q, PrimeTag, DoPrime(q))
      ensures !CallFailed(DoPrime(q).phase)
      ensures !DoPrime(q).phase.Stopped? ==>
        DoPrime(q).phase.PrimeFlush? && DoPrime(q).primed == q.primed + 1 && DoPrime(q).local != []
    {
    }

    static lemma FlushFollows(q: Queue, ok: bool)
      requires Shape(q) && (q.phase.PrimeFlush? || (q.phase.Handling? && q.batch == []))
      ensures Follows(q, Flush(ok), DoFlush(q, ok)) && DoFlush(q, ok).primed == q.primed
      ensures DoFlush(q, ok).phase.Stopped? <==> !ok && q.local != []
      ensures DoFlush(q, ok).phase.Stopped? ==> DoFlush(q, ok).phase.err == FlushFailed
    {
    }

    static lemma WaitFollows(q: Queue)
      requires Shape(q) && q.phase.Idle?
      ensures Follows(q, WaitError, q.(phase := Stopped(WaitFailed)))
    {
    }

    static lemma SkipsPhase(q: Queue)
      requires Shape(q) && q.batch != [] && DecodeTag(q.batch[0].userData) >= q.c.depth
      ensures DoTake(q) == q.(batch := q.batch[1..])
    {
    }

    static lemma DrainFollows(q: Queue, n: nat)
      requires Shape(q) && q.phase.Idle? && n <= |q.cq|
      ensures Follows(q, Drain(n), DoDrain(q, n)) && |DoDrain(q, n).batch| == n
    {
    }

    static lemma CommitFollows(q: Queue)
      requires Shape(q) && q.phase.Committing? && q.phase.tag < q.c.depth
      ensures Follows(q, CommitTag, DoCommit(q)) && DoCommit(q).batch == q.batch && !CallFailed(DoCommit(q).phase)
      ensures DoCommit(q).phase.Handling? || DoCommit(q).phase.Stopped?
    {
    }

    // ---- Runs: the kernel ----

    /** What no kernel step touches. */
    static ghost predicate ServerUnchanged(q: Queue, r: Queue) {
      && r.phase == q.phase && r.batch == q.batch && r.local == q.local && r.tagState == q.tagState
      && r.primed == q.primed && r.disk == q.disk && r.served == q.served && r.log == q.log && r.failed == q.failed
    }

    method KernelConsumes(ghost from: Queue)
      requires Valid() && Reached(from) && ring.taken < ring.published
      modifies this`armed, this`q, ring`sqHead, ring`taken
      ensures Valid() && Reached(from) && Follows(old(q), Consume, q)
      ensures ServerUnchanged(old(q), q)
    {
      ConsumeEntry();
      ConsumeFollows(old(q));
      Noted(from, old(q), Consume);
    }

    /** What the kernel relies on for a command it holds: the address is that of the tag's buffer,
        and there is room for its completion. */
    lemma ArmedFacts(tag: nat, from: Queue)
      requires Reached(from) && tag in q.armed
      ensures Shape(q) && q.c == c && tag < c.depth
      ensures q.armed[tag].cmd.addr == c.base + BufAt(tag) && |q.cq| < c.cqEntries
    {
      var steps := RunSoFar(from);
      ProtocolSafety.RunTokens(c, disk0, steps);
      RingsNeverFull(c, disk0, steps);
    }

    lemma MayComplete(tag: nat, d: Desc, data: seq<byte>, from: Queue)
      requires Valid() && Reached(from) && tag in armed
      requires |data| <= DataLimit(c, d) && BufAt(tag) + |data| <= bufs.Length
      ensures tag < c.depth && |q.cq| < c.cqEntries && CanComplete(q, tag, d, data)
      ensures q.armed[tag].cmd.addr == c.base + BufAt(tag)
    {
      ArmedFacts(tag, from);
    }

    method FailEntry(tag: nat, res: int, d: Desc, data: seq<byte>)
      requires Valid() && tag in armed && tag < c.depth && |q.cq| < c.cqEntries && res != 0
      requires CanComplete(q, tag, d, data)
      modifies this`armed, this`q, ring`cqTail, ring`posted, ring.cqes
      ensures Valid() && ServerUnchanged(old(q), q) && Follows(old(q), Complete(tag, res, d, data), q)
      ensures |ring.posted| > |old(ring.posted)|
    {
      FailFollows(q, tag, res, d, data);
      PostEntry(tag, res);
    }

    static lemma FailFollows(q: Queue, tag: nat, res: int, d: Desc, data: seq<byte>)
      requires Shape(q) && tag < q.c.depth && CanComplete(q, tag, d, data) && res != 0
      ensures
        var r := q.(cq := q.cq + [Cqe(q.armed[tag].userData, res)], armed := q.armed - {tag});
        Follows(q, Complete(tag, res, d, data), r) && ServerUnchanged(q, r)
    {
    }

    static lemma IssueFollows(q: Queue, tag: nat, d: Desc, data: seq<byte>)
      requires Shape(q) && tag < q.c.depth && CanComplete(q, tag, d, data)
      ensures
        var mem := Splice(q.mem, q.armed[tag].cmd.addr - q.c.base, data);
        var r := q.(descs := q.descs[tag := d], mem := mem,
                    issued := q.issued[tag := q.issued[tag] + [Request(d, TagBuffer(mem, tag))]],
                    cq := q.cq + [Cqe(q.armed[tag].userData, 0)], armed := q.armed - {tag});
        Follows(q, Complete(tag, 0, d, data), r) && ServerUnchanged(q, r)
    {
    }

    method IssueEntry(tag: nat, d: Desc, data: seq<byte>)
      requires Valid() && tag in armed && tag < c.depth && |q.cq| < c.cqEntries
      requires CanComplete(q, tag, d, data) && q.armed[tag].cmd.addr == c.base + BufAt(tag)
      modifies this`armed, this`q, ring`cqTail, ring`posted, ring.cqes, descs, bufs
      ensures Valid() && ServerUnchanged(old(q), q) && Follows(old(q), Complete(tag, 0, d, data), q)
      ensures |ring.posted| > |old(ring.posted)|
    {
      IssueFollows(q, tag, d, data);
      FillRequest(tag, armed[tag].cmd.addr - c.base, d, data);
      PostEntry(tag, 0);
    }

    /** A completion with an error or another result that brings no request. */
    method KernelFails(tag: nat, res: int, d: Desc, data: seq<byte>, ghost from: Queue)
      requires Valid() && Reached(from) && tag in armed && res != 0
      requires |data| <= DataLimit(c, d) && BufAt(tag) + |data| <= bufs.Length
      modifies this`armed, this`q, ring`cqTail, ring`posted, ring.cqes
      ensures Valid() && Reached(from) && Follows(old(q), Complete(tag, res, d, data), q)
      ensures ServerUnchanged(old(q), q) && |ring.posted| > |old(ring.posted)|
    {
      MayComplete(tag, d, data, from);
      FailEntry(tag, res, d, data);
      Noted(from, old(q), Complete(tag, res, d, data));
    }

    /** A completion with a new request, whose bytes the kernel puts at the address the command carries. */
    method KernelIssues(tag: nat, d: Desc, data: seq<byte>, ghost from: Queue)
      requires Valid() && Reached(from) && tag in armed
      requires |data| <= DataLimit(c, d) && BufAt(tag) + |data| <= bufs.Length
      modifies this`armed, this`q, ring`cqTail, ring`posted, ring.cqes, descs, bufs
      ensures Valid() && Reached(from) && Follows(old(q), Complete(tag, 0, d, data), q)
      ensures ServerUnchanged(old(q), q) && |ring.posted| > |old(ring.posted)|
    {
      MayComplete(tag, d, data, from);
      IssueEntry(tag, d, data);
      Noted(from, old(q), Complete(tag, 0, d, data));
    }

    /** Any number of kernel steps, between any two steps of the runner. */
    method KernelRuns(ghost from: Queue)
      requires Valid() && Reached(from)
      modifies this`armed, this`q, ring`sqHead, ring`taken, ring`cqTail, ring`posted, ring.cqes, descs, bufs
      ensures Valid() && Reached(from)
      ensures ServerUnchanged(old(q), q) && |ring.posted| >= |old(ring.posted)|
    {
      var n: nat := *;
      while n > 0
        invariant Valid() && Reached(from)
        invariant ServerUnchanged(old(q), q) && |ring.posted| >= |old(ring.posted)|
      {
        n := n - 1;
        var consumes: bool := *;
        var tag: nat := *;
        var res: int := *;
        var d: Desc := *;
        var data: seq<byte> := *;
        if consumes {
          if ring.sqHead != ring.sqTail {
            KernelConsumes(from);
          }
        } else if tag in armed && |data| <= DataLimit(c, d) && BufAt(tag) + |data| <= bufs.Length {
          if res != 0 {
            KernelFails(tag, res, d, data, from);
          } else {
            KernelIssues(tag, d, data, from);
          }
        }
      }
    }

    // ---- Runs: the runner ----

    method TakeStep(tag: nat, isCommit: bool, res: int, ghost from: Queue) returns (o: Outcome)
      requires Valid() && Reached(from) && q.phase.Handling? && q.batch != []
      requires tag == DecodeTag(q.batch[0].userData) < c.depth && res == q.batch[0].res
      modifies this`q, tagStates
      ensures Valid() && Reached(from) && Follows(old(q), Take, q)
      ensures q.batch == old(q.batch)[1..]
      ensures o == if q.phase.Stopped? then Failed(q.phase.err) else Fine
      ensures !q.phase.Stopped? ==> q.phase == Serving(tag)
      ensures !CallFailed(q.phase)
    {
      o := AcceptCompletion(tag, isCommit, res);
      Noted(from, old(q), Take);
    }

    method ServeStep(tag: nat, ghost from: Queue) returns (o: Outcome, d: Desc, ioErr: bool)
      requires Valid() && Reached(from) && tag < c.depth && q.phase == Serving(tag)
      modifies this`q, bufs, backend.data, pool
      ensures Valid() && Reached(from) && q.batch == old(q.batch)
      ensures PoolKept()
      ensures o == if q.phase.Stopped? then Failed(q.phase.err) else Fine
      ensures !q.phase.Stopped? ==> q.phase == Committing(tag, d, ioErr)
      ensures !CallFailed(q.phase)
    {
      ghost var left;
      o, d, ioErr, left := ServeRequest(tag);
      ServeFollows(old(q), left);
      Noted(from, old(q), Serve(left));
    }

    method CommitStep(tag: nat, ioErr: bool, d: Desc, ghost from: Queue) returns (o: Outcome)
      requires Valid() && Reached(from) && tag < c.depth && q.phase == Committing(tag, d, ioErr)
      modifies this`q, tagStates, ioCmds, ring`sqTailLocal, ring`prepared, ring.sqes, ring.sqArray
      ensures Valid() && Reached(from) && Follows(old(q), CommitTag, q) && q.batch == old(q.batch)
      ensures o == if q.phase.Stopped? then Failed(q.phase.err) else Fine
      ensures q.phase.Handling? || (q.phase.Stopped? && !CallFailed(q.phase))
    {
      o := SubmitCommitAndFetch(tag, ioErr, d);
      CommitFollows(old(q));
      Noted(from, old(q), CommitTag);
    }

    method ServeAndRun(tag: nat, ghost from: Queue) returns (o: Outcome, d: Desc, ioErr: bool)
      requires Valid() && Reached(from) && tag < c.depth && q.phase == Serving(tag)
      modifies this`armed, this`q, ring`sqHead, ring`taken, ring`cqTail, ring`posted, ring.cqes
      modifies pool, descs, bufs, backend.data
      ensures Valid() && Reached(from) && q.batch == old(q.batch)
      ensures PoolKept()
      ensures o == if q.phase.Stopped? then Failed(q.phase.err) else Fine
      ensures !q.phase.Stopped? ==> q.phase == Committing(tag, d, ioErr)
      ensures !CallFailed(q.phase)
    {
      o, d, ioErr := ServeStep(tag, from);
      if o.Fine? {
        KernelRuns(from);
      }
    }

    /** processIOAndCommit, with the kernel running before the commit. */
    method ProcessIoAndCommit(tag: nat, ghost from: Queue) returns (o: Outcome)
      requires Valid() && Reached(from) && tag < c.depth && q.phase == Serving(tag)
      modifies this`armed, this`q, ring`sqHead, ring`taken, ring`cqTail, ring`posted, ring.cqes
      modifies pool, descs, bufs, backend.data, tagStates, ioCmds
      modifies ring`sqTailLocal, ring`prepared, ring.sqes, ring.sqArray
      ensures Valid() && Reached(from)
      ensures PoolKept()
      ensures q.batch == old(q.batch)
      ensures o == if q.phase.Stopped? then Failed(q.phase.err) else Fine
      ensures q.phase.Handling? || (q.phase.Stopped? && !CallFailed(q.phase))
    {
      var d, ioErr;
      o, d, ioErr := ServeAndRun(tag, from);
      if o.Fine? {
        o := CommitStep(tag, ioErr, d, from);
      }
    }

    /** The switch of handleCompletion, and whatever the kernel does next. */
    method TakeCompletion(tag: nat, isCommit: bool, res: int, ghost from: Queue) returns (o: Outcome)
      requires Valid() && Reached(from) && q.phase.Handling? && q.batch != []
      requires tag == DecodeTag(q.batch[0].userData) < c.depth && res == q.batch[0].res
      modifies this`armed, this`q, ring`sqHead, ring`taken, ring`cqTail, ring`posted, ring.cqes
      modifies descs, bufs, tagStates
      ensures Valid() && Reached(from)
      ensures q.batch == old(q.batch)[1..]
      ensures o == if q.phase.Stopped? then Failed(q.phase.err) else Fine
      ensures !q.phase.Stopped? ==> q.phase == Serving(tag)
      ensures !CallFailed(q.phase)
    {
      o := TakeStep(tag, isCommit, res, from);
      if o.Fine? {
        KernelRuns(from);
      }
    }

    /** handleCompletion: on success the completion is gone from the batch and its tag's next command is prepared. */
    method HandleCompletion(tag: nat, isCommit: bool, res: int, ghost from: Queue) returns (o: Outcome)
      requires Valid() && Reached(from) && q.phase.Handling? && q.batch != []
      requires tag == DecodeTag(q.batch[0].userData) < c.depth && res == q.batch[0].res
      modifies this`armed, this`q, ring`sqHead, ring`taken, ring`cqTail, ring`posted, ring.cqes
      modifies pool, descs, bufs, backend.data, tagStates, ioCmds
      modifies ring`sqTailLocal, ring`prepared, ring.sqes, ring.sqArray
      ensures Valid() && Reached(from)
      ensures PoolKept()
      ensures q.batch == old(q.batch)[1..]
      ensures o == if q.phase.Stopped? then Failed(q.phase.err) else Fine
      ensures q.phase.Handling? || (q.phase.Stopped? && !CallFailed(q.phase))
    {
      o := TakeCompletion(tag, isCommit, res, from);
      if o.Fine? {
        o := ProcessIoAndCommit(tag, from);
      }
    }

    /** FlushSubmissions at the end of a batch. */
    method FlushStep(callOk: bool, reported: nat, ghost from: Queue) returns (o: Outcome)
      requires Valid() && Reached(from) && (q.phase.PrimeFlush? || (q.phase.Handling? && q.batch == []))
      modifies this`q, ring`sqTail, ring`published
      ensures Valid() && Reached(from) && Follows(old(q), Flush(callOk), q)
      ensures o == if q.phase.Stopped? then Failed(q.phase.err) else Fine
      ensures q.primed == old(q.primed)
      ensures o == if callOk || old(q.local) == [] then Fine else Failed(FlushFailed)
      ensures !q.phase.Stopped? ==> q.phase == if old(q).phase.PrimeFlush? && q.primed < c.depth then Priming else Idle
    {
      o := FlushRing(callOk, reported);
      FlushFollows(old(q), callOk);
      Noted(from, old(q), Flush(callOk));
    }

    method DrainStep(ghost from: Queue) returns (records: seq<Record>)
      requires Valid() && Reached(from) && q.phase.Idle?
      modifies this`q, ring`cqHead, ring`cqePoolIndex, ring`reaped, ring.cqePool
      ensures Valid() && Reached(from)
      ensures ring.reaped == |old(ring.posted)|
      ensures Holds(records, q.batch)
      ensures q.phase == if records == [] then Idle else Handling
    {
      records := DrainRing();
      DrainFollows(old(q), |old(q).cq|);
      Noted(from, old(q), Drain(|old(q).cq|));
    }

    /** A drain, after whatever the kernel has done since the last step. */
    method RunAndDrain(ghost from: Queue) returns (records: seq<Record>)
      requires Valid() && Reached(from) && q.phase.Idle?
      modifies this`armed, this`q, ring`sqHead, ring`taken, ring`cqTail, ring`posted, ring.cqes
      modifies descs, bufs, ring`cqHead, ring`cqePoolIndex, ring`reaped, ring.cqePool
      ensures Valid() && Reached(from)
      ensures ring.reaped >= |old(ring.posted)|
      ensures Holds(records, q.batch)
      ensures q.phase == if records == [] then Idle else Handling
    {
      KernelRuns(from);
      records := DrainStep(from);
    }

    ghost method WaitErrorStep(from: Queue)
      requires Valid() && Reached(from) && q.phase.Idle?
      modifies this`q
      ensures Valid() && Reached(from) && Follows(old(q), WaitError, q) && q.phase == Stopped(WaitFailed)
    {
      WaitFollows(q);
      q := q.(phase := Stopped(WaitFailed));
      Noted(from, old(q), WaitError);
    }

    /** The wait, which the kernel may end with an error or after any number of interruptions, and a drain. */
    method WaitAndDrain(waitOk: bool, ghost from: Queue) returns (records: seq<Record>)
      requires Valid() && Reached(from) && q.phase.Idle?
      modifies this`armed, this`q, ring`sqHead, ring`taken, ring`cqTail, ring`posted, ring.cqes
      modifies descs, bufs, ring`cqHead, ring`cqePoolIndex, ring`reaped, ring.cqePool
      ensures Valid() && Reached(from)
      ensures waitOk ==> ring.reaped >= |old(ring.posted)|
      ensures !waitOk ==> q.phase == Stopped(WaitFailed) && ring.reaped == old(ring.reaped)
      ensures waitOk ==> Holds(records, q.batch) && q.phase == if records == [] then Idle else Handling
    {
      if !waitOk {
        KernelRuns(from);
        WaitErrorStep(from);
        return [];
      }
      records := RunAndDrain(from);
    }

    /** WaitForCompletion(0): a drain, and when that finds nothing a wait and a second drain. */
    method WaitForCompletion(waitOk: bool, ghost from: Queue) returns (ok: bool, records: seq<Record>)
      requires Valid() && Reached(from) && q.phase.Idle?
      modifies this`armed, this`q, ring`sqHead, ring`taken, ring`cqTail, ring`posted, ring.cqes
      modifies descs, bufs, ring`cqHead, ring`cqePoolIndex, ring`reaped, ring.cqePool
      ensures Valid() && Reached(from)
      ensures ring.reaped >= |old(ring.posted)|
      ensures !ok ==> !waitOk && q.phase == Stopped(WaitFailed)
      ensures ok && records == [] ==> waitOk
      ensures ok ==> Holds(records, q.batch) && q.phase == if records == [] then Idle else Handling
    {
      records := RunAndDrain(from);
      if |records| > 0 {
        return true, records;
      }
      records := WaitAndDrain(waitOk, from);
      return waitOk, records;
    }

    /** A completion whose tag is out of range is skipped. */
    ghost method SkipStep(from: Queue)
      requires Valid() && Reached(from) && q.phase.Handling? && q.batch != []
      requires DecodeTag(q.batch[0].userData) >= c.depth
      modifies this`q
      ensures Valid() && Reached(from) && Follows(old(q), Take, q)
      ensures q.batch == old(q.batch)[1..] && q.phase.Handling?
    {
      TakeFollows(q);
      SkipsPhase(q);
      q := DoTake(q);
      Noted(from, old(q), Take);
    }

    /** One completion of the batch, and whatever the kernel does meanwhile. */
    method HandleOne(record: Record, ghost from: Queue) returns (o: Outcome)
      requires Valid() && Reached(from) && q.phase.Handling? && q.batch != []
      requires record.Pooled? && record.index < ring.cqePool.Length && ring.cqePool[record.index] == q.batch[0]
      modifies this`armed, this`q, ring`sqHead, ring`taken, ring`cqTail, ring`posted, ring.cqes
      modifies pool, descs, bufs, backend.data, tagStates, ioCmds
      modifies ring`sqTailLocal, ring`prepared, ring.sqes, ring.sqArray
      ensures Valid() && Reached(from)
      ensures PoolKept()
      ensures q.batch == old(q.batch)[1..]
      ensures o == if q.phase.Stopped? then Failed(q.phase.err) else Fine
      ensures q.phase.Handling? || (q.phase.Stopped? && !CallFailed(q.phase))
    {
      KernelRuns(from);
      var e := ring.cqePool[record.index];
      var tag := DecodeTag(e.userData);
      var isCommit := DecodeCommit(e.userData);
      o := Fine;
      if tag >= c.depth {
        SkipStep(from);
      } else {
        o := HandleCompletion(tag, isCommit, e.res, from);
      }
    }

    /** What holds between iterations: no tag is Owned and everything prepared is published. */
    lemma QuietFacts(from: Queue)
      requires Valid() && Reached(from) && q.phase.Idle?
      ensures forall t :: 0 <= t < c.depth ==> tagStates[t] != Owned
      ensures ring.sqTail == ring.sqTailLocal && ring.published == |ring.prepared|
    {
      var steps := RunSoFar(from);
      QuietBetweenIterations(c, disk0, steps);
      assert |ring.Local()| == 0;
    }

    lemma StoppedFacts(from: Queue)
      requires Reached(from) && q.phase.Stopped?
      ensures !ShouldNeverHappen(q.phase.err)
    {
      var steps := RunSoFar(from);
      OnePlacePerTag(c, disk0, steps, 0);
    }

    /** processRequests: waits, handles every completion of the batch in order, flushes once. It never
        fails with an error that cannot happen, and when it succeeds the runner is quiet again with every
        completion handled that was posted before. */
    method ProcessRequests(waitOk: bool, callOk: bool, reported: nat, ghost from: Queue) returns (o: Outcome)
      requires Valid() && Reached(from) && q.phase.Idle?
      modifies this`armed, this`q, ring`sqHead, ring`taken, ring`cqTail, ring`posted, ring.cqes
      modifies pool, descs, bufs, backend.data, tagStates, ioCmds
      modifies ring`sqTailLocal, ring`prepared, ring.sqes, ring.sqArray
      modifies ring`cqHead, ring`cqePoolIndex, ring`reaped, ring.cqePool, ring`sqTail, ring`published
      ensures Valid() && Reached(from)
      ensures PoolKept()
      ensures o.Failed? ==> q.phase == Stopped(o.err) && !ShouldNeverHappen(o.err)
      ensures ring.reaped >= |old(ring.posted)|
      ensures (o == Failed(WaitFailed) ==> !waitOk) && (o == Failed(FlushFailed) ==> !callOk)
      ensures o.Fine? ==>
        && q.phase.Idle? && (forall t :: 0 <= t < c.depth ==> tagStates[t] != Owned)
        && ring.sqTail == ring.sqTailLocal && ring.published == |ring.prepared|
    {
      var ok, completions := WaitForCompletion(waitOk, from);
      if !ok {
        return Failed(WaitFailed);
      }
      if |completions| == 0 {
        QuietFacts(from);
        return Fine;
      }
      o := HandleAndFlush(completions, callOk, reported, from);
      if o.Failed? {
        StoppedFacts(from);
      } else {
        QuietFacts(from);
      }
    }

    method RunAndFlush(callOk: bool, reported: nat, ghost from: Queue) returns (o: Outcome)
      requires Valid() && Reached(from) && q.phase.Handling? && q.batch == []
      modifies this`armed, this`q, ring`sqHead, ring`taken, ring`cqTail, ring`posted, ring.cqes
      modifies descs, bufs, ring`sqTail, ring`published
      ensures Valid() && Reached(from)
      ensures o.Failed? ==> q.phase == Stopped(o.err) && o.err == FlushFailed && !callOk
      ensures o.Fine? ==> q.phase.Idle? && (callOk || old(q.local) == [])
    {
      KernelRuns(from);
      o := FlushStep(callOk, reported, from);
    }

    method HandleAndFlush(completions: seq<Record>, callOk: bool, reported: nat, ghost from: Queue) returns (o: Outcome)
      requires Valid() && Reached(from) && q.phase.Handling? && Holds(completions, q.batch)
      modifies this`armed, this`q, ring`sqHead, ring`taken, ring`cqTail, ring`posted, ring.cqes
      modifies pool, descs, bufs, backend.data, tagStates, ioCmds
      modifies ring`sqTailLocal, ring`prepared, ring.sqes, ring.sqArray
      modifies ring`sqTail, ring`published
      ensures Valid() && Reached(from)
      ensures PoolKept()
      ensures o.Failed? ==> q.phase == Stopped(o.err) && o.err != WaitFailed && (o.err == FlushFailed ==> !callOk)
      ensures o.Fine? ==> q.phase.Idle?
    {
      o := HandleBatch(completions, from);
      if o.Fine? {
        o := RunAndFlush(callOk, reported, from);
      }
    }

    method HandleBatch(completions: seq<Record>, ghost from: Queue) returns (o: Outcome)
      requires Valid() && Reached(from) && q.phase.Handling? && Holds(completions, q.batch)
      modifies this`armed, this`q, ring`sqHead, ring`taken, ring`cqTail, ring`posted, ring.cqes
      modifies pool, descs, bufs, backend.data, tagStates, ioCmds
      modifies ring`sqTailLocal, ring`prepared, ring.sqes, ring.sqArray
      ensures Valid() && Reached(from)
      ensures PoolKept()
      ensures o.Failed? ==> q.phase == Stopped(o.err) && !CallFailed(q.phase)
      ensures o.Fine? ==> q.phase.Handling? && q.batch == []
    {
      o := Fine;
      var i := 0;
      while i < |completions|
        invariant 0 <= i <= |completions|
        invariant Valid() && Reached(from)
        invariant PoolKept()
        invariant o.Fine? && q.phase.Handling? && q.batch == old(q.batch)[i..]
      {
        o := HandleOne(completions[i], from);
        if o.Failed? {
          return;
        }
        i := i + 1;
      }
      assert |q.batch| == 0;
    }

    // ---- Prime and the loop ----

    method PrimeStep(tag: nat, ghost from: Queue) returns (o: Outcome)
      requires Valid() && Reached(from) && q.phase.Priming? && tag == q.primed < c.depth
      modifies this`q, ioCmds, ring`sqTailLocal, ring`prepared, ring.sqes, ring.sqArray
      ensures Valid() && Reached(from) && Follows(old(q), PrimeTag, q)
      ensures o == if q.phase.Stopped? then Failed(q.phase.err) else Fine
      ensures !q.phase.Stopped? ==> q.phase.PrimeFlush? && q.primed == tag + 1 && q.local != []
      ensures !CallFailed(q.phase)
    {
      o := PrepareFetch(tag);
      PrimeFollows(old(q));
      Noted(from, old(q), PrimeTag);
    }

    method PrimeAndRun(tag: nat, ghost from: Queue) returns (o: Outcome)
      requires Valid() && Reached(from) && q.phase.Priming? && tag == q.primed < c.depth
      modifies this`armed, this`q, ring`sqHead, ring`taken, ring`cqTail, ring`posted, ring.cqes
      modifies descs, bufs, ioCmds, ring`sqTailLocal, ring`prepared, ring.sqes, ring.sqArray
      ensures Valid() && Reached(from)
      ensures o == if q.phase.Stopped? then Failed(q.phase.err) else Fine
      ensures !q.phase.Stopped? ==> q.phase.PrimeFlush? && q.primed == tag + 1 && q.local != []
      ensures !CallFailed(q.phase)
    {
      KernelRuns(from);
      o := PrimeStep(tag, from);
      if o.Fine? {
        KernelRuns(from);
      }
    }

    /** submitInitialFetchReq: prepare and flush. */
    method SubmitInitialFetchReq(tag: nat, callOk: bool, ghost from: Queue) returns (o: Outcome)
      requires Valid() && Reached(from) && q.phase.Priming? && tag == q.primed < c.depth
      modifies this`armed, this`q, ring`sqHead, ring`taken, ring`cqTail, ring`posted, ring.cqes
      modifies descs, bufs, ioCmds, ring`sqTailLocal, ring`prepared, ring.sqes, ring.sqArray
      modifies ring`sqTail, ring`published
      ensures Valid() && Reached(from)
      ensures o.Failed? ==> q.phase == Stopped(o.err)
      ensures o.Fine? ==> q.primed == tag + 1 && q.phase == if tag + 1 < c.depth then Priming else Idle
      ensures if callOk then !CallFailed(q.phase) else o.Failed? && o.err != WaitFailed
    {
      o := PrimeAndRun(tag, from);
      if o.Fine? {
        o := FlushStep(callOk, 1, from);
      }
    }

    /** Prime: one FETCH_REQ per tag, in order; a failing system call ends it. */
    method Prime(calls: seq<bool>, ghost from: Queue) returns (o: Outcome)
      requires Valid() && Reached(from) && q.phase.Priming? && q.primed == 0 && |calls| == c.depth
      modifies this`armed, this`q, ring`sqHead, ring`taken, ring`cqTail, ring`posted, ring.cqes
      modifies descs, bufs, ioCmds, ring`sqTailLocal, ring`prepared, ring.sqes, ring.sqArray
      modifies ring`sqTail, ring`published
      ensures Valid() && Reached(from)
      ensures o.Failed? ==> q.phase == Stopped(o.err) && !ShouldNeverHappen(o.err)
      ensures o.Fine? ==> q.phase.Idle? && q.primed == c.depth && forall t :: 0 <= t < c.depth ==> calls[t]
      ensures o == Failed(FlushFailed) ==> exists t :: 0 <= t < c.depth && !calls[t]
      ensures o != Failed(WaitFailed)
    {
      var tag := 0;
      while tag < c.depth
        invariant 0 <= tag <= c.depth
        invariant Valid() && Reached(from)
        invariant q.primed == tag && q.phase == if tag < c.depth then Priming else Idle
        invariant forall t :: 0 <= t < tag ==> calls[t]
      {
        o := SubmitInitialFetchReq(tag, calls[tag], from);
        if o.Failed? {
          StoppedFacts(from);
          return;
        }
        tag := tag + 1;
      }
      return Fine;
    }

    /** ioLoop until it is cancelled after the given number of iterations, or fails. */
    method IoLoop(calls: seq<bool>, iterations: seq<(bool, bool)>, ghost from: Queue) returns (o: Outcome)
      requires Valid() && Reached(from) && q.phase.Priming? && q.primed == 0 && |calls| == c.depth
      modifies this`armed, this`q, ring`sqHead, ring`taken, ring`cqTail, ring`posted, ring.cqes
      modifies pool, descs, bufs, backend.data, tagStates, ioCmds
      modifies ring`sqTailLocal, ring`prepared, ring.sqes, ring.sqArray
      modifies ring`cqHead, ring`cqePoolIndex, ring`reaped, ring.cqePool, ring`sqTail, ring`published
      ensures Valid() && Reached(from)
      ensures PoolKept()
      ensures o.Failed? ==> q.phase == Stopped(o.err) && !ShouldNeverHappen(o.err)
      ensures o.Fine? ==> q.phase.Idle? && forall t :: 0 <= t < c.depth ==> calls[t]
      ensures o == Failed(WaitFailed) ==> exists i :: 0 <= i < |iterations| && !iterations[i].0
      ensures o == Failed(FlushFailed) ==>
        (exists t :: 0 <= t < c.depth && !calls[t]) || exists i :: 0 <= i < |iterations| && !iterations[i].1
    {
      o := Prime(calls, from);
      if o.Failed? {
        return;
      }
      for i := 0 to |iterations|
        invariant Valid() && Reached(from) && q.phase.Idle?
        invariant PoolKept()
      {
        o := ProcessRequests(iterations[i].0, iterations[i].1, 0, from);
        if o.Failed? {
          return;
        }
      }
      return Fine;
    }
  }

  /** A new runner, primed and run for any number of iterations over a backend that already holds
      data: it ends without an impossible error, and as long as the kernel issued no request longer
      than a tag's buffer, the backend's bytes are those the served requests leave on an atomic disk. */
  method Serve(
    c: Config, backend: MemoryBackend, pool: BufferPool.GlobalPool, calls: seq<bool>, iterations: seq<(bool, bool)>)
    returns (r: Runner, o: Outcome)
    requires ValidConfig(c) && RingSize(c.sqEntries) && RingSize(c.cqEntries) && |calls| == c.depth
    modifies backend.data, pool
    ensures fresh(r) && r.Valid() && r.c == c && r.disk0 == old(backend.data[..])
    ensures r.Reached(Init(c, old(backend.data[..])))
    ensures BufferPool.Inv(old(pool.View())) ==> BufferPool.Inv(pool.View()) && pool.live == old(pool.live)
    ensures o.Failed? ==> r.q.phase == Stopped(o.err) && !ShouldNeverHappen(o.err)
    ensures o == Failed(WaitFailed) ==> exists i :: 0 <= i < |iterations| && !iterations[i].0
    ensures o == Failed(FlushFailed) ==>
      (exists t :: 0 <= t < c.depth && !calls[t]) || exists i :: 0 <= i < |iterations| && !iterations[i].1
    ensures ProtocolData.AllShort(c, r.q.issued) ==>
      && ProtocolData.AllSmall(c, r.q.log)
      && backend.data[..] == ProtocolData.DiskAfter(c, old(backend.data[..]), r.q.log)
  {
    r := new Runner(c, backend, pool);
    o := r.IoLoop(calls, iterations, r.q);
    if ProtocolData.AllShort(c, r.q.issued) {
      ghost var steps := r.RunSoFar(Init(c, r.disk0));
      IsAtomicDisk(c, r.disk0, steps);
    }
  }
}
