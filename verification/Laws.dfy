/** What a request does, said without the names the runner and its specification share: the operation by
    its number in the low byte of the descriptor's first word, places and lengths by multiplication,
    buffers by 65536 bytes a tag, and data byte by byte. Both sides are proved to obey: the atomic disk, and
    the runner's own step on tag memory and backend. */
module Laws {
  import opened Words
  import opened FlatDisk
  import opened Ublk
  import opened Shards
  import opened RequestIo
  import opened Protocol
  import opened ProtocolTokens
  import opened ProtocolData
  import opened ProtocolTheorems

  /** The request lies on a disk of that size, and is of a size the pool can hold. */
  predicate OnDisk(c: Config, size: nat, d: Desc) {
    && size < 0x8000_0000_0000_0000
    && d.startSector * c.blockSize + d.nrSectors * c.blockSize <= size
    && 0 <= d.startSector * c.blockSize && 0 <= d.nrSectors * c.blockSize <= 0x10_0000
  }

  lemma Located(c: Config, size: nat, d: Desc)
    requires OnDisk(c, size, d)
    ensures Offset(c, d) == d.startSector * c.blockSize && Length(c, d) == d.nrSectors * c.blockSize
  {
  }

  lemma FewSectors(c: Config, d: Desc)
    requires c.blockSize >= 1 && d.nrSectors * c.blockSize <= 0x10_0000
    ensures d.nrSectors < 0x40_0000
  {
    MulMono(1, c.blockSize, d.nrSectors);
  }

  // ---- The atomic disk ----

  /** The call an operation's number stands for, at a place and length. */
  function CallByNumber(op: nat, off: nat, len: nat, buffer: seq<byte>): Meaning
    requires len <= |buffer| || op != 1
  {
    if op == 0 then Call(Read(off, len))
    else if op == 1 then Call(Write(off, buffer[..len]))
    else if op == 2 then Nothing
    else if op == 3 then Call(Discard(off, len))
    else Unsupported
  }

  lemma MeaningByNumber(c: Config, size: nat, req: Request, off: nat, len: nat)
    requires |req.buffer| == 65536 && OnDisk(c, size, req.desc)
    requires off == req.desc.startSector * c.blockSize && len == req.desc.nrSectors * c.blockSize
    requires req.desc.opFlags % 256 == 0 || req.desc.opFlags % 256 == 1 ==> len <= 65536
    ensures FitsBuffer(c, req.desc)
    ensures IsEmpty(req.desc) ==> req.desc.opFlags % 256 == 0 && len == 0 && MeaningOf(c, req) == Nothing
    ensures !IsEmpty(req.desc) ==> MeaningOf(c, req) == CallByNumber(req.desc.opFlags % 256, off, len, req.buffer)
  {
    OpOfWord(req.desc);
    Located(c, size, req.desc);
  }

  /** The atomic disk by what the request means. */
  lemma AtomicByMeaning(c: Config, disk: seq<byte>, req: Request, m: Meaning)
    requires |req.buffer| == 65536 && FitsBuffer(c, req.desc) && m == MeaningOf(c, req)
    ensures AtomicDisk(c, disk, req) == if m.Call? then After(disk, m.op) else disk
    ensures m.Call? ==> |Output(disk, m.op)| <= 65536
    ensures AtomicReply(c, disk, req)
      == Reply(CommitResult(req.desc, m.Unsupported? || (m.Call? && m.op.Fails(|disk|))),
               if m.Call? then Splice(req.buffer, 0, Output(disk, m.op)) else req.buffer)
  {
  }

  /** Operation 0: the disk's bytes go to the front of the buffer. */
  lemma ReadOnAtomicDisk(c: Config, disk: seq<byte>, req: Request, off: nat, len: nat, i: nat)
    requires c.blockSize >= 1 && |req.buffer| == 65536 && i < 65536
    requires req.desc.opFlags % 256 == 0 && OnDisk(c, |disk|, req.desc)
    requires off == req.desc.startSector * c.blockSize && len == req.desc.nrSectors * c.blockSize <= 65536
    ensures FitsBuffer(c, req.desc) && AtomicDisk(c, disk, req) == disk
    ensures
      var reply := AtomicReply(c, disk, req);
      && reply.result == req.desc.nrSectors * 512 && |reply.buffer| == 65536
      && reply.buffer[i] == if i < len then disk[off + i] else req.buffer[i]
  {
    FewSectors(c, req.desc);
    MeaningByNumber(c, |disk|, req, off, len);
    var m := MeaningOf(c, req);
    AtomicByMeaning(c, disk, req, m);
    ResultTellsError(req.desc, false);
    if m.Call? {
      ReadReply(disk, req.buffer, off, len, i);
    }
  }

  lemma ReadReply(disk: seq<byte>, buffer: seq<byte>, off: nat, len: nat, i: nat)
    requires len <= |buffer| && i < |buffer| && off + len <= |disk|
    ensures |Output(disk, Read(off, len))| == len && After(disk, Read(off, len)) == disk
    ensures Splice(buffer, 0, Output(disk, Read(off, len)))[i] == if i < len then disk[off + i] else buffer[i]
  {
  }

  /** Operation 1: the front of the buffer goes to the disk. */
  lemma WriteOnAtomicDisk(c: Config, disk: seq<byte>, req: Request, off: nat, len: nat, a: nat)
    requires c.blockSize >= 1 && |req.buffer| == 65536 && a < |disk|
    requires req.desc.opFlags % 256 == 1 && OnDisk(c, |disk|, req.desc)
    requires off == req.desc.startSector * c.blockSize && 1 <= len == req.desc.nrSectors * c.blockSize <= 65536
    ensures FitsBuffer(c, req.desc) && AtomicReply(c, disk, req) == Reply(req.desc.nrSectors * 512, req.buffer)
    ensures AtomicDisk(c, disk, req)[a] == if off <= a < off + len then req.buffer[a - off] else disk[a]
  {
    FewSectors(c, req.desc);
    MeaningByNumber(c, |disk|, req, off, len);
    AtomicByMeaning(c, disk, req, Call(Write(off, req.buffer[..len])));
    ResultTellsError(req.desc, false);
    WriteLeaves(disk, off, req.buffer[..len], a);
    assert Splice(req.buffer, 0, []) == req.buffer;
  }

  /** Operation 2 changes nothing. */
  lemma FlushOnAtomicDisk(c: Config, disk: seq<byte>, req: Request)
    requires |req.buffer| == 65536 && req.desc.opFlags % 256 == 2 && req.desc.nrSectors < 0x40_0000
    ensures FitsBuffer(c, req.desc) && AtomicDisk(c, disk, req) == disk
    ensures AtomicReply(c, disk, req) == Reply(req.desc.nrSectors * 512, req.buffer)
  {
    OpOfWord(req.desc);
  }

  /** Operation 3 leaves zeros. */
  lemma DiscardOnAtomicDisk(c: Config, disk: seq<byte>, req: Request, off: nat, len: nat, a: nat)
    requires c.blockSize >= 1 && |req.buffer| == 65536 && a < |disk|
    requires req.desc.opFlags % 256 == 3 && OnDisk(c, |disk|, req.desc)
    requires off == req.desc.startSector * c.blockSize && len == req.desc.nrSectors * c.blockSize
    ensures FitsBuffer(c, req.desc) && AtomicReply(c, disk, req) == Reply(req.desc.nrSectors * 512, req.buffer)
    ensures AtomicDisk(c, disk, req)[a] == if off <= a < off + len then 0 else disk[a]
  {
    FewSectors(c, req.desc);
    MeaningByNumber(c, |disk|, req, off, len);
    AtomicByMeaning(c, disk, req, Call(Discard(off, len)));
    ResultTellsError(req.desc, false);
    DiscardLeaves(disk, off, len, a);
    assert Splice(req.buffer, 0, []) == req.buffer;
  }

  /** Any other operation is refused, and changes nothing. */
  lemma OtherOnAtomicDisk(c: Config, disk: seq<byte>, req: Request)
    requires |req.buffer| == 65536 && req.desc.opFlags % 256 > 3
    ensures FitsBuffer(c, req.desc) && AtomicDisk(c, disk, req) == disk
    ensures AtomicReply(c, disk, req) == Reply(-5, req.buffer)
  {
    OpOfWord(req.desc);
  }

  // ---- The runner's step ----

  /** The tag being served, and the descriptor the kernel wrote for it. */
  predicate Serving(q: Queue, tag: nat, d: Desc) {
    Shape(q) && q.phase == Protocol.Serving(tag) && tag < q.c.depth && q.descs[tag] == d
  }

  /** A request of at most 1 MB at a place that is no negative number is served as the atomic disk does. */
  lemma ServesAtomically(q: Queue, tag: nat, d: Desc, pool: seq<byte>)
    requires Serving(q, tag, d) && |pool| == MAX_POOLED && FitsBuffer(q.c, d)
    requires IsEmpty(d) || (Length(q.c, d) <= MAX_POOLED && Offset(q.c, d) >= 0)
    ensures
      var r, req := DoServe(q, pool), Request(d, TagBuffer(q.mem, tag));
      && r.disk == AtomicDisk(q.c, q.disk, req)
      && r.served[tag] == q.served[tag] + [AtomicReply(q.c, q.disk, req)]
      && TagBuffer(r.mem, tag) == AtomicReply(q.c, q.disk, req).buffer
      && |r.mem| == |q.mem|
  {
    if !IsEmpty(d) {
      PanicsExactlyWhen(q.c, q.disk, q.mem, tag, d, pool);
    }
    ServedAtomically(q, pool);
  }

  /** A byte of tag memory belongs to the buffer of its tag. */
  lemma ByteOfBuffer(mem: seq<byte>, tag: nat, i: nat)
    requires HasBuffer(mem, tag) && i < 65536
    ensures tag * 65536 + i < |mem| && TagBuffer(mem, tag)[i] == mem[tag * 65536 + i]
  {
  }

  /** Operation 0, read: the tag's buffer receives the disk's bytes. */
  lemma ServeRead(q: Queue, tag: nat, d: Desc, pool: seq<byte>, off: nat, len: nat, i: nat)
    requires Serving(q, tag, d) && |pool| == MAX_POOLED
    requires d.opFlags % 256 == 0 && OnDisk(q.c, |q.disk|, d)
    requires off == d.startSector * q.c.blockSize && i < len == d.nrSectors * q.c.blockSize <= 65536
    ensures
      var r := DoServe(q, pool);
      && r.disk == q.disk && |r.mem| == |q.mem| && tag * 65536 + i < |r.mem|
      && r.mem[tag * 65536 + i] == q.disk[off + i]
      && r.served[tag] != [] && Last(r.served[tag]).result == d.nrSectors * 512
  {
    var req := Request(d, TagBuffer(q.mem, tag));
    Located(q.c, |q.disk|, d);
    ReadOnAtomicDisk(q.c, q.disk, req, off, len, i);
    ServesAtomically(q, tag, d, pool);
    ByteOfBuffer(DoServe(q, pool).mem, tag, i);
  }

  /** Operation 1, write: the disk receives the bytes of the tag's buffer, which keeps them. */
  lemma ServeWrite(q: Queue, tag: nat, d: Desc, pool: seq<byte>, off: nat, len: nat, a: nat)
    requires Serving(q, tag, d) && |pool| == MAX_POOLED && a < |q.disk|
    requires d.opFlags % 256 == 1 && OnDisk(q.c, |q.disk|, d)
    requires off == d.startSector * q.c.blockSize && 1 <= len == d.nrSectors * q.c.blockSize <= 65536
    ensures
      var r := DoServe(q, pool);
      && |r.disk| == |q.disk| && tag * 65536 + len <= |q.mem|
      && r.disk[a] == (if off <= a < off + len then q.mem[tag * 65536 + (a - off)] else q.disk[a])
      && TagBuffer(r.mem, tag) == TagBuffer(q.mem, tag)
      && r.served[tag] != [] && Last(r.served[tag]).result == d.nrSectors * 512
  {
    var req := Request(d, TagBuffer(q.mem, tag));
    Located(q.c, |q.disk|, d);
    WriteOnAtomicDisk(q.c, q.disk, req, off, len, a);
    ServesAtomically(q, tag, d, pool);
    ByteOfBuffer(q.mem, tag, len - 1);
    if off <= a < off + len {
      ByteOfBuffer(q.mem, tag, a - off);
    }
  }

  /** Operation 3, discard, up to 1 MB: the disk's bytes become zeros. */
  lemma ServeDiscard(q: Queue, tag: nat, d: Desc, pool: seq<byte>, off: nat, len: nat, a: nat)
    requires Serving(q, tag, d) && |pool| == MAX_POOLED && a < |q.disk|
    requires d.opFlags % 256 == 3 && OnDisk(q.c, |q.disk|, d)
    requires off == d.startSector * q.c.blockSize && len == d.nrSectors * q.c.blockSize
    ensures
      var r := DoServe(q, pool);
      && |r.disk| == |q.disk| && r.disk[a] == (if off <= a < off + len then 0 else q.disk[a])
      && TagBuffer(r.mem, tag) == TagBuffer(q.mem, tag)
      && r.served[tag] != [] && Last(r.served[tag]).result == d.nrSectors * 512
  {
    var req := Request(d, TagBuffer(q.mem, tag));
    Located(q.c, |q.disk|, d);
    DiscardOnAtomicDisk(q.c, q.disk, req, off, len, a);
    ServesAtomically(q, tag, d, pool);
  }

  /** Operation 2, flush, changes nothing. */
  lemma ServeFlush(q: Queue, tag: nat, d: Desc, pool: seq<byte>)
    requires Serving(q, tag, d) && |pool| == MAX_POOLED && d.opFlags % 256 == 2 && OnDisk(q.c, |q.disk|, d)
    ensures
      var r := DoServe(q, pool);
      && r.disk == q.disk && TagBuffer(r.mem, tag) == TagBuffer(q.mem, tag)
      && r.served[tag] != [] && Last(r.served[tag]).result == d.nrSectors * 512
  {
    Located(q.c, |q.disk|, d);
    FewSectors(q.c, d);
    FlushOnAtomicDisk(q.c, q.disk, Request(d, TagBuffer(q.mem, tag)));
    ServesAtomically(q, tag, d, pool);
  }

  /** Operations above 3, and writes at or beyond the end, are answered with -5 and change nothing. */
  lemma ServeRefused(q: Queue, tag: nat, d: Desc, pool: seq<byte>, off: nat, len: nat)
    requires Serving(q, tag, d) && |pool| == MAX_POOLED
    requires off == d.startSector * q.c.blockSize < 0x8000_0000_0000_0000
    requires len == d.nrSectors * q.c.blockSize <= 0x10_0000
    requires d.opFlags % 256 > 3 || (d.opFlags % 256 == 1 && off >= |q.disk|)
    ensures
      var r := DoServe(q, pool);
      && r.disk == q.disk && r.mem == q.mem
      && r.served[tag] != [] && Last(r.served[tag]).result == -5
  {
    OpOfWord(d);
    assert Offset(q.c, d) == off && Length(q.c, d) == len;
    RefusedHandled(q.c, q.disk, q.mem, tag, d, pool, off, len);
  }

  lemma RefusedHandled(
    c: Config, disk: seq<byte>, mem: seq<byte>, tag: nat, d: Desc, pool: seq<byte>, off: nat, len: nat)
    requires HasBuffer(mem, tag) && |pool| == MAX_POOLED && Offset(c, d) == off && Length(c, d) == len <= MAX_POOLED
    requires (!TouchesDisk(GetOp(d)) && GetOp(d) != OP_FLUSH) || (GetOp(d) == OP_WRITE && off >= |disk|)
    ensures !IsEmpty(d) && HandleIo(c, disk, mem, tag, d, pool) == Done(disk, mem, true)
  {
    CallPanicsExactlyWhen(|disk|, off, len);
    EmptyIsRead(d);
  }

  lemma EmptyIsRead(d: Desc)
    ensures IsEmpty(d) ==> GetOp(d) == OP_READ
  {
  }

  // ---- Commits over a run ----

  /** The i-th COMMIT of a tag, for requests below 2^22 sectors: -5 exactly when the i-th request issued to
      it had an operation above 3 or was a write at or beyond the end of the disk, and its sectors times
      512 otherwise. */
  lemma CommitsTellErrors(c: Config, disk0: seq<byte>, steps: seq<Step>, t: nat, i: nat)
    requires ValidConfig(c) && Run(Init(c, disk0), steps).At? && t < c.depth
    requires i < |Commits(Init(c, disk0), steps, t)|
    requires
      var issued := Run(Init(c, disk0), steps).q.issued[t];
      i < |issued| ==> issued[i].desc.nrSectors < 0x40_0000
    ensures
      var issued, result := Run(Init(c, disk0), steps).q.issued[t], Commits(Init(c, disk0), steps, t)[i];
      && i < |issued|
      && (var d := issued[i].desc;
          var op, off := d.opFlags % 256, d.startSector * c.blockSize % 0x1_0000_0000_0000_0000;
          var refused := op > 3 || (op == 1 && |disk0| <= off < 0x8000_0000_0000_0000);
          result == (if refused then -5 else d.nrSectors * 512) && (result < 0 <==> refused))
  {
    CommitsCarryTheirOwnResults(c, disk0, steps, t, i);
    var d := Run(Init(c, disk0), steps).q.issued[t][i].desc;
    OpOfWord(d);
    ResultTellsError(d, Refused(c, |disk0|, d));
    RefusedByNumber(c, |disk0|, d);
  }

  lemma RefusedByNumber(c: Config, size: nat, d: Desc)
    ensures
      var op, off := d.opFlags % 256, d.startSector * c.blockSize % 0x1_0000_0000_0000_0000;
      Refused(c, size, d) <==> op > 3 || (op == 1 && size <= off < 0x8000_0000_0000_0000)
  {
    OpOfWord(d);
  }

  // ---- Commands ----

  /** Every command that is out names its queue, its tag and its tag's 65536 bytes, and its user data is the
      commit bit, the queue and the tag. */
  lemma CommandsOut(c: Config, disk0: seq<byte>, steps: seq<Step>, s: Sqe)
    requires ValidConfig(c) && Run(Init(c, disk0), steps).At? && IsOut(Run(Init(c, disk0), steps).q, s)
    ensures s.cmd.qid == c.qid && s.cmd.tag < c.depth && s.cmd.addr == c.base + s.cmd.tag * 65536
    ensures s.userData == (if s.kind.Commit? then 0x8000_0000_0000_0000 else 0) + c.qid * 65536 + s.cmd.tag
    ensures s.kind.Fetch? ==> s.cmd.result == 0
  {
    RunInv(c, disk0, steps);
    OutFacts(Run(Init(c, disk0), steps).q, s);
    UserDataValue(s.kind, c.qid, s.cmd.tag);
  }

  /** In every reachable state the kernel may take any published command, and complete any it holds with any
      result, any descriptor and any bytes up to 65536. */
  lemma KernelIsFree(c: Config, disk0: seq<byte>, steps: seq<Step>, tag: nat, res: int, d: Desc, data: seq<byte>)
    requires ValidConfig(c) && Run(Init(c, disk0), steps).At?
    ensures
      var q := Run(Init(c, disk0), steps).q;
      && (q.shared != [] <==> Enabled(q, Consume))
      && (tag in q.armed && |data| <= 65536 ==> Enabled(q, Complete(tag, res, d, data)))
  {
    RunInv(c, disk0, steps);
    var q := Run(Init(c, disk0), steps).q;
    if tag in q.armed {
      OutFacts(q, q.armed[tag]);
      assert HasBuffer(q.mem, tag);
    }
  }

  /** What a completion leaves: with result 0 a request, its bytes in the tag's buffer, its descriptor, and one
      more on record; with any other result nothing. */
  ghost predicate Issued(q: Queue, r: Queue, tag: nat, res: int, d: Desc, data: seq<byte>, i: nat)
    requires tag < |q.issued| && tag < |r.issued| && tag < |r.descs| && i < |data| <= 65536
  {
    if res != 0 then r.mem == q.mem && r.descs == q.descs && r.issued == q.issued
    else
      && r.descs[tag] == d && tag * 65536 + i < |r.mem| && r.mem[tag * 65536 + i] == data[i]
      && |r.issued[tag]| == |q.issued[tag]| + 1 && q.issued[tag] <= r.issued[tag]
      && Last(r.issued[tag]).desc == d
      && |Last(r.issued[tag]).buffer| == 65536 && Last(r.issued[tag]).buffer[i] == data[i]
  }

  lemma CompletionLeaves(q: Queue, tag: nat, res: int, d: Desc, data: seq<byte>, i: nat)
    requires Shape(q) && tag < q.c.depth && CanComplete(q, tag, d, data) && HasBuffer(q.mem, tag)
    requires q.armed[tag].cmd.addr == q.c.base + tag * 65536 && i < |data| <= 65536
    ensures Issued(q, DoComplete(q, tag, res, d, data), tag, res, d, data, i)
  {
    SplicedByte(q.mem, tag, data, i);
  }

  lemma SplicedByte(mem: seq<byte>, tag: nat, data: seq<byte>, i: nat)
    requires HasBuffer(mem, tag) && i < |data| <= 65536
    ensures tag * 65536 + |data| <= |mem| && tag * 65536 + i < |Splice(mem, tag * 65536, data)|
    ensures Splice(mem, tag * 65536, data)[tag * 65536 + i] == data[i]
    ensures TagBuffer(Splice(mem, tag * 65536, data), tag)[i] == data[i]
  {
    ByteOfBuffer(Splice(mem, tag * 65536, data), tag, i);
  }

  /** In every reachable state, for every command the kernel holds. */
  lemma IssuesExactly(
    c: Config, disk0: seq<byte>, steps: seq<Step>, tag: nat, res: int, d: Desc, data: seq<byte>, i: nat)
    requires ValidConfig(c) && Run(Init(c, disk0), steps).At? && tag in Run(Init(c, disk0), steps).q.armed
    requires i < |data| <= 65536
    ensures
      var q := Run(Init(c, disk0), steps).q;
      && Enabled(q, Complete(tag, res, d, data))
      && Issued(q, Apply(q, Complete(tag, res, d, data)), tag, res, d, data, i)
  {
    KernelIsFree(c, disk0, steps, tag, res, d, data);
    RunInv(c, disk0, steps);
    var q := Run(Init(c, disk0), steps).q;
    OutFacts(q, q.armed[tag]);
    assert HasBuffer(q.mem, tag);
    CompletionLeaves(q, tag, res, d, data, i);
  }

  /** A completion taken from the batch stops the loop exactly when its result is not 0, and otherwise
      serves the tag its user data names. */
  lemma TakesExactly(c: Config, disk0: seq<byte>, steps: seq<Step>)
    requires ValidConfig(c) && Run(Init(c, disk0), steps).At? && Enabled(Run(Init(c, disk0), steps).q, Take)
    ensures
      var q := Run(Init(c, disk0), steps).q;
      var e, r := q.batch[0], DoTake(q);
      && (r.phase.Stopped? <==> e.res != 0)
      && (e.res == 0 ==> r.phase == Protocol.Serving(e.userData % 65536))
      && (e.res == 1 ==> r.phase == Stopped(NeedGetData))
  {
    RunInv(c, disk0, steps);
    var q := Run(Init(c, disk0), steps).q;
    assert GoodCqe(q.c, q.tagState, q.primed, q.batch[0]);
    MaskLow16(q.batch[0].userData);
  }
}
