/** One I/O request: what the runner does with a descriptor, its tag's buffer and the
    backend, and the atomic disk a request is promised to be served by. */
module RequestIo {
  import opened Words
  import opened FlatDisk
  import opened Ublk
  import opened Shards
  import BufferPool

  /** The largest pooled buffer. */
  const MAX_POOLED: nat := 1024 * 1024

  /** A request as the kernel issues it: the descriptor and the bytes it left in the tag's buffer. */
  datatype Request = Request(desc: Desc, buffer: seq<byte>)

  /** An answer as the kernel sees it: the committed result and the tag's buffer. */
  datatype Reply = Reply(result: int, buffer: seq<byte>)

  datatype Outcome = Panic | Done(disk: seq<byte>, mem: seq<byte>, ioErr: bool)

  predicate HasBuffer(mem: seq<byte>, tag: nat) {
    BufAt(tag + 1) <= |mem|
  }

  function TagBuffer(mem: seq<byte>, tag: nat): (b: seq<byte>)
    requires HasBuffer(mem, tag)
    ensures |b| == BUF
  {
    mem[BufAt(tag)..BufAt(tag + 1)]
  }

  /** Bytes stored from the start of one tag's buffer change that buffer only. */
  lemma BufferFrame(mem: seq<byte>, tag: nat, p: seq<byte>, other: nat)
    requires HasBuffer(mem, tag) && HasBuffer(mem, other) && |p| <= BUF
    ensures TagBuffer(Splice(mem, BufAt(tag), p), tag) == Splice(TagBuffer(mem, tag), 0, p)
    ensures other != tag ==> TagBuffer(Splice(mem, BufAt(tag), p), other) == TagBuffer(mem, other)
  {
    var m := Splice(mem, BufAt(tag), p);
    assert TagBuffer(m, tag) == Splice(TagBuffer(mem, tag), 0, p);
    if other != tag {
      assert BufAt(other) + BUF <= BufAt(tag) || BufAt(tag) + BUF <= BufAt(other);
      assert TagBuffer(m, other) == TagBuffer(mem, other);
    }
  }

  predicate TouchesDisk(op: nat) {
    op == OP_READ || op == OP_WRITE || op == OP_DISCARD
  }

  /** The switch of handleIORequest on an operation at a byte offset: a request of at most BUF bytes
      works on the tag's buffer, a longer one on a pooled buffer whose contents are whatever its
      last user left. */
  function Perform(disk: seq<byte>, mem: seq<byte>, tag: nat, op: nat, off: nat, len: nat, pool: seq<byte>)
    : (r: Outcome)
    requires HasBuffer(mem, tag) && |pool| == MAX_POOLED && len <= MAX_POOLED
    ensures r.Done? && |r.mem| == |mem| && |r.disk| == |disk|
  {
    if op == OP_READ then
      Done(disk, if len <= BUF then Splice(mem, BufAt(tag), Output(disk, Read(off, len))) else mem, false)
    else if op == OP_WRITE then
      var src := if len <= BUF then mem[BufAt(tag)..BufAt(tag) + len] else pool[..len];
      Done(After(disk, Write(off, src)), mem, Write(off, src).Fails(|disk|))
    else if op == OP_FLUSH then Done(disk, mem, false)
    else if op == OP_DISCARD then Done(After(disk, Discard(off, len)), mem, false)
    else Done(disk, mem, true)
  }

  /** GetBuffer's slice of the array its bucket holds is out of bounds. */
  predicate PoolPanics(len: nat) {
    len > BUF && len > BufferPool.CAPS[BufferPool.Bucket(len)]
  }

  /** handleIORequest up to the commit: a buffer, then the switch. Slicing the pooled array may panic,
      and so may the backend call. */
  function HandleIo(c: Config, disk: seq<byte>, mem: seq<byte>, tag: nat, d: Desc, pool: seq<byte>): (r: Outcome)
    requires HasBuffer(mem, tag) && |pool| == MAX_POOLED
    ensures r.Done? ==> |r.mem| == |mem| && |r.disk| == |disk|
  {
    var len, off, op := Length(c, d), Offset(c, d), GetOp(d);
    if PoolPanics(len) || (TouchesDisk(op) && CallPanics(|disk|, off, len)) then Panic
    else Perform(disk, mem, tag, op, if off < 0 then 0 else off, len, pool)
  }

  /** The backend call a request stands for, if any. */
  datatype Meaning = Call(op: Op) | Nothing | Unsupported

  function CallFor(op: nat, off: int, len: nat, buffer: seq<byte>): Meaning
    requires |buffer| == BUF
  {
    if op == OP_FLUSH then Nothing
    else if !TouchesDisk(op) || off < 0 then Unsupported
    else if op == OP_READ then Call(Read(off, len))
    else if op == OP_WRITE then Call(Write(off, buffer[..Min(len, BUF)]))
    else Call(Discard(off, len))
  }

  function MeaningOf(c: Config, req: Request): Meaning
    requires |req.buffer| == BUF
  {
    if IsEmpty(req.desc) then Nothing
    else CallFor(GetOp(req.desc), Offset(c, req.desc), Length(c, req.desc), req.buffer)
  }

  /** The atomic disk: one request, served in one step on a flat disk. */
  function AtomicDisk(c: Config, disk: seq<byte>, req: Request): (d: seq<byte>)
    requires |req.buffer| == BUF
    ensures |d| == |disk|
  {
    var m := MeaningOf(c, req);
    if m.Call? then After(disk, m.op) else disk
  }

  function AtomicReply(c: Config, disk: seq<byte>, req: Request): Reply
    requires |req.buffer| == BUF && FitsBuffer(c, req.desc)
  {
    var m := MeaningOf(c, req);
    var failed := m.Unsupported? || (m.Call? && m.op.Fails(|disk|));
    Reply(CommitResult(req.desc, failed),
          if m.Call? then Splice(req.buffer, 0, Output(disk, m.op)) else req.buffer)
  }

  lemma BufferPrefix(mem: seq<byte>, tag: nat, len: nat)
    requires HasBuffer(mem, tag) && len <= BUF
    ensures mem[BufAt(tag)..BufAt(tag) + len] == TagBuffer(mem, tag)[..len]
  {
    var at := BufAt(tag);
    assert BufAt(tag + 1) == at + BUF;
    forall i | 0 <= i < len
      ensures mem[at..at + len][i] == TagBuffer(mem, tag)[..len][i]
    {
    }
  }

  lemma SmallCallIsAtomic(disk: seq<byte>, mem: seq<byte>, tag: nat, op: nat, off: nat, len: nat, pool: seq<byte>)
    requires HasBuffer(mem, tag) && |pool| == MAX_POOLED && len <= MAX_POOLED
    requires op == OP_READ || op == OP_WRITE ==> len <= BUF
    ensures
      var r, m := Perform(disk, mem, tag, op, off, len, pool), CallFor(op, off, len, TagBuffer(mem, tag));
      && r.disk == (if m.Call? then After(disk, m.op) else disk)
      && (r.ioErr <==> m.Unsupported? || (m.Call? && m.op.Fails(|disk|)))
      && TagBuffer(r.mem, tag)
         == (if m.Call? then Splice(TagBuffer(mem, tag), 0, Output(disk, m.op)) else TagBuffer(mem, tag))
  {
    if op == OP_READ {
      BufferFrame(mem, tag, Output(disk, Read(off, len)), tag);
    } else {
      NothingSpliced(TagBuffer(mem, tag));
      if op == OP_WRITE {
        BufferPrefix(mem, tag, len);
      }
    }
  }

  lemma NothingSpliced(buffer: seq<byte>)
    ensures Splice(buffer, 0, []) == buffer
  {
  }

  lemma OtherBuffers(
    disk: seq<byte>, mem: seq<byte>, tag: nat, op: nat, off: nat, len: nat, pool: seq<byte>, other: nat)
    requires HasBuffer(mem, tag) && HasBuffer(mem, other) && other != tag && |pool| == MAX_POOLED && len <= MAX_POOLED
    ensures TagBuffer(Perform(disk, mem, tag, op, off, len, pool).mem, other) == TagBuffer(mem, other)
  {
    if op == OP_READ && len <= BUF {
      BufferFrame(mem, tag, Output(disk, Read(off, len)), other);
    }
  }

  /** When what it moves fits its buffer, the in-place code on shared tag memory is the atomic disk; at any length no
      other tag's buffer changes. */
  lemma SmallRequestIsAtomic(c: Config, disk: seq<byte>, mem: seq<byte>, tag: nat, d: Desc, pool: seq<byte>, other: nat)
    requires HasBuffer(mem, tag) && HasBuffer(mem, other) && |pool| == MAX_POOLED
    requires !IsEmpty(d)
    requires HandleIo(c, disk, mem, tag, d, pool).Done?
    ensures FitsBuffer(c, d) ==>
      var r := HandleIo(c, disk, mem, tag, d, pool);
      var req := Request(d, TagBuffer(mem, tag));
      && r.disk == AtomicDisk(c, disk, req)
      && Reply(CommitResult(d, r.ioErr), TagBuffer(r.mem, tag)) == AtomicReply(c, disk, req)
    ensures other != tag ==> TagBuffer(HandleIo(c, disk, mem, tag, d, pool).mem, other) == TagBuffer(mem, other)
  {
    var len, off, op := Length(c, d), Offset(c, d), GetOp(d);
    var at := if off < 0 then 0 else off;
    CallPanicsExactlyWhen(|disk|, off, len);
    if FitsBuffer(c, d) {
      SmallCallIsAtomic(disk, mem, tag, op, at, len, pool);
      assert CallFor(op, off, len, TagBuffer(mem, tag)) == CallFor(op, at, len, TagBuffer(mem, tag));
    }
    if other != tag {
      OtherBuffers(disk, mem, tag, op, at, len, pool, other);
    }
  }

  /** When the code panics, exactly: for a length no pooled array holds, and for a byte offset that is
      negative as a signed 64-bit number. */
  lemma PanicsExactlyWhen(c: Config, disk: seq<byte>, mem: seq<byte>, tag: nat, d: Desc, pool: seq<byte>)
    requires HasBuffer(mem, tag) && |pool| == MAX_POOLED
    ensures HandleIo(c, disk, mem, tag, d, pool).Panic? <==>
      Length(c, d) > MAX_POOLED || (TouchesDisk(GetOp(d)) && d.startSector * c.blockSize % TWO64 >= TWO63)
  {
    CallPanicsExactlyWhen(|disk|, Offset(c, d), Length(c, d));
  }

  /** The requests answered with an error: unknown operations, and writes beyond the end. */
  predicate Refused(c: Config, size: nat, d: Desc) {
    && !IsEmpty(d)
    && if TouchesDisk(GetOp(d)) then GetOp(d) == OP_WRITE && Offset(c, d) >= size else GetOp(d) != OP_FLUSH
  }

  /** Whether a request fails depends on its descriptor and the size of the disk alone. */
  lemma RefusedExactlyWhen(c: Config, disk: seq<byte>, mem: seq<byte>, tag: nat, d: Desc, pool: seq<byte>)
    requires HasBuffer(mem, tag) && |pool| == MAX_POOLED && !IsEmpty(d)
    requires HandleIo(c, disk, mem, tag, d, pool).Done?
    ensures HandleIo(c, disk, mem, tag, d, pool).ioErr <==> Refused(c, |disk|, d)
  {
    CallPanicsExactlyWhen(|disk|, Offset(c, d), Length(c, d));
  }

  // ---- Requests over BUF bytes: where the code stops being a disk ----

  /** A request inside the disk. */
  predicate InRange(c: Config, size: nat, memSize: nat, tag: nat, d: Desc) {
    && 0 <= Offset(c, d) <= size - Length(c, d)
    && 1 <= Length(c, d) <= MAX_POOLED
    && BufAt(tag + 1) <= memSize
  }

  /** After the request the bytes at the tag's buffer address and the bytes on the disk agree. Bytes
      the address does not have, past the end of the tag memory, are not transferred. */
  predicate Transferred(c: Config, disk: seq<byte>, mem: seq<byte>, tag: nat, d: Desc, pool: seq<byte>)
    requires InRange(c, |disk|, |mem|, tag, d) && |pool| == MAX_POOLED
  {
    var r := HandleIo(c, disk, mem, tag, d, pool);
    var len, off := Length(c, d), Offset(c, d);
    r.Done? && BufAt(tag) + len <= |mem| && r.mem[BufAt(tag)..BufAt(tag) + len] == r.disk[off..off + len]
  }

  ghost predicate AlwaysTransfers(c: Config, size: nat, memSize: nat, tag: nat, d: Desc)
    requires InRange(c, size, memSize, tag, d)
  {
    forall disk: seq<byte>, mem: seq<byte>, pool: seq<byte>
      | |disk| == size && |mem| == memSize && |pool| == MAX_POOLED
      :: Transferred(c, disk, mem, tag, d, pool)
  }

  lemma SmallMoves(disk: seq<byte>, mem: seq<byte>, tag: nat, op: nat, off: nat, len: nat, pool: seq<byte>)
    requires HasBuffer(mem, tag) && |pool| == MAX_POOLED && 1 <= len <= BUF && off + len <= |disk|
    requires op == OP_READ || op == OP_WRITE
    ensures
      var r := Perform(disk, mem, tag, op, off, len, pool);
      r.mem[BufAt(tag)..BufAt(tag) + len] == r.disk[off..off + len]
  {
    var at := BufAt(tag);
    if op == OP_READ {
      SpliceThere(mem, at, disk[off..off + len]);
    } else {
      var src := mem[at..at + len];
      assert Stored(Write(off, src), |disk|) == src;
      SpliceThere(disk, off, src);
    }
  }

  lemma SmallTransfers(c: Config, disk: seq<byte>, mem: seq<byte>, tag: nat, d: Desc, pool: seq<byte>)
    requires InRange(c, |disk|, |mem|, tag, d) && |pool| == MAX_POOLED
    requires GetOp(d) == OP_READ || GetOp(d) == OP_WRITE
    requires Length(c, d) <= BUF
    ensures Transferred(c, disk, mem, tag, d, pool)
  {
    var len, off := Length(c, d), Offset(c, d);
    CallPanicsExactlyWhen(|disk|, off, len);
    SmallMoves(disk, mem, tag, GetOp(d), off, len, pool);
  }

  /** The counterexample: a disk and a pooled buffer of ones, tag memory of zeros. */
  lemma LargeDoesNotTransfer(c: Config, size: nat, memSize: nat, tag: nat, d: Desc)
    requires InRange(c, size, memSize, tag, d)
    requires GetOp(d) == OP_READ || GetOp(d) == OP_WRITE
    requires Length(c, d) > BUF
    ensures !Transferred(c, seq(size, i => 1), Zeros(memSize), tag, d, seq(MAX_POOLED, i => 1))
  {
    var len, off, at := Length(c, d), Offset(c, d), BufAt(tag);
    var disk: seq<byte>, mem, pool: seq<byte> := seq(size, i => 1), Zeros(memSize), seq(MAX_POOLED, i => 1);
    CallPanicsExactlyWhen(size, off, len);
    var r := HandleIo(c, disk, mem, tag, d, pool);
    assert r.mem == mem;
    assert r.disk[off] == 1;
    if at + len <= memSize {
      assert r.mem[at..at + len][0] == 0;
      assert r.disk[off..off + len][0] == 1;
    }
  }

  /** A read or write moves its bytes between the disk and the address given to the kernel,
      whatever they are, exactly when it is at most BUF bytes long. */
  lemma TransfersExactlyUpToBuf(c: Config, size: nat, memSize: nat, tag: nat, d: Desc)
    requires InRange(c, size, memSize, tag, d)
    requires GetOp(d) == OP_READ || GetOp(d) == OP_WRITE
    ensures AlwaysTransfers(c, size, memSize, tag, d) <==> Length(c, d) <= BUF
  {
    if Length(c, d) <= BUF {
      forall disk: seq<byte>, mem: seq<byte>, pool: seq<byte>
        | |disk| == size && |mem| == memSize && |pool| == MAX_POOLED
        ensures Transferred(c, disk, mem, tag, d, pool)
      {
        SmallTransfers(c, disk, mem, tag, d, pool);
      }
    } else {
      LargeDoesNotTransfer(c, size, memSize, tag, d);
    }
  }
}
