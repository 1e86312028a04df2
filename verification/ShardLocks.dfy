/** The sharded locking of memoryBackend as interleaved steps: any number of concurrent ReadAt,
    WriteAt and Discard calls, each taking its shards' read-write mutexes in ascending order,
    copying byte by byte, and releasing. A step belongs to one call; a schedule is the sequence of
    calls that step. The mutex is Go's: a writer that has announced itself keeps new readers out
    while it waits for the readers inside. */
module ShardLocks {
  import opened Options
  import opened Shards
  import opened Words
  import opened FlatDisk

  /** sync.RWMutex: the readers inside, the writer that has announced itself, and whether it is inside. */
  datatype Lock = Lock(readers: set<nat>, owner: Option<nat>, active: bool)

  datatype Pc =
    | Locking(i: int, announced: bool)   // holds first..i
    | Copying(k: nat)                    // holds all, k bytes done
    | Unlocking(i: int)                  // holds i..last
    | Finished

  /** One call: its operation, where it is, and the bytes a read has copied. */
  datatype Thread = Thread(op: Op, pc: Pc, buf: seq<byte>)

  datatype State = State(
    data: seq<byte>,
    locks: seq<Lock>,
    threads: seq<Thread>,
    // what the calls would see if each took effect at once when it has all its locks:
    spec: seq<byte>,
    order: seq<nat>,
    want: seq<seq<byte>>)

  function Cnt(s: State, op: Op): nat { op.Count(|s.data|) }

  function First(size: nat, op: Op): int { ShardRange(size, op.off, op.Count(size)).0 }

  function Last(size: nat, op: Op): int { ShardRange(size, op.off, op.Count(size)).1 }

  /** A call beyond the end returns at once, taking no lock. */
  function Start(size: nat, op: Op): Thread {
    Thread(op, if op.off >= size then Finished else Locking(First(size, op), false), [])
  }

  function Init(data: seq<byte>, ops: seq<Op>): State {
    State(data, seq(ShardCount(|data|), i => Lock({}, None, false)),
          seq(|ops|, i requires 0 <= i < |ops| => Start(|data|, ops[i])),
          data, [], seq(|ops|, i => []))
  }

  predicate Shape(s: State) {
    && |s.spec| == |s.data|
    && |s.locks| == ShardCount(|s.data|)
    && |s.want| == |s.threads|
  }

  /** The thread's program counter is where its operation allows. */
  predicate PcOk(size: nat, th: Thread) {
    var first, last := First(size, th.op), Last(size, th.op);
    (th.pc.Finished? || th.op.off < size) &&
    match th.pc
    case Locking(i, announced) => first <= i <= last + 1 && (announced ==> !th.op.Read? && i <= last) && th.buf == []
    case Copying(k) => k <= th.op.Count(size)
    case Unlocking(i) => first <= i <= last + 1
    case Finished => true
  }

  predicate Holds(size: nat, th: Thread, j: int) {
    match th.pc
    case Locking(i, _) => First(size, th.op) <= j < i
    case Copying(_) => First(size, th.op) <= j <= Last(size, th.op)
    case Unlocking(i) => i <= j <= Last(size, th.op)
    case Finished => false
  }

  // ---- Steps ----

  predicate Enabled(s: State, t: nat)
    requires Shape(s)
  {
    t < |s.threads| &&
    var th := s.threads[t];
    PcOk(|s.data|, th) &&
    match th.pc
    case Locking(i, announced) =>
      if i > Last(|s.data|, th.op) then true
      else 0 <= i < |s.locks| && if announced then s.locks[i].readers == {} else s.locks[i].owner.None?
    case Copying(_) => true
    case Unlocking(i) => i > Last(|s.data|, th.op) || 0 <= i < |s.locks|
    case Finished => false
  }

  function SetThread(s: State, t: nat, th: Thread): State
    requires t < |s.threads|
  {
    s.(threads := s.threads[t := th])
  }

  /** RLock; or Lock in two steps, announcing first and entering when the readers have left. */
  function DoLock(s: State, t: nat): State
    requires Shape(s) && Enabled(s, t)
    requires s.threads[t].pc.Locking? && s.threads[t].pc.i <= Last(|s.data|, s.threads[t].op)
  {
    var th := s.threads[t];
    var i, l := th.pc.i, s.locks[th.pc.i];
    if th.op.Read? then
      SetThread(s.(locks := s.locks[i := l.(readers := l.readers + {t})]), t, th.(pc := Locking(i + 1, false)))
    else if !th.pc.announced then
      SetThread(s.(locks := s.locks[i := l.(owner := Some(t), active := false)]), t, th.(pc := Locking(i, true)))
    else
      SetThread(s.(locks := s.locks[i := l.(active := true)]), t, th.(pc := Locking(i + 1, false)))
  }

  /** All locks held: the lock point. */
  function DoBegin(s: State, t: nat): State
    requires Shape(s) && t < |s.threads|
  {
    var th := s.threads[t];
    SetThread(s.(spec := After(s.spec, th.op), order := s.order + [t], want := s.want[t := Output(s.spec, th.op)]),
              t, th.(pc := Copying(0)))
  }

  /** One byte of the copy, or its end. */
  function DoCopy(s: State, t: nat): State
    requires Shape(s) && Enabled(s, t) && s.threads[t].pc.Copying?
  {
    var th := s.threads[t];
    var k := th.pc.k;
    if k == Cnt(s, th.op) then SetThread(s, t, th.(pc := Unlocking(First(|s.data|, th.op))))
    else if th.op.Read? then SetThread(s, t, th.(pc := Copying(k + 1), buf := th.buf + [s.data[th.op.off + k]]))
    else SetThread(s.(data := s.data[th.op.off + k := Stored(th.op, |s.data|)[k]]), t, th.(pc := Copying(k + 1)))
  }

  function DoUnlock(s: State, t: nat): State
    requires Shape(s) && Enabled(s, t) && s.threads[t].pc.Unlocking?
  {
    var th := s.threads[t];
    var i := th.pc.i;
    if i > Last(|s.data|, th.op) then SetThread(s, t, th.(pc := Finished))
    else
      var l := s.locks[i];
      var l' := if th.op.Read? then l.(readers := l.readers - {t}) else l.(owner := None, active := false);
      SetThread(s.(locks := s.locks[i := l']), t, th.(pc := Unlocking(i + 1)))
  }

  function Step(s: State, t: nat): (r: State)
    requires Shape(s) && Enabled(s, t)
    ensures Shape(r) && |r.data| == |s.data| && |r.threads| == |s.threads|
  {
    var th := s.threads[t];
    match th.pc
    case Locking(i, _) => if i > Last(|s.data|, th.op) then DoBegin(s, t) else DoLock(s, t)
    case Copying(_) => DoCopy(s, t)
    case Unlocking(_) => DoUnlock(s, t)
  }

  datatype Reached = Nowhere | At(s: State)

  function Run(s: State, schedule: seq<nat>): (r: Reached)
    requires Shape(s)
    ensures r.At? ==> Shape(r.s) && |r.s.data| == |s.data| && |r.s.threads| == |s.threads|
    decreases |schedule|
  {
    if schedule == [] then At(s)
    else
      var n := |schedule| - 1;
      var before := Run(s, schedule[..n]);
      if before.At? && Enabled(before.s, schedule[n]) then At(Step(before.s, schedule[n])) else Nowhere
  }

  /** Readers share: two reads inside one shard can be copying at the same time. */
  lemma ReadersShare(data: seq<byte>, a: Op, b: Op) returns (schedule: seq<nat>)
    requires a.Read? && b.Read? && a.len > 0 && b.len > 0 && a.off + a.len <= |data| && b.off + b.len <= |data|
    requires a.off / 65536 == (a.off + a.len - 1) / 65536 == b.off / 65536 == (b.off + b.len - 1) / 65536
    ensures
      var r := Run(Init(data, [a, b]), schedule);
      r.At? && r.s.threads[0].pc == r.s.threads[1].pc == Copying(0)
  {
    var s0 := Init(data, [a, b]);
    OneShard(|data|, a);
    OneShard(|data|, b);
    schedule := BothLock(s0, [], s0, a.off / 65536);
  }

  lemma BothLock(s0: State, done: seq<nat>, s: State, i: nat) returns (schedule: seq<nat>)
    requires Shape(s0) && Run(s0, done) == At(s) && Shape(s) && |s.threads| == 2 && i < |s.locks|
    requires forall t :: 0 <= t < 2 ==>
      && s.threads[t].op.Read? && s.threads[t].pc == Locking(i, false) && PcOk(|s.data|, s.threads[t])
      && i == Last(|s.data|, s.threads[t].op)
    requires s.locks[i].owner.None?
    ensures
      var r := Run(s0, schedule);
      r.At? && r.s.threads[0].pc == r.s.threads[1].pc == Copying(0)
  {
    var s1 := ReaderLocks(s0, done, s, 0, i);
    var s2 := ReaderLocks(s0, done + [0], s1, 1, i);
    var s3 := ReaderBegins(s0, done + [0] + [1], s2, 0);
    var s4 := ReaderBegins(s0, done + [0] + [1] + [0], s3, 1);
    schedule := done + [0] + [1] + [0] + [1];
  }

  lemma OneShard(size: nat, op: Op)
    requires op.Read? && op.len > 0 && op.off + op.len <= size && op.off / 65536 == (op.off + op.len - 1) / 65536
    ensures First(size, op) == Last(size, op) == op.off / 65536 < ShardCount(size)
    ensures Start(size, op) == Thread(op, Locking(op.off / 65536, false), [])
  {
  }

  /** A reader takes the lock of its only shard while no writer has it. */
  lemma ReaderLocks(s0: State, schedule: seq<nat>, s: State, t: nat, i: nat) returns (r: State)
    requires Shape(s0) && Run(s0, schedule) == At(s) && Shape(s) && t < |s.threads| && i < |s.locks|
    requires s.threads[t].op.Read? && s.threads[t].pc == Locking(i, false) && PcOk(|s.data|, s.threads[t])
    requires i == Last(|s.data|, s.threads[t].op) && s.locks[i].owner.None?
    ensures Run(s0, schedule + [t]) == At(r) && Shape(r) && |r.data| == |s.data| && |r.locks| == |s.locks|
    ensures r.locks[i].owner.None? && r.threads == s.threads[t := s.threads[t].(pc := Locking(i + 1, false))]
  {
    r := RunOn(s0, schedule, s, t);
  }

  lemma ReaderBegins(s0: State, schedule: seq<nat>, s: State, t: nat) returns (r: State)
    requires Shape(s0) && Run(s0, schedule) == At(s) && Shape(s) && t < |s.threads| && PcOk(|s.data|, s.threads[t])
    requires s.threads[t].pc == Locking(Last(|s.data|, s.threads[t].op) + 1, false)
    ensures Run(s0, schedule + [t]) == At(r) && Shape(r) && |r.data| == |s.data|
    ensures r.threads == s.threads[t := s.threads[t].(pc := Copying(0))]
  {
    r := RunOn(s0, schedule, s, t);
  }

  lemma RunOn(s0: State, schedule: seq<nat>, s: State, t: nat) returns (r: State)
    requires Shape(s0) && Run(s0, schedule) == At(s) && Shape(s) && Enabled(s, t)
    ensures r == Step(s, t) && Run(s0, schedule + [t]) == At(r)
  {
    assert (schedule + [t])[..|schedule|] == schedule;
    r := Step(s, t);
  }

  // ---- Mutual exclusion ----

  ghost predicate PcInv(s: State) {
    forall t :: 0 <= t < |s.threads| ==> PcOk(|s.data|, s.threads[t])
  }

  /** A lock's record says exactly which threads are inside or waiting to enter. */
  ghost predicate LockOk(s: State, j: int)
    requires 0 <= j < |s.locks|
  {
    var l := s.locks[j];
    && (forall t: nat :: t in l.readers <==>
          t < |s.threads| && s.threads[t].op.Read? && Holds(|s.data|, s.threads[t], j))
    && (l.owner.Some? ==>
          && l.owner.value < |s.threads| && !s.threads[l.owner.value].op.Read?
          && if l.active then Holds(|s.data|, s.threads[l.owner.value], j)
             else s.threads[l.owner.value].pc == Locking(j, true))
    && (forall t :: 0 <= t < |s.threads| && !s.threads[t].op.Read? && Holds(|s.data|, s.threads[t], j) ==>
          l.owner == Some(t) && l.active)
    && (forall t :: 0 <= t < |s.threads| && s.threads[t].pc == Locking(j, true) ==> l.owner == Some(t) && !l.active)
    && (l.active ==> l.owner.Some? && l.readers == {})
  }

  ghost predicate LockInv(s: State) {
    forall j :: 0 <= j < |s.locks| ==> LockOk(s, j)
  }

  lemma PcStep(s: State, t: nat)
    requires Shape(s) && PcInv(s) && Enabled(s, t)
    ensures PcInv(Step(s, t))
  {
    var th := s.threads[t];
    ShardRangeCovers(|s.data|, th.op.off, Cnt(s, th.op));
  }

  /** A lock that did not change, for a thread whose hold on it did not change. */
  lemma LockFrame(s: State, r: State, t: nat, j: int)
    requires 0 <= j < |s.locks| == |r.locks| && LockOk(s, j) && r.locks[j] == s.locks[j]
    requires t < |s.threads| == |r.threads| && |r.data| == |s.data|
    requires r.threads == s.threads[t := r.threads[t]] && r.threads[t].op == s.threads[t].op
    requires Holds(|s.data|, r.threads[t], j) <==> Holds(|s.data|, s.threads[t], j)
    requires r.threads[t].pc == Locking(j, true) <==> s.threads[t].pc == Locking(j, true)
    ensures LockOk(r, j)
  {
  }

  lemma LockTaken(s: State, t: nat)
    requires Shape(s) && LockInv(s) && Enabled(s, t) && s.threads[t].pc.Locking?
    requires s.threads[t].pc.i <= Last(|s.data|, s.threads[t].op)
    ensures LockOk(DoLock(s, t), s.threads[t].pc.i)
  {
    assert LockOk(s, s.threads[t].pc.i);
  }

  lemma LockLeft(s: State, t: nat)
    requires Shape(s) && LockInv(s) && Enabled(s, t) && s.threads[t].pc.Unlocking?
    requires s.threads[t].pc.i <= Last(|s.data|, s.threads[t].op)
    ensures LockOk(DoUnlock(s, t), s.threads[t].pc.i)
  {
    assert LockOk(s, s.threads[t].pc.i);
  }

  /** Every step keeps every lock's record exact. */
  lemma LockStep(s: State, t: nat)
    requires Shape(s) && LockInv(s) && Enabled(s, t)
    ensures LockInv(Step(s, t))
  {
    var r := Step(s, t);
    var th := s.threads[t];
    var last := Last(|s.data|, th.op);
    ShardRangeCovers(|s.data|, th.op.off, Cnt(s, th.op));
    forall j | 0 <= j < |r.locks| ensures LockOk(r, j) {
      if th.pc.Locking? && th.pc.i <= last && j == th.pc.i {
        LockTaken(s, t);
      } else if th.pc.Unlocking? && th.pc.i <= last && j == th.pc.i {
        LockLeft(s, t);
      } else {
        assert LockOk(s, j);
        LockFrame(s, r, t, j);
      }
    }
  }

  /** Two calls copying at once share no byte unless both only read. */
  lemma Exclusion(s: State, t: nat, u: nat, a: nat)
    requires Shape(s) && PcInv(s) && LockInv(s)
    requires t < |s.threads| && u < |s.threads| && t != u && s.threads[t].pc.Copying? && s.threads[u].pc.Copying?
    requires Covers(s, t, a) && Covers(s, u, a)
    ensures s.threads[t].op.Read? && s.threads[u].op.Read?
  {
    var j := ShardOf(a);
    ShardRangeCovers(|s.data|, s.threads[t].op.off, Cnt(s, s.threads[t].op));
    ShardRangeCovers(|s.data|, s.threads[u].op.off, Cnt(s, s.threads[u].op));
    assert Holds(|s.data|, s.threads[t], j) && Holds(|s.data|, s.threads[u], j);
    assert LockOk(s, j);
  }

  predicate Covers(s: State, t: nat, a: nat)
    requires t < |s.threads|
  {
    s.threads[t].op.off <= a < s.threads[t].op.off + Cnt(s, s.threads[t].op)
  }

  // ---- Serializability ----

  /** A write or discard that has its locks and has yet to store byte a. */
  predicate Owes(s: State, t: nat, a: nat)
    requires t < |s.threads|
  {
    var th := s.threads[t];
    !th.op.Read? && th.pc.Copying? && th.op.off + th.pc.k <= a < th.op.off + Cnt(s, th.op)
  }

  /** The data differs from the serial state only where a writer has bytes to go. */
  ghost predicate DataOk(s: State)
    requires Shape(s)
  {
    forall a :: 0 <= a < |s.data| ==> s.data[a] == s.spec[a] || exists t :: 0 <= t < |s.threads| && Owes(s, t, a)
  }

  /** The serial state already has the bytes a writer has to go. */
  ghost predicate WriterOk(s: State, t: nat)
    requires Shape(s) && t < |s.threads|
  {
    var op := s.threads[t].op;
    forall a :: 0 <= a < |s.data| && Owes(s, t, a) ==> s.spec[a] == Stored(op, |s.data|)[a - op.off]
  }

  /** A read has copied a prefix of its serial result; the rest is still in the serial state. */
  ghost predicate ReaderOk(s: State, t: nat)
    requires Shape(s) && t < |s.threads|
  {
    var th := s.threads[t];
    th.op.Read? ==>
      match th.pc
      case Locking(_, _) => true
      case Copying(k) =>
        && |th.buf| == k <= |s.want[t]| == Cnt(s, th.op)
        && th.buf == s.want[t][..k]
        && (forall i :: k <= i < Cnt(s, th.op) ==> s.want[t][i] == s.spec[th.op.off + i])
      case _ => th.buf == s.want[t]
  }

  ghost predicate CopyInv(s: State)
    requires Shape(s)
  {
    && DataOk(s)
    && (forall t :: 0 <= t < |s.threads| ==> WriterOk(s, t) && ReaderOk(s, t))
  }

  /** A call that is copying reads or writes bytes that no other writer owes. */
  lemma NobodyOwes(s: State, t: nat, a: nat)
    requires Shape(s) && PcInv(s) && LockInv(s) && t < |s.threads| && s.threads[t].pc.Copying? && Covers(s, t, a)
    ensures forall u :: 0 <= u < |s.threads| && u != t ==> !Owes(s, u, a)
  {
    forall u | 0 <= u < |s.threads| && u != t ensures !Owes(s, u, a) {
      if Owes(s, u, a) {
        Exclusion(s, t, u, a);
      }
    }
  }

  /** Steps that move no byte and pass no lock point. */
  lemma QuietCopy(s: State, r: State, t: nat)
    requires Shape(s) && Shape(r) && CopyInv(s) && t < |s.threads| == |r.threads|
    requires r.data == s.data && r.spec == s.spec && r.want == s.want
    requires r.threads == s.threads[t := r.threads[t]] && r.threads[t].op == s.threads[t].op
    requires !s.threads[t].pc.Copying? && !r.threads[t].pc.Copying? && ReaderOk(r, t)
    ensures CopyInv(r)
  {
    forall a | 0 <= a < |r.data| && r.data[a] != r.spec[a] ensures exists u :: 0 <= u < |r.threads| && Owes(r, u, a) {
      var u :| 0 <= u < |s.threads| && Owes(s, u, a);
      assert Owes(r, u, a);
    }
    forall u | 0 <= u < |r.threads| ensures WriterOk(r, u) && ReaderOk(r, u) {
      assert WriterOk(s, u) && ReaderOk(s, u);
    }
  }

  /** What the lock point of t leaves for another call: its bytes are not t's to change. */
  lemma BeginOther(s: State, t: nat, u: nat)
    requires Shape(s) && CopyInv(s) && t < |s.threads| && u < |s.threads| && u != t && !s.threads[t].pc.Copying?
    requires PcInv(DoBegin(s, t)) && LockInv(DoBegin(s, t))
    ensures WriterOk(DoBegin(s, t), u) && ReaderOk(DoBegin(s, t), u)
  {
    var r := DoBegin(s, t);
    assert WriterOk(s, u) && ReaderOk(s, u);
    forall a: nat
      | a < |r.data| && r.threads[u].pc.Copying? && Covers(r, u, a)
        && !(s.threads[t].op.Read? && s.threads[u].op.Read?)
      ensures r.spec[a] == s.spec[a]
    {
      if Covers(r, t, a) {
        Exclusion(r, t, u, a);
      }
    }
  }

  lemma BeginSelf(s: State, t: nat)
    requires Shape(s) && PcInv(s) && t < |s.threads| && s.threads[t].pc.Locking?
    ensures WriterOk(DoBegin(s, t), t) && ReaderOk(DoBegin(s, t), t)
  {
  }

  lemma BeginData(s: State, t: nat)
    requires Shape(s) && DataOk(s) && t < |s.threads| && !s.threads[t].pc.Copying?
    ensures DataOk(DoBegin(s, t))
  {
    var r := DoBegin(s, t);
    forall a | 0 <= a < |r.data| && r.data[a] != r.spec[a] ensures exists u :: 0 <= u < |r.threads| && Owes(r, u, a) {
      if !s.threads[t].op.Read? && Covers(r, t, a) {
        assert Owes(r, t, a);
      } else {
        assert r.spec[a] == s.spec[a];
        var u :| 0 <= u < |s.threads| && Owes(s, u, a);
        assert Owes(r, u, a);
      }
    }
  }

  lemma BeginCopy(s: State, t: nat)
    requires Shape(s) && PcInv(s) && CopyInv(s) && t < |s.threads| && s.threads[t].pc.Locking?
    requires PcInv(DoBegin(s, t)) && LockInv(DoBegin(s, t))
    ensures CopyInv(DoBegin(s, t))
  {
    BeginData(s, t);
    var r := DoBegin(s, t);
    forall u | 0 <= u < |r.threads| ensures WriterOk(r, u) && ReaderOk(r, u) {
      if u == t {
        BeginSelf(s, t);
      } else {
        BeginOther(s, t, u);
      }
    }
  }

  /** A byte is read: it is the serial one, because nobody else owes it. */
  lemma ReadSelf(s: State, t: nat)
    requires Shape(s) && PcInv(s) && LockInv(s) && CopyInv(s) && Enabled(s, t) && s.threads[t].pc.Copying?
    requires s.threads[t].op.Read?
    ensures ReaderOk(DoCopy(s, t), t)
  {
    var th := s.threads[t];
    var k := th.pc.k;
    assert ReaderOk(s, t);
    if k < Cnt(s, th.op) {
      var a := th.op.off + k;
      NobodyOwes(s, t, a);
      assert s.data[a] == s.spec[a] == s.want[t][k];
      assert s.want[t][..k + 1] == s.want[t][..k] + [s.want[t][k]];
    }
  }

  lemma ReadByte(s: State, t: nat)
    requires Shape(s) && PcInv(s) && LockInv(s) && CopyInv(s) && Enabled(s, t) && s.threads[t].pc.Copying?
    requires s.threads[t].op.Read?
    ensures CopyInv(DoCopy(s, t))
  {
    var r := DoCopy(s, t);
    assert r.data == s.data && r.spec == s.spec && r.want == s.want;
    forall a | 0 <= a < |r.data| && r.data[a] != r.spec[a] ensures exists u :: 0 <= u < |r.threads| && Owes(r, u, a) {
      var u :| 0 <= u < |s.threads| && Owes(s, u, a);
      assert Owes(r, u, a);
    }
    forall u | 0 <= u < |r.threads| ensures WriterOk(r, u) && ReaderOk(r, u) {
      assert WriterOk(s, u) && ReaderOk(s, u);
      if u == t {
        ReadSelf(s, t);
      }
    }
  }

  /** A byte is stored: it is the one the serial state already has. */
  lemma StoreData(s: State, t: nat)
    requires Shape(s) && CopyInv(s) && Enabled(s, t) && s.threads[t].pc.Copying? && !s.threads[t].op.Read?
    ensures DataOk(DoCopy(s, t))
  {
    var r := DoCopy(s, t);
    var th := s.threads[t];
    assert WriterOk(s, t);
    assert th.pc.k < Cnt(s, th.op) ==> Owes(s, t, th.op.off + th.pc.k);
    forall a | 0 <= a < |r.data| && r.data[a] != r.spec[a] ensures exists u :: 0 <= u < |r.threads| && Owes(r, u, a) {
      var u :| 0 <= u < |s.threads| && Owes(s, u, a);
      assert Owes(r, u, a);
    }
  }

  lemma StoreByte(s: State, t: nat)
    requires Shape(s) && CopyInv(s) && Enabled(s, t) && s.threads[t].pc.Copying? && !s.threads[t].op.Read?
    ensures CopyInv(DoCopy(s, t))
  {
    StoreData(s, t);
    var r := DoCopy(s, t);
    assert r.spec == s.spec && r.want == s.want && |r.data| == |s.data|;
    forall u | 0 <= u < |r.threads| ensures WriterOk(r, u) && ReaderOk(r, u) {
      assert WriterOk(s, u) && ReaderOk(s, u);
      forall a | 0 <= a < |r.data| && Owes(r, u, a) ensures Owes(s, u, a) {}
    }
  }

  lemma CopyStep(s: State, t: nat)
    requires Shape(s) && PcInv(s) && LockInv(s) && CopyInv(s) && Enabled(s, t)
    ensures CopyInv(Step(s, t))
  {
    var th := s.threads[t];
    PcStep(s, t);
    LockStep(s, t);
    if th.pc.Copying? {
      if th.op.Read? { ReadByte(s, t); } else { StoreByte(s, t); }
    } else if th.pc.Locking? && th.pc.i > Last(|s.data|, th.op) {
      BeginCopy(s, t);
    } else {
      assert ReaderOk(s, t);
      QuietCopy(s, Step(s, t), t);
    }
  }

  // ---- The serial history ----

  function OpsIn(s: State, order: seq<nat>): (ops: seq<Op>)
    requires forall i :: 0 <= i < |order| ==> order[i] < |s.threads|
    ensures |ops| == |order|
  {
    seq(|order|, i requires 0 <= i < |order| => s.threads[order[i]].op)
  }

  predicate PastLockPoint(th: Thread) {
    th.pc.Copying? || th.pc.Unlocking? || th.pc.Finished?
  }

  /** The order holds exactly the calls past their lock point, each once. */
  ghost predicate OrderInv(s: State)
    requires Shape(s)
  {
    && (forall i :: 0 <= i < |s.order| ==> s.order[i] < |s.threads| && PastLockPoint(s.threads[s.order[i]]))
    && (forall i, j :: 0 <= i < j < |s.order| ==> s.order[i] != s.order[j])
    && (forall t :: 0 <= t < |s.threads| && PastLockPoint(s.threads[t]) && s.threads[t].op.off < |s.data| ==>
          t in s.order)
    && (forall t :: 0 <= t < |s.threads| && t !in s.order ==> s.want[t] == [])
  }

  /** The result of the i-th call in a serial history. */
  ghost predicate ResultAt(data0: seq<byte>, ops: seq<Op>, i: nat, want: seq<byte>)
    requires i < |ops|
  {
    want == Output(AfterAll(data0, ops[..i]), ops[i])
  }

  /** The serial state and results are those of running the calls one after the other in lock-point order. */
  ghost predicate SerialInv(s: State, data0: seq<byte>)
    requires Shape(s)
  {
    && OrderInv(s)
    && |data0| == |s.data|
    && s.spec == AfterAll(data0, OpsIn(s, s.order))
    && (forall i :: 0 <= i < |s.order| ==> ResultAt(data0, OpsIn(s, s.order), i, s.want[s.order[i]]))
  }

  lemma SameOps(s: State, r: State, order: seq<nat>)
    requires |r.threads| == |s.threads| && forall t :: 0 <= t < |s.threads| ==> r.threads[t].op == s.threads[t].op
    requires forall i :: 0 <= i < |order| ==> order[i] < |s.threads|
    ensures OpsIn(r, order) == OpsIn(s, order)
  {
  }

  lemma AfterOneMore(data0: seq<byte>, ops: seq<Op>, op: Op)
    ensures AfterAll(data0, ops + [op]) == After(AfterAll(data0, ops), op)
  {
    assert (ops + [op])[..|ops|] == ops;
  }

  lemma ResultKept(data0: seq<byte>, ops: seq<Op>, op: Op, i: nat, want: seq<byte>)
    requires i < |ops| && ResultAt(data0, ops, i, want)
    ensures ResultAt(data0, ops + [op], i, want)
  {
    assert (ops + [op])[..i] == ops[..i];
  }

  lemma BeginOrder(s: State, t: nat)
    requires Shape(s) && OrderInv(s) && t < |s.threads| && s.threads[t].pc.Locking?
    ensures OrderInv(DoBegin(s, t)) && t !in s.order
  {
    var r := DoBegin(s, t);
    forall u | 0 <= u < |r.threads| && PastLockPoint(r.threads[u]) && r.threads[u].op.off < |r.data|
      ensures u in r.order
    {
      if u == t {
        assert r.order[|s.order|] == t;
      }
    }
  }

  lemma BeginSerial(s: State, t: nat, data0: seq<byte>)
    requires Shape(s) && SerialInv(s, data0) && t < |s.threads| && s.threads[t].pc.Locking?
    ensures SerialInv(DoBegin(s, t), data0)
  {
    BeginOrder(s, t);
    var r := DoBegin(s, t);
    SameOps(s, r, s.order);
    var before, op := OpsIn(s, s.order), s.threads[t].op;
    assert OpsIn(r, r.order) == before + [op];
    AfterOneMore(data0, before, op);
    forall i | 0 <= i < |r.order| ensures ResultAt(data0, before + [op], i, r.want[r.order[i]]) {
      if i < |s.order| {
        assert r.want[r.order[i]] == s.want[s.order[i]];
        ResultKept(data0, before, op, i, s.want[s.order[i]]);
      } else {
        assert (before + [op])[..i] == before;
      }
    }
  }

  lemma OtherSerial(s: State, r: State, t: nat, data0: seq<byte>)
    requires Shape(s) && Shape(r) && SerialInv(s, data0) && t < |s.threads| == |r.threads|
    requires |r.data| == |s.data| && r.order == s.order && r.spec == s.spec && r.want == s.want
    requires r.threads == s.threads[t := r.threads[t]] && r.threads[t].op == s.threads[t].op
    requires PastLockPoint(r.threads[t]) <==> PastLockPoint(s.threads[t])
    ensures SerialInv(r, data0)
  {
    SameOps(s, r, s.order);
  }

  lemma SerialStep(s: State, t: nat, data0: seq<byte>)
    requires Shape(s) && SerialInv(s, data0) && Enabled(s, t)
    ensures SerialInv(Step(s, t), data0)
  {
    var th := s.threads[t];
    if th.pc.Locking? && th.pc.i > Last(|s.data|, th.op) {
      BeginSerial(s, t, data0);
    } else {
      OtherSerial(s, Step(s, t), t, data0);
    }
  }

  ghost predicate Inv(s: State, data0: seq<byte>) {
    Shape(s) && PcInv(s) && LockInv(s) && CopyInv(s) && SerialInv(s, data0)
  }

  lemma InitInv(data0: seq<byte>, ops: seq<Op>)
    ensures Inv(Init(data0, ops), data0)
  {
    var s := Init(data0, ops);
    forall t | 0 <= t < |ops| ensures PcOk(|s.data|, s.threads[t]) {
      if ops[t].off < |data0| {
        ShardRangeCovers(|data0|, ops[t].off, ops[t].Count(|data0|));
      }
    }
  }

  lemma StepInv(s: State, t: nat, data0: seq<byte>)
    requires Inv(s, data0) && Enabled(s, t)
    ensures Inv(Step(s, t), data0)
  {
    PcStep(s, t);
    LockStep(s, t);
    CopyStep(s, t);
    SerialStep(s, t, data0);
  }

  lemma StepOps(s: State, t: nat)
    requires Shape(s) && Enabled(s, t)
    ensures forall u :: 0 <= u < |s.threads| ==> Step(s, t).threads[u].op == s.threads[u].op
  {
  }

  lemma {:induction false} RunInv(data0: seq<byte>, ops: seq<Op>, schedule: seq<nat>)
    requires Run(Init(data0, ops), schedule).At?
    ensures Inv(Run(Init(data0, ops), schedule).s, data0)
    ensures forall t :: 0 <= t < |ops| ==> Run(Init(data0, ops), schedule).s.threads[t].op == ops[t]
    decreases |schedule|
  {
    if schedule == [] {
      InitInv(data0, ops);
    } else {
      var n := |schedule| - 1;
      RunInv(data0, ops, schedule[..n]);
      var s := Run(Init(data0, ops), schedule[..n]).s;
      StepInv(s, schedule[n], data0);
      StepOps(s, schedule[n]);
    }
  }

  /** The calls in the order of their lock points. */
  function Serial(ops: seq<Op>, order: seq<nat>): (r: seq<Op>)
    requires forall i :: 0 <= i < |order| ==> order[i] < |ops|
    ensures |r| == |order|
    ensures forall i :: 0 <= i < |order| ==> r[i] == ops[order[i]]
  {
    seq(|order|, i requires 0 <= i < |order| => ops[order[i]])
  }

  lemma OrderOk(data0: seq<byte>, ops: seq<Op>, schedule: seq<nat>)
    requires Run(Init(data0, ops), schedule).At?
    ensures
      var s := Run(Init(data0, ops), schedule).s;
      && (forall i :: 0 <= i < |s.order| ==> s.order[i] < |ops|)
      && (forall i, j :: 0 <= i < j < |s.order| ==> s.order[i] != s.order[j])
      && OpsIn(s, s.order) == Serial(ops, s.order)
  {
    RunInv(data0, ops, schedule);
    var s := Run(Init(data0, ops), schedule).s;
    assert OpsIn(s, s.order) == Serial(ops, s.order);
  }

  /** In any interleaving, each call takes its place in a serial order at the moment it holds all its
      locks, and a read that has finished copying has exactly the bytes the flat disk gives it at its
      place in that order. */
  lemma SerialReads(data0: seq<byte>, ops: seq<Op>, schedule: seq<nat>, i: nat)
    requires Run(Init(data0, ops), schedule).At? && i < |Run(Init(data0, ops), schedule).s.order|
    ensures
      var s := Run(Init(data0, ops), schedule).s;
      && (forall k :: 0 <= k < |s.order| ==> s.order[k] < |ops|)
      && (forall k, j :: 0 <= k < j < |s.order| ==> s.order[k] != s.order[j])
      && (ops[s.order[i]].Read? && !s.threads[s.order[i]].pc.Copying? ==>
            s.threads[s.order[i]].buf == Output(AfterAll(data0, Serial(ops, s.order)[..i]), ops[s.order[i]]))
  {
    OrderOk(data0, ops, schedule);
    RunInv(data0, ops, schedule);
    var s := Run(Init(data0, ops), schedule).s;
    assert ReaderOk(s, s.order[i]) && ResultAt(data0, Serial(ops, s.order), i, s.want[s.order[i]]);
  }

  /** Once every call has finished, the data is what the flat disk holds after the calls in that order;
      a call is missing from the order only if it began beyond the end, and then it read nothing. */
  lemma SerialData(data0: seq<byte>, ops: seq<Op>, schedule: seq<nat>)
    requires Run(Init(data0, ops), schedule).At?
    requires forall t :: 0 <= t < |ops| ==> Run(Init(data0, ops), schedule).s.threads[t].pc.Finished?
    ensures
      var s := Run(Init(data0, ops), schedule).s;
      && (forall k :: 0 <= k < |s.order| ==> s.order[k] < |ops|)
      && s.data == AfterAll(data0, Serial(ops, s.order))
      && forall t :: 0 <= t < |ops| && t !in s.order ==>
           ops[t].off >= |data0| && (ops[t].Read? ==> s.threads[t].buf == [])
  {
    OrderOk(data0, ops, schedule);
    RunInv(data0, ops, schedule);
    var s := Run(Init(data0, ops), schedule).s;
    assert s.data == s.spec;
    forall t | 0 <= t < |ops| && t !in s.order
      ensures ops[t].off >= |data0| && (ops[t].Read? ==> s.threads[t].buf == [])
    {
      assert ReaderOk(s, t);
    }
  }

  // ---- Calls made later ----

  /** One more call begins. */
  function Spawn(s: State, op: Op): (r: State)
    requires Shape(s)
    ensures Shape(r) && |r.data| == |s.data|
  {
    s.(threads := s.threads + [Start(|s.data|, op)], want := s.want + [[]])
  }

  lemma SpawnLocks(s: State, op: Op)
    requires Shape(s) && PcInv(s) && LockInv(s)
    ensures PcInv(Spawn(s, op)) && LockInv(Spawn(s, op))
  {
    var r, n := Spawn(s, op), |s.threads|;
    if op.off < |s.data| {
      ShardRangeCovers(|s.data|, op.off, op.Count(|s.data|));
    }
    forall t | 0 <= t < |r.threads|
      ensures PcOk(|r.data|, r.threads[t])
    {
      assert t < n ==> PcOk(|s.data|, s.threads[t]);
    }
    forall j | 0 <= j < |r.locks|
      ensures LockOk(r, j)
    {
      assert LockOk(s, j);
      assert !Holds(|r.data|, r.threads[n], j);
    }
  }

  lemma SpawnCopies(s: State, op: Op)
    requires Shape(s) && CopyInv(s)
    ensures CopyInv(Spawn(s, op))
  {
    var r, n := Spawn(s, op), |s.threads|;
    forall a | 0 <= a < |r.data| && r.data[a] != r.spec[a]
      ensures exists t :: 0 <= t < |r.threads| && Owes(r, t, a)
    {
      var t :| 0 <= t < |s.threads| && Owes(s, t, a);
      assert Owes(r, t, a);
    }
    forall t | 0 <= t < |r.threads|
      ensures WriterOk(r, t) && ReaderOk(r, t)
    {
      if t < n {
        assert WriterOk(s, t) && ReaderOk(s, t);
      }
    }
  }

  lemma SpawnSerial(s: State, op: Op, data0: seq<byte>)
    requires Shape(s) && SerialInv(s, data0)
    ensures SerialInv(Spawn(s, op), data0)
  {
    var r := Spawn(s, op);
    assert OpsIn(r, r.order) == OpsIn(s, s.order);
  }

  /** A call may begin at any time. */
  lemma SpawnInv(s: State, op: Op, data0: seq<byte>)
    requires Inv(s, data0)
    ensures Inv(Spawn(s, op), data0)
  {
    SpawnLocks(s, op);
    SpawnCopies(s, op);
    SpawnSerial(s, op, data0);
  }

  // ---- Real time ----

  /** A step adds to the order only the call that steps, and only if it is on the disk. */
  lemma StepOrder(s: State, t: nat)
    requires Shape(s) && PcInv(s) && Enabled(s, t)
    ensures
      var r := Step(s, t);
      r.order == s.order || (r.order == s.order + [t] && s.threads[t].op.off < |s.data|)
  {
    assert PcOk(|s.data|, s.threads[t]);
  }

  /** The order only grows. */
  lemma {:induction false} OrderGrows(data0: seq<byte>, ops: seq<Op>, schedule: seq<nat>, m: nat)
    requires Run(Init(data0, ops), schedule).At? && m <= |schedule|
    ensures Run(Init(data0, ops), schedule[..m]).At?
    ensures Run(Init(data0, ops), schedule[..m]).s.order <= Run(Init(data0, ops), schedule).s.order
    decreases |schedule|
  {
    if m == |schedule| {
      assert schedule[..m] == schedule;
    } else {
      var n := |schedule| - 1;
      LastStepOrders(data0, ops, schedule);
      OrderGrows(data0, ops, schedule[..n], m);
      assert schedule[..n][..m] == schedule[..m];
    }
  }

  lemma LastStepOrders(data0: seq<byte>, ops: seq<Op>, schedule: seq<nat>)
    requires Run(Init(data0, ops), schedule).At? && schedule != []
    ensures
      var before := Run(Init(data0, ops), schedule[..|schedule| - 1]);
      before.At? && before.s.order <= Run(Init(data0, ops), schedule).s.order
  {
    var n := |schedule| - 1;
    RunInv(data0, ops, schedule[..n]);
    StepOrder(Run(Init(data0, ops), schedule[..n]).s, schedule[n]);
  }

  /** The calls in the order have stepped, and lie on the disk. */
  lemma {:induction false} OrderedCalls(data0: seq<byte>, ops: seq<Op>, schedule: seq<nat>, t: nat)
    requires Run(Init(data0, ops), schedule).At? && t in Run(Init(data0, ops), schedule).s.order
    ensures t in schedule && t < |ops| && ops[t].off < |data0|
    decreases |schedule|
  {
    if schedule == [] {
    } else {
      var n := |schedule| - 1;
      var s := Run(Init(data0, ops), schedule[..n]).s;
      RunInv(data0, ops, schedule[..n]);
      StepOrder(s, schedule[n]);
      if t in s.order {
        OrderedCalls(data0, ops, schedule[..n], t);
      } else {
        assert schedule[n] == t;
      }
    }
  }

  /** A call finished before another has taken its first step comes earlier in the serial order: the
      backend is linearizable. */
  lemma RealTimeOrder(data0: seq<byte>, ops: seq<Op>, schedule: seq<nat>, m: nat, a: nat, b: nat, i: nat, j: nat)
    requires Run(Init(data0, ops), schedule).At? && m <= |schedule|
    requires Run(Init(data0, ops), schedule[..m]).At? && b !in schedule[..m]
    requires a < |ops| && Run(Init(data0, ops), schedule[..m]).s.threads[a].pc.Finished?
    requires
      var order := Run(Init(data0, ops), schedule).s.order;
      i < |order| && j < |order| && order[i] == a && order[j] == b
    ensures i < j
  {
    var s, early := Run(Init(data0, ops), schedule).s, Run(Init(data0, ops), schedule[..m]).s;
    RunInv(data0, ops, schedule[..m]);
    OrderGrows(data0, ops, schedule, m);
    OrderedCalls(data0, ops, schedule, a);
    assert PastLockPoint(early.threads[a]) && a in early.order;
    var k :| 0 <= k < |early.order| && early.order[k] == a;
    assert s.order[k] == a;
    OrderOk(data0, ops, schedule);
    assert k == i;
    if j < |early.order| {
      assert early.order[j] == b;
      OrderedCalls(data0, ops, schedule[..m], b);
    }
  }

  // ---- Progress and termination ----

  ghost predicate Waiting(s: State, t: nat) {
    t < |s.threads| && s.threads[t].pc.Locking? && s.threads[t].pc.i <= Last(|s.data|, s.threads[t].op)
  }

  /** Among the waiting calls, one waits for the highest shard. */
  lemma {:induction false} HighestWaiting(s: State, n: nat, w: nat) returns (t: nat)
    requires n <= |s.threads| && w < n && Waiting(s, w)
    ensures t < n && Waiting(s, t) && forall u :: 0 <= u < n && Waiting(s, u) ==> s.threads[u].pc.i <= s.threads[t].pc.i
    decreases n
  {
    t := w;
    if exists u :: 0 <= u < n - 1 && Waiting(s, u) {
      var u :| 0 <= u < n - 1 && Waiting(s, u);
      t := HighestWaiting(s, n - 1, u);
      if Waiting(s, n - 1) && s.threads[n - 1].pc.i > s.threads[t].pc.i {
        t := n - 1;
      }
    }
  }

  /** Ascending acquisition cannot deadlock: while a call is unfinished, some call can step. */
  lemma Progress(s: State, data0: seq<byte>, w: nat)
    requires Inv(s, data0) && w < |s.threads| && !s.threads[w].pc.Finished?
    ensures exists t: nat :: t < |s.threads| && Enabled(s, t)
  {
    if u: nat :| u < |s.threads| && !s.threads[u].pc.Finished? && !Waiting(s, u) {
      ShardRangeCovers(|s.data|, s.threads[u].op.off, Cnt(s, s.threads[u].op));
      assert Enabled(s, u);
    } else {
      assert Waiting(s, w);
      var t := HighestWaiting(s, |s.threads|, w);
      var j := s.threads[t].pc.i;
      ShardRangeCovers(|s.data|, s.threads[t].op.off, Cnt(s, s.threads[t].op));
      assert LockOk(s, j);
      forall r: nat
        ensures r !in s.locks[j].readers
      {
        if Waiting(s, r) {
        }
      }
      var o := s.locks[j].owner;
      if o.Some? {
        assert PcOk(|s.data|, s.threads[o.value]) && Waiting(s, o.value);
        assert Enabled(s, o.value);
      } else {
        assert Enabled(s, t);
      }
    }
  }

  /** How many steps a call has left. */
  function Left(size: nat, th: Thread): int {
    var first, last, cnt := First(size, th.op), Last(size, th.op), th.op.Count(size);
    match th.pc
    case Locking(i, announced) =>
      (last + 1 - i) + (if th.op.Read? then 0 else last + 1 - i) - (if announced then 1 else 0)
      + 1 + cnt + 1 + (last + 1 - first) + 1
    case Copying(k) => cnt - k + 1 + (last + 1 - first) + 1
    case Unlocking(i) => last + 1 - i + 1
    case Finished => 0
  }

  function Total(size: nat, ths: seq<Thread>): int {
    if ths == [] then 0 else Left(size, ths[0]) + Total(size, ths[1..])
  }

  lemma {:induction false} TotalUpdate(size: nat, ths: seq<Thread>, t: nat, th: Thread)
    requires t < |ths|
    ensures Total(size, ths[t := th]) == Total(size, ths) - Left(size, ths[t]) + Left(size, th)
    decreases |ths|
  {
    if t == 0 {
      assert ths[0 := th][1..] == ths[1..];
    } else {
      TotalUpdate(size, ths[1..], t - 1, th);
      assert ths[t := th][1..] == ths[1..][t - 1 := th];
    }
  }

  lemma {:induction false} TotalNat(size: nat, ths: seq<Thread>)
    requires forall t :: 0 <= t < |ths| ==> PcOk(size, ths[t])
    ensures Total(size, ths) >= 0
    decreases |ths|
  {
    if ths == [] {
    } else {
      TotalNat(size, ths[1..]);
      if ths[0].op.off < size {
        ShardRangeCovers(size, ths[0].op.off, ths[0].op.Count(size));
      }
    }
  }

  /** Every step of any call brings the end one step nearer. */
  lemma StepLeft(s: State, t: nat)
    requires Shape(s) && Enabled(s, t)
    ensures Total(|s.data|, Step(s, t).threads) == Total(|s.data|, s.threads) - 1
  {
    var r := Step(s, t);
    ShardRangeCovers(|s.data|, s.threads[t].op.off, Cnt(s, s.threads[t].op));
    assert r.threads == s.threads[t := r.threads[t]];
    TotalUpdate(|s.data|, s.threads, t, r.threads[t]);
  }

  /** No schedule is longer than the steps there are to take, and one that cannot be continued has
      finished every call. */
  lemma {:induction false} Terminates(data0: seq<byte>, ops: seq<Op>, schedule: seq<nat>)
    requires Run(Init(data0, ops), schedule).At?
    ensures |schedule| + Total(|data0|, Run(Init(data0, ops), schedule).s.threads)
      == Total(|data0|, Init(data0, ops).threads)
    ensures |schedule| <= Total(|data0|, Init(data0, ops).threads)
    ensures
      var s := Run(Init(data0, ops), schedule).s;
      (forall t: nat :: t < |ops| ==> !Enabled(s, t)) ==> forall t: nat :: t < |ops| ==> s.threads[t].pc.Finished?
    decreases |schedule|
  {
    RunInv(data0, ops, schedule);
    var s := Run(Init(data0, ops), schedule).s;
    TotalNat(|data0|, s.threads);
    if schedule == [] {
    } else {
      var n := |schedule| - 1;
      Terminates(data0, ops, schedule[..n]);
      StepLeft(Run(Init(data0, ops), schedule[..n]).s, schedule[n]);
    }
    if t: nat :| t < |ops| && !s.threads[t].pc.Finished? {
      Progress(s, data0, t);
    }
  }
}
