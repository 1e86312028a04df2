/** The memory shared with the kernel by one io_uring, and the operations of
    internal/uring/minimal.go on it: 32-bit counters that wrap, slots found by masking, SQEs
    prepared in batches behind a local tail, CQEs drained into a pool of result records. */
module Ring {
  import opened Words
  import opened Ublk

  /** A ring size the kernel hands out: a power of two. */
  ghost predicate RingSize(n: nat) {
    exists k: nat :: k <= 31 && n == Pow2(k)
  }

  /** A position as the 32-bit counter that has counted up to it. */
  function Wrap(pos: nat): (w: u32) {
    SlotAt(pos, TWO32)
  }

  /** counter + 1 in 32 bits. */
  function Next(counter: u32): u32 {
    if counter == TWO32 - 1 then 0 else counter + 1
  }

  /** a - b in 32 bits. */
  function Minus(a: u32, b: u32): u32 {
    if a >= b then a - b else a - b + TWO32
  }

  /** Incrementing the counter follows the position, across the wrap. */
  lemma WrapNext(pos: nat)
    ensures Wrap(pos + 1) == Next(Wrap(pos))
  {
    SlotAtIsRemainder(pos, TWO32);
    SlotAtIsRemainder(pos + 1, TWO32);
  }

  /** The 32-bit difference of two counters is their true distance. */
  lemma WrapDistance(pos: nat, d: nat)
    requires d < TWO32
    ensures Minus(Wrap(pos + d), Wrap(pos)) == d
    ensures Wrap(pos + d) == Wrap(pos) <==> d == 0
  {
    SlotAtIsRemainder(pos, TWO32);
    SlotAtIsRemainder(pos + d, TWO32);
  }

  /** The mask of the code, counter & (entries - 1). */
  function Slot(counter: u32, entries: nat): nat
    requires entries > 0
  {
    And(counter, entries - 1)
  }

  /** The slot of an unwrapped position, going round the ring. */
  function SlotAt(pos: nat, entries: nat): (s: nat)
    requires entries > 0
    ensures s < entries
    decreases pos
  {
    if pos < entries then pos else SlotAt(pos - entries, entries)
  }

  lemma {:induction false} SlotAtIsRemainder(pos: nat, entries: nat)
    requires entries > 0
    ensures SlotAt(pos, entries) == pos % entries
    decreases pos
  {
    if pos < entries {
      DivModUnique(pos, entries, 0, pos);
    } else {
      var p := pos - entries;
      SlotAtIsRemainder(p, entries);
      var q, r := p / entries, p % entries;
      assert pos == (q + 1) * entries + r by {
        assert p == q * entries + r;
        assert (q + 1) * entries == q * entries + entries;
      }
      DivModUnique(pos, entries, q + 1, r);
    }
  }

  lemma SizeDivides(k: nat)
    requires k <= 31
    ensures Pow2(k) <= TWO31 && TWO32 == Pow2(32 - k) * Pow2(k)
  {
    Pow2Word();
    Pow2Add(32 - k, k);
    Pow2Add(31 - k, k);
    MulMono(1, Pow2(31 - k), Pow2(k));
  }

  /** Masking a wrapped counter gives the slot of the unwrapped position. */
  lemma SlotOf(pos: nat, entries: nat)
    requires RingSize(entries)
    ensures 0 < entries <= TWO31
    ensures Slot(Wrap(pos), entries) == SlotAt(pos, entries)
  {
    var k: nat :| k <= 31 && entries == Pow2(k);
    SizeDivides(k);
    AndMask(Wrap(pos), k);
    ModOfWrapped(pos, entries, TWO32, Pow2(32 - k));
    SlotAtIsRemainder(pos, TWO32);
    SlotAtIsRemainder(pos, entries);
  }

  /** Positions less than a lap apart have different slots. */
  lemma SlotsDiffer(pos: nat, later: nat, entries: nat)
    requires entries > 0 && pos < later < pos + entries
    ensures SlotAt(pos, entries) != SlotAt(later, entries)
  {
    SlotAtIsRemainder(pos, entries);
    SlotAtIsRemainder(later, entries);
    if pos % entries == later % entries {
      SlotInjective(pos, later, entries);
    }
  }

  /** Every entry of a history from a position on is in its slot. */
  ghost predicate Stored<T>(slots: seq<T>, history: seq<T>, from: nat) {
    |slots| > 0 && forall p {:trigger history[p]} :: from <= p < |history| ==> slots[SlotAt(p, |slots|)] == history[p]
  }

  /** The next entry goes to a slot no entry still there uses. */
  lemma StoreNext<T>(slots: seq<T>, history: seq<T>, from: nat, x: T)
    requires Stored(slots, history, from) && from <= |history| < from + |slots|
    ensures Stored(slots[SlotAt(|history|, |slots|) := x], history + [x], from)
  {
    var h := history + [x];
    forall p {:trigger h[p]} | from <= p < |h|
      ensures slots[SlotAt(|history|, |slots|) := x][SlotAt(p, |slots|)] == h[p]
    {
      if p < |history| {
        SlotsDiffer(p, |history|, |slots|);
        assert h[p] == history[p];
      }
    }
  }

  /** What is found at a wrapped counter's slot is the entry of the position it stands for. */
  lemma SlotHolds<T>(slots: seq<T>, history: seq<T>, from: nat, pos: nat)
    requires Stored(slots, history, from) && RingSize(|slots|) && from <= pos < |history|
    ensures 0 <= Slot(Wrap(pos), |slots|) < |slots| && slots[Slot(Wrap(pos), |slots|)] == history[pos]
  {
    SlotOf(pos, |slots|);
    assert slots[SlotAt(pos, |slots|)] == history[pos];
  }

  lemma FirstAndRest<T>(s: seq<T>, a: nat, b: nat)
    requires a < b <= |s|
    ensures s[a..b] == [s[a]] + s[a + 1..b]
  {
  }

  /** The slot numbers the ring's indirection array holds for a stretch of positions. */
  ghost function SlotNumbers(n: nat, entries: nat): (s: seq<nat>)
    requires entries > 0
    ensures |s| == n
    ensures forall p :: 0 <= p < n ==> s[p] == SlotAt(p, entries)
  {
    seq(n, p requires 0 <= p => SlotAt(p, entries))
  }

  lemma SlotNumbersNext(n: nat, entries: nat)
    requires entries > 0
    ensures SlotNumbers(n + 1, entries) == SlotNumbers(n, entries) + [SlotAt(n, entries)]
  {
  }

  lemma Appended<T>(s: seq<T>, a: nat, b: nat, x: T)
    requires a <= b <= |s|
    ensures (s + [x])[a..b] == s[a..b] && (s + [x])[b..] == s[b..] + [x]
  {
  }

  /** Where a drained completion's record lives. */
  datatype Record = Pooled(index: nat) | Allocated(userData: nat, res: int)

  class Ring {
    const sqEntries: nat
    const cqEntries: nat
    const sqes: array<Sqe>
    const sqArray: array<nat>
    const cqes: array<Cqe>
    const cqePool: array<Cqe>

    var sqHead: u32        // written by the kernel
    var sqTail: u32        // shared tail
    var sqTailLocal: u32   // prepared but not necessarily published
    var cqHead: u32
    var cqTail: u32        // written by the kernel
    var cqePoolIndex: nat

    ghost var prepared: seq<Sqe>   // every entry ever prepared, in order
    ghost var published: nat       // how many of them the kernel may see
    ghost var taken: nat           // how many of them the kernel has taken
    ghost var posted: seq<Cqe>     // every completion ever posted, in order
    ghost var reaped: nat          // how many of them have been drained
    ghost var shortfalls: seq<nat> // per flush, how many fewer entries the kernel took than were new

    ghost predicate Sizes() {
      && RingSize(sqEntries) && RingSize(cqEntries) && sqEntries > 0 && cqEntries > 0
      && sqes.Length == sqArray.Length == sqEntries
      && cqes.Length == cqEntries
      && cqePool.Length >= cqEntries && cqePool != cqes
    }

    ghost predicate Counters()
      reads this
    {
      && taken <= published <= |prepared| <= taken + sqEntries
      && sqHead == Wrap(taken) && sqTail == Wrap(published) && sqTailLocal == Wrap(|prepared|)
      && reaped <= |posted| <= reaped + cqEntries
      && cqHead == Wrap(reaped) && cqTail == Wrap(|posted|)
    }

    /** The entries not yet taken are where their positions say. */
    ghost predicate SqSlots()
      requires sqEntries > 0
      reads this, sqes, sqArray
    {
      Stored(sqes[..], prepared, taken) && Stored(sqArray[..], SlotNumbers(|prepared|, sqEntries), taken)
    }

    ghost predicate CqSlots()
      reads this, cqes
    {
      Stored(cqes[..], posted, reaped)
    }

    ghost predicate Valid()
      reads this, sqes, sqArray, cqes
    {
      Sizes() && Counters() && SqSlots() && CqSlots()
    }

    /** Published, not yet taken. */
    ghost function Shared(): seq<Sqe>
      requires taken <= published <= |prepared|
      reads this
    {
      prepared[taken..published]
    }

    /** Prepared, not yet published. */
    ghost function Local(): seq<Sqe>
      requires published <= |prepared|
      reads this
    {
      prepared[published..]
    }

    /** Posted, not yet drained. */
    ghost function Completions(): seq<Cqe>
      requires reaped <= |posted|
      reads this
    {
      posted[reaped..]
    }

    constructor (sqEntries: nat, cqEntries: nat)
      requires RingSize(sqEntries) && RingSize(cqEntries)
      ensures Valid()
      ensures this.sqEntries == sqEntries && this.cqEntries == cqEntries
      ensures prepared == [] && posted == [] && TakesWhenAsked()
      ensures fresh(sqes) && fresh(sqArray) && fresh(cqes) && fresh(cqePool)
    {
      this.sqEntries, this.cqEntries := sqEntries, cqEntries;
      var poolSize := if cqEntries < 64 then 64 else cqEntries;
      sqes := new Sqe[sqEntries](_ => Sqe(Fetch, 0, IoCmd(0, 0, 0, 0)));
      sqArray := new nat[sqEntries](_ => 0);
      cqes := new Cqe[cqEntries](_ => Cqe(0, 0));
      cqePool := new Cqe[poolSize](_ => Cqe(0, 0));
      sqHead, sqTail, sqTailLocal, cqHead, cqTail, cqePoolIndex := 0, 0, 0, 0, 0, 0;
      prepared, published, taken, posted, reaped, shortfalls := [], 0, 0, [], 0, [];
      new;
      SlotOf(0, sqEntries);
      SlotOf(0, cqEntries);
    }

    /** prepareSQE: refused exactly when the ring holds as many entries not yet taken as it can;
        otherwise the entry is the newest prepared one, and nothing the kernel can see has changed. */
    method PrepareSqe(sqe: Sqe) returns (ok: bool)
      requires Valid()
      modifies this`sqTailLocal, this`prepared, sqes, sqArray
      ensures Valid()
      ensures ok <==> old(|prepared|) - taken < sqEntries
      ensures prepared == if ok then old(prepared) + [sqe] else old(prepared)
      ensures Shared() == old(Shared()) && Local() == if ok then old(Local()) + [sqe] else old(Local())
    {
      SlotOf(|prepared|, sqEntries);
      WrapDistance(taken, |prepared| - taken);
      if Minus(sqTailLocal, sqHead) >= sqEntries {
        return false;
      }
      var index := Slot(sqTailLocal, sqEntries);
      StoreNext(sqes[..], prepared, taken, sqe);
      StoreNext(sqArray[..], SlotNumbers(|prepared|, sqEntries), taken, index);
      SlotNumbersNext(|prepared|, sqEntries);
      sqes[index] := sqe;
      sqArray[index] := index;
      WrapNext(|prepared|);
      sqTailLocal := Next(sqTailLocal);
      Appended(prepared, taken, published, sqe);
      prepared := prepared + [sqe];
      return true;
    }

    /** flushSubmissions: everything prepared becomes visible to the kernel before the system call,
        which may fail or report any number of entries taken. */
    method FlushSubmissions(callOk: bool, reported: nat) returns (submitted: nat, ok: bool)
      requires Valid()
      modifies this`sqTail, this`published
      ensures Valid()
      ensures published == |prepared|
      ensures Shared() == old(Shared() + Local()) && Local() == []
      ensures ok <==> callOk || old(published) == |prepared|
      ensures submitted == if ok && old(published) < |prepared| then reported else 0
    {
      SlotOf(0, sqEntries);
      WrapDistance(published, |prepared| - published);
      var pending := Minus(sqTailLocal, sqTail);
      assert prepared[taken..] == prepared[taken..published] + prepared[published..];
      assert prepared[taken..|prepared|] == prepared[taken..];
      if pending == 0 {
        assert prepared[published..] == [];
        assert prepared[taken..published] + [] == prepared[taken..published];
        return 0, true;
      }
      sqTail := sqTailLocal;
      published := |prepared|;
      if !callOk {
        return 0, false;
      }
      return reported, true;
    }

    /** The kernel takes the oldest published entry: each is taken once, in order, and none before
        it is published. */
    method KernelConsume() returns (sqe: Sqe)
      requires Valid() && taken < published
      modifies this`sqHead, this`taken
      ensures Valid()
      ensures taken == old(taken) + 1 && sqe == prepared[old(taken)]
      ensures old(Shared()) == [sqe] + Shared() && Local() == old(Local())
    {
      SlotHolds(sqArray[..], SlotNumbers(|prepared|, sqEntries), taken, taken);
      SlotHolds(sqes[..], prepared, taken, taken);
      SlotOf(taken, sqEntries);
      var index := sqArray[Slot(sqHead, sqEntries)];
      sqe := sqes[index];
      WrapNext(taken);
      FirstAndRest(prepared, taken, published);
      sqHead := Next(sqHead);
      taken := taken + 1;
    }

    /** A kernel that takes entries only in the call of a flush leaves what all flushes came up short. */
    ghost predicate TakesWhenAsked()
      reads this
    {
      published == taken + Sum(shortfalls)
    }

    method TakeEntries(n: nat) returns (entries: seq<Sqe>)
      requires Valid() && n <= |Shared()|
      modifies this`sqHead, this`taken
      ensures Valid() && taken == old(taken) + n
      ensures |entries| == n && old(Shared()) == entries + Shared() && Local() == old(Local())
    {
      entries := [];
      for i := 0 to n
        invariant Valid() && taken == old(taken) + i
        invariant |entries| == i && old(Shared()) == entries + Shared() && Local() == old(Local())
      {
        ghost var rest := Shared();
        var sqe := KernelConsume();
        assert entries + rest == entries + [sqe] + Shared();
        entries := entries + [sqe];
      }
    }

    /** A flush and the call it makes: the call asks for the new entries' number, and the kernel takes at
        most so many, the oldest first. What an earlier call left is not asked for again, so that the
        backlog only grows, by each call's shortfall. */
    method FlushAndTake(callOk: bool, reported: nat) returns (ok: bool, entries: seq<Sqe>)
      requires Valid() && TakesWhenAsked() && reported <= |Local()|
      modifies this`sqTail, this`published, this`sqHead, this`taken, this`shortfalls
      ensures Valid() && TakesWhenAsked()
      ensures ok <==> callOk || old(Local()) == []
      ensures |entries| == if callOk then reported else 0
      ensures old(Shared() + Local()) == entries + Shared() && Local() == []
      ensures shortfalls == old(shortfalls) + [|old(Local())| - |entries|]
    {
      ghost var count := |Local()|;
      var submitted;
      submitted, ok := FlushSubmissions(callOk, reported);
      entries := TakeEntries(if callOk then reported else 0);
      SumNext(shortfalls, count - |entries|);
      shortfalls := shortfalls + [count - |entries|];
    }

    /** Every published entry has been taken exactly when no flush came up short. */
    lemma NoBacklogExactlyWhen()
      requires Valid() && TakesWhenAsked()
      ensures |Shared()| == Sum(shortfalls)
      ensures Shared() == [] <==> forall i :: 0 <= i < |shortfalls| ==> shortfalls[i] == 0
    {
      SumZero(shortfalls);
    }

    /** The kernel posts a completion. */
    method KernelPost(e: Cqe)
      requires Valid() && |posted| - reaped < cqEntries
      modifies this`cqTail, this`posted, cqes
      ensures Valid()
      ensures posted == old(posted) + [e]
      ensures Completions() == old(Completions()) + [e]
    {
      SlotOf(|posted|, cqEntries);
      var index := Slot(cqTail, cqEntries);
      StoreNext(cqes[..], posted, reaped, e);
      cqes[index] := e;
      WrapNext(|posted|);
      cqTail := Next(cqTail);
      ghost var was := posted;
      posted := posted + [e];
      assert posted[reaped..] == was[reaped..] + [e];
    }

    /** A record for one completion: the next of the pool, or a new one when the pool is used up. */
    method Allot(e: Cqe) returns (r: Record)
      modifies this`cqePoolIndex, cqePool
      ensures old(cqePoolIndex) < cqePool.Length ==>
        && r == Pooled(old(cqePoolIndex)) && cqePoolIndex == old(cqePoolIndex) + 1
        && cqePool[..] == old(cqePool[..])[old(cqePoolIndex) := e]
    {
      if cqePoolIndex < cqePool.Length {
        cqePool[cqePoolIndex] := e;
        r := Pooled(cqePoolIndex);
        cqePoolIndex := cqePoolIndex + 1;
      } else {
        r := Allocated(e.userData, e.res);
      }
    }

    /** The loop of drain, from the head to the tail observed at its start. */
    method Collect() returns (records: seq<Record>, currentHead: u32)
      requires Sizes() && Counters() && CqSlots() && cqePoolIndex == 0
      modifies this`cqePoolIndex, cqePool
      ensures currentHead == cqTail
      ensures |records| == |posted| - reaped <= cqePool.Length
      ensures forall i :: 0 <= i < |records| ==> records[i] == Pooled(i) && cqePool[..][i] == posted[reaped + i]
    {
      records := [];
      var currentTail := cqTail;
      currentHead := cqHead;
      ghost var pos := reaped;
      SlotOf(0, cqEntries);
      WrapDistance(pos, |posted| - pos);
      while currentHead != currentTail
        invariant reaped <= pos <= |posted|
        invariant currentHead == Wrap(pos)
        invariant currentHead == currentTail <==> pos == |posted|
        invariant |records| == cqePoolIndex == pos - reaped
        invariant forall i :: 0 <= i < |records| ==> records[i] == Pooled(i) && cqePool[..][i] == posted[reaped + i]
        decreases |posted| - pos
      {
        SlotHolds(cqes[..], posted, reaped, pos);
        var e := cqes[Slot(currentHead, cqEntries)];
        var r := Allot(e);
        records := records + [r];
        WrapNext(pos);
        currentHead := Next(currentHead);
        pos := pos + 1;
        WrapDistance(pos, |posted| - pos);
      }
    }

    /** The drain closure of WaitForCompletion: exactly the completions between the head and the
        observed tail, in order, each consumed once and each in its own pool record; the pool is
        never exhausted, so nothing is allocated. */
    method Drain() returns (records: seq<Record>)
      requires Valid()
      modifies this`cqHead, this`cqePoolIndex, this`reaped, cqePool
      ensures Valid()
      ensures reaped == |posted| && Completions() == []
      ensures |records| == |old(Completions())| <= cqePool.Length
      ensures forall i :: 0 <= i < |records| ==> records[i] == Pooled(i) && cqePool[i] == old(Completions())[i]
    {
      cqePoolIndex := 0;
      var currentHead;
      records, currentHead := Collect();
      if currentHead != cqHead {
        cqHead := currentHead;
      }
      reaped := |posted|;
      forall i | 0 <= i < |records|
        ensures cqePool[i] == old(Completions())[i]
      {
        assert cqePool[..][i] == cqePool[i];
      }
    }
  }
}
