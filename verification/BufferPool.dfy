/** The size-bucketed buffer pool of internal/queue/pool.go. A buffer is an array with an identity and
    a Go slice of it; sync.Pool may hand back any pooled buffer, make a new one, or drop one at a
    collection, so all three are steps. */
module BufferPool {
  import opened Options

  // 128 KB, 256 KB, 512 KB, 1 MB
  const CAPS: seq<nat> := [0x2_0000, 0x4_0000, 0x8_0000, 0x10_0000]

  /** A slice of the array id of total bytes, beginning off bytes into it. */
  datatype Slice = Slice(id: nat, total: nat, off: nat, len: nat) {
    function Cap(): int {
      total - off
    }
  }

  /** Where slices are: the four pools, then the slices that callers hold; and the next unused identity. */
  datatype State = State(places: seq<set<Slice>>, next: nat)

  const LIVE: nat := 4

  /** GetBuffer's switch. */
  function Bucket(size: nat): (i: nat)
    ensures i < 4
  {
    if size <= CAPS[0] then 0 else if size <= CAPS[1] then 1 else if size <= CAPS[2] then 2 else 3
  }

  /** PutBuffer's switch on the capacity. */
  function PoolOf(cap: int): (i: Option<nat>)
    ensures i.Some? ==> i.value < 4
  {
    if cap == CAPS[0] then Some(0) else if cap == CAPS[1] then Some(1)
    else if cap == CAPS[2] then Some(2) else if cap == CAPS[3] then Some(3) else None
  }

  function Remove(s: State, k: nat, b: Slice): State
    requires |s.places| == 5 && k < 5
  {
    s.(places := s.places[k := s.places[k] - {b}])
  }

  function Insert(s: State, k: nat, b: Slice): State
    requires |s.places| == 5 && k < 5
  {
    s.(places := s.places[k := s.places[k] + {b}])
  }

  // ---- Steps ----

  datatype Step =
    | Get(size: nat, from: Option<Slice>) // from a pooled buffer, or a new one
    | Put(buf: Slice)
    | Reslice(buf: Slice, lo: nat, hi: nat) // buf[lo:hi], kept instead of buf
    | Make(cap: nat) // a buffer of the caller's own
    | Collect(k: nat, buf: Slice) // the garbage collector empties a pool

  predicate Enabled(s: State, step: Step)
    requires |s.places| == 5
  {
    match step
    case Get(size, from) => from.Some? ==> from.value in s.places[Bucket(size)]
    case Put(buf) => buf in s.places[LIVE]
    case Reslice(buf, lo, hi) => buf in s.places[LIVE] && lo <= hi <= buf.Cap()
    case Make(cap) => true
    case Collect(k, buf) => k < LIVE && buf in s.places[k]
  }

  /** sync.Pool's Get: a pooled buffer, or a new one of the pool's capacity. */
  function Taken(s: State, k: nat, from: Option<Slice>): (r: (State, Slice))
    requires |s.places| == 5 && k < LIVE
    ensures |r.0.places| == 5
  {
    if from.Some? then (Remove(s, k, from.value), from.value)
    else (s.(next := s.next + 1), Slice(s.next, CAPS[k], 0, CAPS[k]))
  }

  /** Slicing beyond the capacity panics; the array taken from the pool is then lost. */
  function DoGet(s: State, size: nat, from: Option<Slice>): State
    requires |s.places| == 5
  {
    var (t, buf) := Taken(s, Bucket(size), from);
    if size <= buf.Cap() then Insert(t, LIVE, buf.(len := size)) else t
  }

  /** The whole capacity goes back to the pool of that capacity; others are dropped. */
  function DoPut(s: State, buf: Slice): State
    requires |s.places| == 5
  {
    var t := Remove(s, LIVE, buf);
    var k := PoolOf(buf.Cap());
    if k.Some? then Insert(t, k.value, buf.(len := CAPS[k.value])) else t
  }

  function DoReslice(s: State, buf: Slice, lo: nat, hi: nat): State
    requires |s.places| == 5 && lo <= hi
  {
    Insert(Remove(s, LIVE, buf), LIVE, Slice(buf.id, buf.total, buf.off + lo, hi - lo))
  }

  function Apply(s: State, step: Step): (t: State)
    requires |s.places| == 5 && Enabled(s, step)
    ensures |t.places| == 5
  {
    match step
    case Get(size, from) => DoGet(s, size, from)
    case Put(buf) => DoPut(s, buf)
    case Reslice(buf, lo, hi) => DoReslice(s, buf, lo, hi)
    case Make(cap) => Insert(s.(next := s.next + 1), LIVE, Slice(s.next, cap, 0, cap))
    case Collect(k, buf) => Remove(s, k, buf)
  }

  ghost predicate Run(s: State, steps: seq<Step>, t: State)
    decreases |steps|
  {
    if steps == [] then s == t
    else |s.places| == 5 && Enabled(s, steps[0]) && Run(Apply(s, steps[0]), steps[1..], t)
  }

  function Init(): State {
    State([{}, {}, {}, {}, {}], 0)
  }

  // ---- The invariant ----

  /** Every pool holds whole slices of its exact capacity. */
  ghost predicate ExactCapacities(s: State)
    requires |s.places| == 5
  {
    forall k, b :: 0 <= k < LIVE && b in s.places[k] ==> b.Cap() == b.len == CAPS[k]
  }

  /** Each array is known by one slice in one place: live buffers are distinct, and never also pooled. */
  ghost predicate OneHolder(s: State)
    requires |s.places| == 5
  {
    forall j, k, a, b :: 0 <= j < 5 && 0 <= k < 5 && a in s.places[j] && b in s.places[k] && a.id == b.id ==>
      j == k && a == b
  }

  ghost predicate Known(s: State)
    requires |s.places| == 5
  {
    forall k, b :: 0 <= k < 5 && b in s.places[k] ==> b.id < s.next && b.len <= b.Cap()
  }

  ghost predicate Inv(s: State) {
    |s.places| == 5 && ExactCapacities(s) && OneHolder(s) && Known(s)
  }

  ghost predicate Absent(s: State, id: nat)
    requires |s.places| == 5
  {
    forall k, b :: 0 <= k < 5 && b in s.places[k] ==> b.id != id
  }

  lemma InitInv()
    ensures Inv(Init())
  {
    assert forall k :: 0 <= k < 5 ==> Init().places[k] == {};
  }

  ghost predicate Fit(s: State, k: nat, b: Slice) {
    b.id < s.next && b.len <= b.Cap() && (k < LIVE ==> b.Cap() == b.len == CAPS[k])
  }

  lemma RemoveKeeps(s: State, k: nat, b: Slice)
    requires Inv(s) && k < 5 && b in s.places[k]
    ensures Inv(Remove(s, k, b)) && Absent(Remove(s, k, b), b.id) && Fit(s, k, b)
  {
    var t := Remove(s, k, b);
    forall j, c | 0 <= j < 5 && c in t.places[j]
      ensures c in s.places[j] && c.id != b.id
    {
    }
  }

  lemma InsertKeeps(s: State, k: nat, b: Slice)
    requires Inv(s) && k < 5 && Absent(s, b.id) && Fit(s, k, b)
    ensures Inv(Insert(s, k, b))
  {
    var t := Insert(s, k, b);
    forall j, c | 0 <= j < 5 && c in t.places[j]
      ensures c in s.places[j] || (j == k && c == b)
    {
    }
  }

  lemma FreshKeeps(s: State)
    requires Inv(s)
    ensures Inv(s.(next := s.next + 1)) && Absent(s.(next := s.next + 1), s.next)
  {
  }

  lemma TakenInv(s: State, k: nat, from: Option<Slice>)
    requires Inv(s) && k < LIVE && (from.Some? ==> from.value in s.places[k])
    ensures
      var (t, buf) := Taken(s, k, from);
      Inv(t) && Absent(t, buf.id) && Fit(t, k, buf)
  {
    if from.Some? {
      RemoveKeeps(s, k, from.value);
    } else {
      FreshKeeps(s);
    }
  }

  lemma GetInv(s: State, size: nat, from: Option<Slice>)
    requires Inv(s) && Enabled(s, Get(size, from))
    ensures Inv(DoGet(s, size, from))
  {
    var (t, buf) := Taken(s, Bucket(size), from);
    TakenInv(s, Bucket(size), from);
    if size <= buf.Cap() {
      InsertKeeps(t, LIVE, buf.(len := size));
    }
  }

  lemma PutInv(s: State, buf: Slice)
    requires Inv(s) && buf in s.places[LIVE]
    ensures Inv(DoPut(s, buf))
  {
    RemoveKeeps(s, LIVE, buf);
    var k := PoolOf(buf.Cap());
    if k.Some? {
      InsertKeeps(Remove(s, LIVE, buf), k.value, buf.(len := CAPS[k.value]));
    }
  }

  lemma ResliceFits(s: State, t: State, buf: Slice, lo: nat, hi: nat)
    requires Fit(s, LIVE, buf) && t.next == s.next && lo <= hi <= buf.Cap()
    ensures Fit(t, LIVE, Slice(buf.id, buf.total, buf.off + lo, hi - lo))
  {
  }

  lemma ResliceInv(s: State, buf: Slice, lo: nat, hi: nat)
    requires Inv(s) && buf in s.places[LIVE] && lo <= hi <= buf.Cap()
    ensures Inv(DoReslice(s, buf, lo, hi))
  {
    var t, c := Remove(s, LIVE, buf), Slice(buf.id, buf.total, buf.off + lo, hi - lo);
    RemoveKeeps(s, LIVE, buf);
    ResliceFits(s, t, buf, lo, hi);
    InsertKeeps(t, LIVE, c);
  }

  lemma StepInv(s: State, step: Step)
    requires Inv(s) && Enabled(s, step)
    ensures Inv(Apply(s, step))
  {
    match step
    case Get(size, from) => GetInv(s, size, from);
    case Put(buf) => PutInv(s, buf);
    case Reslice(buf, lo, hi) => ResliceInv(s, buf, lo, hi);
    case Make(cap) =>
      FreshKeeps(s);
      InsertKeeps(s.(next := s.next + 1), LIVE, Slice(s.next, cap, 0, cap));
    case Collect(k, buf) => RemoveKeeps(s, k, buf);
  }

  /** Over any run of gets, puts, re-slicings and collections. */
  lemma {:induction false} RunInv(s: State, steps: seq<Step>, t: State)
    requires Inv(s) && Run(s, steps, t)
    ensures Inv(t)
    decreases |steps|
  {
    if steps == [] {
    } else {
      StepInv(s, steps[0]);
      RunInv(Apply(s, steps[0]), steps[1..], t);
    }
  }

  // ---- What a caller gets ----

  /** b is what GetBuffer(size) returned: a slice of the size asked for, on an array of the least
      standard capacity that fits, which nobody else holds. */
  ghost predicate Served(s: State, t: State, size: nat, b: Slice)
    requires |s.places| == 5 && |t.places| == 5
  {
    && t.places[LIVE] == s.places[LIVE] + {b}
    && b.len == size <= b.Cap()
    && b in t.places[LIVE] && PoolOf(b.Cap()).Some?
    && (forall k :: 0 <= k < 4 && size <= CAPS[k] ==> b.Cap() <= CAPS[k])
    && (forall c :: c in s.places[LIVE] ==> c.id != b.id)
  }

  /** The slice GetBuffer returns. */
  function Returned(s: State, size: nat, from: Option<Slice>): Slice
    requires |s.places| == 5
  {
    Taken(s, Bucket(size), from).1.(len := size)
  }

  /** The capacities in bytes: the least of 128, 256, 512 and 1024 KB that holds the size, if one does; and a
      buffer goes back to a pool exactly when its capacity is one of the four. */
  lemma PoolsByNumber(size: nat, cap: int)
    ensures
      CAPS[Bucket(size)] == if size <= 131072 then 131072 else if size <= 262144 then 262144
                            else if size <= 524288 then 524288 else 1048576
    ensures PoolOf(cap).Some? <==> cap == 131072 || cap == 262144 || cap == 524288 || cap == 1048576
    ensures PoolOf(cap).Some? ==> CAPS[PoolOf(cap).value] == cap
  {
  }

  /** GetBuffer panics exactly above 1 MB, and otherwise serves the caller. */
  lemma GetGives(s: State, size: nat, from: Option<Slice>)
    requires Inv(s) && Enabled(s, Get(size, from))
    ensures
      var t := Apply(s, Get(size, from));
      if size > CAPS[3] then t.places[LIVE] == s.places[LIVE] else Served(s, t, size, Returned(s, size, from))
    ensures Returned(s, size, from).Cap() == CAPS[Bucket(size)]
  {
    var (t, buf) := Taken(s, Bucket(size), from);
    TakenInv(s, Bucket(size), from);
    assert t.places[LIVE] == s.places[LIVE];
    if size <= CAPS[3] {
      assert buf.Cap() == CAPS[Bucket(size)];
    }
  }

  /** Every array present after a step was there before it with the same size, or is new. */
  lemma StepArrays(s: State, step: Step, k: nat, c: Slice)
    requires |s.places| == 5 && Enabled(s, step) && k < 5 && c in Apply(s, step).places[k] && c.id != s.next
    ensures exists j, b :: 0 <= j < 5 && b in s.places[j] && b.id == c.id && b.total == c.total
  {
    if c in s.places[k] {
    } else {
      match step
      case Get(size, from) => assert from.value in s.places[Bucket(size)];
      case Put(buf) => assert buf in s.places[LIVE];
      case Reslice(buf, lo, hi) => assert buf in s.places[LIVE];
    }
  }

  lemma StepNext(s: State, step: Step)
    requires |s.places| == 5 && Enabled(s, step)
    ensures s.next <= Apply(s, step).next
  {
  }

  /** Where an array seen at the end of a run was at its beginning, unless it was made since. */
  lemma {:induction false} RunOrigin(s: State, steps: seq<Step>, t: State, k: nat, c: Slice)
    returns (d: Option<Slice>, j: nat)
    requires Inv(s) && Run(s, steps, t) && |t.places| == 5 && k < 5 && c in t.places[k]
    ensures d.None? ==> c.id >= s.next
    ensures d.Some? ==> j < 5 && d.value in s.places[j] && d.value.id == c.id && d.value.total == c.total
    decreases |steps|
  {
    if steps == [] {
      d, j := Some(c), k;
    } else {
      var u := Apply(s, steps[0]);
      StepInv(s, steps[0]);
      StepNext(s, steps[0]);
      d, j := RunOrigin(u, steps[1..], t, k, c);
      if d.Some? {
        if d.value.id == s.next {
          d := None;
        } else {
          StepArrays(s, steps[0], j, d.value);
          var i, b :| 0 <= i < 5 && b in s.places[i] && b.id == d.value.id && b.total == d.value.total;
          d, j := Some(b), i;
        }
      }
    }
  }

  lemma SameArray(s: State, j: nat, a: Slice, k: nat, b: Slice)
    requires Inv(s) && j < 5 && k < 5 && a in s.places[j] && b in s.places[k]
    ensures a.id < s.next && (a.id == b.id ==> a == b)
  {
  }

  /** An array keeps its size over any run, through every slice, pool and holder it passes. */
  lemma RunArrays(s: State, steps: seq<Step>, t: State, b: Slice, c: Slice)
    requires Inv(s) && Run(s, steps, t) && |t.places| == 5 && b in s.places[LIVE] && c in t.places[LIVE]
    requires b.id == c.id
    ensures b.total == c.total
  {
    var d, j := RunOrigin(s, steps, t, LIVE, c);
    SameArray(s, LIVE, b, LIVE, b);
    if d.Some? {
      SameArray(s, LIVE, b, j, d.value);
    }
  }

  lemma SamePool(b: Slice, c: Slice, i: nat)
    requires i < 4 && b.total == c.total && b.Cap() == CAPS[i]
    ensures PoolOf(c.Cap()) == Some(i) <==> c.off == b.off
  {
  }

  /** A put leaves the whole buffer in the pool of its capacity, and in no caller's hands. */
  lemma PutPools(s: State, buf: Slice)
    requires Inv(s) && buf in s.places[LIVE]
    ensures PoolOf(buf.Cap()).Some? ==> buf.(len := buf.Cap()) in DoPut(s, buf).places[PoolOf(buf.Cap()).value]
    ensures PoolOf(buf.Cap()).None? ==> Absent(DoPut(s, buf), buf.id)
    ensures forall c :: c in DoPut(s, buf).places[LIVE] ==> c.id != buf.id
  {
    RemoveKeeps(s, LIVE, buf);
  }

  /** A buffer obtained for some size and put back after any run returns to the pool it came from
      exactly when the caller's slice still begins where it did. */
  lemma ReturnsHome(s: State, size: nat, from: Option<Slice>, steps: seq<Step>, t: State, c: Slice)
    requires Inv(s) && Enabled(s, Get(size, from)) && size <= CAPS[3]
    requires Run(DoGet(s, size, from), steps, t) && |t.places| == 5
    requires c in t.places[LIVE] && c.id == Returned(s, size, from).id
    ensures PoolOf(c.Cap()) == Some(Bucket(size)) <==> c.off == Returned(s, size, from).off
  {
    GetInv(s, size, from);
    GetGives(s, size, from);
    var b := Returned(s, size, from);
    RunArrays(DoGet(s, size, from), steps, t, b, c);
    SamePool(b, c, Bucket(size));
  }

  // ---- The pools themselves ----

  datatype Outcome = Panic | Buffer(buf: Slice)

  // Whole slices of the four standard capacities.
  type Slice128k = s: Slice | s.Cap() == s.len == 0x2_0000 witness Slice(0, 0x2_0000, 0, 0x2_0000)
  type Slice256k = s: Slice | s.Cap() == s.len == 0x4_0000 witness Slice(0, 0x4_0000, 0, 0x4_0000)
  type Slice512k = s: Slice | s.Cap() == s.len == 0x8_0000 witness Slice(0, 0x8_0000, 0, 0x8_0000)
  type Slice1m = s: Slice | s.Cap() == s.len == 0x10_0000 witness Slice(0, 0x10_0000, 0, 0x10_0000)

  class GlobalPool {
    var pool128k: set<Slice128k>
    var pool256k: set<Slice256k>
    var pool512k: set<Slice512k>
    var pool1m: set<Slice1m>
    var next: nat
    ghost var live: set<Slice>

    ghost function View(): (s: State)
      reads this
    {
      State([pool128k, pool256k, pool512k, pool1m, live], next)
    }

    constructor ()
      ensures View() == Init() && Inv(View())
    {
      pool128k, pool256k, pool512k, pool1m, next, live := {}, {}, {}, {}, 0, {};
      InitInv();
    }

    /** sync.Pool's choice among what it holds; nothing forces it to reuse. */
    method Pick(pool: set<Slice>) returns (from: Option<Slice>)
      ensures from.Some? ==> from.value in pool
      ensures pool == {} ==> from.None?
    {
      from := None;
      if pool != {} {
        if * {
          var b :| b in pool;
          from := Some(b);
        }
      }
    }

    method New(cap: nat) returns (b: Slice)
      modifies this`next
      ensures b == Slice(old(next), cap, 0, cap) && next == old(next) + 1
    {
      b := Slice(next, cap, 0, cap);
      next := next + 1;
    }

    /** The switch over the four pools, without the slicing. */
    method Take(size: nat) returns (buf: Slice, ghost from: Option<Slice>)
      modifies this`pool128k, this`pool256k, this`pool512k, this`pool1m, this`next
      ensures Enabled(old(View()), Get(size, from))
      ensures (View(), buf) == Taken(old(View()), Bucket(size), from)
      ensures buf.Cap() == CAPS[Bucket(size)]
    {
      var picked;
      if size <= CAPS[0] {
        picked := Pick(pool128k);
        if picked.Some? {
          pool128k := pool128k - {picked.value};
        }
      } else if size <= CAPS[1] {
        picked := Pick(pool256k);
        if picked.Some? {
          pool256k := pool256k - {picked.value};
        }
      } else if size <= CAPS[2] {
        picked := Pick(pool512k);
        if picked.Some? {
          pool512k := pool512k - {picked.value};
        }
      } else {
        picked := Pick(pool1m);
        if picked.Some? {
          pool1m := pool1m - {picked.value};
        }
      }
      from := picked;
      if picked.Some? {
        buf := picked.value;
      } else {
        buf := New(CAPS[Bucket(size)]);
      }
      assert View().places == Taken(old(View()), Bucket(size), from).0.places;
    }

    /** GetBuffer up to what it means for the other holders. */
    method SliceTaken(size: nat) returns (r: Outcome, ghost from: Option<Slice>)
      modifies this
      ensures Enabled(old(View()), Get(size, from)) && View() == DoGet(old(View()), size, from)
      ensures r.Panic? <==> size > CAPS[Bucket(size)]
      ensures r.Panic? ==> live == old(live)
      ensures r.Buffer? ==> live == old(live) + {r.buf} && r.buf == Returned(old(View()), size, from)
      ensures r.Buffer? ==> r.buf.Cap() == CAPS[Bucket(size)]
    {
      var buf;
      buf, from := Take(size);
      if size > buf.Cap() {
        return Panic, from;
      }
      r := Buffer(buf.(len := size));
      live := live + {buf.(len := size)};
    }

    /** GetBuffer: the slice of the array taken panics exactly above 1 MB. */
    method GetBuffer(size: nat) returns (r: Outcome, ghost from: Option<Slice>)
      modifies this
      ensures Enabled(old(View()), Get(size, from)) && View() == Apply(old(View()), Get(size, from))
      ensures r.Panic? <==> size > CAPS[Bucket(size)]
      ensures r.Panic? ==> live == old(live)
      ensures r.Buffer? ==> live == old(live) + {r.buf} && r.buf.len == size && r.buf.Cap() == CAPS[Bucket(size)]
      ensures Inv(old(View())) ==> Inv(View()) && (r.Buffer? ==> Served(old(View()), View(), size, r.buf))
    {
      ghost var s := View();
      r, from := SliceTaken(size);
      if Inv(s) {
        GetInv(s, size, from);
        GetGives(s, size, from);
      }
    }

    method PutBuffer(buf: Slice)
      requires buf in live
      modifies this
      ensures View() == Apply(old(View()), Put(buf)) && live == old(live) - {buf}
      ensures Inv(old(View())) ==> Inv(View())
    {
      if Inv(View()) {
        PutInv(View(), buf);
      }
      live := live - {buf};
      var c := buf.Cap();
      if c == CAPS[0] {
        pool128k := pool128k + {buf.(len := c)};
      } else if c == CAPS[1] {
        pool256k := pool256k + {buf.(len := c)};
      } else if c == CAPS[2] {
        pool512k := pool512k + {buf.(len := c)};
      } else if c == CAPS[3] {
        pool1m := pool1m + {buf.(len := c)};
      }
    }
  }
}
