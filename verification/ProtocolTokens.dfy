/** The token invariant of the queue protocol: each primed tag is in exactly one place, its
    recorded state says which command is out for it, and therefore the branches the code
    calls impossible are never taken. */
module ProtocolTokens {
  import opened Ublk
  import opened Protocol

  function SqTags(s: seq<Sqe>): (r: seq<nat>)
    ensures |r| == |s|
    ensures forall i :: 0 <= i < |s| ==> r[i] == s[i].cmd.tag
  {
    seq(|s|, i requires 0 <= i < |s| => s[i].cmd.tag)
  }

  function CqTags(s: seq<Cqe>): (r: seq<nat>)
    ensures |r| == |s|
    ensures forall i :: 0 <= i < |s| ==> r[i] == DecodeTag(s[i].userData)
  {
    seq(|s|, i requires 0 <= i < |s| => DecodeTag(s[i].userData))
  }

  function InSq(s: seq<Sqe>, t: nat): nat {
    multiset(SqTags(s))[t]
  }

  function InCq(s: seq<Cqe>, t: nat): nat {
    multiset(CqTags(s))[t]
  }

  /** In how many places a tag is. */
  function Tokens(q: Queue, t: nat): nat
    requires Shape(q)
  {
    InSq(q.local, t) + InSq(q.shared, t) + (if t in q.armed then 1 else 0) + InCq(q.cq, t) + InCq(q.batch, t)
    + (if t < q.c.depth && q.tagState[t].Owned? then 1 else 0)
  }

  ghost predicate OneToken(q: Queue)
    requires Shape(q)
  {
    forall t: nat ::
      if t >= q.primed then Tokens(q, t) == 0
      else if t in q.failed then Tokens(q, t) <= 1
      else Tokens(q, t) == 1
  }

  /** A command as the runner builds it for a tag in the state that goes with its kind. */
  predicate GoodSqe(c: Config, ts: seq<TagState>, primed: nat, s: Sqe) {
    && s.cmd.tag < primed <= |ts|
    && s == MakeSqe(c, s.kind, s.cmd.tag, s.cmd.result)
    && ts[s.cmd.tag] == StateOf(s.kind)
  }

  function KindOf(userData: nat): Kind {
    if DecodeCommit(userData) then Commit else Fetch
  }

  /** A completion whose user data decodes to a tag in flight, and to the command that is out for it. */
  predicate GoodCqe(c: Config, ts: seq<TagState>, primed: nat, e: Cqe) {
    var t := DecodeTag(e.userData);
    && t < primed <= |ts|
    && ts[t] == StateOf(KindOf(e.userData))
    && e.userData == EncodeUserData(KindOf(e.userData), c.qid, t)
  }

  ghost predicate AllSq(c: Config, ts: seq<TagState>, primed: nat, l: seq<Sqe>) {
    forall i :: 0 <= i < |l| ==> GoodSqe(c, ts, primed, l[i])
  }

  ghost predicate AllCq(c: Config, ts: seq<TagState>, primed: nat, l: seq<Cqe>) {
    forall i :: 0 <= i < |l| ==> GoodCqe(c, ts, primed, l[i])
  }

  ghost predicate AllArmed(c: Config, ts: seq<TagState>, primed: nat, m: map<nat, Sqe>) {
    forall t :: t in m ==> m[t].cmd.tag == t && GoodSqe(c, ts, primed, m[t])
  }

  ghost predicate Matches(q: Queue) {
    && AllSq(q.c, q.tagState, q.primed, q.local)
    && AllSq(q.c, q.tagState, q.primed, q.shared)
    && AllArmed(q.c, q.tagState, q.primed, q.armed)
    && AllCq(q.c, q.tagState, q.primed, q.cq)
    && AllCq(q.c, q.tagState, q.primed, q.batch)
  }

  /** Nothing in the rings or the kernel is for tag t. */
  ghost predicate Absent(q: Queue, t: nat) {
    && t !in q.armed
    && (forall i :: 0 <= i < |q.local| ==> q.local[i].cmd.tag != t)
    && (forall i :: 0 <= i < |q.shared| ==> q.shared[i].cmd.tag != t)
    && (forall i :: 0 <= i < |q.cq| ==> DecodeTag(q.cq[i].userData) != t)
    && (forall i :: 0 <= i < |q.batch| ==> DecodeTag(q.batch[i].userData) != t)
  }

  /** Changing the state of an absent tag disturbs nothing. */
  lemma AbsentFrame(q: Queue, t: nat, st: TagState)
    requires Matches(q) && t < |q.tagState| && Absent(q, t)
    ensures Matches(q.(tagState := q.tagState[t := st]))
  {
  }

  ghost predicate Phases(q: Queue)
    requires Shape(q)
  {
    && (q.phase.Priming? ==> q.primed < q.c.depth)
    && (q.phase.Priming? || q.phase.PrimeFlush? || q.phase.Stopped? || q.primed == q.c.depth)
    && (q.phase.Priming? || q.phase.Idle? ==> q.local == [])
    && (q.phase.Priming? || q.phase.PrimeFlush? || q.phase.Idle? ==> q.batch == [])
    && (q.phase.Serving? || q.phase.Committing? ==> q.phase.tag < q.c.depth && q.tagState[q.phase.tag].Owned?)
    && (forall t :: 0 <= t < q.c.depth && q.tagState[t].Owned? ==>
          q.phase.Stopped? || ((q.phase.Serving? || q.phase.Committing?) && q.phase.tag == t))
    && (forall t :: q.primed <= t < q.c.depth ==> q.tagState[t].InFlightFetch?)
    && (q.failed != {} ==> q.phase.Stopped?)
    && (q.phase.Stopped? ==> !ShouldNeverHappen(q.phase.err))
  }

  ghost predicate TokenInv(q: Queue) {
    Shape(q) && OneToken(q) && Matches(q) && Phases(q)
  }

  // ---- Counting ----

  lemma SqAppend(a: seq<Sqe>, b: seq<Sqe>, t: nat)
    ensures InSq(a + b, t) == InSq(a, t) + InSq(b, t)
  {
    assert SqTags(a + b) == SqTags(a) + SqTags(b);
  }

  lemma CqAppend(a: seq<Cqe>, b: seq<Cqe>, t: nat)
    ensures InCq(a + b, t) == InCq(a, t) + InCq(b, t)
  {
    assert CqTags(a + b) == CqTags(a) + CqTags(b);
  }

  lemma SqOne(x: Sqe, t: nat)
    ensures InSq([x], t) == if x.cmd.tag == t then 1 else 0
  {
    assert SqTags([x]) == [x.cmd.tag];
  }

  lemma CqOne(x: Cqe, t: nat)
    ensures InCq([x], t) == if DecodeTag(x.userData) == t then 1 else 0
  {
    assert CqTags([x]) == [DecodeTag(x.userData)];
  }

  lemma SqHead(s: seq<Sqe>, t: nat)
    requires s != []
    ensures InSq(s, t) == InSq(s[1..], t) + if s[0].cmd.tag == t then 1 else 0
  {
    assert s == [s[0]] + s[1..];
    SqAppend([s[0]], s[1..], t);
    SqOne(s[0], t);
  }

  lemma CqHead(s: seq<Cqe>, t: nat)
    requires s != []
    ensures InCq(s, t) == InCq(s[1..], t) + if DecodeTag(s[0].userData) == t then 1 else 0
  {
    assert s == [s[0]] + s[1..];
    CqAppend([s[0]], s[1..], t);
    CqOne(s[0], t);
  }

  lemma SqPresent(s: seq<Sqe>, i: nat)
    requires i < |s|
    ensures InSq(s, s[i].cmd.tag) >= 1
  {
    assert SqTags(s)[i] in multiset(SqTags(s));
  }

  lemma CqPresent(s: seq<Cqe>, i: nat)
    requires i < |s|
    ensures InCq(s, DecodeTag(s[i].userData)) >= 1
  {
    assert CqTags(s)[i] in multiset(CqTags(s));
  }

  /** Pigeonhole: a sequence without repetition over a finite set is no longer than the set. */
  lemma {:induction false} NoRepeats(s: seq<nat>, from: set<nat>)
    requires forall i :: 0 <= i < |s| ==> s[i] in from
    requires forall t :: multiset(s)[t] <= 1
    ensures |s| <= |from|
    decreases |s|
  {
    if s == [] {
    } else {
      var n := |s| - 1;
      var init := s[..n];
      assert s == init + [s[n]];
      assert multiset(s)[s[n]] == multiset(init)[s[n]] + 1;
      forall i | 0 <= i < n ensures init[i] in from - {s[n]} {
        assert init[i] in multiset(init);
      }
      forall t ensures multiset(init)[t] <= 1 {
        assert multiset(init)[t] <= multiset(s)[t];
      }
      NoRepeats(init, from - {s[n]});
    }
  }

  function Upto(n: nat): (s: set<nat>)
    ensures |s| == n
    ensures forall i: nat :: i in s <==> i < n
  {
    if n == 0 then {} else Upto(n - 1) + {n - 1}
  }

  function Queued(q: Queue): (r: seq<nat>)
    ensures |r| == |q.local| + |q.shared| + |q.cq| + |q.batch|
  {
    SqTags(q.local) + SqTags(q.shared) + CqTags(q.cq) + CqTags(q.batch)
  }

  lemma QueuedCount(q: Queue, t: nat)
    ensures multiset(Queued(q))[t] == InSq(q.local, t) + InSq(q.shared, t) + InCq(q.cq, t) + InCq(q.batch, t)
  {
  }

  /** Everything queued belongs to distinct primed tags. */
  lemma QueuedBound(q: Queue)
    requires Shape(q) && OneToken(q)
    ensures |Queued(q)| <= q.primed
  {
    var all := Queued(q);
    forall t: nat ensures multiset(all)[t] <= Tokens(q, t) <= 1 { QueuedCount(q, t); }
    forall i | 0 <= i < |all| ensures all[i] in Upto(q.primed) {
      assert all[i] in multiset(all);
    }
    NoRepeats(all, Upto(q.primed));
  }

  /** A tag that is Owned or in the kernel leaves room for its own entry. */
  lemma RoomFor(q: Queue, o: nat)
    requires Shape(q) && OneToken(q) && o < q.c.depth
    requires q.tagState[o].Owned? || o in q.armed
    ensures |Queued(q)| < q.primed
  {
    var all := Queued(q);
    forall t: nat ensures multiset(all)[t] <= Tokens(q, t) <= 1 { QueuedCount(q, t); }
    QueuedCount(q, o);
    forall i | 0 <= i < |all| ensures all[i] in Upto(q.primed) - {o} {
      assert all[i] in multiset(all);
    }
    assert o in Upto(q.primed);
    NoRepeats(all, Upto(q.primed) - {o});
  }

  /** A tag with no entry counted is absent. */
  lemma CountedAbsent(q: Queue, t: nat)
    requires t !in q.armed
    requires InSq(q.local, t) == InSq(q.shared, t) == InCq(q.cq, t) == InCq(q.batch, t) == 0
    ensures Absent(q, t)
  {
    forall i | 0 <= i < |q.local| ensures q.local[i].cmd.tag != t { SqPresent(q.local, i); }
    forall i | 0 <= i < |q.shared| ensures q.shared[i].cmd.tag != t { SqPresent(q.shared, i); }
    forall i | 0 <= i < |q.cq| ensures DecodeTag(q.cq[i].userData) != t { CqPresent(q.cq, i); }
    forall i | 0 <= i < |q.batch| ensures DecodeTag(q.batch[i].userData) != t { CqPresent(q.batch, i); }
  }

  /** A completion built for a command decodes to that command. */
  lemma CompletionDecodes(c: Config, ts: seq<TagState>, primed: nat, s: Sqe, res: int)
    requires ValidConfig(c) && primed <= c.depth && GoodSqe(c, ts, primed, s)
    ensures GoodCqe(c, ts, primed, Cqe(s.userData, res))
    ensures DecodeTag(s.userData) == s.cmd.tag && (DecodeCommit(s.userData) <==> s.kind.Commit?)
  {
    UserDataRoundTrip(s.kind, c.qid, s.cmd.tag);
  }
}
