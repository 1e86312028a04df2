/** The limits SetParams advertises to the kernel, and what they guarantee to the request path. */
module Geometry {
  import opened Options
  import opened Words
  import opened FlatDisk
  import opened Ublk
  import opened RequestIo
  import Protocol
  import ProtocolData
  import ProtocolTheorems
  import Records
  import Params

  // ---- sizeToShift ----

  /** The number of halvings: the exponent of the largest power of two not above size. */
  method SizeToShift(size: int) returns (shift: nat)
    ensures size <= 1 ==> shift == 0
    ensures size >= 1 ==> Pow2(shift) <= size < 2 * Pow2(shift)
  {
    shift := 0;
    var s := size;
    while s > 1
      invariant size >= 1 ==> s >= 1 && s * Pow2(shift) <= size < (s + 1) * Pow2(shift)
      invariant size <= 1 ==> s == size && shift == 0
      decreases s
    {
      Halved(size, s, Pow2(shift));
      s := s / 2;
      shift := shift + 1;
    }
  }

  lemma Halved(size: int, s: int, p: nat)
    requires s >= 1 && s * p <= size < (s + 1) * p
    ensures s / 2 * (2 * p) <= size < (s / 2 + 1) * (2 * p)
  {
    var h := s / 2;
    assert h * (2 * p) == (2 * h) * p;
    assert (h + 1) * (2 * p) == (2 * h + 2) * p;
    MulMono(2 * h, s, p);
    MulMono(s + 1, 2 * h + 2, p);
  }

  /** The advertised shift gives the block size back exactly when it is a power of two. */
  lemma ShiftExactlyPowers(size: nat, shift: nat, k: nat)
    requires size >= 1 && Pow2(shift) <= size < 2 * Pow2(shift)
    ensures size == Pow2(k) ==> shift == k
    ensures Pow2(shift) == size <==> exists j: nat :: Pow2(j) == size
  {
    if size == Pow2(k) {
      if k < shift {
        Pow2Mono(k + 1, shift);
      } else if shift < k {
        Pow2Mono(shift + 1, k);
      }
    }
    if j: nat :| Pow2(j) == size {
      if j < shift {
        Pow2Mono(j + 1, shift);
      } else if shift < j {
        Pow2Mono(shift + 1, j);
      }
    }
  }

  lemma {:induction false} Pow2Mono(a: nat, b: nat)
    requires a <= b
    ensures Pow2(a) <= Pow2(b)
    decreases b - a
  {
    if a == b {
    } else {
      Pow2Mono(a, b - 1);
    }
  }

  lemma ShiftBound(size: nat, shift: nat)
    requires Pow2(shift) <= size < TWO63
    ensures shift < 63
  {
    Pow2Long();
    if shift >= 63 {
      Pow2Mono(63, shift);
    }
  }

  // ---- The advertised limits ----

  /** Go's integer division of non-negative numbers, as SetParams computes the two limits. */
  function MaxSectors(maxIo: nat, blockSize: nat): nat
    requires blockSize > 0
  {
    maxIo / blockSize % TWO32
  }

  function DevSectors(size: nat, blockSize: nat): nat
    requires blockSize > 0
  {
    size / blockSize
  }

  /** A request the kernel sends under those limits. */
  predicate Admitted(c: Config, size: nat, maxIo: nat, d: Desc)
    requires c.blockSize > 0
  {
    d.nrSectors <= MaxSectors(maxIo, c.blockSize) && d.startSector + d.nrSectors <= DevSectors(size, c.blockSize)
  }

  lemma QuotientFits(n: nat, total: nat, m: nat)
    requires m > 0 && n <= total / m
    ensures n * m <= total
  {
    MulMono(n, total / m, m);
    assert total == m * (total / m) + total % m;
  }

  /** A request is admitted exactly when its bytes are at most the maximum and end on the device, while the
      maximum in blocks fits its 32 bits. */
  lemma AdmittedExactly(c: Config, size: nat, maxIo: nat, d: Desc)
    requires c.blockSize > 0 && maxIo / c.blockSize < 0x1_0000_0000
    ensures Admitted(c, size, maxIo, d) <==>
      d.nrSectors * c.blockSize <= maxIo && (d.startSector + d.nrSectors) * c.blockSize <= size
  {
    AtMostQuotient(d.nrSectors, maxIo, c.blockSize);
    AtMostQuotient(d.startSector + d.nrSectors, size, c.blockSize);
  }

  lemma AtMostQuotient(n: nat, total: nat, m: nat)
    requires m > 0
    ensures n <= total / m <==> n * m <= total
  {
    if n <= total / m {
      QuotientFits(n, total, m);
    } else {
      MulMono(total / m + 1, n, m);
      assert total == m * (total / m) + total % m;
      assert (total / m + 1) * m == m * (total / m) + m;
    }
  }

  lemma SectorsFit(n: nat, maxIo: nat, bs: nat)
    requires bs > 0 && maxIo <= MAX_POOLED && n <= MaxSectors(maxIo, bs)
    ensures n <= n * bs <= maxIo
  {
    assert maxIo / bs <= maxIo by {
      MulMono(1, bs, maxIo / bs);
      assert maxIo == bs * (maxIo / bs) + maxIo % bs;
    }
    QuotientFits(n, maxIo, bs);
    MulMono(1, bs, n);
  }

  lemma OffsetExact(c: Config, d: Desc)
    requires d.startSector * c.blockSize < TWO63
    ensures Offset(c, d) == d.startSector * c.blockSize
  {
  }

  lemma LengthExact(c: Config, d: Desc)
    requires d.nrSectors * c.blockSize < TWO32
    ensures Length(c, d) == d.nrSectors * c.blockSize
  {
  }

  /** Offset and length are computed without wrap-around and lie inside the backend. */
  lemma AdmittedFits(c: Config, size: nat, maxIo: nat, d: Desc)
    requires c.blockSize > 0 && maxIo <= MAX_POOLED && size < TWO63 && Admitted(c, size, maxIo, d)
    ensures Length(c, d) == d.nrSectors * c.blockSize && d.nrSectors <= Length(c, d) <= maxIo
    ensures Offset(c, d) == d.startSector * c.blockSize && Offset(c, d) + Length(c, d) <= size
  {
    var bs := c.blockSize;
    SectorsFit(d.nrSectors, maxIo, bs);
    QuotientFits(d.startSector + d.nrSectors, size, bs);
    assert (d.startSector + d.nrSectors) * bs == d.startSector * bs + d.nrSectors * bs;
    LengthExact(c, d);
    OffsetExact(c, d);
  }

  /** The committed result of a served request is its number of sectors times 512 exactly below 2^22 sectors. */
  lemma CommitExact(d: Desc)
    ensures CommitResult(d, false) == d.nrSectors * 512 <==> d.nrSectors < 0x40_0000
  {
  }

  lemma SameProduct(n: nat, a: nat, b: nat)
    ensures n * a == n * b <==> a == b || n == 0
  {
    if a < b {
      MulMono(a + 1, b, n);
      assert (a + 1) * n == a * n + n;
    } else if b < a {
      MulMono(b + 1, a, n);
      assert (b + 1) * n == b * n + n;
    }
  }

  /** An admitted request commits the number of bytes it covers exactly when the block size is 512. */
  lemma CommitsItsLength(c: Config, size: nat, maxIo: nat, d: Desc)
    requires c.blockSize > 0 && maxIo <= MAX_POOLED && size < TWO63 && Admitted(c, size, maxIo, d)
    ensures CommitResult(d, false) == Length(c, d) <==> c.blockSize == 512 || d.nrSectors == 0
  {
    AdmittedFits(c, size, maxIo, d);
    CommitExact(d);
    SameProduct(d.nrSectors, 512, c.blockSize);
  }

  lemma StartNotNegative(a: nat, b: nat)
    ensures a * b >= 0
  {
  }

  lemma InsideIsServed(
    c: Config, disk: seq<byte>, mem: seq<byte>, tag: nat, d: Desc, pool: seq<byte>, off: nat, len: nat)
    requires HasBuffer(mem, tag) && |pool| == MAX_POOLED
    requires off == Offset(c, d) && len == Length(c, d) && len <= MAX_POOLED && off + len <= |disk|
    requires GetOp(d) == OP_READ || GetOp(d) == OP_WRITE
    ensures Available(|disk|, off, len) == len
    ensures
      var r := HandleIo(c, disk, mem, tag, d, pool);
      r.Done? && (r.ioErr <==> GetOp(d) == OP_WRITE && off >= |disk|)
  {
    Shards.CallPanicsExactlyWhen(|disk|, off, len);
  }

  /** An admitted read or write never panics, is never cut short by the backend, fails only as a write
      of no sectors at the very end, and with block size 512 commits exactly the bytes it moved. */
  lemma AdmittedIsServed(c: Config, disk: seq<byte>, mem: seq<byte>, tag: nat, maxIo: nat, d: Desc, pool: seq<byte>)
    requires c.blockSize > 0 && maxIo <= MAX_POOLED && |disk| < TWO63 && Admitted(c, |disk|, maxIo, d)
    requires HasBuffer(mem, tag) && |pool| == MAX_POOLED
    requires GetOp(d) == OP_READ || GetOp(d) == OP_WRITE
    ensures
      var r := HandleIo(c, disk, mem, tag, d, pool);
      && r.Done? && (r.ioErr <==> GetOp(d) == OP_WRITE && d.nrSectors == 0 && Offset(c, d) == |disk|)
      && Available(|disk|, Offset(c, d), Length(c, d)) == Length(c, d)
      && (c.blockSize == 512 && !r.ioErr ==> CommitResult(d, r.ioErr) == Length(c, d))
  {
    var off, len := Offset(c, d), Length(c, d);
    assert 0 <= off && d.nrSectors <= len <= MAX_POOLED && off + len <= |disk| by {
      AdmittedFits(c, |disk|, maxIo, d);
      StartNotNegative(d.startSector, c.blockSize);
    }
    assert d.nrSectors == 0 ==> len == 0;
    InsideIsServed(c, disk, mem, tag, d, pool, off, len);
    if c.blockSize == 512 {
      CommitsItsLength(c, |disk|, maxIo, d);
    }
  }

  // ---- A queue under its limits ----

  ghost predicate AllAdmitted(c: Config, size: nat, maxIo: nat, issued: seq<seq<Request>>)
    requires c.blockSize > 0
  {
    forall t, i :: 0 <= t < |issued| && 0 <= i < |issued[t]| ==> Admitted(c, size, maxIo, issued[t][i].desc)
  }

  /** With the limit at one tag buffer, as ublk-mem sets it, every run whose requests respect the
      advertised limits is an atomic disk. */
  lemma LimitedQueueIsADisk(c: Config, disk0: seq<byte>, maxIo: nat, steps: seq<Protocol.Step>)
    requires ValidConfig(c) && |disk0| < TWO63 && maxIo <= BUF
    requires Protocol.Run(Protocol.Init(c, disk0), steps).At?
    requires AllAdmitted(c, |disk0|, maxIo, Protocol.Run(Protocol.Init(c, disk0), steps).q.issued)
    ensures
      var q := Protocol.Run(Protocol.Init(c, disk0), steps).q;
      && ProtocolData.AllSmall(c, q.log)
      && q.disk == ProtocolData.DiskAfter(c, disk0, q.log)
      && forall t :: 0 <= t < c.depth ==>
           && q.served[t] == ProtocolData.RepliesTo(c, disk0, q.log, t)
           && |q.served[t]| <= |q.issued[t]|
           && ProtocolData.RequestsOf(q.log, t) == q.issued[t][..|q.served[t]|]
  {
    var issued: seq<seq<Request>> := Protocol.Run(Protocol.Init(c, disk0), steps).q.issued;
    forall t: int, i: int | 0 <= t < |issued| && 0 <= i < |issued[t]|
      ensures FitsBuffer(c, issued[t][i].desc)
    {
      AdmittedFits(c, |disk0|, maxIo, issued[t][i].desc);
    }
    ProtocolTheorems.IsAtomicDisk(c, disk0, steps);
  }

  // ---- The parameter block SetParams sends ----

  /** The basic section's fields, in layout order. */
  function BasicFields(shift: nat, maxSectors: nat, devSectors: nat): (f: seq<nat>)
    ensures |f| == |Records.BASIC|
  {
    [0, shift, shift, 0, shift, maxSectors, 0, devSectors, 0]
  }

  lemma BasicFits(shift: nat, maxSectors: nat, devSectors: nat)
    requires shift < 256 && maxSectors < TWO32 && devSectors < TWO64
    ensures Records.Fits(Records.BASIC, BasicFields(shift, maxSectors, devSectors))
  {
    Pow256Values();
  }

  /** What a reader of the block finds in its basic section. */
  ghost predicate Tells(data: seq<byte>, fields: seq<nat>) {
    forall target: Params.Block | |target.sections| == 4 ::
      Params.Accepts(data) && Says(Params.Decoded(data, target), fields)
  }

  ghost predicate Says(p: Params.Block, fields: seq<nat>) {
    && |p.sections| == 4 && p.types == 1
    && Records.Unmarshal(Records.BASIC, p.sections[Params.BASIC]) == Some(fields)
  }

  lemma PaddedTells(b: seq<byte>, p: Params.Block, fields: seq<nat>)
    requires Params.WellTyped(p) && p.types == 1 && |b| == 128 && Params.Holds(b, p, 128, 4)
    requires Records.Unmarshal(Records.BASIC, p.sections[Params.BASIC]) == Some(fields)
    ensures Tells(b, fields)
  {
    Params.OnlyBasic();
    forall target: Params.Block | |target.sections| == 4
      ensures Params.Accepts(b) && Says(Params.Decoded(b, target), fields)
    {
      Params.PaddedRoundTrip(b, p, target);
    }
  }

  lemma ImageDecodes(fields: seq<nat>)
    requires Records.Fits(Records.BASIC, fields)
    ensures |Records.Pack(Records.BASIC, fields)| == 32
    ensures Records.Unmarshal(Records.BASIC, Records.Pack(Records.BASIC, fields)) == Some(fields)
  {
    var image := Records.Pack(Records.BASIC, fields);
    Records.BasicSize();
    Records.UnpackPack(Records.BASIC, fields, []);
    assert image + [] == image;
  }

  function BasicBlock(fields: seq<nat>): (p: Params.Block)
    requires Records.Fits(Records.BASIC, fields)
    ensures Params.WellTyped(p) && p.types == 1
  {
    Records.BasicSize();
    Params.Block(0, 1, [Records.Pack(Records.BASIC, fields), Zeros(20), Zeros(16), Zeros(32)])
  }

  /** Marshal, then pad. */
  method BasicBuffer(fields: seq<nat>) returns (buf: array<byte>)
    requires Records.Fits(Records.BASIC, fields)
    ensures buf.Length == 128 && Tells(buf[..], fields)
    ensures InPlace(buf[..], Records.BASIC, fields)
  {
    var p := BasicBlock(fields);
    buf := BlockBuffer(p);
    BlockTells(buf[..], p, fields);
  }

  method BlockBuffer(p: Params.Block) returns (buf: array<byte>)
    requires Params.WellTyped(p)
    ensures buf.Length == 128 && Params.Holds(buf[..], p, 128, 4)
    ensures forall k :: Params.Total(p.types) <= k < 128 ==> buf[..][k] == 0
  {
    var exact := Params.MarshalParams(p);
    buf := Params.PadToMinimum(exact, p);
  }

  lemma BlockTells(b: seq<byte>, p: Params.Block, fields: seq<nat>)
    requires Records.Fits(Records.BASIC, fields) && p == BasicBlock(fields)
    requires |b| == 128 && Params.Holds(b, p, 128, 4)
    requires forall k :: Params.Total(p.types) <= k < 128 ==> b[k] == 0
    ensures Tells(b, fields) && InPlace(b, Records.BASIC, fields)
  {
    ImageDecodes(fields);
    PaddedTells(b, p, fields);
    PaddedInPlace(b, p);
    assert p.sections[Params.BASIC] == Records.Pack(Records.BASIC, fields);
  }

  /** The length word, the type word, the section's image, and zeros. */
  ghost predicate Padded(b: seq<byte>, types: nat, image: seq<byte>) {
    && |b| == 128 && |image| == 32 && b[..4] == Bytes(128, 4) && b[4..8] == Bytes(types, 4)
    && b[8..40] == image
    && forall k :: 40 <= k < 128 ==> b[k] == 0
  }

  ghost predicate InPlace(b: seq<byte>, layout: seq<nat>, fields: seq<nat>) {
    |fields| == |layout| && Padded(b, 1, Records.Pack(layout, fields))
  }

  lemma PaddedInPlace(b: seq<byte>, p: Params.Block)
    requires Params.WellTyped(p) && p.types == 1 && |b| == 128 && Params.Holds(b, p, 128, 4)
    requires forall k :: Params.Total(p.types) <= k < 128 ==> b[k] == 0
    ensures Padded(b, p.types, p.sections[Params.BASIC])
  {
    Params.OnlyBasic();
    assert Params.SectionAt(b, p, Params.BASIC);
  }

  lemma FieldInPlace(
    b: seq<byte>, layout: seq<nat>, fields: seq<nat>, i: nat, at: nat, width: nat, lo: nat, hi: nat)
    requires InPlace(b, layout, fields) && Records.FieldAt(layout, i, at, width) && lo == 8 + at && hi == lo + width
    ensures hi <= 40 && b[lo..hi] == Bytes(fields[i], width)
  {
    Records.FieldBytes(layout, fields, i, at, width);
    SliceOfSlice(b, 8, 40, at, at + width);
  }

  lemma SliceOfSlice(b: seq<byte>, lo: nat, hi: nat, x: nat, y: nat)
    requires lo <= hi <= |b| && x <= y <= hi - lo
    ensures b[lo..hi][x..y] == b[lo + x..lo + y]
  {
    var s := b[lo..hi];
    forall i | 0 <= i < y - x
      ensures s[x..y][i] == b[lo + x..lo + y][i]
    {
      assert s[x + i] == b[lo + x + i];
    }
  }

  lemma ByteInPlace(b: seq<byte>, layout: seq<nat>, fields: seq<nat>, i: nat, at: nat)
    requires InPlace(b, layout, fields) && Records.FieldAt(layout, i, at, 1) && fields[i] < 256
    ensures at < 32 && b[8 + at] == fields[i]
  {
    FieldInPlace(b, layout, fields, i, at, 1, 8 + at, 9 + at);
    assert b[8 + at] == b[8 + at..9 + at][0];
    BytesAt(fields[i], 1, 0);
    assert fields[i] / 1 == fields[i];
  }

  /** Nine fields in the basic section's places. */
  ghost predicate InBytes(b: seq<byte>, f: seq<nat>) {
    && |b| == 128 && |f| == 9
    && b[8..12] == Bytes(f[0], 4)
    && b[12] == f[1] && b[13] == f[2] && b[14] == f[3] && b[15] == f[4]
    && b[16..20] == Bytes(f[5], 4) && b[20..24] == Bytes(f[6], 4)
    && b[24..32] == Bytes(f[7], 8) && b[32..40] == Bytes(f[8], 8)
  }

  lemma FieldsInBytes(b: seq<byte>, l: seq<nat>, f: seq<nat>)
    requires InPlace(b, l, f) && |l| == 9 && f[1] < 256 && f[2] < 256 && f[3] < 256 && f[4] < 256
    requires Records.FieldAt(l, 0, 0, 4) && Records.FieldAt(l, 1, 4, 1) && Records.FieldAt(l, 2, 5, 1)
    requires Records.FieldAt(l, 3, 6, 1) && Records.FieldAt(l, 4, 7, 1) && Records.FieldAt(l, 5, 8, 4)
    requires Records.FieldAt(l, 6, 12, 4) && Records.FieldAt(l, 7, 16, 8) && Records.FieldAt(l, 8, 24, 8)
    ensures InBytes(b, f)
  {
    FieldInPlace(b, l, f, 0, 0, 4, 8, 12);
    ShiftsInBytes(b, l, f);
    FieldInPlace(b, l, f, 5, 8, 4, 16, 20);
    FieldInPlace(b, l, f, 6, 12, 4, 20, 24);
    FieldInPlace(b, l, f, 7, 16, 8, 24, 32);
    FieldInPlace(b, l, f, 8, 24, 8, 32, 40);
  }

  lemma ShiftsInBytes(b: seq<byte>, l: seq<nat>, f: seq<nat>)
    requires InPlace(b, l, f) && |l| == 9 && f[1] < 256 && f[2] < 256 && f[3] < 256 && f[4] < 256
    requires Records.FieldAt(l, 1, 4, 1) && Records.FieldAt(l, 2, 5, 1)
    requires Records.FieldAt(l, 3, 6, 1) && Records.FieldAt(l, 4, 7, 1)
    ensures b[12] == f[1] && b[13] == f[2] && b[14] == f[3] && b[15] == f[4]
  {
    ByteInPlace(b, l, f, 1, 4);
    ByteInPlace(b, l, f, 2, 5);
    ByteInPlace(b, l, f, 3, 6);
    ByteInPlace(b, l, f, 4, 7);
  }

  /** Where a reader finds the shift and the limits, byte by byte. */
  ghost predicate Advertises(b: seq<byte>, shift: nat, maxSectors: nat, devSectors: nat) {
    && |b| == 128 && b[..4] == Bytes(128, 4) && b[4..8] == Bytes(1, 4)
    && b[8..12] == Bytes(0, 4)                                          // attributes
    && b[12] == shift && b[13] == shift && b[14] == 0 && b[15] == shift // logical, physical, optimal, minimum
    && b[16..20] == Bytes(maxSectors, 4) && b[20..24] == Bytes(0, 4)    // largest request, chunk
    && b[24..32] == Bytes(devSectors, 8) && b[32..40] == Bytes(0, 8)    // size, boundary mask
    && forall k :: 40 <= k < 128 ==> b[k] == 0
  }

  lemma FieldsAdvertise(b: seq<byte>, f: seq<nat>, shift: nat, maxSectors: nat, devSectors: nat)
    requires InBytes(b, f) && Padded(b, 1, b[8..40]) && f == BasicFields(shift, maxSectors, devSectors)
    ensures Advertises(b, shift, maxSectors, devSectors)
  {
  }

  /** SetParams up to the command: the buffer the kernel is given says, to any reader and in these bytes,
      the block size's shift and the two limits. */
  method ParamsBuffer(size: nat, maxIo: nat, blockSize: nat) returns (buf: array<byte>, shift: nat)
    requires 0 < blockSize < TWO63 && size < TWO63
    ensures Pow2(shift) <= blockSize < 2 * Pow2(shift)
    ensures buf.Length == 128
    ensures Tells(buf[..], BasicFields(shift, MaxSectors(maxIo, blockSize), DevSectors(size, blockSize)))
    ensures Advertises(buf[..], shift, maxIo / blockSize % 0x1_0000_0000, size / blockSize)
  {
    shift := SizeToShift(blockSize);
    ShiftBound(blockSize, shift);
    var fields := BasicFields(shift, MaxSectors(maxIo, blockSize), DevSectors(size, blockSize));
    DevSectorsBound(size, blockSize);
    BasicFits(shift, MaxSectors(maxIo, blockSize), DevSectors(size, blockSize));
    buf := BasicBuffer(fields);
    Records.BasicFields();
    FieldsInBytes(buf[..], Records.BASIC, fields);
    FieldsAdvertise(buf[..], fields, shift, MaxSectors(maxIo, blockSize), DevSectors(size, blockSize));
  }

  lemma DevSectorsBound(size: nat, blockSize: nat)
    requires blockSize > 0
    ensures DevSectors(size, blockSize) <= size
  {
    MulMono(1, blockSize, size / blockSize);
    assert size == blockSize * (size / blockSize) + size % blockSize;
  }

  // ---- Descriptor memory ----

  /** mmapQueues' page rounding. */
  method PageRounded(depth: nat, pageSize: nat) returns (descSize: nat)
    requires pageSize > 0
    ensures descSize % pageSize == 0 && depth * 24 <= descSize < depth * 24 + pageSize
  {
    descSize := depth * 24;
    var rem := descSize % pageSize;
    if rem != 0 {
      RoundUp(descSize, pageSize);
      descSize := descSize + (pageSize - rem);
    }
  }

  lemma RoundUp(x: nat, m: nat)
    requires m > 0 && x % m != 0
    ensures (x + (m - x % m)) % m == 0
  {
    assert x == (x / m) * m + x % m;
    assert x + (m - x % m) == (x / m + 1) * m + 0;
    DivModUnique(x + (m - x % m), m, x / m + 1, 0);
  }

  /** The mapped regions of different queues do not overlap. */
  lemma RegionsDisjoint(q: nat, r: nat, descSize: nat)
    requires q < r
    ensures q * descSize + descSize <= r * descSize
  {
    MulMono(q + 1, r, descSize);
  }
}
