/** The parameter block of internal/uapi/marshal.go: a length word, a type word, and the memory images
    of the sections whose type bits are set, in bit order. */
module Params {
  import opened Words
  import opened FlatDisk
  import Records

  // The sections, by type bit.
  const BASIC: nat := 0
  const DISCARD: nat := 1
  const DEVT: nat := 2
  const ZONED: nat := 3

  /** The size of a section's record. */
  function Size(i: nat): nat {
    if i == BASIC then 32 else if i == DISCARD then 20 else if i == DEVT then 16 else 32
  }

  lemma SizesAreWidths()
    ensures Size(BASIC) == Records.Width(Records.BASIC) && Size(DISCARD) == Records.Width(Records.DISCARD)
    ensures Size(DEVT) == Records.Width(Records.DEVT) && Size(ZONED) == Records.Width(Records.ZONED)
  {
    Records.BasicSize();
    Records.OtherSectionSizes();
  }

  /** HasBasic, HasDiscard, HasDevt, HasZoned. */
  predicate Has(types: nat, i: nat) {
    And(types, Pow2(i)) != 0
  }

  /** Where section i begins in a block with these types; for i = 4, where the block ends. */
  function Start(types: nat, i: nat): (s: nat)
    ensures 8 <= s <= 8 + 32 * i
  {
    if i == 0 then 8 else Start(types, i - 1) + (if Has(types, i - 1) then Size(i - 1) else 0)
  }

  function Total(types: nat): nat {
    Start(types, 4)
  }

  lemma {:induction false} StartMono(types: nat, i: nat, k: nat)
    requires i <= k
    ensures Start(types, i) <= Start(types, k)
    decreases k - i
  {
    if i == k {
    } else {
      StartMono(types, i, k - 1);
    }
  }

  lemma TotalBound(types: nat)
    ensures Total(types) <= 108
  {
    assert Start(types, 1) <= 40;
    assert Start(types, 2) <= 60;
    assert Start(types, 3) <= 76;
  }

  /** A Go UblkParams: the words and the sections' memory images, present or not. */
  datatype Block = Block(len: nat, types: nat, sections: seq<seq<byte>>)

  predicate WellTyped(p: Block) {
    && p.types < TWO32
    && |p.sections| == 4
    && forall i :: 0 <= i < 4 ==> |p.sections[i]| == Size(i)
  }

  /** The length word, the type word, and the first n sections where present, each at its place. */
  ghost predicate Holds(b: seq<byte>, p: Block, len: nat, n: nat)
    requires WellTyped(p) && n <= 4
  {
    && |b| >= Total(p.types)
    && b[..4] == Bytes(len, 4)
    && b[4..8] == Bytes(p.types, 4)
    && forall i :: 0 <= i < n && Has(p.types, i) ==> SectionAt(b, p, i)
  }

  ghost predicate SectionAt(b: seq<byte>, p: Block, i: nat)
    requires WellTyped(p) && i < 4
  {
    Start(p.types, i) + Size(i) <= |b| && b[Start(p.types, i)..Start(p.types, i) + Size(i)] == p.sections[i]
  }

  /** b is the encoding of p: exactly as long as its sections need, and that length in front. */
  ghost predicate Encodes(b: seq<byte>, p: Block)
    requires WellTyped(p)
  {
    |b| == Total(p.types) && Holds(b, p, |b|, 4)
  }

  // ---- Marshalling ----

  lemma SpliceKeeps(b: seq<byte>, at: nat, data: seq<byte>, lo: nat, hi: nat)
    requires at + |data| <= |b| && lo <= hi <= |b| && (hi <= at || at + |data| <= lo)
    ensures Splice(b, at, data)[lo..hi] == b[lo..hi]
  {
  }

  /** Writing section n at its place keeps an earlier one. */
  lemma PutKeeps(b: seq<byte>, p: Block, n: nat, i: nat)
    requires WellTyped(p) && i < n < 4 && Has(p.types, i) && SectionAt(b, p, i)
    requires Start(p.types, n) + Size(n) <= |b|
    ensures SectionAt(Splice(b, Start(p.types, n), p.sections[n]), p, i)
  {
    assert Start(p.types, i + 1) == Start(p.types, i) + Size(i);
    StartMono(p.types, i + 1, n);
    SpliceKeeps(b, Start(p.types, n), p.sections[n], Start(p.types, i), Start(p.types, i) + Size(i));
  }

  lemma PutHolds(b: seq<byte>, p: Block, len: nat, n: nat)
    requires WellTyped(p) && n < 4 && Holds(b, p, len, n) && Has(p.types, n)
    ensures Start(p.types, n) + Size(n) <= |b|
    ensures Holds(Splice(b, Start(p.types, n), p.sections[n]), p, len, n + 1)
  {
    var at := Start(p.types, n);
    assert Start(p.types, n + 1) == at + Size(n);
    StartMono(p.types, n + 1, 4);
    var c := Splice(b, at, p.sections[n]);
    SpliceKeeps(b, at, p.sections[n], 0, 4);
    assert c[0..4] == c[..4] && b[0..4] == b[..4];
    SpliceKeeps(b, at, p.sections[n], 4, 8);
    SpliceThere(b, at, p.sections[n]);
    assert SectionAt(c, p, n);
    forall i | 0 <= i < n && Has(p.types, i)
      ensures SectionAt(c, p, i)
    {
      PutKeeps(b, p, n, i);
    }
  }

  lemma SkipHolds(b: seq<byte>, p: Block, len: nat, n: nat)
    requires WellTyped(p) && n < 4 && Holds(b, p, len, n) && !Has(p.types, n)
    ensures Holds(b, p, len, n + 1)
  {
  }

  /** One section: copied at the running offset when its bit is set. */
  method PutSection(buf: array<byte>, p: Block, n: nat, offset: nat) returns (next: nat)
    requires WellTyped(p) && n < 4 && offset == Start(p.types, n)
    requires Holds(buf[..], p, buf.Length, n)
    modifies buf
    ensures Holds(buf[..], p, buf.Length, n + 1)
    ensures next == Start(p.types, n + 1)
  {
    if Has(p.types, n) {
      PutHolds(buf[..], p, buf.Length, n);
      Put(buf, offset, p.sections[n]);
      return offset + Size(n);
    }
    SkipHolds(buf[..], p, buf.Length, n);
    return offset;
  }

  method SizeOf(types: nat) returns (size: nat)
    ensures size == Total(types)
  {
    size := 8;
    assert size == Start(types, 0);
    if Has(types, BASIC) {
      size := size + Size(BASIC);
    }
    assert size == Start(types, 1);
    if Has(types, DISCARD) {
      size := size + Size(DISCARD);
    }
    assert size == Start(types, 2);
    if Has(types, DEVT) {
      size := size + Size(DEVT);
    }
    assert size == Start(types, 3);
    if Has(types, ZONED) {
      size := size + Size(ZONED);
    }
  }

  method MarshalParams(p: Block) returns (buf: array<byte>)
    requires WellTyped(p)
    ensures fresh(buf) && Encodes(buf[..], p)
  {
    var size := SizeOf(p.types);
    buf := new byte[size](_ => 0);
    Put(buf, 0, Bytes(size, 4));
    ghost var b := buf[..];
    SpliceThere(b, 0, Bytes(size, 4));
    Put(buf, 4, Bytes(p.types, 4));
    SpliceThere(b, 4, Bytes(p.types, 4));
    SpliceKeeps(b, 4, Bytes(p.types, 4), 0, 4);
    assert Holds(buf[..], p, size, 0);
    var offset := PutSection(buf, p, BASIC, 8);
    offset := PutSection(buf, p, DISCARD, offset);
    offset := PutSection(buf, p, DEVT, offset);
    offset := PutSection(buf, p, ZONED, offset);
  }

  /** Every byte after the header belongs to a section present, so a block has one encoding. */
  lemma {:induction false} SectionOf(types: nat, j: nat, n: nat) returns (i: nat)
    requires 8 <= j < Start(types, n)
    ensures i < n && Has(types, i) && Start(types, i) <= j < Start(types, i) + Size(i)
    decreases n
  {
    if Start(types, n - 1) <= j {
      i := n - 1;
    } else {
      i := SectionOf(types, j, n - 1);
    }
  }

  /** A byte of section i is determined by the block. */
  lemma SectionByte(b: seq<byte>, p: Block, i: nat, j: nat)
    requires WellTyped(p) && i < 4 && SectionAt(b, p, i)
    requires Start(p.types, i) <= j < Start(p.types, i) + Size(i)
    ensures j < |b| && b[j] == p.sections[i][j - Start(p.types, i)]
  {
    var at := Start(p.types, i);
    assert b[j] == b[at..at + Size(i)][j - at];
  }

  lemma EncodingUnique(a: seq<byte>, b: seq<byte>, p: Block)
    requires WellTyped(p) && Encodes(a, p) && Encodes(b, p)
    ensures a == b
  {
    forall j | 0 <= j < |a|
      ensures a[j] == b[j]
    {
      if j < 4 {
        assert a[j] == a[..4][j] && b[j] == b[..4][j];
      } else if j < 8 {
        assert a[j] == a[4..8][j - 4] && b[j] == b[4..8][j - 4];
      } else {
        var i := SectionOf(p.types, j, 4);
        SectionByte(a, p, i, j);
        SectionByte(b, p, i, j);
      }
    }
  }

  // ---- Unmarshalling ----

  function LenOf(data: seq<byte>): nat
    requires |data| >= 8
  {
    FromBytes(data[..4])
  }

  function TypesOf(data: seq<byte>): nat
    requires |data| >= 8
  {
    FromBytes(data[4..8])
  }

  /** The inputs unmarshalParams takes: long enough for the length they declare and for their sections. */
  predicate Accepts(data: seq<byte>) {
    |data| >= 8 && LenOf(data) <= |data| && Total(TypesOf(data)) <= |data|
  }

  /** Section i is read: its bit is set, the declared length is there, and so are the section's bytes. */
  predicate Reads(data: seq<byte>, i: nat)
    requires |data| >= 8
  {
    LenOf(data) <= |data| && Has(TypesOf(data), i) && Start(TypesOf(data), i) + Size(i) <= |data|
  }

  /** What a target holds after unmarshalling into it, whether or not that succeeded. */
  function Decoded(data: seq<byte>, target: Block): (r: Block)
    requires |target.sections| == 4
    ensures |r.sections| == 4
  {
    if |data| < 8 then target
    else Block(LenOf(data), TypesOf(data), seq(4, i requires 0 <= i < 4 => SectionRead(data, target, i)))
  }

  function SectionRead(data: seq<byte>, target: Block, i: nat): seq<byte>
    requires |data| >= 8 && |target.sections| == 4 && i < 4
  {
    if Reads(data, i) then data[Start(TypesOf(data), i)..Start(TypesOf(data), i) + Size(i)] else target.sections[i]
  }

  class ParamBlock {
    var len: nat
    var types: nat
    var sections: seq<seq<byte>>

    ghost function Value(): Block
      reads this
    {
      Block(len, types, sections)
    }

    /** The header is read, and the first n sections hold what the data gives them. */
    ghost predicate Progress(data: seq<byte>, target: Block, n: nat)
      requires |target.sections| == 4
      reads this
    {
      && |data| >= 8 && len == LenOf(data) <= |data| && types == TypesOf(data)
      && |sections| == 4
      && forall i :: 0 <= i < 4 ==> sections[i] == if i < n then SectionRead(data, target, i) else target.sections[i]
    }

    /** One section, at the running offset; fails when its bit is set and its bytes are not there. */
    method TakeSection(data: seq<byte>, n: nat, offset: nat, ghost target: Block) returns (ok: bool, next: nat)
      requires n < 4 && |target.sections| == 4 && Progress(data, target, n)
      requires offset == Start(types, n) <= |data|
      modifies this`sections
      ensures Progress(data, target, if ok then n + 1 else 4)
      ensures if ok then next == Start(types, n + 1) <= |data| else Total(types) > |data|
    {
      ok, next := true, offset;
      if Has(types, n) {
        if |data| - offset < Size(n) {
          NothingFurther(data, target, n);
          return false, offset;
        }
        sections := sections[n := data[offset..offset + Size(n)]];
        next := offset + Size(n);
      }
    }

    method Unmarshal(data: seq<byte>) returns (ok: bool)
      requires |sections| == 4
      modifies this
      ensures ok <==> Accepts(data)
      ensures Value() == Decoded(data, old(Value()))
    {
      if |data| < 8 {
        return false;
      }
      ghost var target := Value();
      len := FromBytes(data[..4]);
      types := FromBytes(data[4..8]);
      if len > |data| {
        return false;
      }
      var offset;
      ok, offset := TakeSection(data, BASIC, 8, target);
      if ok {
        ok, offset := TakeSection(data, DISCARD, offset, target);
      }
      if ok {
        ok, offset := TakeSection(data, DEVT, offset, target);
      }
      if ok {
        ok, offset := TakeSection(data, ZONED, offset, target);
      }
      assert Progress(data, target, 4);
    }
  }

  /** Where one section does not fit, no later one is read. */
  lemma NothingFurther(data: seq<byte>, target: Block, n: nat)
    requires |data| >= 8 && n < 4 && |target.sections| == 4
    requires Has(TypesOf(data), n) && Start(TypesOf(data), n) + Size(n) > |data|
    ensures Total(TypesOf(data)) > |data|
    ensures forall i :: n <= i < 4 ==> SectionRead(data, target, i) == target.sections[i]
  {
    var types := TypesOf(data);
    assert Start(types, n + 1) > |data|;
    StartMono(types, n + 1, 4);
    forall i | n < i < 4
      ensures Start(types, i) > |data|
    {
      StartMono(types, n + 1, i);
    }
  }

  // ---- Round trips ----

  /** target with the sections that p has. */
  function Merged(p: Block, target: Block, len: nat): Block
    requires |p.sections| == 4 && |target.sections| == 4
  {
    Block(len, p.types, seq(4, i requires 0 <= i < 4 => if Has(p.types, i) then p.sections[i] else target.sections[i]))
  }

  /** Any bytes that hold a block, whatever length up to their own they declare, decode to it. */
  lemma HeldDecodes(b: seq<byte>, p: Block, len: nat, target: Block)
    requires WellTyped(p) && |target.sections| == 4
    requires Holds(b, p, len, 4) && len <= |b| && len < TWO32
    ensures Accepts(b) && Decoded(b, target) == Merged(p, target, len)
  {
    Pow256Values();
    BytesRoundTrip(len, 4);
    BytesRoundTrip(p.types, 4);
    assert LenOf(b) == len && TypesOf(b) == p.types;
    forall i | 0 <= i < 4
      ensures SectionRead(b, target, i) == if Has(p.types, i) then p.sections[i] else target.sections[i]
    {
      if Has(p.types, i) {
        assert SectionAt(b, p, i);
      }
    }
  }

  lemma HeldAppend(b: seq<byte>, pad: seq<byte>, p: Block, len: nat)
    requires WellTyped(p) && Holds(b, p, len, 4)
    ensures Holds(b + pad, p, len, 4)
  {
    var c := b + pad;
    assert c[..4] == b[..4] && c[4..8] == b[4..8];
    forall i | 0 <= i < 4 && Has(p.types, i)
      ensures SectionAt(c, p, i)
    {
      assert SectionAt(b, p, i);
      assert c[Start(p.types, i)..Start(p.types, i) + Size(i)] == b[Start(p.types, i)..Start(p.types, i) + Size(i)];
    }
  }

  /** Unmarshalling what was marshalled restores the type word and every section present, and leaves
      the others alone, whatever follows. */
  lemma RoundTrip(b: seq<byte>, p: Block, pad: seq<byte>, target: Block)
    requires WellTyped(p) && |target.sections| == 4 && Encodes(b, p)
    ensures Accepts(b + pad) && Decoded(b + pad, target) == Merged(p, target, |b|)
  {
    TotalBound(p.types);
    HeldAppend(b, pad, p, |b|);
    HeldDecodes(b + pad, p, |b|, target);
  }

  /** SetParams' minimum size: at least 128 bytes, the length word rewritten when padded. */
  method PadToMinimum(b: array<byte>, p: Block) returns (buf: array<byte>)
    requires WellTyped(p) && Encodes(b[..], p)
    ensures buf.Length == 128 && Holds(buf[..], p, 128, 4)
    ensures forall k :: Total(p.types) <= k < 128 ==> buf[k] == 0
  {
    TotalBound(p.types);
    buf := b;
    if buf.Length < 128 {
      var padded := new byte[128](_ => 0);
      Put(padded, 0, buf[..]);
      assert padded[..] == b[..] + Zeros(128 - b.Length);
      HeldAppend(b[..], Zeros(128 - b.Length), p, b.Length);
      ghost var before := padded[..];
      buf := padded;
      Put(buf, 0, Bytes(128, 4));
      Relabelled(before, p, b.Length, 128);
    }
  }

  lemma Relabelled(b: seq<byte>, p: Block, before: nat, len: nat)
    requires WellTyped(p) && Holds(b, p, before, 4)
    ensures Holds(Splice(b, 0, Bytes(len, 4)), p, len, 4)
  {
    var word := Bytes(len, 4);
    var c := Splice(b, 0, word);
    SpliceThere(b, 0, word);
    SpliceKeeps(b, 0, word, 4, 8);
    forall i | 0 <= i < 4 && Has(p.types, i)
      ensures SectionAt(c, p, i)
    {
      assert SectionAt(b, p, i);
      SpliceKeeps(b, 0, word, Start(p.types, i), Start(p.types, i) + Size(i));
    }
  }

  /** The padded block still decodes to the parameters, now declaring 128 bytes. */
  lemma PaddedRoundTrip(b: seq<byte>, p: Block, target: Block)
    requires WellTyped(p) && |target.sections| == 4 && |b| == 128 && Holds(b, p, 128, 4)
    ensures Accepts(b) && Decoded(b, target) == Merged(p, target, 128)
  {
    HeldDecodes(b, p, 128, target);
  }

  /** The declared length does not bound the sections: a block that declares only its eight header
      bytes is accepted with a section read from beyond them. */
  lemma DeclaredLengthNotEnforced(section: seq<byte>)
    requires |section| == 32
    ensures
      var data := Bytes(8, 4) + Bytes(1, 4) + section;
      Accepts(data) && LenOf(data) == 8 && Reads(data, BASIC)
  {
    var data := Bytes(8, 4) + Bytes(1, 4) + section;
    Pow256Values();
    BytesRoundTrip(8, 4);
    BytesRoundTrip(1, 4);
    assert data[..4] == Bytes(8, 4) && data[4..8] == Bytes(1, 4);
    OnlyBasic();
  }

  lemma OnlyBasic()
    ensures Has(1, BASIC) && Total(1) == 40
  {
    assert !Has(1, 1) && !Has(1, 2) && !Has(1, 3);
    assert Start(1, 1) == 40;
    assert Start(1, 2) == 40;
    assert Start(1, 3) == 40;
  }

  /** Sections read beyond the declared length: exactly when a section's end passes it. */
  lemma ReadsBeyondExactlyWhen(data: seq<byte>)
    requires Accepts(data)
    ensures (exists i :: 0 <= i < 4 && Reads(data, i) && Start(TypesOf(data), i) + Size(i) > LenOf(data))
      <==> (Total(TypesOf(data)) > LenOf(data) && Total(TypesOf(data)) > 8)
  {
    var types := TypesOf(data);
    if Total(types) > LenOf(data) && Total(types) > 8 {
      var i := SectionOf(types, Total(types) - 1, 4);
      assert Start(types, i + 1) == Start(types, i) + Size(i);
      StartMono(types, i + 1, 4);
      assert Reads(data, i) && Start(types, i) + Size(i) > LenOf(data);
    } else {
      forall i | 0 <= i < 4 && Reads(data, i)
        ensures Start(types, i) + Size(i) <= LenOf(data)
      {
        assert Start(types, i + 1) == Start(types, i) + Size(i);
        StartMono(types, i + 1, 4);
      }
    }
  }

  /** With all sections present: the header, then basic, discard, device numbers and zoned. */
  lemma AllPresent(types: nat)
    requires Has(types, 0) && Has(types, 1) && Has(types, 2) && Has(types, 3)
    ensures Start(types, 0) == 8 && Start(types, 1) == 40 && Start(types, 2) == 60 && Start(types, 3) == 76
    ensures Total(types) == 108
  {
    assert Start(types, 1) == Start(types, 0) + Size(0);
    assert Start(types, 2) == Start(types, 1) + Size(1);
    assert Start(types, 3) == Start(types, 2) + Size(2);
  }

  /** A little-endian word of four bytes. */
  function Word(a: nat, b: nat, c: nat, d: nat): nat {
    a + 256 * b + 65536 * c + 16777216 * d
  }

  lemma WordOf(b: seq<byte>)
    requires |b| == 4
    ensures FromBytes(b) == Word(b[0], b[1], b[2], b[3])
  {
    assert b[1..][1..] == b[2..] && b[2..][1..] == b[3..] && b[3..][1..] == [];
    assert FromBytes(b[3..]) == b[3] + 256 * FromBytes(b[3..][1..]);
    assert FromBytes(b[2..]) == b[2] + 256 * FromBytes(b[2..][1..]);
    assert FromBytes(b[1..]) == b[1] + 256 * FromBytes(b[1..][1..]);
  }

  lemma HasByBit(types: nat, i: nat, p: nat)
    requires p == Pow2(i)
    ensures Has(types, i) <==> types / p % 2 == 1
  {
    AndBit(types, i);
  }

  /** Bits above do not matter to one below. */
  lemma BitBelow(low: nat, p: nat, h: nat)
    requires p > 0
    ensures (low + p * (2 * h)) / p % 2 == low / p % 2
  {
    assert low == low / p * p + low % p;
    assert (low / p + 2 * h) * p == low / p * p + p * (2 * h);
    DivModUnique(low + p * (2 * h), p, low / p + 2 * h, low % p);
    DivModUnique(low / p + 2 * h, 2, low / p / 2 + h, low / p % 2);
  }

  lemma TypeBits(types: nat, low: nat, rest: nat)
    requires types == low + 256 * rest && low < 256
    ensures (Has(types, 0) <==> low % 2 == 1) && (Has(types, 1) <==> low / 2 % 2 == 1)
    ensures (Has(types, 2) <==> low / 4 % 2 == 1) && (Has(types, 3) <==> low / 8 % 2 == 1)
  {
    HasByBit(types, 0, 1);
    HasByBit(types, 1, 2);
    HasByBit(types, 2, 4);
    HasByBit(types, 3, 8);
    BitBelow(low, 1, 128 * rest);
    BitBelow(low, 2, 64 * rest);
    BitBelow(low, 4, 32 * rest);
    BitBelow(low, 8, 16 * rest);
    assert low / 1 == low;
  }

  /** What is accepted, in bytes: at least a header, a declared length no longer than the input, and room for
      32, 20, 16 and 32 bytes as the four low bits of the fifth byte ask for. */
  lemma AcceptsExactly(data: seq<byte>)
    requires |data| >= 8
    ensures
      var sections :=
        (if data[4] % 2 == 1 then 32 else 0) + (if data[4] / 2 % 2 == 1 then 20 else 0)
        + (if data[4] / 4 % 2 == 1 then 16 else 0) + (if data[4] / 8 % 2 == 1 then 32 else 0);
      Accepts(data) <==> Word(data[0], data[1], data[2], data[3]) <= |data| && 8 + sections <= |data|
  {
    WordOf(data[..4]);
    WordOf(data[4..8]);
    var types := TypesOf(data);
    TypeBits(types, data[4], (types - data[4]) / 256);
    assert Start(types, 1) == 8 + if Has(types, 0) then 32 else 0;
    assert Start(types, 2) == Start(types, 1) + if Has(types, 1) then 20 else 0;
    assert Start(types, 3) == Start(types, 2) + if Has(types, 2) then 16 else 0;
  }

  // ---- The type bits ----

  predicate Bit(x: nat, k: nat) {
    x / Pow2(k) % 2 == 1
  }

  lemma {:induction false} OrBit(x: nat, y: nat, k: nat)
    ensures Bit(Or(x, y), k) <==> Bit(x, k) || Bit(y, k)
    decreases k
  {
    if x == 0 {
      assert !Bit(0, k) by { DivModUnique(0, Pow2(k), 0, 0); }
    } else if y == 0 {
      assert !Bit(0, k) by { DivModUnique(0, Pow2(k), 0, 0); }
    } else if k > 0 {
      var p := Pow2(k - 1);
      HalfMod(x, p);
      HalfMod(y, p);
      HalfMod(Or(x, y), p);
      OrBit(x / 2, y / 2, k - 1);
      assert Or(x, y) / 2 == Or(x / 2, y / 2);
    }
  }

  lemma {:induction false} BitOfPower(i: nat, k: nat)
    ensures Bit(Pow2(i), k) <==> i == k
    decreases k
  {
    var x := Pow2(i);
    if k == 0 {
      assert x / 1 == x;
    } else if i == 0 {
      assert Pow2(k) >= 2;
      DivModUnique(1, Pow2(k), 0, 1);
    } else {
      HalfMod(x, Pow2(k - 1));
      BitOfPower(i - 1, k - 1);
    }
  }

  /** SetBasic, SetDiscard, SetDevt, SetZoned turn on one section and no other. */
  lemma SetTypeBit(types: nat, i: nat, k: nat)
    ensures Has(Or(types, Pow2(i)), k) <==> Has(types, k) || i == k
  {
    AndBit(types, k);
    AndBit(Or(types, Pow2(i)), k);
    OrBit(types, Pow2(i), k);
    BitOfPower(i, k);
  }
}
