/** The flat disk: what a read, a write and a discard mean on one byte sequence.
    Both backends, the lock protocol and the queue are proved against this module. */
module FlatDisk {
  import opened Words

  /** s with the bytes at at..at+|p| replaced by p. */
  function Splice<T>(s: seq<T>, at: nat, p: seq<T>): (r: seq<T>)
    requires at + |p| <= |s|
    ensures |r| == |s|
    ensures forall i :: 0 <= i < |s| ==> r[i] == if at <= i < at + |p| then p[i - at] else s[i]
  {
    s[..at] + p + s[at + |p|..]
  }

  lemma SpliceThere<T>(s: seq<T>, at: nat, p: seq<T>)
    requires at + |p| <= |s|
    ensures Splice(s, at, p)[at..at + |p|] == p
  {
  }

  /** Stores p in an array at at. */
  method Put(a: array<byte>, at: nat, p: seq<byte>)
    requires at + |p| <= a.Length
    modifies a
    ensures a[..] == Splice(old(a[..]), at, p)
  {
    for i := 0 to |p|
      invariant forall k :: 0 <= k < a.Length ==> a[k] == if at <= k < at + i then p[k - at] else old(a[k])
    {
      a[at + i] := p[i];
    }
  }

  function Zeros(n: nat): (z: seq<byte>)
    ensures |z| == n
    ensures forall i :: 0 <= i < n ==> z[i] == 0
  {
    seq(n, i => 0)
  }

  /** How many of len bytes at off lie on a disk of the given size. */
  function Available(size: nat, off: nat, len: nat): (n: nat)
    ensures n <= len
    ensures off + n <= size || n == 0
  {
    if off >= size then 0 else Min(len, size - off)
  }

  /** One backend call. */
  datatype Op =
    | Read(off: nat, len: nat)
    | Write(off: nat, payload: seq<byte>)
    | Discard(off: nat, len: nat)
  {
    function Len(): nat {
      match this
      case Read(_, len) => len
      case Write(_, payload) => |payload|
      case Discard(_, len) => len
    }

    /** Only a write beyond the end is an error: a read there returns 0 bytes, a discard does nothing. */
    predicate Fails(size: nat) {
      Write? && off >= size
    }

    function Count(size: nat): nat {
      Available(size, off, Len())
    }
  }

  /** The bytes a call stores over its range. */
  function Stored(op: Op, size: nat): (s: seq<byte>)
    requires !op.Read?
    ensures |s| == op.Count(size)
  {
    if op.Write? then op.payload[..op.Count(size)] else Zeros(op.Count(size))
  }

  /** The disk after one call. */
  function After(disk: seq<byte>, op: Op): (d: seq<byte>)
    ensures |d| == |disk|
  {
    if op.Read? || op.Count(|disk|) == 0 then disk else Splice(disk, op.off, Stored(op, |disk|))
  }

  /** The bytes one call hands back. */
  function Output(disk: seq<byte>, op: Op): seq<byte> {
    if op.Read? && op.Count(|disk|) > 0 then disk[op.off..op.off + op.Count(|disk|)] else []
  }

  /** The disk after a serial history. */
  function AfterAll(disk: seq<byte>, ops: seq<Op>): (d: seq<byte>)
    ensures |d| == |disk|
    decreases |ops|
  {
    if ops == [] then disk else After(AfterAll(disk, ops[..|ops| - 1]), ops[|ops| - 1])
  }

  // ---- The disk, byte by byte ----

  /** A write stores its payload where that lies on the disk, and nothing else. */
  lemma WriteLeaves(disk: seq<byte>, off: nat, payload: seq<byte>, a: nat)
    requires a < |disk|
    ensures After(disk, Write(off, payload))[a] == if off <= a < off + |payload| then payload[a - off] else disk[a]
  {
  }

  /** A discard leaves zeros where its range lies on the disk, and touches nothing else. */
  lemma DiscardLeaves(disk: seq<byte>, off: nat, len: nat, a: nat)
    requires a < |disk|
    ensures After(disk, Discard(off, len))[a] == if off <= a < off + len then 0 else disk[a]
  {
  }

  /** A read gives the disk's bytes, as many as there are, and leaves the disk alone. */
  lemma ReadGives(disk: seq<byte>, off: nat, len: nat, i: nat)
    ensures After(disk, Read(off, len)) == disk
    ensures i < |Output(disk, Read(off, len))| <==> i < len && off + i < |disk|
    ensures i < |Output(disk, Read(off, len))| ==> Output(disk, Read(off, len))[i] == disk[off + i]
  {
  }

  /** Read after write: the bytes that fit come back, everything else is as before. */
  lemma ReadBack(disk: seq<byte>, off: nat, payload: seq<byte>, off': nat, len': nat)
    ensures Output(After(disk, Write(off, payload)), Read(off, |payload|))
      == payload[..Available(|disk|, off, |payload|)]
    ensures off' + len' <= off || off + |payload| <= off' ==>
      Output(After(disk, Write(off, payload)), Read(off', len')) == Output(disk, Read(off', len'))
  {
    var d := After(disk, Write(off, payload));
    var n := Available(|disk|, off, |payload|);
    if n > 0 {
      assert d[off..off + n] == payload[..n];
    }
    var n' := Available(|disk|, off', len');
    if n' > 0 && (off' + len' <= off || off + |payload| <= off') {
      assert d[off'..off' + n'] == disk[off'..off' + n'];
    }
  }
}
