/** The two in-memory backends, each proved against the flat disk: the sharded memoryBackend of
    ublk-mem (its locks are the subject of ShardLocks) and the single-mutex MockBackend. */
module Backends {
  import opened Words
  import opened FlatDisk
  import opened Shards

  /** Go's copy between slices of two arrays. */
  method Copy(dst: array<byte>, to: nat, src: array<byte>, from: nat, n: nat)
    requires dst != src && to + n <= dst.Length && from + n <= src.Length
    modifies dst
    ensures dst[..] == Splice(old(dst[..]), to, src[from..from + n])
  {
    for i := 0 to n
      invariant forall k :: 0 <= k < dst.Length ==>
        dst[k] == if to <= k < to + i then src[from + (k - to)] else old(dst[k])
    {
      dst[to + i] := src[from + i];
    }
  }

  /** Go's clear of a slice. */
  method Clear(dst: array<byte>, from: nat, n: nat)
    requires from + n <= dst.Length
    modifies dst
    ensures dst[..] == Splice(old(dst[..]), from, Zeros(n))
  {
    for i := 0 to n
      invariant forall k :: 0 <= k < dst.Length ==> dst[k] == if from <= k < from + i then 0 else old(dst[k])
    {
      dst[from + i] := 0;
    }
  }

  datatype Error = BeyondEnd | DeviceClosed | InvalidParameters

  /** A call returns a count or an error, or runs into an index or slice bound. */
  datatype Result = Ok(n: nat) | Err(error: Error) | Panic

  class MemoryBackend {
    const data: array<byte>

    constructor (size: nat)
      ensures fresh(data) && data[..] == Zeros(size)
    {
      data := new byte[size](_ => 0);
    }

    /** The loop that locks, or unlocks, the shards of a range: it fails at the first that does not exist. */
    method ForShards(first: int, last: int) returns (ok: bool)
      ensures ok <==> !MissesShard(data.Length, first, last)
    {
      var i := first;
      while i <= last
        invariant first <= i && (i > first ==> 0 <= first && i <= ShardCount(data.Length))
        decreases last - i
      {
        if i < 0 || i >= ShardCount(data.Length) {
          return false;
        }
        i := i + 1;
      }
      return true;
    }

    /** Everything a call does before it copies: clip to what is available, find the shards, lock
        them, slice the data. */
    method Locate(off: int, len: nat) returns (ok: bool, n: nat)
      requires off < data.Length
      ensures ok <==> !CallPanics(data.Length, off, len)
      ensures ok ==> off >= 0 && n == Available(data.Length, off, len)
    {
      var available := data.Length - off;
      n := if len > available then available else len;
      var (first, last) := ShardRange(data.Length, off, n);
      ok := ForShards(first, last);
      if !ok {
        return;
      }
      ok := 0 <= off <= off + n <= data.Length;
    }

    /** Reads into p[at..at+len]; beyond the end there is nothing to read, and a read across the end is short. */
    method ReadAt(p: array<byte>, at: nat, len: nat, off: int) returns (r: Result)
      requires p != data && at + len <= p.Length
      modifies p
      ensures r.Panic? <==> CallPanics(data.Length, off, len)
      ensures r.Panic? ==> p[..] == old(p[..])
      ensures !r.Panic? ==>
        && off >= 0 && r == Ok(Available(data.Length, off, len))
        && p[..] == Splice(old(p[..]), at, Output(data[..], Read(off, len)))
    {
      if off >= data.Length {
        return Ok(0);
      }
      var ok, n := Locate(off, len);
      if !ok {
        return Panic;
      }
      Copy(p, at, data, off, n);
      assert data[off..off + n] == data[..][off..off + n];
      return Ok(n);
    }

    method WriteAt(p: array<byte>, at: nat, len: nat, off: int) returns (r: Result)
      requires p != data && at + len <= p.Length
      modifies data
      ensures r.Panic? <==> CallPanics(data.Length, off, len)
      ensures r.Panic? ==> data[..] == old(data[..])
      ensures !r.Panic? ==>
        && off >= 0 && r == (if off >= data.Length then Err(BeyondEnd) else Ok(Available(data.Length, off, len)))
        && data[..] == After(old(data[..]), Write(off, p[at..at + len]))
    {
      if off >= data.Length {
        return Err(BeyondEnd);
      }
      var ok, n := Locate(off, len);
      if !ok {
        return Panic;
      }
      Copy(data, off, p, at, n);
      assert p[at..at + n] == p[at..at + len][..n];
      return Ok(n);
    }

    method Discard(off: int, len: nat) returns (r: Result)
      modifies data
      ensures r.Panic? <==> CallPanics(data.Length, off, len)
      ensures r.Panic? ==> data[..] == old(data[..])
      ensures !r.Panic? ==>
        off >= 0 && r == Ok(0) && data[..] == After(old(data[..]), FlatDisk.Discard(off, len))
      ensures !r.Panic? ==>
        forall a :: 0 <= a < data.Length ==> data[a] == if off <= a < off + len then 0 else old(data[a])
    {
      if off >= data.Length {
        return Ok(0);
      }
      var ok, n := Locate(off, len);
      if !ok {
        return Panic;
      }
      Clear(data, off, n);
      forall a | 0 <= a < data.Length
        ensures data[a] == if off <= a < off + len then 0 else old(data[a])
      {
        assert data[..][a] == data[a];
      }
      return Ok(0);
    }
  }

  class MockBackend {
    var data: array<byte>
    var size: nat
    var closed: bool
    var readCalls: nat
    var writeCalls: nat

    /** Closing drops the data and keeps the size. */
    ghost predicate Valid()
      reads this
    {
      size == data.Length || (closed && data.Length == 0)
    }

    constructor (size: nat)
      ensures Valid() && !closed && fresh(data) && data[..] == Zeros(size)
      ensures readCalls == writeCalls == 0
    {
      data := new byte[size](_ => 0);
      this.size, closed, readCalls, writeCalls := size, false, 0, 0;
    }

    method ReadAt(p: array<byte>, at: nat, len: nat, off: int) returns (r: Result)
      requires Valid() && p != data && at + len <= p.Length
      modifies this`readCalls, p
      ensures Valid() && readCalls == old(readCalls) + 1
      ensures closed ==> r == Err(DeviceClosed) && p[..] == old(p[..])
      ensures !closed && off < 0 ==> r == Panic && p[..] == old(p[..])
      ensures !closed && off >= 0 ==>
        && r == Ok(Available(size, off, len))
        && p[..] == Splice(old(p[..]), at, Output(data[..], Read(off, len)))
    {
      readCalls := readCalls + 1;
      if closed {
        return Err(DeviceClosed);
      }
      if off >= size {
        return Ok(0);
      }
      var available := size - off;
      var n := if len > available then available else len;
      if !(0 <= off <= off + n <= data.Length) {
        return Panic;
      }
      Copy(p, at, data, off, n);
      assert data[off..off + n] == data[..][off..off + n];
      return Ok(n);
    }

    method WriteAt(p: array<byte>, at: nat, len: nat, off: int) returns (r: Result)
      requires Valid() && p != data && at + len <= p.Length
      modifies this`writeCalls, data
      ensures Valid() && writeCalls == old(writeCalls) + 1
      ensures closed ==> r == Err(DeviceClosed) && data[..] == old(data[..])
      ensures !closed && off < 0 ==> r == Panic && data[..] == old(data[..])
      ensures !closed && off >= 0 ==>
        && r == (if off >= size then Err(InvalidParameters) else Ok(Available(size, off, len)))
        && data[..] == After(old(data[..]), Write(off, p[at..at + len]))
    {
      writeCalls := writeCalls + 1;
      if closed {
        return Err(DeviceClosed);
      }
      if off >= size {
        return Err(InvalidParameters);
      }
      var available := size - off;
      var n := if len > available then available else len;
      if !(0 <= off <= off + n <= data.Length) {
        return Panic;
      }
      Copy(data, off, p, at, n);
      assert p[at..at + n] == p[at..at + len][..n];
      return Ok(n);
    }

    method Close()
      requires Valid()
      modifies this`closed, this`data
      ensures Valid() && closed && data.Length == 0
    {
      closed := true;
      data := new byte[0];
    }

    /** A loop over the range, where memoryBackend clears a slice. Whether the backend is closed is
        not asked, so that a closed one is indexed out of range. */
    method Discard(off: int, len: int) returns (r: Result)
      requires Valid()
      modifies data
      ensures r == if off < size && len > 0 && (off < 0 || data.Length < size) then Panic else Ok(0)
      ensures data[..] == if r.Panic? || off < 0 || len < 0 then old(data[..])
        else After(old(data[..]), FlatDisk.Discard(off, len))
      ensures !r.Panic? ==>
        forall a :: 0 <= a < data.Length ==> data[a] == if off <= a < off + len then 0 else old(data[a])
    {
      if off >= size {
        return Ok(0);
      }
      var end := off + len;
      if end > size {
        end := size;
      }
      var i := off;
      while i < end
        invariant off <= i && (i > off ==> 0 <= off && data.Length == size && i <= end)
        invariant forall k :: 0 <= k < data.Length ==> data[k] == if off <= k < i then 0 else old(data[k])
      {
        if i < 0 || i >= data.Length {
          return Panic;
        }
        data[i] := 0;
        i := i + 1;
      }
      return Ok(0);
    }

    /** Growing appends zeros and shrinking drops the tail; growing again does not bring it back. A
        closed backend can be grown, and shrinking it is out of range unless to nothing. */
    method Resize(newSize: int) returns (r: Result)
      requires Valid()
      modifies this`data, this`size
      ensures Valid()
      ensures r == if newSize < 0 then Err(InvalidParameters)
        else if 0 < newSize < old(size) && old(data.Length) < old(size) then Panic else Ok(0)
      ensures r.Err? ==> data == old(data) && size == old(size)
      ensures r.Ok? ==> size == newSize
      ensures r.Ok? && newSize > old(size) ==> data[..] == old(data[..]) + Zeros(newSize - |old(data[..])|)
      ensures r.Ok? && newSize <= old(size) ==> data[..] == old(data[..])[..Min(newSize, |old(data[..])|)]
    {
      if newSize < 0 {
        return Err(InvalidParameters);
      }
      if newSize > size {
        var newData := new byte[newSize](_ => 0);
        Copy(newData, 0, data, 0, data.Length);
        assert newData[..] == data[..] + Zeros(newSize - data.Length);
        data := newData;
      } else if newSize < size {
        if newSize > data.Length {
          return Panic;
        }
        var cut := new byte[newSize](_ => 0);
        Copy(cut, 0, data, 0, newSize);
        assert cut[..] == data[..newSize];
        data := cut;
      }
      size := newSize;
      return Ok(0);
    }
  }
}
