/** The records of internal/uapi as little-endian bytes. A record is the list of its fields' values,
    and a layout the list of their widths in bytes. */
module Records {
  import opened Options
  import opened Words

  function Width(layout: seq<nat>): nat {
    if layout == [] then 0 else layout[0] + Width(layout[1..])
  }

  predicate Fits(layout: seq<nat>, fields: seq<nat>) {
    |fields| == |layout| && forall i :: 0 <= i < |layout| ==> fields[i] < Pow256(layout[i])
  }

  function Pack(layout: seq<nat>, fields: seq<nat>): (b: seq<byte>)
    requires |fields| == |layout|
    ensures |b| == Width(layout)
    decreases |layout|
  {
    if layout == [] then [] else Bytes(fields[0], layout[0]) + Pack(layout[1..], fields[1..])
  }

  function Unpack(layout: seq<nat>, data: seq<byte>): (f: seq<nat>)
    requires |data| >= Width(layout)
    ensures |f| == |layout|
    decreases |layout|
  {
    if layout == [] then []
    else [FromBytes(data[..layout[0]])] + Unpack(layout[1..], data[layout[0]..])
  }

  /** Decoding restores every field, whatever bytes follow. */
  lemma {:induction false} UnpackPack(layout: seq<nat>, fields: seq<nat>, rest: seq<byte>)
    requires Fits(layout, fields)
    ensures Unpack(layout, Pack(layout, fields) + rest) == fields
    decreases |layout|
  {
    if layout == [] {
    } else {
      var head, tail := Bytes(fields[0], layout[0]), Pack(layout[1..], fields[1..]);
      var all := Pack(layout, fields) + rest;
      assert all == head + (tail + rest);
      assert all[..layout[0]] == head && all[layout[0]..] == tail + rest;
      BytesRoundTrip(fields[0], layout[0]);
      UnpackPack(layout[1..], fields[1..], rest);
      assert fields == [fields[0]] + fields[1..];
    }
  }

  lemma {:induction false} BytesOfValue(b: seq<byte>)
    ensures Bytes(FromBytes(b), |b|) == b
    decreases |b|
  {
    if b == [] {
    } else {
      BytesOfValue(b[1..]);
      var x := FromBytes(b);
      assert x % 256 == b[0] && x / 256 == FromBytes(b[1..]);
    }
  }

  /** Encoding what was decoded gives the same bytes: no two byte strings decode alike. */
  lemma {:induction false} PackUnpack(layout: seq<nat>, data: seq<byte>)
    requires |data| >= Width(layout)
    ensures Fits(layout, Unpack(layout, data))
    ensures Pack(layout, Unpack(layout, data)) == data[..Width(layout)]
    decreases |layout|
  {
    if layout == [] {
    } else {
      var w := layout[0];
      BytesOfValue(data[..w]);
      FromBytesBound(data[..w]);
      PackUnpack(layout[1..], data[w..]);
      var f, tail := Unpack(layout, data), Unpack(layout[1..], data[w..]);
      assert f == [FromBytes(data[..w])] + tail;
      FitsMore(layout, FromBytes(data[..w]), tail);
      assert f[1..] == tail;
      assert Pack(layout, f) == data[..w] + data[w..][..Width(layout[1..])];
    }
  }

  lemma FitsMore(layout: seq<nat>, x: nat, tail: seq<nat>)
    requires layout != [] && x < Pow256(layout[0]) && Fits(layout[1..], tail)
    ensures Fits(layout, [x] + tail)
  {
    var f := [x] + tail;
    forall i | 0 <= i < |layout|
      ensures f[i] < Pow256(layout[i])
    {
      if i > 0 {
        assert f[i] == tail[i - 1] && layout[i] == layout[1..][i - 1];
      }
    }
  }

  lemma SliceOfTail(b: seq<byte>, tail: seq<byte>, lo: nat, hi: nat)
    requires lo <= hi <= |tail|
    ensures (b + tail)[|b| + lo..|b| + hi] == tail[lo..hi]
  {
  }

  /** Where a field lies. */
  lemma {:induction false} PackField(layout: seq<nat>, fields: seq<nat>, i: nat)
    requires |fields| == |layout| && i < |layout|
    ensures Width(layout[..i]) + layout[i] <= Width(layout)
    ensures Pack(layout, fields)[Width(layout[..i])..Width(layout[..i]) + layout[i]] == Bytes(fields[i], layout[i])
    decreases i
  {
    var b, tail := Bytes(fields[0], layout[0]), Pack(layout[1..], fields[1..]);
    assert Pack(layout, fields) == b + tail;
    if i == 0 {
      assert layout[..0] == [];
    } else {
      PackField(layout[1..], fields[1..], i - 1);
      var w := Width(layout[1..][..i - 1]);
      assert layout[..i][1..] == layout[1..][..i - 1];
      assert Width(layout[..i]) == layout[0] + w;
      SliceOfTail(b, tail, w, w + layout[i]);
    }
  }

  /** The unmarshal functions of the fixed records: refused exactly when too short. */
  function Unmarshal(layout: seq<nat>, data: seq<byte>): (r: Option<seq<nat>>)
    ensures r.None? <==> |data| < Width(layout)
    ensures r.Some? ==> Fits(layout, r.value) && Pack(layout, r.value) == data[..Width(layout)]
  {
    if |data| < Width(layout) then None else
      PackUnpack(layout, data);
      Some(Unpack(layout, data))
  }

  lemma SignedWord(x: int)
    requires -TWO31 <= x < TWO31
    ensures ToI32(x % TWO32) == x
  {
  }

  /** A signed 32-bit field survives the trip through its unsigned bytes. */
  lemma {:induction false} SignedRoundTrip(layout: seq<nat>, fields: seq<nat>, i: nat, x: int, rest: seq<byte>)
    requires Fits(layout, fields) && i < |layout| && layout[i] == 4
    requires -TWO31 <= x < TWO31 && fields[i] == x % TWO32
    ensures
      var r := Unmarshal(layout, Pack(layout, fields) + rest);
      r.Some? && r.value == fields && ToI32(r.value[i]) == x
  {
    SignedWord(x);
    var data := Pack(layout, fields) + rest;
    assert Unpack(layout, data) == fields by {
      UnpackPack(layout, fields, rest);
    }
    assert Unmarshal(layout, data) == Some(fields);
  }

  // dev_id, queue_id, len, addr, data, dev_path_len, pad, reserved
  const CTRL_CMD: seq<nat> := [4, 2, 2, 8, 8, 2, 2, 4]

  // qid, tag, result, addr
  const IO_CMD: seq<nat> := [2, 2, 4, 8]

  // nr_hw_queues, queue_depth, state, pad0, max_io_buf_bytes, dev_id, ublksrv_pid, pad1,
  // flags, ublksrv_flags, owner_uid, owner_gid, reserved1, reserved2
  const DEV_INFO: seq<nat> := [2, 2, 2, 2, 4, 4, 4, 4, 8, 8, 4, 4, 8, 8]

  // attrs, four shifts, max_sectors, chunk_sectors, dev_sectors, virt_boundary_mask
  const BASIC: seq<nat> := [4, 1, 1, 1, 1, 4, 4, 8, 8]

  // alignment, granularity, max_discard_sectors, max_write_zeroes_sectors, max_segments, reserved
  const DISCARD: seq<nat> := [4, 4, 4, 4, 2, 2]

  // char major, char minor, disk major, disk minor
  const DEVT: seq<nat> := [4, 4, 4, 4]

  // max_open_zones, max_active_zones, max_zone_append_sectors, 20 reserved bytes
  const ZONED: seq<nat> := [4, 4, 4, 20]

  lemma {:induction false} WidthAppend(a: seq<nat>, b: seq<nat>)
    ensures Width(a + b) == Width(a) + Width(b)
    decreases |a|
  {
    if a == [] {
      assert a + b == b;
    } else {
      assert (a + b)[1..] == a[1..] + b;
      WidthAppend(a[1..], b);
    }
  }

  lemma WidthOfPair(a: nat, b: nat)
    ensures Width([a, b]) == a + b
  {
    assert [a, b][1..] == [b];
    assert [b][1..] == [];
    assert Width([b]) == b + Width([b][1..]);
    assert Width([a, b]) == a + Width([a, b][1..]);
  }

  lemma WidthOfFour(a: nat, b: nat, c: nat, d: nat)
    ensures Width([a, b, c, d]) == a + b + c + d
  {
    assert [a, b, c, d] == [a, b] + [c, d];
    WidthAppend([a, b], [c, d]);
    WidthOfPair(a, b);
    WidthOfPair(c, d);
  }

  lemma IoCmdSize()
    ensures Width(IO_CMD) == 16
  {
    WidthOfFour(2, 2, 4, 8);
  }

  lemma CtrlCmdSize()
    ensures Width(CTRL_CMD) == 32
  {
    assert CTRL_CMD == [4, 2, 2, 8] + [8, 2, 2, 4];
    WidthAppend([4, 2, 2, 8], [8, 2, 2, 4]);
    WidthOfFour(4, 2, 2, 8);
    WidthOfFour(8, 2, 2, 4);
  }

  lemma DevInfoSize()
    ensures Width(DEV_INFO) == 64
  {
    var a, b, c, d := [2, 2, 2, 2], [4, 4, 4, 4], [8, 8, 4, 4], [8, 8];
    assert DEV_INFO == a + (b + (c + d));
    WidthAppend(a, b + (c + d));
    WidthAppend(b, c + d);
    WidthAppend(c, d);
    WidthOfFour(2, 2, 2, 2);
    WidthOfFour(4, 4, 4, 4);
    WidthOfFour(8, 8, 4, 4);
    WidthOfPair(8, 8);
  }

  lemma BasicSize()
    ensures Width(BASIC) == 32
  {
    var a, b, c := [4, 1, 1, 1], [1, 4, 4, 8], [8];
    assert BASIC == a + (b + c);
    WidthAppend(a, b + c);
    WidthAppend(b, c);
    WidthOfFour(4, 1, 1, 1);
    WidthOfFour(1, 4, 4, 8);
    assert c[1..] == [];
  }

  lemma OtherSectionSizes()
    ensures Width(DISCARD) == 20 && Width(DEVT) == 16 && Width(ZONED) == 32
  {
    assert DISCARD == [4, 4, 4, 4] + [2, 2];
    WidthAppend([4, 4, 4, 4], [2, 2]);
    WidthOfFour(4, 4, 4, 4);
    WidthOfPair(2, 2);
    WidthOfFour(4, 4, 4, 20);
  }

  // ---- Where the fields are ----

  lemma WidthStep(layout: seq<nat>, i: nat)
    requires i < |layout|
    ensures Width(layout[..i + 1]) == Width(layout[..i]) + layout[i]
  {
    assert layout[..i + 1] == layout[..i] + [layout[i]];
    WidthAppend(layout[..i], [layout[i]]);
    assert [layout[i]][1..] == [];
    assert Width([layout[i]]) == layout[i] + Width([layout[i]][1..]);
  }

  /** The field begins at the offset and has the width. */
  ghost predicate FieldAt(layout: seq<nat>, i: nat, at: nat, width: nat) {
    i < |layout| && Width(layout[..i]) == at && layout[i] == width
  }

  /** Fields follow one another. */
  lemma NextField(layout: seq<nat>, i: nat, at: nat, width: nat)
    requires FieldAt(layout, i, at, width) && i + 1 < |layout|
    ensures FieldAt(layout, i + 1, at + width, layout[i + 1])
  {
    WidthStep(layout, i);
  }

  lemma FirstField(layout: seq<nat>)
    requires layout != []
    ensures FieldAt(layout, 0, 0, layout[0])
  {
    assert layout[..0] == [];
  }

  /** A packed field's bytes are at its offset. */
  lemma FieldBytes(layout: seq<nat>, fields: seq<nat>, i: nat, at: nat, width: nat)
    requires FieldAt(layout, i, at, width) && |fields| == |layout|
    ensures at + width <= |Pack(layout, fields)|
    ensures Pack(layout, fields)[at..at + width] == Bytes(fields[i], width)
  {
    PackField(layout, fields, i);
  }

  /** ublksrv_io_cmd: queue, tag, result, address. */
  lemma IoCmdFields()
    ensures FieldAt(IO_CMD, 0, 0, 2) && FieldAt(IO_CMD, 1, 2, 2) && FieldAt(IO_CMD, 2, 4, 4) && FieldAt(IO_CMD, 3, 8, 8)
  {
    FirstField(IO_CMD);
    NextField(IO_CMD, 0, 0, 2);
    NextField(IO_CMD, 1, 2, 2);
    NextField(IO_CMD, 2, 4, 4);
  }

  /** ublksrv_ctrl_cmd: device, queue, length, address, data, path length, padding, reserved. */
  lemma CtrlCmdFields()
    ensures FieldAt(CTRL_CMD, 0, 0, 4) && FieldAt(CTRL_CMD, 1, 4, 2) && FieldAt(CTRL_CMD, 2, 6, 2)
    ensures FieldAt(CTRL_CMD, 3, 8, 8) && FieldAt(CTRL_CMD, 4, 16, 8) && FieldAt(CTRL_CMD, 5, 24, 2)
    ensures FieldAt(CTRL_CMD, 6, 26, 2) && FieldAt(CTRL_CMD, 7, 28, 4)
  {
    FirstField(CTRL_CMD);
    NextField(CTRL_CMD, 0, 0, 4);
    NextField(CTRL_CMD, 1, 4, 2);
    NextField(CTRL_CMD, 2, 6, 2);
    NextField(CTRL_CMD, 3, 8, 8);
    NextField(CTRL_CMD, 4, 16, 8);
    NextField(CTRL_CMD, 5, 24, 2);
    NextField(CTRL_CMD, 6, 26, 2);
  }

  /** ublksrv_ctrl_dev_info: queues, depth, state, padding, largest I/O, device, process, padding, flags, server
      flags, owner, group and two reserved words. */
  lemma DevInfoFields()
    ensures FieldAt(DEV_INFO, 0, 0, 2) && FieldAt(DEV_INFO, 1, 2, 2) && FieldAt(DEV_INFO, 2, 4, 2)
    ensures FieldAt(DEV_INFO, 3, 6, 2) && FieldAt(DEV_INFO, 4, 8, 4) && FieldAt(DEV_INFO, 5, 12, 4)
    ensures FieldAt(DEV_INFO, 6, 16, 4) && FieldAt(DEV_INFO, 7, 20, 4) && FieldAt(DEV_INFO, 8, 24, 8)
    ensures FieldAt(DEV_INFO, 9, 32, 8) && FieldAt(DEV_INFO, 10, 40, 4) && FieldAt(DEV_INFO, 11, 44, 4)
    ensures FieldAt(DEV_INFO, 12, 48, 8) && FieldAt(DEV_INFO, 13, 56, 8)
  {
    FieldsTo24(DEV_INFO);
    FieldsFrom24(DEV_INFO);
  }

  lemma FieldsTo24(l: seq<nat>)
    requires |l| == 14 && l[0] == l[1] == l[2] == l[3] == 2 && l[4] == l[5] == l[6] == l[7] == 4 && l[8] == 8
    ensures FieldAt(l, 0, 0, 2) && FieldAt(l, 1, 2, 2) && FieldAt(l, 2, 4, 2) && FieldAt(l, 3, 6, 2)
    ensures FieldAt(l, 4, 8, 4) && FieldAt(l, 5, 12, 4) && FieldAt(l, 6, 16, 4) && FieldAt(l, 7, 20, 4)
    ensures FieldAt(l, 8, 24, 8)
  {
    FirstField(l);
    NextField(l, 0, 0, 2);
    NextField(l, 1, 2, 2);
    NextField(l, 2, 4, 2);
    NextField(l, 3, 6, 2);
    NextField(l, 4, 8, 4);
    NextField(l, 5, 12, 4);
    NextField(l, 6, 16, 4);
    NextField(l, 7, 20, 4);
  }

  lemma FieldsFrom24(l: seq<nat>)
    requires |l| == 14 && FieldAt(l, 8, 24, 8) && l[9] == 8 && l[10] == l[11] == 4 && l[12] == l[13] == 8
    ensures FieldAt(l, 9, 32, 8) && FieldAt(l, 10, 40, 4) && FieldAt(l, 11, 44, 4)
    ensures FieldAt(l, 12, 48, 8) && FieldAt(l, 13, 56, 8)
  {
    NextField(l, 8, 24, 8);
    NextField(l, 9, 32, 8);
    NextField(l, 10, 40, 4);
    NextField(l, 11, 44, 4);
    NextField(l, 12, 48, 8);
  }

  /** The basic section: attributes, four shifts, largest request, chunk, device size, boundary mask. */
  lemma BasicFields()
    ensures FieldAt(BASIC, 0, 0, 4) && FieldAt(BASIC, 1, 4, 1) && FieldAt(BASIC, 2, 5, 1) && FieldAt(BASIC, 3, 6, 1)
    ensures FieldAt(BASIC, 4, 7, 1) && FieldAt(BASIC, 5, 8, 4) && FieldAt(BASIC, 6, 12, 4)
    ensures FieldAt(BASIC, 7, 16, 8) && FieldAt(BASIC, 8, 24, 8)
  {
    BasicFieldsOf(BASIC);
  }

  lemma BasicFieldsOf(l: seq<nat>)
    requires |l| == 9 && l[0] == 4 && l[1] == l[2] == l[3] == l[4] == 1 && l[5] == l[6] == 4 && l[7] == l[8] == 8
    ensures FieldAt(l, 0, 0, 4) && FieldAt(l, 1, 4, 1) && FieldAt(l, 2, 5, 1) && FieldAt(l, 3, 6, 1)
    ensures FieldAt(l, 4, 7, 1) && FieldAt(l, 5, 8, 4) && FieldAt(l, 6, 12, 4)
    ensures FieldAt(l, 7, 16, 8) && FieldAt(l, 8, 24, 8)
  {
    FirstField(l);
    NextField(l, 0, 0, 4);
    NextField(l, 1, 4, 1);
    NextField(l, 2, 5, 1);
    NextField(l, 3, 6, 1);
    NextField(l, 4, 7, 1);
    NextField(l, 5, 8, 4);
    NextField(l, 6, 12, 4);
    NextField(l, 7, 16, 8);
  }

  /** The discard, device-number and zoned sections. */
  lemma OtherSectionFields()
    ensures FieldAt(DISCARD, 0, 0, 4) && FieldAt(DISCARD, 1, 4, 4) && FieldAt(DISCARD, 2, 8, 4)
    ensures FieldAt(DISCARD, 3, 12, 4) && FieldAt(DISCARD, 4, 16, 2) && FieldAt(DISCARD, 5, 18, 2)
    ensures FieldAt(DEVT, 0, 0, 4) && FieldAt(DEVT, 1, 4, 4) && FieldAt(DEVT, 2, 8, 4) && FieldAt(DEVT, 3, 12, 4)
    ensures FieldAt(ZONED, 0, 0, 4) && FieldAt(ZONED, 1, 4, 4) && FieldAt(ZONED, 2, 8, 4) && FieldAt(ZONED, 3, 12, 20)
  {
    FirstField(DISCARD);
    NextField(DISCARD, 0, 0, 4);
    NextField(DISCARD, 1, 4, 4);
    NextField(DISCARD, 2, 8, 4);
    NextField(DISCARD, 3, 12, 4);
    NextField(DISCARD, 4, 16, 2);
    FirstField(DEVT);
    NextField(DEVT, 0, 0, 4);
    NextField(DEVT, 1, 4, 4);
    NextField(DEVT, 2, 8, 4);
    FirstField(ZONED);
    NextField(ZONED, 0, 0, 4);
    NextField(ZONED, 1, 4, 4);
    NextField(ZONED, 2, 8, 4);
  }
}
