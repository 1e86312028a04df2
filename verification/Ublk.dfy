/** The records exchanged between a queue runner and the ublk driver, and the
    encoding of a command's kind, queue and tag in the completion's user data. */
module Ublk {
  import opened Words

  /** I/O buffer bytes per tag. */
  const BUF: nat := 64 * 1024

  /** Where tag's buffer starts. */
  function BufAt(tag: nat): nat {
    tag * 0x1_0000
  }

  datatype TagState = InFlightFetch | Owned | InFlightCommit

  datatype Kind = Fetch | Commit

  /** ublksrv_io_cmd. */
  datatype IoCmd = IoCmd(qid: nat, tag: nat, result: int, addr: nat)

  /** The parts of a submission entry that differ between commands. */
  datatype Sqe = Sqe(kind: Kind, userData: nat, cmd: IoCmd)

  datatype Cqe = Cqe(userData: nat, res: int)

  /** ublksrv_io_desc, without the address the runner never reads. */
  datatype Desc = Desc(opFlags: u32, nrSectors: u32, startSector: u64)

  const NO_DESC := Desc(0, 0, 0)

  const OP_READ := 0
  const OP_WRITE := 1
  const OP_FLUSH := 2
  const OP_DISCARD := 3

  datatype Config = Config(depth: nat, qid: nat, blockSize: nat, base: nat, sqEntries: nat, cqEntries: nat)

  /** What the runner is created with: the kernel rounds the ring sizes up from the depth. */
  predicate ValidConfig(c: Config) {
    && 1 <= c.depth <= 4096
    && c.qid < 0x1_0000
    && 1 <= c.blockSize < TWO32
    && c.depth <= c.sqEntries
    && c.depth <= c.cqEntries
  }

  function StateOf(k: Kind): TagState {
    if k.Fetch? then InFlightFetch else InFlightCommit
  }

  // ---- User data ----

  /** op << 63 | queue << 16 | tag, with op 1 for a commit. */
  function EncodeUserData(k: Kind, qid: nat, tag: nat): nat {
    Or(Or((if k.Commit? then 1 else 0) * TWO63, qid * 0x1_0000), tag)
  }

  function DecodeTag(userData: nat): nat {
    And(userData, 0xFFFF)
  }

  predicate DecodeCommit(userData: nat) {
    And(userData, TWO63) != 0
  }

  lemma UserDataValue(k: Kind, qid: nat, tag: nat)
    requires qid < 0x1_0000 && tag < 0x1_0000
    ensures EncodeUserData(k, qid, tag) == (if k.Commit? then TWO63 else 0) + qid * 0x1_0000 + tag
  {
    var b := if k.Commit? then 1 else 0;
    OrTopBit(b, qid * 0x1_0000);
    OrLow16(b * 0x8000_0000_0000 + qid, tag);
  }

  lemma WordDecodes(ud: nat, b: nat, qid: nat, tag: nat)
    requires b <= 1 && qid < 0x1_0000 && tag < 0x1_0000 && ud == b * TWO63 + qid * 0x1_0000 + tag
    ensures DecodeTag(ud) == tag
    ensures DecodeCommit(ud) <==> b == 1
  {
    assert ud % 0x1_0000 == tag by {
      DivModUnique(ud, 0x1_0000, b * 0x8000_0000_0000 + qid, tag);
    }
    MaskLow16(ud);
    MaskTopBit(ud);
  }

  /** The tag and the commit bit decoded from user data are those that were encoded. */
  lemma UserDataRoundTrip(k: Kind, qid: nat, tag: nat)
    requires qid < 0x1_0000 && tag < 0x1_0000
    ensures DecodeTag(EncodeUserData(k, qid, tag)) == tag
    ensures DecodeCommit(EncodeUserData(k, qid, tag)) <==> k.Commit?
  {
    UserDataValue(k, qid, tag);
    WordDecodes(EncodeUserData(k, qid, tag), if k.Commit? then 1 else 0, qid, tag);
  }

  // ---- Commands the runner builds ----

  function BufferAddr(c: Config, tag: nat): nat {
    c.base + BufAt(tag)
  }

  function MakeSqe(c: Config, k: Kind, tag: nat, result: int): Sqe {
    Sqe(k, EncodeUserData(k, c.qid, tag), IoCmd(c.qid, tag, result, BufferAddr(c, tag)))
  }

  /** Committed result: nr_sectors << 9 in 32-bit signed arithmetic, or -EIO. */
  function CommitResult(d: Desc, ioErr: bool): int {
    if ioErr then -5 else ToI32(d.nrSectors * 512)
  }

  /** Below 2^22 sectors the committed result is negative exactly for an error, and then -EIO. */
  lemma ResultTellsError(d: Desc, ioErr: bool)
    requires d.nrSectors < 0x40_0000
    ensures CommitResult(d, ioErr) == if ioErr then -5 else d.nrSectors * 512
    ensures CommitResult(d, ioErr) < 0 <==> ioErr
  {
  }

  predicate IsEmpty(d: Desc) {
    d.opFlags == 0 && d.nrSectors == 0
  }

  function GetOp(d: Desc): nat {
    And(d.opFlags, 0xff)
  }

  /** The operation is the low byte of the word, whatever the flags above it. */
  lemma OpIsLowByte(d: Desc, op: nat, flags: nat)
    requires op < 256 && d.opFlags == op + 256 * flags
    ensures GetOp(d) == op
  {
    assert Pow2(8) == 256;
    AndMask(d.opFlags, 8);
    DivModUnique(d.opFlags, 256, flags, op);
  }

  lemma OpOfWord(d: Desc)
    ensures GetOp(d) == d.opFlags % 256
  {
    OpIsLowByte(d, d.opFlags % 256, d.opFlags / 256);
  }

  function Offset(c: Config, d: Desc): int {
    ToI64(d.startSector * c.blockSize)
  }

  function Length(c: Config, d: Desc): nat {
    d.nrSectors * c.blockSize % TWO32
  }

  /** The request moves no bytes through its tag's buffer, or no more than that holds. */
  predicate FitsBuffer(c: Config, d: Desc) {
    GetOp(d) == OP_READ || GetOp(d) == OP_WRITE ==> Length(c, d) <= BUF
  }

  /** How many bytes the kernel may put at a tag's buffer address with a request: a whole buffer, or
      the length of a write when that is more. */
  function DataLimit(c: Config, d: Desc): nat {
    if GetOp(d) == OP_WRITE && Length(c, d) > BUF then Length(c, d) else BUF
  }
}
