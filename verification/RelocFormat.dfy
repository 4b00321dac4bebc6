/** The byte format of relocation information. */
module RelocFormat {
  // It is a list of units of a few bytes each, in the order in which they are written and read. A record is one unit
  // with its mode, behind units that only move the pc.

  import opened Arithmetic

  // ----- modes --------------------------------------------------------------------------------------------------

  const CODE_TARGET: nat := 3
  const EMBEDDED_OBJECT: nat := 4
  const COMMENT: nat := 7
  const POSITION: nat := 8
  const STATEMENT_POSITION: nat := 9
  const NUMBER_OF_MODES: nat := 13

  /** Relocation modes, the numbers below NUMBER_OF_MODES. */
  type Mode = m: nat | m < NUMBER_OF_MODES witness 0

  predicate IsPosition(m: Mode) {
    m == POSITION || m == STATEMENT_POSITION
  }

  /** The modes with data. */
  predicate IsDebug(m: Mode) {
    IsPosition(m) || m == COMMENT
  }

  datatype Record = Record(pc: int, mode: Mode, data: int)

  // ----- machine words ----------------------------------------------------------------------------------------

  const INTPTR_SIZE: nat := 8
  const WORD: int := 0x1_0000_0000_0000_0000

  predicate InWord(x: int) {
    -0x8000_0000_0000_0000 <= x < 0x8000_0000_0000_0000
  }

  /** x as an intptr_t. */
  function Wrapped(x: int): (r: int)
    ensures InWord(r) && (r - x) % WORD == 0
  {
    (x + 0x8000_0000_0000_0000) % WORD - 0x8000_0000_0000_0000
  }

  lemma WrappedTwice(a: int, b: int)
    requires InWord(b)
    ensures Wrapped(a + Wrapped(b - a)) == b
  {
  }

  // ----- tags ------------------------------------------------------------------------------------------------------

  const EMBEDDED_OBJECT_TAG := 0
  const CODE_TARGET_TAG := 1
  const POSITION_TAG := 2
  const DEFAULT_TAG := 3
  const PC_JUMP_TAG := 15
  const DATA_JUMP_TAG := 14
  const VARIABLE_LENGTH_PC_JUMP_TOP_TAG := 1
  const STATEMENT_POSITION_TAG := 1
  const COMMENT_TAG := 2

  function ModeOfTopTag(tag: int): (m: Mode) {
    if tag == STATEMENT_POSITION_TAG then STATEMENT_POSITION else if tag == 0 then POSITION else COMMENT
  }

  function TopTagOf(m: Mode): (tag: int) {
    if m == STATEMENT_POSITION then STATEMENT_POSITION_TAG else if m == POSITION then 0 else COMMENT_TAG
  }

  /** What the reader makes one turn of its loop for. */
  datatype Unit =
    | VarJump(jump: int)                    // pc-jump of variable length
    | FixedJump(delta: int)                 // pc-jump
    | Tagged(delta: int, mode: Mode)        // embedded object or code target
    | Small(delta: int, data: int, mode: Mode)  // position with a small data delta
    | Jump(data: int, mode: Mode)           // data-jump
    | Plain(delta: int, mode: Mode)         // any other mode

  ghost predicate GoodUnit(u: Unit) {
    match u
    case VarJump(j) => 0 < j < 0x400_0000
    case FixedJump(d) => 0 <= d < 64
    case Tagged(d, m) => 0 <= d < 64 && (m == EMBEDDED_OBJECT || m == CODE_TARGET)
    case Small(d, x, m) => 0 <= d < 64 && -64 <= x < 64 && IsPosition(m)
    case Jump(x, m) => InWord(x) && IsDebug(m)
    case Plain(d, m) => 0 <= d < 64 && !IsDebug(m) && m != EMBEDDED_OBJECT && m != CODE_TARGET
  }

  /** A pc jump in chunks of seven bits, the lowest first, the last one marked. */
  function Chunks(j: nat): (bytes: seq<int>) {
    if j < 128 then [2 * j + 1] else [2 * (j % 128)] + Chunks(j / 128)
  }

  /** The n lowest bytes of x, the lowest first. */
  function Bytes(x: int, n: nat): (bytes: seq<int>)
    ensures |bytes| == n
    decreases n
  {
    if n == 0 then [] else [x % 256] + Bytes(x / 256, n - 1)
  }

  function ExtraTag(extra: int, top: int): int {
    top * 64 + extra * 4 + DEFAULT_TAG
  }

  function Encoded(u: Unit): (bytes: seq<int>)
    requires u.VarJump? ==> u.jump >= 0
  {
    match u
    case VarJump(j) => [ExtraTag(PC_JUMP_TAG, VARIABLE_LENGTH_PC_JUMP_TOP_TAG)] + Chunks(j)
    case FixedJump(d) => [ExtraTag(PC_JUMP_TAG, 0), d]
    case Tagged(d, m) => [d * 4 + if m == EMBEDDED_OBJECT then EMBEDDED_OBJECT_TAG else CODE_TARGET_TAG]
    case Small(d, x, m) => [d * 4 + POSITION_TAG, (x * 2 + TopTagOf(m)) % 256]
    case Jump(x, m) => [ExtraTag(DATA_JUMP_TAG, TopTagOf(m))] + Bytes(x, INTPTR_SIZE)
    case Plain(d, m) => [ExtraTag(m, 0), d]
  }

  ghost predicate GoodUnits(us: seq<Unit>) {
    forall k :: 0 <= k < |us| ==> GoodUnit(us[k])
  }

  ghost function EncodedAll(us: seq<Unit>): (bytes: seq<int>)
    requires GoodUnits(us)
  {
    if us == [] then [] else Encoded(us[0]) + EncodedAll(us[1..])
  }

  // ----- the units of a record ------------------------------------------------------------------------------------

  ghost function JumpUnits(delta: int): (us: seq<Unit>)
    requires delta >= 0
  {
    if delta < 64 then [] else [VarJump(delta / 64)]
  }

  /** The units of a record behind its jump. */
  ghost function ModeUnits(low: int, mode: Mode, data: int): (us: seq<Unit>) {
    if mode == EMBEDDED_OBJECT || mode == CODE_TARGET then [Tagged(low, mode)]
    else if IsPosition(mode) && -64 <= data < 64 then [Small(low, data, mode)]
    else if IsDebug(mode) then [FixedJump(low), Jump(data, mode)]
    else [Plain(low, mode)]
  }

  function LowPart(delta: int): int {
    if delta < 64 then delta else delta % 64
  }

  /** The units that a record is written as, given how far it is from the last one. */
  ghost function UnitsOf(delta: int, mode: Mode, data: int): (us: seq<Unit>)
    requires delta >= 0
  {
    JumpUnits(delta) + ModeUnits(LowPart(delta), mode, data)
  }

  lemma GoodRecord(delta: int, mode: Mode, data: int)
    requires 0 <= delta < 0x1_0000_0000 && InWord(data)
    ensures GoodUnits(UnitsOf(delta, mode, data))
  {
  }

  lemma {:induction false} ChunksLength(j: nat)
    ensures j < 0x1000_0000 ==> |Chunks(j)| == ChunkCount(j)
  {
    if j >= 128 && j < 0x1000_0000 {
      ChunksLength(j / 128);
    }
  }

  /** How many chunks of seven bits a jump takes. */
  function ChunkCount(j: nat): (n: nat) {
    if j < 0x80 then 1 else if j < 0x4000 then 2 else if j < 0x20_0000 then 3 else 4
  }

  /** How many bytes a record takes behind its jump: one for a target or an object, two for a
      position near the last one and for a mode without data, and else a jump of the pc and a word. */
  function ShortBytes(mode: Mode, data: int): (n: nat) {
    if mode == EMBEDDED_OBJECT || mode == CODE_TARGET then 1
    else if mode == COMMENT then 3 + INTPTR_SIZE
    else if mode == POSITION || mode == STATEMENT_POSITION then (if -64 <= data < 64 then 2 else 3 + INTPTR_SIZE)
    else 2
  }

  /** How many bytes a record takes; never more than 8 + kIntptrSize. */
  lemma RecordSize(delta: int, mode: Mode, data: int)
    requires 0 <= delta < 0x1_0000_0000 && InWord(data)
    ensures GoodUnits(UnitsOf(delta, mode, data))
    ensures |EncodedAll(UnitsOf(delta, mode, data))| ==
      ShortBytes(mode, data) + if delta < 64 then 0 else 1 + ChunkCount(delta / 64)
    ensures 1 <= |EncodedAll(UnitsOf(delta, mode, data))| <= 8 + INTPTR_SIZE
  {
    GoodRecord(delta, mode, data);
    var us := UnitsOf(delta, mode, data);
    if delta >= 64 {
      ChunksLength(delta / 64);
      assert us[1..] == UnitsOf(delta % 64, mode, data);
      ShortSize(delta % 64, mode, data);
    } else {
      ShortSize(delta, mode, data);
    }
  }

  lemma ShortSize(delta: int, mode: Mode, data: int)
    requires 0 <= delta < 64 && InWord(data)
    ensures GoodUnits(UnitsOf(delta, mode, data))
    ensures |EncodedAll(UnitsOf(delta, mode, data))| == ShortBytes(mode, data)
  {
    var us := UnitsOf(delta, mode, data);
    assert EncodedAll(us[1..]) == if |us| == 1 then [] else Encoded(us[1]) + EncodedAll(us[2..]);
  }

  /** The bytes of the units: two, four and two bits of tags, or a delta of six bits over a tag. */
  lemma UnitFormat(d: int, x: int, m: Mode, j: nat)
    requires 0 <= d < 64 && -64 <= x < 64
    ensures Encoded(Tagged(d, EMBEDDED_OBJECT)) == [4 * d] && Encoded(Tagged(d, CODE_TARGET)) == [4 * d + 1]
    ensures Encoded(Small(d, x, POSITION)) == [4 * d + 2, 2 * (if x < 0 then x + 128 else x)]
    ensures Encoded(Small(d, x, STATEMENT_POSITION)) == [4 * d + 2, 2 * (if x < 0 then x + 128 else x) + 1]
    ensures Encoded(Plain(d, m)) == [4 * m + 3, d] && Encoded(FixedJump(d)) == [0x3F, d]
    ensures Encoded(VarJump(j))[0] == 0x7F && Encoded(Jump(x, COMMENT))[0] == 0xBB
    ensures Encoded(Jump(x, POSITION))[0] == 0x3B && Encoded(Jump(x, STATEMENT_POSITION))[0] == 0x7B
  {
  }

  // ----- bytes -----------------------------------------------------------------------------------------------------

  ghost predicate AreBytes(bytes: seq<int>) {
    forall i :: 0 <= i < |bytes| ==> 0 <= bytes[i] < 256
  }

  lemma {:induction false} ChunksAreBytes(j: nat)
    ensures AreBytes(Chunks(j))
  {
    if j >= 128 {
      ChunksAreBytes(j / 128);
    }
  }

  lemma {:induction false} BytesAreBytes(x: int, n: nat)
    ensures AreBytes(Bytes(x, n))
    decreases n
  {
    if n > 0 {
      BytesAreBytes(x / 256, n - 1);
    }
  }

  /** Everything that is written fits into a byte. */
  lemma {:induction false} EncodedAreBytes(us: seq<Unit>)
    requires GoodUnits(us)
    ensures AreBytes(EncodedAll(us))
    decreases |us|
  {
    if us != [] {
      UnitAreBytes(us[0]);
      EncodedAreBytes(us[1..]);
    }
  }

  lemma UnitAreBytes(u: Unit)
    requires GoodUnit(u)
    ensures AreBytes(Encoded(u))
  {
    if u.VarJump? {
      ChunksAreBytes(u.jump);
    } else if u.Jump? {
      BytesAreBytes(u.data, INTPTR_SIZE);
    }
  }

  lemma {:induction false} EncodedJoin(us: seq<Unit>, vs: seq<Unit>)
    requires GoodUnits(us) && GoodUnits(vs)
    ensures GoodUnits(us + vs) && EncodedAll(us + vs) == EncodedAll(us) + EncodedAll(vs)
    decreases |us|
  {
    hide Encoded, GoodUnit;
    if us == [] {
      assert us + vs == vs;
    } else {
      EncodedJoin(us[1..], vs);
      assert (us + vs)[1..] == us[1..] + vs;
    }
  }
}
