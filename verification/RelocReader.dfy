/** RelocIterator: relocation records read back from higher to lower addresses, those of unwanted
    modes left out. The pc is followed through every record, the data only through those of the kinds
    that are wanted. */
module RelocReader {
  import opened Arithmetic
  import opened RelocFormat

  datatype Option<T> = None | Some(value: T)

  // ----- what the units mean to a reader -----------------------------------------------------------------------

  predicate WantsPositions(mask: set<Mode>) {
    POSITION in mask || STATEMENT_POSITION in mask
  }

  predicate WantsData(mask: set<Mode>) {
    WantsPositions(mask) || COMMENT in mask
  }

  function DeltaOf(u: Unit): int {
    match u
    case VarJump(j) => j * 64
    case FixedJump(d) => d
    case Tagged(d, _) => d
    case Small(d, _, _) => d
    case Jump(_, _) => 0
    case Plain(d, _) => d
  }

  /** The data after a unit: data deltas are skipped when no mode of their kind is wanted. */
  function DataAfter(u: Unit, data: int, mask: set<Mode>): int {
    match u
    case Small(_, x, _) => if WantsPositions(mask) then Wrapped(data + x) else data
    case Jump(x, _) => if WantsData(mask) then Wrapped(data + x) else data
    case _ => data
  }

  /** The mode a unit stops the reader with, if any. */
  function ModeAt(u: Unit, mask: set<Mode>): Option<Mode> {
    match u
    case VarJump(_) => None
    case FixedJump(_) => None
    case Tagged(_, m) => if m in mask then Some(m) else None
    case Small(_, _, m) => if m in mask then Some(m) else None
    case Jump(_, m) => if m in mask then Some(m) else None
    case Plain(_, m) => if m in mask then Some(m) else None
  }

  /** Where the reader stops next. */
  datatype Stop = Stop(rest: seq<Unit>, pc: int, data: int, mode: Option<Mode>)

  ghost function Seek(us: seq<Unit>, pc: int, data: int, mask: set<Mode>): (s: Stop)
    ensures s.mode.Some? ==> |s.rest| < |us|
    decreases |us|
  {
    if us == [] then Stop([], pc, data, None)
    else
      var pc', data', m := pc + DeltaOf(us[0]), DataAfter(us[0], data, mask), ModeAt(us[0], mask);
      if m.Some? then Stop(us[1..], pc', data', m) else Seek(us[1..], pc', data', mask)
  }

  // ----- reading numbers -------------------------------------------------------------------------------------------

  ghost function Chunk(i: nat): (p: nat) {
    if i == 0 then 1 else 128 * Chunk(i - 1)
  }

  ghost function Byte(i: nat): (p: nat)
    ensures p > 0
  {
    if i == 0 then 1 else 256 * Byte(i - 1)
  }

  lemma ShiftChunk(acc: int, j: nat, i: nat)
    ensures acc + j * Chunk(i) == acc + (j % 128) * Chunk(i) + (j / 128) * Chunk(i + 1)
  {
    var p, q, r := Chunk(i), j / 128, j % 128;
    assert j == 128 * q + r;
    assert j * p == (128 * q) * p + r * p by {
      MulDistrib(128 * q, r, p);
    }
    assert (128 * q) * p == q * (128 * p);
  }

  /** What the bytes of a number add up to. */
  ghost function Value(bytes: seq<int>): (v: int) {
    if bytes == [] then 0 else bytes[0] + 256 * Value(bytes[1..])
  }

  lemma LowByteFirst(x: int, p: int)
    requires p > 0
    ensures x % (256 * p) == x % 256 + 256 * (x / 256 % p)
  {
    var q := x / 256;
    DivModOf(q, p);
    assert 256 * q == 256 * (p * (q / p)) + 256 * (q % p);
    assert 256 * (p * (q / p)) == (256 * p) * (q / p);
    DivModUnique(x, 256 * p, q / p, x % 256 + 256 * (q % p));
  }

  lemma {:induction false} ValueOfBytes(x: int, n: nat)
    ensures Value(Bytes(x, n)) == x % Byte(n)
    decreases n
  {
    if n > 0 {
      ValueOfBytes(x / 256, n - 1);
      assert Bytes(x, n)[1..] == Bytes(x / 256, n - 1);
      LowByteFirst(x, Byte(n - 1));
    }
  }

  lemma ByteWord()
    ensures Byte(8) == WORD
  {
    assert Byte(4) == 0x1_0000_0000 by {
      assert Byte(2) == 0x1_0000;
    }
    assert Byte(6) == 0x1_0000_0000_0000;
  }

  lemma WrappedSame(a: int, b: int)
    requires b == a % WORD
    ensures Wrapped(b) == Wrapped(a)
  {
  }

  lemma WrappedInside(a: int, x: int)
    ensures Wrapped(a + Wrapped(x)) == Wrapped(a + x)
  {
  }

  // ----- the tags of a unit's first byte -------------------------------------------------------------------------

  ghost predicate Starts(u: Unit, b: int) {
    0 <= b < 256 && (
      match u
      case VarJump(_) => b % 4 == DEFAULT_TAG && b / 4 % 16 == PC_JUMP_TAG && b / 64 == VARIABLE_LENGTH_PC_JUMP_TOP_TAG
      case FixedJump(_) => b % 4 == DEFAULT_TAG && b / 4 % 16 == PC_JUMP_TAG && b / 64 == 0
      case Tagged(d, m) => b % 4 == (if m == EMBEDDED_OBJECT then EMBEDDED_OBJECT_TAG else CODE_TARGET_TAG)
        && b / 4 == d
      case Small(d, _, _) => b % 4 == POSITION_TAG && b / 4 == d
      case Jump(_, m) => b % 4 == DEFAULT_TAG && b / 4 % 16 == DATA_JUMP_TAG && b / 64 == TopTagOf(m)
      case Plain(_, m) => b % 4 == DEFAULT_TAG && b / 4 % 16 == m
    )
  }

  lemma FirstByte(u: Unit)
    requires GoodUnit(u)
    ensures |Encoded(u)| > 0 && Starts(u, Encoded(u)[0])
  {
    if u.VarJump? || u.FixedJump? {
      TagsOf(PC_JUMP_TAG, if u.VarJump? then VARIABLE_LENGTH_PC_JUMP_TOP_TAG else 0);
    } else if u.Jump? {
      TagsOf(DATA_JUMP_TAG, TopTagOf(u.mode));
    } else if u.Plain? {
      TagsOf(u.mode, 0);
    }
  }

  lemma TagsOf(extra: int, top: int)
    requires 0 <= extra < 16 && 0 <= top < 4
    ensures var b := ExtraTag(extra, top); 0 <= b < 256 && b % 4 == DEFAULT_TAG && b / 4 % 16 == extra && b / 64 == top
  {
  }

  /** The signed seven bits of a small data delta. */
  lemma SmallByte(x: int, m: Mode)
    requires -64 <= x < 64 && IsPosition(m)
    ensures var b := (x * 2 + TopTagOf(m)) % 256;
      0 <= b < 256 && (if b < 128 then b else b - 256) / 2 == x && ModeOfTopTag(b % 2) == m
  {
  }

  class RelocIterator {
    const buffer: array<int>
    const end: int
    const mask: set<Mode>
    var pos: int
    var pc: int
    var data: int
    var rmode: Mode
    var done: bool

    ghost predicate InBuffer()
      reads this`pos
    {
      0 <= end <= pos <= buffer.Length
    }

    /** The bytes still to read, in the order of reading. */
    ghost function Ahead(): (bytes: seq<int>)
      requires InBuffer()
      reads this`pos, buffer
    {
      var p := pos;
      seq(p - end, k requires 0 <= k < p - end reads buffer => buffer[p - 1 - k])
    }

    /** *--pos_. */
    method Advance() returns (b: int)
      requires InBuffer() && |Ahead()| > 0
      modifies this`pos
      ensures InBuffer() && pos == old(pos) - 1 && old(Ahead()) == [b] + Ahead()
    {
      pos := pos - 1;
      b := buffer[pos];
    }

    method ReadTaggedPC(b: int)
      modifies this`pc
      ensures pc == old(pc) + b / 4
    {
      pc := pc + b / 4;
    }

    method AdvanceReadPC(ghost d: int, ghost rest: seq<int>)
      requires InBuffer() && Ahead() == [d] + rest
      modifies this`pos, this`pc
      ensures InBuffer() && Ahead() == rest && pc == old(pc) + d
    {
      hide Ahead;
      var b := Advance();
      Unconsed(d, b, rest, Ahead());
      pc := pc + b;
    }

    method AdvanceReadVariableLengthPCJump(ghost j: nat, ghost rest: seq<int>)
      requires InBuffer() && Ahead() == Chunks(j) + rest && j < 0x1000_0000
      modifies this`pos, this`pc
      ensures InBuffer() && Ahead() == rest && pc == old(pc) + j * 64
    {
      hide Ahead, Chunks, Chunk;
      ChunksLength(j);
      var pcJump := 0;
      ghost var left := j;
      var shift := 1;
      var i := 0;
      FirstChunk();
      assert j * Chunk(0) == j;
      while i < 4
        invariant 0 <= i <= 4 && InBuffer() && shift == Chunk(i)
        invariant left >= 0 && Ahead() == Chunks(left) + rest && |Chunks(left)| <= 4 - i
        invariant pcJump + left * Chunk(i) == j && pc == old(pc)
        decreases 4 - i
      {
        ChunksOf(left);
        var part := Advance();
        HeadOfChunks(left, part, Ahead(), rest);
        ShiftChunk(pcJump, left, i);
        NextChunk(i);
        pcJump := pcJump + part / 2 * shift;
        if part % 2 == 1 {
          NothingLeft(left, i);
          assert pcJump == j;
          break;
        }
        left := left / 128;
        shift := shift * 128;
        i := i + 1;
      }
      ChunksOf(left);
      pc := pc + pcJump * 64;
    }

    method AdvanceReadData(ghost x: int, ghost rest: seq<int>)
      requires InBuffer() && Ahead() == Bytes(x, INTPTR_SIZE) + rest
      modifies this`pos, this`data
      ensures InBuffer() && Ahead() == rest && data == Wrapped(old(data) + x)
    {
      hide Ahead, Bytes, Byte, Value, Wrapped;
      var sum := 0;
      var shift := 1;
      ghost var left, all := x, Bytes(x, INTPTR_SIZE);
      FirstSum(all);
      for i := 0 to INTPTR_SIZE
        invariant InBuffer() && shift == Byte(i) && Ahead() == Bytes(left, INTPTR_SIZE - i) + rest
        invariant sum + Byte(i) * Value(Bytes(left, INTPTR_SIZE - i)) == Value(all) && data == old(data)
      {
        var b := Advance();
        HeadOfBytes(left, INTPTR_SIZE - i, b, Ahead(), rest);
        NextSum(sum, Byte(i), b, Bytes(left, INTPTR_SIZE - i), Bytes(left / 256, INTPTR_SIZE - i - 1));
        NextByte(i);
        sum := sum + b * shift;
        shift := shift * 256;
        left := left / 256;
      }
      NoBytes(left);
      ValueOfBytes(x, INTPTR_SIZE);
      ByteWord();
      WrappedSame(x, sum);
      WrappedInside(data, x);
      data := Wrapped(data + Wrapped(sum));
    }

    /** SetMode. */
    method SetMode(mode: Mode) returns (wanted: bool)
      modifies this`rmode
      ensures wanted == (mode in mask) && rmode == if wanted then mode else old(rmode)
    {
      wanted := mode in mask;
      if wanted {
        rmode := mode;
      }
    }

    /** One turn of next's loop: one unit is read. */
    method ReadUnit(ghost us: seq<Unit>) returns (found: bool)
      requires InBuffer() && us != [] && GoodUnits(us) && Ahead() == EncodedAll(us)
      modifies this`pos, this`pc, this`data, this`rmode
      ensures InBuffer() && GoodUnits(us[1..]) && Ahead() == EncodedAll(us[1..])
      ensures pc == old(pc) + DeltaOf(us[0]) && data == DataAfter(us[0], old(data), mask)
      ensures found == ModeAt(us[0], mask).Some? && (found ==> rmode == ModeAt(us[0], mask).value)
    {
      hide Ahead, EncodedAll, Bytes, Chunks, Wrapped;
      ghost var u, rest := us[0], EncodedAll(us[1..]);
      found := false;
      FirstUnit(us);
      FirstByte(u);
      var b := Advance();
      ghost var tail := Encoded(u)[1..];
      Unconsed(Encoded(u)[0], b, tail + rest, Ahead());
      var tag := b % 4;
      if tag == EMBEDDED_OBJECT_TAG {
        NoTail(tail, rest);
        ReadTaggedPC(b);
        found := SetMode(EMBEDDED_OBJECT);
      } else if tag == CODE_TARGET_TAG {
        NoTail(tail, rest);
        ReadTaggedPC(b);
        found := SetMode(CODE_TARGET);
      } else if tag == POSITION_TAG {
        ReadTaggedPC(b);
        SmallByte(u.data, u.mode);
        ghost var before := Ahead();
        var c := Advance();
        Unconsed(tail[0], c, rest, Ahead());
        if WantsPositions(mask) {
          data := Wrapped(data + (if c < 128 then c else c - 256) / 2);
          found := SetMode(ModeOfTopTag(c % 2));
        }
      } else {
        found := ReadExtra(u, b, rest);
      }
    }

    /** The units with an extra tag. */
    method ReadExtra(ghost u: Unit, b: int, ghost rest: seq<int>) returns (found: bool)
      requires InBuffer() && GoodUnit(u) && Starts(u, b) && b % 4 == DEFAULT_TAG
      requires |Encoded(u)| > 0 && Ahead() == Encoded(u)[1..] + rest
      modifies this`pos, this`pc, this`data, this`rmode
      ensures InBuffer() && Ahead() == rest
      ensures pc == old(pc) + DeltaOf(u) && data == DataAfter(u, old(data), mask)
      ensures found == ModeAt(u, mask).Some? && (found ==> rmode == ModeAt(u, mask).value)
    {
      hide Ahead, Bytes, Chunks, Wrapped;
      found := false;
      var extraTag := b / 4 % 16;
      if extraTag == PC_JUMP_TAG {
        if b / 64 == VARIABLE_LENGTH_PC_JUMP_TOP_TAG {
          AdvanceReadVariableLengthPCJump(u.jump, rest);
        } else {
          AdvanceReadPC(u.delta, rest);
        }
      } else if extraTag == DATA_JUMP_TAG {
        ghost var here := Ahead();
        if WantsData(mask) {
          AdvanceReadData(u.data, rest);
          found := SetMode(ModeOfTopTag(b / 64));
        } else {
          Skip(INTPTR_SIZE, Bytes(u.data, INTPTR_SIZE), rest);
        }
      } else {
        AdvanceReadPC(u.delta, rest);
        found := SetMode(extraTag);
      }
    }

    /** Advance(bytes). */
    method Skip(n: nat, ghost bytes: seq<int>, ghost rest: seq<int>)
      requires InBuffer() && Ahead() == bytes + rest && |bytes| == n
      modifies this`pos
      ensures InBuffer() && Ahead() == rest
    {
      ghost var before := Ahead();
      pos := pos - n;
      assert Ahead() == before[n..];
    }

    /** next: on to the next record of a wanted mode, or to the end. */
    method Next(ghost us: seq<Unit>) returns (ghost rest: seq<Unit>)
      requires InBuffer() && GoodUnits(us) && Ahead() == EncodedAll(us) && !done
      modifies this
      ensures InBuffer() && GoodUnits(rest) && Ahead() == EncodedAll(rest)
      ensures var s := Seek(us, old(pc), old(data), mask);
        rest == s.rest && pc == s.pc && data == s.data && done == s.mode.None? && (!done ==> rmode == s.mode.value)
    {
      hide EncodedAll;
      rest := us;
      NoneLeft(this, rest);
      while pos > end
        invariant InBuffer() && GoodUnits(rest) && Ahead() == EncodedAll(rest) && !done && (pos > end <==> rest != [])
        invariant Seek(us, old(pc), old(data), mask) == Seek(rest, pc, data, mask)
        decreases |rest|
      {
        var found := ReadUnit(rest);
        rest := rest[1..];
        if found {
          return;
        }
        NoneLeft(this, rest);
      }
      done := true;
    }

    constructor (buffer: array<int>, start: int, end: int, pc: int, mask: set<Mode>, ghost us: seq<Unit>)
      requires 0 <= end <= start <= buffer.Length && GoodUnits(us)
      requires seq(start - end, k requires 0 <= k < start - end reads buffer => buffer[start - 1 - k]) == EncodedAll(us)
      ensures this.buffer == buffer && this.end == end && this.mask == mask && InBuffer()
      ensures mask == {} ==> done
      ensures mask != {} ==> At(Seek(us, pc, 0, mask))
    {
      this.buffer, this.end, this.mask, this.pc, this.data, this.rmode, this.done := buffer, end, mask, pc, 0, 0, false;
      this.pos := if mask == {} then end else start;
      new;
      if mask == {} {
        assert Ahead() == EncodedAll([]);
        var rest := Next([]);
      } else {
        var rest := Next(us);
      }
    }

    /** The reader has stopped at s. */
    ghost predicate At(s: Stop)
      reads this, buffer
    {
      && InBuffer() && GoodUnits(s.rest) && Ahead() == EncodedAll(s.rest)
      && pc == s.pc && data == s.data && done == s.mode.None? && (!done ==> rmode == s.mode.value)
    }
  }

  lemma NoneLeft(it: RelocIterator, us: seq<Unit>)
    requires it.InBuffer() && GoodUnits(us) && it.Ahead() == EncodedAll(us)
    ensures it.pos > it.end <==> us != []
  {
    if us != [] {
      FirstUnit(us);
    }
  }

  lemma FirstUnit(us: seq<Unit>)
    requires us != [] && GoodUnits(us)
    ensures GoodUnit(us[0]) && GoodUnits(us[1..]) && EncodedAll(us) == Encoded(us[0]) + EncodedAll(us[1..])
    ensures |Encoded(us[0])| > 0 && EncodedAll(us) == [Encoded(us[0])[0]] + (Encoded(us[0])[1..] + EncodedAll(us[1..]))
  {
    GoodHead(us);
    FirstByte(us[0]);
    hide Encoded, Starts, GoodUnit;
    Uncons(Encoded(us[0]), EncodedAll(us[1..]));
  }

  lemma GoodHead(us: seq<Unit>)
    requires us != [] && GoodUnits(us)
    ensures GoodUnit(us[0]) && GoodUnits(us[1..])
  {
    hide GoodUnit;
  }

  lemma Uncons(e: seq<int>, t: seq<int>)
    requires |e| > 0
    ensures e + t == [e[0]] + (e[1..] + t)
  {
  }

  lemma NoTail(tail: seq<int>, rest: seq<int>)
    requires |tail| == 0
    ensures tail + rest == rest
  {
  }

  lemma NothingLeft(j: nat, i: nat)
    requires j < 128
    ensures (j / 128) * Chunk(i + 1) == 0
  {
  }

  lemma FirstSum(all: seq<int>)
    ensures Byte(0) == 1 && 0 + Byte(0) * Value(all) == Value(all)
  {
  }

  lemma NextByte(i: nat)
    ensures Byte(i + 1) == Byte(i) * 256
  {
  }

  lemma NoBytes(x: int)
    ensures Bytes(x, 0) == [] && Value([]) == 0
  {
  }

  lemma NextSum(sum: int, p: int, b: int, all: seq<int>, tail: seq<int>)
    requires all == [b] + tail
    ensures sum + p * Value(all) == sum + b * p + (p * 256) * Value(tail)
  {
    assert all[1..] == tail && Value(all) == b + 256 * Value(tail);
    Factor(p, b, Value(tail));
  }

  lemma Factor(p: int, b: int, v: int)
    ensures p * (b + 256 * v) == b * p + (p * 256) * v
  {
    assert p * (256 * v) == (p * 256) * v;
    assert p * (b + 256 * v) == p * b + p * (256 * v);
  }

  /** Reading one byte of a number. */
  lemma HeadOfBytes(x: int, n: nat, b: int, ahead: seq<int>, rest: seq<int>)
    requires n > 0 && Bytes(x, n) + rest == [b] + ahead
    ensures Bytes(x, n) == [b] + Bytes(x / 256, n - 1) && ahead == Bytes(x / 256, n - 1) + rest
  {
    assert Bytes(x, n) + rest == [x % 256] + (Bytes(x / 256, n - 1) + rest);
    Unconsed(x % 256, b, Bytes(x / 256, n - 1) + rest, ahead);
  }

  lemma Unconsed(a: int, b: int, s: seq<int>, t: seq<int>)
    requires [a] + s == [b] + t
    ensures a == b && s == t
  {
    assert ([a] + s)[0] == ([b] + t)[0];
    assert s == ([a] + s)[1..] && t == ([b] + t)[1..];
  }

  lemma FirstChunk()
    ensures Chunk(0) == 1
  {
  }

  lemma NextChunk(i: nat)
    ensures Chunk(i + 1) == 128 * Chunk(i)
  {
  }

  lemma ChunksOf(j: nat)
    ensures |Chunks(j)| > 0
  {
  }

  /** Reading one chunk. */
  lemma HeadOfChunks(j: nat, part: int, ahead: seq<int>, rest: seq<int>)
    requires Chunks(j) + rest == [part] + ahead
    ensures part / 2 == j % 128 && (part % 2 == 1 <==> j < 128)
    ensures j < 128 ==> ahead == rest && j / 128 == 0
    ensures j >= 128 ==> ahead == Chunks(j / 128) + rest && |Chunks(j)| == 1 + |Chunks(j / 128)|
  {
    var tail := if j < 128 then [] else Chunks(j / 128);
    assert Chunks(j) + rest == [Chunks(j)[0]] + (tail + rest);
    Unconsed(Chunks(j)[0], part, tail + rest, ahead);
  }

  // ----- a whole iteration ------------------------------------------------------------------------------------------

  /** The records an iteration goes through. */
  ghost function Reads(us: seq<Unit>, pc: int, data: int, mask: set<Mode>): (rs: seq<Record>)
    decreases |us|
  {
    var s := Seek(us, pc, data, mask);
    if s.mode.None? then [] else [Record(s.pc, s.mode.value, s.data)] + Reads(s.rest, s.pc, s.data, mask)
  }

  /** for (RelocIterator it(code, mask); !it.done(); it.next()). */
  method Iterate(buffer: array<int>, start: int, end: int, pc: int, mask: set<Mode>, ghost us: seq<Unit>)
    returns (rs: seq<Record>)
    requires 0 <= end <= start <= buffer.Length && GoodUnits(us)
    requires seq(start - end, k requires 0 <= k < start - end reads buffer => buffer[start - 1 - k]) == EncodedAll(us)
    ensures rs == Reads(us, pc, 0, mask)
  {
    hide EncodedAll, Seek;
    var it := new RelocIterator(buffer, start, end, pc, mask, us);
    rs := [];
    if it.done {
      NothingWanted(us, pc, 0, mask);
      return;
    }
    ghost var s := Seek(us, pc, 0, mask);
    while !it.done
      invariant it.buffer == buffer && it.end == end && it.mask == mask && it.At(s)
      invariant s.mode.None? ==> rs == Reads(us, pc, 0, mask)
      invariant s.mode.Some? ==> rs + [Record(s.pc, s.mode.value, s.data)] + Reads(s.rest, s.pc, s.data, mask) == Reads(us, pc, 0, mask)
      decreases if s.mode.None? then 0 else 1 + |s.rest|
    {
      rs := rs + [Record(it.pc, it.rmode, it.data)];
      ghost var was := s;
      s := Seek(s.rest, s.pc, s.data, mask);
      SeekShrinks(was.rest, was.pc, was.data, mask);
      ghost var rest := it.Next(was.rest);
    }
  }

  lemma SeekShrinks(us: seq<Unit>, pc: int, data: int, mask: set<Mode>)
    ensures var s := Seek(us, pc, data, mask); s.mode.Some? ==> |s.rest| < |us|
  {
  }

  lemma {:induction false} NothingWanted(us: seq<Unit>, pc: int, data: int, mask: set<Mode>)
    requires mask == {} || Seek(us, pc, data, mask).mode.None?
    ensures Reads(us, pc, data, mask) == []
    decreases |us|
  {
    if us != [] && mask == {} {
      NothingWanted(us[1..], pc + DeltaOf(us[0]), DataAfter(us[0], data, mask), mask);
    }
  }
}
