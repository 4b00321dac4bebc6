/** RelocInfoWriter: relocation records written towards lower addresses. A record takes one byte with
    its tag and a small pc delta where that is enough, and otherwise longer forms with the delta or the
    data spread over more bytes. */
module RelocWriter {
  import opened RelocFormat

  class RelocInfoWriter {
    const buffer: array<int>
    var pos: int
    var lastPc: int
    var lastData: int

    ghost predicate Valid()
      reads this
    {
      0 <= pos <= buffer.Length && InWord(lastData)
    }

    /** The bytes so far in the order of writing. */
    ghost function Written(): (bytes: seq<int>)
      requires 0 <= pos <= buffer.Length
      reads this`pos, buffer
    {
      var n, p := buffer.Length, pos;
      seq(n - p, k requires 0 <= k < n - p reads buffer => buffer[n - 1 - k])
    }

    constructor (buffer: array<int>, pc: int)
      ensures Valid() && this.buffer == buffer && pos == buffer.Length && lastPc == pc && lastData == 0
      ensures Written() == []
    {
      this.buffer, pos, lastPc, lastData := buffer, buffer.Length, pc, 0;
    }

    /** *--pos_ = b. */
    method Put(b: int)
      requires 0 < pos <= buffer.Length
      modifies this`pos, buffer
      ensures pos == old(pos) - 1 && Written() == old(Written()) + [b]
    {
      pos := pos - 1;
      buffer[pos] := b;
    }

    method WriteExtraTag(extraTag: int, topTag: int)
      requires 0 < pos <= buffer.Length
      modifies this`pos, buffer
      ensures pos == old(pos) - 1 && Written() == old(Written()) + [ExtraTag(extraTag, topTag)]
    {
      Put(topTag * 64 + extraTag * 4 + DEFAULT_TAG);
    }

    /** Returns the part of the delta that is left to write. */
    method WriteVariableLengthPCJump(pcDelta: int) returns (low: int)
      requires 0 <= pcDelta < 0x1_0000_0000 && 5 <= pos <= buffer.Length
      modifies this`pos, buffer
      ensures low == if pcDelta < 64 then pcDelta else pcDelta % 64
      ensures old(pos) - 5 <= pos <= old(pos) && GoodUnits(JumpUnits(pcDelta))
      ensures Written() == old(Written()) + EncodedAll(JumpUnits(pcDelta))
    {
      hide Written, Chunks;
      if pcDelta < 64 {
        assert EncodedAll([]) == [];
        return pcDelta;
      }
      WriteExtraTag(PC_JUMP_TAG, VARIABLE_LENGTH_PC_JUMP_TOP_TAG);
      var pcJump := pcDelta / 64;
      ghost var start, tagged := pcJump, Written();
      ChunksLength(pcJump);
      WriteChunks(pcJump);
      OneJump(start);
      low := pcDelta % 64;
    }

    /** The loop of WriteVariableLengthPCJump and the mark on the last chunk. */
    method WriteChunks(pcJump0: nat)
      requires 0 < pcJump0 && |Chunks(pcJump0)| <= pos <= buffer.Length
      modifies this`pos, buffer
      ensures pos == old(pos) - |Chunks(pcJump0)| && Written() == old(Written()) + Chunks(pcJump0)
    {
      hide Written, Chunks;
      var pcJump := pcJump0;
      ghost var all, done := Chunks(pcJump0), [];
      while pcJump > 0
        invariant pcJump >= 0 && pos == old(pos) - |done| && |done| <= |all| && old(pos) <= buffer.Length
        invariant Written() == old(Written()) + done
        invariant if pcJump > 0 then done + Chunks(pcJump) == all else Unmarked(done, all)
        decreases pcJump
      {
        var b := pcJump % 128;
        LastChunk(pcJump, done, all);
        Put(b * 2);
        done := done + [b * 2];
        pcJump := pcJump / 128;
      }
      ghost var was := Written();
      MarkLast();
      assert was[..|was| - 1] == old(Written()) + done[..|done| - 1];
      assert done[..|done| - 1] + [done[|done| - 1] + 1] == all;
    }

    /** *pos_ | kLastChunkTag. */
    method MarkLast()
      requires 0 <= pos < buffer.Length
      modifies buffer
      ensures |old(Written())| > 0
      ensures Written() == old(Written())[..|old(Written())| - 1] + [old(Written())[|old(Written())| - 1] / 2 * 2 + 1]
    {
      buffer[pos] := buffer[pos] / 2 * 2 + 1;
    }

    method WriteTaggedPC(pcDelta: int, tag: int)
      requires 0 <= pcDelta < 0x1_0000_0000 && 6 <= pos <= buffer.Length
      modifies this`pos, buffer
      ensures old(pos) - 6 <= pos < old(pos) && GoodUnits(JumpUnits(pcDelta))
      ensures Written() == old(Written()) + (EncodedAll(JumpUnits(pcDelta)) + [LowPart(pcDelta) * 4 + tag])
    {
      hide Written, EncodedAll;
      var low := WriteVariableLengthPCJump(pcDelta);
      Put(low * 4 + tag);
    }

    method WriteTaggedData(dataDelta: int, tag: int)
      requires 0 < pos <= buffer.Length
      modifies this`pos, buffer
      ensures pos == old(pos) - 1 && Written() == old(Written()) + [(dataDelta * 2 + tag) % 256]
    {
      Put((dataDelta * 2 + tag) % 256);
    }

    method WriteExtraTaggedPC(pcDelta: int, extraTag: int)
      requires 0 <= pcDelta < 0x1_0000_0000 && 7 <= pos <= buffer.Length
      modifies this`pos, buffer
      ensures old(pos) - 7 <= pos < old(pos) && GoodUnits(JumpUnits(pcDelta))
      ensures Written() == old(Written()) + (EncodedAll(JumpUnits(pcDelta)) + [ExtraTag(extraTag, 0), LowPart(pcDelta)])
    {
      hide Written, EncodedAll;
      var low := WriteVariableLengthPCJump(pcDelta);
      WriteExtraTag(extraTag, 0);
      Put(low);
    }

    method WriteExtraTaggedData(dataDelta0: int, topTag: int)
      requires 1 + INTPTR_SIZE <= pos <= buffer.Length
      modifies this`pos, buffer
      ensures pos == old(pos) - 1 - INTPTR_SIZE
      ensures Written() == old(Written()) + ([ExtraTag(DATA_JUMP_TAG, topTag)] + Bytes(dataDelta0, INTPTR_SIZE))
    {
      hide Written, Bytes;
      var dataDelta := dataDelta0;
      WriteExtraTag(DATA_JUMP_TAG, topTag);
      ghost var was, done, all := Written(), [], Bytes(dataDelta, INTPTR_SIZE);
      for i := 0 to INTPTR_SIZE
        invariant pos == old(pos) - 1 - i && |done| == i && Written() == was + done && old(pos) <= buffer.Length
        invariant done + Bytes(dataDelta, INTPTR_SIZE - i) == all
      {
        NextByte(dataDelta, INTPTR_SIZE - i);
        Put(dataDelta % 256);
        done := done + [dataDelta % 256];
        dataDelta := dataDelta / 256;
      }
      assert done == all;
    }

    /** Writes a record; the source asks that its pc is not below the last one's. */
    method Write(rinfo: Record)
      requires Valid() && 8 + INTPTR_SIZE <= pos && lastPc <= rinfo.pc && InWord(rinfo.data)
      modifies this, buffer
      ensures Valid() && lastPc == rinfo.pc && old(pos) - 8 - INTPTR_SIZE <= pos < old(pos)
      ensures lastData == if IsDebug(rinfo.mode) then rinfo.data else old(lastData)
      ensures var delta := (rinfo.pc - old(lastPc)) % 0x1_0000_0000;
        var us := UnitsOf(delta, rinfo.mode, Wrapped(rinfo.data - old(lastData)));
        GoodUnits(us) && Written() == old(Written()) + EncodedAll(us)
    {
      hide Written, EncodedAll, JumpUnits, UnitsOf, ExtraTag, Encoded, Wrapped;
      var pcDelta := (rinfo.pc - lastPc) % 0x1_0000_0000;
      var mode := rinfo.mode;
      var dataDelta := Wrapped(rinfo.data - lastData);
      RecordEncoded(pcDelta, mode, dataDelta);
      ghost var was, jump := Written(), EncodedAll(JumpUnits(pcDelta));
      if mode == EMBEDDED_OBJECT {
        WriteTaggedPC(pcDelta, EMBEDDED_OBJECT_TAG);
      } else if mode == CODE_TARGET {
        WriteTaggedPC(pcDelta, CODE_TARGET_TAG);
      } else if IsPosition(mode) {
        var posTypeTag := if mode == POSITION then 0 else STATEMENT_POSITION_TAG;
        if -64 <= dataDelta < 64 {
          WriteTaggedPC(pcDelta, POSITION_TAG);
          WriteTaggedData(dataDelta, posTypeTag);
          Regroup(was, jump, [LowPart(pcDelta) * 4 + POSITION_TAG], [(dataDelta * 2 + posTypeTag) % 256]);
          lastData := rinfo.data;
        } else {
          WriteExtraTaggedPC(pcDelta, PC_JUMP_TAG);
          WriteExtraTaggedData(dataDelta, posTypeTag);
          Regroup(was, jump, [ExtraTag(PC_JUMP_TAG, 0), LowPart(pcDelta)],
            [ExtraTag(DATA_JUMP_TAG, posTypeTag)] + Bytes(dataDelta, INTPTR_SIZE));
          lastData := rinfo.data;
        }
      } else if mode == COMMENT {
        WriteExtraTaggedPC(pcDelta, PC_JUMP_TAG);
        WriteExtraTaggedData(dataDelta, COMMENT_TAG);
        Regroup(was, jump, [ExtraTag(PC_JUMP_TAG, 0), LowPart(pcDelta)],
          [ExtraTag(DATA_JUMP_TAG, COMMENT_TAG)] + Bytes(dataDelta, INTPTR_SIZE));
        lastData := rinfo.data;
      } else {
        WriteExtraTaggedPC(pcDelta, mode);
      }
      lastPc := rinfo.pc;
    }
  }

  /** The bytes of a record, written out. */
  ghost function RecordBytes(delta: int, mode: Mode, data: int): (bytes: seq<int>) {
    if mode == EMBEDDED_OBJECT then [LowPart(delta) * 4 + EMBEDDED_OBJECT_TAG]
    else if mode == CODE_TARGET then [LowPart(delta) * 4 + CODE_TARGET_TAG]
    else if IsPosition(mode) && -64 <= data < 64 then
      [LowPart(delta) * 4 + POSITION_TAG] + [(data * 2 + TopTagOf(mode)) % 256]
    else if IsDebug(mode) then
      [ExtraTag(PC_JUMP_TAG, 0), LowPart(delta)] +
      ([ExtraTag(DATA_JUMP_TAG, TopTagOf(mode))] + Bytes(data, INTPTR_SIZE))
    else [ExtraTag(mode, 0), LowPart(delta)]
  }

  lemma RecordEncoded(delta: int, mode: Mode, data: int)
    requires 0 <= delta < 0x1_0000_0000 && InWord(data)
    ensures GoodUnits(UnitsOf(delta, mode, data)) && GoodUnits(JumpUnits(delta))
    ensures EncodedAll(UnitsOf(delta, mode, data)) == EncodedAll(JumpUnits(delta)) + RecordBytes(delta, mode, data)
  {
    hide EncodedAll, JumpUnits, ExtraTag, Bytes;
    GoodParts(delta, mode, data);
    EncodedJoin(JumpUnits(delta), ModeUnits(LowPart(delta), mode, data));
    var rest := ModeUnits(LowPart(delta), mode, data);
    if |rest| == 1 {
      LastUnit(rest);
    } else {
      TwoUnits(rest);
    }
  }

  lemma Regroup(a: seq<int>, b: seq<int>, c: seq<int>, d: seq<int>)
    ensures a + (b + c) + d == a + (b + (c + d))
  {
  }

  lemma GoodParts(delta: int, mode: Mode, data: int)
    requires 0 <= delta < 0x1_0000_0000 && InWord(data)
    ensures GoodUnits(JumpUnits(delta)) && GoodUnits(ModeUnits(LowPart(delta), mode, data))
  {
  }

  lemma TwoUnits(us: seq<Unit>)
    requires |us| == 2 && GoodUnits(us)
    ensures EncodedAll(us) == Encoded(us[0]) + Encoded(us[1])
  {
    LastUnit(us[1..]);
  }

  lemma NextByte(x: int, n: nat)
    requires n > 0
    ensures Bytes(x, n) == [x % 256] + Bytes(x / 256, n - 1)
  {
  }

  lemma LastUnit(us: seq<Unit>)
    requires |us| == 1 && GoodUnits(us)
    ensures EncodedAll(us) == Encoded(us[0])
  {
    assert EncodedAll(us[1..]) == [];
  }

  /** All but the tag of the last chunk. */
  ghost predicate Unmarked(done: seq<int>, all: seq<int>) {
    && |done| == |all| > 0 && done[..|all| - 1] == all[..|all| - 1]
    && done[|all| - 1] + 1 == all[|all| - 1] && done[|all| - 1] % 2 == 0
  }

  lemma OneJump(j: int)
    requires 0 < j < 0x400_0000
    ensures GoodUnits([VarJump(j)])
    ensures EncodedAll([VarJump(j)]) == [ExtraTag(PC_JUMP_TAG, VARIABLE_LENGTH_PC_JUMP_TOP_TAG)] + Chunks(j)
  {
    assert EncodedAll([VarJump(j)][1..]) == [];
  }

  lemma LastChunk(j: nat, done: seq<int>, all: seq<int>)
    requires j > 0 && done + Chunks(j) == all
    ensures |done| < |all|
    ensures j >= 128 ==> done + [j % 128 * 2] + Chunks(j / 128) == all
    ensures j < 128 ==> Unmarked(done + [j % 128 * 2], all)
  {
    if j < 128 {
      assert all == done + [2 * j + 1];
    } else {
      assert Chunks(j) == [2 * (j % 128)] + Chunks(j / 128);
    }
  }
}
