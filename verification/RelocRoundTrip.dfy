/** Reading gives back what was written. */
module RelocRoundTrip {
  import opened RelocFormat
  import opened RelocReader
  import opened RelocWriter

  /** Records as the source asks for them: no pc below the one before, data in a machine word. */
  ghost predicate Writable(rs: seq<Record>, lastPc: int) {
    rs == [] || (lastPc <= rs[0].pc && InWord(rs[0].data) && Writable(rs[1..], rs[0].pc))
  }

  /** Each pc is less than 2^32 after the one before. */
  ghost predicate Near(rs: seq<Record>, lastPc: int) {
    rs == [] || (rs[0].pc - lastPc < 0x1_0000_0000 && Near(rs[1..], rs[0].pc))
  }

  function DataLeft(r: Record, lastData: int): int {
    if IsDebug(r.mode) then r.data else lastData
  }

  /** The units of one record. */
  ghost function UnitsAfter(r: Record, lastPc: int, lastData: int): (us: seq<Unit>) {
    UnitsOf((r.pc - lastPc) % 0x1_0000_0000, r.mode, Wrapped(r.data - lastData))
  }

  /** The units of records written one after the other. */
  ghost function AllUnits(rs: seq<Record>, lastPc: int, lastData: int): (us: seq<Unit>) {
    if rs == [] then []
    else UnitsAfter(rs[0], lastPc, lastData) + AllUnits(rs[1..], rs[0].pc, DataLeft(rs[0], lastData))
  }

  lemma {:induction false} AllUnitsGood(rs: seq<Record>, lastPc: int, lastData: int)
    ensures GoodUnits(AllUnits(rs, lastPc, lastData))
    decreases |rs|
  {
    if rs != [] {
      GoodRecord((rs[0].pc - lastPc) % 0x1_0000_0000, rs[0].mode, Wrapped(rs[0].data - lastData));
      AllUnitsGood(rs[1..], rs[0].pc, DataLeft(rs[0], lastData));
    }
  }

  /** Writes records one after the other. */
  method WriteAll(w: RelocInfoWriter, rs: seq<Record>)
    requires w.Valid() && w.pos >= |rs| * (8 + INTPTR_SIZE) && w.Written() == [] && w.lastData == 0
      && Writable(rs, w.lastPc)
    modifies w, w.buffer
    ensures w.Valid() && GoodUnits(AllUnits(rs, old(w.lastPc), 0))
    ensures w.Written() == EncodedAll(AllUnits(rs, old(w.lastPc), 0)) && AreBytes(w.Written())
  {
    hide EncodedAll, RelocInfoWriter.Written, AllUnits, UnitsAfter, Writable, AreBytes;
    AllUnitsGood(rs, w.lastPc, 0);
    ghost var start, all := w.lastPc, AllUnits(rs, w.lastPc, 0);
    ghost var done: seq<Unit> := [];
    var i := 0;
    StartOfAll();
    while i < |rs|
      invariant 0 <= i <= |rs| && w.Valid() && w.pos >= (|rs| - i) * (8 + INTPTR_SIZE)
      invariant GoodUnits(done) && w.Written() == EncodedAll(done) && Writable(rs[i..], w.lastPc)
      invariant done + AllUnits(rs[i..], w.lastPc, w.lastData) == all
    {
      ghost var lastPc, lastData := w.lastPc, w.lastData;
      NextRecord(rs[i..], lastPc, lastData);
      assert rs[i..][1..] == rs[i + 1..];
      w.Write(rs[i]);
      EncodedJoin(done, UnitsAfter(rs[i], lastPc, lastData));
      done := done + UnitsAfter(rs[i], lastPc, lastData);
      i := i + 1;
    }
    NoRecords(rs[i..], w.lastPc, w.lastData);
    assert done + [] == done;
    EncodedAreBytes(all);
  }

  lemma StartOfAll()
    ensures GoodUnits([]) && EncodedAll([]) == []
  {
  }

  lemma NoRecords(rs: seq<Record>, lastPc: int, lastData: int)
    requires rs == []
    ensures AllUnits(rs, lastPc, lastData) == []
  {
  }

  lemma NextRecord(rs: seq<Record>, lastPc: int, lastData: int)
    requires rs != [] && Writable(rs, lastPc)
    ensures lastPc <= rs[0].pc && InWord(rs[0].data) && Writable(rs[1..], rs[0].pc)
    ensures AllUnits(rs, lastPc, lastData) ==
              UnitsAfter(rs[0], lastPc, lastData) + AllUnits(rs[1..], rs[0].pc, DataLeft(rs[0], lastData))
    ensures UnitsAfter(rs[0], lastPc, lastData) ==
              UnitsOf((rs[0].pc - lastPc) % 0x1_0000_0000, rs[0].mode, Wrapped(rs[0].data - lastData))
    ensures GoodUnits(UnitsAfter(rs[0], lastPc, lastData))
  {
    hide Wrapped, UnitsOf;
    GoodRecord((rs[0].pc - lastPc) % 0x1_0000_0000, rs[0].mode, Wrapped(rs[0].data - lastData));
  }

  // ----- what an iteration over written records gives ------------------------------------------------------------

  /** The records of the wanted modes. */
  ghost function Filtered(rs: seq<Record>, mask: set<Mode>): (fs: seq<Record>) {
    if rs == [] then []
    else if rs[0].mode in mask then [rs[0]] + Filtered(rs[1..], mask)
    else Filtered(rs[1..], mask)
  }

  /** Equal but for the data of modes that have none. */
  ghost predicate Same(a: Record, b: Record) {
    a.pc == b.pc && a.mode == b.mode && (IsDebug(a.mode) ==> a.data == b.data)
  }

  ghost predicate AllSame(got: seq<Record>, wanted: seq<Record>) {
    |got| == |wanted| && forall k :: 0 <= k < |got| ==> Same(got[k], wanted[k])
  }

  /** The data a reader has after a record. */
  function DataRead(r: Record, lastData: int, data: int, mask: set<Mode>): int {
    var delta := Wrapped(r.data - lastData);
    if IsPosition(r.mode) && -64 <= delta < 64 then (if WantsPositions(mask) then Wrapped(data + delta) else data)
    else if IsDebug(r.mode) then (if WantsData(mask) then Wrapped(data + delta) else data)
    else data
  }

  /** The units of a record move the reader by the record's pc delta and stop it if its mode is wanted. */
  lemma RecordRead(r: Record, lastPc: int, lastData: int, vs: seq<Unit>, pc: int, data: int, mask: set<Mode>)
    requires lastPc <= r.pc < lastPc + 0x1_0000_0000
    ensures var s := Seek(UnitsAfter(r, lastPc, lastData) + vs, pc, data, mask);
      var pc', data' := pc + r.pc - lastPc, DataRead(r, lastData, data, mask);
      s == if r.mode in mask then Stop(vs, pc', data', Some(r.mode)) else Seek(vs, pc', data', mask)
  {
    hide Wrapped, Seek, DataRead, UnitsAfter, LowPart, ModeUnits;
    var delta := r.pc - lastPc;
    var ms := ModeUnits(LowPart(delta), r.mode, Wrapped(r.data - lastData));
    UnitsNear(r, lastPc, lastData);
    ModeRead(ms, r, lastData, vs, pc + delta - LowPart(delta), data, mask);
    if delta < 64 {
      assert UnitsAfter(r, lastPc, lastData) + vs == ms + vs;
    } else {
      JumpRead(delta / 64, ms + vs, pc, data, mask);
      assert UnitsAfter(r, lastPc, lastData) + vs == [VarJump(delta / 64)] + (ms + vs);
    }
  }

  lemma UnitsNear(r: Record, lastPc: int, lastData: int)
    requires lastPc <= r.pc < lastPc + 0x1_0000_0000
    ensures var delta := r.pc - lastPc;
      var ms := ModeUnits(LowPart(delta), r.mode, Wrapped(r.data - lastData));
      && UnitsAfter(r, lastPc, lastData) == (if delta < 64 then ms else [VarJump(delta / 64)] + ms)
      && |ms| > 0 && DeltaOf(ms[0]) == LowPart(delta) == if delta < 64 then delta else delta - delta / 64 * 64
  {
    hide Wrapped;
    assert (r.pc - lastPc) % 0x1_0000_0000 == r.pc - lastPc;
    assert [] + ModeUnits(LowPart(r.pc - lastPc), r.mode,
      Wrapped(r.data - lastData)) == ModeUnits(LowPart(r.pc - lastPc), r.mode, Wrapped(r.data - lastData));
  }

  lemma JumpRead(jump: int, vs: seq<Unit>, pc: int, data: int, mask: set<Mode>)
    ensures Seek([VarJump(jump)] + vs, pc, data, mask) == Seek(vs, pc + jump * 64, data, mask)
  {
    assert ([VarJump(jump)] + vs)[1..] == vs;
  }

  lemma ModeRead(ms: seq<Unit>, r: Record, lastData: int, vs: seq<Unit>, pc: int, data: int, mask: set<Mode>)
    requires |ms| > 0 && ms == ModeUnits(DeltaOf(ms[0]), r.mode, Wrapped(r.data - lastData))
    ensures var s := Seek(ms + vs, pc, data, mask);
      var pc', data' := pc + DeltaOf(ms[0]), DataRead(r, lastData, data, mask);
      s == if r.mode in mask then Stop(vs, pc', data', Some(r.mode)) else Seek(vs, pc', data', mask)
  {
    hide Wrapped;
    if |ms| == 1 {
      assert (ms + vs)[1..] == vs;
    } else {
      assert (ms + vs)[1..] == [ms[1]] + vs && ([ms[1]] + vs)[1..] == vs;
    }
  }

  /** The reader has the data the writer had, or never looks at it. */
  ghost predicate InStep(lastData: int, data: int, mask: set<Mode>) {
    if WantsPositions(mask) then data == lastData else COMMENT !in mask
  }

  lemma {:induction false} ReadsFiltered(rs: seq<Record>, lastPc: int, lastData: int, data: int, mask: set<Mode>)
    requires Writable(rs, lastPc) && Near(rs, lastPc) && InStep(lastData, data, mask)
    ensures AllSame(Reads(AllUnits(rs, lastPc, lastData), lastPc, data, mask), Filtered(rs, mask))
    decreases |rs|
  {
    hide Wrapped, UnitsAfter, WantsPositions, Seek;
    if rs == [] {
      NoUnits(lastPc, data, mask);
    } else {
      var r, vs := rs[0], AllUnits(rs[1..], rs[0].pc, DataLeft(rs[0], lastData));
      var data' := DataRead(r, lastData, data, mask);
      RecordRead(r, lastPc, lastData, vs, lastPc, data, mask);
      WrappedTwice(lastData, r.data);
      StaysInStep(r, lastData, data, mask);
      ReadsFiltered(rs[1..], r.pc, DataLeft(r, lastData), data', mask);
    }
  }

  lemma NoUnits(pc: int, data: int, mask: set<Mode>)
    ensures Reads([], pc, data, mask) == []
  {
  }

  lemma StaysInStep(r: Record, lastData: int, data: int, mask: set<Mode>)
    requires InStep(lastData, data, mask) && Wrapped(lastData + Wrapped(r.data - lastData)) == r.data
    ensures InStep(DataLeft(r, lastData), DataRead(r, lastData, data, mask), mask)
    ensures r.mode in mask && IsDebug(r.mode) ==> DataRead(r, lastData, data, mask) == r.data
  {
    hide Wrapped;
  }

  /** With such a mask, every sequence of records reads back exactly, filtered. */
  ghost predicate Faithful(mask: set<Mode>) {
    forall rs, pc :: Writable(rs, pc) && Near(rs, pc) ==> AllSame(Reads(AllUnits(rs, pc, 0), pc, 0, mask), Filtered(rs, mask))
  }

  /** Reading is exact for every sequence of records if and only if the mask has a mode of positions
      or does not have comments. */
  lemma FaithfulExactly(mask: set<Mode>)
    ensures Faithful(mask) <==> WantsPositions(mask) || COMMENT !in mask
  {
    if WantsPositions(mask) || COMMENT !in mask {
      forall rs, pc | Writable(rs, pc) && Near(rs, pc)
        ensures AllSame(Reads(AllUnits(rs, pc, 0), pc, 0, mask), Filtered(rs, mask))
      {
        ReadsFiltered(rs, pc, 0, 0, mask);
      }
    } else {
      CommentDrifts(mask);
    }
  }

  /** A comment behind a position: the position's data is skipped, so the comment's comes out wrong. */
  lemma CommentDrifts(mask: set<Mode>)
    requires COMMENT in mask && !WantsPositions(mask)
    ensures !Faithful(mask)
  {
    var p, c := Record(0, POSITION, 1), Record(0, COMMENT, 1);
    assert [p, c][1..] == [c] && [c][1..] == [];
    assert Writable([c], 0) && Near([c], 0);
    assert Writable([p, c], 0) && Near([p, c], 0);
    var vs := AllUnits([c], 0, 1);
    RecordRead(p, 0, 0, vs, 0, 0, mask);
    RecordRead(c, 0, 1, [], 0, 0, mask);
    assert AllUnits([], 0, 1) == [];
    assert AllUnits([p, c], 0, 0) == UnitsAfter(p, 0, 0) + vs && vs == UnitsAfter(c, 0, 1) + [];
    var got := Reads(AllUnits([p, c], 0, 0), 0, 0, mask);
    assert got == [Record(0, COMMENT, 0)] + Reads([], 0, 0, mask);
    assert Filtered([p, c], mask) == Filtered([c], mask) == [c] + Filtered([], mask);
    assert !Same(got[0], c);
  }

  /** A pc delta is kept exactly when it fits 32 bits. */
  lemma PcExactly(r: Record, lastPc: int, lastData: int, mask: set<Mode>)
    requires lastPc <= r.pc && r.mode in mask
    ensures var got := Reads(UnitsAfter(r, lastPc, lastData), lastPc, lastData, mask);
      |got| == 1 && (got[0].pc == r.pc <==> r.pc - lastPc < 0x1_0000_0000)
  {
    hide Wrapped;
    var near := r.(pc := lastPc + (r.pc - lastPc) % 0x1_0000_0000);
    RecordRead(near, lastPc, lastData, [], lastPc, lastData, mask);
    assert UnitsAfter(near, lastPc, lastData) + [] == UnitsAfter(r, lastPc, lastData);
    NoUnits(near.pc, DataRead(near, lastData, lastData, mask), mask);
  }

  /** Written and read back: a buffer filled from its end and an iteration over what was written. */
  method RoundTrip(buffer: array<int>, pc: int, rs: seq<Record>, mask: set<Mode>) returns (got: seq<Record>)
    requires buffer.Length >= |rs| * (8 + INTPTR_SIZE) && Writable(rs, pc) && Near(rs, pc)
    modifies buffer
    ensures WantsPositions(mask) || COMMENT !in mask ==> AllSame(got, Filtered(rs, mask))
  {
    hide Reads, AllUnits, EncodedAll, RelocInfoWriter.Written, Writable, Near, Filtered, AllSame;
    var w := new RelocInfoWriter(buffer, pc);
    WriteAll(w, rs);
    ghost var us := AllUnits(rs, pc, 0);
    WrittenAhead(w);
    got := Iterate(buffer, buffer.Length, w.pos, pc, mask, us);
    if WantsPositions(mask) || COMMENT !in mask {
      ReadsFiltered(rs, pc, 0, 0, mask);
    }
  }

  /** What is written first is read first. */
  lemma WrittenAhead(w: RelocInfoWriter)
    requires w.Valid()
    ensures var n, p := w.buffer.Length, w.pos;
      seq(n - p, k requires 0 <= k < n - p reads w.buffer => w.buffer[n - 1 - k]) == w.Written()
  {
  }
}
