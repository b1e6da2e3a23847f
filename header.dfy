/** CiRSDKHeader and CVarBuf: the header of the shared-memory segment read
    at fixed offsets on every access, and the choice of the freshest ring
    slot (OffsetLatest). */
module Header {
  import opened Wrappers
  import opened Memory
  import opened Layout

  /** The mapped view of the segment. Its bytes belong to the producer, which
      may rewrite them between any two reads; the capacity never changes. */
  class MappedView {
    var bytes: seq<byte>

    /** Every view the accessors read from holds at least the header struct. */
    ghost predicate Valid()
      reads this
    {
      |bytes| >= HeaderSize
    }

    constructor (initial: seq<byte>)
      requires |initial| >= HeaderSize
      ensures Valid() && bytes == initial
    {
      bytes := initial;
    }
  }

  /** The int at one of the header's fixed offsets. */
  function HeaderInt(v: seq<byte>, offset: int): (r: int)
    requires |v| >= HeaderSize && 0 <= offset <= HBufLenOffset
    ensures ReadInt32(v, offset) == Ok(r)
  {
    Int32At(v, offset)
  }

  function BufferCountOf(v: seq<byte>): int
    requires |v| >= HeaderSize
  {
    HeaderInt(v, HNumBufOffset)
  }

  // ---------------------------------------------------------------------------
  // Selecting the freshest ring slot

  /** Where CVarBuf reads field `field` of ring slot `i`:
      `VarBufOffset + ((i * VarBufSize) + field)` in unchecked int arithmetic. */
  function SlotPos(i: int, field: int): int
  {
    Wrap32(VarBufOffset + Wrap32(Wrap32(i * VarBufSize) + field))
  }

  /** For every slot a header can describe the position is the plain sum. */
  lemma SlotPosPlain(i: int, field: int)
    requires 0 <= i < 0x100_0000 && 0 <= field < VarBufSize
    ensures SlotPos(i, field) == VarBufOffset + i * VarBufSize + field
  {
  }

  predicate TicksReadable(v: seq<byte>, n: int)
  {
    forall j :: 0 <= j < n ==> CanRead(v, SlotPos(j, VarTickCountOffset), 4)
  }

  /** The tick counts of the first n slots. */
  function Ticks(v: seq<byte>, n: nat): (t: seq<int>)
    requires TicksReadable(v, n)
    ensures |t| == n
  {
    seq(n, j requires 0 <= j < n => Int32At(v, SlotPos(j, VarTickCountOffset)))
  }

  /** The scan of OffsetLatest: the reference stays `ref` (the code never
      updates latestTick), so the result is the LAST index whose tick is
      above `ref`, or 0 when there is none. */
  function LastAbove(t: seq<int>, ref: int): (k: nat)
    ensures |t| == 0 ==> k == 0
    ensures |t| > 0 ==> k < |t|
  {
    if |t| == 0 then 0
    else if ref < t[|t| - 1] then |t| - 1
    else LastAbove(t[..|t| - 1], ref)
  }

  /** The elements of `new int[n]` that the loop has not stored to. */
  function Unset(n: nat): (z: seq<int>)
    ensures |z| == n && forall k :: 0 <= k < n ==> z[k] == 0
  {
    seq(n, _ => 0)
  }

  /** OffsetLatest with its two reads of BufferCount as parameters: the loop
      bound `bufCount` and the length `ticksLength` of the ticks array. */
  function OffsetLatestOf(v: seq<byte>, bufCount: int, ticksLength: int): Result<int>
  {
    if ticksLength < 0 then Err(NegativeArraySize)
    else
      // ticks[i] is read before it is stored, so when the array is too short
      // the read at index ticksLength still happens before the store fails
      var attempted := if bufCount <= 0 then 0
                       else if bufCount <= ticksLength then bufCount
                       else ticksLength + 1;
      if !TicksReadable(v, attempted) then Err(OutOfView)
      else if bufCount > ticksLength then Ok(0)
      else if ticksLength == 0 then Ok(0)
      else
        var n := if bufCount < 0 then 0 else bufCount;
        var ticks := Ticks(v, n) + Unset(ticksLength - n);
        ReadInt32(v, SlotPos(LastAbove(ticks[..n], ticks[0]), VarBufOffsetOffset))
  }

  /** The case where every tick is read and stored: the selected slot's
      bufOffset is read. */
  lemma OffsetLatestReadsSelected(v: seq<byte>, bufCount: int, ticksLength: int, n: nat, t: seq<int>)
    requires 0 < ticksLength && bufCount <= ticksLength
    requires n == if bufCount < 0 then 0 else bufCount
    requires TicksReadable(v, n) && t == Ticks(v, n) + Unset(ticksLength - n)
    ensures OffsetLatestOf(v, bufCount, ticksLength) ==
            ReadInt32(v, SlotPos(LastAbove(t[..n], t[0]), VarBufOffsetOffset))
  {
  }

  /** Header.Buffer: both reads of BufferCount see the same bytes. */
  function BufferOf(v: seq<byte>): Result<int>
    requires |v| >= HeaderSize
  {
    OffsetLatestOf(v, BufferCountOf(v), BufferCountOf(v))
  }

  /** CVarBuf: computes the offset of the freshest data buffer. */
  class CVarBuf {
    /** The view it reads from. Its strides are the constructor's
        Marshal.SizeOf values, Layout.VarHeaderSize and Layout.VarBufSize
        (16, over the field initialiser 32); SlotPos uses the latter. */
    const view: MappedView

    constructor (view: MappedView)
      ensures this.view == view
    {
      this.view := view;
    }

    /** The getter's body, with the two reads of BufferCount given. */
    method OffsetLatestWith(bufCount: int, ticksLength: int) returns (r: Result<int>)
      ensures r == OffsetLatestOf(view.bytes, bufCount, ticksLength)
    {
      if ticksLength < 0 {
        return Err(NegativeArraySize);
      }
      ghost var v := view.bytes;
      var ticks := new int[ticksLength](_ => 0);
      var i := 0;
      while i < bufCount
        invariant 0 <= i <= ticksLength
        invariant bufCount > 0 ==> i <= bufCount
        invariant bufCount <= 0 ==> i == 0
        invariant TicksReadable(v, i)
        invariant ticks[..i] == Ticks(v, i)
        invariant forall j :: i <= j < ticksLength ==> ticks[j] == 0
      {
        var tick := ReadInt32(view.bytes, SlotPos(i, VarTickCountOffset));
        if tick.Err? {
          return Err(OutOfView);
        }
        if i >= ticks.Length {
          // IndexOutOfRangeException, caught by the getter
          assert TicksReadable(v, i + 1);
          return Ok(0);
        }
        ticks[i] := tick.value;
        i := i + 1;
        assert ticks[..i] == ticks[..i - 1] + [ticks[i - 1]];
      }
      assert ticks[..] == Ticks(v, i) + Unset(ticksLength - i);
      ghost var t := ticks[..];
      if bufCount > ticksLength {
        return Ok(0);
      }
      if ticks.Length == 0 {
        return Ok(0);
      }
      var n := i;
      var latest := SelectLatest(ticks, n);
      OffsetLatestReadsSelected(v, bufCount, ticksLength, n, t);
      r := ReadInt32(view.bytes, SlotPos(latest, VarBufOffsetOffset));
    }

    /** The getter's second loop: `latest` starts at slot 0 and moves to
        every later slot whose tick exceeds slot 0's. */
    static method SelectLatest(ticks: array<int>, count: int) returns (latest: int)
      requires 0 < ticks.Length && 0 <= count <= ticks.Length
      ensures latest == LastAbove(ticks[..count], ticks[0])
    {
      var latestTick := ticks[0];
      latest := 0;
      var i := 0;
      while i < count
        invariant 0 <= i <= count
        invariant latest == LastAbove(ticks[..i], latestTick)
      {
        if latestTick < ticks[i] {
          latest := i;
        }
        i := i + 1;
        assert ticks[..i - 1] == ticks[..i][..i - 1];
      }
    }

    /** The OffsetLatest getter. */
    method OffsetLatest() returns (r: Result<int>)
      requires view.Valid()
      ensures r == BufferOf(view.bytes)
    {
      var bufCount := Int32At(view.bytes, HNumBufOffset);
      var ticksLength := Int32At(view.bytes, HNumBufOffset);
      r := OffsetLatestWith(bufCount, ticksLength);
    }
  }

  // ---------------------------------------------------------------------------
  // Properties of the slot selection

  /** The selected slot is the greatest index whose tick exceeds slot 0's,
      or 0 when no tick does. */
  lemma {:induction false} LastAboveIsLast(t: seq<int>, ref: int)
    requires |t| > 0
    ensures var k := LastAbove(t, ref);
            (k == 0 || ref < t[k]) && forall j :: k < j < |t| ==> t[j] <= ref
  {
    if ref < t[|t| - 1] {
    } else if |t| > 1 {
      LastAboveIsLast(t[..|t| - 1], ref);
    }
  }

  /** When no tick exceeds slot 0's (all equal, or slot 0 holds the largest),
      slot 0 is selected. */
  lemma FirstSlotWhenNoneExceeds(t: seq<int>)
    requires |t| > 0
    requires forall j :: 0 <= j < |t| ==> t[j] <= t[0]
    ensures LastAbove(t, t[0]) == 0
  {
    LastAboveIsLast(t, t[0]);
  }

  /** The selection is not the maximum in general: ticks 1, 5, 3 select
      slot 2 although slot 1 holds the largest tick. */
  lemma SelectionIsNotMaximum()
    ensures var t := [1, 5, 3]; LastAbove(t, t[0]) == 2 && t[2] < t[1]
  {
    var t := [1, 5, 3];
    assert t[..2] == [1, 5];
  }

  ghost predicate StrictlyIncreasing(u: seq<int>)
  {
    forall i, j :: 0 <= i < j < |u| ==> u[i] < u[j]
  }

  /** t is a rotation, starting at slot s, of a strictly increasing run:
      what a producer writing the slots round-robin leaves behind. */
  ghost predicate RingOrdered(t: seq<int>, s: int)
  {
    0 <= s < |t| && StrictlyIncreasing(t[s..] + t[..s])
  }

  /** Where slot j of t sits in the increasing run t[s..] + t[..s]. */
  function RunIndex(n: int, s: int, j: int): int
  {
    if j >= s then j - s else n - s + j
  }

  lemma RunAt(t: seq<int>, s: int, j: int)
    requires 0 <= s < |t| && 0 <= j < |t|
    ensures 0 <= RunIndex(|t|, s, j) < |t| && t[j] == (t[s..] + t[..s])[RunIndex(|t|, s, j)]
  {
  }

  /** Of two slots, the one later in the run holds the larger tick. */
  lemma RunOrder(t: seq<int>, s: int, a: int, b: int)
    requires RingOrdered(t, s) && 0 <= a < |t| && 0 <= b < |t|
    requires RunIndex(|t|, s, a) < RunIndex(|t|, s, b)
    ensures t[a] < t[b]
  {
    RunAt(t, s, a);
    RunAt(t, s, b);
  }

  /** With round-robin ticks the selected slot is the one written last, so it
      holds the largest tick. */
  lemma RingOrderSelectsNewest(t: seq<int>, s: int)
    requires RingOrdered(t, s)
    ensures var k := LastAbove(t, t[0]);
            k == (if s == 0 then |t| - 1 else s - 1) &&
            forall j :: 0 <= j < |t| ==> t[j] <= t[k]
  {
    var n := |t|;
    var m := if s == 0 then n - 1 else s - 1;
    assert RunIndex(n, s, m) == n - 1;
    forall j | 0 <= j < n ensures t[j] <= t[m] {
      if j != m {
        RunOrder(t, s, j, m);
      }
    }
    // every slot after m is older than slot 0
    forall j | m < j < n ensures t[j] < t[0] {
      RunOrder(t, s, j, 0);
    }
    // slot m is newer than slot 0 unless m == 0
    if m > 0 {
      RunOrder(t, s, 0, m);
    }
    LastAboveIsLast(t, t[0]);
  }

  /** All tick reads succeed, bufCount > ticksLength >= 0 (BufferCount grew
      between its two reads): the IndexOutOfRangeException is caught and the
      result is 0. */
  lemma ShortTicksArrayYieldsZero(v: seq<byte>, bufCount: int, ticksLength: int)
    requires 0 <= ticksLength < bufCount
    requires TicksReadable(v, ticksLength + 1)
    ensures OffsetLatestOf(v, bufCount, ticksLength) == Ok(0)
  {
  }

  lemma NoSlotsYieldsZero(v: seq<byte>)
    requires |v| >= HeaderSize && BufferCountOf(v) == 0
    ensures BufferOf(v) == Ok(0)
  {
  }

  /** With a positive BufferCount a successful Buffer is the bufOffset field
      of one of the slots [0, BufferCount). */
  lemma BufferIsASlotOffset(v: seq<byte>)
    requires |v| >= HeaderSize && BufferCountOf(v) > 0 && BufferOf(v).Ok?
    ensures exists k :: 0 <= k < BufferCountOf(v) &&
              CanRead(v, SlotPos(k, VarBufOffsetOffset), 4) &&
              BufferOf(v).value == Int32At(v, SlotPos(k, VarBufOffsetOffset))
  {
    var n := BufferCountOf(v);
    var ticks := Ticks(v, n) + Unset(n - n);
    var k := LastAbove(ticks[..n], ticks[0]);
    assert 0 <= k < n;
  }

  // ---------------------------------------------------------------------------
  // A header written by the producer, and what the accessors read from it

  datatype VarBufRecord = VarBufRecord(tickCount: int, bufOffset: int)

  datatype HeaderRecord = HeaderRecord(
    ver: int, status: int, tickRate: int,
    sessionInfoUpdate: int, sessionInfoLen: int, sessionInfoOffset: int,
    numVars: int, varHeaderOffset: int,
    numBuf: int, bufLen: int,
    varBuf: seq<VarBufRecord>)

  ghost predicate WellFormed(h: HeaderRecord)
  {
    IsInt32(h.ver) && IsInt32(h.status) && IsInt32(h.tickRate) &&
    IsInt32(h.sessionInfoUpdate) && IsInt32(h.sessionInfoLen) && IsInt32(h.sessionInfoOffset) &&
    IsInt32(h.numVars) && IsInt32(h.varHeaderOffset) && IsInt32(h.numBuf) && IsInt32(h.bufLen) &&
    |h.varBuf| == MaxBufs &&
    forall i :: 0 <= i < MaxBufs ==> IsInt32(h.varBuf[i].tickCount) && IsInt32(h.varBuf[i].bufOffset)
  }

  /** Consecutive little-endian ints. */
  function EncodeInts(xs: seq<int>): (s: seq<byte>)
    requires forall k :: 0 <= k < |xs| ==> IsInt32(xs[k])
    ensures |s| == 4 * |xs|
  {
    if |xs| == 0 then [] else EncodeInt32(xs[0]) + EncodeInts(xs[1..])
  }

  lemma ReadShifted(p: seq<byte>, w: seq<byte>, pos: int)
    requires pos >= 0
    ensures ReadInt32(p + w, |p| + pos) == ReadInt32(w, pos)
  {
    if CanRead(w, pos, 4) {
      var v := p + w;
      assert v[|p| + pos] == w[pos] && v[|p| + pos + 1] == w[pos + 1];
      assert v[|p| + pos + 2] == w[pos + 2] && v[|p| + pos + 3] == w[pos + 3];
    }
  }

  /** The k-th int of an encoded sequence reads back at offset 4k, whatever
      follows it. */
  lemma {:induction false} ReadEncodedInts(xs: seq<int>, rest: seq<byte>, k: nat)
    requires forall j :: 0 <= j < |xs| ==> IsInt32(xs[j])
    requires k < |xs|
    ensures ReadInt32(EncodeInts(xs) + rest, 4 * k) == Ok(xs[k])
  {
    var e := EncodeInt32(xs[0]);
    var tail := EncodeInts(xs[1..]) + rest;
    assert EncodeInts(xs) + rest == e + tail;
    if k == 0 {
      assert e + tail == [] + e + tail;
      ReadEncodedInt32([], xs[0], tail);
    } else {
      ReadEncodedInts(xs[1..], rest, k - 1);
      ReadShifted(e, tail, 4 * (k - 1));
    }
  }

  /** Int k of the iRSDKHeader struct in sequential order: ten fields, two
      of padding, then per slot tickCount, bufOffset and two of padding. */
  function HeaderIntAt(h: HeaderRecord, k: int): int
    requires |h.varBuf| == MaxBufs && 0 <= k < HeaderSize / 4
  {
    if k == 0 then h.ver
    else if k == 1 then h.status
    else if k == 2 then h.tickRate
    else if k == 3 then h.sessionInfoUpdate
    else if k == 4 then h.sessionInfoLen
    else if k == 5 then h.sessionInfoOffset
    else if k == 6 then h.numVars
    else if k == 7 then h.varHeaderOffset
    else if k == 8 then h.numBuf
    else if k == 9 then h.bufLen
    else if k < 12 then 0
    else
      var slot := h.varBuf[(k - 12) / 4];
      var field := (k - 12) % 4;
      if field == 0 then slot.tickCount else if field == 1 then slot.bufOffset else 0
  }

  /** The 28 ints of the struct. */
  function HeaderInts(h: HeaderRecord): (xs: seq<int>)
    requires |h.varBuf| == MaxBufs
    ensures |xs| * 4 == HeaderSize
    ensures forall k :: 0 <= k < |xs| ==> xs[k] == HeaderIntAt(h, k)
  {
    seq(HeaderSize / 4, k requires 0 <= k < HeaderSize / 4 => HeaderIntAt(h, k))
  }

  lemma HeaderIntsAreInt32(h: HeaderRecord)
    requires WellFormed(h)
    ensures forall k :: 0 <= k < |HeaderInts(h)| ==> IsInt32(HeaderInts(h)[k])
  {
    forall k | 12 <= k < HeaderSize / 4
      ensures IsInt32(HeaderIntAt(h, k))
    {
      var slot := (k - 12) / 4;
      assert 0 <= slot < MaxBufs;
    }
  }

  function EncodeHeader(h: HeaderRecord): (s: seq<byte>)
    requires WellFormed(h)
    ensures |s| == HeaderSize
  {
    HeaderIntsAreInt32(h);
    EncodeInts(HeaderInts(h))
  }

  /** The int at offset 4k of an encoded header is its k-th int. */
  lemma EncodedIntReadsBack(h: HeaderRecord, rest: seq<byte>, k: nat)
    requires WellFormed(h) && k < |HeaderInts(h)|
    ensures ReadInt32(EncodeHeader(h) + rest, 4 * k) == Ok(HeaderInts(h)[k])
    ensures k < 10 ==> HeaderInt(EncodeHeader(h) + rest, 4 * k) == HeaderInts(h)[k]
  {
    HeaderIntsAreInt32(h);
    ReadEncodedInts(HeaderInts(h), rest, k);
  }

  lemma EncodedHeadReadsBack(h: HeaderRecord, rest: seq<byte>)
    requires WellFormed(h)
    ensures var v := EncodeHeader(h) + rest;
      HeaderInt(v, HVerOffset) == h.ver && HeaderInt(v, HStatusOffset) == h.status &&
      HeaderInt(v, HTickRateOffset) == h.tickRate &&
      HeaderInt(v, HSesInfoUpdateOffset) == h.sessionInfoUpdate &&
      HeaderInt(v, HSesInfoLenOffset) == h.sessionInfoLen
  {
    EncodedIntReadsBack(h, rest, 0);
    EncodedIntReadsBack(h, rest, 1);
    EncodedIntReadsBack(h, rest, 2);
    EncodedIntReadsBack(h, rest, 3);
    EncodedIntReadsBack(h, rest, 4);
  }

  lemma EncodedTailReadsBack(h: HeaderRecord, rest: seq<byte>)
    requires WellFormed(h)
    ensures var v := EncodeHeader(h) + rest;
      HeaderInt(v, HSesInfoOffsetOffset) == h.sessionInfoOffset &&
      HeaderInt(v, HNumVarsOffset) == h.numVars &&
      HeaderInt(v, HVarHeaderOffsetOffset) == h.varHeaderOffset &&
      HeaderInt(v, HNumBufOffset) == h.numBuf && HeaderInt(v, HBufLenOffset) == h.bufLen
  {
    EncodedIntReadsBack(h, rest, 5);
    EncodedIntReadsBack(h, rest, 6);
    EncodedIntReadsBack(h, rest, 7);
    EncodedIntReadsBack(h, rest, 8);
    EncodedIntReadsBack(h, rest, 9);
  }

  /** Every header accessor offset reads back the field the producer wrote
      there. */
  lemma EncodedHeaderReadsBack(h: HeaderRecord, rest: seq<byte>)
    requires WellFormed(h)
    ensures var v := EncodeHeader(h) + rest;
      HeaderInt(v, HVerOffset) == h.ver && HeaderInt(v, HStatusOffset) == h.status &&
      HeaderInt(v, HTickRateOffset) == h.tickRate &&
      HeaderInt(v, HSesInfoUpdateOffset) == h.sessionInfoUpdate &&
      HeaderInt(v, HSesInfoLenOffset) == h.sessionInfoLen &&
      HeaderInt(v, HSesInfoOffsetOffset) == h.sessionInfoOffset &&
      HeaderInt(v, HNumVarsOffset) == h.numVars &&
      HeaderInt(v, HVarHeaderOffsetOffset) == h.varHeaderOffset &&
      HeaderInt(v, HNumBufOffset) == h.numBuf && HeaderInt(v, HBufLenOffset) == h.bufLen
  {
    EncodedHeadReadsBack(h, rest);
    EncodedTailReadsBack(h, rest);
  }

  /** Slot i's tick and buffer offset are read from what the producer wrote
      into slot i. */
  lemma EncodedSlotReadsBack(h: HeaderRecord, rest: seq<byte>, i: int)
    requires WellFormed(h) && 0 <= i < MaxBufs
    ensures ReadInt32(EncodeHeader(h) + rest, SlotPos(i, VarTickCountOffset)) == Ok(h.varBuf[i].tickCount)
    ensures ReadInt32(EncodeHeader(h) + rest, SlotPos(i, VarBufOffsetOffset)) == Ok(h.varBuf[i].bufOffset)
  {
    var xs := HeaderInts(h);
    HeaderIntsAreInt32(h);
    SlotPosPlain(i, VarTickCountOffset);
    SlotPosPlain(i, VarBufOffsetOffset);
    SlotInts(h, i);
    var k := 12 + 4 * i;
    assert 4 * k == SlotPos(i, VarTickCountOffset) && 4 * (k + 1) == SlotPos(i, VarBufOffsetOffset);
    ReadEncodedInts(xs, rest, k);
    ReadEncodedInts(xs, rest, k + 1);
  }

  /** Where slot i's two fields sit among the header's ints. */
  lemma SlotInts(h: HeaderRecord, i: int)
    requires |h.varBuf| == MaxBufs && 0 <= i < MaxBufs
    ensures HeaderInts(h)[12 + 4 * i] == h.varBuf[i].tickCount
    ensures HeaderInts(h)[13 + 4 * i] == h.varBuf[i].bufOffset
  {
    assert (12 + 4 * i - 12) / 4 == i && (12 + 4 * i - 12) % 4 == 0;
    assert (13 + 4 * i - 12) / 4 == i && (13 + 4 * i - 12) % 4 == 1;
  }

  /** Buffer when BufferCount is positive and every tick can be read: the
      offset of the slot LastAbove selects. */
  lemma BufferOfReadable(v: seq<byte>)
    requires |v| >= HeaderSize && BufferCountOf(v) > 0 && TicksReadable(v, BufferCountOf(v))
    ensures var t := Ticks(v, BufferCountOf(v));
            BufferOf(v) == ReadInt32(v, SlotPos(LastAbove(t, t[0]), VarBufOffsetOffset))
  {
    var n := BufferCountOf(v);
    var all := Ticks(v, n) + Unset(n - n);
    assert all == Ticks(v, n);
    assert all[..n] == all;
  }

  /** The tick counts of the first n slot records. */
  function TicksOf(slots: seq<VarBufRecord>, n: nat): (t: seq<int>)
    requires n <= |slots|
    ensures |t| == n && forall i :: 0 <= i < n ==> t[i] == slots[i].tickCount
  {
    seq(n, i requires 0 <= i < n => slots[i].tickCount)
  }

  /** Buffer over a view whose first BufferCount slots hold the given
      records: the bufOffset of the record LastAbove selects. */
  lemma BufferOfSlots(v: seq<byte>, slots: seq<VarBufRecord>)
    requires |v| >= HeaderSize && 1 <= BufferCountOf(v) <= |slots|
    requires forall i :: 0 <= i < BufferCountOf(v) ==>
               ReadInt32(v, SlotPos(i, VarTickCountOffset)) == Ok(slots[i].tickCount) &&
               ReadInt32(v, SlotPos(i, VarBufOffsetOffset)) == Ok(slots[i].bufOffset)
    ensures var ticks := TicksOf(slots, BufferCountOf(v));
            BufferOf(v) == Ok(slots[LastAbove(ticks, ticks[0])].bufOffset)
  {
    var n := BufferCountOf(v);
    var ticks := TicksOf(slots, n);
    assert Ticks(v, n) == ticks;
    BufferOfReadable(v);
  }

  /** Buffer over a header written by the producer with 1..4 slots: the
      bufOffset of the slot LastAbove selects from the written ticks. */
  lemma EncodedHeaderBuffer(h: HeaderRecord, rest: seq<byte>)
    requires WellFormed(h) && 1 <= h.numBuf <= MaxBufs
    ensures var ticks := TicksOf(h.varBuf, h.numBuf);
      BufferOf(EncodeHeader(h) + rest) == Ok(h.varBuf[LastAbove(ticks, ticks[0])].bufOffset)
  {
    var v := EncodeHeader(h) + rest;
    EncodedHeaderReadsBack(h, rest);
    forall i | 0 <= i < MaxBufs
      ensures ReadInt32(v, SlotPos(i, VarTickCountOffset)) == Ok(h.varBuf[i].tickCount)
      ensures ReadInt32(v, SlotPos(i, VarBufOffsetOffset)) == Ok(h.varBuf[i].bufOffset)
    {
      EncodedSlotReadsBack(h, rest, i);
    }
    BufferOfSlots(v, h.varBuf);
  }

  // ---------------------------------------------------------------------------
  // CiRSDKHeader

  class IrsdkHeader {
    const view: MappedView
    const buffer: CVarBuf
    /** The `_status` and `newStatus` fields that the Status getter assigns. */
    var status: int
    var newStatus: int

    ghost predicate Valid()
      reads this, view
    {
      view.Valid() && buffer.view == view
    }

    constructor (view: MappedView)
      requires view.Valid()
      ensures Valid() && this.view == view
      ensures status == 0 && newStatus == -1
    {
      this.view := view;
      buffer := new CVarBuf(view);
      status := 0;
      newStatus := -1;
    }

    function Version(): int reads this, view requires Valid() { HeaderInt(view.bytes, HVerOffset) }
    function TickRate(): int reads this, view requires Valid() { HeaderInt(view.bytes, HTickRateOffset) }
    function SessionInfoUpdate(): int reads this, view requires Valid() { HeaderInt(view.bytes, HSesInfoUpdateOffset) }
    function SessionInfoLength(): int reads this, view requires Valid() { HeaderInt(view.bytes, HSesInfoLenOffset) }
    function SessionInfoOffset(): int reads this, view requires Valid() { HeaderInt(view.bytes, HSesInfoOffsetOffset) }
    function VarCount(): int reads this, view requires Valid() { HeaderInt(view.bytes, HNumVarsOffset) }
    function VarHeaderOffset(): int reads this, view requires Valid() { HeaderInt(view.bytes, HVarHeaderOffsetOffset) }
    function BufferCount(): int reads this, view requires Valid() { HeaderInt(view.bytes, HNumBufOffset) }
    function BufferLength(): int reads this, view requires Valid() { HeaderInt(view.bytes, HBufLenOffset) }

    /** The Status getter: reads the int at offset 4 on every call and
        returns it, whatever `_status` held. */
    method Status() returns (r: int)
      requires Valid()
      modifies this`status, this`newStatus
      ensures r == HeaderInt(view.bytes, HStatusOffset)
      ensures status == r && newStatus == r
    {
      newStatus := Int32At(view.bytes, HStatusOffset);
      if status == newStatus {
        return status;
      }
      status := newStatus;
      return status;
    }

    /** The Buffer getter: OffsetLatest evaluated at call time. */
    method Buffer() returns (r: Result<int>)
      requires Valid()
      ensures r == BufferOf(view.bytes)
    {
      r := buffer.OffsetLatest();
    }
  }
}
