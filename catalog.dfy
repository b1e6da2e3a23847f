/** The variable-header table that iRacingSDK.GetVarHeaders decodes: entry
    i sits at VarHeaderOffset + i * VarHeaderSize and holds three ints and
    three NUL-padded Windows-1252 strings. */
module Catalog {
  import opened Wrappers
  import opened Memory
  import opened Layout
  import opened Header

  // CVarHeader.VarType, numbered as the SDK's irsdk_VarType
  const IrChar: int := 0
  const IrBool: int := 1
  const IrInt: int := 2
  const IrBitField: int := 3
  const IrFloat: int := 4
  const IrDouble: int := 5

  /** A CVarHeader as GetVarHeaders builds it. */
  datatype VarHeaderEntry = VarHeaderEntry(
    varType: int, offset: int, count: int,
    name: string, desc: string, unit: string)

  /** `VarHeaderOffset + ((i * VarHeaderSize) + field)` in unchecked int arithmetic. */
  function EntryPos(base: int, i: int, field: int): int
  {
    Wrap32(base + Wrap32(Wrap32(i * VarHeaderSize) + field))
  }

  /** A NUL-padded string field: read `width` bytes, decode, trim the NULs. */
  function ReadText(v: seq<byte>, pos: int, width: nat): (r: Result<string>)
    ensures r.Ok? <==> 0 <= pos < |v|
    ensures r.Ok? ==> r == Ok(TrimEndNul(Decode(ReadBytes(v, pos, width).value)))
  {
    match ReadBytes(v, pos, width)
    case Err(f) => Err(f)
    case Ok(bs) => Ok(TrimEndNul(Decode(bs)))
  }

  /** Entry i of the table, read field by field at its fixed offsets; the
      first field read that leaves the view throws. */
  function ReadEntry(v: seq<byte>, base: int, i: int): (r: Result<VarHeaderEntry>)
    ensures r.Ok? <==> EntryReadable(v, base, i)
    ensures r.Err? ==> r.fault == OutOfView
  {
    if !EntryReadable(v, base, i) then Err(OutOfView) else Ok(EntryAt(v, base, i))
  }

  /** The six field reads of a readable entry. */
  function EntryAt(v: seq<byte>, base: int, i: int): VarHeaderEntry
    requires EntryReadable(v, base, i)
  {
    VarHeaderEntry(
      ReadInt32(v, EntryPos(base, i, 0)).value,
      ReadInt32(v, EntryPos(base, i, VarOffsetOffset)).value,
      ReadInt32(v, EntryPos(base, i, VarCountOffset)).value,
      ReadText(v, EntryPos(base, i, VarNameOffset), MaxString).value,
      ReadText(v, EntryPos(base, i, VarDescOffset), MaxDesc).value,
      ReadText(v, EntryPos(base, i, VarUnitOffset), MaxString).value)
  }

  /** Entry i reads without throwing: its three ints lie inside the view,
      and each string field starts inside it. */
  predicate EntryReadable(v: seq<byte>, base: int, i: int)
  {
    CanRead(v, EntryPos(base, i, 0), 4) &&
    CanRead(v, EntryPos(base, i, VarOffsetOffset), 4) &&
    CanRead(v, EntryPos(base, i, VarCountOffset), 4) &&
    0 <= EntryPos(base, i, VarNameOffset) < |v| &&
    0 <= EntryPos(base, i, VarDescOffset) < |v| &&
    0 <= EntryPos(base, i, VarUnitOffset) < |v|
  }

  /** The dictionary after `VarHeaders[e.name] = e` for each entry in order. */
  function Store(es: seq<VarHeaderEntry>): map<string, VarHeaderEntry>
  {
    if |es| == 0 then map[]
    else Store(es[..|es| - 1])[es[|es| - 1].name := es[|es| - 1]]
  }

  /** Storing one more entry is one more dictionary assignment. */
  lemma StoreNext(es: seq<VarHeaderEntry>, e: VarHeaderEntry)
    ensures Store(es + [e]) == Store(es)[e.name := e]
  {
    assert (es + [e])[..|es|] == es;
  }

  /** The keys are exactly the names of the stored entries. */
  lemma {:induction false} StoreKeys(es: seq<VarHeaderEntry>)
    ensures forall name :: name in Store(es) <==> exists i :: 0 <= i < |es| && es[i].name == name
  {
    if |es| > 0 {
      var init := es[..|es| - 1];
      StoreKeys(init);
      forall name | name in Store(es)
        ensures exists i :: 0 <= i < |es| && es[i].name == name
      {
        if name != es[|es| - 1].name {
          assert name in Store(init);
          var i :| 0 <= i < |init| && init[i].name == name;
          assert es[i].name == name;
        }
      }
      forall name | exists i :: 0 <= i < |es| && es[i].name == name
        ensures name in Store(es)
      {
        var i :| 0 <= i < |es| && es[i].name == name;
        if i < |init| {
          assert init[i].name == name;
        }
      }
    }
  }

  /** Every key maps to the LAST entry carrying that name: a later entry with
      the same name overwrites an earlier one. */
  lemma {:induction false} StoreLastWins(es: seq<VarHeaderEntry>, i: nat)
    requires i < |es|
    requires forall j :: i < j < |es| ==> es[j].name != es[i].name
    ensures es[i].name in Store(es) && Store(es)[es[i].name] == es[i]
  {
    if i < |es| - 1 {
      var init := es[..|es| - 1];
      assert forall j :: i < j < |init| ==> init[j] == es[j];
      StoreLastWins(init, i);
    }
  }

  // ---------------------------------------------------------------------------
  // The table as a whole. The scan over it is stated for any reader of entries,
  // which keeps the field arithmetic out of the proofs about order and keys.

  /** Entry i of a table, or the fault its read throws. */
  type EntryReader = int -> Result<VarHeaderEntry>

  /** The table that starts at `base` in the mapped view `v`. */
  function TableOf(v: seq<byte>, base: int): EntryReader
  {
    i => ReadEntry(v, base, i)
  }

  /** Every read of the table faults with an out-of-view access. */
  lemma TableFault(v: seq<byte>, base: int, i: int)
    ensures TableOf(v, base)(i).Err? <==> !EntryReadable(v, base, i)
    ensures TableOf(v, base)(i).Err? ==> TableOf(v, base)(i).fault == OutOfView
  {
  }

  /** Entries 0 .. k-1 all read. */
  predicate EntriesRead(read: EntryReader, k: int)
  {
    forall i :: 0 <= i < k ==> read(i).Ok?
  }

  /** Entries 0 .. k-1 in table order. */
  function EntriesUpTo(read: EntryReader, k: nat): (es: seq<VarHeaderEntry>)
    requires EntriesRead(read, k)
    ensures |es| == k
  {
    if k == 0 then [] else EntriesUpTo(read, k - 1) + [read(k - 1).value]
  }

  /** Position i of the table order holds entry i. */
  lemma {:induction false} EntriesUpToAt(read: EntryReader, k: nat, i: nat)
    requires EntriesRead(read, k) && i < k
    ensures read(i) == Ok(EntriesUpTo(read, k)[i])
  {
    var init := EntriesUpTo(read, k - 1);
    assert EntriesUpTo(read, k) == init + [read(k - 1).value];
    if i < k - 1 {
      EntriesUpToAt(read, k - 1, i);
      assert EntriesUpTo(read, k)[i] == init[i];
    }
  }

  /** Reading one more entry appends it to the table order. */
  lemma EntriesUpToNext(read: EntryReader, k: nat)
    requires EntriesRead(read, k) && read(k).Ok?
    ensures EntriesRead(read, k + 1)
    ensures EntriesUpTo(read, k + 1) == EntriesUpTo(read, k) + [read(k).value]
  {
    assert EntriesRead(read, k + 1);
  }

  /** Scanning from entry i on, the first entry that does not read (or n). */
  function FirstUnreadable(read: EntryReader, n: int, i: nat): (k: nat)
    ensures i <= k && (k <= n || k == i)
    ensures forall j :: i <= j < k ==> read(j).Ok?
    ensures k < n ==> read(k).Err?
    decreases n - i
  {
    if n <= i || read(i).Err? then i
    else FirstUnreadable(read, n, i + 1)
  }

  /** How many entries GetVarHeaders stores before the first read that
      throws: entries 0 .. k-1 read, entry k does not (or k reaches the
      count). */
  function ReadablePrefix(read: EntryReader, n: int): (k: nat)
    ensures k <= (if n < 0 then 0 else n)
    ensures EntriesRead(read, k)
    ensures k < n ==> read(k).Err?
  {
    FirstUnreadable(read, n, 0)
  }

  /** GetVarHeaders' loop from entry i on, over the dictionary `acc` built
      so far: the outcome and the final dictionary. */
  function ScanFrom(read: EntryReader, n: int, i: nat, acc: map<string, VarHeaderEntry>)
    : (Result<()>, map<string, VarHeaderEntry>)
    decreases n - i
  {
    if n <= i then (Ok(()), acc)
    else
      match read(i)
      case Err(f) => (Err(f), acc)
      case Ok(e) => ScanFrom(read, n, i + 1, acc[e.name := e])
  }

  /** The loop stores the readable prefix of the table, and succeeds exactly
      when that prefix is the whole table. */
  lemma {:induction false} ScanStoresPrefix(read: EntryReader, n: int, i: nat)
    requires (i <= n || i == 0) && EntriesRead(read, i)
    ensures var k := ReadablePrefix(read, n);
            ScanFrom(read, n, i, Store(EntriesUpTo(read, i))) ==
              (if k == (if n < 0 then 0 else n) then Ok(()) else Err(read(k).fault), Store(EntriesUpTo(read, k)))
    decreases n - i
  {
    if n <= i {
      ReadablePrefixUnique(read, n, i);
    } else if read(i).Err? {
      ReadablePrefixUnique(read, n, i);
    } else {
      var e := read(i).value;
      var acc := Store(EntriesUpTo(read, i));
      assert ScanFrom(read, n, i, acc) == ScanFrom(read, n, i + 1, acc[e.name := e]);
      EntriesUpToNext(read, i);
      StoreNext(EntriesUpTo(read, i), e);
      assert acc[e.name := e] == Store(EntriesUpTo(read, i + 1));
      ScanStoresPrefix(read, n, i + 1);
    }
  }

  /** The prefix is determined by where the first unreadable entry is. */
  lemma ReadablePrefixUnique(read: EntryReader, n: int, i: nat)
    requires i <= (if n < 0 then 0 else n) && EntriesRead(read, i)
    requires i < n ==> read(i).Err?
    ensures ReadablePrefix(read, n) == i
  {
    var k := ReadablePrefix(read, n);
    assert k < i ==> read(k).Ok?;
    assert i < k ==> read(i).Ok?;
  }

  /** What GetVarHeaders leaves for the view v: the dictionary holds the
      readable prefix of the table the header describes, and the read is
      complete exactly when that prefix is the whole table. */
  predicate Catalogued(v: seq<byte>, catalog: map<string, VarHeaderEntry>, complete: bool)
    requires |v| >= HeaderSize
  {
    var read := TableOf(v, HeaderInt(v, HVarHeaderOffsetOffset));
    var n := HeaderInt(v, HNumVarsOffset);
    var k := ReadablePrefix(read, n);
    catalog == Store(EntriesUpTo(read, k)) && (complete <==> k == (if n < 0 then 0 else n))
  }

  /** GetVarHeaders on the view v: the outcome of its loop over the table
      the header describes, and the dictionary it leaves. */
  function VarHeadersOf(v: seq<byte>): (Result<()>, map<string, VarHeaderEntry>)
    requires |v| >= HeaderSize
  {
    ScanFrom(TableOf(v, HeaderInt(v, HVarHeaderOffsetOffset)), HeaderInt(v, HNumVarsOffset), 0, map[])
  }

  /** GetVarHeaders stores the readable prefix of the table, in order; it
      completes exactly when every entry reads, and a read that fails
      leaves the view. */
  lemma VarHeadersOfPrefix(v: seq<byte>)
    requires |v| >= HeaderSize
    ensures Catalogued(v, VarHeadersOf(v).1, VarHeadersOf(v).0.Ok?)
    ensures VarHeadersOf(v).0.Err? ==> VarHeadersOf(v).0.fault == OutOfView
  {
    var read := TableOf(v, HeaderInt(v, HVarHeaderOffsetOffset));
    var n := HeaderInt(v, HNumVarsOffset);
    ScanStoresPrefix(read, n, 0);
    assert Store(EntriesUpTo(read, 0)) == map[];
    TableFault(v, HeaderInt(v, HVarHeaderOffsetOffset), ReadablePrefix(read, n));
  }

  // ---------------------------------------------------------------------------
  // An entry written by the producer reads back

  /** A string field as the producer writes it: the bytes, then NUL padding. */
  function Padded(bs: seq<byte>, width: nat): (r: seq<byte>)
    requires |bs| <= width
    ensures |r| == width
  {
    bs + seq(width - |bs|, _ => 0)
  }

  predicate FieldText(bs: seq<byte>, width: nat)
  {
    |bs| <= width && (|bs| == 0 || bs[|bs| - 1] != 0)
  }

  /** The VarHeader struct: three ints and the pad int, then the three strings. */
  function EncodeEntry(t: int, o: int, c: int, name: seq<byte>, desc: seq<byte>, unit: seq<byte>): (r: seq<byte>)
    requires IsInt32(t) && IsInt32(o) && IsInt32(c)
    requires FieldText(name, MaxString) && FieldText(desc, MaxDesc) && FieldText(unit, MaxString)
    ensures |r| == VarHeaderSize
  {
    EncodeInts([t, o, c, 0]) + Padded(name, MaxString) + Padded(desc, MaxDesc) + Padded(unit, MaxString)
  }

  lemma EntryPosPlain(base: int, i: int, field: int)
    requires 0 <= base && 0 <= i && 0 <= field < VarHeaderSize
    requires base + i * VarHeaderSize + VarHeaderSize <= TwoTo31
    ensures EntryPos(base, i, field) == base + i * VarHeaderSize + field
  {
    assert 0 <= i * VarHeaderSize;
  }

  /** A padded field found at pos reads back as its text. */
  lemma ReadPaddedText(v: seq<byte>, pos: int, bs: seq<byte>, width: nat)
    requires FieldText(bs, width) && width > 0
    requires 0 <= pos && pos + width <= |v| && v[pos..pos + width] == Padded(bs, width)
    ensures ReadText(v, pos, width) == Ok(Decode(bs))
  {
    var read := ReadBytes(v, pos, width).value;
    assert forall k :: 0 <= k < width ==> read[k] == v[pos..pos + width][k];
    assert read == Padded(bs, width);
    PaddedRoundTrip(bs, width - |bs|);
  }

  lemma SliceOfMiddle(pre: seq<byte>, e: seq<byte>, post: seq<byte>, lo: int, hi: int)
    requires 0 <= lo <= hi <= |e|
    ensures (pre + e + post)[|pre| + lo..|pre| + hi] == e[lo..hi]
  {
    var v := pre + e + post;
    assert forall k :: 0 <= k < hi - lo ==> v[|pre| + lo..|pre| + hi][k] == e[lo..hi][k];
  }

  /** Where the three strings sit inside an encoded entry. */
  lemma EntryFieldSlices(ints: seq<byte>, pn: seq<byte>, pd: seq<byte>, pu: seq<byte>)
    requires |ints| == 16 && |pn| == MaxString && |pd| == MaxDesc && |pu| == MaxString
    ensures var e := ints + pn + pd + pu;
            e[..16] == ints && e[VarNameOffset..VarDescOffset] == pn &&
            e[VarDescOffset..VarUnitOffset] == pd && e[VarUnitOffset..VarHeaderSize] == pu
  {
    var e := ints + pn + pd + pu;
    assert e[..16] == ints;
    assert e[VarNameOffset..VarDescOffset] == pn;
    assert e[VarDescOffset..VarUnitOffset] == pd;
    assert e[VarUnitOffset..VarHeaderSize] == pu;
  }

  /** ReadEntry from its six field reads, for an entry that starts at p
      with no wrap-around. */
  lemma ReadEntryFromFields(v: seq<byte>, base: int, i: int, p: int, e: VarHeaderEntry)
    requires 0 <= base && 0 <= i && p == base + i * VarHeaderSize && p + VarHeaderSize <= TwoTo31
    requires ReadInt32(v, p) == Ok(e.varType)
    requires ReadInt32(v, p + VarOffsetOffset) == Ok(e.offset)
    requires ReadInt32(v, p + VarCountOffset) == Ok(e.count)
    requires ReadText(v, p + VarNameOffset, MaxString) == Ok(e.name)
    requires ReadText(v, p + VarDescOffset, MaxDesc) == Ok(e.desc)
    requires ReadText(v, p + VarUnitOffset, MaxString) == Ok(e.unit)
    ensures ReadEntry(v, base, i) == Ok(e)
  {
    EntryPosPlain(base, i, 0);
    EntryPosPlain(base, i, VarOffsetOffset);
    EntryPosPlain(base, i, VarCountOffset);
    EntryPosPlain(base, i, VarNameOffset);
    EntryPosPlain(base, i, VarDescOffset);
    EntryPosPlain(base, i, VarUnitOffset);
  }

  lemma ReadEntryInts(pre: seq<byte>, t: int, o: int, c: int, post: seq<byte>)
    requires IsInt32(t) && IsInt32(o) && IsInt32(c)
    ensures var v := pre + EncodeInts([t, o, c, 0]) + post;
            ReadInt32(v, |pre|) == Ok(t) && ReadInt32(v, |pre| + 4) == Ok(o) && ReadInt32(v, |pre| + 8) == Ok(c)
  {
    var ints := EncodeInts([t, o, c, 0]);
    var w := ints + post;
    assert pre + ints + post == pre + w;
    ReadShifted(pre, w, 0);
    ReadShifted(pre, w, 4);
    ReadShifted(pre, w, 8);
    ReadEncodedInts([t, o, c, 0], post, 0);
    ReadEncodedInts([t, o, c, 0], post, 1);
    ReadEncodedInts([t, o, c, 0], post, 2);
  }

  /** A string field at offset lo of an encoded entry reads back in place. */
  lemma EncodedTextReadsBack(pre: seq<byte>, e: seq<byte>, post: seq<byte>, lo: int, bs: seq<byte>, width: nat)
    requires FieldText(bs, width) && width > 0
    requires 0 <= lo && lo + width <= |e| && e[lo..lo + width] == Padded(bs, width)
    ensures ReadText(pre + e + post, |pre| + lo, width) == Ok(Decode(bs))
  {
    SliceOfMiddle(pre, e, post, lo, lo + width);
    ReadPaddedText(pre + e + post, |pre| + lo, bs, width);
  }

  /** An entry whose bytes e hold the three ints and the three padded
      strings at their offsets reads back, wherever it sits in the view. */
  lemma EntryBytesReadBack(pre: seq<byte>, e: seq<byte>, post: seq<byte>, base: int, i: int,
                           t: int, o: int, c: int, name: seq<byte>, desc: seq<byte>, unit: seq<byte>)
    requires IsInt32(t) && IsInt32(o) && IsInt32(c)
    requires FieldText(name, MaxString) && FieldText(desc, MaxDesc) && FieldText(unit, MaxString)
    requires 0 <= base && 0 <= i && |pre| == base + i * VarHeaderSize
    requires |pre| + VarHeaderSize <= TwoTo31
    requires |e| == VarHeaderSize && e == EncodeInts([t, o, c, 0]) + e[16..]
    requires e[VarNameOffset..VarDescOffset] == Padded(name, MaxString)
    requires e[VarDescOffset..VarUnitOffset] == Padded(desc, MaxDesc)
    requires e[VarUnitOffset..VarHeaderSize] == Padded(unit, MaxString)
    ensures ReadEntry(pre + e + post, base, i) == Ok(VarHeaderEntry(t, o, c, Decode(name), Decode(desc), Decode(unit)))
  {
    var v := pre + e + post;
    assert v == pre + EncodeInts([t, o, c, 0]) + (e[16..] + post);
    ReadEntryInts(pre, t, o, c, e[16..] + post);
    EncodedTextReadsBack(pre, e, post, VarNameOffset, name, MaxString);
    EncodedTextReadsBack(pre, e, post, VarDescOffset, desc, MaxDesc);
    EncodedTextReadsBack(pre, e, post, VarUnitOffset, unit, MaxString);
    ReadEntryFromFields(v, base, i, |pre|, VarHeaderEntry(t, o, c, Decode(name), Decode(desc), Decode(unit)));
  }

  /** GetVarHeaders decodes an entry written at index i back into its type,
      offset, count and the three strings. */
  lemma EncodedEntryReadsBack(pre: seq<byte>, base: int, i: int,
                              t: int, o: int, c: int, name: seq<byte>, desc: seq<byte>, unit: seq<byte>,
                              post: seq<byte>)
    requires IsInt32(t) && IsInt32(o) && IsInt32(c)
    requires FieldText(name, MaxString) && FieldText(desc, MaxDesc) && FieldText(unit, MaxString)
    requires 0 <= base && 0 <= i && |pre| == base + i * VarHeaderSize
    requires |pre| + VarHeaderSize <= TwoTo31
    ensures ReadEntry(pre + EncodeEntry(t, o, c, name, desc, unit) + post, base, i) ==
            Ok(VarHeaderEntry(t, o, c, Decode(name), Decode(desc), Decode(unit)))
  {
    var ints := EncodeInts([t, o, c, 0]);
    var e := EncodeEntry(t, o, c, name, desc, unit);
    EntryFieldSlices(ints, Padded(name, MaxString), Padded(desc, MaxDesc), Padded(unit, MaxString));
    assert e == ints + e[16..];
    EntryBytesReadBack(pre, e, post, base, i, t, o, c, name, desc, unit);
  }
}
