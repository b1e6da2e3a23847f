/** The fixed binary layout of the shared-memory segment: the constants of
    the accessors (iRacingSDK, CVarBuf, CiRSDKHeader, Defines) and the
    sequential struct declarations (VarHeader, VarBuf, iRSDKHeader) that
    Marshal.SizeOf measures. */
module Layout {

  // Defines
  const MaxString: nat := 32
  const MaxDesc: nat := 64
  const MaxVars: nat := 4096
  const MaxBufs: nat := 4
  const StatusConnected: int := 1

  // CiRSDKHeader: header field offsets
  const HVerOffset: int := 0
  const HStatusOffset: int := 4
  const HTickRateOffset: int := 8
  const HSesInfoUpdateOffset: int := 12
  const HSesInfoLenOffset: int := 16
  const HSesInfoOffsetOffset: int := 20
  const HNumVarsOffset: int := 24
  const HVarHeaderOffsetOffset: int := 28
  const HNumBufOffset: int := 32
  const HBufLenOffset: int := 36

  // CVarBuf: where the ring-slot descriptors start, and offsets inside one
  const VarBufOffset: int := 48
  const VarTickCountOffset: int := 0
  const VarBufOffsetOffset: int := 4
  /** The field initialiser of CVarBuf.VarBufSize; the constructor replaces it. */
  const VarBufSizeInitial: int := 32

  // iRacingSDK: offsets inside one variable header
  const VarTypeOffset: int := 0
  const VarOffsetOffset: int := 4
  const VarCountOffset: int := 8
  const VarNameOffset: int := 16
  const VarDescOffset: int := 48
  const VarUnitOffset: int := 112

  /** One field of a LayoutKind.Sequential struct: its name, the offset the
      code reads it at, and its size in bytes. */
  datatype Field = Field(name: string, offset: int, size: nat)

  /** Sequential layout (no gaps, no reordering, all fields 4-byte
      multiples): the first field starts at 0 and every other field starts
      where the one before it ends. */
  ghost predicate Sequential(fs: seq<Field>)
  {
    |fs| > 0 && fs[0].offset == 0 &&
    (forall i :: 0 < i < |fs| ==> fs[i].offset == fs[i - 1].offset + fs[i - 1].size) &&
    (forall i :: 0 <= i < |fs| ==> fs[i].size % 4 == 0)
  }

  /** Marshal.SizeOf of a sequential struct: where its last field ends. */
  function SizeOf(fs: seq<Field>): int
    requires |fs| > 0
  {
    fs[|fs| - 1].offset + fs[|fs| - 1].size
  }

  /** struct VarBuf { int tickCount; int bufOffset; int pad[2]; } with the
      offsets CVarBuf reads at. */
  const VarBufFields: seq<Field> :=
    [Field("tickCount", VarTickCountOffset, 4), Field("bufOffset", VarBufOffsetOffset, 4),
     Field("pad", 8, 2 * 4)]

  /** struct VarHeader: three ints, one int of padding, then the three
      ByValTStr strings, with the offsets iRacingSDK reads at. */
  const VarHeaderFields: seq<Field> :=
    [Field("type", VarTypeOffset, 4), Field("offset", VarOffsetOffset, 4),
     Field("count", VarCountOffset, 4), Field("pad", 12, 1 * 4),
     Field("name", VarNameOffset, MaxString), Field("desc", VarDescOffset, MaxDesc),
     Field("unit", VarUnitOffset, MaxString)]

  /** struct iRSDKHeader: ten ints, two ints of padding, MaxBufs VarBufs,
      with the offsets of CiRSDKHeader's accessors and CVarBuf.VarBufOffset. */
  const HeaderFields: seq<Field> :=
    [Field("ver", HVerOffset, 4), Field("status", HStatusOffset, 4),
     Field("tickRate", HTickRateOffset, 4), Field("sessionInfoUpdate", HSesInfoUpdateOffset, 4),
     Field("sessionInfoLen", HSesInfoLenOffset, 4), Field("sessionInfoOffset", HSesInfoOffsetOffset, 4),
     Field("numVars", HNumVarsOffset, 4), Field("varHeaderOffset", HVarHeaderOffsetOffset, 4),
     Field("numBuf", HNumBufOffset, 4), Field("bufLen", HBufLenOffset, 4),
     Field("pad1", 40, 2 * 4), Field("varBuf", VarBufOffset, MaxBufs * SizeOf(VarBufFields))]

  /** The stride CVarBuf uses, Marshal.SizeOf(typeof(VarBuf)). */
  const VarBufSize: int := 16
  /** The stride iRacingSDK and CVarBuf use, Marshal.SizeOf(typeof(VarHeader)). */
  const VarHeaderSize: int := 144
  /** Marshal.SizeOf(typeof(iRSDKHeader)): the part of the view every
      accessor of the header reads from. */
  const HeaderSize: int := 112

  /** The offsets the code reads the three structs at are exactly their
      sequential layouts, and the sizes are 16, 144 and 112 bytes: the
      declared VarBuf is 16 bytes, not the 32 of CVarBuf's field initialiser. */
  lemma StructLayouts()
    ensures Sequential(VarBufFields) && SizeOf(VarBufFields) == VarBufSize != VarBufSizeInitial
    ensures Sequential(VarHeaderFields) && SizeOf(VarHeaderFields) == VarHeaderSize
    ensures Sequential(HeaderFields) && SizeOf(HeaderFields) == HeaderSize
  {
    VarBufLayout();
    VarHeaderLayout();
    HeaderLayout();
  }

  /** The VarBuf part of StructLayouts. */
  lemma VarBufLayout()
    ensures Sequential(VarBufFields) && SizeOf(VarBufFields) == VarBufSize != VarBufSizeInitial
  {
  }

  /** The VarHeader part of StructLayouts. */
  lemma VarHeaderLayout()
    ensures Sequential(VarHeaderFields) && SizeOf(VarHeaderFields) == VarHeaderSize
  {
  }

  /** The iRSDKHeader part of StructLayouts. */
  lemma HeaderLayout()
    ensures Sequential(HeaderFields) && SizeOf(HeaderFields) == HeaderSize
  {
    VarBufLayout();
    assert HeaderFields[11] == Field("varBuf", VarBufOffset, MaxBufs * VarBufSize);
  }
}
