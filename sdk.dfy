/** iRacingSDK: attaching to the shared-memory segment, the catalog of
    variable headers, the typed reads of telemetry variables with the
    per-name array cache, the session-info string, and the broadcast
    messages it posts. */
module Sdk {
  import opened Wrappers
  import opened Memory
  import opened Layout
  import opened Header
  import opened Catalog
  import opened WordPacking

  // ---------------------------------------------------------------------------
  // Elements of telemetry variables

  /** The element types ReadArray<T> and the scalar reads distinguish. */
  datatype ElemType = BoolType | IntType | FloatType | DoubleType

  datatype Elem = BoolElem(b: bool) | IntElem(i: int) | FloatElem(f: Float32) | DoubleElem(d: Float64)

  /** Marshal size of one element. */
  function Size(t: ElemType): nat
  {
    match t
    case BoolType => 1
    case IntType => 4
    case FloatType => 4
    case DoubleType => 8
  }

  /** default(T): what a fresh `new T[n]` holds. */
  function Zero(t: ElemType): (z: Elem)
    ensures ElemTypeOfElem(z) == t
  {
    match t
    case BoolType => BoolElem(false)
    case IntType => IntElem(0)
    case FloatType => FloatElem(Float32(0))
    case DoubleType => DoubleElem(Float64(0))
  }

  function ElemTypeOfElem(x: Elem): ElemType
  {
    match x
    case BoolElem(_) => BoolType
    case IntElem(_) => IntType
    case FloatElem(_) => FloatType
    case DoubleElem(_) => DoubleType
  }

  /** ReadBoolean, ReadInt32, ReadSingle or ReadDouble at `pos`. */
  function ReadElem(t: ElemType, v: seq<byte>, pos: int): (r: Result<Elem>)
    ensures r.Ok? <==> CanRead(v, pos, Size(t))
    ensures r.Ok? ==> ElemTypeOfElem(r.value) == t
    ensures r.Err? ==> r.fault == OutOfView
  {
    match t
    case BoolType => if CanRead(v, pos, 1) then Ok(BoolElem(ReadBoolean(v, pos).value)) else Err(OutOfView)
    case IntType => if CanRead(v, pos, 4) then Ok(IntElem(ReadInt32(v, pos).value)) else Err(OutOfView)
    case FloatType => if CanRead(v, pos, 4) then Ok(FloatElem(ReadSingle(v, pos).value)) else Err(OutOfView)
    case DoubleType => if CanRead(v, pos, 8) then Ok(DoubleElem(ReadDouble(v, pos).value)) else Err(OutOfView)
  }

  /** Element j of a run of n readable elements is itself readable. */
  lemma ElemInRun(v: seq<byte>, pos: int, t: ElemType, n: nat, j: int)
    requires CanRead(v, pos, Size(t) * n) && 0 <= j < n
    ensures CanRead(v, pos + Size(t) * j, Size(t))
  {
    match t
    case BoolType =>
    case IntType =>
    case FloatType =>
    case DoubleType =>
  }

  /** An element past a run that ends before the view does is not readable. */
  lemma ElemPastRun(v: seq<byte>, pos: int, t: ElemType, n: nat, j: int)
    requires 0 <= pos && !CanRead(v, pos, Size(t) * (n + 1)) && n <= j
    ensures !CanRead(v, pos + Size(t) * j, Size(t))
  {
    match t
    case BoolType =>
    case IntType =>
    case FloatType =>
    case DoubleType =>
  }

  /** The contents of an array that held `prior` after ReadArray copied its
      first n elements from `pos` on: those are decoded from the view, the
      others are as they were. */
  function Transfer(v: seq<byte>, pos: int, t: ElemType, prior: seq<Elem>, n: nat): (r: seq<Elem>)
    requires n <= |prior| && CanRead(v, pos, Size(t) * n)
    ensures |r| == |prior|
    ensures forall j :: 0 <= j < n ==> ReadElem(t, v, pos + Size(t) * j) == Ok(r[j])
    ensures forall j :: n <= j < |r| ==> r[j] == prior[j]
  {
    seq(|prior|, j requires 0 <= j < |prior| =>
      if j < n then (ElemInRun(v, pos, t, n, j); ReadElem(t, v, pos + Size(t) * j).value)
      else prior[j])
  }

  /** The contents of a fresh `new T[n]`. */
  function Zeros(t: ElemType, n: nat): (z: seq<Elem>)
    ensures |z| == n && forall j :: 0 <= j < n ==> z[j] == Zero(t)
  {
    seq(n, _ => Zero(t))
  }

  /** The element type a variable of irsdk_VarType `varType` is read as;
      irChar and unknown types have none. */
  function ElemTypeOf(varType: int): (r: Option<ElemType>)
    ensures r.Some? <==> IrBool <= varType <= IrDouble
  {
    if varType == IrBool then Some(BoolType)
    else if varType == IrInt || varType == IrBitField then Some(IntType)
    else if varType == IrFloat then Some(FloatType)
    else if varType == IrDouble then Some(DoubleType)
    else None
  }

  /** iRacingSDK.Is360HzTo60HzDataCollection: a count of 6 is six 360 Hz
      samples of one 60 Hz value and is read as a scalar. */
  predicate Is360HzTo60HzDataCollection(count: int)
  {
    count == 6
  }

  /** The guard GetData puts on its array branches. */
  predicate ReadsArray(count: int)
  {
    count > 1 && !Is360HzTo60HzDataCollection(count)
  }

  // ---------------------------------------------------------------------------
  // GetData: the boxed value of one variable

  /** The object GetData returns. */
  datatype Boxed = Null | Str(s: string) | Scalar(x: Elem) | Array(t: ElemType, elems: seq<Elem>)

  /** What ReadArray(Buffer + offset, data, 0, count) does to an array
      holding `prior`: Header.Buffer first, then the transfer. */
  datatype Fill = Fill(result: Result<()>, contents: seq<Elem>)

  function Refill(v: seq<byte>, e: VarHeaderEntry, t: ElemType, prior: seq<Elem>): (f: Fill)
    requires |v| >= HeaderSize
    ensures |f.contents| == |prior|
    ensures f.result.Err? ==> f.contents == prior
  {
    match BufferOf(v)
    case Err(fault) => Fill(Err(fault), prior)
    case Ok(b) =>
      var pos := Wrap32(b + e.offset);
      match ReadArrayCount(v, pos, e.count, |prior|, Size(t))
      case Err(fault) => Fill(Err(fault), prior)
      case Ok(n) => Fill(Ok(()), Transfer(v, pos, t, prior, n))
  }

  /** The typed scalar read at Header.Buffer + offset. */
  function ScalarOf(v: seq<byte>, e: VarHeaderEntry, t: ElemType): Result<Elem>
    requires |v| >= HeaderSize
  {
    match BufferOf(v)
    case Err(fault) => Err(fault)
    case Ok(b) => ReadElem(t, v, Wrap32(b + e.offset))
  }

  /** GetData for a catalogued variable, in its order of evaluation: irChar
      allocates `new byte[count]` before it reads Header.Buffer. */
  function DataOf(v: seq<byte>, e: VarHeaderEntry): Result<Boxed>
    requires |v| >= HeaderSize
  {
    if e.varType == IrChar then
      if e.count < 0 then Err(NegativeArraySize)
      else
        match BufferOf(v)
        case Err(fault) => Err(fault)
        case Ok(b) =>
          match ReadBytes(v, Wrap32(b + e.offset), e.count)
          case Err(fault) => Err(fault)
          case Ok(bs) => Ok(Str(TrimEndNul(Decode(bs))))
    else
      match ElemTypeOf(e.varType)
      case None => Ok(Null)
      case Some(t) =>
        if ReadsArray(e.count) then
          var f := Refill(v, e, t, Zeros(t, e.count));
          if f.result.Err? then Err(f.result.fault) else Ok(Array(t, f.contents))
        else
          match ScalarOf(v, e, t)
          case Err(fault) => Err(fault)
          case Ok(x) => Ok(Scalar(x))
  }

  /** A numeric or boolean variable comes back as an array exactly when its
      count is above 1 and not 6, with one element per count and of the
      variable's type; otherwise it is the single element at its offset. */
  lemma DataShape(v: seq<byte>, e: VarHeaderEntry)
    requires |v| >= HeaderSize && ElemTypeOf(e.varType).Some?
    requires DataOf(v, e).Ok?
    ensures DataOf(v, e).value.Array? <==> e.count > 1 && e.count != 6
    ensures DataOf(v, e).value.Scalar? <==> e.count <= 1 || e.count == 6
    ensures DataOf(v, e).value.Array? ==>
              DataOf(v, e).value.t == ElemTypeOf(e.varType).value && |DataOf(v, e).value.elems| == e.count
    ensures DataOf(v, e).value.Scalar? ==>
              ScalarOf(v, e, ElemTypeOf(e.varType).value) == Ok(DataOf(v, e).value.x)
  {
  }

  /** An irChar variable comes back as text: a negative count faults
      before anything is read; otherwise the text is the code-page 1252
      decoding of the count bytes at Buffer + offset, with its trailing
      NUL bytes dropped, so it has at most count characters and does not
      end in NUL. */
  lemma TextShape(v: seq<byte>, e: VarHeaderEntry)
    requires |v| >= HeaderSize && e.varType == IrChar
    ensures e.count < 0 ==> DataOf(v, e) == Err(NegativeArraySize)
    ensures DataOf(v, e).Ok? ==>
              BufferOf(v).Ok? && ReadBytes(v, Wrap32(BufferOf(v).value + e.offset), e.count).Ok? &&
              var bs := ReadBytes(v, Wrap32(BufferOf(v).value + e.offset), e.count).value;
              DataOf(v, e) == Ok(Str(Decode(bs[..TrimmedLength(bs)]))) &&
              |DataOf(v, e).value.s| <= e.count &&
              (|DataOf(v, e).value.s| > 0 ==> DataOf(v, e).value.s[|DataOf(v, e).value.s| - 1] != '\0')
  {
    if DataOf(v, e).Ok? {
      var bs := ReadBytes(v, Wrap32(BufferOf(v).value + e.offset), e.count).value;
      DecodeThenTrim(bs);
    }
  }

  /** The elements of an array read: where element j lies inside the view
      it is decoded from Buffer + offset + j * size; where it does not, or
      lies past the count, the array keeps what it held. */
  lemma {:induction false} RefillElements(v: seq<byte>, e: VarHeaderEntry, t: ElemType, prior: seq<Elem>, b: int, j: int)
    requires |v| >= HeaderSize && BufferOf(v) == Ok(b)
    requires Refill(v, e, t, prior).result.Ok? && 0 <= j < |prior|
    ensures var pos := Wrap32(b + e.offset);
            var f := Refill(v, e, t, prior);
            if j < e.count && CanRead(v, pos + Size(t) * j, Size(t))
            then ReadElem(t, v, pos + Size(t) * j) == Ok(f.contents[j])
            else f.contents[j] == prior[j]
  {
    var pos := Wrap32(b + e.offset);
    RefillByParts(v, e, t, prior, b);
    var n := ReadArrayCount(v, pos, e.count, |prior|, Size(t)).value;
    TransferElement(v, pos, t, prior, n, e.count, j);
  }

  /** Element j of a transfer of the readable first n of `count` elements. */
  lemma TransferElement(v: seq<byte>, pos: int, t: ElemType, prior: seq<Elem>, n: nat, count: int, j: int)
    requires 0 <= pos && n <= |prior| && n <= count && CanRead(v, pos, Size(t) * n)
    requires n < count ==> !CanRead(v, pos, Size(t) * (n + 1))
    requires 0 <= j < |prior|
    ensures var c := Transfer(v, pos, t, prior, n);
            if j < count && CanRead(v, pos + Size(t) * j, Size(t))
            then ReadElem(t, v, pos + Size(t) * j) == Ok(c[j])
            else c[j] == prior[j]
  {
    if j < n {
      ElemInRun(v, pos, t, n, j);
    } else if j < count {
      ElemPastRun(v, pos, t, n, j);
    }
  }

  /** Refill once Header.Buffer has produced b. */
  lemma RefillByParts(v: seq<byte>, e: VarHeaderEntry, t: ElemType, prior: seq<Elem>, b: int)
    requires |v| >= HeaderSize && BufferOf(v) == Ok(b)
    ensures var pos := Wrap32(b + e.offset);
            var n := ReadArrayCount(v, pos, e.count, |prior|, Size(t));
            Refill(v, e, t, prior) ==
              if n.Ok? then Fill(Ok(()), Transfer(v, pos, t, prior, n.value)) else Fill(Err(n.fault), prior)
  {
  }

  // ---------------------------------------------------------------------------
  // GetValue<T>

  /** The T of GetValue<T>: a scalar read, one of the cached array types
      int[], float[], double[], or a type that falls back to `(T)GetData`. */
  datatype Request = ScalarReq(t: ElemType) | ArrayReq(t: ElemType) | OtherReq(k: OtherKind)
  {
    /** There is no cached bool[]: it falls back. */
    predicate WellTyped() { ArrayReq? ==> t != BoolType }
  }

  /** string, bool[], an int-based enum, an array of such enums. */
  datatype OtherKind = StringReq | BoolArrayReq | EnumReq | EnumArrayReq

  /** The value GetValue<T> returns; ArrayRef is the cached array object
      itself. */
  datatype Value =
    | Plain(x: Elem)
    | ArrayRef(t: ElemType, data: array?<Elem>)
    | Text(s: Option<string>)
    | Elems(es: Option<seq<Elem>>)
    | EnumVal(i: int)

  /** default(T). */
  function DefaultOf(req: Request): Value
  {
    match req
    case ScalarReq(t) => Plain(Zero(t))
    case ArrayReq(t) => ArrayRef(t, null)
    case OtherReq(k) =>
      match k
      case StringReq => Text(None)
      case EnumReq => EnumVal(0)
      case _ => Elems(None)
  }

  /** The cast `(T)` applied to GetData's object: a reference type lets null
      through, an enum does not; anything of another runtime type throws. */
  function Unbox(d: Boxed, k: OtherKind): (r: Result<Value>)
    ensures r.Err? ==> r.fault == InvalidCast || (r.fault == NullReference && k == EnumReq && d.Null?)
  {
    match k
    case StringReq =>
      if d.Null? then Ok(Text(None)) else if d.Str? then Ok(Text(Some(d.s))) else Err(InvalidCast)
    case BoolArrayReq =>
      if d.Null? then Ok(Elems(None))
      else if d.Array? && d.t == BoolType then Ok(Elems(Some(d.elems))) else Err(InvalidCast)
    case EnumReq =>
      if d.Null? then Err(NullReference)
      else if d.Scalar? && d.x.IntElem? then Ok(EnumVal(d.x.i)) else Err(InvalidCast)
    case EnumArrayReq =>
      if d.Null? then Ok(Elems(None))
      else if d.Array? && d.t == IntType then Ok(Elems(Some(d.elems))) else Err(InvalidCast)
  }

  function PlainOf(x: Result<Elem>): Result<Value>
  {
    match x
    case Err(fault) => Err(fault)
    case Ok(e) => Ok(Plain(e))
  }

  function UnboxResult(d: Result<Boxed>, k: OtherKind): Result<Value>
  {
    match d
    case Err(fault) => Err(fault)
    case Ok(b) => Unbox(b, k)
  }

  /** A cached array together with the element type it was created with. */
  datatype Cached = Cached(t: ElemType, data: array<Elem>)

  /** The cached array holds what the read left, and GetValue returns that
      very array, or the exception the read threw. */
  ghost predicate Filled(c: Cached, f: Fill, r: Result<Value>)
    reads c.data
  {
    c.data[..] == f.contents &&
    r == (if f.result.Ok? then Ok(ArrayRef(c.t, c.data)) else Err(f.result.fault))
  }

  /** ReadArray(pos, a, 0, count): a transfer in place into an existing array. */
  method ReadArrayInto(v: seq<byte>, pos: int, t: ElemType, a: array<Elem>, count: int) returns (r: Result<()>)
    modifies a
    ensures var n := ReadArrayCount(v, pos, count, a.Length, Size(t));
            if n.Ok? then r == Ok(()) && a[..] == Transfer(v, pos, t, old(a[..]), n.value)
            else r == Err(n.fault) && a[..] == old(a[..])
  {
    var n := ReadArrayCount(v, pos, count, a.Length, Size(t));
    if n.Err? {
      return Err(n.fault);
    }
    ghost var prior := a[..];
    var k := n.value;
    forall j | 0 <= j < k
      ensures CanRead(v, pos + Size(t) * j, Size(t))
    {
      ElemInRun(v, pos, t, k, j);
    }
    forall j | 0 <= j < k {
      a[j] := ReadElem(t, v, pos + Size(t) * j).value;
    }
    assert a[..] == Transfer(v, pos, t, prior, k);
    return Ok(());
  }

  // ---------------------------------------------------------------------------
  // Broadcast messages

  /** A message posted to HWND_BROADCAST: the registered message id, wParam
      and lParam. */
  datatype Posted = Posted(msgId: int, wParam: int, lParam: int)

  /** wParam carries the message type in its low word and var1 in its high
      word, each cast to short: both come back out when they fit a short. */
  lemma PostedWords(msg: int, var1: int)
    ensures LoWord(MakeLong(Wrap16(msg), Wrap16(var1))) == Wrap16(msg)
    ensures HiWord(MakeLong(Wrap16(msg), Wrap16(var1))) == Wrap16(var1)
    ensures IsInt16(msg) && IsInt16(var1) ==>
              LoWord(MakeLong(Wrap16(msg), Wrap16(var1))) == msg &&
              HiWord(MakeLong(Wrap16(msg), Wrap16(var1))) == var1
  {
    LoWordOfMakeLong(Wrap16(msg), Wrap16(var1));
    HiWordOfMakeLong(Wrap16(msg), Wrap16(var1));
  }

  // ---------------------------------------------------------------------------
  // iRacingSDK

  class IRacingSdk {
    var isInitialized: bool
    var fileMapView: MappedView?
    var header: IrsdkHeader?
    var varHeaders: map<string, VarHeaderEntry>
    var arrayCache: map<string, Cached>
    /** What RegisterWindowMessage returns for the broadcast message name;
        0 means registration failed and nothing is posted. */
    const broadcastMessageId: int
    /** Messages posted so far, oldest first. */
    var posted: seq<Posted>

    /** A header always reads the current view, and initialisation implies
        a header. */
    ghost predicate Valid()
      reads this, fileMapView, header
    {
      (header != null ==> fileMapView != null && header.view == fileMapView && header.Valid()) &&
      (isInitialized ==> header != null)
    }

    constructor (broadcastMessageId: int)
      ensures Valid() && !isInitialized && fileMapView == null && header == null
      ensures varHeaders == map[] && arrayCache == map[] && posted == []
      ensures this.broadcastMessageId == broadcastMessageId
    {
      isInitialized := false;
      fileMapView := null;
      header := null;
      varHeaders := map[];
      arrayCache := map[];
      this.broadcastMessageId := broadcastMessageId;
      posted := [];
    }

    /** GetVarHeaders: clears the catalog and stores the entries 0 .. VarCount-1
        in order, each under its name; the first entry that does not read
        throws and leaves the entries before it stored. */
    method GetVarHeaders() returns (r: Result<()>)
      requires Valid() && header != null
      modifies this`varHeaders
      ensures Valid()
      ensures (r, varHeaders) == VarHeadersOf(fileMapView.bytes)
    {
      r, varHeaders := ReadCatalog(header);
    }

    /** The loop of GetVarHeaders, filling a dictionary that starts empty. */
    static method ReadCatalog(h: IrsdkHeader) returns (r: Result<()>, catalog: map<string, VarHeaderEntry>)
      requires h.Valid()
      ensures (r, catalog) == ScanFrom(TableOf(h.view.bytes, h.VarHeaderOffset()), h.VarCount(), 0, map[])
    {
      ghost var v := h.view.bytes;
      ghost var base := h.VarHeaderOffset();
      ghost var n := h.VarCount();
      var read := TableOf(h.view.bytes, h.VarHeaderOffset());
      ghost var outcome := ScanFrom(read, n, 0, map[]);
      catalog := map[];
      var i := 0;
      while i < h.VarCount()
        invariant 0 <= i && (i <= n || i == 0)
        invariant ScanFrom(read, n, i, catalog) == outcome
        decreases n - i
      {
        var entry := read(i);
        if entry.Err? {
          return Err(entry.fault), catalog;
        }
        catalog := catalog[entry.value.name := entry.value];
        i := i + 1;
      }
      return Ok(()), catalog;
    }

    /** Startup: returns true at once when already initialised. Otherwise it
        opens the segment (absent: the sim is not running, false), makes a
        header over the view and reads the catalog; only a complete catalog
        sets IsInitialized. A failed catalog read leaves the view, the new
        header and the partial catalog in place. */
    method Startup(file: Option<MappedView>) returns (r: bool)
      requires Valid()
      requires file.Some? ==> file.value.Valid()
      modifies this`isInitialized, this`fileMapView, this`header, this`varHeaders
      ensures Valid()
      ensures arrayCache == old(arrayCache) && posted == old(posted)
      ensures old(isInitialized) ==>
                r && isInitialized && fileMapView == old(fileMapView) && header == old(header) &&
                varHeaders == old(varHeaders)
      ensures !old(isInitialized) && file.None? ==>
                !r && !isInitialized && fileMapView == old(fileMapView) && header == old(header) &&
                varHeaders == old(varHeaders)
      ensures !old(isInitialized) && file.Some? ==>
                fileMapView == file.value && header != null && fresh(header) &&
                header.status == 0 && header.newStatus == -1 &&
                (r, varHeaders) == (VarHeadersOf(file.value.bytes).0.Ok?, VarHeadersOf(file.value.bytes).1) &&
                isInitialized == r
    {
      if isInitialized {
        return true;
      }
      if file.None? {
        return false;
      }
      r := Attach(file.value);
    }

    /** Startup past its two early returns: the view, a header over it, the
        catalog, and IsInitialized exactly when the catalog is complete. */
    method Attach(view: MappedView) returns (r: bool)
      requires Valid() && view.Valid()
      modifies this`isInitialized, this`fileMapView, this`header, this`varHeaders
      ensures Valid()
      ensures fileMapView == view && header != null && fresh(header) &&
              header.status == 0 && header.newStatus == -1 &&
              (r, varHeaders) == (VarHeadersOf(view.bytes).0.Ok?, VarHeadersOf(view.bytes).1) &&
              isInitialized == r
    {
      isInitialized := false;
      fileMapView := view;
      header := new IrsdkHeader(view);
      var ok := GetVarHeaders();
      if ok.Err? {
        return false;
      }
      isInitialized := true;
      return true;
    }

    /** Shutdown: forgets the view and the header; the catalog and the array
        cache are kept. */
    method Shutdown()
      modifies this`isInitialized, this`fileMapView, this`header
      ensures Valid()
      ensures !isInitialized && fileMapView == null && header == null
    {
      isInitialized := false;
      fileMapView := null;
      header := null;
    }

    /** IsConnected: bit 0 of the status field, read through the Status
        getter, when initialised with a header. */
    method IsConnected() returns (r: bool)
      requires Valid()
      modifies header
      ensures Valid()
      ensures r <==> isInitialized && header != null && HeaderInt(header.view.bytes, HStatusOffset) % 2 == 1
      ensures isInitialized ==>
                header.status == HeaderInt(header.view.bytes, HStatusOffset) && header.newStatus == header.status
      ensures !isInitialized && header != null ==>
                header.status == old(header.status) && header.newStatus == old(header.newStatus)
    {
      if isInitialized && header != null {
        var status := header.Status();
        return status % 2 == 1;
      }
      return false;
    }

    /** The guards GetData and GetValue put before any read. */
    predicate Ready(name: string)
      reads this
    {
      isInitialized && header != null && fileMapView != null && name in varHeaders
    }

    /** GetData: null unless initialised with the name catalogued, otherwise
        the variable's boxed value. */
    function GetData(name: string): (r: Result<Boxed>)
      reads this, fileMapView, header
      requires Valid()
      ensures !Ready(name) ==> r == Ok(Null)
    {
      if !Ready(name) then Ok(Null) else DataOf(fileMapView.bytes, varHeaders[name])
    }

    /** What GetValue<T> returns for a T that is not a cached array type. */
    function ReadValue(name: string, req: Request): Result<Value>
      reads this, fileMapView, header
      requires Valid() && !req.ArrayReq?
    {
      if !Ready(name) then Ok(DefaultOf(req))
      else if req.ScalarReq? then PlainOf(ScalarOf(fileMapView.bytes, varHeaders[name], req.t))
      else UnboxResult(GetData(name), req.k)
    }

    /** The array GetValue would refill for `name`, if any. */
    function CachedObjects(name: string): set<object>
      reads this
    {
      if name in arrayCache then {arrayCache[name].data} else {}
    }

    /** What the array cached for `name` holds, if there is one. */
    ghost function CachedContents(name: string): seq<Elem>
      reads this, CachedObjects(name)
    {
      if name in arrayCache then arrayCache[name].data[..] else []
    }

    /** GetValue<T>. Scalars are read as T at the variable's offset, whatever
        its declared type. A cached array type refills the one array kept
        per name: the first call allocates `new T[count]` and caches it
        before reading, later calls cast the cached array (a different
        array type throws) and read into it again, so every call returns the
        same array. Other types cast GetData's object. */
    method GetValue(name: string, req: Request) returns (r: Result<Value>)
      requires Valid() && req.WellTyped()
      modifies this`arrayCache, CachedObjects(name)
      ensures Valid()
      ensures !Ready(name) ==> r == Ok(DefaultOf(req)) && arrayCache == old(arrayCache)
      ensures !(Ready(name) && req.ArrayReq?) ==> CachedContents(name) == old(CachedContents(name))
      ensures !req.ArrayReq? ==> r == ReadValue(name, req)
      ensures Ready(name) && req.ScalarReq? ==>
                arrayCache == old(arrayCache) && r == PlainOf(ScalarOf(fileMapView.bytes, varHeaders[name], req.t))
      ensures Ready(name) && req.OtherReq? ==>
                arrayCache == old(arrayCache) && r == UnboxResult(GetData(name), req.k)
      ensures Ready(name) && req.ArrayReq? && name !in old(arrayCache) ==>
                var e := varHeaders[name];
                if e.count < 0 then r == Err(NegativeArraySize) && arrayCache == old(arrayCache)
                else
                  name in arrayCache && arrayCache == old(arrayCache)[name := arrayCache[name]] &&
                  arrayCache[name].t == req.t && fresh(arrayCache[name].data) &&
                  Filled(arrayCache[name], Refill(fileMapView.bytes, e, req.t, Zeros(req.t, e.count)), r)
      ensures Ready(name) && req.ArrayReq? && name in old(arrayCache) ==>
                var c := old(arrayCache[name]);
                arrayCache == old(arrayCache) &&
                if c.t != req.t then r == Err(InvalidCast) && c.data[..] == old(c.data[..])
                else Filled(c, Refill(fileMapView.bytes, varHeaders[name], req.t, old(c.data[..])), r)
    {
      if !Ready(name) {
        r := Ok(DefaultOf(req));
      } else if req.ScalarReq? {
        r := GetScalar(name, req.t);
      } else if req.OtherReq? {
        r := UnboxResult(GetData(name), req.k);
      } else {
        r := GetCachedArray(name, req.t);
      }
    }

    /** GetValue<T> for int, float, double and bool: one read of T at
        Header.Buffer + offset. */
    method GetScalar(name: string, t: ElemType) returns (r: Result<Value>)
      requires Valid() && Ready(name)
      ensures r == PlainOf(ScalarOf(fileMapView.bytes, varHeaders[name], t))
    {
      var b := header.Buffer();
      if b.Err? {
        return Err(b.fault);
      }
      var x := ReadElem(t, fileMapView.bytes, Wrap32(b.value + varHeaders[name].offset));
      return PlainOf(x);
    }

    /** The array GetValue<T[]> reads into: the cached one when its type
        matches, else a fresh `new T[count]`, cached before anything is
        read. */
    method CachedArray(name: string, t: ElemType) returns (r: Result<Cached>)
      requires Valid() && Ready(name)
      modifies this`arrayCache
      ensures Valid()
      ensures name !in old(arrayCache) ==>
                if varHeaders[name].count < 0 then r == Err(NegativeArraySize) && arrayCache == old(arrayCache)
                else
                  r.Ok? && r.value.t == t && fresh(r.value.data) &&
                  r.value.data[..] == Zeros(t, varHeaders[name].count) &&
                  arrayCache == old(arrayCache)[name := r.value]
      ensures name in old(arrayCache) ==>
                arrayCache == old(arrayCache) &&
                r == (if arrayCache[name].t != t then Err(InvalidCast) else Ok(arrayCache[name]))
    {
      var count := varHeaders[name].count;
      if name !in arrayCache {
        if count < 0 {
          return Err(NegativeArraySize);
        }
        var data := new Elem[count](_ => Zero(t));
        arrayCache := arrayCache[name := Cached(t, data)];
        return Ok(Cached(t, data));
      }
      if arrayCache[name].t != t {
        return Err(InvalidCast);
      }
      return Ok(arrayCache[name]);
    }

    /** GetValue<T[]> for a cached array type. */
    method GetCachedArray(name: string, t: ElemType) returns (r: Result<Value>)
      requires Valid() && Ready(name)
      modifies this`arrayCache, CachedObjects(name)
      ensures Valid()
      ensures name !in old(arrayCache) ==>
                var e := varHeaders[name];
                if e.count < 0 then r == Err(NegativeArraySize) && arrayCache == old(arrayCache)
                else
                  name in arrayCache && arrayCache == old(arrayCache)[name := arrayCache[name]] &&
                  arrayCache[name].t == t && fresh(arrayCache[name].data) &&
                  Filled(arrayCache[name], Refill(fileMapView.bytes, e, t, Zeros(t, e.count)), r)
      ensures name in old(arrayCache) ==>
                var c := old(arrayCache[name]);
                arrayCache == old(arrayCache) &&
                if c.t != t then r == Err(InvalidCast) && c.data[..] == old(c.data[..])
                else Filled(c, Refill(fileMapView.bytes, varHeaders[name], t, old(c.data[..])), r)
    {
      var cached := CachedArray(name, t);
      if cached.Err? {
        r := Err(cached.fault);
      } else {
        r := ReadCached(cached.value, varHeaders[name]);
      }
    }

    /** `view.ReadArray(header.Buffer + offset, data, 0, count)` into the
        array GetValue returns. */
    method ReadCached(c: Cached, e: VarHeaderEntry) returns (r: Result<Value>)
      requires Valid() && header != null
      modifies c.data
      ensures Filled(c, Refill(fileMapView.bytes, e, c.t, old(c.data[..])), r)
    {
      ghost var prior := c.data[..];
      var v := fileMapView.bytes;
      var b := header.Buffer();
      if b.Err? {
        assert Refill(v, e, c.t, prior) == Fill(Err(b.fault), prior);
        return Err(b.fault);
      }
      r := ReadAtBuffer(v, b.value, c, e);
    }

    /** ReadCached once Header.Buffer is known to be `b`. */
    static method ReadAtBuffer(v: seq<byte>, b: int, c: Cached, e: VarHeaderEntry) returns (r: Result<Value>)
      requires |v| >= HeaderSize && BufferOf(v) == Ok(b)
      modifies c.data
      ensures Filled(c, Refill(v, e, c.t, old(c.data[..])), r)
    {
      var pos := Wrap32(b + e.offset);
      RefillByParts(v, e, c.t, c.data[..], b);
      var done := ReadArrayInto(v, pos, c.t, c.data, e.count);
      if done.Err? {
        return Err(done.fault);
      }
      return Ok(ArrayRef(c.t, c.data));
    }

    /** TrimEndIndex: the length of the span without its trailing zero bytes. */
    static method TrimEndIndex(span: seq<byte>) returns (n: int)
      ensures 0 <= n <= |span|
      ensures forall k :: n <= k < |span| ==> span[k] == 0
      ensures n > 0 ==> span[n - 1] != 0
      ensures n == TrimmedLength(span)
    {
      var i := |span| - 1;
      while i >= 0 && span[i] == 0
        invariant -1 <= i < |span|
        invariant forall k :: i < k < |span| ==> span[k] == 0
      {
        i := i - 1;
      }
      n := i + 1;
    }

    /** GetSessionInfo: null unless initialised. Otherwise it reads
        SessionInfoLength bytes from SessionInfoOffset into a pooled array
        (at least that long, with whatever it held before), and decodes the
        first SessionInfoLength bytes with their trailing NULs removed. */
    method GetSessionInfo(rented: array<byte>) returns (r: Result<Option<string>>)
      requires Valid()
      requires isInitialized ==> rented.Length >= header.SessionInfoLength()
      modifies rented
      ensures !isInitialized ==> r == Ok(None) && rented[..] == old(rented[..])
      ensures isInitialized ==>
                SessionRead(fileMapView.bytes, header.SessionInfoOffset(), header.SessionInfoLength(),
                            old(rented[..]), rented[..], r)
    {
      if !isInitialized || header == null {
        r := Ok(None);
      } else {
        r := ReadSessionText(fileMapView.bytes, header.SessionInfoOffset(), header.SessionInfoLength(), rented);
      }
    }

    /** `len` bytes at `pos` read into the pooled array, which held `before`
        and holds `after`, and the text GetSessionInfo makes of them: a
        negative length or an unreadable position throws and leaves the
        array alone; otherwise as many bytes as the view has (at most len)
        are copied, and the first len bytes of the array are decoded with
        their trailing NULs removed. */
    static ghost predicate SessionRead(v: seq<byte>, pos: int, len: int, before: seq<byte>, after: seq<byte>,
                                r: Result<Option<string>>)
    {
      |after| == |before| &&
      if len < 0 then r == Err(ArgumentOutOfRange) && after == before
      else
        match ReadArrayCount(v, pos, len, |before|, 1)
        case Err(fault) => r == Err(fault) && after == before
        case Ok(n) =>
          len <= |after| &&
          (forall j :: 0 <= j < |after| ==> after[j] == if j < n then v[pos + j] else before[j]) &&
          r == Ok(Some(TrimEndNul(Decode(after[..len]))))
    }

    /** GetSessionInfo once initialised. */
    static method ReadSessionText(v: seq<byte>, pos: int, len: int, rented: array<byte>)
      returns (r: Result<Option<string>>)
      requires rented.Length >= len
      modifies rented
      ensures SessionRead(v, pos, len, old(rented[..]), rented[..], r)
    {
      if len < 0 {
        return Err(ArgumentOutOfRange);
      }
      var n := ReadArrayCount(v, pos, len, rented.Length, 1);
      if n.Err? {
        return Err(n.fault);
      }
      CopyInto(v, pos, n.value, rented);
      var text := DecodeTrimmed(rented[..len]);
      return Ok(Some(text));
    }

    /** `view.ReadArray(pos, rented, 0, count)` for a count that lies inside
        the view and the array. */
    static method CopyInto(v: seq<byte>, pos: int, count: nat, rented: array<byte>)
      requires 0 <= pos && pos + count <= |v| && count <= rented.Length
      modifies rented
      ensures forall j :: 0 <= j < rented.Length ==>
                rented[j] == if j < count then v[pos + j] else old(rented[j])
    {
      forall j | 0 <= j < count {
        rented[j] := v[pos + j];
      }
    }

    /** The session text: the span cut at TrimEndIndex, decoded as Windows-1252. */
    static method DecodeTrimmed(span: seq<byte>) returns (text: string)
      ensures text == TrimEndNul(Decode(span))
    {
      var trimmed := TrimEndIndex(span);
      DecodeThenTrim(span);
      if trimmed == |span| {
        assert span[..trimmed] == span;
        return Decode(span);
      }
      var trimmedArray := span[..trimmed];
      return Decode(trimmedArray);
    }

    /** BroadcastMessage(msg, var1, var2): posts wParam = MakeLong((short)msg,
        (short)var1) and lParam = var2, when the message id is registered. */
    method BroadcastMessage(msg: int, var1: int, var2: int)
      modifies this`posted
      ensures posted == old(posted) +
                (if broadcastMessageId != 0
                 then [Posted(broadcastMessageId, MakeLong(Wrap16(msg), Wrap16(var1)), var2)] else [])
    {
      if broadcastMessageId != 0 {
        posted := posted + [Posted(broadcastMessageId, MakeLong(Wrap16(msg), Wrap16(var1)), var2)];
      }
    }

    /** BroadcastMessage(msg, var1, var2, var3): var2 and var3 packed into
        lParam as MakeLong((short)var2, (short)var3). */
    method BroadcastMessagePacked(msg: int, var1: int, var2: int, var3: int)
      modifies this`posted
      ensures posted == old(posted) +
                (if broadcastMessageId != 0
                 then [Posted(broadcastMessageId, MakeLong(Wrap16(msg), Wrap16(var1)),
                              MakeLong(Wrap16(var2), Wrap16(var3)))] else [])
    {
      BroadcastMessage(msg, var1, MakeLong(Wrap16(var2), Wrap16(var3)));
    }
  }
}
