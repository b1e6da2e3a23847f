/** TelemetryValue<T>: one telemetry variable bound by name to an
    IRacingSdk. Whether it exists and its metadata are copied from the
    catalog once, at construction; the value is re-read by RefreshValue. */
module Telemetry {
  import opened Wrappers
  import opened Memory
  import opened Layout
  import opened Header
  import opened Catalog
  import opened Sdk

  /** The bitfield classes with an `(int value)` constructor. */
  datatype BitfieldKind = EngineWarningBits | PitServiceBits | PaceBits | IncidentBits

  /** The T of TelemetryValue<T>: a type that GetValue<T> reads directly, or
      a bitfield class built from the raw int. */
  datatype FieldType = Direct(req: Request) | Bitfield(kind: BitfieldKind)
  {
    predicate WellTyped() { Direct? ==> req.WellTyped() }
  }

  /** What `_Value` holds: the value GetValue<T> returned, a bitfield object
      over its raw int, or null (a bitfield never read). */
  datatype FieldValue = Got(v: Value) | Bits(kind: BitfieldKind, raw: int) | NoBits

  /** default(T): the value a field holds before its first read. */
  function DefaultValue(ft: FieldType): (d: FieldValue)
    ensures ft.Direct? ==> d == Got(DefaultOf(ft.req))
    ensures ft.Bitfield? ==> d.NoBits?
  {
    match ft
    case Direct(req) => Got(DefaultOf(req))
    case Bitfield(_) => NoBits
  }

  /** GetValue<int> never yields anything but an int. */
  lemma IntReadIsInt(sdk: IRacingSdk, name: string)
    requires sdk.Valid()
    ensures var r := sdk.ReadValue(name, ScalarReq(IntType));
            r.Ok? ==> r.value.Plain? && r.value.x.IntElem?
  {
    if sdk.Ready(name) {
      var x := ScalarOf(sdk.fileMapView.bytes, sdk.varHeaders[name], IntType);
      assert x.Ok? ==> ElemTypeOfElem(x.value) == IntType;
    }
  }

  /** The raw int of a GetValue<int> result, or the fault it raised. */
  function RawInt(r: Result<Value>): (i: Result<int>)
    requires r.Ok? ==> r.value.Plain? && r.value.x.IntElem?
    ensures i.Ok? <==> r.Ok?
    ensures i.Err? ==> i.fault == r.fault
    ensures i.Ok? ==> r.value == Plain(IntElem(i.value))
  {
    if r.Err? then Err(r.fault) else Ok(r.value.x.i)
  }

  /** The value a successful read stores, then where the refresh leaves the
      field: a fault keeps the old value and leaves tagged with the name. */
  function Settle(read: Result<FieldValue>, prior: FieldValue, name: string): (s: (FieldValue, Option<Failure>))
    ensures read.Ok? ==> s == (read.value, None)
    ensures read.Err? ==> s == (prior, Some(Failure(read.fault, Some(name))))
  {
    match read
    case Ok(x) => (x, None)
    case Err(f) => (prior, Some(Failure(f, Some(name))))
  }

  class TelemetryValue {
    /** The name the field was bound with. */
    const key: string
    /** The catalog entry found at construction, if any. */
    const entry: Option<VarHeaderEntry>
    /** T. */
    const fieldType: FieldType
    /** `_Value`. */
    var value: FieldValue

    /** Exists: the name was catalogued when the field was made. */
    predicate Exists() { entry.Some? }

    /** Name, Description and Unit are null for a missing variable. */
    function Name(): Option<string> { if entry.Some? then Some(key) else None }
    function Description(): Option<string> { if entry.Some? then Some(entry.value.desc) else None }
    function Unit(): Option<string> { if entry.Some? then Some(entry.value.unit) else None }
    /** Type keeps the enum default irChar (0) for a missing variable. */
    function Type(): int { if entry.Some? then entry.value.varType else IrChar }

    /** The base constructor, given `sdk.VarHeaders` as it is now. */
    constructor (catalog: map<string, VarHeaderEntry>, name: string, fieldType: FieldType)
      ensures Exists() <==> name in catalog
      ensures name in catalog ==>
                Name() == Some(name) && Description() == Some(catalog[name].desc) &&
                Unit() == Some(catalog[name].unit) && Type() == catalog[name].varType
      ensures name !in catalog ==>
                Name() == None && Description() == None && Unit() == None && Type() == IrChar
      ensures key == name && this.fieldType == fieldType && value == DefaultValue(fieldType)
      ensures entry == (if name in catalog then Some(catalog[name]) else None)
    {
      key := name;
      entry := if name in catalog then Some(catalog[name]) else None;
      this.fieldType := fieldType;
      value := DefaultValue(fieldType);
    }

    /** The state that RefreshValue(sdk) leaves, from the value `prior`,
        the array cache `priorCache` and the contents `priorData` of the
        array cached for the key that it found. Nothing is read unless the
        sdk is initialised, its status bit says connected and the variable
        exists; otherwise the value is kept. Only an array read touches
        the cache: the first one caches a new zeroed array (a negative
        count faults), later ones refill the cached array in place (one of
        another element type faults), and the value is then that array. */
    ghost predicate Refreshed(sdk: IRacingSdk, prior: FieldValue, priorCache: map<string, Cached>, priorData: seq<Elem>,
                              failure: Option<Failure>)
      reads this, sdk, sdk.fileMapView, sdk.header, sdk.CachedObjects(key)
      requires sdk.Valid() && fieldType.WellTyped()
    {
      var kept := sdk.arrayCache == priorCache && sdk.CachedContents(key) == priorData;
      if !(sdk.isInitialized && HeaderInt(sdk.header.view.bytes, HStatusOffset) % 2 == 1 && Exists()) then
        value == prior && failure == None && kept
      else
        match fieldType
        case Bitfield(kind) =>
          IntReadIsInt(sdk, key);
          var raw := RawInt(sdk.ReadValue(key, ScalarReq(IntType)));
          kept && (value, failure) == Settle(if raw.Ok? then Ok(Bits(kind, raw.value)) else Err(raw.fault), prior, key)
        case Direct(req) =>
          if !req.ArrayReq? then
            var r := sdk.ReadValue(key, req);
            kept && (value, failure) == Settle(if r.Ok? then Ok(Got(r.value)) else Err(r.fault), prior, key)
          else if !sdk.Ready(key) then
            kept && value == Got(DefaultOf(req)) && failure == None
          else
            var e := sdk.varHeaders[key];
            if key !in priorCache then
              if e.count < 0 then kept && value == prior && failure == Some(Failure(NegativeArraySize, Some(key)))
              else
                key in sdk.arrayCache && sdk.arrayCache == priorCache[key := sdk.arrayCache[key]] &&
                sdk.arrayCache[key].t == req.t &&
                Stored(sdk.arrayCache[key], Refill(sdk.fileMapView.bytes, e, req.t, Zeros(req.t, e.count)), prior, failure)
            else if priorCache[key].t != req.t then
              kept && value == prior && failure == Some(Failure(InvalidCast, Some(key)))
            else
              sdk.arrayCache == priorCache &&
              Stored(priorCache[key], Refill(sdk.fileMapView.bytes, e, req.t, priorData), prior, failure)
    }

    /** An array read into the cached array c, which was refilled as f
        says: the value is c, or the read's fault, tagged with the name,
        keeps the old value. */
    ghost predicate Stored(c: Cached, f: Fill, prior: FieldValue, failure: Option<Failure>)
      reads this, c.data
    {
      c.data[..] == f.contents &&
      (value, failure) == Settle(if f.result.Ok? then Ok(Got(ArrayRef(c.t, c.data))) else Err(f.result.fault), prior, key)
    }

    /** RefreshValue(sdk): reads the value when initialised, connected and
        existing, through GetValue<int> and the int constructor for a
        bitfield and through GetValue<T> otherwise. IsConnected is asked
        whenever the sdk is initialised, so the header's status fields are
        updated even for a missing variable. */
    method RefreshValue(sdk: IRacingSdk) returns (failure: Option<Failure>)
      requires sdk.Valid() && fieldType.WellTyped()
      modifies this`value, sdk.header, sdk`arrayCache, sdk.CachedObjects(key)
      ensures sdk.Valid()
      ensures Refreshed(sdk, old(value), old(sdk.arrayCache), old(sdk.CachedContents(key)), failure)
      ensures key !in old(sdk.arrayCache) && key in sdk.arrayCache ==> fresh(sdk.arrayCache[key].data)
      ensures sdk.isInitialized ==>
                sdk.header.status == HeaderInt(sdk.header.view.bytes, HStatusOffset) &&
                sdk.header.newStatus == sdk.header.status
    {
      failure := None;
      if !sdk.isInitialized {
        return;
      }
      var connected := sdk.IsConnected();
      if !connected || !Exists() {
        return;
      }
      failure := ReadConnected(sdk);
    }

    /** The read RefreshValue makes once the sdk is initialised and
        connected and the variable exists. */
    method ReadConnected(sdk: IRacingSdk) returns (failure: Option<Failure>)
      requires sdk.Valid() && fieldType.WellTyped()
      requires sdk.isInitialized && HeaderInt(sdk.header.view.bytes, HStatusOffset) % 2 == 1 && Exists()
      modifies this`value, sdk`arrayCache, sdk.CachedObjects(key)
      ensures sdk.Valid()
      ensures Refreshed(sdk, old(value), old(sdk.arrayCache), old(sdk.CachedContents(key)), failure)
      ensures key !in old(sdk.arrayCache) && key in sdk.arrayCache ==> fresh(sdk.arrayCache[key].data)
    {
      match fieldType
      case Bitfield(kind) => failure := ReadBitfield(sdk, kind);
      case Direct(req) => failure := ReadDirect(sdk, req);
    }

    /** A bitfield is read through GetValue<int> and wrapped by its int
        constructor. */
    method ReadBitfield(sdk: IRacingSdk, kind: BitfieldKind) returns (failure: Option<Failure>)
      requires fieldType == Bitfield(kind)
      requires sdk.Valid() && fieldType.WellTyped()
      requires sdk.isInitialized && HeaderInt(sdk.header.view.bytes, HStatusOffset) % 2 == 1 && Exists()
      modifies this`value, sdk`arrayCache, sdk.CachedObjects(key)
      ensures sdk.Valid()
      ensures Refreshed(sdk, old(value), old(sdk.arrayCache), old(sdk.CachedContents(key)), failure)
      ensures key !in old(sdk.arrayCache) && key in sdk.arrayCache ==> fresh(sdk.arrayCache[key].data)
    {
      failure := None;
      var r := sdk.GetValue(key, ScalarReq(IntType));
      IntReadIsInt(sdk, key);
      var raw := RawInt(r);
      if raw.Err? {
        failure := Some(Failure(raw.fault, Some(key)));
      } else {
        value := Bits(kind, raw.value);
      }
    }

    /** Any other field is read through GetValue<T>. */
    method ReadDirect(sdk: IRacingSdk, req: Request) returns (failure: Option<Failure>)
      requires fieldType == Direct(req)
      requires sdk.Valid() && fieldType.WellTyped()
      requires sdk.isInitialized && HeaderInt(sdk.header.view.bytes, HStatusOffset) % 2 == 1 && Exists()
      modifies this`value, sdk`arrayCache, sdk.CachedObjects(key)
      ensures sdk.Valid()
      ensures Refreshed(sdk, old(value), old(sdk.arrayCache), old(sdk.CachedContents(key)), failure)
      ensures key !in old(sdk.arrayCache) && key in sdk.arrayCache ==> fresh(sdk.arrayCache[key].data)
    {
      failure := None;
      var r := sdk.GetValue(key, req);
      if r.Err? {
        failure := Some(Failure(r.fault, Some(key)));
      } else {
        value := Got(r.value);
      }
    }

    /** `new TelemetryValue<T>(sdk, name)`: a null sdk throws
        ArgumentNullException; otherwise the metadata are copied and the
        value is refreshed exactly once. A failure of that refresh is the
        exception the constructor lets out. */
    static method Create(sdk: IRacingSdk?, name: string, fieldType: FieldType)
      returns (t: TelemetryValue?, failure: Option<Failure>)
      requires sdk != null ==> sdk.Valid()
      requires fieldType.WellTyped()
      modifies sdk, if sdk != null then {sdk.header} + sdk.CachedObjects(name) else {}
      ensures sdk == null ==> t == null && failure == Some(Failure(ArgumentNull, None))
      ensures sdk != null ==>
                t != null && fresh(t) && sdk.Valid() &&
                t.key == name && t.fieldType == fieldType &&
                (t.Exists() <==> name in old(sdk.varHeaders)) &&
                t.entry == (if name in old(sdk.varHeaders) then Some(old(sdk.varHeaders)[name]) else None) &&
                t.Refreshed(sdk, DefaultValue(fieldType), old(sdk.arrayCache), old(sdk.CachedContents(name)), failure)
      ensures sdk != null ==>
                sdk.isInitialized == old(sdk.isInitialized) && sdk.fileMapView == old(sdk.fileMapView) &&
                sdk.header == old(sdk.header) && sdk.varHeaders == old(sdk.varHeaders) && sdk.posted == old(sdk.posted)
    {
      if sdk == null {
        return null, Some(Failure(ArgumentNull, None));
      }
      t := new TelemetryValue(sdk.varHeaders, name, fieldType);
      failure := t.RefreshValue(sdk);
    }
  }
}
