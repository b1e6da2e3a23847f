# iRacing SDK wrapper, modelled in Dafny

This project models the core of the iRacing SDK wrapper, a C# library. The
library reads the iRacing simulator's telemetry from a shared-memory segment
and drives the simulator through broadcast window messages. The model covers
five parts:

- **Shared-memory decoding** (irsdkSharp). Covers the header of the mapped
  segment, read at fixed offsets on every access, and `CVarBuf.OffsetLatest`,
  which chooses one of up to four ring slots. Also covers the variable-header
  catalog `GetVarHeaders` builds, the typed reads `GetData` and `GetValue<T>`
  with the per-name array cache, the session-info string `GetSessionInfo`,
  the lifecycle (`Startup`, `Shutdown`, `IsConnected`), and the word packing
  `MakeLong` / `HiWord` / `LoWord` used when posting messages.
- **Typed field binding** (`TelemetryValue<T>`). The catalog metadata is
  captured once at construction; `RefreshValue` re-reads the value, either
  directly or through a bitfield's int constructor.
- **The polling loop** (`SdkWrapper`). It runs against one observation of the
  simulator per iteration and records what it does as a trace of events
  (Connected, Disconnected, Connecting, TelemetryUpdated, SessionInfoUpdated,
  re-attach, error log, crash report, sleeps). Also covers the frequency
  setter, the tick delay, the disconnected sleep and `Start` / `Stop`.
- **Session-info text repair** (`SessionInfo`). Covers `ApplyQuotingFixes`,
  the character-level state machine with its five key trackers;
  `FixMultiColons`, which works line by line; and `FixYaml`, which chains
  them and cuts the text at `CarSetup:`.
- **Small encoders**. Covers `PlayerIncidents.Get` and the pit-command
  channel (`BroadcastBase`, `PitCommandControl`), modelled as a log of posted
  messages.

Module layout:

- `Memory` (memory.dfy): bytes, the little-endian reads of a view accessor,
  C#'s unchecked int and short conversions, and Windows-1252 decoding.
- `Layout` (layout.dfy): struct layouts and constants.
- `Header` (header.dfy): the header classes, `CVarBuf`, and round trips
  through an encoded header.
- `Catalog` (catalog.dfy): the variable-header table.
- `WordPacking` (word_packing.dfy).
- `Sdk` (sdk.dfy): the `iRacingSDK` class.
- `Telemetry` (telemetry_value.dfy).
- `Incidents` (player_incidents.dfy).
- `Wrapper` (sdk_wrapper.dfy).
- `Broadcast` (broadcast.dfy).
- `Session` (session_info.dfy), with line-level facts about the quoting fixes
  in `QuotingLines` (quoting_lines.dfy).
- `Wrappers` (wrappers.dfy): the `Result` / `Option` types.

Modelling choices:

- **The mapped view** is a `MappedView` object whose `bytes` the producer may
  change between any two reads. Each accessor is a function of the bytes at
  the moment it is called, so no accessor caches anything.
- **Exceptions** become `Result` values with a fault tag, for example the
  out-of-view read that `ReadInt32` throws.
- **`VarBuf` stride.** The field initialiser of `CVarBuf` gives 32 bytes for
  a `VarBuf`, and descriptions of the layout repeat that figure. The
  constructor replaces that value with `Marshal.SizeOf(typeof(VarBuf))`,
  which is 16 for the declared struct (irsdkSharp/CVarBuf.cs:15,24-25). The
  model follows the code and uses 16 (`Layout.StructLayouts`).
- **`OffsetLatest`** never updates `latestTick`. It therefore selects the LAST
  slot whose tick exceeds slot 0's, not the slot with the largest tick. The
  model keeps this. `Header.SelectionIsNotMaximum` gives ticks where the two
  differ. `Header.RingOrderSelectsNewest` shows they agree when the producer
  writes the slots round-robin with increasing ticks.
- **Wrapper fields.** The wrapper's loop fields are one `LoopState` record,
  and the loop's local `lastUpdate` and `tries` are parameters. Each method of
  the `SdkWrapper` class is proved equal to a function on that record and the
  event trace; the properties are lemmas about those functions.
- **`ProcessSessionInfoUpdate`** runs through `Task.Run` in the source; here
  it runs to completion inside the tick.
- **Connecting after a connection.** After an earlier connection, the
  Connecting event can be raised on every disconnected iteration that finds
  the memory file without variables; the source's condition allows this.
- **`BroadcastBase` base class.** `PitCommandControl` inherits from it in the
  source; here it holds one as `base`.
- **`Environment.NewLine`** is taken to be `"\r\n"`.
- **CRLF text in `ApplyQuotingFixes`.** The closing quote of a value goes in
  front of the `'\n'`, so on CRLF text it lands after the `'\r'`. The line
  lemmas are stated for `'\n'`-terminated lines.
- **Lines after a blank line.** A line after an empty or all-space line is
  never repaired: that line makes every tracker give up, and the newline only
  resets the trackers on the following line (`QuotingLines.LineAfterBlankKept`,
  `QuotingLines.AfterBlankExample`).
- **The setup cut** in `FixYaml` happens only when `CarSetup:` is found at an
  index above 0. A text that starts with the heading is kept whole.

## Model

| member | source | states |
|---|---|---|
| Memory.Wrap32 | irsdkSharp/CVarBuf.cs:38 | the result is an int32, and an int32 input is returned unchanged (C# unchecked int arithmetic) |
| Memory.Wrap32Congruent | irsdkSharp/CVarBuf.cs:38 | the wrapped value differs from the exact one by a multiple of 2^32 |
| Memory.Wrap32Absorbs | irsdkSharp/CVarBuf.cs:38 | wrapping after every addition equals wrapping once at the end |
| Memory.Wrap16 | irsdkSharp/iRacingSDK.cs:455 | the `(short)` cast yields a short, keeps shorts, and changes a value by a multiple of 2^16 |
| Memory.ReadInt32 | irsdkSharp/CiRSDKHeader.cs:32 | the read succeeds exactly when all four bytes lie inside the view, yields an int32, and otherwise faults out of view |
| Memory.ReadEncodedInt32 | irsdkSharp/CiRSDKHeader.cs:32 | an int32 written little-endian anywhere in the view reads back unchanged |
| Memory.ReadBoolean | irsdkSharp/iRacingSDK.cs:214 | one byte inside the view; the value is true iff the byte is not zero |
| Memory.ReadSingle | irsdkSharp/iRacingSDK.cs:237 | the read succeeds exactly when four bytes are inside the view |
| Memory.ReadDouble | irsdkSharp/iRacingSDK.cs:247 | the read succeeds exactly when eight bytes are inside the view |
| Memory.ReadArrayCount | irsdkSharp/iRacingSDK.cs:291 | ReadArray faults on a negative count, a short array or a start outside the view; otherwise it transfers the most whole elements that fit, at most count |
| Memory.ReadBytes | irsdkSharp/iRacingSDK.cs:176-181 | a new byte array filled by ReadArray faults on a negative count or a start outside the view; otherwise it has the requested length and holds the view's bytes as far as they reach, then zeros |
| Memory.Cp1252RoundTrip | irsdkSharp/iRacingSDK.cs:106-110 | every Windows-1252 byte is recovered from its character, and only byte 0 decodes to NUL |
| Memory.Cp1252Injective | irsdkSharp/iRacingSDK.cs:106-110 | distinct bytes decode to distinct characters |
| Memory.Decode | irsdkSharp/iRacingSDK.cs:182 | GetString yields one character per byte |
| Memory.DecodeAt | irsdkSharp/iRacingSDK.cs:182 | character i of the decoded text is the decoding of byte i |
| Memory.TrimEndNul | irsdkSharp/iRacingSDK.cs:182-184 | TrimEnd('\0') keeps a prefix that does not end in NUL and drops only NULs |
| Memory.TrimmedLength | irsdkSharp/iRacingSDK.cs:382-388 | the trimmed length leaves only zero bytes after it and a nonzero byte just before it |
| Memory.NulDecodesToNul | irsdkSharp/iRacingSDK.cs:182 | a decoded character is NUL exactly when its byte is 0 |
| Memory.DecodeThenTrim | irsdkSharp/iRacingSDK.cs:368-374 | trimming the decoded text equals decoding the bytes cut at their trimmed length, so only trailing NUL bytes are lost |
| Memory.PaddedRoundTrip | irsdkSharp/iRacingSDK.cs:176-184 | a NUL-padded string field decodes back to its text, whatever the padding |
| Layout.StructLayouts | irsdkSharp/iRacingSDK.cs:505-565 | the VarBuf, VarHeader and iRSDKHeader structs are sequential with sizes 16 (not the initialiser's 32), 144 and 112 at the accessor offsets |
| Header.HeaderInt | irsdkSharp/CiRSDKHeader.cs:8-17 | every accessor offset lies inside the header, so its int32 read succeeds |
| Header.SlotPosPlain | irsdkSharp/CVarBuf.cs:38-53 | slot i's field is at 48 + 16·i + field, with no wrap for any slot a header can describe |
| Header.LastAbove | irsdkSharp/CVarBuf.cs:44-52 | the selected index lies inside the ticks, or is 0 when there are none |
| Header.LastAboveIsLast | irsdkSharp/CVarBuf.cs:44-52 | the selection is 0 or a slot whose tick beats slot 0's, and no later slot beats slot 0's |
| Header.FirstSlotWhenNoneExceeds | irsdkSharp/CVarBuf.cs:48 | when no tick exceeds slot 0's, slot 0 is selected |
| Header.SelectionIsNotMaximum | irsdkSharp/CVarBuf.cs:44-52 | ticks 1, 5, 3 select slot 2 although slot 1 holds the largest tick |
| Header.RingOrderSelectsNewest | irsdkSharp/CVarBuf.cs:44-52 | for round-robin increasing ticks the selection is the slot written last, which holds the largest tick |
| Header.OffsetLatestReadsSelected | irsdkSharp/CVarBuf.cs:34-53 | when every tick is read and stored, OffsetLatest reads the bufOffset of the selected slot |
| Header.ShortTicksArrayYieldsZero | irsdkSharp/CVarBuf.cs:34-58 | when BufferCount grows between its two reads, the out-of-range store is caught and the result is 0 |
| Header.NoSlotsYieldsZero | irsdkSharp/CVarBuf.cs:41-42 | a BufferCount of 0 gives 0 |
| Header.BufferIsASlotOffset | irsdkSharp/CVarBuf.cs:53 | with a positive BufferCount a successful result is the bufOffset of some slot in [0, BufferCount) |
| Header.BufferOfReadable | irsdkSharp/CVarBuf.cs:34-53 | with readable ticks, Buffer is the read of the selected slot's bufOffset |
| Header.BufferOfSlots | irsdkSharp/CVarBuf.cs:34-53 | over slots holding given records, Buffer is the bufOffset of the record the selection picks |
| Header.CVarBuf.constructor | irsdkSharp/CVarBuf.cs:20-26 | the buffer reads the header's view |
| Header.CVarBuf.OffsetLatestWith | irsdkSharp/CVarBuf.cs:28-60 | the getter body, with both reads of BufferCount given, computes the selection function |
| Header.CVarBuf.SelectLatest | irsdkSharp/CVarBuf.cs:44-52 | the selection loop returns the last slot whose tick exceeds slot 0's, or 0 |
| Header.CVarBuf.OffsetLatest | irsdkSharp/CVarBuf.cs:28-60 | the getter equals the Buffer function of the current bytes |
| Header.ReadEncodedInts | irsdkSharp/iRacingSDK.cs:539-565 | the k-th int of an encoded run reads back at offset 4k |
| Header.EncodedHeaderReadsBack | irsdkSharp/CiRSDKHeader.cs:30-90 | each of the ten accessors reads back the field the producer wrote at its offset |
| Header.EncodedSlotReadsBack | irsdkSharp/CVarBuf.cs:38-53 | slot i's tick and bufOffset read back what the producer wrote into slot i |
| Header.EncodedHeaderBuffer | irsdkSharp/CiRSDKHeader.cs:92-98 | over a header written with 1 to 4 slots, Buffer is the bufOffset of the slot the selection picks from the written ticks |
| Header.MappedView.constructor | irsdkSharp/iRacingSDK.cs:120-121 | the view holds the segment's bytes, at least a header's worth |
| Header.IrsdkHeader.constructor | irsdkSharp/CiRSDKHeader.cs:19-28 | a header over the view, with `_status` 0 and `newStatus` -1 |
| Header.IrsdkHeader.Status | irsdkSharp/CiRSDKHeader.cs:35-47 | always returns the freshly read status int, and both status fields then hold it |
| Header.IrsdkHeader.Buffer | irsdkSharp/CiRSDKHeader.cs:92-98 | equals OffsetLatest evaluated on the bytes at call time |
| Catalog.ReadText | irsdkSharp/iRacingSDK.cs:176-184 | a string field reads iff it starts inside the view, and yields the decoded bytes without trailing NULs |
| Catalog.ReadEntry | irsdkSharp/iRacingSDK.cs:173-185 | entry i reads exactly when its six fields can be read, and otherwise faults out of view |
| Catalog.StoreNext | irsdkSharp/iRacingSDK.cs:185 | storing one more entry is one dictionary assignment under its name |
| Catalog.StoreKeys | irsdkSharp/iRacingSDK.cs:185 | the keys are exactly the names of the stored entries |
| Catalog.StoreLastWins | irsdkSharp/iRacingSDK.cs:185 | each key maps to the last entry with that name, since a later entry overwrites an earlier one |
| Catalog.TableFault | irsdkSharp/iRacingSDK.cs:173-181 | a table read fails exactly when the entry is unreadable, and then faults out of view |
| Catalog.EntriesUpToNext | irsdkSharp/iRacingSDK.cs:171-186 | reading one more entry appends it to the table order |
| Catalog.FirstUnreadable | irsdkSharp/iRacingSDK.cs:171-186 | every entry before the returned index reads, and the one at it, if inside the count, does not |
| Catalog.ReadablePrefix | irsdkSharp/iRacingSDK.cs:171-186 | the entries before the prefix length read, and the prefix stops at the first unreadable entry or the count |
| Catalog.ScanStoresPrefix | irsdkSharp/iRacingSDK.cs:170-186 | the loop stores exactly the readable prefix in order, and succeeds iff that prefix is the whole table |
| Catalog.ReadablePrefixUnique | irsdkSharp/iRacingSDK.cs:171-186 | the prefix is determined by where the first unreadable entry is |
| Catalog.VarHeadersOfPrefix | irsdkSharp/iRacingSDK.cs:168-187 | GetVarHeaders leaves the readable prefix of the header's table, completes iff every entry reads, and otherwise faults out of view |
| Catalog.ReadPaddedText | irsdkSharp/iRacingSDK.cs:179-184 | a padded text field found in the view reads back as its text |
| Catalog.ReadEntryFromFields | irsdkSharp/iRacingSDK.cs:173-185 | an entry whose six field reads give e reads as e |
| Catalog.EncodedEntryReadsBack | irsdkSharp/iRacingSDK.cs:173-185 | an entry written at index i decodes to its type, offset, count and the three strings |
| WordPacking.MakeLong | irsdkSharp/iRacingSDK.cs:485-488 | packing two shorts yields an int32 |
| WordPacking.HiWord | irsdkSharp/iRacingSDK.cs:490-493 | HiWord yields a short |
| WordPacking.LoWord | irsdkSharp/iRacingSDK.cs:495-498 | LoWord yields a short |
| WordPacking.MakeLongExact | irsdkSharp/iRacingSDK.cs:485-488 | the packed value is high·2^16 plus the unsigned low short, with no wrap |
| WordPacking.LoWordOfMakeLong | irsdkSharp/iRacingSDK.cs:485-498 | LoWord recovers the low short of every pair |
| WordPacking.HiWordOfMakeLong | irsdkSharp/iRacingSDK.cs:485-498 | HiWord recovers the high short of every pair |
| WordPacking.MakeLongOfWords | irsdkSharp/iRacingSDK.cs:485-498 | every int32 is the packing of its two halves |
| Sdk.Zero | irsdkSharp/iRacingSDK.cs:284 | default(T) is an element of type T |
| Sdk.ReadElem | irsdkSharp/iRacingSDK.cs:271-274 | a typed read succeeds iff its bytes are inside the view, yields that type, and otherwise faults out of view |
| Sdk.Transfer | irsdkSharp/iRacingSDK.cs:291 | after an in-place transfer of n elements those are decoded from the view and the rest keep their old contents |
| Sdk.Zeros | irsdkSharp/iRacingSDK.cs:284 | a fresh array holds count default elements |
| Sdk.ElemTypeOf | irsdkSharp/iRacingSDK.cs:197-251 | exactly the bool, int, bitfield, float and double variable types have an element type |
| Sdk.DataShape | irsdkSharp/iRacingSDK.cs:206-247 | a numeric or boolean variable comes back as an array iff count > 1 and count ≠ 6, with count elements of its type; otherwise it is the single element at Buffer + offset |
| Sdk.TextShape | irsdkSharp/iRacingSDK.cs:199-203 | a text variable faults on a negative count; otherwise its count bytes at Buffer + offset are decoded with trailing NULs removed, at most count characters |
| Sdk.RefillElements | irsdkSharp/iRacingSDK.cs:279-325 | after an array read, element j is decoded from Buffer + offset + j·size when it lies inside the view and below count, and otherwise keeps its old value |
| Sdk.TransferElement | irsdkSharp/iRacingSDK.cs:291 | element j of a partial transfer is read when inside the readable run, and kept otherwise |
| Sdk.Unbox | irsdkSharp/iRacingSDK.cs:329 | the cast `(T)GetData(name)` fails only with an invalid cast, or null into an enum |
| Sdk.ReadArrayInto | irsdkSharp/iRacingSDK.cs:291 | ReadArray into an existing array transfers what fits and leaves the array alone when it faults |
| Sdk.PostedWords | irsdkSharp/iRacingSDK.cs:465 | LoWord and HiWord of the posted wParam give back the `(short)` casts of type and var1, which are the values themselves when they fit a short |
| Sdk.IRacingSdk.constructor | irsdkSharp/iRacingSDK.cs:97-110 | a fresh sdk is uninitialised with no view, header, catalog, array cache or posts |
| Sdk.IRacingSdk.GetVarHeaders | irsdkSharp/iRacingSDK.cs:168-187 | the catalog is cleared and rebuilt from the view as the readable prefix of the table |
| Sdk.IRacingSdk.ReadCatalog | irsdkSharp/iRacingSDK.cs:170-186 | the loop computes the table scan from an empty dictionary |
| Sdk.IRacingSdk.Startup | irsdkSharp/iRacingSDK.cs:113-165 | true at once when initialised; false with no change when the segment is absent; otherwise a new view and header, the catalog read, and IsInitialized iff that read completed, with a partial catalog kept |
| Sdk.IRacingSdk.Attach | irsdkSharp/iRacingSDK.cs:120-155 | attaching sets the view, a fresh header and the catalog, and IsInitialized iff the catalog read completed |
| Sdk.IRacingSdk.Shutdown | irsdkSharp/iRacingSDK.cs:406-421 | clears IsInitialized, the view and the header, and keeps the catalog and the array cache |
| Sdk.IRacingSdk.IsConnected | irsdkSharp/iRacingSDK.cs:391-404 | true iff initialised with a header whose status has bit 0 set, and the header's status fields are updated by the read |
| Sdk.IRacingSdk.GetData | irsdkSharp/iRacingSDK.cs:189-193 | null when not initialised or the name is not catalogued; otherwise the boxed read whose shape `Sdk.DataShape` states |
| Sdk.IRacingSdk.GetValue | irsdkSharp/iRacingSDK.cs:254-330 | default when not ready; scalars read at Buffer + offset; cached array types allocate and cache once per name and afterwards refill the same array in place, with a different array type failing its cast; other types cast GetData's object; only an array read changes a cached array |
| Sdk.IRacingSdk.GetScalar | irsdkSharp/iRacingSDK.cs:271-274 | a scalar request reads T once at Buffer + offset |
| Sdk.IRacingSdk.CachedArray | irsdkSharp/iRacingSDK.cs:281-290 | the first request caches a fresh zeroed array (a negative count faults), and later ones return the cached array or fail the cast |
| Sdk.IRacingSdk.GetCachedArray | irsdkSharp/iRacingSDK.cs:279-325 | an array request refills the one array cached per name and returns it |
| Sdk.IRacingSdk.ReadCached | irsdkSharp/iRacingSDK.cs:291-292 | the cached array is refilled from Buffer + offset in place |
| Sdk.IRacingSdk.ReadAtBuffer | irsdkSharp/iRacingSDK.cs:291-292 | the refill once Buffer is known |
| Sdk.IRacingSdk.TrimEndIndex | irsdkSharp/iRacingSDK.cs:382-388 | returns n with only zero bytes from n on and a nonzero byte at n-1 when n > 0 |
| Sdk.IRacingSdk.GetSessionInfo | irsdkSharp/iRacingSDK.cs:356-380 | null when not initialised; otherwise the session bytes read into the pooled array, decoded, with trailing NULs removed |
| Sdk.IRacingSdk.ReadSessionText | irsdkSharp/iRacingSDK.cs:361-375 | a negative length or unreadable offset faults and leaves the array alone; otherwise what fits is copied and the first length bytes are decoded and trimmed |
| Sdk.IRacingSdk.CopyInto | irsdkSharp/iRacingSDK.cs:365 | the first count array elements take the view's bytes, and the rest are unchanged |
| Sdk.IRacingSdk.DecodeTrimmed | irsdkSharp/iRacingSDK.cs:366-374 | the text is the span's decoding without trailing NULs |
| Sdk.IRacingSdk.BroadcastMessage | irsdkSharp/iRacingSDK.cs:458-468 | posts wParam = MakeLong((short)msg, (short)var1) and lParam = var2 exactly when the message id is registered |
| Sdk.IRacingSdk.BroadcastMessagePacked | irsdkSharp/iRacingSDK.cs:453-456 | the three-int overload posts var2 and var3 packed as two shorts |
| Telemetry.DefaultValue | iRacingSdkWrapper/TelemetryValue.cs:116 | an unread field holds default(T): the request's default, or no bitfield |
| Telemetry.IntReadIsInt | iRacingSdkWrapper/TelemetryValue.cs:143 | GetValue<int> yields nothing but an int |
| Telemetry.RawInt | iRacingSdkWrapper/TelemetryValue.cs:143-145 | the raw int of a GetValue<int> result, with the same fault when it fails |
| Telemetry.Settle | iRacingSdkWrapper/TelemetryValue.cs:140-158 | a successful read is stored; a fault keeps the old value and leaves tagged with the field name |
| Telemetry.TelemetryValue.constructor | iRacingSdkWrapper/TelemetryValue.cs:14-22 | Exists iff the name is catalogued, and then Name, Description, Unit and Type are that entry's; the value starts at default |
| Telemetry.TelemetryValue.RefreshValue | iRacingSdkWrapper/TelemetryValue.cs:132-159 | the value and the array cache are kept unless the sdk is initialised, connected and the variable exists; then a bitfield is built from GetValue<int> and any other type from GetValue<T>; a fault is tagged with the name and its kind is the read's; an array read stores its contents in the one array cached for the name, and any other read leaves the cache and its contents alone |
| Telemetry.TelemetryValue.ReadConnected | iRacingSdkWrapper/TelemetryValue.cs:140-152 | the read of a connected, existing variable, with the same cache and content outcome |
| Telemetry.TelemetryValue.ReadBitfield | iRacingSdkWrapper/TelemetryValue.cs:140-146 | a bitfield takes the int constructor of GetValue<int>, and the array cache and its contents are unchanged |
| Telemetry.TelemetryValue.ReadDirect | iRacingSdkWrapper/TelemetryValue.cs:147-152 | any other field takes GetValue<T>: a zeroed array cached on first use (a negative count faults), a cached array of another type fails its cast, and the stored contents are the refill of the cached array |
| Telemetry.TelemetryValue.Create | iRacingSdkWrapper/TelemetryValue.cs:9-90 | a null sdk throws ArgumentNullException; otherwise the metadata come from the catalog at construction, exactly one refresh runs from the default value, and the sdk's other fields are unchanged |
| Incidents.ReportOf | iRacingSdkWrapper/Bitfields/PlayerIncidents.cs:16-17 | the masked report is a byte |
| Incidents.ReportIsLowByte | iRacingSdkWrapper/Bitfields/PlayerIncidents.cs:16-17 | the report is the raw int modulo 256, i.e. its low byte read unsigned |
| Incidents.Get | iRacingSdkWrapper/Bitfields/PlayerIncidents.cs:14-77 | returns iff the report byte is at most 8, with that report and a multiplier in {0, 1, 2, 4}; otherwise ArgumentOutOfRangeException |
| Incidents.GetIgnoresHighBits | iRacingSdkWrapper/Bitfields/PlayerIncidents.cs:16-42 | bits above the low byte, the penalty byte among them, do not change the result |
| Incidents.OngoingReportsWeighTheSame | iRacingSdkWrapper/Bitfields/PlayerIncidents.cs:44-70 | an ongoing report weighs as its first report, and contacts weigh 0 |
| Incidents.GetExamples | iRacingSdkWrapper/Bitfields/PlayerIncidents.cs:44-74 | 0x0208 is a 4x car collision; -1 and 0x0309 throw |
| Wrapper.CountAppend | iRacingSdkWrapper/SdkWrapper.cs:339-395 | event counts add over concatenated traces |
| Wrapper.CountAbsent | iRacingSdkWrapper/SdkWrapper.cs:339-395 | an event is absent iff its count is 0 |
| Wrapper.WaitTimeBounds | iRacingSdkWrapper/SdkWrapper.cs:162-171 | for 1..60 Hz the wait is floor(1000/f) - 10, between 6 and 990, and the wait plus 10 is the longest whole period polling f times a second |
| Wrapper.TickDelay | iRacingSdkWrapper/SdkWrapper.cs:366-369 | the delay is an int32 of at least 1, and equals WaitTimeMs - elapsed when that fits and exceeds 1 |
| Wrapper.TickDelayWithinWait | iRacingSdkWrapper/SdkWrapper.cs:366-369 | the delay never exceeds the wait (or 1), and an instant tick sleeps the whole wait |
| Wrapper.SleptMs | iRacingSdkWrapper/SdkWrapper.cs:559-571 | the disconnected sleep is 0 for a non-positive ConnectSleepTime and one step when cancelled; up to 2147483600 it is the first multiple of 100 reaching ConnectSleepTime; above 2147483644 it never ends |
| Wrapper.SleepNeverEnds | iRacingSdkWrapper/SdkWrapper.cs:559-571 | above 2147483644 no number of steps brings the wrapping counter to ConnectSleepTime |
| Wrapper.SleepEndsAt | iRacingSdkWrapper/SdkWrapper.cs:559-571 | from 1 to 2147483644 the sleep ends after whole steps, at a wrapped counter that reaches ConnectSleepTime |
| Wrapper.SleepNotEndedBefore | iRacingSdkWrapper/SdkWrapper.cs:559-571 | no earlier step brings the wrapped counter to ConnectSleepTime |
| Wrapper.SessionInfoUpdateEffect | iRacingSdkWrapper/SdkWrapper.cs:492-517 | a known driver id differing from the player's car is replaced; non-empty text raises SessionInfoUpdated with it; null or empty text sets the retry flag; nothing else changes |
| Wrapper.ConnectBlockEffect | iRacingSdkWrapper/SdkWrapper.cs:421-436 | connecting sets the flag, re-attaches after an earlier connection or first-time memory file (taking the new memory-file flag and clearing the first-connection flag), then raises Connected |
| Wrapper.ConnectedStepEffect | iRacingSdkWrapper/SdkWrapper.cs:419-517 | every field after a connected iteration; a refresh happens iff the header counter moved or a retry was pending, and takes the counter (or the old value with no header) |
| Wrapper.ConnectedStepTrace | iRacingSdkWrapper/SdkWrapper.cs:419-517 | the connected trace is the connect block's, then TelemetryUpdated, then SessionInfoUpdated on a refresh that finds text |
| Wrapper.DisconnectBlockEffect | iRacingSdkWrapper/SdkWrapper.cs:519-555 | fields and trace of the disconnected branch before the sleep |
| Wrapper.DisconnectedStepEffect | iRacingSdkWrapper/SdkWrapper.cs:519-572 | a disconnection clears the flag and forgets lastUpdate; otherwise Startup's result is kept unless Connecting is raised, which clears it and sets the logged flag; the driver id is never reset |
| Wrapper.CountConnectedStep | iRacingSdkWrapper/SdkWrapper.cs:419-517 | per event, what a connected iteration adds to the trace |
| Wrapper.CountDisconnectedStep | iRacingSdkWrapper/SdkWrapper.cs:519-572 | per event, what a disconnected iteration adds to the trace, its sleep included |
| Wrapper.ConnectedOnTransition | iRacingSdkWrapper/SdkWrapper.cs:421-447 | Connected is raised once exactly when the flag goes from false to true, never Disconnected, and IsConnected then holds iff the driver id is known |
| Wrapper.ReattachOnConnect | iRacingSdkWrapper/SdkWrapper.cs:426-432 | the re-attach happens exactly on connecting after an earlier connection or after the first-time memory file |
| Wrapper.DisconnectedOnTransition | iRacingSdkWrapper/SdkWrapper.cs:521-529 | Disconnected is raised exactly when the wrapper had connected and is still flagged connected; no Connected is raised, and IsConnected is then false |
| Wrapper.SessionInfoRefreshRule | iRacingSdkWrapper/SdkWrapper.cs:469-512 | SessionInfoUpdated with text is raised exactly on a refresh that reads that text, non-empty |
| Wrapper.ConnectingRule | iRacingSdkWrapper/SdkWrapper.cs:539-549 | Connecting is raised iff the memory file exists, the header is missing or has no variables, and this is the first time or after a connection |
| Wrapper.TransitionsConnectedStep | iRacingSdkWrapper/SdkWrapper.cs:419-490 | the only transition a connected iteration adds is Connected, when it connects |
| Wrapper.TransitionsDisconnectedStep | iRacingSdkWrapper/SdkWrapper.cs:519-572 | the only transition a disconnected iteration adds is Disconnected, when it disconnects |
| Wrapper.IterationTracksConnection | iRacingSdkWrapper/SdkWrapper.cs:356-372 | after one iteration the flag follows the sim, and its transitions are exactly the change of the flag |
| Wrapper.AlternatesStep | iRacingSdkWrapper/SdkWrapper.cs:356-372 | extending alternating transitions by the change of state keeps them alternating |
| Wrapper.PassLogs | iRacingSdkWrapper/SdkWrapper.cs:374-388 | a pass logs iff one of its fault points throws below the limit, and writes the crash report and breaks iff it throws at the limit; only an exception counts |
| Wrapper.FaultTracksConnection | iRacingSdkWrapper/SdkWrapper.cs:419-549 | a throwing iteration keeps lastUpdate, leaves the flag set iff the sim is connected or it raised Disconnected, sets hasConnected only past a Connected handler that returned, adds the same transitions as a non-throwing one and logs nothing itself |
| Wrapper.PassStateIgnoresTrace | iRacingSdkWrapper/SdkWrapper.cs:354-388 | a pass leaves fields and lastUpdate that depend on neither tries nor the trace |
| Wrapper.PassAlternates | iRacingSdkWrapper/SdkWrapper.cs:351-395 | one pass whose handlers do not throw keeps the transitions alternating and in step with the flag, whether or not a telemetry read throws |
| Wrapper.CrashOnFifthFault | iRacingSdkWrapper/SdkWrapper.cs:342-417 | since tries is never reset, one crash report is written iff five exceptions occur before cancellation or an unending sleep, earlier ones are logged, and only the crash break shuts the sdk down |
| Wrapper.TransitionsAlternate | iRacingSdkWrapper/SdkWrapper.cs:351-395 | over a run in which no Connected or Disconnected handler throws, Connected and Disconnected alternate |
| Wrapper.DisconnectedTwice | iRacingSdkWrapper/SdkWrapper.cs:519-529 | a throwing Disconnected handler leaves the flag set, so Disconnected is raised twice in a row |
| Wrapper.ConnectingStepBeforeConnection | iRacingSdkWrapper/SdkWrapper.cs:539-549 | before any connection a pass whose Connecting handler does not throw raises Connecting at most once, only if never raised, and records it |
| Wrapper.ConnectingOnceBeforeConnection | iRacingSdkWrapper/SdkWrapper.cs:539-549 | before the first connection, and while no Connecting handler throws, Connecting is raised at most once over a run |
| Wrapper.ConnectingTwice | iRacingSdkWrapper/SdkWrapper.cs:539-549 | a throwing Connecting handler leaves the logged flag unset, so Connecting is raised again before any connection |
| Wrapper.FaultsAfterConnect | iRacingSdkWrapper/SdkWrapper.cs:339-441 | five iterations whose PlayerCarIdx read throws raise Connected once, log four errors, write the crash report and shut the sdk down, connected until the loop is left |
| Wrapper.FrequencySetting.constructor | iRacingSdkWrapper/SdkWrapper.cs:138 | the shared frequency starts at 60 |
| Wrapper.SdkWrapper.constructor | iRacingSdkWrapper/SdkWrapper.cs:85-106 | the frequency becomes 60, ConnectSleepTime 1000 and the driver id -1, with nothing running or raised |
| Wrapper.SdkWrapper.SetTelemetryUpdateFrequency | iRacingSdkWrapper/SdkWrapper.cs:143-160 | values outside 1..60 throw ArgumentOutOfRangeException and change nothing; the current value changes nothing; any other is stored and the wait recomputed |
| Wrapper.SdkWrapper.Start | iRacingSdkWrapper/SdkWrapper.cs:242-261 | a running wrapper is left alone; otherwise a run begins and is counted |
| Wrapper.SdkWrapper.Stop | iRacingSdkWrapper/SdkWrapper.cs:266-290 | a stopped wrapper is left alone; otherwise the run ends and the sdk is shut down |
| Wrapper.SdkWrapper.ProcessSessionInfoUpdate | iRacingSdkWrapper/SdkWrapper.cs:492-517 | the fields and trace the session-info step leaves |
| Wrapper.SdkWrapper.Connect | iRacingSdkWrapper/SdkWrapper.cs:421-436 | the connect block's fields and trace, and whether the Connected handler threw |
| Wrapper.SdkWrapper.ProcessConnectedState | iRacingSdkWrapper/SdkWrapper.cs:419-490 | throws exactly at the fault points; then the fields and trace left at that point, and otherwise the connected step's fields, lastUpdate and trace |
| Wrapper.SdkWrapper.DisconnectedSleep | iRacingSdkWrapper/SdkWrapper.cs:559-571 | the sleep loop over a wrapping int32 counter sleeps SleptMs, and reports the sleep that never ends |
| Wrapper.SdkWrapper.Disconnect | iRacingSdkWrapper/SdkWrapper.cs:521-555 | the disconnected branch's fields, lastUpdate and trace, or those left when the Disconnected or Connecting handler throws |
| Wrapper.SdkWrapper.ProcessDisconnectedState | iRacingSdkWrapper/SdkWrapper.cs:519-572 | the disconnected step's fields, lastUpdate and trace, whether a handler threw, and whether the sleep never ends |
| Wrapper.SdkWrapper.Iterate | iRacingSdkWrapper/SdkWrapper.cs:354-373 | one try block: the iteration step's fields, lastUpdate and trace, or the fault point's when it throws, and whether it stalls |
| Wrapper.SdkWrapper.Loop | iRacingSdkWrapper/SdkWrapper.cs:339-417 | the run from lastUpdate -1 and tries 0; when the loop is left the flag is cleared, and after the crash break without cancellation the sdk is shut down |
| Broadcast.Delivered | iRacingSdkWrapper/Broadcast/BroadcastBase.cs:12-16 | one post per request when connected and registered, none otherwise |
| Broadcast.DeliveredDecodes | irsdkSharp/iRacingSDK.cs:458-468 | each post carries the id, its request's type and var1 as shorts in wParam, and var2 in lParam, recoverable when they fit a short |
| Broadcast.DeliveredAppend | iRacingSdkWrapper/Broadcast/BroadcastBase.cs:12-16 | sending in two batches posts what one batch does |
| Broadcast.PackedWords | iRacingSdkWrapper/Broadcast/BroadcastBase.cs:18-22 | LoWord and HiWord of the packed lParam give back the `(short)` casts of var2 and var3, which are the values themselves when they fit a short |
| Broadcast.TireCommandMembers | iRacingSdkWrapper/Broadcast/PitCommandControl.cs:43-53 | a tire slot asks for one change iff it is non-null and marked, with its mode and pressure |
| Broadcast.TireCommandsMembers | iRacingSdkWrapper/Broadcast/PitCommandControl.cs:41-54 | ChangeTires asks exactly for the marked non-null tires, each with its mode and pressure |
| Broadcast.TireCommandsOrdered | iRacingSdkWrapper/Broadcast/PitCommandControl.cs:41-54 | one request per marked tire, in mode order LF, RF, LR, RR |
| Broadcast.NewTireChangeSendsNothing | iRacingSdkWrapper/Broadcast/PitCommandControl.cs:130-144 | a new TireChange has four tires, none marked, and asks for nothing |
| Broadcast.BroadcastBase.constructor | iRacingSdkWrapper/Broadcast/BroadcastBase.cs:7-10 | holds the wrapper |
| Broadcast.BroadcastBase.Broadcast | iRacingSdkWrapper/Broadcast/BroadcastBase.cs:12-16 | nothing while the wrapper is not connected, otherwise BroadcastMessage(type, var1, var2) |
| Broadcast.BroadcastBase.BroadcastPacked | iRacingSdkWrapper/Broadcast/BroadcastBase.cs:18-22 | nothing while not connected, otherwise var2 and var3 packed as two shorts |
| Broadcast.PitCommandControl.constructor | iRacingSdkWrapper/Broadcast/PitCommandControl.cs:10-12 | a control over the wrapper |
| Broadcast.PitCommandControl.AddFuel | iRacingSdkWrapper/Broadcast/PitCommandControl.cs:18-21 | posts, while connected, (PitCommand, Fuel 2, liters) |
| Broadcast.PitCommandControl.ChangeTire | iRacingSdkWrapper/Broadcast/PitCommandControl.cs:23-26 | posts, while connected, (PitCommand, mode, pressure) |
| Broadcast.PitCommandControl.ChangeTireCompound | iRacingSdkWrapper/Broadcast/PitCommandControl.cs:32-35 | posts, while connected, (PitCommand, TC 12, index) |
| Broadcast.PitCommandControl.ChangeTires | iRacingSdkWrapper/Broadcast/PitCommandControl.cs:41-54 | posts, while connected, one ChangeTire per marked non-null tire, in the order LF, RF, LR, RR |
| Broadcast.PitCommandControl.ChangeIfMarked | iRacingSdkWrapper/Broadcast/PitCommandControl.cs:43-53 | one tire slot of ChangeTires |
| Broadcast.PitCommandControl.Tearoff | iRacingSdkWrapper/Broadcast/PitCommandControl.cs:59-62 | posts, while connected, (PitCommand, WS 1, 0) |
| Broadcast.PitCommandControl.FastRepair | iRacingSdkWrapper/Broadcast/PitCommandControl.cs:67-70 | posts, while connected, (PitCommand, FastRepair 8, 0) |
| Broadcast.PitCommandControl.Clear | iRacingSdkWrapper/Broadcast/PitCommandControl.cs:75-78 | posts, while connected, (PitCommand, Clear 0, 0) |
| Broadcast.PitCommandControl.ClearTires | iRacingSdkWrapper/Broadcast/PitCommandControl.cs:83-86 | posts, while connected, (PitCommand, ClearTires 7, 0) |
| Broadcast.PitCommandControl.ClearFuel | iRacingSdkWrapper/Broadcast/PitCommandControl.cs:91-94 | posts, while connected, (PitCommand, ClearFuel 11, 0) |
| Broadcast.PitCommandControl.ClearFastRepair | iRacingSdkWrapper/Broadcast/PitCommandControl.cs:99-102 | posts, while connected, (PitCommand, ClearFR 10, 0) |
| Broadcast.PitCommandControl.ClearWindshield | iRacingSdkWrapper/Broadcast/PitCommandControl.cs:107-110 | posts, while connected, (PitCommand, ClearWS 9, 0) |
| Session.InitialTrackers | iRacingSdkWrapper/SessionInfo.cs:203-205 | one valid, fresh tracker for each of the five keys |
| Session.ReactUpTo | iRacingSdkWrapper/SessionInfo.cs:226-280 | the tracker loop keeps every tracker valid, so no key is read past its end |
| Session.ResetUpTo | iRacingSdkWrapper/SessionInfo.cs:217-221 | the reset loop keeps the trackers valid |
| Session.Consume | iRacingSdkWrapper/SessionInfo.cs:210-284 | one character keeps every tracker valid |
| Session.Scanned | iRacingSdkWrapper/SessionInfo.cs:203-284 | after any input the five trackers are valid |
| Session.ResetTrackers | iRacingSdkWrapper/SessionInfo.cs:217-221 | the reset loop applies the tracker reset to every tracker in turn |
| Session.ShowToTrackers | iRacingSdkWrapper/SessionInfo.cs:226-280 | the tracker loop computes each tracker's reaction in turn |
| Session.ApplyQuotingFixes | iRacingSdkWrapper/SessionInfo.cs:201-294 | the method computes the quoting fixes |
| Session.ReactUpToCounts | iRacingSdkWrapper/SessionInfo.cs:226-280 | the ignoring counter moves exactly as the number of ignoring trackers does |
| Session.ShortcutAgrees | iRacingSdkWrapper/SessionInfo.cs:212-223 | when all trackers ignore the line the shortcut does what the loop would |
| Session.ScannedCountsIgnoring | iRacingSdkWrapper/SessionInfo.cs:207-284 | the counter always equals the number of ignoring trackers, so the shortcut is taken exactly when they all ignore |
| Session.ScannedInsertsQuotes | iRacingSdkWrapper/SessionInfo.cs:210-284 | the text built is the input with quotes inserted |
| Session.QuotingInsertsOnlyQuotes | iRacingSdkWrapper/SessionInfo.cs:201-294 | the input is a subsequence of the output, and the extra characters are all quotes |
| Session.ScannedQuiet | iRacingSdkWrapper/SessionInfo.cs:264-282 | without a colon no key completes and nothing is written |
| Session.NoColonUnchanged | iRacingSdkWrapper/SessionInfo.cs:201-294 | an input without a colon comes back unchanged |
| Session.FixLine | iRacingSdkWrapper/SessionInfo.cs:169-189 | the char loop rewrites one line as FixedLine |
| Session.FixMultiColons | iRacingSdkWrapper/SessionInfo.cs:161-195 | the method computes the rewritten text |
| Session.FixedLineSpec | iRacingSdkWrapper/SessionInfo.cs:169-189 | a line with at most one colon or a quote is copied; otherwise every colon after the first becomes a dash and nothing else changes; the length is kept |
| Session.LinesUnbroken | iRacingSdkWrapper/SessionInfo.cs:165 | the lines ReadLine returns hold no break character |
| Session.LinesOfJoin | iRacingSdkWrapper/SessionInfo.cs:191 | reading back the lines AppendLine wrote gives the same lines |
| Session.MultiColonsKeepsLines | iRacingSdkWrapper/SessionInfo.cs:161-195 | the output has the same number of lines, each the rewritten input line and of the same length |
| Session.IndexFrom | iRacingSdkWrapper/SessionInfo.cs:81 | IndexOf gives the first exact match, or -1 when there is none |
| Session.CutSetupSpec | iRacingSdkWrapper/SessionInfo.cs:81-88 | the cut keeps a prefix; a text starting with the heading, or without it, is kept whole; otherwise the heading occurs nowhere in what is kept |
| Session.SessionInfo.constructor | iRacingSdkWrapper/SessionInfo.cs:17-24 | the text is repaired once, and null or empty text leaves Yaml null |
| Session.SessionInfo.FixYaml | iRacingSdkWrapper/SessionInfo.cs:73-96 | null or empty text changes nothing; otherwise Yaml is the quoting fixes, then the colon fix, then the setup cut |
| QuotingLines.TrackAppend | iRacingSdkWrapper/SessionInfo.cs:210-284 | a tracker shown two texts in a row ends where it would on their concatenation, and writes both |
| QuotingLines.SpacesKeep | iRacingSdkWrapper/SessionInfo.cs:244-274 | spaces leave a tracker alone unless it is matching a space in its key |
| QuotingLines.IgnoredRest | iRacingSdkWrapper/SessionInfo.cs:228-236 | a tracker ignoring its line stays so until the newline and writes nothing |
| QuotingLines.ValueTrack | iRacingSdkWrapper/SessionInfo.cs:251-263 | inside a quoted value the tracker doubles each quote until the newline |
| QuotingLines.KeyTrack | iRacingSdkWrapper/SessionInfo.cs:266-273 | a fresh tracker shown a prefix of its key has matched it, and after the whole key waits for the value |
| QuotingLines.KeyLetters | iRacingSdkWrapper/SessionInfo.cs:197 | the five keys are valid and start with five different letters |
| QuotingLines.KeyValueTrack | iRacingSdkWrapper/SessionInfo.cs:237-273 | over `key: value` the key and spaces are kept, a quote opens before the value, and quotes inside are doubled |
| QuotingLines.KeyLineTrack | iRacingSdkWrapper/SessionInfo.cs:237-273 | over a whole key line the value comes out quoted, and the tracker is fresh after the newline |
| QuotingLines.EmptyValueTrack | iRacingSdkWrapper/SessionInfo.cs:239-243 | a key with nothing after it is not quoted |
| QuotingLines.BlankLineTrack | iRacingSdkWrapper/SessionInfo.cs:228-278 | an empty line makes a tracker ignore the whole next line |
| QuotingLines.ScannedThen | iRacingSdkWrapper/SessionInfo.cs:210-284 | scanning a text in two parts equals scanning it whole |
| QuotingLines.RunEach | iRacingSdkWrapper/SessionInfo.cs:210-284 | the scan is every tracker run on its own, with their quotes merged in front of each character |
| QuotingLines.LineStartPending | iRacingSdkWrapper/SessionInfo.cs:287-291 | at a line start no value is open, so nothing is appended at the end |
| QuotingLines.KeyValueQuoted | iRacingSdkWrapper/SessionInfo.cs:237-291 | a `key: value` line for one of the five keys comes out with the value quoted, its quotes doubled and the closing quote before the newline |
| QuotingLines.LastKeyValueQuoted | iRacingSdkWrapper/SessionInfo.cs:237-291 | the same line at the end of the text gets its closing quote at the end |
| QuotingLines.EmptyValueKept | iRacingSdkWrapper/SessionInfo.cs:239-243 | a key line with no value is kept as it is |
| QuotingLines.OtherLineKept | iRacingSdkWrapper/SessionInfo.cs:274-278 | a line whose first word parts from every key is kept as it is |
| QuotingLines.LineAfterBlankKept | iRacingSdkWrapper/SessionInfo.cs:212-278 | a line after an empty or all-space line is kept as it is, even when it sets a key |
| QuotingLines.QuotedExample | iRacingSdkWrapper/SessionInfo.cs:201-294 | `UserName: O'Neil` becomes `UserName: 'O''Neil'` |
| QuotingLines.AfterBlankExample | iRacingSdkWrapper/SessionInfo.cs:212-236 | the same line after an empty line is left unquoted |

## Left out

- The float overload of `Broadcast` and of `BroadcastMessage` is not modelled
  (iRacingSdkWrapper/Broadcast/BroadcastBase.cs:33-37,
  irsdkSharp/iRacingSDK.cs:446-451). Its `(int)(var2 * 65536.0f)` is
  floating-point arithmetic.
- Float and double telemetry values are opaque bit patterns (`Float32`,
  `Float64`). Nothing is proved about their numeric meaning.
- Windows API calls are not modelled: `MemoryMappedFile.OpenExisting`,
  `CreateViewAccessor`, `OpenEvent`, the data-valid wait task in `Startup`,
  `RegisterWindowMessage` and `PostMessage`. The opened view is a parameter
  of `Startup` (absent when the sim is not running). The registered message
  id is a constructor parameter of the sdk. A post is an entry appended to
  the sdk's `posted` log.
- Startup's `catch (Exception)` is modelled only for the catalog read. A
  failure inside the Windows calls it wraps is not modelled.
- Threads, tasks and synchronisation are not modelled: the loop thread, the
  event queue and its drain, `SynchronizationContext.Post`, the lock, and
  cancellation waits.
  - Cancellation is a boolean of each observation.
  - Elapsed time is an integer of each observation.
  - Sleeps are `Slept` events.
  - Events are recorded in the trace in the order the loop raises or
    enqueues them.
- Exceptions are modelled at the points where the loop can throw: the
  Connected, Disconnected and Connecting handlers and the PlayerCarIdx and
  telemetry-time reads. A fault keeps every change made before it. A
  handler queued for TelemetryUpdated or SessionInfoUpdated that throws does
  so during the queue's drain in the `finally` block, which is not modelled.
  A handler posted to a `SynchronizationContext` runs on another thread and
  cannot throw into the loop; a `HandlerFault` is a handler invoked on the
  loop's thread.
- Wrapper.SdkWrapper.DisconnectedSleep: a sleep that never ends, for a
  ConnectSleepTime above 2147483644 without cancellation, is reported at
  once as an `UnendingSleep` event instead of looping forever. The run stops
  there without leaving the loop, so the flag is not cleared.
- A run modelled by `RunFrom` also ends when the observations run out.
  The loop itself runs until cancellation or the crash break, so such a run
  does not leave the loop and does not clear the flag.
- The wrapper's logger messages and the crash file's path and contents are
  left out. A logged error is an `ErrorLogged` event; the crash file is a
  `CrashReport` event.
- The telemetry-time bookkeeping of the connected step is dropped: the
  `SessionTick` / `SessionTime` reads, `_latestTick`, `_latestTime`, and the
  event arguments built from them. These reads never change the wrapper's
  state. A failure in them is the `TelemetryTimeFault` of an observation,
  which throws after the connect block and the driver-id update.
- Several `SdkWrapper` members are not modelled because they are not part of
  the polling loop: `RequestSessionInfoUpdate`, `GetTelemetryValue`,
  `StopLogging`, `Dispose`, `GetSessionInfo`, `GetSessionInfoYaml`,
  `GetTelemetryAsCsv`, `ToPrettyString`, the event-argument classes and the
  event delegates. The `TelemetryInfo` object is left out as well.
- Wrapper.SdkWrapper.SetTelemetryUpdateFrequency: only whole-number
  frequencies are modelled, because the source's `double` makes this
  floating-point arithmetic. The `< 0.0001` comparison and `Math.Floor` of
  the quotient become equality and integer division.
- Wrapper.SdkWrapper.Stop: the wait for the cancellation handle and the
  logger calls are not modelled. The stop clears the run and shuts the sdk
  down.
- The `SessionInfo` members that depend on YamlDotNet or regular expressions
  are not modelled, for that reason: `ParseYaml`, `ExtractCarSetupData`,
  `TryGetValue` and `GetValue`. The `updateTime` double is not modelled
  because it is only stored.
- The reflection-compiled bitfield factory of `TelemetryValue<T>` becomes
  four bitfield kinds built from the raw int. The decoding of the flag
  bitfields lives in `BitfieldBase`, which is not part of this model; only
  `PlayerIncidents.Get` is modelled.
- Header getters whose value no operation uses are plain functions with no
  contract of their own: `Version`, `TickRate` and `BufferLength`. The
  `EncodedHeaderReadsBack` round trip covers their offsets.
- Catalog.ReadText: the decoding is total over bytes, so the only failure is
  a field that starts outside the view. `ReadArray<byte>` reads as many bytes
  as fit and leaves the rest zero.
