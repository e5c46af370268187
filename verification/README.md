# UEFI variable services over a trusted application: a verified model

`authvars_test/host` is a C client of the UEFI variable services. Its driver flattens each
call into two shared byte buffers, converts names between the 32-bit `wchar_t` of the
client and 16-bit characters, hands the bytes to a trusted application (TA) and turns the
answer back into a UEFI result. Above the driver sit the secure-boot initialisation, a
command-line tool and a suite of tests with its own runner. This project models those
layers in Dafny 4.11 and proves what each promises. Check it with
`dafny verify dfyconfig.toml`.

## Structure

| file | models |
|---|---|
| `bytes.dfy` | little-endian fields, stores into memory, the C memory routines |
| `wide_strings.dfy` | the two string conversions, on one or two buffers |
| `guids.dfy`, `messages.dfy` | memory layouts of GUIDs, requests and results |
| `variable_store.dfy` | the store behind the TA: an ordered finite map with a capacity |
| `trusted_app.dfy` | the TA as a function from request bytes to result bytes |
| `driver_spec.dfy` | the four driver calls on bytes and on the plain map, and the refinement |
| `optee_driver.dfy` | the driver as a class with two buffers, proved against `driver_spec.dfy` |
| `runtime_services.dfy` | calls as client programs make them |
| `enumeration.dfy`, `commands.dfy` | the loops over GetNextVariableName |
| `capacity.dfy` | what fits through the buffers |
| `var_names.dfy`, `checks.dfy` | fixed names, and checked store updates |
| `secure_boot.dfy` | the secure-boot variables over all boots |
| `persistence.dfy`, `store_tests.dfy` | the crash-tolerant script, and two tests that must be neutral |
| `client_text.dfy` | GUID text, space removal, byte escapes |
| `test_runner.dfy` | the runner and the buffers its tests own |

Methods follow the imperative source on byte arrays and object state. Each is proved equal
to a function of its inputs and the old state, and the laws are proved about those
functions; so every client-level theorem holds of the byte-level driver.

## Modelling decisions

- Sizes are those of the 32-bit ARM target: `wchar_t` is an unsigned 32-bit number, `char`
  is unsigned, `SET` parameters have 44 bytes with the payload at 40, `GET` and `GETNEXT`
  parameters 28 with the name at 24, `GET` results 16 with the data at 12, and both buffers
  0x8000 + 44 bytes. 32-bit sums wrap in the model as in C.
- `SetMem` passes its length and value to `memset` in swapped order
  (`authvars_test/host/edk2/uefi_c.c:56`), so the comment "Clear the buffers entirely" is not
  true of GetNext and Query. The model keeps the call as written and proves that it does no
  harm.
- The TA is not part of the repository. Its behaviour is taken from section 8.2 of the UEFI
  Specification 2.8 and from the driver's comments on sizes: an ordered map from (name,
  GUID) to (attributes, data), where new variables go to the end of the order and all data
  bytes share one pool. Differing attributes, unknown attribute bits, an empty name, and a
  cursor that names no variable are bad parameters, which the driver reports as a protocol
  error. A short-buffer reply writes no result bytes, so Get then reports zero attributes.
  A name ends at its first NUL. MaximumVariableSize is the size of the largest stored
  variable.
- Characters survive the client's two conversions exactly if they are below 0x8000 or from
  0xFFFF8000 on (`WideStrings.InPlaceRoundTrip`). The refinement does not need them to: the
  plain map is keyed by the narrowed name, for every name.
- Capacity coherence holds for variables stored by one Set (`Capacity.StoredIsFetchable`); it is
  false for appends, with an example in `Capacity.AppendsCanOutgrow` and the exact condition, on
  the call and the store before it, in `Capacity.SetKeepsFetchable`; without appends it holds
  over every run (`Capacity.RunKeepsFetchable`).
- A complete run of the persistence script does not pass on every store: without the flag it
  needs its variables absent or with the base attributes, and room that counts what they
  already hold. `Persistence.CompleteRunsPass` states the exact condition after every history,
  `Persistence.OneByteShort` and `Persistence.TakenRoom` give a store and a history that miss
  it. Once the flag is up, the script passes however full the store is.
- `VerifyOverflow` on a store without the filler and with less than 0x2000 bytes free stores
  nothing, and its deletion then has nothing to delete, so it fails;
  `StoreTests.OverflowExactly` states the exact condition for every store.
- GET of the command-line tool prints uninitialised memory if the data exceed the transport
  (`authvars_test/host/main.c:127-139` does not look at the second status before printing);
  `Commands.ProcessGet` says exactly when.
- `FixWideString` reads each unit again after storing its narrowed form
  (`authvars_test/host/edk2/linux_fixup.c:16`). `WideStrings.ReadAgain` shows that this is
  harmless for every overlap of aligned pointers that do not start behind the source.
- The driver records, as ghost state, every variable that GetNextVariableName has written to a
  caller's buffers; the enumeration theorems speak of that record.
- `sscanf` follows section 7.21.6.2 of ISO/IEC 9899:2011: blanks, a sign and a second 0x are
  accepted in front of a field, and a 0x without digits is no number. `strtoul` saturates at
  32 bits; a value too large for its field keeps its low bytes.
- A PK of exactly one byte is read successfully and therefore counts as absent.
- A VERIFY macro that throws ends a script with `passed` false. A step of the persistence
  script is a write together with its checks; stopping between steps covers every state of
  the store, since only the write changes it.

## Model

| member | source | states |
|---|---|---|
| WideStrings.FixWideString | authvars_test/host/edk2/linux_fixup.c:7-18 | Forward narrowing leaves the narrowed string with its terminator at the destination and every other byte as it was, on two buffers and on one, where the destination starts at the source, at least one unit before it, or behind its terminator: no unit is overwritten before it is read for the last time. |
| WideStrings.RestoreWideString | authvars_test/host/edk2/linux_fixup.c:22-40 | Backward widening leaves the sign-extended string with its terminator at the destination and every other byte as it was, also in one shared buffer when the destination does not start earlier, or ends where the source starts. |
| WideStrings.NarrowUnits | authvars_test/host/edk2/linux_fixup.c:11-16 | The do-while loop, whose test reads each unit a second time after its store: after k units, exactly the first k narrowed units are in place and everything still to be read is untouched. |
| WideStrings.ReadAgain | authvars_test/host/edk2/linux_fixup.c:12-16 | The second read finds the unit as it was, even where the store overlaps it. |
| WideStrings.OneByteBehindStops | authvars_test/host/edk2/linux_fixup.c:12-16 | A concrete overlap, one byte, which aligned pointers never have, at which the conversion would stop early. |
| WideStrings.CountUnits | authvars_test/host/edk2/linux_fixup.c:26-29 | The counting loop finds the number of units up to and including the terminator. |
| WideStrings.WidenUnits | authvars_test/host/edk2/linux_fixup.c:30-37 | The backward loop: what lies above the write pointer is widened, what lies below is still the source. |
| WideStrings.InPlaceRoundTrip | authvars_test/host/edk2/linux_fixup.c:7-40 | Narrowing a string in place and widening it back restores the memory byte for byte if and only if every character fits a signed 16-bit unit (below 0x8000 or from 0xFFFF8000 on). |
| WideStrings.NarrowThenWiden | authvars_test/host/edk2/linux_fixup.c:12 | One character survives truncation and sign extension if and only if it fits a signed 16-bit unit. |
| WideStrings.WidenThenNarrow | authvars_test/host/edk2/linux_fixup.c:34 | Every 16-bit unit survives sign extension and truncation, and only NUL becomes NUL. |
| WideStrings.NarrowThenWidenAll | authvars_test/host/edk2/linux_fixup.c:7-40 | The same law for strings, in both directions of the if-and-only-if. |
| WideStrings.WidenThenNarrowAll | authvars_test/host/edk2/linux_fixup.c:22-40 | Names reported by the trusted application lead back to the same 16-bit name. |
| WideStrings.WideCharacterLost | authvars_test/host/edk2/linux_fixup.c:34 | A concrete failing input: U+8000 comes back as 0xFFFF8000. |
| WideStrings.NarrowRoundTrip | authvars_test/host/edk2/linux_fixup.c:7-18 | A stored 16-bit string reads back as its characters up to the first NUL, whatever bytes follow. |
| WideStrings.WideRoundTrip | authvars_test/host/edk2/linux_fixup.c:22-40 | A stored wide string reads back exactly, whatever bytes follow. |
| WideStrings.MeasureString | authvars_test/host/edk2/uefi_c.c:7-13 | The walk to the terminator gives the byte size of the string with its terminator. |
| Bytes.SetMem | authvars_test/host/edk2/uefi_c.c:43-57 | As written: the arguments reach memset swapped, so Value bytes are overwritten with the low byte of Length, and a zero Value changes nothing. |
| Bytes.ZeroMem | authvars_test/host/edk2/uefi_c.c:24-31 | Exactly the first Size bytes become zero. |
| Bytes.CopyMem | authvars_test/host/edk2/uefi_c.c:33-41 | Exactly the addressed bytes become the source bytes. |
| Bytes.ReallocatePool | authvars_test/host/edk2/uefi_c.c:75-93 | The common prefix is kept; a NULL buffer is replaced by a zeroed one. |
| Guids.ReadsGuid | authvars_test/host/edk2/uefi_types.h:45-52 | A GUID laid out in memory reads back field by field. |
| Guids.GlobalGuidBytes | authvars_test/host/edk2/uefi_types.h:45-52 | The sixteen bytes of one GUID, written out. |
| Messages.ReadsNameRequest | authvars_test/host/edk2_driver/AuthVarsDxe.c:436-447 | A GET or GETNEXT request filled in over any old buffer contents is decoded as the caller's GUID and narrowed name. |
| Messages.ReadsSetRequest | authvars_test/host/edk2_driver/AuthVarsDxe.c:816-832 | A SET request is decoded as the caller's name, GUID, attributes and data. |
| Messages.ReadsQueryRequest | authvars_test/host/edk2_driver/AuthVarsDxe.c:939-946 | A QUERY request is decoded as the caller's attributes over any old buffer contents. |
| Messages.NameLayout | authvars_test/host/edk2_driver/UEFIVarServices.h:51-58 | A GET or GETNEXT request in numbers: 28 at byte 0, the size of the name at 4, the GUID at 8, the 16-bit name from 24 on. |
| Messages.SetLayout | authvars_test/host/edk2_driver/UEFIVarServices.h:35-45 | A SET request in numbers: 44 at byte 0, the size of the name at 4, the GUID at 8, attributes at 24, data size at 28, the two payload offsets at 32 and 36, the name from 40 on, the data behind its slot. |
| Messages.QueryLayout | authvars_test/host/edk2_driver/UEFIVarServices.h:76-80 | A QUERY request in numbers: 8 at byte 0, the attributes at 4. |
| Messages.NamePaddingIsOldContents | authvars_test/host/edk2_driver/AuthVarsDxe.c:428-444 | The bytes behind the 16-bit name in a name slot are what the buffer held before, so they are zero only if it was cleared. |
| Messages.SetPaddingIsOldContents | authvars_test/host/edk2_driver/AuthVarsDxe.c:811-830 | The same for the name slot of a SET request, and the data slot does not reach into it. |
| Messages.ReadsGetResult | authvars_test/host/edk2_driver/UEFIVarServices.h:64-70 | A GET result laid over any buffer is read as the stored attributes, size and data. |
| Messages.ReadsNextResult | authvars_test/host/edk2_driver/UEFIVarServices.h:51-58 | A GETNEXT result is read as the stored GUID and name, and its size covers exactly the terminated 16-bit name. |
| Messages.ReadsQueryResult | authvars_test/host/edk2_driver/UEFIVarServices.h:82-88 | A QUERY result is read as its three 64-bit numbers. |
| TrustedApp.InvokeCommand | authvars_test/host/edk2_driver/AuthVarsDxe.c:408-416 | Replies never exceed the announced room; a short-buffer reply changes nothing and reports strictly more than that room, counted with the sizeof of the result structure. |
| DriverSpec.SizesFit | authvars_test/host/edk2_driver/AuthVarsDxe.c:395-426 | The two size tests, with 32-bit sums, accept exactly the requests whose exact sums fit both buffers: no accepted sum has wrapped. |
| DriverSpec.SetSizeFits | authvars_test/host/edk2_driver/AuthVarsDxe.c:788-805 | The same for Set, where name and data share one buffer. |
| DriverSpec.SetMessage | authvars_test/host/edk2_driver/AuthVarsDxe.c:781-832 | For every accepted Set: no sum wraps, the 16-bit name size does not truncate, both slots lie side by side inside the announced size, the padding is zero, and the message decodes to the call. |
| DriverSpec.GetMessage | authvars_test/host/edk2_driver/AuthVarsDxe.c:401-447 | For every accepted Get: the name size does not truncate, the padding is zero, and the message decodes to the call. |
| DriverSpec.NextMessage | authvars_test/host/edk2_driver/AuthVarsDxe.c:629-648 | A GETNEXT message decodes to the cursor over any stale buffer. |
| DriverSpec.ExchangeGetRefines | authvars_test/host/edk2_driver/AuthVarsDxe.c:318-513 | Get through bytes and the trusted application answers as a lookup in the plain map, and leaves the store alone. |
| DriverSpec.ExchangeNextRefines | authvars_test/host/edk2_driver/AuthVarsDxe.c:528-704 | GetNext over any stale buffers answers as a step along the order of the plain map. |
| DriverSpec.ExchangeSetRefines | authvars_test/host/edk2_driver/AuthVarsDxe.c:724-864 | Set through bytes has the status and the effect of an update of the plain map. |
| DriverSpec.QueryRefines | authvars_test/host/edk2_driver/AuthVarsDxe.c:883-975 | Query over any stale buffers reports the capacity, the exact remaining bytes and the largest variable. |
| DriverSpec.NextReplyString | authvars_test/host/edk2_driver/AuthVarsDxe.c:654-696 | Whatever the result buffer held, after a success it holds a terminated name of exactly the announced size, which is what the write-back relies on. |
| DriverSpec.SetEffect | authvars_test/host/edk2_driver/AuthVarsDxe.c:724-864 | Set by cases that a caller can tell beforehand: the exact condition for every failing status, none of which changes anything; a successful Set removes the variable or leaves exactly its new contents, and nothing else changes. |
| DriverSpec.AuthenticatedIsRefused | authvars_test/host/edk2_variable_test/AuthVarTest.c:1158-1166 | A write with bit 4 or 5 among its attributes is refused with a security violation, under 0x27 in particular, and nothing changes. |
| DriverSpec.GetEffect | authvars_test/host/edk2_driver/AuthVarsDxe.c:318-513 | Get by cases that a caller can tell beforehand: the exact condition of every status, the exact size from every room that is too small, the stored attributes and bytes from every room that is not. |
| DriverSpec.QueryReports | authvars_test/host/edk2_driver/AuthVarsDxe.c:883-975 | A query over any buffers reports, in this order, the capacity, what the stored bytes leave of it, and the size of the largest variable, which some variable has and none exceeds. |
| DriverSpec.UnknownCursor | authvars_test/host/edk2_driver/AuthVarsDxe.c:282-290 | A cursor that names no variable is answered with a protocol error and stays. |
| DriverSpec.StepRefines | authvars_test/host/edk2_driver/AuthVarsDxe.c:318-975 | One call of any of the four services equals one call on the plain map, argument errors included. |
| DriverSpec.DriverRefinesMap | authvars_test/host/edk2_driver/AuthVarsDxe.c:318-975 | Refinement over every sequence of calls, from any store and any leftover buffer contents: same answers, same final store. |
| DriverSpec.RunDriverAppends | authvars_test/host/edk2_driver/AuthVarsDxe.c:318-975 | A run of calls makes them all, in order, and collects one answer for each. |
| DriverSpec.RunMapAppends | authvars_test/host/edk2_driver/AuthVarsDxe.c:318-975 | The same for runs on the map. |
| DriverSpec.StaleBuffersDoNotShow | authvars_test/host/edk2_driver/AuthVarsDxe.c:629-648 | Two drivers that differ only in their leftover buffers answer every sequence of calls alike. |
| DriverSpec.ClosedDriverRefuses | authvars_test/host/edk2_driver/AuthVarsDxe.c:364-368 | Without a session nothing changes, and a call is refused as not ready unless a pointer is missing, a name to set is empty, or no attributes are asked for. |
| DriverSpec.RefusesArguments | authvars_test/host/edk2_driver/AuthVarsDxe.c:337-345 | With or without a session, the test hook included, exactly the calls with such arguments are refused as invalid, and they change nothing. |
| DriverSpec.HookCarriesSessionId | authvars_test/host/edk2_driver/AuthVarsDxe.c:769-775 | Under a name that starts with character 1 and a GUID that starts with 1, four bytes written by Set are the session id that Get reports; neither touches the store or the buffers. |
| DriverSpec.OtherCallsReachTheMap | authvars_test/host/edk2_driver/AuthVarsDxe.c:358-368 | Every Get and Set with another first character, another GUID or another size reaches the map. |
| OpteeDriver.Driver.TaOpenSession | authvars_test/host/edk2_driver/AuthVarsDxe.c:986-1052 | Both buffers have 0x802C bytes; the session is open exactly if the trusted application granted it. |
| OpteeDriver.Driver.InvokeCommand | authvars_test/host/edk2_driver/AuthVarsDxe.c:212-297 | The reply lands in the result buffer, the code becomes the status; without a parameter or a result argument, four bytes of the transport buffer are announced. |
| OpteeDriver.Driver.GetVariable | authvars_test/host/edk2_driver/AuthVarsDxe.c:318-513 | The byte-level method has exactly the specified status, out-parameters, buffers and copied bytes, and writes nothing else. |
| OpteeDriver.Driver.GetNextVariableName | authvars_test/host/edk2_driver/AuthVarsDxe.c:528-704 | The same; on success the string written back stays inside the caller's announced size, even if that is odd, and is recorded as reported; otherwise the caller's buffer is untouched. |
| OpteeDriver.Driver.SetVariable | authvars_test/host/edk2_driver/AuthVarsDxe.c:724-864 | The same for Set. |
| OpteeDriver.Driver.QueryVariableInfo | authvars_test/host/edk2_driver/AuthVarsDxe.c:883-975 | The same for Query. |
| VariableStore.PutKeeps | authvars_test/host/edk2_variable_test/AuthVarTest.c:978-1073 | Storing accounts for exactly the bytes gained and keeps order, names and capacity consistent. |
| VariableStore.RemoveKeeps | authvars_test/host/edk2_variable_test/AuthVarTest.c:373-410 | Deleting gives back exactly the bytes of the variable. |
| VariableStore.SetKeepsValid | authvars_test/host/edk2_driver/AuthVarsDxe.c:724-864 | Every Set keeps the store consistent, a failed one unchanged, and every other variable as it was. |
| VariableStore.AttributeNumbers | authvars_test/host/edk2_driver/UEFIVarServices.h:106-126 | The attribute tests in numbers: bits 1 and 2 give access, 4 and 5 ask for authentication, 6 appends and is not stored, 0 survives a power cycle, and 127 bounds them all. |
| VariableStore.LargestIs | authvars_test/host/main.c:184-196 | The largest size is that of some variable, and no variable is larger. |
| VariableStore.PutThenRemove | authvars_test/host/edk2_variable_test/AuthVarTest.c:185-300 | Creating and deleting a variable restores the store, enumeration order included. |
| VariableStore.RebootKeepsValid | authvars_test/host/edk2_driver/AuthVarsDxe.c:1095-1105 | A power cycle keeps the store consistent, and a second one changes nothing more. |
| VariableStore.RebootIs | authvars_test/host/edk2_driver/AuthVarsDxe.c:1095-1105 | A power cycle keeps exactly the variables with an odd attribute number, unchanged. |
| VariableStore.RebootFrees | authvars_test/host/edk2_driver/AuthVarsDxe.c:1095-1105 | A power cycle frees at least the bytes of any volatile variable. |
| RuntimeServices.CallGet | authvars_test/host/edk2_driver/AuthVarsDxe.c:318-513 | The client view of Get into the caller's own buffer, test hook included: the buffer receives exactly the answered bytes. |
| RuntimeServices.GetVariable | authvars_test/host/edk2_driver/AuthVarsDxe.c:318-513 | The same with its own buffer: exactly the lookup in the map. |
| RuntimeServices.SetVariable | authvars_test/host/edk2_driver/AuthVarsDxe.c:724-864 | The client view of Set for every call: an empty name is refused, the hook replaces the session id and leaves the store alone, any other call is exactly the update of the map. |
| RuntimeServices.CallNext | authvars_test/host/edk2_driver/AuthVarsDxe.c:528-704 | The client view of GetNext on the caller's own name buffer. |
| RuntimeServices.GetNextVariableName | authvars_test/host/edk2_driver/AuthVarsDxe.c:578-696 | From a cursor with i variables behind it, success reports variable i in exactly its size and moves the cursor by one; every other answer leaves name and GUID as they were. |
| RuntimeServices.NextAtPosition | authvars_test/host/edk2_driver/AuthVarsDxe.c:571-576 | The answer depends only on how many variables lie behind the cursor: not found exactly at the end. |
| Enumeration.VerifyVariableEnumerable | authvars_test/host/edk2_variable_test/AuthVarTest.c:119-182 | The loop ends; what its calls reported, read back from the caller's buffers and recorded by the driver, is a prefix of the store order without repetition; over every store it passes if and only if no name up to the first match is too long to receive and the expectation equals membership; without a match and without such a name it has reported every variable. |
| Enumeration.Walk | authvars_test/host/edk2_variable_test/AuthVarTest.c:138-173 | The loop itself, with its trace of reported variables: found right after reporting the first match, ended after reporting all, thrown if and only if a name too long to receive stands no later than the first match, and then exactly at the first such name. |
| Enumeration.NextRound | authvars_test/host/edk2_variable_test/AuthVarTest.c:139-162 | A round moves the cursor by one variable, or reports the end exactly there, or fails exactly at a name too long to receive; the reallocation to the reported size keeps the cursor and makes the second call succeed otherwise. |
| Enumeration.NoneBeforeFirst | authvars_test/host/edk2_variable_test/AuthVarTest.c:166-172 | No variable before the reported one matches the target. |
| Enumeration.ContainsIsMembership | authvars_test/host/edk2_variable_test/AuthVarTest.c:168-169 | Being reported under a name is the same as being stored under it, for names whose characters survive both conversions. |
| Commands.ProcessGet | authvars_test/host/main.c:117-142 | GET for every name: the stored attributes and bytes if the variable exists and fits the transport; the session id if the second call meets the test hook; uninitialised memory of the reported size if the data exceed the transport; nothing printed otherwise. |
| Commands.ProcessGetNext | authvars_test/host/main.c:156-183 | The do-while loop makes at most two driver calls and ends with the next variable or a final error, never short. |
| Commands.NextResultAt | authvars_test/host/main.c:156-183 | From a cursor with i variables behind it GETNEXT reports variable i in full, the end exactly at the end, and a bad buffer size exactly for a name longer than the transport can carry. |
| Commands.RetryConverges | authvars_test/host/main.c:166-173 | A short-buffer reply asks for strictly more than was offered, and a second call with that size is never short again. |
| Capacity.Bounds | authvars_test/host/edk2_driver/AuthVarsDxe.c:1026-1041 | The size tests as totals of name and data bytes: a Set fits exactly up to 0x8000, and whatever fits a Set fits Get and GetNext. |
| Capacity.StoredIsFetchable | authvars_test/host/edk2_driver/AuthVarsDxe.c:794-811 | What one non-append Set stored can be fetched with its exact size and listed with the exact size of its name. |
| Capacity.FetchableExactly | authvars_test/host/edk2_driver/AuthVarsDxe.c:401-431 | A stored variable can be fetched by some Get if and only if it has at most 0x801C bytes under a name of at most 0x8010 bytes. |
| Capacity.AppendsCanOutgrow | authvars_test/host/edk2_driver/AuthVarsDxe.c:401-431 | A concrete pair of accepted appends that builds a variable no Get returns. |
| Capacity.SetKeepsFetchable | authvars_test/host/edk2_driver/AuthVarsDxe.c:401-431 | On a store whose variables can all be fetched, a Set makes one that cannot if and only if it is an append, acceptable by its arguments, to an existing variable of the same attributes, within the remaining room, whose sum exceeds 0x801C bytes: a condition on the call and the store before it. |
| Capacity.RunKeepsFetchable | authvars_test/host/edk2_driver/AuthVarsDxe.c:401-431 | No sequence of calls without appends makes a fetchable store unfetchable. |
| Capacity.SetKeepsListable | authvars_test/host/edk2_driver/AuthVarsDxe.c:594-624 | No Set makes the store unlistable. |
| Capacity.RunKeepsListable | authvars_test/host/edk2_driver/AuthVarsDxe.c:594-624 | No sequence of calls makes the store unlistable. |
| SecureBoot.InitSecureBootVariables | authvars_test/host/edk2_driver/AuthVarsDxe.c:1061-1226 | The method on the byte-level driver has the effect and status of the specified initialisation of the map. |
| SecureBoot.ReadByteIs | authvars_test/host/edk2_driver/AuthVarsDxe.c:1086-1096 | The one-byte read is short exactly if the variable holds more than one byte: that is what counts as a present PK. |
| SecureBoot.InitEstablishes | authvars_test/host/edk2_driver/AuthVarsDxe.c:1061-1226 | After every successful initialisation: SetupMode is 0 with attributes 6 if PK has more than one byte and 1 otherwise; SecureBoot is 1 with attributes 6 exactly if moreover SecureBootEnable holds 1; CustomMode is 0 with attributes 3; a SecureBootEnable that must be created has attributes 3 and the configured byte; an existing one-byte SecureBootEnable and all other variables are kept. |
| SecureBoot.InitExactly | authvars_test/host/edk2_driver/AuthVarsDxe.c:1061-1226 | Every initialisation, failed or not, in numbers: the writes are made in order up to the first that cannot be made, what those before it left is left, and it succeeds if and only if there is none. |
| SecureBoot.InitSucceeds | authvars_test/host/edk2_driver/AuthVarsDxe.c:1061-1226 | Initialisation succeeds if and only if no variable in its way has other attributes and none of its writes takes more than is free by then, counting what oversized old values give back. |
| SecureBoot.InitIsIdempotent | authvars_test/host/edk2_driver/AuthVarsDxe.c:1061-1226 | Initialising again leaves the store unchanged, enumeration order included, whatever the configured default is by then. |
| SecureBoot.BootAgain | authvars_test/host/edk2_driver/AuthVarsDxe.c:1061-1226 | After a power cycle the next initialisation succeeds and rebuilds the same variables. |
| SecureBoot.EveryBootAgrees | authvars_test/host/edk2_driver/AuthVarsDxe.c:1061-1226 | Over every number of further boots: each succeeds and the variables stay as they are. |
| SecureBoot.AgreesThroughLife | authvars_test/host/edk2_driver/AuthVarsDxe.c:1061-1226 | Over every life of boots with arbitrary client calls in between: after each successful boot the secure boot variables agree. |
| SecureBoot.LifeIs | authvars_test/host/edk2_driver/AuthVarsDxe.c:1061-1226 | Such a life has one boot for every epoch, each from what the calls of the epoch before left. |
| SecureBoot.FromEmptyStore | authvars_test/host/edk2_driver/AuthVarsDxe.c:1061-1226 | For the program's own variables on a machine that starts empty: every boot succeeds, and after each the store holds exactly SetupMode 1, SecureBoot 0 and CustomMode 0. |
| SecureBoot.SecureBootKeys | authvars_test/host/edk2/uefi_globals.h:112-133 | The names and GUIDs of the five variables, written out. |
| Checks.StepFrame | authvars_test/host/edk2_variable_test/AuthVarTest.c:316-410 | A checked step never touches another variable. |
| Checks.StepChecked | authvars_test/host/edk2_variable_test/AuthVarTest.c:341-355 | A step that passed leaves its variable as it was checked, whatever the store did before. |
| Checks.WritePasses | authvars_test/host/edk2_variable_test/AuthVarTest.c:316-362 | A checked write stores its bytes if and only if the variable has the base attributes or does not exist and the bytes fit, and changes nothing otherwise; it passes if and only if it stored the bytes expected. |
| Checks.RaisePasses | authvars_test/host/edk2_variable_test/AuthVarTest.c:639-647 | Setting the flag stores its byte, and passes, under the same condition, and changes nothing otherwise. |
| Checks.ExpectExactly | authvars_test/host/edk2_variable_test/AuthVarTest.c:490-534 | A checked read changes nothing and passes if and only if the variable holds exactly these bytes with the base attributes. |
| Checks.EraseOutcome | authvars_test/host/edk2_variable_test/AuthVarTest.c:373-410 | A checked deletion removes the variable, and passes, if and only if it exists. |
| Checks.SetAndCheckVariable | authvars_test/host/edk2_variable_test/AuthVarTest.c:316-362 | The method on the driver has exactly the effect and outcome of the step. |
| Checks.DeleteAndCheckVariable | authvars_test/host/edk2_variable_test/AuthVarTest.c:373-410 | The same for deletion. |
| Persistence.CrashConsistency | authvars_test/host/edk2_variable_test/AuthVarTest.c:423-652 | After every history of runs, each stopped at any point, power cycles and calls of other clients: if the flag exists, the three variables hold four, one and one chunks of their buffers with the base attributes. |
| Persistence.AfterAppends | authvars_test/host/edk2_variable_test/AuthVarTest.c:423-652 | What such a history is: after its events so far, the next one is a run stopped there, a power cycle, or the calls of others. |
| Persistence.RunIsCrashSafe | authvars_test/host/edk2_variable_test/AuthVarTest.c:423-652 | One run, stopped after any step or thrown out of any step, keeps that invariant. |
| Persistence.OpeningPasses | authvars_test/host/edk2_variable_test/AuthVarTest.c:481-534 | After every history, a run that finds the flag passes all its opening checks. |
| Persistence.OpeningIs | authvars_test/host/edk2_variable_test/AuthVarTest.c:481-534 | On every store with the flag, wherever the opening is stopped: it takes the flag down, changes nothing else, and passes if and only if each variable it has looked at is as the script left it. |
| Persistence.FlagIsChecked | authvars_test/host/edk2_variable_test/AuthVarTest.c:481-534 | On every store with the flag, a complete run passes if and only if all three variables are as the script left them; otherwise it takes the flag down and leaves everything else. |
| Persistence.LastCheck | authvars_test/host/edk2_variable_test/AuthVarTest.c:316-362 | In a run of steps that passed, a variable is as its last check left it: the reason the flag can be trusted. |
| Persistence.RunPasses | authvars_test/host/edk2_variable_test/AuthVarTest.c:423-652 | On every store and for every stopping point: with the flag up, a run passes its first n steps if and only if what they look at is as the script left it; with the flag down, if and only if there is enough for the writes among them. A crash-safe store with enough for the whole script keeps enough. |
| Persistence.CompleteRunPasses | authvars_test/host/edk2_variable_test/AuthVarTest.c:423-652 | On every store, a complete run passes if and only if the flag is up and the variables are as the script left them, or it is down and the variables are absent or have the base attributes and there is room for two, five and six chunks and the flag when they are reached. |
| Persistence.StoppedRunLeaves | authvars_test/host/edk2_variable_test/AuthVarTest.c:536-648 | What a run without the flag has written when it is stopped after n writes: the exact contents of all three variables and of the flag for each n, and every other variable untouched. |
| Persistence.FailedRunLeaves | authvars_test/host/edk2_variable_test/AuthVarTest.c:536-647 | A run that fails without the flag leaves what a run stopped just before the failing write leaves. |
| Persistence.RunLeaves | authvars_test/host/edk2_variable_test/AuthVarTest.c:423-652 | A complete run that passed, from any store: four, one and one chunks, the flag with the byte 1, everything else as it was. |
| Persistence.ScriptStores | authvars_test/host/edk2_variable_test/AuthVarTest.c:428-437 | The program's own run that passed, in bytes: 0 to 63, 160 to 175, 64 to 79 and 1 under attributes 7 and the four names. |
| Persistence.FixtureKeys | authvars_test/host/edk2_variable_test/AuthVarTest.c:428-431 | The names and the GUID of the four variables, written out. |
| Persistence.CompleteRunsPass | authvars_test/host/edk2_variable_test/AuthVarTest.c:423-652 | After every history of runs, each stopped at any point, power cycles and calls of other clients, a complete run passes if and only if the flag is up or that condition on attributes and sizes holds of the store left behind. |
| Persistence.StaysReady | authvars_test/host/edk2_variable_test/AuthVarTest.c:423-652 | Runs stopped anywhere and power cycles never take a store out of that condition: only other clients can. |
| Persistence.OneByteShort | authvars_test/host/edk2_variable_test/AuthVarTest.c:423-652 | A concrete failing store: on an empty one of 96 bytes a complete run of the program fails, on one of 97 bytes it passes. |
| Persistence.TakenRoom | authvars_test/host/edk2_variable_test/AuthVarTest.c:423-652 | A failing history: after another client has written 1 to 512 bytes to an empty store and left 96, a complete run fails. |
| Persistence.FromEmptyStore | authvars_test/host/edk2_variable_test/AuthVarTest.c:423-652 | The same for the program's own names and buffers on a machine that starts empty; without other clients, 97 bytes are enough for every complete run. |
| Persistence.VerifyAppendShrinkReplacePersist | authvars_test/host/edk2_variable_test/AuthVarTest.c:423-652 | The method on the driver, with the image buffer it fills, has exactly the effect and outcome of the run; with the flag up it passes if and only if the three variables are as the script left them, and whenever it passes the store holds the script's bytes. |
| StoreTests.WriteReadEnumDeleteIsNeutral | authvars_test/host/edk2_variable_test/AuthVarTest.c:185-300 | Outcome and final store of every run of the script, with and without data verification: it passes if and only if the variable is new, reportable, plain, non-empty, fits transport and store and does not meet the session-id hook (and, with verification, is not created by an append); then the store is as before, order included. A script that fails leaves the store as it was, except that a new variable it could store is left. |
| StoreTests.VerifyValidVarWriteReadEnumDel | authvars_test/host/edk2_variable_test/AuthVarTest.c:185-300 | The method on the driver has exactly the effect and outcome of the script, over every listable store and for every name and data, those of the hook included. |
| StoreTests.ListedIsContained | authvars_test/host/edk2_variable_test/AuthVarTest.c:119-182 | What enumeration reports, for any name: a name with a character that does not survive is never reported. |
| StoreTests.AppendChunk | authvars_test/host/edk2_variable_test/AuthVarTest.c:1018-1028 | An append of a chunk succeeds exactly while a whole chunk of room is left, whatever the variable held; to a variable with other attributes it fails. |
| StoreTests.FillStorage | authvars_test/host/edk2_variable_test/AuthVarTest.c:1018-1028 | The loop has exactly the effect and outcome of its appends, up to the first that fails. |
| StoreTests.FillsStore | authvars_test/host/edk2_variable_test/AuthVarTest.c:1006-1028 | All floor(remaining / 0x2000) appends succeed and less than one chunk remains, if the variable is new or has the base attributes; otherwise the first append fails. |
| StoreTests.OverflowExactly | authvars_test/host/edk2_variable_test/AuthVarTest.c:978-1073 | Outcome and final store of the test on every store: it passes if and only if the second variable does not exist and the filler exists with the base attributes, or is new and has room for a chunk, and then only the filler is gone; what a failing test leaves is told for every attribute of both variables, the overwritten second one included. |
| StoreTests.VerifyOverflow | authvars_test/host/edk2_variable_test/AuthVarTest.c:978-1073 | The method on the driver has exactly the effect and outcome of the test, hence that condition, in numbers, over every listable store. |
| StoreTests.OverflowKeys | authvars_test/host/edk2_variable_test/AuthVarTest.c:985-986 | The names and the GUID of the two variables, written out. |
| StoreTests.FilledIsUndone | authvars_test/host/edk2_variable_test/AuthVarTest.c:1059-1064 | Deleting the filler takes back everything the loop has written. |
| StoreTests.DeleteFiller | authvars_test/host/edk2_variable_test/AuthVarTest.c:1283-1290 | The end of TestCleanup removes the filler if it exists and changes nothing else. |
| StoreTests.CleanupAfterOverflow | authvars_test/host/edk2_variable_test/AuthVarTest.c:1264-1291 | However the test ended, cleanup leaves the store as it was, without the filler, unless the second variable existed and was overwritten. |
| ClientText.GuidReadsBack | authvars_test/host/main.c:40-45 | Parsing what print_guid prints gives the same GUID, for every GUID. |
| ClientText.GuidLayout | authvars_test/host/main.c:40-45 | The printed text has 82 characters; braces, commas, prefixes and the eleven padded fields stand at the positions of the format. |
| ClientText.GuidUpperCase | authvars_test/host/main.c:41 | No GUID is printed with a lower-case digit. |
| ClientText.PadHexDigits | authvars_test/host/main.c:41 | Only decimal digits and letters of the asked case are printed. |
| ClientText.PadHexReadsBack | authvars_test/host/main.c:41 | Zero-padded hexadecimal of any width and case reads back as the number. |
| ClientText.NumberForms | authvars_test/host/main.c:263-266 | What %X takes: a 0x or a plus sign in front of the digits does not matter, a minus sign negates modulo 2^32, and the scan goes on right behind the digits. |
| ClientText.LargeNumbers | authvars_test/host/main.c:263-266 | A number of more than 32 bits saturates, whatever its sign. |
| ClientText.BlanksAndNothing | authvars_test/host/main.c:263-266 | Blanks in front of a number do not matter; anything else that is no digit and no sign ends the scan without a number, behind a sign or a 0x too. |
| ClientText.PartialText | authvars_test/host/main.c:249-266 | Fields that the scan does not come to stay zero; a long number leaves its low bytes in a short field. |
| ClientText.ScanRender | authvars_test/host/main.c:263-266 | A rendered text scans back to its values whenever every literal starts with a character that cannot continue a number; literals not found behind the last field assign nothing. |
| ClientText.StripSpaces | authvars_test/host/main.c:252-262 | The two-pointer loop leaves exactly the non-space characters in order, terminated, and does not touch what lies behind. |
| ClientText.Compact | authvars_test/host/main.c:255-261 | The loop itself: the write index never passes the read index. |
| ClientText.StripTwice | authvars_test/host/main.c:252-262 | A second pass changes nothing. |
| ClientText.GetGuid | authvars_test/host/main.c:248-270 | The method that compacts its argument in place returns the parse of the original text, signs, blanks and repeated prefixes included. |
| ClientText.EscapeBytes | authvars_test/host/main.c:60-66 | The loop prints the escapes of all bytes in order. |
| ClientText.EscapeLayout | authvars_test/host/main.c:60-66 | The escape of every byte stands in its place: a backslash, an x, and two digits of that byte. |
| ClientText.EscapeLowerCase | authvars_test/host/main.c:64 | No escape has an upper-case digit; 0xAB is printed as \xab. |
| ClientText.EscapedBytesReadBack | README.md:39 | Reading the printed escapes back gives the same bytes, for every byte sequence. |
| TestRunner.Module.RegisterTestFunc | authvars_test/host/edk2_test_harness/EdkTest.h:157-181 | A test is appended to the table unless the table is full. |
| TestRunner.Module.RunTestFunc | authvars_test/host/edk2_test_harness/EdkTest.h:186-236 | Exactly one counter grows by one; the test allocates what the actions it got to do say, and its cleanup leaves the three globals NULL; a skipped test touches nothing. |
| TestRunner.Module.RunModule | authvars_test/host/edk2_test_harness/EdkTest.h:241-284 | With at most 31 tests and a passed setup, the three counters grow by exactly the number of tests, each by the tests of its outcome; the tests allocate exactly the buffers their actions say, and disciplined tests leave all three globals NULL and every one of these buffers freed once. A full table of 32 registers but does not run. |
| TestRunner.CleanupCleans | authvars_test/host/edk2_variable_test/AuthVarTest.c:1264-1281 | Cleanup frees what is left, each buffer once, and leaves the three globals NULL. |
| TestRunner.StoppedAnywhere | authvars_test/host/edk2_variable_test/AuthVarTest.c:1264-1281 | Wherever a disciplined test is thrown out of, it has allocated exactly the buffers its actions say, the globals that are not NULL are those its actions leave, and every live buffer is owned by exactly one of them. |
| TestRunner.ThrownTestIsCleaned | authvars_test/host/edk2_variable_test/AuthVarTest.c:1264-1281 | From NULL globals, a test thrown out of at any point and its cleanup end on NULL globals with each of the buffers its actions have allocated freed exactly once. |
| TestRunner.AllocatesAll | authvars_test/host/edk2_test_harness/EdkTest.h:186-236 | Any actions allocate one buffer for each allocation and reallocation among them. |
| TestRunner.LeavesHeld | authvars_test/host/edk2_test_harness/EdkTest.h:186-236 | The globals that are not NULL after any disciplined actions are those that the actions leave so. |
| TestRunner.ModuleTestsAreDisciplined | authvars_test/host/edk2_variable_test/AuthVarTest.c:1295-1322 | None of the module's tests overwrites a pointer it still owns, for any number of enumerations and reallocations. |
| TestRunner.TestsAllocate | authvars_test/host/edk2_variable_test/AuthVarTest.c:423-1073 | How many buffers the persistence, name and overflow tests allocate, for any number of enumerations and reallocations. |
| TestRunner.PerVariableAllocates | authvars_test/host/edk2_variable_test/AuthVarTest.c:1170-1222 | The same for the two tests of one image per variable. |
| TestRunner.QueryAllocates | authvars_test/host/edk2_variable_test/AuthVarTest.c:867-975 | The same for the query test. |

## Left out

- TrustedApp.InvokeCommand: does not model signature checks; every authenticated or time-based write is refused as access denied, so `TestValidAuthVars` is not decided here.
- OpteeDriver.Driver.TaOpenSession: does not model a failed allocation, so NULL transport buffers do not occur; after a failed open the buffers exist, but every call is refused before it reaches them (`DriverSpec.ClosedDriverRefuses`).
- OpteeDriver.Driver.GetNextVariableName: does not model a NULL size pointer, which the source dereferences before testing it.
- OpteeDriver.Driver.InvokeCommand: does not model AuthVarStatus, which the source only logs, nor the effect a foreign session id has on the trusted application.
- DriverSpec.DriverRefinesMap: excludes calls under the session-id test hook (a name starting with character 1, GUID Data1 of 1 and a size of 4), which never reach the store.
- StoreTests.VerifyValidVarWriteReadEnumDel: after four bytes under a name of that hook have replaced the session id, the trusted application is taken to go on answering; the script fails either way.
- TestRunner.CleanupCleans: covers the three globals; the deletion at the end of TestCleanup is `StoreTests.DeleteFiller`.
- TestRunner.Module.RunModule: counters are unbounded numbers where the source has 32 bits, of which a run uses at most 31 more.
- ClientText.EscapedBytesReadBack: covers the escaped bytes, not the words `printf "%b"` and the file name around them.
- Persistence.CrashConsistency: other clients act between runs and do not write the script's four variables or use the hook.
- Memory: allocation never fails, callers' buffers do not overlap the transport buffers, callers are single-threaded, and strings fit a 32-bit address space.
- Runtime: `EfiAtRuntime` is always false and `SecureBootHook` is empty in the source; both are left out.
- `VerifyNameHandling`, `VerifyQuery` and `TestInvalidAuthVars` appear as users of the tracked buffers only; the values they check would repeat the checked steps.
- `ModuleSetup` and `TestSetup` are outcomes given to the runner.
- Logging, printing, timers, file reading, argument parsing and usage errors.
- `AuthVarHexDump`, `BitsToChar`, `AuthVarFixBuffer` and the byte swaps: no caller outside their group, or easy members only.
- `VariableAuthOpteeRuntimeInitialize` when the context cannot be created: its status is never assigned on that path.
- `ftpm_test`, makefiles, scripts and the pipeline: plumbing.
