# klaatu-tests command-line tools, modelled in Dafny

This project models the logic of the klaatu-tests Android diagnostic tools
that is left once their calls into native services are abstracted away.
The tools covered are:

- **Bluetooth bridge** (`cmds/bluetooth`). The model covers:
  - the BD_ADDR text codec, which reads and writes the colon-separated form of
    the 48-bit address of section 1.2 of Part B, Volume 2 of the Bluetooth
    Core Specification;
  - the decoder of D-Bus `a{sv}` property dictionaries into a
    key-to-text bag;
  - the sentinel-terminated signal, method and error-name tables and the
    scans over them;
  - the outcomes of the two message filters;
  - the D-Bus error to result-code mappings of the `on*Result` callbacks;
  - the event loop's watch table, a class holding the parallel
    `pollData`/`watchData` arrays, driven by the ADD/REMOVE/WAKEUP/EXIT
    commands that the watch callbacks send;
  - the socket helpers: non-blocking flag arithmetic, link-mode bits, the
    buffer range check, the write-all loop against a write oracle, the
    connect retry bound and the bind/listen error codes.
- **wifitest**: the bounded comma split, the argument readers and the
  command-sequence parser with its "add" station construction.
- **lights**: the `Lights` class with its eight light slots, name lookup by
  three-character prefix, dump, and the argument dispatch with ARGB packing.
- **phonetest**: RIL error texts, the result check, option and command
  selection, and the follow-up requests of the unsolicited handlers.
- **inputtest**: device-class listing, ABS axis names, mode selection and
  the scan-termination flag over event batches.
- **cameracapture**: the getopt option fold, encoder selection, the
  max-duration arithmetic, stream targets, the HTTP POST header text and the
  recorder listener's completion test.
- **sensors**: the `-t` option fold into `sensor_type`, whose table index is
  never reset.

Parts of the source that change state in place take that form here:
- `EventLoop.WatchTable` and `Lights.Lights` are classes over arrays;
- `BtAddr.GetBdaddr` fills an array;
- the loops of `_splitString`, `parse_properties`, `writeNative`,
  `dump_class`, the getopt folds and the inputtest event loop are methods
  with loop invariants.

Each such method is proved against a specification function. The
properties the tools promise are then proved about that function as lemmas.

The C library behaviour the tools depend on is written out in module
`CLib`:
- `atoi` and `strtol(…, 16)` as digit-run readers;
- `%d` and `%02X` formatting;
- `strcasecmp` and `strncmp`;
- the 32-bit wrap of `uint32` to `int`.

Constants that come from system headers outside the repository take the
values those headers define. These cover Linux `poll`/`fcntl`/errno, the
BlueZ RFCOMM link modes, libdbus watch flags, Android input and lights HAL
constants, `ril.h` error codes and `mediarecorder.h` event codes.

## Model

| member | source | states |
|---|---|---|
| BtConst.ResultFamiliesDisjoint | cmds/bluetooth/btcommon.h:76-103 | no result code belongs to two of the bond, PAN, input and health families |
| BtConst.ErrorIfcExtendsBase | cmds/bluetooth/btcommon.h:36-37 | the BlueZ error interface is the base interface followed by ".Error" |
| BtConst.BtAddrSizeFitsPrintedAddress | cmds/bluetooth/btcommon.h:44 | BTADDR_SIZE holds six two-digit fields, five colons and the terminating NUL |
| BlueProp.EnumerationFollowsRows | cmds/bluetooth/blueprop.h:16-43 | signal rows are numbered 1..15 in table order and method rows continue from 16 to 25, as the enumeration generated from the same lists |
| BlueProp.MethodRowsAreAgentMethods | cmds/bluetooth/blueprop.h:33-43 | every method row belongs to the BlueZ Agent interface |
| BtProps.DbusReturnsInt | cmds/bluetooth/btcommon.cpp:162-171 | the reply's single argument of the expected type is returned (a uint32 as the int it wraps to); any other reply yields -1 |
| BtProps.ReturnsIntMinusOneIsAmbiguous | cmds/bluetooth/btcommon.cpp:162-171 | a genuine -1 (or uint32 0xFFFFFFFF) cannot be told apart from a missing argument |
| BtProps.VariantTextReadsBack | cmds/bluetooth/btcommon.cpp:270-313 | strings and object paths are stored verbatim, int16/boolean/uint32 as text that atoi reads back to the value (uint32 modulo 2^32), arrays as "(none)" |
| BtProps.DecodeProperty | cmds/bluetooth/btcommon.cpp:259-267 | an entry decodes exactly when it is a string key followed by a variant of a supported type, and the key is that string |
| BtProps.GetProperty | cmds/bluetooth/btcommon.cpp:253-324 | returns 0 exactly when the key and variant decode, else -1 with the bag unchanged; on 0 the key holds the variant's text; the bag's keys become the old keys plus that one key, and every other existing key keeps its value |
| BtProps.DecodedPrefixMeaning | cmds/bluetooth/btcommon.cpp:325-345 | the decoded entries are exactly the leading dictionary entries get_property accepts, and the entry after them is rejected |
| BtProps.RejectedStays | cmds/bluetooth/btcommon.cpp:325-345 | once an entry is rejected nothing after it is added |
| BtProps.ApplyAllKeys | cmds/bluetooth/btcommon.cpp:321 | storing the decoded pairs leaves the bag's keys as the old keys plus the decoded keys |
| BtProps.ParseProperties | cmds/bluetooth/btcommon.cpp:325-345 | the loop returns 0 only for a non-empty array whose every entry decodes, otherwise 1, and leaves the accepted prefix stored in the bag either way |
| BtProps.EncodeDict | cmds/bluetooth/btcommon.cpp:221-251 | a string dictionary is encoded as an array with one dict entry per pair, in order |
| BtProps.ParseEncodedDict | cmds/bluetooth/btcommon.cpp:221-345 | decoding an encoded non-empty string dictionary returns 0 and stores every pair, later pairs overriding earlier ones |
| BtProps.EmptyDictRejected | cmds/bluetooth/btcommon.cpp:331-339 | an empty dictionary returns 1 and leaves the bag unchanged |
| BtProps.ParsePropertyChange | cmds/bluetooth/btcommon.cpp:347-364 | returns 0 exactly when the leading (name, variant) pair decodes, and then the bag is the old one with the name set to the variant's text; otherwise 1 with the bag unchanged |
| BtProps.PropertyChangeStoresValue | cmds/bluetooth/btcommon.cpp:347-356 | a decodable change, whatever arguments follow it, stores the variant's text under its name |
| BtAddr.ParseBdaddr | cmds/bluetooth/btcommon.cpp:366-378 | a successful parse yields exactly six bytes |
| BtAddr.ParseFieldsLength | cmds/bluetooth/btcommon.cpp:366-378 | parsing from field i on yields 6 - i bytes |
| BtAddr.GetBdaddr | cmds/bluetooth/btcommon.cpp:366-378 | on a well-formed address returns 0 with the fields stored from byte 5 down to byte 0; otherwise returns -1 with all six bytes zero |
| BtAddr.FieldStep | cmds/bluetooth/btcommon.cpp:369-374 | a field of the first five not followed by ':' fails the whole parse; otherwise its low byte is kept and parsing resumes after the ':' |
| BtAddr.ZeroFill | cmds/bluetooth/btcommon.cpp:372 | the failure path clears all six bytes |
| BtAddr.BdaddrToString | cmds/bluetooth/btcommon.cpp:380-383 | the printed address has 17 characters, each a colon or an upper-case hex digit |
| BtAddr.FormatFieldsCharacters | cmds/bluetooth/btcommon.cpp:380-383 | fields print as two upper-case hex digits each with colons between them |
| BtAddr.StrtolHexOfHex2 | cmds/bluetooth/btcommon.cpp:369 | strtol base 16 reads a printed byte back as that byte and stops after its two digits |
| BtAddr.ParsePrintedBdaddr | cmds/bluetooth/btcommon.cpp:366-383 | parsing a printed address gives back the same six bytes |
| BtAddr.ReadPrintedFields | cmds/bluetooth/btcommon.cpp:368-375 | well-formed fields read from field i on parse successfully, and printing the bytes read gives the fields back in upper case |
| BtAddr.PrintParsedBdaddr | cmds/bluetooth/btcommon.cpp:366-383 | an address of six two-digit hex fields separated by ':' parses successfully, and printing the address read gives the text back upper-cased |
| CLib.Hex2OfDigits | cmds/bluetooth/btcommon.cpp:382 | "%2.2X" of the byte that two hex digits spell is those digits in upper case |
| BtAddr.EmptyAddressRejected | cmds/bluetooth/btcommon.cpp:366-375 | the empty string is not an address |
| BtAddr.DebugNoEncrypt | cmds/bluetooth/btcommon.cpp:385-386 | encryption is never turned off for debugging |
| Service.FirstSig | cmds/bluetooth/service.cpp:298-305 | the scan stops at the first row whose interface and member both match, or at the end of the table |
| Service.ScanTable | cmds/bluetooth/service.cpp:299-304 | the table scan loop returns the first matching row's value, or -1 |
| Service.FindSignal | cmds/bluetooth/service.cpp:295-305 | findsignal returns the value of the first row matching the message's interface and member, or -1 |
| Service.FindMethod | cmds/bluetooth/service.cpp:588-597 | findmethod returns the value of the first method row matching the message, or -1 |
| Service.RowFound | cmds/bluetooth/service.cpp:299-304 | in a table with distinct rows, looking a row up yields that row's value |
| Service.SignalValueRange | cmds/bluetooth/service.cpp:295-305 | a signal classifies as -1 or as one of the signal values 1..15 |
| Service.MethodValueRange | cmds/bluetooth/service.cpp:588-597 | a method call classifies as -1 or as one of the method values 16..25 |
| Service.FirstKey | cmds/bluetooth/service.cpp:714-722 | lookupmap stops at the first row whose key equals the name, or at the sentinel |
| Service.LookupMap | cmds/bluetooth/service.cpp:714-722 | lookupmap returns the first matching row's value, or the sentinel's value |
| Service.KeyFound | cmds/bluetooth/service.cpp:714-722 | with distinct keys, every row's key maps to its own value |
| Service.KeyMissing | cmds/bluetooth/service.cpp:714-722 | a name found in no row maps to the sentinel's value |
| Service.MapValueIdentifiesKey | cmds/bluetooth/service.cpp:714-722 | when the values are distinct and differ from the sentinel's, the value returned identifies the row that matched |
| Service.ErrorMapsHaveDistinctKeys | cmds/bluetooth/blueprop.h:45-72 | the bond, input, PAN and health error maps each name every error once |
| Service.EventFilter | cmds/bluetooth/service.cpp:307-452 | non-signals are left for other filters without failure; every signal is handled, and an unrecognised signal is reported as failed |
| Service.SignalRecognised | cmds/bluetooth/service.cpp:299-304 | the k-th signal row's interface and member classify as k + 1 |
| Service.EventFilterSignalRules | cmds/bluetooth/service.cpp:332-439 | DisconnectRequested and AudioSink PropertyChanged are handled without failure; DeviceFound fails exactly when it lacks a property dictionary or the dictionary does not parse |
| Service.AgentDispatch | cmds/bluetooth/service.cpp:608-711 | only the agent method values are handled, and a reply is sent only for a handled call |
| Service.AgentEventFilterDeclinesEverything | cmds/bluetooth/service.cpp:606-611 | as written, the agent filter leaves every message unhandled and sends no reply |
| Service.AgentEventFilter | cmds/bluetooth/service.cpp:588-711 | the agent filter (classifying with the method table) handles only Agent method calls |
| Service.MethodValueIsAgentCall | cmds/bluetooth/service.cpp:588-597 | a message that classifies as an agent method value is a method call on the Agent interface |
| Service.AgentEventFilterAnswers | cmds/bluetooth/service.cpp:608-711 | Cancel and Release get a plain return; OutOfBandAvailable with a device path gets the DoesNotExist error; RequestPinCode is handled exactly when it carries a device path |
| Service.OnCreatePairedDeviceResult | cmds/bluetooth/service.cpp:724-764 | the result is always a bond result code, and success when there is no error |
| Service.PairingResultRules | cmds/bluetooth/service.cpp:733-760 | an InProgress error gives DISCOVERY_IN_PROGRESS exactly for "Discover in progress", success for "Bonding in progress" and ERROR for any other text (the `default` fallthrough); every other error in the bond map gives its own mapped code, so AlreadyExists counts as success |
| Service.UnknownPairingError | cmds/bluetooth/service.cpp:733-759 | an error name missing from the bond map gives the generic bond error |
| Service.OnCreateDeviceResult | cmds/bluetooth/service.cpp:766-786 | success exactly without error; "already exists" exactly for that error name; failure for any other error |
| Service.OnGetDeviceServiceChannelResult | cmds/bluetooth/service.cpp:788-801 | the channel is the reply's int32 argument, and -2 on an error or a missing argument |
| Service.OnInputDeviceConnectionResult | cmds/bluetooth/service.cpp:803-820 | the result is an input result code, success exactly without error, "not connected" only for that message |
| Service.OnPanDeviceConnectionResult | cmds/bluetooth/service.cpp:822-843 | the result is a PAN result code, success exactly without error, the two connection-state failures only for their messages |
| Service.OnHealthDeviceConnectionResult | cmds/bluetooth/service.cpp:845-857 | the result is a health result code and success exactly without error |
| Service.OnDiscoverServicesResult | cmds/bluetooth/service.cpp:1168-1181 | discovery succeeds exactly when there is no error |
| Service.ConnectionResultRules | cmds/bluetooth/service.cpp:807-838 | a generic Failed error maps by its message text to the input and PAN connection failures |
| Service.FirstRefused | cmds/bluetooth/service.cpp:219-231 | the subscription loop stops at the first match rule the bus refuses |
| Service.AddMatch | cmds/bluetooth/service.cpp:219-231 | rules are added in order up to the first refused one, which ends the program |
| Service.RemoveMatch | cmds/bluetooth/service.cpp:232-243 | every rule is visited and each rule the bus accepts removing is unsubscribed |
| Service.SignamesAreSignalRules | cmds/bluetooth/blueprop.h:2-14 | there are ten match rules and each selects signals |
| EventLoop.ConvertersRoundTrip | cmds/bluetooth/service.cpp:167-173 | converting watch flags to poll events and back keeps the four flag bits |
| EventLoop.ConvertersSwappedAtUse | cmds/bluetooth/service.cpp:167-173 | as the converters are called, a writable watch polls for no event and a POLLOUT wakes it as a hang-up |
| EventLoop.ConversionsMeaning | cmds/bluetooth/service.cpp:167-173 | the corrected conversions map readable, writable, error and hang-up to POLLIN, POLLOUT, POLLERR and POLLHUP and back, bit for bit |
| EventLoop.AddWatchCommands | cmds/bluetooth/service.cpp:181-198 | adding a watch sends one ADD command exactly when the watch is enabled |
| EventLoop.RemoveWatchCommands | cmds/bluetooth/service.cpp:200-208 | removing a watch sends one REMOVE command for its descriptor and flags |
| EventLoop.ToggleWatchCommands | cmds/bluetooth/service.cpp:210-217 | toggling sends ADD for an enabled watch and REMOVE otherwise |
| EventLoop.WakeupCommands | cmds/bluetooth/service.cpp:245-249 | a wakeup sends one WAKEUP command |
| EventLoop.FindEntry | cmds/bluetooth/service.cpp:492-497 | the search stops at the first slot with the same descriptor and events, or at the count |
| EventLoop.MoveLastTo | cmds/bluetooth/service.cpp:523-530 | removing a slot moves the last slot into it and keeps every other slot |
| EventLoop.Step | cmds/bluetooth/service.cpp:456-545 | a command keeps the table well formed; only EXIT, or an ADD of a watch already in the table (which exits the process), stops the loop |
| EventLoop.RunSpec | cmds/bluetooth/service.cpp:456-545 | processing drains the queue unless an EXIT or a duplicate ADD stops it, and then the last command consumed is that one |
| EventLoop.RunSpecUnfold | cmds/bluetooth/service.cpp:456-545 | processing the queue is the first command's step followed by processing the rest |
| EventLoop.AddPreserves | cmds/bluetooth/service.cpp:491-514 | an ADD keeps every (descriptor, events) pair in the table unique |
| EventLoop.RemovePreserves | cmds/bluetooth/service.cpp:516-535 | a REMOVE keeps the table well formed and its pairs unique |
| EventLoop.RunPreservesUniqueKeys | cmds/bluetooth/service.cpp:456-545 | any command sequence keeps the table free of duplicate watches |
| EventLoop.AddThenRemove | cmds/bluetooth/service.cpp:484-535 | adding a new watch and then removing it restores the table's contents |
| EventLoop.ToggleOnOff | cmds/bluetooth/service.cpp:210-217 | toggling a watch on adds it once and toggling it off again removes it |
| EventLoop.ExitStops | cmds/bluetooth/service.cpp:458-482 | EXIT stops at once and leaves the table unchanged |
| EventLoop.IgnoredCommands | cmds/bluetooth/service.cpp:537-542 | WAKEUP and unknown commands leave the table unchanged |
| EventLoop.WatchTable.State | cmds/bluetooth/service.cpp:88-89 | the live part of the arrays forms a well-formed table |
| EventLoop.WatchTable.constructor | cmds/bluetooth/service.cpp:551-561 | the table starts with the control socket's POLLIN entry and the default capacity |
| EventLoop.WatchTable.Find | cmds/bluetooth/service.cpp:492-497 | the search loop finds the first matching slot, or the count |
| EventLoop.WatchTable.Grow | cmds/bluetooth/service.cpp:498-509 | the arrays are reallocated one slot larger with the live entries copied |
| EventLoop.WatchTable.Append | cmds/bluetooth/service.cpp:510-514 | the new entry is stored after the live ones |
| EventLoop.WatchTable.AddEntry | cmds/bluetooth/service.cpp:484-514 | ADD follows `AddSpec`: a duplicate ends the process with the table unchanged, otherwise the entry is appended, growing the arrays by one slot when full |
| EventLoop.WatchTable.RemoveEntry | cmds/bluetooth/service.cpp:516-535 | REMOVE moves the last entry into the matching slot and shrinks the count |
| EventLoop.WatchTable.Apply | cmds/bluetooth/service.cpp:457-542 | one command changes the arrays as its step specifies |
| EventLoop.WatchTable.ProcessControl | cmds/bluetooth/service.cpp:453-546 | processing a command queue leaves the table, stop reason and count of commands consumed that `RunSpec` gives |
| Socket.NbFlags | cmds/bluetooth/socket.cpp:82-83 | O_NONBLOCK is set exactly when requested and every other flag is kept |
| Socket.NbFlagsLastWins | cmds/bluetooth/socket.cpp:82-83 | setting the non-blocking mode twice is the same as the last setting |
| Socket.SetNb | cmds/bluetooth/socket.cpp:75-91 | set_nb returns 0 exactly when both fcntl calls succeed, asking for the old flags with only O_NONBLOCK changed |
| Socket.TypeAsStr | cmds/bluetooth/socket.cpp:50 | each socket type has its own name, and any unknown type prints as L2CAP |
| Socket.LinkModeBits | cmds/bluetooth/socket.cpp:295-306 | RFCOMM and L2CAP get AUTH iff auth, ENCRYPT iff encrypt and SECURE iff both, and no other bit; other types get 0 |
| Socket.InitSocket | cmds/bluetooth/socket.cpp:267-322 | unknown types and failed sockets are reported; the link-mode option fails exactly when a non-zero link mode is refused, the send-buffer option exactly when an RFCOMM socket's buffer size is refused after that, and the socket is created exactly when neither happens, carrying its link mode and, for RFCOMM only, the send buffer size |
| Socket.ScoHasNoOptions | cmds/bluetooth/socket.cpp:294-306 | a SCO socket is created with link mode 0 and no send buffer option |
| Socket.ListeningLinkMode | cmds/bluetooth/socket.cpp:186-190 | listening sockets ask for authentication and encryption |
| Socket.SetupListeningSocket | cmds/bluetooth/socket.cpp:178-207 | the socket is returned exactly when creation, setsockopt and bind succeed, otherwise -1 |
| Socket.RangeCheckWraps | cmds/bluetooth/socket.cpp:522 | the range check as written accepts offset 0x7fffffff, length 1 on an empty buffer |
| Socket.RangeChecksAgree | cmds/bluetooth/socket.cpp:522-547 | where offset + length does not overflow, the check as written and the corrected check agree |
| Socket.ReadNative | cmds/bluetooth/socket.cpp:511-534 | -1 when the socket or buffer is missing, the range leaves the buffer or the read fails; otherwise the result of the read (with the non-wrapping range check, see Left out) |
| Socket.DrainReturnsLength | cmds/bluetooth/socket.cpp:554-564 | when every write stays within what is left, a completed write-all has written exactly the requested length |
| Socket.DrainFailsOnError | cmds/bluetooth/socket.cpp:554-564 | a failed write before the data is all written fails the whole call |
| Socket.WriteAll | cmds/bluetooth/socket.cpp:553-564 | the write loop's result and final offset are those `Drain` gives |
| Socket.WriteNative | cmds/bluetooth/socket.cpp:536-565 | a missing socket or buffer, or a range outside the buffer, returns -1 without writing; otherwise the write loop runs (with the non-wrapping range check, see Left out) |
| Socket.Attempts | cmds/bluetooth/socket.cpp:378-390 | connect is tried at least once and at most three times |
| Socket.AttemptsMeaning | cmds/bluetooth/socket.cpp:378-390 | every attempt but the last hit a collision, and the last either did not or was the third |
| Socket.ConnectNative | cmds/bluetooth/socket.cpp:324-393 | a missing socket, a bad address and an unknown type are reported; otherwise the result is the last of the retried connect attempts |
| Socket.BindListenNative | cmds/bluetooth/socket.cpp:396-445 | EINVAL without a socket, ENOSYS for an unknown type, bind's errno when bind fails, listen's errno when listen fails after a good bind, 0 exactly when both succeed |
| Wifitest.FindToken | cmds/wifitest/wifitest_main.cpp:122-123 | the scan stops at the first separator, or at the end |
| Wifitest.ScanToToken | cmds/wifitest/wifitest_main.cpp:122-123 | the pointer loop stops where the first separator is |
| Wifitest.SplitStringLoop | cmds/wifitest/wifitest_main.cpp:116-134 | the split loop produces exactly the bounded split of the string |
| Wifitest.LoopLimitIs | cmds/wifitest/wifitest_main.cpp:121 | a limit of 0 means effectively unbounded (the unsigned count wraps); otherwise at most limit - 1 cuts |
| Wifitest.SplitStringCount | cmds/wifitest/wifitest_main.cpp:121-131 | with a limit of at least one there are at most that many pieces |
| Wifitest.SplitStringTokenFree | cmds/wifitest/wifitest_main.cpp:121-129 | no piece but the last contains the separator |
| Wifitest.SplitStringJoin | cmds/wifitest/wifitest_main.cpp:116-134 | joining the pieces with the separator gives back the string, up to a trailing empty piece that is dropped |
| Wifitest.SplitExamples | cmds/wifitest/wifitest_main.cpp:130-143 | "a,b,c" splits in two as "a" and "b,c"; "a," loses its empty tail |
| Wifitest.GetBoolean | cmds/wifitest/wifitest_main.cpp:96-105 | a missing argument is a usage error; otherwise true exactly for the true words |
| Wifitest.BooleanWords | cmds/wifitest/wifitest_main.cpp:102-104 | "on" and "true" in any case and words starting with '1' are true; "off", "false", "0", "" and "yes" are not |
| Wifitest.GetInt | cmds/wifitest/wifitest_main.cpp:107-114 | a missing argument is a usage error; otherwise the value is atoi of the argument |
| Wifitest.GetIntReadsPrinted | cmds/wifitest/wifitest_main.cpp:113 | a printed integer is read back as itself |
| Wifitest.GetStrings | cmds/wifitest/wifitest_main.cpp:137-144 | a missing argument is a usage error; otherwise the argument split at the first ',' into at most two pieces, none only for the empty argument |
| Wifitest.StatusLabel | cmds/wifitest/wifitest_main.cpp:36-37 | each network status has its own label |
| Wifitest.AddStation | cmds/wifitest/wifitest_main.cpp:177-187 | the first piece is the SSID; a second piece makes a WPA-PSK station with that key; otherwise an open station; no pieces is an error |
| Wifitest.Command | cmds/wifitest/wifitest_main.cpp:161-207 | each known word issues its own call: monitor registers and asks to follow events, scan/activescan start a passive/active scan, driver/polling/background switch by the truth of their argument, remove/enable/select/disable act on atoi of theirs, add adds the station its argument describes, reconnect/disconnect/reassociate do so; it then advances past its argument; unknown words and missing arguments are usage errors, and add with an empty argument is the empty-list failure |
| Wifitest.Interpret | cmds/wifitest/wifitest_main.cpp:160-208 | no more calls are made than there are words left (which calls, for an argv of whole commands, is `InterpretCommands`) |
| Wifitest.CommandInPlace | cmds/wifitest/wifitest_main.cpp:161-207 | a command reads only its own words, so anywhere in argv it makes the calls it makes alone |
| Wifitest.InterpretCommands | cmds/wifitest/wifitest_main.cpp:160-208 | argv made of whole commands finishes with the calls of each command in turn, following when one is "monitor" |
| Wifitest.ParseCommands | cmds/wifitest/wifitest_main.cpp:155-208 | the argv loop produces the calls, follow flag and ending that `WifiMain` gives |
| Wifitest.UnknownWordExits | cmds/wifitest/wifitest_main.cpp:203-206 | an unknown word ends with usage before making any call |
| Wifitest.AddWithKey | cmds/wifitest/wifitest_main.cpp:176-188 | "add ssid,key" adds a WPA-PSK station with that key |
| Wifitest.AddOpen | cmds/wifitest/wifitest_main.cpp:176-188 | "add ssid" adds an open station |
| Lights.Loaded | cmds/lights/lights_main.cpp:53-69 | without the HAL module every slot is empty; with it each slot holds its light, alive exactly when its device opened |
| Lights.FirstMatch | cmds/lights/lights_main.cpp:91-96 | the lookup returns the first slot whose name agrees in three characters, or -1 |
| Lights.NamePrefixesDistinct | cmds/lights/lights_main.cpp:60-67 | the eight light names differ in their first three characters |
| Lights.LoadedLookup | cmds/lights/lights_main.cpp:91-96 | any name agreeing with a light's first three characters finds that light |
| Lights.NotLoadedLookup | cmds/lights/lights_main.cpp:54-58 | without the HAL module no name is found |
| Lights.AliveNames | cmds/lights/lights_main.cpp:98-102 | dump lists only names of lights whose device is open |
| Lights.LoadedNames | cmds/lights/lights_main.cpp:98-102 | dump lists exactly the opened lights, in slot order |
| Lights.DumpExtremes | cmds/lights/lights_main.cpp:98-102 | with every device open dump lists all eight names; without the module it lists nothing |
| Lights.DeliveryAsWritten | cmds/lights/lights_main.cpp:85-89 | as written, a light whose device failed to open is still called, through a null device |
| Lights.DeliveryChecked | cmds/lights/lights_main.cpp:85-89 | with the alive check a request reaches a light exactly when it is present and open |
| Lights.DeliveryAgrees | cmds/lights/lights_main.cpp:85-89 | the checked and unchecked versions deliver to the same lights and differ only on dead ones |
| Lights.Applied | cmds/lights/lights_main.cpp:85-89 | a request changes only the addressed light's last state, and nothing when it is not delivered |
| Lights.AppliedKeepsTable | cmds/lights/lights_main.cpp:85-102 | setting a light changes neither name lookup nor dump |
| Lights.LastRequestWins | cmds/lights/lights_main.cpp:85-89 | two requests to the same light leave the second |
| Lights.DifferentLightsCommute | cmds/lights/lights_main.cpp:85-89 | requests to different lights can be applied in either order |
| Lights.BrightnessColor | cmds/lights/lights_main.cpp:71-73 | a brightness becomes opaque grey with that level in each channel |
| Lights.PackRGBChannels | cmds/lights/lights_main.cpp:155 | channel values below 256 pack into an opaque colour with red, green and blue in their bytes |
| Lights.GreyIsBrightness | cmds/lights/lights_main.cpp:71-73 | equal channels give the brightness colour |
| Lights.PackRGBOverflows | cmds/lights/lights_main.cpp:155 | an out-of-range channel spills into its neighbour |
| Lights.Steady | cmds/lights/lights_main.cpp:71-79 | a steady request carries the colour with no flashing, user brightness |
| Lights.Flashing | cmds/lights/lights_main.cpp:81-83 | a flashing request carries the colour and the on/off times with hardware flashing |
| Lights.Dispatch | cmds/lights/lights_main.cpp:137-158 | an unknown light or wrong argument count is a usage error; "flash" flashes with the given or default times and follows; three arguments set brightness; five set an RGB colour |
| Lights.FlashDefaults | cmds/lights/lights_main.cpp:140-146 | "flash" alone flashes colour 200 for 1000 ms on and off |
| Lights.FourArgumentsNeedFlash | cmds/lights/lights_main.cpp:151-158 | four arguments without "flash" are a usage error |
| Lights.DeadLightReachesNullDevice | cmds/lights/lights_main.cpp:85-89 | with the keyboard device not open, "lights keyboard 100" reaches the null device as written and is ignored when checked |
| Lights.Lights.constructor | cmds/lights/lights_main.cpp:53-69 | the slots are filled as Loaded says |
| Lights.Lights.NameToIndex | cmds/lights/lights_main.cpp:91-96 | the lookup loop returns the first slot matching in three characters, or -1 |
| Lights.Lights.Dump | cmds/lights/lights_main.cpp:98-102 | the dump loop prints the names of the open lights in slot order |
| Lights.Lights.SetLight | cmds/lights/lights_main.cpp:85-89 | the slots change as a checked request does |
| Lights.Lights.SetBrightness | cmds/lights/lights_main.cpp:71-75 | the light is set to the steady brightness colour |
| Lights.Lights.SetColor | cmds/lights/lights_main.cpp:77-79 | the light is set to the steady colour |
| Lights.Lights.SetFlashing | cmds/lights/lights_main.cpp:81-83 | the light is set to flash with the colour and times |
| Lights.Lights.Run | cmds/lights/lights_main.cpp:129-164 | no light name dumps the open lights; otherwise the dispatched request is applied, or usage is reported with the slots unchanged |
| Phonetest.RilErrorToString | cmds/phonetest/phonetest_main.cpp:10-32 | each RIL error code has its text, "Okay" only for success, "Unknown" exactly outside the range |
| Phonetest.CheckResult | cmds/phonetest/phonetest_main.cpp:34-41 | a zero result passes silently; any other prints the operation, the error text and the code |
| Phonetest.CheckResultCarriesCode | cmds/phonetest/phonetest_main.cpp:37 | the printed code reads back as the result |
| Phonetest.FollowUp | cmds/phonetest/phonetest_main.cpp:98-120 | a call-state change asks for the current calls with token 1000; a voice-network change asks for the operator and then the voice registration state, both with token 1001; nothing else asks anything |
| Phonetest.Options | cmds/phonetest/phonetest_main.cpp:149-159 | any option other than -f is a usage error; otherwise follow is on exactly when -f was given |
| Phonetest.OptionsRejects | cmds/phonetest/phonetest_main.cpp:149-159 | one unknown option anywhere rejects the whole option list |
| Phonetest.OptionsAccepts | cmds/phonetest/phonetest_main.cpp:149-159 | a list of -f options is accepted |
| Phonetest.Command | cmds/phonetest/phonetest_main.cpp:173-209 | status, current, operator, answer and reject become GetSIMStatus, GetCurrentCalls, Operator, Answer and Reject; dial and hangup become Dial of their operand and Hangup of atoi of it; all carry the given token; unknown commands and missing operands are usage errors |
| Phonetest.PhonetestMain | cmds/phonetest/phonetest_main.cpp:144-209 | usage exactly for bad options, no command or a bad command; with -f the registration for everything comes first and only then; a good command adds its one request after it; waiting follows events exactly with -f |
| Phonetest.OnlyFirstOperand | cmds/phonetest/phonetest_main.cpp:173-209 | operands after a complete command are ignored |
| Phonetest.FollowRegistersFirst | cmds/phonetest/phonetest_main.cpp:170-175 | with -f the client registers for all events before sending the command |
| Phonetest.RunPhonetest | cmds/phonetest/phonetest_main.cpp:144-209 | the main routine sends the requests and ends as `PhonetestMain` gives |
| InputTest.DumpClass | cmds/inputtest/inputtest_main.cpp:141-147 | the loop prints the names of the selected classes separated by single spaces |
| InputTest.SelectedOnly | cmds/inputtest/inputtest_main.cpp:144-146 | a class set meeting one row prints that row's name alone |
| InputTest.NoneSelected | cmds/inputtest/inputtest_main.cpp:144-146 | a class set meeting no row prints nothing |
| InputTest.ClassNamesShape | cmds/inputtest/inputtest_main.cpp:124-139 | the class table ends with its sentinel, and every row has a non-empty name and a class bit |
| InputTest.ClassBitsDistinct | cmds/inputtest/inputtest_main.cpp:127-139 | each row's bit meets only that row |
| InputTest.SingleClass | cmds/inputtest/inputtest_main.cpp:141-147 | a single class prints as its own name |
| InputTest.FirstClass | cmds/inputtest/inputtest_main.cpp:127-139 | a class set with a known bit meets some row |
| InputTest.ClassListing | cmds/inputtest/inputtest_main.cpp:141-147 | the listing is empty exactly when no known class bit is set, and never starts with a space |
| InputTest.SelectedNonEmpty | cmds/inputtest/inputtest_main.cpp:141-147 | a row that meets the class set is listed |
| InputTest.AxisTablesAgree | cmds/inputtest/inputtest_main.cpp:14-112 | the axis list and the name table agree on every axis name |
| InputTest.EventName | cmds/inputtest/inputtest_main.cpp:114-122 | an event is named exactly when it is an absolute-axis event with a code inside the table |
| InputTest.ModeOf | cmds/inputtest/inputtest_main.cpp:156-166 | no argument dumps raw events; an argument starting with "d" shows devices |
| InputTest.Names | cmds/inputtest/inputtest_main.cpp:176-178 | raw dumping names every event of the batch |
| InputTest.ScanLength | cmds/inputtest/inputtest_main.cpp:173-210 | device mode reads batches up to and including the first one that finishes the scan |
| InputTest.ScanGoesOn | cmds/inputtest/inputtest_main.cpp:173-210 | reading continues while no batch has finished the scan |
| InputTest.ScanStops | cmds/inputtest/inputtest_main.cpp:173-210 | reading stops at the batch that finishes the scan |
| InputTest.ProcessBatch | cmds/inputtest/inputtest_main.cpp:176-212 | one batch yields its event names when dumping, its added devices when showing devices, and whether it finished the scan |
| InputTest.EventLoop | cmds/inputtest/inputtest_main.cpp:173-213 | raw mode names every event of every batch; device mode lists the devices added up to the scan's end |
| CameraCapture.EncoderFor | cmds/cameracapture/cameracapture.cpp:164-176 | codec 2 selects H.263, codec 1 MPEG-4 SP, anything else H.264 |
| CameraCapture.CodecsSelectDistinctEncoders | cmds/cameracapture/cameracapture.cpp:164-176 | the three accepted codecs select three different encoders |
| CameraCapture.GetoptResult | cmds/cameracapture/cameracapture.cpp:243 | getopt passes declared option letters through and turns others into '?' |
| CameraCapture.GetoptTransparent | cmds/cameracapture/cameracapture.cpp:243-330 | an undeclared letter and its '?' are treated alike |
| CameraCapture.Step | cmds/cameracapture/cameracapture.cpp:244-331 | one option adds at most one stream and never changes the output file name (a fifth -s goes to usage here, see Left out) |
| CameraCapture.UsageExactly | cmds/cameracapture/cameracapture.cpp:243-332 | with the slot-checked -s of this model, the options lead to usage exactly when one is rejected or more than four streams are named; otherwise the streams are the -s arguments in order (the source has no such check, see Findings) |
| CameraCapture.StepUsage | cmds/cameracapture/cameracapture.cpp:244-331 | with the slot-checked -s of this model, a single option is rejected exactly when it is invalid or is an -s beyond the fourth (the source has no such check, see Findings) |
| CameraCapture.DeadOptions | cmds/cameracapture/cameracapture.cpp:275-330 | -o and -l always end in usage |
| CameraCapture.FileNameFixed | cmds/cameracapture/cameracapture.cpp:234-279 | the output file name always stays /sdcard/output.mp4 |
| CameraCapture.LastArg | cmds/cameracapture/cameracapture.cpp:245-303 | an option's last argument exists exactly when the option was given |
| CameraCapture.LastHostWins | cmds/cameracapture/cameracapture.cpp:257-260 | the host is the argument of the last -a, or none when no -a was given |
| CameraCapture.LastSettingWins | cmds/cameracapture/cameracapture.cpp:245-303 | each numeric setting is its default or the value of its last option |
| CameraCapture.StepSetting | cmds/cameracapture/cameracapture.cpp:245-303 | one option changes only its own setting |
| CameraCapture.DashSticks | cmds/cameracapture/cameracapture.cpp:314-323 | the DASH container stays selected once chosen and only -c dash chooses it |
| CameraCapture.StepFormat | cmds/cameracapture/cameracapture.cpp:314-323 | one option changes the container only as -c says |
| CameraCapture.UsageIsFinal | cmds/cameracapture/cameracapture.cpp:243-332 | once an option is rejected, later options cannot undo it |
| CameraCapture.ParseOptions | cmds/cameracapture/cameracapture.cpp:243-332 | the getopt loop ends in usage or with the configuration of the option fold |
| CameraCapture.FifthStreamOverruns | cmds/cameracapture/cameracapture.cpp:236-291 | after four streams, a fifth -s writes slot 4 of the four-slot array as written; the model rejects it |
| CameraCapture.StreamsFit | cmds/cameracapture/cameracapture.cpp:236-291 | with the slot check, at most four streams are ever recorded |
| CameraCapture.TruncDiv | cmds/cameracapture/cameracapture.cpp:188 | integer division truncates toward zero, as C's does |
| CameraCapture.MaxDuration | cmds/cameracapture/cameracapture.cpp:188 | the duration is the frame time in whole seconds, in ms; a zero frame rate has none |
| CameraCapture.MaxDurationParameter | cmds/cameracapture/cameracapture.cpp:187-189 | the parameter reads "max-duration=" followed by the duration |
| CameraCapture.Snprintf | cmds/cameracapture/cameracapture.cpp:354-361 | the text is cut to fit the buffer, and kept whole when it fits |
| CameraCapture.StreamTarget | cmds/cameracapture/cameracapture.cpp:352-362 | without a host each stream goes to /sdcard/<stream>; with one it is posted to /<stream> on that host and port |
| CameraCapture.RecordingFor | cmds/cameracapture/cameracapture.cpp:340-365 | a camera's recorder uses its stream target, the selected encoder and container, and the max duration |
| CameraCapture.StartRecorders | cmds/cameracapture/cameracapture.cpp:334-366 | one recorder is started per stream, cameras from the last down to 0 |
| CameraCapture.EveryStreamStarted | cmds/cameracapture/cameracapture.cpp:334-336 | each stream's camera is started exactly once |
| CameraCapture.HttpPost | cmds/cameracapture/cameracapture.cpp:103-118 | the header is sent when it fits the line buffer, and is the POST header for the path and host |
| CameraCapture.PostHeaderShape | cmds/cameracapture/cameracapture.cpp:106-111 | the header is the request line, then the Host line, then the fixed lines ending in an empty line |
| CameraCapture.ProgressLooksLikeCompletion | cmds/cameracapture/cameracapture.cpp:66-72 | a progress event with code 1001 satisfies the test as written but is not completion |
| CameraCapture.DoneCheckedImpliesAsWritten | cmds/cameracapture/cameracapture.cpp:66-72 | every completion the corrected test (info code in the low 28 bits equal to 1000) sees is also seen by the test as written |
| CameraCapture.TaggedCompletionSeen | cmds/cameracapture/cameracapture.cpp:66-72 | a completion whose ext1 carries a track id in its top four bits is seen by both tests |
| CameraCapture.Listener.constructor | cmds/cameracapture/cameracapture.cpp:61 | a new listener is not done |
| CameraCapture.Listener.Notify | cmds/cameracapture/cameracapture.cpp:66-72 | the listener becomes done when a track info event's ext1 shares a bit with 1000, as the source tests it, and stays done |
| Sensors.Search | cmds/sensors/sensor.cpp:35-42 | the search stops at the first entry from the index on that names the sensor, ignoring case, or at the sentinel |
| Sensors.StepScan | cmds/sensors/sensor.cpp:32-43 | each -t counts once; the search resumes at the current index and stops at the first entry naming the sensor, whose type is OR-ed in, or at the sentinel, adding nothing |
| Sensors.Scans | cmds/sensors/sensor.cpp:29-48 | after the options, the count is the number of options and the index lies in the table |
| Sensors.UsageExactly | cmds/sensors/sensor.cpp:44-46 | usage is printed exactly when some option is not -t |
| Sensors.UsageIsFinal | cmds/sensors/sensor.cpp:44-46 | a rejected option cannot be undone by later ones |
| Sensors.TypeOnlyGrows | cmds/sensors/sensor.cpp:38 | more options never clear a type bit nor move the index back |
| Sensors.MissIsFinal | cmds/sensors/sensor.cpp:35-41 | after a miss the index rests on the sentinel and later -t options set nothing |
| Sensors.AgainstTableOrder | cmds/sensors/sensor.cpp:26-42 | naming a later sensor before an earlier one finds only the later one |
| Sensors.ResumeSearch | cmds/sensors/sensor.cpp:35-42 | the inner loop stops where `Search` does; stopping on an entry means that entry names the sensor and its type is OR-ed in, stopping on the sentinel adds nothing |
| Sensors.SensorMain | cmds/sensors/sensor.cpp:22-48 | the getopt loop produces the scan of the option fold |
| Sensors.FoundType | cmds/sensors/sensor.cpp:35-42 | a search from the start yields the type of the first entry naming the sensor, and nothing when no entry names it |
| Sensors.FromStartIsUnion | cmds/sensors/sensor.cpp:35-42 | with the index reset before each search, the type is the union of the named sensors' types |
| Sensors.FromStartOrderIrrelevant | cmds/sensors/sensor.cpp:35-42 | with the index reset, the order of the -t options does not matter |
| Sensors.FromStartFindsBoth | cmds/sensors/sensor.cpp:35-42 | with the index reset, the two sensors of AgainstTableOrder both set their types |

## Left out

- D-Bus and BlueZ remote calls are not modelled: message construction, argument marshalling, pending calls, agent registration and the adapter-path retry. Messages and replies are values of a small datatype; `BtProps.EncodeDict` stands in for the dictionary marshalling as the decoder's partner.
- The event loop's `poll()` wait, its dispatch of ready descriptors and the byte-level control-socket reads and writes are left out. `ProcessControl` takes a queue of decoded commands.
- `EventLoop.WatchTable.ProcessControl`, `EventLoop.Step` and `EventLoop.RunSpec`: use the corrected converter (`WatchEvents`) for the events they store; the as-written swap is recorded under Findings.
- BlueZ's error names for the `on*Result` callbacks are taken from the tables as data; KeyedVector, String8 and Vector internals are not modelled, and `BTProperties` is a map.
- `get_socketData` returns NULL in every build of the source, so the socket calls take whether the native data is present as a parameter. The locals that the source leaves uninitialised (socket type, auth, encrypt, buffer size) are parameters too.
- `acceptNative`, `availableNative`, `abortNative`, `destroyNative`, `waitForHandsfreeConnectNative`, `setUpListeningSocketsNative`, `tearDownListeningSocketsNative` and `initializeNativeDataNative` are left out: they are syscall wrappers or dereference the missing native data.
- `Socket.ReadNative` and `Socket.WriteNative`: use the non-wrapping range check `RangeRejected`; the source adds offset and length in a 32-bit int, so for a sum past INT_MAX the model rejects where the source may accept (recorded under Findings as `RangeCheckWraps`).
- Syscall results (fcntl, socket, setsockopt, bind, listen, connect, recv, write) are parameters or oracles.
- The sleep between `connectNative`'s attempts is left out; each attempt's result and errno come from an oracle.
- `CLib.Atoi` and `CLib.StrtolHex` read unbounded digit runs; the saturation of `strtol` and the overflow of `atoi` at the limits of `long` and `int` are not modelled.
- Integer overflow of `params.nFrames/params.frameRateFps*1000`, that is `(nFrames / frameRateFps) * 1000`, in cameracapture is not modelled; `int` is unbounded there.
- `CameraCapture.Step`: rejects a fifth -s with the usage exit; the source stores it into `streamNames[4]`, past the end of the four-slot array, which has no defined result (recorded under Findings as `FifthStreamOverruns`). `UsageExactly` and `StepUsage` are stated about this checked fold.
- The placement of the track id in the top four bits of the listener's ext1, which the corrected completion test masks off, follows Android's MPEG-4 writer, which is not part of this model.
- `CameraCapture.MaxDuration` and `CameraCapture.StartRecorders`: with fps 0 the source divides by zero, which C leaves undefined. The model gives that recording no max-duration (`None`) and goes on starting every later recorder; whatever the division does to the run, and a recording without a duration that never stops, is not captured.
- `CameraCapture.HttpPost`: a header of 1024 characters or more is reported as not sent. In the source, once `nchars` passes 1024 the `size_t` difference `sizeof(line)-nchars` wraps, so the next `snprintf` writes past `line` and `write(sock, line, nchars)` reads past it (a buffer overrun); only a header of exactly 1024 characters stays inside the buffer, cut short by its last NUL. Neither outcome is modelled.
- getopt's own behaviour beyond letter recognition (missing option arguments, argument permutation, `optind` bookkeeping) is not modelled; options arrive as (letter, argument) pairs.
- `CameraCapture.DeadOptions`: the `-o` case is reachable only through getopt's '?' path, since 'o' is not in the option string; the model states that it ends in usage.
- Camera, surface and MediaRecorder setup, the busy-wait on the listener's done flag, the stop calls and the floating-point fps report are left out. `connectToHost` is left out: it is socket and DNS plumbing.
- The HAL calls (`hw_get_module`, `open`, `set_light`), binder clients (PhoneClient, WifiClient, EventHub) and their `sleep` loops are left out. A light is modelled by its last requested state.
- `Lights.Lights.SetLight`: applies the corrected, alive-checked delivery; the unchecked delivery is recorded under Findings.
- The sensors table `klaatuSensors` is a parameter: `sensors/sensor.h` is not part of this model.
- The sensor dump loop after the option fold, `cmds/host/main.cpp`, `cmds/sensortest-ndk/sensortest_main.cpp` and `cmds/phonetest/PhoneTest.cpp` are not part of this model: they only call foreign services.
- The `#if 0` blocks of `blueprop.h` and `btcommon.cpp` and the empty base64 stubs are not modelled.

## Findings

| source | as written | input that shows it | evidently intended | confidence | as-written member | corrected member |
|---|---|---|---|---|---|---|
| cmds/bluetooth/service.cpp:606 | agent_event_filter classifies the message with findsignal over the signal table, so an agent method call gets -1 and falls through as not handled | a method call org.bluez.Agent.Release | classify with findmethod over the method table, so agent calls are answered | high, not executed | Service.AgentEventFilterDeclinesEverything | Service.AgentEventFilterAnswers |
| cmds/bluetooth/service.cpp:167-173, 491, 575 | the bodies of the two converters are swapped with respect to their names, so ADD and REMOVE turn watch flags into events with the poll-to-watch mapping, and ready events reach libdbus through the watch-to-poll mapping | a watch with DBUS_WATCH_WRITABLE only; a POLLOUT result | watch flags become poll events and poll results become watch flags | high, not executed | EventLoop.ConvertersSwappedAtUse | EventLoop.ConversionsMeaning |
| cmds/bluetooth/socket.cpp:522, 547 | the range check adds offset and length in a 32-bit int; the sum can overflow, which C leaves undefined and two's-complement targets wrap | offset 0x7fffffff, length 1, buffer size 0 | reject any range past the end of the buffer | medium, not executed | Socket.RangeCheckWraps | Socket.RangeChecksAgree |
| cmds/lights/lights_main.cpp:85-89 | setLight calls the device without checking alive(), so a light whose device failed to open is called through a null pointer | the keyboard device fails to open; `lights keyboard 100` | skip lights that are not alive | high, not executed | Lights.DeadLightReachesNullDevice | Lights.DeliveryAgrees |
| cmds/cameracapture/cameracapture.cpp:66-72 | completion is tested as ext1 & 1000, a bitwise test on a decimal code | a TRACK_EVENT_INFO event with ext1 1001 | compare the info code, ext1 with its top four track-id bits masked off, with 1000 | medium, not executed | CameraCapture.ProgressLooksLikeCompletion | CameraCapture.DoneCheckedImpliesAsWritten |
| cmds/cameracapture/cameracapture.cpp:236, 287-291 | -s stores into streamNames[numStreams++] without a bound, and the array has four slots | five -s options | reject a fifth stream | high, not executed | CameraCapture.FifthStreamOverruns | CameraCapture.StreamsFit |
| cmds/sensors/sensor.cpp:26, 35-42 | the table index i is declared once and never reset, so each -t search starts where the previous one stopped | -t for a sensor later in the table, then -t for an earlier one | restart the search at the first entry for each -t | high, not executed | Sensors.AgainstTableOrder | Sensors.FromStartFindsBoth |
