# libgusb in Dafny

libgusb wraps libusb for GLib programs. This project models the stateful parts of the library and proves what
they promise:

- **Recording and replaying.** A context that saves events keeps a log in every device: each transfer and each
  answered query adds an event whose id is a printed form of the whole request, the caller's buffer included. An
  emulated device, loaded from JSON, answers the same calls from that log with a moving cursor. `EventKey`,
  `EventLog`, `Transfer`, `Replay`, `ReplayLookup`, `ReplayAgain` and `InFlight` state the meaning; `UsbDevice` is the
  object.
- **The list of devices.** A context keeps one list that four things change: the first enumeration, hotplug events
  on their way from libusb's thread, polling, and loading a JSON document. `Registry` states each change as a
  function; `Context` is the object; `SignalLog`, `IdAccount`, `Synchronise`, `LoadAgain`, `Polling`, `Replug` and
  `Hotplug` prove what holds over whole runs; `Plugging` tells a wait from the bus alone, `TaggedLoad` a load from the
  tags alone, and `Lookaside` follows the removed devices that a saving context keeps.
- **The descriptor tree in JSON.** `Json`, `DeviceEvent`, `Endpoint`, `BosDescriptor`, `Interface` and `Device`.
- **Names and places.** `UsbIds` is the index of the usb.ids file, `PlatformId` the text that names a device by its
  place in the tree of hubs, `DescriptorCache` the lazily filled descriptor arrays, `HidReport` the reading of HID
  report descriptors.

`Base64` follows section 4 of RFC 4648; decoding skips what is not in the alphabet, as GLib does. `Hex` and `Text`
are the printf conversions and the splitting the keys rest on.

An object whose fields the library updates is a class, and each of its methods is tied to a function of the state
before; the theorems are about those functions. What such a function computes is told once more by lemmas in terms of
bytes, members, elements and positions only. Lemmas carry `{:induction false}`: every induction is written out.
Devices in a context are entries with a serial number, so that two objects with equal contents stay apart. Signals
are a log.

## Findings

Each of these is a lemma below.

- A failed bulk or interrupt transfer that wrote to the buffer, one that reports fewer bytes than libusb wrote, and
  every query that fails with an error (or finds no interface), are the live steps a replay cannot reproduce; all
  others it reproduces the first time round (`Transfer.StepReplays`, `Replay.ReplayReproducesLive`). The configuration
  query is apart: when libusb fails it returns 0 and logs nothing, and a replay returns 0 too unless it finds an event
  of another such query (`Replay.UnansweredReplays`; `ReplayLookup.BlurredSession` is a session that cannot be told
  apart by it).
- Saving an open device reads its HID descriptors, and those transfers are logged before the log is written. They do
  not disturb a first replay. A second one, started where the first left the cursor, meets them first: if one of them
  has the id of the session's first event it answers in its place (`ReplayAgain.RunsOnce` is such a session,
  `ReplayAgain.SecondRun` says exactly when).
- `g_usb_device_invalidate` empties the HID array but not its flag, so the next query returns an empty array
  (`DescriptorCache.HidCacheGoesStale`), and descriptors read before a failure stay and are read again
  (`DescriptorCache.HidHoldsAnswer` is exact about when the array holds the device's answer).
- A replug wait keeps signals and list in agreement exactly when hotplug events took away as many devices of the
  platform id as came in, and one more for a timeout (`Replug.ReplugConserves`, and `Replug.HotplugConserves` by the
  events alone). So a timeout reports a removal even when the device never left (`Replug.StaysAndTimesOut`), and one
  in which the device returned just before reports the removal of a listed device.
- Polls have no regard for a replug wait: they emit the removal and keep the return quiet, so a wait that polls alone
  bring to its end always leaves the signals short (`Replug.PolledReplugMiscounts`).
- Loading the same tagged document twice is not always the same as loading it once: an untagged device that shares the
  platform id of a new tagged entry hides it from the second load, and so does another tagged entry with that id
  (`LoadAgain.LoadIsIdempotent` is exact about this).
- The comment in `g_usb_context_rescan` says that duplicates are filtered; the first enumeration lists what it is
  given, so it lists a place twice exactly when two usable devices share it (`Polling.EnumerateListsUsable`).

## Model

| member | source | states |
|---|---|---|
| Base64.DecodeEncode | gusb/gusb-device-event.c:60-110 | decoding the text of any bytes gives the bytes back |
| Base64.EncodeAlphabet | gusb/gusb-device.c:2423-2440 | the text of any bytes holds only letters of the alphabet and padding, so no comma or colon of a key |
| Base64.EncodeInjective | gusb/gusb-device.c:2423-2440 | different bytes have different texts |
| Base64.AlphabetOrder | gusb/gusb-device.c:2423-2440 | the letters are those of the standard alphabet, in its order |
| Base64.TestVectors | gusb/gusb-device.c:2423-2440 | four of the test vectors of section 10 of RFC 4648 |
| Text.SplitJoin | gusb/gusb-context.c:1199-1199 | splitting pieces joined by a character that none of them contains gives the pieces |
| Text.JoinInjective | gusb/gusb-device.c:2425-2440 | comma-joined fields without commas are determined by the joined text |
| Hex.ValueOfPad | gusb/gusb-device.c:2425-2440 | a number printed in hexadecimal at any width reads back |
| Hex.PadOfValue | gusb/gusb-device.c:649-655 | a numeral of hexadecimal digits is what printing its value at its width gives |
| Hex.DigitOrder | gusb/gusb-device.c:649-655 | the digits are 0 to 9 and lower-case a to f, in order |
| EventKey.KeyInjective | gusb/gusb-device.c:2420-2441 | two requests print the same id exactly when they are of the same kind with the same parameters and buffer bytes (the length of a string descriptor request modulo 2^32) |
| EventKey.FieldText | gusb/gusb-device.c:2425-2440 | a field is its name, =0x and the padded number |
| EventKey.CustomIndexText | gusb/gusb-device.c:994-1002 | the id of a custom index query, field by field |
| EventKey.StringTexts | gusb/gusb-device.c:1843-1847 | the ids of the string and configuration queries, field by field |
| EventKey.BulkTexts | gusb/gusb-device.c:2621-2632 | the ids of bulk and interrupt transfers, which differ in their first word only |
| EventKey.ControlText | gusb/gusb-device.c:2420-2441 | the id of a control transfer: eight fields in their order, names and widths |
| EventLog.SearchIsRotation | gusb/gusb-device.c:912-947 | the search returns the first match in the log rotated to start at the cursor, nothing exactly when no event has the id, and leaves the cursor just after the match or, without one, where it started |
| EventLog.CyclicReplay | gusb/gusb-device.c:912-947 | recorded ids asked in order, any number of times round and with any unrecorded ids in between, get event i mod n at recorded request i |
| EventLog.CountIdentifies | gusb/gusb-device.c:912-947 | events with one id are told apart by how many of them come before |
| EventLog.EachMatchOnce | gusb/gusb-device.c:912-947 | as many requests for an id as it has events, from any cursor, return each of those events once |
| Transfer.ErrorTable | gusb/gusb-device.c:762-813 | the error of every code: none for success, one of the library for each code of libusb, an internal error for any other |
| Transfer.StatusTable | gusb/gusb-device.c:2236-2288 | the error of every transfer status: none for completed, and one each for the others |
| Transfer.CStringStops | gusb/gusb-device.c:1875-1894 | the text of a string descriptor is the buffer up to its first zero byte |
| Transfer.QueryTells | gusb/gusb-device.c:1869-1894 | what each query returns, and the event it leaves: id, no error, and the bytes of the answer; a failed one leaves none |
| Transfer.CustomIndexTells | gusb/gusb-device.c:1028-1068 | the first interface with class, subclass and protocol all equal decides; its index is answered and logged unless it is 0, and then, or without such an interface, the query fails and logs nothing |
| Transfer.TransferTells | gusb/gusb-device.c:2291-2350 | what a transfer returns, each byte of the caller's buffer after it, and the event it leaves |
| Transfer.ReplayedTransferTells | gusb/gusb-device.c:2443-2497 | what an emulated transfer makes of any event or none: code, status, absent bytes, too many bytes, and otherwise the length and each byte of the buffer |
| Transfer.ReplayedQueryTells | gusb/gusb-device.c:1005-1024 | what an emulated query makes of any event or none |
| Transfer.ReplayedConfigurationTells | gusb/gusb-device.c:3224-3240 | what an emulated configuration query makes of any event or none |
| Transfer.StepReplays | gusb/gusb-device.c:2450-2497 | what an emulated device makes of a recorded event is the live result, error and buffer exactly when the response is replayable |
| Transfer.UnrecordedIsNotReplayable | gusb/gusb-device.c:1049-1064 | a step that logs nothing has no event to be replayed from, and a logged event bears the id of its request |
| Replay.InStep | gusb/gusb-device.c:2395-2559 | as long as every response is replayable the replayed run sees what the live run saw and its cursor follows the log |
| Replay.OutOfStep | gusb/gusb-device.c:1049-1064 | at the first response that is not replayable the two runs part, unless the session holds a failed configuration query and one answered with 0 |
| Replay.FailedQueryDiffers | gusb/gusb-device.c:1881-1891 | no log made of recorded events answers a query with the error it failed with live |
| Replay.UnansweredReplays | gusb/gusb-device.c:3224-3240 | a configuration that could not be read is replayed as it was, as 0, exactly when the search finds no event or one that answers 0 |
| Replay.HidReadingIsAppended | gusb/gusb-device.c:1409-1421 | what a save records while it reads HID descriptors are events of transfers |
| Replay.ReplayReproducesLive | gusb/gusb-device.c:2395-2559 | for every client, all hardware and any number of steps, recording, saving to JSON with whatever transfers the save appends, loading and running again gives the same results, errors and buffers if every response was replayable, and only then unless the session holds both a failed configuration query and one answered with 0 |
| Replay.SavedSessionReplays | gusb/gusb-device.c:463-505 | in particular with the HID transfers that saving the open device records |
| ReplayLookup.Reproduces | gusb/gusb-device.c:2443-2497 | a recorded event replays as a recorded response exactly when the response is replayable and the event says the same as its own |
| ReplayLookup.ReplayIsLookup | gusb/gusb-device.c:912-947 | from any cursor, in any log of recorded events that begins with the session's, a replay sees what was seen live exactly when the session's ids, looked up in order, lead to events that say the same as their own, and those of failed configuration queries to none or to one that answers 0 |
| ReplayLookup.BlurredSession | gusb/gusb-device.c:3213-3254 | a session with a failed configuration query and one answered 0 that is reproduced although a step is not replayable |
| ReplayAgain.AgainAndAgain | gusb/gusb-device.c:912-947 | if the save appended no event with the id of the session's first, the session replays from the beginning, the end or where a replay left off, and ends at such a place again, so any number of times |
| ReplayAgain.AgainParts | gusb/gusb-device.c:912-947 | if it did, and the first such event is not the session's own over again, a second replay differs |
| ReplayAgain.SecondRun | gusb/gusb-device.c:912-947 | so, unless it is, a second replay sees what was seen live exactly when the save appended no such event |
| ReplayAgain.SecondRunIsLookup | gusb/gusb-device.c:912-947 | without exception, a second replay sees what was seen live exactly when the session's ids, looked up from where the first replay ended, lead to events that say the same |
| ReplayAgain.RunsOnce | gusb/gusb-device.c:463-505 | a client that met a stall when asking for a report descriptor sees it in the first replay, and in the second the answer the save got |
| InFlight.RunsWhen | gusb/gusb-device.c:2504-2549 | a schedule runs exactly when every completion is of a transfer that was submitted without failing and has not been answered |
| InFlight.OwnOutcomes | gusb/gusb-device.c:2291-2350 | whatever the order of completions, the log is in submission order, every event holds the outcome of its own transfer, and a transfer is in flight exactly until it is answered |
| InFlight.OnlyAnswer | gusb/gusb-device.c:2323-2350 | a transfer completes at most once |
| InFlight.CompletionOrderIrrelevant | gusb/gusb-device.c:2504-2549 | two schedules with the same submissions in order and the same completions in any order end with the same log |
| InFlight.SameAsWaiting | gusb/gusb-device.c:2541-2549 | once all have finished each event is the one that waiting for its transfer would have recorded |
| InFlight.OverlapReplays | gusb/gusb-device.c:2504-2549 | overlapping transfers asked for again in the order of their submission each lead to their own event, and have their own live outcome exactly when the response is replayable |
| EventLog.OneRound | gusb/gusb-device.c:912-947 | the ids of a log asked for once in order each find their own event |
| DescriptorCache.CacheIsFirstAnswer | gusb/gusb-device.c:1142-1181 | over every run of queries and invalidations an invalid cache is empty and a valid one holds the first answer since the last invalidation, once |
| DescriptorCache.HidCacheGoesStale | gusb/gusb-device.c:1230-1239 | whatever the array held, a query after an invalidation returns the device's answer exactly when the cache was not valid or the answer is empty |
| DescriptorCache.PartialReadsPile | gusb/gusb-device.c:1480-1490 | until a query completes the array holds all that failed queries have read since the last invalidation |
| DescriptorCache.HidHoldsAnswer | gusb/gusb-device.c:1455-1495 | over every run with a complete query, the array holds its answer exactly when the failed queries before it had left nothing and nothing was invalidated after it, or when it was invalidated and the answer is empty |
| HidReport.CompleteReading | gusb/gusb-device.c:1355-1438 | a complete reading makes one transfer for each HID interface and holds one descriptor of the announced size for each |
| HidReport.SizeTells | gusb/gusb-device.c:1376-1400 | the size is the little-endian word at bytes 7 and 8 of a HID descriptor of at least nine bytes, and must not be 0 |
| HidReport.ReadTells | gusb/gusb-device.c:1355-1438 | the blobs are, in order of position, those the device gave for each HID interface up to the first that gave none: each filled a zeroed buffer of the announced size, and is the bytes of its event |
| Json.ReadData | gusb/gusb-device-event.c:69-76 | a data member that was omitted or written as base64 reads back |
| Json.ReadersTell | gusb/gusb-endpoint.c:66-92 | what reading a member gives when it is there, missing, or of another kind |
| Json.PrunedInt | gusb/gusb-endpoint.c:106-128 | a number is written exactly when it is not 0 |
| Json.CollectNodes | gusb/gusb-device.c:289-345 | an array of saved elements loads as the array of what each of them loads as |
| Json.JsonBuilder.EndObject | gusb/gusb-device.c:506-509 | ending an object puts one complete value where the object was begun and restores the nesting below it |
| Json.JsonBuilder.SetMemberName | gusb/gusb-device.c:384-388 | a name is set between two members, and only if the object does not have it yet |
| DeviceEvent.EventRoundTrip | gusb/gusb-device-event.c:53-112 | a saved event loads back with its id, status, rc and bytes, empty bytes staying apart from absent ones |
| DeviceEvent.EventMembers | gusb/gusb-device-event.c:81-112 | the name and value of each member written, and when it is left out |
| DeviceEvent.UsbDeviceEvent.Load | gusb/gusb-device-event.c:53-78 | what each member, present or missing, leaves in the event |
| DeviceEvent.UsbDeviceEvent.Save | gusb/gusb-device-event.c:81-112 | adds exactly one complete value, the node of the event, to the builder |
| Endpoint.EndpointRoundTrip | gusb/gusb-endpoint.c:58-142 | a saved endpoint loads back, extra bytes without content becoming absent |
| Endpoint.EndpointComesBack | gusb/gusb-endpoint.c:131-134 | extra bytes come back as they were if there are any, and otherwise as none; every other field as it was |
| Endpoint.EndpointMembers | gusb/gusb-endpoint.c:95-142 | the name and value of each member written; numbers exactly when not 0, extra bytes exactly when there are any |
| Endpoint.UsbEndpoint.Load | gusb/gusb-endpoint.c:58-92 | what each member leaves in the descriptor |
| Endpoint.SaveEndpoint | gusb/gusb-endpoint.c:95-142 | adds exactly one complete value, the node of the endpoint |
| BosDescriptor.BosRoundTrip | gusb/gusb-bos-descriptor.c:58-111 | a saved BOS descriptor loads back, extra bytes without content becoming absent |
| BosDescriptor.BosComesBack | gusb/gusb-bos-descriptor.c:84-111 | capability and extra bytes come back as they were, absent or empty bytes as none |
| BosDescriptor.BosMembers | gusb/gusb-bos-descriptor.c:84-111 | the name and value of each member written |
| BosDescriptor.UsbBosDescriptor.Load | gusb/gusb-bos-descriptor.c:58-82 | what each member leaves in the descriptor |
| BosDescriptor.SaveBos | gusb/gusb-bos-descriptor.c:85-111 | adds exactly one complete value, the node of the descriptor |
| Interface.InterfaceRoundTrip | gusb/gusb-interface.c:65-185 | a saved interface loads back with its endpoints in order, an empty endpoint list becoming absent |
| Interface.InterfaceComesBack | gusb/gusb-interface.c:65-185 | every number, every extra byte and, one by one in order, every endpoint with its own extra bytes come back |
| Interface.InterfaceMembers | gusb/gusb-interface.c:130-166 | the name and value of each number written |
| Interface.InterfaceArrays | gusb/gusb-interface.c:156-180 | the extra bytes written exactly when there are any, and one node for each endpoint, in order |
| Interface.InterfaceLoads | gusb/gusb-interface.c:65-116 | an interface loads exactly when it is an object and so is each element of its endpoint array |
| Interface.UsbInterface.Load | gusb/gusb-interface.c:65-116 | succeeds exactly when every endpoint loads, and replaces the endpoint array by them |
| Interface.SaveInterface | gusb/gusb-interface.c:119-185 | adds exactly one complete value, the node of the interface with its endpoints |
| Device.EventsRoundTrip | gusb/gusb-device.c:334-345 | a saved event log is read back exactly |
| Device.DeviceRoundTrip | gusb/gusb-device.c:241-510 | for every device tree, loading what was saved into a new object gives the tree, up to empty tags and blobs and lists without content |
| Device.DeviceComesBack | gusb/gusb-device.c:241-510 | the same index by index: identity, date, descriptor, HID blobs and events as they were, each capability, interface and endpoint with every extra byte, and of the tags those that are not empty, in order |
| Device.DeviceHeadMembers | gusb/gusb-device.c:384-408 | platform id, date, tags and the two ids are written under their names |
| Device.DeviceDescMembers | gusb/gusb-device.c:409-447 | each number of the descriptor is written under its name exactly when it is not 0 |
| Device.DeviceArrayMembers | gusb/gusb-device.c:449-505 | each array has one node for each element, in order, and is left out when empty |
| Device.CreatedTells | gusb/gusb-device.c:252-264 | a date is taken over, any other text refused, and anything else passed over |
| Device.DeviceLoads | gusb/gusb-device.c:241-364 | a device loads exactly when its date is not a bad one and each nested element loads |
| Device.UsedTagsAt | gusb/gusb-device.c:345-356 | the tags kept are exactly those that are not empty, in order |
| UsbDevice.UsbDevice.Real | gusb/gusb-device.c:671-727 | a device of a libusb_device is closed, has its printed platform id and descriptor, and nothing cached or logged |
| UsbDevice.UsbDevice.OpenInternal | gusb/gusb-device.c:845-875 | opens a closed real device when libusb does, refuses an open one, and does nothing for an emulated one |
| UsbDevice.UsbDevice.Open | gusb/gusb-device.c:891-908 | as above, and does nothing in a context that opens its devices itself |
| UsbDevice.UsbDevice.Close | gusb/gusb-device.c:1545-1566 | closes an open real device, with the same exceptions |
| UsbDevice.MemcpyBytesSafe | gusb/gusb-device.c:2354-2375 | copies the bytes over the head of the buffer, or fails and leaves it alone when they do not fit |
| UsbDevice.UsbDevice.LoadEvent | gusb/gusb-device.c:912-947 | returns the event, and leaves the cursor, that the search names |
| UsbDevice.UsbDevice.SaveEvent | gusb/gusb-device.c:951-963 | appends one new event with the id and nothing else set |
| UsbDevice.UsbDevice.EmulatedTransfer | gusb/gusb-device.c:2443-2497 | the result and the caller's buffer are the replayed outcome of the log at the cursor |
| UsbDevice.UsbDevice.SubmitTransfer | gusb/gusb-device.c:2498-2558 | a closed device logs nothing; otherwise one event is appended before submitting and holds the code of a failed submission |
| UsbDevice.UsbDevice.ControlTransferCb | gusb/gusb-device.c:2323-2350 | copies the reported bytes back only on success, and fills in the transfer's own event and no other |
| UsbDevice.UsbDevice.AsyncTransferCb | gusb/gusb-device.c:2291-2314 | the buffer is what libusb wrote, and the transfer's own event and no other is filled in |
| UsbDevice.UsbDevice.TransferAndWait | gusb/gusb-device.c:2498-2558 | a transfer waited for has the live outcome and adds its one recorded event |
| UsbDevice.UsbDevice.FindHead | gusb/gusb-device.c:1036-1047 | the index of the first interface whose class, subclass and protocol are all the ones asked for, and 0 exactly when there is none or its index is 0 |
| UsbDevice.UsbDevice.GetCustomIndex | gusb/gusb-device.c:980-1068 | emulated, the answer of the log; real, the index of the first interface with class, subclass and protocol, logged unless it is 0, and otherwise an error and no event |
| UsbDevice.UsbDevice.GetStringDescriptor | gusb/gusb-device.c:1831-1894 | emulated, the answer of the log; real, the live outcome, logged when answered |
| UsbDevice.UsbDevice.GetStringDescriptorBytes | gusb/gusb-device.c:1911-1982 | emulated, the answer of the log; real, the live outcome, logged when answered |
| UsbDevice.UsbDevice.GetConfigurationIndex | gusb/gusb-device.c:3213-3254 | emulated, the byte of the log's event or 0; real, the configuration, logged, or 0 without an event when libusb fails |
| UsbDevice.UsbDevice.HasTag | gusb/gusb-device.c:563-576 | true exactly when the tag is among the device's tags |
| UsbDevice.UsbDevice.AddTag | gusb/gusb-device.c:592-602 | appends the tag unless it is there |
| UsbDevice.UsbDevice.GetInterfaces | gusb/gusb-device.c:1142-1181 | a query of the interface cache whose answer is the altsettings in order; a first one leaves altsetting j of interface i behind the altsettings of the interfaces before i and its own first j, and nothing else |
| UsbDevice.FlattenHolds | gusb/gusb-device.c:1165-1171 | every altsetting of every interface stands at the sum of the altsettings before its interface plus its own number, and there are no others |
| UsbDevice.UsbDevice.GetBosDescriptors | gusb/gusb-device.c:1297-1352 | a query of the BOS cache: a first one leaves each capability with its bytes in order, and nothing for a closed device or below USB 2.1 |
| UsbDevice.UsbDevice.GetHidDescriptors | gusb/gusb-device.c:1455-1495 | queries the interface cache, then reads each HID interface up to the first failure, logging the transfers; what was read before a failure stays, without the valid flag |
| UsbDevice.UsbDevice.Invalidate | gusb/gusb-device.c:1230-1239 | interface and BOS caches are forgotten; the HID array is emptied and keeps its flag |
| UsbDevice.UsbDevice.Save | gusb/gusb-device.c:367-510 | asks for missing descriptors, with what that leaves in the three caches and appends to the log, and adds exactly one complete value, the node of the device as it then is |
| UsbDevice.UsbDevice.Load | gusb/gusb-device.c:241-364 | succeeds exactly when date, descriptors and events all load, and leaves the tree they give, every cache valid and the cursor at the beginning; a failure leaves what was read up to it |
| Device.LoadIntoIsDeviceOver | gusb/gusb-device.c:241-364 | reading member after member up to the first failure goes through exactly when everything loads, and then gives the whole tree |
| Registry.FindByAddress | gusb/gusb-context.c:1095-1101 | the first device with the bus and address, if any |
| Registry.FindByPlatformId | gusb/gusb-context.c:1132-1136 | the first device with the platform id, if any |
| SignalLog.LogExplainsList | gusb/gusb-context.c:269-400 | over every run of enumeration, hotplug, polling and loading, folding the signals gives exactly the listed objects in order, none twice |
| SignalLog.LoadContextExplained | gusb/gusb-context.c:434-524 | a load keeps signals and list in agreement, also when it fails part way |
| SignalLog.RescanExplained | gusb/gusb-context.c:687-723 | so does a poll |
| SignalLog.EnumerateExplained | gusb/gusb-context.c:847-871 | the first enumeration announces exactly what it lists |
| SignalLog.PresentMeans | gusb/gusb-context.c:269-308 | an object is present exactly when it was added and not removed |
| SignalLog.LifeOfAnObject | gusb/gusb-context.c:269-308 | an object is added before anything else is said of it, once, and nothing is said of it after its one removal |
| IdAccount.SignalsCountIds | gusb/gusb-context.c:269-400 | over every run the additions less the removals of a platform id are the number of listed devices with it |
| Synchronise.TreesOfAll | gusb/gusb-context.c:476-484 | loading goes through exactly when each element loads |
| Synchronise.LoadSynchronises | gusb/gusb-context.c:434-524 | the whole new state: on success the list without the selected devices that no entry matches, in order, then the new ones, matched devices with the events of their last entry, and the signals in order; on failure no change of membership and no added or removed signal |
| TaggedLoad.WhoStays | gusb/gusb-context.c:464-520 | a listed device without the tag stays; one with it stays after a successful load exactly when some element with the tag has its platform id, as the first device of that id, and its creation time |
| TaggedLoad.HowItStays | gusb/gusb-context.c:488-497 | a device that stays is as it was, but for the events of the last element with the tag that names it; elements without the tag alter nothing |
| TaggedLoad.WhoComes | gusb/gusb-context.c:499-510 | the new devices are the trees of the elements with the tag that name no listed device, and only of those |
| Synchronise.ChangedOrAdded | gusb/gusb-context.c:476-510 | changes and additions together are as many as the selected entries |
| LoadAgain.LoadIsIdempotent | gusb/gusb-context.c:471-520 | loading a dated document again changes no device, event log or membership and emits one change for each selected entry, exactly when every selected entry that the first load added was alone with its platform id among the selected entries and the unselected devices |
| LoadAgain.TwinUnsettles | gusb/gusb-context.c:488-510 | with an unselected device of that id the second load adds the entry again or removes what the first load added |
| LoadAgain.DoubleUnsettles | gusb/gusb-context.c:488-510 | and so it does with another selected entry of that id, matched or new |
| LoadAgain.SavedContextRoundTrip | gusb/gusb-context.c:558-595 | a new context that loads a saved one lists the saved devices in order and announces each |
| LoadAgain.UntaggedRoundTrip | gusb/gusb-context.c:558-595 | saved and loaded without a tag, every device is there again in the order it was saved |
| Lookaside.SavedAt | gusb/gusb-context.c:585-590 | of the listed devices a save takes exactly those whose tags hold the tag, in list order, behind the removed ones |
| Lookaside.RemovedAreSaved | gusb/gusb-context.c:577-583 | a save that includes removed devices begins with each of them in order, whatever its tags |
| Lookaside.DocumentHolds | gusb/gusb-context.c:571-594 | the document is one array with the node of each saved device, in order |
| Lookaside.RemovalIsKept | gusb/gusb-context.c:380-383 | a saving context keeps exactly the first device at the place of the one that left, waited for or not; another keeps none |
| Lookaside.StepKeepsAside | gusb/gusb-context.c:364-400 | nothing but a departure changes the kept devices |
| Lookaside.DepartedAreKept | gusb/gusb-context.c:380-383 | over every run the kept devices are those that hotplug took off the list, each once, in order, and none in a context that does not save |
| Lookaside.KeptAreReported | gusb/gusb-context.c:380-399 | in a run without polls and loads the kept devices are those of the removed signals, in order |
| Lookaside.ArrivalIsListed | gusb/gusb-context.c:311-361 | a usable device that arrives at a free place is appended with its own bus, address and descriptors under a new serial, and any other changes nothing |
| Polling.PollFollowsBus | gusb/gusb-context.c:687-723 | a poll leaves the same objects for what is still on the bus, and what can be opened there, no bus and address twice |
| Polling.PollReports | gusb/gusb-context.c:687-723 | a poll first reports each missing device once, the last listed first |
| Polling.DrainFollowsBus | gusb/gusb-context.c:624-654 | events that tell how the bus changed, in any order, leave the devices now on the bus |
| Polling.PollingAgreesWithHotplug | gusb/gusb-context.c:687-723 | a poll and the hotplug events for the same change end with the same buses and addresses, none twice, and keep the objects that stayed |
| Polling.EnumerateListsUsable | gusb/gusb-context.c:311-341 | the first enumeration lists the places of the usable devices it is given, in order, and so a place twice exactly when two of them share it |
| Polling.NoPlaceTwice | gusb/gusb-context.c:311-361 | over every run, loads included, no bus and address other than 0 and 0 is listed twice, if a first enumeration is not given it twice |
| Plugging.CoherentCounts | gusb/gusb-context.c:348-399 | of events that agree with the bus, those that name a platform id are the ones that bring in or take away its devices |
| Plugging.StepCounts | gusb/gusb-context.c:348-399 | a hotplug event or a poll during a wait moves list and signals of the id waited for apart by what came in less what hotplug took away, both told from the bus before it |
| Plugging.StepWaiter | gusb/gusb-context.c:348-357 | only a device of the id that comes in is given to the waiter and ends the wait |
| Replug.ReplugConserves | gusb/gusb-context.c:1371-1409 | over every wait of hotplug events and polls, the only signals with the platform id are removals by polls and the one on a timeout, other ids stay accounted for, and this one does exactly when hotplug took away as many as came in, and one more for a timeout |
| Replug.HotplugConserves | gusb/gusb-context.c:1371-1409 | with hotplug events that agree with the bus, no signal bears the id but the one on a timeout, and signals and list agree exactly when the departures named are the arrivals named, and one more for a timeout |
| Replug.LeavesAndReturns | gusb/gusb-context.c:348-357 | a device that leaves and returns causes no signal, the new object is what the wait returns, and signals and list agree |
| Replug.LeavesAndTimesOut | gusb/gusb-context.c:1400-1407 | a device that leaves for good causes one removal, and signals and list agree |
| Replug.StaysAndTimesOut | gusb/gusb-context.c:1400-1407 | a timeout without the device leaving reports the removal of a listed device |
| Replug.PolledReplugMiscounts | gusb/gusb-context.c:712-716 | every wait that polls alone bring to its end, by a return or a timeout, leaves fewer devices of the id in the signals than in the list |
| Hotplug.NoEventLost | gusb/gusb-context.c:624-684 | in every interleaving the handled events, the batch and the queue are the accepted events in order, and with the mutex free the queue is empty exactly when no idle source is on its way |
| Hotplug.AllHeardIsAccepted | gusb/gusb-context.c:658-684 | in every interleaving the accepted events are exactly those libusb reported once enumeration was done, in order |
| Hotplug.ThreadsActAsOne | gusb/gusb-context.c:624-684 | every interleaving leaves the registry where some sequential run leads, so the signals explain the list |
| Hotplug.MainAdvances | gusb/gusb-context.c:624-654 | while there is work the main loop's next move is possible and brings the end one nearer |
| Hotplug.MainDrains | gusb/gusb-context.c:624-654 | left alone, the main loop handles every accepted event with the sources already attached |
| Hotplug.CallbackReturns | gusb/gusb-context.c:658-684 | the libusb thread, having the mutex, releases it within four moves |
| Context.UsbContext.AddDevice | gusb/gusb-context.c:311-361 | the whole new state, with the duplicate check, the failure to open, and the quiet return of a replugged device |
| Context.UsbContext.RemoveDevice | gusb/gusb-context.c:364-400 | the whole new state, with the lookaside list and the quiet departure |
| Context.UsbContext.HotplugCb | gusb/gusb-context.c:658-684 | queues the event once enumerated, and adds a source only when none is on its way |
| Context.UsbContext.IdleHotplugCb | gusb/gusb-context.c:624-654 | handles the queue in order and leaves it empty and disarmed |
| Context.UsbContext.Rescan | gusb/gusb-context.c:687-723 | the whole new state of a poll |
| Context.UsbContext.Enumerate | gusb/gusb-context.c:847-871 | the whole new state; nothing the second time |
| Context.UsbContext.FindByVidPid | gusb/gusb-context.c:1159-1180 | after enumerating, the first device with both ids, none exactly when there is none |
| Context.UsbContext.LoadWithTag | gusb/gusb-context.c:434-524 | result and state are those of the load that is proved to synchronise |
| Context.UsbContext.SaveWithTag | gusb/gusb-context.c:558-595 | adds exactly one complete value, the document of the removed devices if they are kept and the tagged ones in order |
| Context.SaveTree | gusb/gusb-device.c:367-510 | the nested saves write a listed device as exactly one complete value |
| Context.UsbContext.EndWait | gusb/gusb-context.c:1393-1408 | unregisters the wait and returns the device, or reports the removal after a timeout |
| UsbIds.IndexAgreesWithTable | gusb/gusb-context.c:1183-1237 | for every file rendered from a table, followed by device classes or not, both lookups give the last name of the id and miss exactly what the table does not name |
| UsbIds.ClassesEndIt | gusb/gusb-context.c:1207-1209 | everything from the line of device classes on is ignored |
| UsbIds.KeysDiffer | gusb/gusb-context.c:1214-1232 | vendor and product keys of different ids never collide |
| UsbIds.DigitTells | gusb/gusb-context.c:1214-1232 | hexadecimal digits of either case count, and no other character |
| UsbIds.StrtoullTells | gusb/gusb-context.c:1214-1232 | white space, a sign and 0x before the digits are passed over, and a minus counts down from 2^16 |
| UsbIds.UsbIdsTable.LoadUsbIds | gusb/gusb-context.c:1183-1237 | reads the file once, into the index of its lines; fails exactly when there is nothing yet and no file |
| UsbIds.UsbIdsTable.LookupVendor | gusb/gusb-context.c:1252-1278 | the name under the vendor's key, if any |
| UsbIds.UsbIdsTable.LookupProduct | gusb/gusb-context.c:1294-1320 | the name under the product's key, if any |
| PlatformId.BuildPlatformId | gusb/gusb-device.c:649-668 | the recursion over the hubs prints the text of the place |
| PlatformId.PrintParses | gusb/gusb-device.c:649-668 | the text parses back to the bus and the ports from the root down |
| PlatformId.ParsePrints | gusb/gusb-device.c:649-668 | every text that parses is the id of the device at that place |
| PlatformId.PrintInjective | gusb/gusb-device.c:649-668 | two ids are equal exactly when bus and place are |
| PlatformId.ChildId | gusb/gusb-device.c:649-655 | a device's id is its hub's, a colon and one port |

## Left out

- Endpoints, interfaces and BOS descriptors are values once they are in an array: nothing writes to one after it was added, so aliasing is not modelled there. Events stay objects, since a transfer in flight writes to its own.
- Devices in a context's list are values with a serial number; the object with its cursor and caches is `UsbDevice.UsbDevice`, which a context writes through `Save` and reads through `Load`. What `g_usb_device_clear_events` does to the cursor when a load replaces a device's events is in `ClearEvents`.
- Context.UsbContext.AddDevice: takes as given whether a device object can be made and opened; libusb decides.
- Context.UsbContext.RemoveDevice: does not enumerate first, since the callers run only once that is done.
- LoadAgain.LoadIsIdempotent: asks that every element give its creation time; an element without one is new at every later load.
- Synchronise.LoadSynchronises: elements without a creation time all get the one time the load is given, not one each.
- InFlight.CompletionOrderIrrelevant: holds while the log is not cleared; events cleared during a transfer are not modelled.
- Replay.ReplayReproducesLive: is about sessions on open devices that start with an empty log, with non-NULL buffers and transfers that are not cancelled before they are submitted (that path logs an event without an outcome). In a session that mixes failed configuration queries with one answered 0, its condition is not necessary (ReplayLookup.BlurredSession); ReplayLookup.ReplayIsLookup is exact there.
- ReplayAgain.SecondRun: leaves open the save that appends the session's first event over again; ReplayAgain.SecondRunIsLookup is exact there.
- UsbDevice.UsbDevice.GetConfigurationIndex: replaying an event with empty data reads past it in C; the model answers 0.
- Transfer.ErrorTable: counts codes unknown to libusb as internal errors, where the C code warns or aborts.
- Nested waits, loads during a wait, and calls into the context from a signal handler.
- Hotplug events that arrive between the first bus snapshot and the setting of its flag are dropped like earlier ones; the snapshot is one move of the main thread.
- JSON text, ISO 8601 dates and the order of members in an object: work is on JSON values, and a date is the time it stands for, so a date standing where some other text belongs is not modelled.
- usb.ids lines of device interfaces (two tabs) are read as the code reads them, but a table does not contain any.
- Context.UsbContext.SaveWithTag: writes listed devices as they stand, by the nested saves; the queries that `UsbDevice.Save` makes first belong to the device object.
- Interface.UsbInterface.Load: does not say what a failure leaves, because the object is discarded.
- Removing a tag, the parent and children of a device, and lookups that only repeat those above.
- libusb calls themselves, GObject properties, reference counts, tasks and main loops, the synchronous wrappers, plain getters and setters, gusb-source.c, gusb-device-list.c, gusb-util.c, gusb-version.c and tools/gusb-main.c.
