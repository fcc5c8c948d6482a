# MikanOS drivers: model and proofs

A Dafny model of the parts of the MikanOS kernel and its boot loader whose correctness depends on
protocols, shared memory or arithmetic, with proofs over every input and every run.

The USB host controller driver is the centre, in layers that are proved together:

- `Ring.dfy` and `EventRing.dfy` model the rings that driver and controller share through memory.
  Both sides take steps of one word each, in any interleaving; the only synchronisation is the
  cycle bit. The controller follows sections 4.9.2 to 4.9.4 of the xHCI specification. The
  refinement to a FIFO holds for every ring size, and the limit that the producer must respect is
  shown to be sharp.
- `ControlPipe.dfy` and `ArrayMap.dfy` model how a completion finds the request that caused it,
  although ring slots and map entries are reused; `TransferRing.dfy` puts that on the word-level
  ring.
- `Descriptors.dfy`, `UsbDevice.dfy`, `Hid.dfy` and `DeviceRuns.dfy` follow one device from its
  first descriptor request to keyboard reports, with the limits that the pipe imposes.
  `DeviceChannel.dfy` puts every such run on the word-level ring, `EndpointLimit.dfy` says exactly
  which configurations the control pipe does not survive, and `Device.dfy` shows that the objects of the three
  layers together compute the steps of these runs.
- `Enumeration.dfy` and `EnumerationRuns.dfy` are the port state machine with its addressing token,
  the outstanding commands and the devices of all slots, under events in any order.
  `PortRun.dfy` shows that a port comes through to a polled device.
  `CommandRing.dfy` puts the state machine on the word-level command ring and so discharges the
  ring's limit from the enumeration's invariant. `Xhci.dfy`, `DeviceManager.dfy` and `Endpoints.dfy`
  (with `Speeds.dfy`) are the objects that implement the state machine, the device manager over
  the device objects, and the endpoint contexts.

`Layouts.dfy` says what all of this is in bytes and words, apart from the functions that build them.

Four self-contained parts follow: the PCI scan (`PciScan.dfy`, `PciWords.dfy`), the memory pool (`Allocator.dfy`
with `Bits.dfy`), the console and its screen (`Console.dfy`, `Screen.dfy`), and the ELF loader
(`ElfLoader.dfy`).

Code that changes objects or arrays in place is a class or a method with loops here too. Each such
method is proved against a function of the old state, and the properties are proved about those
functions and about runs of them. Where the source relies on the environment, the assumption is a
predicate on events: every command completes once and after it was read, Enable Slot brings a fresh
slot in 1 to 8, Address Device copies the slot context (section 4.6.5 of the xHCI specification),
ports are 1 to `maxPorts`, allocations succeed with aligned blocks, and replies are well formed.

Behaviour of the code that its own comments or a reader might not expect is stated as such, each
with its exact condition:

- The comment at `os/my-mikanos/kernel/usb/device.hpp:66-71` says that index 0 of the table of class
  drivers is never used, but nothing enforces it: a configuration may declare endpoint number 0. Its
  context index is 1 when it is IN, so that configuring it replaces the context and the ring of the
  control pipe, and 0 when it is OUT, in front of the tables. The boot-protocol request works if and
  only if no endpoint has number 0 (`BootProtocolWorksExactlyWhen`, and `NumberZeroReplacesTheRing`
  for the runs). With all 16 numbers in use the sixteenth request moreover overwrites the Setup Stage
  TRB of the first (`FirstReplyIsRightExactlyWhen`, and `SixteenEndpointsLoseTheFirstReply` for the
  run).
- An interface with more than 16 endpoints overruns the table of endpoints (`TakeEndpoints`).
- A waiting port that is unplugged ends the hand-off of the token (`HandOffIsLostExactlyWhen`, and
  `HandOffCanBeLost` for the run).
- A keyboard report hides a key whose code equals the previous modifier byte (`ModifierHidesKey`).
- An isochronous interval of 254 or 255 overflows its field at full or low speed, and an interval of 0
  becomes 255 at high speed and above (`IntervalFieldHoldsExactlyWhen`).
- The pool's end check does not see a sum that wraps around
  (`InsideExactlyWhenNoLargerThanThePool`, and `WrapAroundIsNotSeen` for the request).

Verify with `dafny verify dfyconfig.toml`.

## Model
| member | source | states |
|---|---|---|
| `TrbRing.RingRefinesFifo` | os/my-mikanos/kernel/usb/xhci/ring.cpp:36-64 | For every ring size from 3 on, every segment address and every interleaving of single word stores with single word loads that leaves at most size - 2 TRBs unread after each push, what the controller has taken is a prefix of what was handed to Push, in order and never torn. |
| `TrbRing.StepRefinesFifo` | os/my-mikanos/kernel/usb/xhci/ring.cpp:36-64 | Each single word access is one step of a FIFO queue or no step: storing word 3 of a TRB enqueues it, acting on a loaded data TRB dequeues the head, everything else, the whole Link TRB included, changes neither end. |
| `TrbRing.StepKeepsInv` | os/my-mikanos/kernel/usb/xhci/ring.cpp:36-64 | Every word access keeps the memory image: slots below the write index hold this lap, the others the previous one with the opposite cycle bit. |
| `TrbRing.CycleBitIsExact` | os/my-mikanos/kernel/usb/xhci/ring.cpp:43-44 | A polling controller finds its own cycle state if and only if a TRB is unread or a published Link TRB is still to be followed. |
| `TrbRing.ConsumerDelivers` | os/my-mikanos/kernel/usb/xhci/ring.cpp:47-64 | From every state with an unread TRB one round of loads delivers the oldest one, or follows the Link TRB first. |
| `TrbRing.WholePushIsPushImage` | os/my-mikanos/kernel/usb/xhci/ring.cpp:47-64 | The four or eight word stores of one Push add up to the atomic update that the object is proved against. |
| `TrbRing.PushUnderParkedConsumer` | os/my-mikanos/kernel/usb/xhci/ring.cpp:53-61 | With the Link TRB flipped under a controller that stands on it the ring is stuck: a push into a free slot leaves the controller able to go on if and only if it did not wrap while the controller was parked there. |
| `TrbRing.BoundIsSharp` | os/my-mikanos/kernel/usb/xhci/ring.cpp:47-64 | For every ring size the limit cannot be raised: a legal run reaches size - 2 unread TRBs from which one more push makes the controller poll a slot that it never takes. |
| `TrbRing.FetchedTrb` | os/my-mikanos/kernel/usb/xhci/ring.cpp:36-45 | A fully loaded TRB is the Link TRB exactly on the last slot and otherwise the oldest unread TRB, word for word. |
| `TrbRing.Ring.Initialize` | os/my-mikanos/kernel/usb/xhci/ring.cpp:15-34 | Zeroed segment, index 0, cycle 1; a failed allocation is reported and nothing is promised about the ring. |
| `TrbRing.Ring.CopyToLast` | os/my-mikanos/kernel/usb/xhci/ring.cpp:36-45 | The slot at the write index becomes the TRB with the producer cycle in bit 0 of word 3; no other slot changes. |
| `TrbRing.Ring.Push` | os/my-mikanos/kernel/usb/xhci/ring.cpp:47-64 | The object after Push is the atomic update of the object before, and the slot is returned. |
| `Trbs.LinkTrbRoundTrip` | os/my-mikanos/kernel/usb/xhci/trb.hpp:202-242 | The Link TRB built from a 16-byte aligned segment leads back to that segment, has the Link type and asks to toggle. |
| `Layouts.RequestBytes` | os/my-mikanos/kernel/usb/classdriver/hid.cpp:36-49 | The four requests of the driver, byte by byte: two descriptor requests, SET_CONFIGURATION and SET_PROTOCOL for the boot protocol. |
| `Layouts.EndpointBytes` | os/my-mikanos/kernel/usb/device.cpp:52-63 | Any endpoint descriptor gives the number, direction, type, packet size and interval that its bytes encode, whatever its reserved bits. |
| `Layouts.InterfaceBytes` | os/my-mikanos/kernel/usb/device.cpp:65-98 | A class driver is made for class 3, subclass 1 and protocol 1 or 2, and for nothing else. |
| `Layouts.OwnEndpointsStop` | os/my-mikanos/kernel/usb/device.cpp:293-311 | The endpoints of an interface are those of the endpoint descriptors before the next interface, in their order. |
| `Layouts.ReplyIsAcceptedExactlyWhen` | os/my-mikanos/kernel/usb/device.cpp:199-246 | The replies that each phase accepts; any other is refused with its error code and changes nothing. |
| `Layouts.LinkWords` | os/my-mikanos/kernel/usb/xhci/trb.hpp:202-242 | The four words of the Link TRB. |
| `Layouts.CommandWords` | os/my-mikanos/kernel/usb/xhci/trb.hpp:276-385 | The four words of each command TRB. |
| `Layouts.EventWords` | os/my-mikanos/kernel/usb/xhci/xhci.cpp:589-608 | Events are told apart by bits 10 to 15 of word 3. |
| `Layouts.CompletionWords` | os/my-mikanos/kernel/usb/xhci/device.cpp:301-365 | What a transfer event comes to, from the words on the ring: error codes, lengths, setup data, and when the map entry goes. |
| `EventRings.EventRingRefinesFifo` | os/my-mikanos/kernel/usb/xhci/ring.cpp:111-133 | With a controller that stops when full and toggles at the segment end, in every interleaving the driver has handled exactly a prefix of the posted events, each once and in order. |
| `EventRings.HasFrontIsExact` | os/my-mikanos/kernel/usb/xhci/ring.hpp:102-110 | HasFront is true exactly when a posted event has not been handled, and the front is then the oldest such event. |
| `EventRings.FrontIsStable` | os/my-mikanos/kernel/usb/xhci/xhci.cpp:589-608 | The TRB that a handler reads in place is not overwritten before Pop, whatever the controller does. |
| `EventRings.ProcessEventTakesOldest` | os/my-mikanos/kernel/usb/xhci/xhci.cpp:587-611 | One turn handles the oldest waiting event and no other, or does nothing when there is none. |
| `EventRings.StepKeepsInv` | os/my-mikanos/kernel/usb/xhci/ring.cpp:111-133 | Every word store of the controller and every step of the driver keeps the invariant that relates the laps of both sides. |
| `EventRings.EventRing.HasFront` | os/my-mikanos/kernel/usb/xhci/ring.hpp:102-105 | Compares the cycle bit of the front with the driver's own. |
| `EventRings.EventRing.Pop` | os/my-mikanos/kernel/usb/xhci/ring.cpp:118-133 | Moves to the next slot, or to the first one with the cycle state flipped. |
| `EventRings.EventRing.WriteDequeuePointer` | os/my-mikanos/kernel/usb/xhci/ring.cpp:111-116 | The pointer reads back and the low bits of the register are kept. |
| `EventRings.EventRing.ProcessEvent` | os/my-mikanos/kernel/usb/xhci/xhci.cpp:587-611 | Hands out the oldest unhandled event of the protocol state, classified by its type, and moves past it; nothing without one. |
| `ArrayMaps.PutMeans` | os/my-mikanos/kernel/usb/arraymap.hpp:30-41 | A new key is added and every other key keeps its value; a full table silently ignores the pair. |
| `ArrayMaps.DeleteMeans` | os/my-mikanos/kernel/usb/arraymap.hpp:43-53 | Exactly the named key goes. |
| `ArrayMaps.FullIsAllUsed` | os/my-mikanos/kernel/usb/arraymap.hpp:32-40 | No free entry is found exactly when all entries are in use. |
| `ArrayMaps.ArrayMap.Lookup` | os/my-mikanos/kernel/usb/arraymap.hpp:18-28 | The loop returns the value of the first entry with the key. |
| `ArrayMaps.ArrayMap.Insert` | os/my-mikanos/kernel/usb/arraymap.hpp:30-41 | The loop fills the first free entry. |
| `ArrayMaps.ArrayMap.Remove` | os/my-mikanos/kernel/usb/arraymap.hpp:43-53 | The loop frees the first entry with the key. |
| `ControlPipes.CompletionFindsItsRequest` | os/my-mikanos/kernel/usb/xhci/device.cpp:301-365 | The successful or short completion of the oldest request finds its own map entry, although ring slots are reused, and hands over exactly the setup data and buffer of that request. |
| `ControlPipes.RunMatchesRequests` | os/my-mikanos/kernel/usb/xhci/device.cpp:132-258 | Over any run that leaves at most 30 TRBs unread the outcomes that the driver sees are those of a first-in first-out server of its requests. |
| `ControlPipes.IssueKeepsInv` | os/my-mikanos/kernel/usb/xhci/device.cpp:163-189 | A request with room on the ring overwrites no live TRB and no live entry. |
| `ControlPipes.MapNeverFills` | os/my-mikanos/kernel/usb/xhci/device.cpp:175-188 | The room on the ring bounds the outstanding requests by 15, so the setup map with its 16 entries, which silently ignores what it has no room for, never fills. |
| `ControlPipes.SetupSurvivesExactlyWhen` | os/my-mikanos/kernel/usb/xhci/device.cpp:163-189 | For every request, within the limits or not: the Setup Stage TRB that the oldest completion will read is intact afterwards if and only if the request ends at most 31 data slots behind its start. |
| `ControlPipes.OverrunLosesTheOldest` | os/my-mikanos/kernel/usb/xhci/device.cpp:242-253 | A request without a buffer that does not fit makes the completion of the oldest request report setup data of zeros. |
| `ControlPipes.LayoutRoundTrip` | os/my-mikanos/kernel/usb/xhci/trb.hpp:37-200 | Setup fields, buffer address and length survive the bit layout and the cycle bit; the type of each stage is the one tested for. |
| `ControlPipes.IssueIsRequestOnRing` | os/my-mikanos/kernel/usb/xhci/device.cpp:132-258 | On the words of the ring: setup packet, transfer type, buffer, length, directions and cycle bits of the two or three TRBs, bit 5 of word 3 set in the second alone, every other slot as before, and the map from the second to the first. |
| `ControlPipes.StageWords` | os/my-mikanos/kernel/usb/xhci/trb.hpp:80-200 | The bit fields of the Setup, Data and Status Stage TRBs. |
| `ControlPipes.NormalTrbWords` | os/my-mikanos/kernel/usb/xhci/device.cpp:277-281 | The Normal TRB names the buffer and its length and asks for an event on completion and on a short packet. |
| `ControlPipes.PushIsOnePushed` | os/my-mikanos/kernel/usb/xhci/ring.cpp:47-64 | A push stores one TRB at the write index with the producer cycle; every other data slot stays. |
| `ControlPipes.TransferEngine.Control` | os/my-mikanos/kernel/usb/xhci/device.cpp:132-258 | Endpoint number and ring are checked in the order of the source; otherwise the ring and the map are those of one issued request, word by word: exactly one of its TRBs asks for an event, the one that the map leads from to the Setup Stage TRB. |
| `ControlPipes.TransferEngine.InterruptIn` | os/my-mikanos/kernel/usb/xhci/device.cpp:260-285 | One Normal TRB is pushed and the map is untouched. |
| `ControlPipes.TransferEngine.OnTransferEventReceived` | os/my-mikanos/kernel/usb/xhci/device.cpp:301-365 | The outcome and the map after an event are those of the specification, for every completion code, TRB type and map content. |
| `TransferRings.ChannelIsSafe` | os/my-mikanos/kernel/usb/xhci/device.cpp:132-258 | Control requests on the word-level transfer ring, for any user that never leaves more than 30 TRBs unread: in every run the driver sees exactly the replies to its requests in order, and the controller has read a whole prefix of their TRBs. `DeviceChannels.DeviceNeverOverrunsItsRing` shows that every device is such a user. |
| `TransferRings.PushIsAllowed` | os/my-mikanos/kernel/usb/xhci/device.cpp:163-189 | Every single push of a request meets the precondition of the ring, which the source never checks. |
| `TransferRings.CompletionIsExact` | os/my-mikanos/kernel/usb/xhci/device.cpp:313-365 | A completion that reads the TRBs back from the shared memory of the ring is the reply to its own request. |
| `TransferRings.StepKeepsSettled` | os/my-mikanos/kernel/usb/xhci/ring.cpp:36-64 | No word store of a push in progress and no load of the controller changes where that push leads. |
| `TransferRings.RunIsServed` | os/my-mikanos/kernel/usb/xhci/device.cpp:301-365 | From any state of the channel the outcomes are those of a first-in first-out server started with the outstanding requests. |
| `DeviceChannels.DeviceNeverOverrunsItsRing` | os/my-mikanos/kernel/usb/xhci/device.cpp:132-258 | Every run of a device from Address Device on, in every interleaving of its handlers' word stores with the controller's loads and with the burst of up to 15 requests included, is a legal run of the word-level transfer ring: at most 30 TRBs are unread, they are read whole and in order, and the driver sees exactly the replies to its own requests. |
| `DeviceChannels.ActKeepsInv` | os/my-mikanos/kernel/usb/device.cpp:174-246 | Every handler, request, push and word access of a device is a legal move of the channel or none, and keeps device and channel in step. |
| `DeviceChannels.NextRequestFits` | os/my-mikanos/kernel/usb/xhci/device.cpp:163-189 | The next request that a handler still has to make is always within the limit of the ring. |
| `DeviceChannels.HandlerIssues` | os/my-mikanos/kernel/usb/device.cpp:174-246 | What a handler does to the pipe is to issue its requests one by one, at most 15 of them. |
| `Descriptors.ReaderRoundTrip` | os/my-mikanos/kernel/usb/device.cpp:23-31 | Reading back any serialised list of descriptors yields every one after the first, in order, then null, in fewer steps than bytes. |
| `Descriptors.ConfigurationDescriptorReader.Next` | os/my-mikanos/kernel/usb/device.cpp:23-31 | Advances by the length byte and returns null at or behind the end. |
| `Descriptors.ConfigurationDescriptorReader.NextOf` | os/my-mikanos/kernel/usb/device.cpp:33-44 | On a serialised list, stops at the first following descriptor of the wanted type. |
| `UsbDevices.Phase2Selects` | os/my-mikanos/kernel/usb/device.cpp:272-329 | Phase 2 picks the first boot keyboard or mouse interface, records exactly its endpoints in order, and sets the class driver at exactly their numbers. |
| `UsbDevices.AssignDriversMeans` | os/my-mikanos/kernel/usb/device.cpp:303-305 | Exactly the listed endpoint numbers get the driver; all others keep theirs. |
| `UsbDevices.CallsBound` | os/my-mikanos/kernel/usb/device.cpp:184-197 | With endpoint numbers from 1 on there are at most 15 calls, all to the one driver. |
| `UsbDevices.WaiterStays` | os/my-mikanos/kernel/usb/device.cpp:152-162 | With room, or with an entry for it already, a put setup leads to its driver. |
| `UsbDevices.UsbDevice.StartInitialize` | os/my-mikanos/kernel/usb/device.cpp:174-182 | Phase 1 and a request for the device descriptor. |
| `UsbDevices.UsbDevice.TakeEndpoints` | os/my-mikanos/kernel/usb/device.cpp:293-311 | The loop reads the endpoints that the interface declares and no more. Its stores go past the table of 16 if and only if the interface declares more than 16; up to there the table and the drivers are right. |
| `UsbDevices.UsbDevice.InitializePhase2` | os/my-mikanos/kernel/usb/device.cpp:272-329 | The two nested loops over the reader compute the specified selection and request, and overrun the endpoint table if and only if the selected interface declares more than 16 endpoints. |
| `UsbDevices.Phase2Is` | os/my-mikanos/kernel/usb/device.cpp:272-329 | Phase 2 by the first interface that has a driver: nothing without one, and otherwise its own endpoints, which fit the table if and only if there are at most 16. |
| `UsbDevices.UsbDevice.InitializePhase3` | os/my-mikanos/kernel/usb/device.cpp:331-340 | Every recorded endpoint is handed to its class driver, in order, and the device is initialized. |
| `UsbDevices.UsbDevice.OnControlCompleted` | os/my-mikanos/kernel/usb/device.cpp:199-246 | For every phase and request, and every well-formed descriptor reply, the new state, the next request, the waiter and the error code are those of the specification. |
| `UsbDevices.UsbDevice.OnEndpointsConfigured` | os/my-mikanos/kernel/usb/device.cpp:184-197 | One call per endpoint number with a driver, in order of the numbers. |
| `UsbDevices.UsbDevice.FindInterface` | os/my-mikanos/kernel/usb/device.cpp:281-314 | The outer loop stops at the first interface that has a driver, or at the end of the block. |
| `UsbDevices.UsbDevice.InitializePhase1` | os/my-mikanos/kernel/usb/device.cpp:258-270 | Phase 2 and a request for the configuration descriptor. |
| `UsbDevices.UsbDevice.Register` | os/my-mikanos/kernel/usb/device.cpp:140-162 | A request with an issuer is entered in the waiter map; one without leaves it alone. |
| `HidDrivers.HidDriver.OnEndpointsConfigured` | os/my-mikanos/kernel/usb/classdriver/hid.cpp:36-49 | Phase 1 and the request that selects the boot protocol of the driver's interface. |
| `HidDrivers.ReportRunNotifiesNewKeys` | os/my-mikanos/kernel/usb/classdriver/hid.cpp:69-79 | After any run of full keyboard reports the previous buffer is the last report zero padded, and each report notified exactly the keys that are absent from the whole report before. |
| `HidDrivers.KeyNotifiedExactlyWhenNew` | os/my-mikanos/kernel/usb/classdriver/keyboard.cpp:14-31 | A key is notified if and only if it is nonzero, in a key position, and nowhere in the previous report; so a held key is not notified again. |
| `HidDrivers.ModifierHidesKey` | os/my-mikanos/kernel/usb/classdriver/keyboard.cpp:23-27 | The search covers the modifier byte as well: a new key is not notified when its code equals the previous modifier byte. |
| `HidDrivers.HidDriver.SetEndpoint` | os/my-mikanos/kernel/usb/classdriver/hid.cpp:23-34 | Only interrupt endpoints are remembered, by direction. |
| `HidDrivers.HidDriver.OnControlCompleted` | os/my-mikanos/kernel/usb/classdriver/hid.cpp:51-67 | The first completion starts polling; any other is refused. |
| `HidDrivers.HidDriver.OnDataReceived` | os/my-mikanos/kernel/usb/classdriver/keyboard.cpp:14-31 | The loop notifies exactly the specified keys in order. |
| `HidDrivers.HidDriver.OnInterruptCompleted` | os/my-mikanos/kernel/usb/classdriver/hid.cpp:69-79 | Notifies, copies the received bytes into the previous buffer, and asks for the next report; an OUT endpoint is refused. |
| `DeviceRuns.ControlEventKeepsInv` | os/my-mikanos/kernel/usb/device.cpp:199-340 | Whatever the phase, a good completion finds its own request, the request that follows fits the pipe, and the phase never falls. |
| `DeviceRuns.ConfigurationAnswered` | os/my-mikanos/kernel/usb/device.cpp:272-329 | After the configuration reply the device is in phase 3 with one request outstanding, or stays in phase 2 with none when no interface is supported. |
| `DeviceRuns.SetConfigurationAnswered` | os/my-mikanos/kernel/usb/device.cpp:331-340 | The reply to SET_CONFIGURATION leaves the device initialized with nothing outstanding. |
| `DeviceRuns.InitializationSucceeds` | os/my-mikanos/kernel/usb/device.cpp:199-245 | While a device is being initialized no good completion is refused with an error code. |
| `DeviceRuns.ReplyIsRefusedExactlyWhen` | os/my-mikanos/kernel/usb/classdriver/hid.cpp:51-67 | Which good replies an initialized device refuses, and with which error code. |
| `DeviceRuns.TellAllKeepsInv` | os/my-mikanos/kernel/usb/classdriver/hid.cpp:36-49 | Configured endpoints lead to one boot-protocol request per call, at most 15, each within the limits of the pipe. |
| `EndpointLimits.ConfiguringFitsExactlyWhen` | os/my-mikanos/kernel/usb/device.cpp:184-197 | Configuring the endpoints of an idle device respects the limit of its control pipe if and only if at most 15 of the 16 endpoint numbers have a class driver. |
| `EndpointLimits.FirstReplyIsRightExactlyWhen` | os/my-mikanos/kernel/usb/xhci/device.cpp:301-365 | Once its endpoints have been configured and its drivers told, the first completion of an idle device is the reply to the first boot-protocol request if and only if at most 15 endpoint numbers have a driver; with 16 its Setup Stage TRB has been overwritten. |
| `EndpointLimits.SparedExactlyWhen` | os/my-mikanos/kernel/usb/xhci/xhci.cpp:546-576 | Configuring the endpoints leaves the control pipe and the memory around the tables alone if and only if no endpoint has number 0: number 0, IN, has context index 1, the control pipe's own, and number 0, OUT, has index 0, which stores in front of both tables. |
| `EndpointLimits.BootProtocolWorksExactlyWhen` | os/my-mikanos/kernel/usb/device.cpp:184-197 | The boot-protocol request goes to the ring that the controller was given with the address, and its completion is its reply, if and only if no endpoint has number 0. |
| `EndpointLimits.NumberZeroReplacesTheRing` | os/my-mikanos/kernel/usb/xhci/xhci.cpp:546-576 | A run from power-up for every number of endpoints from 1 on: an interface whose endpoint addresses start with 0x80 makes the driver issue the boot-protocol request on a ring that replaced the one of Address Device. |
| `EndpointLimits.RunsSpareTheControlPipe` | os/my-mikanos/kernel/usb/xhci/xhci.cpp:546-576 | In every run of a device whose endpoints are numbered from 1 the control pipe is left alone and the first reply is right. |
| `EndpointLimits.IdleReprogrammed` | os/my-mikanos/kernel/usb/xhci/device.cpp:120-130 | A device whose endpoints are configured while nothing is outstanding is idle again, on whichever ring. |
| `EndpointLimits.AnyConfigurationLeadsToIdle` | os/my-mikanos/kernel/usb/device.cpp:272-340 | Whatever endpoint numbers the selected interface declares, 0 included, the device becomes initialized and idle, with a driver at exactly those numbers. |
| `EndpointLimits.SixteenEndpointsLoseTheFirstReply` | os/my-mikanos/kernel/usb/device.cpp:293-311 | A concrete run from power-up to that failure, through the step that configures the endpoints: an interface that declares all 16 numbers, IN. |
| `DeviceRuns.InterruptKeepsInv` | os/my-mikanos/kernel/usb/classdriver/hid.cpp:69-79 | The report buffer is read only while no transfer is in flight, and exactly one is in flight afterwards. |
| `DeviceRuns.Bounds` | os/my-mikanos/kernel/usb/xhci/device.cpp:163-189 | At most one interrupt transfer, 15 control requests and 30 control TRBs are ever outstanding. |
| `Enumeration.StepKeepsInv` | os/my-mikanos/kernel/usb/xhci/xhci.cpp:227-338 | Every event keeps the whole invariant (token, slots, owners, outstanding commands, issued commands, devices), only raises phases, counts each phase write as the rise of a port of its own, and never lets a port start waiting for a free token. |
| `Enumeration.LowestWaiting` | os/my-mikanos/kernel/usb/xhci/xhci.cpp:304-316 | The scan finds the lowest waiting port, or the end when none waits. |
| `Enumeration.AddressHandlerIs` | os/my-mikanos/kernel/usb/xhci/xhci.cpp:284-319 | The completed Address Device starts the device, frees the token and passes it at once to the lowest waiting port that is connected. |
| `Enumeration.OutstandingMeans` | os/my-mikanos/kernel/usb/xhci/xhci.cpp:266-338 | An outstanding command determines the phase of its port, its slot and, for Address Device, the token. |
| `Enumeration.SlotMoveCommands` | os/my-mikanos/kernel/usb/xhci/xhci.cpp:186-190 | When a port moves on, the outstanding commands are again exactly those that the phases call for, each once. |
| `EnumerationRuns.TokenIsExact` | os/my-mikanos/kernel/usb/xhci/xhci.cpp:44-47 | In every reachable state at most one port is between reset and address, the token names it, and the token is 0 exactly when there is none. |
| `EnumerationRuns.HandOffIsLostExactlyWhen` | os/my-mikanos/kernel/usb/xhci/xhci.cpp:303-316 | An event loses the hand-off if and only if it is an Address Device completion whose lowest waiting port is no longer connected. |
| `EnumerationRuns.HandOffCanBeLost` | os/my-mikanos/kernel/usb/xhci/xhci.cpp:303-316 | Such an event occurs: a run from power-up with two ports, the second unplugged while it waits, after which the token is free and a port still waits. |
| `EnumerationRuns.NoLostHandOff` | os/my-mikanos/kernel/usb/xhci/xhci.cpp:303-318 | In every run whose waiting ports stay connected, a free token means that no port waits. |
| `EnumerationRuns.HandsOver` | os/my-mikanos/kernel/usb/xhci/xhci.cpp:303-318 | Which port holds the token after the hand-over, and that no third port changes its phase. |
| `EnumerationRuns.RunsAreFinite` | os/my-mikanos/kernel/usb/xhci/xhci.cpp:24-34 | A run writes port phases at most seven times per port. |
| `EnumerationRuns.RunNeverFallsBack` | os/my-mikanos/kernel/usb/xhci/xhci.cpp:24-34 | No run lowers the phase of any port. |
| `EnumerationRuns.EachCommandOnce` | os/my-mikanos/kernel/usb/xhci/xhci.cpp:148-189 | Every port issues each kind of command at most once, and has issued it exactly when it has come that far. |
| `EnumerationRuns.CommandBound` | os/my-mikanos/kernel/usb/xhci/xhci.cpp:142-190 | There is exactly one outstanding command per port that waits for one: at most one for the token and one per port in kConfiguringEndpoints, and never more than nine. |
| `EnumerationRuns.TotalBound` | os/my-mikanos/kernel/usb/xhci/xhci.cpp:142-190 | A run issues at most 25 commands in all, since slots are fresh. |
| `EnumerationRuns.EveryPortHasItsDevice` | os/my-mikanos/kernel/usb/xhci/devmgr.cpp:84-111 | Every port past kEnablingSlot owns one slot of its own whose context pointer names that slot's device context; a device being initialized has one request outstanding in phases 1 to 3, or none in phase 2, or is in phase 4 and initialized. |
| `EnumerationRuns.StepReaches` | os/my-mikanos/kernel/usb/xhci/xhci.cpp:227-338 | Reachable states are closed under legal events. |
| `PortRuns.PortComesUp` | os/my-mikanos/kernel/usb/xhci/xhci.cpp:227-338 | From any reachable state with a free token and an empty slot, nine legal events lead a port with a keyboard or mouse to a configured device that owns the slot, has exactly the endpoints of its interface, and is polled. |
| `PortRuns.DeviceComesUp` | os/my-mikanos/kernel/usb/device.cpp:174-340 | Every device that describes a supported interface with an endpoint is asked for its descriptors, configured and told, and is polled after the first reply. |
| `PortRuns.DeviceReplies` | os/my-mikanos/kernel/usb/xhci/xhci.cpp:244-264 | A good reply changes the device as its run says, and an initialized device of a port with a known speed is configured at once. |
| `Enumeration.PortChangeIsAcceptedExactlyWhen` | os/my-mikanos/kernel/usb/xhci/xhci.cpp:227-242 | Which status changes are accepted, which move the port, and which issue a command. |
| `Enumeration.CompletionIsAcceptedExactlyWhen` | os/my-mikanos/kernel/usb/xhci/xhci.cpp:266-338 | Which completed commands are accepted; a refused one leaves the driver as it is. |
| `Enumeration.AddressingMeans` | os/my-mikanos/kernel/usb/xhci/xhci.cpp:155-193 | What addressing changes: the port, an empty control ring at the given address, the context entry; a device that is there already keeps the rest. |
| `CommandRings.CommandRingIsSafe` | os/my-mikanos/kernel/usb/xhci/xhci.cpp:142-190 | Driver, command ring and controller interleaved word by word from power-up: the enumeration part is a legal run, the controller has read a whole prefix of the commands in order, and at most nine are unread. |
| `CommandRings.NeverOverruns` | os/my-mikanos/kernel/usb/xhci/xhci.cpp:457 | The unread commands never exceed the outstanding ones, so the 32-entry ring that is never tested for full always has room. |
| `CommandRings.DispatchIsRight` | os/my-mikanos/kernel/usb/xhci/xhci.cpp:266-338 | The type that the completion handler reads back from ring memory is the type of the command that completed, so exactly that command is handled. |
| `CommandRings.BusStepKeepsInv` | os/my-mikanos/kernel/usb/xhci/xhci.cpp:266-338 | Every word access, every handler and every completion keeps the joint invariant, and every push is allowed. |
| `CommandRings.BusRefinesEnumeration` | os/my-mikanos/kernel/usb/xhci/xhci.cpp:227-338 | What the enumeration sees of a step of the whole is one legal event or nothing. |
| `CommandRings.HandledKeepsInv` | os/my-mikanos/kernel/usb/xhci/xhci.cpp:148-150 | A command that a handler issues may be pushed and joins the pending ones. |
| `CommandRings.CommandTrbRoundTrip` | os/my-mikanos/kernel/usb/xhci/trb.hpp:276-385 | Type, slot and input context pointer survive the bit layout. |
| `DeviceManagers.DeviceManager.Initialize` | os/my-mikanos/kernel/usb/xhci/devmgr.cpp:7-31 | Both arrays have one entry per slot and one more, all empty. |
| `DeviceManagers.DeviceManager.FindByPort` | os/my-mikanos/kernel/usb/xhci/devmgr.cpp:38-50 | The lowest slot whose device context names the port, or nothing if there is none. |
| `DeviceManagers.DeviceManager.FindBySlot` | os/my-mikanos/kernel/usb/xhci/devmgr.cpp:66-73 | Nothing behind the last slot. |
| `DeviceManagers.DeviceManager.AllocDevice` | os/my-mikanos/kernel/usb/xhci/devmgr.cpp:84-99 | An invalid slot and an occupied one are refused and nothing changes. |
| `DeviceManagers.DeviceManager.LoadDCBAA` | os/my-mikanos/kernel/usb/xhci/devmgr.cpp:101-111 | The entry of the slot names the slot's own context; no other entry changes. |
| `DeviceManagers.DeviceManager.StartDevice` | os/my-mikanos/kernel/usb/xhci/xhci.cpp:195-209 | Only the device of the slot changes, and as its run says, among devices that share no object. |
| `DeviceManagers.DeviceManager.ConfigureDevice` | os/my-mikanos/kernel/usb/xhci/xhci.cpp:211-225 | Likewise for the device whose endpoints are configured. |
| `DeviceManagers.DeviceManager.ConfigureRings` | os/my-mikanos/kernel/usb/xhci/xhci.cpp:511-585 | Likewise for configuring its endpoints, the control pipe included when an endpoint has its index; the contexts are filled in. |
| `DeviceManagers.DeviceManager.CompleteControl` | os/my-mikanos/kernel/usb/xhci/xhci.cpp:244-255 | Likewise for a control transfer event, error code included; what the device gains is new. |
| `DeviceManagers.DeviceManager.CompleteInterrupt` | os/my-mikanos/kernel/usb/xhci/xhci.cpp:244-255 | Likewise for the transfer event of a report. |
| `Devices.Device.AllocControlRing` | os/my-mikanos/kernel/usb/xhci/device.cpp:120-130 | A new device with its control ring is the device that the runs start from. |
| `Devices.Device.ReplaceControlRing` | os/my-mikanos/kernel/usb/xhci/xhci.cpp:162-182 | The input context asks for exactly the slot and the control pipe, whose context has the packet size of the speed and names the new ring; the pipe starts anew and all else stays. |
| `Devices.Device.ConfigureEndpoints` | os/my-mikanos/kernel/usb/xhci/xhci.cpp:511-585 | The input context asks for exactly the endpoints of the selected interface; each gets its own context, which names a new empty ring in the transfer engine. The control pipe's ring is replaced if and only if an endpoint has its context index; no other ring in use is disturbed, and an unknown speed changes nothing but the flags. |
| `Devices.Device.ProgrammedCanPoll` | os/my-mikanos/kernel/usb/classdriver/hid.cpp:62-63 | Once the endpoints are configured, the class driver's interrupt-in transfer finds its ring: the one of the last interrupt-in endpoint of its interface. |
| `Devices.Device.Control` | os/my-mikanos/kernel/usb/xhci/device.cpp:132-258 | One request of the device is one issued request of its run. |
| `Devices.Device.StartInitialize` | os/my-mikanos/kernel/usb/device.cpp:174-182 | USB device and transfer engine together take the step `Start` of the runs. |
| `Devices.Device.OnEndpointsConfigured` | os/my-mikanos/kernel/usb/device.cpp:184-197 | The loop over the drivers, each of which enters the waiter map and issues its request through the engine, is `OnConfigured` of the runs. |
| `Devices.Device.React` | os/my-mikanos/kernel/usb/device.cpp:199-246 | The reply is handled by the USB device or by the class driver that waits for it, and the next request goes through the engine: together the step of the runs. |
| `Devices.Device.OnControlEvent` | os/my-mikanos/kernel/usb/xhci/device.cpp:301-365 | Transfer engine, USB device and class driver as separate objects, from the TRB in ring memory to the next request, compute `OnControlEvent` of the runs and its error code. A transfer counts as in flight if and only if one more Normal TRB lies on the ring of the class driver's endpoint, for its own buffer; no other ring changes. |
| `Devices.Device.OnInterruptEvent` | os/my-mikanos/kernel/usb/classdriver/hid.cpp:69-79 | The new keys are notified, exactly the received bytes, length less residual, are copied into the previous buffer, and one more Normal TRB for the buffer lies on the endpoint's ring and nothing on any other. |
| `Devices.Device.ReportRunOn` | os/my-mikanos/kernel/usb/classdriver/keyboard.cpp:14-31 | Over any run of full reports the device object notifies, for each report, exactly the keys that were absent from the report before. |
| `Devices.Device.NextReport` | os/my-mikanos/kernel/usb/classdriver/hid.cpp:69-79 | One report from the controller's buffer to the keys and to the next transfer on the ring. |
| `HidDrivers.PollEndpointMeans` | os/my-mikanos/kernel/usb/classdriver/hid.cpp:23-34 | The endpoint that is polled is the last interrupt-in endpoint that the driver was handed. |
| `Xhci.Controller.ResetPort` | os/my-mikanos/kernel/usb/xhci/xhci.cpp:100-130 | The object moves as the state machine says, error code included, and issues nothing. |
| `Xhci.Controller.EnableSlot` | os/my-mikanos/kernel/usb/xhci/xhci.cpp:132-153 | Likewise; the Enable Slot command is pushed exactly when the reset has completed. |
| `Xhci.Controller.AddressDevice` | os/my-mikanos/kernel/usb/xhci/xhci.cpp:155-193 | Likewise; the device's input context is filled in for the control pipe, and the Address Device command for the slot is pushed. |
| `Xhci.Controller.InitializeDevice` | os/my-mikanos/kernel/usb/xhci/xhci.cpp:195-209 | The device object starts its first phase and the port moves; an empty slot is refused. |
| `Xhci.Controller.CompleteConfiguration` | os/my-mikanos/kernel/usb/xhci/xhci.cpp:211-225 | The class drivers are told and the port is configured; an empty slot is refused. |
| `Xhci.Controller.OnPortStatusChange` | os/my-mikanos/kernel/usb/xhci/xhci.cpp:227-242 | Likewise, by the phase of the port. |
| `Xhci.Controller.HandOver` | os/my-mikanos/kernel/usb/xhci/xhci.cpp:303-316 | The loop over all ports offers the token to the lowest waiting one and stops. |
| `Xhci.Controller.OnCommandCompletion` | os/my-mikanos/kernel/usb/xhci/xhci.cpp:266-338 | For whatever type the named ring slot holds, the object, the ring and the error code are those of the specification. |
| `Xhci.Controller.OnControlEvent` | os/my-mikanos/kernel/usb/xhci/xhci.cpp:244-264 | For every code and well-formed answer the device objects, the port and the ring are those of the state machine; an error stops the handler before endpoints are configured. |
| `Xhci.Controller.OnInterruptEvent` | os/my-mikanos/kernel/usb/xhci/xhci.cpp:244-264 | The transfer event of a report moves the objects and the command ring as the state machine says. |
| `Xhci.Controller.ConfigureEndpoints` | os/my-mikanos/kernel/usb/xhci/xhci.cpp:511-585 | An unknown speed changes no phase and pushes nothing; otherwise the contexts and rings of the device's endpoints are set up in its own objects, over the control pipe's where an endpoint has its index, and one Configure Endpoint command is pushed. |
| `Xhci.Controller.ConfigurePort` | os/my-mikanos/kernel/usb/xhci/xhci.cpp:502-509 | Only a port that is not connected yet is reset. |
| `Endpoints.DeviceContexts.ConfigureEndpoints` | os/my-mikanos/kernel/usb/xhci/xhci.cpp:511-585 | Each endpoint's context carries its own type, packet size and interval and names its own fresh ring; no other context and no other ring changes; an unknown speed changes neither. |
| `Endpoints.AddFlagsAreExact` | os/my-mikanos/kernel/usb/xhci/context.hpp:135-150 | The add flags are exactly bit 0 and one bit per context index. |
| `Endpoints.IntervalIsThePeriod` | os/my-mikanos/kernel/usb/xhci/xhci.cpp:531-544 | For an interval from 1 on, the converted interval is the longest power-of-two period not longer than the one the descriptor asks for, exact where that is a power of two. |
| `Endpoints.IntervalFieldHoldsExactlyWhen` | os/my-mikanos/kernel/usb/xhci/xhci.cpp:531-544 | For every interval byte, 0 included, the eight-bit field holds the converted interval if and only if it is neither an isochronous interval of 254 or 255 below high speed nor the interval 0 from high speed on. |
| `Endpoints.IntervalZeroBecomes255` | os/my-mikanos/kernel/usb/xhci/xhci.cpp:541-542 | A bulk endpoint at high speed with the interval 0 gets -1, stored as 255. |
| `Endpoints.ContextStartsTheRing` | os/my-mikanos/kernel/usb/xhci/context.hpp:76-84 | The programmed dequeue pointer and cycle state are where a fresh ring's driver starts, so the ring's protocol begins in its initial state. |
| `Endpoints.ContextDescribes` | os/my-mikanos/kernel/usb/xhci/xhci.cpp:546-576 | The context of an endpoint field by field: type number, packet size, interval as a power of two, ring address, cycle state and error count. |
| `Endpoints.ControlPacketSize` | os/my-mikanos/kernel/usb/xhci/xhci.cpp:57-68 | 512 bytes at super speed, 64 at high speed, 8 otherwise. |
| `Endpoints.MostSignificantBit` | os/my-mikanos/kernel/usb/xhci/xhci.cpp:70-81 | The index of the highest set bit, and -1 for 0. |
| `Endpoints.EpTypeSplits` | os/my-mikanos/kernel/usb/xhci/xhci.cpp:550-564 | The context type is the transfer type with the direction in bit 2. |
| `Endpoints.DciIsTheAddress` | os/my-mikanos/kernel/usb/xhci/context.hpp:87-102 | Endpoints share a context only if they share number and direction. |
| `Endpoints.DeviceContexts.InitializeControlPipe` | os/my-mikanos/kernel/usb/xhci/xhci.cpp:167-182 | The add flags are exactly bits 0 and 1, and only the first context changes. |
| `Endpoints.DeviceContexts.AllocTransferRing` | os/my-mikanos/kernel/usb/xhci/device.cpp:120-130 | A fresh empty ring at its index. |
| `PciScan.Scanner.ScanBus` | os/my-mikanos/kernel/pci.cpp:85-101 | Terminates on every configuration space; the table gains the preorder of the bus up to 32 entries, and FULL is returned exactly when there are more. |
| `PciScan.Scanner.ScanDevice` | os/my-mikanos/kernel/pci.cpp:57-83 | Function 0 and, for a multi-function device, the other functions that answer, each with what lies behind it. |
| `PciScan.Scanner.ScanFunction` | os/my-mikanos/kernel/pci.cpp:37-55 | The function itself, then the bus behind it when it is a bridge; `PciWords` says which words decide that. |
| `PciScan.Scanner.AddDevice` | os/my-mikanos/kernel/pci.cpp:23-33 | A full table is unchanged and reports FULL. |
| `PciScan.ScanResult` | os/my-mikanos/kernel/pci.cpp:85-101 | The table is the first 32 entries of a preorder that does not depend on how deep bridges are followed; without an error it is all of it; on a tree no function appears twice. |
| `PciScan.ScanFindsExactlyTheReachable` | os/my-mikanos/kernel/pci.cpp:37-101 | A scan without an error lists exactly the functions that some path of bridges leads to. |
| `PciWords.ScanOnWords` | os/my-mikanos/kernel/pci.cpp:37-101 | The same on the words of the configuration space alone: a function is listed if and only if a chain leads there in which every word at 0x08 but the last says bridge and the second byte of the word at 0x18 is the next bus. |
| `PciWords.BridgesAreFollowed` | os/my-mikanos/kernel/pci.cpp:47-52 | A listed function with class 0x0604 whose bus numbers are p + 0x100 s + 0x10000 t is followed to bus s. |
| `PciWords.PresentWords` | os/my-mikanos/kernel/pci.cpp:57-101 | Which functions answer: vendor words, and bit 23 of the word at 0x0c for the other functions of a device. |
| `PciWords.EntryWords` | os/my-mikanos/kernel/pci.cpp:37-45 | An entry holds the header type and the class code of its own words. |
| `PciScan.BeginningIsStable` | os/my-mikanos/kernel/pci.cpp:47-52 | Also with cyclic bridges the traversal has one beginning. |
| `PciScan.NoFunctionTwice` | os/my-mikanos/kernel/pci.cpp:37-101 | When no bus is behind two bridges and the first behind none, no function is listed twice. |
| `PciScan.FunctionsOnIsExact` | os/my-mikanos/kernel/pci.cpp:57-101 | A function is on the list of its bus if and only if function 0 of its device answers and it is function 0 or answers on a multi-function device. |
| `PciScan.ConfigAddressRoundTrip` | os/my-mikanos/kernel/pci.cpp:9-21 | A configuration address determines bus, device, function and 32-bit register. |
| `Allocators.BlocksAreGood` | os/my-mikanos/kernel/usb/memory.cpp:25-49 | Over any requests without wraparound every block is in the pool, aligned, inside one boundary when it is small enough, and behind every earlier block. |
| `Allocators.FittingRequestsAreServed` | os/my-mikanos/kernel/usb/memory.cpp:25-49 | Requests whose sizes and paddings fit the rest of the pool never get a null pointer. |
| `Allocators.PlaceIsRight` | os/my-mikanos/kernel/usb/memory.cpp:27-38 | A request skips at most the larger of alignment and boundary, less one byte. |
| `Allocators.NothingIsSkipped` | os/my-mikanos/kernel/usb/memory.cpp:27-38 | Every aligned address between the pointer and the block is one from which the block would cross a boundary; without a boundary there is none. |
| `Allocators.CrossesOnlyFromABoundary` | os/my-mikanos/kernel/usb/memory.cpp:31-38 | A block that crosses a boundary starts on one. |
| `Allocators.PointerMoves` | os/my-mikanos/kernel/usb/memory.cpp:40-48 | A request is served if and only if its block ends in the pool, and moves the pointer to the end of the block or, if refused, to where it would have started. |
| `Allocators.CeilIsLeastMultiple` | os/my-mikanos/kernel/usb/memory.cpp:7-11 | The masked sum is the least multiple at or above the value. |
| `Allocators.InsideExactlyWithoutWrap` | os/my-mikanos/kernel/usb/memory.cpp:40-44 | The block handed out lies inside the pool if and only if its end does not wrap around. |
| `Allocators.InsideExactlyWhenNoLargerThanThePool` | os/my-mikanos/kernel/usb/memory.cpp:40-44 | The end check misses a sum that wraps around: whatever the alignment and boundary and wherever the pointer is, the block handed out lies inside the pool if and only if its size is at most that of the whole pool. |
| `Allocators.WrapAroundIsNotSeen` | os/my-mikanos/kernel/usb/memory.cpp:40-44 | A request for the whole address space less one byte is granted. |
| `Allocators.MemoryPool.Alloc` | os/my-mikanos/kernel/usb/memory.cpp:25-49 | Result and pointer are those of the specification, for every size and constraint, in 64-bit arithmetic. |
| `Bits.MaskLowBits` | os/my-mikanos/kernel/usb/memory.cpp:7-17 | Masking with the complement of 2^k - 1 leaves the multiple of 2^k at or below. |
| `Consoles.TextRefinesHistory` | os/my-mikanos/kernel/console.cpp:11-57 | After any characters the buffer is exactly the last 25 lines of the history, each cut to 79 characters and zero padded, with the cursor behind the last one. |
| `Consoles.Console.RenderedMeans` | os/my-mikanos/kernel/console.cpp:11-57 | The area shows character c of row r at column 8c and line 16r, dot by dot. |
| `Consoles.PutConcat` | os/my-mikanos/kernel/console.cpp:11-29 | Two calls are one call on the concatenation. |
| `Consoles.Console.PutString` | os/my-mikanos/kernel/console.cpp:11-29 | The buffer and cursor are those of the specification, the 640 by 400 area equals the rendering of the buffer, and no pixel outside it changes. |
| `Consoles.Console.Scroll` | os/my-mikanos/kernel/console.cpp:39-56 | Clearing and redrawing leaves the area equal to the rendering of the moved buffer. |
| `Consoles.Console.StartLine` | os/my-mikanos/kernel/console.cpp:31-57 | A new line moves the cursor or scrolls; the area stays the rendering of the buffer. |
| `Consoles.Console.DrawAtCursor` | os/my-mikanos/kernel/console.cpp:19-25 | Drawing one glyph on the empty cell keeps the area equal to the rendering. |
| `Consoles.PutKeepsTidy` | os/my-mikanos/kernel/console.cpp:11-57 | Rows stay zero padded and the cursor stays behind the characters of its row. |
| `Screens.PixelWriter.Write` | os/my-mikanos/kernel/pixel_writer.cpp:3-17 | In both byte orders exactly one pixel changes: three bytes at four times its place, in the order of the format. |
| `Screens.CellsAreDisjoint` | os/my-mikanos/kernel/pixel_writer.h:23-26 | Different pixels inside the scan lines have disjoint bytes. |
| `Screens.DotIsABit` | os/my-mikanos/kernel/font.cpp:18-36 | A dot is the bit of its column, from the left, in the byte of its row. |
| `Screens.PixelWriter.WriteChar` | os/my-mikanos/kernel/font.cpp:18-36 | Exactly the dots of the glyph get the color. |
| `Screens.PixelWriter.WriteString` | os/my-mikanos/kernel/font.cpp:38-44 | Exactly the dots of the characters before the terminating zero get the color. |
| `Screens.NegativeHasNoGlyph` | os/my-mikanos/kernel/font.cpp:7-16 | Characters from 0x80 on have no glyph, the others their own. |
| `ElfLoader.CalcLoadAddressRange` | os/my-mikanos/MikanLoaderPkg/Main.c:265-281 | The lowest start and the highest end over the loadable segments, each attained; the initial values when there are none. |
| `ElfLoader.Memory.CopyLoadSegments` | os/my-mikanos/MikanLoaderPkg/Main.c:283-299 | Every byte of memory is what the last segment that covers it puts there, and unchanged if none does. |
| `ElfLoader.LoadedIsSegments` | os/my-mikanos/MikanLoaderPkg/Main.c:283-299 | With disjoint segments each has the file's bytes and then zeros, whatever the order, and every other byte is unchanged. |
| `ElfLoader.RangeAndPages` | os/my-mikanos/MikanLoaderPkg/Main.c:379 | Every stored byte lies in the range and in its pages, and one page fewer would not cover it. |
| `ElfLoader.EntryIsTheFilesEntry` | os/my-mikanos/MikanLoaderPkg/Main.c:398 | If the lowest segment maps the beginning of the file, the word read at offset 24 of the image is the entry address of the file. |
| `ElfLoader.HeaderLayout` | os/my-mikanos/kernel/elf.h:16-32 | Where the file header holds the entry address, the place of the program headers and their number. |
| `ElfLoader.PhdrLayout` | os/my-mikanos/kernel/elf.h:34-44 | Where a program header holds type, offset, address and sizes, and which type is loadable. |

## Left out

- Firmware calls of the boot loader (files, graphics mode, memory map, leaving boot services): input and output without visible semantics. `CopyMem` and `SetMem` are the firmware's and are modelled by what they do.
- Controller bring-up, ownership hand-over, run and halt, and the port reset itself: hardware polling. Kept are the ring size 32, the programmed consumer cycle 1 and the events that follow.
- Doorbells, interrupts and memory-mapped registers other than the event ring dequeue pointer: the controller may take a step at any time anyway.
- Error and stall completions during enumeration, disconnects after a port has got the token, and malformed descriptors: assumed away in runs, since the code does not recover. The handlers themselves are modelled for every completion code.
- Null allocations inside enumeration and the events after them. `Ring.Initialize` and the pool itself report them.
- A HID interface without an interrupt IN endpoint: the source then indexes before its ring array.
- Endpoint number 0 in the runs over all devices and in enumeration: these assume numbers from 1. What number 0 leads to is proved for one device in `EndpointLimit.dfy`; the device objects take number 0, IN.
- The bytes in front of the context and ring tables, which number 0, OUT, stores into, and those behind the table of 16 endpoints, which a seventeenth endpoint stores into: that the code gets there is proved, what it does then is not modelled.
- What a controller makes of a Configure Endpoint command that names the control pipe.
- Pointers to TRBs in the setup map: a ring and a slot number instead of an address.
- Virtual calls through class driver and observer pointers: an out-parameter that says who is called with what.
- The objects behind a device read their ring and their buffers, and the descriptors of a reply lie in the device's buffer as the controller wrote them: `Answers` and `Reports` in `Device.dfy` say so of each event. The endpoints of one device have different addresses, none of them number 0, OUT (`Configurable`).
- Rows of the console buffer are values in an array, since the source only copies whole rows or stores one character.
- The event ring is proved on its own; that its events are what the command and transfer rings cause is an assumption on events in the runs.
- `EventRing::Initialize`, the segment table and the interrupter registers, except the dequeue pointer.
- `DeviceManager::FindByState`, `Remove` and `InterruptOut`: not reached by enumeration.
- `scan_all_bus` scans bus 0, or, when the host bridge has several functions, each bus from 1 to 7 whose number is that of an answering function: `PciScan.Scanner.ScanBus` holds for each of these scans, whatever is in the table already. `read_bar` and the accesses to configuration registers concern a function that is in the table already, and change nothing that a scan reads.
- The mouse driver hands two bytes of each report to its observers without a comparison with the report before, so it keeps nothing from one report to the next; the list of observers is not modelled. `fill_rect` and `draw_rect` call `Write` once per pixel, and `Screens.PixelWriter.Write` says what each call does. The logger, the name tables and the C library stubs are read by none of the modelled functions.
- Layouts of registers and contexts beyond the fields that the properties need.
- EndpointLimits.FirstReplyIsRightExactlyWhen: speaks of the driver's side of the pipe; whether the controller knows the ring is `BootProtocolWorksExactlyWhen`.
- Enumeration.StepKeepsInv: assumes good answers and successful or short completions, because nothing in the source retries a failed transfer.
- Devices.Device.OnControlEvent: the event names the TRB of the oldest outstanding request and reports success or a short packet, since no other event occurs in a run; what the transfer engine does with every other code and TRB is `ControlPipes.TransferEngine.OnTransferEventReceived`.
- Devices.Device.OnInterruptEvent: the event names a Normal TRB and reports success or a short packet, likewise.
- Xhci.Controller.OnControlEvent: the same assumption on the event when its code is a success; every other code is refused as in the source.
- Xhci.Controller.OnInterruptEvent: the same assumption on the event of a report.
- Allocators.BlocksAreGood: assumes that no address wraps around, because the end check does not see it; `InsideExactlyWhenNoLargerThanThePool` says exactly when it matters.
- ElfLoader.RangeAndPages: assumes that a segment does not end in the last page of the address space, where rounding up would wrap around.
- Screens.PixelWriter.WriteChar: only glyphs that lie on the screen, because the source does not clip.
