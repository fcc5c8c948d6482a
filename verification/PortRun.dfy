/** That a port comes through: from any state that a run can reach, the events of one device lead its
    port from nothing to a configured device that is being polled. */
module PortRuns {
  import opened ArrayMaps
  import opened ControlPipes
  import opened Descriptors
  import opened DeviceRuns
  import opened Enumeration
  import opened EnumerationRuns
  import opened Errors
  import opened Speeds
  import opened Trbs
  import opened UsbDevices

  /** The slot holds the device of this port, which is in this phase. */
  ghost predicate Has(s: System, port: nat, slot: nat, p: Phase) {
    && Reachable(s) && 1 <= port <= s.maxPorts < PORTS && s.x.phase[port] == p
    && 1 <= slot <= MAX_SLOTS && s.x.slots[slot].Some?
    && s.x.slots[slot].value.inputPort == s.x.slots[slot].value.contextPort == port
  }

  function DeviceIn(s: System, slot: nat): Dev
    requires slot <= MAX_SLOTS && s.x.slots[slot].Some?
  {
    s.x.slots[slot].value.dev
  }

  // ---------------------------------------------------------------- up to the address

  lemma PortIsReset(s: System, port: nat) returns (e: Event)
    requires Reachable(s) && 1 <= port <= s.maxPorts && s.x.token == 0 && s.x.phase[port] == NotConnected
    ensures e == PortConfigured(port, true) && Legal(s, e) && InBounds(s)
    ensures var s' := Step(s, e);
            && Reachable(s') && s'.maxPorts == s.maxPorts
            && s'.x.token == port && s'.x.phase[port] == ResettingPort && s'.x.slots == s.x.slots
  {
    e := PortConfigured(port, true);
    hide Reachable, Enumeration.Inv, Step;
    ReachableInv(s);
    StepReaches(s, e);
    PortStepIs(s, e, ResettingPort, port);
  }

  lemma PortIsEnabled(s: System, port: nat, connected: bool) returns (e: Event)
    requires Reachable(s) && 1 <= port <= s.maxPorts && s.x.token == port && s.x.phase[port] == ResettingPort
    ensures e == PortChanged(port, connected, true, true) && Legal(s, e) && InBounds(s)
    ensures var s' := Step(s, e);
            && Reachable(s') && s'.maxPorts == s.maxPorts
            && s'.x.token == port && s'.x.phase[port] == EnablingSlot && s'.x.slots == s.x.slots
            && EnableSlotCommand in s'.commands
  {
    e := PortChanged(port, connected, true, true);
    hide Reachable, Enumeration.Inv, Step;
    ReachableInv(s);
    StepReaches(s, e);
    PortStepIs(s, e, EnablingSlot, port);
  }

  lemma SlotIsEnabled(s: System, port: nat, slot: nat, base: Address, buffer: Address) returns (e: Event)
    requires Reachable(s) && 1 <= port <= s.maxPorts && s.x.token == port && s.x.phase[port] == EnablingSlot
    requires EnableSlotCommand in s.commands && 1 <= slot <= MAX_SLOTS && s.x.slots[slot].None? && base % 16 == 0
    ensures e == EnableSlotDone(slot, base, buffer) && Legal(s, e) && InBounds(s)
    ensures var s' := Step(s, e);
            && Reachable(s') && s'.maxPorts == s.maxPorts
            && s'.x.token == port && s'.x.phase[port] == AddressingDevice && AddressDeviceCommand(slot) in s'.commands
            && s'.x.slots[slot] == Some(Slot(port, 0, NewDev(base, buffer))) && s'.x.contexts[slot] == Some(slot)
  {
    e := EnableSlotDone(slot, base, buffer);
    hide Reachable, Enumeration.Inv, Step, NewDev;
    ReachableInv(s);
    StepReaches(s, e);
    EnableSlotStepIs(s, e);
  }

  lemma DeviceIsAddressed(s: System, port: nat, slot: nat, connected: set<nat>) returns (e: Event)
    requires Reachable(s) && 1 <= port <= s.maxPorts < PORTS && s.x.token == port && s.x.phase[port] == AddressingDevice
    requires 1 <= slot <= MAX_SLOTS && s.x.slots[slot].Some? && s.x.slots[slot].value.inputPort == port
    requires AddressDeviceCommand(slot) in s.commands
    ensures e == AddressDeviceDone(slot, connected) && Legal(s, e) && InBounds(s)
    ensures var s' := Step(s, e);
            && Has(s', port, slot, InitializingDevice) && s'.maxPorts == s.maxPorts
            && DeviceIn(s', slot) == Start(DeviceIn(s, slot)) && s'.x.contexts == s.x.contexts
  {
    e := AddressDeviceDone(slot, connected);
    hide Reachable, Enumeration.Inv, Step, Start, LowestWaiting, CommandOf;
    ReachableInv(s);
    StepReaches(s, e);
    AddressStepIs(s, e);
    var w := LowestWaiting(s.x.phase, 0);
    if w < PORTS { WaitsElsewhere(s.x.phase, port); }
  }

  lemma WaitsElsewhere(phase: Phases, port: nat)
    requires port < PORTS && phase[port] != WaitingAddressed && LowestWaiting(phase, 0) < PORTS
    ensures LowestWaiting(phase, 0) != port
  {
  }

  // ---------------------------------------------------------------- the device's replies

  /** A good reply of the device: what it does to the device, and that an initialized device of a port
      with a known speed is configured at once. */
  lemma DeviceReplies(s: System, port: nat, slot: nat, p: Phase, code: nat, residual: nat, ds: seq<Descriptor>,
                      speed: nat, at: seq<Address>)
      returns (e: Event)
    requires Has(s, port, slot, p) && Rank(p) >= 5 && GoodAnswer(DeviceIn(s, slot), ds)
    requires (code == CODE_SUCCESS || code == CODE_SHORT_PACKET) && 1 <= speed <= SUPER_SPEED_PLUS
    ensures e == ControlDone(slot, code, residual, ds, speed, at) && Legal(s, e) && InBounds(s)
    ensures var (s', d) := (Step(s, e), OnControlEvent(DeviceIn(s, slot), code, residual, ds));
            var starts := p == InitializingDevice && d.usb.isInitialized;
            && Has(s', port, slot, if starts then ConfiguringEndpoints else p) && DeviceIn(s', slot) == d
            && (starts ==> ConfigureEndpointCommand(slot) in s'.commands)
            && s'.maxPorts == s.maxPorts && s'.x.contexts == s.x.contexts
  {
    e := ControlDone(slot, code, residual, ds, speed, at);
    hide Reachable, Enumeration.Inv, Step, OnControlEvent, GoodAnswer, DeviceMatches;
    ReachableInv(s);
    StepReaches(s, e);
    TransferStepOf(s, e);
    var d := OnControlEvent(DeviceIn(s, slot), code, residual, ds);
    assert Step(s, e).x.slots[slot] == Some(Slot(port, port, d));
  }

  lemma EndpointsAreConfigured(s: System, port: nat, slot: nat) returns (e: Event)
    requires Has(s, port, slot, ConfiguringEndpoints) && ConfigureEndpointCommand(slot) in s.commands
    ensures e == ConfigureEndpointDone(slot) && Legal(s, e) && InBounds(s)
    ensures var s' := Step(s, e);
            && Has(s', port, slot, Configured) && DeviceIn(s', slot) == OnConfigured(DeviceIn(s, slot))
            && s'.maxPorts == s.maxPorts && s'.x.contexts == s.x.contexts
  {
    e := ConfigureEndpointDone(slot);
    hide Reachable, Enumeration.Inv, Step, OnConfigured, CommandOf;
    ReachableInv(s);
    StepReaches(s, e);
    TokenElsewhere(s, port);
    ConfigureStepIs(s, e);
  }

  lemma TokenElsewhere(s: System, port: nat)
    requires Enumeration.Inv(s) && port < PORTS && s.x.phase[port] == ConfiguringEndpoints
    ensures s.x.token != port
  {
    hide CommandInv, IssuedInv, DevicesInv, RankSum, SlotInv, OwnerInv;
  }

  // ---------------------------------------------------------------- the device from start to polling

  /** A good reply to a request for this kind of descriptor. */
  predicate Describes(ds: seq<Descriptor>, kind: Byte) {
    IsGoodReply(ds) && NumberedFromOne(ds) && KindOf(ds) == kind
  }

  /** A device that has replied to its three requests and been configured, and whose class driver has
      had the reply to its first request, is polled: one transfer is in flight and no report waits. */
  lemma DeviceComesUp(d: Dev, device: seq<Descriptor>, ds: seq<Descriptor>, code: nat, r1: nat, r2: nat, r3: nat, r4: nat)
      returns (d1: Dev, d2: Dev, d3: Dev, d4: Dev, d5: Dev, d6: Dev)
    requires DeviceRuns.Inv(d) && d.usb.phase == 0 && (code == CODE_SUCCESS || code == CODE_SHORT_PACKET)
    requires Describes(device, DEVICE_TYPE) && Describes(ds, CONFIGURATION_TYPE)
    requires FirstSelected(ds, 1) < |ds| && OwnEndpoints(ds, FirstSelected(ds, 1) + 1) != []
    ensures d1 == Start(d) && GoodAnswer(d1, device) && !d1.usb.isInitialized
    ensures d2 == OnControlEvent(d1, code, r1, device) && GoodAnswer(d2, ds) && !d2.usb.isInitialized
    ensures d3 == OnControlEvent(d2, code, r2, ds) && GoodAnswer(d3, []) && !d3.usb.isInitialized
    ensures d4 == OnControlEvent(d3, code, r3, []) && d4.usb.isInitialized
    ensures d5 == OnConfigured(d4) && GoodAnswer(d5, [])
    ensures d6 == OnControlEvent(d5, code, r4, [])
    ensures DeviceRuns.Inv(d6) && d6.usb.phase == 4 && d6.hidPhase == 2 && d6.inFlight == 1 && d6.reports == 0
    ensures d6.usb.configs == OwnEndpoints(ds, FirstSelected(ds, 1) + 1)
    ensures forall n :: 0 <= n < ENDPOINT_NUMBERS ==>
              d6.usb.drivers[n] == if exists c :: c in d6.usb.configs && c.number == n
                                   then NewClassDriver(ds[FirstSelected(ds, 1)]) else None
  {
    hide DeviceRuns.Inv, Start, OnControlEvent, OnConfigured, OwnEndpoints, NewClassDriver;
    StartKeepsInv(d);
    d1 := Start(d);
    AsksForDevice(d1, device);
    DeviceAnswered(d1, code, r1, device);
    d2 := OnControlEvent(d1, code, r1, device);
    AsksForBlock(d2, ds);
    ConfigurationAnswered(d2, code, r2, ds);
    Selects(d2, code, r2, ds);
    d3 := OnControlEvent(d2, code, r2, ds);
    AsksForNothing(d3);
    SetConfigurationAnswered(d3, code, r3, []);
    KeepsSelection(d3, code, r3);
    d4 := OnControlEvent(d3, code, r3, []);
    SomeDriver(ds, d4.usb, FirstSelected(ds, 1));
    Told(d4);
    d5 := OnConfigured(d4);
    ProtocolAnswered(d5, code, r4, []);
    Polls(d5, code, r4);
    d6 := OnControlEvent(d5, code, r4, []);
  }

  lemma AsksForDevice(d: Dev, ds: seq<Descriptor>)
    requires DeviceRuns.Inv(d) && d.usb.phase == 1 && d.pipe.live != [] && Describes(ds, DEVICE_TYPE)
    ensures GoodAnswer(d, ds) && !d.usb.isInitialized
  {
    var driver :| PhaseInv(d, driver);
    hide ControlPipes.Inv, IsGoodReply, NumberedFromOne;
  }

  lemma AsksForBlock(d: Dev, ds: seq<Descriptor>)
    requires DeviceRuns.Inv(d) && d.usb.phase == 2 && d.pipe.live != [] && Describes(ds, CONFIGURATION_TYPE)
    ensures GoodAnswer(d, ds) && !d.usb.isInitialized && d.usb.drivers == NewUsb().drivers
  {
    var driver :| PhaseInv(d, driver);
    hide ControlPipes.Inv, IsGoodReply, NumberedFromOne;
  }

  lemma AsksForNothing(d: Dev)
    requires DeviceRuns.Inv(d) && d.usb.phase == 3
    ensures d.pipe.live != [] && GoodAnswer(d, []) && !d.usb.isInitialized
  {
    var driver :| PhaseInv(d, driver);
    hide ControlPipes.Inv;
  }

  lemma Selects(d: Dev, code: nat, residual: nat, ds: seq<Descriptor>)
    requires DeviceRuns.Inv(d) && d.usb.phase == 2 && GoodAnswer(d, ds) && FirstSelected(ds, 1) < |ds|
    requires code == CODE_SUCCESS || code == CODE_SHORT_PACKET
    requires Describes(ds, CONFIGURATION_TYPE) && d.usb.drivers == NewUsb().drivers
    ensures var (i, u) := (FirstSelected(ds, 1), OnControlEvent(d, code, residual, ds).usb);
            && u.configs == OwnEndpoints(ds, i + 1)
            && forall n :: 0 <= n < ENDPOINT_NUMBERS ==>
                 u.drivers[n] == if exists c :: c in u.configs && c.number == n then NewClassDriver(ds[i]) else None
  {
    hide DeviceRuns.Inv, ControlPipes.Inv, DoComplete, Issued, OnControl, OnControlEvent, OwnEndpoints, NewClassDriver, Phase2;
    BlockIsAsked(d);
    var p := ControlEventIs(d, code, residual, ds);
    BlockMeans(d.usb, Asked(d), ds, d.buffer);
    Phase2Selects(d.usb, ds, FirstSelected(ds, 1));
    IssuedIsUsb(d.(pipe := p, usb := Phase2(d.usb, ds).0), Phase2(d.usb, ds).1);
  }

  lemma BlockIsAsked(d: Dev)
    requires DeviceRuns.Inv(d) && d.usb.phase == 2 && d.pipe.live != []
    ensures ControlPipes.Inv(d.pipe) && d.pipe.pipe.dci == EP0_DCI && !d.usb.isInitialized
    ensures Asked(d).request == GET_DESCRIPTOR && Asked(d).value == CONFIGURATION_TYPE * 0x100
  {
    var driver :| PhaseInv(d, driver);
    hide ControlPipes.Inv;
  }

  lemma BlockMeans(u: Usb, setup: SetupData, ds: seq<Descriptor>, buffer: Address)
    requires u.phase == 2 && !u.isInitialized && setup.request == GET_DESCRIPTOR
    requires IsReply(ds) && KindOf(ds) == CONFIGURATION_TYPE
    ensures |ds[0]| >= 6 && ds[0][1] == CONFIGURATION_TYPE
    ensures OnControl(u, setup, ds, buffer) == Reaction(Phase2(u, ds).0, Success, Phase2(u, ds).1, None)
  {
    assert WellFormed(ds[0]);
    hide Phase2;
  }

  lemma IssuedIsUsb(d: Dev, next: Option<Request>)
    ensures Issued(d, next).usb == d.usb
  {
    hide DoIssue;
  }

  lemma KeepsSelection(d: Dev, code: nat, residual: nat)
    requires DeviceRuns.Inv(d) && d.usb.phase == 3 && GoodAnswer(d, [])
    requires code == CODE_SUCCESS || code == CODE_SHORT_PACKET
    ensures var u := OnControlEvent(d, code, residual, []).usb;
            u.configs == d.usb.configs && u.drivers == d.usb.drivers && u.isInitialized
  {
    hide ControlPipes.Inv, DoComplete, Issued, OnControlEvent;
    var driver :| PhaseInv(d, driver);
    var p := ControlEventIs(d, code, residual, []);
    NoneIssued(d.(pipe := p, usb := OnControl(d.usb, Asked(d), [], d.buffer).usb));
  }

  lemma SomeDriver(ds: seq<Descriptor>, u: Usb, i: nat)
    requires i < |ds| && Selected(ds[i]) && u.configs == OwnEndpoints(ds, i + 1) != []
    requires forall n :: 0 <= n < ENDPOINT_NUMBERS ==>
               u.drivers[n] == if exists c :: c in u.configs && c.number == n then NewClassDriver(ds[i]) else None
    ensures exists n :: 0 <= n < ENDPOINT_NUMBERS && u.drivers[n].Some?
  {
    hide OwnEndpoints, NewClassDriver;
    OwnEndpointNumbers(ds, i + 1);
    var c := u.configs[0];
    assert c in u.configs && u.drivers[c.number].Some?;
  }

  /** Telling the drivers, at least one of them. */
  lemma Told(d: Dev)
    requires DeviceRuns.Inv(d) && d.usb.phase == 4 && d.told == 0
    requires exists n :: 0 <= n < ENDPOINT_NUMBERS && d.usb.drivers[n].Some?
    ensures var d' := OnConfigured(d);
            && DeviceRuns.Inv(d') && d'.usb.phase == 4 && d'.pipe.live != [] && GoodAnswer(d', [])
            && d'.answered == 0 && d'.hidPhase == 1 && d'.inFlight + d'.reports == 0
            && d'.usb.configs == d.usb.configs && d'.usb.drivers == d.usb.drivers
  {
    hide ControlPipes.Inv, Calls;
    ConfiguredKeepsInv(d);
    CallsCount(d.usb.drivers);
    var n :| 0 <= n < ENDPOINT_NUMBERS && d.usb.drivers[n].Some?;
    assert n in WithDriver(d.usb.drivers);
    var driver :| PhaseInv(d, driver);
    CallsBound(d.usb.drivers, driver);
    TellAllKeepsInv(d, Calls(d.usb.drivers), driver);
    hide TellAll;
    var d' := OnConfigured(d);
    assert d'.pipe.live[0].req == SetProtocolRequest(driver);
  }

  lemma Polls(d: Dev, code: nat, residual: nat)
    requires DeviceRuns.Inv(d) && d.usb.phase == 4 && d.pipe.live != [] && GoodAnswer(d, [])
    requires d.answered == 0 && d.hidPhase == 1 && d.inFlight + d.reports == 0
    requires code == CODE_SUCCESS || code == CODE_SHORT_PACKET
    ensures var d' := OnControlEvent(d, code, residual, []);
            d'.hidPhase == 2 && d'.inFlight == 1 && d'.reports == 0 && d'.usb == d.usb
  {
    hide ControlPipes.Inv, DoComplete, Issued, OnControlEvent;
    var driver :| PhaseInv(d, driver);
    var p := ControlEventIs(d, code, residual, []);
    NoneIssued(d.(pipe := p));
  }

  // ---------------------------------------------------------------- the whole way

  /** From any state that a run can reach in which the token is free and a slot is empty, a port that
      gets a keyboard or mouse comes through: nine events, each of which the environment may raise
      when it is its turn, lead to a configured port whose device owns the slot and is polled. */
  lemma PortComesUp(s: System, port: nat, slot: nat, base: Address, buffer: Address, connected: set<nat>,
                    device: seq<Descriptor>, ds: seq<Descriptor>, speed: nat, at: seq<Address>)
      returns (events: seq<Event>, s': System)
    requires Reachable(s) && 1 <= port <= s.maxPorts && s.x.token == 0 && s.x.phase[port] == NotConnected
    requires 1 <= slot <= MAX_SLOTS && s.x.slots[slot].None? && base % 16 == 0 && 1 <= speed <= SUPER_SPEED_PLUS
    requires Describes(device, DEVICE_TYPE) && Describes(ds, CONFIGURATION_TYPE)
    requires FirstSelected(ds, 1) < |ds| && OwnEndpoints(ds, FirstSelected(ds, 1) + 1) != []
    ensures Enumeration.Inv(s) && LegalRun(s, events) && Run(s, events) == s' && |events| == 9
    ensures Has(s', port, slot, Configured) && s'.x.contexts[slot] == Some(slot)
    ensures var d := DeviceIn(s', slot);
            && d.usb.phase == 4 && d.hidPhase == 2 && d.inFlight == 1 && d.reports == 0
            && d.usb.configs == OwnEndpoints(ds, FirstSelected(ds, 1) + 1)
  {
    hide Reachable, Enumeration.Inv, LegalRun, Run, Step, Legal, NewDev, Start, OnControlEvent, OnConfigured, OwnEndpoints,
      GoodAnswer, Describes;
    NewDevInv(base, buffer);
    var d1, d2, d3, d4, d5, d6 := DeviceComesUp(NewDev(base, buffer), device, ds, CODE_SUCCESS, 0, 0, 0, 0);
    ReachableInv(s);
    NoEvents(s);
    var e1 := PortIsReset(s, port);
    var es1, s1 := OneMore(s, [], s, e1);
    var e2 := PortIsEnabled(s1, port, true);
    var es2, s2 := OneMore(s, es1, s1, e2);
    var e3 := SlotIsEnabled(s2, port, slot, base, buffer);
    var es3, s3 := OneMore(s, es2, s2, e3);
    var e4 := DeviceIsAddressed(s3, port, slot, connected);
    var es4, s4 := OneMore(s, es3, s3, e4);
    var e5 := DeviceReplies(s4, port, slot, InitializingDevice, CODE_SUCCESS, 0, device, speed, at);
    var es5, s5 := OneMore(s, es4, s4, e5);
    var e6 := DeviceReplies(s5, port, slot, InitializingDevice, CODE_SUCCESS, 0, ds, speed, at);
    var es6, s6 := OneMore(s, es5, s5, e6);
    var e7 := DeviceReplies(s6, port, slot, InitializingDevice, CODE_SUCCESS, 0, [], speed, at);
    var es7, s7 := OneMore(s, es6, s6, e7);
    var e8 := EndpointsAreConfigured(s7, port, slot);
    var es8, s8 := OneMore(s, es7, s7, e8);
    var e9 := DeviceReplies(s8, port, slot, Configured, CODE_SUCCESS, 0, [], speed, at);
    events, s' := OneMore(s, es8, s8, e9);
  }

  lemma NoEvents(s: System)
    requires Enumeration.Inv(s)
    ensures LegalRun(s, []) && Run(s, []) == s
  {
    hide Enumeration.Inv;
  }

  lemma OneMore(s: System, events: seq<Event>, last: System, e: Event) returns (longer: seq<Event>, next: System)
    requires Enumeration.Inv(s) && LegalRun(s, events) && Run(s, events) == last && Legal(last, e)
    ensures InBounds(last) && next == Step(last, e) && longer == events + [e]
    ensures LegalRun(s, longer) && Run(s, longer) == next
  {
    hide Enumeration.Inv, LegalRun, Run, Step, Legal;
    RunOneMore(s, events, e);
    longer, next := events + [e], Step(last, e);
  }
}
