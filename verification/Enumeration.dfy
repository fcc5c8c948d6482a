/** Enumeration: the configuration phase of every root hub port, the addressing token, and
    the commands and devices behind them, as a function of the events that the driver
    handles. */
module Enumeration {
  import opened ArrayMaps
  import opened ControlPipes
  import opened Descriptors
  import opened DeviceRuns
  import opened Errors
  import opened Speeds
  import opened Trbs

  datatype Phase =
    | NotConnected
    | WaitingAddressed
    | ResettingPort
    | EnablingSlot
    | AddressingDevice
    | InitializingDevice
    | ConfiguringEndpoints
    | Configured

  /** The order of the source's enumeration. */
  function Rank(p: Phase): nat {
    match p
    case NotConnected => 0
    case WaitingAddressed => 1
    case ResettingPort => 2
    case EnablingSlot => 3
    case AddressingDevice => 4
    case InitializingDevice => 5
    case ConfiguringEndpoints => 6
    case Configured => 7
  }

  /** The phases in which a port owns the addressing token. */
  predicate NeedsToken(p: Phase) {
    p == ResettingPort || p == EnablingSlot || p == AddressingDevice
  }

  const PORTS := 256
  const MAX_SLOTS := 8

  datatype Command = EnableSlotCommand | AddressDeviceCommand(slot: nat) | ConfigureEndpointCommand(slot: nat)

  datatype CommandKind = EnableSlotKind | AddressDeviceKind | ConfigureEndpointKind

  /** A device slot: the port number in its input context, the one in its device context,
      which the controller fills in, and the device. */
  datatype Slot = Slot(inputPort: nat, contextPort: nat, dev: Dev)

  type Phases = p: seq<Phase> | |p| == PORTS witness seq(PORTS, i => NotConnected)
  type Slots = s: seq<Option<Slot>> | |s| == MAX_SLOTS + 1 witness seq(MAX_SLOTS + 1, i => None)

  /** `contexts` is the device context pointer array: which slot's device context each entry
      names. `writes` counts the assignments to a port's phase. */
  datatype Driver = Driver(
    phase: Phases, token: nat, slots: Slots, contexts: seq<Option<nat>>, writes: nat)

  function NewDriver(): Driver {
    Driver(seq(PORTS, i => NotConnected), 0, seq(MAX_SLOTS + 1, i => None), seq(MAX_SLOTS + 1, i => None), 0)
  }

  function SetPhase(x: Driver, port: nat, p: Phase): Driver
    requires port < PORTS
  {
    x.(phase := x.phase[port := p], writes := x.writes + 1)
  }

  /** A handler's result: the driver, the command it pushed, and its error code. */
  datatype Result = Result(x: Driver, command: Option<Command>, error: Error)

  function ResetPort(x: Driver, port: nat, connected: bool): Result
    requires port < PORTS
  {
    if !connected then Result(x, None, Success)
    else if x.token != 0 then Result(SetPhase(x, port, WaitingAddressed), None, Success)
    else if x.phase[port] != NotConnected && x.phase[port] != WaitingAddressed then
      Result(x, None, InvalidPhase)
    else Result(SetPhase(x.(token := port), port, ResettingPort), None, Success)
  }

  function EnableSlot(x: Driver, port: nat, enabled: bool, resetChanged: bool): Result
    requires port < PORTS
  {
    if enabled && resetChanged then
      Result(SetPhase(x, port, EnablingSlot), Some(EnableSlotCommand), Success)
    else Result(x, None, Success)
  }

  function FindBySlot(x: Driver, slot: nat): Option<Slot> {
    if slot > MAX_SLOTS then None else x.slots[slot]
  }

  /** `base` and `buffer` are where the new device's control ring and buffer lie. A slot that
      already has a device keeps it, with a new control ring. */
  function AddressDevice(x: Driver, port: nat, slot: nat, base: Address, buffer: Address): Result
    requires port < PORTS && |x.contexts| == MAX_SLOTS + 1
  {
    if slot > MAX_SLOTS then Result(x, None, InvalidSlotId)
    else
      var made := NewDev(base, buffer);
      var s := if x.slots[slot].Some? then
                 x.slots[slot].value.(inputPort := port, dev := NewRing(x.slots[slot].value.dev, base))
               else Slot(port, 0, made);
      Result(SetPhase(x.(slots := x.slots[slot := Some(s)], contexts := x.contexts[slot := Some(slot)]),
                      port, AddressingDevice),
             Some(AddressDeviceCommand(slot)), Success)
  }

  function OnEnableSlotDone(x: Driver, slot: nat, base: Address, buffer: Address): Result
    requires x.token < PORTS && |x.contexts| == MAX_SLOTS + 1
  {
    if x.phase[x.token] != EnablingSlot then Result(x, None, InvalidPhase)
    else AddressDevice(x, x.token, slot, base, buffer)
  }

  /** The lowest port from `i` on that waits for the token, or the end of the array. */
  function LowestWaiting(phase: Phases, i: nat): (r: nat)
    requires i <= PORTS
    ensures i <= r <= PORTS
    ensures r < PORTS ==> phase[r] == WaitingAddressed
    ensures forall j :: i <= j < r ==> phase[j] != WaitingAddressed
    decreases PORTS - i
  {
    if i == PORTS || phase[i] == WaitingAddressed then i else LowestWaiting(phase, i + 1)
  }

  /** The token is released and offered to the lowest waiting port. */
  function HandOver(x: Driver, connected: set<nat>): Result {
    var x0 := x.(token := 0);
    var w := LowestWaiting(x.phase, 0);
    if w == PORTS then Result(x0, None, Success) else ResetPort(x0, w, w in connected)
  }

  function InitializeDevice(x: Driver, port: nat, slot: nat): Result
    requires port < PORTS
  {
    if FindBySlot(x, slot).None? then Result(x, None, InvalidSlotId)
    else
      var s := x.slots[slot].value;
      Result(SetPhase(x, port, InitializingDevice)
             .(slots := x.slots[slot := Some(s.(dev := Start(s.dev)))]), None, Success)
  }

  /** `connected` is the set of ports that report a connection when they are asked. */
  function OnAddressDeviceDone(x: Driver, slot: nat, connected: set<nat>): Result {
    if FindBySlot(x, slot).None? then Result(x, None, InvalidSlotId)
    else
      var port := x.slots[slot].value.contextPort;
      if port != x.token || port >= PORTS || x.phase[port] != AddressingDevice then Result(x, None, InvalidPhase)
      else
        var r := HandOver(x, connected);
        if r.error != Success then r else InitializeDevice(r.x, port, slot)
  }

  function CompleteConfiguration(x: Driver, port: nat, slot: nat): Result
    requires port < PORTS
  {
    if FindBySlot(x, slot).None? then Result(x, None, InvalidSlotId)
    else
      var s := x.slots[slot].value;
      Result(SetPhase(x, port, Configured).(slots := x.slots[slot := Some(s.(dev := OnConfigured(s.dev)))]), None, Success)
  }

  function OnConfigureEndpointDone(x: Driver, slot: nat): Result {
    if FindBySlot(x, slot).None? then Result(x, None, InvalidSlotId)
    else
      var s := x.slots[slot].value;
      if s.contextPort >= PORTS || x.phase[s.contextPort] != ConfiguringEndpoints then Result(x, None, InvalidPhase)
      else CompleteConfiguration(x, s.contextPort, slot)
  }

  /** The last part of a transfer event: an initialized device is configured, once. `at` are the
      addresses of the rings of its endpoints. */
  function ConfigureIfReady(x: Driver, slot: nat, speed: nat, at: seq<Address>): Result
    requires FindBySlot(x, slot).Some?
  {
    var s := x.slots[slot].value;
    if s.contextPort < PORTS && s.dev.usb.isInitialized && x.phase[s.contextPort] == InitializingDevice then
      if speed == 0 || speed > SUPER_SPEED_PLUS then Result(x, None, UnknownXhciSpeedId)
      else
        var x' := x.(slots := x.slots[slot := Some(s.(dev := Reprogrammed(s.dev, at)))]);
        Result(SetPhase(x', s.contextPort, ConfiguringEndpoints), Some(ConfigureEndpointCommand(slot)), Success)
    else Result(x, None, Success)
  }

  function OnControlTransfer(x: Driver, slot: nat, code: nat, residual: nat, ds: seq<Descriptor>,
                             speed: nat, at: seq<Address>): Result
  {
    if FindBySlot(x, slot).None? then Result(x, None, InvalidSlotId)
    else if code != CODE_SUCCESS && code != CODE_SHORT_PACKET then Result(x, None, TransferFailed)
    else
      var s := x.slots[slot].value;
      var dev := OnControlEvent(s.dev, code, residual, ds);
      var x' := x.(slots := x.slots[slot := Some(s.(dev := dev))]);
      var err := ControlError(s.dev, code, residual, ds);
      if err != Success then Result(x', None, err) else ConfigureIfReady(x', slot, speed, at)
  }

  function OnInterruptTransfer(x: Driver, slot: nat, speed: nat, at: seq<Address>): Result {
    if FindBySlot(x, slot).None? then Result(x, None, InvalidSlotId)
    else
      var s := x.slots[slot].value;
      if s.dev.reports == 0 then Result(x, None, NoWaiter)
      else ConfigureIfReady(x.(slots := x.slots[slot := Some(s.(dev := OnInterruptEvent(s.dev)))]), slot, speed, at)
  }

  function OnPortStatusChange(x: Driver, port: nat, connected: bool, enabled: bool, resetChanged: bool): Result
    requires port < PORTS
  {
    match x.phase[port]
    case NotConnected => ResetPort(x, port, connected)
    case ResettingPort => EnableSlot(x, port, enabled, resetChanged)
    case _ => Result(x, None, InvalidPhase)
  }

  function ConfigurePort(x: Driver, port: nat, connected: bool): Result
    requires port < PORTS
  {
    if x.phase[port] == NotConnected then ResetPort(x, port, connected) else Result(x, None, Success)
  }

  // ---------------------------------------------------------------- events and runs

  datatype Event =
    | PortConfigured(port: nat, connected: bool)
    | PortChanged(port: nat, connected: bool, enabled: bool, resetChanged: bool)
    | EnableSlotDone(slot: nat, base: Address, buffer: Address)
    | AddressDeviceDone(slot: nat, connectedPorts: set<nat>)
    | ConfigureEndpointDone(slot: nat)
    | ControlDone(slot: nat, code: nat, residual: nat, answer: seq<Descriptor>, speed: nat, at: seq<Address>)
    | InterruptFinished(slot: nat)              // by the controller, no handler yet
    | InterruptDone(slot: nat, speed: nat, at: seq<Address>)

  /** The driver, the outstanding commands, and which port has issued which kind of command. */
  datatype System = System(
    x: Driver, commands: multiset<Command>, issued: multiset<(nat, CommandKind)>, maxPorts: nat)

  function NewSystem(maxPorts: nat): System {
    System(NewDriver(), multiset{}, multiset{}, maxPorts)
  }

  /** Section 4.6.5 of the xHCI specification: a completed Address Device command has copied
      the input slot context to the device context. */
  function CopyContext(x: Driver, slot: nat): Driver {
    if FindBySlot(x, slot).None? then x
    else x.(slots := x.slots[slot := Some(x.slots[slot].value.(contextPort := x.slots[slot].value.inputPort))])
  }

  function FinishOne(x: Driver, slot: nat): Driver {
    if FindBySlot(x, slot).None? || x.slots[slot].value.dev.inFlight == 0 then x
    else x.(slots := x.slots[slot := Some(x.slots[slot].value.(dev := FinishInterrupt(x.slots[slot].value.dev)))])
  }

  predicate InBounds(s: System) {
    s.x.token < PORTS && |s.x.contexts| == MAX_SLOTS + 1 && s.maxPorts < PORTS
  }

  /** What the handler of an event makes of the driver. */
  function Handle(s: System, e: Event): Result
    requires InBounds(s)
  {
    var x := s.x;
    match e
    case PortConfigured(port, c) => if port >= PORTS then Result(x, None, Success) else ConfigurePort(x, port, c)
    case PortChanged(port, c, en, ch) =>
      if port >= PORTS then Result(x, None, Success) else OnPortStatusChange(x, port, c, en, ch)
    case EnableSlotDone(slot, base, buffer) => OnEnableSlotDone(x, slot, base, buffer)
    case AddressDeviceDone(slot, c) => OnAddressDeviceDone(CopyContext(x, slot), slot, c)
    case ConfigureEndpointDone(slot) => OnConfigureEndpointDone(x, slot)
    case ControlDone(slot, code, residual, ds, speed, at) => OnControlTransfer(x, slot, code, residual, ds, speed, at)
    case InterruptFinished(slot) => Result(FinishOne(x, slot), None, Success)
    case InterruptDone(slot, speed, at) => OnInterruptTransfer(x, slot, speed, at)
  }

  /** The command that an event reports as complete. */
  function CompletedBy(e: Event): Option<Command> {
    match e
    case EnableSlotDone(_, _, _) => Some(EnableSlotCommand)
    case AddressDeviceDone(slot, _) => Some(AddressDeviceCommand(slot))
    case ConfigureEndpointDone(slot) => Some(ConfigureEndpointCommand(slot))
    case _ => None
  }

  /** The port on whose behalf a command is issued. */
  function IssuedFor(r: Result): (nat, CommandKind)
    requires r.command.Some?
  {
    match r.command.value
    case EnableSlotCommand => (r.x.token, EnableSlotKind)
    case AddressDeviceCommand(s) => (if FindBySlot(r.x, s).Some? then r.x.slots[s].value.inputPort else 0, AddressDeviceKind)
    case ConfigureEndpointCommand(s) => (if FindBySlot(r.x, s).Some? then r.x.slots[s].value.inputPort else 0, ConfigureEndpointKind)
  }

  function Step(s: System, e: Event): System
    requires InBounds(s)
  {
    var r := Handle(s, e);
    var left := if CompletedBy(e).Some? then s.commands - multiset{CompletedBy(e).value} else s.commands;
    if r.command.None? then System(r.x, left, s.issued, s.maxPorts)
    else System(r.x, left + multiset{r.command.value}, s.issued + multiset{IssuedFor(r)}, s.maxPorts)
  }

  /** What the environment promises about an event. */
  predicate Legal(s: System, e: Event) {
    match e
    case PortConfigured(port, _) => 1 <= port <= s.maxPorts
    case PortChanged(port, _, _, _) => 1 <= port <= s.maxPorts
    case EnableSlotDone(slot, base, _) =>
      EnableSlotCommand in s.commands && 1 <= slot <= MAX_SLOTS && s.x.slots[slot].None? && base % 16 == 0
    case AddressDeviceDone(slot, _) => AddressDeviceCommand(slot) in s.commands
    case ConfigureEndpointDone(slot) => ConfigureEndpointCommand(slot) in s.commands
    case ControlDone(slot, code, _, ds, _, _) =>
      && slot <= MAX_SLOTS && s.x.slots[slot].Some?
      && (code == CODE_SUCCESS || code == CODE_SHORT_PACKET)
      && GoodAnswer(s.x.slots[slot].value.dev, ds)
    case InterruptFinished(slot) =>
      slot <= MAX_SLOTS && s.x.slots[slot].Some? && s.x.slots[slot].value.dev.inFlight > 0
    case InterruptDone(slot, _, _) =>
      slot <= MAX_SLOTS && s.x.slots[slot].Some? && s.x.slots[slot].value.dev.reports > 0
  }

  // ---------------------------------------------------------------- the invariant

  /** The addressing token: exactly the port in one of the three token phases. */
  predicate TokenInv(phase: Phases, token: nat, maxPorts: nat) {
    && maxPorts < PORTS && token <= maxPorts
    && (forall p :: 0 <= p < PORTS ==> (NeedsToken(phase[p]) <==> p == token && token != 0))
    && (forall p :: 0 <= p < PORTS && (p == 0 || p > maxPorts) ==> phase[p] == NotConnected)
  }

  /** Slots and ports: every slot serves its own port, one past kEnablingSlot, and its context
      pointer entry names its own device context. */
  predicate SlotInv(phase: Phases, slots: Slots, contexts: seq<Option<nat>>) {
    && |contexts| == MAX_SLOTS + 1
    && slots[0].None?
    && (forall s :: 0 <= s <= MAX_SLOTS && slots[s].Some? ==>
          var v := slots[s].value;
          && v.inputPort < PORTS && Rank(phase[v.inputPort]) >= 4
          && v.contextPort == (if Rank(phase[v.inputPort]) >= 5 then v.inputPort else 0)
          && contexts[s] == Some(s))
    && (forall s, t :: 0 <= s < t <= MAX_SLOTS && slots[s].Some? && slots[t].Some? ==>
          slots[s].value.inputPort != slots[t].value.inputPort)
  }

  /** Every port past kEnablingSlot has a slot. */
  ghost predicate OwnerInv(phase: Phases, slots: Slots) {
    forall p :: 0 <= p < PORTS && Rank(phase[p]) >= 4 ==> Owned(slots, p)
  }

  ghost predicate Owned(slots: Slots, port: nat) {
    exists s :: 0 <= s <= MAX_SLOTS && slots[s].Some? && slots[s].value.inputPort == port
  }

  /** The commands that the phases say are outstanding. */
  predicate Expected(phase: Phases, slots: Slots, token: nat, c: Command) {
    match c
    case EnableSlotCommand => token < PORTS && phase[token] == EnablingSlot
    case AddressDeviceCommand(s) =>
      && s <= MAX_SLOTS && slots[s].Some? && slots[s].value.inputPort < PORTS
      && phase[slots[s].value.inputPort] == AddressingDevice
    case ConfigureEndpointCommand(s) =>
      && s <= MAX_SLOTS && slots[s].Some? && slots[s].value.inputPort < PORTS
      && phase[slots[s].value.inputPort] == ConfiguringEndpoints
  }

  /** Exactly the expected commands are outstanding, each once. */
  ghost predicate CommandInv(phase: Phases, slots: Slots, token: nat, commands: multiset<Command>) {
    forall c :: commands[c] == if Expected(phase, slots, token, c) then 1 else 0
  }

  /** The rank from which on a port has issued a kind of command. */
  function Threshold(k: CommandKind): nat {
    match k
    case EnableSlotKind => 3
    case AddressDeviceKind => 4
    case ConfigureEndpointKind => 6
  }

  /** Every port has issued each kind of command once, if it has come that far, or never. */
  ghost predicate IssuedInv(phase: Phases, issued: multiset<(nat, CommandKind)>) {
    forall p: nat, k ::
      issued[(p, k)] == if p < PORTS && Rank(phase[p]) >= Threshold(k) then 1 else 0
  }

  /** A port's phase and the state of its device. */
  ghost predicate DeviceMatches(p: Phase, d: Dev) {
    && DeviceRuns.Inv(d)
    && match p
       case AddressingDevice => d.usb.phase == 0
       case InitializingDevice =>
         || (d.usb.phase == 1 && |d.pipe.live| == 1)
         || (d.usb.phase == 2 && |d.pipe.live| <= 1)
         || (d.usb.phase == 3 && |d.pipe.live| == 1)
         || (d.usb.phase == 4 && d.usb.isInitialized && |d.pipe.live| == 0 && d.told == 0)
       case ConfiguringEndpoints => d.usb.phase == 4 && d.told == 0
       case Configured => d.usb.phase == 4
       case _ => false
  }

  ghost predicate DevicesInv(phase: Phases, slots: Slots) {
    forall s :: 0 <= s <= MAX_SLOTS && slots[s].Some? && slots[s].value.inputPort < PORTS ==>
      DeviceMatches(phase[slots[s].value.inputPort], slots[s].value.dev)
  }

  function RankSum(phase: seq<Phase>): nat {
    if phase == [] then 0 else RankSum(phase[..|phase| - 1]) + Rank(phase[|phase| - 1])
  }

  /** The ports whose phase differs. */
  function Moved(from: Phases, to: Phases): set<nat> {
    set p: nat | p < PORTS && from[p] != to[p]
  }

  /** Phases only rise, and every write of a phase raises a port of its own. */
  ghost predicate Rises(x: Driver, x': Driver) {
    && (forall p :: p in Moved(x.phase, x'.phase) ==> Rank(x.phase[p]) < Rank(x'.phase[p]))
    && x'.writes - x.writes == |Moved(x.phase, x'.phase)|
  }

  /** A token in use stays in use, and no port starts to wait for a token that is free. */
  predicate KeepsOffer(x: Driver, x': Driver) {
    x'.token == 0 ==>
      x.token == 0 && forall p :: 0 <= p < PORTS && x'.phase[p] == WaitingAddressed ==> x.phase[p] == WaitingAddressed
  }

  ghost predicate Inv(s: System) {
    var x := s.x;
    && TokenInv(x.phase, x.token, s.maxPorts)
    && SlotInv(x.phase, x.slots, x.contexts)
    && OwnerInv(x.phase, x.slots)
    && CommandInv(x.phase, x.slots, x.token, s.commands)
    && IssuedInv(x.phase, s.issued)
    && DevicesInv(x.phase, x.slots)
    && x.writes <= RankSum(x.phase)
  }

  lemma {:induction false} RankSumUpdate(phase: seq<Phase>, i: nat, p: Phase)
    requires i < |phase|
    ensures RankSum(phase[i := p]) == RankSum(phase) - Rank(phase[i]) + Rank(p)
  {
    var n := |phase| - 1;
    if i < n {
      assert phase[i := p][..n] == phase[..n][i := p];
      RankSumUpdate(phase[..n], i, p);
    } else {
      assert phase[i := p][..n] == phase[..n];
    }
  }

  lemma OneMoves(x: Driver, port: nat, p: Phase, x': Driver)
    requires port < PORTS && x'.phase == x.phase[port := p] && Rank(x.phase[port]) <= Rank(p)
    requires x'.writes == x.writes + if p == x.phase[port] then 0 else 1
    ensures Rises(x, x')
    ensures Moved(x.phase, x'.phase) == if p == x.phase[port] then {} else {port}
  {
    assert Moved(x.phase, x'.phase) == if p == x.phase[port] then {} else {port};
  }

  lemma NothingMoves(x: Driver)
    ensures Rises(x, x) && KeepsOffer(x, x)
  {
    assert Moved(x.phase, x.phase) == {};
  }

  lemma TwoMove(x: Driver, port: nat, p: Phase, w: nat, q: Phase, x': Driver)
    requires port < PORTS && w < PORTS && port != w
    requires Rank(x.phase[port]) < Rank(p) && Rank(x.phase[w]) < Rank(q)
    requires x'.phase == x.phase[port := p][w := q] && x'.writes == x.writes + 2
    ensures Rises(x, x')
  {
    assert Moved(x.phase, x'.phase) == {port, w};
  }

  lemma NewSystemInv(maxPorts: nat)
    requires maxPorts < PORTS
    ensures Inv(NewSystem(maxPorts))
  {
  }

  // A move of a port that has no slot yet.

  /** A port without a slot goes up to kEnablingSlot at most; `token'` is the token then. */
  predicate LowMove(s: System, port: nat, p: Phase, token': nat) {
    && 1 <= port <= s.maxPorts < PORTS
    && Rank(s.x.phase[port]) < Rank(p) <= 3
    && (p == EnablingSlot ==> s.x.phase[port] == ResettingPort)
    && (s.x.phase[port] == ResettingPort ==> p == EnablingSlot)
    && (p == WaitingAddressed ==> s.x.token != 0)
    && (if p == ResettingPort then s.x.token == 0 && token' == port else token' == s.x.token)
  }

  function AfterLowMove(s: System, port: nat, p: Phase, token': nat): System
    requires port < PORTS
  {
    System(SetPhase(s.x, port, p).(token := token'),
           s.commands + (if p == EnablingSlot then multiset{EnableSlotCommand} else multiset{}),
           s.issued + (if p == EnablingSlot then multiset{(port, EnableSlotKind)} else multiset{}),
           s.maxPorts)
  }

  lemma LowMoveToken(s: System, port: nat, p: Phase, token': nat)
    requires Inv(s) && LowMove(s, port, p, token')
    ensures TokenInv(s.x.phase[port := p], token', s.maxPorts)
  {
    hide CommandInv, IssuedInv, DevicesInv, RankSum, SlotInv, OwnerInv;
  }

  lemma LowMoveSlots(s: System, port: nat, p: Phase, token': nat)
    requires Inv(s) && LowMove(s, port, p, token')
    ensures var phase := s.x.phase[port := p];
            && SlotInv(phase, s.x.slots, s.x.contexts)
            && OwnerInv(phase, s.x.slots)
            && DevicesInv(phase, s.x.slots)
  {
    hide CommandInv, IssuedInv, DeviceMatches, RankSum, TokenInv;
    var phase := s.x.phase[port := p];
    forall q | 0 <= q < PORTS && Rank(phase[q]) >= 4 ensures Owned(s.x.slots, q) {
      assert Rank(s.x.phase[q]) >= 4;
    }
  }

  lemma LowMoveCommands(s: System, port: nat, p: Phase, token': nat)
    requires Inv(s) && LowMove(s, port, p, token')
    ensures var s' := AfterLowMove(s, port, p, token');
            && CommandInv(s'.x.phase, s'.x.slots, token', s'.commands)
            && IssuedInv(s'.x.phase, s'.issued)
  {
    hide DevicesInv, DeviceMatches, RankSum, OwnerInv;
    var s' := AfterLowMove(s, port, p, token');
    forall c ensures s'.commands[c] == if Expected(s'.x.phase, s'.x.slots, token', c) then 1 else 0 {
      assert s.commands[c] == if Expected(s.x.phase, s.x.slots, s.x.token, c) then 1 else 0;
    }
  }

  lemma LowMoveKeepsInv(s: System, port: nat, p: Phase, token': nat)
    requires Inv(s) && LowMove(s, port, p, token')
    ensures Inv(AfterLowMove(s, port, p, token'))
    ensures Rises(s.x, AfterLowMove(s, port, p, token').x) && token' != 0
  {
    OneMoves(s.x, port, p, AfterLowMove(s, port, p, token').x);
    assert s.x.phase[port] == ResettingPort ==> NeedsToken(s.x.phase[port]);
    LowMoveToken(s, port, p, token');
    LowMoveSlots(s, port, p, token');
    LowMoveCommands(s, port, p, token');
    RankSumUpdate(s.x.phase, port, p);
    hide TokenInv, SlotInv, OwnerInv, CommandInv, IssuedInv, DevicesInv, RankSum;
  }

  // A move of a port together with its slot.

  function CommandOf(p: Phase, slot: nat): multiset<Command> {
    if p == AddressingDevice then multiset{AddressDeviceCommand(slot)}
    else if p == ConfiguringEndpoints then multiset{ConfigureEndpointCommand(slot)}
    else multiset{}
  }

  ghost predicate SlotMove(s: System, slot: nat, p: Phase, dev: Dev) {
    && slot <= MAX_SLOTS && s.x.slots[slot].Some?
    && s.x.slots[slot].value.inputPort < PORTS
    && Rank(s.x.phase[s.x.slots[slot].value.inputPort]) <= Rank(p)
    && (p == AddressingDevice ==> s.x.phase[s.x.slots[slot].value.inputPort] == AddressingDevice)
    && DeviceMatches(p, dev)
  }

  /** The port of `slot` is in phase `p`, its device is `dev`, the token is given up when the
      port no longer needs it, and the outstanding commands follow the phase. */
  function AfterSlotMove(s: System, slot: nat, p: Phase, dev: Dev, writes: nat): System
    requires slot <= MAX_SLOTS && s.x.slots[slot].Some? && s.x.slots[slot].value.inputPort < PORTS
  {
    var (x, port) := (s.x, s.x.slots[slot].value.inputPort);
    var was := x.phase[port];
    System(x.(phase := x.phase[port := p],
              token := if x.token == port && !NeedsToken(p) then 0 else x.token,
              slots := x.slots[slot := Some(Slot(port, if Rank(p) >= 5 then port else 0, dev))],
              writes := writes),
           s.commands - CommandOf(was, slot) + CommandOf(p, slot),
           s.issued + (if Rank(was) < 6 <= Rank(p) then multiset{(port, ConfigureEndpointKind)} else multiset{}),
           s.maxPorts)
  }

  lemma SlotMoveToken(s: System, slot: nat, p: Phase, dev: Dev, writes: nat)
    requires Inv(s) && SlotMove(s, slot, p, dev)
    ensures var s' := AfterSlotMove(s, slot, p, dev, writes);
            TokenInv(s'.x.phase, s'.x.token, s.maxPorts)
  {
    hide CommandInv, IssuedInv, DevicesInv, RankSum, OwnerInv, DeviceMatches;
  }

  lemma SlotMoveSlots(s: System, slot: nat, p: Phase, dev: Dev, writes: nat)
    requires Inv(s) && SlotMove(s, slot, p, dev)
    ensures var s' := AfterSlotMove(s, slot, p, dev, writes);
            SlotInv(s'.x.phase, s'.x.slots, s'.x.contexts) && DevicesInv(s'.x.phase, s'.x.slots)
  {
    hide CommandInv, IssuedInv, RankSum, OwnerInv, DeviceMatches, TokenInv;
  }

  lemma SlotMoveOwner(s: System, slot: nat, p: Phase, dev: Dev, writes: nat)
    requires Inv(s) && SlotMove(s, slot, p, dev)
    ensures var s' := AfterSlotMove(s, slot, p, dev, writes);
            OwnerInv(s'.x.phase, s'.x.slots)
  {
    hide CommandInv, IssuedInv, RankSum, DeviceMatches, TokenInv, DevicesInv;
    var s' := AfterSlotMove(s, slot, p, dev, writes);
    var port := s.x.slots[slot].value.inputPort;
    assert Rank(s.x.phase[port]) >= 4;
    forall q | 0 <= q < PORTS && Rank(s'.x.phase[q]) >= 4 ensures Owned(s'.x.slots, q) {
      assert Owned(s.x.slots, q);
      var t :| 0 <= t <= MAX_SLOTS && s.x.slots[t].Some? && s.x.slots[t].value.inputPort == q;
      assert s'.x.slots[t].Some? && s'.x.slots[t].value.inputPort == q;
    }
  }

  /** Only the commands of the moved slot are expected differently. */
  lemma SlotMoveExpected(phase: Phases, slots: Slots, token: nat, slot: nat, p: Phase, v: Slot, c: Command)
    requires slot <= MAX_SLOTS && slots[slot].Some? && slots[slot].value.inputPort < PORTS
    requires v.inputPort == slots[slot].value.inputPort
    requires forall t :: 0 <= t <= MAX_SLOTS && t != slot && slots[t].Some? ==>
               slots[t].value.inputPort != v.inputPort
    requires phase[0] == NotConnected && v.inputPort != 0
    requires Rank(p) >= 4 && Rank(phase[v.inputPort]) >= 4
    ensures var token' := if token == v.inputPort && !NeedsToken(p) then 0 else token;
            Expected(phase[v.inputPort := p], slots[slot := Some(v)], token', c) <==>
              if c == AddressDeviceCommand(slot) || c == ConfigureEndpointCommand(slot)
              then c in CommandOf(p, slot)
              else Expected(phase, slots, token, c)
    ensures c == AddressDeviceCommand(slot) || c == ConfigureEndpointCommand(slot) ==>
              (Expected(phase, slots, token, c) <==> c in CommandOf(phase[v.inputPort], slot))
  {
  }

  lemma CommandOfCounts(p: Phase, slot: nat, c: Command)
    ensures CommandOf(p, slot)[c] == if c in CommandOf(p, slot) then 1 else 0
    ensures c in CommandOf(p, slot) ==> c == AddressDeviceCommand(slot) || c == ConfigureEndpointCommand(slot)
  {
  }

  lemma SlotMoveCommands(s: System, slot: nat, p: Phase, dev: Dev, writes: nat)
    requires Inv(s) && SlotMove(s, slot, p, dev)
    ensures var s' := AfterSlotMove(s, slot, p, dev, writes);
            CommandInv(s'.x.phase, s'.x.slots, s'.x.token, s'.commands)
  {
    var s' := AfterSlotMove(s, slot, p, dev, writes);
    hide DevicesInv, OwnerInv, IssuedInv, RankSum, DeviceMatches, Expected, CommandOf;
    forall c ensures s'.commands[c] == if Expected(s'.x.phase, s'.x.slots, s'.x.token, c) then 1 else 0 {
      SlotMoveCommand(s, slot, p, dev, writes, c);
    }
  }

  lemma SlotMoveCommand(s: System, slot: nat, p: Phase, dev: Dev, writes: nat, c: Command)
    requires Inv(s) && SlotMove(s, slot, p, dev)
    ensures var s' := AfterSlotMove(s, slot, p, dev, writes);
            s'.commands[c] == if Expected(s'.x.phase, s'.x.slots, s'.x.token, c) then 1 else 0
  {
    hide DevicesInv, OwnerInv, IssuedInv, RankSum, DeviceMatches, Expected, CommandOf;
    var s' := AfterSlotMove(s, slot, p, dev, writes);
    var was := s.x.phase[s.x.slots[slot].value.inputPort];
    SlotMoveExpected(s.x.phase, s.x.slots, s.x.token, slot, p, s'.x.slots[slot].value, c);
    CommandOfCounts(was, slot, c);
    CommandOfCounts(p, slot, c);
    assert s.commands[c] == if Expected(s.x.phase, s.x.slots, s.x.token, c) then 1 else 0;
    assert s'.commands[c] == s.commands[c] - CommandOf(was, slot)[c] + CommandOf(p, slot)[c];
  }

  lemma SlotMoveIssued(s: System, slot: nat, p: Phase, dev: Dev, writes: nat)
    requires Inv(s) && SlotMove(s, slot, p, dev)
    ensures var s' := AfterSlotMove(s, slot, p, dev, writes);
            IssuedInv(s'.x.phase, s'.issued)
  {
    hide RankSum, DeviceMatches, DevicesInv, OwnerInv, CommandInv, Expected, CommandOf;
  }

  lemma SlotMoveKeepsInv(s: System, slot: nat, p: Phase, dev: Dev, writes: nat)
    requires Inv(s) && SlotMove(s, slot, p, dev)
    requires writes == s.x.writes + if p == s.x.phase[s.x.slots[slot].value.inputPort] then 0 else 1
    ensures var s' := AfterSlotMove(s, slot, p, dev, writes);
            && Inv(s') && Rises(s.x, s'.x)
            && (s.x.token != s.x.slots[slot].value.inputPort || NeedsToken(p) ==> KeepsOffer(s.x, s'.x))
  {
    OneMoves(s.x, s.x.slots[slot].value.inputPort, p, AfterSlotMove(s, slot, p, dev, writes).x);
    SlotMoveToken(s, slot, p, dev, writes);
    SlotMoveSlots(s, slot, p, dev, writes);
    SlotMoveOwner(s, slot, p, dev, writes);
    SlotMoveCommands(s, slot, p, dev, writes);
    SlotMoveIssued(s, slot, p, dev, writes);
    RankSumUpdate(s.x.phase, s.x.slots[slot].value.inputPort, p);
    hide TokenInv, SlotInv, OwnerInv, CommandInv, IssuedInv, DevicesInv, RankSum, SlotMove;
  }

  // A port gets its slot.

  function AfterAddSlot(s: System, slot: nat, base: Address, buffer: Address): System
    requires slot <= MAX_SLOTS && s.x.token < PORTS && |s.x.contexts| == MAX_SLOTS + 1
  {
    var (x, port) := (s.x, s.x.token);
    System(Driver(x.phase[port := AddressingDevice], port,
                  x.slots[slot := Some(Slot(port, 0, NewDev(base, buffer)))],
                  x.contexts[slot := Some(slot)], x.writes + 1),
           s.commands - multiset{EnableSlotCommand} + multiset{AddressDeviceCommand(slot)},
           s.issued + multiset{(port, AddressDeviceKind)},
           s.maxPorts)
  }

  predicate MayAddSlot(s: System, slot: nat, base: Address) {
    && 1 <= slot <= MAX_SLOTS && s.x.slots[slot].None? && base % 16 == 0
    && s.x.token < PORTS && s.x.phase[s.x.token] == EnablingSlot
  }

  lemma AddSlotSlots(s: System, slot: nat, base: Address, buffer: Address)
    requires Inv(s) && MayAddSlot(s, slot, base)
    ensures var x' := AfterAddSlot(s, slot, base, buffer).x;
            && TokenInv(x'.phase, x'.token, s.maxPorts)
            && SlotInv(x'.phase, x'.slots, x'.contexts)
            && DevicesInv(x'.phase, x'.slots)
  {
    NewDevInv(base, buffer);
    hide CommandInv, IssuedInv, RankSum, OwnerInv, DeviceRuns.Inv, NewDev;
  }

  lemma AddSlotOwner(s: System, slot: nat, base: Address, buffer: Address)
    requires Inv(s) && MayAddSlot(s, slot, base)
    ensures var x' := AfterAddSlot(s, slot, base, buffer).x;
            OwnerInv(x'.phase, x'.slots)
  {
    hide CommandInv, IssuedInv, RankSum, DeviceMatches, NewDev, TokenInv;
    var x' := AfterAddSlot(s, slot, base, buffer).x;
    forall q | 0 <= q < PORTS && Rank(x'.phase[q]) >= 4 ensures Owned(x'.slots, q) {
      if q == s.x.token {
        assert x'.slots[slot].Some? && x'.slots[slot].value.inputPort == q;
      } else {
        assert Owned(s.x.slots, q);
        var t :| 0 <= t <= MAX_SLOTS && s.x.slots[t].Some? && s.x.slots[t].value.inputPort == q;
        assert x'.slots[t].Some? && x'.slots[t].value.inputPort == q;
      }
    }
  }

  lemma AddSlotCommands(s: System, slot: nat, base: Address, buffer: Address)
    requires Inv(s) && MayAddSlot(s, slot, base)
    ensures var s' := AfterAddSlot(s, slot, base, buffer);
            CommandInv(s'.x.phase, s'.x.slots, s'.x.token, s'.commands)
  {
    hide RankSum, DevicesInv, OwnerInv, IssuedInv, NewDev, Expected;
    var s' := AfterAddSlot(s, slot, base, buffer);
    forall c ensures s'.commands[c] == if Expected(s'.x.phase, s'.x.slots, s'.x.token, c) then 1 else 0 {
      AddSlotCommand(s, slot, base, buffer, c);
    }
  }

  lemma AddSlotCommand(s: System, slot: nat, base: Address, buffer: Address, c: Command)
    requires Inv(s) && MayAddSlot(s, slot, base)
    ensures var s' := AfterAddSlot(s, slot, base, buffer);
            s'.commands[c] == if Expected(s'.x.phase, s'.x.slots, s'.x.token, c) then 1 else 0
  {
    hide RankSum, DevicesInv, OwnerInv, IssuedInv, NewDev;
    assert s.commands[c] == if Expected(s.x.phase, s.x.slots, s.x.token, c) then 1 else 0;
  }

  lemma AddSlotIssued(s: System, slot: nat, base: Address, buffer: Address)
    requires Inv(s) && MayAddSlot(s, slot, base)
    ensures var s' := AfterAddSlot(s, slot, base, buffer);
            IssuedInv(s'.x.phase, s'.issued)
  {
    hide RankSum, DevicesInv, OwnerInv, CommandInv, SlotInv, NewDev;
  }

  lemma AddSlotKeepsInv(s: System, slot: nat, base: Address, buffer: Address)
    requires Inv(s) && MayAddSlot(s, slot, base)
    ensures Inv(AfterAddSlot(s, slot, base, buffer))
    ensures Rises(s.x, AfterAddSlot(s, slot, base, buffer).x)
    ensures KeepsOffer(s.x, AfterAddSlot(s, slot, base, buffer).x)
  {
    OneMoves(s.x, s.x.token, AddressingDevice, AfterAddSlot(s, slot, base, buffer).x);
    assert s.x.token != 0;
    AddSlotSlots(s, slot, base, buffer);
    AddSlotOwner(s, slot, base, buffer);
    AddSlotCommands(s, slot, base, buffer);
    AddSlotIssued(s, slot, base, buffer);
    RankSumUpdate(s.x.phase, s.x.token, AddressingDevice);
    hide TokenInv, SlotInv, OwnerInv, CommandInv, IssuedInv, DevicesInv, RankSum, NewDev;
  }

  // ---------------------------------------------------------------- which events are refused

  /** A port's status change is accepted by a port that is not connected or is being reset, and by no
      other; a port that is not connected any more stays as it is. */
  lemma PortChangeIsAcceptedExactlyWhen(x: Driver, port: nat, connected: bool, enabled: bool, resetChanged: bool)
    requires port < PORTS
    ensures var r := OnPortStatusChange(x, port, connected, enabled, resetChanged);
            && (r.error == Success <==> x.phase[port] == NotConnected || x.phase[port] == ResettingPort)
            && (r.error != Success ==> r == Result(x, None, InvalidPhase))
            && (r.x != x <==> || (x.phase[port] == NotConnected && connected)
                              || (x.phase[port] == ResettingPort && enabled && resetChanged))
            && (r.command.Some? <==> x.phase[port] == ResettingPort && enabled && resetChanged)
  {
  }

  /** A completed command is accepted exactly when its slot has a device whose port is in the phase that
      waits for it; any other leaves the driver as it is and issues nothing. */
  lemma CompletionIsAcceptedExactlyWhen(x: Driver, slot: nat, base: Address, buffer: Address, connected: set<nat>)
    requires x.token < PORTS && |x.contexts| == MAX_SLOTS + 1
    ensures var r := OnEnableSlotDone(x, slot, base, buffer);
            && (r.error == Success <==> x.phase[x.token] == EnablingSlot && slot <= MAX_SLOTS)
            && (r.error != Success ==> r.x == x && r.command == None)
            && (r.error == Success ==> r.command == Some(AddressDeviceCommand(slot)))
    ensures var r := OnAddressDeviceDone(x, slot, connected);
            && (r.error == Success <==>
                  slot <= MAX_SLOTS && x.slots[slot].Some? && x.slots[slot].value.contextPort == x.token
                  && x.phase[x.token] == AddressingDevice)
            && (r.error != Success ==> r.x == x)
            && r.command == None
    ensures var r := OnConfigureEndpointDone(x, slot);
            && (r.error == Success <==>
                  slot <= MAX_SLOTS && x.slots[slot].Some? && x.slots[slot].value.contextPort < PORTS
                  && x.phase[x.slots[slot].value.contextPort] == ConfiguringEndpoints)
            && (r.error != Success ==> r.x == x)
            && r.command == None
  {
    hide NewDev, NewRing, Start, OnConfigured, LowestWaiting, HandOver;
    HandOverIs(x, connected);
  }

  /** Addressing names the port, gives the default control pipe an empty ring at `base` and the controller
      the slot's own context; a device that is there already keeps everything else. */
  lemma AddressingMeans(x: Driver, slot: nat, base: Address, buffer: Address)
    requires x.token < PORTS && |x.contexts| == MAX_SLOTS + 1
    requires x.phase[x.token] == EnablingSlot && slot <= MAX_SLOTS
    ensures var x' := OnEnableSlotDone(x, slot, base, buffer).x;
            && x'.phase == x.phase[x.token := AddressingDevice] && x'.token == x.token
            && x'.contexts == x.contexts[slot := Some(slot)]
            && (forall i :: 0 <= i <= MAX_SLOTS && i != slot ==> x'.slots[i] == x.slots[i])
            && x'.slots[slot].Some?
            && var (v, ring) := (x'.slots[slot].value, x'.slots[slot].value.dev.pipe.pipe.ring);
               && v.inputPort == x.token && v.dev.pipe.live == []
               && ring.base == base && ring.index == 0 && ring.cycle && |ring.mem| == 32
               && (forall i :: 0 <= i < 32 ==> ring.mem[i] == ZERO_TRB)
               && if x.slots[slot].Some? then
                    var was := x.slots[slot].value;
                    && v.contextPort == was.contextPort && v.dev.usb == was.dev.usb && v.dev.buffer == was.dev.buffer
                    && v.dev.pipe.pipe.table == was.dev.pipe.pipe.table
                  else v.contextPort == 0 && v.dev.buffer == buffer && v.dev.usb.phase == 0 && v.dev.usb.configs == []
  {
  }

  // ---------------------------------------------------------------- events, one by one

  lemma InvInBounds(s: System)
    requires Inv(s)
    ensures InBounds(s)
  {
  }

  /** The slot of an outstanding command, and where its port and device are. */
  lemma OutstandingMeans(s: System, c: Command)
    requires Inv(s) && c in s.commands
    ensures c.EnableSlotCommand? ==>
              1 <= s.x.token <= s.maxPorts && s.x.phase[s.x.token] == EnablingSlot
    ensures !c.EnableSlotCommand? ==>
              && 1 <= c.slot <= MAX_SLOTS && s.x.slots[c.slot].Some?
              && var v := s.x.slots[c.slot].value;
                 && 1 <= v.inputPort <= s.maxPorts
                 && DeviceMatches(s.x.phase[v.inputPort], v.dev)
                 && if c.AddressDeviceCommand? then
                      s.x.phase[v.inputPort] == AddressingDevice && v.inputPort == s.x.token
                    else
                      s.x.phase[v.inputPort] == ConfiguringEndpoints && v.contextPort == v.inputPort
  {
    assert Expected(s.x.phase, s.x.slots, s.x.token, c);
    hide IssuedInv, RankSum, OwnerInv, DeviceMatches, CommandInv;
    if !c.EnableSlotCommand? { assert NeedsToken(AddressingDevice); }
  }

  /** The slot of a device that has an event. */
  lemma SlotMeans(s: System, slot: nat)
    requires Inv(s) && slot <= MAX_SLOTS && s.x.slots[slot].Some?
    ensures var v := s.x.slots[slot].value;
            && 1 <= v.inputPort <= s.maxPorts
            && DeviceMatches(s.x.phase[v.inputPort], v.dev)
            && Rank(s.x.phase[v.inputPort]) >= 4
            && (Rank(s.x.phase[v.inputPort]) >= 5 ==> v.contextPort == v.inputPort)
            && (Rank(s.x.phase[v.inputPort]) < 5 ==> v.contextPort == 0)
  {
    hide IssuedInv, RankSum, OwnerInv, DeviceMatches, CommandInv;
  }

  lemma PortEventKeepsInv(s: System, e: Event)
    requires Inv(s) && Legal(s, e) && (e.PortConfigured? || e.PortChanged?)
    ensures InBounds(s) && Inv(Step(s, e))
    ensures Rises(s.x, Step(s, e).x) && KeepsOffer(s.x, Step(s, e).x)
  {
    var (x, port) := (s.x, e.port);
    hide SlotInv, OwnerInv, CommandInv, IssuedInv, DevicesInv, RankSum, Rises, KeepsOffer, AfterLowMove;
    assert NeedsToken(x.phase[port]) <==> port == x.token && x.token != 0;
    var p := if x.phase[port] == ResettingPort then EnablingSlot
             else if x.token != 0 then WaitingAddressed else ResettingPort;
    var token' := if p == ResettingPort then port else x.token;
    InvInBounds(s);
    if (x.phase[port] == NotConnected && e.connected)
       || (x.phase[port] == ResettingPort && e.PortChanged? && e.enabled && e.resetChanged) {
      LowMoveKeepsInv(s, port, p, token');
      PortStepIs(s, e, p, token');
    } else {
      hide Inv;
      assert Step(s, e) == s;
      NothingMoves(s.x);
    }
  }

  lemma PortStepIs(s: System, e: Event, p: Phase, token': nat)
    requires InBounds(s) && (e.PortConfigured? || e.PortChanged?) && 1 <= e.port < PORTS
    requires || (s.x.phase[e.port] == NotConnected && e.connected
                 && if s.x.token != 0 then p == WaitingAddressed && token' == s.x.token
                    else p == ResettingPort && token' == e.port)
             || (s.x.phase[e.port] == ResettingPort && e.PortChanged? && e.enabled && e.resetChanged
                 && p == EnablingSlot && token' == s.x.token == e.port)
    ensures Step(s, e) == AfterLowMove(s, e.port, p, token')
  {
  }

  lemma EnableSlotDoneKeepsInv(s: System, e: Event)
    requires Inv(s) && Legal(s, e) && e.EnableSlotDone?
    ensures InBounds(s) && Inv(Step(s, e))
    ensures Rises(s.x, Step(s, e).x) && KeepsOffer(s.x, Step(s, e).x)
  {
    hide DeviceRuns.Inv, NewDev, CommandInv, IssuedInv, RankSum, OwnerInv, DevicesInv, SlotInv, Step, AfterAddSlot;
    OutstandingMeans(s, EnableSlotCommand);
    AddSlotKeepsInv(s, e.slot, e.base, e.buffer);
    InvInBounds(s);
    EnableSlotStepIs(s, e);
  }

  lemma EnableSlotStepIs(s: System, e: Event)
    requires InBounds(s) && e.EnableSlotDone? && MayAddSlot(s, e.slot, e.base)
    ensures Step(s, e) == AfterAddSlot(s, e.slot, e.base, e.buffer)
  {
    hide NewDev;
  }

  lemma HandOverIs(x: Driver, connected: set<nat>)
    ensures var (r, w) := (HandOver(x, connected), LowestWaiting(x.phase, 0));
            && r.error == Success && r.command == None
            && r.x == if w < PORTS && w in connected then SetPhase(x.(token := w), w, ResettingPort)
                      else x.(token := 0)
  {
  }

  /** What the Address Device handler does to the driver: the device starts, the token is
      free, and the lowest waiting port, if it is still connected, takes it. */
  lemma AddressHandlerIs(x: Driver, slot: nat, connected: set<nat>)
    requires slot <= MAX_SLOTS && x.slots[slot].Some?
    requires x.slots[slot].value.inputPort == x.token < PORTS && x.phase[x.token] == AddressingDevice
    ensures var (r, w) := (OnAddressDeviceDone(CopyContext(x, slot), slot, connected), LowestWaiting(x.phase, 0));
            var x1 := x.(phase := x.phase[x.token := InitializingDevice], token := 0, writes := x.writes + 1,
                         slots := x.slots[slot := Some(Slot(x.token, x.token, Start(x.slots[slot].value.dev)))]);
            && r.error == Success && r.command == None
            && r.x == if w < PORTS && w in connected then SetPhase(x1.(token := w), w, ResettingPort) else x1
  {
    hide Start, HandOver, LowestWaiting, Rank;
    var port, w, y := x.token, LowestWaiting(x.phase, 0), CopyContext(x, slot);
    HandOverIs(y, connected);
    if w < PORTS {
      assert x.phase[w := ResettingPort][port := InitializingDevice]
          == x.phase[port := InitializingDevice][w := ResettingPort];
    }
  }

  lemma RankOfInitializing()
    ensures Rank(AddressingDevice) == 4 && Rank(InitializingDevice) == 5
  {
  }

  /** The same, as a step of the system. */
  lemma AddressStepIs(s: System, e: Event)
    requires InBounds(s) && e.AddressDeviceDone?
    requires e.slot <= MAX_SLOTS && s.x.slots[e.slot].Some?
    requires s.x.slots[e.slot].value.inputPort == s.x.token != 0
    requires s.x.phase[s.x.token] == AddressingDevice
    ensures var s1 := AfterSlotMove(s, e.slot, InitializingDevice, Start(s.x.slots[e.slot].value.dev), s.x.writes + 1);
            var w := LowestWaiting(s.x.phase, 0);
            Step(s, e) == if w < PORTS && w in e.connectedPorts then AfterLowMove(s1, w, ResettingPort, w) else s1
  {
    hide Start, OnAddressDeviceDone, LowestWaiting, CopyContext, Rank;
    AddressHandlerIs(s.x, e.slot, e.connectedPorts);
    assert Rank(InitializingDevice) == 5 by { RankOfInitializing(); }
  }

  lemma AddressDeviceDoneKeepsInv(s: System, e: Event)
    requires Inv(s) && Legal(s, e) && e.AddressDeviceDone?
    ensures InBounds(s) && Inv(Step(s, e))
  {
    OutstandingMeans(s, AddressDeviceCommand(e.slot));
    InvInBounds(s);
    AddressStepIs(s, e);
    StartedKeepsInv(s, e.slot);
    hide Inv, Start, Step, AfterSlotMove, AfterLowMove, DeviceMatches;
    var w := LowestWaiting(s.x.phase, 0);
    if w < PORTS && w in e.connectedPorts { OfferedKeepsInv(s, e.slot, w); }
  }

  lemma DeviceStarts(d: Dev)
    requires DeviceMatches(AddressingDevice, d)
    ensures DeviceMatches(InitializingDevice, Start(d))
  {
    hide DeviceRuns.Inv, Start;
    StartKeepsInv(d);
  }

  /** The addressed device starts and its port gives up the token. */
  lemma StartedKeepsInv(s: System, slot: nat)
    requires Inv(s) && slot <= MAX_SLOTS && s.x.slots[slot].Some? && s.x.slots[slot].value.inputPort < PORTS
    requires s.x.phase[s.x.slots[slot].value.inputPort] == AddressingDevice
    ensures Inv(AfterSlotMove(s, slot, InitializingDevice, Start(s.x.slots[slot].value.dev), s.x.writes + 1))
  {
    SlotMeans(s, slot);
    hide DeviceMatches, Start, Inv, AfterSlotMove;
    var v := s.x.slots[slot].value;
    DeviceStarts(v.dev);
    assert SlotMove(s, slot, InitializingDevice, Start(v.dev));
    SlotMoveKeepsInv(s, slot, InitializingDevice, Start(v.dev), s.x.writes + 1);
  }

  /** The lowest waiting port takes the free token. */
  lemma OfferedKeepsInv(s: System, slot: nat, w: nat)
    requires Inv(s) && slot <= MAX_SLOTS && s.x.slots[slot].Some?
    requires s.x.slots[slot].value.inputPort == s.x.token < PORTS && s.x.phase[s.x.token] == AddressingDevice
    requires w < PORTS && s.x.phase[w] == WaitingAddressed
    ensures var s1 := AfterSlotMove(s, slot, InitializingDevice, Start(s.x.slots[slot].value.dev), s.x.writes + 1);
            Inv(AfterLowMove(s1, w, ResettingPort, w))
  {
    StartedKeepsInv(s, slot);
    SlotMoveLeaves(s, slot, w);
    assert 1 <= w <= s.maxPorts < PORTS by { WaitingIsAPort(s, w); }
    hide Start, Inv, AfterSlotMove, AfterLowMove;
    var s1 := AfterSlotMove(s, slot, InitializingDevice, Start(s.x.slots[slot].value.dev), s.x.writes + 1);
    LowMoveKeepsInv(s1, w, ResettingPort, w);
  }

  lemma WaitingIsAPort(s: System, w: nat)
    requires Inv(s) && w < PORTS && s.x.phase[w] == WaitingAddressed
    ensures 1 <= w <= s.maxPorts < PORTS
  {
    hide CommandInv, IssuedInv, RankSum, OwnerInv, DevicesInv, SlotInv;
  }

  lemma AddressHandlerRises(x: Driver, slot: nat, connected: set<nat>)
    requires slot <= MAX_SLOTS && x.slots[slot].Some?
    requires x.slots[slot].value.inputPort == x.token < PORTS && x.phase[x.token] == AddressingDevice
    ensures Rises(x, OnAddressDeviceDone(CopyContext(x, slot), slot, connected).x)
  {
    AddressHandlerIs(x, slot, connected);
    hide Start, OnAddressDeviceDone, CopyContext, LowestWaiting, Rises;
    var x', w := OnAddressDeviceDone(CopyContext(x, slot), slot, connected).x, LowestWaiting(x.phase, 0);
    if w < PORTS && w in connected {
      TwoMove(x, x.token, InitializingDevice, w, ResettingPort, x');
    } else {
      OneMoves(x, x.token, InitializingDevice, x');
    }
  }

  lemma AddressDeviceDoneRises(s: System, e: Event)
    requires Inv(s) && Legal(s, e) && e.AddressDeviceDone?
    ensures InBounds(s) && Rises(s.x, Step(s, e).x)
  {
    InvInBounds(s);
    OutstandingMeans(s, AddressDeviceCommand(e.slot));
    AddressHandlerRises(s.x, e.slot, e.connectedPorts);
    hide Inv, Legal, OnAddressDeviceDone, CopyContext, Rises;
  }

  lemma SlotMoveLeaves(s: System, slot: nat, w: nat)
    requires slot <= MAX_SLOTS && s.x.slots[slot].Some? && s.x.slots[slot].value.inputPort == s.x.token < PORTS
    requires w < PORTS && w != s.x.token
    ensures var s1 := AfterSlotMove(s, slot, InitializingDevice, Start(s.x.slots[slot].value.dev), s.x.writes + 1);
            s1.x.token == 0 && s1.x.phase[w] == s.x.phase[w] && s1.maxPorts == s.maxPorts
  {
    hide Start;
  }

  lemma ConfigureHandlerIs(x: Driver, slot: nat)
    requires slot <= MAX_SLOTS && x.slots[slot].Some?
    requires var v := x.slots[slot].value;
             v.inputPort == v.contextPort < PORTS && x.phase[v.inputPort] == ConfiguringEndpoints
    ensures var v := x.slots[slot].value;
            OnConfigureEndpointDone(x, slot)
            == Result(x.(phase := x.phase[v.inputPort := Configured],
                         slots := x.slots[slot := Some(Slot(v.inputPort, v.inputPort, OnConfigured(v.dev)))],
                         writes := x.writes + 1), None, Success)
  {
    hide OnConfigured;
  }

  lemma ConfigureStepIs(s: System, e: Event)
    requires InBounds(s) && e.ConfigureEndpointDone?
    requires e.slot <= MAX_SLOTS && s.x.slots[e.slot].Some?
    requires var v := s.x.slots[e.slot].value;
             1 <= v.inputPort == v.contextPort < PORTS && s.x.phase[v.inputPort] == ConfiguringEndpoints
             && s.x.token != v.inputPort
    ensures Step(s, e) ==
            AfterSlotMove(s, e.slot, Configured, OnConfigured(s.x.slots[e.slot].value.dev), s.x.writes + 1)
  {
    hide OnConfigured, OnConfigureEndpointDone, Handle, CommandOf, Rank, NeedsToken;
    ConfigureHandlerIs(s.x, e.slot);
    ConfigureHandled(s, e);
    ConfigureMeans(e.slot);
    assert s.commands - multiset{ConfigureEndpointCommand(e.slot)} + multiset{}
        == s.commands - multiset{ConfigureEndpointCommand(e.slot)};
    assert s.issued + multiset{} == s.issued;
  }

  lemma ConfigureHandled(s: System, e: Event)
    requires InBounds(s) && e.ConfigureEndpointDone?
    ensures Handle(s, e) == OnConfigureEndpointDone(s.x, e.slot)
  {
    hide OnConfigureEndpointDone;
  }

  lemma ConfigureMeans(slot: nat)
    ensures CommandOf(ConfiguringEndpoints, slot) == multiset{ConfigureEndpointCommand(slot)}
    ensures CommandOf(Configured, slot) == multiset{}
    ensures Rank(Configured) >= 6 && Rank(ConfiguringEndpoints) >= 6 && !NeedsToken(Configured)
  {
  }

  lemma ConfigureEndpointDoneKeepsInv(s: System, e: Event)
    requires Inv(s) && Legal(s, e) && e.ConfigureEndpointDone?
    ensures InBounds(s) && Inv(Step(s, e))
    ensures Rises(s.x, Step(s, e).x) && KeepsOffer(s.x, Step(s, e).x)
  {
    hide DeviceRuns.Inv, OnConfigured, CommandInv, IssuedInv, RankSum, OwnerInv, DevicesInv, Step, AfterSlotMove;
    OutstandingMeans(s, ConfigureEndpointCommand(e.slot));
    InvInBounds(s);
    var v := s.x.slots[e.slot].value;
    assert !NeedsToken(s.x.phase[v.inputPort]);
    ConfiguredKeepsInv(v.dev);
    assert SlotMove(s, e.slot, Configured, OnConfigured(v.dev));
    SlotMoveKeepsInv(s, e.slot, Configured, OnConfigured(v.dev), s.x.writes + 1);
    ConfigureStepIs(s, e);
  }

  /** What a control completion does to a device, as its port sees it. */
  lemma DeviceAfterControl(p: Phase, d: Dev, code: nat, residual: nat, ds: seq<Descriptor>)
    requires DeviceMatches(p, d) && GoodAnswer(d, ds)
    requires code == CODE_SUCCESS || code == CODE_SHORT_PACKET
    ensures var d' := OnControlEvent(d, code, residual, ds);
            && DeviceMatches(p, d')
            && (p == InitializingDevice && d'.usb.isInitialized ==> DeviceMatches(ConfiguringEndpoints, d'))
  {
    PhaseFacts(d);
    hide OnControlEvent, PhaseInv, ControlPipes.Inv;
    if d.usb.phase == 1 { DeviceAnswered(d, code, residual, ds); }
    else if d.usb.phase == 2 { ConfigurationAnswered(d, code, residual, ds); }
    else if d.usb.phase == 3 { SetConfigurationAnswered(d, code, residual, ds); }
    else { ProtocolAnswered(d, code, residual, ds); }
    PhaseFacts(OnControlEvent(d, code, residual, ds));
  }

  lemma PhaseFacts(d: Dev)
    requires DeviceRuns.Inv(d)
    ensures d.usb.phase <= 4 && (d.usb.isInitialized <==> d.usb.phase == 4)
    ensures d.usb.phase == 0 ==> d.pipe.live == []
    ensures d.usb.phase == 4 && d.told == 0 ==> d.pipe.live == []
    ensures d.usb.phase < 4 ==> d.told == 0
    ensures |d.pipe.live| <= 15
  {
    var driver :| PhaseInv(d, driver);
  }

  lemma DeviceAfterInterrupt(p: Phase, d: Dev)
    requires DeviceMatches(p, d)
    ensures d.inFlight > 0 ==> DeviceMatches(p, FinishInterrupt(d))
    ensures d.reports > 0 ==> DeviceMatches(p, OnInterruptEvent(d))
    ensures d.reports > 0 ==> p == Configured
  {
    InterruptKeepsInv(d);
    PhaseFacts(d);
    if d.reports > 0 { NoReportsEarly(d); }
    hide DeviceRuns.Inv;
  }

  lemma NoReportsEarly(d: Dev)
    requires DeviceRuns.Inv(d) && d.reports > 0
    ensures d.usb.phase == 4 && d.told > 0
  {
    var driver :| PhaseInv(d, driver);
  }

  /** The port and slot of a device that has an event. */
  predicate SlotAt(x: Driver, slot: nat) {
    && slot <= MAX_SLOTS && x.slots[slot].Some?
    && var v := x.slots[slot].value;
       && 1 <= v.inputPort < PORTS && Rank(x.phase[v.inputPort]) >= 4
       && v.contextPort == (if Rank(x.phase[v.inputPort]) >= 5 then v.inputPort else 0)
       && x.phase[0] == NotConnected
  }

  predicate StartsConfiguring(x: Driver, slot: nat, dev: Dev, speed: nat)
    requires SlotAt(x, slot)
  {
    dev.usb.isInitialized && x.phase[x.slots[slot].value.inputPort] == InitializingDevice
    && 1 <= speed <= SUPER_SPEED_PLUS
  }

  /** The end of a transfer handler: the slot has device `dev`, and the port moves on when
      that device has just become initialized and the port's speed is known. */
  lemma ConfigureIfReadyIs(x: Driver, slot: nat, dev: Dev, speed: nat, at: seq<Address>)
    requires SlotAt(x, slot) && (StartsConfiguring(x, slot, dev, speed) ==> Reprogrammed(dev, at) == dev)
    ensures var v := x.slots[slot].value;
            var x1 := x.(slots := x.slots[slot := Some(v.(dev := dev))]);
            var r := ConfigureIfReady(x1, slot, speed, at);
            if StartsConfiguring(x, slot, dev, speed) then
              r.x == SetPhase(x1, v.inputPort, ConfiguringEndpoints) && r.command == Some(ConfigureEndpointCommand(slot))
            else
              r.x == x1 && r.command == None
  {
    hide Reprogrammed;
    var v := x.slots[slot].value;
    assert x.slots[slot := Some(v.(dev := dev))][slot := Some(v.(dev := dev))] == x.slots[slot := Some(v.(dev := dev))];
  }

  /** The device after a transfer event. */
  function DeviceAfter(d: Dev, e: Event): Dev {
    match e
    case ControlDone(_, code, residual, ds, _, _) => OnControlEvent(d, code, residual, ds)
    case InterruptFinished(_) => if d.inFlight > 0 then FinishInterrupt(d) else d
    case InterruptDone(_, _, _) => if d.reports > 0 then OnInterruptEvent(d) else d
    case _ => d
  }

  /** The handler does not stop at an error code in a device that is being initialized. */
  predicate NotRefused(x: Driver, e: Event)
    requires SlotAt(x, SlotOfEvent(e))
  {
    var v := x.slots[SlotOfEvent(e)].value;
    e.ControlDone? && x.phase[v.inputPort] == InitializingDevice ==>
      ControlError(v.dev, e.code, e.residual, e.answer) == Success
  }

  /** The event does not give the device another control ring. */
  predicate KeepsRing(x: Driver, e: Event)
    requires SlotAt(x, SlotOfEvent(e)) && TransferLegal(x, e)
  {
    var dev := DeviceAfter(x.slots[SlotOfEvent(e)].value.dev, e);
    !e.InterruptFinished? && StartsConfiguring(x, SlotOfEvent(e), dev, e.speed) ==> Reprogrammed(dev, e.at) == dev
  }

  lemma TransferHandlerIs(s: System, e: Event)
    requires InBounds(s) && SlotAt(s.x, SlotOfEvent(e)) && TransferLegal(s.x, e) && NotRefused(s.x, e) && KeepsRing(s.x, e)
    ensures var (x, slot, v) := (s.x, SlotOfEvent(e), s.x.slots[SlotOfEvent(e)].value);
            var dev := DeviceAfter(v.dev, e);
            var x1 := x.(slots := x.slots[slot := Some(v.(dev := dev))]);
            var r := Handle(s, e);
            if !e.InterruptFinished? && StartsConfiguring(x, slot, dev, e.speed) then
              r.x == SetPhase(x1, v.inputPort, ConfiguringEndpoints) && r.command == Some(ConfigureEndpointCommand(slot))
            else
              r.x == x1 && r.command == None
  {
    var (x, slot, v) := (s.x, SlotOfEvent(e), s.x.slots[SlotOfEvent(e)].value);
    var dev := DeviceAfter(v.dev, e);
    if !e.InterruptFinished? { ConfigureIfReadyIs(x, slot, dev, e.speed, e.at); }
    hide Reprogrammed, OnControlEvent, ControlError, FinishInterrupt, OnInterruptEvent, ConfigureIfReady;
  }

  function SlotOfEvent(e: Event): nat {
    match e
    case ControlDone(slot, _, _, _, _, _) => slot
    case InterruptFinished(slot) => slot
    case InterruptDone(slot, _, _) => slot
    case _ => 0
  }

  predicate TransferLegal(x: Driver, e: Event)
    requires SlotAt(x, SlotOfEvent(e))
  {
    var d := x.slots[SlotOfEvent(e)].value.dev;
    match e
    case ControlDone(_, code, _, _, _, _) => code == CODE_SUCCESS || code == CODE_SHORT_PACKET
    case InterruptFinished(_) => d.inFlight > 0
    case InterruptDone(_, _, _) => d.reports > 0
    case _ => false
  }

  lemma TransferStepIs(s: System, e: Event)
    requires InBounds(s) && SlotAt(s.x, SlotOfEvent(e)) && TransferLegal(s.x, e) && NotRefused(s.x, e) && KeepsRing(s.x, e)
    requires var v := s.x.slots[SlotOfEvent(e)].value;
             && (s.x.token == v.inputPort ==> NeedsToken(s.x.phase[v.inputPort]))
             && CommandOf(s.x.phase[v.inputPort], SlotOfEvent(e)) <= s.commands
    ensures var (slot, v) := (SlotOfEvent(e), s.x.slots[SlotOfEvent(e)].value);
            var (was, dev) := (s.x.phase[v.inputPort], DeviceAfter(v.dev, e));
            Step(s, e) == if !e.InterruptFinished? && StartsConfiguring(s.x, slot, dev, e.speed) then
                            AfterSlotMove(s, slot, ConfiguringEndpoints, dev, s.x.writes + 1)
                          else AfterSlotMove(s, slot, was, dev, s.x.writes)
  {
    hide DeviceAfter, Handle, AfterSlotMove, CommandOf, NotRefused, KeepsRing, Rank;
    TransferHandlerIs(s, e);
    var slot := SlotOfEvent(e);
    var dev := DeviceAfter(s.x.slots[slot].value.dev, e);
    if !e.InterruptFinished? && StartsConfiguring(s.x, slot, dev, e.speed) {
      MoveOnIs(s, slot, dev);
    } else {
      StayIs(s, slot, dev);
    }
  }

  /** Only the device of `slot` changes. */
  lemma StayIs(s: System, slot: nat, dev: Dev)
    requires SlotAt(s.x, slot)
    requires var port := s.x.slots[slot].value.inputPort;
             && (s.x.token == port ==> NeedsToken(s.x.phase[port]))
             && CommandOf(s.x.phase[port], slot) <= s.commands
    ensures var v := s.x.slots[slot].value;
            AfterSlotMove(s, slot, s.x.phase[v.inputPort], dev, s.x.writes) ==
            s.(x := s.x.(slots := s.x.slots[slot := Some(v.(dev := dev))]))
  {
    var port := s.x.slots[slot].value.inputPort;
    assert s.x.phase[port := s.x.phase[port]] == s.x.phase;
    assert s.commands - CommandOf(s.x.phase[port], slot) + CommandOf(s.x.phase[port], slot) == s.commands;
    hide CommandOf;
  }

  /** The port of `slot` moves on to the Configure Endpoint command. */
  lemma MoveOnIs(s: System, slot: nat, dev: Dev)
    requires SlotAt(s.x, slot)
    requires var port := s.x.slots[slot].value.inputPort;
             s.x.phase[port] == InitializingDevice && s.x.token != port
    ensures var v := s.x.slots[slot].value;
            AfterSlotMove(s, slot, ConfiguringEndpoints, dev, s.x.writes + 1) ==
            System(SetPhase(s.x.(slots := s.x.slots[slot := Some(v.(dev := dev))]), v.inputPort, ConfiguringEndpoints),
                   s.commands + multiset{ConfigureEndpointCommand(slot)},
                   s.issued + multiset{(v.inputPort, ConfigureEndpointKind)}, s.maxPorts)
  {
  }

  /** What an event of a device does to the system. */
  lemma TransferStepOf(s: System, e: Event)
    requires Inv(s) && Legal(s, e) && (e.ControlDone? || e.InterruptFinished? || e.InterruptDone?)
    ensures InBounds(s) && SlotAt(s.x, SlotOfEvent(e))
    ensures var (slot, v) := (SlotOfEvent(e), s.x.slots[SlotOfEvent(e)].value);
            var (was, dev) := (s.x.phase[v.inputPort], DeviceAfter(v.dev, e));
            && DeviceMatches(was, dev) && (NeedsToken(was) <==> s.x.token == v.inputPort)
            && if !e.InterruptFinished? && StartsConfiguring(s.x, slot, dev, e.speed) then
                 && DeviceMatches(ConfiguringEndpoints, dev)
                 && Step(s, e) == AfterSlotMove(s, slot, ConfiguringEndpoints, dev, s.x.writes + 1)
               else Step(s, e) == AfterSlotMove(s, slot, was, dev, s.x.writes)
  {
    hide DeviceRuns.Inv, DeviceAfter, IssuedInv, RankSum, OwnerInv, DevicesInv, Step, AfterSlotMove, SlotInv, GoodAnswer, Reprogrammed;
    var slot := SlotOfEvent(e);
    InvInBounds(s);
    SlotMeans(s, slot);
    var v := s.x.slots[slot].value;
    var was, dev := s.x.phase[v.inputPort], DeviceAfter(v.dev, e);
    assert NeedsToken(was) <==> s.x.token == v.inputPort;
    assert CommandOf(was, slot) <= s.commands by { ExpectedOutstanding(s, was, slot); }
    assert DeviceMatches(was, dev)
           && (was == InitializingDevice && !e.InterruptFinished? && dev.usb.isInitialized ==> DeviceMatches(ConfiguringEndpoints, dev)) by {
      DeviceAfterEvent(was, v.dev, e);
    }
    assert NotRefused(s.x, e) by { NeverRefused(was, v.dev, e); }
    assert KeepsRing(s.x, e) by {
      if !e.InterruptFinished? && StartsConfiguring(s.x, slot, dev, e.speed) { RingStays(dev, e.at); }
    }
    TransferStepIs(s, e);
  }

  lemma TransferKeepsInv(s: System, e: Event)
    requires Inv(s) && Legal(s, e) && (e.ControlDone? || e.InterruptFinished? || e.InterruptDone?)
    ensures InBounds(s) && Inv(Step(s, e))
    ensures Rises(s.x, Step(s, e).x) && KeepsOffer(s.x, Step(s, e).x)
  {
    hide DeviceMatches, DeviceAfter, IssuedInv, RankSum, OwnerInv, DevicesInv, Step, AfterSlotMove, SlotInv, CommandInv, TokenInv;
    TransferStepOf(s, e);
    var slot := SlotOfEvent(e);
    var v := s.x.slots[slot].value;
    var was, dev := s.x.phase[v.inputPort], DeviceAfter(v.dev, e);
    if !e.InterruptFinished? && StartsConfiguring(s.x, slot, dev, e.speed) {
      SlotMoveKeepsInv(s, slot, ConfiguringEndpoints, dev, s.x.writes + 1);
    } else {
      SlotMoveKeepsInv(s, slot, was, dev, s.x.writes);
    }
  }

  lemma RingStays(d: Dev, at: seq<Address>)
    requires DeviceMatches(ConfiguringEndpoints, d)
    ensures Reprogrammed(d, at) == d
  {
    InvIsReprogrammed(d, at);
    hide DeviceRuns.Inv, Reprogrammed;
  }

  lemma NeverRefused(p: Phase, d: Dev, e: Event)
    requires DeviceMatches(p, d)
    requires e.ControlDone? ==> GoodAnswer(d, e.answer) && (e.code == CODE_SUCCESS || e.code == CODE_SHORT_PACKET)
    ensures e.ControlDone? && p == InitializingDevice ==> ControlError(d, e.code, e.residual, e.answer) == Success
  {
    hide ControlError, DeviceRuns.Inv;
    if e.ControlDone? && p == InitializingDevice { InitializationSucceeds(d, e.code, e.residual, e.answer); }
  }

  lemma ExpectedOutstanding(s: System, was: Phase, slot: nat)
    requires Inv(s) && slot <= MAX_SLOTS && s.x.slots[slot].Some?
    requires s.x.slots[slot].value.inputPort < PORTS && was == s.x.phase[s.x.slots[slot].value.inputPort]
    ensures CommandOf(was, slot) <= s.commands
  {
    hide IssuedInv, RankSum, OwnerInv, DevicesInv, SlotInv, TokenInv;
    assert Expected(s.x.phase, s.x.slots, s.x.token, AddressDeviceCommand(slot)) <==> was == AddressingDevice;
    assert Expected(s.x.phase, s.x.slots, s.x.token, ConfigureEndpointCommand(slot)) <==> was == ConfiguringEndpoints;
  }

  lemma DeviceAfterEvent(p: Phase, d: Dev, e: Event)
    requires DeviceMatches(p, d)
    requires e.ControlDone? ==> GoodAnswer(d, e.answer) && (e.code == CODE_SUCCESS || e.code == CODE_SHORT_PACKET)
    ensures DeviceMatches(p, DeviceAfter(d, e))
    ensures p == InitializingDevice && !e.InterruptFinished? && (e.ControlDone? || e.InterruptDone?)
              && (e.InterruptDone? ==> d.reports > 0) && DeviceAfter(d, e).usb.isInitialized ==>
            DeviceMatches(ConfiguringEndpoints, DeviceAfter(d, e))
  {
    if e.ControlDone? { DeviceAfterControl(p, d, e.code, e.residual, e.answer); }
    DeviceAfterInterrupt(p, d);
    hide DeviceMatches, OnControlEvent;
  }

  /** Every event that the environment may raise keeps the invariant. */
  lemma StepKeepsInv(s: System, e: Event)
    requires Inv(s) && Legal(s, e)
    ensures InBounds(s) && Inv(Step(s, e)) && Rises(s.x, Step(s, e).x)
    ensures !e.AddressDeviceDone? ==> KeepsOffer(s.x, Step(s, e).x)
  {
    hide Inv, Legal, Step, Rises, KeepsOffer;
    match e
    case PortConfigured(_, _) => PortEventKeepsInv(s, e);
    case PortChanged(_, _, _, _) => PortEventKeepsInv(s, e);
    case EnableSlotDone(_, _, _) => EnableSlotDoneKeepsInv(s, e);
    case AddressDeviceDone(_, _) => AddressDeviceDoneKeepsInv(s, e); AddressDeviceDoneRises(s, e);
    case ConfigureEndpointDone(_) => ConfigureEndpointDoneKeepsInv(s, e);
    case _ => TransferKeepsInv(s, e);
  }
}
