/** The driver of the host controller: the event handlers that move the ports, as an object over
    the ports' phases, the token, the device manager and the command ring. */
module Xhci {
  import opened ArrayMaps
  import opened CommandRings
  import opened ControlPipes
  import opened Descriptors
  import opened DeviceManagers
  import opened Devices
  import opened DeviceRuns
  import opened Enumeration
  import opened Errors
  import opened Speeds
  import opened Trbs
  import opened TrbRing

  /** The command ring after a handler that issues this command, if any. */
  function RingAfter(r: Image, c: Option<Command>, context: Address): Image
    requires r.Valid()
  {
    if c.None? then r else PushImage(r, CommandTrb(c.value, context))
  }

  lemma NothingIssued(r: Image, context: Address)
    requires r.Valid()
    ensures RingAfter(r, None, context) == r
  {
  }

  lemma ControlMeans(x: Driver, slot: nat, code: nat, residual: nat, ds: seq<Descriptor>,
                     speed: nat, at: seq<Address>)
    requires FindBySlot(x, slot).Some? && (code == CODE_SUCCESS || code == CODE_SHORT_PACKET)
    ensures var s := x.slots[slot].value;
            var x' := x.(slots := x.slots[slot := Some(s.(dev := DeviceRuns.OnControlEvent(s.dev, code, residual, ds)))]);
            && FindBySlot(x', slot).Some?
            && OnControlTransfer(x, slot, code, residual, ds, speed, at)
               == (if ControlError(s.dev, code, residual, ds) != Success
                   then Result(x', None, ControlError(s.dev, code, residual, ds))
                   else Enumeration.ConfigureIfReady(x', slot, speed, at))
  {
    hide DeviceRuns.OnControlEvent, ControlError, Enumeration.ConfigureIfReady;
  }

  lemma InterruptMeans(x: Driver, slot: nat, speed: nat, at: seq<Address>)
    requires FindBySlot(x, slot).Some? && x.slots[slot].value.dev.reports > 0
    ensures var s := x.slots[slot].value;
            var x' := x.(slots := x.slots[slot := Some(s.(dev := DeviceRuns.OnInterruptEvent(s.dev)))]);
            && FindBySlot(x', slot).Some?
            && OnInterruptTransfer(x, slot, speed, at) == Enumeration.ConfigureIfReady(x', slot, speed, at)
  {
    hide DeviceRuns.OnInterruptEvent, Enumeration.ConfigureIfReady;
  }

  /** A handler has done what the state machine says: the driver, the error code and the command
      ring are those of result `r`. */
  predicate Follows(r: Result, ring: Image, context: Address, x': Driver, err: Error, ring': Image)
    requires ring.Valid()
  {
    x' == r.x && err == r.error && ring' == RingAfter(ring, r.command, context)
  }

  /** The addresses of the memory for the transfer rings of a device. */
  predicate Aligned(at: seq<Address>) {
    |at| == MAX_ENDPOINTS && forall i :: 0 <= i < |at| ==> at[i] % 64 == 0
  }

  class Controller {
    const phase: array<Phase>
    var addressingPort: nat
    const devmgr: DeviceManager
    const cr: Ring
    ghost var writes: nat

    constructor (ring: Ring, manager: DeviceManager)
      requires ring.Valid() && manager.Valid() && manager.owned == {}
      requires forall i :: 0 <= i <= MAX_SLOTS ==> manager.devices[i] == null && manager.contextPointers[i] == None
      ensures Valid() && cr == ring && devmgr == manager && fresh(phase)
      ensures View() == NewDriver()
    {
      phase := new Phase[PORTS](i => NotConnected);
      addressingPort, devmgr, cr, writes := 0, manager, ring, 0;
    }

    ghost predicate Valid()
      reads this, devmgr, devmgr.devices, devmgr.owned, cr
    {
      && phase.Length == PORTS && addressingPort < PORTS
      && devmgr.Valid()
      && cr.Valid()
      && this !in devmgr.owned && phase !in devmgr.owned && cr !in devmgr.owned && cr.buf !in devmgr.owned
    }

    ghost function View(): Driver
      requires Valid()
      reads this, devmgr, devmgr.devices, devmgr.owned, devmgr.contextPointers, cr, phase
    {
      Driver(phase[..], addressingPort, devmgr.View(), devmgr.contextPointers[..], writes)
    }

    /** Everything that a handler may change. */
    ghost function Footprint(): set<object>
      requires Valid()
      reads this, devmgr, devmgr.devices, devmgr.owned, cr
    {
      {this, phase, devmgr.devices, devmgr.contextPointers, cr, cr.buf} + devmgr.owned
    }

    method ResetPort(port: nat, connected: bool) returns (err: Error)
      requires Valid() && port < PORTS
      modifies this, phase
      ensures Valid()
      ensures var r := Enumeration.ResetPort(old(View()), port, connected);
              View() == r.x && err == r.error && r.command == None
    {
      hide DeviceManager.Valid, DeviceManager.View;
      if !connected { return Success; }
      if addressingPort != 0 {
        SetPhaseOf(port, WaitingAddressed);
      } else {
        if phase[port] != NotConnected && phase[port] != WaitingAddressed {
          return InvalidPhase;
        }
        addressingPort := port;
        SetPhaseOf(port, ResettingPort);
      }
      return Success;
    }

    /** A port's next phase and the command that goes with it. */
    method MoveOn(port: nat, p: Phase, c: Command, context: Address)
      requires Valid() && port < PORTS
      modifies this`writes, phase, cr, cr.buf
      ensures Valid() && cr.buf == old(cr.buf)
      ensures View() == SetPhase(old(View()), port, p)
      ensures cr.View() == RingAfter(old(cr.View()), Some(c), context)
    {
      hide DeviceManager.Valid, DeviceManager.View, CommandTrb, PushImage;
      phase[port] := p;
      writes := writes + 1;
      var slot := cr.Push(CommandTrb(c, context));
    }

    method EnableSlot(port: nat, enabled: bool, resetChanged: bool) returns (err: Error)
      requires Valid() && port < PORTS
      modifies this`writes, phase, cr, cr.buf
      ensures Valid() && cr.buf == old(cr.buf)
      ensures var r := Enumeration.EnableSlot(old(View()), port, enabled, resetChanged);
              && View() == r.x && err == r.error
              && cr.View() == RingAfter(old(cr.View()), r.command, 0)
    {
      hide DeviceManager.Valid, DeviceManager.View;
      if enabled && resetChanged {
        MoveOn(port, EnablingSlot, EnableSlotCommand, 0);
      }
      return Success;
    }

    /** `base` and `buffer` are where the device's control ring and buffer lie, `context` is where
        its input context lies. */
    method AddressDevice(port: nat, slot: nat, speed: nat, base: Address, buffer: Address, context: Address) returns (err: Error)
      requires Valid() && port < PORTS && base % 64 == 0
      modifies Footprint(), devmgr`owned
      ensures Valid() && cr.buf == old(cr.buf) && fresh(devmgr.owned - old(devmgr.owned))
      ensures var r := Enumeration.AddressDevice(old(View()), port, slot, base, buffer);
              && View() == r.x && err == r.error
              && cr.View() == RingAfter(old(cr.View()), r.command, context)
      ensures err == Success ==> slot <= MAX_SLOTS && devmgr.ControlContextIs(slot, speed, base)
    {
      hide DeviceManager.Valid, DeviceManager.View, DeviceManager.ControlContextIs, NewDev, NewRing, CommandTrb, PushImage;
      devmgr.Outside();
      var found := devmgr.PrepareSlot(slot, port, speed, base, buffer);
      if !found { return InvalidSlotId; }
      MoveOn(port, AddressingDevice, AddressDeviceCommand(slot), context);
      return Success;
    }

    method SetPhaseOf(port: nat, p: Phase)
      requires Valid() && port < PORTS
      modifies this`writes, phase
      ensures Valid() && View() == SetPhase(old(View()), port, p)
    {
      hide DeviceManager.Valid, DeviceManager.View;
      phase[port] := p;
      writes := writes + 1;
    }

    method InitializeDevice(port: nat, slot: nat) returns (err: Error)
      requires Valid() && port < PORTS
      modifies this`writes, phase, devmgr.owned
      ensures Valid()
      ensures var r := Enumeration.InitializeDevice(old(View()), port, slot);
              View() == r.x && err == r.error && r.command == None
    {
      hide DeviceManager.Valid, DeviceManager.View, DeviceRuns.Start;
      devmgr.Outside();
      var found := devmgr.FindBySlot(slot);
      if found == null { return InvalidSlotId; }
      SetPhaseOf(port, InitializingDevice);
      StartSlot(slot);
      return Success;
    }

    method StartSlot(slot: nat)
      requires Valid() && slot <= MAX_SLOTS && devmgr.devices[slot] != null
      modifies devmgr.owned
      ensures Valid()
      ensures var s := old(View()).slots[slot].value;
              View() == old(View()).(slots := old(View()).slots[slot := Some(s.(dev := DeviceRuns.Start(s.dev)))])
    {
      hide DeviceManager.Valid, DeviceManager.View, DeviceRuns.Start;
      devmgr.Outside();
      devmgr.StartDevice(slot);
    }

    method CompleteConfiguration(port: nat, slot: nat) returns (err: Error)
      requires Valid() && port < PORTS
      modifies this`writes, phase, devmgr.owned
      ensures Valid()
      ensures var r := Enumeration.CompleteConfiguration(old(View()), port, slot);
              View() == r.x && err == r.error && r.command == None
    {
      hide DeviceManager.Valid, DeviceManager.View, OnConfigured;
      devmgr.Outside();
      var found := devmgr.FindBySlot(slot);
      if found == null { return InvalidSlotId; }
      ConfigureSlot(slot);
      SetPhaseOf(port, Configured);
      return Success;
    }

    method ConfigureSlot(slot: nat)
      requires Valid() && slot <= MAX_SLOTS && devmgr.devices[slot] != null
      modifies devmgr.owned
      ensures Valid()
      ensures var s := old(View()).slots[slot].value;
              View() == old(View()).(slots := old(View()).slots[slot := Some(s.(dev := OnConfigured(s.dev)))])
    {
      hide DeviceManager.Valid, DeviceManager.View, OnConfigured;
      devmgr.Outside();
      devmgr.ConfigureDevice(slot);
    }

    method ConfigurePort(port: nat, connected: bool) returns (err: Error)
      requires Valid() && port < PORTS
      modifies this, phase
      ensures Valid()
      ensures var r := Enumeration.ConfigurePort(old(View()), port, connected);
              View() == r.x && err == r.error && r.command == None
    {
      hide DeviceManager.Valid, DeviceManager.View;
      if phase[port] == NotConnected {
        err := ResetPort(port, connected);
        return;
      }
      return Success;
    }

    method OnPortStatusChange(port: nat, connected: bool, enabled: bool, resetChanged: bool) returns (err: Error)
      requires Valid() && port < PORTS
      modifies this, phase, cr, cr.buf
      ensures Valid() && cr.buf == old(cr.buf)
      ensures var r := Enumeration.OnPortStatusChange(old(View()), port, connected, enabled, resetChanged);
              && View() == r.x && err == r.error
              && cr.View() == RingAfter(old(cr.View()), r.command, 0)
    {
      hide DeviceManager.Valid, DeviceManager.View;
      match phase[port]
      case NotConnected => err := ResetPort(port, connected);
      case ResettingPort => err := EnableSlot(port, enabled, resetChanged);
      case _ => err := InvalidPhase;
    }

    /** The scan of all ports for the lowest one that waits, after the token is released. */
    method HandOver(connected: set<nat>) returns (err: Error)
      requires Valid()
      modifies this, phase
      ensures Valid()
      ensures var r := Enumeration.HandOver(old(View()), connected);
              View() == r.x && err == r.error && r.command == None
    {
      hide DeviceManager.Valid, DeviceManager.View;
      addressingPort := 0;
      var i := 0;
      while i < PORTS
        invariant i <= PORTS && Valid()
        invariant View() == old(View()).(token := 0)
        invariant LowestWaiting(phase[..], 0) == LowestWaiting(phase[..], i)
      {
        if phase[i] == WaitingAddressed {
          err := ResetPort(i, i in connected);
          return;
        }
        i := i + 1;
      }
      return Success;
    }

    /** The completion of an Address Device command. */
    method OnAddressDevice(slot: nat, connected: set<nat>) returns (err: Error)
      requires Valid()
      modifies this, phase, devmgr.owned
      ensures Valid()
      ensures var r := OnAddressDeviceDone(old(View()), slot, connected);
              View() == r.x && err == r.error && r.command == None
    {
      hide DeviceManager.Valid, DeviceManager.View, Enumeration.HandOver, Enumeration.InitializeDevice;
      devmgr.Outside();
      var found := devmgr.FindBySlot(slot);
      if found == null { return InvalidSlotId; }
      devmgr.PortsOf(slot);
      var port := found.contextPort;
      if port != addressingPort { return InvalidPhase; }
      if phase[port] != AddressingDevice { return InvalidPhase; }
      err := HandOver(connected);
      if err != Success { return; }
      err := InitializeDevice(port, slot);
    }

    method OnConfigureEndpoint(slot: nat) returns (err: Error)
      requires Valid()
      modifies this`writes, phase, devmgr.owned
      ensures Valid()
      ensures var r := OnConfigureEndpointDone(old(View()), slot);
              View() == r.x && err == r.error && r.command == None
    {
      hide DeviceManager.Valid, DeviceManager.View, OnConfigured;
      devmgr.Outside();
      var found := devmgr.FindBySlot(slot);
      if found == null { return InvalidSlotId; }
      devmgr.PortsOf(slot);
      var port := found.contextPort;
      if port >= PORTS || phase[port] != ConfiguringEndpoints { return InvalidPhase; }
      err := CompleteConfiguration(port, slot);
    }

    /** `issuer` is the slot of the command ring that the event points at. The type of the
        TRB that lies there decides which command this completes. */
    method OnCommandCompletion(issuer: nat, slot: nat, speed: nat, base: Address, buffer: Address,
                               connected: set<nat>, context: Address) returns (err: Error)
      requires Valid() && issuer < cr.bufSize && base % 64 == 0
      modifies Footprint(), devmgr`owned
      ensures Valid() && cr.buf == old(cr.buf)
      ensures var (x, t) := (old(View()), old(cr.View()).mem[issuer].Type());
              var r := if t == ENABLE_SLOT_TYPE then OnEnableSlotDone(x, slot, base, buffer)
                       else if t == ADDRESS_DEVICE_TYPE then OnAddressDeviceDone(x, slot, connected)
                       else if t == CONFIGURE_ENDPOINT_TYPE then OnConfigureEndpointDone(x, slot)
                       else Result(x, None, InvalidPhase);
              && View() == r.x && err == r.error
              && cr.View() == RingAfter(old(cr.View()), r.command, context)
    {
      hide DeviceManager.Valid, DeviceManager.View, OnAddressDeviceDone, OnConfigureEndpointDone, Enumeration.AddressDevice;
      var issuerType := cr.buf[issuer].Type();
      if issuerType == ENABLE_SLOT_TYPE {
        if phase[addressingPort] != EnablingSlot { return InvalidPhase; }
        err := AddressDevice(addressingPort, slot, speed, base, buffer, context);
      } else if issuerType == ADDRESS_DEVICE_TYPE {
        err := OnAddressDevice(slot, connected);
      } else if issuerType == CONFIGURE_ENDPOINT_TYPE {
        err := OnConfigureEndpoint(slot);
      } else {
        return InvalidPhase;
      }
    }

    /** The endpoint contexts are filled in, the port moves on, and the command is issued. */
    method ConfigureEndpoints(slot: nat, speed: nat, at: seq<Address>, context: Address) returns (err: Error)
      requires Valid() && slot <= MAX_SLOTS && View().slots[slot].Some? && View().slots[slot].value.contextPort < PORTS
      requires Configurable(View().slots[slot].value.dev.usb.configs) && Aligned(at)
      modifies this`writes, phase, cr, cr.buf, devmgr`owned, devmgr.owned
      ensures Valid() && cr.buf == old(cr.buf)
      ensures err == if speed == 0 || speed > SUPER_SPEED_PLUS then UnknownXhciSpeedId else Success
      ensures View() == if err != Success then old(View())
                        else
                          var s := old(View()).slots[slot].value;
                          SetPhase(old(View()).(slots := old(View()).slots[slot := Some(s.(dev := Reprogrammed(s.dev, at)))]),
                                   s.contextPort, ConfiguringEndpoints)
      ensures cr.View() == RingAfter(old(cr.View()), if err != Success then None else Some(ConfigureEndpointCommand(slot)), context)
      ensures devmgr.ContextsAre(slot, err == Success, speed, at)
    {
      hide DeviceManager.Valid, DeviceManager.View, DeviceManager.ContextsAre, Configurable, Reprogrammed, PushImage,
        CommandTrb;
      devmgr.Outside();
      devmgr.PortAt(slot);
      devmgr.PortsOf(slot);
      var port := devmgr.devices[slot].contextPort;
      err := devmgr.ConfigureRings(slot, speed, at);
      devmgr.Outside();
      if err != Success { return; }
      MoveOn(port, ConfiguringEndpoints, ConfigureEndpointCommand(slot), context);
    }

    /** An initialized device is configured, once. */
    method ConfigureIfReady(slot: nat, speed: nat, at: seq<Address>, context: Address) returns (err: Error)
      requires Valid() && slot <= MAX_SLOTS && View().slots[slot].Some?
      requires CanConfigure(View().slots[slot].value.dev) && Aligned(at)
      modifies this`writes, phase, cr, cr.buf, devmgr`owned, devmgr.owned
      ensures Valid() && cr.buf == old(cr.buf)
      ensures Follows(Enumeration.ConfigureIfReady(old(View()), slot, speed, at), old(cr.View()), context, View(), err, cr.View())
    {
      hide DeviceManager.Valid, DeviceManager.View, Configurable, Reprogrammed, PushImage, CommandTrb;
      devmgr.Outside();
      devmgr.PortAt(slot);
      devmgr.PortsOf(slot);
      var dev := devmgr.devices[slot];
      var port := dev.contextPort;
      if port < PORTS && dev.usb.isInitialized && phase[port] == InitializingDevice {
        err := ConfigureEndpoints(slot, speed, at, context);
        return;
      }
      return Success;
    }

    /** A transfer event of a device's default control pipe, for the TRB in slot `trb` of its ring.
        `buf` is the device's buffer after the reply, read as descriptors `ds`; `hidBuffer` is
        where the buffer of a class driver lies that is made for this reply. */
    method OnControlEvent(slot: nat, trb: nat, code: nat, residual: nat, buf: seq<Byte>, ghost ds: seq<Descriptor>,
                          hidBuffer: Address, speed: nat, at: seq<Address>, context: Address) returns (err: Error)
      requires Valid() && Aligned(at)
      requires slot <= MAX_SLOTS && devmgr.devices[slot] != null && (code == CODE_SUCCESS || code == CODE_SHORT_PACKET) ==>
                 && devmgr.devices[slot].Answers(trb, code, buf, ds)
                 && CanConfigure(DeviceRuns.OnControlEvent(devmgr.devices[slot].View(), code, residual, ds))
      modifies this`writes, phase, cr, cr.buf, devmgr`owned, devmgr.owned
      ensures Valid() && cr.buf == old(cr.buf)
      ensures Follows(OnControlTransfer(old(View()), slot, code, residual, ds, speed, at), old(cr.View()), context,
                      View(), err, cr.View())
    {
      hide DeviceManager.Valid, DeviceManager.View, CanConfigure, RingAfter, DeviceRuns.OnControlEvent, ControlError,
        Device.Answers, Enumeration.ConfigureIfReady;
      devmgr.Outside();
      var found := devmgr.FindBySlot(slot);
      NothingIssued(cr.View(), context);
      if found == null { return InvalidSlotId; }
      if code != CODE_SUCCESS && code != CODE_SHORT_PACKET { return TransferFailed; }
      err := Answered(slot, trb, code, residual, buf, ds, hidBuffer, speed, at, context);
    }

    method Answered(slot: nat, trb: nat, code: nat, residual: nat, buf: seq<Byte>, ghost ds: seq<Descriptor>,
                    hidBuffer: Address, speed: nat, at: seq<Address>, context: Address) returns (err: Error)
      requires Valid() && Aligned(at)
      requires FindBySlot(View(), slot).Some? && devmgr.devices[slot] != null
      requires (code == CODE_SUCCESS || code == CODE_SHORT_PACKET) && devmgr.devices[slot].Answers(trb, code, buf, ds)
      requires CanConfigure(DeviceRuns.OnControlEvent(devmgr.devices[slot].View(), code, residual, ds))
      modifies this`writes, phase, cr, cr.buf, devmgr`owned, devmgr.owned
      ensures Valid() && cr.buf == old(cr.buf)
      ensures Follows(OnControlTransfer(old(View()), slot, code, residual, ds, speed, at), old(cr.View()), context,
                      View(), err, cr.View())
    {
      hide DeviceManager.Valid, DeviceManager.View, CanConfigure, RingAfter, DeviceRuns.OnControlEvent, ControlError,
        Device.Answers, Enumeration.ConfigureIfReady, OnControlTransfer;
      ghost var x := View();
      devmgr.Outside();
      ControlMeans(x, slot, code, residual, ds, speed, at);
      NothingIssued(cr.View(), context);
      err := CompleteSlot(slot, trb, code, residual, buf, ds, hidBuffer);
      if err != Success { return; }
      err := ConfigureIfReady(slot, speed, at, context);
    }

    method CompleteSlot(slot: nat, trb: nat, code: nat, residual: nat, buf: seq<Byte>, ghost ds: seq<Descriptor>, hidBuffer: Address)
      returns (err: Error)
      requires Valid() && slot <= MAX_SLOTS && devmgr.devices[slot] != null
      requires devmgr.devices[slot].Answers(trb, code, buf, ds)
      modifies devmgr`owned, devmgr.owned
      ensures Valid() && fresh(devmgr.owned - old(devmgr.owned))
      ensures var s := old(View()).slots[slot].value;
              && View() == old(View()).(slots := old(View()).slots[slot := Some(s.(dev := DeviceRuns.OnControlEvent(s.dev, code, residual, ds)))])
              && err == ControlError(s.dev, code, residual, ds)
    {
      hide DeviceManager.Valid, DeviceManager.View, DeviceRuns.OnControlEvent, ControlError, Device.Answers;
      devmgr.Outside();
      err := devmgr.CompleteControl(slot, trb, code, residual, buf, ds, hidBuffer);
      devmgr.Outside();
    }

    /** A transfer event of a class driver's interrupt-in endpoint. */
    method OnInterruptEvent(slot: nat, trb: nat, code: nat, residual: nat, speed: nat,
                            at: seq<Address>, context: Address)
      returns (err: Error, notified: seq<Byte>)
      requires Valid() && Aligned(at)
      requires slot <= MAX_SLOTS && devmgr.devices[slot] != null ==>
                 && devmgr.devices[slot].Reports(trb, code, residual)
                 && CanConfigure(devmgr.devices[slot].View())
      modifies this`writes, phase, cr, cr.buf, devmgr`owned, devmgr.owned
      ensures Valid() && cr.buf == old(cr.buf)
      ensures Follows(OnInterruptTransfer(old(View()), slot, speed, at), old(cr.View()), context, View(), err, cr.View())
    {
      hide DeviceManager.Valid, DeviceManager.View, CanConfigure, RingAfter, Device.Reports;
      notified := [];
      devmgr.Outside();
      var found := devmgr.FindBySlot(slot);
      NothingIssued(cr.View(), context);
      if found == null { return InvalidSlotId, []; }
      err, notified := Reported(slot, trb, code, residual, speed, at, context);
    }

    method Reported(slot: nat, trb: nat, code: nat, residual: nat, speed: nat,
                    at: seq<Address>, context: Address)
      returns (err: Error, notified: seq<Byte>)
      requires Valid() && Aligned(at)
      requires FindBySlot(View(), slot).Some? && devmgr.devices[slot] != null
      requires devmgr.devices[slot].Reports(trb, code, residual) && CanConfigure(devmgr.devices[slot].View())
      modifies this`writes, phase, cr, cr.buf, devmgr`owned, devmgr.owned
      ensures Valid() && cr.buf == old(cr.buf)
      ensures Follows(OnInterruptTransfer(old(View()), slot, speed, at), old(cr.View()), context, View(), err, cr.View())
    {
      hide DeviceManager.Valid, DeviceManager.View, Configurable, RingAfter, Device.Reports, DeviceRuns.OnInterruptEvent,
        Enumeration.ConfigureIfReady, OnInterruptTransfer;
      ghost var x := View();
      devmgr.Outside();
      devmgr.PortsOf(slot);
      err, notified := HandleReport(slot, trb, code, residual);
      InterruptMeans(x, slot, speed, at);
      err := ConfigureIfReady(slot, speed, at, context);
    }

    method HandleReport(slot: nat, trb: nat, code: nat, residual: nat) returns (err: Error, notified: seq<Byte>)
      requires Valid() && slot <= MAX_SLOTS && devmgr.devices[slot] != null
      requires devmgr.devices[slot].Reports(trb, code, residual)
      modifies devmgr.owned
      ensures Valid()
      ensures var s := old(View()).slots[slot].value;
              && s.dev.reports > 0 && DeviceRuns.OnInterruptEvent(s.dev).usb == s.dev.usb
              && View() == old(View()).(slots := old(View()).slots[slot := Some(s.(dev := DeviceRuns.OnInterruptEvent(s.dev)))])
    {
      hide DeviceManager.Valid, DeviceManager.View, Device.Reports;
      devmgr.Outside();
      err, notified := devmgr.CompleteInterrupt(slot, trb, code, residual);
      devmgr.Outside();
    }
  }
}
