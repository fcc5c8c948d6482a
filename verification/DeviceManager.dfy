/** The device manager: the devices by slot, and the array that tells the controller where their
    contexts are. */
module DeviceManagers {
  import opened ArrayMaps
  import opened ControlPipes
  import opened Descriptors
  import opened Devices
  import opened DeviceRuns
  import Endpoints
  import opened Enumeration
  import opened Errors
  import opened Speeds
  import opened Trbs

  class DeviceManager {
    var devices: array<Device?>
    var contextPointers: array<Option<nat>>
    var maxSlots: nat
    ghost var owned: set<object>   // the devices and what they consist of

    ghost function Parts(d: Device): set<object>
      reads d`lower, d`upper
    {
      {d} + d.lower + d.upper
    }

    /** Every device is whole, and no two have anything in common. */
    ghost predicate DevicesValid()
      reads this`devices, this`owned, devices, owned
    {
      && devices.Length == MAX_SLOTS + 1
      && (forall i :: 0 <= i <= MAX_SLOTS && devices[i] != null ==>
            devices[i] in owned && Parts(devices[i]) <= owned && devices[i].Valid())
      && (forall i, j :: 0 <= i < j <= MAX_SLOTS && devices[i] != null && devices[j] != null ==>
            Parts(devices[i]) !! Parts(devices[j]))
    }

    ghost predicate Valid()
      reads this, devices, owned
    {
      && maxSlots == MAX_SLOTS && contextPointers.Length == MAX_SLOTS + 1
      && this !in owned && devices !in owned && contextPointers !in owned
      && DevicesValid()
    }

    lemma Outside()
      requires Valid()
      ensures this !in owned && devices !in owned && contextPointers !in owned
      ensures devices.Length == contextPointers.Length == MAX_SLOTS + 1
    {
    }

    lemma DevicesAreValid()
      requires Valid()
      ensures DevicesValid()
    {
    }

    ghost function SlotAt(i: nat): Option<Slot>
      requires i <= MAX_SLOTS && DevicesValid()
      reads this`devices, this`owned, devices, owned
    {
      if devices[i] == null then None
      else Some(Slot(devices[i].inputPort, devices[i].contextPort, devices[i].View()))
    }

    ghost function SlotsTo(n: nat): (s: seq<Option<Slot>>)
      requires n <= MAX_SLOTS + 1 && DevicesValid()
      reads this`devices, this`owned, devices, owned
      ensures |s| == n && forall i :: 0 <= i < n ==> s[i] == SlotAt(i)
    {
      if n == 0 then [] else SlotsTo(n - 1) + [SlotAt(n - 1)]
    }

    ghost function View(): (s: Slots)
      requires DevicesValid()
      reads this`devices, this`owned, devices, owned
      ensures forall i :: 0 <= i <= MAX_SLOTS ==> s[i] == SlotAt(i)
    {
      SlotsTo(MAX_SLOTS + 1)
    }

    lemma OwnsItsParts(slot: nat)
      requires Valid() && slot <= MAX_SLOTS && devices[slot] != null
      ensures Parts(devices[slot]) <= owned && devices[slot].Valid() && devices !in Parts(devices[slot])
      ensures View()[slot] == SlotAt(slot) && this !in owned && devices !in owned && contextPointers !in owned
      ensures maxSlots == MAX_SLOTS && contextPointers.Length == MAX_SLOTS + 1 == devices.Length
    {
      hide Device.Valid, Device.View, SlotsTo;
    }

    /** When only the device of one slot changes, and what it gains is new, only its entry of the
        view changes. */
    twostate lemma OneChanged(slot: nat)
      requires old(DevicesValid()) && slot <= MAX_SLOTS && devices == old(devices) && unchanged(devices)
      requires devices[slot] != null && devices[slot].Valid() && owned == old(owned) + Parts(devices[slot])
      requires forall o :: o in old(owned) && o !in old(Parts(devices[slot])) ==> unchanged(o)
      requires forall o :: o in Parts(devices[slot]) ==> o in old(Parts(devices[slot])) || fresh(o)
      ensures DevicesValid() && View() == old(View())[slot := SlotAt(slot)]
    {
      hide Device.Valid, Device.View, SlotsTo;
      forall i | 0 <= i <= MAX_SLOTS && i != slot && devices[i] != null
        ensures devices[i].Valid() && Parts(devices[i]) == old(Parts(devices[i])) && SlotAt(i) == old(SlotAt(i))
      {
        assert forall o :: o in old(Parts(devices[i])) ==> unchanged(o);
      }
    }

    constructor ()
      ensures fresh(devices) && fresh(contextPointers)
    {
      devices, contextPointers, maxSlots := new Device?[0], new Option<nat>[0], 0;
    }

    /** The two arrays, one entry longer than there are slots, start out empty. */
    method Initialize(max: nat)
      modifies this
      ensures maxSlots == max && fresh(devices) && fresh(contextPointers) && owned == {}
      ensures devices.Length == contextPointers.Length == max + 1
      ensures forall i :: 0 <= i <= max ==> devices[i] == null && contextPointers[i] == None
    {
      maxSlots, owned := max, {};
      devices, contextPointers := new Device?[max + 1], new Option<nat>[max + 1];
      var i := 0;
      while i <= max
        invariant i <= max + 1 && maxSlots == max && owned == {}
        invariant fresh(devices) && fresh(contextPointers)
        invariant devices.Length == contextPointers.Length == max + 1
        invariant forall j :: 0 <= j < i ==> devices[j] == null && contextPointers[j] == None
      {
        devices[i], contextPointers[i] := null, None;
        i := i + 1;
      }
    }

    /** The device whose device context names the port: the one in the lowest such slot. */
    method FindByPort(port: nat) returns (slot: Option<nat>)
      requires Valid()
      ensures slot.Some? ==>
                && 1 <= slot.value <= MAX_SLOTS && View()[slot.value].Some?
                && View()[slot.value].value.contextPort == port
      ensures forall i :: 1 <= i <= MAX_SLOTS && View()[i].Some? && View()[i].value.contextPort == port ==>
                slot.Some? && slot.value <= i
    {
      hide Device.Valid, Device.View, SlotsTo;
      var i := 1;
      while i <= maxSlots
        invariant 1 <= i <= MAX_SLOTS + 1
        invariant forall j :: 1 <= j < i && devices[j] != null ==> devices[j].contextPort != port
      {
        if devices[i] != null && devices[i].contextPort == port {
          return Some(i);
        }
        i := i + 1;
      }
      return None;
    }

    method FindBySlot(slot: nat) returns (d: Device?)
      requires Valid()
      ensures d == if slot > MAX_SLOTS then null else devices[slot]
      ensures slot <= MAX_SLOTS ==> (d == null <==> View()[slot].None?)
    {
      if slot > maxSlots { return null; }
      return devices[slot];
    }

    /** `base` and `buffer` are where the new device's control ring and buffer lie. */
    method AllocDevice(slot: nat, base: Address, buffer: Address) returns (err: Error)
      requires Valid() && base % 64 == 0
      modifies this`owned, devices
      ensures Valid() && fresh(owned - old(owned))
      ensures err == if slot > MAX_SLOTS then InvalidSlotId
                     else if old(View())[slot].Some? then AlreadyAllocated else Success
      ensures View() == if err == Success then old(View())[slot := Some(Slot(0, 0, NewDev(base, buffer)))] else old(View())
      ensures slot <= MAX_SLOTS ==> devices[slot] != null
    {
      hide NewDev, Device.Valid, Device.View, Device.Blank, SlotsTo;
      if slot > maxSlots { return InvalidSlotId; }
      if devices[slot] != null { return AlreadyAllocated; }
      var d := NewDevice(base, buffer);
      Store(slot, d);
      return Success;
    }

    method Store(slot: nat, d: Device)
      requires Valid() && slot <= MAX_SLOTS && devices[slot] == null
      requires d.Valid() && Parts(d) !! owned && {this, devices, contextPointers} !! Parts(d)
      modifies this`owned, devices
      ensures Valid() && owned == old(owned) + Parts(d) && devices[slot] == d
      ensures View() == old(View())[slot := Some(Slot(d.inputPort, d.contextPort, d.View()))]
    {
      hide Device.Valid, Device.View, SlotsTo;
      devices[slot] := d;
      owned := owned + Parts(d);
    }

    method NewDevice(base: Address, buffer: Address) returns (d: Device)
      requires base % 64 == 0
      ensures d.Valid() && d.View() == NewDev(base, buffer) && d.inputPort == d.contextPort == 0
      ensures fresh(d) && fresh(d.lower) && fresh(d.upper)
    {
      hide NewDev;
      d := new Device(buffer);
      d.AllocControlRing(base);
    }

    /** The input context of the device asks for the default control pipe with its ring at `base`. */
    ghost predicate ControlContextIs(slot: nat, speed: nat, base: Address)
      requires DevicesValid() && slot <= MAX_SLOTS
      reads this`devices, this`owned, devices, owned
    {
      devices[slot] != null && devices[slot].Addressed(speed, base)
    }

    /** The input context of the slot names the port, and the default control pipe gets its context
        and its ring. */
    method AddressSlot(slot: nat, port: nat, speed: nat, base: Address)
      requires Valid() && slot <= MAX_SLOTS && devices[slot] != null && base % 64 == 0
      modifies this`owned, owned
      ensures Valid() && fresh(owned - old(owned))
      ensures var s := old(View())[slot].value;
              View() == old(View())[slot := Some(s.(inputPort := port, dev := NewRing(s.dev, base)))]
      ensures ControlContextIs(slot, speed, base)
    {
      hide NewRing, DevicesValid, View, ControlContextIs;
      NamePort(slot, port);
      GiveRing(slot, speed, base);
    }

    method NamePort(slot: nat, port: nat)
      requires Valid() && slot <= MAX_SLOTS && devices[slot] != null
      modifies owned
      ensures Valid()
      ensures View() == old(View())[slot := Some(old(View())[slot].value.(inputPort := port))]
    {
      hide Device.Valid, Device.View, SlotsTo;
      devices[slot].RingIsOurs();
      devices[slot].inputPort := port;
    }

    method GiveRing(slot: nat, speed: nat, base: Address)
      requires Valid() && slot <= MAX_SLOTS && devices[slot] != null && base % 64 == 0
      modifies this`owned, owned
      ensures Valid() && fresh(owned - old(owned))
      ensures var s := old(View())[slot].value;
              View() == old(View())[slot := Some(s.(dev := NewRing(s.dev, base)))]
      ensures ControlContextIs(slot, speed, base)
    {
      hide NewRing, Device.Valid, Device.View, Device.Addressed, SlotsTo, DevicesValid, View;
      OwnsItsParts(slot);
      devices[slot].RingIsOurs();
      devices[slot].ReplaceControlRing(speed, base);
      owned := owned + Parts(devices[slot]);
      OneChanged(slot);
    }

    /** Everything that a new address needs of the device manager: a device in the slot, the port in
        its input context, its control ring and the pipe's context, and the entry of its context. */
    method PrepareSlot(slot: nat, port: nat, speed: nat, base: Address, buffer: Address) returns (found: bool)
      requires Valid() && base % 64 == 0
      modifies this`owned, devices, contextPointers, owned
      ensures Valid() && fresh(owned - old(owned)) && found == (slot <= MAX_SLOTS)
      ensures !found ==> View() == old(View()) && contextPointers[..] == old(contextPointers[..])
      ensures found ==> contextPointers[..] == old(contextPointers[..])[slot := Some(slot)]
      ensures found ==> View() == old(View())[slot :=
                Some(if old(View())[slot].None? then Slot(port, 0, NewDev(base, buffer))
                     else old(View())[slot].value.(inputPort := port, dev := NewRing(old(View())[slot].value.dev, base)))]
      ensures found ==> ControlContextIs(slot, speed, base)
    {
      hide Valid, DevicesValid, View, NewDev, NewRing, ControlContextIs;
      Outside();
      DevicesAreValid();
      if slot <= MAX_SLOTS { Prepared(View(), slot, port, base, buffer); }
      found := HaveDevice(slot, base, buffer);
      if !found { return; }
      Outside();
      AddressSlot(slot, port, speed, base);
      Outside();
      var _ := LoadDCBAA(slot);
    }

    method HaveDevice(slot: nat, base: Address, buffer: Address) returns (found: bool)
      requires Valid() && base % 64 == 0
      modifies this`owned, devices
      ensures Valid() && fresh(owned - old(owned)) && found == (slot <= MAX_SLOTS)
      ensures found ==> devices[slot] != null
      ensures View() == if found && old(View())[slot].None? then old(View())[slot := Some(Slot(0, 0, NewDev(base, buffer)))]
                        else old(View())
    {
      hide Valid, View, DevicesValid, NewDev;
      Outside();
      DevicesAreValid();
      var _ := AllocDevice(slot, base, buffer);
      Outside();
      var d := FindBySlot(slot);
      return d != null;
    }

    lemma PortAt(slot: nat)
      requires Valid() && slot <= MAX_SLOTS && View()[slot].Some?
      ensures devices[slot] != null && devices[slot].contextPort == View()[slot].value.contextPort
    {
      hide Device.Valid, Device.View;
    }

    /** What the view shows of a device's ports. */
    lemma PortsOf(slot: nat)
      requires Valid() && slot <= MAX_SLOTS && devices[slot] != null
      ensures View()[slot].Some?
      ensures View()[slot].value.contextPort == devices[slot].contextPort
      ensures View()[slot].value.inputPort == devices[slot].inputPort
      ensures devices[slot] in owned && View()[slot].value.dev == devices[slot].View()
    {
      hide Device.Valid, Device.View;
    }

    method LoadDCBAA(slot: nat) returns (err: Error)
      requires Valid()
      modifies contextPointers
      ensures Valid() && View() == old(View())
      ensures err == if slot > MAX_SLOTS then InvalidSlotId else Success
      ensures contextPointers[..] == if err == Success then old(contextPointers[..])[slot := Some(slot)]
                                     else old(contextPointers[..])
    {
      if slot > maxSlots { return InvalidSlotId; }
      contextPointers[slot] := Some(slot);
      return Success;
    }

    method StartDevice(slot: nat)
      requires Valid() && slot <= MAX_SLOTS && devices[slot] != null
      modifies owned
      ensures Valid()
      ensures var s := old(View())[slot].value;
              View() == old(View())[slot := Some(s.(dev := Start(s.dev)))]
    {
      hide Start, Device.Valid, Device.View, SlotsTo, DevicesValid, View;
      OwnsItsParts(slot);
      devices[slot].ViewIs();
      var _ := devices[slot].StartInitialize();
      assert owned == old(owned) + Parts(devices[slot]);
      OneChanged(slot);
    }

    method ConfigureDevice(slot: nat)
      requires Valid() && slot <= MAX_SLOTS && devices[slot] != null
      modifies owned
      ensures Valid()
      ensures var s := old(View())[slot].value;
              View() == old(View())[slot := Some(s.(dev := OnConfigured(s.dev)))]
    {
      hide OnConfigured, Device.Valid, Device.View, SlotsTo, DevicesValid, View;
      OwnsItsParts(slot);
      devices[slot].ViewIs();
      var _ := devices[slot].OnEndpointsConfigured();
      assert owned == old(owned) + Parts(devices[slot]);
      OneChanged(slot);
    }

    /** The input context of the device asks for exactly its endpoints, each with a ring of its own;
        if they were not filled in, for none. */
    ghost predicate ContextsAre(slot: nat, filled: bool, speed: nat, at: seq<Address>)
      requires Valid() && slot <= MAX_SLOTS
      reads this, devices, owned
    {
      var d := devices[slot];
      && d != null
      && d.input.addFlags == Endpoints.AddFlags(if filled then d.View().usb.configs else [])
      && (filled ==> d.Programmed(d.View().usb.configs, speed, at))
    }

    /** The contexts and the rings of a device's endpoints. */
    method ConfigureRings(slot: nat, speed: nat, at: seq<Address>) returns (err: Error)
      requires Valid() && slot <= MAX_SLOTS && devices[slot] != null && Configurable(devices[slot].View().usb.configs)
      requires |at| == MAX_ENDPOINTS && forall i :: 0 <= i < |at| ==> at[i] % 64 == 0
      modifies this`owned, owned
      ensures Valid() && fresh(owned - old(owned))
      ensures err == if speed == 0 || speed > SUPER_SPEED_PLUS then UnknownXhciSpeedId else Success
      ensures var s := old(View())[slot].value;
              View() == if err == Success then old(View())[slot := Some(s.(dev := Reprogrammed(s.dev, at)))] else old(View())
      ensures ContextsAre(slot, err == Success, speed, at)
    {
      hide Device.Valid, Device.View, Device.Programmed, Endpoints.AddFlags, Configurable, Reprogrammed, ControlRingAt, SlotsTo,
        DevicesValid, View;
      OwnsItsParts(slot);
      devices[slot].RingIsOurs();
      err := devices[slot].ConfigureEndpoints(speed, at);
      owned := owned + Parts(devices[slot]);
      OneChanged(slot);
    }

    /** A transfer event of a device's default control pipe. */
    method CompleteControl(slot: nat, at: nat, code: nat, residual: nat, buf: seq<Byte>, ghost ds: seq<Descriptor>, hidBuffer: Address)
      returns (err: Error)
      requires Valid() && slot <= MAX_SLOTS && devices[slot] != null
      requires devices[slot].Answers(at, code, buf, ds)
      modifies this`owned, owned
      ensures Valid() && fresh(owned - old(owned))
      ensures var s := old(View())[slot].value;
              && View() == old(View())[slot := Some(s.(dev := OnControlEvent(s.dev, code, residual, ds)))]
              && err == ControlError(s.dev, code, residual, ds)
    {
      hide OnControlEvent, ControlError, Device.Valid, Device.View, Device.Answers, SlotsTo, DevicesValid, View;
      OwnsItsParts(slot);
      devices[slot].ViewIs();
      err := devices[slot].OnControlEvent(at, code, residual, buf, ds, hidBuffer);
      owned := owned + Parts(devices[slot]);
      OneChanged(slot);
    }

    /** A transfer event of a class driver's interrupt-in endpoint. */
    method CompleteInterrupt(slot: nat, at: nat, code: nat, residual: nat)
      returns (err: Error, notified: seq<Byte>)
      requires Valid() && slot <= MAX_SLOTS && devices[slot] != null
      requires devices[slot].Reports(at, code, residual)
      modifies owned
      ensures Valid() && err == Success
      ensures var s := old(View())[slot].value;
              s.dev.reports > 0 && View() == old(View())[slot := Some(s.(dev := OnInterruptEvent(s.dev)))]
    {
      hide Device.Valid, Device.View, Device.Reports, DeviceRuns.OnInterruptEvent, SlotsTo, DevicesValid, View, OnePolled;
      OwnsItsParts(slot);
      devices[slot].ViewIs();
      devices[slot].ReportsMeans(at, code, residual);
      err, notified := devices[slot].OnInterruptEvent(at, code, residual);
      assert owned == old(owned) + Parts(devices[slot]);
      OneChanged(slot);
    }
  }

  /** Allocating a slot that is empty and then addressing it. */
  lemma Prepared(v: Slots, slot: nat, port: nat, base: Address, buffer: Address)
    requires slot <= MAX_SLOTS
    ensures var v1 := if v[slot].None? then v[slot := Some(Slot(0, 0, NewDev(base, buffer)))] else v;
            v1[slot := Some(v1[slot].value.(inputPort := port, dev := NewRing(v1[slot].value.dev, base)))]
            == v[slot := Some(if v[slot].None? then Slot(port, 0, NewDev(base, buffer))
                              else v[slot].value.(inputPort := port, dev := NewRing(v[slot].value.dev, base)))]
  {
    NewRingOfNew(base, buffer);
    hide NewDev, NewRing;
  }

  lemma NewRingOfNew(base: Address, buffer: Address)
    ensures NewRing(NewDev(base, buffer), base) == NewDev(base, buffer)
  {
  }
}
