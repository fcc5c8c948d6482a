/** A device as the host controller driver holds it: the transfer engine, the USB device on top
    of it and the class driver on top of that, which together compute what `DeviceRuns` says of
    a device. */
module Devices {
  import opened ArrayMaps
  import opened ControlPipes
  import opened Descriptors
  import opened DeviceRuns
  import Bits
  import Endpoints
  import opened Errors
  import opened HidDrivers
  import opened Speeds
  import opened Trbs
  import opened TrbRing
  import opened UsbDevices

  predicate Distinct<T(==)>(xs: seq<T>, none: T) {
    forall i, j :: 0 <= i < j < |xs| && xs[i] != none && xs[j] != none ==> xs[i] != xs[j]
  }

  /** Every ring has its own memory, and the default control pipe has its ring. */
  ghost predicate Apart(rings: seq<Ring?>, memory: seq<array?<Trb>>) {
    && |rings| == |memory| == 31 && rings[EP0_DCI - 1] != null
    && Distinct(rings, null) && Distinct(memory, null)
  }

  lemma OneRing(rings: seq<Ring?>, memory: seq<array?<Trb>>, tr: Ring, block: array<Trb>)
    requires |rings| == |memory| == 31
    requires forall i :: 0 <= i < 31 ==> rings[i] == if i == EP0_DCI - 1 then tr else null
    requires forall i :: 0 <= i < 31 ==> memory[i] == if i == EP0_DCI - 1 then block else null
    ensures Apart(rings, memory)
  {
  }

  lemma OtherRing(rings: seq<Ring?>, memory: seq<array?<Trb>>, tr: Ring, block: array<Trb>)
    requires Apart(rings, memory) && tr !in rings && block !in memory
    ensures Apart(rings[EP0_DCI - 1 := tr], memory[EP0_DCI - 1 := block])
  {
  }

  /** Every endpoint has a context index of its own in the tables, which endpoint number 0, OUT, has
      not. */
  predicate Configurable(configs: seq<EndpointConfig>) {
    && (forall i :: 0 <= i < |configs| ==> 1 <= Endpoints.Dci(configs[i]) <= 31)
    && (forall i, j :: 0 <= i < j < |configs| ==> Endpoints.Dci(configs[i]) != Endpoints.Dci(configs[j]))
  }

  /** An initialized device can be given its contexts and rings. */
  predicate CanConfigure(d: Dev) {
    d.usb.isInitialized ==> Configurable(d.usb.configs)
  }

  lemma ConfigurableMeans(configs: seq<EndpointConfig>)
    requires Configurable(configs)
    ensures forall i :: 0 <= i < |configs| ==> 1 <= Endpoints.Dci(configs[i]) <= Endpoints.CONTEXTS
    ensures forall i, j :: 0 <= i < j < |configs| ==> Endpoints.Dci(configs[i]) != Endpoints.Dci(configs[j])
  {
  }

  /** The entries of these endpoints are the new ones, and all others are as before. */
  predicate Entered<T(==)>(was: seq<T>, now: seq<T>, configs: seq<EndpointConfig>, made: seq<T>) {
    && |was| == |now| == 31 && |made| == |configs| && Configurable(configs)
    && (forall j :: 0 <= j < |configs| ==> now[Endpoints.Dci(configs[j]) - 1] == made[j])
    && (forall k :: 0 <= k < 31 && Endpoints.Unused(configs, k) ==> now[k] == was[k])
  }

  lemma OldOrNew<T>(was: seq<T>, now: seq<T>, configs: seq<EndpointConfig>, made: seq<T>, k: nat) returns (j: int)
    requires Entered(was, now, configs, made) && k < 31
    ensures -1 <= j < |made|
    ensures if j == -1 then now[k] == was[k] else now[k] == made[j] && Endpoints.Dci(configs[j]) == k + 1
  {
    if Endpoints.Unused(configs, k) {
      j := -1;
    } else {
      j :| 0 <= j < |configs| && Endpoints.Dci(configs[j]) == k + 1;
    }
  }

  lemma NewAreDistinct<T>(xs: seq<T>, none: T)
    requires forall i, j :: 0 <= i < j < |xs| ==> xs[i] != xs[j]
    ensures Distinct(xs, none)
  {
  }

  lemma StayDistinct<T>(was: seq<T>, now: seq<T>, configs: seq<EndpointConfig>, made: seq<T>, none: T)
    requires Entered(was, now, configs, made) && Distinct(was, none) && Distinct(made, none)
    requires none !in made && forall j :: 0 <= j < |made| ==> made[j] !in was
    ensures Distinct(now, none)
  {
    forall i, j | 0 <= i < j < |now| && now[i] != none && now[j] != none ensures now[i] != now[j] {
      var a := OldOrNew(was, now, configs, made, i);
      var b := OldOrNew(was, now, configs, made, j);
      assert a == -1 ==> now[i] in was;
      assert b == -1 ==> now[j] in was;
    }
  }

  lemma NewUsbHasDrivers()
    ensures HasDrivers(NewUsb()) && NoDrivers(NewUsb()) && NewUsb().phase == 0 && !NewUsb().isInitialized
  {
  }

  predicate NoDrivers(u: Usb) {
    forall n :: 0 <= n < ENDPOINT_NUMBERS ==> u.drivers[n].None?
  }

  lemma NoneToTell(u: Usb)
    requires NoDrivers(u)
    ensures Calls(u.drivers) == []
  {
    CallsCount(u.drivers);
    assert WithDriver(u.drivers) == {};
  }

  /** The endpoints and the waiting requests are all those of one class driver. */
  predicate BelongsTo(u: Usb, driver: ClassDriver) {
    && (forall n :: 0 <= n < ENDPOINT_NUMBERS && u.drivers[n].Some? ==> u.drivers[n].value == driver)
    && (forall i :: 0 <= i < |u.waiters| && u.waiters[i].key.Some? ==> u.waiters[i].value == driver)
  }

  lemma WaiterBelongs(u: Usb, driver: ClassDriver, setup: SetupData)
    requires BelongsTo(u, driver) && Get(u.waiters, setup).Some?
    ensures Get(u.waiters, setup) == Some(driver)
  {
  }

  lemma RegisterBelongs(u: Usb, driver: ClassDriver, setup: SetupData)
    requires BelongsTo(u, driver)
    ensures var u' := u.(waiters := Put(u.waiters, setup, driver));
            BelongsTo(u', driver) && (HasDrivers(u) ==> HasDrivers(u'))
  {
  }

  lemma CallsBelong(u: Usb, driver: ClassDriver)
    requires BelongsTo(u, driver)
    ensures forall i :: 0 <= i < |Calls(u.drivers)| ==> Calls(u.drivers)[i] == driver
  {
    CallsBound(u.drivers, driver);
  }

  /** One more Normal TRB for buffer `b` on the ring of context index `e`, and every other ring as
      before. */
  predicate OnePolled(was: seq<Option<Image>>, now: seq<Option<Image>>, e: int, b: Buffer) {
    && |was| == |now| == 30 && EP0_DCI < e <= 31
    && (forall i :: 0 <= i < 30 && i != e - 2 ==> now[i] == was[i])
    && was[e - 2].Some? && now[e - 2].Some?
    && var (r, r') := (was[e - 2].value, now[e - 2].value);
       r.Valid() && |r'.mem| == |r.mem| && OnePushed(r, r', r'.mem[r.index]) && NormalWords(r'.mem[r.index], b)
  }

  class Device {
    const engine: TransferEngine
    const input: Endpoints.DeviceContexts   // the input context, which names the engine's rings
    const usb: UsbDevice
    var hid: HidDriver?          // the class driver, once an interface is selected
    var inputPort: nat           // the root hub port in the input context
    var contextPort: nat         // and the one in the device context, which the controller writes

    // what is known of the controller's side
    ghost var total: nat
    ghost var read: nat
    ghost var live: seq<Live>
    ghost var inFlight: nat
    ghost var reports: nat
    ghost var told: nat
    ghost var answered: nat

    // the objects of the engine's half and of the half above it
    ghost var lower: set<object>
    ghost var upper: set<object>

    ghost predicate LowerValid()
      reads this`lower, lower
    {
      && {engine, engine.transferRings, engine.setupStageMap.table, input, input.contexts} <= lower
      && input.Valid() && input.transferRings == engine.transferRings
      && (forall i :: 0 <= i < engine.transferRings.Length && engine.transferRings[i] != null ==>
            engine.transferRings[i] in lower)
      && engine.Valid()
      && (forall i :: 0 <= i < 31 && engine.transferRings[i] != null ==> engine.transferRings[i].buf in lower)
      && Apart(engine.transferRings[..], engine.Memory())
    }

    /** From phase 3 on there is a class driver, and it is the one of every endpoint. */
    ghost predicate UsbOurs()
      reads this`hid, this`upper, upper
    {
      && {usb, usb.epConfigs, usb.classDrivers, usb.eventWaiters.table} <= upper
      && usb.Valid() && HasDrivers(usb.View())
      && (usb.initializePhase >= 3 || usb.isInitialized ==> hid != null)
      && (hid == null ==> NoDrivers(usb.View()))
      && (hid != null ==> {hid, hid.buf, hid.previousBuf} <= upper && hid.Valid() && BelongsTo(usb.View(), hid.self))
    }

    /** Once the device is initialized the class driver polls the last interrupt-in endpoint that it
        was handed. */
    ghost predicate UpperValid()
      reads this`hid, this`upper, upper
    {
      && UsbOurs()
      && (usb.isInitialized ==> HidEndpoint() == PollEndpoint(usb.View().configs))
      && (usb.initializePhase == 3 && !usb.isInitialized ==> HidEndpoint() == 0)
    }

    ghost predicate Valid()
      reads this`hid, this`lower, this`upper, lower, upper
    {
      LowerValid() && UpperValid() && lower !! upper && this !in lower + upper
    }

    ghost function Pipe(): PipeState
      requires LowerValid()
      reads this`lower, this`total, this`read, this`live, lower
    {
      PipeState(engine.PipeAt(EP0_DCI), total, read, live)
    }

    ghost function View(): Dev
      requires Valid()
      reads this`hid, this`total, this`read, this`live, this`inFlight, this`reports, this`told, this`answered,
            this`lower, this`upper, lower, upper
    {
      Dev(Pipe(), usb.View(), usb.buffer, HidPhase(), inFlight, reports, told, answered)
    }

    /** A device without a ring, of which nothing is in use. */
    ghost predicate Blank()
      reads this, lower, upper
    {
      && lower == {engine, engine.transferRings, engine.setupStageMap.table, input, input.contexts}
      && input.Valid() && input.transferRings == engine.transferRings
      && engine.transferRings.Length == 31 && (forall i :: 0 <= i < 31 ==> engine.transferRings[i] == null)
      && engine.Valid()
      && engine.setupStageMap.table[..] == EmptyTable<TrbPtr, TrbPtr>(MAP_SIZE, TrbPtr(0, 0))
      && total == read == inFlight == reports == told == answered == 0 && live == [] && hid == null
      && UpperValid() && usb.View() == NewUsb()
      && lower !! upper && this !in lower + upper
    }

    /** `at` is where the device's own buffer lies. */
    constructor (at: Address)
      ensures Blank() && usb.buffer == at && fresh(lower) && fresh(upper) && inputPort == contextPort == 0
    {
      hide EmptyTable, HasDrivers, UpperValid, NewUsb, BelongsTo, NoDrivers;
      var e := new TransferEngine();
      var c := new Endpoints.DeviceContexts(e.transferRings);
      ghost var low: set<object> := {e, e.transferRings, e.setupStageMap.table, c, c.contexts};
      var u := new UsbDevice(at);
      engine, input, usb, hid := e, c, u, null;
      inputPort, contextPort := 0, 0;
      total, read, live, inFlight, reports, told, answered := 0, 0, [], 0, 0, 0, 0;
      lower, upper := low, {u, u.epConfigs, u.classDrivers, u.eventWaiters.table};
      new;
      UpperIsNew();
    }

    lemma UpperIsNew()
      requires hid == null && upper == {usb, usb.epConfigs, usb.classDrivers, usb.eventWaiters.table}
      requires usb.Valid() && usb.View() == NewUsb()
      ensures UpperValid()
    {
      hide NewUsb, HasDrivers, NoDrivers;
      NewUsbHasDrivers();
      assert usb.View().phase == 0;
    }

    /** An empty ring at `at` for the default control pipe. */
    method AllocControlRing(at: Address)
      requires Blank() && at % 64 == 0
      modifies this`lower, engine.transferRings
      ensures Valid() && fresh(lower - old(lower)) && lower >= old(lower) && upper == old(upper)
      ensures View() == NewDev(at, usb.buffer)
    {
      hide EmptyImage, EmptyTable, NewUsb, UpperValid, Apart;
      var tr := engine.AllocTransferRing(EP0_DCI, at);
      lower := lower + {tr, tr.buf};
      OneRing(engine.transferRings[..], engine.Memory(), tr, tr.buf);
    }

    lemma RingIsOurs()
      requires Valid()
      ensures {engine.transferRings, input, input.contexts} <= lower && this !in lower + upper
    {
    }

    /** What the Address Device command is given: the slot and the default control pipe, whose
        context names a new ring. The device may be in use. */
    method ReplaceControlRing(speed: nat, at: Address)
      requires Valid() && at % 64 == 0
      modifies this`lower, this`total, this`read, this`live, input, input.contexts, engine.transferRings
      ensures Valid() && fresh(lower - old(lower)) && lower >= old(lower) && View() == NewRing(old(View()), at)
      ensures upper == old(upper) && Addressed(speed, at)
    {
      hide EmptyImage, LowerValid, HasDrivers, NoDrivers, BelongsTo, Addressed;
      RingsInLower();
      ReplaceLower(speed, at);
    }

    /** The input context asks for the slot context and the default control pipe and nothing else,
        and the pipe's context names the ring at `at`. */
    ghost predicate Addressed(speed: nat, at: Address)
      reads input, input.contexts
    {
      && input.Valid()
      && (forall k: nat :: Bits.Bit(input.addFlags, k) <==> k <= EP0_DCI)
      && var c := input.contexts[EP0_DCI - 1];
         && c.epType == 4 && c.maxPacketSize == Endpoints.MaxPacketSizeForControlPipe(speed) && c.interval == 0
         && Endpoints.RingPointer(c) == at && c.cycleState && c.errorCount == 3
    }

    method ReplaceLower(speed: nat, at: Address)
      requires LowerValid() && this !in lower && at % 64 == 0
      modifies this`lower, this`total, this`read, this`live, input, input.contexts, engine.transferRings
      ensures LowerValid() && lower >= old(lower) && fresh(lower - old(lower))
      ensures Pipe() == PipeState(old(Pipe()).pipe.(ring := EmptyImage(at, RING_SIZE)), 0, 0, [])
      ensures Addressed(speed, at)
    {
      hide LowerValid, Pipe, EmptyImage, Addressed;
      LowerMeans();
      PipeIs();
      LayControl(speed, at);
      total, read, live := 0, 0, [];
      PipeIs();
    }

    method LayControl(speed: nat, at: Address)
      requires LowerValid() && at % 64 == 0
      modifies this`lower, input, input.contexts, engine.transferRings
      ensures LowerValid() && lower >= old(lower) && fresh(lower - old(lower)) && Addressed(speed, at)
      ensures var ring := engine.transferRings[EP0_DCI - 1];
              ring != null && ring.Valid() && ring.View() == EmptyImage(at, RING_SIZE)
    {
      hide LowerValid, EmptyImage, Apart, Addressed, Bits.Bit;
      LowerMeans();
      ghost var rings, memory, trbs := engine.transferRings[..], engine.Memory(), input.contexts[0].averageTrbLength;
      var block := new Trb[RING_SIZE](i => ZERO_TRB);
      var tr := input.InitializeControlPipe(speed, block, at);
      lower := lower + {tr, block};
      ControlReplaced(rings, memory, tr, block);
      LowerIs(rings, [tr]);
      AddressedIs(speed, at, trbs);
      assert engine.transferRings[..][EP0_DCI - 1] == tr;
    }

    lemma ControlReplaced(was: seq<Ring?>, wasMemory: seq<array?<Trb>>, tr: Ring, block: array<Trb>)
      requires Apart(was, wasMemory) && tr !in was && block !in wasMemory && tr.buf == block
      requires engine.transferRings[..] == was[EP0_DCI - 1 := tr]
      requires forall k :: 0 <= k < 31 ==> wasMemory[k] == if was[k] == null then null else was[k].buf
      ensures Apart(engine.transferRings[..], engine.Memory())
      ensures forall k :: 0 <= k < 31 ==>
                engine.transferRings[..][k] == was[k] || exists j :: 0 <= j < |[tr]| && engine.transferRings[..][k] == [tr][j]
    {
      hide Distinct;
      assert engine.Memory() == wasMemory[EP0_DCI - 1 := block];
      OtherRing(was, wasMemory, tr, block);
      assert engine.transferRings[..][EP0_DCI - 1] == [tr][0];
    }

    lemma AddressedIs(speed: nat, at: Address, trbs: nat)
      requires at % 64 == 0 && input.Valid() && forall k: nat :: Bits.Bit(input.addFlags, k) <==> k <= 1
      requires input.contexts[0]
            == Endpoints.EndpointContext(4, Endpoints.MaxPacketSizeForControlPipe(speed), 0, trbs, at / 16, true, 3)
      ensures Addressed(speed, at)
    {
      hide Bits.Bit;
      Endpoints.Aligned(at);
    }

    /** Every endpoint of the device gets its context and a ring of its own; `at` are the addresses
        of their memory. */
    method ConfigureEndpoints(speed: nat, at: seq<Address>) returns (err: Error)
      requires Valid() && Configurable(View().usb.configs)
      requires |at| == MAX_ENDPOINTS && forall i :: 0 <= i < |at| ==> at[i] % 64 == 0
      modifies this`lower, this`total, this`read, this`live, input, input.contexts, engine.transferRings
      ensures Valid() && lower >= old(lower) && fresh(lower - old(lower)) && upper == old(upper)
      ensures err == if speed == 0 || speed > SUPER_SPEED_PLUS then UnknownXhciSpeedId else Success
      ensures View() == if err == Success then Reprogrammed(old(View()), at) else old(View())
      ensures input.addFlags == Endpoints.AddFlags(if err != Success then [] else View().usb.configs)
      ensures err == Success ==> Programmed(View().usb.configs, speed, at)
      ensures engine.transferRings[EP0_DCI - 1] == old(engine.transferRings[EP0_DCI - 1]) <==>
                err != Success || ControlRingAt(View().usb.configs, at).None?
      ensures err != Success || ControlRingAt(View().usb.configs, at).None? ==>
                input.contexts[EP0_DCI - 1] == old(input.contexts[EP0_DCI - 1])
    {
      hide LowerValid, HasDrivers, NoDrivers, BelongsTo, Pipe, Programmed, Endpoints.AddFlags, Configurable, ControlRingAt;
      RingsInLower();
      err := ConfigureRings(usb.epConfigs[..usb.numEpConfigs], speed, at);
    }

    /** Each of these endpoints has a context that describes it, and the context names an empty ring
        that is the endpoint's own. */
    ghost predicate Programmed(configs: seq<EndpointConfig>, speed: nat, at: seq<Address>)
      requires LowerValid()
      reads this`lower, lower
    {
      forall i :: 0 <= i < |configs| <= |at| ==>
        && 1 <= Endpoints.Dci(configs[i]) <= 31
        && input.contexts[Endpoints.Dci(configs[i]) - 1] == Endpoints.ContextFor(configs[i], speed, at[i])
        && var tr := engine.transferRings[Endpoints.Dci(configs[i]) - 1];
           tr != null && tr.View() == EmptyImage(at[i], RING_SIZE)
    }

    method ConfigureRings(configs: seq<EndpointConfig>, speed: nat, at: seq<Address>) returns (err: Error)
      requires LowerValid() && this !in lower && Configurable(configs) && |configs| <= |at|
      requires forall i :: 0 <= i < |at| ==> at[i] % 64 == 0
      modifies this`lower, this`total, this`read, this`live, input, input.contexts, engine.transferRings
      ensures LowerValid() && lower >= old(lower) && fresh(lower - old(lower))
      ensures err == if speed == 0 || speed > SUPER_SPEED_PLUS then UnknownXhciSpeedId else Success
      ensures var control := if err != Success then None else ControlRingAt(configs, at);
              && Pipe() == (if control.None? then old(Pipe())
                            else PipeState(old(Pipe()).pipe.(ring := EmptyImage(control.value, RING_SIZE)), 0, 0, []))
              && (engine.transferRings[EP0_DCI - 1] == old(engine.transferRings[EP0_DCI - 1]) <==> control.None?)
              && (control.None? ==> input.contexts[EP0_DCI - 1] == old(input.contexts[EP0_DCI - 1]))
      ensures input.addFlags == Endpoints.AddFlags(if err != Success then [] else configs)
      ensures err == Success ==> Programmed(configs, speed, at)
    {
      hide LowerValid, Pipe, Programmed, Configurable, EmptyImage, Endpoints.AddFlags, ControlRingAt;
      LowerMeans();
      PipeIs();
      err := LayRings(configs, speed, at);
      if err == Success && ControlRingAt(configs, at).Some? {
        total, read, live := 0, 0, [];
      }
      PipeIs();
    }

    lemma PipeIs()
      requires LowerValid()
      ensures engine.transferRings.Length == 31 && engine.transferRings[EP0_DCI - 1] != null
      ensures engine.transferRings[EP0_DCI - 1].Valid() && engine.setupStageMap.table in lower
      ensures Pipe() == PipeState(ControlPipes.Pipe(EP0_DCI, engine.transferRings[EP0_DCI - 1].View(),
                                                    engine.setupStageMap.table[..]), total, read, live)
    {
      assert engine.transferRings[..][EP0_DCI - 1] == engine.transferRings[EP0_DCI - 1];
    }

    /** The default control pipe has the ring of the endpoint with its context index, if there is one,
        and otherwise its ring and its context are as before. */
    method LayRings(configs: seq<EndpointConfig>, speed: nat, at: seq<Address>) returns (err: Error)
      requires LowerValid() && Configurable(configs) && |configs| <= |at|
      requires forall i :: 0 <= i < |at| ==> at[i] % 64 == 0
      modifies this`lower, input, input.contexts, engine.transferRings
      ensures LowerValid() && lower >= old(lower) && fresh(lower - old(lower))
      ensures err == if speed == 0 || speed > SUPER_SPEED_PLUS then UnknownXhciSpeedId else Success
      ensures var (control, ring) := (if err != Success then None else ControlRingAt(configs, at), engine.transferRings[EP0_DCI - 1]);
              && (ring == old(engine.transferRings[EP0_DCI - 1]) <==> control.None?)
              && (control.None? ==> input.contexts[EP0_DCI - 1] == old(input.contexts[EP0_DCI - 1]))
              && (control.Some? ==> ring != null && ring.Valid() && ring.View() == EmptyImage(control.value, RING_SIZE))
      ensures input.addFlags == Endpoints.AddFlags(if err != Success then [] else configs)
      ensures err == Success ==> Programmed(configs, speed, at)
    {
      hide LowerValid, Programmed, Configurable, Apart, EmptyImage, Endpoints.AddFlags, Endpoints.ContextFor,
        Endpoints.Laid, Endpoints.Kept, Endpoints.Starts, ControlRingAt;
      ConfigurableMeans(configs);
      ghost var rings, memory, contexts := engine.transferRings[..], engine.Memory(), input.contexts[..];
      LowerMeans();
      var blocks := AllocBlocks(|configs|);
      ghost var made;
      err, made := input.ConfigureEndpoints(configs, speed, blocks, at[..|configs|]);
      if err == Success {
        lower := lower + (set i | 0 <= i < |made| :: made[i]) + (set i | 0 <= i < |blocks| :: blocks[i]);
        StartsMeans(made, blocks, at[..|configs|]);
        RingsEntered(rings, memory, contexts, configs, speed, at[..|configs|], made, blocks);
        LowerIs(rings, made);
        ProgrammedIs(configs, speed, at, made, blocks);
        ControlEntry(rings, contexts, configs, speed, at, made, blocks);
      } else {
        assert engine.Memory() == memory;
        LowerIs(rings, []);
      }
    }

    lemma LowerMeans()
      requires LowerValid()
      ensures {engine, engine.transferRings, engine.setupStageMap.table, input, input.contexts} <= lower
      ensures engine.Valid() && input.Valid() && input.transferRings == engine.transferRings
      ensures Apart(engine.transferRings[..], engine.Memory()) && engine.transferRings[EP0_DCI - 1] != null
      ensures forall i :: 0 <= i < 31 && engine.transferRings[i] != null ==>
                engine.transferRings[i] in lower && engine.transferRings[i].buf in lower
    {
      assert engine.transferRings[..][EP0_DCI - 1] == engine.transferRings[EP0_DCI - 1];
    }

    lemma StartsMeans(made: seq<Ring>, blocks: seq<array<Trb>>, at: seq<Address>)
      requires |made| == |blocks| == |at| && forall i :: 0 <= i < |made| ==> Endpoints.Starts(made[i], blocks[i], at[i])
      ensures forall i :: 0 <= i < |made| ==> made[i].Valid() && made[i].buf == blocks[i]
    {
      hide EmptyImage;
    }

    lemma RingsEntered(was: seq<Ring?>, wasMemory: seq<array?<Trb>>, wasContexts: seq<Endpoints.EndpointContext>,
                       configs: seq<EndpointConfig>, speed: nat, at: seq<Address>, made: seq<Ring>, blocks: seq<array<Trb>>)
      requires Apart(was, wasMemory) && Configurable(configs) && |configs| == |made| == |blocks| == |at|
      requires engine.transferRings.Length == 31
      requires Endpoints.Laid(input.contexts[..], engine.transferRings[..], configs, speed, at, made)
      requires Endpoints.Kept(input.contexts[..], engine.transferRings[..], wasContexts, was, configs)
      requires forall k :: 0 <= k < 31 ==> wasMemory[k] == if was[k] == null then null else was[k].buf
      requires forall i, j :: 0 <= i < j < |made| ==> made[i] != made[j] && blocks[i] != blocks[j]
      requires forall j :: 0 <= j < |made| ==> made[j] !in was && blocks[j] !in wasMemory && made[j].buf == blocks[j]
      ensures Apart(engine.transferRings[..], engine.Memory())
      ensures forall k :: 0 <= k < 31 ==>
                engine.transferRings[..][k] == was[k] || exists j :: 0 <= j < |made| && engine.transferRings[..][k] == made[j]
    {
      hide Distinct, Endpoints.ContextFor;
      assert Entered(was, engine.transferRings[..], configs, made);
      assert Entered(wasMemory, engine.Memory(), configs, blocks);
      NewAreDistinct(made, null);
      NewAreDistinct(blocks, null);
      StayDistinct(was, engine.transferRings[..], configs, made, null);
      StayDistinct(wasMemory, engine.Memory(), configs, blocks, null);
      forall k | 0 <= k < 31
        ensures engine.transferRings[..][k] == was[k] || exists j :: 0 <= j < |made| && engine.transferRings[..][k] == made[j]
      {
        var j := OldOrNew(was, engine.transferRings[..], configs, made, k);
      }
      var j := OldOrNew(was, engine.transferRings[..], configs, made, EP0_DCI - 1);
    }

    /** The entries of the default control pipe are as before, or they are those of the endpoint that
        has its context index. */
    lemma ControlEntry(was: seq<Ring?>, wasContexts: seq<Endpoints.EndpointContext>, configs: seq<EndpointConfig>,
                       speed: nat, at: seq<Address>, made: seq<Ring>, blocks: seq<array<Trb>>)
      requires Configurable(configs) && |configs| == |made| == |blocks| <= |at|
      requires engine.transferRings.Length == 31
      requires Endpoints.Laid(input.contexts[..], engine.transferRings[..], configs, speed, at[..|configs|], made)
      requires Endpoints.Kept(input.contexts[..], engine.transferRings[..], wasContexts, was, configs)
      requires forall j :: 0 <= j < |made| ==> made[j] !in was && Endpoints.Starts(made[j], blocks[j], at[..|configs|][j])
      ensures |was| == |wasContexts| == 31
      ensures var (now, control) := (engine.transferRings[EP0_DCI - 1], ControlRingAt(configs, at));
              if control.None? then now == was[EP0_DCI - 1] && input.contexts[EP0_DCI - 1] == wasContexts[EP0_DCI - 1]
              else now != null && now !in was && now.Valid() && now.View() == EmptyImage(control.value, RING_SIZE)
    {
      hide Endpoints.ContextFor, EmptyImage, ControlRingAt;
      if i :| 0 <= i < |configs| && Endpoints.Dci(configs[i]) == EP0_DCI {
        HasControlRing(configs, at, i);
        assert engine.transferRings[..][EP0_DCI - 1] == made[i];
      } else {
        NoControlRing(configs, at);
        assert Endpoints.Unused(configs, EP0_DCI - 1);
        assert engine.transferRings[..][EP0_DCI - 1] == was[EP0_DCI - 1];
      }
    }

    /** Every ring is one of the device's before, or a new one. */
    lemma LowerIs(was: seq<Ring?>, made: seq<Ring>)
      requires {engine, engine.transferRings, engine.setupStageMap.table, input, input.contexts} <= lower
      requires engine.transferRings.Length == 31 && engine.setupStageMap.table.Length == MAP_SIZE
      requires input.Valid() && input.transferRings == engine.transferRings && |was| == 31
      requires Apart(engine.transferRings[..], engine.Memory())
      requires forall k :: 0 <= k < 31 ==>
                 engine.transferRings[..][k] == was[k] || exists j :: 0 <= j < |made| && engine.transferRings[..][k] == made[j]
      requires forall k :: 0 <= k < 31 && was[k] != null ==> was[k] in lower && was[k].Valid() && was[k].buf in lower
      requires forall j :: 0 <= j < |made| ==> made[j] in lower && made[j].Valid() && made[j].buf in lower
      ensures LowerValid()
    {
      hide Apart;
      forall k | 0 <= k < 31 && engine.transferRings[k] != null
        ensures engine.transferRings[k] in lower && engine.transferRings[k].Valid() && engine.transferRings[k].buf in lower
      {
        assert engine.transferRings[..][k] == engine.transferRings[k];
      }
    }

    lemma ProgrammedIs(configs: seq<EndpointConfig>, speed: nat, at: seq<Address>, made: seq<Ring>, blocks: seq<array<Trb>>)
      requires LowerValid() && |configs| == |made| == |blocks| <= |at|
      requires Endpoints.Laid(input.contexts[..], engine.transferRings[..], configs, speed, at[..|configs|], made)
      requires forall i :: 0 <= i < |configs| ==> Endpoints.Starts(made[i], blocks[i], at[..|configs|][i])
      ensures Programmed(configs, speed, at)
    {
      hide Endpoints.ContextFor, EmptyImage, Apart;
      forall i | 0 <= i < |configs|
        ensures 1 <= Endpoints.Dci(configs[i]) <= 31
        ensures engine.transferRings[Endpoints.Dci(configs[i]) - 1] == made[i]
        ensures input.contexts[Endpoints.Dci(configs[i]) - 1] == Endpoints.ContextFor(configs[i], speed, at[i])
      {
        assert at[..|configs|][i] == at[i];
      }
    }

    method AllocBlocks(n: nat) returns (blocks: seq<array<Trb>>)
      ensures |blocks| == n && forall i :: 0 <= i < n ==> fresh(blocks[i]) && blocks[i].Length == RING_SIZE
      ensures forall i, j :: 0 <= i < j < n ==> blocks[i] != blocks[j]
    {
      blocks := [];
      while |blocks| < n
        invariant |blocks| <= n && forall i :: 0 <= i < |blocks| ==> fresh(blocks[i]) && blocks[i].Length == RING_SIZE
        invariant forall i, j :: 0 <= i < j < |blocks| ==> blocks[i] != blocks[j]
      {
        var block := new Trb[RING_SIZE](i => ZERO_TRB);
        blocks := blocks + [block];
      }
    }

    lemma RingOfPipe()
      requires LowerValid()
      ensures Pipe().pipe.ring.Valid()
    {
    }

    /** One request on the default control pipe. */
    method Control(req: Request) returns (err: Error)
      requires Valid()
      modifies this`total, this`live, lower
      ensures Valid() && err == Success && View() == Issued(old(View()), Some(req)) && Others() == old(Others())
    {
      hide Issue, HasDrivers, NoDrivers, BelongsTo, PollEndpoint, LowerValid, Pipe, PushImage, Others;
      RingOfPipe();
      err := Push(req);
    }

    method Push(req: Request) returns (err: Error)
      requires LowerValid() && this !in lower
      modifies this`total, this`live, lower
      ensures LowerValid() && err == Success && Pipe() == DoIssue(old(Pipe()), req) && Others() == old(Others())
    {
      hide Issue, PushImage, RequestOnRing;
      assert engine.transferRings[..][EP0_DCI - 1] == engine.transferRings[EP0_DCI - 1];
      forall k | 1 <= k < 31 && engine.transferRings[k] != null
        ensures engine.transferRings[k] != engine.transferRings[EP0_DCI - 1]
                && engine.transferRings[k].buf != engine.transferRings[EP0_DCI - 1].buf
      {
        RingsDiffer(k, EP0_DCI - 1);
      }
      err := engine.Control(EP0_DCI, req);
      OneRingChanged(EP0_DCI - 1);
      live := live + [Live(req, total)];
      total := total + req.Trbs();
    }

    method StartInitialize() returns (err: Error)
      requires Valid()
      modifies this`total, this`live, lower, upper
      ensures Valid() && err == Success && View() == DeviceRuns.Start(old(View()))
    {
      var req := usb.StartInitialize();
      err := Control(req);
    }

    /** What the view shows of the fields. */
    lemma ViewIs()
      requires Valid()
      ensures View().pipe.live == live && View().usb == usb.View() && View().buffer == usb.buffer
      ensures View().pipe.pipe.dci == EP0_DCI
      ensures View().usb.isInitialized == usb.isInitialized && this !in lower + upper
      ensures hid != null ==> BelongsTo(usb.View(), hid.self)
      ensures Untouched() <==> (View().usb.phase < 3 ==>
                && View().hidPhase == 0
                && View().usb.drivers == NewUsb().drivers && View().usb.waiters == NewUsb().waiters)
    {
      hide NewUsb, LowerValid, HasDrivers, BelongsTo;
    }

    /** One class driver is told that its endpoint is configured, and asks for the boot
        protocol. */
    method TellOne() returns (err: Error)
      requires Valid() && hid != null
      modifies this`total, this`live, this`told, lower, upper
      ensures Valid() && err == Success && View() == DeviceRuns.TellOne(old(View()), hid.self)
    {
      hide Valid, View, Issued, Put, SetProtocolRequest;
      ViewIs();
      var req := Remember();
      err := Control(req);
    }

    /** The class driver's first phase, and who waits for the reply. */
    method Remember() returns (req: Request)
      requires Valid() && hid != null
      modifies this`told, upper
      ensures Valid() && req == SetProtocolRequest(hid.self)
      ensures var d := old(View());
              View() == d.(usb := d.usb.(waiters := Put(d.usb.waiters, req.setup, hid.self)), hidPhase := 1, told := d.told + 1)
    {
      hide Put, BelongsTo, HasDrivers, LowerValid, SetProtocolRequest;
      ghost var u := usb.View();
      req := hid.OnEndpointsConfigured();
      RegisterBelongs(u, hid.self, req.setup);
      usb.Register(req.setup, Some(hid.self));
      told := told + 1;
      assert UpperValid();
    }

    method DriversToTell() returns (calls: seq<ClassDriver>)
      requires Valid()
      ensures calls == Calls(View().usb.drivers) && this !in lower + upper
      ensures calls != [] ==> hid != null && forall i :: 0 <= i < |calls| ==> calls[i] == hid.self
    {
      hide BelongsTo, NoDrivers, Calls;
      calls := usb.OnEndpointsConfigured();
      if hid == null { NoneToTell(usb.View()); } else { CallsBelong(usb.View(), hid.self); }
    }

    method OnEndpointsConfigured() returns (err: Error)
      requires Valid()
      modifies this`total, this`live, this`told, lower, upper
      ensures Valid() && err == Success && View() == OnConfigured(old(View()))
    {
      hide Valid, View, DeviceRuns.TellOne, Calls;
      var calls := DriversToTell();
      ghost var d := View();
      var i := 0;
      while i < |calls|
        invariant i <= |calls| && Valid() && this !in lower + upper && hid == old(hid)
        invariant View() == TellAll(d, calls[..i])
      {
        assert calls[..i + 1][..i] == calls[..i];
        err := TellOne();
        i := i + 1;
      }
      assert calls[..i] == calls;
      return Success;
    }

    /** The class driver has an interrupt-in endpoint, other than the default control pipe, and its
        ring exists. */
    ghost predicate CanPoll()
      requires LowerValid()
      reads this`hid, this`lower, lower, hid
    {
      hid != null ==> EP0_DCI < HidEndpoint() <= 31 && engine.transferRings[HidEndpoint() - 1] != null
    }

    /** Once the endpoints are configured the class driver can poll, when the last interrupt-in endpoint
        of its interface has a number from 1 on. */
    lemma ProgrammedCanPoll(speed: nat, at: seq<Address>)
      requires Valid() && |View().usb.configs| <= |at| && Programmed(View().usb.configs, speed, at)
      requires usb.isInitialized && Configurable(View().usb.configs) && PollEndpoint(View().usb.configs) > EP0_DCI
      ensures CanPoll()
    {
      hide UsbOurs, Apart, Endpoints.ContextFor, EmptyImage, PollEndpoint;
      var configs := View().usb.configs;
      var i := PollEndpointMeans(configs);
      assert Endpoints.Dci(configs[i]) == HidEndpoint();
    }

    /** The ring of a context index, if it has one. */
    ghost function RingAt(k: nat): Option<Image>
      requires LowerValid() && k < 31
      reads this`lower, lower
    {
      if engine.transferRings[k] == null then None else Some(engine.transferRings[k].View())
    }

    /** The rings other than that of the default control pipe, from context index 2 on. */
    ghost function Others(): (s: seq<Option<Image>>)
      requires LowerValid()
      reads this`lower, lower
      ensures |s| == 30 && forall i :: 0 <= i < 30 ==> s[i] == RingAt(i + 1)
    {
      OthersTo(30)
    }

    ghost function OthersTo(n: nat): (s: seq<Option<Image>>)
      requires LowerValid() && n <= 30
      reads this`lower, lower
      ensures |s| == n && forall i :: 0 <= i < n ==> s[i] == RingAt(i + 1)
    {
      if n == 0 then [] else OthersTo(n - 1) + [RingAt(n)]
    }

    /** How long the report is whose transfer lies in ring slot `slot`. */
    ghost function ReportLength(slot: nat, residual: nat): int
      requires LowerValid()
      reads this`hid, this`lower, lower, hid
    {
      if EP0_DCI < HidEndpoint() <= 31 then
        var ring := Others()[HidEndpoint() - 2];
        if ring.Some? && slot < |ring.value.mem| then ring.value.mem[slot].w2 % 0x2_0000 - residual else 0
      else 0
    }

    lemma RingsDiffer(i: nat, j: nat)
      requires LowerValid() && i < 31 && j < 31 && i != j
      requires engine.transferRings[i] != null && engine.transferRings[j] != null
      ensures engine.transferRings[i] != engine.transferRings[j]
      ensures engine.transferRings[i].buf != engine.transferRings[j].buf
    {
      var (a, b) := (if i < j then i else j, if i < j then j else i);
      assert engine.transferRings[..][a] == engine.transferRings[a] && engine.transferRings[..][b] == engine.transferRings[b];
      assert engine.Memory()[a] != engine.Memory()[b];
    }

    /** When only the ring of one context index changes, the others are as before. */
    twostate lemma OneRingChanged(e: nat)
      requires old(LowerValid()) && LowerValid() && e < 31 && lower == old(lower)
      requires forall k :: 0 <= k < 31 ==> engine.transferRings[k] == old(engine.transferRings[k])
      requires forall k :: 0 <= k < 31 && k != e && engine.transferRings[k] != null ==>
                 unchanged(engine.transferRings[k]) && unchanged(engine.transferRings[k].buf)
      ensures forall k :: 0 <= k < 31 && k != e ==> RingAt(k) == old(RingAt(k))
    {
      hide Apart;
    }

    /** One interrupt-in transfer into the class driver's buffer: one more TRB on the ring of its
        endpoint, and nothing on any other. */
    method InterruptIn(buf: Buffer) returns (err: Error)
      requires Valid() && hid != null && CanPoll()
      modifies this`inFlight, lower
      ensures Valid() && err == Success && CanPoll()
      ensures View() == old(View()).(inFlight := old(View()).inFlight + 1)
      ensures OnePolled(old(Others()), Others(), HidEndpoint(), buf)
    {
      hide PushImage, HasDrivers, NoDrivers, BelongsTo, PollEndpoint, LowerValid, Pipe, Others, OnePolled;
      err := PushNormal(hid.epInterruptIn, buf);
      inFlight := inFlight + 1;
    }

    method PushNormal(e: int, buf: Buffer) returns (err: Error)
      requires LowerValid() && EP0_DCI < e <= 31 && engine.transferRings[e - 1] != null
      modifies lower
      ensures LowerValid() && err == Success && Pipe() == old(Pipe())
      ensures engine.transferRings[e - 1] != null
      ensures OnePolled(old(Others()), Others(), e, buf)
    {
      hide PushImage, NormalWords, NormalTrb, OnePushed;
      ghost var was := engine.transferRings[e - 1].View();
      forall k | 0 <= k < 31 && k != e - 1 && engine.transferRings[k] != null
        ensures engine.transferRings[k] != engine.transferRings[e - 1]
                && engine.transferRings[k].buf != engine.transferRings[e - 1].buf
      {
        RingsDiffer(k, e - 1);
      }
      err := engine.InterruptIn(e, buf);
      OneRingChanged(e - 1);
      PushIsOnePushed(was, NormalTrb(buf));
      NormalTrbWords(buf, was.cycle);
    }

    /** Before an interface is selected nothing is left of a class driver. */
    ghost predicate Untouched()
      requires UpperValid()
      reads this`hid, this`upper, upper, hid
    {
      usb.initializePhase < 3 ==>
        && HidPhase() == 0
        && usb.View().drivers == NewUsb().drivers && usb.View().waiters == NewUsb().waiters
    }

    /** The endpoints of the selected interface are handed to its class driver. */
    method HandOver(told: seq<(ClassDriver, EndpointConfig)>, ghost configs: seq<EndpointConfig>)
      requires UsbOurs() && this !in upper && (told != [] ==> hid != null)
      requires |told| == |configs| && forall i :: 0 <= i < |told| ==> told[i].1 == configs[i]
      modifies upper
      ensures UsbOurs() && usb.View() == old(usb.View()) && HidPhase() == old(HidPhase())
      ensures old(HidEndpoint()) == 0 ==> HidEndpoint() == PollEndpoint(configs)
      ensures told == [] ==> HidEndpoint() == old(HidEndpoint())
    {
      hide BelongsTo, HasDrivers;
      var i := 0;
      while i < |told|
        invariant i <= |told| && UsbOurs() && usb.View() == old(usb.View()) && HidPhase() == old(HidPhase())
        invariant old(HidEndpoint()) == 0 ==> HidEndpoint() == PollEndpoint(configs[..i])
        invariant i == 0 ==> HidEndpoint() == old(HidEndpoint())
      {
        assert configs[..i + 1][..i] == configs[..i];
        var e := hid.SetEndpoint(told[i].1);
        i := i + 1;
      }
      assert configs[..i] == configs;
    }

    /** A class driver is made for the interface that has just been selected. */
    method Adopt(driver: ClassDriver, at: Address)
      requires {usb, usb.epConfigs, usb.classDrivers, usb.eventWaiters.table} <= upper && this !in upper
      requires usb.Valid() && HasDrivers(usb.View()) && BelongsTo(usb.View(), driver)
      modifies this`hid, this`upper
      ensures UsbOurs() && fresh(upper - old(upper)) && upper >= old(upper)
      ensures hid != null && hid.self == driver && hid.bufferAt == at && HidPhase() == HidEndpoint() == 0
    {
      hide BelongsTo, HasDrivers;
      hid := new HidDriver(driver, at);
      upper := upper + {hid, hid.buf, hid.previousBuf};
    }

    /** The USB device's part of a completed request: its own phases, the class driver that it
        makes, and the endpoints that it hands to it. */
    method Advance(setup: SetupData, buf: seq<Byte>, ghost ds: seq<Descriptor>, hidBuffer: Address)
      returns (err: Error, next: Option<Request>, waiter: Option<ClassDriver>)
      requires UpperValid() && Untouched() && this !in upper
      requires setup.request == GET_DESCRIPTOR ==> IsGoodReply(ds) && buf == Serialize(ds)
      modifies this`hid, this`upper, upper
      ensures UpperValid() && upper >= old(upper) && fresh(upper - old(upper))
      ensures Reaction(usb.View(), err, next, waiter) == OnControl(old(usb.View()), setup, ds, usb.buffer)
      ensures HidPhase() == old(HidPhase())
      ensures waiter.Some? ==> hid != null && waiter == Some(hid.self) && next.None? && err == Success
      ensures next.Some? ==> err == Success
      ensures old(usb.isInitialized) ==> hid == old(hid) && HidEndpoint() == old(HidEndpoint())
      ensures waiter.Some? ==> old(usb.isInitialized)
    {
      hide OnControl, FirstDriver, NewUsb, HasDrivers, BelongsTo, NoDrivers;
      ghost var u := usb.View();
      ControlKeepsDrivers(u, setup, ds, usb.buffer);
      ControlBelongs(u, setup, ds, usb.buffer, if hid == null then NO_DRIVER else hid.self);
      ControlPhases(u, setup, ds, usb.buffer);
      var made, told;
      err, next, waiter, made, told := usb.OnControlCompleted(setup, buf, ds);
      if made.Some? {
        Adopt(made.value, hidBuffer);
      } else {
        HandOver(told, if told == [] then [] else u.configs);
      }
    }

    /** What the device does about a completed request. */
    method React(setup: SetupData, buf: seq<Byte>, ghost ds: seq<Descriptor>, hidBuffer: Address) returns (err: Error)
      requires Valid() && Untouched() && (usb.isInitialized ==> CanPoll())
      requires setup.request == GET_DESCRIPTOR ==> IsGoodReply(ds) && buf == Serialize(ds)
      modifies this`hid, this`upper, this`total, this`live, this`inFlight, this`answered, lower, upper
      ensures Valid() && fresh(upper - old(upper))
      ensures View() == DeviceRuns.React(old(View()), setup, ds)
      ensures var r := OnControl(old(View()).usb, setup, ds, usb.buffer);
              err == if r.waiter.Some? && old(View()).hidPhase != 1 then NotImplemented else r.error
      ensures PollsIfCounted(old(Others()), old(inFlight))
      ensures old(usb.isInitialized) ==> hid == old(hid)
    {
      hide Valid, View, OnControl, Issued, CanPoll, Untouched, Others, OnePolled;
      ViewIs();
      var next, waiter;
      err, next, waiter := AdvanceDevice(setup, buf, ds, hidBuffer);
      NoneIssued(View());
      if waiter.Some? {
        err := AnswerHid();
      } else if next.Some? {
        err := Control(next.value);
      }
    }

    /** The count of interrupt-in transfers in flight has risen together with one TRB on the ring of
        the class driver's endpoint, for its own buffer, or no ring has changed. */
    ghost predicate PollsIfCounted(was: seq<Option<Image>>, count: nat)
      requires LowerValid()
      reads this`hid, this`inFlight, this`lower, lower, hid
    {
      if inFlight == count then Others() == was
      else inFlight == count + 1 && hid != null && OnePolled(was, Others(), HidEndpoint(), hid.Report())
    }

    /** The same step, seen on the whole device. */
    method AdvanceDevice(setup: SetupData, buf: seq<Byte>, ghost ds: seq<Descriptor>, hidBuffer: Address)
      returns (err: Error, next: Option<Request>, waiter: Option<ClassDriver>)
      requires Valid() && Untouched() && (usb.isInitialized ==> CanPoll())
      requires setup.request == GET_DESCRIPTOR ==> IsGoodReply(ds) && buf == Serialize(ds)
      modifies this`hid, this`upper, upper
      ensures Valid() && fresh(upper - old(upper)) && upper >= old(upper)
      ensures var r := OnControl(old(View()).usb, setup, ds, usb.buffer);
              Reaction(View().usb, err, next, waiter) == r && View() == old(View()).(usb := r.usb)
      ensures Others() == old(Others()) && (old(usb.isInitialized) ==> hid == old(hid))
      ensures waiter.Some? ==> hid != null && CanPoll() && next.None? && err == Success
      ensures next.Some? ==> err == Success
    {
      assert engine.transferRings in lower && engine.transferRings.Length == 31;
      hide LowerValid, UpperValid, OnControl, PushImage, NewUsb, Others;
      err, next, waiter := Advance(setup, buf, ds, hidBuffer);
    }

    /** The completion goes to the class driver, which starts polling the first time. */
    method AnswerHid() returns (err: Error)
      requires Valid() && hid != null && CanPoll()
      modifies this`inFlight, this`answered, lower, upper
      ensures Valid()
      ensures var d := old(View());
              && View() == (if d.hidPhase == 1 then d.(hidPhase := 2, inFlight := d.inFlight + 1, answered := d.answered + 1)
                            else d.(answered := d.answered + 1))
              && err == if d.hidPhase == 1 then Success else NotImplemented
      ensures PollsIfCounted(old(Others()), old(inFlight))
    {
      hide HasDrivers, BelongsTo, PollEndpoint, LowerValid, Issue, Others, OnePolled;
      var issue;
      err, issue := hid.OnControlCompleted();
      assert UpperValid();
      answered := answered + 1;
      if issue.Some? {
        err := InterruptIn(issue.value);
      }
    }

    /** The transfer event of the oldest control request, whose TRB lies in ring slot `slot`. The
        device computes what `DeviceRuns` says of it, error code included, and polling starts with
        a TRB on the ring. `buf` is the device's buffer after the reply; `hidBuffer` is where the
        buffer of a class driver lies that is made for this reply. */
    method OnControlEvent(slot: nat, code: nat, residual: nat, buf: seq<Byte>, ghost ds: seq<Descriptor>, hidBuffer: Address)
      returns (err: Error)
      requires Valid() && Answers(slot, code, buf, ds)
      modifies this`hid, this`upper, this`total, this`read, this`live, this`inFlight, this`answered, lower, upper
      ensures Valid() && fresh(upper - old(upper))
      ensures View() == DeviceRuns.OnControlEvent(old(View()), code, residual, ds)
      ensures err == ControlError(old(View()), code, residual, ds)
      ensures PollsIfCounted(old(Others()), old(inFlight))
      ensures old(usb.isInitialized) ==> hid == old(hid)
    {
      hide Others, OnePolled, Valid, View, CanPoll, Untouched, Answers, DeviceRuns.React, OnControl, Runnable,
        DoComplete, ControlError, DeviceRuns.OnControlEvent, Complete, ControlPipes.Inv;
      AnswersMeans(slot, code, residual, buf, ds);
      ViewIs();
      var setup := CompleteOldest(slot, code, residual);
      ViewIs();
      err := React(setup, buf, ds, hidBuffer);
    }

    /** A good answer to the oldest request, reported for the TRB that asked for the event. */
    ghost predicate Answers(slot: nat, code: nat, buf: seq<Byte>, ds: seq<Descriptor>)
      requires Valid()
      reads this, lower, upper, hid
    {
      && ControlPipes.Inv(View().pipe) && IsAnswer(View(), ds) && Untouched() && (usb.isInitialized ==> CanPoll())
      && (code == CODE_SUCCESS || code == CODE_SHORT_PACKET)
      && slot == SlotOf(View().pipe.live[0].at + 1)
      && (Asked(View()).request == GET_DESCRIPTOR ==> buf == Serialize(ds))
    }

    /** In a run every good answer is one of these. */
    lemma GoodAnswersAre(slot: nat, code: nat, buf: seq<Byte>, ds: seq<Descriptor>)
      requires Valid() && DeviceRuns.Inv(View()) && GoodAnswer(View(), ds) && (usb.isInitialized ==> CanPoll())
      requires (code == CODE_SUCCESS || code == CODE_SHORT_PACKET) && slot == SlotOf(View().pipe.live[0].at + 1)
      requires Asked(View()).request == GET_DESCRIPTOR ==> buf == Serialize(ds)
      ensures Answers(slot, code, buf, ds)
    {
      hide Valid, View, CanPoll, Untouched, ControlPipes.Inv, PhaseInv;
      StartsUntouched(View());
      ViewIs();
    }

    lemma AnswersMeans(slot: nat, code: nat, residual: nat, buf: seq<Byte>, ds: seq<Descriptor>)
      requires Valid() && Answers(slot, code, buf, ds)
      ensures ControlPipes.Inv(View().pipe) && live != [] && slot == SlotOf(live[0].at + 1)
      ensures code == CODE_SUCCESS || code == CODE_SHORT_PACKET
      ensures Untouched() && (usb.isInitialized ==> CanPoll()) && this !in lower + upper
      ensures live[0].req.setup.request == GET_DESCRIPTOR ==> IsGoodReply(ds) && buf == Serialize(ds)
      ensures Runnable(View().pipe) && View().pipe.live == live && View().buffer == usb.buffer
      ensures DeviceRuns.OnControlEvent(View(), code, residual, ds)
           == DeviceRuns.React(View().(pipe := DoComplete(View().pipe, code, residual).0), live[0].req.setup, ds)
      ensures var r := OnControl(View().usb, live[0].req.setup, ds, usb.buffer);
              ControlError(View(), code, residual, ds) ==
              if r.waiter.Some? && View().hidPhase != 1 then NotImplemented else r.error
    {
      hide Valid, View, CanPoll, Untouched, DeviceRuns.React, OnControl, Runnable, DeviceRuns.Inv,
        DoComplete, ControlError, DeviceRuns.OnControlEvent;
      ViewIs();
      EventIs(View(), code, residual, ds);
    }

    /** The engine reads the setup data of the oldest request back from the ring. */
    method CompleteOldest(slot: nat, code: nat, residual: nat) returns (setup: SetupData)
      requires Valid() && ControlPipes.Inv(View().pipe) && live != [] && slot == SlotOf(live[0].at + 1)
      requires code == CODE_SUCCESS || code == CODE_SHORT_PACKET
      modifies this`read, this`live, lower
      ensures Valid() && (old(CanPoll()) ==> CanPoll())
      ensures setup == old(live[0]).req.setup && Runnable(old(View()).pipe)
      ensures View() == old(View()).(pipe := DoComplete(old(View()).pipe, code, residual).0)
      ensures Others() == old(Others())
    {
      hide Others, LowerValid, Runnable, DoComplete, ControlPipes.Inv, HasDrivers, BelongsTo;
      RingsInLower();
      setup := CompleteLower(slot, code, residual);
    }

    method CompleteLower(slot: nat, code: nat, residual: nat) returns (setup: SetupData)
      requires LowerValid() && this !in lower
      requires ControlPipes.Inv(Pipe()) && live != [] && slot == SlotOf(live[0].at + 1)
      requires code == CODE_SUCCESS || code == CODE_SHORT_PACKET
      modifies this`read, this`live, lower
      ensures LowerValid() && engine.transferRings[..] == old(engine.transferRings[..])
      ensures setup == old(live[0]).req.setup && Runnable(old(Pipe()))
      ensures Pipe() == DoComplete(old(Pipe()), code, residual).0 && Others() == old(Others())
    {
      hide Complete, Runnable, DoComplete, ControlPipes.Inv, Get, SlotOf;
      ghost var s := Pipe();
      OldestCompletes(s, code, residual);
      ControlRing();
      hide Apart;
      var o := engine.OnTransferEventReceived(EP0_DCI, slot, code, residual);
      OneRingChanged(EP0_DCI - 1);
      read, live := live[0].at + 2, live[1..];
      setup := o.setup;
    }

    lemma RingsInLower()
      requires LowerValid()
      ensures engine.transferRings in lower && engine.transferRings.Length == 31
    {
    }

    lemma ControlRing()
      requires LowerValid()
      ensures engine.transferRings[EP0_DCI - 1] != null
      ensures Pipe().pipe.ring.mem == engine.transferRings[EP0_DCI - 1].buf[..]
    {
      assert engine.transferRings[..][EP0_DCI - 1] == engine.transferRings[EP0_DCI - 1];
    }

    /** The transfer event of a report: the TRB that it names is a Normal TRB on the ring of the
        class driver's interrupt-in endpoint. */
    ghost predicate Reports(slot: nat, code: nat, residual: nat)
      requires Valid()
      reads this, lower, upper, hid
    {
      && reports > 0 && hid != null && CanPoll() && HidEndpoint() % 2 == 1
      && (code == CODE_SUCCESS || code == CODE_SHORT_PACKET)
      && Get(engine.setupStageMap.table[..], TrbPtr(HidEndpoint(), slot)).None?
      && usb.classDrivers[HidEndpoint() / 2].Some?
      && var tr := engine.transferRings[HidEndpoint() - 1];
         && slot < tr.bufSize && tr.buf[slot].Type() == NORMAL_TYPE
         && 0 <= TransferLength(tr.buf[slot]) - residual <= HID_BUFFER_SIZE
    }

    /** The class driver reads its buffer and starts the next transfer. */
    method OnInterruptEvent(slot: nat, code: nat, residual: nat) returns (err: Error, notified: seq<Byte>)
      requires Valid() && Reports(slot, code, residual)
      modifies this`inFlight, this`reports, lower, upper
      ensures Valid() && err == Success && View() == DeviceRuns.OnInterruptEvent(old(View())) && CanPoll()
      ensures hid.self.kind == Keyboard ==> notified == old(Notified(hid.buf[..], hid.previousBuf[..], 2))
      ensures hid != null && hid.Valid() && 0 <= old(ReportLength(slot, residual)) <= HID_BUFFER_SIZE
      ensures var n := old(ReportLength(slot, residual));
              hid.View() == old(hid.View()).(previous := old(hid.View()).buf[..n] + old(hid.View()).previous[n..])
      ensures OnePolled(old(Others()), Others(), HidEndpoint(), hid.Report())
    {
      hide Valid, View, CanPoll, Reports, Notified, Others, OnePolled, ReportLength;
      ViewIs();
      ReportsMeans(slot, code, residual);
      var len := ReadReport(slot, code, residual);
      var next;
      notified, next := TakeReport(len);
      err := InterruptIn(next);
    }

    lemma ReportsMeans(slot: nat, code: nat, residual: nat)
      requires Valid() && Reports(slot, code, residual)
      ensures reports > 0 && View().reports == reports && hid != null && CanPoll()
      ensures engine.setupStageMap.table in lower && {hid, hid.buf, hid.previousBuf} !! lower && hid.Valid()
      ensures 0 <= ReportLength(slot, residual) <= HID_BUFFER_SIZE
    {
      hide BelongsTo, HasDrivers, Apart;
    }

    method ReadReport(slot: nat, code: nat, residual: nat) returns (len: nat)
      requires Valid() && Reports(slot, code, residual)
      modifies engine.setupStageMap.table
      ensures Valid() && View() == old(View()) && CanPoll() && len <= HID_BUFFER_SIZE
      ensures Others() == old(Others())
      ensures len == old(ReportLength(slot, residual))
    {
      hide UpperValid, Apart, Get, Complete, OthersTo;
      ghost var p := engine.PipeAt(HidEndpoint());
      NormalCompletes(p, slot, code, residual);
      PipeIs();
      var o := engine.OnTransferEventReceived(hid.epInterruptIn, slot, code, residual);
      OneRingChanged(EP0_DCI - 1);
      len := o.len;
    }

    method TakeReport(len: nat) returns (notified: seq<Byte>, next: Buffer)
      requires Valid() && hid != null && CanPoll() && len <= HID_BUFFER_SIZE
      requires reports > 0
      modifies this`reports, upper
      ensures Valid() && View() == old(View()).(reports := old(reports) - 1) && CanPoll()
      ensures hid.self.kind == Keyboard ==> notified == old(Notified(hid.buf[..], hid.previousBuf[..], 2))
      ensures hid.Valid() && hid.View() == old(hid.View()).(previous := old(hid.View()).buf[..len] + old(hid.View()).previous[len..])
      ensures next == hid.Report() && Others() == old(Others())
    {
      hide BelongsTo, HasDrivers, PollEndpoint, LowerValid, Notified, Others;
      var issue, e;
      e, notified, issue := hid.OnInterruptCompleted(true, len);
      next := issue.value;
      reports := reports - 1;
    }

    // ---------------------------------------------------------------- a run of reports

    /** A keyboard can be polled, and the transfer for its report lies in ring slot `slot`. */
    ghost predicate Pollable(slot: nat)
      requires Valid()
      reads this`hid, this`lower, this`upper, lower, upper, hid
    {
      && hid != null && hid.self.kind == Keyboard && CanPoll() && HidEndpoint() % 2 == 1
      && usb.classDrivers[HidEndpoint() / 2].Some?
      && (forall k :: Get(engine.setupStageMap.table[..], TrbPtr(HidEndpoint(), k)).None?)
      && var ring := Others()[HidEndpoint() - 2];
         ring.Some? && slot < |ring.value.mem| && NormalWords(ring.value.mem[slot], hid.Report())
    }

    lemma PollableMeans(slot: nat)
      requires Valid() && Pollable(slot)
      ensures hid != null && hid.Valid() && hid.self.kind == Keyboard && CanPoll() && hid.buf in upper
      ensures this !in lower + upper
      ensures EP0_DCI < HidEndpoint() == hid.epInterruptIn
      ensures View().inFlight == inFlight && View().reports == reports
      ensures HidEndpoint() - 1 < engine.transferRings.Length && engine.transferRings[HidEndpoint() - 1] != null
      ensures Others()[HidEndpoint() - 2].Some?
      ensures Others()[HidEndpoint() - 2].value.index == engine.transferRings[HidEndpoint() - 1].writeIndex
    {
      hide BelongsTo, HasDrivers, PollEndpoint, Apart;
    }

    lemma PollableReports(slot: nat)
      requires Valid() && Pollable(slot) && reports > 0
      ensures Reports(slot, CODE_SUCCESS, 0) && ReportLength(slot, 0) == KEYBOARD_PACKET
    {
      hide UpperValid, Apart;
      NormalWordsType(Others()[HidEndpoint() - 2].value.mem[slot], hid.Report());
      assert hid.Valid() by { ReportOfKeyboard(); }
      ReportOfKeyboard();
    }

    lemma ReportOfKeyboard()
      requires Valid() && hid != null
      ensures hid.Valid()
    {
      hide LowerValid, BelongsTo, HasDrivers, PollEndpoint;
    }

    twostate lemma PollableStays(slot: nat)
      requires old(Valid()) && Valid() && hid == old(hid) && CanPoll() && old(Pollable(slot))
      requires View() == old(View()).(inFlight := View().inFlight, reports := View().reports)
      requires HidEndpoint() == old(HidEndpoint()) && Others() == old(Others())
      ensures Pollable(slot)
    {
      hide LowerValid, UpperValid, NormalWords, Others;
      assert View().pipe.pipe.table == engine.setupStageMap.table[..];
      assert old(View()).pipe.pipe.table == old(engine.setupStageMap.table[..]);
      assert View().usb.drivers == usb.classDrivers[..] && old(View()).usb.drivers == old(usb.classDrivers[..]);
    }

    /** What `Pollable` needs stays when only the ring of the endpoint gains its next transfer. */
    twostate lemma PollableAgain(next: nat)
      requires old(Valid()) && Valid() && hid == old(hid) && hid != null && CanPoll() && old(exists k :: Pollable(k))
      requires View() == old(View()).(inFlight := View().inFlight, reports := View().reports)
      requires HidEndpoint() == old(HidEndpoint())
      requires OnePolled(old(Others()), Others(), HidEndpoint(), hid.Report())
      requires next == old(Others())[HidEndpoint() - 2].value.index
      ensures Pollable(next)
    {
      hide LowerValid, UpperValid, NormalWords, OnePushed, Others;
      var k :| old(Pollable(k));
      assert View().pipe.pipe.table == engine.setupStageMap.table[..];
      assert old(View()).pipe.pipe.table == old(engine.setupStageMap.table[..]);
      assert View().usb.drivers == usb.classDrivers[..] && old(View()).usb.drivers == old(usb.classDrivers[..]);
    }

    /** The controller's part: it stores a report at the start of the class driver's buffer, and the
        transfer is done. */
    method Deliver(report: seq<Byte>)
      requires Valid() && hid != null && CanPoll() && inFlight > 0 && |report| <= HID_BUFFER_SIZE
      modifies this`inFlight, this`reports, hid.buf
      ensures Valid() && View() == FinishInterrupt(old(View())) && Others() == old(Others()) && CanPoll()
      ensures hid.Valid() && hid.View() == old(hid.View()).(buf := report + old(hid.View()).buf[|report|..])
    {
      hide LowerValid, BelongsTo, HasDrivers, PollEndpoint, Others;
      forall i | 0 <= i < |report| { hid.buf[i] := report[i]; }
      inFlight, reports := inFlight - 1, reports + 1;
      assert hid.buf[..] == report + old(hid.View()).buf[|report|..];
    }

    /** One report of a keyboard, from the controller's buffer to the notified keys and the next
        transfer, which lies in ring slot `next`. */
    method NextReport(slot: nat, report: seq<Byte>) returns (next: nat, keys: seq<Byte>)
      requires Valid() && Pollable(slot) && inFlight == 1 && reports == 0 && |report| == KEYBOARD_PACKET
      modifies this`inFlight, this`reports, lower, upper
      ensures Valid() && hid == old(hid) && Pollable(next) && inFlight == 1 && reports == 0
      ensures hid.Valid() && (hid.View(), keys) == OneReport(old(hid.View()), report)
    {
      hide Valid, View, CanPoll, Reports, Notified, Others, OnePolled, ReportLength;
      PollableMeans(slot);
      Deliver(report);
      PollableStays(slot);
      ViewIs();
      PollableMeans(slot);
      PollableReports(slot);
      next := engine.transferRings[hid.epInterruptIn - 1].writeIndex;
      var e;
      e, keys := OnInterruptEvent(slot, CODE_SUCCESS, 0);
      PollableAgain(next);
      PollableMeans(next);
    }

    /** A run of full reports: the device object takes the steps of `ReportRun`, so every report
        notifies exactly the keys that were absent from the report before. */
    method ReportRunOn(slot: nat, reports: seq<seq<Byte>>) returns (next: nat, log: seq<seq<Byte>>)
      requires Valid() && Pollable(slot) && inFlight == 1 && this.reports == 0 && FullReports(reports)
      modifies this`inFlight, this`reports, lower, upper
      ensures Valid() && hid == old(hid) && Pollable(next) && inFlight == 1 && this.reports == 0
      ensures hid.Valid() && (hid.View(), log) == ReportRun(old(hid.View()), reports)
      ensures |log| == |reports|
      ensures old(hid.View()).buf == old(hid.View()).previous == LastReport([]) ==>
                forall i :: 0 <= i < |reports| ==> NotifiesNewKeys(reports, i, log[i])
    {
      hide Valid, View, Pollable, CanPoll, LastReport, OneReport, NotifiesNewKeys;
      PollableMeans(slot);
      ghost var h := hid.View();
      next, log := slot, [];
      var i := 0;
      while i < |reports|
        invariant lower == old(lower) && upper == old(upper)
        invariant i <= |reports| && Valid() && hid == old(hid) && hid != null && Pollable(next) && inFlight == 1 && this.reports == 0
        invariant hid.Valid() && (hid.View(), log) == ReportRun(h, reports[..i])
      {
        assert reports[..i + 1][..i] == reports[..i];
        PollableMeans(next);
        var keys;
        next, keys := NextReport(next, reports[i]);
        log := log + [keys];
        i := i + 1;
      }
      assert reports[..i] == reports;
      if h.buf == h.previous == LastReport([]) { ReportRunNotifiesNewKeys(h, reports); }
    }

    ghost function HidEndpoint(): int
      reads this`hid, hid
    {
      if hid == null then 0 else hid.epInterruptIn
    }

    ghost function HidPhase(): nat
      reads this`hid, hid
    {
      if hid == null then 0 else hid.initializePhase
    }
  }

  /** The map entry of the oldest request names a slot of the same ring, and its event is its
      own. */
  lemma OldestCompletes(s: PipeState, code: nat, residual: nat)
    requires ControlPipes.Inv(s) && s.live != [] && (code == CODE_SUCCESS || code == CODE_SHORT_PACKET)
    ensures Runnable(s) && |s.pipe.ring.mem| == RING_SIZE
    ensures var slot := SlotOf(s.live[0].at + 1);
            var e := Get(s.pipe.table, TrbPtr(s.pipe.dci, slot));
            && slot < RING_SIZE && e.Some? && e.value.dci == s.pipe.dci && e.value.slot < RING_SIZE
            && var (p, o) := Complete(s.pipe, slot, code, residual);
               && o.ControlCompleted? && o.setup == s.live[0].req.setup
               && DoComplete(s, code, residual).0 == PipeState(p, s.total, s.live[0].at + 2, s.live[1..])
  {
    hide Get, Complete, SlotOf, InPlace, WindowInv, TableInv, SetupOf, EventOf;
    assert |s.pipe.ring.mem| == RING_SIZE;
    hide ControlPipes.Inv;
    InvIsRunnable(s);
    OldestIsMatched(s);
    CompletionFindsItsRequest(s, code, residual);
  }

  lemma NormalCompletes(p: ControlPipes.Pipe, slot: nat, code: nat, residual: nat)
    requires slot < |p.ring.mem| && p.ring.mem[slot].Type() == NORMAL_TYPE && Get(p.table, TrbPtr(p.dci, slot)).None?
    requires code == CODE_SUCCESS || code == CODE_SHORT_PACKET
    ensures Complete(p, slot, code, residual) ==
            (p, InterruptCompleted(DataPointer(p.ring.mem[slot]), TransferLength(p.ring.mem[slot]) - residual))
  {
  }

  /** A good completion in terms of the request that completes. */
  lemma EventIs(d: Dev, code: nat, residual: nat, ds: seq<Descriptor>)
    requires ControlPipes.Inv(d.pipe) && d.pipe.pipe.dci == EP0_DCI && IsAnswer(d, ds)
    requires code == CODE_SUCCESS || code == CODE_SHORT_PACKET
    ensures ControlPipes.Inv(d.pipe) && Runnable(d.pipe) && d.pipe.live != []
    ensures Asked(d).request == GET_DESCRIPTOR ==> IsGoodReply(ds)
    ensures var p := DoComplete(d.pipe, code, residual).0;
            DeviceRuns.OnControlEvent(d, code, residual, ds) == DeviceRuns.React(d.(pipe := p), Asked(d), ds)
    ensures var r := OnControl(d.usb, Asked(d), ds, d.buffer);
            ControlError(d, code, residual, ds) == if r.waiter.Some? && d.hidPhase != 1 then NotImplemented else r.error
  {
    InvIsRunnable(d.pipe);
    var p := ControlEventIs(d, code, residual, ds);
    hide ControlPipes.Inv, DoComplete, OnControl, Runnable, DeviceRuns.OnControlEvent, DeviceRuns.React, PhaseInv;
  }

  lemma StartsUntouched(d: Dev)
    requires DeviceRuns.Inv(d)
    ensures d.usb.phase < 3 ==> d.hidPhase == 0 && d.usb.drivers == NewUsb().drivers && d.usb.waiters == NewUsb().waiters
  {
    var driver :| PhaseInv(d, driver);
  }

  /** When a completed request initializes the device, and when it brings it to phase 3. */
  lemma ControlPhases(u: Usb, setup: SetupData, ds: seq<Descriptor>, buffer: Address)
    requires setup.request == GET_DESCRIPTOR ==> IsGoodReply(ds)
    ensures var u' := OnControl(u, setup, ds, buffer).usb;
            && (u'.isInitialized <==> u.isInitialized || FinishesPhase3(u, setup))
            && (u'.isInitialized ==> u'.configs == u.configs)
            && (u'.phase == 3 && !u'.isInitialized ==> u.phase == 3 || (InPhase2(u, setup, ds) && FirstDriver(ds).Some?))
  {
    hide OwnEndpoints, AssignDrivers, Phase2, FirstDriver, FirstSelected, FitsTable;
    if InPhase2(u, setup, ds) {
      assert Descriptors.WellFormed(ds[0]);
      Phase2Is(u, ds);
    }
  }

  lemma Phase2Belongs(u: Usb, ds: seq<Descriptor>)
    requires IsGoodReply(ds) && ds[0][1] == CONFIGURATION_TYPE && FirstDriver(ds).Some?
    requires u.drivers == NewUsb().drivers && u.waiters == NewUsb().waiters
    ensures |ds[0]| >= 6 && Phase2(u, ds).1.Some? && BelongsTo(Phase2(u, ds).0, FirstDriver(ds).value)
  {
    assert Descriptors.WellFormed(ds[0]);
    hide OwnEndpoints;
    Phase2Selects(u, ds, FirstSelected(ds, 1));
  }

  lemma Phase2SelectsNothing(u: Usb, ds: seq<Descriptor>)
    requires IsGoodReply(ds) && ds[0][1] == CONFIGURATION_TYPE && FirstDriver(ds).None?
    ensures |ds[0]| >= 6 && Phase2(u, ds) == (u, None)
  {
    assert Descriptors.WellFormed(ds[0]);
    Phase2Is(u, ds);
    hide OwnEndpoints, Phase2;
  }

  /** What a completed request does to whom the endpoints and the waiting requests belong to. */
  lemma ControlBelongs(u: Usb, setup: SetupData, ds: seq<Descriptor>, buffer: Address, driver: ClassDriver)
    requires setup.request == GET_DESCRIPTOR ==> IsGoodReply(ds)
    requires u.phase < 3 && !u.isInitialized ==> u.drivers == NewUsb().drivers && u.waiters == NewUsb().waiters
    ensures var r := OnControl(u, setup, ds, buffer);
            && (InPhase2(u, setup, ds) && FirstDriver(ds).Some? ==>
                  BelongsTo(r.usb, FirstDriver(ds).value) && r.waiter.None? && !FinishesPhase3(u, setup))
            && (!(InPhase2(u, setup, ds) && FirstDriver(ds).Some?) ==>
                  && (BelongsTo(u, driver) ==> BelongsTo(r.usb, driver) && (r.waiter.Some? ==> r.waiter == Some(driver)))
                  && (NoDrivers(u) ==> NoDrivers(r.usb))
                  && (r.usb.phase >= 3 || r.usb.isInitialized ==> u.phase >= 3 || u.isInitialized)
                  && (r.waiter.Some? ==> u.isInitialized))
            && (r.waiter.Some? ==> r.next.None? && r.error == Success)
            && (r.next.Some? ==> r.error == Success)
            && (u.isInitialized ==> !InPhase2(u, setup, ds) && !FinishesPhase3(u, setup))
  {
    hide OwnEndpoints, AssignDrivers, Phase2, FirstDriver, FirstSelected, FitsTable;
    if InPhase2(u, setup, ds) {
      if FirstDriver(ds).Some? { Phase2Belongs(u, ds); } else { Phase2SelectsNothing(u, ds); }
    }
    if u.isInitialized && BelongsTo(u, driver) && Get(u.waiters, setup).Some? { WaiterBelongs(u, driver, setup); }
  }
}
