/** One device from Address Device to HID polling: the transfer engine, the USB device and
    the class driver together, driven by the completions of its default control pipe and of
    its interrupt endpoint. */
module DeviceRuns {
  import opened ArrayMaps
  import opened ControlPipes
  import opened Descriptors
  import Endpoints
  import opened Errors
  import opened Trbs
  import opened UsbDevices
  import TrbRing

  const EP0_DCI := 1

  /** `hidPhase` is the class driver's own phase, `inFlight` the number of interrupt-in
      transfers that the controller is working on, `reports` the number of those that are
      done and not handled, `told` how often the class driver has been told that its
      endpoints are configured, `answered` how many of its requests have completed. */
  datatype Dev = Dev(
    pipe: PipeState, usb: Usb, buffer: Address,
    hidPhase: nat, inFlight: nat, reports: nat, told: nat, answered: nat)

  function NewDev(base: Address, buffer: Address): Dev {
    Dev(Fresh(EP0_DCI, base), NewUsb(), buffer, 0, 0, 0, 0, 0)
  }

  /** The same device with a new ring for its default control pipe. */
  function NewRing(d: Dev, base: Address): Dev {
    d.(pipe := PipeState(d.pipe.pipe.(ring := TrbRing.EmptyImage(base, TrbRing.RING_SIZE)), 0, 0, []))
  }

  /** The ring that configuring these endpoints gives to the default control pipe: endpoint number 0,
      IN, has the same context index. `at` are the addresses of the endpoints' rings. */
  function ControlRingAt(configs: seq<EndpointConfig>, at: seq<Address>): Option<Address> {
    if configs == [] then None
    else
      var n := |configs| - 1;
      if n < |at| && Endpoints.Dci(configs[n]) == EP0_DCI then Some(at[n]) else ControlRingAt(configs[..n], at)
  }

  /** The device after its endpoints have been given contexts and rings. */
  function Reprogrammed(d: Dev, at: seq<Address>): Dev {
    match ControlRingAt(d.usb.configs, at)
    case None => d
    case Some(base) => NewRing(d, base)
  }

  /** There is such a ring if and only if some endpoint has the index, and then it is one of the new
      ones. */
  lemma {:induction false} ControlRingAtMeans(configs: seq<EndpointConfig>, at: seq<Address>)
    requires |configs| <= |at|
    ensures ControlRingAt(configs, at).Some? <==> exists c :: c in configs && Endpoints.Dci(c) == EP0_DCI
    ensures ControlRingAt(configs, at).Some? ==> ControlRingAt(configs, at).value in at
  {
    if configs != [] {
      var n := |configs| - 1;
      ControlRingAtMeans(configs[..n], at);
      assert configs == configs[..n] + [configs[n]];
    }
  }

  lemma {:induction false} NoControlRing(configs: seq<EndpointConfig>, at: seq<Address>)
    requires forall c :: c in configs ==> Endpoints.Dci(c) != EP0_DCI
    ensures ControlRingAt(configs, at) == None
  {
    if configs != [] { NoControlRing(configs[..|configs| - 1], at); }
  }

  lemma {:induction false} HasControlRing(configs: seq<EndpointConfig>, at: seq<Address>, i: nat)
    requires i < |configs| <= |at| && Endpoints.Dci(configs[i]) == EP0_DCI
    requires forall j :: i < j < |configs| ==> Endpoints.Dci(configs[j]) != EP0_DCI
    ensures ControlRingAt(configs, at) == Some(at[i])
  {
    var n := |configs| - 1;
    if i < n { HasControlRing(configs[..n], at, i); }
  }

  function Issued(d: Dev, next: Option<Request>): Dev {
    if next.None? || !d.pipe.pipe.ring.Valid() then d else d.(pipe := DoIssue(d.pipe, next.value))
  }

  /** `InitializeDevice`: start the first phase. */
  function Start(d: Dev): Dev {
    var (u, req) := Started(d.usb, d.buffer);
    Issued(d.(usb := u), Some(req))
  }

  /** What the device does about a completed request `setup` that was answered by `ds`. */
  function React(d: Dev, setup: SetupData, ds: seq<Descriptor>): Dev
    requires setup.request == GET_DESCRIPTOR ==> IsReply(ds)
  {
    var r := OnControl(d.usb, setup, ds, d.buffer);
    var d' := Issued(d.(usb := r.usb), r.next);
    if r.waiter.None? then d'
    else if d'.hidPhase == 1 then
      d'.(hidPhase := 2, inFlight := d'.inFlight + 1, answered := d'.answered + 1)
    else d'.(answered := d'.answered + 1)
  }

  /** A transfer event for the oldest control request; `ds` is the device's answer. */
  function OnControlEvent(d: Dev, code: nat, residual: nat, ds: seq<Descriptor>): Dev {
    if d.pipe.live == [] || !Runnable(d.pipe) then d
    else
      var (p, o) := DoComplete(d.pipe, code, residual);
      if !o.ControlCompleted? || (o.setup.request == GET_DESCRIPTOR && !IsReply(ds)) then d.(pipe := p)
      else React(d.(pipe := p), o.setup, ds)
  }

  /** The error code of the same event. The class driver expects one completion only. */
  function ControlError(d: Dev, code: nat, residual: nat, ds: seq<Descriptor>): Error {
    if d.pipe.live == [] || !Runnable(d.pipe) then NoCorrespondingSetupStage
    else
      var o := DoComplete(d.pipe, code, residual).1;
      if o.Failed? then o.error
      else if !o.ControlCompleted? then Success
      else if o.setup.request == GET_DESCRIPTOR && !IsReply(ds) then InvalidDescriptor
      else
        var r := OnControl(d.usb, o.setup, ds, d.buffer);
        if r.waiter.Some? && d.hidPhase != 1 then NotImplemented else r.error
  }

  /** One call of the class driver: phase 1, remember the waiter, ask for the boot protocol. */
  function TellOne(d: Dev, driver: ClassDriver): Dev {
    var req := SetProtocolRequest(driver);
    Issued(d.(usb := d.usb.(waiters := Put(d.usb.waiters, req.setup, driver)),
              hidPhase := 1, told := d.told + 1),
           Some(req))
  }

  function TellAll(d: Dev, calls: seq<ClassDriver>): Dev {
    if calls == [] then d else TellOne(TellAll(d, calls[..|calls| - 1]), calls[|calls| - 1])
  }

  /** `CompleteConfiguration`: tell the drivers. */
  function OnConfigured(d: Dev): Dev {
    TellAll(d, Calls(d.usb.drivers))
  }

  /** The controller finishes an interrupt-in transfer. */
  function FinishInterrupt(d: Dev): Dev
    requires d.inFlight > 0
  {
    d.(inFlight := d.inFlight - 1, reports := d.reports + 1)
  }

  /** The class driver reads its buffer and starts the next transfer. */
  function OnInterruptEvent(d: Dev): Dev
    requires d.reports > 0
  {
    d.(reports := d.reports - 1, inFlight := d.inFlight + 1)
  }

  // ---------------------------------------------------------------- the invariant

  /** All the endpoint numbers with a driver have the same one, and number 0 has none. */
  predicate OneDriver(drivers: Drivers, driver: ClassDriver) {
    && drivers[0].None?
    && forall n :: 0 <= n < ENDPOINT_NUMBERS ==> drivers[n].None? || drivers[n].value == driver
  }

  /** The boot protocol requests `from` to `to` - 1, which follow the eight TRBs of the
      initialization. */
  function ProtocolRequests(driver: ClassDriver, from: nat, to: nat): seq<Live>
    requires from <= to
  {
    seq(to - from, i requires 0 <= i < to - from => Live(SetProtocolRequest(driver), 8 + 2 * (from + i)))
  }

  /** Where the default control pipe is in each phase: how many TRBs were pushed and read,
      and which requests are outstanding. */
  ghost predicate PhaseInv(d: Dev, driver: ClassDriver) {
    var (s, u) := (d.pipe, d.usb);
    && (u.isInitialized <==> u.phase == 4)
    && (u.phase < 4 ==> d.told == 0)
    && (u.phase < 3 ==> u.drivers == NewUsb().drivers)
    && (u.phase >= 3 ==> FromOne(u.configs))
    && (d.told == 0 ==>
          && u.waiters == NewUsb().waiters && d.hidPhase == 0 && d.inFlight + d.reports == 0 && d.answered == 0)
    && match u.phase
       case 0 => s.live == [] && s.total == 0 && s.read == 0
       case 1 => s.live == [Live(GetDescriptorRequest(DEVICE_TYPE, d.buffer), 0)] && s.total == 3 && s.read == 0
       case 2 =>
         && s.total == 6
         && (|| (s.live == [Live(GetDescriptorRequest(CONFIGURATION_TYPE, d.buffer), 3)] && s.read == 2)
             || (s.live == [] && s.read == 5))
       case 3 =>
         && s.total == 8 && s.read == 5 && OneDriver(u.drivers, driver)
         && |s.live| == 1 && s.live[0].at == 6
         && exists v: Byte :: s.live[0].req == SetConfigurationRequest(v)
       case 4 =>
         && OneDriver(u.drivers, driver)
         && d.answered <= d.told <= ENDPOINT_NUMBERS - 1
         && s.live == ProtocolRequests(driver, d.answered, d.told)
         && s.total == 8 + 2 * d.told && s.read == 8 + 2 * d.answered
         && (d.told > 0 ==>
               && Get(u.waiters, SetProtocolRequest(driver).setup) == Some(driver)
               && d.hidPhase == (if d.answered == 0 then 1 else 2)
               && d.inFlight + d.reports == (if d.answered == 0 then 0 else 1))
       case _ => false
  }

  ghost predicate Inv(d: Dev) {
    && ControlPipes.Inv(d.pipe)
    && d.pipe.pipe.dci == EP0_DCI
    && exists driver :: PhaseInv(d, driver)
  }

  /** What the oldest outstanding request asks for. */
  function Asked(d: Dev): SetupData
    requires d.pipe.live != []
  {
    d.pipe.live[0].req.setup
  }

  /** The device's answer to the oldest request is well formed: the descriptor that was
      asked for, and in a configuration block every interface followed by the endpoints it
      declares. */
  predicate IsAnswer(d: Dev, ds: seq<Descriptor>) {
    d.pipe.live != [] &&
    (Asked(d).request == GET_DESCRIPTOR ==>
       IsGoodReply(ds) && KindOf(ds) * 0x100 == Asked(d).value)
  }

  /** And the endpoints are numbered from 1, as the USB specification has it. */
  predicate GoodAnswer(d: Dev, ds: seq<Descriptor>) {
    IsAnswer(d, ds) && (Asked(d).request == GET_DESCRIPTOR ==> NumberedFromOne(ds))
  }

  /** The type byte of the first descriptor. */
  function KindOf(ds: seq<Descriptor>): int
    requires IsReply(ds)
  {
    assert WellFormed(ds[0]);
    ds[0][1]
  }

  predicate FromOne(configs: seq<EndpointConfig>) {
    forall j :: 0 <= j < |configs| ==> configs[j].number >= 1
  }

  predicate NumberedFromOne(ds: seq<Descriptor>) {
    forall i :: 0 <= i < |ds| && IsInterface(ds[i]) ==> FromOne(OwnEndpoints(ds, i + 1))
  }

  lemma NewDevInv(base: Address, buffer: Address)
    requires base % 16 == 0
    ensures Inv(NewDev(base, buffer)) && NewDev(base, buffer).usb.phase == 0
  {
    FreshInv(EP0_DCI, base);
    assert PhaseInv(NewDev(base, buffer), NO_DRIVER);
  }

  /** Starting a fresh device respects the limits of the pipe. */
  lemma StartKeepsInv(d: Dev)
    requires Inv(d) && d.usb.phase == 0
    ensures MayIssue(d.pipe, GetDescriptorRequest(DEVICE_TYPE, d.buffer))
    ensures Inv(Start(d)) && Start(d).usb.phase == 1 && |Start(d).pipe.live| == 1
  {
    var driver :| PhaseInv(d, driver);
    IssueKeepsInv(d.pipe, GetDescriptorRequest(DEVICE_TYPE, d.buffer));
    assert Issued(d, Some(GetDescriptorRequest(DEVICE_TYPE, d.buffer))).pipe
        == DoIssue(d.pipe, GetDescriptorRequest(DEVICE_TYPE, d.buffer));
    hide ControlPipes.Inv, Issue;
    assert PhaseInv(Start(d), driver);
  }

  /** A control completion, seen through the pipe: the outcome is the reply to the oldest
      request, and what follows depends on that request alone. */
  lemma ControlEventIs(d: Dev, code: nat, residual: nat, ds: seq<Descriptor>) returns (p: PipeState)
    requires ControlPipes.Inv(d.pipe) && d.pipe.pipe.dci == EP0_DCI && IsAnswer(d, ds)
    requires code == CODE_SUCCESS || code == CODE_SHORT_PACKET
    ensures DoComplete(d.pipe, code, residual) == (p, Reply(d.pipe.live[0].req, residual))
    ensures ControlPipes.Inv(p) && p.pipe.dci == EP0_DCI
    ensures p.live == d.pipe.live[1..] && p.total == d.pipe.total && p.read == d.pipe.live[0].at + 2
    ensures OnControlEvent(d, code, residual, ds) == React(d.(pipe := p), Asked(d), ds)
  {
    CompletionFindsItsRequest(d.pipe, code, residual);
    InvIsRunnable(d.pipe);
    p := DoComplete(d.pipe, code, residual).0;
    CompletionKeepsCounts(d.pipe, code, residual);
    hide ControlPipes.Inv, DoComplete, React, PhaseInv, OwnEndpoints;
  }

  /** A good reply to an initialized device is refused when nobody waits for it, and by a class driver
      that has had its first reply already. */
  lemma ReplyIsRefusedExactlyWhen(d: Dev, code: nat, residual: nat, ds: seq<Descriptor>)
    requires ControlPipes.Inv(d.pipe) && d.pipe.pipe.dci == EP0_DCI && IsAnswer(d, ds) && d.usb.isInitialized
    requires code == CODE_SUCCESS || code == CODE_SHORT_PACKET
    ensures ControlError(d, code, residual, ds) == if Get(d.usb.waiters, Asked(d)).None? then NoWaiter
                                                   else if d.hidPhase == 1 then Success else NotImplemented
  {
    InvIsRunnable(d.pipe);
    var p := ControlEventIs(d, code, residual, ds);
    hide ControlPipes.Inv, DoComplete, Get;
  }

  lemma CompletionKeepsCounts(s: PipeState, code: nat, residual: nat)
    requires s.live != [] && Runnable(s)
    ensures var p := DoComplete(s, code, residual).0;
            && p.live == s.live[1..] && p.total == s.total && p.read == s.live[0].at + 2
            && p.pipe.dci == s.pipe.dci
  {
  }

  /** Issuing one more request from a state whose pipe has room. */
  lemma IssuedKeeps(d: Dev, req: Request)
    requires ControlPipes.Inv(d.pipe) && d.pipe.pipe.dci == EP0_DCI && MayIssue(d.pipe, req)
    ensures var s := Issued(d, Some(req)).pipe;
            && ControlPipes.Inv(s) && s.pipe.dci == EP0_DCI
            && s.live == d.pipe.live + [Live(req, d.pipe.total)]
            && s.total == d.pipe.total + req.Trbs() && s.read == d.pipe.read
            && Issued(d, Some(req)) == d.(pipe := s)
  {
    IssueKeepsInv(d.pipe, req);
  }

  /** While a device is being initialized its completions are never refused. */
  lemma InitializationSucceeds(d: Dev, code: nat, residual: nat, ds: seq<Descriptor>)
    requires Inv(d) && d.usb.phase < 4 && GoodAnswer(d, ds)
    requires code == CODE_SUCCESS || code == CODE_SHORT_PACKET
    ensures ControlError(d, code, residual, ds) == Success
  {
    InvIsRunnable(d.pipe);
    var p := ControlEventIs(d, code, residual, ds);
    var driver :| PhaseInv(d, driver);
    hide ControlPipes.Inv, DoComplete, OwnEndpoints, Phase2;
  }

  lemma DeviceAnswered(d: Dev, code: nat, residual: nat, ds: seq<Descriptor>)
    requires Inv(d) && d.usb.phase == 1 && GoodAnswer(d, ds)
    requires code == CODE_SUCCESS || code == CODE_SHORT_PACKET
    ensures var d' := OnControlEvent(d, code, residual, ds);
            Inv(d') && d'.usb.phase == 2 && |d'.pipe.live| == 1
  {
    hide ControlPipes.Inv, DoComplete, Issued, OnControlEvent;
    var driver :| PhaseInv(d, driver);
    var p := ControlEventIs(d, code, residual, ds);
    var r := OnControl(d.usb, Asked(d), ds, d.buffer);
    IssuedKeeps(d.(pipe := p, usb := r.usb), r.next.value);
    assert PhaseInv(OnControlEvent(d, code, residual, ds), driver);
  }

  lemma ConfigurationAnswered(d: Dev, code: nat, residual: nat, ds: seq<Descriptor>)
    requires Inv(d) && d.usb.phase == 2 && d.pipe.live != [] && GoodAnswer(d, ds)
    requires code == CODE_SUCCESS || code == CODE_SHORT_PACKET
    ensures var d' := OnControlEvent(d, code, residual, ds);
            && Inv(d')
            && if FirstSelected(ds, 1) < |ds| then d'.usb.phase == 3 && |d'.pipe.live| == 1
               else d'.usb.phase == 2 && d'.pipe.live == []
  {
    hide ControlPipes.Inv, DoComplete, Issued, OnControlEvent, OwnEndpoints;
    var driver :| PhaseInv(d, driver);
    var p := ControlEventIs(d, code, residual, ds);
    var r := OnControl(d.usb, Asked(d), ds, d.buffer);
    if r.next.Some? {
      var i := FirstSelected(ds, 1);
      Phase2Selects(d.usb, ds, i);
      IssuedKeeps(d.(pipe := p, usb := r.usb), r.next.value);
      assert OneDriver(r.usb.drivers, NewClassDriver(ds[i]).value);
      assert PhaseInv(OnControlEvent(d, code, residual, ds), NewClassDriver(ds[i]).value);
    } else {
      NoneIssued(d.(pipe := p, usb := r.usb));
      assert PhaseInv(OnControlEvent(d, code, residual, ds), driver);
    }
  }

  lemma NoneIssued(d: Dev)
    ensures Issued(d, None) == d
  {
  }

  lemma SetConfigurationAnswered(d: Dev, code: nat, residual: nat, ds: seq<Descriptor>)
    requires Inv(d) && d.usb.phase == 3 && GoodAnswer(d, ds)
    requires code == CODE_SUCCESS || code == CODE_SHORT_PACKET
    ensures var d' := OnControlEvent(d, code, residual, ds);
            Inv(d') && d'.usb.phase == 4 && d'.pipe.live == [] && d'.told == 0
  {
    hide ControlPipes.Inv, DoComplete, Issued, OnControlEvent;
    var driver :| PhaseInv(d, driver);
    var p := ControlEventIs(d, code, residual, ds);
    NoneIssued(d.(pipe := p, usb := OnControl(d.usb, Asked(d), ds, d.buffer).usb));
    assert PhaseInv(OnControlEvent(d, code, residual, ds), driver);
  }

  lemma ProtocolAnswered(d: Dev, code: nat, residual: nat, ds: seq<Descriptor>)
    requires Inv(d) && d.usb.phase == 4 && d.pipe.live != [] && GoodAnswer(d, ds)
    requires code == CODE_SUCCESS || code == CODE_SHORT_PACKET
    ensures var d' := OnControlEvent(d, code, residual, ds);
            && Inv(d') && d'.usb == d.usb && d'.told == d.told
            && d'.answered == d.answered + 1 && d'.inFlight + d'.reports == 1
  {
    hide ControlPipes.Inv, DoComplete, Issued, OnControlEvent;
    var driver :| PhaseInv(d, driver);
    var p := ControlEventIs(d, code, residual, ds);
    NoneIssued(d.(pipe := p));
    assert d.usb.(waiters := d.usb.waiters) == d.usb;
    assert ProtocolRequests(driver, d.answered, d.told)[1..] == ProtocolRequests(driver, d.answered + 1, d.told);
    assert PhaseInv(OnControlEvent(d, code, residual, ds), driver);
  }

  /** Every control completion of a well-behaved device keeps the invariant, whatever
      the phase: it finds its own request, and the request that follows fits the pipe. */
  lemma ControlEventKeepsInv(d: Dev, code: nat, residual: nat, ds: seq<Descriptor>)
    requires Inv(d) && d.pipe.live != [] && GoodAnswer(d, ds)
    requires code == CODE_SUCCESS || code == CODE_SHORT_PACKET
    ensures Inv(OnControlEvent(d, code, residual, ds))
    ensures DoComplete(d.pipe, code, residual).1 == Reply(d.pipe.live[0].req, residual)
    ensures OnControlEvent(d, code, residual, ds).usb.phase >= d.usb.phase
  {
    var p := ControlEventIs(d, code, residual, ds);
    var driver :| PhaseInv(d, driver);
    hide ControlPipes.Inv, DoComplete, Issued, OnControlEvent;
    if d.usb.phase == 1 { DeviceAnswered(d, code, residual, ds); }
    else if d.usb.phase == 2 { ConfigurationAnswered(d, code, residual, ds); }
    else if d.usb.phase == 3 { SetConfigurationAnswered(d, code, residual, ds); }
    else { ProtocolAnswered(d, code, residual, ds); }
  }

  /** An initialized device whose class driver has not been told yet. */
  ghost predicate AwaitsConfiguration(d: Dev, driver: ClassDriver) {
    && ControlPipes.Inv(d.pipe) && d.pipe.pipe.dci == EP0_DCI
    && PhaseInv(d, driver) && d.usb.phase == 4 && d.told == 0
  }

  lemma TellOneKeepsInv(d: Dev, driver: ClassDriver)
    requires ControlPipes.Inv(d.pipe) && d.pipe.pipe.dci == EP0_DCI
    requires PhaseInv(d, driver) && d.usb.phase == 4 && d.answered == 0
    requires d.told < ENDPOINT_NUMBERS - 1
    ensures MayIssue(d.pipe, SetProtocolRequest(driver))
    ensures var d' := TellOne(d, driver);
            && ControlPipes.Inv(d'.pipe) && d'.pipe.pipe.dci == EP0_DCI
            && PhaseInv(d', driver) && d'.usb == d.usb.(waiters := d'.usb.waiters)
            && d'.told == d.told + 1 && d'.answered == 0 && d'.buffer == d.buffer
  {
    hide ControlPipes.Inv, Issued, Get, Put;
    var req := SetProtocolRequest(driver);
    var d1 := d.(usb := d.usb.(waiters := Put(d.usb.waiters, req.setup, driver)),
                 hidPhase := 1, told := d.told + 1);
    IssuedKeeps(d1, req);
    if d.told == 0 { EmptyWaiters(req.setup); }
    WaiterStays(d.usb.waiters, req.setup, driver);
    assert ProtocolRequests(driver, 0, d.told) + [Live(req, 8 + 2 * d.told)] == ProtocolRequests(driver, 0, d.told + 1);
    assert PhaseInv(TellOne(d, driver), driver);
  }

  lemma EmptyWaiters(setup: SetupData)
    ensures Get(NewUsb().waiters, setup).None? && !ArrayMaps.Full(NewUsb().waiters)
  {
  }

  /** Telling the drivers issues one boot protocol request per endpoint number, at most 15;
      each fits, and with 15 the ring holds exactly the 30 unread TRBs that it may. */
  lemma {:induction false} TellAllKeepsInv(d: Dev, calls: seq<ClassDriver>, driver: ClassDriver)
    requires AwaitsConfiguration(d, driver)
    requires |calls| <= ENDPOINT_NUMBERS - 1 && forall i :: 0 <= i < |calls| ==> calls[i] == driver
    ensures var d' := TellAll(d, calls);
            && ControlPipes.Inv(d'.pipe) && d'.pipe.pipe.dci == EP0_DCI
            && PhaseInv(d', driver) && d'.usb == d.usb.(waiters := d'.usb.waiters)
            && d'.told == |calls| && d'.answered == 0 && d'.buffer == d.buffer
            && |d'.pipe.live| == |calls| && d'.pipe.total - d'.pipe.read == 2 * |calls|
  {
    hide ControlPipes.Inv, TellOne, Get;
    if calls != [] {
      var rest := calls[..|calls| - 1];
      TellAllKeepsInv(d, rest, driver);
      TellOneKeepsInv(TellAll(d, rest), driver);
    }
  }

  lemma ConfiguredKeepsInv(d: Dev)
    requires Inv(d) && d.usb.phase == 4 && d.told == 0
    ensures Inv(OnConfigured(d)) && OnConfigured(d).usb.phase == 4
    ensures OnConfigured(d).told == |Calls(d.usb.drivers)| <= ENDPOINT_NUMBERS - 1
  {
    var driver :| PhaseInv(d, driver);
    CallsBound(d.usb.drivers, driver);
    TellAllKeepsInv(d, Calls(d.usb.drivers), driver);
    assert PhaseInv(OnConfigured(d), driver);
  }

  /** The buffer is the class driver's alone while a report is handled: no transfer is in
      flight then, and exactly one is afterwards. */
  lemma InterruptKeepsInv(d: Dev)
    requires Inv(d)
    ensures d.inFlight > 0 ==> Inv(FinishInterrupt(d)) && FinishInterrupt(d).inFlight == 0
    ensures d.reports > 0 ==> d.inFlight == 0 && Inv(OnInterruptEvent(d)) && OnInterruptEvent(d).inFlight == 1
  {
    var driver :| PhaseInv(d, driver);
    if d.inFlight > 0 { assert PhaseInv(FinishInterrupt(d), driver); }
    if d.reports > 0 { assert PhaseInv(OnInterruptEvent(d), driver); }
  }

  /** Configuring the endpoints leaves the control pipe of a device in a run alone. */
  lemma InvIsReprogrammed(d: Dev, at: seq<Address>)
    requires Inv(d) && d.usb.phase >= 3
    ensures Reprogrammed(d, at) == d
  {
    var driver :| PhaseInv(d, driver);
    hide ControlPipes.Inv;
    forall c | c in d.usb.configs ensures Endpoints.Dci(c) != EP0_DCI {
      var i :| 0 <= i < |d.usb.configs| && d.usb.configs[i] == c;
      assert d.usb.configs[i].number >= 1;
    }
    NoControlRing(d.usb.configs, at);
  }

  /** At most one interrupt-in transfer is ever in flight, and at most 15 requests and 30
      TRBs of the default control pipe are outstanding. */
  lemma Bounds(d: Dev)
    requires Inv(d)
    ensures d.inFlight + d.reports <= 1
    ensures |d.pipe.live| <= 15 && d.pipe.total - d.pipe.read <= 30
  {
    var driver :| PhaseInv(d, driver);
  }
}
