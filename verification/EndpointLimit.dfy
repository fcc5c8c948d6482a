/** Which endpoint numbers a device may have. The source has room for 16 drivers, one per number,
    and every driver issues a request when the endpoints are configured; the control pipe carries
    15. And endpoint number 0, IN, has the context index of the control pipe, so configuring it
    replaces the pipe's context and ring; number 0, OUT, has index 0 and misses the tables. */
module EndpointLimits {
  import opened ArrayMaps
  import opened ControlPipes
  import opened Descriptors
  import opened DeviceRuns
  import Endpoints
  import opened Trbs
  import opened UsbDevices

  /** A device whose control pipe has nothing outstanding. */
  ghost predicate Idle(d: Dev) {
    ControlPipes.Inv(d.pipe) && d.pipe.live == [] && d.pipe.total == d.pipe.read
  }

  lemma ConfiguredFromIdle(d: Dev)
    requires DeviceRuns.Inv(d) && d.usb.phase == 4 && d.told == 0
    ensures Idle(d)
  {
    var driver :| PhaseInv(d, driver);
  }

  /** Every request that telling the drivers leads to respects the limit of the pipe. */
  predicate CallsFit(d: Dev, calls: seq<ClassDriver>) {
    calls == [] ||
    (CallsFit(d, calls[..|calls| - 1])
     && MayIssue(TellAll(d, calls[..|calls| - 1]).pipe, SetProtocolRequest(calls[|calls| - 1])))
  }

  /** Telling at most 15 drivers, whichever they are. */
  lemma {:induction false} TellAllPipe(d: Dev, calls: seq<ClassDriver>)
    requires Idle(d) && |calls| <= 15
    ensures var p := TellAll(d, calls).pipe;
            && ControlPipes.Inv(p) && |p.live| == |calls|
            && p.total == d.pipe.total + 2 * |calls| && p.total - p.read == 2 * |calls|
            && (calls != [] ==> p.live[0] == Live(SetProtocolRequest(calls[0]), d.pipe.total))
  {
    hide ControlPipes.Inv, Issue;
    if calls != [] {
      var rest, last := calls[..|calls| - 1], calls[|calls| - 1];
      TellAllPipe(d, rest);
      InvIsRunnable(TellAll(d, rest).pipe);
      TellOneIssues(TellAll(d, rest), last);
      IssueKeepsInv(TellAll(d, rest).pipe, SetProtocolRequest(last));
    }
  }

  lemma TellOneIssues(d: Dev, driver: ClassDriver)
    requires d.pipe.pipe.ring.Valid()
    ensures TellOne(d, driver).pipe == DoIssue(d.pipe, SetProtocolRequest(driver))
  {
    hide Issue;
  }

  lemma {:induction false} CallsFitExactlyWhen(d: Dev, calls: seq<ClassDriver>)
    requires Idle(d)
    ensures CallsFit(d, calls) <==> |calls| <= 15
  {
    hide Idle, TellAll;
    if calls != [] {
      CallsFitExactlyWhen(d, calls[..|calls| - 1]);
      if |calls| <= 16 { TellAllPipe(d, calls[..|calls| - 1]); }
    }
  }

  /** Whatever endpoint numbers a configuration block declares for the interface that is selected,
      0 included, the device becomes initialized and idle, with a driver at exactly them. */
  lemma AnyConfigurationLeadsToIdle(d: Dev, ds: seq<Descriptor>, code: nat, residual: nat, code': nat, residual': nat)
    requires DeviceRuns.Inv(d) && d.usb.phase == 2 && IsAnswer(d, ds) && FirstSelected(ds, 1) < |ds|
    requires code == CODE_SUCCESS || code == CODE_SHORT_PACKET
    requires code' == CODE_SUCCESS || code' == CODE_SHORT_PACKET
    ensures var d' := OnControlEvent(OnControlEvent(d, code, residual, ds), code', residual', []);
            && Idle(d') && d'.usb.phase == 4 && d'.usb.isInitialized
            && d'.usb.configs == OwnEndpoints(ds, FirstSelected(ds, 1) + 1)
            && forall n :: 0 <= n < ENDPOINT_NUMBERS ==>
                 (d'.usb.drivers[n].Some? <==> exists c :: c in OwnEndpoints(ds, FirstSelected(ds, 1) + 1) && c.number == n)
  {
    hide OnControlEvent, OwnEndpoints, Idle, Phase2, DeviceRuns.Inv, ControlPipes.Inv;
    ConfigurationSelects(d, ds, code, residual);
    SelectedDrivers(d, ds);
    ConfigurationCompletes(OnControlEvent(d, code, residual, ds), code', residual');
  }

  /** The reply to the configuration request: SET_CONFIGURATION is the only request then. */
  lemma ConfigurationSelects(d: Dev, ds: seq<Descriptor>, code: nat, residual: nat)
    requires DeviceRuns.Inv(d) && d.usb.phase == 2 && IsAnswer(d, ds) && FirstSelected(ds, 1) < |ds|
    requires code == CODE_SUCCESS || code == CODE_SHORT_PACKET
    ensures IsReply(ds) && |ds[0]| >= 6
    ensures var d1 := OnControlEvent(d, code, residual, ds);
            && ControlPipes.Inv(d1.pipe) && d1.pipe.pipe.dci == EP0_DCI
            && d1.usb == Phase2(d.usb, ds).0 && d1.usb.phase == 3 && !d1.usb.isInitialized
            && |d1.pipe.live| == 1 && d1.pipe.total == d1.pipe.live[0].at + 2
            && exists v: Byte :: d1.pipe.live[0].req == SetConfigurationRequest(v)
  {
    hide ControlPipes.Inv, DoComplete, Issued, OnControlEvent, OwnEndpoints;
    var driver :| PhaseInv(d, driver);
    var p := ControlEventIs(d, code, residual, ds);
    var r := OnControl(d.usb, Asked(d), ds, d.buffer);
    Phase2Selects(d.usb, ds, FirstSelected(ds, 1));
    IssuedKeeps(d.(pipe := p, usb := r.usb), r.next.value);
  }

  lemma SelectedDrivers(d: Dev, ds: seq<Descriptor>)
    requires DeviceRuns.Inv(d) && d.usb.phase == 2 && IsAnswer(d, ds) && FirstSelected(ds, 1) < |ds|
    ensures IsReply(ds) && |ds[0]| >= 6
    ensures Phase2(d.usb, ds).0.configs == OwnEndpoints(ds, FirstSelected(ds, 1) + 1)
    ensures forall n :: 0 <= n < ENDPOINT_NUMBERS ==>
              (Phase2(d.usb, ds).0.drivers[n].Some? <==>
                 exists c :: c in OwnEndpoints(ds, FirstSelected(ds, 1) + 1) && c.number == n)
  {
    hide ControlPipes.Inv, OwnEndpoints;
    var driver :| PhaseInv(d, driver);
    assert WellFormed(ds[0]);
    hide Phase2;
    Phase2Selects(d.usb, ds, FirstSelected(ds, 1));
  }

  lemma ConfigurationCompletes(d: Dev, code: nat, residual: nat)
    requires ControlPipes.Inv(d.pipe) && d.pipe.pipe.dci == EP0_DCI && d.usb.phase == 3 && !d.usb.isInitialized
    requires |d.pipe.live| == 1 && d.pipe.total == d.pipe.live[0].at + 2
    requires exists v: Byte :: d.pipe.live[0].req == SetConfigurationRequest(v)
    requires code == CODE_SUCCESS || code == CODE_SHORT_PACKET
    ensures var d' := OnControlEvent(d, code, residual, []);
            Idle(d') && d'.usb == d.usb.(phase := 4, isInitialized := true)
  {
    hide ControlPipes.Inv, DoComplete, Issued, OnControlEvent;
    var p := ControlEventIs(d, code, residual, []);
    NoneIssued(d.(pipe := p, usb := OnControl(d.usb, Asked(d), [], d.buffer).usb));
  }

  // ---------------------------------------------------------------- a keyboard with number 0

  /** A configuration that declares the numbers below `n`, all IN, for a boot keyboard. */
  function FirstNumbers(n: nat): seq<Descriptor>
    requires n <= 16
  {
    [[9, CONFIGURATION_TYPE, 0, 0, 1, 1, 0, 0, 0], [9, INTERFACE_TYPE, 0, 0, n, 3, 1, 1, 0]]
    + seq(n, i requires 0 <= i < n => InterruptIn(i))
  }

  function InterruptIn(n: nat): Descriptor
    requires n < 16
  {
    [7, ENDPOINT_TYPE, 0x80 + n, 3, 8, 0, 1]
  }

  lemma {:induction false} AllOwn(ds: seq<Descriptor>, k: nat)
    requires k <= |ds| && forall j :: k <= j < |ds| ==> IsEndpoint(ds[j])
    ensures |OwnEndpoints(ds, k)| == |ds| - k
    ensures forall j :: 0 <= j < |ds| - k ==> OwnEndpoints(ds, k)[j] == MakeEPConfig(ds[k + j])
    decreases |ds| - k
  {
    hide MakeEPConfig;
    if k < |ds| { AllOwn(ds, k + 1); }
  }

  predicate Declares(ds: seq<Descriptor>, n: nat) {
    && n <= 16 && |ds| == 2 + n
    && ds[0] == [9, CONFIGURATION_TYPE, 0, 0, 1, 1, 0, 0, 0]
    && ds[1] == [9, INTERFACE_TYPE, 0, 0, n, 3, 1, 1, 0]
    && forall j :: 2 <= j < |ds| ==> ds[j] == InterruptIn(j - 2)
  }

  lemma NumbersDeclared(n: nat)
    requires n <= 16
    ensures Declares(FirstNumbers(n), n)
  {
  }

  lemma NumbersAreOwn(ds: seq<Descriptor>, n: nat)
    requires Declares(ds, n)
    ensures var cs := OwnEndpoints(ds, 2);
            |cs| == n && forall i :: 0 <= i < n ==> cs[i].number == i && cs[i].isIn
  {
    AllOwn(ds, 2);
    hide OwnEndpoints;
    var cs := OwnEndpoints(ds, 2);
    forall i | 0 <= i < n ensures cs[i].number == i && cs[i].isIn { assert ds[2 + i] == InterruptIn(i); }
  }

  lemma NumbersFollow(ds: seq<Descriptor>, n: nat)
    requires Declares(ds, n)
    ensures IsGoodReply(ds) && KindOf(ds) == CONFIGURATION_TYPE && FirstSelected(ds, 1) == 1
  {
    NumbersAreOwn(ds, n);
    hide OwnEndpoints;
    forall i | 0 <= i < |ds| ensures WellFormed(ds[i]) && (IsInterface(ds[i]) <==> i == 1) {
      if i >= 2 { assert ds[i] == InterruptIn(i - 2); }
    }
    assert Selected(ds[1]);
  }

  /** The device after the replies to its three requests, the second of which declares the numbers
      below `n`. */
  function Enumerated(base: Address, buffer: Address, n: nat): Dev
    requires n <= 16
  {
    var d := OnControlEvent(Start(NewDev(base, buffer)), CODE_SUCCESS, 0, [DEVICE_DESCRIPTOR]);
    OnControlEvent(OnControlEvent(d, CODE_SUCCESS, 0, FirstNumbers(n)), CODE_SUCCESS, 0, [])
  }

  lemma EnumeratedIs(base: Address, buffer: Address, n: nat) returns (d: Dev)
    requires base % 16 == 0 && n <= 16
    ensures d == Enumerated(base, buffer, n) && Idle(d) && d.usb.phase == 4 && d.usb.isInitialized
    ensures |d.usb.configs| == n && forall i :: 0 <= i < n ==> d.usb.configs[i].number == i && d.usb.configs[i].isIn
    ensures |WithDriver(d.usb.drivers)| == n
  {
    hide DeviceRuns.Inv, OnControlEvent, OwnEndpoints, Idle, Start, WithDriver;
    NewDevInv(base, buffer);
    StartKeepsInv(NewDev(base, buffer));
    var d0 := Start(NewDev(base, buffer));
    StartAsksForDevice(base, buffer);
    DeviceAnswered(d0, CODE_SUCCESS, 0, [DEVICE_DESCRIPTOR]);
    var d1 := OnControlEvent(d0, CODE_SUCCESS, 0, [DEVICE_DESCRIPTOR]);
    AsksForConfiguration(d1);
    var ds := FirstNumbers(n);
    NumbersDeclared(n);
    hide FirstNumbers;
    NumbersFollow(ds, n);
    AnyConfigurationLeadsToIdle(d1, ds, CODE_SUCCESS, 0, CODE_SUCCESS, 0);
    d := OnControlEvent(OnControlEvent(d1, CODE_SUCCESS, 0, ds), CODE_SUCCESS, 0, []);
    NumbersAreOwn(ds, n);
    ExactlyTheseDrivers(d.usb.drivers, OwnEndpoints(ds, 2), n);
  }

  /** From power-up: whatever else such a device declares, configuring its endpoints gives the control
      pipe another ring, and the boot protocol request goes there. */
  lemma NumberZeroReplacesTheRing(base: Address, buffer: Address, n: nat, at: seq<Address>) returns (d: Dev)
    requires base % 16 == 0 && 1 <= n <= 16 && |at| == MAX_ENDPOINTS
    requires base !in at && forall i :: 0 <= i < |at| ==> at[i] % 64 == 0
    ensures d == Reprogrammed(Enumerated(base, buffer, n), at)
    ensures d.pipe.pipe.ring.base == at[0] != base && Enumerated(base, buffer, n).pipe.pipe.ring.base == base
    ensures OnConfigured(d).pipe.pipe.ring.base == at[0] && OnConfigured(d).pipe.live != []
  {
    hide Enumerated, Idle, TellAll, WithDriver, Calls, ControlRingAt;
    var d0 := EnumeratedIs(base, buffer, n);
    EnumeratedRing(base, buffer, n);
    HasControlRing(d0.usb.configs, at, 0);
    d := Reprogrammed(d0, at);
    IdleReprogrammed(d0, at);
    CallsCount(d.usb.drivers);
    TellAllKeepsTheRing(d, Calls(d.usb.drivers));
    FirstReplyAfterTelling(d, CODE_SUCCESS, 0);
  }

  /** From power-up: with all 16 numbers the first reply is lost as well. */
  lemma SixteenEndpointsLoseTheFirstReply(base: Address, buffer: Address, at: seq<Address>) returns (d: Dev)
    requires base % 16 == 0 && |at| == MAX_ENDPOINTS && forall i :: 0 <= i < |at| ==> at[i] % 64 == 0
    ensures d == Reprogrammed(Enumerated(base, buffer, 16), at)
    ensures d.usb.isInitialized && !CallsFit(d, Calls(d.usb.drivers))
    ensures var p := OnConfigured(d).pipe;
            && p.live != [] && Runnable(p)
            && OldestOutcome(p, CODE_SUCCESS, 0) != Reply(p.live[0].req, 0)
  {
    hide Enumerated, Idle, CallsFit, OldestOutcome, OnConfigured, Runnable, WithDriver;
    var d0 := EnumeratedIs(base, buffer, 16);
    d := Reprogrammed(d0, at);
    IdleReprogrammed(d0, at);
    CallsCount(d.usb.drivers);
    ConfiguringFitsExactlyWhen(d);
    FirstReplyAfterTelling(d, CODE_SUCCESS, 0);
  }

  // The ring of the control pipe stays where it is.

  lemma IssuedKeepsTheRing(d: Dev, next: Option<Request>)
    ensures Issued(d, next).pipe.pipe.ring.base == d.pipe.pipe.ring.base
  {
    hide SetupOf, EventOf, Put;
  }

  lemma {:induction false} TellAllKeepsTheRing(d: Dev, calls: seq<ClassDriver>)
    ensures TellAll(d, calls).pipe.pipe.ring.base == d.pipe.pipe.ring.base
  {
    if calls != [] {
      var rest, driver := TellAll(d, calls[..|calls| - 1]), calls[|calls| - 1];
      TellAllKeepsTheRing(d, calls[..|calls| - 1]);
      var req := SetProtocolRequest(driver);
      IssuedKeepsTheRing(rest.(usb := rest.usb.(waiters := Put(rest.usb.waiters, req.setup, driver)),
                               hidPhase := 1, told := rest.told + 1), Some(req));
      hide Issued, Put;
    }
  }

  lemma EventKeepsTheRing(d: Dev, code: nat, residual: nat, ds: seq<Descriptor>)
    ensures OnControlEvent(d, code, residual, ds).pipe.pipe.ring.base == d.pipe.pipe.ring.base
  {
    hide Issued, OnControl, Completion, Get, Delete, SlotOf;
    if d.pipe.live != [] && Runnable(d.pipe) {
      var (p, o) := DoComplete(d.pipe, code, residual);
      if o.ControlCompleted? && (o.setup.request == GET_DESCRIPTOR ==> IsReply(ds)) {
        var r := OnControl(d.usb, o.setup, ds, d.buffer);
        IssuedKeepsTheRing(d.(pipe := p, usb := r.usb), r.next);
      }
    }
  }

  lemma EnumeratedRing(base: Address, buffer: Address, n: nat)
    requires n <= 16
    ensures Enumerated(base, buffer, n).pipe.pipe.ring.base == base
  {
    hide OnControlEvent, Issued, FirstNumbers;
    var d := NewDev(base, buffer);
    var (u, req) := Started(d.usb, d.buffer);
    IssuedKeepsTheRing(d.(usb := u), Some(req));
    EventKeepsTheRing(Start(d), CODE_SUCCESS, 0, [DEVICE_DESCRIPTOR]);
    var d1 := OnControlEvent(Start(d), CODE_SUCCESS, 0, [DEVICE_DESCRIPTOR]);
    EventKeepsTheRing(d1, CODE_SUCCESS, 0, FirstNumbers(n));
    EventKeepsTheRing(OnControlEvent(d1, CODE_SUCCESS, 0, FirstNumbers(n)), CODE_SUCCESS, 0, []);
  }

  const DEVICE_DESCRIPTOR: Descriptor := [18, DEVICE_TYPE, 0, 2, 0, 0, 0, 8, 0, 0, 0, 0, 0, 0, 0, 0, 0, 1]

  lemma StartAsksForDevice(base: Address, buffer: Address)
    requires base % 16 == 0
    ensures var d := Start(NewDev(base, buffer));
            GoodAnswer(d, [DEVICE_DESCRIPTOR])
  {
    NewDevInv(base, buffer);
    StartKeepsInv(NewDev(base, buffer));
    hide Start;
    var d := Start(NewDev(base, buffer));
    var driver :| PhaseInv(d, driver);
    assert WellFormed(DEVICE_DESCRIPTOR);
  }

  lemma AsksForConfiguration(d: Dev)
    requires DeviceRuns.Inv(d) && d.usb.phase == 2 && d.pipe.live != []
    ensures Asked(d).value == CONFIGURATION_TYPE * 0x100
  {
    var driver :| PhaseInv(d, driver);
  }

  lemma ExactlyTheseDrivers(drivers: Drivers, configs: seq<EndpointConfig>, n: nat)
    requires |configs| == n <= 16 && forall i :: 0 <= i < n ==> configs[i].number == i
    requires forall i :: 0 <= i < ENDPOINT_NUMBERS ==> (drivers[i].Some? <==> exists c :: c in configs && c.number == i)
    ensures |WithDriver(drivers)| == n
  {
    forall i | 0 <= i < ENDPOINT_NUMBERS ensures drivers[i].Some? <==> i < n {
      if i < n { assert configs[i] in configs; }
    }
    UpTo(WithDriver(drivers), n);
  }

  lemma {:induction false} UpTo(ns: set<nat>, k: nat)
    requires forall n: nat :: n in ns <==> n < k
    ensures |ns| == k
  {
    if k > 0 {
      UpTo(ns - {k - 1}, k - 1);
    }
  }

  /** Configuring the endpoints respects the limit of the control pipe if and only if at most 15
      of the 16 endpoint numbers have a class driver. */
  lemma ConfiguringFitsExactlyWhen(d: Dev)
    requires Idle(d)
    ensures CallsFit(d, Calls(d.usb.drivers)) <==> |WithDriver(d.usb.drivers)| <= ENDPOINT_NUMBERS - 1
  {
    hide Idle, CallsFit, Calls, WithDriver;
    CallsFitExactlyWhen(d, Calls(d.usb.drivers));
    CallsCount(d.usb.drivers);
  }

  /** Once the class drivers have been told, the completion of the first boot protocol request is the
      reply to that request if and only if at most 15 endpoint numbers have a driver. With 16 it
      finds the zeros of the last Status Stage TRB for setup data. */
  lemma FirstReplyAfterTelling(d: Dev, code: nat, residual: nat)
    requires Idle(d) && Calls(d.usb.drivers) != []
    requires code == CODE_SUCCESS || code == CODE_SHORT_PACKET
    ensures var p := OnConfigured(d).pipe;
            && p.live != [] && Runnable(p)
            && p.live[0].req == SetProtocolRequest(Calls(d.usb.drivers)[0])
            && (OldestOutcome(p, code, residual) == Reply(p.live[0].req, residual) <==>
                  |WithDriver(d.usb.drivers)| <= ENDPOINT_NUMBERS - 1)
  {
    hide ControlPipes.Inv, Issue, DoComplete, Calls, WithDriver, TellOne;
    var calls := Calls(d.usb.drivers);
    var n := |calls| - 1;
    CallsCount(d.usb.drivers);
    TellAllPipe(d, calls[..n]);
    var before := TellAll(d, calls[..n]);
    if n <= 14 {
      TellAllPipe(d, calls);
      InvIsRunnable(OnConfigured(d).pipe);
      CompletionFindsItsRequest(OnConfigured(d).pipe, code, residual);
    } else {
      InvIsRunnable(before.pipe);
      TellOneIssues(before, calls[n]);
      OverrunLosesTheOldest(before.pipe, SetProtocolRequest(calls[n]), code, residual);
    }
  }

  // ---------------------------------------------------------------- configuring the endpoints

  /** A device whose endpoints are configured while nothing is outstanding is idle again, with the
      same endpoints and drivers. */
  lemma IdleReprogrammed(d: Dev, at: seq<Address>)
    requires Idle(d) && |d.usb.configs| <= |at| && forall i :: 0 <= i < |at| ==> at[i] % 64 == 0
    ensures Idle(Reprogrammed(d, at)) && Reprogrammed(d, at).usb == d.usb
  {
    ControlRingAtMeans(d.usb.configs, at);
    hide ControlRingAt;
    if ControlRingAt(d.usb.configs, at).Some? {
      NewRingIdle(d, ControlRingAt(d.usb.configs, at).value);
    }
  }

  lemma NewRingIdle(d: Dev, base: Address)
    requires Idle(d) && base % 64 == 0
    ensures Idle(NewRing(d, base))
  {
    AlignedTo16(base);
  }

  /** Configuring stores into the tables only, and the control pipe is as it was. */
  predicate Spared(d: Dev, at: seq<Address>) {
    && (forall c :: c in d.usb.configs ==> Endpoints.Dci(c) >= 1)
    && Reprogrammed(d, at).pipe == d.pipe
  }

  /** Configuring the endpoints leaves the control pipe alone, and the memory around the tables, if
      and only if no endpoint has a context index below 2, that is, number 0. */
  lemma SparedExactlyWhen(d: Dev, at: seq<Address>)
    requires |d.usb.configs| <= |at| && d.pipe.pipe.ring.base !in at
    ensures Spared(d, at) <==> forall c :: c in d.usb.configs ==> c.number >= 1
  {
    ControlRingAtMeans(d.usb.configs, at);
    hide ControlRingAt;
  }

  /** After the endpoints have been configured, the completion of the first boot protocol request is
      the reply to that request if and only if at most 15 endpoint numbers have a driver. */
  lemma FirstReplyIsRightExactlyWhen(d: Dev, at: seq<Address>, code: nat, residual: nat)
    requires Idle(d) && |d.usb.configs| <= |at| && forall i :: 0 <= i < |at| ==> at[i] % 64 == 0
    requires Calls(d.usb.drivers) != []
    requires code == CODE_SUCCESS || code == CODE_SHORT_PACKET
    ensures var p := OnConfigured(Reprogrammed(d, at)).pipe;
            && p.live != [] && Runnable(p)
            && p.live[0].req == SetProtocolRequest(Calls(d.usb.drivers)[0])
            && (OldestOutcome(p, code, residual) == Reply(p.live[0].req, residual) <==>
                  |WithDriver(d.usb.drivers)| <= ENDPOINT_NUMBERS - 1)
  {
    hide Idle, OldestOutcome, OnConfigured, Runnable, WithDriver, Reprogrammed;
    IdleReprogrammed(d, at);
    FirstReplyAfterTelling(Reprogrammed(d, at), code, residual);
  }

  /** The drivers are those of exactly the recorded endpoints. */
  predicate DriversOfEndpoints(u: Usb) {
    forall n :: 0 <= n < ENDPOINT_NUMBERS ==> (u.drivers[n].Some? <==> exists c :: c in u.configs && c.number == n)
  }

  /** The boot protocol request goes to the ring that the controller was given with the address, and
      its completion is its reply, if and only if no endpoint has number 0. */
  lemma BootProtocolWorksExactlyWhen(d: Dev, at: seq<Address>, code: nat, residual: nat)
    requires Idle(d) && |d.usb.configs| <= |at| && forall i :: 0 <= i < |at| ==> at[i] % 64 == 0
    requires d.pipe.pipe.ring.base !in at && DriversOfEndpoints(d.usb) && Calls(d.usb.drivers) != []
    requires code == CODE_SUCCESS || code == CODE_SHORT_PACKET
    ensures var p := OnConfigured(Reprogrammed(d, at)).pipe;
            && p.live != [] && Runnable(p)
            && (Spared(d, at) && OldestOutcome(p, code, residual) == Reply(p.live[0].req, residual) <==>
                  forall c :: c in d.usb.configs ==> c.number >= 1)
  {
    hide Idle, OldestOutcome, OnConfigured, Runnable, WithDriver, Calls, Reprogrammed, Spared;
    SparedExactlyWhen(d, at);
    FirstReplyIsRightExactlyWhen(d, at, code, residual);
    if forall c :: c in d.usb.configs ==> c.number >= 1 {
      assert d.usb.drivers[0].None?;
      NotNumberZero(d.usb.drivers);
    }
  }

  lemma NotNumberZero(drivers: Drivers)
    requires drivers[0].None?
    ensures |WithDriver(drivers)| <= ENDPOINT_NUMBERS - 1
  {
    var more := drivers[0 := Some(NO_DRIVER)];
    CallsCount(more);
    assert WithDriver(more) == WithDriver(drivers) + {0};
  }

  /** Every run of a device meets the condition. */
  lemma RunsSpareTheControlPipe(d: Dev, at: seq<Address>, code: nat, residual: nat)
    requires DeviceRuns.Inv(d) && d.usb.phase == 4 && d.told == 0 && Calls(d.usb.drivers) != []
    requires code == CODE_SUCCESS || code == CODE_SHORT_PACKET
    ensures Reprogrammed(d, at) == d
    ensures var p := OnConfigured(d).pipe;
            p.live != [] && Runnable(p) && OldestOutcome(p, code, residual) == Reply(p.live[0].req, residual)
  {
    ConfiguredFromIdle(d);
    InvIsReprogrammed(d, at);
    FirstReplyAfterTelling(d, code, residual);
    var driver :| PhaseInv(d, driver);
    NotNumberZero(d.usb.drivers);
    hide ControlPipes.Inv, OldestOutcome, OnConfigured, Runnable, WithDriver, Calls, Reprogrammed;
  }
}
