/** The USB device above the controller: four initialization phases driven by control
    completions, and the hand-over to the class driver. A request that the source issues
    by calling down into the transfer engine is an out-parameter here. */
module UsbDevices {
  import opened ArrayMaps
  import opened ControlPipes
  import opened Descriptors
  import opened Errors
  import opened Trbs

  const GET_DESCRIPTOR := 6
  const SET_CONFIGURATION := 9
  const SET_PROTOCOL := 11

  const BUFFER_SIZE := 256

  /** `GetDescriptor` into the device's own buffer: direction in, standard, device. */
  function GetDescriptorRequest(kind: Byte, buffer: Address): Request {
    var k: int := kind;
    Request(SetupData(0x80, GET_DESCRIPTOR, k * 0x100, 0, BUFFER_SIZE), true, Some(Buffer(buffer, BUFFER_SIZE)))
  }

  function SetConfigurationRequest(value: Byte): Request {
    Request(SetupData(0, SET_CONFIGURATION, value, 0, 0), false, None)
  }

  /** Select the boot protocol: direction out, class, interface. */
  function SetProtocolRequest(d: ClassDriver): Request {
    Request(SetupData(0x21, SET_PROTOCOL, 0, d.interfaceNumber, 0), false, None)
  }

  const ENDPOINT_NUMBERS := 16
  const WAITERS := 4

  type Drivers = ds: seq<Option<ClassDriver>> | |ds| == ENDPOINT_NUMBERS
    witness seq(ENDPOINT_NUMBERS, i => None)

  datatype Usb = Usb(
    isInitialized: bool, phase: nat, configs: seq<EndpointConfig>, drivers: Drivers,
    waiters: Table<SetupData, ClassDriver>)

  const NO_DRIVER := ClassDriver(Keyboard, 0)

  function NewUsb(): Usb {
    Usb(false, 0, [], seq(ENDPOINT_NUMBERS, i => None), EmptyTable(WAITERS, NO_DRIVER))
  }

  predicate NumbersInRange(configs: seq<EndpointConfig>) {
    forall i :: 0 <= i < |configs| ==> configs[i].number < ENDPOINT_NUMBERS
  }

  /** The class driver of every configured endpoint number, on top of `drivers`. */
  function AssignDrivers(drivers: Drivers, configs: seq<EndpointConfig>, d: ClassDriver): (r: Drivers)
    requires NumbersInRange(configs)
  {
    if configs == [] then drivers
    else AssignDrivers(drivers, configs[..|configs| - 1], d)[configs[|configs| - 1].number := Some(d)]
  }

  /** Exactly the configured numbers change. */
  lemma {:induction false} AssignDriversMeans(drivers: Drivers, configs: seq<EndpointConfig>, d: ClassDriver)
    requires NumbersInRange(configs)
    ensures forall n :: 0 <= n < ENDPOINT_NUMBERS ==>
              AssignDrivers(drivers, configs, d)[n] ==
              if exists i :: 0 <= i < |configs| && configs[i].number == n then Some(d) else drivers[n]
  {
    if configs != [] {
      var rest := configs[..|configs| - 1];
      AssignDriversMeans(drivers, rest, d);
      forall n | 0 <= n < ENDPOINT_NUMBERS
        ensures AssignDrivers(drivers, configs, d)[n] ==
                if exists i :: 0 <= i < |configs| && configs[i].number == n then Some(d) else drivers[n]
      {
        if exists i :: 0 <= i < |rest| && rest[i].number == n {
          var i :| 0 <= i < |rest| && rest[i].number == n;
          assert configs[i].number == n;
        }
      }
    }
  }

  lemma {:induction false} OwnEndpointNumbers(ds: seq<Descriptor>, k: nat)
    requires k <= |ds|
    ensures NumbersInRange(OwnEndpoints(ds, k))
    decreases |ds| - k
  {
    if k < |ds| && !IsInterface(ds[k]) { OwnEndpointNumbers(ds, k + 1); }
  }

  // ---------------------------------------------------------------- the phases

  function Started(u: Usb, buffer: Address): (Usb, Request) {
    (u.(isInitialized := false, phase := 1), GetDescriptorRequest(DEVICE_TYPE, buffer))
  }

  /** Phase 2 on the block `ds`, whose first descriptor is the configuration. */
  function Phase2(u: Usb, ds: seq<Descriptor>): (Usb, Option<Request>)
    requires ds != [] && |ds[0]| >= 6
  {
    var i := FirstSelected(ds, 1);
    if i == |ds| then
      (u, None)
    else
      var configs := OwnEndpoints(ds, i + 1);
      OwnEndpointNumbers(ds, i + 1);
      (u.(phase := 3, configs := configs,
          drivers := AssignDrivers(u.drivers, configs, NewClassDriver(ds[i]).value)),
       Some(SetConfigurationRequest(ds[0][5])))
  }

  /** What phase 2 selects: the first boot keyboard or mouse interface of the block, if
      there is one, its own endpoints in order, and its driver at exactly their numbers. */
  lemma Phase2Selects(u: Usb, ds: seq<Descriptor>, i: nat)
    requires IsReply(ds) && ds[0][1] == CONFIGURATION_TYPE && EndpointsFollow(ds)
    requires 1 <= i < |ds| && Selected(ds[i]) && forall j :: 1 <= j < i ==> !Selected(ds[j])
    ensures var (u', next) := Phase2(u, ds);
            && u'.phase == 3 && next == Some(SetConfigurationRequest(ds[0][5]))
            && |u'.configs| == ds[i][4] && u'.configs == OwnEndpoints(ds, i + 1)
            && forall n :: 0 <= n < ENDPOINT_NUMBERS ==>
                 u'.drivers[n] == if exists c :: c in u'.configs && c.number == n
                                  then NewClassDriver(ds[i]) else u.drivers[n]
  {
    assert WellFormed(ds[0]);
    FirstSelectedIs(ds, 1, i);
    OwnEndpointNumbers(ds, i + 1);
    var configs := OwnEndpoints(ds, i + 1);
    AssignDriversMeans(u.drivers, configs, NewClassDriver(ds[i]).value);
    assert forall j :: 0 <= j < |configs| ==> configs[j] in configs;
  }

  /** The endpoints of the interface that phase 2 selects fit the table of 16. */
  predicate FitsTable(ds: seq<Descriptor>)
    requires ds != []
  {
    var i := FirstSelected(ds, 1);
    i < |ds| ==> |OwnEndpoints(ds, i + 1)| <= MAX_ENDPOINTS
  }

  /** What a completed control transfer leads to: the device, the next request and the
      class driver to be told, if any. `ds` is the reply, read as descriptors. */
  datatype Reaction = Reaction(usb: Usb, error: Error, next: Option<Request>, waiter: Option<ClassDriver>)

  predicate IsReply(ds: seq<Descriptor>) {
    ds != [] && AllWellFormed(ds)
  }

  function OnControl(u: Usb, setup: SetupData, ds: seq<Descriptor>, buffer: Address): Reaction
    requires setup.request == GET_DESCRIPTOR ==> IsReply(ds)
  {
    if u.isInitialized then
      var w := Get(u.waiters, setup);
      Reaction(u, if w.Some? then Success else NoWaiter, None, w)
    else if u.phase == 1 then
      if setup.request == GET_DESCRIPTOR && ds[0][1] == DEVICE_TYPE then
        Reaction(u.(phase := 2), Success, Some(GetDescriptorRequest(CONFIGURATION_TYPE, buffer)), None)
      else Reaction(u, InvalidPhase, None, None)
    else if u.phase == 2 then
      if setup.request == GET_DESCRIPTOR && ds[0][1] == CONFIGURATION_TYPE then
        var (u', next) := Phase2(u, ds);
        Reaction(u', Success, next, None)
      else Reaction(u, InvalidPhase, None, None)
    else if u.phase == 3 then
      if setup.request == SET_CONFIGURATION then
        Reaction(u.(phase := 4, isInitialized := true), Success, None, None)
      else Reaction(u, InvalidPhase, None, None)
    else
      Reaction(u, NotImplemented, None, None)
  }

  /** The class drivers to be told that the endpoints are configured: one call for every
      endpoint number that has one. */
  function Calls(drivers: seq<Option<ClassDriver>>): seq<ClassDriver> {
    if drivers == [] then []
    else Calls(drivers[..|drivers| - 1]) +
         if drivers[|drivers| - 1].Some? then [drivers[|drivers| - 1].value] else []
  }

  /** The endpoint numbers that have a class driver. */
  function WithDriver(drivers: seq<Option<ClassDriver>>): set<nat> {
    set n: nat | n < |drivers| && drivers[n].Some?
  }

  /** At most one call per endpoint number, and none for a number without a driver. */
  lemma {:induction false} CallsCount(drivers: seq<Option<ClassDriver>>)
    ensures |Calls(drivers)| == |WithDriver(drivers)| <= |drivers|
  {
    if drivers == [] {
      assert WithDriver(drivers) == {};
    } else {
      var n := |drivers| - 1;
      CallsCount(drivers[..n]);
      assert WithDriver(drivers) == WithDriver(drivers[..n]) + if drivers[n].Some? then {n} else {};
    }
  }

  lemma {:induction false} CallsBound(drivers: seq<Option<ClassDriver>>, d: ClassDriver)
    requires forall n :: 0 <= n < |drivers| ==> drivers[n].None? || drivers[n].value == d
    ensures |Calls(drivers)| <= |drivers|
    ensures |drivers| > 0 && drivers[0].None? ==> |Calls(drivers)| <= |drivers| - 1
    ensures forall i :: 0 <= i < |Calls(drivers)| ==> Calls(drivers)[i] == d
  {
    if drivers != [] {
      CallsBound(drivers[..|drivers| - 1], d);
    }
  }

  /** A waiter stays known however often it is registered again, full table or not. */
  lemma WaiterStays(t: Table<SetupData, ClassDriver>, setup: SetupData, d: ClassDriver)
    requires Get(t, setup) == Some(d) || (Get(t, setup).None? && !ArrayMaps.Full(t))
    ensures Get(Put(t, setup, d), setup) == Some(d)
  {
    var (i, j) := (Find(t, None), Find(t, Some(setup)));
    var t' := Put(t, setup, d);
    if i < |t| {
      FindIs(t', Some(setup), if j < i then j else i);
    }
  }

  // ---------------------------------------------------------------- the object

  /** Every recorded endpoint has a class driver. */
  predicate HasDrivers(u: Usb) {
    forall i :: 0 <= i < |u.configs| ==>
      u.configs[i].number < ENDPOINT_NUMBERS && u.drivers[u.configs[i].number].Some?
  }

  /** The endpoints with their class drivers, in the order in which they were recorded. */
  function EndpointsOf(u: Usb): seq<(ClassDriver, EndpointConfig)>
    requires HasDrivers(u)
  {
    seq(|u.configs|, i requires 0 <= i < |u.configs| => (u.drivers[u.configs[i].number].value, u.configs[i]))
  }

  /** The class driver that the interfaces of a configuration block lead to. */
  function FirstDriver(ds: seq<Descriptor>): Option<ClassDriver>
    requires ds != []
  {
    var i := FirstSelected(ds, 1);
    if i < |ds| then NewClassDriver(ds[i]) else None
  }

  /** What phase 2 comes to, by the first interface that has a driver. */
  lemma Phase2Is(u: Usb, ds: seq<Descriptor>)
    requires IsReply(ds) && |ds[0]| >= 6
    ensures var i := FirstSelected(ds, 1);
            if i == |ds| then FitsTable(ds) && Phase2(u, ds) == (u, None) && FirstDriver(ds) == None
            else
              && i < |ds| && IsInterface(ds[i]) && NewClassDriver(ds[i]).Some? && FirstDriver(ds) == NewClassDriver(ds[i])
              && NumbersInRange(OwnEndpoints(ds, i + 1))
              && (FitsTable(ds) <==> |OwnEndpoints(ds, i + 1)| <= MAX_ENDPOINTS)
              && Phase2(u, ds) == (u.(phase := 3, configs := OwnEndpoints(ds, i + 1),
                                      drivers := AssignDrivers(u.drivers, OwnEndpoints(ds, i + 1), NewClassDriver(ds[i]).value)),
                                   Some(SetConfigurationRequest(ds[0][5])))
  {
    hide OwnEndpoints, AssignDrivers;
    var i := FirstSelected(ds, 1);
    if i < |ds| { OwnEndpointNumbers(ds, i + 1); }
  }

  predicate InPhase2(u: Usb, setup: SetupData, ds: seq<Descriptor>)
    requires setup.request == GET_DESCRIPTOR ==> IsReply(ds)
  {
    !u.isInitialized && u.phase == 2 && setup.request == GET_DESCRIPTOR && ds[0][1] == CONFIGURATION_TYPE
  }

  predicate FinishesPhase3(u: Usb, setup: SetupData) {
    !u.isInitialized && u.phase == 3 && setup.request == SET_CONFIGURATION
  }

  /** A reply is a list of descriptors in which every interface is followed by its endpoints, and
      those that are selected fit the table. */
  predicate IsGoodReply(ds: seq<Descriptor>) {
    IsReply(ds) && EndpointsFollow(ds) && FitsTable(ds)
  }

  lemma ControlKeepsDrivers(u: Usb, setup: SetupData, ds: seq<Descriptor>, buffer: Address)
    requires HasDrivers(u) && (setup.request == GET_DESCRIPTOR ==> IsReply(ds) && EndpointsFollow(ds))
    ensures HasDrivers(OnControl(u, setup, ds, buffer).usb)
  {
    if !u.isInitialized && u.phase == 2 && setup.request == GET_DESCRIPTOR && ds[0][1] == CONFIGURATION_TYPE {
      var i := FirstSelected(ds, 1);
      if i < |ds| {
        Phase2Selects(u, ds, i);
        OwnEndpointNumbers(ds, i + 1);
        var u' := Phase2(u, ds).0;
        forall k | 0 <= k < |u'.configs|
          ensures u'.configs[k].number < ENDPOINT_NUMBERS && u'.drivers[u'.configs[k].number].Some?
        {
          assert u'.configs[k] in u'.configs;
        }
      }
    }
  }

  class UsbDevice {
    var isInitialized: bool
    var initializePhase: nat
    const epConfigs: array<EndpointConfig>
    var numEpConfigs: nat
    const classDrivers: array<Option<ClassDriver>>
    const eventWaiters: ArrayMap<SetupData, ClassDriver>
    const buffer: Address  // where the device's 256-byte buffer lies

    ghost predicate Valid()
      reads this
    {
      && epConfigs.Length == MAX_ENDPOINTS
      && classDrivers.Length == ENDPOINT_NUMBERS
      && numEpConfigs <= MAX_ENDPOINTS
    }

    ghost function View(): Usb
      requires Valid()
      reads this, epConfigs, classDrivers, eventWaiters.table
    {
      Usb(isInitialized, initializePhase, epConfigs[..numEpConfigs], classDrivers[..], eventWaiters.table[..])
    }

    constructor (at: Address)
      ensures Valid() && View() == NewUsb() && buffer == at
      ensures fresh(epConfigs) && fresh(classDrivers) && fresh(eventWaiters.table)
    {
      isInitialized, initializePhase, numEpConfigs, buffer := false, 0, 0, at;
      epConfigs := new EndpointConfig[MAX_ENDPOINTS](i => EndpointConfig(0, false, 0, 0, 0));
      classDrivers := new Option<ClassDriver>[ENDPOINT_NUMBERS](i => None);
      eventWaiters := new ArrayMap<SetupData, ClassDriver>(WAITERS, NO_DRIVER);
    }

    method StartInitialize() returns (req: Request)
      requires Valid()
      modifies this`isInitialized, this`initializePhase
      ensures Valid() && (View(), req) == Started(old(View()), buffer)
    {
      isInitialized := false;
      initializePhase := 1;
      req := GetDescriptorRequest(DEVICE_TYPE, buffer);
    }

    method InitializePhase1() returns (err: Error, next: Option<Request>)
      requires Valid()
      modifies this`initializePhase
      ensures Valid() && View() == old(View()).(phase := 2)
      ensures err == Success && next == Some(GetDescriptorRequest(CONFIGURATION_TYPE, buffer))
    {
      initializePhase := 2;
      return Success, Some(GetDescriptorRequest(CONFIGURATION_TYPE, buffer));
    }

    /** The interface loop: the first interface with a driver, its endpoint count, and the
        position `k` of the reader. */
    method FindInterface(reader: ConfigurationDescriptorReader, ghost ds: seq<Descriptor>)
      returns (driver: Option<ClassDriver>, count: nat, ghost k: nat)
      requires reader.On(ds, 0)
      modifies reader`p
      ensures k == FirstSelected(ds, 1)
      ensures driver.Some? ==>
                reader.On(ds, k) && k < |ds| && driver == NewClassDriver(ds[k]) && count == ds[k][4]
      ensures driver.None? ==> k == |ds|
    {
      k, driver, count := 0, None, 0;
      while true
        invariant reader.On(ds, k)
        invariant forall j :: 1 <= j <= k ==> !Selected(ds[j])
        decreases |ds| - k
      {
        var d;
        d, k := reader.NextOf(INTERFACE_TYPE, ds, k);
        if d.None? {
          FirstSelectedIs(ds, 1, k);
          return None, 0, k;
        }
        assert WellFormed(ds[k]);
        driver := NewClassDriver(d.value);
        if driver.Some? {
          FirstSelectedIs(ds, 1, k);
          return driver, d.value[4], k;
        }
      }
    }

    /** The three statements that record one endpoint. */
    method RecordEndpoint(conf: EndpointConfig, driver: ClassDriver)
      requires Valid() && numEpConfigs < MAX_ENDPOINTS && conf.number < ENDPOINT_NUMBERS
      modifies this`numEpConfigs, epConfigs, classDrivers
      ensures Valid() && numEpConfigs == old(numEpConfigs) + 1
      ensures epConfigs[..numEpConfigs] == old(epConfigs[..numEpConfigs]) + [conf]
      ensures classDrivers[..] == old(classDrivers[..])[conf.number := Some(driver)]
    {
      epConfigs[numEpConfigs] := conf;
      numEpConfigs := numEpConfigs + 1;
      classDrivers[conf.number] := Some(driver);
    }

    /** The endpoint loop: takes `count` endpoints from position `i` on. The source has no test
        against the size of the table; where its next store would go past the end, the result is
        false. */
    method TakeEndpoints(reader: ConfigurationDescriptorReader, driver: ClassDriver, count: nat,
                         ghost ds: seq<Descriptor>, ghost i: nat) returns (fits: bool)
      requires Valid() && reader.On(ds, i) && count == |OwnEndpoints(ds, i + 1)|
      requires NumbersInRange(OwnEndpoints(ds, i + 1))
      modifies reader`p, this`numEpConfigs, epConfigs, classDrivers
      ensures Valid() && (fits <==> count <= MAX_ENDPOINTS)
      ensures numEpConfigs == if fits then count else MAX_ENDPOINTS
      ensures epConfigs[..numEpConfigs] == OwnEndpoints(ds, i + 1)[..numEpConfigs]
      ensures classDrivers[..] == AssignDrivers(old(classDrivers[..]), OwnEndpoints(ds, i + 1)[..numEpConfigs], driver)
    {
      hide OwnEndpoints, Offset, Serialize, AssignDrivers, WellFormed, MakeEPConfig;
      ghost var k := i;
      ghost var own := OwnEndpoints(ds, i + 1);
      NoneTaken(classDrivers[..], driver);
      numEpConfigs := 0;
      ghost var before: Drivers := classDrivers[..];
      while numEpConfigs < count
        invariant Valid() && reader.On(ds, k) && i <= k && numEpConfigs <= count
        invariant epConfigs[..numEpConfigs] == own[..numEpConfigs]
        invariant own[numEpConfigs..] == OwnEndpoints(ds, k + 1)
        invariant classDrivers[..] == AssignDrivers(before, own[..numEpConfigs], driver)
        decreases |ds| - k
      {
        EndpointAhead(ds, k + 1);
        var d := reader.NextAny(ds, k);
        k := k + 1;
        if d[1] == ENDPOINT_TYPE {
          if numEpConfigs == epConfigs.Length {
            return false;
          }
          var conf := MakeEPConfig(d);
          TakeOne(own, numEpConfigs, conf, ds, k, before, driver);
          RecordEndpoint(conf, driver);
        }
      }
      return true;
    }

    /** Walks the configuration block, picks the first interface with a driver and takes
        the endpoints that follow it, as long as they fit the table. */
    method InitializePhase2(buf: seq<Byte>, ghost ds: seq<Descriptor>)
      returns (fits: bool, err: Error, next: Option<Request>, made: Option<ClassDriver>)
      requires Valid() && IsReply(ds) && EndpointsFollow(ds)
      requires buf == Serialize(ds) && ds[0][1] == CONFIGURATION_TYPE
      modifies this`initializePhase, this`numEpConfigs, epConfigs, classDrivers
      ensures Valid() && (fits <==> FitsTable(ds))
      ensures fits ==> err == Success && (View(), next) == Phase2(old(View()), ds) && made == FirstDriver(ds)
    {
      hide Serialize, Offset, OwnEndpoints, AssignDrivers, EndpointsFollow, Phase2, FitsTable, FirstDriver, FirstSelected;
      ConfigurationValueAt(buf, ds);
      Phase2Is(View(), ds);
      var reader := new ConfigurationDescriptorReader(buf);
      var driver, count;
      ghost var i;
      driver, count, i := FindInterface(reader, ds);
      if driver.None? {
        return true, Success, None, None;
      }
      OwnEndpointNumbers(ds, i + 1);
      CountIsRight(ds, i);
      fits := TakeEndpoints(reader, driver.value, count, ds, i);
      if !fits {
        return false, Success, None, None;
      }
      assert OwnEndpoints(ds, i + 1)[..count] == OwnEndpoints(ds, i + 1);
      initializePhase := 3;
      return true, Success, Some(SetConfigurationRequest(buf[5])), driver;
    }

    /** Tells every configured endpoint's driver, in order, about its endpoint. */
    method InitializePhase3() returns (err: Error, told: seq<(ClassDriver, EndpointConfig)>)
      requires Valid()
      requires HasDrivers(View())
      modifies this`initializePhase, this`isInitialized
      ensures Valid() && err == Success
      ensures View() == old(View()).(phase := 4, isInitialized := true)
      ensures told == EndpointsOf(old(View()))
    {
      told := [];
      var i := 0;
      while i < numEpConfigs
        invariant i <= numEpConfigs && |told| == i
        invariant forall j :: 0 <= j < i ==> told[j] == (classDrivers[epConfigs[j].number].value, epConfigs[j])
      {
        told := told + [(classDrivers[epConfigs[i].number].value, epConfigs[i])];
        i := i + 1;
      }
      initializePhase := 4;
      isInitialized := true;
      return Success, told;
    }

    method OnControlCompleted(setup: SetupData, buf: seq<Byte>, ghost ds: seq<Descriptor>)
      returns (err: Error, next: Option<Request>, waiter: Option<ClassDriver>,
               made: Option<ClassDriver>, told: seq<(ClassDriver, EndpointConfig)>)
      requires Valid() && HasDrivers(View())
      requires setup.request == GET_DESCRIPTOR ==> IsGoodReply(ds) && buf == Serialize(ds)
      modifies this`initializePhase, this`isInitialized, this`numEpConfigs, epConfigs, classDrivers
      ensures Valid() && Reaction(View(), err, next, waiter) == OnControl(old(View()), setup, ds, buffer)
      ensures made == if InPhase2(old(View()), setup, ds) then FirstDriver(ds) else None
      ensures told == if FinishesPhase3(old(View()), setup) then EndpointsOf(old(View())) else []
    {
      made, told := None, [];
      if setup.request == GET_DESCRIPTOR {
        BytesAt(ds, 0);
        assert WellFormed(ds[0]);
        assert buf[1] == buf[0..0 + |ds[0]|][1];
      }
      if isInitialized {
        var w := eventWaiters.Lookup(setup);
        return if w.Some? then Success else NoWaiter, None, w, None, [];
      }
      waiter := None;
      if initializePhase == 1 {
        if setup.request == GET_DESCRIPTOR && buf[1] == DEVICE_TYPE {
          err, next := InitializePhase1();
        } else {
          err, next := InvalidPhase, None;
        }
      } else if initializePhase == 2 {
        if setup.request == GET_DESCRIPTOR && buf[1] == CONFIGURATION_TYPE {
          var _, e, n, m := InitializePhase2(buf, ds);
          err, next, made := e, n, m;
        } else {
          err, next := InvalidPhase, None;
        }
      } else if initializePhase == 3 {
        next := None;
        if setup.request == SET_CONFIGURATION {
          err, told := InitializePhase3();
        } else {
          err := InvalidPhase;
        }
      } else {
        err, next := NotImplemented, None;
      }
    }

    /** One call for every endpoint number that has a driver, lowest number first. */
    method OnEndpointsConfigured() returns (calls: seq<ClassDriver>)
      requires Valid()
      ensures calls == Calls(classDrivers[..])
    {
      calls := [];
      var i := 0;
      while i < ENDPOINT_NUMBERS
        invariant i <= ENDPOINT_NUMBERS && calls == Calls(classDrivers[..i])
      {
        assert classDrivers[..i + 1][..i] == classDrivers[..i];
        if classDrivers[i].Some? {
          calls := calls + [classDrivers[i].value];
        }
        i := i + 1;
      }
      assert classDrivers[..ENDPOINT_NUMBERS] == classDrivers[..];
    }

    /** The class driver that an interrupt completion goes to. */
    method OnInterruptCompleted(number: nat) returns (err: Error, waiter: Option<ClassDriver>)
      requires Valid() && number < ENDPOINT_NUMBERS
      ensures waiter == classDrivers[number] && err == if waiter.Some? then Success else NoWaiter
    {
      waiter := classDrivers[number];
      err := if waiter.Some? then Success else NoWaiter;
    }

    /** The part of ControlIn and ControlOut that remembers who asked. */
    method Register(setup: SetupData, issuer: Option<ClassDriver>)
      requires Valid()
      modifies eventWaiters.table
      ensures Valid()
      ensures View() == old(View()).(waiters :=
                if issuer.Some? then Put(old(View()).waiters, setup, issuer.value) else old(View()).waiters)
    {
      if issuer.Some? {
        eventWaiters.Insert(setup, issuer.value);
      }
    }
  }

  lemma ConfigurationValueAt(buf: seq<Byte>, ds: seq<Descriptor>)
    requires IsReply(ds) && buf == Serialize(ds) && ds[0][1] == CONFIGURATION_TYPE
    ensures |ds[0]| >= 6 && |buf| > 5 && buf[5] == ds[0][5]
    ensures Offset(ds, 0) == 0 && 0 < |buf|
  {
    BytesAt(ds, 0);
    assert WellFormed(ds[0]);
    assert buf[5] == buf[0..0 + |ds[0]|][5];
  }

  lemma CountIsRight(ds: seq<Descriptor>, i: nat)
    requires EndpointsFollow(ds) && i < |ds| && Selected(ds[i])
    ensures |ds[i]| > 4 && ds[i][4] == |OwnEndpoints(ds, i + 1)|
  {
    hide OwnEndpoints;
    assert IsInterface(ds[i]);
  }

  lemma NoneTaken(drivers: Drivers, d: ClassDriver)
    ensures AssignDrivers(drivers, [], d) == drivers
  {
  }

  /** While endpoints are due, the next descriptor exists and is no interface. */
  lemma EndpointAhead(ds: seq<Descriptor>, k: nat)
    requires AllWellFormed(ds) && k <= |ds| && OwnEndpoints(ds, k) != []
    ensures k < |ds| && WellFormed(ds[k]) && |ds[k]| > 1
    ensures if ds[k][1] == ENDPOINT_TYPE then IsEndpoint(ds[k]) else OwnEndpoints(ds, k) == OwnEndpoints(ds, k + 1)
  {
  }

  /** One endpoint descriptor, seen from both ends of the list. */
  lemma TakeOne(own: seq<EndpointConfig>, n: nat, conf: EndpointConfig, ds: seq<Descriptor>, k: nat,
                drivers: Drivers, d: ClassDriver)
    requires n < |own| && k < |ds| && own[n..] == OwnEndpoints(ds, k) && NumbersInRange(own)
    requires WellFormed(ds[k]) && IsEndpoint(ds[k]) && conf == MakeEPConfig(ds[k])
    ensures own[n] == conf && own[..n + 1] == own[..n] + [conf]
    ensures own[n + 1..] == OwnEndpoints(ds, k + 1)
    ensures AssignDrivers(drivers, own[..n + 1], d) ==
            AssignDrivers(drivers, own[..n], d)[conf.number := Some(d)]
  {
    assert own[n] == own[n..][0];
    assert own[n + 1..] == own[n..][1..];
    assert own[..n + 1][..n] == own[..n];
  }

  lemma {:induction false} FirstSelectedIs(ds: seq<Descriptor>, k: nat, i: nat)
    requires k <= i <= |ds| && (i < |ds| ==> Selected(ds[i]))
    requires forall j :: k <= j < i ==> !Selected(ds[j])
    ensures FirstSelected(ds, k) == i
  {
  }
}
