/** What holds in every run of the enumeration: the addressing token and its hand-off, the
    progress of the ports, who owns which slot, and how many commands are outstanding. */
module EnumerationRuns {
  import opened ArrayMaps
  import opened DeviceRuns
  import opened Enumeration

  /** Every event of the run keeps the promises of the environment. */
  ghost predicate LegalRun(s: System, events: seq<Event>)
    requires Enumeration.Inv(s)
    decreases |events|
  {
    events == [] ||
    (Legal(s, events[0]) && (StepKeepsInv(s, events[0]); LegalRun(Step(s, events[0]), events[1..])))
  }

  ghost function Run(s: System, events: seq<Event>): (s': System)
    requires Enumeration.Inv(s) && LegalRun(s, events)
    ensures Enumeration.Inv(s') && s'.maxPorts == s.maxPorts
    decreases |events|
  {
    if events == [] then s
    else
      StepKeepsInv(s, events[0]);
      Run(Step(s, events[0]), events[1..])
  }

  /** What a run from power-up with this many ports can come to. */
  ghost predicate Reachable(s: System) {
    s.maxPorts < PORTS && Enumeration.Inv(NewSystem(s.maxPorts)) &&
    exists events :: LegalRun(NewSystem(s.maxPorts), events) && Run(NewSystem(s.maxPorts), events) == s
  }

  lemma ReachableInv(s: System)
    requires Reachable(s)
    ensures Enumeration.Inv(s) && InBounds(s)
  {
    hide NewSystem;
    var events :| LegalRun(NewSystem(s.maxPorts), events) && Run(NewSystem(s.maxPorts), events) == s;
  }

  lemma PowerUpIsReachable(maxPorts: nat)
    requires maxPorts < PORTS
    ensures Reachable(NewSystem(maxPorts))
  {
    NewSystemInv(maxPorts);
    hide Enumeration.Inv;
    assert LegalRun(NewSystem(maxPorts), []) && Run(NewSystem(maxPorts), []) == NewSystem(maxPorts);
  }

  lemma {:induction false} RunOneMore(s: System, events: seq<Event>, e: Event)
    requires Enumeration.Inv(s) && LegalRun(s, events) && Legal(Run(s, events), e)
    ensures InBounds(Run(s, events))
    ensures LegalRun(s, events + [e]) && Run(s, events + [e]) == Step(Run(s, events), e)
    decreases |events|
  {
    hide Enumeration.Inv, Legal, Step;
    InvInBounds(Run(s, events));
    if events == [] {
      StepKeepsInv(s, e);
      assert (events + [e])[1..] == [];
    } else {
      StepKeepsInv(s, events[0]);
      RunOneMore(Step(s, events[0]), events[1..], e);
      assert (events + [e])[1..] == events[1..] + [e];
    }
  }

  lemma StepReaches(s: System, e: Event)
    requires Reachable(s) && Legal(s, e)
    ensures InBounds(s) && Reachable(Step(s, e))
  {
    hide Enumeration.Inv, NewSystem, Legal, Step;
    ReachableInv(s);
    StepKeepsInv(s, e);
    var events :| LegalRun(NewSystem(s.maxPorts), events) && Run(NewSystem(s.maxPorts), events) == s;
    RunOneMore(NewSystem(s.maxPorts), events, e);
  }

  // ---------------------------------------------------------------- the addressing token

  /** At most one port is between its reset and its address, the token names it, and the token
      is 0 exactly when there is none. */
  lemma TokenIsExact(s: System)
    requires Reachable(s)
    ensures forall p, q :: 0 <= p < PORTS && 0 <= q < PORTS && NeedsToken(s.x.phase[p]) && NeedsToken(s.x.phase[q]) ==> p == q
    ensures forall p :: 0 <= p < PORTS && NeedsToken(s.x.phase[p]) ==> s.x.token == p
    ensures s.x.token == 0 <==> forall p :: 0 <= p < PORTS ==> !NeedsToken(s.x.phase[p])
  {
    ReachableInv(s);
    hide CommandInv, IssuedInv, DevicesInv, RankSum, SlotInv, OwnerInv, Reachable;
    assert s.x.token != 0 ==> NeedsToken(s.x.phase[s.x.token]);
  }

  /** No port waits for a token that nobody holds. */
  predicate NoneLost(x: Driver) {
    x.token == 0 ==> forall p :: 0 <= p < PORTS ==> x.phase[p] != WaitingAddressed
  }

  /** The lowest waiting port is no longer connected when the token is offered to it. */
  predicate OfferFails(x: Driver, e: Event) {
    e.AddressDeviceDone? && LowestWaiting(x.phase, 0) < PORTS && LowestWaiting(x.phase, 0) !in e.connectedPorts
  }

  /** The hand-off is lost by exactly those events in which the lowest waiting port has been
      disconnected when its turn comes. */
  lemma HandOffIsLostExactlyWhen(s: System, e: Event)
    requires Enumeration.Inv(s) && Legal(s, e) && NoneLost(s.x)
    ensures InBounds(s) && (NoneLost(Step(s, e).x) <==> !OfferFails(s.x, e))
  {
    StepKeepsInv(s, e);
    if e.AddressDeviceDone? {
      AddressHandsOver(s, e);
    }
    hide Enumeration.Inv, Step, Legal, Rises;
  }

  /** The release of the token is at once its hand-over to the lowest waiting port. */
  lemma HandsOver(x: Driver, slot: nat, connected: set<nat>)
    requires slot <= MAX_SLOTS && x.slots[slot].Some?
    requires 1 <= x.slots[slot].value.inputPort == x.token < PORTS && x.phase[x.token] == AddressingDevice
    ensures var (x', w) := (OnAddressDeviceDone(CopyContext(x, slot), slot, connected).x, LowestWaiting(x.phase, 0));
            && (w == PORTS ==> x'.token == 0)
            && (w < PORTS && w in connected ==> x'.token == w && x'.phase[w] == ResettingPort)
            && (w < PORTS && w !in connected ==> x'.token == 0 && x'.phase[w] == WaitingAddressed)
            && x'.phase[x.token] == InitializingDevice
            && (forall p :: 0 <= p < PORTS && p != x.token && p != w ==> x'.phase[p] == x.phase[p])
  {
    hide OnAddressDeviceDone, CopyContext, Start, LowestWaiting;
    AddressHandlerIs(x, slot, connected);
  }

  lemma AddressHandsOver(s: System, e: Event)
    requires Enumeration.Inv(s) && Legal(s, e) && e.AddressDeviceDone?
    requires s.x.phase[0] == NotConnected
    ensures InBounds(s) && (NoneLost(Step(s, e).x) <==> !OfferFails(s.x, e))
  {
    hide Enumeration.Inv, Legal, OnAddressDeviceDone, CopyContext, DeviceMatches, Step;
    InvInBounds(s);
    AddressIsOutstanding(s, e);
    OutstandingMeans(s, AddressDeviceCommand(e.slot));
    HandsOver(s.x, e.slot, e.connectedPorts);
    AddressStepHandles(s, e);
  }

  lemma AddressIsOutstanding(s: System, e: Event)
    requires Legal(s, e) && e.AddressDeviceDone?
    ensures AddressDeviceCommand(e.slot) in s.commands
  {
  }

  lemma AddressStepHandles(s: System, e: Event)
    requires InBounds(s) && e.AddressDeviceDone?
    ensures Step(s, e).x == OnAddressDeviceDone(CopyContext(s.x, e.slot), e.slot, e.connectedPorts).x
  {
    hide OnAddressDeviceDone, CopyContext;
  }

  /** Two ports, of which the second waits while the first is addressed. */
  predicate SecondWaits(s: System, first: Phase) {
    s.x.token == 1 && s.x.phase[1] == first && s.x.phase[2] == WaitingAddressed && s.maxPorts == 2
  }

  lemma TwoPortsConfigured() returns (s: System)
    ensures Reachable(s) && SecondWaits(s, ResettingPort) && s.x.slots[1].None?
  {
    var s0 := NewSystem(2);
    PowerUpIsReachable(2);
    hide Reachable, Enumeration.Inv;
    ReachableInv(s0);
    StepReaches(s0, PortConfigured(1, true));
    var s1 := Step(s0, PortConfigured(1, true));
    ReachableInv(s1);
    StepReaches(s1, PortConfigured(2, true));
    s := Step(s1, PortConfigured(2, true));
  }

  lemma FirstPortReset(s0: System) returns (s: System)
    requires Reachable(s0) && SecondWaits(s0, ResettingPort) && s0.x.slots[1].None?
    ensures Reachable(s) && SecondWaits(s, EnablingSlot) && s.x.slots[1].None? && EnableSlotCommand in s.commands
  {
    var e := PortChanged(1, true, true, true);
    hide Reachable, Enumeration.Inv;
    ReachableInv(s0);
    StepReaches(s0, e);
    s := Step(s0, e);
  }

  lemma FirstPortAddressed(s0: System) returns (s: System)
    requires Reachable(s0) && SecondWaits(s0, EnablingSlot) && s0.x.slots[1].None? && EnableSlotCommand in s0.commands
    ensures Reachable(s) && SecondWaits(s, AddressingDevice) && AddressDeviceCommand(1) in s.commands
  {
    var e := EnableSlotDone(1, 0, 0);
    hide Reachable, NewDev, Enumeration.Inv, Step;
    ReachableInv(s0);
    StepReaches(s0, e);
    EnableSlotStepIs(s0, e);
    s := Step(s0, e);
  }

  /** It does happen: while port 1 is addressed port 2 waits, and it is unplugged before the
      Address Device command of port 1 completes. Then the token is free and port 2 still
      waits. */
  lemma HandOffCanBeLost() returns (s: System, e: Event)
    ensures Reachable(s) && Legal(s, e) && NoneLost(s.x) && OfferFails(s.x, e)
    ensures InBounds(s) && Reachable(Step(s, e)) && !NoneLost(Step(s, e).x)
  {
    s := TwoPortsConfigured();
    s := FirstPortReset(s);
    s := FirstPortAddressed(s);
    e := AddressDeviceDone(1, {});
    hide Enumeration.Inv, Reachable, Step;
    ReachableInv(s);
    HandOffIsLostExactlyWhen(s, e);
    StepReaches(s, e);
  }

  /** Waiting ports stay connected until their turn. */
  ghost predicate NoOfferFails(s: System, events: seq<Event>)
    requires Enumeration.Inv(s) && LegalRun(s, events)
    decreases |events|
  {
    events == [] ||
    (!OfferFails(s.x, events[0]) && (StepKeepsInv(s, events[0]); NoOfferFails(Step(s, events[0]), events[1..])))
  }

  /** Between events no port waits in vain, in every run whose waiting ports stay connected. */
  lemma {:induction false} NoLostHandOff(s: System, events: seq<Event>)
    requires Enumeration.Inv(s) && LegalRun(s, events) && NoneLost(s.x)
    requires NoOfferFails(s, events)
    ensures NoneLost(Run(s, events).x)
    decreases |events|
  {
    hide Enumeration.Inv, Legal, Step, NoneLost, OfferFails;
    if events != [] {
      StepKeepsInv(s, events[0]);
      HandOffIsLostExactlyWhen(s, events[0]);
      NoLostHandOff(Step(s, events[0]), events[1..]);
    }
  }

  // ---------------------------------------------------------------- progress

  lemma {:induction false} RankSumBound(phase: seq<Phase>, maxPorts: nat)
    requires forall p :: 0 <= p < |phase| && (p == 0 || p > maxPorts) ==> phase[p] == NotConnected
    ensures RankSum(phase) <= if |phase| <= maxPorts then 7 * (if |phase| == 0 then 0 else |phase| - 1) else 7 * maxPorts
  {
    if phase != [] {
      RankSumBound(phase[..|phase| - 1], maxPorts);
    }
  }

  /** Every write of a phase raises it (`Rises`, kept by `StepKeepsInv`), so a run writes phases
      at most seven times per port. */
  lemma RunsAreFinite(s: System)
    requires Reachable(s)
    ensures s.x.writes <= 7 * s.maxPorts
  {
    ReachableInv(s);
    RankSumBound(s.x.phase, s.maxPorts);
    hide CommandInv, IssuedInv, DevicesInv, RankSum, SlotInv, OwnerInv, Reachable;
  }

  lemma {:induction false} RunNeverFallsBack(s: System, events: seq<Event>, p: nat)
    requires Enumeration.Inv(s) && LegalRun(s, events) && p < PORTS
    ensures Rank(s.x.phase[p]) <= Rank(Run(s, events).x.phase[p])
    decreases |events|
  {
    hide Enumeration.Inv, Legal, Step, Rank;
    if events != [] {
      StepKeepsInv(s, events[0]);
      var s' := Step(s, events[0]);
      assert p !in Moved(s.x.phase, s'.x.phase) ==> s.x.phase[p] == s'.x.phase[p];
      RunNeverFallsBack(s', events[1..], p);
    }
  }

  /** Every port issues each kind of command at most once, and has issued it exactly when it
      has come far enough. */
  lemma EachCommandOnce(s: System, p: nat, k: CommandKind)
    requires Reachable(s)
    ensures s.issued[(p, k)] <= 1
    ensures s.issued[(p, k)] == 1 <==> p < PORTS && Rank(s.x.phase[p]) >= Threshold(k)
  {
    ReachableInv(s);
    hide CommandInv, DevicesInv, RankSum, SlotInv, OwnerInv, Reachable, TokenInv;
  }

  // ---------------------------------------------------------------- counting commands

  /** A set has at most as many members as they have different keys. */
  lemma {:induction false} Pigeonhole<T(!new)>(members: set<T>, key: T -> nat, n: nat)
    requires forall x :: x in members ==> key(x) < n
    requires forall x, y :: x in members && y in members && key(x) == key(y) ==> x == y
    ensures |members| <= n
  {
    if members != {} {
      if x :| x in members && key(x) == n - 1 {
        Pigeonhole(members - {x}, key, n - 1);
      } else {
        Pigeonhole(members, key, n - 1);
      }
    }
  }

  lemma {:induction false} OnceEach<T(!new)>(m: multiset<T>)
    requires forall x :: m[x] <= 1
    ensures |m| == |set x | x in m|
  {
    if m != multiset{} {
      var x :| x in m;
      var m' := m - multiset{x};
      OnceEach(m');
      assert (set y | y in m) == (set y | y in m') + {x};
    }
  }

  lemma {:induction false} Bijection<T(!new), U(!new)>(members: set<T>, f: T -> U, image: set<U>)
    requires forall x :: x in members ==> f(x) in image
    requires forall x, y :: x in members && y in members && f(x) == f(y) ==> x == y
    requires forall u :: u in image ==> exists x :: x in members && f(x) == u
    ensures |members| == |image|
  {
    if members == {} {
      assert image == {};
    } else {
      var x :| x in members;
      Bijection(members - {x}, f, image - {f(x)});
    }
  }

  /** The ports on whose behalf a command is outstanding. */
  function Waiting(phase: Phases): set<nat> {
    set p: nat | p < PORTS && (phase[p] == EnablingSlot || phase[p] == AddressingDevice || phase[p] == ConfiguringEndpoints)
  }

  function Configuring(phase: Phases): set<nat> {
    set p: nat | p < PORTS && phase[p] == ConfiguringEndpoints
  }

  function PortOf(x: Driver, c: Command): nat {
    match c
    case EnableSlotCommand => x.token
    case AddressDeviceCommand(slot) => if FindBySlot(x, slot).Some? then x.slots[slot].value.inputPort else 0
    case ConfigureEndpointCommand(slot) => if FindBySlot(x, slot).Some? then x.slots[slot].value.inputPort else 0
  }

  function SlotOfCommand(c: Command): nat {
    match c
    case EnableSlotCommand => 0
    case AddressDeviceCommand(slot) => slot
    case ConfigureEndpointCommand(slot) => slot
  }

  lemma CommandFacts(s: System, c: Command)
    requires Enumeration.Inv(s)
    ensures s.commands[c] <= 1
    ensures c in s.commands ==>
              && PortOf(s.x, c) in Waiting(s.x.phase) && SlotOfCommand(c) <= MAX_SLOTS
              && (c.EnableSlotCommand? <==> SlotOfCommand(c) == 0)
              && (c.EnableSlotCommand? <==> s.x.phase[PortOf(s.x, c)] == EnablingSlot)
              && (c.AddressDeviceCommand? <==> s.x.phase[PortOf(s.x, c)] == AddressingDevice)
              && (!c.EnableSlotCommand? ==>
                    s.x.slots[SlotOfCommand(c)].Some? && s.x.slots[SlotOfCommand(c)].value.inputPort == PortOf(s.x, c))
  {
    hide IssuedInv, DevicesInv, RankSum, OwnerInv, CommandInv;
    if c in s.commands { OutstandingMeans(s, c); }
    assert s.commands[c] <= 1 by { CommandCount(s, c); }
  }

  lemma CommandCount(s: System, c: Command)
    requires Enumeration.Inv(s)
    ensures s.commands[c] == if Expected(s.x.phase, s.x.slots, s.x.token, c) then 1 else 0
  {
    hide IssuedInv, DevicesInv, RankSum, OwnerInv, SlotInv, TokenInv, Expected;
  }

  lemma SlotsDiffer(s: System, i: nat, j: nat)
    requires Enumeration.Inv(s)
    requires i <= MAX_SLOTS && j <= MAX_SLOTS && s.x.slots[i].Some? && s.x.slots[j].Some?
    requires s.x.slots[i].value.inputPort == s.x.slots[j].value.inputPort
    ensures i == j
  {
    hide IssuedInv, DevicesInv, RankSum, OwnerInv, CommandInv, TokenInv;
  }

  lemma SameCommand(s: System, c: Command, d: Command)
    requires Enumeration.Inv(s) && c in s.commands && d in s.commands
    requires PortOf(s.x, c) == PortOf(s.x, d) || SlotOfCommand(c) == SlotOfCommand(d)
    ensures c == d
  {
    CommandFacts(s, c);
    CommandFacts(s, d);
    if !c.EnableSlotCommand? && !d.EnableSlotCommand? { SlotsDiffer(s, SlotOfCommand(c), SlotOfCommand(d)); }
    hide Enumeration.Inv, PortOf, Waiting;
  }

  /** A waiting port has its command. */
  lemma CommandForPort(s: System, p: nat) returns (c: Command)
    requires Enumeration.Inv(s) && p in Waiting(s.x.phase)
    ensures c in s.commands && PortOf(s.x, c) == p
  {
    if s.x.phase[p] == EnablingSlot {
      c := EnableSlotCommand;
      TokenAt(s, p);
    } else {
      var slot := OwnerOf(s, p);
      c := if s.x.phase[p] == AddressingDevice then AddressDeviceCommand(slot) else ConfigureEndpointCommand(slot);
    }
    CommandCount(s, c);
    hide Enumeration.Inv;
  }

  lemma TokenAt(s: System, p: nat)
    requires Enumeration.Inv(s) && p < PORTS && NeedsToken(s.x.phase[p])
    ensures s.x.token == p
  {
    hide IssuedInv, DevicesInv, RankSum, OwnerInv, CommandInv, SlotInv;
  }

  lemma OwnerOf(s: System, p: nat) returns (slot: nat)
    requires Enumeration.Inv(s) && p < PORTS && Rank(s.x.phase[p]) >= 4
    ensures 1 <= slot <= MAX_SLOTS && s.x.slots[slot].Some? && s.x.slots[slot].value.inputPort == p
  {
    hide IssuedInv, DevicesInv, RankSum, CommandInv;
    assert Owned(s.x.slots, p);
    slot :| 0 <= slot <= MAX_SLOTS && s.x.slots[slot].Some? && s.x.slots[slot].value.inputPort == p;
  }

  /** There is one outstanding command for every port that waits for one: at most one for the
      holder of the token and one for every port that configures its endpoints, and never
      more than nine. */
  lemma CommandBound(s: System)
    requires Enumeration.Inv(s)
    ensures |s.commands| == |Waiting(s.x.phase)| <= 1 + |Configuring(s.x.phase)|
    ensures |s.commands| <= MAX_SLOTS + 1
  {
    hide Enumeration.Inv, PortOf, SlotOfCommand, Waiting;
    var commands := set c | c in s.commands;
    forall c ensures s.commands[c] <= 1 { CommandFacts(s, c); }
    OnceEach(s.commands);
    forall c | c in commands
      ensures PortOf(s.x, c) in Waiting(s.x.phase) && SlotOfCommand(c) < MAX_SLOTS + 1 { CommandFacts(s, c); }
    forall c, d | c in commands && d in commands
                  && (PortOf(s.x, c) == PortOf(s.x, d) || SlotOfCommand(c) == SlotOfCommand(d))
      ensures c == d { SameCommand(s, c, d); }
    forall p | p in Waiting(s.x.phase) ensures exists c :: c in commands && PortOf(s.x, c) == p {
      var c := CommandForPort(s, p);
    }
    Bijection(commands, c => PortOf(s.x, c), Waiting(s.x.phase));
    Pigeonhole(commands, c => SlotOfCommand(c), MAX_SLOTS + 1);
    WaitingBound(s);
  }

  lemma WaitingBound(s: System)
    requires Enumeration.Inv(s)
    ensures |Waiting(s.x.phase)| <= 1 + |Configuring(s.x.phase)|
  {
    forall p | p in Waiting(s.x.phase) ensures p in {s.x.token} + Configuring(s.x.phase) {
      if p !in Configuring(s.x.phase) { TokenAt(s, p); }
    }
    Smaller(Waiting(s.x.phase), {s.x.token} + Configuring(s.x.phase));
  }

  lemma Smaller(x: set<nat>, y: set<nat>)
    requires x <= y
    ensures |x| <= |y|
  {
    assert y == x + (y - x);
  }

  // ---------------------------------------------------------------- counting over a run

  function KindNumber(k: CommandKind): nat {
    match k
    case EnableSlotKind => 0
    case AddressDeviceKind => 1
    case ConfigureEndpointKind => 2
  }

  /** A number below 25 for every command that was ever issued: 0 for the slot that is being
      enabled, and three for every slot. */
  ghost function IssueKey(x: Driver, i: (nat, CommandKind)): nat {
    if i.0 < PORTS && Rank(x.phase[i.0]) >= 4 && Owned(x.slots, i.0) then
      var slot :| 0 <= slot <= MAX_SLOTS && x.slots[slot].Some? && x.slots[slot].value.inputPort == i.0;
      if slot == 0 then 0 else 3 * (slot - 1) + 1 + KindNumber(i.1)
    else 0
  }

  lemma IssueFacts(s: System, i: (nat, CommandKind))
    requires Enumeration.Inv(s) && i in s.issued
    ensures s.issued[i] == 1 && i.0 < PORTS && Rank(s.x.phase[i.0]) >= 3
    ensures Rank(s.x.phase[i.0]) == 3 ==> i == (s.x.token, EnableSlotKind) && IssueKey(s.x, i) == 0
    ensures Rank(s.x.phase[i.0]) >= 4 ==>
              (exists slot :: 1 <= slot <= MAX_SLOTS && s.x.slots[slot].Some?
                 && s.x.slots[slot].value.inputPort == i.0 && IssueKey(s.x, i) == 3 * (slot - 1) + 1 + KindNumber(i.1))
  {
    assert s.issued[(i.0, i.1)] == 1;
    if Rank(s.x.phase[i.0]) == 3 { TokenAt(s, i.0); }
    else { var slot := OwnerOf(s, i.0); OwnedOnce(s, i, slot); }
    hide DevicesInv, RankSum, SlotInv, OwnerInv, CommandInv, TokenInv, IssueKey;
  }

  lemma OwnedOnce(s: System, i: (nat, CommandKind), slot: nat)
    requires Enumeration.Inv(s) && i.0 < PORTS && Rank(s.x.phase[i.0]) >= 4
    requires 1 <= slot <= MAX_SLOTS && s.x.slots[slot].Some? && s.x.slots[slot].value.inputPort == i.0
    ensures IssueKey(s.x, i) == 3 * (slot - 1) + 1 + KindNumber(i.1)
  {
    hide IssuedInv, DevicesInv, RankSum, OwnerInv, CommandInv, TokenInv;
    assert Owned(s.x.slots, i.0);
  }

  lemma SameIssue(s: System, i: (nat, CommandKind), j: (nat, CommandKind))
    requires Enumeration.Inv(s) && i in s.issued && j in s.issued && IssueKey(s.x, i) == IssueKey(s.x, j)
    ensures i == j && IssueKey(s.x, i) < 3 * MAX_SLOTS + 1
  {
    hide Enumeration.Inv, IssueKey, Rank;
    IssueFacts(s, i);
    IssueFacts(s, j);
  }

  /** A run issues at most 25 commands: one Enable Slot, one Address Device and one Configure
      Endpoint for each slot, and one Enable Slot that finds no slot left. */
  lemma TotalBound(s: System)
    requires Enumeration.Inv(s)
    ensures |s.issued| <= 3 * MAX_SLOTS + 1
  {
    hide Enumeration.Inv, IssueKey;
    var members := set i | i in s.issued;
    forall i ensures s.issued[i] <= 1 { if i in s.issued { IssueFacts(s, i); } }
    OnceEach(s.issued);
    forall i | i in members ensures IssueKey(s.x, i) < 3 * MAX_SLOTS + 1 { SameIssue(s, i, i); }
    forall i, j | i in members && j in members && IssueKey(s.x, i) == IssueKey(s.x, j) ensures i == j {
      SameIssue(s, i, j);
    }
    Pigeonhole(members, i => IssueKey(s.x, i), 3 * MAX_SLOTS + 1);
  }

  // ---------------------------------------------------------------- ports, slots and devices

  /** Every port past kEnablingSlot owns a slot that no other port has, whose context pointer
      entry names the slot's own device context, and whose device context names the port once
      it is addressed. A device that is being initialized has exactly one request outstanding
      in phases 1 to 3, or is in phase 2 with none, or is in phase 4 and initialized. */
  lemma EveryPortHasItsDevice(s: System, p: nat)
    requires Reachable(s) && p < PORTS && Rank(s.x.phase[p]) >= 4
    ensures exists slot :: 1 <= slot <= MAX_SLOTS && OwnsSlot(s.x, p, slot)
    ensures forall i, j :: 1 <= i <= MAX_SLOTS && 1 <= j <= MAX_SLOTS && OwnsSlot(s.x, p, i) && OwnsSlot(s.x, p, j) ==> i == j
  {
    ReachableInv(s);
    var slot := OwnerOf(s, p);
    SlotMeans(s, slot);
    DeviceAt(s, slot);
    forall i, j | 1 <= i <= MAX_SLOTS && 1 <= j <= MAX_SLOTS && OwnsSlot(s.x, p, i) && OwnsSlot(s.x, p, j)
      ensures i == j { SlotsDiffer(s, i, j); }
    hide Enumeration.Inv, DeviceMatches, Reachable;
    assert OwnsSlot(s.x, p, slot);
  }

  lemma DeviceAt(s: System, slot: nat)
    requires Enumeration.Inv(s) && slot <= MAX_SLOTS && s.x.slots[slot].Some?
    ensures slot < |s.x.contexts| && s.x.contexts[slot] == Some(slot)
    ensures s.x.slots[slot].value.inputPort < PORTS
    ensures Initialization(s.x.phase[s.x.slots[slot].value.inputPort], s.x.slots[slot].value.dev)
  {
    hide DeviceRuns.Inv, IssuedInv, RankSum, OwnerInv, CommandInv, TokenInv;
  }

  ghost predicate OwnsSlot(x: Driver, p: nat, slot: nat)
    requires slot <= MAX_SLOTS && p < PORTS
  {
    && x.slots[slot].Some?
    && slot < |x.contexts| && x.contexts[slot] == Some(slot)
    && var v := x.slots[slot].value;
       && v.inputPort == p
       && (Rank(x.phase[p]) >= 5 ==> v.contextPort == p)
       && Initialization(x.phase[p], v.dev)
  }

  ghost predicate Initialization(p: Phase, d: Dev) {
    p == InitializingDevice ==>
      || (1 <= d.usb.phase <= 3 && |d.pipe.live| == 1)
      || (d.usb.phase == 2 && d.pipe.live == [])
      || (d.usb.phase == 4 && d.usb.isInitialized)
  }
}
