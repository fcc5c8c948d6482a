/** The enumeration on top of the command ring: handlers push commands word by word while the
    controller reads the ring, and a completion event brings back the address of its command,
    whose type the driver reads from the ring again. */
module CommandRings {
  import opened ArrayMaps
  import opened Bits
  import opened Enumeration
  import opened EnumerationRuns
  import opened Trbs
  import TrbRing

  function TypeOf(c: Command): nat {
    match c
    case EnableSlotCommand => ENABLE_SLOT_TYPE
    case AddressDeviceCommand(_) => ADDRESS_DEVICE_TYPE
    case ConfigureEndpointCommand(_) => CONFIGURE_ENDPOINT_TYPE
  }

  /** The slot is in bits 24 to 31 of word 3, the type in bits 10 to 15; words 0 and 1 are the
      input context's address without its low four bits. */
  function CommandTrb(c: Command, context: Address): Trb {
    if c.EnableSlotCommand? then Trb(0, 0, 0, Word3(TypeOf(c) * 512, false))
    else Trb(context / 16 * 16 % TWO_32, context / TWO_32, 0, Word3(TypeOf(c) * 512 + c.slot % 256 * 0x80_0000, false))
  }

  function SlotField(t: Trb): nat { t.w3.control / 0x80_0000 % 256 }

  predicate Carries(t: Trb, c: Command) {
    t.Type() == TypeOf(c) && (!c.EnableSlotCommand? ==> SlotField(t) == c.slot)
  }

  lemma ControlFields(kind: nat, slot: nat)
    requires kind < 64 && slot < 256
    ensures var control := kind * 512 + slot * 0x80_0000;
            control / 512 % 64 == kind && control / 0x80_0000 % 256 == slot
  {
    var control := kind * 512 + slot * 0x80_0000;
    DivModUnique(control, 512, kind + 64 * (256 * slot), 0);
    DivModUnique(kind + 64 * (256 * slot), 64, 256 * slot, kind);
    DivModUnique(control, 0x80_0000, slot, kind * 512);
  }

  lemma CommandTrbRoundTrip(c: Command, context: Address, cycle: bool)
    requires !c.EnableSlotCommand? ==> c.slot < 256
    ensures Carries(CommandTrb(c, context).Stamp(cycle), c)
    ensures !c.EnableSlotCommand? ==> CommandTrb(c, context).SegmentPointer() == context / 16 * 16
  {
    if !c.EnableSlotCommand? {
      ControlFields(TypeOf(c), c.slot);
      PointerWords(context);
    }
  }

  /** `posted` is every command so far, in ring order; `done` are the positions in it of the
      completed ones. */
  datatype Bus = Bus(sys: System, ring: TrbRing.State, posted: seq<Command>, done: set<nat>)

  function NewBus(maxPorts: nat, base: Address): Bus {
    Bus(NewSystem(maxPorts), TrbRing.Start(base, TrbRing.RING_SIZE), [], {})
  }

  datatype Move =
    | Handles(e: Event, context: Address)      // an event that completes no command
    | Completes(at: nat, slot: nat, base: Address, buffer: Address, connected: set<nat>, context: Address)
    | Steps(a: TrbRing.Action)                 // one store of the driver or one load of the controller

  /** The n-th command lies in this slot of the ring, since the last slot holds the Link TRB. */
  function RingSlot(n: nat): nat { n % (TrbRing.RING_SIZE - 1) }

  /** The completion handler's dispatch on the type that it reads from the ring. */
  function Dispatch(b: Bus, m: Move): Option<Event>
    requires m.Completes? && b.ring.Size() == TrbRing.RING_SIZE
  {
    var issuer := b.ring.image.mem[RingSlot(m.at)].Type();
    if issuer == ENABLE_SLOT_TYPE then Some(EnableSlotDone(m.slot, m.base, m.buffer))
    else if issuer == ADDRESS_DEVICE_TYPE then Some(AddressDeviceDone(m.slot, m.connected))
    else if issuer == CONFIGURE_ENDPOINT_TYPE then Some(ConfigureEndpointDone(m.slot))
    else None
  }

  predicate Sound(b: Bus) {
    InBounds(b.sys) && TrbRing.WellFormed(b.ring) && b.ring.Size() == TrbRing.RING_SIZE
  }

  /** The driver handles `e`; a command that it issues starts to be stored. */
  function Handled(b: Bus, e: Event, context: Address, done: set<nat>): Bus
    requires Sound(b)
  {
    var r := Handle(b.sys, e);
    if r.command.None? then Bus(Step(b.sys, e), b.ring, b.posted, done)
    else Bus(Step(b.sys, e), TrbRing.Step(b.ring, TrbRing.Begin(CommandTrb(r.command.value, context))),
             b.posted + [r.command.value], done)
  }

  function BusStep(b: Bus, m: Move): Bus
    requires Sound(b)
  {
    match m
    case Handles(e, context) => Handled(b, e, context, b.done)
    case Completes(at, _, _, _, _, context) =>
      var e := Dispatch(b, m);
      if e.None? then b else Handled(b, e.value, context, b.done + {at})
    case Steps(a) => b.(ring := TrbRing.Step(b.ring, a))
  }

  /** The driver is not in the middle of a push when it takes up an event. The controller
      completes each command once, after it has read it, for the slot that the command names;
      Enable Slot brings a fresh one. */
  ghost predicate BusLegal(b: Bus, m: Move) {
    match m
    case Handles(e, _) => b.ring.producer.Ready? && CompletedBy(e).None? && Legal(b.sys, e)
    case Completes(at, slot, base, _, _, _) =>
      && b.ring.producer.Ready?
      && at < |b.ring.consumed| && at !in b.done && at < |b.posted|
      && (match b.posted[at]
          case EnableSlotCommand => 1 <= slot <= MAX_SLOTS && b.sys.x.slots[slot].None? && base % 16 == 0
          case AddressDeviceCommand(s) => slot == s
          case ConfigureEndpointCommand(s) => slot == s)
    case Steps(a) => !a.Begin?
  }

  // ---------------------------------------------------------------- the invariant

  /** The commands that are posted and not done. */
  function Pending(posted: seq<Command>, done: set<nat>): multiset<Command> {
    if posted == [] then multiset{}
    else
      var n := |posted| - 1;
      Pending(posted[..n], done) + if n in done then multiset{} else multiset{posted[n]}
  }

  predicate Matches(trbs: seq<Trb>, posted: seq<Command>) {
    |trbs| == |posted| && forall i :: 0 <= i < |trbs| ==> Carries(trbs[i], posted[i])
  }

  ghost predicate LogInv(ring: TrbRing.State, posted: seq<Command>, done: set<nat>) {
    && ring.Size() == TrbRing.RING_SIZE
    && Matches(TrbRing.Promised(ring), posted)
    && forall i :: i in done ==> i < |ring.consumed|
  }

  ghost predicate BusInv(b: Bus) {
    && Enumeration.Inv(b.sys)
    && TrbRing.WellFormed(b.ring) && TrbRing.Inv(b.ring)
    && LogInv(b.ring, b.posted, b.done)
    && |b.posted| == |b.sys.issued|
    && b.sys.commands == Pending(b.posted, b.done)
  }

  lemma NewBusInv(maxPorts: nat, base: Address)
    requires maxPorts < PORTS && base % 16 == 0
    ensures BusInv(NewBus(maxPorts, base))
  {
    NewSystemInv(maxPorts);
    TrbRing.StartInv(base, TrbRing.RING_SIZE);
    hide Enumeration.Inv, TrbRing.Inv;
  }

  /** Commands that were never read are pending. */
  lemma {:induction false} PendingSize(posted: seq<Command>, done: set<nat>, read: nat)
    requires forall i :: i in done ==> i < read
    ensures |posted| - read <= |Pending(posted, done)|
  {
    if posted != [] && |posted| > read { PendingSize(posted[..|posted| - 1], done, read); }
  }

  /** Completing a pending command takes it out. */
  lemma {:induction false} PendingDone(posted: seq<Command>, done: set<nat>, at: nat)
    requires at < |posted| && at !in done
    ensures posted[at] in Pending(posted, done)
    ensures Pending(posted, done + {at}) == Pending(posted, done) - multiset{posted[at]}
  {
    var n := |posted| - 1;
    if at == n {
      PendingOther(posted[..n], done, at);
    } else {
      PendingDone(posted[..n], done, at);
      assert posted[..n][at] == posted[at];
      TakeOut(Pending(posted[..n], done), posted[at], if n in done then multiset{} else multiset{posted[n]});
    }
  }

  lemma TakeOut(m: multiset<Command>, c: Command, more: multiset<Command>)
    requires c in m
    ensures (m - multiset{c}) + more == (m + more) - multiset{c} && c in m + more
  {
  }

  lemma {:induction false} PendingOther(posted: seq<Command>, done: set<nat>, at: nat)
    requires at >= |posted|
    ensures Pending(posted, done + {at}) == Pending(posted, done)
  {
    if posted != [] { PendingOther(posted[..|posted| - 1], done, at); }
  }

  lemma PendingPush(posted: seq<Command>, done: set<nat>, c: Command)
    requires |posted| !in done
    ensures Pending(posted + [c], done) == Pending(posted, done) + multiset{c}
  {
    assert (posted + [c])[..|posted|] == posted;
  }

  /** The command ring, which never checks whether it is full, has at most nine unread
      commands: those of the ports that are waiting for one. */
  lemma NeverOverruns(b: Bus)
    requires BusInv(b)
    ensures b.ring.Unread() <= |b.sys.commands| == |Waiting(b.sys.x.phase)| <= 1 + |Configuring(b.sys.x.phase)|
    ensures |b.sys.commands| <= MAX_SLOTS + 1
    ensures b.ring.producer.Ready? ==> b.ring.Unread() + 1 <= TrbRing.RING_SIZE - 2
    ensures |b.posted| <= 3 * MAX_SLOTS + 1
  {
    hide Enumeration.Inv, TrbRing.Inv, Waiting, Configuring, Carries;
    CommandBound(b.sys);
    TotalBound(b.sys);
    PendingSize(b.posted, b.done, |b.ring.consumed|);
    TrbRing.PromisedIsPublished(b.ring);
  }

  /** Nothing that was read has been overwritten: the slot of the n-th command still holds it. */
  lemma StillInTheRing(b: Bus, n: nat)
    requires BusInv(b) && n < |b.ring.pushed|
    ensures n < |b.posted| && Carries(b.ring.image.mem[RingSlot(n)], b.posted[n])
  {
    NeverOverruns(b);
    hide Enumeration.Inv;
    TrbRing.PromisedIsPublished(b.ring);
    RingHolds(b.ring, n);
    assert b.ring.pushed[n] == TrbRing.Promised(b.ring)[n];
    assert Carries(TrbRing.Promised(b.ring)[n], b.posted[n]);
  }

  lemma RingHolds(s: TrbRing.State, n: nat)
    requires TrbRing.Inv(s) && s.Size() == TrbRing.RING_SIZE && n < |s.pushed| < TrbRing.RING_SIZE - 1
    ensures RingSlot(n) == n && s.image.mem[n] == s.pushed[n].Stamp(s.image.cycle)
  {
  }

  /** The type that the handler reads from the ring is the type of the command that completed,
      so the event that it dispatches to completes exactly that command. */
  lemma DispatchIsRight(b: Bus, m: Move)
    requires BusInv(b) && BusLegal(b, m) && m.Completes?
    ensures b.posted[m.at] in b.sys.commands
    ensures Dispatch(b, m).Some? && CompletedBy(Dispatch(b, m).value) == Some(b.posted[m.at])
    ensures Legal(b.sys, Dispatch(b, m).value)
  {
    ConsumedWerePushed(b.ring);
    StillInTheRing(b, m.at);
    PendingDone(b.posted, b.done, m.at);
    hide BusInv, Carries;
    assert Carries(b.ring.image.mem[RingSlot(m.at)], b.posted[m.at]);
    DispatchOn(b, m);
  }

  lemma ConsumedWerePushed(s: TrbRing.State)
    requires TrbRing.Inv(s)
    ensures |s.consumed| <= |s.pushed|
  {
  }

  lemma DispatchOn(b: Bus, m: Move)
    requires m.Completes? && b.ring.Size() == TrbRing.RING_SIZE && BusLegal(b, m)
    requires Carries(b.ring.image.mem[RingSlot(m.at)], b.posted[m.at]) && b.posted[m.at] in b.sys.commands
    ensures Dispatch(b, m).Some? && CompletedBy(Dispatch(b, m).value) == Some(b.posted[m.at])
    ensures Legal(b.sys, Dispatch(b, m).value)
  {
  }

  // ---------------------------------------------------------------- every step

  lemma LogAfterPush(ring: TrbRing.State, posted: seq<Command>, done: set<nat>, c: Command, context: Address)
    requires TrbRing.WellFormed(ring) && LogInv(ring, posted, done) && TrbRing.MayPush(ring, CommandTrb(c, context))
    requires !c.EnableSlotCommand? ==> c.slot < 256
    ensures LogInv(TrbRing.Step(ring, TrbRing.Begin(CommandTrb(c, context))), posted + [c], done)
  {
    var t := CommandTrb(c, context);
    CommandTrbRoundTrip(c, context, false);
    TrbRing.StepPromises(ring, TrbRing.Begin(t));
    assert t.Payload() == t.Stamp(false);
    hide Carries, CommandTrb;
  }

  lemma LogAfterStep(ring: TrbRing.State, posted: seq<Command>, done: set<nat>, a: TrbRing.Action)
    requires TrbRing.WellFormed(ring) && LogInv(ring, posted, done) && !a.Begin?
    ensures LogInv(TrbRing.Step(ring, a), posted, done)
  {
    TrbRing.StepPromises(ring, a);
    TrbRing.ConsumedGrows(ring, a);
    hide Carries, TrbRing.Step, TrbRing.Promised;
    assert TrbRing.Promised(ring) + [] == TrbRing.Promised(ring);
  }

  /** A command that a handler issues is new, and carries a slot number. */
  lemma StepIssues(s: System, e: Event)
    requires Enumeration.Inv(s) && Legal(s, e)
    ensures InBounds(s)
    ensures var (r, left) := (Handle(s, e), if CompletedBy(e).Some? then s.commands - multiset{CompletedBy(e).value} else s.commands);
            && (r.command.None? ==> Step(s, e).commands == left && |Step(s, e).issued| == |s.issued|)
            && (r.command.Some? ==>
                  && Step(s, e).commands == left + multiset{r.command.value}
                  && |Step(s, e).issued| == |s.issued| + 1
                  && (!r.command.value.EnableSlotCommand? ==> r.command.value.slot < 256))
  {
    InvInBounds(s);
    StepKeepsInv(s, e);
    hide Legal, Handle, IssuedFor, Enumeration.Inv;
    var c := Handle(s, e).command;
    if c.Some? {
      assert c.value in Step(s, e).commands;
      CommandFacts(Step(s, e), c.value);
    }
  }

  lemma HandledKeepsInv(b: Bus, e: Event, context: Address, done: set<nat>)
    requires BusInv(b) && b.ring.producer.Ready? && Legal(b.sys, e)
    requires LogInv(b.ring, b.posted, done)
    requires Pending(b.posted, done) ==
             if CompletedBy(e).Some? then b.sys.commands - multiset{CompletedBy(e).value} else b.sys.commands
    ensures Sound(b) && BusInv(Handled(b, e, context, done))
    ensures var r := Handle(b.sys, e);
            r.command.Some? ==> TrbRing.MayPush(b.ring, CommandTrb(r.command.value, context))
  {
    NeverOverruns(b);
    InvInBounds(b.sys);
    StepIssues(b.sys, e);
    StepKeepsInv(b.sys, e);
    hide Enumeration.Inv, TrbRing.Inv, Legal, Handle, Enumeration.Step, Pending, Rises, KeepsOffer, Waiting,
      Configuring, TrbRing.Step, CommandTrb, Matches;
    var c := Handle(b.sys, e).command;
    if c.Some? { PushKeepsInv(b, Step(b.sys, e), c.value, context, done); }
  }

  /** A new command starts to be pushed. */
  lemma PushKeepsInv(b: Bus, s: System, c: Command, context: Address, done: set<nat>)
    requires TrbRing.WellFormed(b.ring) && TrbRing.Inv(b.ring) && LogInv(b.ring, b.posted, done)
    requires b.ring.producer.Ready? && b.ring.Unread() + 1 <= TrbRing.RING_SIZE - 2
    requires Enumeration.Inv(s) && |s.issued| == |b.posted| + 1 && s.commands == Pending(b.posted, done) + multiset{c}
    requires !c.EnableSlotCommand? ==> c.slot < 256
    ensures TrbRing.MayPush(b.ring, CommandTrb(c, context))
    ensures BusInv(Bus(s, TrbRing.Step(b.ring, TrbRing.Begin(CommandTrb(c, context))), b.posted + [c], done))
  {
    hide Enumeration.Inv, TrbRing.Inv, Pending, TrbRing.Step, CommandTrb, Matches;
    var t := CommandTrb(c, context);
    CommandTrbRoundTrip(c, context, false);
    TrbRing.StepKeepsInv(b.ring, TrbRing.Begin(t));
    LogAfterPush(b.ring, b.posted, done, c, context);
    NotDone(b.ring, b.posted, done);
    PendingPush(b.posted, done, c);
  }

  lemma NotDone(ring: TrbRing.State, posted: seq<Command>, done: set<nat>)
    requires LogInv(ring, posted, done) && TrbRing.Inv(ring)
    ensures |posted| !in done
  {
    TrbRing.PromisedIsPublished(ring);
    ConsumedWerePushed(ring);
  }

  /** One step of the whole: a word on the bus, a handler, or a completion. Every push is one
      that the ring allows. */
  lemma BusStepKeepsInv(b: Bus, m: Move)
    requires BusInv(b) && BusLegal(b, m)
    ensures Sound(b) && BusInv(BusStep(b, m))
  {
    InvInBounds(b.sys);
    match m
    case Handles(e, context) => HandledKeepsInv(b, e, context, b.done);
    case Completes(at, _, _, _, _, context) =>
      DispatchIsRight(b, m);
      CompletedLog(b, at);
      HandledKeepsInv(b, Dispatch(b, m).value, context, b.done + {at});
    case Steps(a) =>
      TrbRing.StepKeepsInv(b.ring, a);
      LogAfterStep(b.ring, b.posted, b.done, a);
  }

  lemma CompletedLog(b: Bus, at: nat)
    requires BusInv(b) && at < |b.ring.consumed| && at !in b.done && at < |b.posted|
    ensures LogInv(b.ring, b.posted, b.done + {at})
    ensures Pending(b.posted, b.done + {at}) == b.sys.commands - multiset{b.posted[at]}
  {
    hide Enumeration.Inv, TrbRing.Inv;
    PendingDone(b.posted, b.done, at);
  }

  /** What the enumeration sees of a step is a legal step of its own, or nothing. */
  lemma BusRefinesEnumeration(b: Bus, m: Move)
    requires BusInv(b) && BusLegal(b, m)
    ensures Sound(b)
    ensures || BusStep(b, m).sys == b.sys
            || exists e :: Legal(b.sys, e) && BusStep(b, m).sys == Step(b.sys, e)
  {
    InvInBounds(b.sys);
    if m.Completes? { DispatchIsRight(b, m); }
    hide Enumeration.Inv, TrbRing.Inv, Legal, LogInv, Handle, Enumeration.Step, Pending;
  }

  // ---------------------------------------------------------------- every run

  ghost predicate BusRun(b: Bus, moves: seq<Move>, b': Bus)
    decreases |moves|
  {
    if moves == [] then b' == b
    else Sound(b) && BusLegal(b, moves[0]) && BusRun(BusStep(b, moves[0]), moves[1..], b')
  }

  lemma {:induction false} BusRunKeepsInv(b: Bus, moves: seq<Move>, b': Bus)
    requires BusInv(b) && Reachable(b.sys) && BusRun(b, moves, b')
    ensures BusInv(b') && Reachable(b'.sys)
    decreases |moves|
  {
    hide BusInv, BusStep, BusLegal, Reachable, Legal, Step;
    if moves != [] {
      var b1 := BusStep(b, moves[0]);
      BusStepKeepsInv(b, moves[0]);
      BusRefinesEnumeration(b, moves[0]);
      if b1.sys != b.sys {
        var e :| Legal(b.sys, e) && b1.sys == Step(b.sys, e);
        StepReaches(b.sys, e);
      }
      BusRunKeepsInv(b1, moves[1..], b');
    }
  }

  /** Every run of driver, ring and controller from power-up: what the enumeration sees is a
      legal run of its own; the controller has read exactly a prefix of the commands, in order
      and whole; and at most nine are unread, so that the 32 slots suffice. */
  lemma CommandRingIsSafe(maxPorts: nat, base: Address, moves: seq<Move>, b: Bus)
    requires maxPorts < PORTS && base % 16 == 0
    requires BusRun(NewBus(maxPorts, base), moves, b)
    ensures Reachable(b.sys)
    ensures |b.ring.consumed| <= |b.posted|
    ensures forall i :: 0 <= i < |b.ring.consumed| ==> Carries(b.ring.consumed[i], b.posted[i])
    ensures b.ring.Unread() <= |b.sys.commands| <= MAX_SLOTS + 1
  {
    NewBusInv(maxPorts, base);
    PowerUpIsReachable(maxPorts);
    BusRunKeepsInv(NewBus(maxPorts, base), moves, b);
    NeverOverruns(b);
    ConsumedCarry(b);
    hide BusInv, Reachable, BusRun;
  }

  lemma ConsumedCarry(b: Bus)
    requires BusInv(b)
    ensures |b.ring.consumed| <= |b.posted|
    ensures forall i :: 0 <= i < |b.ring.consumed| ==> Carries(b.ring.consumed[i], b.posted[i])
  {
    hide Enumeration.Inv, Carries;
    TrbRing.PromisedIsPublished(b.ring);
    forall i | 0 <= i < |b.ring.consumed| ensures Carries(b.ring.consumed[i], b.posted[i]) {
      assert b.ring.consumed[i] == b.ring.pushed[i] == TrbRing.Promised(b.ring)[i];
    }
  }
}
