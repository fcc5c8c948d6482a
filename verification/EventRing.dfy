/** The Event Ring: the controller produces, the driver consumes.

    The controller follows section 4.9.4 of the xHCI specification: it stores an event
    word by word, the cycle bit last, toggles its cycle state at the end of the
    segment, and posts nothing while the slot after its enqueue pointer is the one the
    dequeue pointer register names. The driver reads the front TRB in place, handles
    it, and only then moves the dequeue pointer. */
module EventRings {
  import Bits
  import opened Trbs

  datatype Writer = Idle | Writing(trb: Trb, k: nat)

  datatype Driver = Waiting | Handling

  datatype State = State(
    base: Address, mem: seq<Trb>,
    index: nat, pcs: bool, writer: Writer,   // the controller
    erdp: int, ccs: bool, driver: Driver,    // the dequeue pointer register and the driver
    posted: seq<Trb>, handled: seq<Trb>)
  {
    /** The slot that the dequeue pointer register names. */
    function At(): int { (erdp - base) / TRB_BYTES }

    function Unhandled(): int { |posted| - |handled| }

    predicate Full() {
      base + TRB_BYTES * (if index + 1 == |mem| then 0 else index + 1) == erdp
    }
  }

  datatype Action =
    | Post(trb: Trb)  // the controller has an event
    | Write           // the controller stores one word
    | Check           // the driver evaluates HasFront
    | Pop             // the driver has handled the front TRB

  predicate WellFormed(s: State) {
    && s.index < |s.mem|
    && (s.writer.Writing? ==> s.writer.k < 4)
    && 0 <= s.At() < |s.mem|
    && s.erdp == s.base + TRB_BYTES * s.At()
  }

  function Start(base: Address, size: nat): State {
    State(base, seq(size, i => ZERO_TRB), 0, true, Idle, base, true, Waiting, [], [])
  }

  function DoPost(s: State, t: Trb): State {
    if s.writer.Idle? && !s.Full() then s.(writer := Writing(t, 0)) else s
  }

  function DoWrite(s: State): State
    requires WellFormed(s)
  {
    if s.writer.Idle? then
      s
    else
      var (t, k, x) := (s.writer.trb, s.writer.k, s.mem[s.index]);
      if k < 3 then
        s.(mem := s.mem[s.index := x.Set(k, t.Get(k))], writer := Writing(t, k + 1))
      else
        var mem := s.mem[s.index := x.(w3 := Word3(t.w3.control, s.pcs))];
        var wrap := s.index + 1 == |s.mem|;
        s.(mem := mem, writer := Idle, posted := s.posted + [t.Payload()],
           index := if wrap then 0 else s.index + 1,
           pcs := if wrap then !s.pcs else s.pcs)
  }

  /** The cycle bit of the front TRB against the driver's own. */
  predicate HasFront(s: State)
    requires WellFormed(s)
  {
    s.mem[s.At()].Cycle() == s.ccs
  }

  function DoCheck(s: State): State
    requires WellFormed(s)
  {
    if s.driver.Waiting? && HasFront(s) then s.(driver := Handling) else s
  }

  function DoPop(s: State): State
    requires WellFormed(s)
  {
    if s.driver.Waiting? then
      s
    else
      var p := s.erdp + TRB_BYTES;
      var wrap := p == s.base + TRB_BYTES * |s.mem|;
      s.(erdp := if wrap then s.base else p,
         ccs := if wrap then !s.ccs else s.ccs,
         driver := Waiting,
         handled := s.handled + [s.mem[s.At()].Payload()])
  }

  function Step(s: State, a: Action): (s': State)
    requires WellFormed(s)
    ensures WellFormed(s') && |s'.mem| == |s.mem|
  {
    match a
    case Post(t) => DoPost(s, t)
    case Write => DoWrite(s)
    case Check => DoCheck(s)
    case Pop => DoPop(s)
  }

  // ---------------------------------------------------------------- the invariant

  /** Slots below the enqueue index hold this lap, the others the lap before. */
  predicate MemoryInv(mem: seq<Trb>, index: nat, pcs: bool, posted: seq<Trb>, torn: int) {
    var size, lap := |mem|, |posted| - index;
    && index < size
    && (lap == 0 || lap >= size)
    && (lap == 0 ==> pcs)
    && (forall i :: 0 <= i < index ==> mem[i] == posted[lap + i].Stamp(pcs))
    && (forall i :: index <= i < size ==> mem[i].Cycle() == !pcs)
    && (lap >= size ==> forall i :: index <= i < size && i != torn ==>
                          mem[i] == posted[lap - size + i].Stamp(!pcs))
  }

  /** The driver is in the controller's lap or in the one before. */
  predicate DriverInv(size: int, index: nat, pcs: bool, total: nat, at: int, ccs: bool, taken: nat) {
    var lap := total - index;
    && taken <= total
    && (ccs == pcs ==> taken == lap + at && at <= index)
    && (ccs != pcs ==> lap >= size && taken == lap - size + at && index < at)
  }

  predicate Inv(s: State) {
    && WellFormed(s)
    && |s.mem| >= 2
    && MemoryInv(s.mem, s.index, s.pcs, s.posted, if s.writer.Writing? then s.index else -1)
    && (forall i :: 0 <= i < |s.posted| ==> s.posted[i] == s.posted[i].Payload())
    && DriverInv(|s.mem|, s.index, s.pcs, |s.posted|, s.At(), s.ccs, |s.handled|)
    && s.handled == s.posted[..|s.handled|]
    && (s.writer.Writing? ==>
          s.Unhandled() <= |s.mem| - 2 && s.mem[s.index].AgreesUpTo(s.writer.trb, s.writer.k))
    && (s.driver.Handling? ==> HasFront(s))
  }

  lemma StartInv(base: Address, size: nat)
    requires size >= 2
    ensures Inv(Start(base, size))
  {
  }

  /** The driver's test is exact: there is a front TRB if and only if an event has
      been posted and not handled; it is the oldest such event, whole. */
  lemma HasFrontIsExact(s: State)
    requires Inv(s)
    ensures HasFront(s) <==> s.Unhandled() > 0
    ensures HasFront(s) ==> s.mem[s.At()].Payload() == s.posted[|s.handled|]
  {
  }

  /** The register test of the controller leaves at most size - 2 events waiting when
      it starts to store another one. */
  lemma NotFull(s: State)
    requires Inv(s) && !s.Full()
    ensures s.Unhandled() <= |s.mem| - 2
  {
  }

  lemma MemoryInvWord(mem: seq<Trb>, index: nat, pcs: bool, posted: seq<Trb>, x: Trb)
    requires MemoryInv(mem, index, pcs, posted, index)
    requires x.w3 == mem[index].w3
    ensures MemoryInv(mem[index := x], index, pcs, posted, index)
  {
  }

  lemma MemoryInvPublish(mem: seq<Trb>, index: nat, pcs: bool, posted: seq<Trb>, t: Trb)
    requires MemoryInv(mem, index, pcs, posted, index)
    ensures var wrap := index + 1 == |mem|;
            MemoryInv(mem[index := t.Stamp(pcs)], if wrap then 0 else index + 1,
                      if wrap then !pcs else pcs, posted + [t.Payload()], -1)
  {
  }

  lemma PostKeepsInv(s: State, t: Trb)
    requires Inv(s)
    ensures Inv(DoPost(s, t))
  {
    hide MemoryInv, DriverInv;
    if s.writer.Idle? && !s.Full() {
      NotFull(s);
      MemoryInvWeaken(s.mem, s.index, s.pcs, s.posted);
    }
  }

  /** The slot at the enqueue index is free to be torn. */
  lemma MemoryInvWeaken(mem: seq<Trb>, index: nat, pcs: bool, posted: seq<Trb>)
    requires MemoryInv(mem, index, pcs, posted, -1)
    ensures MemoryInv(mem, index, pcs, posted, index)
  {
  }

  /** The controller never stores into the TRB that the driver is handling. */
  lemma FrontIsNotWritten(s: State)
    requires Inv(s) && s.driver.Handling?
    ensures s.writer.Writing? ==> s.index != s.At()
  {
  }

  lemma WriteWordKeepsInv(s: State)
    requires Inv(s) && s.writer.Writing? && s.writer.k < 3
    ensures Inv(DoWrite(s))
  {
    var x := s.mem[s.index].Set(s.writer.k, s.writer.trb.Get(s.writer.k));
    MemoryInvWord(s.mem, s.index, s.pcs, s.posted, x);
    if s.driver.Handling? { FrontIsNotWritten(s); }
  }

  lemma LapIsWhole(s: State)
    requires Inv(s)
    ensures |s.posted| == s.index || |s.posted| >= s.index + |s.mem|
    ensures |s.handled| <= |s.posted|
  {
  }

  lemma DriverInvPublish(size: int, index: nat, pcs: bool, total: nat, at: int, ccs: bool, taken: nat)
    requires DriverInv(size, index, pcs, total, at, ccs, taken) && index < size && 0 <= at < size
    requires total == index || total >= index + size
    requires total - taken <= size - 2
    ensures var wrap := index + 1 == size;
            DriverInv(size, if wrap then 0 else index + 1, if wrap then !pcs else pcs, total + 1, at, ccs, taken)
  {
  }

  lemma PublishKeepsInv(s: State)
    requires Inv(s) && s.writer.Writing? && s.writer.k == 3
    ensures Inv(DoWrite(s))
  {
    hide MemoryInv, DriverInv;
    var s', t := DoWrite(s), s.writer.trb;
    MemoryInvPublish(s.mem, s.index, s.pcs, s.posted, t);
    LapIsWhole(s);
    DriverInvPublish(|s.mem|, s.index, s.pcs, |s.posted|, s.At(), s.ccs, |s.handled|);
    assert s'.mem == s.mem[s.index := t.Stamp(s.pcs)];
    assert s'.posted[..|s.handled|] == s.posted[..|s.handled|];
    if s.driver.Handling? { FrontIsNotWritten(s); }
  }

  lemma PopKeepsInv(s: State)
    requires Inv(s)
    ensures Inv(DoPop(s))
  {
    HasFrontIsExact(s);
  }

  lemma StepKeepsInv(s: State, a: Action)
    requires Inv(s)
    ensures Inv(Step(s, a))
  {
    match a
    case Post(t) => PostKeepsInv(s, t);
    case Write =>
      if s.writer.Writing? {
        if s.writer.k < 3 { WriteWordKeepsInv(s); } else { PublishKeepsInv(s); }
      }
    case Check =>
    case Pop => PopKeepsInv(s);
  }

  /** Between HasFront and Pop the TRB that the handler reads does not change,
      whatever the controller does. */
  lemma FrontIsStable(s: State, a: Action)
    requires Inv(s) && s.driver.Handling? && a != Pop
    ensures Step(s, a).driver.Handling? && Step(s, a).At() == s.At()
    ensures Step(s, a).mem[s.At()] == s.mem[s.At()]
  {
    FrontIsNotWritten(s);
  }

  // ---------------------------------------------------------------- whole runs

  function Run(s: State, actions: seq<Action>): (s': State)
    requires WellFormed(s)
    ensures WellFormed(s')
    decreases |actions|
  {
    if actions == [] then s else Run(Step(s, actions[0]), actions[1..])
  }

  /** The events that the controller was able to start storing, in order. */
  function Accepted(s: State, actions: seq<Action>): seq<Trb>
    requires WellFormed(s)
    decreases |actions|
  {
    if actions == [] then []
    else AcceptedNow(s, actions[0]) + Accepted(Step(s, actions[0]), actions[1..])
  }

  function AcceptedNow(s: State, a: Action): seq<Trb> {
    if a.Post? && s.writer.Idle? && !s.Full() then [a.trb.Payload()] else []
  }

  function Promised(s: State): seq<Trb> {
    s.posted + if s.writer.Writing? then [s.writer.trb.Payload()] else []
  }

  lemma StepPromises(s: State, a: Action)
    requires WellFormed(s)
    ensures Promised(Step(s, a)) == Promised(s) + AcceptedNow(s, a)
  {
  }

  lemma {:induction false} RunKeepsInv(s: State, actions: seq<Action>)
    requires Inv(s)
    ensures Inv(Run(s, actions))
    ensures Promised(Run(s, actions)) == Promised(s) + Accepted(s, actions)
    decreases |actions|
  {
    if actions == [] {
      assert Promised(s) + [] == Promised(s);
    } else {
      var a, rest := actions[0], actions[1..];
      StepKeepsInv(s, a);
      StepPromises(s, a);
      RunKeepsInv(Step(s, a), rest);
      AppendAssoc(Promised(s), AcceptedNow(s, a), Accepted(Step(s, a), rest));
    }
  }

  lemma PromisedIsPosted(s: State)
    ensures s.posted <= Promised(s) && |Promised(s)| <= |s.posted| + 1
    ensures s.writer.Idle? ==> s.posted == Promised(s)
  {
  }

  /** For every ring size of at least two and every interleaving, with no assumption on
      how fast the driver is: the driver has handled exactly a prefix of the events the
      controller accepted, each once, in order and whole, and at most size - 1 events
      wait. */
  lemma EventRingRefinesFifo(base: Address, size: nat, actions: seq<Action>)
    requires size >= 2
    ensures var s := Run(Start(base, size), actions);
            && Inv(s)
            && s.handled <= s.posted <= Accepted(Start(base, size), actions)
            && |Accepted(Start(base, size), actions)| <= |s.posted| + 1
            && (s.writer.Idle? ==> s.posted == Accepted(Start(base, size), actions))
            && s.Unhandled() <= |s.mem| - 1
  {
    StartInv(base, size);
    RunKeepsInv(Start(base, size), actions);
    PromisedIsPosted(Run(Start(base, size), actions));
    var all := Accepted(Start(base, size), actions);
    assert [] + all == all;
  }

  /** One turn of ProcessEvent with nothing in between handles the oldest waiting
      event, if there is one, and otherwise changes nothing. */
  lemma ProcessEventTakesOldest(s: State)
    requires Inv(s) && s.driver.Waiting?
    ensures var s' := DoPop(DoCheck(s));
            if s.Unhandled() > 0 then
              s'.handled == s.handled + [s.posted[|s.handled|]] && s'.Unhandled() == s.Unhandled() - 1
            else
              s' == s
  {
    HasFrontIsExact(s);
  }

  // ---------------------------------------------------------------- the driver's object

  datatype Event = TransferEvent(trb: Trb) | PortStatusChangeEvent(trb: Trb)
                 | CommandCompletionEvent(trb: Trb) | UnknownEvent(trb: Trb) | NoEvent

  /** The order in which the source tries its casts. */
  function Classify(t: Trb): Event {
    if t.Type() == TRANSFER_EVENT_TYPE then TransferEvent(t)
    else if t.Type() == PORT_STATUS_CHANGE_TYPE then PortStatusChangeEvent(t)
    else if t.Type() == COMMAND_COMPLETION_TYPE then CommandCompletionEvent(t)
    else UnknownEvent(t)
  }

  function SetPointer(register: Address, p: Address): Address {
    p / 16 * 16 + register % 16
  }

  /** The pointer of an aligned address reads back, and the low bits of the register stay. */
  lemma PointerReadsBack(register: Address, p: Address)
    requires p % 16 == 0
    ensures SetPointer(register, p) / 16 * 16 == p && SetPointer(register, p) % 16 == register % 16
  {
    Bits.DivMod(p, 16);
    Bits.DivModUnique(p + register % 16, 16, p / 16, register % 16);
  }

  lemma FirstPointer(register: Address, at: Address)
    requires at % 64 == 0
    ensures SetPointer(register, at) / 16 * 16 == at
  {
    AlignedTo16(at);
    PointerReadsBack(register, at);
  }

  /** `erdp` is the dequeue pointer register: bits 4 to 63 are the pointer, the low
      four bits are other fields that a pointer write keeps. */
  class EventRing {
    var base: Address
    var buf: array<Trb>
    var cycleBit: bool
    var erdp: Address

    ghost predicate Valid()
      reads this
    {
      && buf.Length >= 1
      && base % 64 == 0
      && base + TRB_BYTES * buf.Length < TWO_64
      && exists i :: 0 <= i < buf.Length && erdp / 16 * 16 == base + TRB_BYTES * i
    }

    ghost function Slot(): (i: nat)
      reads this
      requires Valid()
      ensures i < buf.Length && erdp / 16 * 16 == base + TRB_BYTES * i
    {
      (erdp / 16 * 16 - base) / TRB_BYTES
    }

    /** The object is the driver's half of protocol state `s`. */
    ghost predicate Shows(s: State)
      reads this, buf
    {
      && s.base == base && s.mem == buf[..]
      && s.erdp == erdp / 16 * 16 && s.ccs == cycleBit
    }

    constructor (block: array<Trb>, at: Address, register: Address)
      requires block.Length >= 1 && at % 64 == 0 && at + TRB_BYTES * block.Length < TWO_64
      requires forall i :: 0 <= i < block.Length ==> block[i] == ZERO_TRB
      ensures Valid() && buf == block && base == at && cycleBit && Slot() == 0
    {
      hide SetPointer, Valid, Slot;
      base, buf, cycleBit := at, block, true;
      FirstPointer(register, at);
      erdp := SetPointer(register, at);
      new;
      NamesSlot(0);
    }

    lemma NamesSlot(i: nat)
      requires i < buf.Length && base % 64 == 0 && base + TRB_BYTES * buf.Length < TWO_64
      requires erdp / 16 * 16 == base + TRB_BYTES * i
      ensures Valid() && Slot() == i
    {
      Bits.DivModUnique(TRB_BYTES * i, TRB_BYTES, i, 0);
    }

    lemma SlotIsAligned(i: nat)
      requires base % 64 == 0
      ensures (base + TRB_BYTES * i) % 16 == 0
    {
      AlignedTo16(base);
      Bits.DivMod(base, 16);
      Bits.DivModUnique(base + TRB_BYTES * i, 16, base / 16 + i, 0);
    }

    function ReadDequeuePointer(): Address
      reads this
    {
      erdp / 16 * 16
    }

    method WriteDequeuePointer(p: Address)
      requires p % 16 == 0
      modifies this`erdp
      ensures ReadDequeuePointer() == p && erdp % 16 == old(erdp) % 16
    {
      PointerReadsBack(erdp, p);
      erdp := SetPointer(erdp, p);
    }

    method HasFront() returns (b: bool)
      requires Valid()
      ensures b <==> buf[Slot()].Cycle() == cycleBit
    {
      var i := (ReadDequeuePointer() - base) / TRB_BYTES;
      b := buf[i].Cycle() == cycleBit;
    }

    method Front() returns (t: Trb)
      requires Valid()
      ensures t == buf[Slot()]
    {
      t := buf[(ReadDequeuePointer() - base) / TRB_BYTES];
    }

    /** The next slot, or the first one with the cycle state flipped. */
    method Pop()
      requires Valid()
      modifies this`erdp, this`cycleBit
      ensures Valid()
      ensures old(Slot()) + 1 < buf.Length ==> Slot() == old(Slot()) + 1 && cycleBit == old(cycleBit)
      ensures old(Slot()) + 1 == buf.Length ==> Slot() == 0 && cycleBit == !old(cycleBit)
    {
      ghost var slot := Slot();
      hide Slot;
      var p := ReadDequeuePointer() + TRB_BYTES;
      var segmentEnd := base + TRB_BYTES * buf.Length;
      slot := slot + 1;
      if p == segmentEnd {
        p := base;
        cycleBit := !cycleBit;
        slot := 0;
      }
      SlotIsAligned(slot);
      WriteDequeuePointer(p);
      NamesSlot(slot);
    }

    /** Hands out the front event, if there is one, and moves past it: in protocol
        state `s` that is the oldest posted event not yet handled. */
    method ProcessEvent(ghost s: State) returns (e: Event)
      requires Valid() && Shows(s) && Inv(s) && s.driver.Waiting?
      modifies this`erdp, this`cycleBit
      ensures Valid() && Shows(DoPop(DoCheck(s)))
      ensures if s.Unhandled() > 0 then
                e == Classify(s.posted[|s.handled|].Stamp(s.ccs))
              else
                e == NoEvent
    {
      HasFrontIsExact(s);
      assert s.At() == Slot();
      var present := HasFront();
      if !present {
        return NoEvent;
      }
      var trb := Front();
      assert trb == trb.Payload().Stamp(s.ccs);
      e := Classify(trb);
      Pop();
    }
  }
}
