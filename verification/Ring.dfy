/** The Command and Transfer Rings: the driver produces, the controller consumes,
    and the only thing they share is the memory of the ring.

    `State` interleaves the single word stores of the driver with the single word
    loads of a controller that follows section 4.9.2 of the xHCI specification: it
    polls word 3 of the slot it stands on, takes the TRB when the cycle bit equals
    its own cycle state, and on a Link TRB jumps to the segment pointer and toggles. */
module TrbRing {
  import opened Errors
  import opened Trbs

  /** The source makes all its Command and Transfer Rings of this size. */
  const RING_SIZE := 32

  // ---------------------------------------------------------------- the memory image

  /** What the driver knows of a ring: its segment, the write index and the
      producer cycle state. */
  datatype Image = Image(base: Address, mem: seq<Trb>, index: nat, cycle: bool) {
    predicate Valid() {
      && |mem| >= 2
      && index < |mem| - 1
      && base % 16 == 0
    }
  }

  function EmptyImage(base: Address, size: nat): Image {
    Image(base, seq(size, i => ZERO_TRB), 0, true)
  }

  /** One whole push: the TRB lands on the write index; filling the last data slot
      also publishes the Link TRB, restarts the index and flips the cycle. */
  function PushImage(r: Image, t: Trb): (r': Image)
    requires r.Valid()
    ensures r'.Valid()
  {
    var mem := r.mem[r.index := t.Stamp(r.cycle)];
    if r.index + 1 == |r.mem| - 1 then
      Image(r.base, mem[|mem| - 1 := LinkTrb(r.base).Stamp(r.cycle)], 0, !r.cycle)
    else
      Image(r.base, mem, r.index + 1, r.cycle)
  }

  // ---------------------------------------------------------------- the interleaving

  /** Where the driver is inside a push: between pushes, about to store word `k` of
      a TRB, or about to store word `k` of the Link TRB. */
  datatype Producer = Ready | Storing(trb: Trb, k: nat) | Linking(k: nat)

  /** Where the controller is: polling word 3, or with word 3 and the first `k`
      other words of its slot already loaded. */
  datatype Consumer = Polling | Fetching(trb: Trb, k: nat)

  datatype State = State(
    image: Image, producer: Producer,
    at: int, ccs: bool, consumer: Consumer,
    pushed: seq<Trb>, consumed: seq<Trb>)
  {
    function Size(): nat { |image.mem| }

    /** The slot of the Link TRB, which is also the number of data slots. */
    function Last(): int { |image.mem| - 1 }

    function Unread(): int { |pushed| - |consumed| }
  }

  datatype Action =
    | Begin(trb: Trb)  // the driver calls Push
    | Store            // the driver stores one word
    | Poll             // the controller loads word 3 of its slot
    | Fetch            // the controller loads one more word, or acts on a loaded TRB

  function Start(base: Address, size: nat): State {
    State(EmptyImage(base, size), Ready, 0, true, Polling, [], [])
  }

  /** The control state is consistent with the write index. */
  predicate WellFormed(s: State) {
    && s.Size() >= 2
    && s.image.index < s.Size()
    && (s.image.index == s.Last() <==> s.producer.Linking?)
    && (s.producer.Storing? ==> s.producer.k < 4)
    && (s.producer.Linking? ==> s.producer.k < 4)
  }

  function DoStore(s: State): State
    requires WellFormed(s)
  {
    var r := s.image;
    match s.producer
    case Ready => s
    case Storing(t, k) =>
      if k < 3 then
        var mem := r.mem[r.index := r.mem[r.index].Set(k, t.Get(k))];
        s.(image := r.(mem := mem), producer := Storing(t, k + 1))
      else
        var mem := r.mem[r.index := r.mem[r.index].(w3 := Word3(t.w3.control, r.cycle))];
        s.(image := r.(mem := mem, index := r.index + 1),
           producer := if r.index + 1 == s.Last() then Linking(0) else Ready,
           pushed := s.pushed + [t.Payload()])
    case Linking(k) =>
      var link := LinkTrb(r.base);
      var last := s.Last();
      if k < 3 then
        var mem := r.mem[last := r.mem[last].Set(k, link.Get(k))];
        s.(image := r.(mem := mem), producer := Linking(k + 1))
      else
        var mem := r.mem[last := r.mem[last].(w3 := Word3(link.w3.control, r.cycle))];
        s.(image := Image(r.base, mem, 0, !r.cycle), producer := Ready)
  }

  function DoPoll(s: State): State {
    if s.consumer.Polling? && 0 <= s.at < s.Size() && s.image.mem[s.at].Cycle() == s.ccs then
      s.(consumer := Fetching(ZERO_TRB.(w3 := s.image.mem[s.at].w3), 0))
    else
      s
  }

  function DoFetch(s: State): State {
    if s.consumer.Polling? || !(0 <= s.at < s.Size()) then
      s
    else
      var (t, k) := (s.consumer.trb, s.consumer.k);
      if k < 3 then
        s.(consumer := Fetching(t.Set(k, s.image.mem[s.at].Get(k)), k + 1))
      else if t.Type() == LINK_TYPE then
        s.(at := (t.SegmentPointer() - s.image.base) / TRB_BYTES,
           ccs := if t.ToggleCycle() then !s.ccs else s.ccs,
           consumer := Polling)
      else
        s.(at := s.at + 1, consumer := Polling, consumed := s.consumed + [t.Payload()])
  }

  function Step(s: State, a: Action): (s': State)
    requires WellFormed(s)
    ensures WellFormed(s') && s'.Size() == s.Size()
  {
    match a
    case Begin(t) => if s.producer.Ready? then s.(producer := Storing(t, 0)) else s
    case Store => DoStore(s)
    case Poll => DoPoll(s)
    case Fetch => DoFetch(s)
  }

  /** What the driver must respect when it calls Push: one push at a time, no Link
      TRB, and after the push at most size - 2 TRBs unread. */
  predicate MayPush(s: State, t: Trb) {
    && s.producer.Ready?
    && t.Type() != LINK_TYPE
    && s.Unread() + 1 <= s.Size() - 2
  }

  predicate Legal(s: State, a: Action) {
    a.Begin? ==> MayPush(s, a.trb)
  }

  // ---------------------------------------------------------------- the invariant

  /** Every slot of memory is a function of what was pushed: slots below the write
      index hold this lap with the producer's cycle bit, slots from the write index
      on hold the lap before with the opposite one. Slot `torn`, if any, is being
      overwritten. */
  predicate MemoryInv(r: Image, pushed: seq<Trb>, torn: int) {
    var last, lap := |r.mem| - 1, |pushed| - r.index;
    && last >= 2
    && r.base % 16 == 0
    && r.index <= last
    && (lap == 0 || lap >= last)
    && (lap == 0 ==> r.cycle)
    && (forall i :: 0 <= i < r.index ==> r.mem[i] == pushed[lap + i].Stamp(r.cycle))
    && (forall i :: r.index <= i <= last ==> r.mem[i].Cycle() == !r.cycle)
    && (lap >= last ==>
          && (forall i :: r.index <= i < last && i != torn ==>
                r.mem[i] == pushed[lap - last + i].Stamp(!r.cycle))
          && r.mem[last] == LinkTrb(r.base).Stamp(!r.cycle))
  }

  /** The driver's place in a push, given how many TRBs are unread. */
  predicate ProducerInv(r: Image, producer: Producer, unread: int)
    requires |r.mem| > r.index
  {
    var last := |r.mem| - 1;
    && (r.index == last <==> producer.Linking?)
    && unread <= last - 1
    && match producer
       case Ready => true
       case Storing(t, k) =>
         && k <= 3
         && t.Type() != LINK_TYPE
         && unread <= last - 2
         && r.mem[r.index].AgreesUpTo(t, k)
       case Linking(k) =>
         k <= 3 && r.mem[last].AgreesUpTo(LinkTrb(r.base), k)
  }

  /** The controller is in the driver's lap or in the one before, and what it has
      loaded of its slot is still what the slot holds. */
  predicate ConsumerInv(r: Image, total: nat, at: int, ccs: bool, consumer: Consumer, taken: nat) {
    var last, lap := |r.mem| - 1, total - r.index;
    && 0 <= at <= last
    && taken <= total
    && (ccs == r.cycle ==> taken == lap + at && at <= r.index)
    && (ccs != r.cycle ==> lap >= last && taken == lap - last + at)
    && (consumer.Fetching? ==>
          && consumer.k <= 3
          && consumer.trb.w3 == r.mem[at].w3
          && r.mem[at].Cycle() == ccs
          && consumer.trb.AgreesUpTo(r.mem[at], consumer.k))
  }

  /** The TRBs in the history are payloads, none of them a Link TRB. */
  predicate HistoryInv(pushed: seq<Trb>) {
    forall i :: 0 <= i < |pushed| ==>
      pushed[i].Type() != LINK_TYPE && pushed[i] == pushed[i].Payload()
  }

  predicate Inv(s: State) {
    && MemoryInv(s.image, s.pushed, if s.producer.Storing? then s.image.index else -1)
    && ProducerInv(s.image, s.producer, s.Unread())
    && ConsumerInv(s.image, |s.pushed|, s.at, s.ccs, s.consumer, |s.consumed|)
    && HistoryInv(s.pushed)
    && s.consumed == s.pushed[..|s.consumed|]
  }

  lemma StartInv(base: Address, size: nat)
    requires size >= 3 && base % 16 == 0
    ensures Inv(Start(base, size))
  {
  }

  /** The slot at the write index is free to be torn. */
  lemma MemoryInvWeaken(r: Image, pushed: seq<Trb>)
    requires MemoryInv(r, pushed, -1)
    ensures MemoryInv(r, pushed, r.index)
  {
  }

  lemma MemoryInvWord(r: Image, pushed: seq<Trb>, x: Trb)
    requires MemoryInv(r, pushed, r.index) && r.index < |r.mem| - 1
    requires x.w3 == r.mem[r.index].w3
    ensures MemoryInv(r.(mem := r.mem[r.index := x]), pushed, r.index)
  {
  }

  lemma MemoryInvPublish(r: Image, pushed: seq<Trb>, t: Trb)
    requires MemoryInv(r, pushed, r.index) && r.index < |r.mem| - 1
    ensures MemoryInv(
              r.(mem := r.mem[r.index := t.Stamp(r.cycle)], index := r.index + 1),
              pushed + [t.Payload()], -1)
  {
  }

  lemma MemoryInvLink(r: Image, pushed: seq<Trb>, x: Trb)
    requires MemoryInv(r, pushed, -1)
    requires x.w3 == r.mem[|r.mem| - 1].w3
    requires |pushed| - r.index > 0 ==> x == r.mem[|r.mem| - 1]
    ensures MemoryInv(r.(mem := r.mem[|r.mem| - 1 := x]), pushed, -1)
  {
  }

  lemma MemoryInvWrap(r: Image, pushed: seq<Trb>)
    requires MemoryInv(r, pushed, -1) && r.index == |r.mem| - 1 && r.index <= |pushed|
    ensures MemoryInv(
              Image(r.base, r.mem[r.index := LinkTrb(r.base).Stamp(r.cycle)], 0, !r.cycle),
              pushed, -1)
  {
  }

  /** Storing into a slot that the controller is not fetching leaves its loaded
      words good, as long as the cycle bits it has not reached are kept. */
  lemma ConsumerInvStore(s: State, slot: nat, x: Trb)
    requires ConsumerInv(s.image, |s.pushed|, s.at, s.ccs, s.consumer, |s.consumed|)
    requires slot < s.Size()
    requires s.consumer.Fetching? ==> s.at != slot
    ensures ConsumerInv(s.image.(mem := s.image.mem[slot := x]),
                        |s.pushed|, s.at, s.ccs, s.consumer, |s.consumed|)
  {
  }

  lemma BeginKeepsInv(s: State, t: Trb)
    requires Inv(s) && MayPush(s, t)
    ensures Inv(Step(s, Begin(t)))
  {
    MemoryInvWeaken(s.image, s.pushed);
  }

  /** While the controller is fetching, the driver never stores into the slot it
      stands on. */
  lemma FetchedSlot(s: State)
    requires Inv(s)
    ensures s.consumer.Fetching? && s.producer.Storing? ==> s.at != s.image.index
    ensures s.consumer.Fetching? && s.producer.Linking? ==> s.at != s.Last()
  {
  }

  lemma StoreWordKeepsInv(s: State)
    requires Inv(s) && s.producer.Storing? && s.producer.k < 3
    ensures Inv(DoStore(s))
  {
    var at, k := s.image.index, s.producer.k;
    var x := s.image.mem[at].Set(k, s.producer.trb.Get(k));
    FetchedSlot(s);
    MemoryInvWord(s.image, s.pushed, x);
    ConsumerInvStore(s, at, x);
    assert DoStore(s) == s.(image := s.image.(mem := s.image.mem[at := x]),
                            producer := Storing(s.producer.trb, k + 1));
  }

  /** Storing word 3 publishes the TRB. */
  lemma PublishKeepsInv(s: State)
    requires Inv(s) && s.producer.Storing? && s.producer.k == 3
    ensures Inv(DoStore(s))
  {
    var r, t := s.image, s.producer.trb;
    FetchedSlot(s);
    MemoryInvPublish(r, s.pushed, t);
    ConsumerInvStore(s, r.index, t.Stamp(r.cycle));
    var s' := DoStore(s);
    assert s'.image == r.(mem := r.mem[r.index := t.Stamp(r.cycle)], index := r.index + 1);
    assert s'.pushed[..|s.consumed|] == s.pushed[..|s.consumed|];
  }

  lemma LinkWordKeepsInv(s: State)
    requires Inv(s) && s.producer.Linking? && s.producer.k < 3
    ensures Inv(DoStore(s))
  {
    var last, k := s.Last(), s.producer.k;
    var x := s.image.mem[last].Set(k, LinkTrb(s.image.base).Get(k));
    FetchedSlot(s);
    MemoryInvLink(s.image, s.pushed, x);
    ConsumerInvStore(s, last, x);
    assert DoStore(s) == s.(image := s.image.(mem := s.image.mem[last := x]),
                            producer := Linking(k + 1));
  }

  /** Storing word 3 of the Link TRB starts a new lap for the driver. */
  lemma WrapKeepsInv(s: State)
    requires Inv(s) && s.producer.Linking? && s.producer.k == 3
    ensures Inv(DoStore(s))
  {
    var r := s.image;
    var x := LinkTrb(r.base).Stamp(r.cycle);
    FetchedSlot(s);
    MemoryInvWrap(r, s.pushed);
    ConsumerInvStore(s, r.index, x);
    assert DoStore(s).image == Image(r.base, r.mem[r.index := x], 0, !r.cycle);
  }

  lemma StoreKeepsInv(s: State)
    requires Inv(s)
    ensures Inv(DoStore(s))
  {
    match s.producer
    case Ready =>
    case Storing(t, k) =>
      if k < 3 { StoreWordKeepsInv(s); } else { PublishKeepsInv(s); }
    case Linking(k) =>
      if k < 3 { LinkWordKeepsInv(s); } else { WrapKeepsInv(s); }
  }

  lemma PollKeepsInv(s: State)
    requires Inv(s)
    ensures Inv(DoPoll(s))
  {
    var s' := DoPoll(s);
  }

  /** A fully loaded TRB is the Link TRB exactly when the controller stands on the
      last slot; otherwise its payload is the oldest unread TRB. */
  lemma FetchedTrb(s: State)
    requires Inv(s) && s.consumer.Fetching? && s.consumer.k == 3
    ensures s.consumer.trb == s.image.mem[s.at]
    ensures s.at == s.Last() ==>
              s.ccs != s.image.cycle && s.consumer.trb == LinkTrb(s.image.base).Stamp(s.ccs)
    ensures s.at < s.Last() ==>
              && s.Unread() > 0
              && s.consumer.trb.Payload() == s.pushed[|s.consumed|]
              && s.consumer.trb.Type() != LINK_TYPE
  {
    var x := s.image.mem[s.at];
    if s.at < s.Last() {
      assert x == s.pushed[|s.consumed|].Stamp(s.ccs);
    }
  }

  /** Acting on the loaded Link TRB moves the controller to slot 0 of the driver's lap. */
  lemma FollowLink(s: State)
    requires Inv(s) && s.consumer.Fetching? && s.consumer.k == 3 && s.at == s.Last()
    ensures DoFetch(s) == s.(at := 0, ccs := s.image.cycle, consumer := Polling)
  {
    FetchedTrb(s);
    LinkTrbRoundTrip(s.image.base, s.ccs);
  }

  /** Acting on any other loaded TRB takes the oldest unread one. */
  lemma TakeTrb(s: State)
    requires Inv(s) && s.consumer.Fetching? && s.consumer.k == 3 && s.at < s.Last()
    ensures s.Unread() > 0
    ensures DoFetch(s) == s.(at := s.at + 1, consumer := Polling,
                             consumed := s.consumed + [s.pushed[|s.consumed|]])
  {
    FetchedTrb(s);
  }

  lemma FetchKeepsInv(s: State)
    requires Inv(s)
    ensures Inv(DoFetch(s))
  {
    if s.consumer.Fetching? {
      if s.consumer.k < 3 {
        LoadKeepsInv(s);
      } else if s.at == s.Last() {
        LinkFollowed(s);
      } else {
        TrbTaken(s);
      }
    }
  }

  lemma LoadKeepsInv(s: State)
    requires Inv(s) && s.consumer.Fetching? && s.consumer.k < 3
    ensures Inv(DoFetch(s))
  {
    hide MemoryInv, ProducerInv, HistoryInv;
  }

  lemma LinkFollowed(s: State)
    requires Inv(s) && s.consumer.Fetching? && s.consumer.k == 3 && s.at == s.Last()
    ensures Inv(DoFetch(s))
  {
    FetchedTrb(s);
    FollowLink(s);
    hide MemoryInv, ProducerInv, HistoryInv, DoFetch;
  }

  lemma TrbTaken(s: State)
    requires Inv(s) && s.consumer.Fetching? && s.consumer.k == 3 && s.at < s.Last()
    ensures Inv(DoFetch(s))
  {
    FetchedTrb(s);
    TakeTrb(s);
    hide MemoryInv, HistoryInv, DoFetch;
  }

  lemma StepKeepsInv(s: State, a: Action)
    requires Inv(s) && Legal(s, a)
    ensures Inv(Step(s, a))
  {
    match a
    case Begin(t) => BeginKeepsInv(s, t);
    case Store => StoreKeepsInv(s);
    case Poll => PollKeepsInv(s);
    case Fetch => FetchKeepsInv(s);
  }

  // ---------------------------------------------------------------- whole runs

  function Run(s: State, actions: seq<Action>): (s': State)
    requires WellFormed(s)
    ensures s'.Size() == s.Size()
    decreases |actions|
  {
    if actions == [] then s else Run(Step(s, actions[0]), actions[1..])
  }

  predicate LegalRun(s: State, actions: seq<Action>)
    requires WellFormed(s)
    decreases |actions|
  {
    actions == [] || (Legal(s, actions[0]) && LegalRun(Step(s, actions[0]), actions[1..]))
  }

  /** The payloads handed to Push during a run, in order. */
  function Handed(actions: seq<Action>): seq<Trb> {
    if actions == [] then []
    else (if actions[0].Begin? then [actions[0].trb.Payload()] else []) + Handed(actions[1..])
  }

  /** The published TRBs and the one being stored. */
  function Promised(s: State): seq<Trb> {
    s.pushed + if s.producer.Storing? then [s.producer.trb.Payload()] else []
  }

  lemma StepPromises(s: State, a: Action)
    requires WellFormed(s) && Legal(s, a)
    ensures Promised(Step(s, a)) == Promised(s) + if a.Begin? then [a.trb.Payload()] else []
  {
  }

  lemma {:induction false} RunKeepsInv(s: State, actions: seq<Action>)
    requires WellFormed(s) && Inv(s) && LegalRun(s, actions)
    ensures Inv(Run(s, actions))
    ensures Promised(Run(s, actions)) == Promised(s) + Handed(actions)
    decreases |actions|
  {
    if actions == [] {
      assert Promised(s) + [] == Promised(s);
    } else {
      var a, rest := actions[0], actions[1..];
      StepKeepsInv(s, a);
      StepPromises(s, a);
      RunKeepsInv(Step(s, a), rest);
      AppendAssoc(Promised(s), if a.Begin? then [a.trb.Payload()] else [], Handed(rest));
    }
  }

  lemma ConsumedGrows(s: State, a: Action)
    requires WellFormed(s)
    ensures |s.consumed| <= |Step(s, a).consumed|
  {
  }

  /** For every ring size of at least three, every segment address and every
      interleaving in which the driver leaves at most size - 2 TRBs unread after a
      push: the controller has read exactly a prefix of what was handed to Push, in
      order and whole, and everything handed over but the TRB being stored is
      published. */
  lemma RingRefinesFifo(base: Address, size: nat, actions: seq<Action>)
    requires size >= 3 && base % 16 == 0
    requires LegalRun(Start(base, size), actions)
    ensures var s := Run(Start(base, size), actions);
            && Inv(s)
            && s.consumed <= s.pushed <= Handed(actions)
            && |Handed(actions)| <= |s.pushed| + 1
            && (s.producer.Ready? ==> s.pushed == Handed(actions))
            && s.Unread() <= size - 2
  {
    StartInv(base, size);
    RunKeepsInv(Start(base, size), actions);
    assert [] + Handed(actions) == Handed(actions);
    PromisedIsPublished(Run(Start(base, size), actions));
  }

  lemma PromisedIsPublished(s: State)
    ensures s.pushed <= Promised(s) && |Promised(s)| <= |s.pushed| + 1
    ensures s.producer.Ready? ==> s.pushed == Promised(s)
  {
  }

  /** The TRBs that are published and not yet consumed. */
  function Queue(s: State): seq<Trb>
    requires |s.consumed| <= |s.pushed|
  {
    s.pushed[|s.consumed|..]
  }

  /** One step of the interleaving is one step of a FIFO queue: the store of a TRB's
      word 3 enqueues it, the last load of a data TRB dequeues the head, and every
      other step changes neither end. */
  lemma StepRefinesFifo(s: State, a: Action)
    requires WellFormed(s) && Inv(s) && Legal(s, a)
    ensures Inv(Step(s, a))
    ensures var s' := Step(s, a);
            if a == Store && s.producer.Storing? && s.producer.k == 3 then
              && Queue(s') == Queue(s) + [s.producer.trb.Payload()]
              && s'.consumed == s.consumed
            else if a == Fetch && s.consumer.Fetching? && s.consumer.k == 3 && s.at < s.Last() then
              && Queue(s) != [] && Queue(s') == Queue(s)[1..]
              && s'.consumed == s.consumed + [Queue(s)[0]]
            else
              Queue(s') == Queue(s) && s'.consumed == s.consumed
  {
    hide MemoryInv, ProducerInv, HistoryInv, DoStore, DoFetch;
    StepKeepsInv(s, a);
    match a
    case Store => StoreRefinesFifo(s);
    case Fetch => FetchRefinesFifo(s);
    case _ =>
  }

  lemma StoreRefinesFifo(s: State)
    requires WellFormed(s) && |s.consumed| <= |s.pushed|
    ensures DoStore(s).consumed == s.consumed
    ensures |s.consumed| <= |DoStore(s).pushed|
    ensures Queue(DoStore(s)) ==
            Queue(s) + if s.producer.Storing? && s.producer.k == 3 then [s.producer.trb.Payload()] else []
  {
    if s.producer.Storing? {
      QueueAppend(s.pushed, |s.consumed|, s.producer.trb.Payload());
    }
  }

  lemma FetchRefinesFifo(s: State)
    requires Inv(s)
    ensures DoFetch(s).pushed == s.pushed
    ensures if s.consumer.Fetching? && s.consumer.k == 3 && s.at < s.Last() then
              Queue(s) != [] && DoFetch(s).consumed == s.consumed + [Queue(s)[0]]
            else
              DoFetch(s).consumed == s.consumed
  {
    if s.consumer.Fetching? && s.consumer.k == 3 {
      if s.at == s.Last() { FollowLink(s); } else { TakeTrb(s); }
    }
  }

  lemma QueueAppend(pushed: seq<Trb>, c: nat, t: Trb)
    requires c <= |pushed|
    ensures (pushed + [t])[c..] == pushed[c..] + [t]
  {
  }

  /** Standing on a Link TRB that the driver has published and the controller has
      not followed yet. */
  predicate Parked(s: State) {
    s.at == s.Last() && s.ccs != s.image.cycle
  }

  /** The cycle bit is an exact test: a polling controller finds its own cycle state
      if and only if there is an unread TRB, or a Link TRB to follow first. */
  lemma CycleBitIsExact(s: State)
    requires Inv(s)
    ensures s.image.mem[s.at].Cycle() == s.ccs <==> (s.Unread() > 0 && s.at < s.Last()) || Parked(s)
    ensures s.Unread() > 0 && s.producer.Ready? ==> s.image.mem[s.at].Cycle() == s.ccs
  {
  }

  /** One round of loads by a polling controller: poll, three words, act. */
  function Load(s: State): State {
    DoFetch(DoFetch(DoFetch(DoFetch(DoPoll(s)))))
  }

  lemma LoadWord(s: State)
    requires Inv(s) && s.consumer.Fetching? && s.consumer.k < 3
    ensures Inv(DoFetch(s))
    ensures DoFetch(s).consumer.Fetching? && DoFetch(s).consumer.k == s.consumer.k + 1
    ensures DoFetch(s) == s.(consumer := DoFetch(s).consumer)
  {
    FetchKeepsInv(s);
  }

  lemma PollAndLoad(s: State)
    requires Inv(s) && s.consumer.Polling? && s.image.mem[s.at].Cycle() == s.ccs
    ensures var s3 := DoFetch(DoFetch(DoFetch(DoPoll(s))));
            Inv(s3) && s3 == s.(consumer := Fetching(s.image.mem[s.at], 3))
  {
    PollKeepsInv(s);
    LoadWord(DoPoll(s));
    LoadWord(DoFetch(DoPoll(s)));
    LoadWord(DoFetch(DoFetch(DoPoll(s))));
    FetchedTrb(DoFetch(DoFetch(DoFetch(DoPoll(s)))));
  }

  /** Nothing is lost or stuck: from any state with an unread TRB, one round of loads
      hands the oldest one to the controller, or first follows the Link TRB. */
  lemma ConsumerDelivers(s: State)
    requires Inv(s) && s.consumer.Polling? && s.Unread() > 0
    requires s.at < s.Last() || Parked(s)
    ensures Inv(Load(s))
    ensures if Parked(s) then
              Load(s) == s.(at := 0, ccs := s.image.cycle)
            else
              Load(s) == s.(at := s.at + 1, consumed := s.consumed + [s.pushed[|s.consumed|]])
  {
    CycleBitIsExact(s);
    PollAndLoad(s);
    var s3 := s.(consumer := Fetching(s.image.mem[s.at], 3));
    FetchKeepsInv(s3);
    if s.at == s.Last() { FollowLink(s3); } else { TakeTrb(s3); }
  }

  // ---------------------------------------------------------------- whole pushes

  function FourStores(s: State): State
    requires WellFormed(s)
  {
    Step(Step(Step(Step(s, Store), Store), Store), Store)
  }

  /** A push from its first store to its last: four words, and four more when it
      fills the last data slot. */
  function WholePush(s: State, t: Trb): (s': State)
    requires WellFormed(s)
    ensures WellFormed(s')
  {
    var s4 := FourStores(Step(s, Begin(t)));
    if s4.producer.Linking? then FourStores(s4) else s4
  }

  /** The word stores of a push add up to one atomic update of the ring. */
  lemma WholePushIsPushImage(s: State, t: Trb)
    requires WellFormed(s) && s.producer.Ready? && s.image.Valid()
    ensures WholePush(s, t) ==
            s.(image := PushImage(s.image, t), pushed := s.pushed + [t.Payload()])
  {
    StoresOfTrb(Step(s, Begin(t)));
    var s4 := FourStores(Step(s, Begin(t)));
    if s4.producer.Linking? { StoresOfLink(s4); }
  }

  lemma StoresOfTrb(s: State)
    requires WellFormed(s) && s.producer.Storing? && s.producer.k == 0
    ensures var (r, t) := (s.image, s.producer.trb);
            FourStores(s) ==
            s.(image := r.(mem := r.mem[r.index := t.Stamp(r.cycle)], index := r.index + 1),
               producer := if r.index + 1 == s.Last() then Linking(0) else Ready,
               pushed := s.pushed + [t.Payload()])
  {
  }

  lemma StoresOfLink(s: State)
    requires WellFormed(s) && s.producer.Linking? && s.producer.k == 0
    ensures var r := s.image;
            FourStores(s) ==
            s.(image := Image(r.base, r.mem[s.Last() := LinkTrb(r.base).Stamp(r.cycle)], 0, !r.cycle),
               producer := Ready)
  {
  }

  // ---------------------------------------------------------------- the bound is sharp

  /** What a push does to a controller that is between TRBs, when the data slot it
      needs is free: the controller can go on if and only if the push did not wrap
      while the controller was parked on the Link TRB. In that case size - 1 TRBs are
      unread and polling finds nothing; with at most size - 2 it cannot arise. */
  lemma PushUnderParkedConsumer(s: State, t: Trb)
    requires WellFormed(s) && Inv(s) && s.producer.Ready? && s.consumer.Polling?
    requires s.Unread() + 1 <= s.Size() - 1
    ensures var s' := WholePush(s, t);
            && s'.Unread() == s.Unread() + 1
            && s'.at == s.at && s'.Size() == s.Size()
            && (s'.image.mem[s'.at].Cycle() == s'.ccs <==>
                !(Parked(s) && s.image.index == s.Last() - 1))
            && (Parked(s) && s.image.index == s.Last() - 1 ==>
                  s'.Unread() == s.Size() - 1 && DoPoll(s') == s')
  {
    WholePushIsPushImage(s, t);
    CycleBitIsExact(s);
  }

  ghost predicate Reaches(s: State, s': State)
    requires WellFormed(s)
  {
    exists actions :: LegalRun(s, actions) && Run(s, actions) == s'
  }

  lemma {:induction false} RunConcat(s: State, x: seq<Action>, y: seq<Action>)
    requires WellFormed(s) && LegalRun(s, x)
    requires WellFormed(Run(s, x)) && LegalRun(Run(s, x), y)
    ensures LegalRun(s, x + y) && Run(s, x + y) == Run(Run(s, x), y)
    decreases |x|
  {
    if x == [] {
      assert x + y == y;
    } else {
      assert (x + y)[1..] == x[1..] + y;
      RunConcat(Step(s, x[0]), x[1..], y);
    }
  }

  lemma ReachesTransitive(s: State, s': State, s'': State)
    requires WellFormed(s) && WellFormed(s') && Reaches(s, s') && Reaches(s', s'')
    ensures Reaches(s, s'')
  {
    var x :| LegalRun(s, x) && Run(s, x) == s';
    var y :| LegalRun(s', y) && Run(s', y) == s'';
    RunConcat(s, x, y);
  }

  lemma OneStep(s: State, a: Action)
    requires WellFormed(s) && Legal(s, a)
    ensures Reaches(s, Step(s, a))
  {
    var s' := Step(s, a);
    assert [a][0] == a && [a][1..] == [];
    assert LegalRun(s', []) && Run(s', []) == s';
    hide Step, Legal;
    assert LegalRun(s, [a]) && Run(s, [a]) == s';
  }

  lemma FourStoresReach(s: State)
    requires WellFormed(s)
    ensures WellFormed(FourStores(s)) && Reaches(s, FourStores(s))
  {
    var s1 := Step(s, Store);
    var s2 := Step(s1, Store);
    var s3 := Step(s2, Store);
    OneStep(s, Store);
    OneStep(s1, Store);
    OneStep(s2, Store);
    OneStep(s3, Store);
    ReachesTransitive(s, s1, s2);
    ReachesTransitive(s, s2, s3);
    ReachesTransitive(s, s3, Step(s3, Store));
  }

  lemma WholePushReaches(s: State, t: Trb)
    requires WellFormed(s) && MayPush(s, t)
    ensures Reaches(s, WholePush(s, t))
  {
    var s0 := Step(s, Begin(t));
    var s4 := FourStores(s0);
    OneStep(s, Begin(t));
    FourStoresReach(s0);
    ReachesTransitive(s, s0, s4);
    if s4.producer.Linking? {
      FourStoresReach(s4);
      ReachesTransitive(s, s4, FourStores(s4));
    }
  }

  lemma LoadReaches(s: State)
    requires WellFormed(s)
    ensures WellFormed(Load(s)) && Reaches(s, Load(s))
  {
    var s1 := Step(s, Poll);
    var s2 := Step(s1, Fetch);
    var s3 := Step(s2, Fetch);
    var s4 := Step(s3, Fetch);
    OneStep(s, Poll);
    OneStep(s1, Fetch);
    OneStep(s2, Fetch);
    OneStep(s3, Fetch);
    OneStep(s4, Fetch);
    ReachesTransitive(s, s1, s2);
    ReachesTransitive(s, s2, s3);
    ReachesTransitive(s, s3, s4);
    ReachesTransitive(s, s4, Step(s4, Fetch));
  }

  const SAMPLE_TRB := Trb(0, 0, 0, Word3(NORMAL_TYPE * 512, false))

  /** Both sides are at rest, the driver in slot `index`. */
  predicate AtRest(s: State, base: Address, size: nat, index: nat, unread: nat) {
    && WellFormed(s) && Inv(s)
    && s.Size() == size && s.image.base == base
    && s.producer.Ready? && s.consumer.Polling?
    && s.image.index == index && s.Unread() == unread
  }

  /** The driver pushes and the controller takes, `k` times. */
  lemma {:induction false} PushAndTake(base: Address, size: nat, k: nat) returns (s: State)
    requires size >= 3 && base % 16 == 0 && k <= size - 2
    ensures AtRest(s, base, size, k, 0) && s.at == k && s.ccs == s.image.cycle
    ensures Reaches(Start(base, size), s)
  {
    if k == 0 {
      s := Start(base, size);
      StartInv(base, size);
      assert LegalRun(s, []) && Run(s, []) == s;
    } else {
      var s0 := PushAndTake(base, size, k - 1);
      s := PushThenTake(s0);
      ReachesTransitive(Start(base, size), s0, s);
    }
  }

  lemma PushThenTake(s0: State) returns (s: State)
    requires WellFormed(s0) && Inv(s0) && s0.producer.Ready? && s0.consumer.Polling?
    requires s0.Unread() == 0 && s0.at == s0.image.index && s0.ccs == s0.image.cycle
    ensures WellFormed(s) && Inv(s) && Reaches(s0, s)
    ensures s.Size() == s0.Size() && s.image == PushImage(s0.image, SAMPLE_TRB)
    ensures s.producer.Ready? && s.consumer.Polling? && s.Unread() == 0
    ensures s.at == s0.at + 1 && s.ccs == s0.ccs
  {
    var s1 := JustPush(s0);
    ConsumerDelivers(s1);
    LoadReaches(s1);
    s := Load(s1);
    ReachesTransitive(s0, s1, s);
  }

  lemma JustPush(s0: State) returns (s: State)
    requires WellFormed(s0) && Inv(s0) && s0.producer.Ready?
    requires s0.Unread() + 1 <= s0.Size() - 2
    ensures WellFormed(s) && Inv(s) && Reaches(s0, s)
    ensures s == s0.(image := PushImage(s0.image, SAMPLE_TRB),
                     pushed := s0.pushed + [SAMPLE_TRB.Payload()])
  {
    s := WholePush(s0, SAMPLE_TRB);
    WholePushReaches(s0, SAMPLE_TRB);
    WholePushIsPushImage(s0, SAMPLE_TRB);
    var actions :| LegalRun(s0, actions) && Run(s0, actions) == s;
    RunKeepsInv(s0, actions);
  }

  /** With the controller parked on the Link TRB the driver fills `k` slots. */
  lemma {:induction false} FillBehindParked(s0: State, k: nat) returns (s: State)
    requires AtRest(s0, s0.image.base, s0.Size(), 0, 0) && Parked(s0)
    requires k <= s0.Size() - 2
    ensures AtRest(s, s0.image.base, s0.Size(), k, k) && Parked(s)
    ensures Reaches(s0, s)
  {
    if k == 0 {
      s := s0;
      assert LegalRun(s, []) && Run(s, []) == s;
    } else {
      var s1 := FillBehindParked(s0, k - 1);
      s := JustPush(s1);
      ReachesTransitive(s0, s1, s);
    }
  }

  /** For every ring size the bound cannot be raised: a legal run reaches a state
      with size - 2 TRBs unread from which one more push leaves the controller
      polling a slot that it never takes. */
  lemma BoundIsSharp(base: Address, size: nat) returns (s: State)
    requires size >= 3 && base % 16 == 0
    ensures AtRest(s, base, size, size - 2, size - 2) && Reaches(Start(base, size), s)
    ensures var s' := WholePush(s, SAMPLE_TRB);
            s'.Unread() == size - 1 && DoPoll(s') == s'
  {
    var s0 := PushAndTake(base, size, size - 2);
    var s1 := PushThenTake(s0);
    ReachesTransitive(Start(base, size), s0, s1);
    s := FillBehindParked(s1, size - 2);
    ReachesTransitive(Start(base, size), s1, s);
    PushUnderParkedConsumer(s, SAMPLE_TRB);
  }

  // ---------------------------------------------------------------- the driver's object

  /** The driver's side of a ring. `address` is where the segment lies. */
  class Ring {
    var buf: array?<Trb>
    var bufSize: nat
    var cycleBit: bool
    var writeIndex: nat
    var address: Address

    constructor ()
      ensures buf == null
    {
      buf, bufSize, cycleBit, writeIndex, address := null, 0, false, 0, 0;
    }

    ghost predicate Allocated()
      reads this
    {
      buf != null && buf.Length == bufSize && bufSize >= 2
    }

    ghost predicate Valid()
      reads this
    {
      Allocated() && writeIndex < bufSize - 1 && address % 16 == 0
    }

    ghost function View(): (r: Image)
      reads this, buf
      requires Valid()
      ensures r.Valid()
    {
      Image(address, buf[..], writeIndex, cycleBit)
    }

    lemma IsEmpty(at: Address, size: nat)
      requires Allocated() && address == at && at % 64 == 0 && bufSize == size && writeIndex == 0 && cycleBit
      requires forall j :: 0 <= j < size ==> buf[j] == ZERO_TRB
      ensures Valid() && View() == EmptyImage(at, size)
    {
      AlignedTo16(at);
      assert buf[..] == EmptyImage(at, size).mem;
    }

    /** `block` and `at` are the outcome of the allocation that the source makes
        here: a block of `size` TRBs aligned to 64 bytes, or null. */
    method Initialize(size: nat, block: array?<Trb>, at: Address) returns (err: Error)
      requires size >= 2
      requires block != null ==> block.Length == size && at % 64 == 0
      modifies this, block
      ensures err == if block == null then NoEnoughMemory else Success
      ensures block != null ==>
                Valid() && buf == block && View() == EmptyImage(at, size)
    {
      hide EmptyImage, View, Valid;
      cycleBit, writeIndex, bufSize := true, 0, size;
      buf, address := block, at;
      if buf == null {
        return NoEnoughMemory;
      }
      var i := 0;
      while i < size
        invariant i <= size && buf == block
        invariant forall j :: 0 <= j < i ==> buf[j] == ZERO_TRB
        modifies buf
      {
        buf[i] := ZERO_TRB;
        i := i + 1;
      }
      IsEmpty(at, size);
      return Success;
    }

    method CopyToLast(data: Trb)
      requires Allocated() && writeIndex < bufSize
      modifies buf
      ensures buf[..] == old(buf[..])[writeIndex := data.Stamp(cycleBit)]
    {
      var i := 0;
      while i < 3
        invariant i <= 3
        invariant buf[writeIndex].AgreesUpTo(data, i)
        invariant forall j :: 0 <= j < buf.Length && j != writeIndex ==> buf[j] == old(buf[j])
      {
        buf[writeIndex] := buf[writeIndex].Set(i, data.Get(i));
        i := i + 1;
      }
      buf[writeIndex] := buf[writeIndex].(w3 := Word3(data.w3.control, cycleBit));
    }

    /** Returns the slot that the TRB was stored in. */
    method Push(data: Trb) returns (slot: nat)
      requires Valid()
      modifies this`cycleBit, this`writeIndex, buf
      ensures Valid()
      ensures slot == old(writeIndex)
      ensures View() == PushImage(old(View()), data)
    {
      slot := writeIndex;
      CopyToLast(data);
      writeIndex := writeIndex + 1;
      if writeIndex == bufSize - 1 {
        var link := LinkTrb(address);
        CopyToLast(link);
        writeIndex := 0;
        cycleBit := !cycleBit;
      }
    }
  }
}
