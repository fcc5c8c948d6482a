/** Control transfers on one transfer ring, and how a completion finds the request it
    belongs to.

    A request puts a Setup Stage TRB, an optional Data Stage TRB and a Status Stage TRB
    on the ring and remembers, in a 16-entry map, which Setup Stage TRB goes with the TRB
    that will raise the completion event. The completion handler reads the request back
    out of ring memory. A TRB pointer is modelled as a ring and a slot. */
module ControlPipes {
  import opened ArrayMaps
  import Bits
  import opened Errors
  import opened Trbs
  import opened TrbRing

  /** A 17-bit TRB transfer length. */
  type Length = n: int | 0 <= n < 0x2_0000

  datatype SetupData = SetupData(requestType: Byte, request: Byte, value: Half, index: Half, length: Half)

  datatype Buffer = Buffer(address: Address, len: Length)

  datatype Request = Request(setup: SetupData, dirIn: bool, buf: Option<Buffer>) {
    /** The number of TRBs that the request occupies. */
    function Trbs(): nat { if buf.Some? then 3 else 2 }
  }

  datatype TrbPtr = TrbPtr(dci: nat, slot: nat)

  const NO_DATA_STAGE := 0
  const OUT_DATA_STAGE := 2
  const IN_DATA_STAGE := 3

  const MAP_SIZE := 16

  // ---------------------------------------------------------------- TRB layouts

  const DIRECTION_BIT := 0x8000              // bit 16 of word 3
  const INTERRUPT_ON_COMPLETION_BIT := 0x10  // bit 5 of word 3
  const IMMEDIATE_DATA_BIT := 0x20           // bit 6 of word 3

  function SetupStage(d: SetupData, transferType: nat): Trb
    requires transferType < 4
  {
    Trb(d.requestType + 0x100 * d.request + 0x1_0000 * d.value,
        d.index + 0x1_0000 * d.length,
        8,
        Word3(SETUP_STAGE_TYPE * 512 + IMMEDIATE_DATA_BIT + transferType * 0x8000, false))
  }

  function DecodeSetup(t: Trb): SetupData {
    SetupData(t.w0 % 0x100, t.w0 / 0x100 % 0x100, t.w0 / 0x1_0000, t.w1 % 0x1_0000, t.w1 / 0x1_0000)
  }

  function DataStage(b: Buffer, dirIn: bool): Trb {
    Trb(b.address % TWO_32, b.address / TWO_32, b.len,
        Word3(DATA_STAGE_TYPE * 512 + INTERRUPT_ON_COMPLETION_BIT + (if dirIn then DIRECTION_BIT else 0), false))
  }

  function StatusStage(direction: bool, interrupt: bool): Trb {
    Trb(0, 0, 0, Word3(STATUS_STAGE_TYPE * 512 + (if direction then DIRECTION_BIT else 0)
                       + (if interrupt then INTERRUPT_ON_COMPLETION_BIT else 0), false))
  }

  function NormalTrb(b: Buffer): Trb {
    // bit 2: interrupt on short packet, bit 5: interrupt on completion
    Trb(b.address % TWO_32, b.address / TWO_32, b.len,
        Word3(NORMAL_TYPE * 512 + 2 + INTERRUPT_ON_COMPLETION_BIT, false))
  }

  function DataPointer(t: Trb): int { t.w0 + TWO_32 * t.w1 }

  function TransferLength(t: Trb): Length { t.w2 % 0x2_0000 }

  /** The fields of a request survive the ring: bit packing, cycle stamp and all. */
  lemma LayoutRoundTrip(req: Request, cycle: bool)
    ensures DecodeSetup(SetupOf(req).Stamp(cycle)) == req.setup
    ensures SetupOf(req).Type() == SETUP_STAGE_TYPE
    ensures req.buf.Some? ==>
              && EventOf(req).Type() == DATA_STAGE_TYPE
              && DataPointer(EventOf(req)) == req.buf.value.address
              && TransferLength(EventOf(req)) == req.buf.value.len
    ensures req.buf.None? ==> EventOf(req).Type() == STATUS_STAGE_TYPE
  {
    var d := req.setup;
    assert (d.requestType + 0x100 * d.request + 0x1_0000 * d.value) / 0x100
        == d.request + 0x100 * d.value;
  }

  /** The first TRB of a request. */
  function SetupOf(req: Request): Trb {
    SetupStage(req.setup, if req.buf.None? then NO_DATA_STAGE
                          else if req.dirIn then IN_DATA_STAGE else OUT_DATA_STAGE)
  }

  /** The second TRB of a request, the one that raises the completion event. */
  function EventOf(req: Request): Trb {
    if req.buf.Some? then DataStage(req.buf.value, req.dirIn) else StatusStage(true, true)
  }

  // ---------------------------------------------------------------- the words on the ring

  /** The next data slot of a ring whose last slot is `last`. */
  function NextSlot(i: nat, last: nat): nat { if i + 1 == last then 0 else i + 1 }

  /** The Setup Stage TRB of a request: section 6.4.1.2.1 of the xHCI specification. The eight bytes of
      the setup packet are immediate data, and bits 16 and 17 of word 3 say whether a data stage
      follows and which way. */
  predicate SetupWords(t: Trb, req: Request) {
    && t.w0 == req.setup.requestType + 0x100 * req.setup.request + 0x1_0000 * req.setup.value
    && t.w1 == req.setup.index + 0x1_0000 * req.setup.length
    && t.w2 == 8
    && var w := t.w3.Number();
       && Field(w, 0x400, 64) == 2 && Field(w, 0x40, 2) == 1 && Field(w, 0x20, 2) == 0
       && Field(w, 0x1_0000, 4) == if req.buf.None? then 0 else if req.dirIn then 3 else 2
  }

  /** The Data Stage TRB: section 6.4.1.2.2. */
  predicate DataWords(t: Trb, b: Buffer, dirIn: bool) {
    && t.w0 + TWO_32 * t.w1 == b.address && t.w2 == b.len
    && var w := t.w3.Number();
       Field(w, 0x400, 64) == 3 && Field(w, 0x20, 2) == 1 && (Field(w, 0x1_0000, 2) == 1 <==> dirIn)
  }

  /** The Status Stage TRB: section 6.4.1.2.3. */
  predicate StatusWords(t: Trb, direction: bool, interrupt: bool) {
    && t.w0 == t.w1 == t.w2 == 0
    && var w := t.w3.Number();
       && Field(w, 0x400, 64) == 4
       && (Field(w, 0x20, 2) == 1 <==> interrupt) && (Field(w, 0x1_0000, 2) == 1 <==> direction)
  }

  /** The Normal TRB of an interrupt-in transfer: section 6.4.1.1. It asks for an event on completion
      and on a short packet. */
  predicate NormalWords(t: Trb, b: Buffer) {
    && t.w0 + TWO_32 * t.w1 == b.address && t.w2 == b.len
    && var w := t.w3.Number();
       Field(w, 0x400, 64) == 1 && Field(w, 0x20, 2) == 1 && Field(w, 0x4, 2) == 1
  }

  lemma StageWords(req: Request, cycle: bool)
    ensures SetupWords(SetupOf(req).Stamp(cycle), req)
    ensures req.buf.Some? ==>
              && DataWords(EventOf(req).Stamp(cycle), req.buf.value, req.dirIn)
              && StatusWords(StatusStage(!req.dirIn, false).Stamp(cycle), !req.dirIn, false)
    ensures req.buf.None? ==> StatusWords(EventOf(req).Stamp(cycle), true, true)
  {
    var one := if cycle then 1 else 0;
    var top := if req.buf.None? then 0 else if req.dirIn then 3 else 2;
    FieldsOfWord(SetupOf(req).Stamp(cycle).w3.Number(), top, 2, 0x40 + one);
    var direction := if req.dirIn then 1 else 0;
    if req.buf.Some? {
      FieldsOfWord(EventOf(req).Stamp(cycle).w3.Number(), direction, 3, 0x20 + one);
      FieldsOfWord(StatusStage(!req.dirIn, false).Stamp(cycle).w3.Number(), 1 - direction, 4, one);
      hide Field;
      WholePointer(req.buf.value.address);
    } else {
      FieldsOfWord(EventOf(req).Stamp(cycle).w3.Number(), 1, 4, 0x20 + one);
    }
    hide Field;
  }

  lemma WholePointer(p: Address)
    ensures p % TWO_32 + TWO_32 * (p / TWO_32) == p
  {
    Bits.DivMod(p, TWO_32);
  }

  /** The fields of a third word that has these bits from 16 on, this type, and these bits below. */
  lemma FieldsOfWord(w: nat, top: nat, kind: nat, low: nat)
    requires w == 0x1_0000 * top + 0x400 * kind + low && top < 4 && kind < 64 && low < 0x400
    ensures Field(w, 0x400, 64) == kind && Field(w, 0x1_0000, 4) == top && Field(w, 0x1_0000, 2) == top % 2
    ensures Field(w, 0x20, 2) == low / 0x20 % 2 && Field(w, 0x40, 2) == low / 0x40 % 2 && Field(w, 0x4, 2) == low / 0x4 % 2
  {
    Bits.DivModUnique(w, 0x400, 64 * top + kind, low);
    Bits.DivModUnique(64 * top + kind, 64, top, kind);
    Bits.DivModUnique(w, 0x1_0000, top, 0x400 * kind + low);
    LowField(w, 0x40 * top + kind, low, 0x20, 0x10);
    LowField(w, 0x40 * top + kind, low, 0x40, 0x8);
    LowField(w, 0x40 * top + kind, low, 0x4, 0x80);
  }

  /** One bit of the low ten. */
  lemma LowField(w: nat, high: nat, low: nat, bit: nat, half: nat)
    requires w == 0x400 * high + low && low < 0x400 && bit > 0 && 2 * bit * half == 0x400
    ensures w / bit % 2 == low / bit % 2
  {
    var (q, r) := (low / bit, low % bit);
    Bits.DivMod(low, bit);
    assert w == bit * (2 * half * high + q) + r by { assert 0x400 * high == bit * (2 * half * high); }
    Bits.DivModUnique(w, bit, 2 * half * high + q, r);
    var (m, b) := (q / 2, q % 2);
    assert 2 * half * high + q == 2 * (half * high + m) + b;
    Bits.DivModUnique(2 * half * high + q, 2, half * high + m, b);
  }

  lemma NormalWordsType(t: Trb, b: Buffer)
    requires NormalWords(t, b)
    ensures t.Type() == NORMAL_TYPE && TransferLength(t) == b.len
  {
    assert t.w3.Number() / 0x400 == t.w3.control / 512;
  }

  lemma NormalTrbWords(b: Buffer, cycle: bool)
    ensures NormalWords(NormalTrb(b).Stamp(cycle), b)
  {
    FieldsOfWord(NormalTrb(b).Stamp(cycle).w3.Number(), 0, 1, 0x24 + if cycle then 1 else 0);
    hide Field;
    WholePointer(b.address);
  }

  /** One more TRB, at the write index and with the producer's cycle bit; every other data slot is
      as it was. */
  predicate OnePushed(was: Image, now: Image, t: Trb)
    requires was.Valid()
  {
    var last := |was.mem| - 1;
    && |now.mem| == |was.mem| && now.base == was.base
    && now.mem[was.index] == t && t.Cycle() == was.cycle
    && (forall i :: 0 <= i < last && i != was.index ==> now.mem[i] == was.mem[i])
    && now.index == NextSlot(was.index, last)
    && now.cycle == if was.index + 1 == last then !was.cycle else was.cycle
  }

  lemma PushIsOnePushed(r: Image, t: Trb)
    requires r.Valid()
    ensures OnePushed(r, PushImage(r, t), t.Stamp(r.cycle))
  {
  }

  /** What a request leaves on the ring and in the map. Exactly one of its TRBs asks for an event, the
      second, and the map leads from that TRB to the first. */
  predicate RequestOnRing(was: Pipe, now: Pipe, req: Request)
    requires was.ring.Valid()
  {
    var last := |was.ring.mem| - 1;
    var s0 := was.ring.index;
    var s1 := NextSlot(s0, last);
    var s2 := NextSlot(s1, last);
    && |now.ring.mem| == |was.ring.mem| && now.ring.base == was.ring.base && now.dci == was.dci
    && SetupWords(now.ring.mem[s0], req)
    && now.ring.mem[s0].Cycle() == was.ring.cycle
    && now.ring.mem[s1].Cycle() == (if s1 == 0 then !was.ring.cycle else was.ring.cycle)
    && (if req.buf.Some? then
          && DataWords(now.ring.mem[s1], req.buf.value, req.dirIn)
          && StatusWords(now.ring.mem[s2], !req.dirIn, false)
          && now.ring.mem[s2].Cycle() == (if s1 == 0 || s2 == 0 then !was.ring.cycle else was.ring.cycle)
          && now.ring.index == NextSlot(s2, last)
        else
          && StatusWords(now.ring.mem[s1], true, true)
          && now.ring.index == s2)
    && (forall i :: 0 <= i < last && i != s0 && i != s1 && (req.buf.Some? ==> i != s2) ==>
          now.ring.mem[i] == was.ring.mem[i])
    && now.table == Put(was.table, TrbPtr(was.dci, s1), TrbPtr(was.dci, s0))
  }

  lemma IssueIsRequestOnRing(p: Pipe, req: Request)
    requires p.ring.Valid() && |p.ring.mem| >= 5
    ensures RequestOnRing(p, Issue(p, req), req)
  {
    var r1 := PushImage(p.ring, SetupOf(req));
    var r2 := PushImage(r1, EventOf(req));
    PushIsOnePushed(p.ring, SetupOf(req));
    PushIsOnePushed(r1, EventOf(req));
    PushIsOnePushed(r2, StatusStage(!req.dirIn, false));
    StageWords(req, p.ring.cycle);
    StageWords(req, r1.cycle);
    StageWords(req, r2.cycle);
    hide SetupOf, EventOf, StatusStage, PushImage, Put, SetupWords, DataWords, StatusWords;
  }

  // ---------------------------------------------------------------- one request, one completion

  datatype Pipe = Pipe(dci: nat, ring: Image, table: Table<TrbPtr, TrbPtr>)

  /** What ControlIn and ControlOut do to the ring and the map. */
  function Issue(p: Pipe, req: Request): Pipe
    requires p.ring.Valid()
  {
    var r1 := PushImage(p.ring, SetupOf(req));
    var r2 := PushImage(r1, EventOf(req));
    var r3 := if req.buf.Some? then PushImage(r2, StatusStage(!req.dirIn, false)) else r2;
    Pipe(p.dci, r3, Put(p.table, TrbPtr(p.dci, r1.index), TrbPtr(p.dci, p.ring.index)))
  }

  datatype Outcome =
    | ControlCompleted(setup: SetupData, buf: Option<int>, len: int)
    | InterruptCompleted(address: int, len: int)
    | Failed(error: Error)

  const CODE_SUCCESS := 1
  const CODE_SHORT_PACKET := 13

  /** What the handler makes of a transfer event that names TRB `at`, found with the
      contents `issuer`, when the Setup Stage TRB, if one is found, reads `setup`. */
  function Completion(issuer: Trb, setup: Trb, found: bool, code: nat, residual: nat): Outcome {
    if code != CODE_SUCCESS && code != CODE_SHORT_PACKET then
      Failed(TransferFailed)
    else if issuer.Type() == NORMAL_TYPE then
      InterruptCompleted(DataPointer(issuer), TransferLength(issuer) - residual)
    else if !found then
      Failed(NoCorrespondingSetupStage)
    else if issuer.Type() == DATA_STAGE_TYPE then
      ControlCompleted(DecodeSetup(setup), Some(DataPointer(issuer)), TransferLength(issuer) - residual)
    else if issuer.Type() == STATUS_STAGE_TYPE then
      ControlCompleted(DecodeSetup(setup), None, 0)
    else
      Failed(NotImplemented)
  }

  /** The map entry goes as soon as it has been found. */
  predicate Forgets(issuer: Trb, found: bool, code: nat) {
    (code == CODE_SUCCESS || code == CODE_SHORT_PACKET) && issuer.Type() != NORMAL_TYPE && found
  }

  function Complete(p: Pipe, slot: nat, code: nat, residual: nat): (Pipe, Outcome)
    requires slot < |p.ring.mem|
    requires var e := Get(p.table, TrbPtr(p.dci, slot));
             e.Some? ==> e.value.slot < |p.ring.mem|
  {
    var issuer := p.ring.mem[slot];
    var entry := Get(p.table, TrbPtr(p.dci, slot));
    var setup := if entry.Some? then p.ring.mem[entry.value.slot] else issuer;
    (if Forgets(issuer, entry.Some?, code) then p.(table := Delete(p.table, TrbPtr(p.dci, slot))) else p,
     Completion(issuer, setup, entry.Some?, code, residual))
  }

  // ---------------------------------------------------------------- runs of one pipe

  /** A request without a completion event yet; `at` counts the TRBs pushed before it. */
  datatype Live = Live(req: Request, at: nat)

  /** `total` TRBs have been pushed; the controller is known to have read the first
      `read` of them. */
  datatype PipeState = PipeState(pipe: Pipe, total: nat, read: nat, live: seq<Live>)

  const DATA_SLOTS := 31

  function SlotOf(i: nat): (r: nat)
    ensures r < DATA_SLOTS
  {
    i % DATA_SLOTS
  }

  function KeyOf(s: PipeState, l: Live): TrbPtr { TrbPtr(s.pipe.dci, SlotOf(l.at + 1)) }

  function Fresh(dci: nat, base: Address): PipeState {
    PipeState(Pipe(dci, EmptyImage(base, RING_SIZE), EmptyTable(MAP_SIZE, TrbPtr(0, 0))), 0, 0, [])
  }

  function DoIssue(s: PipeState, req: Request): PipeState
    requires s.pipe.ring.Valid()
  {
    PipeState(Issue(s.pipe, req), s.total + req.Trbs(), s.read, s.live + [Live(req, s.total)])
  }

  /** Control requests of a pipe complete in the order they were issued. The event of the
      oldest one tells that the controller has read up to the TRB that raised it. */
  function DoComplete(s: PipeState, code: nat, residual: nat): (PipeState, Outcome)
    requires s.live != []
    requires SlotOf(s.live[0].at + 1) < |s.pipe.ring.mem|
    requires var e := Get(s.pipe.table, KeyOf(s, s.live[0]));
             e.Some? ==> e.value.slot < |s.pipe.ring.mem|
  {
    var (p, o) := Complete(s.pipe, SlotOf(s.live[0].at + 1), code, residual);
    (PipeState(p, s.total, s.live[0].at + 2, s.live[1..]), o)
  }

  /** The TRBs of a live request are in its slots. */
  predicate InPlace(mem: seq<Trb>, l: Live)
    requires |mem| == RING_SIZE
  {
    && mem[SlotOf(l.at)].Payload() == SetupOf(l.req)
    && mem[SlotOf(l.at + 1)].Payload() == EventOf(l.req)
  }

  /** Requests lie on the ring one after the other, none of them read completely and the
      whole window no longer than what the ring may hold unread. */
  predicate WindowInv(live: seq<Live>, total: nat, read: nat) {
    && read <= total <= read + DATA_SLOTS - 1
    && (forall i :: 0 <= i < |live| ==> read <= live[i].at && live[i].at + live[i].req.Trbs() <= total)
    && (forall i, j :: 0 <= i < j < |live| ==> live[i].at + live[i].req.Trbs() <= live[j].at)
  }

  /** The map leads from the second TRB of a live request to its first. */
  predicate Matched(dci: nat, table: Table<TrbPtr, TrbPtr>, l: Live) {
    Get(table, TrbPtr(dci, SlotOf(l.at + 1))) == Some(TrbPtr(dci, SlotOf(l.at)))
  }

  ghost predicate Awaited(live: seq<Live>, slot: nat) {
    exists l :: l in live && SlotOf(l.at + 1) == slot
  }

  /** The map holds an entry for every live request, and nothing else. */
  ghost predicate TableInv(dci: nat, table: Table<TrbPtr, TrbPtr>, live: seq<Live>) {
    && |table| == MAP_SIZE && Unique(table) && Used(table) == |live|
    && (forall l :: l in live ==> Matched(dci, table, l))
    && (forall slot :: Get(table, TrbPtr(dci, slot)).Some? ==> Awaited(live, slot))
  }

  ghost predicate Inv(s: PipeState) {
    && s.pipe.ring.Valid() && |s.pipe.ring.mem| == RING_SIZE
    && s.pipe.ring.index == SlotOf(s.total)
    && WindowInv(s.live, s.total, s.read)
    && (forall i :: 0 <= i < |s.live| ==> InPlace(s.pipe.ring.mem, s.live[i]))
    && TableInv(s.pipe.dci, s.pipe.table, s.live)
  }

  /** What the driver must respect: at most 30 TRBs unread after the request. */
  predicate MayIssue(s: PipeState, req: Request) {
    s.total + req.Trbs() - s.read <= RING_SIZE - 2
  }

  /** Every request takes two slots of the window at least. */
  lemma {:induction false} WindowCount(live: seq<Live>, total: nat, read: nat)
    requires WindowInv(live, total, read)
    ensures 2 * |live| <= total - read
  {
    if live != [] {
      var n := |live| - 1;
      WindowCount(live[..n], live[n].at, read);
    }
  }

  /** The window bounds the requests: at most 15 are outstanding, so that the map with its 16
      entries, which ignores what it has no room for, never fills. */
  lemma MapNeverFills(s: PipeState)
    requires Inv(s)
    ensures |s.live| <= 15 && !ArrayMaps.Full(s.pipe.table)
  {
    hide Get, Used, Unique, SlotOf, InPlace, ArrayMaps.Full;
    WindowCount(s.live, s.total, s.read);
    FullIsAllUsed(s.pipe.table);
  }

  lemma FreshInv(dci: nat, base: Address)
    requires base % 16 == 0
    ensures Inv(Fresh(dci, base))
  {
    var t := Fresh(dci, base).pipe.table;
    NothingUsed(t);
    forall slot ensures Get(t, TrbPtr(dci, slot)) == None {
    }
  }

  lemma NothingUsed<K, V>(t: Table<K, V>)
    requires forall i :: 0 <= i < |t| ==> t[i].key == None
    ensures Used(t) == 0
  {
  }

  lemma PushImageSlots(r: Image, t: Trb, total: nat)
    requires r.Valid() && |r.mem| == RING_SIZE && r.index == SlotOf(total)
    ensures var r' := PushImage(r, t);
            && |r'.mem| == RING_SIZE && r'.index == SlotOf(total + 1)
            && r'.mem[SlotOf(total)].Payload() == t.Payload()
            && forall j :: 0 <= j < DATA_SLOTS && j != SlotOf(total) ==> r'.mem[j] == r.mem[j]
  {
  }

  lemma DistinctSlots(i: nat, j: nat)
    requires i < j < i + DATA_SLOTS
    ensures SlotOf(i) != SlotOf(j)
  {
  }

  /** The TRBs of a request land in consecutive slots and disturb no other. */
  lemma IssueRing(p: Pipe, req: Request, total: nat)
    requires p.ring.Valid() && |p.ring.mem| == RING_SIZE && p.ring.index == SlotOf(total)
    ensures var r := Issue(p, req).ring;
            && r.Valid() && |r.mem| == RING_SIZE && r.index == SlotOf(total + req.Trbs())
            && InPlace(r.mem, Live(req, total))
            && (req.buf.Some? ==> r.mem[SlotOf(total + 2)].Payload() == StatusStage(!req.dirIn, false))
            && forall j :: total - DATA_SLOTS + req.Trbs() <= j < total && 0 <= j ==>
                 r.mem[SlotOf(j)] == p.ring.mem[SlotOf(j)]
  {
    hide PushImage, SlotOf, SetupOf, EventOf;
    var r1 := PushImage(p.ring, SetupOf(req));
    var r2 := PushImage(r1, EventOf(req));
    PushImageSlots(p.ring, SetupOf(req), total);
    PushImageSlots(r1, EventOf(req), total + 1);
    DistinctSlots(total, total + 1);
    PayloadsAreStampless(req);
    if req.buf.Some? {
      PushImageSlots(r2, StatusStage(!req.dirIn, false), total + 2);
      DistinctSlots(total, total + 2);
      DistinctSlots(total + 1, total + 2);
    }
    forall j | total - DATA_SLOTS + req.Trbs() <= j < total && 0 <= j
      ensures Issue(p, req).ring.mem[SlotOf(j)] == p.ring.mem[SlotOf(j)]
    {
      DistinctSlots(j, total);
      DistinctSlots(j, total + 1);
      if req.buf.Some? { DistinctSlots(j, total + 2); }
    }
  }

  lemma PayloadsAreStampless(req: Request)
    ensures SetupOf(req).Payload() == SetupOf(req) && EventOf(req).Payload() == EventOf(req)
  {
  }

  lemma IssueKeepsInv(s: PipeState, req: Request)
    requires Inv(s) && MayIssue(s, req)
    ensures Inv(DoIssue(s, req))
  {
    hide Get, SlotOf, InPlace, TableInv, WindowInv, PushImage, SetupOf, EventOf, Put;
    IssueKeepsPlaces(s, req);
    IssueKeepsTable(s, req);
    WindowGrows(s.live, s.total, s.read, req);
    IssueShape(s.pipe, req, s.total);
  }

  lemma IssueShape(p: Pipe, req: Request, total: nat)
    requires p.ring.Valid() && |p.ring.mem| == RING_SIZE && p.ring.index == SlotOf(total)
    ensures var r := Issue(p, req).ring;
            r.Valid() && |r.mem| == RING_SIZE && r.index == SlotOf(total + req.Trbs())
  {
    IssueRing(p, req, total);
  }

  /** A TRB that the next request does not reach stays. */
  lemma IssueLeaves(p: Pipe, req: Request, total: nat, j: nat)
    requires p.ring.Valid() && |p.ring.mem| == RING_SIZE && p.ring.index == SlotOf(total)
    requires total - DATA_SLOTS + req.Trbs() <= j < total
    ensures |Issue(p, req).ring.mem| == RING_SIZE
    ensures Issue(p, req).ring.mem[SlotOf(j)] == p.ring.mem[SlotOf(j)]
  {
    IssueRing(p, req, total);
  }

  /** The TRB that raises the event of the next request. */
  lemma IssuePuts(p: Pipe, req: Request, total: nat)
    requires p.ring.Valid() && |p.ring.mem| == RING_SIZE && p.ring.index == SlotOf(total)
    ensures |Issue(p, req).ring.mem| == RING_SIZE
    ensures Issue(p, req).ring.mem[SlotOf(total + 1)].Payload() == EventOf(req)
  {
    IssueRing(p, req, total);
  }

  lemma WindowGrows(live: seq<Live>, total: nat, read: nat, req: Request)
    requires WindowInv(live, total, read) && total + req.Trbs() - read <= DATA_SLOTS - 1
    ensures WindowInv(live + [Live(req, total)], total + req.Trbs(), read)
  {
  }

  lemma IssueKeepsPlaces(s: PipeState, req: Request)
    requires Inv(s) && MayIssue(s, req)
    ensures var s' := DoIssue(s, req);
            && |s'.pipe.ring.mem| == RING_SIZE
            && forall i :: 0 <= i < |s'.live| ==> InPlace(s'.pipe.ring.mem, s'.live[i])
  {
    hide TableInv, SlotOf, Issue;
    var s' := DoIssue(s, req);
    IssueRing(s.pipe, req, s.total);
    forall i | 0 <= i < |s'.live| ensures InPlace(s'.pipe.ring.mem, s'.live[i]) {
      if i < |s.live| {
        assert s'.live[i] == s.live[i] && InPlace(s.pipe.ring.mem, s.live[i]);
        assert s.live[i].at >= s.total - DATA_SLOTS + req.Trbs();
      }
    }
  }

  lemma IssueKeepsTable(s: PipeState, req: Request)
    requires Inv(s) && MayIssue(s, req)
    ensures TableInv(s.pipe.dci, Issue(s.pipe, req).table, s.live + [Live(req, s.total)])
  {
    hide Get, Put, Used, Unique, SlotOf, PushImage, InPlace, SetupOf, EventOf;
    MapNeverFills(s);
    PushImageSlots(s.pipe.ring, SetupOf(req), s.total);
    IssueTable(s.pipe.dci, s.pipe.table, s.live, Live(req, s.total), s.read);
  }

  lemma IssueTable(dci: nat, table: Table<TrbPtr, TrbPtr>, live: seq<Live>, l: Live, read: nat)
    requires TableInv(dci, table, live) && |live| < MAP_SIZE
    requires forall x :: x in live ==> read <= x.at && x.at + 2 <= l.at
    requires l.at + 1 < read + DATA_SLOTS
    ensures TableInv(dci, Put(table, TrbPtr(dci, SlotOf(l.at + 1)), TrbPtr(dci, SlotOf(l.at))), live + [l])
  {
    hide Get, Put, Used, Unique, SlotOf;
    var k, table' := TrbPtr(dci, SlotOf(l.at + 1)), Put(table, TrbPtr(dci, SlotOf(l.at + 1)), TrbPtr(dci, SlotOf(l.at)));
    forall x | x in live ensures SlotOf(x.at + 1) != k.slot {
      DistinctSlots(x.at + 1, l.at + 1);
    }
    PutMeans(table, k, TrbPtr(dci, SlotOf(l.at)));
    forall x | x in live + [l] ensures Matched(dci, table', x) {
      assert x in live || x == l;
    }
    forall slot | Get(table', TrbPtr(dci, slot)).Some? ensures Awaited(live + [l], slot) {
      if slot == k.slot {
        assert l in live + [l];
      } else {
        assert Get(table', TrbPtr(dci, slot)) == Get(table, TrbPtr(dci, slot));
        var x :| x in live && SlotOf(x.at + 1) == slot;
        assert x in live + [l];
      }
    }
  }

  /** The outcome that the issuer of a request is owed when `residual` bytes of it were
      not transferred. */
  function Reply(req: Request, residual: nat): Outcome {
    if req.buf.Some? then
      ControlCompleted(req.setup, Some(req.buf.value.address), req.buf.value.len - residual)
    else
      ControlCompleted(req.setup, None, 0)
  }

  lemma CompletionOfPlacedRequest(setup: Trb, event: Trb, req: Request, code: nat, residual: nat)
    requires setup.Payload() == SetupOf(req) && event.Payload() == EventOf(req)
    requires code == CODE_SUCCESS || code == CODE_SHORT_PACKET
    ensures Completion(event, setup, true, code, residual) == Reply(req, residual)
    ensures Forgets(event, true, code)
  {
    LayoutRoundTrip(req, setup.Cycle());
    assert setup == SetupOf(req).Stamp(setup.Cycle());
    assert event == EventOf(req).Stamp(event.Cycle());
  }

  lemma WindowTail(live: seq<Live>, total: nat, read: nat)
    requires WindowInv(live, total, read) && live != []
    ensures WindowInv(live[1..], total, live[0].at + 2)
    ensures forall x :: x in live[1..] ==> live[0].at + 2 <= x.at && x.at + 1 < live[0].at + 1 + DATA_SLOTS
  {
  }

  /** An event whose entry leads to the Setup Stage TRB of the same request. */
  lemma CompleteMatched(p: Pipe, slot: nat, setupSlot: nat, req: Request, code: nat, residual: nat)
    requires slot < |p.ring.mem| && setupSlot < |p.ring.mem|
    requires Get(p.table, TrbPtr(p.dci, slot)) == Some(TrbPtr(p.dci, setupSlot))
    requires p.ring.mem[setupSlot].Payload() == SetupOf(req) && p.ring.mem[slot].Payload() == EventOf(req)
    requires code == CODE_SUCCESS || code == CODE_SHORT_PACKET
    ensures Complete(p, slot, code, residual)
         == (p.(table := Delete(p.table, TrbPtr(p.dci, slot))), Reply(req, residual))
  {
    hide Get, Delete, SetupOf, EventOf, Completion, Forgets, Reply;
    CompletionOfPlacedRequest(p.ring.mem[setupSlot], p.ring.mem[slot], req, code, residual);
  }

  /** The completion of the oldest live request, successful or short, hands over exactly
      the setup data and the buffer of that request, and removes it and nothing else from
      what is awaited. */
  lemma CompletionFindsItsRequest(s: PipeState, code: nat, residual: nat)
    requires Inv(s) && s.live != []
    requires code == CODE_SUCCESS || code == CODE_SHORT_PACKET
    ensures var (s', o) := DoComplete(s, code, residual);
            Inv(s') && s'.live == s.live[1..] && o == Reply(s.live[0].req, residual)
  {
    hide Get, Delete, SlotOf, SetupOf, EventOf, Reply, Inv, Complete, InPlace, Matched, KeyOf;
    InvIsRunnable(s);
    OldestIsMatched(s);
    WithoutOldestKeepsInv(s);
    CompleteIsMatched(s, code, residual);
  }

  lemma OldestIsMatched(s: PipeState)
    requires Inv(s) && s.live != []
    ensures |s.pipe.ring.mem| == RING_SIZE
    ensures InPlace(s.pipe.ring.mem, s.live[0]) && Matched(s.pipe.dci, s.pipe.table, s.live[0])
  {
    hide Get, SlotOf, SetupOf, EventOf, WindowInv;
    assert s.live[0] in s.live;
  }

  /** The pipe without its oldest request. */
  lemma WithoutOldestKeepsInv(s: PipeState)
    requires Inv(s) && s.live != []
    ensures Inv(PipeState(s.pipe.(table := Delete(s.pipe.table, KeyOf(s, s.live[0]))),
                          s.total, s.live[0].at + 2, s.live[1..]))
  {
    hide Get, Delete, Used, Unique, SlotOf, SetupOf, EventOf, WindowInv;
    WindowTail(s.live, s.total, s.read);
    TailInPlace(s.pipe.ring.mem, s.live);
    assert [s.live[0]] + s.live[1..] == s.live;
    CompleteTable(s.pipe.dci, s.pipe.table, s.live[1..], s.live[0], s.read);
    hide TableInv, InPlace;
  }

  lemma CompleteIsMatched(s: PipeState, code: nat, residual: nat)
    requires s.live != [] && |s.pipe.ring.mem| == RING_SIZE
    requires InPlace(s.pipe.ring.mem, s.live[0]) && Matched(s.pipe.dci, s.pipe.table, s.live[0])
    requires code == CODE_SUCCESS || code == CODE_SHORT_PACKET
    ensures Complete(s.pipe, SlotOf(s.live[0].at + 1), code, residual)
         == (s.pipe.(table := Delete(s.pipe.table, KeyOf(s, s.live[0]))), Reply(s.live[0].req, residual))
  {
    hide Get, Delete, Complete, Reply, SlotOf, SetupOf, EventOf;
    var l := s.live[0];
    CompleteMatched(s.pipe, SlotOf(l.at + 1), SlotOf(l.at), l.req, code, residual);
  }

  lemma TailInPlace(mem: seq<Trb>, live: seq<Live>)
    requires |mem| == RING_SIZE && live != []
    requires forall i :: 0 <= i < |live| ==> InPlace(mem, live[i])
    ensures forall i :: 0 <= i < |live[1..]| ==> InPlace(mem, live[1..][i])
  {
    hide InPlace;
  }

  lemma CompleteTable(dci: nat, table: Table<TrbPtr, TrbPtr>, live: seq<Live>, l: Live, read: nat)
    requires TableInv(dci, table, [l] + live)
    requires forall x :: x in live ==> l.at + 2 <= x.at && x.at + 1 < l.at + 1 + DATA_SLOTS
    ensures TableInv(dci, Delete(table, TrbPtr(dci, SlotOf(l.at + 1))), live)
  {
    hide Get, Delete, Used, Unique, SlotOf;
    var k, table' := TrbPtr(dci, SlotOf(l.at + 1)), Delete(table, TrbPtr(dci, SlotOf(l.at + 1)));
    assert Matched(dci, table, l);
    DeleteMeans(table, k);
    forall x | x in live ensures Matched(dci, table', x) {
      DistinctSlots(l.at + 1, x.at + 1);
      assert Matched(dci, table, x);
    }
    forall slot | Get(table', TrbPtr(dci, slot)).Some? ensures Awaited(live, slot) {
      assert Get(table', TrbPtr(dci, slot)) == Get(table, TrbPtr(dci, slot));
      var x :| x in [l] + live && SlotOf(x.at + 1) == slot;
      assert x in live;
    }
  }

  // ---------------------------------------------------------------- the limit is exact

  /** The Setup Stage TRB of the oldest request survives the next request if and only if that
      request ends at most one lap after it; otherwise a later stage of the next request lands
      on it. */
  lemma SetupSurvivesExactlyWhen(s: PipeState, req: Request)
    requires Inv(s) && s.live != []
    ensures var (l, mem) := (s.live[0], Issue(s.pipe, req).ring.mem);
            && |mem| == RING_SIZE
            && (mem[SlotOf(l.at)].Payload() == SetupOf(l.req) <==> s.total + req.Trbs() <= l.at + DATA_SLOTS)
  {
    hide Get, Put, Used, Unique, SlotOf, Issue, SetupOf, EventOf;
    var l, mem := s.live[0], Issue(s.pipe, req).ring.mem;
    IssueRing(s.pipe, req, s.total);
    assert InPlace(s.pipe.ring.mem, l);
    if s.total + req.Trbs() > l.at + DATA_SLOTS {
      SameSlotOneLapOn(l.at);
      LaterStagesAreNoSetup(req, l.req);
    }
  }

  lemma SameSlotOneLapOn(i: nat)
    ensures SlotOf(i + DATA_SLOTS) == SlotOf(i)
  {
  }

  lemma LaterStagesAreNoSetup(req: Request, other: Request)
    ensures EventOf(req) != SetupOf(other)
    ensures forall t: Trb :: t.Payload() == StatusStage(!req.dirIn, false) ==> t.Payload() != SetupOf(other)
  {
    LayoutRoundTrip(req, false);
    LayoutRoundTrip(other, false);
  }

  /** What the driver makes of the event of the oldest request. */
  function OldestOutcome(s: PipeState, code: nat, residual: nat): Outcome
    requires s.live != [] && Runnable(s)
  {
    DoComplete(s, code, residual).1
  }

  const ZERO_SETUP := SetupData(0, 0, 0, 0, 0)

  /** A request without a buffer that does not fit: its Status Stage TRB is what the completion of
      the oldest request finds for setup data. */
  lemma OverrunLosesTheOldest(s: PipeState, req: Request, code: nat, residual: nat)
    requires Inv(s) && s.live != [] && req.buf.None?
    requires s.total + req.Trbs() > s.live[0].at + DATA_SLOTS
    requires code == CODE_SUCCESS || code == CODE_SHORT_PACKET
    ensures var s' := DoIssue(s, req);
            && s'.live[0] == s.live[0] && Runnable(s')
            && var o := OldestOutcome(s', code, residual);
               o.ControlCompleted? && o.setup == ZERO_SETUP
  {
    hide Get, Put, SlotOf, SetupOf, EventOf, PushImage, Completion, InPlace, TableInv, Reply;
    OldestIsMatched(s);
    OldestStaysMatched(s, req);
    OldestInPlace(s);
    var l, s' := s.live[0], DoIssue(s, req);
    assert s.total == l.at + DATA_SLOTS - 1;
    IssueShape(s.pipe, req, s.total);
    IssuePuts(s.pipe, req, s.total);
    IssueLeaves(s.pipe, req, s.total, l.at + 1);
    SameSlotOneLapOn(l.at);
    hide Issue, Inv;
    CompletionFindsZeros(s'.pipe.ring.mem[SlotOf(l.at)], s'.pipe.ring.mem[SlotOf(l.at + 1)], l.req, req, code, residual);
  }

  lemma OldestInPlace(s: PipeState)
    requires Inv(s) && s.live != []
    ensures s.pipe.ring.mem[SlotOf(s.live[0].at + 1)].Payload() == EventOf(s.live[0].req)
  {
    hide SlotOf, EventOf, SetupOf, TableInv;
    assert InPlace(s.pipe.ring.mem, s.live[0]);
  }

  lemma CompletionFindsZeros(setup: Trb, event: Trb, req: Request, next: Request, code: nat, residual: nat)
    requires setup.Payload() == EventOf(next) && event.Payload() == EventOf(req) && next.buf.None?
    requires code == CODE_SUCCESS || code == CODE_SHORT_PACKET
    ensures var o := Completion(event, setup, true, code, residual);
            o.ControlCompleted? && o.setup == ZERO_SETUP
  {
    LayoutRoundTrip(req, false);
    assert event.Type() == EventOf(req).Type();
    hide EventOf;
    StatusDecodesToZero(next);
  }

  lemma StatusDecodesToZero(req: Request)
    requires req.buf.None?
    ensures forall t: Trb :: t.Payload() == EventOf(req) ==> DecodeSetup(t) == ZERO_SETUP
  {
  }

  /** The map entry of the oldest request survives every next one. */
  lemma OldestStaysMatched(s: PipeState, req: Request)
    requires Inv(s) && s.live != []
    ensures Matched(s.pipe.dci, Issue(s.pipe, req).table, s.live[0])
  {
    hide Get, Put, Used, Unique, SlotOf, SetupOf, EventOf;
    MapNeverFills(s);
    var k := TrbPtr(s.pipe.dci, SlotOf(s.total + 1));
    assert PushImage(s.pipe.ring, SetupOf(req)).index == SlotOf(s.total + 1) by {
      PushImageSlots(s.pipe.ring, SetupOf(req), s.total);
    }
    hide PushImage;
    forall l | l in s.live ensures SlotOf(l.at + 1) != k.slot {
      DistinctSlots(l.at + 1, s.total + 1);
    }
    assert s.live[0] in s.live && Matched(s.pipe.dci, s.pipe.table, s.live[0]);
    PutMeans(s.pipe.table, k, TrbPtr(s.pipe.dci, s.pipe.ring.index));
  }

  datatype PipeAction = Submit(req: Request) | Finish(code: nat, residual: nat)

  /** The memory accesses of a step are in bounds. */
  predicate Runnable(s: PipeState) {
    && s.pipe.ring.Valid()
    && (s.live != [] ==>
          var e := Get(s.pipe.table, KeyOf(s, s.live[0]));
          && SlotOf(s.live[0].at + 1) < |s.pipe.ring.mem|
          && (e.Some? ==> e.value.slot < |s.pipe.ring.mem|))
  }

  predicate LegalAction(s: PipeState, a: PipeAction) {
    match a
    case Submit(req) => MayIssue(s, req)
    case Finish(code, _) => s.live != [] && (code == CODE_SUCCESS || code == CODE_SHORT_PACKET)
  }

  /** The next state and the outcome that the driver sees, if there is one. */
  function PipeStep(s: PipeState, a: PipeAction): (PipeState, seq<Outcome>) {
    if !Runnable(s) then (s, [])
    else match a
      case Submit(req) => (DoIssue(s, req), [])
      case Finish(code, residual) =>
        if s.live == [] then (s, [])
        else var (s', o) := DoComplete(s, code, residual); (s', [o])
  }

  predicate LegalPipeRun(s: PipeState, actions: seq<PipeAction>)
    decreases |actions|
  {
    actions == [] || (LegalAction(s, actions[0]) && LegalPipeRun(PipeStep(s, actions[0]).0, actions[1..]))
  }

  /** The outcomes of a run, in order. */
  function Observed(s: PipeState, actions: seq<PipeAction>): seq<Outcome>
    decreases |actions|
  {
    if actions == [] then []
    else var (s', o) := PipeStep(s, actions[0]); o + Observed(s', actions[1..])
  }

  /** The reference: a first-in first-out server of requests. */
  function Served(waiting: seq<Request>, actions: seq<PipeAction>): seq<Outcome>
    decreases |actions|
  {
    if actions == [] then []
    else match actions[0]
      case Submit(req) => Served(waiting + [req], actions[1..])
      case Finish(_, residual) =>
        if waiting == [] then Served([], actions[1..])
        else [Reply(waiting[0], residual)] + Served(waiting[1..], actions[1..])
  }

  function Requests(live: seq<Live>): seq<Request> {
    seq(|live|, i requires 0 <= i < |live| => live[i].req)
  }

  lemma RequestsGrow(live: seq<Live>, l: Live)
    ensures Requests(live + [l]) == Requests(live) + [l.req]
  {
  }

  lemma RequestsShrink(live: seq<Live>)
    requires live != []
    ensures Requests(live[1..]) == Requests(live)[1..]
  {
  }

  lemma PipeStepKeepsInv(s: PipeState, a: PipeAction)
    requires Inv(s) && LegalAction(s, a)
    ensures var (s', o) := PipeStep(s, a);
            && Inv(s')
            && match a
               case Submit(req) => o == [] && Requests(s'.live) == Requests(s.live) + [req]
               case Finish(_, residual) =>
                 o == [Reply(s.live[0].req, residual)] && Requests(s'.live) == Requests(s.live)[1..]
  {
    InvIsRunnable(s);
    hide Inv, Issue, Complete, Reply, MayIssue, Requests, SlotOf;
    match a {
      case Submit(req) =>
        IssueKeepsInv(s, req);
        RequestsGrow(s.live, Live(req, s.total));
      case Finish(code, residual) =>
        CompletionFindsItsRequest(s, code, residual);
        RequestsShrink(s.live);
    }
  }

  lemma InvIsRunnable(s: PipeState)
    requires Inv(s)
    ensures Runnable(s)
  {
    hide Get, Unique, Used;
    if s.live != [] { assert Matched(s.pipe.dci, s.pipe.table, s.live[0]); }
  }

  /** Whatever is submitted and finished, in any interleaving that respects the two
      limits, the completions match the requests one by one, although slots are reused. */
  lemma {:induction false} RunMatchesRequests(s: PipeState, actions: seq<PipeAction>)
    requires Inv(s) && LegalPipeRun(s, actions)
    ensures Observed(s, actions) == Served(Requests(s.live), actions)
    decreases |actions|
  {
    hide Inv, PipeStep, MayIssue, Reply;
    if actions != [] {
      PipeStepKeepsInv(s, actions[0]);
      assert s.live != [] ==> Requests(s.live)[0] == s.live[0].req;
      RunMatchesRequests(PipeStep(s, actions[0]).0, actions[1..]);
    }
  }

  // ---------------------------------------------------------------- the driver's object

  /** The outcome of looking at a transfer event, before the device acts on it. */
  class TransferEngine {
    const transferRings: array<Ring?>
    const setupStageMap: ArrayMap<TrbPtr, TrbPtr>

    ghost predicate Valid()
      reads this, transferRings, transferRings[..]
    {
      && transferRings.Length == 31
      && setupStageMap.table.Length == MAP_SIZE
      && forall i :: 0 <= i < 31 && transferRings[i] != null ==> transferRings[i].Valid()
    }

    /** `EndpointID::Number`. */
    static function Number(epId: int): int { epId / 2 }

    constructor ()
      ensures Valid() && fresh(transferRings) && fresh(setupStageMap.table)
      ensures forall i :: 0 <= i < 31 ==> transferRings[i] == null
      ensures setupStageMap.table[..] == EmptyTable<TrbPtr, TrbPtr>(MAP_SIZE, TrbPtr(0, 0))
    {
      transferRings := new Ring?[31](i => null);
      setupStageMap := new ArrayMap<TrbPtr, TrbPtr>(MAP_SIZE, TrbPtr(0, 0));
    }

    ghost function PipeAt(dci: nat): Pipe
      requires 1 <= dci <= 31 && Valid() && transferRings[dci - 1] != null
      reads this, transferRings, transferRings[..], setupStageMap.table, transferRings[dci - 1].buf
    {
      Pipe(dci, transferRings[dci - 1].View(), setupStageMap.table[..])
    }

    /** The segments of the rings, in order. */
    ghost function Memory(): (m: seq<array?<Trb>>)
      reads transferRings, transferRings[..]
      ensures |m| == transferRings.Length
      ensures forall i :: 0 <= i < |m| ==> m[i] == if transferRings[i] == null then null else transferRings[i].buf
    {
      seq(transferRings.Length, i requires 0 <= i < transferRings.Length reads transferRings, transferRings[..] =>
        if transferRings[i] == null then null else transferRings[i].buf)
    }

    /** The objects that a control request on context index `dci` writes. */
    ghost function Touched(dci: int): set<object>
      requires Valid()
      reads this, transferRings, transferRings[..]
    {
      if 1 <= dci <= 31 && transferRings[dci - 1] != null then
        {transferRings[dci - 1], transferRings[dci - 1].buf, setupStageMap.table}
      else {}
    }

    /** A new ring of its own for context index `dci`, in memory at `at`. */
    method AllocTransferRing(dci: nat, at: Address) returns (tr: Ring)
      requires Valid() && 1 <= dci <= 31 && at % 64 == 0
      modifies transferRings
      ensures Valid() && transferRings[..] == old(transferRings[..])[dci - 1 := tr]
      ensures fresh(tr) && tr.buf != null && fresh(tr.buf) && Memory() == old(Memory())[dci - 1 := tr.buf]
      ensures PipeAt(dci) == Pipe(dci, EmptyImage(at, RING_SIZE), old(setupStageMap.table[..]))
    {
      hide EmptyImage;
      var block := new Trb[RING_SIZE](i => ZERO_TRB);
      tr := new Ring();
      var _ := tr.Initialize(RING_SIZE, block, at);
      transferRings[dci - 1] := tr;
    }

    /** ControlIn and ControlOut differ in the direction only. Address 0 would name no
        device context. */
    method Control(epId: int, req: Request) returns (err: Error)
      requires Valid() && epId != 0
      modifies Touched(epId)
      ensures Valid()
      ensures Number(epId) < 0 || 15 < Number(epId) ==> err == InvalidEndpointNumber
      ensures 0 <= Number(epId) <= 15 && transferRings[epId - 1] == null ==> err == TransferRingNotSet
      ensures 0 <= Number(epId) <= 15 && transferRings[epId - 1] != null ==>
                err == Success && PipeAt(epId) == Issue(old(PipeAt(epId)), req)
      ensures err == Success && |old(PipeAt(epId)).ring.mem| >= 5 ==>
                RequestOnRing(old(PipeAt(epId)), PipeAt(epId), req)
      ensures Memory() == old(Memory())
    {
      hide PushImage, SetupOf, EventOf, StatusStage, Put, RequestOnRing;
      if Number(epId) < 0 || 15 < Number(epId) {
        return InvalidEndpointNumber;
      }
      var tr := transferRings[epId - 1];
      if tr == null {
        return TransferRingNotSet;
      }
      ghost var was := PipeAt(epId);
      var setupSlot, eventSlot := PushStages(tr, req);
      setupStageMap.Insert(TrbPtr(epId, eventSlot), TrbPtr(epId, setupSlot));
      if |was.ring.mem| >= 5 { IssueIsRequestOnRing(was, req); }
      return Success;
    }

    static method PushStages(tr: Ring, req: Request) returns (setupSlot: nat, eventSlot: nat)
      requires tr.Valid()
      modifies tr, tr.buf
      ensures tr.Valid() && tr.buf == old(tr.buf)
      ensures setupSlot == old(tr.View()).index
      ensures var r1 := PushImage(old(tr.View()), SetupOf(req));
              var r2 := PushImage(r1, EventOf(req));
              && eventSlot == r1.index
              && tr.View() == if req.buf.Some? then PushImage(r2, StatusStage(!req.dirIn, false)) else r2
    {
      hide PushImage, SetupOf, EventOf, StatusStage;
      setupSlot := tr.Push(SetupOf(req));
      eventSlot := tr.Push(EventOf(req));
      if req.buf.Some? {
        var _ := tr.Push(StatusStage(!req.dirIn, false));
      }
    }

    method InterruptIn(epId: int, b: Buffer) returns (err: Error)
      requires Valid() && 1 <= epId <= 31
      modifies Touched(epId) - {setupStageMap.table}
      ensures Valid() && Memory() == old(Memory())
      ensures transferRings[epId - 1] == null ==> err == TransferRingNotSet
      ensures transferRings[epId - 1] != null ==>
                && err == Success
                && PipeAt(epId) == old(PipeAt(epId)).(ring := PushImage(old(PipeAt(epId)).ring, NormalTrb(b)))
    {
      var tr := transferRings[epId - 1];
      if tr == null {
        return TransferRingNotSet;
      }
      var _ := tr.Push(NormalTrb(b));
      return Success;
    }

    /** `dci` and `slot` are the TRB pointer of the event. */
    method OnTransferEventReceived(dci: nat, slot: nat, code: nat, residual: nat) returns (o: Outcome)
      requires Valid() && 1 <= dci <= 31 && transferRings[dci - 1] != null
      requires slot < transferRings[dci - 1].bufSize
      requires var e := Get(setupStageMap.table[..], TrbPtr(dci, slot));
               e.Some? ==> e.value.dci == dci && e.value.slot < transferRings[dci - 1].bufSize
      modifies setupStageMap.table
      ensures Valid()
      ensures (PipeAt(dci), o) == Complete(old(PipeAt(dci)), slot, code, residual)
    {
      ghost var p := PipeAt(dci);
      if code != CODE_SUCCESS && code != CODE_SHORT_PACKET {
        return Failed(TransferFailed);
      }
      var mem := transferRings[dci - 1].buf;
      var issuer := mem[slot];
      if issuer.Type() == NORMAL_TYPE {
        return InterruptCompleted(DataPointer(issuer), TransferLength(issuer) - residual);
      }
      var entry := setupStageMap.Lookup(TrbPtr(dci, slot));
      if entry.None? {
        return Failed(NoCorrespondingSetupStage);
      }
      setupStageMap.Remove(TrbPtr(dci, slot));
      var setup := DecodeSetup(mem[entry.value.slot]);
      if issuer.Type() == DATA_STAGE_TYPE {
        return ControlCompleted(setup, Some(DataPointer(issuer)), TransferLength(issuer) - residual);
      } else if issuer.Type() == STATUS_STAGE_TYPE {
        return ControlCompleted(setup, None, 0);
      } else {
        return Failed(NotImplemented);
      }
    }
  }
}
