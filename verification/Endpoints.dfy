/** Endpoint contexts: what the Configure Endpoint command and the Address Device command hand
    to the controller, and the transfer rings that the contexts name. */
module Endpoints {
  import opened Bits
  import opened Descriptors
  import opened Errors
  import opened Speeds
  import opened Trbs
  import TrbRing

  const CONTEXTS := 31

  /** The device context index of an endpoint: its number and direction. */
  function Dci(c: EndpointConfig): nat { 2 * c.number + if c.isIn then 1 else 0 }

  /** The fields of an endpoint context that the driver writes. `dequeue` is the ring's address
      without its low four bits. */
  datatype EndpointContext = EndpointContext(
    epType: nat, maxPacketSize: nat, interval: nat, averageTrbLength: nat,
    dequeue: nat, cycleState: bool, errorCount: nat)

  const BLANK := EndpointContext(0, 0, 0, 0, 0, false, 0)

  /** `TransferRingBuffer` after `SetTransferRingBuffer`. */
  function RingPointer(c: EndpointContext): nat { c.dequeue * 16 }

  /** The index of the highest set bit, by the instruction that scans from the top. */
  function MostSignificantBit(v: nat): (r: int)
    ensures v == 0 <==> r == -1
    ensures v > 0 ==> r >= 0 && Pow2(r) <= v < Pow2(r + 1)
  {
    if v == 0 then -1 else if v == 1 then 0 else 1 + MostSignificantBit(v / 2)
  }

  function ConvertInterval(speed: nat, kind: nat, interval: nat): int {
    if speed == FULL_SPEED || speed == LOW_SPEED then
      if kind == ISOCHRONOUS then interval + 2 else MostSignificantBit(interval) + 3
    else interval - 1
  }

  /** The eight-bit field that the converted interval is stored in. */
  function IntervalField(speed: nat, kind: nat, interval: nat): nat {
    ConvertInterval(speed, kind, interval) % 256
  }

  /** The polling period that a descriptor asks for, in units of 125 microseconds: section
      9.6.6 of the USB 2.0 specification, where a frame has eight such units. */
  function Period(speed: nat, kind: nat, interval: nat): nat
    requires interval > 0
  {
    if speed == FULL_SPEED || speed == LOW_SPEED then
      if kind == ISOCHRONOUS then 8 * Pow2(interval - 1) else 8 * interval
    else Pow2(interval - 1)
  }

  /** The context asks for the longest power-of-two period that is not longer than the one the
      descriptor asks for, and for exactly that one where it is a power of two by definition. */
  lemma IntervalIsThePeriod(speed: nat, kind: nat, interval: nat)
    requires 1 <= speed <= SUPER_SPEED_PLUS && 1 <= interval <= 255
    ensures var i := ConvertInterval(speed, kind, interval);
            && i >= 0
            && Pow2(i) <= Period(speed, kind, interval) < Pow2(i + 1)
            && (speed >= HIGH_SPEED || kind == ISOCHRONOUS ==> Pow2(i) == Period(speed, kind, interval))
  {
    if speed < HIGH_SPEED && kind == ISOCHRONOUS {
      EightTimes(interval - 1);
    } else if speed < HIGH_SPEED {
      FramesToUnits(interval);
    }
  }

  /** The eight-bit field holds the converted interval for every byte of a descriptor but in two
      families of cases: an isochronous interval of 254 or 255 below high speed, which is too
      large, and the interval 0 from high speed on, which is converted to -1. */
  lemma IntervalFieldHoldsExactlyWhen(speed: nat, kind: nat, interval: nat)
    requires 1 <= speed <= SUPER_SPEED_PLUS && interval <= 255
    ensures IntervalField(speed, kind, interval) == ConvertInterval(speed, kind, interval) <==>
              && !(speed < HIGH_SPEED && kind == ISOCHRONOUS && interval >= 254)
              && !(speed >= HIGH_SPEED && interval == 0)
  {
    if speed < HIGH_SPEED && kind != ISOCHRONOUS && interval > 0 {
      FramesToUnits(interval);
    }
  }

  /** A bulk endpoint at high speed may have the interval 0: its field becomes 255. */
  lemma IntervalZeroBecomes255()
    ensures ConvertInterval(HIGH_SPEED, BULK, 0) == -1 && IntervalField(HIGH_SPEED, BULK, 0) == 255
  {
  }

  /** The scan of the interval in frames gives the interval in units of an eighth frame. */
  lemma FramesToUnits(interval: nat)
    requires 1 <= interval <= 255
    ensures var i := MostSignificantBit(interval) + 3;
            3 <= i <= 10 && Pow2(i) <= 8 * interval < Pow2(i + 1)
  {
    var b := MostSignificantBit(interval);
    EightTimes(b);
    EightTimes(b + 1);
    if b >= 8 {
      EightTimes(5);
      EightTimes(2);
      Pow2Monotone(8, b);
    }
    hide MostSignificantBit;
  }

  lemma EightTimes(k: nat)
    ensures Pow2(k + 3) == 8 * Pow2(k)
  {
    assert Pow2(k + 3) == 2 * Pow2(k + 2) == 4 * Pow2(k + 1);
  }

  function EpType(kind: nat, isIn: bool): nat {
    if kind == CONTROL then 4
    else if kind == ISOCHRONOUS then if isIn then 5 else 1
    else if kind == BULK then if isIn then 6 else 2
    else if isIn then 7 else 3
  }

  /** The context that describes endpoint `c` with its ring at `at`. */
  function ContextFor(c: EndpointConfig, speed: nat, at: Address): EndpointContext {
    EndpointContext(EpType(c.kind, c.isIn), c.maxPacketSize % 0x1_0000,
                    IntervalField(speed, c.kind, c.interval), 1, at / 16, true, 3)
  }

  /** Section 6.2.3 of the xHCI specification: the low two bits of a non-control endpoint's
      type are its transfer type, and bit 2 says whether it is an IN endpoint. */
  lemma EpTypeSplits(kind: nat, isIn: bool)
    requires 1 <= kind <= 3
    ensures EpType(kind, isIn) % 4 == kind
    ensures EpType(kind, isIn) / 4 == 1 <==> isIn
  {
  }

  function MaxPacketSizeForControlPipe(speed: nat): nat {
    if speed == SUPER_SPEED then 512 else if speed == HIGH_SPEED then 64 else 8
  }

  /** The add flags that enabling the slot context and then these endpoints in turn leaves. */
  function AddFlags(configs: seq<EndpointConfig>): nat {
    if configs == [] then Or(0, 1) else Or(AddFlags(configs[..|configs| - 1]), Pow2(Dci(configs[|configs| - 1])))
  }

  lemma AddFlagsStart()
    ensures AddFlags([]) == Or(0, 1)
  {
  }

  lemma AddFlagsStep(configs: seq<EndpointConfig>, i: nat)
    requires i < |configs|
    ensures AddFlags(configs[..i + 1]) == Or(AddFlags(configs[..i]), Pow2(Dci(configs[i])))
  {
    assert configs[..i + 1][..i] == configs[..i];
  }

  /** The add flags are exactly bit 0 and one bit for the index of every endpoint. */
  lemma {:induction false} AddFlagsAreExact(configs: seq<EndpointConfig>, k: nat)
    ensures Bit(AddFlags(configs), k) <==> k == 0 || exists i :: 0 <= i < |configs| && Dci(configs[i]) == k
  {
    if configs == [] {
      OrBits(0, 1, k);
      NoBits(k);
      assert Pow2(0) == 1;
      Pow2Bits(0, k);
    } else {
      var n := |configs| - 1;
      AddFlagsAreExact(configs[..n], k);
      OrBits(AddFlags(configs[..n]), Pow2(Dci(configs[n])), k);
      Pow2Bits(Dci(configs[n]), k);
      if i :| 0 <= i < n && configs[..n][i] == configs[i] && Dci(configs[i]) == k {
        assert Dci(configs[..n][i]) == k;
      }
    }
  }

  /** The index has its own bit, so no two endpoints of different addresses share a context. */
  lemma DciIsTheAddress(c: EndpointConfig, d: EndpointConfig)
    ensures Dci(c) == Dci(d) <==> c.number == d.number && c.isIn == d.isIn
    ensures 1 <= c.number <= 15 ==> 2 <= Dci(c) <= CONTEXTS
  {
  }

  /** A fresh ring and the context that names it agree: the hardware starts in slot 0 of the
      segment with the driver's own cycle state, which is where the two ends of a ring start. */
  lemma ContextStartsTheRing(c: EndpointConfig, speed: nat, at: Address, image: TrbRing.Image)
    requires image == TrbRing.EmptyImage(at, TrbRing.RING_SIZE) && at % 64 == 0
    ensures var e := ContextFor(c, speed, at);
            && RingPointer(e) == at && e.cycleState == image.cycle
            && var s := TrbRing.State(image, TrbRing.Ready, (RingPointer(e) - at) / TRB_BYTES, e.cycleState,
                                      TrbRing.Polling, [], []);
               s == TrbRing.Start(at, TrbRing.RING_SIZE) && TrbRing.Inv(s)
  {
    hide TrbRing.Inv;
    Aligned(at);
    TrbRing.StartInv(at, TrbRing.RING_SIZE);
  }

  lemma Aligned(at: Address)
    requires at % 64 == 0
    ensures at / 16 * 16 == at && at % 16 == 0
  {
    AlignedTo16(at);
    DivMod(at, 16);
  }

  /** The endpoint type field: section 6.2.3 of the xHCI specification numbers the OUT types from 1, the
      control type 4, and the IN types from 5. */
  predicate TypeField(t: nat, kind: nat, isIn: bool) {
    t == match kind
         case 0 => 4
         case 1 => if isIn then 5 else 1
         case 2 => if isIn then 6 else 2
         case _ => if isIn then 7 else 3
  }

  /** The interval field, as a power of two of 125 microseconds: below high speed from frames, except
      that isochronous intervals are powers of two already. */
  predicate IntervalBits(f: nat, speed: nat, kind: nat, interval: nat) {
    if speed >= 3 then f == (interval + 255) % 256
    else if kind == 1 then f == (interval + 2) % 256
    else if interval == 0 then f == 2
    else f >= 3 && Pow2(f - 3) <= interval < Pow2(f - 2)
  }

  /** What the context of an endpoint says, field by field. */
  predicate Describes(e: EndpointContext, c: EndpointConfig, speed: nat, at: Address) {
    && TypeField(e.epType, c.kind, c.isIn)
    && (c.maxPacketSize < 0x1_0000 ==> e.maxPacketSize == c.maxPacketSize)
    && (c.interval <= 255 ==> IntervalBits(e.interval, speed, c.kind, c.interval))
    && e.averageTrbLength == 1 && e.dequeue * 16 == at && e.cycleState && e.errorCount == 3
  }

  lemma ContextDescribes(c: EndpointConfig, speed: nat, at: Address)
    requires 1 <= speed <= SUPER_SPEED_PLUS && at % 64 == 0
    ensures Describes(ContextFor(c, speed, at), c, speed, at)
  {
    hide IntervalBits, IntervalField;
    Aligned(at);
    if c.interval <= 255 { FieldIsIntervalBits(speed, c.kind, c.interval); }
  }

  lemma FieldIsIntervalBits(speed: nat, kind: nat, interval: nat)
    requires 1 <= speed <= SUPER_SPEED_PLUS && interval <= 255
    ensures IntervalBits(IntervalField(speed, kind, interval), speed, kind, interval)
  {
    hide IntervalField, ConvertInterval, MostSignificantBit, Pow2;
    FieldIs(speed, kind, interval);
    if speed >= HIGH_SPEED {
      OneLess(interval);
    } else if kind != ISOCHRONOUS && interval > 0 {
      FrameBits(interval);
    }
  }

  lemma FieldIs(speed: nat, kind: nat, interval: nat)
    requires 1 <= speed <= SUPER_SPEED_PLUS
    ensures IntervalField(speed, kind, interval)
         == if speed >= HIGH_SPEED then (interval - 1) % 256
            else if kind == ISOCHRONOUS then (interval + 2) % 256
            else if interval == 0 then 2 else (MostSignificantBit(interval) + 3) % 256
  {
    hide Pow2;
    if interval == 0 { SmallModulo(2); }
  }

  lemma OneLess(interval: nat)
    requires interval <= 255
    ensures (interval - 1) % 256 == (interval + 255) % 256
  {
    if interval == 0 { assert -1 == 256 * -1 + 255; } else { DivModUnique(interval + 255, 256, 1, interval - 1); }
  }

  lemma FrameBits(interval: nat)
    requires 1 <= interval <= 255
    ensures var f := (MostSignificantBit(interval) + 3) % 256;
            f >= 3 && Pow2(f - 3) <= interval < Pow2(f - 2)
  {
    FramesToUnits(interval);
    SmallModulo(MostSignificantBit(interval) + 3);
    hide Pow2;
    var b := MostSignificantBit(interval);
    hide MostSignificantBit;
  }

  lemma SmallModulo(n: nat)
    requires n < 256
    ensures n % 256 == n
  {
  }

  /** The packet size of the default control pipe: 512 bytes at super speed, 64 at high speed, 8 at every
      other. */
  lemma ControlPacketSize(speed: nat)
    ensures speed == 4 ==> MaxPacketSizeForControlPipe(speed) == 512
    ensures speed == 3 ==> MaxPacketSizeForControlPipe(speed) == 64
    ensures speed != 3 && speed != 4 ==> MaxPacketSizeForControlPipe(speed) == 8
  {
  }

  /** The input context of a device and its transfer rings. */
  class DeviceContexts {
    var addFlags: nat
    var contextEntries: nat
    const contexts: array<EndpointContext>
    const transferRings: array<TrbRing.Ring?>

    /** `rings` is the device's table of transfer rings, which the contexts name. */
    constructor (rings: array<TrbRing.Ring?>)
      requires rings.Length == CONTEXTS
      ensures Valid() && fresh(contexts) && transferRings == rings
    {
      addFlags, contextEntries := 0, 0;
      contexts := new EndpointContext[CONTEXTS](i => BLANK);
      transferRings := rings;
    }

    ghost predicate Valid()
    {
      contexts.Length == transferRings.Length == CONTEXTS
    }

    method EnableSlotContext()
      modifies this`addFlags
      ensures addFlags == Or(old(addFlags), 1)
    {
      addFlags := Or(addFlags, 1);
    }

    method EnableEndpoint(dci: nat)
      modifies this`addFlags
      ensures addFlags == Or(old(addFlags), Pow2(dci))
    {
      addFlags := Or(addFlags, Pow2(dci));
    }

    /** `block` and `at` are the memory that the allocations bring. */
    method AllocTransferRing(dci: nat, block: array<Trb>, at: Address) returns (tr: TrbRing.Ring)
      requires Valid() && 1 <= dci <= CONTEXTS && block.Length == TrbRing.RING_SIZE && at % 64 == 0
      modifies transferRings, block
      ensures fresh(tr) && tr.Valid() && tr.buf == block && tr.address == at
      ensures tr.View() == TrbRing.EmptyImage(at, TrbRing.RING_SIZE)
      ensures transferRings[..] == old(transferRings[..])[dci - 1 := tr]
    {
      tr := new TrbRing.Ring();
      var _ := tr.Initialize(TrbRing.RING_SIZE, block, at);
      transferRings[dci - 1] := tr;
    }

    /** The contexts of an Address Device command: bits 0 and 1, and the default control pipe. */
    method InitializeControlPipe(speed: nat, block: array<Trb>, at: Address) returns (tr: TrbRing.Ring)
      requires Valid() && block.Length == TrbRing.RING_SIZE && at % 64 == 0
      modifies this, contexts, transferRings, block
      ensures forall k: nat :: Bit(addFlags, k) <==> k <= 1
      ensures contexts[0] == EndpointContext(4, MaxPacketSizeForControlPipe(speed), 0, old(contexts[0]).averageTrbLength, at / 16, true, 3)
      ensures contexts[1..] == old(contexts[1..])
      ensures fresh(tr) && Starts(tr, block, at)
      ensures transferRings[..] == old(transferRings[..])[0 := tr]
    {
      addFlags := 0;
      EnableSlotContext();
      EnableEndpoint(1);
      contextEntries := 1;
      tr := AllocTransferRing(1, block, at);
      contexts[0] := EndpointContext(4, MaxPacketSizeForControlPipe(speed), 0, contexts[0].averageTrbLength,
                                     at / 16, true, 3);
      forall k: nat ensures Bit(addFlags, k) <==> k <= 1 {
        OrBits(Or(0, 1), Pow2(1), k);
        OrBits(0, 1, k);
        NoBits(k);
        assert Pow2(0) == 1;
        Pow2Bits(0, k);
        Pow2Bits(1, k);
      }
    }

    /** One endpoint gets its bit, its context and a ring of its own. */
    method ConfigureEndpoint(c: EndpointConfig, speed: nat, block: array<Trb>, at: Address) returns (tr: TrbRing.Ring)
      requires Valid() && 1 <= Dci(c) <= CONTEXTS && block.Length == TrbRing.RING_SIZE && at % 64 == 0
      modifies this`addFlags, contexts, transferRings, block
      ensures addFlags == Or(old(addFlags), Pow2(Dci(c)))
      ensures contexts[..] == old(contexts[..])[Dci(c) - 1 := ContextFor(c, speed, at)]
      ensures transferRings[..] == old(transferRings[..])[Dci(c) - 1 := tr]
      ensures fresh(tr) && Starts(tr, block, at)
    {
      var dci := Dci(c);
      EnableEndpoint(dci);
      tr := AllocTransferRing(dci, block, at);
      contexts[dci - 1] := ContextFor(c, speed, at);
    }

    /** Every endpoint gets its bit, its context and a ring of its own; `rings` are those. */
    method ConfigureEndpoints(configs: seq<EndpointConfig>, speed: nat, blocks: seq<array<Trb>>, at: seq<Address>)
        returns (err: Error, ghost rings: seq<TrbRing.Ring>)
      requires Valid() && |configs| == |blocks| == |at|
      requires forall i :: 0 <= i < |configs| ==> 1 <= Dci(configs[i]) <= CONTEXTS
      requires forall i, j :: 0 <= i < j < |configs| ==> Dci(configs[i]) != Dci(configs[j])
      requires forall i :: 0 <= i < |blocks| ==> blocks[i].Length == TrbRing.RING_SIZE && at[i] % 64 == 0
      requires forall i, j :: 0 <= i < j < |blocks| ==> blocks[i] != blocks[j]
      modifies this, contexts, transferRings, set b | b in blocks
      ensures contextEntries == 31
      ensures err == if speed == 0 || speed > SUPER_SPEED_PLUS then UnknownXhciSpeedId else Success
      ensures err != Success ==>
                addFlags == AddFlags([]) && contexts[..] == old(contexts[..]) && transferRings[..] == old(transferRings[..])
      ensures err == Success ==> addFlags == AddFlags(configs) && |rings| == |configs|
      ensures err == Success ==>
                Laid(contexts[..], transferRings[..], configs, speed, at, rings)
                && Kept(contexts[..], transferRings[..], old(contexts[..]), old(transferRings[..]), configs)
      ensures err == Success ==> forall i :: 0 <= i < |configs| ==>
                Describes(contexts[2 * configs[i].number + (if configs[i].isIn then 1 else 0) - 1], configs[i], speed, at[i])
      ensures err == Success ==> forall i :: 0 <= i < |configs| ==> fresh(rings[i]) && Starts(rings[i], blocks[i], at[i])
      ensures err == Success ==> forall i, j :: 0 <= i < j < |configs| ==> rings[i] != rings[j]
    {
      hide Starts, ContextFor, AddFlags, Or, Pow2, Laid, Kept, Describes;
      AddFlagsStart();
      rings := [];
      addFlags := 0;
      EnableSlotContext();
      contextEntries := 31;
      if speed == 0 || speed > SUPER_SPEED_PLUS {
        return UnknownXhciSpeedId, [];
      }
      NothingLaid(contexts[..], transferRings[..], speed);
      var i := 0;
      while i < |configs|
        invariant i == |rings| <= |configs| && contextEntries == 31
        invariant addFlags == AddFlags(configs[..i])
        invariant Laid(contexts[..], transferRings[..], configs[..i], speed, at[..i], rings)
        invariant Kept(contexts[..], transferRings[..], old(contexts[..]), old(transferRings[..]), configs[..i])
        invariant forall j :: 0 <= j < i ==> fresh(rings[j]) && Starts(rings[j], blocks[j], at[j])
        invariant forall j, k :: 0 <= j < k < i ==> rings[j] != rings[k]
      {
        AddFlagsStep(configs, i);
        ghost var was, wasRings := contexts[..], transferRings[..];
        var tr := ConfigureEndpoint(configs[i], speed, blocks[i], at[i]);
        LayOne(was, wasRings, configs, speed, at, rings, i, tr);
        KeepOne(was, wasRings, old(contexts[..]), old(transferRings[..]), configs, i, ContextFor(configs[i], speed, at[i]), tr);
        rings := rings + [tr];
        i := i + 1;
      }
      assert configs[..i] == configs && at[..i] == at;
      LaidDescribes(contexts[..], transferRings[..], configs, speed, at, rings);
      return Success, rings;
    }
  }

  /** Each endpoint's context describes that endpoint and names its own ring. */
  ghost predicate Laid(contexts: seq<EndpointContext>, transferRings: seq<TrbRing.Ring?>,
                 configs: seq<EndpointConfig>, speed: nat, at: seq<Address>, rings: seq<TrbRing.Ring>)
  {
    && |contexts| == |transferRings| == CONTEXTS && |configs| == |at| == |rings|
    && forall i :: 0 <= i < |configs| ==>
         && 1 <= Dci(configs[i]) <= CONTEXTS
         && contexts[Dci(configs[i]) - 1] == ContextFor(configs[i], speed, at[i])
         && transferRings[Dci(configs[i]) - 1] == rings[i]
  }

  lemma LaidDescribes(contexts: seq<EndpointContext>, transferRings: seq<TrbRing.Ring?>,
                      configs: seq<EndpointConfig>, speed: nat, at: seq<Address>, rings: seq<TrbRing.Ring>)
    requires Laid(contexts, transferRings, configs, speed, at, rings) && 1 <= speed <= SUPER_SPEED_PLUS
    requires forall i :: 0 <= i < |at| ==> at[i] % 64 == 0
    ensures |contexts| == CONTEXTS
    ensures forall i :: 0 <= i < |configs| ==>
              var k := 2 * configs[i].number + (if configs[i].isIn then 1 else 0) - 1;
              0 <= k < CONTEXTS && Describes(contexts[k], configs[i], speed, at[i])
  {
    hide ContextFor, Describes;
    forall i | 0 <= i < |configs|
      ensures var k := 2 * configs[i].number + (if configs[i].isIn then 1 else 0) - 1;
              0 <= k < CONTEXTS && Describes(contexts[k], configs[i], speed, at[i])
    {
      ContextDescribes(configs[i], speed, at[i]);
      assert contexts[Dci(configs[i]) - 1] == ContextFor(configs[i], speed, at[i]);
    }
  }

  predicate Unused(configs: seq<EndpointConfig>, k: nat) {
    forall i :: 0 <= i < |configs| ==> Dci(configs[i]) != k + 1
  }

  /** The entries of no endpoint are as before. */
  ghost predicate Kept(contexts: seq<EndpointContext>, transferRings: seq<TrbRing.Ring?>,
                 oldContexts: seq<EndpointContext>, oldRings: seq<TrbRing.Ring?>, configs: seq<EndpointConfig>)
  {
    && |contexts| == |transferRings| == |oldContexts| == |oldRings| == CONTEXTS
    && forall k :: 0 <= k < CONTEXTS && Unused(configs, k) ==>
         contexts[k] == oldContexts[k] && transferRings[k] == oldRings[k]
  }

  lemma NothingLaid(contexts: seq<EndpointContext>, transferRings: seq<TrbRing.Ring?>, speed: nat)
    requires |contexts| == |transferRings| == CONTEXTS
    ensures Laid(contexts, transferRings, [], speed, [], [])
    ensures Kept(contexts, transferRings, contexts, transferRings, [])
  {
  }

  lemma LayOne(contexts: seq<EndpointContext>, transferRings: seq<TrbRing.Ring?>, configs: seq<EndpointConfig>,
               speed: nat, at: seq<Address>, rings: seq<TrbRing.Ring>, i: nat, tr: TrbRing.Ring)
    requires i < |configs| == |at| && Laid(contexts, transferRings, configs[..i], speed, at[..i], rings)
    requires 1 <= Dci(configs[i]) <= CONTEXTS
    requires forall j :: 0 <= j < i ==> Dci(configs[j]) != Dci(configs[i])
    ensures Laid(contexts[Dci(configs[i]) - 1 := ContextFor(configs[i], speed, at[i])],
                 transferRings[Dci(configs[i]) - 1 := tr], configs[..i + 1], speed, at[..i + 1], rings + [tr])
  {
    assert forall j :: 0 <= j < i ==> configs[..i][j] == configs[j];
    hide ContextFor;
  }

  lemma KeepOne(contexts: seq<EndpointContext>, transferRings: seq<TrbRing.Ring?>,
                oldContexts: seq<EndpointContext>, oldRings: seq<TrbRing.Ring?>, configs: seq<EndpointConfig>,
                i: nat, c: EndpointContext, tr: TrbRing.Ring)
    requires i < |configs| && Kept(contexts, transferRings, oldContexts, oldRings, configs[..i])
    requires 1 <= Dci(configs[i]) <= CONTEXTS
    ensures Kept(contexts[Dci(configs[i]) - 1 := c], transferRings[Dci(configs[i]) - 1 := tr],
                 oldContexts, oldRings, configs[..i + 1])
  {
    assert configs[..i + 1][i] == configs[i];
    forall k | 0 <= k < CONTEXTS && Unused(configs[..i + 1], k) ensures Unused(configs[..i], k) {
      assert forall j :: 0 <= j < i ==> configs[..i][j] == configs[..i + 1][j];
    }
  }

  /** The ring lies in this block at this address, is empty, and is at slot 0 with cycle 1. */
  ghost predicate Starts(tr: TrbRing.Ring, block: array<Trb>, at: Address)
    reads tr, block
  {
    tr.buf == block && tr.Valid() && tr.View() == TrbRing.EmptyImage(at, TrbRing.RING_SIZE)
  }
}
