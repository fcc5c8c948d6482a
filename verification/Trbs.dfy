/** Transfer Request Blocks as the controller sees them: four 32-bit words in
    memory. Word 3 is kept as its bit 0, the cycle bit, and its upper 31 bits, since
    every producer replaces the one and keeps the other. */
module Trbs {
  import Bits

  const TWO_32: int := 0x1_0000_0000
  const TWO_64: int := 0x1_0000_0000_0000_0000

  type Byte = b: int | 0 <= b < 0x100
  type Half = h: int | 0 <= h < 0x1_0000

  /** A 32-bit word. */
  type Word = w: int | 0 <= w < TWO_32

  /** An address (`uintptr_t`). */
  type Address = a: int | 0 <= a < TWO_64

  /** Word 3 of a TRB: `control` is bits 1 to 31, `cycle` is bit 0. */
  datatype Word3 = Word3(control: nat, cycle: bool) {
    /** The whole word. */
    function Number(): nat { 2 * control + if cycle then 1 else 0 }
  }

  /** The `width` bits of a word from bit `low` on, for a field of which both are given as powers of
      two. */
  function Field(w: nat, low: nat, width: nat): nat
    requires low > 0 && width > 0
  {
    w / low % width
  }

  const TRB_BYTES := 16

  const NORMAL_TYPE := 1
  const SETUP_STAGE_TYPE := 2
  const DATA_STAGE_TYPE := 3
  const STATUS_STAGE_TYPE := 4
  const LINK_TYPE := 6
  const ENABLE_SLOT_TYPE := 9
  const ADDRESS_DEVICE_TYPE := 11
  const CONFIGURE_ENDPOINT_TYPE := 12
  const TRANSFER_EVENT_TYPE := 32
  const COMMAND_COMPLETION_TYPE := 33
  const PORT_STATUS_CHANGE_TYPE := 34

  datatype Trb = Trb(w0: Word, w1: Word, w2: Word, w3: Word3) {

    function Get(i: nat): Word
      requires i < 3
    {
      if i == 0 then w0 else if i == 1 then w1 else w2
    }

    function Set(i: nat, w: Word): Trb
      requires i < 3
    {
      if i == 0 then this.(w0 := w) else if i == 1 then this.(w1 := w) else this.(w2 := w)
    }

    predicate Cycle() { w3.cycle }

    /** Bits 10 to 15 of word 3. */
    function Type(): nat { w3.control / 512 % 64 }

    /** Bit 1 of word 3 of a Link TRB. */
    predicate ToggleCycle() { w3.control % 2 == 1 }

    /** The segment that a Link TRB points at: the low four bits are not kept. */
    function SegmentPointer(): int { w1 * TWO_32 + w0 / 16 * 16 }

    /** This TRB with its cycle bit replaced, as a producer stores it. */
    function Stamp(cycle: bool): Trb { this.(w3 := Word3(w3.control, cycle)) }

    /** The TRB without its cycle bit: what the producer and the consumer exchange. */
    function Payload(): Trb { Stamp(false) }

    /** The first `k` words agree with those of `t`. */
    predicate AgreesUpTo(t: Trb, k: nat) {
      && (0 < k ==> w0 == t.w0)
      && (1 < k ==> w1 == t.w1)
      && (2 < k ==> w2 == t.w2)
    }
  }

  lemma AppendAssoc(x: seq<Trb>, y: seq<Trb>, z: seq<Trb>)
    ensures (x + y) + z == x + (y + z)
  {
  }

  const ZERO_TRB := Trb(0, 0, 0, Word3(0, false))

  /** The Link TRB that closes a ring whose segment starts at `base`: type 6 with
      the toggle bit set. */
  function LinkTrb(base: Address): Trb {
    Trb(base / 16 * 16 % TWO_32, base / TWO_32, 0, Word3(LINK_TYPE * 512 + 1, false))
  }

  /** A Link TRB sends the consumer back to the 16-byte aligned address it was
      built from, and asks it to toggle. */
  lemma LinkTrbRoundTrip(base: Address, cycle: bool)
    requires base % 16 == 0
    ensures LinkTrb(base).Stamp(cycle).SegmentPointer() == base
    ensures LinkTrb(base).Stamp(cycle).Type() == LINK_TYPE
    ensures LinkTrb(base).Stamp(cycle).ToggleCycle()
  {
    PointerWords(base);
  }

  lemma AlignedTo16(at: Address)
    requires at % 64 == 0
    ensures at % 16 == 0
  {
    Bits.DivMod(at, 64);
    Bits.DivModUnique(at, 16, 4 * (at / 64), 0);
  }

  /** An address without its low four bits survives being cut into two words. */
  lemma PointerWords(p: Address)
    ensures 0 <= p / 16 * 16 <= p && p / TWO_32 < TWO_32
    ensures p / TWO_32 * TWO_32 + p / 16 * 16 % TWO_32 / 16 * 16 == p / 16 * 16
  {
    var (high, low) := (p / TWO_32, p % TWO_32);
    var (m, r) := (low / 16, low % 16);
    Bits.DivMod(p, TWO_32);
    Bits.DivMod(low, 16);
    Bits.DivModUnique(p, 16, 0x1000_0000 * high + m, r);
    Bits.DivModUnique(p / 16 * 16, TWO_32, high, 16 * m);
    Bits.DivModUnique(16 * m, 16, m, 0);
  }
}
