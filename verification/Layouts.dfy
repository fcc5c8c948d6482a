/** The formats that the driver shares with controllers and devices, stated on bytes and words alone:
    requests and descriptors of the USB 2.0 specification, sections 9.3 to 9.6, the HID class, and
    TRBs of section 6.4 of the xHCI specification. */
module Layouts {
  import opened ArrayMaps
  import opened Bits
  import opened CommandRings
  import opened ControlPipes
  import opened Descriptors
  import opened Enumeration
  import opened Errors
  import EventRings
  import opened Trbs
  import opened UsbDevices

  // ---------------------------------------------------------------- requests

  function Low(n: Half): Byte { var m: int := n; m % 0x100 }

  function High(n: Half): Byte { var m: int := n; m / 0x100 }

  /** The eight bytes of a setup packet. */
  function SetupBytes(s: SetupData): seq<Byte> {
    [s.requestType, s.request, Low(s.value), High(s.value), Low(s.index), High(s.index), Low(s.length), High(s.length)]
  }

  /** The four requests of the driver, byte by byte: the descriptors are read into the device's buffer of
      256 bytes, and the other two have no data. */
  lemma RequestBytes(kind: Byte, buffer: Address, value: Byte, driver: ClassDriver)
    ensures var r := GetDescriptorRequest(kind, buffer);
            SetupBytes(r.setup) == [0x80, 6, 0, kind, 0, 0, 0, 1] && r.dirIn && r.buf == Some(Buffer(buffer, 256))
    ensures var r := SetConfigurationRequest(value);
            SetupBytes(r.setup) == [0, 9, value, 0, 0, 0, 0, 0] && r.buf == None
    ensures var r := SetProtocolRequest(driver);
            SetupBytes(r.setup) == [0x21, 11, 0, 0, driver.interfaceNumber, 0, 0, 0] && r.buf == None
  {
  }

  // ---------------------------------------------------------------- descriptors

  /** An endpoint descriptor of seven bytes or more: the address byte holds number and direction, the
      attributes the transfer type in their low two bits, and then come the packet size, low byte
      first, and the interval. Reserved bits do not matter. */
  lemma EndpointBytes(d: Descriptor, number: Byte, reserved: Byte, isIn: bool, kind: Byte, attributes: Byte,
                      packet: Half, interval: Byte)
    requires number < 16 && reserved < 8 && kind < 4 && attributes < 64
    requires |d| >= 7 && d[1] == 5
    requires var (n: int, r: int) := (number, reserved); d[2] == n + 16 * r + if isIn then 0x80 else 0
    requires var (k: int, a: int) := (kind, attributes); d[3] == k + 4 * a
    requires d[4] == Low(packet) && d[5] == High(packet) && d[6] == interval
    ensures IsEndpoint(d) && MakeEPConfig(d) == EndpointConfig(number, isIn, kind, packet, interval)
  {
    var (n: int, r: int, k: int, a: int) := (number, reserved, kind, attributes);
    DivModUnique(n + 16 * (r + if isIn then 8 else 0), 16, r + if isIn then 8 else 0, n);
    DivModUnique(k + 4 * a, 4, a, k);
    var p: int := packet;
    DivMod(p, 0x100);
  }

  /** Only boot interfaces of the HID class have a class driver, by their protocol: 1 is a keyboard and 2
      a mouse. */
  lemma InterfaceBytes(d: Descriptor)
    requires IsInterface(d)
    ensures NewClassDriver(d) == Some(ClassDriver(Keyboard, d[2])) <==> d[5..8] == [3, 1, 1]
    ensures NewClassDriver(d) == Some(ClassDriver(Mouse, d[2])) <==> d[5..8] == [3, 1, 2]
    ensures NewClassDriver(d).Some? ==> d[5..8] == [3, 1, 1] || d[5..8] == [3, 1, 2]
  {
    assert d[5..8] == [d[5], d[6], d[7]];
  }

  /** The endpoints of an interface are those whose descriptors come before the next interface, one for
      each endpoint descriptor and in their order. */
  lemma {:induction false} OwnEndpointsStop(ds: seq<Descriptor>, k: nat, e: nat)
    requires k <= e <= |ds| && (e < |ds| ==> IsInterface(ds[e]))
    requires forall j :: k <= j < e ==> !IsInterface(ds[j])
    ensures OwnEndpoints(ds, k) == EndpointsAmong(ds[k..e])
    decreases e - k
  {
    hide MakeEPConfig;
    if k < e {
      OwnEndpointsStop(ds, k + 1, e);
      assert ds[k..e] == [ds[k]] + ds[k + 1..e];
      EndpointsAmongCons(ds[k], ds[k + 1..e]);
    } else {
      assert ds[k..e] == [];
    }
  }

  /** The endpoint descriptors of a list, from the end. */
  function EndpointsAmong(ds: seq<Descriptor>): seq<EndpointConfig> {
    if ds == [] then []
    else
      var n := |ds| - 1;
      EndpointsAmong(ds[..n]) + if IsEndpoint(ds[n]) then [MakeEPConfig(ds[n])] else []
  }

  lemma {:induction false} EndpointsAmongCons(d: Descriptor, ds: seq<Descriptor>)
    ensures EndpointsAmong([d] + ds) == (if IsEndpoint(d) then [MakeEPConfig(d)] else []) + EndpointsAmong(ds)
  {
    hide MakeEPConfig;
    var all := [d] + ds;
    if ds == [] {
      assert all[..0] == [];
    } else {
      var n := |ds| - 1;
      EndpointsAmongCons(d, ds[..n]);
      assert all[..n + 1] == [d] + ds[..n] && all[n + 1] == ds[n];
    }
  }

  /** Which replies the USB device accepts: in its first three phases the descriptor or the status that it
      has asked for, and once it is initialized a reply that somebody waits for. Any other changes
      nothing and leads to no request. */
  lemma ReplyIsAcceptedExactlyWhen(u: Usb, setup: SetupData, ds: seq<Descriptor>, buffer: Address)
    requires setup.request == 6 ==> IsReply(ds)
    ensures var r := OnControl(u, setup, ds, buffer);
            && (r.error == Success <==>
                  if u.isInitialized then Get(u.waiters, setup).Some?
                  else || (u.phase == 1 && setup.request == 6 && ds[0][1] == 1)
                       || (u.phase == 2 && setup.request == 6 && ds[0][1] == 2)
                       || (u.phase == 3 && setup.request == 9))
            && (r.error != Success ==> r == Reaction(u, r.error, None, None))
            && (r.error != Success ==>
                  r.error == if u.isInitialized then NoWaiter
                             else if 1 <= u.phase <= 3 then InvalidPhase else NotImplemented)
            && (u.isInitialized ==> r.usb == u && r.next == None && r.waiter == Get(u.waiters, setup))
            && (!u.isInitialized ==> r.waiter == None)
  {
    hide Get, Phase2;
    if setup.request == 6 { assert WellFormed(ds[0]); }
  }

  // ---------------------------------------------------------------- TRBs

  /** Link TRB: section 6.4.4.1. The segment pointer, type 6, and the bit that asks to toggle. */
  lemma LinkWords(base: Address, cycle: bool)
    requires base % 16 == 0
    ensures var t := LinkTrb(base).Stamp(cycle);
            && t.w0 + TWO_32 * t.w1 == base && t.w2 == 0
            && t.w3.Number() == 6 * 0x400 + 2 + if cycle then 1 else 0
  {
    PointerWords(base);
    AlignedLow(base);
  }

  lemma AlignedLow(base: Address)
    requires base % 16 == 0
    ensures base / 16 * 16 == base
  {
    DivMod(base, 16);
  }

  /** The command TRBs: sections 6.4.3.2, 6.4.3.4 and 6.4.3.5. The type is in bits 10 to 15 of word 3, the
      slot in bits 24 to 31, and the first two words are the address of the input context. */
  lemma CommandWords(c: Command, context: Address, cycle: bool)
    requires context % 16 == 0 && (!c.EnableSlotCommand? ==> c.slot < 256)
    ensures var (t, one) := (CommandTrb(c, context).Stamp(cycle), if cycle then 1 else 0);
            match c
            case EnableSlotCommand => t.w0 == t.w1 == t.w2 == 0 && t.w3.Number() == 9 * 0x400 + one
            case AddressDeviceCommand(slot) =>
              t.w0 + TWO_32 * t.w1 == context && t.w2 == 0 && t.w3.Number() == slot * 0x100_0000 + 11 * 0x400 + one
            case ConfigureEndpointCommand(slot) =>
              t.w0 + TWO_32 * t.w1 == context && t.w2 == 0 && t.w3.Number() == slot * 0x100_0000 + 12 * 0x400 + one
  {
    PointerWords(context);
    AlignedLow(context);
  }

  /** Event TRBs are told apart by bits 10 to 15 of word 3: section 6.4.2. */
  lemma EventWords(t: Trb)
    ensures var (kind, e) := (Field(t.w3.Number(), 0x400, 64), EventRings.Classify(t));
            && (e == EventRings.TransferEvent(t) <==> kind == 32)
            && (e == EventRings.CommandCompletionEvent(t) <==> kind == 33)
            && (e == EventRings.PortStatusChangeEvent(t) <==> kind == 34)
            && (e == EventRings.UnknownEvent(t) <==> kind != 32 && kind != 33 && kind != 34)
  {
    assert t.w3.Number() / 0x400 == t.w3.control / 512;
  }

  /** What the handler of a transfer event makes of the words: the bytes that were moved are the length
      field of the TRB less the residual. A code other than 1 and 13 fails and forgets nothing. */
  lemma CompletionWords(p: Pipe, slot: nat, code: nat, residual: nat)
    requires slot < |p.ring.mem|
    requires var e := Get(p.table, TrbPtr(p.dci, slot)); e.Some? ==> e.value.slot < |p.ring.mem|
    ensures var ((p', o), t) := (Complete(p, slot, code, residual), p.ring.mem[slot]);
            var (kind, key) := (Field(t.w3.Number(), 0x400, 64), TrbPtr(p.dci, slot));
            var moved := t.w2 % 0x2_0000 - residual;
            if code != 1 && code != 13 then p' == p && o == Failed(TransferFailed)
            else if kind == 1 then p' == p && o == InterruptCompleted(t.w0 + TWO_32 * t.w1, moved)
            else if Get(p.table, key).None? then p' == p && o == Failed(NoCorrespondingSetupStage)
            else
              && p' == p.(table := Delete(p.table, key))
              && (kind != 3 && kind != 4 ==> o == Failed(NotImplemented))
              && (kind == 3 || kind == 4 ==>
                    var s := p.ring.mem[Get(p.table, key).value.slot];
                    && o.ControlCompleted?
                    && o.setup.requestType + 0x100 * o.setup.request + 0x1_0000 * o.setup.value == s.w0
                    && o.setup.index + 0x1_0000 * o.setup.length == s.w1
                    && (o.buf, o.len) == if kind == 3 then (Some(t.w0 + TWO_32 * t.w1), moved) else (None, 0))
  {
    hide Get, Delete;
    var t := p.ring.mem[slot];
    assert t.w3.Number() / 0x400 == t.w3.control / 512;
    if Get(p.table, TrbPtr(p.dci, slot)).Some? { SetupSplits(p.ring.mem[Get(p.table, TrbPtr(p.dci, slot)).value.slot]); }
  }

  lemma SetupSplits(t: Trb)
    ensures var s := DecodeSetup(t);
            && s.requestType + 0x100 * s.request + 0x1_0000 * s.value == t.w0
            && s.index + 0x1_0000 * s.length == t.w1
  {
    var high := t.w0 / 0x100;
    DivMod(t.w0, 0x100);
    DivMod(high, 0x100);
    assert t.w0 / 0x1_0000 == high / 0x100;
    DivMod(t.w1, 0x1_0000);
  }
}
