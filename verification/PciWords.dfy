/** The PCI scan in terms of the words of the configuration space alone: which word says that a function
    answers, that a device has several functions, that a function is a bridge, and which bus is
    behind it. Offsets and fields are those of section 6.1 of the PCI Local Bus Specification and of
    section 3.2 of the PCI-to-PCI Bridge Architecture Specification. */
module PciWords {
  import opened Bits
  import opened Errors
  import opened PciScan
  import opened Trbs

  /** Where a function is. */
  datatype Place = Place(bus: Byte, device: DeviceNumber, func: FunctionNumber)

  function FirstOf(x: Place): Place { x.(func := 0) }

  /** The configuration word of a function at a byte offset. */
  function WordAt(c: ConfigSpace, x: Place, offset: nat): Word
    requires offset % 4 == 0 && offset < 0x100
  {
    var (b: int, d: int, f: int) := (x.bus, x.device, x.func);
    c(0x8000_0000 + 0x1_0000 * b + 0x800 * d + 0x100 * f + offset)
  }

  predicate VendorAnswers(c: ConfigSpace, x: Place) { WordAt(c, x, 0) % 0x1_0000 != 0xffff }

  /** A function is found when function 0 of its device answers and, if it is another one, bit 23 of the
      word at 0x0c says that the device has several functions and this one answers. */
  predicate Present(c: ConfigSpace, x: Place) {
    && VendorAnswers(c, FirstOf(x))
    && (x.func != 0 ==> WordAt(c, FirstOf(x), 0x0c) / 0x80_0000 % 2 == 1 && VendorAnswers(c, x))
  }

  /** A function is a bridge when its class is 0x06 and its subclass 0x04; behind it is the bus that the
      second byte of the word at 0x18 names. */
  predicate LeadsTo(c: ConfigSpace, x: Place, bus: Byte) {
    WordAt(c, x, 0x08) / 0x1_0000 == 0x0604 && WordAt(c, x, 0x18) / 0x100 % 0x100 == bus
  }

  /** A chain of functions from bus `root` on, each on the bus behind the one before. */
  predicate IsChain(c: ConfigSpace, root: Byte, chain: seq<Place>) {
    && chain != [] && chain[0].bus == root
    && (forall i :: 0 <= i < |chain| ==> Present(c, chain[i]))
    && (forall i, j :: 0 <= i < |chain| && j == i + 1 < |chain| ==> LeadsTo(c, chain[i], chain[j].bus))
  }

  predicate EndsAt(chain: seq<Place>, x: Place) { chain != [] && chain[|chain| - 1] == x }

  // ---------------------------------------------------------------- the words that are read

  function PlaceOf(x: Device): Place { Place(x.bus, x.device, x.func) }

  function DeviceOf(c: ConfigSpace, x: Place): Device { DeviceAt(c, x.bus, x.device, x.func) }

  lemma ReadIsWordAt(c: ConfigSpace, x: Place, offset: Byte)
    requires offset % 4 == 0
    ensures Read(c, x.bus, x.device, x.func, offset) == WordAt(c, x, offset)
  {
  }

  /** Primary, secondary and subordinate bus number are the low three bytes of the word at 0x18. */
  lemma BusNumbers(c: ConfigSpace, x: Place, primary: nat, secondary: Byte, rest: nat)
    requires WordAt(c, x, 0x18) == primary + 0x100 * secondary + 0x1_0000 * rest && primary < 0x100
    requires WordAt(c, x, 0x08) / 0x1_0000 == 0x0604
    ensures LeadsTo(c, x, secondary)
  {
    var (p: int, s: int, t: int) := (primary, secondary, rest);
    DivModUnique(p + 0x100 * s + 0x1_0000 * t, 0x100, s + 0x100 * t, p);
    DivModUnique(s + 0x100 * t, 0x100, t, s);
  }

  /** The entry of a function holds its header type and its class code. */
  lemma EntryWords(c: ConfigSpace, x: Place)
    ensures var (y, w) := (DeviceOf(c, x), WordAt(c, x, 0x08));
            && PlaceOf(y) == x
            && y.headerType == WordAt(c, x, 0x0c) / 0x1_0000 % 0x100
            && y.classCode == ClassCode(w / 0x100_0000, w / 0x1_0000 % 0x100, w / 0x100 % 0x100)
  {
    ReadIsWordAt(c, x, 0x0c);
    ReadIsWordAt(c, x, 0x08);
    var w := WordAt(c, x, 0x08);
    hide WordAt, Read;
    assert w / 0x100_0000 < 0x100;
  }

  lemma BridgeWords(c: ConfigSpace, x: Place, bus: Byte)
    ensures IsBridge(DeviceOf(c, x)) && SecondaryBus(c, DeviceOf(c, x)) == bus <==> LeadsTo(c, x, bus)
  {
    EntryWords(c, x);
    ReadIsWordAt(c, x, 0x18);
    var w := WordAt(c, x, 0x08);
    hide WordAt, Read, DeviceAt;
    TwoBytes(w);
  }

  lemma TwoBytes(w: Word)
    ensures w / 0x100_0000 == 6 && w / 0x1_0000 % 0x100 == 4 <==> w / 0x1_0000 == 0x0604
  {
    var high := w / 0x1_0000;
    assert w / 0x100_0000 == high / 0x100;
  }

  lemma SeveralFunctions(w: Word)
    ensures IsSingleFunction(w / 0x1_0000 % 0x100) <==> w / 0x80_0000 % 2 == 0
  {
    var high := w / 0x1_0000;
    DivMod(high, 0x100);
    assert w / 0x80_0000 == high / 0x80;
  }

  lemma PresentWords(c: ConfigSpace, x: Place)
    ensures Answers(c, x.bus, x.device, x.func) <==> Present(c, x)
  {
    ReadIsWordAt(c, x, 0);
    ReadIsWordAt(c, FirstOf(x), 0);
    ReadIsWordAt(c, FirstOf(x), 0x0c);
    SeveralFunctions(WordAt(c, FirstOf(x), 0x0c));
    hide WordAt, Read, IsSingleFunction;
  }

  lemma OnBusWords(c: ConfigSpace, bus: Byte, x: Place)
    ensures DeviceOf(c, x) in FunctionsOn(c, bus) <==> x.bus == bus && Present(c, x)
  {
    hide FunctionsOn, Present, Answers, DeviceAt;
    PresentWords(c, x);
    FunctionsOnIsExact(c, x.bus, x.device, x.func);
    EntryWords(c, x);
    if DeviceOf(c, x) in FunctionsOn(c, bus) { EntriesOfBus(c, bus, DeviceOf(c, x)); }
  }

  /** The entries of a bus are those of its functions. */
  lemma EntriesOfBus(c: ConfigSpace, bus: Byte, x: Device)
    requires x in FunctionsOn(c, bus)
    ensures x.bus == bus && x == DeviceOf(c, PlaceOf(x))
  {
    hide BusFunctions;
    OnItsBus(c, bus, 0, x);
    EntryOfBus(c, bus, 0, x);
  }

  lemma {:induction false} EntryOfBus(c: ConfigSpace, bus: Byte, d: nat, x: Device)
    requires d <= 32 && x in BusFunctions(c, bus, d)
    ensures x == DeviceOf(c, PlaceOf(x))
    decreases 32 - d
  {
    hide DeviceFunctions, DeviceAt, VendorId;
    if x in BusFunctions(c, bus, d + 1) { EntryOfBus(c, bus, d + 1, x); } else { EntryOfDevice(c, bus, d, x); }
  }

  lemma EntryOfDevice(c: ConfigSpace, bus: Byte, d: DeviceNumber, x: Device)
    requires x in DeviceFunctions(c, bus, d)
    ensures x == DeviceOf(c, PlaceOf(x))
  {
    hide FunctionsFrom;
    if x in FunctionsFrom(c, bus, d, 1) { EntryOfFunction(c, bus, d, 1, x); }
  }

  lemma {:induction false} EntryOfFunction(c: ConfigSpace, bus: Byte, d: DeviceNumber, f: nat, x: Device)
    requires f <= 8 && x in FunctionsFrom(c, bus, d, f)
    ensures x == DeviceOf(c, PlaceOf(x))
    decreases 8 - f
  {
    hide VendorId;
    if f < 8 && x in FunctionsFrom(c, bus, d, f + 1) { EntryOfFunction(c, bus, d, f + 1, x); }
  }

  // ---------------------------------------------------------------- paths and chains

  lemma PathIsChain(c: ConfigSpace, root: Byte, p: seq<Device>)
    requires IsPath(c, root, p)
    ensures IsChain(c, root, seq(|p|, i requires 0 <= i < |p| => PlaceOf(p[i])))
  {
    hide FunctionsOn, Present, LeadsTo, DeviceAt, IsBridge, SecondaryBus;
    var chain := seq(|p|, i requires 0 <= i < |p| => PlaceOf(p[i]));
    forall i | 0 <= i < |p| ensures Present(c, chain[i]) && p[i] == DeviceOf(c, chain[i]) && (i == 0 ==> p[i].bus == root) {
      var bus := if i == 0 then root else SecondaryBus(c, p[i - 1]);
      if i > 0 { assert Behind(c, p[i - 1], p[i]); }
      EntriesOfBus(c, bus, p[i]);
      OnBusWords(c, bus, chain[i]);
    }
    forall i, j | 0 <= i < |p| && j == i + 1 < |p| ensures LeadsTo(c, chain[i], chain[j].bus) {
      assert Behind(c, p[i], p[j]);
      EntriesOfBus(c, SecondaryBus(c, p[i]), p[j]);
      BridgeWords(c, chain[i], chain[j].bus);
    }
  }

  lemma ChainIsPath(c: ConfigSpace, root: Byte, chain: seq<Place>)
    requires IsChain(c, root, chain)
    ensures IsPath(c, root, seq(|chain|, i requires 0 <= i < |chain| => DeviceOf(c, chain[i])))
  {
    hide FunctionsOn, Present, LeadsTo, DeviceAt, IsBridge, SecondaryBus;
    var p := seq(|chain|, i requires 0 <= i < |chain| => DeviceOf(c, chain[i]));
    OnBusWords(c, root, chain[0]);
    forall i, j | 0 <= i < |p| && j == i + 1 < |p| ensures Behind(c, p[i], p[j]) {
      assert LeadsTo(c, chain[i], chain[j].bus);
      BridgeWords(c, chain[i], chain[j].bus);
      OnBusWords(c, chain[j].bus, chain[j]);
    }
  }

  /** A scan without an error lists a function if and only if the words of the configuration space lead
      there: some chain of bridges ends in it. */
  lemma ScanOnWords(c: ConfigSpace, root: Byte, depth: nat, after: seq<Device>, x: Place)
    requires depth >= TABLE_SIZE && Filled([], Preorder(c, root, depth), after, Success)
    ensures DeviceOf(c, x) in after <==> exists chain :: IsChain(c, root, chain) && EndsAt(chain, x)
    ensures forall y :: y in after ==> y == DeviceOf(c, PlaceOf(y))
  {
    hide Filled, Preorder, IsPath, IsChain, DeviceAt;
    ScanFindsExactlyTheReachable(c, root, depth, after, DeviceOf(c, x));
    EntryWords(c, x);
    if p :| p != [] && IsPath(c, root, p) && Last(p) == DeviceOf(c, x) {
      PathIsChain(c, root, p);
      var chain := seq(|p|, i requires 0 <= i < |p| => PlaceOf(p[i]));
      assert IsChain(c, root, chain) && EndsAt(chain, x);
    }
    if chain :| IsChain(c, root, chain) && EndsAt(chain, x) {
      ChainIsPath(c, root, chain);
      var p := seq(|chain|, i requires 0 <= i < |chain| => DeviceOf(c, chain[i]));
      assert p != [] && IsPath(c, root, p) && Last(p) == DeviceOf(c, x);
    }
    forall y | y in after ensures y == DeviceOf(c, PlaceOf(y)) {
      ScanFindsExactlyTheReachable(c, root, depth, after, y);
      var p :| p != [] && IsPath(c, root, p) && Last(p) == y;
      EndOfPath(c, root, p);
    }
  }

  lemma EndOfPath(c: ConfigSpace, root: Byte, p: seq<Device>)
    requires IsPath(c, root, p) && p != []
    ensures Last(p) == DeviceOf(c, PlaceOf(Last(p)))
  {
    hide FunctionsOn, DeviceAt, SecondaryBus, IsBridge;
    var n := |p| - 1;
    if n > 0 { assert Behind(c, p[n - 1], p[n]); }
    EntriesOfBus(c, if n == 0 then root else SecondaryBus(c, p[n - 1]), p[n]);
  }

  /** In particular a bridge that is listed is followed: a function that answers on the bus that the
      second byte of the word at 0x18 names is listed as well. */
  lemma BridgesAreFollowed(c: ConfigSpace, root: Byte, depth: nat, after: seq<Device>, x: Place, y: Place, primary: nat, rest: nat)
    requires depth >= TABLE_SIZE && Filled([], Preorder(c, root, depth), after, Success)
    requires DeviceOf(c, x) in after && WordAt(c, x, 0x08) / 0x1_0000 == 0x0604
    requires primary < 0x100 && WordAt(c, x, 0x18) == primary + 0x100 * y.bus + 0x1_0000 * rest
    requires Present(c, y)
    ensures DeviceOf(c, y) in after
  {
    hide Filled, Preorder, DeviceAt, Present, LeadsTo, WordAt;
    ScanOnWords(c, root, depth, after, x);
    BusNumbers(c, x, primary, y.bus, rest);
    var chain :| IsChain(c, root, chain) && EndsAt(chain, x);
    var longer := chain + [y];
    forall i, j | 0 <= i < |longer| && j == i + 1 < |longer| ensures LeadsTo(c, longer[i], longer[j].bus) {
      if j < |chain| { assert LeadsTo(c, chain[i], chain[j].bus); }
    }
    assert IsChain(c, root, longer) && EndsAt(longer, y);
    ScanOnWords(c, root, depth, after, y);
  }
}
