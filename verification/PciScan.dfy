/** The PCI scan: a depth-first walk over the buses behind bridges into a table of 32
    functions. The configuration space is any function of the configuration address, so a
    bridge may lead anywhere, also back to a bus that is being scanned. */
module PciScan {
  import opened Bits
  import opened Errors
  import opened Trbs

  const TABLE_SIZE := 32

  /** What a read of the data register returns for each configuration address. */
  type ConfigSpace = Word -> Word

  type DeviceNumber = d: int | 0 <= d < 32
  type FunctionNumber = f: int | 0 <= f < 8

  /** The four fields and the enable bit occupy different bits, so that their bitwise or is
      their sum. */
  function MakeConfigAddress(bus: Byte, device: DeviceNumber, func: FunctionNumber, reg: Byte): Word {
    var (b: int, d: int, f: int, r: int) := (bus, device, func, reg);
    0x8000_0000 + b * 0x1_0000 + d * 0x800 + f * 0x100 + r / 4 * 4
  }

  /** The address names the bus, device, function and 32-bit register, and nothing else. */
  lemma ConfigAddressRoundTrip(bus: Byte, device: DeviceNumber, func: FunctionNumber, reg: Byte)
    ensures var a := MakeConfigAddress(bus, device, func, reg);
            && a / 0x1_0000 % 0x100 == bus && a / 0x800 % 32 == device && a / 0x100 % 8 == func
            && a % 0x100 == reg / 4 * 4 && a / 0x8000_0000 == 1
  {
    var (b: int, d: int, f: int, r: int) := (bus, device, func, reg / 4 * 4);
    var hi := b + 0x100 * 0x80;
    Unpack(f + 8 * (d + 32 * hi), r, 0x100);
    Unpack(d + 32 * hi, f, 8);
    Unpack(hi, d, 32);
    Unpack(0x80, b, 0x100);
  }

  lemma Unpack(hi: nat, lo: nat, base: nat)
    requires lo < base
    ensures (lo + base * hi) / base == hi && (lo + base * hi) % base == lo
  {
    DivModUnique(lo + base * hi, base, hi, lo);
  }

  function Read(c: ConfigSpace, bus: Byte, device: DeviceNumber, func: FunctionNumber, reg: Byte): Word {
    c(MakeConfigAddress(bus, device, func, reg))
  }

  function VendorId(c: ConfigSpace, bus: Byte, device: DeviceNumber, func: FunctionNumber): nat {
    Read(c, bus, device, func, 0) % 0x1_0000
  }

  function HeaderType(c: ConfigSpace, bus: Byte, device: DeviceNumber, func: FunctionNumber): nat {
    Read(c, bus, device, func, 0x0c) / 0x1_0000 % 0x100
  }

  datatype ClassCode = ClassCode(base: nat, sub: nat, progInterface: nat)

  function ClassCodeOf(c: ConfigSpace, bus: Byte, device: DeviceNumber, func: FunctionNumber): ClassCode {
    var reg := Read(c, bus, device, func, 0x08);
    ClassCode(reg / 0x100_0000 % 0x100, reg / 0x1_0000 % 0x100, reg / 0x100 % 0x100)
  }

  datatype Device = Device(bus: Byte, device: DeviceNumber, func: FunctionNumber, headerType: nat, classCode: ClassCode)

  function DeviceAt(c: ConfigSpace, bus: Byte, device: DeviceNumber, func: FunctionNumber): Device {
    Device(bus, device, func, HeaderType(c, bus, device, func), ClassCodeOf(c, bus, device, func))
  }

  const NO_DEVICE := Device(0, 0, 0, 0, ClassCode(0, 0, 0))
  const NO_VENDOR := 0xffff

  predicate IsBridge(x: Device) { x.classCode.base == 6 && x.classCode.sub == 4 }

  predicate IsSingleFunction(headerType: nat) { headerType / 0x80 % 2 == 0 }

  /** The bus behind a bridge. */
  function SecondaryBus(c: ConfigSpace, x: Device): Byte {
    Read(c, x.bus, x.device, x.func, 0x18) / 0x100 % 0x100
  }

  // ---------------------------------------------------------------- the traversal

  /** The functions of a device from number `f` on that answer. */
  function FunctionsFrom(c: ConfigSpace, bus: Byte, device: DeviceNumber, f: nat): seq<Device>
    requires f <= 8
    decreases 8 - f
  {
    if f == 8 then []
    else (if VendorId(c, bus, device, f) == NO_VENDOR then [] else [DeviceAt(c, bus, device, f)])
         + FunctionsFrom(c, bus, device, f + 1)
  }

  function DeviceFunctions(c: ConfigSpace, bus: Byte, device: DeviceNumber): seq<Device> {
    [DeviceAt(c, bus, device, 0)]
    + if IsSingleFunction(HeaderType(c, bus, device, 0)) then [] else FunctionsFrom(c, bus, device, 1)
  }

  /** The functions on a bus from device number `d` on, in the order of their numbers. */
  function BusFunctions(c: ConfigSpace, bus: Byte, d: nat): seq<Device>
    requires d <= 32
    decreases 32 - d
  {
    if d == 32 then []
    else (if VendorId(c, bus, d, 0) == NO_VENDOR then [] else DeviceFunctions(c, bus, d)) + BusFunctions(c, bus, d + 1)
  }

  function FunctionsOn(c: ConfigSpace, bus: Byte): seq<Device> {
    BusFunctions(c, bus, 0)
  }

  /** The depth-first preorder below these functions, following bridges `depth` deep. */
  function Tree(c: ConfigSpace, xs: seq<Device>, depth: nat): seq<Device>
    decreases depth, |xs|
  {
    if xs == [] then [] else Subtree(c, xs[0], depth) + Tree(c, xs[1..], depth)
  }

  function Subtree(c: ConfigSpace, x: Device, depth: nat): seq<Device>
    decreases depth, 0
  {
    [x] + if IsBridge(x) && depth > 0 then Preorder(c, SecondaryBus(c, x), depth - 1) else []
  }

  function Preorder(c: ConfigSpace, bus: Byte, depth: nat): seq<Device>
    decreases depth, |FunctionsOn(c, bus)| + 1
  {
    Tree(c, FunctionsOn(c, bus), depth)
  }

  lemma {:induction false} TreeConcat(c: ConfigSpace, xs: seq<Device>, ys: seq<Device>, depth: nat)
    ensures Tree(c, xs + ys, depth) == Tree(c, xs, depth) + Tree(c, ys, depth)
  {
    if xs == [] {
      assert xs + ys == ys;
    } else {
      assert (xs + ys)[1..] == xs[1..] + ys;
      TreeConcat(c, xs[1..], ys, depth);
    }
  }

  /** The first `n` entries, or all. */
  function Take(n: nat, xs: seq<Device>): seq<Device> {
    if |xs| <= n then xs else xs[..n]
  }

  lemma TakeConcat(n: nat, xs: seq<Device>, xs': seq<Device>, ys: seq<Device>, ys': seq<Device>)
    requires Take(n, xs) == Take(n, xs') && Take(n, ys) == Take(n, ys')
    ensures Take(n, xs + ys) == Take(n, xs' + ys')
  {
    if |xs| < n {
      assert xs == xs';
      var k := n - |xs|;
      assert Take(k, ys) == Take(k, Take(n, ys)) == Take(k, ys');
      assert Take(n, xs + ys) == xs + Take(k, ys);
      assert Take(n, xs + ys') == xs + Take(k, ys');
    } else {
      assert Take(n, xs + ys) == Take(n, xs) && Take(n, xs' + ys') == Take(n, xs');
    }
  }

  /** How deep bridges are followed does not matter for the first entries: the preorder, finite
      or not, has one beginning. In particular whether it has more than 32 entries, and the
      first 32, are the same for every depth of at least 32. */
  lemma {:induction false} BeginningIsStable(c: ConfigSpace, xs: seq<Device>, d: nat, e: nat, n: nat)
    requires n <= d && n <= e
    ensures Take(n + 1, Tree(c, xs, d)) == Take(n + 1, Tree(c, xs, e))
    decreases n, |xs|
  {
    hide FunctionsOn, SecondaryBus, Take, IsBridge;
    if xs != [] {
      var x := xs[0];
      BeginningIsStable(c, xs[1..], d, e, n);
      if IsBridge(x) && n > 0 {
        BeginningIsStable(c, FunctionsOn(c, SecondaryBus(c, x)), d - 1, e - 1, n - 1);
      }
      SubtreeBegins(c, x, d, e, n);
      TakeConcat(n + 1, Subtree(c, x, d), Subtree(c, x, e), Tree(c, xs[1..], d), Tree(c, xs[1..], e));
    }
  }

  lemma SubtreeBegins(c: ConfigSpace, x: Device, d: nat, e: nat, n: nat)
    requires n <= d && n <= e
    requires IsBridge(x) && n > 0 ==>
               Take(n, Preorder(c, SecondaryBus(c, x), d - 1)) == Take(n, Preorder(c, SecondaryBus(c, x), e - 1))
    ensures Take(n + 1, Subtree(c, x, d)) == Take(n + 1, Subtree(c, x, e))
  {
    hide Preorder;
    if IsBridge(x) {
      if n == 0 {
        assert Take(1, Subtree(c, x, d)) == [x] == Take(1, Subtree(c, x, e));
      } else {
        var (t, u) := (Preorder(c, SecondaryBus(c, x), d - 1), Preorder(c, SecondaryBus(c, x), e - 1));
        assert Take(n + 1, [x] + t) == [x] + Take(n, t);
        assert Take(n + 1, [x] + u) == [x] + Take(n, u);
      }
    }
  }

  // ---------------------------------------------------------------- no function twice

  predicate NoneTwice<T(==)>(xs: seq<T>) {
    forall i, j :: 0 <= i < j < |xs| ==> xs[i] != xs[j]
  }

  /** Bus `root` is behind no bridge, and no bus is behind two. */
  ghost predicate IsTree(c: ConfigSpace, root: Byte) {
    && (forall x: Device :: Exists(c, x) && IsBridge(x) ==> SecondaryBus(c, x) != root)
    && (forall x: Device, y: Device ::
          (Exists(c, x) && Exists(c, y) && IsBridge(x) && IsBridge(y) && SecondaryBus(c, x) == SecondaryBus(c, y)) ==> x == y)
  }

  predicate Exists(c: ConfigSpace, x: Device) {
    x in FunctionsOn(c, x.bus)
  }

  /** The same traversal with the whole path of bridges for every entry. */
  function Paths(c: ConfigSpace, prefix: seq<Device>, xs: seq<Device>, depth: nat): seq<seq<Device>>
    decreases depth, |xs|
  {
    if xs == [] then []
    else PathsVia(c, prefix + [xs[0]], xs[0], depth) + Paths(c, prefix, xs[1..], depth)
  }

  function PathsVia(c: ConfigSpace, path: seq<Device>, x: Device, depth: nat): seq<seq<Device>>
    decreases depth, 0
  {
    [path] + if IsBridge(x) && depth > 0 then Paths(c, path, FunctionsOn(c, SecondaryBus(c, x)), depth - 1) else []
  }

  predicate Behind(c: ConfigSpace, bridge: Device, x: Device) {
    IsBridge(bridge) && x in FunctionsOn(c, SecondaryBus(c, bridge))
  }

  /** A path from `root`: every step is a function of the bus behind the bridge before it. */
  predicate IsPath(c: ConfigSpace, root: Byte, path: seq<Device>) {
    && path != []
    && path[0] in FunctionsOn(c, root)
    && forall i, j :: 0 <= i < |path| && j == i + 1 < |path| ==> Behind(c, path[i], path[j])
  }

  lemma {:induction false} OnItsBus(c: ConfigSpace, bus: Byte, d: nat, x: Device)
    requires d <= 32 && x in BusFunctions(c, bus, d)
    ensures x.bus == bus && x.device >= d
    decreases 32 - d
  {
    hide DeviceFunctions, VendorId;
    if x in BusFunctions(c, bus, d + 1) { OnItsBus(c, bus, d + 1, x); }
    else { OfItsDevice(c, bus, d, x); }
  }

  lemma OfItsDevice(c: ConfigSpace, bus: Byte, d: DeviceNumber, x: Device)
    requires x in DeviceFunctions(c, bus, d)
    ensures x.bus == bus && x.device == d
  {
    hide FunctionsFrom;
    if x in FunctionsFrom(c, bus, d, 1) { FromFunction(c, bus, d, 1, x); }
  }

  lemma {:induction false} FromFunction(c: ConfigSpace, bus: Byte, d: DeviceNumber, f: nat, x: Device)
    requires f <= 8 && x in FunctionsFrom(c, bus, d, f)
    ensures x.bus == bus && x.device == d && x.func >= f
    decreases 8 - f
  {
    hide VendorId;
    if f < 8 && x in FunctionsFrom(c, bus, d, f + 1) { FromFunction(c, bus, d, f + 1, x); }
  }

  lemma NoneTwiceConcat<T>(xs: seq<T>, ys: seq<T>)
    requires NoneTwice(xs) && NoneTwice(ys)
    requires forall x :: x in xs ==> x !in ys
    ensures NoneTwice(xs + ys)
  {
    forall i, j | 0 <= i < j < |xs + ys| ensures (xs + ys)[i] != (xs + ys)[j] {
      if j < |xs| {
      } else if i < |xs| {
        assert xs[i] in xs && ys[j - |xs|] in ys;
      } else {
        assert ys[i - |xs|] != ys[j - |xs|];
      }
    }
  }

  lemma NoneOfNone<T>()
    ensures NoneTwice<T>([])
  {
  }

  lemma NoneTwiceCons<T>(x: T, ys: seq<T>)
    requires NoneTwice(ys) && x !in ys
    ensures NoneTwice([x] + ys)
  {
    NoneTwiceConcat([x], ys);
  }

  lemma {:induction false} FunctionsDiffer(c: ConfigSpace, bus: Byte, d: DeviceNumber, f: nat)
    requires f <= 8
    ensures NoneTwice(FunctionsFrom(c, bus, d, f))
    decreases 8 - f
  {
    hide VendorId, NoneTwice;
    if f < 8 {
      var rest := FunctionsFrom(c, bus, d, f + 1);
      FunctionsDiffer(c, bus, d, f + 1);
      if DeviceAt(c, bus, d, f) in rest { FromFunction(c, bus, d, f + 1, DeviceAt(c, bus, d, f)); }
      NoneTwiceCons(DeviceAt(c, bus, d, f), rest);
      assert [] + rest == rest;
    } else {
      NoneOfNone<Device>();
    }
  }

  lemma DeviceFunctionsDiffer(c: ConfigSpace, bus: Byte, d: DeviceNumber)
    ensures NoneTwice(DeviceFunctions(c, bus, d))
  {
    hide FunctionsFrom;
    var x, rest := DeviceAt(c, bus, d, 0), FunctionsFrom(c, bus, d, 1);
    FunctionsDiffer(c, bus, d, 1);
    if x in rest { FromFunction(c, bus, d, 1, x); }
    NoneTwiceCons(x, rest);
  }

  lemma {:induction false} BusFunctionsDiffer(c: ConfigSpace, bus: Byte, d: nat)
    requires d <= 32
    ensures NoneTwice(BusFunctions(c, bus, d))
    decreases 32 - d
  {
    hide DeviceFunctions, VendorId;
    if d < 32 {
      var xs, ys := DeviceFunctions(c, bus, d), BusFunctions(c, bus, d + 1);
      BusFunctionsDiffer(c, bus, d + 1);
      DeviceFunctionsDiffer(c, bus, d);
      forall x | x in xs ensures x !in ys {
        OfItsDevice(c, bus, d, x);
        if x in ys { OnItsBus(c, bus, d + 1, x); }
      }
      NoneTwiceConcat(xs, ys);
      assert [] + ys == ys;
    }
  }

  lemma FunctionsOnDiffer(c: ConfigSpace, bus: Byte)
    ensures NoneTwice(FunctionsOn(c, bus))
  {
    hide BusFunctions, NoneTwice;
    BusFunctionsDiffer(c, bus, 0);
  }

  predicate Extends(path: seq<Device>, prefix: seq<Device>) {
    |path| >= |prefix| && path[..|prefix|] == prefix
  }

  /** Every listed path goes through one of the functions, right after the prefix. */
  lemma {:induction false} PathsExtend(c: ConfigSpace, prefix: seq<Device>, xs: seq<Device>, depth: nat, p: seq<Device>)
    requires p in Paths(c, prefix, xs, depth)
    ensures exists x :: x in xs && Extends(p, prefix + [x])
    decreases depth, |xs|
  {
    if p in Paths(c, prefix, xs[1..], depth) {
      PathsExtend(c, prefix, xs[1..], depth, p);
    } else {
      ViaExtends(c, prefix + [xs[0]], xs[0], depth, p);
    }
  }

  lemma {:induction false} ViaExtends(c: ConfigSpace, path: seq<Device>, x: Device, depth: nat, p: seq<Device>)
    requires p in PathsVia(c, path, x, depth)
    ensures Extends(p, path) && (p == path || |p| > |path|)
    decreases depth, 0
  {
    hide FunctionsOn, SecondaryBus;
    if p != path {
      var ys := FunctionsOn(c, SecondaryBus(c, x));
      PathsExtend(c, path, ys, depth - 1, p);
      var y :| y in ys && Extends(p, path + [y]);
      assert p[..|path|] == p[..|path| + 1][..|path|] == path;
    }
  }

  lemma OneExtension(p: seq<Device>, prefix: seq<Device>, x: Device, y: Device)
    requires Extends(p, prefix + [x]) && Extends(p, prefix + [y])
    ensures x == y
  {
    assert (prefix + [x])[|prefix|] == p[|prefix|] == (prefix + [y])[|prefix|];
  }

  lemma {:induction false} PathsDiffer(c: ConfigSpace, prefix: seq<Device>, xs: seq<Device>, depth: nat)
    requires NoneTwice(xs)
    ensures NoneTwice(Paths(c, prefix, xs, depth))
    decreases depth, |xs|
  {
    hide PathsVia;
    if xs != [] {
      var via, rest := PathsVia(c, prefix + [xs[0]], xs[0], depth), Paths(c, prefix, xs[1..], depth);
      ViaDiffer(c, prefix + [xs[0]], xs[0], depth);
      PathsDiffer(c, prefix, xs[1..], depth);
      forall p | p in via ensures p !in rest {
        ViaExtends(c, prefix + [xs[0]], xs[0], depth, p);
        if p in rest {
          PathsExtend(c, prefix, xs[1..], depth, p);
          var x :| x in xs[1..] && Extends(p, prefix + [x]);
          OneExtension(p, prefix, x, xs[0]);
        }
      }
      NoneTwiceConcat(via, rest);
    }
  }

  lemma {:induction false} ViaDiffer(c: ConfigSpace, path: seq<Device>, x: Device, depth: nat)
    ensures NoneTwice(PathsVia(c, path, x, depth))
    decreases depth, 0
  {
    hide Paths, SecondaryBus, FunctionsOn;
    if IsBridge(x) && depth > 0 {
      var ys := FunctionsOn(c, SecondaryBus(c, x));
      FunctionsOnDiffer(c, SecondaryBus(c, x));
      PathsDiffer(c, path, ys, depth - 1);
      if path in Paths(c, path, ys, depth - 1) {
        PathsExtend(c, path, ys, depth - 1, path);
      }
      NoneTwiceCons(path, Paths(c, path, ys, depth - 1));
    }
  }

  /** Each path ends in the entry at its place. */
  predicate EndIn(ps: seq<seq<Device>>, ts: seq<Device>) {
    |ps| == |ts| && forall i :: 0 <= i < |ps| ==> |ps[i]| > 0 && Last(ps[i]) == ts[i]
  }

  lemma EndInConcat(ps: seq<seq<Device>>, ts: seq<Device>, ps': seq<seq<Device>>, ts': seq<Device>)
    requires EndIn(ps, ts) && EndIn(ps', ts')
    ensures EndIn(ps + ps', ts + ts')
  {
  }

  /** The entries of the traversal are the ends of the listed paths. */
  lemma {:induction false} PathsEndInTree(c: ConfigSpace, prefix: seq<Device>, xs: seq<Device>, depth: nat)
    ensures EndIn(Paths(c, prefix, xs, depth), Tree(c, xs, depth))
    decreases depth, |xs|
  {
    hide EndIn, PathsVia, Subtree;
    if xs == [] {
      EndInNothing();
    } else {
      ViaEndsInSubtree(c, prefix, xs[0], depth);
      PathsEndInTree(c, prefix, xs[1..], depth);
      EndInConcat(PathsVia(c, prefix + [xs[0]], xs[0], depth), Subtree(c, xs[0], depth),
                  Paths(c, prefix, xs[1..], depth), Tree(c, xs[1..], depth));
    }
  }

  lemma EndInNothing()
    ensures EndIn([], [])
  {
  }

  lemma {:induction false} ViaEndsInSubtree(c: ConfigSpace, prefix: seq<Device>, x: Device, depth: nat)
    ensures EndIn(PathsVia(c, prefix + [x], x, depth), Subtree(c, x, depth))
    decreases depth, 0
  {
    hide FunctionsOn, SecondaryBus, IsBridge;
    if IsBridge(x) && depth > 0 {
      var ys := FunctionsOn(c, SecondaryBus(c, x));
      PathsEndInTree(c, prefix + [x], ys, depth - 1);
      EndInConcat([prefix + [x]], [x], Paths(c, prefix + [x], ys, depth - 1), Tree(c, ys, depth - 1));
    }
  }

  function Last(path: seq<Device>): Device
    requires path != []
  {
    path[|path| - 1]
  }

  /** Listed paths start at the root when the prefix does. */
  lemma {:induction false} PathsArePaths(c: ConfigSpace, root: Byte, prefix: seq<Device>, xs: seq<Device>, depth: nat, p: seq<Device>)
    requires forall x :: x in xs ==> IsPath(c, root, prefix + [x])
    requires p in Paths(c, prefix, xs, depth)
    ensures IsPath(c, root, p)
    decreases depth, |xs|
  {
    hide FunctionsOn, SecondaryBus, IsPath;
    if p in Paths(c, prefix, xs[1..], depth) {
      PathsArePaths(c, root, prefix, xs[1..], depth, p);
    } else if p != prefix + [xs[0]] {
      var path, bus := prefix + [xs[0]], SecondaryBus(c, xs[0]);
      forall y | y in FunctionsOn(c, bus) ensures IsPath(c, root, path + [y]) { OneStepOn(c, root, path, y); }
      PathsArePaths(c, root, path, FunctionsOn(c, bus), depth - 1, p);
    }
  }

  lemma OneStepOn(c: ConfigSpace, root: Byte, path: seq<Device>, y: Device)
    requires IsPath(c, root, path) && Behind(c, Last(path), y)
    ensures IsPath(c, root, path + [y])
  {
    hide Behind, FunctionsOn;
    var p := path + [y];
    forall i, j | 0 <= i < |p| && j == i + 1 < |p| ensures Behind(c, p[i], p[j]) {
      if j < |path| { assert Behind(c, path[i], path[j]); }
    }
  }

  /** In a tree there is one path to every function. */
  lemma {:induction false} OnePathEach(c: ConfigSpace, root: Byte, p: seq<Device>, q: seq<Device>)
    requires IsTree(c, root) && IsPath(c, root, p) && IsPath(c, root, q)
    requires p != [] && q != [] && Last(p) == Last(q)
    ensures p == q
    decreases |p|
  {
    hide IsTree, IsPath, IsBridge, Exists;
    var m, n := |p| - 1, |q| - 1;
    if m > 0 { BridgeBefore(c, root, p); } else { RootBus(c, root, p); }
    if n > 0 { BridgeBefore(c, root, q); } else { RootBus(c, root, q); }
    if m > 0 { NoWayBack(c, root, p[m - 1]); }
    if n > 0 { NoWayBack(c, root, q[n - 1]); }
    if m > 0 && n > 0 {
      OneBridge(c, root, p[m - 1], q[n - 1]);
      OnePathEach(c, root, p[..m], q[..n]);
    }
    assert p == p[..m] + [Last(p)] && q == q[..n] + [Last(q)];
  }

  lemma NoWayBack(c: ConfigSpace, root: Byte, x: Device)
    requires IsTree(c, root) && Exists(c, x) && IsBridge(x)
    ensures SecondaryBus(c, x) != root
  {
  }

  lemma OneBridge(c: ConfigSpace, root: Byte, x: Device, y: Device)
    requires IsTree(c, root) && Exists(c, x) && IsBridge(x) && Exists(c, y) && IsBridge(y)
    requires SecondaryBus(c, x) == SecondaryBus(c, y)
    ensures x == y
  {
    hide Exists, IsBridge, SecondaryBus;
  }

  lemma RootBus(c: ConfigSpace, root: Byte, p: seq<Device>)
    requires IsPath(c, root, p) && |p| == 1
    ensures Last(p).bus == root
  {
    hide BusFunctions;
    OnItsBus(c, root, 0, p[0]);
  }

  /** The bridge before the end of a path exists and leads to the bus of the end. */
  lemma BridgeBefore(c: ConfigSpace, root: Byte, p: seq<Device>)
    requires IsPath(c, root, p) && |p| > 1
    ensures var b := p[|p| - 2];
            Exists(c, b) && IsBridge(b) && SecondaryBus(c, b) == Last(p).bus
    ensures IsPath(c, root, p[..|p| - 1]) && Last(p[..|p| - 1]) == p[|p| - 2]
  {
    hide BusFunctions, SecondaryBus;
    var n := |p| - 1;
    assert Behind(c, p[n - 1], p[n]);
    OnItsBus(c, SecondaryBus(c, p[n - 1]), 0, p[n]);
    if n == 1 { OnItsBus(c, root, 0, p[0]); }
    else {
      assert Behind(c, p[n - 2], p[n - 1]);
      OnItsBus(c, SecondaryBus(c, p[n - 2]), 0, p[n - 1]);
    }
    var q := p[..n];
    forall i, j | 0 <= i < |q| && j == i + 1 < |q| ensures Behind(c, q[i], q[j]) { assert Behind(c, p[i], p[j]); }
  }

  /** On a tree no function is listed twice. */
  lemma NoFunctionTwice(c: ConfigSpace, root: Byte, depth: nat)
    requires IsTree(c, root)
    ensures NoneTwice(Preorder(c, root, depth))
  {
    hide IsTree, IsPath, FunctionsOn, Paths, Tree;
    var xs := FunctionsOn(c, root);
    var ps, ts := Paths(c, [], xs, depth), Tree(c, xs, depth);
    PathsEndInTree(c, [], xs, depth);
    FunctionsOnDiffer(c, root);
    PathsDiffer(c, [], xs, depth);
    forall x | x in xs ensures IsPath(c, root, [] + [x]) {
      OnePath(c, root, x);
      assert [] + [x] == [x];
    }
    forall i, j | 0 <= i < j < |ts| ensures ts[i] != ts[j] {
      PathsArePaths(c, root, [], xs, depth, ps[i]);
      PathsArePaths(c, root, [], xs, depth, ps[j]);
      if ts[i] == ts[j] { OnePathEach(c, root, ps[i], ps[j]); }
    }
  }

  lemma OnePath(c: ConfigSpace, root: Byte, x: Device)
    requires x in FunctionsOn(c, root)
    ensures IsPath(c, root, [x])
  {
  }

  // ---------------------------------------------------------------- nothing is missed

  /** Which functions are on a bus: function 0 of every device that answers, and for the devices
      that say they have several, the other functions that answer. */
  predicate Answers(c: ConfigSpace, bus: Byte, device: DeviceNumber, func: FunctionNumber) {
    && VendorId(c, bus, device, 0) != NO_VENDOR
    && (func == 0 ||
        (!IsSingleFunction(HeaderType(c, bus, device, 0)) && VendorId(c, bus, device, func) != NO_VENDOR))
  }

  lemma SameDevice(c: ConfigSpace, bus: Byte, device: DeviceNumber, f: FunctionNumber, g: FunctionNumber)
    ensures DeviceAt(c, bus, device, f) == DeviceAt(c, bus, device, g) <==> f == g
  {
    hide HeaderType, ClassCodeOf;
  }

  lemma {:induction false} FromFunctionIsExact(c: ConfigSpace, bus: Byte, device: DeviceNumber, f: nat, func: FunctionNumber)
    requires f <= 8
    ensures DeviceAt(c, bus, device, func) in FunctionsFrom(c, bus, device, f) <==>
            func >= f && VendorId(c, bus, device, func) != NO_VENDOR
    decreases 8 - f
  {
    hide VendorId, DeviceAt;
    if f < 8 {
      FromFunctionIsExact(c, bus, device, f + 1, func);
      SameDevice(c, bus, device, func, f);
    }
  }

  lemma FieldsOf(c: ConfigSpace, bus: Byte, device: DeviceNumber, func: FunctionNumber)
    ensures DeviceAt(c, bus, device, func).device == device
  {
  }

  lemma {:induction false} FromDeviceIsExact(c: ConfigSpace, bus: Byte, d: nat, device: DeviceNumber, func: FunctionNumber)
    requires d <= 32
    ensures DeviceAt(c, bus, device, func) in BusFunctions(c, bus, d) <==> device >= d && Answers(c, bus, device, func)
    decreases 32 - d
  {
    hide DeviceFunctions, VendorId, Answers, DeviceAt;
    if d < 32 {
      var x := DeviceAt(c, bus, device, func);
      FieldsOf(c, bus, device, func);
      FromDeviceIsExact(c, bus, d + 1, device, func);
      if x in DeviceFunctions(c, bus, d) { OfItsDevice(c, bus, d, x); }
      OnDevice(c, bus, device, func);
    }
  }

  lemma OnDevice(c: ConfigSpace, bus: Byte, device: DeviceNumber, func: FunctionNumber)
    ensures VendorId(c, bus, device, 0) != NO_VENDOR && DeviceAt(c, bus, device, func) in DeviceFunctions(c, bus, device) <==>
            Answers(c, bus, device, func)
  {
    hide FunctionsFrom, VendorId, DeviceAt;
    FromFunctionIsExact(c, bus, device, 1, func);
    SameDevice(c, bus, device, func, 0);
  }

  lemma FunctionsOnIsExact(c: ConfigSpace, bus: Byte, device: DeviceNumber, func: FunctionNumber)
    ensures DeviceAt(c, bus, device, func) in FunctionsOn(c, bus) <==> Answers(c, bus, device, func)
  {
    hide BusFunctions, Answers;
    FromDeviceIsExact(c, bus, 0, device, func);
  }

  lemma {:induction false} TreeHasSubtrees(c: ConfigSpace, xs: seq<Device>, depth: nat, x: Device, y: Device)
    requires x in xs && y in Subtree(c, x, depth)
    ensures y in Tree(c, xs, depth)
  {
    hide Subtree, FunctionsOn;
    if x != xs[0] { TreeHasSubtrees(c, xs[1..], depth, x, y); }
  }

  /** Every function that some path of bridges leads to is listed, when bridges are followed as
      deep as the path is long. */
  lemma {:induction false} PathsAreListed(c: ConfigSpace, root: Byte, p: seq<Device>, depth: nat)
    requires IsPath(c, root, p) && p != [] && |p| <= depth + 1
    ensures Last(p) in Preorder(c, root, depth)
    decreases depth
  {
    hide FunctionsOn, SecondaryBus, Tree, IsBridge;
    var x, xs := p[0], FunctionsOn(c, root);
    if |p| == 1 {
      TreeHasSubtrees(c, xs, depth, x, x);
    } else {
      assert Behind(c, p[0], p[1]);
      var rest := p[1..];
      forall i, j | 0 <= i < |rest| && j == i + 1 < |rest| ensures Behind(c, rest[i], rest[j]) { assert Behind(c, p[i + 1], p[j + 1]); }
      PathsAreListed(c, SecondaryBus(c, x), rest, depth - 1);
      TreeHasSubtrees(c, xs, depth, x, Last(p));
    }
  }

  // ---------------------------------------------------------------- the scan

  /** What the table holds, and whether the scan fails, when these entries are added to it. */
  predicate Filled(before: seq<Device>, xs: seq<Device>, after: seq<Device>, err: Error) {
    && after == Take(TABLE_SIZE, before + xs)
    && err == if |before + xs| > TABLE_SIZE then Full else Success
  }

  lemma FilledMore(before: seq<Device>, xs: seq<Device>, mid: seq<Device>, ys: seq<Device>, after: seq<Device>, err: Error)
    requires Filled(before, xs, mid, Success) && Filled(mid, ys, after, err)
    ensures Filled(before, xs + ys, after, err)
  {
    assert before + (xs + ys) == (before + xs) + ys;
  }

  lemma FilledUp(before: seq<Device>, xs: seq<Device>, ys: seq<Device>, after: seq<Device>)
    requires Filled(before, xs, after, Full)
    ensures Filled(before, xs + ys, after, Full)
  {
    assert before + (xs + ys) == (before + xs) + ys;
  }

  /** One more step of a loop that has added `done` and has `rest` to come. */
  lemma FilledOneMore(before: seq<Device>, done: seq<Device>, mid: seq<Device>, more: seq<Device>, rest: seq<Device>,
                      after: seq<Device>, err: Error)
    requires Filled(before, done, mid, Success) && Filled(mid, more, after, err)
    ensures (done + more) + rest == done + (more + rest)
    ensures if err == Success then Filled(before, done + more, after, Success)
            else Filled(before, done + (more + rest), after, err)
  {
    assert (done + more) + rest == done + (more + rest);
    FilledMore(before, done, mid, more, after, err);
    if err != Success {
      AddedOrFull(before, done + more, after, err);
      FilledUp(before, done + more, rest, after);
    }
  }

  class Scanner {
    const config: ConfigSpace
    var address: Word
    const devices: array<Device>
    var numDevice: nat

    constructor (c: ConfigSpace)
      ensures Valid() && config == c && Contents() == [] && fresh(devices)
    {
      config, address, numDevice := c, 0, 0;
      devices := new Device[TABLE_SIZE](i => NO_DEVICE);
    }

    ghost predicate Valid()
      reads this
    {
      devices.Length == TABLE_SIZE && numDevice <= TABLE_SIZE
    }

    ghost function Contents(): seq<Device>
      reads this, devices
      requires Valid()
    {
      devices[..numDevice]
    }

    /** A read of the data register, after the address register is written. */
    method ReadRegister(bus: Byte, device: DeviceNumber, f: FunctionNumber, reg: Byte) returns (w: Word)
      modifies this`address
      ensures w == Read(config, bus, device, f, reg)
    {
      address := MakeConfigAddress(bus, device, f, reg);
      w := config(address);
    }

    method ReadVendorId(bus: Byte, device: DeviceNumber, f: FunctionNumber) returns (v: nat)
      modifies this`address
      ensures v == VendorId(config, bus, device, f)
    {
      var w := ReadRegister(bus, device, f, 0);
      v := w % 0x1_0000;
    }

    method ReadHeaderType(bus: Byte, device: DeviceNumber, f: FunctionNumber) returns (h: nat)
      modifies this`address
      ensures h == HeaderType(config, bus, device, f)
    {
      var w := ReadRegister(bus, device, f, 0x0c);
      h := w / 0x1_0000 % 0x100;
    }

    method ReadClassCode(bus: Byte, device: DeviceNumber, f: FunctionNumber) returns (c: ClassCode)
      modifies this`address
      ensures c == ClassCodeOf(config, bus, device, f)
    {
      var w := ReadRegister(bus, device, f, 0x08);
      c := ClassCode(w / 0x100_0000 % 0x100, w / 0x1_0000 % 0x100, w / 0x100 % 0x100);
    }

    method AddDevice(x: Device) returns (err: Error)
      requires Valid()
      modifies this`numDevice, devices
      ensures Valid() && Filled(old(Contents()), [x], Contents(), err)
      ensures numDevice == old(numDevice) + if err == Success then 1 else 0
    {
      if numDevice == devices.Length {
        return Full;
      }
      devices[numDevice] := x;
      numDevice := numDevice + 1;
      return Success;
    }

    method ScanFunction(bus: Byte, device: DeviceNumber, f: FunctionNumber, ghost depth: nat) returns (err: Error)
      requires Valid() && TABLE_SIZE - numDevice <= depth
      modifies this`address, this`numDevice, devices
      ensures Valid() && numDevice >= old(numDevice)
      ensures Filled(old(Contents()), Subtree(config, DeviceAt(config, bus, device, f), depth), Contents(), err)
      decreases TABLE_SIZE - numDevice, 0
    {
      hide FunctionsOn, Filled, VendorId;
      ghost var before := Contents();
      var classCode := ReadClassCode(bus, device, f);
      var headerType := ReadHeaderType(bus, device, f);
      var dev := Device(bus, device, f, headerType, classCode);
      err := AddDevice(dev);
      if err != Success {
        AddedOrFull(before, [dev], Contents(), err);
        FilledUp(before, [dev], Subtree(config, dev, depth)[1..], Contents());
        assert [dev] + Subtree(config, dev, depth)[1..] == Subtree(config, dev, depth);
        return;
      }
      if classCode.base == 0x06 && classCode.sub == 0x04 {
        var busNumbers := ReadRegister(bus, device, f, 0x18);
        ghost var mid := Contents();
        err := ScanBus(busNumbers / 0x100 % 0x100, depth - 1);
        FilledMore(before, [dev], mid, Preorder(config, SecondaryBus(config, dev), depth - 1), Contents(), err);
        return;
      }
      assert [dev] + [] == [dev];
      return Success;
    }

    method ScanDevice(bus: Byte, device: DeviceNumber, ghost depth: nat) returns (err: Error)
      requires Valid() && TABLE_SIZE - numDevice <= depth
      modifies this`address, this`numDevice, devices
      ensures Valid() && numDevice >= old(numDevice)
      ensures Filled(old(Contents()), Tree(config, DeviceFunctions(config, bus, device), depth), Contents(), err)
      decreases TABLE_SIZE - numDevice, 1
    {
      hide FunctionsOn, Filled, FunctionsFrom, Subtree, HeaderType;
      ghost var before, x := Contents(), DeviceAt(config, bus, device, 0);
      ghost var all := Tree(config, DeviceFunctions(config, bus, device), depth);
      FirstFunction(config, bus, device, depth);
      err := ScanFunction(bus, device, 0, depth);
      if err != Success {
        AddedOrFull(before, Subtree(config, x, depth), Contents(), err);
        FilledUp(before, Subtree(config, x, depth), Tree(config, DeviceFunctions(config, bus, device)[1..], depth), Contents());
        return;
      }
      var headerType := ReadHeaderType(bus, device, 0);
      if IsSingleFunction(headerType) {
        return Success;
      }
      var f := 1;
      ghost var done := Subtree(config, x, depth);
      while f < 8
        invariant 1 <= f <= 8 && Valid() && numDevice >= old(numDevice)
        invariant Filled(before, done, Contents(), Success)
        invariant done + Tree(config, FunctionsFrom(config, bus, device, f), depth) == all
      {
        NextFunction(config, bus, device, f, depth);
        var v := ReadVendorId(bus, device, f);
        if v != NO_VENDOR {
          ghost var mid, more := Contents(), Subtree(config, DeviceAt(config, bus, device, f), depth);
          ghost var rest := Tree(config, FunctionsFrom(config, bus, device, f + 1), depth);
          err := ScanFunction(bus, device, f, depth);
          FilledOneMore(before, done, mid, more, rest, Contents(), err);
          if err != Success {
            return;
          }
          done := done + more;
        }
        f := f + 1;
      }
      NoMoreFunctions(config, bus, device, depth);
      assert done + [] == done;
      return Success;
    }

    method ScanBus(bus: Byte, ghost depth: nat) returns (err: Error)
      requires Valid() && TABLE_SIZE - numDevice <= depth
      modifies this`address, this`numDevice, devices
      ensures Valid() && numDevice >= old(numDevice)
      ensures Filled(old(Contents()), Preorder(config, bus, depth), Contents(), err)
      decreases TABLE_SIZE - numDevice, 2
    {
      hide Filled, Tree, VendorId, DeviceFunctions, BusFunctions;
      ghost var before, all := Contents(), Preorder(config, bus, depth);
      var device := 0;
      ghost var done: seq<Device> := [];
      NothingFilled(before);
      assert [] + all == all;
      while device < 32
        invariant device <= 32 && Valid() && numDevice >= old(numDevice)
        invariant Filled(before, done, Contents(), Success)
        invariant done + Tree(config, BusFunctions(config, bus, device), depth) == all
      {
        NextDevice(config, bus, device, depth);
        var v := ReadVendorId(bus, device, 0);
        if v != NO_VENDOR {
          ghost var mid, more := Contents(), Tree(config, DeviceFunctions(config, bus, device), depth);
          ghost var rest := Tree(config, BusFunctions(config, bus, device + 1), depth);
          err := ScanDevice(bus, device, depth);
          FilledOneMore(before, done, mid, more, rest, Contents(), err);
          if err != Success {
            return;
          }
          done := done + more;
        }
        device := device + 1;
      }
      NoMoreDevices(config, bus, depth);
      assert done + [] == done;
      return Success;
    }
  }

  lemma AddedOrFull(before: seq<Device>, xs: seq<Device>, after: seq<Device>, err: Error)
    requires Filled(before, xs, after, err)
    ensures err == Success || err == Full
  {
  }

  lemma NothingFilled(before: seq<Device>)
    requires |before| <= TABLE_SIZE
    ensures Filled(before, [], before, Success)
  {
    assert before + [] == before;
  }

  lemma FirstFunction(c: ConfigSpace, bus: Byte, device: DeviceNumber, depth: nat)
    ensures var (x, xs) := (DeviceAt(c, bus, device, 0), DeviceFunctions(c, bus, device));
            && xs != []
            && Tree(c, xs, depth) == Subtree(c, x, depth) + Tree(c, xs[1..], depth)
            && Tree(c, xs[1..], depth) == (if IsSingleFunction(HeaderType(c, bus, device, 0)) then []
                                           else Tree(c, FunctionsFrom(c, bus, device, 1), depth))
            && (IsSingleFunction(HeaderType(c, bus, device, 0)) ==> Tree(c, xs, depth) == Subtree(c, x, depth))
  {
    hide FunctionsFrom, Subtree, FunctionsOn;
    var x, xs := DeviceAt(c, bus, device, 0), DeviceFunctions(c, bus, device);
    var rest := if IsSingleFunction(HeaderType(c, bus, device, 0)) then [] else FunctionsFrom(c, bus, device, 1);
    assert xs == [x] + rest && xs[1..] == rest;
  }

  lemma TreeCons(c: ConfigSpace, x: Device, xs: seq<Device>, depth: nat)
    ensures Tree(c, [x] + xs, depth) == Subtree(c, x, depth) + Tree(c, xs, depth)
  {
    hide Subtree, FunctionsOn;
    assert ([x] + xs)[1..] == xs;
  }

  lemma NextFunction(c: ConfigSpace, bus: Byte, device: DeviceNumber, f: nat, depth: nat)
    requires f < 8
    ensures var rest := Tree(c, FunctionsFrom(c, bus, device, f + 1), depth);
            Tree(c, FunctionsFrom(c, bus, device, f), depth) ==
            if VendorId(c, bus, device, f) == NO_VENDOR then rest
            else Subtree(c, DeviceAt(c, bus, device, f), depth) + rest
  {
    hide VendorId, Tree, DeviceAt;
    var x, rest := DeviceAt(c, bus, device, f), FunctionsFrom(c, bus, device, f + 1);
    assert [] + rest == rest;
    TreeCons(c, x, rest, depth);
  }

  lemma NoMoreFunctions(c: ConfigSpace, bus: Byte, device: DeviceNumber, depth: nat)
    ensures Tree(c, FunctionsFrom(c, bus, device, 8), depth) == []
  {
  }

  lemma NextDevice(c: ConfigSpace, bus: Byte, device: DeviceNumber, depth: nat)
    ensures var rest := Tree(c, BusFunctions(c, bus, device + 1), depth);
            Tree(c, BusFunctions(c, bus, device), depth) ==
            if VendorId(c, bus, device, 0) == NO_VENDOR then rest
            else Tree(c, DeviceFunctions(c, bus, device), depth) + rest
  {
    hide VendorId, DeviceFunctions, Tree;
    var xs, rest := DeviceFunctions(c, bus, device), BusFunctions(c, bus, device + 1);
    TreeConcat(c, xs, rest, depth);
    assert [] + rest == rest;
  }

  lemma NoMoreDevices(c: ConfigSpace, bus: Byte, depth: nat)
    ensures Tree(c, BusFunctions(c, bus, 32), depth) == []
  {
  }

  /** What a scan of an empty table comes to, on any configuration space: the first 32 entries
      of the preorder, however deep the bridges are followed; all of it, when it reports no
      error, and it reports one exactly when there are more; and no function twice on a tree. */
  lemma ScanResult(c: ConfigSpace, bus: Byte, depth: nat, e: nat, after: seq<Device>, err: Error)
    requires depth >= TABLE_SIZE && e >= TABLE_SIZE
    requires Filled([], Preorder(c, bus, depth), after, err)
    ensures after == Take(TABLE_SIZE, Preorder(c, bus, e))
    ensures err == (if |Preorder(c, bus, e)| > TABLE_SIZE then Full else Success)
    ensures err == Success ==> after == Preorder(c, bus, e)
    ensures IsTree(c, bus) ==> NoneTwice(after)
  {
    hide FunctionsOn, IsTree, Tree;
    var xs := FunctionsOn(c, bus);
    var s, t := Tree(c, xs, depth), Tree(c, xs, e);
    BeginningIsStable(c, xs, depth, e, TABLE_SIZE);
    assert [] + s == s;
    assert Take(TABLE_SIZE, s) == Take(TABLE_SIZE, Take(TABLE_SIZE + 1, s));
    assert Take(TABLE_SIZE, t) == Take(TABLE_SIZE, Take(TABLE_SIZE + 1, t));
    if IsTree(c, bus) { NoFunctionTwice(c, bus, depth); }
  }

  /** A scan without an error has found every function that any path of bridges leads to, and
      nothing else. */
  lemma ScanFindsExactlyTheReachable(c: ConfigSpace, bus: Byte, depth: nat, after: seq<Device>, x: Device)
    requires depth >= TABLE_SIZE && Filled([], Preorder(c, bus, depth), after, Success)
    ensures x in after <==> exists p :: p != [] && IsPath(c, bus, p) && Last(p) == x
  {
    hide IsPath, Filled, FunctionsOn, Tree, IsTree;
    if p :| p != [] && IsPath(c, bus, p) && Last(p) == x {
      var e := depth + |p|;
      ScanResult(c, bus, depth, e, after, Success);
      PathsAreListed(c, bus, p, e);
    }
    if x in after {
      ScanResult(c, bus, depth, depth, after, Success);
      ListedHasPath(c, bus, depth, x);
    }
  }

  lemma ListedHasPath(c: ConfigSpace, root: Byte, depth: nat, x: Device)
    requires x in Preorder(c, root, depth)
    ensures exists p :: p != [] && IsPath(c, root, p) && Last(p) == x
  {
    hide IsPath, FunctionsOn, Paths, Tree;
    var xs := FunctionsOn(c, root);
    PathsEndInTree(c, [], xs, depth);
    var i :| 0 <= i < |Tree(c, xs, depth)| && Tree(c, xs, depth)[i] == x;
    var p := Paths(c, [], xs, depth)[i];
    forall y | y in xs ensures IsPath(c, root, [] + [y]) {
      OnePath(c, root, y);
      assert [] + [y] == [y];
    }
    PathsArePaths(c, root, [], xs, depth, p);
  }
}
