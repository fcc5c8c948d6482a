/** USB descriptors as bytes, and the reader that walks a configuration descriptor block
    (section 9.6 of the USB 2.0 specification: byte 0 is the length, byte 1 the type). */
module Descriptors {
  import opened ArrayMaps
  import opened Trbs

  const DEVICE_TYPE := 1
  const CONFIGURATION_TYPE := 2
  const INTERFACE_TYPE := 4
  const ENDPOINT_TYPE := 5

  type Descriptor = seq<Byte>

  /** The length byte is right and the fields that are read lie inside. */
  predicate WellFormed(d: Descriptor) {
    && 2 <= |d| && d[0] == |d|
    && (d[1] == DEVICE_TYPE ==> |d| >= 18)
    && (d[1] == CONFIGURATION_TYPE || d[1] == INTERFACE_TYPE ==> |d| >= 9)
    && (d[1] == ENDPOINT_TYPE ==> |d| >= 7)
  }

  predicate AllWellFormed(ds: seq<Descriptor>) {
    forall i :: 0 <= i < |ds| ==> WellFormed(ds[i])
  }

  function Serialize(ds: seq<Descriptor>): seq<Byte> {
    if ds == [] then [] else ds[0] + Serialize(ds[1..])
  }

  /** Where descriptor `k` starts. */
  function Offset(ds: seq<Descriptor>, k: nat): nat
    requires k <= |ds|
  {
    if k == 0 then 0 else |ds[0]| + Offset(ds[1..], k - 1)
  }

  lemma {:induction false} OffsetEnd(ds: seq<Descriptor>)
    ensures Offset(ds, |ds|) == |Serialize(ds)|
  {
    if ds != [] { OffsetEnd(ds[1..]); }
  }

  lemma {:induction false} OffsetStep(ds: seq<Descriptor>, k: nat)
    requires k < |ds|
    ensures Offset(ds, k + 1) == Offset(ds, k) + |ds[k]|
  {
    if k > 0 { OffsetStep(ds[1..], k - 1); }
  }

  lemma {:induction false} OffsetBound(ds: seq<Descriptor>, k: nat)
    requires k <= |ds| && AllWellFormed(ds)
    ensures Offset(ds, k) + 2 * (|ds| - k) <= |Serialize(ds)|
  {
    if k > 0 {
      OffsetBound(ds[1..], k - 1);
    } else if ds != [] {
      OffsetBound(ds[1..], 0);
      assert WellFormed(ds[0]);
    }
  }

  /** Descriptor `k` lies at its offset. */
  lemma {:induction false} BytesAt(ds: seq<Descriptor>, k: nat)
    requires k < |ds|
    ensures Offset(ds, k) + |ds[k]| <= |Serialize(ds)|
    ensures Serialize(ds)[Offset(ds, k)..Offset(ds, k) + |ds[k]|] == ds[k]
  {
    if k > 0 {
      var (rest, o) := (Serialize(ds[1..]), Offset(ds[1..], k - 1));
      BytesAt(ds[1..], k - 1);
      assert Serialize(ds)[|ds[0]| + o..|ds[0]| + o + |ds[k]|] == rest[o..o + |ds[k]|];
    }
  }

  /** Where the reader goes from position `p`. */
  function NextPosition(buf: seq<Byte>, p: nat): nat
    requires p < |buf|
  {
    p + buf[p]
  }

  /** The positions that iterating the reader from `p` yields before it returns null. A
      zero length byte would make the reader stand still; the walk ends there. */
  function Walk(buf: seq<Byte>, p: nat): seq<nat>
    requires p < |buf|
    decreases |buf| - p
  {
    var q := NextPosition(buf, p);
    if buf[p] == 0 || q >= |buf| then [] else [q] + Walk(buf, q)
  }

  lemma NextIsNextDescriptor(ds: seq<Descriptor>, k: nat)
    requires k < |ds| && AllWellFormed(ds)
    ensures Offset(ds, k) < |Serialize(ds)|
    ensures NextPosition(Serialize(ds), Offset(ds, k)) == Offset(ds, k + 1)
    ensures Offset(ds, k + 1) < |Serialize(ds)| <==> k + 1 < |ds|
    ensures Serialize(ds)[Offset(ds, k)] > 0
  {
    BytesAt(ds, k);
    OffsetStep(ds, k);
    OffsetBound(ds, k + 1);
    OffsetEnd(ds);
    assert WellFormed(ds[k]);
    assert Serialize(ds)[Offset(ds, k)] == ds[k][0];
  }

  lemma {:induction false} WalkFrom(ds: seq<Descriptor>, k: nat)
    requires k < |ds| && AllWellFormed(ds)
    requires Offset(ds, k) < |Serialize(ds)|
    ensures |Walk(Serialize(ds), Offset(ds, k))| == |ds| - 1 - k
    ensures forall i :: 0 <= i < |ds| - 1 - k ==>
              Walk(Serialize(ds), Offset(ds, k))[i] == Offset(ds, k + 1 + i)
    decreases |ds| - k
  {
    NextIsNextDescriptor(ds, k);
    if k + 1 < |ds| { WalkFrom(ds, k + 1); }
  }

  /** The bytes that a reader returning position `q` points at. */
  function DescriptorAt(buf: seq<Byte>, q: nat): Descriptor
    requires q < |buf|
  {
    if q + buf[q] <= |buf| then buf[q..q + buf[q]] else []
  }

  /** Round trip: reading back any serialised block yields every descriptor after the
      first, in order, and then null, in fewer steps than there are bytes. */
  lemma ReaderRoundTrip(ds: seq<Descriptor>)
    requires ds != [] && AllWellFormed(ds)
    ensures var buf := Serialize(ds);
            && 0 < |buf|
            && |Walk(buf, 0)| == |ds| - 1 < |buf|
            && forall i :: 0 <= i < |ds| - 1 ==>
                 Walk(buf, 0)[i] < |buf| && DescriptorAt(buf, Walk(buf, 0)[i]) == ds[i + 1]
  {
    OffsetBound(ds, 0);
    WalkFrom(ds, 0);
    hide Offset, Serialize, Walk, DescriptorAt;
    forall i | 0 <= i < |ds| - 1
      ensures Walk(Serialize(ds), 0)[i] < |Serialize(ds)|
      ensures DescriptorAt(Serialize(ds), Walk(Serialize(ds), 0)[i]) == ds[i + 1]
    {
      DescriptorIsRead(ds, i + 1);
    }
  }

  lemma DescriptorIsRead(ds: seq<Descriptor>, k: nat)
    requires k < |ds| && AllWellFormed(ds)
    ensures Offset(ds, k) < |Serialize(ds)| && DescriptorAt(Serialize(ds), Offset(ds, k)) == ds[k]
  {
    NextIsNextDescriptor(ds, k);
    OffsetStep(ds, k);
    BytesAt(ds, k);
    hide Offset, Serialize;
  }

  // ---------------------------------------------------------------- the selection

  datatype DriverKind = Keyboard | Mouse

  /** A class driver, named by its kind and the interface it serves. */
  datatype ClassDriver = ClassDriver(kind: DriverKind, interfaceNumber: Byte)

  // the transfer types of an endpoint
  const CONTROL := 0
  const ISOCHRONOUS := 1
  const BULK := 2
  const INTERRUPT := 3

  datatype EndpointConfig = EndpointConfig(number: nat, isIn: bool, kind: nat, maxPacketSize: nat, interval: nat)

  predicate IsInterface(d: Descriptor) { |d| >= 9 && d[1] == INTERFACE_TYPE }

  predicate IsEndpoint(d: Descriptor) { |d| >= 7 && d[1] == ENDPOINT_TYPE }

  /** HID class, boot interface subclass, keyboard or mouse protocol. */
  function NewClassDriver(d: Descriptor): Option<ClassDriver>
    requires IsInterface(d)
  {
    if d[5] == 3 && d[6] == 1 && d[7] == 1 then Some(ClassDriver(Keyboard, d[2]))
    else if d[5] == 3 && d[6] == 1 && d[7] == 2 then Some(ClassDriver(Mouse, d[2]))
    else None
  }

  function MakeEPConfig(d: Descriptor): EndpointConfig
    requires IsEndpoint(d)
  {
    var (low: int, high: int) := (d[4], d[5]);
    EndpointConfig(d[2] % 16, d[2] / 0x80 == 1, d[3] % 4, low + 0x100 * high, d[6])
  }

  predicate Selected(d: Descriptor) { IsInterface(d) && NewClassDriver(d).Some? }

  /** The first interface from `k` on that has a driver, or the length. */
  function FirstSelected(ds: seq<Descriptor>, k: nat): (r: nat)
    requires k <= |ds|
    ensures k <= r <= |ds|
    ensures r < |ds| ==> Selected(ds[r])
    ensures forall j :: k <= j < r ==> !Selected(ds[j])
    decreases |ds| - k
  {
    if k == |ds| || Selected(ds[k]) then k else FirstSelected(ds, k + 1)
  }

  /** The endpoint descriptors between position `k` and the next interface. */
  function OwnEndpoints(ds: seq<Descriptor>, k: nat): seq<EndpointConfig>
    requires k <= |ds|
    decreases |ds| - k
  {
    if k == |ds| || IsInterface(ds[k]) then []
    else (if IsEndpoint(ds[k]) then [MakeEPConfig(ds[k])] else []) + OwnEndpoints(ds, k + 1)
  }

  const MAX_ENDPOINTS := 16

  /** Every interface is followed by the endpoints it declares. */
  predicate EndpointsFollow(ds: seq<Descriptor>) {
    forall i :: 0 <= i < |ds| && IsInterface(ds[i]) ==> ds[i][4] == |OwnEndpoints(ds, i + 1)|
  }

  /** The reader, with its position in the buffer. */
  class ConfigurationDescriptorReader {
    const buf: seq<Byte>
    var p: nat

    constructor (buf: seq<Byte>)
      ensures this.buf == buf && p == 0
    {
      this.buf, p := buf, 0;
    }

    /** The next position, or none past the end. */
    method Next() returns (r: Option<nat>)
      requires p < |buf|
      modifies this`p
      ensures p == NextPosition(buf, old(p))
      ensures r == if p < |buf| then Some(p) else None
    {
      p := p + buf[p];
      if p < |buf| {
        return Some(p);
      }
      return None;
    }

    /** The reader stands on descriptor `k` of the block `ds`. */
    ghost predicate On(ds: seq<Descriptor>, k: nat)
      reads this`p
    {
      && AllWellFormed(ds) && k < |ds| && buf == Serialize(ds) && p == Offset(ds, k)
    }

    /** `Next` restricted to one descriptor type. */
    method NextOf(kind: Byte, ghost ds: seq<Descriptor>, ghost k: nat) returns (r: Option<Descriptor>, ghost k': nat)
      requires On(ds, k)
      modifies this`p
      ensures k < k' <= |ds|
      ensures forall j :: k < j < k' ==> ds[j][1] != kind
      ensures r.Some? ==> On(ds, k') && r.value == ds[k'] && ds[k'][1] == kind
      ensures r.None? ==> k' == |ds|
    {
      k' := k;
      while true
        invariant k <= k' < |ds| && On(ds, k')
        invariant forall j :: k < j <= k' ==> ds[j][1] != kind
        decreases |ds| - k'
      {
        NextIsNextDescriptor(ds, k');
        var n := Next();
        k' := k' + 1;
        if n.None? {
          return None, k';
        }
        NextIsNextDescriptor(ds, k');
        BytesAt(ds, k');
        assert WellFormed(ds[k']);
        var d := DescriptorAt(buf, n.value);
        assert d == ds[k'];
        if d[1] == kind {
          return Some(d), k';
        }
      }
    }

    /** One `Next`, as the endpoint loop uses it. */
    method NextAny(ghost ds: seq<Descriptor>, ghost k: nat) returns (d: Descriptor)
      requires On(ds, k) && k + 1 < |ds|
      modifies this`p
      ensures On(ds, k + 1) && d == ds[k + 1]
    {
      NextIsNextDescriptor(ds, k);
      var n := Next();
      NextIsNextDescriptor(ds, k + 1);
      BytesAt(ds, k + 1);
      d := DescriptorAt(buf, n.value);
    }
  }
}
