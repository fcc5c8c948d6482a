/** The memory pool of the USB driver: a pointer that only moves up, past what it hands out and
    past what alignment and boundary make it skip. */
module Allocators {
  import opened ArrayMaps
  import opened Bits
  import opened Trbs

  const POOL_SIZE := 4096 * 32

  /** A parameter of a request (`unsigned int`): nothing, or a power of two. */
  type Constraint = c: nat | c == 0 || IsPower(c) witness 0

  ghost predicate IsPower(c: nat) { exists k :: 0 <= k < 32 && c == Pow2(k) }

  /** The source's rounding in 64-bit arithmetic, where the sum may wrap around. */
  function Ceil(value: Address, alignment: nat): Address
    requires 0 < alignment <= TWO_64
  {
    var sum := (value + alignment - 1) % TWO_64;
    AndAtMost(sum, TWO_64 - 1 - (alignment - 1));
    And(sum, TWO_64 - 1 - (alignment - 1))
  }

  /** For a power of two and a sum that fits, the result is the least multiple at or above. */
  lemma CeilIsLeastMultiple(value: Address, k: nat)
    requires k < 32 && value + Pow2(k) - 1 < TWO_64
    ensures 0 < Pow2(k) <= TWO_64
    ensures var r := Ceil(value, Pow2(k));
            r % Pow2(k) == 0 && value <= r < value + Pow2(k)
  {
    hide Pow2, And;
    WordIsPow2();
    Pow2Monotone(k, 64);
    MaskLowBits(value + Pow2(k) - 1, k, 64);
    RoundUp(value, Pow2(k));
  }

  lemma RoundUp(value: nat, d: nat)
    requires d > 0
    ensures var sum := value + d - 1;
            (sum - sum % d) % d == 0 && value <= sum - sum % d < value + d
  {
    var sum := value + d - 1;
    DivMod(sum, d);
    DivModUnique(d * (sum / d), d, sum / d, 0);
  }

  /** Multiples of a power of two are multiples of the smaller ones. */
  lemma MultipleOfLess(x: nat, i: nat, j: nat)
    requires i <= j && x % Pow2(j) == 0
    ensures x % Pow2(i) == 0
  {
    hide Pow2;
    var (d, e) := (Pow2(i), Pow2(j - i));
    Pow2Sum(j - i, i);
    DivMod(x, Pow2(j));
    var q := x / Pow2(j);
    assert x == d * (e * q) by { assert x == e * d * q; }
    DivModUnique(x, d, e * q, 0);
  }

  /** Nothing lies between a number and the least multiple at or above it. */
  lemma LeastIsLeast(value: nat, r: nat, m: nat, d: nat)
    requires d > 0 && r % d == 0 && m % d == 0 && value <= m && r < value + d
    ensures r <= m
  {
    DivMod(r, d);
    DivMod(m, d);
    if m / d < r / d { Times(d, m / d + 1, r / d); } else { Times(d, r / d, m / d); }
  }

  // ---------------------------------------------------------------- one request

  datatype Request = Request(size: nat, alignment: Constraint, boundary: Constraint)

  /** Where the block of a request starts, if it fits. */
  function Place(ptr: Address, r: Request): Address {
    var p := if r.alignment > 0 then PowerBound(r.alignment); Ceil(ptr, r.alignment) else ptr;
    if r.boundary > 0 then
      PowerBound(r.boundary);
      var next := Ceil(p, r.boundary);
      if next < (p + r.size) % TWO_64 then next else p
    else p
  }

  lemma PowerBound(c: Constraint)
    requires c > 0
    ensures c <= 0x8000_0000
  {
    hide Pow2;
    assert IsPower(c);
    var k :| 0 <= k < 32 && c == Pow2(k);
    Pow2Monotone(k, 31);
    Pow2Of31();
  }

  lemma Pow2Of31()
    ensures Pow2(31) == 0x8000_0000
  {
    assert Pow2(7) == 0x80 && Pow2(8) == 0x100;
    hide Pow2;
    Pow2Sum(8, 8);
    Pow2Sum(16, 8);
    Pow2Sum(24, 7);
  }

  /** The block that is handed out, if any, and the pointer afterwards. A request that does not
      fit leaves the pointer where its block would have started. */
  function AllocMem(pool: Address, ptr: Address, r: Request): (Option<Address>, Address) {
    var p := Place(ptr, r);
    var end := (p + r.size) % TWO_64;
    if (pool + POOL_SIZE) % TWO_64 < end then (None, p) else (Some(p), end)
  }

  /** What alignment and boundary may make a request skip. */
  function Padding(r: Request): nat {
    if r.alignment > r.boundary then r.alignment - 1 else if r.boundary > 0 then r.boundary - 1 else 0
  }

  predicate NoWrap(ptr: Address, r: Request) {
    ptr + r.size + 0x1_0000_0000 < TWO_64
  }

  predicate WithinBoundary(p: nat, r: Request) {
    0 < r.size <= r.boundary ==> p / r.boundary == (p + r.size - 1) / r.boundary
  }

  predicate Aligned(p: nat, r: Request) {
    r.alignment > 0 ==> p % r.alignment == 0
  }

  /** The next boundary from an aligned pointer stays aligned and is never far. */
  lemma BoundaryKeepsAlignment(ptr: Address, i: nat, j: nat)
    requires i < 32 && j < 32 && ptr + 0x1_0000_0000 < TWO_64
    ensures Pow2(i) <= TWO_64 && Pow2(j) <= TWO_64
    ensures var (p, max) := (Ceil(ptr, Pow2(i)), if i > j then Pow2(i) else Pow2(j));
            && p < TWO_64
            && p % Pow2(i) == 0 && Ceil(p, Pow2(j)) % Pow2(i) == 0 && Ceil(p, Pow2(j)) % Pow2(j) == 0
            && ptr <= p <= Ceil(p, Pow2(j)) < ptr + max && Ceil(p, Pow2(j)) < p + Pow2(j)
  {
    hide Pow2, Ceil;
    Pow2Of31();
    Pow2Monotone(i, 31);
    Pow2Monotone(j, 31);
    CeilIsLeastMultiple(ptr, i);
    var p := Ceil(ptr, Pow2(i));
    CeilIsLeastMultiple(p, j);
    if i <= j { TowardsTheBoundary(ptr, i, j); } else { OnTheBoundary(p, i, j); }
  }

  /** The least multiple of the larger power is a multiple of the smaller one as well. */
  lemma TowardsTheBoundary(ptr: Address, i: nat, j: nat)
    requires i <= j < 32 && ptr + 0x1_0000_0000 < TWO_64
    ensures 0 < Pow2(i) <= 0x8000_0000 && 0 < Pow2(j) <= 0x8000_0000
    ensures var next := Ceil(Ceil(ptr, Pow2(i)), Pow2(j));
            next % Pow2(i) == 0 && next < ptr + Pow2(j)
  {
    hide Pow2, Ceil;
    Pow2Of31();
    Pow2Monotone(i, 31);
    Pow2Monotone(j, 31);
    CeilIsLeastMultiple(ptr, i);
    CeilIsLeastMultiple(Ceil(ptr, Pow2(i)), j);
    CeilIsLeastMultiple(ptr, j);
    var far, p := Ceil(ptr, Pow2(j)), Ceil(ptr, Pow2(i));
    var next := Ceil(p, Pow2(j));
    MultipleOfLess(far, i, j);
    LeastIsLeast(ptr, p, far, Pow2(i));
    LeastIsLeast(p, next, far, Pow2(j));
    MultipleOfLess(next, i, j);
  }

  lemma OnTheBoundary(p: Address, i: nat, j: nat)
    requires j < i < 32 && p + 0x8000_0000 < TWO_64 && p % Pow2(i) == 0
    ensures 0 < Pow2(j) <= 0x8000_0000 && Ceil(p, Pow2(j)) == p
  {
    hide Pow2, Ceil;
    Pow2Of31();
    Pow2Monotone(j, 31);
    CeilIsLeastMultiple(p, j);
    MultipleOfLess(p, j, i);
    LeastIsLeast(p, Ceil(p, Pow2(j)), p, Pow2(j));
  }

  /** A block that ends at or before the next boundary, or starts on one, does not straddle. */
  lemma NoStraddle(p: nat, size: nat, next: nat, d: nat)
    requires 0 < size <= d && next % d == 0
    requires (p == next) || (p + size <= next < p + d)
    ensures p / d == (p + size - 1) / d
  {
    DivMod(next, d);
    var q := next / d;
    if p == next {
      DivModUnique(p, d, q, 0);
      DivModUnique(p + size - 1, d, q, size - 1);
    } else {
      Times(d, q - 1, q);
      assert d * q - d == d * (q - 1);
      DivModUnique(p, d, q - 1, p - (next - d));
      DivModUnique(p + size - 1, d, q - 1, p + size - 1 - (next - d));
    }
  }

  /** Where a block lies: aligned, inside one boundary when it is small enough, and not more
      than the padding above the pointer. */
  lemma PlaceIsRight(ptr: Address, r: Request)
    requires NoWrap(ptr, r)
    ensures var p := Place(ptr, r);
            ptr <= p <= ptr + Padding(r) && Aligned(p, r) && WithinBoundary(p, r)
  {
    hide Pow2, Ceil, WithinBoundary, Aligned;
    var i, a := PowerOf(r.alignment);
    var j, b := PowerOf(r.boundary);
    Pow2Of31();
    Pow2Monotone(i, 31);
    Pow2Monotone(j, 31);
    BoundaryKeepsAlignment(ptr, i, j);
    CeilOfOne(ptr);
    PowersDiffer(i, j);
    var p := Ceil(ptr, Pow2(i));
    var next := Ceil(p, Pow2(j));
    SmallSum(p + r.size);
    var at := Place(ptr, r);
    assert at == if r.boundary > 0 && next < p + r.size then next else p;
    assert Aligned(at, r) by { AlignedAt(at, r); }
    assert WithinBoundary(at, r) by { WithinAt(at, r, p, next); }
  }

  /** Where `Place` chooses between the first aligned address and the next boundary. */
  lemma PlaceChooses(ptr: Address, r: Request) returns (p: Address, next: Address)
    requires NoWrap(ptr, r)
    ensures ptr <= p && Aligned(p, r) && (forall q :: ptr <= q && Aligned(q, r) ==> p <= q)
    ensures r.boundary > 0 ==> next % r.boundary == 0 && p <= next < p + r.boundary
    ensures Place(ptr, r) == if r.boundary > 0 && next < p + r.size then next else p
  {
    hide Pow2, Ceil;
    var i, a := PowerOf(r.alignment);
    var j, b := PowerOf(r.boundary);
    Pow2Of31();
    Pow2Monotone(i, 31);
    Pow2Monotone(j, 31);
    CeilIsLeastMultiple(ptr, i);
    BoundaryKeepsAlignment(ptr, i, j);
    CeilOfOne(ptr);
    p := Ceil(ptr, Pow2(i));
    next := Ceil(p, Pow2(j));
    SmallSum(p + r.size);
    forall q | ptr <= q && Aligned(q, r) ensures p <= q {
      if r.alignment > 0 { LeastIsLeast(ptr, p, q, r.alignment); }
    }
  }

  /** Nothing admissible is skipped: every aligned address between the pointer and the block is one from
      which the block would cross a boundary. */
  lemma NothingIsSkipped(ptr: Address, r: Request, q: nat)
    requires NoWrap(ptr, r) && ptr <= q < Place(ptr, r) && Aligned(q, r)
    ensures r.boundary > 0 && exists m :: m % r.boundary == 0 && q < m < q + r.size
  {
    hide Place, Aligned;
    var p, next := PlaceChooses(ptr, r);
    assert next % r.boundary == 0 && q < next < q + r.size;
  }

  /** A block that crosses a boundary starts on one. */
  lemma CrossesOnlyFromABoundary(ptr: Address, r: Request, m: nat)
    requires NoWrap(ptr, r) && r.boundary > 0 && m % r.boundary == 0
    requires Place(ptr, r) < m < Place(ptr, r) + r.size
    ensures Place(ptr, r) % r.boundary == 0
  {
    hide Place, Aligned;
    var p, next := PlaceChooses(ptr, r);
    if Place(ptr, r) == p && p != next { LeastIsLeast(p, next, m, r.boundary); }
  }

  /** Whether a request is served or refused, it moves the pointer to the end of its block or to where
      its block would have started. */
  lemma PointerMoves(pool: Address, ptr: Address, r: Request)
    requires NoWrap(ptr, r) && pool + POOL_SIZE < TWO_64
    ensures Place(ptr, r) + r.size < TWO_64
    ensures AllocMem(pool, ptr, r) == if Place(ptr, r) + r.size <= pool + POOL_SIZE
                                      then (Some(Place(ptr, r)), Place(ptr, r) + r.size) else (None, Place(ptr, r))
  {
    hide Place;
    PlaceIsRight(ptr, r);
    if r.alignment > 0 { PowerBound(r.alignment); }
    if r.boundary > 0 { PowerBound(r.boundary); }
    SmallSum(Place(ptr, r) + r.size);
    SmallSum(pool + POOL_SIZE);
  }

  lemma AlignedAt(p: nat, r: Request)
    requires r.alignment > 0 ==> p % r.alignment == 0
    ensures Aligned(p, r)
  {
  }

  lemma WithinAt(at: nat, r: Request, p: nat, next: nat)
    requires r.boundary > 0 ==>
               && next % r.boundary == 0 && p <= next < p + r.boundary
               && at == (if next < p + r.size then next else p)
    ensures WithinBoundary(at, r)
  {
    if 0 < r.size <= r.boundary { NoStraddle(at, r.size, next, r.boundary); }
  }

  /** No constraint is the constraint 1. */
  lemma PowerOf(c: Constraint) returns (k: nat, d: nat)
    ensures k < 32 && d == Pow2(k) && (c > 0 ==> d == c) && (c == 0 ==> d == 1 && k == 0)
  {
    if c == 0 { k := 0; d := 1; }
    else { assert IsPower(c); k :| 0 <= k < 32 && c == Pow2(k); d := c; }
  }

  lemma CeilOfOne(ptr: Address)
    requires ptr + 1 < TWO_64
    ensures Pow2(0) == 1 && Ceil(ptr, 1) == ptr
  {
    CeilIsLeastMultiple(ptr, 0);
  }

  lemma PowersDiffer(i: nat, j: nat)
    ensures i > j ==> Pow2(i) > Pow2(j)
    ensures i <= j ==> Pow2(i) <= Pow2(j)
  {
    if i > j { Pow2Monotone(j, i - 1); } else { Pow2Monotone(i, j); }
  }

  // ---------------------------------------------------------------- any sequence of requests

  const TOP_STEP := 0x8000_0000

  /** The pointer cannot pass the first address above the pool that every constraint allows. */
  predicate IsTop(pool: Address, top: nat) {
    pool + POOL_SIZE <= top && top % TOP_STEP == 0
  }

  lemma PlaceBelowTop(pool: Address, ptr: Address, r: Request, top: nat)
    requires IsTop(pool, top) && ptr <= top && top + r.size + 0x1_0000_0000 < TWO_64
    ensures Place(ptr, r) <= top
  {
    hide Pow2, Ceil;
    var p := ptr;
    if r.alignment > 0 {
      CeilBelowTop(p, r.alignment, top);
      p := Ceil(p, r.alignment);
    }
    if r.boundary > 0 { CeilBelowTop(p, r.boundary, top); }
  }

  lemma CeilBelowTop(ptr: Address, c: Constraint, top: nat)
    requires c > 0 && ptr <= top && top % TOP_STEP == 0 && top + 0x1_0000_0000 < TWO_64
    ensures c <= TWO_64 && Ceil(ptr, c) <= top
  {
    hide Pow2, Ceil;
    assert IsPower(c);
    var k :| 0 <= k < 32 && c == Pow2(k);
    Pow2Of31();
    Pow2Monotone(k, 31);
    CeilIsLeastMultiple(ptr, k);
    MultipleOfLess(top, k, 31);
    LeastIsLeast(ptr, Ceil(ptr, c), top, c);
  }

  /** What the driver is given for each request, in order. */
  function Serve(pool: Address, ptr: Address, rs: seq<Request>): seq<Option<Address>>
    decreases |rs|
  {
    if rs == [] then [] else [AllocMem(pool, ptr, rs[0]).0] + Serve(pool, AllocMem(pool, ptr, rs[0]).1, rs[1..])
  }

  predicate GoodBlock(pool: Address, ptr: nat, r: Request, p: Address) {
    ptr <= p && p + r.size <= pool + POOL_SIZE && Aligned(p, r) && WithinBoundary(p, r)
  }

  lemma SmallSum(x: nat)
    requires x < TWO_64
    ensures x % TWO_64 == x
  {
  }

  lemma OneRequest(pool: Address, ptr: Address, r: Request, top: nat)
    requires IsTop(pool, top) && pool <= ptr <= top && top + r.size + 0x1_0000_0000 < TWO_64
    ensures var (p, ptr') := AllocMem(pool, ptr, r);
            && ptr <= ptr' <= top
            && (p.Some? ==> GoodBlock(pool, ptr, r, p.value) && ptr' == p.value + r.size <= ptr + Padding(r) + r.size)
            && (p.None? ==> ptr + Padding(r) + r.size > pool + POOL_SIZE)
  {
    hide Place, Padding, Aligned, WithinBoundary;
    PlaceIsRight(ptr, r);
    PlaceBelowTop(pool, ptr, r, top);
    SmallSum(Place(ptr, r) + r.size);
    SmallSum(pool + POOL_SIZE);
  }

  /** For any requests without address wraparound: every block that is handed out lies in the
      pool, is aligned, straddles no boundary, and starts at or after the end of every earlier
      one. */
  lemma {:induction false} BlocksAreGood(pool: Address, ptr: Address, rs: seq<Request>, top: nat)
    requires IsTop(pool, top) && pool <= ptr <= top
    requires forall i :: 0 <= i < |rs| ==> top + rs[i].size + 0x1_0000_0000 < TWO_64
    ensures var ps := Serve(pool, ptr, rs);
            && |ps| == |rs|
            && (forall i :: 0 <= i < |rs| && ps[i].Some? ==> GoodBlock(pool, ptr, rs[i], ps[i].value))
            && (forall i, j :: 0 <= i < j < |rs| && ps[i].Some? && ps[j].Some? ==>
                  ps[i].value + rs[i].size <= ps[j].value)
    decreases |rs|
  {
    if rs != [] {
      var (p, ptr') := AllocMem(pool, ptr, rs[0]);
      OneRequest(pool, ptr, rs[0], top);
      BlocksAreGood(pool, ptr', rs[1..], top);
      hide AllocMem, Aligned, WithinBoundary;
      var ps, rest := Serve(pool, ptr, rs), Serve(pool, ptr', rs[1..]);
      assert ps == [p] + rest;
      forall i | 0 <= i < |rs| && ps[i].Some? ensures GoodBlock(pool, ptr, rs[i], ps[i].value) {
        if i > 0 { assert rs[1..][i - 1] == rs[i] && rest[i - 1] == ps[i]; }
      }
      forall i, j | 0 <= i < j < |rs| && ps[i].Some? && ps[j].Some? ensures ps[i].value + rs[i].size <= ps[j].value {
        assert rs[1..][j - 1] == rs[j] && rest[j - 1] == ps[j];
        if i > 0 { assert rs[1..][i - 1] == rs[i] && rest[i - 1] == ps[i]; }
        else { assert GoodBlock(pool, ptr', rs[j], ps[j].value); }
      }
    }
  }

  /** Sizes and paddings together. */
  function Needed(rs: seq<Request>): nat {
    if rs == [] then 0 else rs[0].size + Padding(rs[0]) + Needed(rs[1..])
  }

  /** Requests whose sizes and paddings fit what is left of the pool are all served. */
  lemma {:induction false} FittingRequestsAreServed(pool: Address, ptr: Address, rs: seq<Request>, top: nat)
    requires IsTop(pool, top) && pool <= ptr && top + POOL_SIZE + 0x1_0000_0000 < TWO_64
    requires ptr + Needed(rs) <= pool + POOL_SIZE
    ensures |Serve(pool, ptr, rs)| == |rs|
    ensures forall i :: 0 <= i < |rs| ==> Serve(pool, ptr, rs)[i].Some?
    decreases |rs|
  {
    hide AllocMem, Padding, Aligned, WithinBoundary;
    if rs != [] {
      OneRequest(pool, ptr, rs[0], top);
      FittingRequestsAreServed(pool, AllocMem(pool, ptr, rs[0]).1, rs[1..], top);
    }
  }

  /** The start of a block is never below the pointer. */
  lemma PlaceIsAbove(ptr: Address, r: Request)
    requires ptr + 0x1_0000_0000 < TWO_64
    ensures ptr <= Place(ptr, r) <= ptr + Padding(r)
  {
    hide Pow2, Ceil;
    var i, a := PowerOf(r.alignment);
    var j, b := PowerOf(r.boundary);
    Pow2Of31();
    Pow2Monotone(i, 31);
    Pow2Monotone(j, 31);
    BoundaryKeepsAlignment(ptr, i, j);
    CeilOfOne(ptr);
    PowersDiffer(i, j);
  }

  /** What a request is handed lies inside the pool if and only if the end of its block does not
      wrap around. */
  lemma InsideExactlyWithoutWrap(pool: Address, ptr: Address, r: Request)
    requires pool <= ptr && ptr + 0x1_0000_0000 < TWO_64 && pool + POOL_SIZE < TWO_64 && r.size < TWO_64
    ensures var p := AllocMem(pool, ptr, r).0;
            p.Some? ==> (pool <= p.value && p.value + r.size <= pool + POOL_SIZE <==> Place(ptr, r) + r.size < TWO_64)
  {
    hide Place;
    PlaceIsAbove(ptr, r);
    SmallSum(pool + POOL_SIZE);
    var end := Place(ptr, r) + r.size;
    if end < TWO_64 { SmallSum(end); }
  }

  /** The check against the end of the pool does not see a sum that wraps around: whatever its
      alignment and boundary and wherever the pointer is, what a request is handed lies inside the
      pool if and only if the request is not larger than the whole pool. */
  lemma InsideExactlyWhenNoLargerThanThePool(pool: Address, ptr: Address, r: Request)
    requires pool <= ptr && ptr + 0x1_0000_0000 < TWO_64 && pool + POOL_SIZE < TWO_64 && r.size < TWO_64
    ensures var p := AllocMem(pool, ptr, r).0;
            p.Some? ==> (pool <= p.value && p.value + r.size <= pool + POOL_SIZE <==> r.size <= POOL_SIZE)
  {
    hide Place;
    InsideExactlyWithoutWrap(pool, ptr, r);
    PlaceIsAbove(ptr, r);
    if r.alignment > 0 { PowerBound(r.alignment); }
    if r.boundary > 0 { PowerBound(r.boundary); }
  }

  /** The request that shows it: the whole address space less one byte. */
  lemma WrapAroundIsNotSeen(pool: Address)
    requires 0 < pool && pool + POOL_SIZE < TWO_64
    ensures AllocMem(pool, pool, Request(TWO_64 - 1, 0, 0)) == (Some(pool), pool - 1)
  {
  }

  class MemoryPool {
    const pool: Address
    var allocPtr: Address

    constructor (at: Address)
      ensures pool == at && allocPtr == at
    {
      pool, allocPtr := at, at;
    }

    method Alloc(size: nat, alignment: Constraint, boundary: Constraint) returns (p: Option<Address>)
      modifies this
      ensures (p, allocPtr) == AllocMem(pool, old(allocPtr), Request(size, alignment, boundary))
    {
      if alignment > 0 {
        PowerBound(alignment);
        allocPtr := Ceil(allocPtr, alignment);
      }
      if boundary > 0 {
        PowerBound(boundary);
        var nextBoundary := Ceil(allocPtr, boundary);
        if nextBoundary < (allocPtr + size) % TWO_64 {
          allocPtr := nextBoundary;
        }
      }
      if (pool + POOL_SIZE) % TWO_64 < (allocPtr + size) % TWO_64 {
        return None;
      }
      p := Some(allocPtr);
      allocPtr := (allocPtr + size) % TWO_64;
    }
  }
}
