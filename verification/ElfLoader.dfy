/** The boot loader's part in starting the kernel: the address range of an ELF file's loadable
    segments, the pages for it, the copy into memory, and the entry address read back. */
module ElfLoader {
  import opened Bits
  import opened Trbs

  const PT_LOAD := 1
  const EHDR_SIZE := 64
  const PHDR_SIZE := 56
  const ENTRY_OFFSET := 24
  const PAGE := 0x1000
  const MAX_ADDRESS: Address := 0xffff_ffff_ffff_ffff

  /** A little-endian number. */
  function Number(bytes: seq<Byte>): nat {
    if bytes == [] then 0 else
      var low: int := bytes[0];
      low + 0x100 * Number(bytes[1..])
  }

  lemma {:induction false} NumberFits(bytes: seq<Byte>)
    ensures Number(bytes) < Pow2(8 * |bytes|)
  {
    if bytes != [] {
      NumberFits(bytes[1..]);
      Pow2Sum(8, 8 * (|bytes| - 1));
      assert Pow2(8) == 0x100;
    }
  }

  /** The fields of a program header that the loader reads. */
  datatype Phdr = Phdr(kind: nat, offset: Address, vaddr: Address, filesz: Address, memsz: Address)

  function Field(file: seq<Byte>, at: nat, size: nat): nat
    requires at + size <= |file|
  {
    Number(file[at..at + size])
  }

  function Field64(file: seq<Byte>, at: nat): Address
    requires at + 8 <= |file|
  {
    NumberFits(file[at..at + 8]);
    WordIsPow2();
    Field(file, at, 8)
  }

  predicate HasHeaders(file: seq<Byte>) {
    |file| >= EHDR_SIZE && PhdrOffset(file) + PHDR_SIZE * PhdrCount(file) <= |file|
  }

  function PhdrOffset(file: seq<Byte>): nat
    requires |file| >= EHDR_SIZE
  {
    Field(file, 32, 8)
  }

  function PhdrCount(file: seq<Byte>): nat
    requires |file| >= EHDR_SIZE
  {
    Field(file, 56, 2)
  }

  function PhdrAt(file: seq<Byte>, i: nat): Phdr
    requires HasHeaders(file) && i < PhdrCount(file)
  {
    PhdrInside(PhdrCount(file), i);
    var at := PhdrOffset(file) + PHDR_SIZE * i;
    Phdr(Field(file, at, 4), Field64(file, at + 8), Field64(file, at + 16), Field64(file, at + 32), Field64(file, at + 40))
  }

  lemma PhdrInside(n: nat, i: nat)
    requires i < n
    ensures PHDR_SIZE * i + PHDR_SIZE <= PHDR_SIZE * n
  {
  }

  function Phdrs(file: seq<Byte>): (r: seq<Phdr>)
    requires HasHeaders(file)
    ensures |r| == PhdrCount(file) && forall i :: 0 <= i < |r| ==> r[i] == PhdrAt(file, i)
  {
    seq(PhdrCount(file), i requires 0 <= i < PhdrCount(file) => PhdrAt(file, i))
  }

  /** A number in so many bytes, low byte first. */
  function LittleEndian(n: nat, size: nat): (r: seq<Byte>)
    ensures |r| == size
  {
    if size == 0 then [] else [n % 0x100] + LittleEndian(n / 0x100, size - 1)
  }

  lemma {:induction false} NumberOf(n: nat, size: nat)
    requires n < Pow2(8 * size)
    ensures Number(LittleEndian(n, size)) == n
  {
    if size > 0 {
      Pow2Sum(8, 8 * (size - 1));
      assert Pow2(8) == 0x100;
      hide Pow2;
      Shorter(n, Pow2(8 * (size - 1)));
      NumberOf(n / 0x100, size - 1);
      DivMod(n, 0x100);
    }
  }

  lemma Shorter(n: nat, d: nat)
    requires n < 0x100 * d
    ensures n / 0x100 < d
  {
  }

  lemma FieldIs(file: seq<Byte>, at: nat, size: nat, n: nat)
    requires at + size <= |file| && file[at..at + size] == LittleEndian(n, size) && n < Pow2(8 * size)
    ensures Field(file, at, size) == n
  {
    NumberOf(n, size);
    hide Pow2, LittleEndian, Number;
  }

  /** The layout of the file header: the entry address is at offset 24, the place of the program headers
      at 32, and their number at 56. */
  lemma HeaderLayout(file: seq<Byte>, entry: Address, phoff: Address, phnum: Half)
    requires |file| >= 64
    requires file[24..32] == LittleEndian(entry, 8) && file[32..40] == LittleEndian(phoff, 8)
    requires file[56..58] == LittleEndian(phnum, 2)
    ensures Field64(file, ENTRY_OFFSET) == entry && PhdrOffset(file) == phoff && PhdrCount(file) == phnum
  {
    WordIsPow2();
    HalfIsPow2();
    hide Pow2, LittleEndian, Number;
    FieldIs(file, 24, 8, entry);
    FieldIs(file, 32, 8, phoff);
    FieldIs(file, 56, 2, phnum);
  }

  lemma HalfIsPow2()
    ensures Pow2(16) == 0x1_0000 && Pow2(32) == TWO_32
  {
    assert Pow2(8) == 0x100;
    hide Pow2;
    Pow2Sum(8, 8);
    Pow2Sum(16, 16);
  }

  /** The layout of a program header of 56 bytes: type, file offset, address, and the sizes in the file and
      in memory are at 0, 8, 16, 32 and 40. */
  lemma PhdrLayout(file: seq<Byte>, i: nat, at: nat, p: Phdr)
    requires HasHeaders(file) && i < PhdrCount(file) && at == PhdrOffset(file) + 56 * i && at + 56 <= |file|
    requires p.kind < TWO_32 && file[at..at + 4] == LittleEndian(p.kind, 4)
    requires file[at + 8..at + 16] == LittleEndian(p.offset, 8) && file[at + 16..at + 24] == LittleEndian(p.vaddr, 8)
    requires file[at + 32..at + 40] == LittleEndian(p.filesz, 8) && file[at + 40..at + 48] == LittleEndian(p.memsz, 8)
    ensures PhdrAt(file, i) == p && (IsLoad(p) <==> p.kind == 1)
  {
    WordIsPow2();
    HalfIsPow2();
    hide Pow2, LittleEndian, Number, HasHeaders, PhdrOffset, PhdrCount;
    FieldIs(file, at, 4, p.kind);
    FieldIs(file, at + 8, 8, p.offset);
    FieldIs(file, at + 16, 8, p.vaddr);
    FieldIs(file, at + 32, 8, p.filesz);
    FieldIs(file, at + 40, 8, p.memsz);
  }

  // ---------------------------------------------------------------- the address range

  predicate IsLoad(p: Phdr) { p.kind == PT_LOAD }

  /** Where a segment ends in memory, in 64-bit arithmetic. */
  function End(p: Phdr): Address { (p.vaddr + p.memsz) % TWO_64 }

  /** The start of the lowest and the end of the highest loadable segment. */
  predicate IsRange(phs: seq<Phdr>, first: Address, last: Address) {
    && (forall i :: 0 <= i < |phs| && IsLoad(phs[i]) ==> first <= phs[i].vaddr && End(phs[i]) <= last)
    && (if exists i :: 0 <= i < |phs| && IsLoad(phs[i]) then
          && (exists i :: 0 <= i < |phs| && IsLoad(phs[i]) && phs[i].vaddr == first)
          && (exists i :: 0 <= i < |phs| && IsLoad(phs[i]) && End(phs[i]) == last)
        else first == MAX_ADDRESS && last == 0)
  }

  lemma IsRangeStep(phs: seq<Phdr>, p: Phdr, first: Address, last: Address)
    requires IsRange(phs, first, last)
    ensures !IsLoad(p) ==> IsRange(phs + [p], first, last)
    ensures IsLoad(p) ==> IsRange(phs + [p], if p.vaddr < first then p.vaddr else first, if End(p) > last then End(p) else last)
  {
    var n, all := |phs|, phs + [p];
    hide End;
    assert forall i :: 0 <= i < n ==> all[i] == phs[i];
    assert all[n] == p;
    if IsLoad(p) {
      if i :| 0 <= i < n && IsLoad(phs[i]) && phs[i].vaddr == first {
        assert IsLoad(all[i]);
      }
      if i :| 0 <= i < n && IsLoad(phs[i]) && End(phs[i]) == last {
        assert IsLoad(all[i]);
      }
      assert IsLoad(all[n]);
    } else {
      if i :| 0 <= i < n && IsLoad(phs[i]) && phs[i].vaddr == first { assert IsLoad(all[i]); }
      if i :| 0 <= i < n && IsLoad(phs[i]) && End(phs[i]) == last { assert IsLoad(all[i]); }
    }
  }

  method CalcLoadAddressRange(file: seq<Byte>) returns (first: Address, last: Address)
    requires HasHeaders(file)
    ensures IsRange(Phdrs(file), first, last)
  {
    hide End, IsRange, PhdrAt;
    first, last := MAX_ADDRESS, 0;
    EmptyRange();
    var i := 0;
    ghost var phs := Phdrs(file);
    while i < PhdrCount(file)
      invariant i <= PhdrCount(file)
      invariant IsRange(phs[..i], first, last)
    {
      var ph := PhdrAt(file, i);
      assert phs[..i + 1] == phs[..i] + [ph];
      IsRangeStep(phs[..i], ph, first, last);
      if IsLoad(ph) {
        first := if ph.vaddr < first then ph.vaddr else first;
        last := if End(ph) > last then End(ph) else last;
      }
      i := i + 1;
    }
    assert phs[..i] == phs;
  }

  lemma EmptyRange()
    ensures IsRange([], MAX_ADDRESS, 0)
  {
  }

  function NumPages(first: Address, last: Address): nat {
    (last - first + 0xfff) % TWO_64 / PAGE
  }

  // ---------------------------------------------------------------- loading

  /** What the file promises: it holds the bytes of its segments, they do not wrap around, no
      segment holds more than its memory, segments do not overlap, and one of them is loadable. */
  predicate Loadable(phs: seq<Phdr>, size: nat) {
    && (exists i :: 0 <= i < |phs| && IsLoad(phs[i]))
    && (forall i :: 0 <= i < |phs| && IsLoad(phs[i]) ==> Sound(phs[i], size))
    && (forall i, j :: 0 <= i < j < |phs| && IsLoad(phs[i]) && IsLoad(phs[j]) ==> Apart(phs[i], phs[j]))
  }

  predicate Sound(p: Phdr, size: nat) {
    p.filesz <= p.memsz && p.vaddr + p.memsz + PAGE < TWO_64 && p.offset + p.filesz <= size
  }

  predicate Apart(p: Phdr, q: Phdr) {
    p.vaddr + p.memsz <= q.vaddr || q.vaddr + q.memsz <= p.vaddr
  }

  predicate Covers(p: Phdr, a: nat) {
    IsLoad(p) && p.vaddr <= a < p.vaddr + p.memsz
  }

  /** The byte that a segment puts at an address of its own: from the file, then zero. */
  function SegmentByte(file: seq<Byte>, p: Phdr, a: nat): Byte
    requires Covers(p, a) && Sound(p, |file|)
  {
    if a < p.vaddr + p.filesz then file[p.offset + (a - p.vaddr)] else 0
  }

  /** The byte at an address after these segments are loaded in order: the last one that covers
      it decides. */
  function Loaded(file: seq<Byte>, phs: seq<Phdr>, a: nat, before: Byte): Byte
    requires forall i :: 0 <= i < |phs| && IsLoad(phs[i]) ==> Sound(phs[i], |file|)
  {
    if phs == [] then before
    else
      var (rest, p) := (phs[..|phs| - 1], phs[|phs| - 1]);
      if Covers(p, a) then SegmentByte(file, p, a) else Loaded(file, rest, a, before)
  }

  class Memory {
    const bytes: array<Byte>

    constructor (m: array<Byte>)
      ensures bytes == m
    {
      bytes := m;
    }

    /** The firmware's copy and fill. */
    method CopyMem(to: nat, source: seq<Byte>)
      requires to + |source| <= bytes.Length
      modifies bytes
      ensures forall a :: 0 <= a < bytes.Length ==>
                bytes[a] == if to <= a < to + |source| then source[a - to] else old(bytes[a])
    {
      forall a | to <= a < to + |source| { bytes[a] := source[a - to]; }
    }

    method SetMem(to: nat, size: nat, value: Byte)
      requires to + size <= bytes.Length
      modifies bytes
      ensures forall a :: 0 <= a < bytes.Length ==>
                bytes[a] == if to <= a < to + size then value else old(bytes[a])
    {
      forall a | to <= a < to + size { bytes[a] := value; }
    }

    method CopyLoadSegments(file: seq<Byte>)
      requires HasHeaders(file)
      requires forall i :: 0 <= i < PhdrCount(file) && IsLoad(PhdrAt(file, i)) ==>
                 Sound(PhdrAt(file, i), |file|) && PhdrAt(file, i).vaddr + PhdrAt(file, i).memsz <= bytes.Length
      modifies bytes
      ensures forall a :: 0 <= a < bytes.Length ==> bytes[a] == Loaded(file, Phdrs(file), a, old(bytes[a]))
    {
      hide PhdrAt;
      var i := 0;
      ghost var phs := Phdrs(file);
      while i < PhdrCount(file)
        invariant i <= PhdrCount(file)
        invariant forall a :: 0 <= a < bytes.Length ==> bytes[a] == Loaded(file, phs[..i], a, old(bytes[a]))
      {
        var ph := PhdrAt(file, i);
        assert phs[..i + 1][..i] == phs[..i];
        if IsLoad(ph) {
          CopyMem(ph.vaddr, file[ph.offset..ph.offset + ph.filesz]);
          SetMem(ph.vaddr + ph.filesz, ph.memsz - ph.filesz, 0);
        }
        i := i + 1;
      }
      assert phs[..i] == phs;
    }
  }

  lemma CoversLast(phs: seq<Phdr>, k: nat, a: nat)
    requires k < |phs| && Covers(phs[k], a)
    requires forall i, j :: 0 <= i < j < |phs| && IsLoad(phs[i]) && IsLoad(phs[j]) ==> Apart(phs[i], phs[j])
    ensures forall i :: 0 <= i < |phs| && Covers(phs[i], a) ==> i == k
  {
  }

  /** In a loadable file the order of the segments does not matter: every segment has its own
      bytes in memory, the file's and then zeros, and no other address is touched. */
  lemma {:induction false} LoadedIsSegments(file: seq<Byte>, phs: seq<Phdr>, a: nat, before: Byte)
    requires forall i :: 0 <= i < |phs| && IsLoad(phs[i]) ==> Sound(phs[i], |file|)
    requires forall i, j :: 0 <= i < j < |phs| && IsLoad(phs[i]) && IsLoad(phs[j]) ==> Apart(phs[i], phs[j])
    ensures forall k :: 0 <= k < |phs| && Covers(phs[k], a) ==> Loaded(file, phs, a, before) == SegmentByte(file, phs[k], a)
    ensures (forall k :: 0 <= k < |phs| ==> !Covers(phs[k], a)) ==> Loaded(file, phs, a, before) == before
  {
    if phs != [] {
      var (rest, n) := (phs[..|phs| - 1], |phs| - 1);
      LoadedIsSegments(file, rest, a, before);
      forall k | 0 <= k < |phs| && Covers(phs[k], a)
        ensures Loaded(file, phs, a, before) == SegmentByte(file, phs[k], a)
      {
        CoversLast(phs, k, a);
        if k < n { assert rest[k] == phs[k]; }
      }
      if forall k :: 0 <= k < |phs| ==> !Covers(phs[k], a) {
        assert forall k :: 0 <= k < n ==> rest[k] == phs[k];
      }
    }
  }

  lemma NoWrap(p: Phdr, size: nat)
    requires Sound(p, size)
    ensures End(p) == p.vaddr + p.memsz && End(p) + PAGE < TWO_64
  {
  }

  lemma RangeIsUp(phs: seq<Phdr>, size: nat, first: Address, last: Address)
    requires Loadable(phs, size) && IsRange(phs, first, last)
    ensures first <= last && last + PAGE < TWO_64
  {
    hide Sound, End, Apart;
    assert exists i :: 0 <= i < |phs| && IsLoad(phs[i]);
    var j :| 0 <= j < |phs| && IsLoad(phs[j]) && End(phs[j]) == last;
    NoWrap(phs[j], size);
  }

  /** Every byte that is stored lies in the range. */
  lemma StoredInRange(phs: seq<Phdr>, size: nat, first: Address, last: Address, k: nat, a: nat)
    requires Loadable(phs, size) && IsRange(phs, first, last)
    requires k < |phs| && Covers(phs[k], a)
    ensures first <= a < last
  {
    hide Sound, End, Apart;
    NoWrap(phs[k], size);
  }

  /** The pages are the least number that covers the range. */
  lemma PagesSuffice(first: Address, last: Address)
    requires first <= last && last + PAGE < TWO_64
    ensures var n := NumPages(first, last);
            && last <= first + PAGE * n
            && (n > 0 ==> first + PAGE * (n - 1) < last)
  {
    var size := last - first + 0xfff;
    assert size % TWO_64 == size;
    DivMod(size, PAGE);
  }

  /** A loadable file: every byte that is stored lies between the start of the lowest segment
      and the last page allocated from there, and one page less would not do. */
  lemma RangeAndPages(phs: seq<Phdr>, size: nat, first: Address, last: Address, k: nat, a: nat)
    requires Loadable(phs, size) && IsRange(phs, first, last)
    requires k < |phs| && Covers(phs[k], a)
    ensures var n := NumPages(first, last);
            first <= a < last <= first + PAGE * n && n > 0 && first + PAGE * (n - 1) < last
  {
    RangeIsUp(phs, size, first, last);
    StoredInRange(phs, size, first, last, k, a);
    PagesSuffice(first, last);
    hide Loadable, IsRange, NumPages;
  }

  /** What the first bytes of a segment that starts at the beginning of the file become. */
  lemma FirstBytes(file: seq<Byte>, phs: seq<Phdr>, k: nat, a: nat, before: Byte)
    requires Loadable(phs, |file|)
    requires k < |phs| && IsLoad(phs[k]) && phs[k].offset == 0
    requires phs[k].vaddr <= a < phs[k].vaddr + phs[k].filesz
    ensures a - phs[k].vaddr < |file| && Loaded(file, phs, a, before) == file[a - phs[k].vaddr]
  {
    hide Loaded, Apart;
    LoadedIsSegments(file, phs, a, before);
    assert Sound(phs[k], |file|) && Covers(phs[k], a);
  }

  /** When the lowest segment maps the beginning of the file, the word that is read at offset 24
      of the loaded image is the entry address of the file. */
  lemma EntryIsTheFilesEntry(file: seq<Byte>, first: Address, last: Address, k: nat, memory: seq<Byte>, before: seq<Byte>)
    requires HasHeaders(file) && Loadable(Phdrs(file), |file|) && IsRange(Phdrs(file), first, last)
    requires k < PhdrCount(file) && IsLoad(Phdrs(file)[k]) && Phdrs(file)[k].vaddr == first
    requires Phdrs(file)[k].offset == 0 && Phdrs(file)[k].filesz >= 32
    requires |memory| == |before| >= last
    requires forall a :: 0 <= a < |memory| ==> memory[a] == Loaded(file, Phdrs(file), a, before[a])
    ensures first + ENTRY_OFFSET + 8 <= |memory|
    ensures Field64(memory, first + ENTRY_OFFSET) == Field64(file, ENTRY_OFFSET)
  {
    hide PhdrAt, Loaded, Number;
    var phs := Phdrs(file);
    SegmentInRange(phs, |file|, first, last, k);
    hide Loadable, IsRange, Phdrs;
    forall a | first <= a < first + 32 ensures memory[a] == file[a - first] {
      FirstBytes(file, phs, k, a, before[a]);
    }
    assert memory[first + ENTRY_OFFSET..first + ENTRY_OFFSET + 8] == file[ENTRY_OFFSET..ENTRY_OFFSET + 8];
  }

  lemma SegmentInRange(phs: seq<Phdr>, size: nat, first: Address, last: Address, k: nat)
    requires Loadable(phs, size) && IsRange(phs, first, last) && k < |phs| && IsLoad(phs[k])
    ensures phs[k].vaddr + phs[k].filesz <= last
  {
    NoWrap(phs[k], size);
    hide End, Apart;
  }
}
