/** From program headers to memory mappings (execve/enter.c), and what mapping them leaves in memory. */
module LoadMaps {
  import opened Basics
  import opened Clearing

  datatype Prot = Prot(read: bool, write: bool, exec: bool)

  /** A program header of type PT_LOAD. */
  datatype ProgramHeader = ProgramHeader(vaddr: nat, offset: nat, filesz: nat, memsz: nat, flags: Prot)

  datatype Mapping = Mapping(addr: nat, length: nat, clearLength: nat, prot: Prot, anonymous: bool, offset: nat)

  /** What add_mapping() appends for a header, in word arithmetic. */
  function MappingsOf(h: ProgramHeader, page: nat): seq<Mapping>
    requires page > 0
  {
    MapsBetween(h, PageDown(h.vaddr, page), PageDown(Wrap(h.vaddr + h.filesz + page), page),
                PageDown(Wrap(h.vaddr + h.memsz + page), page), PageDown(h.offset, page))
  }

  function MapsBetween(h: ProgramHeader, start: nat, end: nat, end2: nat, offset: nat): seq<Mapping> {
    if h.memsz > h.filesz then
      var m := Mapping(start, Wrap(end - start), Wrap(end - h.vaddr - h.filesz), h.flags, false, offset);
      if end2 > end then [m, Mapping(end, Wrap(end2 - end), 0, h.flags, true, 0)] else [m]
    else
      [Mapping(start, Wrap(end - start), 0, h.flags, false, offset)]
  }

  function AllMappings(hs: seq<ProgramHeader>, page: nat): seq<Mapping>
    requires page > 0
  {
    if hs == [] then [] else MappingsOf(hs[0], page) + AllMappings(hs[1..], page)
  }

  function Shifted(m: Mapping, base: nat): Mapping {
    m.(addr := Wrap(m.addr + base))
  }

  function AllShifted(ms: seq<Mapping>, base: nat): seq<Mapping> {
    if ms == [] then [] else [Shifted(ms[0], base)] + AllShifted(ms[1..], base)
  }

  /** The load info of an object, filled in place. */
  class LoadInfo {
    var mappings: seq<Mapping>
    var entry: nat

    constructor (entry: nat)
      ensures mappings == [] && this.entry == entry
    {
      mappings, this.entry := [], entry;
    }

    /** add_mapping(). */
    method AddMapping(h: ProgramHeader, page: nat)
      requires page > 0
      modifies this`mappings
      ensures mappings == old(mappings) + MappingsOf(h, page)
    {
      var start := PageDown(h.vaddr, page);
      var end := PageDown(Wrap(h.vaddr + h.filesz + page), page);
      var index := |mappings|;
      mappings := mappings + [Mapping(start, Wrap(end - start), 0, h.flags, false, PageDown(h.offset, page))];
      if h.memsz > h.filesz {
        // Past the file part, the rest of its last page is cleared.
        mappings := mappings[index := mappings[index].(clearLength := Wrap(end - h.vaddr - h.filesz))];
        // Whole pages after that come from nowhere.
        start := end;
        end := PageDown(Wrap(h.vaddr + h.memsz + page), page);
        if end > start {
          mappings := mappings + [Mapping(start, Wrap(end - start), 0, mappings[index].prot, true, 0)];
        }
      }
    }

    /** add_load_base(). */
    method AddLoadBase(base: nat)
      modifies this
      ensures mappings == AllShifted(old(mappings), base) && entry == Wrap(old(entry) + base)
    {
      hide AllShifted, Wrap;
      ghost var ms, done := mappings, [];
      ShiftedNone(base);
      assert ms[..0] == [];
      var i := 0;
      while i < |mappings|
        invariant 0 <= i <= |mappings| == |ms|
        invariant |done| == i && done == AllShifted(ms[..i], base)
        invariant mappings == done + ms[i..]
        invariant entry == old(entry)
      {
        ShiftedSnoc(ms[..i], ms[i], base);
        assert ms[..i + 1] == ms[..i] + [ms[i]];
        assert mappings[i] == ms[i] && ms[i..][1..] == ms[i + 1..];
        UpdateNext(done, ms[i..], Shifted(mappings[i], base));
        mappings := mappings[i := Shifted(mappings[i], base)];
        done := done + [Shifted(ms[i], base)];
        i := i + 1;
      }
      assert ms[..i] == ms && done + ms[i..] == done;
      entry := Wrap(entry + base);
    }

    /** compute_load_addresses(), for one object: a position independent one linked at 0 gets its base. */
    method ComputeLoadAddress(positionIndependent: bool, base: nat)
      requires mappings != []  // the source reads the first one
      modifies this
      ensures if positionIndependent && old(mappings)[0].addr == 0
              then mappings == AllShifted(old(mappings), base) && entry == Wrap(old(entry) + base)
              else mappings == old(mappings) && entry == old(entry)
    {
      if positionIndependent && mappings[0].addr == 0 {
        AddLoadBase(base);
      }
    }
  }

  lemma UpdateNext(done: seq<Mapping>, rest: seq<Mapping>, m: Mapping)
    requires rest != []
    ensures (done + rest)[|done| := m] == done + [m] + rest[1..]
  {
  }

  lemma ShiftedNone(base: nat)
    ensures AllShifted([], base) == []
  {
  }

  lemma {:induction false} ShiftedSnoc(ms: seq<Mapping>, m: Mapping, base: nat)
    ensures AllShifted(ms + [m], base) == AllShifted(ms, base) + [Shifted(m, base)]
  {
    if ms == [] {
      assert ms + [m] == [m];
    } else {
      ShiftedSnoc(ms[1..], m, base);
      assert (ms + [m])[1..] == ms[1..] + [m];
    }
  }

  lemma {:induction false} ShiftedConcat(a: seq<Mapping>, b: seq<Mapping>, base: nat)
    ensures AllShifted(a + b, base) == AllShifted(a, base) + AllShifted(b, base)
  {
    hide Shifted, Wrap;
    if a == [] {
      assert a + b == b;
      assert AllShifted(a, base) == [];
    } else {
      ShiftedConcat(a[1..], b, base);
      assert (a + b)[1..] == a[1..] + b;
    }
  }

  // ----- What mapping does to memory -----

  /** A mapped byte: its value, its protection, and whether there is anything behind it: any access to a page of a file
  mapping that lies wholly past the end of the file is a bus error. */
  datatype Cell = Cell(value: Byte, prot: Prot, backed: bool)

  type Memory = map<nat, Cell>

  function FileByte(file: seq<Byte>, i: nat): Byte {
    if i < |file| then file[i] else 0
  }

  predicate PageExists(file: seq<Byte>, i: nat, page: nat)
    requires page > 0
  {
    PageDown(i, page) < |file|
  }

  function Range(start: nat, length: nat): (r: set<nat>)
    ensures forall a :: a in r <==> start <= a < start + length
  {
    if length == 0 then {} else Range(start, length - 1) + {start + length - 1}
  }

  function MmapFile(mem: Memory, m: Mapping, file: seq<Byte>, page: nat): Memory
    requires page > 0
  {
    mem + map a | a in Range(m.addr, m.length) ::
            a := Cell(FileByte(file, m.offset + (a - m.addr)), m.prot, PageExists(file, m.offset + (a - m.addr), page))
  }

  function MmapAnonymous(mem: Memory, m: Mapping): Memory {
    mem + map a | a in Range(m.addr, m.length) :: a := Cell(0, m.prot, true)
  }

  /** May the loader clear these bytes? */
  ghost predicate CanClear(mem: Memory, start: nat, end: nat) {
    forall a: nat :: Clears(start, end, a) ==> a in mem && mem[a].prot.write && mem[a].backed
  }

  function Cleared(mem: Memory, start: nat, end: nat): Memory {
    map a | a in mem :: if Clears(start, end, a) then mem[a].(value := 0) else mem[a]
  }

  /** May the loader write there? */
  predicate Writable(mem: Memory, start: nat, end: nat) {
    forall a: nat :: start <= a < end ==> a in mem && mem[a].prot.write && mem[a].backed
  }

  function Zeroed(mem: Memory, start: nat, end: nat): Memory {
    map a | a in mem :: if start <= a < end then mem[a].(value := 0) else mem[a]
  }

  /** One mapping as the loader makes it; None when it is killed while clearing the end of the segment. */
  ghost function LoadOne(mem: Memory, m: Mapping, file: seq<Byte>, page: nat): Option<Memory>
    requires page > 0
  {
    if m.anonymous then Some(MmapAnonymous(mem, m))
    else
      var mapped := MmapFile(mem, m, file, page);
      if m.clearLength == 0 then Some(mapped)
      else
        var start, end := m.addr + m.length - m.clearLength, m.addr + m.length;
        if start >= 0 && CanClear(mapped, start, end) then Some(Cleared(mapped, start, end)) else None
  }

  ghost function LoadAll(mem: Memory, ms: seq<Mapping>, file: seq<Byte>, page: nat): Option<Memory>
    requires page > 0
    decreases |ms|
  {
    if ms == [] then Some(mem)
    else
      match LoadOne(mem, ms[0], file, page)
      case None => None
      case Some(mem') => LoadAll(mem', ms[1..], file, page)
  }

  lemma {:induction false} LoadConcat(mem: Memory, a: seq<Mapping>, b: seq<Mapping>, file: seq<Byte>, page: nat)
    requires page > 0
    ensures LoadAll(mem, a + b, file, page) ==
            match LoadAll(mem, a, file, page)
            case None => None
            case Some(mem') => LoadAll(mem', b, file, page)
    decreases |a|
  {
    hide LoadOne;
    if a == [] {
      assert a + b == b;
    } else {
      assert (a + b)[1..] == a[1..] + b;
      match LoadOne(mem, a[0], file, page)
      case None =>
      case Some(mem') => LoadConcat(mem', a[1..], b, file, page);
    }
  }

  // ----- Chapter 5 (Program Header) of the System V ABI -----

  ghost predicate PageAligned(base: nat, page: nat)
    requires page > 0
  {
    page % WORD_SIZE == 0 && base % page == 0
  }

  /** A loadable segment: the file size does not exceed the memory size, address and offset are congruent modulo the page
  size, and all of it (shifted by a page-aligned base, with one more page) is addressable.  Pages are whole words. */
  ghost predicate SegmentOk(h: ProgramHeader, base: nat, page: nat)
    requires page > 0
  {
    && PageAligned(base, page)
    && h.filesz <= h.memsz
    && h.vaddr % page == h.offset % page
    && base + h.vaddr + h.memsz + page < WORD_LIMIT
  }

  /** Ascending segments: each one ends no later than the page where the next one starts. */
  ghost predicate Ascending(hs: seq<ProgramHeader>, page: nat)
    requires page > 0
  {
    forall i :: 0 <= i < |hs| - 1 ==> hs[i].vaddr + hs[i].memsz <= PageDown(hs[i + 1].vaddr, page)
  }

  /** The memory image the ABI asks for, with the protection of the segment: the bytes of the file, then zeroes. */
  ghost predicate SegmentLoaded(mem: Memory, h: ProgramHeader, file: seq<Byte>, base: nat) {
    var start := base + h.vaddr;
    && (forall a: nat :: start <= a < start + h.filesz ==> a in mem && IsFileCell(mem[a], h, file, h.offset + (a - start)))
    && (forall a: nat :: start + h.filesz <= a < start + h.memsz ==> a in mem && mem[a] == Cell(0, h.flags, true))
  }

  /** That byte of the file; it can be read when the file has it. */
  predicate IsFileCell(c: Cell, h: ProgramHeader, file: seq<Byte>, i: nat) {
    c.value == (if i < |file| then file[i] else 0) && c.prot == h.flags && (i < |file| ==> c.backed)
  }

  /** Can the loader clear the end of the last file page of the segment?  That page has to be writable, and to exist:
  it does not when the segment's file part stops at a page boundary that is also the end of the file. */
  predicate Clearable(h: ProgramHeader, file: seq<Byte>, page: nat)
    requires page > 0
  {
    h.memsz > h.filesz ==> h.flags.write && PageDown(h.offset + h.filesz, page) < |file|
  }

  /** Below the first page of the segment nothing changes. */
  ghost predicate SameBelow(mem: Memory, mem': Memory, limit: int) {
    forall a: nat :: a < limit ==> (a in mem <==> a in mem') && (a in mem ==> mem[a] == mem'[a])
  }

  // ----- One segment -----

  lemma SegmentBounds(h: ProgramHeader, base: nat, page: nat)
    requires page > 0 && SegmentOk(h, base, page)
    ensures var start, end, end2 := PageDown(h.vaddr, page), PageDown(h.vaddr + h.filesz + page, page), PageDown(h.vaddr + h.memsz + page, page);
            && start <= h.vaddr < start + page
            && h.vaddr + h.filesz < end <= h.vaddr + h.filesz + page
            && h.vaddr + h.memsz < end2 <= h.vaddr + h.memsz + page
            && end <= end2 && base + end2 < WORD_LIMIT
            && h.filesz <= h.memsz && h.vaddr + h.memsz + page < WORD_LIMIT
  {
    hide PageDown, SegmentOk;
    SizesOk(h, base, page);
    PageBounds(h.vaddr, page);
    PageBounds(h.vaddr + h.filesz, page);
    PageBounds(h.vaddr + h.memsz, page);
    PageDownNext(h.vaddr + h.filesz, page);
    PageDownNext(h.vaddr + h.memsz, page);
    PageDownMonotone(h.vaddr + h.filesz, h.vaddr + h.memsz, page);
  }

  /** The file mapping of a segment, then the anonymous mapping of what is left of it, free of words. */
  function SegmentMaps(h: ProgramHeader, start: nat, end: nat, end2: nat, offset: nat, base: nat): seq<Mapping>
    requires start <= end && h.vaddr + h.filesz <= end
  {
    var m := Mapping(base + start, end - start, if h.memsz > h.filesz then end - h.vaddr - h.filesz else 0, h.flags,
                     false, offset);
    if h.memsz > h.filesz && end2 > end then [m, Mapping(base + end, end2 - end, 0, h.flags, true, 0)] else [m]
  }

  lemma PlainMaps(h: ProgramHeader, start: nat, end: nat, end2: nat, offset: nat)
    requires start <= end <= end2 < WORD_LIMIT && h.vaddr + h.filesz <= end
    ensures MapsBetween(h, start, end, end2, offset) == SegmentMaps(h, start, end, end2, offset, 0)
  {
    hide Wrap;
    WrapSmall(end - start);
    WrapSmall(end2 - end);
    WrapSmall(end - h.vaddr - h.filesz);
  }

  lemma ShiftedMaps(h: ProgramHeader, start: nat, end: nat, end2: nat, offset: nat, base: nat)
    requires start <= end <= end2 && base + end2 < WORD_LIMIT && h.vaddr + h.filesz <= end
    ensures AllShifted(SegmentMaps(h, start, end, end2, offset, 0), base) == SegmentMaps(h, start, end, end2, offset, base)
  {
    hide AllShifted;
    var ms := SegmentMaps(h, start, end, end2, offset, 0);
    if |ms| == 2 {
      ShiftedTwo(ms[0], ms[1], base);
    } else {
      ShiftedOne(ms[0], base);
    }
  }

  lemma SegmentMappings(h: ProgramHeader, base: nat, page: nat)
    requires page > 0 && SegmentOk(h, base, page)
    ensures var start, end, end2 := PageDown(h.vaddr, page), PageDown(h.vaddr + h.filesz + page, page), PageDown(h.vaddr + h.memsz + page, page);
            && start <= end <= end2 && h.vaddr + h.filesz <= end
            && AllShifted(MappingsOf(h, page), base) == SegmentMaps(h, start, end, end2, PageDown(h.offset, page), base)
  {
    hide PageDown, Wrap, SegmentOk, AllShifted, SegmentMaps, MapsBetween;
    SegmentBounds(h, base, page);
    var start, end, end2 := PageDown(h.vaddr, page), PageDown(h.vaddr + h.filesz + page, page), PageDown(h.vaddr + h.memsz + page, page);
    WrapSmall(h.vaddr + h.filesz + page);
    WrapSmall(h.vaddr + h.memsz + page);
    assert Wrap(h.vaddr + h.filesz + page) == h.vaddr + h.filesz + page;
    assert Wrap(h.vaddr + h.memsz + page) == h.vaddr + h.memsz + page;
    PlainMaps(h, start, end, end2, PageDown(h.offset, page));
    assert MappingsOf(h, page) == MapsBetween(h, start, end, end2, PageDown(h.offset, page));
    ShiftedMaps(h, start, end, end2, PageDown(h.offset, page), base);
  }

  lemma ShiftedOne(m: Mapping, base: nat)
    requires base + m.addr < WORD_LIMIT
    ensures AllShifted([m], base) == [m.(addr := base + m.addr)]
  {
    assert [m][1..] == [] && AllShifted([], base) == [];
  }

  lemma ShiftedTwo(m: Mapping, m': Mapping, base: nat)
    requires base + m.addr < WORD_LIMIT && base + m'.addr < WORD_LIMIT
    ensures AllShifted([m, m'], base) == [m.(addr := base + m.addr), m'.(addr := base + m'.addr)]
  {
    ShiftedOne(m', base);
    assert [m, m'][1..] == [m'];
  }

  /** The file mapping of a segment, shifted by base, ending at `end`. */
  ghost predicate IsFileMapping(m: Mapping, h: ProgramHeader, base: nat, end: nat, page: nat)
    requires page > 0
  {
    && end == base + PageDown(h.vaddr + h.filesz + page, page) > base + h.vaddr + h.filesz
    && m.addr == base + PageDown(h.vaddr, page) <= base + h.vaddr
    && m.addr + m.length == end
    && m.clearLength == (if h.memsz > h.filesz then end - base - h.vaddr - h.filesz else 0)
    && !m.anonymous && m.prot == h.flags
    && m.offset + (base + h.vaddr - m.addr) == h.offset
  }

  lemma SegmentFileMapping(h: ProgramHeader, base: nat, page: nat)
    requires page > 0 && SegmentOk(h, base, page)
    ensures var ms := AllShifted(MappingsOf(h, page), base);
            ms != [] && IsFileMapping(ms[0], h, base, ms[0].addr + ms[0].length, page)
  {
    hide MappingsOf, AllShifted;
    SegmentMappings(h, base, page);
    SegmentBounds(h, base, page);
    FilePosition(h, page);
    hide PageDown;
  }

  /** File positions follow addresses: both are rounded down by the same amount. */
  lemma FilePosition(h: ProgramHeader, page: nat)
    requires page > 0 && h.vaddr % page == h.offset % page
    ensures h.vaddr - PageDown(h.vaddr, page) == h.offset - PageDown(h.offset, page)
  {
  }

  /** The bytes to clear all lie in one page, whose existence and protection decide. */
  lemma ClearingPage(mem: Memory, m: Mapping, h: ProgramHeader, file: seq<Byte>, base: nat, end: nat, page: nat)
    requires page > 0 && SegmentOk(h, base, page) && h.memsz > h.filesz && IsFileMapping(m, h, base, end, page)
    ensures Writable(MmapFile(mem, m, file, page), base + h.vaddr + h.filesz, end) <==> Clearable(h, file, page)
  {
    var mapped := MmapFile(mem, m, file, page);
    var from := base + h.vaddr + h.filesz;
    forall a: nat | from <= a < end
      ensures a in mapped && mapped[a].prot.write == h.flags.write
      ensures mapped[a].backed <==> PageDown(h.offset + h.filesz, page) < |file|
    {
      ClearingByte(h, base, page, a - from);
      assert m.offset + (a - m.addr) == h.offset + h.filesz + (a - from);
      hide PageDown;
    }
    hide PageDown;
    assert from in mapped;
  }

  lemma ClearingByte(h: ProgramHeader, base: nat, page: nat, k: nat)
    requires page > 0 && SegmentOk(h, base, page)
    requires h.vaddr + h.filesz + k < PageDown(h.vaddr + h.filesz + page, page)
    ensures PageDown(h.offset + h.filesz + k, page) == PageDown(h.offset + h.filesz, page)
  {
    hide PageDown, PageAligned;
    PageDownNext(h.vaddr + h.filesz, page);
    PageDownAdd(h.vaddr, h.offset, h.filesz, page);
    PageOffset(h.vaddr + h.filesz, page);
    PageOffset(h.offset + h.filesz, page);
    PageDownSmall(h.offset + h.filesz, k, page);
  }

  lemma MappedFile(mem: Memory, m: Mapping, h: ProgramHeader, file: seq<Byte>, base: nat, end: nat, page: nat)
    requires page > 0 && IsFileMapping(m, h, base, end, page)
    ensures FilePart0(MmapFile(mem, m, file, page), h, file, base, end)
    ensures SameBelow(mem, MmapFile(mem, m, file, page), m.addr)
  {
    hide PageDown;
    var mapped := MmapFile(mem, m, file, page);
    forall a: nat | base + h.vaddr <= a < end
      ensures a in mapped && IsFileCell(mapped[a], h, file, h.offset + (a - base - h.vaddr))
    {
      PageBounds(h.offset + (a - base - h.vaddr), page);
      assert m.offset + (a - m.addr) == h.offset + (a - base - h.vaddr);
    }
  }

  lemma LoadFileMapping(mem: Memory, m: Mapping, h: ProgramHeader, file: seq<Byte>, base: nat, end: nat, page: nat)
    requires page > 0 && SegmentOk(h, base, page) && IsFileMapping(m, h, base, end, page)
    ensures var r := LoadOne(mem, m, file, page);
            && (r.Some? <==> Clearable(h, file, page))
            && (r.Some? ==> SameBelow(mem, r.value, m.addr) && FilePart(r.value, h, file, base, end))
  {
    hide PageDown, MmapFile, CanClear, Cleared, Clears, SegmentOk, Clearable;
    MappedFile(mem, m, h, file, base, end, page);
    if h.memsz > h.filesz {
      EndsWithWord(h, base, end, page);
      ClearedIsZeroed(MmapFile(mem, m, file, page), base + h.vaddr + h.filesz, end);
      ClearingPage(mem, m, h, file, base, end, page);
    } else {
      NothingToClear(h, file, page);
    }
  }

  lemma NothingToClear(h: ProgramHeader, file: seq<Byte>, page: nat)
    requires page > 0 && h.memsz <= h.filesz
    ensures Clearable(h, file, page)
  {
  }

  lemma EndsWithWord(h: ProgramHeader, base: nat, end: nat, page: nat)
    requires page > 0 && SegmentOk(h, base, page) && end == base + PageDown(h.vaddr + h.filesz + page, page)
    ensures end % WORD_SIZE == 0
  {
    hide PageDown;
    AlignedSum(base, h.vaddr + h.filesz + page, page);
    WholeWords(end, page);
  }

  lemma WholeWords(x: nat, page: nat)
    requires page > 0 && page % WORD_SIZE == 0 && x % page == 0
    ensures x % WORD_SIZE == 0
  {
    var p, q := page / WORD_SIZE, x / page;
    assert page == WORD_SIZE * p && x == page * q;
    assert x == WORD_SIZE * (p * q);
    SomeWords(x, p * q);
  }

  lemma SomeWords(x: nat, q: nat)
    requires x == WORD_SIZE * q
    ensures x % WORD_SIZE == 0
  {
  }

  /** What clear() zeroes up to the end of a page is just what it is asked to. */
  lemma ClearedIsZeroed(mem: Memory, start: nat, end: nat)
    requires start <= end && end % WORD_SIZE == 0
    ensures CanClear(mem, start, end) <==> Writable(mem, start, end)
    ensures Cleared(mem, start, end) == Zeroed(mem, start, end)
  {
    hide Clears;
    ClearsExactly(start, end);
  }

  ghost predicate FilePart0(mem: Memory, h: ProgramHeader, file: seq<Byte>, base: nat, end: nat) {
    forall a: nat :: base + h.vaddr <= a < end ==> a in mem && IsFileCell(mem[a], h, file, h.offset + (a - base - h.vaddr))
  }

  /** The part of a segment in its file mapping: the bytes of the file, then the cleared end of the page. */
  ghost predicate FilePart(mem: Memory, h: ProgramHeader, file: seq<Byte>, base: nat, end: nat) {
    && FilePart0(mem, h, file, base, base + h.vaddr + h.filesz)
    && (h.memsz > h.filesz ==> forall a: nat :: base + h.vaddr + h.filesz <= a < end ==>
          a in mem && mem[a] == Cell(0, h.flags, true))
  }

  /** Loading one segment succeeds just when its last file page can be cleared, and gives the ABI's image. */
  lemma LoadSegment(mem: Memory, h: ProgramHeader, file: seq<Byte>, base: nat, page: nat)
    requires page > 0 && SegmentOk(h, base, page)
    ensures var r := LoadAll(mem, AllShifted(MappingsOf(h, page), base), file, page);
            && (r.Some? <==> Clearable(h, file, page))
            && (r.Some? ==> SegmentLoaded(r.value, h, file, base) && SameBelow(mem, r.value, base + PageDown(h.vaddr, page)))
  {
    hide PageDown, LoadOne, MappingsOf, AllShifted, Clearable;
    SegmentMappings(h, base, page);
    SegmentBounds(h, base, page);
    SegmentFileMapping(h, base, page);
    var ms := AllShifted(MappingsOf(h, page), base);
    LoadFileMapping(mem, ms[0], h, file, base, ms[0].addr + ms[0].length, page);
    var r := LoadOne(mem, ms[0], file, page);
    if r.Some? {
      if |ms| > 1 {
        LoadAnonymous(r.value, ms[1], h, file, base, ms[0].addr + ms[0].length, page);
        assert ms[1..] == [ms[1]];
        LoadSingle(r.value, ms[1], file, page);
      } else {
        assert ms[1..] == [];
      }
    }
  }

  lemma LoadSingle(mem: Memory, m: Mapping, file: seq<Byte>, page: nat)
    requires page > 0
    ensures LoadAll(mem, [m], file, page) == LoadOne(mem, m, file, page)
  {
    assert [m][1..] == [];
  }

  lemma LoadAnonymous(mem: Memory, m: Mapping, h: ProgramHeader, file: seq<Byte>, base: nat, end: nat, page: nat)
    requires page > 0 && m.anonymous && m.addr == end && base + h.vaddr + h.filesz <= end && m.prot == h.flags
    requires base + h.vaddr + h.memsz <= m.addr + m.length
    requires h.memsz > h.filesz && FilePart(mem, h, file, base, end)
    ensures var r := LoadOne(mem, m, file, page);
            && r.Some? && SegmentLoaded(r.value, h, file, base)
            && SameBelow(mem, r.value, end)
  {
  }

  // ----- The whole object -----

  /** Load compiler correctness: for ascending segments, making the generated mappings, shifted by the base, succeeds
  just when the end of every segment can be cleared, and then leaves the image the ABI asks for. */
  lemma {:induction false} LoadCorrect(mem: Memory, hs: seq<ProgramHeader>, file: seq<Byte>, base: nat, page: nat)
    requires page > 0 && Ascending(hs, page)
    requires forall h :: h in hs ==> SegmentOk(h, base, page)
    ensures var r := LoadAll(mem, AllShifted(AllMappings(hs, page), base), file, page);
            && (r.Some? <==> forall h :: h in hs ==> Clearable(h, file, page))
            && (r.Some? ==> forall h :: h in hs ==> SegmentLoaded(r.value, h, file, base))
            && (r.Some? && hs != [] ==> SameBelow(mem, r.value, base + PageDown(hs[0].vaddr, page)))
    decreases |hs|
  {
    hide PageDown, LoadOne, MappingsOf, Clearable, SegmentLoaded;
    if hs != [] {
      var h, rest := hs[0], hs[1..];
      ShiftedConcat(MappingsOf(h, page), AllMappings(rest, page), base);
      LoadConcat(mem, AllShifted(MappingsOf(h, page), base), AllShifted(AllMappings(rest, page), base), file, page);
      LoadSegment(mem, h, file, base, page);
      var first := LoadAll(mem, AllShifted(MappingsOf(h, page), base), file, page);
      assert forall x :: x in hs <==> x == h || x in rest;
      if first.Some? {
        AscendingTail(hs, page);
        LoadCorrect(first.value, rest, file, base, page);
        var r := LoadAll(first.value, AllShifted(AllMappings(rest, page), base), file, page);
        if r.Some? {
          if rest != [] {
            AscendingFirst(hs, page);
            StaysLoaded(first.value, r.value, h, file, base, base + PageDown(rest[0].vaddr, page));
            SameBelowTransitive(mem, first.value, r.value, base + PageDown(h.vaddr, page), base + PageDown(rest[0].vaddr, page));
          } else {
            assert r.value == first.value;
          }
        }
      }
    }
  }

  lemma AscendingTail(hs: seq<ProgramHeader>, page: nat)
    requires page > 0 && Ascending(hs, page) && hs != []
    ensures Ascending(hs[1..], page)
  {
    hide PageDown;
    assert forall i :: 0 <= i < |hs[1..]| ==> hs[1..][i] == hs[i + 1];
  }

  lemma AscendingFirst(hs: seq<ProgramHeader>, page: nat)
    requires page > 0 && Ascending(hs, page) && |hs| >= 2
    ensures hs[0].vaddr + hs[0].memsz <= PageDown(hs[1].vaddr, page)
    ensures PageDown(hs[0].vaddr, page) <= hs[0].vaddr
  {
  }

  lemma StaysLoaded(mem: Memory, mem': Memory, h: ProgramHeader, file: seq<Byte>, base: nat, limit: nat)
    requires SegmentLoaded(mem, h, file, base) && SameBelow(mem, mem', limit)
    requires h.filesz <= h.memsz && base + h.vaddr + h.memsz <= limit
    ensures SegmentLoaded(mem', h, file, base)
  {
  }

  lemma SameBelowTransitive(a: Memory, b: Memory, c: Memory, low: nat, high: nat)
    requires SameBelow(a, b, low) && SameBelow(b, c, high) && low <= high
    ensures SameBelow(a, c, low)
  {
  }

  lemma RoundedSum(base: nat, x: nat, page: nat)
    requires page > 0 && PageAligned(base, page)
    ensures (base + PageDown(x, page)) % page == 0 && PageDown(x, page) % page == 0
  {
    AlignedSum(base, x, page);
    AlignedSum(0, x, page);
  }

  lemma NonEmptyFile(h: ProgramHeader, base: nat, page: nat)
    requires page > 0 && SegmentOk(h, base, page)
    ensures PageDown(h.vaddr, page) < PageDown(h.vaddr + h.filesz + page, page)
  {
    hide PageDown, PageAligned;
    SegmentBounds(h, base, page);
  }

  lemma AmongMaps(h: ProgramHeader, start: nat, end: nat, end2: nat, offset: nat, base: nat, m: Mapping)
    requires start <= end && h.vaddr + h.filesz <= end && m in SegmentMaps(h, start, end, end2, offset, base)
    ensures (m.addr == base + start && m.offset == offset && m.length == end - start) ||
            (m.addr == base + end && m.offset == 0 && m.length > 0)
  {
  }

  lemma ZeroAligned(page: nat)
    requires page > 0
    ensures 0 % page == 0
  {
  }

  lemma AlignedFields(h: ProgramHeader, base: nat, page: nat, m: Mapping)
    requires page > 0 && SegmentOk(h, base, page) && m in AllShifted(MappingsOf(h, page), base)
    ensures m.addr % page == 0 && m.offset % page == 0 && m.length > 0
  {
    hide PageDown, PageAligned, AllShifted, MappingsOf, SegmentMaps;
    SegmentMappings(h, base, page);
    NonEmptyFile(h, base, page);
    RoundedSum(base, h.vaddr, page);
    RoundedSum(base, h.vaddr + h.filesz + page, page);
    RoundedSum(base, h.offset, page);
    AmongMaps(h, PageDown(h.vaddr, page), PageDown(h.vaddr + h.filesz + page, page), PageDown(h.vaddr + h.memsz + page, page),
              PageDown(h.offset, page), base, m);
    ZeroAligned(page);
  }

  /** What the loader passes to mmap(2) is acceptable to it: page-aligned, and never empty. */
  lemma MappingsAligned(h: ProgramHeader, base: nat, page: nat)
    requires page > 0 && SegmentOk(h, base, page)
    ensures forall m :: m in AllShifted(MappingsOf(h, page), base) ==>
              m.addr % page == 0 && m.offset % page == 0 && m.length > 0
  {
    forall m | m in AllShifted(MappingsOf(h, page), base)
      ensures m.addr % page == 0 && m.offset % page == 0 && m.length > 0
    {
      AlignedFields(h, base, page, m);
    }
  }

  /** A valid segment whose file part ends both on a page boundary and at the end of the file: the source maps
  one page too many, clears it, and the loader is killed. */
  lemma BusErrorAtEndOfFile(mem: Memory, file: seq<Byte>)
    requires |file| == 4096
    ensures var h := ProgramHeader(4096, 0, 4096, 4097, Prot(true, true, false));
            SegmentOk(h, 0, 4096) && LoadAll(mem, AllShifted(MappingsOf(h, 4096), 0), file, 4096) == None
  {
    hide LoadAll, AllShifted, MappingsOf, SegmentLoaded, SameBelow;
    var h := ProgramHeader(4096, 0, 4096, 4097, Prot(true, true, false));
    LoadSegment(mem, h, file, 0, 4096);
  }

  // ----- Two objects -----

  /** The pages of a segment. */
  ghost predicate InPages(h: ProgramHeader, base: nat, page: nat, a: nat)
    requires page > 0
  {
    base + PageDown(h.vaddr, page) <= a < base + PageDown(h.vaddr + h.memsz + page, page)
  }

  /** No page of one object is a page of the other. */
  ghost predicate Apart(hs: seq<ProgramHeader>, base: nat, others: seq<ProgramHeader>, otherBase: nat, page: nat)
    requires page > 0
  {
    forall h, g, a: nat :: h in hs && g in others && InPages(h, base, page, a) ==> !InPages(g, otherBase, page, a)
  }

  /** Nothing changes but what is mapped. */
  lemma LoadOneOutside(mem: Memory, m: Mapping, file: seq<Byte>, page: nat, a: nat)
    requires page > 0 && !(m.addr <= a < m.addr + m.length) && (m.addr + m.length) % WORD_SIZE == 0
    requires m.clearLength <= m.length
    ensures var r := LoadOne(mem, m, file, page);
            r.Some? ==> (a in mem <==> a in r.value) && (a in mem ==> mem[a] == r.value[a])
  {
    hide PageExists;
    ClearsExactly(m.addr + m.length - m.clearLength, m.addr + m.length);
    hide Clears;
  }

  lemma {:induction false} LoadAllOutside(mem: Memory, ms: seq<Mapping>, file: seq<Byte>, page: nat, a: nat)
    requires page > 0 && forall m :: m in ms ==> (m.addr + m.length) % WORD_SIZE == 0 && m.clearLength <= m.length
    requires forall m :: m in ms ==> !(m.addr <= a < m.addr + m.length)
    ensures var r := LoadAll(mem, ms, file, page);
            r.Some? ==> (a in mem <==> a in r.value) && (a in mem ==> mem[a] == r.value[a])
    decreases |ms|
  {
    hide LoadOne;
    if ms != [] {
      LoadOneOutside(mem, ms[0], file, page, a);
      var r := LoadOne(mem, ms[0], file, page);
      if r.Some? {
        LoadAllOutside(r.value, ms[1..], file, page, a);
      }
    }
  }

  /** The mappings of a segment are in its pages, and end with a page. */
  lemma MappingsInPages(h: ProgramHeader, base: nat, page: nat, m: Mapping, a: nat)
    requires page > 0 && SegmentOk(h, base, page) && m in AllShifted(MappingsOf(h, page), base)
    ensures (m.addr + m.length) % WORD_SIZE == 0 && m.clearLength <= m.length
    ensures m.addr <= a < m.addr + m.length ==> InPages(h, base, page, a)
  {
    hide PageDown, AllShifted, MappingsOf, SegmentOk;
    SegmentMappings(h, base, page);
    SegmentBounds(h, base, page);
    EndsWithWord(h, base, base + PageDown(h.vaddr + h.filesz + page, page), page);
    PagesAreWords(h, base, page, h.vaddr + h.memsz + page);
  }

  lemma PagesAreWords(h: ProgramHeader, base: nat, page: nat, x: nat)
    requires page > 0 && SegmentOk(h, base, page)
    ensures (base + PageDown(x, page)) % WORD_SIZE == 0
  {
    hide PageDown;
    AlignedSum(base, x, page);
    WholeWords(base + PageDown(x, page), page);
  }

  lemma {:induction false} AllInPages(hs: seq<ProgramHeader>, base: nat, page: nat, m: Mapping)
      returns (h: ProgramHeader)
    requires page > 0 && (forall h :: h in hs ==> SegmentOk(h, base, page)) && m in AllShifted(AllMappings(hs, page), base)
    ensures h in hs && m in AllShifted(MappingsOf(h, page), base)
  {
    hide MappingsOf, SegmentOk;
    if hs == [] {
      ShiftedNone(base);
      assert false;
    } else {
      ShiftedConcat(MappingsOf(hs[0], page), AllMappings(hs[1..], page), base);
      if m in AllShifted(MappingsOf(hs[0], page), base) {
        h := hs[0];
      } else {
        h := AllInPages(hs[1..], base, page, m);
      }
    }
  }

  /** An object stays loaded when another one is loaded apart from it. */
  lemma StaysApart(mem: Memory, hs: seq<ProgramHeader>, base: nat, mem': Memory, others: seq<ProgramHeader>, otherBase: nat,
                   file: seq<Byte>, otherFile: seq<Byte>, page: nat)
    requires page > 0 && Apart(hs, base, others, otherBase, page)
    requires forall h :: h in hs ==> SegmentOk(h, base, page) && SegmentLoaded(mem, h, file, base)
    requires forall g :: g in others ==> SegmentOk(g, otherBase, page)
    requires LoadAll(mem, AllShifted(AllMappings(others, page), otherBase), otherFile, page) == Some(mem')
    ensures forall h :: h in hs ==> SegmentLoaded(mem', h, file, base)
  {
    hide SegmentOk, AllShifted, AllMappings, LoadAll, MappingsOf, SegmentLoaded;
    var ms := AllShifted(AllMappings(others, page), otherBase);
    forall m | m in ms ensures (m.addr + m.length) % WORD_SIZE == 0 && m.clearLength <= m.length {
      var g := AllInPages(others, otherBase, page, m);
      MappingsInPages(g, otherBase, page, m, 0);
    }
    forall h | h in hs ensures SegmentLoaded(mem', h, file, base) {
      forall a: nat | base + h.vaddr <= a < base + h.vaddr + h.memsz
        ensures (a in mem <==> a in mem') && (a in mem ==> mem[a] == mem'[a])
      {
        SegmentBounds(h, base, page);
        assert InPages(h, base, page, a);
        forall m | m in ms ensures !(m.addr <= a < m.addr + m.length) {
          var g := AllInPages(others, otherBase, page, m);
          MappingsInPages(g, otherBase, page, m, a);
        }
        LoadAllOutside(mem, ms, otherFile, page, a);
      }
      StaysLoadedAt(mem, mem', h, file, base) by { SizesOk(h, base, page); }
    }
  }

  lemma SizesOk(h: ProgramHeader, base: nat, page: nat)
    requires page > 0 && SegmentOk(h, base, page)
    ensures h.filesz <= h.memsz && base + h.vaddr + h.memsz + page < WORD_LIMIT
  {
  }

  lemma StaysLoadedAt(mem: Memory, mem': Memory, h: ProgramHeader, file: seq<Byte>, base: nat)
    requires SegmentLoaded(mem, h, file, base) && h.filesz <= h.memsz
    requires forall a: nat :: base + h.vaddr <= a < base + h.vaddr + h.memsz ==>
                                (a in mem <==> a in mem') && (a in mem ==> mem[a] == mem'[a])
    ensures SegmentLoaded(mem', h, file, base)
  {
  }
}
