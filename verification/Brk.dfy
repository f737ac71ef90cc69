/** The emulation of brk(2) with a private mapping (syscall/heap.c). */
module Brk {
  import opened Basics

  const INT_LIMIT: nat := 0x1_0000_0000

  /** The syscall that reaches the kernel, with the arguments that matter. */
  datatype Request =
    | NativeBrk(address: Word)
    | Nothing
    | Mmap(address: Word, length: Word)
    | Mremap(oldAddress: Word, oldSize: Word, newSize: Word)

  /** -4096 < (int) result < 0. */
  predicate LooksLikeError(result: Word) {
    result % INT_LIMIT > INT_LIMIT - 4096
  }

  // ----- The source's own form -----

  /** The heap of a tracee, its base 0 until it is allocated. */
  datatype State = State(base: Word, size: Word, disabled: bool)

  class Heap {
    var base: Word
    var size: Word
    var disabled: bool

    constructor ()
      ensures Value() == State(0, 0, false)
    {
      base, size, disabled := 0, 0, false;
    }

    function Value(): State
      reads this
    {
      State(base, size, disabled)
    }

    /** translate_brk_enter(): `bssEnd` is the end of the last mapping of the program. */
    method TranslateBrkEnter(address: Word, bssEnd: Word, heapOffset: Word) returns (request: Request)
      ensures request == Entered(Value(), address, bssEnd, heapOffset)
    {
      if disabled {
        return NativeBrk(address);
      }
      // First call: mmap(2) makes the heap.
      if base == 0 {
        if address != 0 {
          return NativeBrk(address);
        }
        return Mmap(bssEnd, heapOffset);
      }
      // Below its base there is no heap.
      if address < base {
        return Nothing;
      }
      var newHeapSize, oldHeapSize := address - base, size;
      return Mremap(Wrap(base - heapOffset), Wrap(oldHeapSize + heapOffset), Wrap(newHeapSize + heapOffset));
    }

    /** translate_brk_exit(): what the tracee gets. */
    method TranslateBrkExit(request: Request, original: Word, result: Word, heapOffset: Word) returns (answer: Word)
      modifies this
      ensures (Value(), answer) == Exited(old(Value()), request, original, result, heapOffset)
    {
      if disabled {
        return result;
      }
      match request
      case Nothing =>
        answer := Wrap(base + size);
      case Mmap(_, _) =>
        if LooksLikeError(result) {
          return 0;
        }
        base := Wrap(result + heapOffset);
        size := 0;
        answer := Wrap(base + size);
      case Mremap(_, _, newSize) =>
        if LooksLikeError(result) || base != Wrap(result + heapOffset) {
          return Wrap(base + size);
        }
        size := Wrap(newSize - heapOffset);
        answer := Wrap(base + size);
      case NativeBrk(_) =>
        if result == original {
          disabled := true;
        }
        answer := result;
    }
  }

  function Entered(h: State, address: Word, bssEnd: Word, heapOffset: Word): Request {
    if h.disabled then NativeBrk(address)
    else if h.base == 0 then if address != 0 then NativeBrk(address) else Mmap(bssEnd, heapOffset)
    else if address < h.base then Nothing
    else Mremap(Wrap(h.base - heapOffset), Wrap(h.size + heapOffset), Wrap(address - h.base + heapOffset))
  }

  function Exited(h: State, request: Request, original: Word, result: Word, heapOffset: Word): (State, Word) {
    if h.disabled then (h, result)
    else
      match request
      case Nothing => (h, Wrap(h.base + h.size))
      case Mmap(_, _) =>
        if LooksLikeError(result) then (h, 0)
        else
          var base := Wrap(result + heapOffset);
          (h.(base := base, size := 0), base)
      case Mremap(_, _, newSize) =>
        if LooksLikeError(result) || h.base != Wrap(result + heapOffset) then (h, Wrap(h.base + h.size))
        else
          var size := Wrap(newSize - heapOffset);
          (h.(size := size), Wrap(h.base + size))
      case NativeBrk(_) => (if result == original then h.(disabled := true) else h, result)
  }

  // ----- The kernel -----

  /** The mapping of the heap, as the kernel has it. */
  datatype Area = NoArea | Area(start: nat, length: nat)

  /** What the kernel answered, and the mapping after it. */
  datatype Reply = Reply(result: Word, area: Area)

  function PageUp(x: nat, page: nat): nat
    requires page > 0
  {
    if x % page == 0 then x else x + page - x % page
  }

  /** -errno. */
  predicate IsErrno(result: Word) {
    WORD_LIMIT - 4096 < result
  }

  /** What the kernel may do: refuse, or map whole pages wherever it likes below `top`; without MREMAP_MAYMOVE a
  mapping stays where it is. */
  predicate KernelReply(area: Area, request: Request, r: Reply, page: nat, top: nat)
    requires page > 0
  {
    match request
    case NativeBrk(_) => r.area == area
    case Nothing => r.area == area
    case Mmap(_, length) =>
      || (IsErrno(r.result) && r.area == area)
      || (r.result % page == 0 && r.result + PageUp(length, page) <= top && r.area == Area(r.result, PageUp(length, page)))
    case Mremap(oldAddress, oldSize, newSize) =>
      || (IsErrno(r.result) && r.area == area)
      || (&& area == Area(oldAddress, PageUp(oldSize, page)) && newSize > 0
          && r.result == oldAddress && oldAddress + PageUp(newSize, page) <= top
          && r.area == Area(oldAddress, PageUp(newSize, page)))
  }

  /** Where it does so: its own brk(2) moves its break to the address asked for, or leaves it where it is; and a new mapping
  goes where it was asked for, when there is room. */
  ghost predicate KernelPlaces(native: Word, room: nat -> bool, request: Request, result: Word, page: nat)
    requires page > 0
  {
    match request
    case NativeBrk(address) => result == address || result == native
    case Mmap(address, _) => room(address) && address % page == 0 && !IsErrno(result) ==> result == address
    case _ => true
  }

  /** A page is a multiple of 4096 bytes, and mappings lie within the words. */
  ghost predicate ValidPage(page: nat, top: nat) {
    && 0 < page < top && page % 4096 == 0 && top < WORD_LIMIT - INT_LIMIT
  }

  // ----- The reference -----

  /** A break pointer: not set yet, handled by the kernel, or between a base and an end. */
  datatype Break = Unset | Native | Break(base: nat, end: nat)

  /** What the tracee should see, the kernel having granted the request or not. */
  function Simple(b: Break, address: Word, granted: bool, result: Word, page: nat): (Break, nat) {
    match b
    case Native => (Native, result)
    case Unset =>
      if address != 0 then (if result == address then Native else Unset, result)
      else if granted then (Break(result + page, result + page), result + page)
      else (Unset, 0)
    case Break(base, end) => if address >= base && granted then (Break(base, address), address) else (b, end)
  }

  /** The emulated heap stands for this break, and the kernel maps it all, with one page before it. */
  ghost predicate Refines(h: State, b: Break, area: Area, page: nat, top: nat)
    requires page > 0
  {
    match b
    case Native => h.disabled
    case Unset => !h.disabled && h.base == 0
    case Break(base, end) =>
      && !h.disabled && h.base == base && base + h.size == end
      && page <= base && base % page == 0 && end <= top
      && area == Area(base - page, PageUp(h.size + page, page))
  }

  lemma PageUpBounds(x: nat, page: nat)
    requires page > 0
    ensures x <= PageUp(x, page) < x + page
  {
  }

  lemma Multiple(result: nat, page: nat)
    requires page > 0 && page % 4096 == 0 && result % page == 0
    ensures result % 4096 == 0
  {
    var p, q := page / 4096, result / page;
    assert page == 4096 * p && result == page * q;
    assert result == 4096 * (p * q);
    ExactMultiple(result, p * q);
  }

  lemma ExactMultiple(x: nat, q: nat)
    requires x == 4096 * q
    ensures x % 4096 == 0
  {
  }

  lemma LowBits(result: nat)
    requires result % 4096 == 0
    ensures result % INT_LIMIT <= INT_LIMIT - 4096
  {
    var a, b := result / INT_LIMIT, result % INT_LIMIT;
    assert result == INT_LIMIT * a + b;
    assert b == 4096 * (result / 4096 - 1048576 * a);
  }

  lemma LowBitsOfErrno(result: Word)
    requires IsErrno(result)
    ensures result % INT_LIMIT > INT_LIMIT - 4096
  {
    var a := INT_LIMIT - 1;
    assert result == INT_LIMIT * a + (result - INT_LIMIT * a);
    assert result % INT_LIMIT == result - INT_LIMIT * a;
  }

  /** The test on the low 32 bits tells errors from page-aligned addresses, whatever their high bits are. */
  lemma ErrorTestExact(result: Word, page: nat)
    requires page > 0 && page % 4096 == 0
    requires result % page == 0 || IsErrno(result)
    ensures LooksLikeError(result) <==> IsErrno(result)
  {
    if IsErrno(result) {
      LowBitsOfErrno(result);
    } else {
      Multiple(result, page);
      LowBits(result);
    }
  }

  /** On other words it is wrong: this address is no error, although it looks like one. */
  lemma ErrorTestInexact()
    ensures LooksLikeError(0x7FFF_FFFF_FFFF) && !IsErrno(0x7FFF_FFFF_FFFF)
  {
  }

  // ----- Refinement -----

  /** One call of the tracee, and what the kernel did about it. */
  datatype Call = Call(address: Word, bssEnd: Word, reply: Reply)

  function Emulated(h: State, c: Call, page: Word): (State, Word) {
    Exited(h, Entered(h, c.address, c.bssEnd, page), c.address, c.reply.result, page)
  }

  function Expected(b: Break, c: Call, page: Word): (Break, nat) {
    Simple(b, c.address, !IsErrno(c.reply.result), c.reply.result, page)
  }

  /** The first call allocates the heap. */
  lemma FirstBrk(h: State, area: Area, c: Call, page: Word, top: nat)
    requires ValidPage(page, top) && Refines(h, Unset, area, page, top)
    requires KernelReply(area, Entered(h, c.address, c.bssEnd, page), c.reply, page, top)
    ensures Emulated(h, c, page).1 == Expected(Unset, c, page).1
    ensures Refines(Emulated(h, c, page).0, Expected(Unset, c, page).0, c.reply.area, page, top)
  {
    var result := c.reply.result;
    if c.address == 0 {
      WholePage(page);
      ErrorTestExact(result, page);
      if !IsErrno(result) {
        WrapSmall(result + page);
        ModOne(result, page);
      }
    }
  }

  /** The heap starts one page behind the last mapping of the program, if there is room. */
  lemma HeapBehindBss(h: State, area: Area, c: Call, page: Word, top: nat, native: Word, room: nat -> bool)
    requires ValidPage(page, top) && Refines(h, Unset, area, page, top) && c.address == 0 && !IsErrno(c.reply.result)
    requires KernelReply(area, Entered(h, c.address, c.bssEnd, page), c.reply, page, top)
    requires KernelPlaces(native, room, Entered(h, c.address, c.bssEnd, page), c.reply.result, page)
    requires room(c.bssEnd) && c.bssEnd % page == 0
    ensures Emulated(h, c, page).0.base == c.bssEnd + page && Emulated(h, c, page).1 == c.bssEnd + page
  {
    WholePage(page);
    ErrorTestExact(c.reply.result, page);
    WrapSmall(c.reply.result + page);
  }

  /** What is left to the kernel is about the address that the tracee asked for, and the break of the kernel. */
  lemma NativeAnswered(h: State, b: Break, area: Area, c: Call, page: Word, top: nat, native: Word, room: nat -> bool)
    requires page > 0 && Refines(h, b, area, page, top) && (b.Native? || (b.Unset? && c.address != 0))
    requires KernelPlaces(native, room, Entered(h, c.address, c.bssEnd, page), c.reply.result, page)
    ensures Emulated(h, c, page).1 == c.address || Emulated(h, c, page).1 == native
    ensures b.Unset? ==> (Emulated(h, c, page).0.disabled <==> c.reply.result == c.address)
  {
  }

  lemma WholePage(page: nat)
    requires page > 0
    ensures PageUp(page, page) == page
  {
  }

  /** A later call below the base, or one that the kernel refuses, changes nothing. */
  lemma RefusedBrk(h: State, base: nat, end: nat, area: Area, c: Call, page: Word, top: nat)
    requires ValidPage(page, top) && Refines(h, Break(base, end), area, page, top)
    requires KernelReply(area, Entered(h, c.address, c.bssEnd, page), c.reply, page, top)
    requires c.address < base || IsErrno(c.reply.result)
    ensures Emulated(h, c, page).1 == Expected(Break(base, end), c, page).1
    ensures Refines(Emulated(h, c, page).0, Expected(Break(base, end), c, page).0, c.reply.area, page, top)
  {
    hide PageUp, LooksLikeError, Wrap, IsErrno;
    WrapSmall(base + h.size);
    OnePageBelow(base, page);
    if IsErrno(c.reply.result) {
      ErrorTestExact(c.reply.result, page);
      ErrnoIsNoPage(c.reply.result, base, page, top);
    }
  }

  lemma ErrnoIsNoPage(result: Word, base: nat, page: Word, top: nat)
    requires IsErrno(result) && ValidPage(page, top) && page <= base <= top
    ensures result != base - page && result != Wrap(base - page)
  {
    WrapSmall(base - page);
  }

  /** What the kernel is asked is about the mapping of the heap, so that it can grant it. */
  lemma RequestNamesHeap(h: State, base: nat, end: nat, area: Area, address: Word, bssEnd: Word, page: Word, top: nat)
    requires ValidPage(page, top) && Refines(h, Break(base, end), area, page, top) && address >= base
    ensures area.Area? && area == Area(area.start, PageUp(h.size + page, page))
    ensures Entered(h, address, bssEnd, page) == Mremap(area.start, h.size + page, address - base + page)
  {
    hide PageUp, Wrap;
    WrapSmall(base - page);
    WrapSmall(h.size + page);
    WrapSmall(address - base + page);
  }

  /** What the kernel is asked, and what it grants. */
  lemma GrantedRequest(h: State, base: nat, end: nat, area: Area, c: Call, page: Word, top: nat)
    requires ValidPage(page, top) && Refines(h, Break(base, end), area, page, top)
    requires KernelReply(area, Entered(h, c.address, c.bssEnd, page), c.reply, page, top)
    requires c.address >= base && !IsErrno(c.reply.result)
    ensures var size := c.address - base;
            && Entered(h, c.address, c.bssEnd, page) == Mremap(base - page, Wrap(h.size + page), size + page)
            && c.reply == Reply(base - page, Area(base - page, PageUp(size + page, page)))
            && base - page + PageUp(size + page, page) <= top
  {
    hide PageUp, Wrap, IsErrno;
    WrapSmall(base - page);
    WrapSmall(c.address - base + page);
  }

  /** A later call that the kernel grants moves the break. */
  lemma GrantedBrk(h: State, base: nat, end: nat, area: Area, c: Call, page: Word, top: nat)
    requires ValidPage(page, top) && Refines(h, Break(base, end), area, page, top)
    requires KernelReply(area, Entered(h, c.address, c.bssEnd, page), c.reply, page, top)
    requires c.address >= base && !IsErrno(c.reply.result)
    ensures Emulated(h, c, page).1 == Expected(Break(base, end), c, page).1
    ensures Refines(Emulated(h, c, page).0, Expected(Break(base, end), c, page).0, c.reply.area, page, top)
  {
    hide PageUp, LooksLikeError, Wrap, IsErrno, Entered, KernelReply;
    GrantedRequest(h, base, end, area, c, page, top);
    WrapSmall(c.address - base);
    WrapSmall(c.address);
    WrapSmall(base);
    OnePageBelow(base, page);
    ErrorTestExact(base - page, page);
    PageUpBounds(c.address - base + page, page);
    assert Emulated(h, c, page) == (h.(size := c.address - base), c.address);
  }

  lemma OnePageBelow(base: nat, page: nat)
    requires page > 0 && base >= page && base % page == 0
    ensures (base - page) % page == 0
  {
    ModOne(base - page, page);
  }

  /** One call keeps the refinement, and answers what the break pointer would. */
  lemma BrkStep(h: State, b: Break, area: Area, c: Call, page: Word, top: nat)
    requires ValidPage(page, top) && Refines(h, b, area, page, top)
    requires KernelReply(area, Entered(h, c.address, c.bssEnd, page), c.reply, page, top)
    ensures Emulated(h, c, page).1 == Expected(b, c, page).1
    ensures Refines(Emulated(h, c, page).0, Expected(b, c, page).0, c.reply.area, page, top)
  {
    hide Entered, KernelReply, ValidPage;
    match b
    case Native =>
    case Unset => FirstBrk(h, area, c, page, top);
    case Break(base, end) =>
      if c.address < base || IsErrno(c.reply.result) {
        RefusedBrk(h, base, end, area, c, page, top);
      } else {
        GrantedBrk(h, base, end, area, c, page, top);
      }
  }

  /** Calls the kernel may answer this way, one after the other. */
  ghost predicate Run(h: State, area: Area, calls: seq<Call>, page: Word, top: nat)
    requires page > 0
    decreases |calls|
  {
    calls != [] ==>
      && KernelReply(area, Entered(h, calls[0].address, calls[0].bssEnd, page), calls[0].reply, page, top)
      && Run(Emulated(h, calls[0], page).0, calls[0].reply.area, calls[1..], page, top)
  }

  function Answers(h: State, calls: seq<Call>, page: Word): seq<nat>
    decreases |calls|
  {
    if calls == [] then [] else [Emulated(h, calls[0], page).1] + Answers(Emulated(h, calls[0], page).0, calls[1..], page)
  }

  function ExpectedAnswers(b: Break, calls: seq<Call>, page: Word): seq<nat>
    decreases |calls|
  {
    if calls == [] then [] else [Expected(b, calls[0], page).1] + ExpectedAnswers(Expected(b, calls[0], page).0, calls[1..], page)
  }

  function FinalHeap(h: State, calls: seq<Call>, page: Word): State
    decreases |calls|
  {
    if calls == [] then h else FinalHeap(Emulated(h, calls[0], page).0, calls[1..], page)
  }

  function FinalBreak(b: Break, calls: seq<Call>, page: Word): Break
    decreases |calls|
  {
    if calls == [] then b else FinalBreak(Expected(b, calls[0], page).0, calls[1..], page)
  }

  function FinalArea(area: Area, calls: seq<Call>): Area {
    if calls == [] then area else calls[|calls| - 1].reply.area
  }

  /** The emulation refines a simple break pointer: over any run of calls and kernel replies it answers the requested
  address when the kernel grew or shrank the heap in place and the current break otherwise. */
  lemma {:induction false} BrkRefines(h: State, b: Break, area: Area, calls: seq<Call>, page: Word, top: nat)
    requires ValidPage(page, top) && Refines(h, b, area, page, top) && Run(h, area, calls, page, top)
    ensures Answers(h, calls, page) == ExpectedAnswers(b, calls, page)
    ensures Refines(FinalHeap(h, calls, page), FinalBreak(b, calls, page), FinalArea(area, calls), page, top)
    decreases |calls|
  {
    hide Refines, KernelReply, Entered, Emulated, Expected, ValidPage;
    if calls != [] {
      BrkStep(h, b, area, calls[0], page, top);
      BrkRefines(Emulated(h, calls[0], page).0, Expected(b, calls[0], page).0, calls[0].reply.area, calls[1..], page, top);
    }
  }

  /** The break never goes below the base, and the kernel maps the heap up to it, with one more page before. */
  lemma HeapCovered(h: State, base: nat, end: nat, area: Area, page: Word, top: nat)
    requires page > 0 && Refines(h, Break(base, end), area, page, top)
    ensures base <= end
    ensures area.Area? && area.start == base - page && end <= area.start + area.length < end + page
  {
    PageUpBounds(h.size + page, page);
  }
}
