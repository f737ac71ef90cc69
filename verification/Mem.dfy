/** Access to the memory of a tracee, word by word (tracee/mem.c). */
module Mem {
  import opened Basics

  type Byte = x: int | 0 <= x < 256

  const WORD_SIZE: nat := 8

  /** The mapped bytes of a tracee. */
  type Memory = map<nat, Byte>

  ghost predicate Mapped(mem: Memory, at: nat, n: nat) {
    forall a :: at <= a < at + n ==> a in mem
  }

  ghost predicate Holds(mem: Memory, at: nat, s: seq<Byte>) {
    forall a :: at <= a < at + |s| ==> a in mem && mem[a] == s[a - at]
  }

  /** The memory after some bytes were written, and nothing else. */
  ghost predicate Written(mem: Memory, mem': Memory, at: nat, s: seq<Byte>) {
    && Mapped(mem, at, |s|)
    && (forall a :: a in mem <==> a in mem')
    && (forall a :: a in mem ==> mem'[a] == if at <= a < at + |s| then s[a - at] else mem[a])
  }

  /** A number of bytes rounded up to whole words. */
  function WholeWords(size: nat): (r: nat)
    ensures size <= r < size + WORD_SIZE
    ensures size % WORD_SIZE == 0 ==> r == size
    ensures size % WORD_SIZE != 0 ==> r == size - size % WORD_SIZE + WORD_SIZE
  {
    (size + WORD_SIZE - 1) / WORD_SIZE * WORD_SIZE
  }

  class Tracee {
    var mem: Memory

    /** PTRACE_PEEKDATA. */
    method PeekData(address: nat) returns (ok: bool, word: seq<Byte>)
      ensures ok <==> Mapped(mem, address, WORD_SIZE)
      ensures ok ==> |word| == WORD_SIZE && Holds(mem, address, word)
    {
      hide Mapped, Holds;
      word := [];
      HoldsNothing(mem, address);
      while |word| < WORD_SIZE
        invariant |word| <= WORD_SIZE && Holds(mem, address, word)
      {
        if address + |word| !in mem {
          NotMapped(mem, address, WORD_SIZE, |word|);
          return false, word;
        }
        HoldsNext(mem, address, word);
        word := word + [mem[address + |word|]];
      }
      HoldsMapped(mem, address, word);
      ok := true;
    }

    /** PTRACE_POKEDATA: it stops at the first byte that is not mapped. */
    method PokeData(address: nat, word: seq<Byte>) returns (ok: bool, ghost n: nat)
      requires |word| == WORD_SIZE
      modifies this
      ensures ok <==> Mapped(old(mem), address, WORD_SIZE)
      ensures n <= WORD_SIZE && (ok ==> n == WORD_SIZE) && Written(old(mem), mem, address, word[..n])
    {
      n := 0;
      for i := 0 to WORD_SIZE
        invariant n == i && Written(old(mem), mem, address, word[..n])
      {
        if address + i !in mem {
          return false, n;
        }
        mem := mem[address + i := word[i]];
        n := n + 1;
      }
      ok := true;
    }

    /** process_vm_writev(2) on one buffer: it transfers as much as it likes of what is mapped. */
    method ProcessVmWrite(dest: nat, src: seq<Byte>, wanted: nat) returns (transferred: nat)
      modifies this
      ensures transferred <= |src| && transferred <= wanted && Written(old(mem), mem, dest, src[..transferred])
    {
      transferred := 0;
      while transferred < wanted && transferred < |src| && dest + transferred in mem
        invariant transferred <= |src| && transferred <= wanted && Written(old(mem), mem, dest, src[..transferred])
      {
        mem := mem[dest + transferred := src[transferred]];
        transferred := transferred + 1;
      }
    }

    /** write_data(); `wanted` is how much the kernel would transfer at once.  It writes exactly the source bytes, or
    fails having written some of the first ones; but for process_vm_writev(2), it succeeds just when all the words it
    touches are mapped. */
    method WriteData(dest: nat, src: seq<Byte>, wanted: nat) returns (ok: bool, ghost n: nat)
      modifies this
      ensures n <= |src| && Written(old(mem), mem, dest, src[..n])
      ensures ok ==> n == |src|
      ensures Mapped(old(mem), dest, WholeWords(|src|)) ==> ok
      ensures ok && wanted < |src| ==> Mapped(old(mem), dest, WholeWords(|src|))
    {
      hide Written, Mapped, WholeWords;
      var transferred := ProcessVmWrite(dest, src, wanted);
      n := transferred;
      if transferred == |src| {
        return true, |src|;
      }
      // Word by word, then.
      var nbTrailingBytes := |src| % WORD_SIZE;
      var nbFullWords := (|src| - nbTrailingBytes) / WORD_SIZE;
      WordCount(|src|);
      MappedNone(old(mem), dest);
      var i := 0;
      // Whole words first.
      while i < nbFullWords
        invariant 0 <= i <= nbFullWords
        invariant n == Max(WORD_SIZE * i, transferred)
        invariant Written(old(mem), mem, dest, src[..n]) && Mapped(old(mem), dest, WORD_SIZE * i)
      {
        ghost var before := mem;
        ghost var k;
        ok, k := PokeData(dest + WORD_SIZE * i, src[WORD_SIZE * i..WORD_SIZE * i + WORD_SIZE]);
        SubMapped(old(mem), dest, WholeWords(|src|), WORD_SIZE * i, WORD_SIZE);
        WrittenMapped(old(mem), before, dest, src[..n], dest + WORD_SIZE * i, WORD_SIZE);
        Prefix(src, WORD_SIZE * i, WORD_SIZE, k);
        WrittenOver(old(mem), before, mem, dest, src, n, WORD_SIZE * i, k);
        n := Max(n, WORD_SIZE * i + k);
        if !ok {
          return false, n;
        }
        i := i + 1;
      }
      if nbTrailingBytes == 0 {
        return true, |src|;
      }
      ghost var before := mem;
      ok := WriteLastBytes(dest + WORD_SIZE * i, src[WORD_SIZE * i..]);
      SubMapped(old(mem), dest, WholeWords(|src|), WORD_SIZE * i, WORD_SIZE);
      WrittenMapped(old(mem), before, dest, src[..n], dest + WORD_SIZE * i, WORD_SIZE);
      if ok {
        assert src[WORD_SIZE * i..] == src[WORD_SIZE * i..WORD_SIZE * i + nbTrailingBytes];
        WrittenOver(old(mem), before, mem, dest, src, n, WORD_SIZE * i, nbTrailingBytes);
        return true, |src|;
      }
    }

    /** Its end, where the last word is read first: the bytes past the end of the data are written back as they were. */
    method WriteLastBytes(address: nat, bytes: seq<Byte>) returns (ok: bool)
      requires |bytes| < WORD_SIZE
      modifies this
      ensures ok <==> Mapped(old(mem), address, WORD_SIZE)
      ensures if ok then Written(old(mem), mem, address, bytes) else mem == old(mem)
    {
      hide Written, Mapped, Holds;
      var word;
      ok, word := PeekData(address);
      if !ok {
        return;
      }
      ghost var peeked := word;
      var j := 0;
      while j < |bytes|
        invariant 0 <= j <= |bytes| && |word| == WORD_SIZE
        invariant word == bytes[..j] + peeked[j..]
      {
        word := word[j := bytes[j]];
        j := j + 1;
      }
      ghost var k;
      ok, k := PokeData(address, word);
      assert word[..k] == word && word[..|bytes|] == bytes && word[|bytes|..] == peeked[|bytes|..];
      RestUnchanged(old(mem), mem, address, word, peeked, |bytes|);
    }

    /** process_vm_readv(2) on one buffer. */
    method ProcessVmRead(buffer: array<Byte>, offset: nat, src: nat, size: nat, wanted: nat) returns (transferred: nat)
      requires offset + size <= buffer.Length
      modifies buffer
      ensures transferred <= size && transferred <= wanted
      ensures buffer[..offset] == old(buffer[..offset]) && Holds(mem, src, buffer[offset..offset + transferred])
      ensures buffer[offset + size..] == old(buffer[offset + size..])
    {
      transferred := 0;
      while transferred < wanted && transferred < size && src + transferred in mem
        invariant transferred <= size && transferred <= wanted
        invariant buffer[..offset] == old(buffer[..offset]) && Holds(mem, src, buffer[offset..offset + transferred])
        invariant buffer[offset + size..] == old(buffer[offset + size..])
      {
        ghost var before := buffer[offset..offset + transferred];
        HoldsNext(mem, src, before);
        buffer[offset + transferred] := mem[src + transferred];
        transferred := transferred + 1;
        assert buffer[offset..offset + transferred] == before + [mem[src + transferred - 1]];
      }
    }

    /** store_word(), or the bytes of one: where they go, and nowhere else. */
    method StoreBytes(buffer: array<Byte>, at: nat, bytes: seq<Byte>)
      requires at + |bytes| <= buffer.Length
      modifies buffer
      ensures buffer[..] == old(buffer[..at]) + bytes + old(buffer[at + |bytes|..])
    {
      var j := 0;
      while j < |bytes|
        invariant 0 <= j <= |bytes|
        invariant buffer[..] == old(buffer[..at]) + bytes[..j] + old(buffer[at + j..])
      {
        buffer[at + j] := bytes[j];
        j := j + 1;
      }
    }

    /** read_data(): it reads exactly the bytes asked for and leaves what lies past them in the buffer alone; but for
    process_vm_readv(2), it succeeds just when all the words it touches are mapped. */
    method ReadData(buffer: array<Byte>, src: nat, size: nat, wanted: nat) returns (ok: bool)
      requires size <= buffer.Length
      modifies buffer
      ensures ok ==> Holds(mem, src, buffer[..size])
      ensures buffer[size..] == old(buffer[size..])
      ensures Mapped(mem, src, WholeWords(size)) ==> ok
      ensures ok && wanted < size ==> Mapped(mem, src, WholeWords(size))
    {
      hide Mapped, Holds, WholeWords;
      var transferred := ProcessVmRead(buffer, 0, src, size, wanted);
      if transferred == size {
        assert buffer[0..0 + size] == buffer[..size];
        return true;
      }
      // Word by word, then.
      var nbTrailingBytes := size % WORD_SIZE;
      var nbFullWords := (size - nbTrailingBytes) / WORD_SIZE;
      WordCount(size);
      MappedNone(mem, src);
      HoldsNothing(mem, src);
      assert buffer[..0] == [];
      var i := 0;
      // Whole words first.
      while i < nbFullWords
        invariant 0 <= i <= nbFullWords
        invariant Holds(mem, src, buffer[..WORD_SIZE * i]) && Mapped(mem, src, WORD_SIZE * i)
        invariant buffer[size..] == old(buffer[size..])
      {
        SubMapped(mem, src, WholeWords(size), WORD_SIZE * i, WORD_SIZE);
        ok := ReadWord(buffer, src, WORD_SIZE * i, WORD_SIZE, size);
        if !ok {
          return;
        }
        i := i + 1;
      }
      if nbTrailingBytes == 0 {
        return true;
      }
      // Of the last word, only what was asked for goes into the buffer.
      SubMapped(mem, src, WholeWords(size), WORD_SIZE * i, WORD_SIZE);
      ok := ReadWord(buffer, src, WORD_SIZE * i, nbTrailingBytes, size);
    }

    /** One word, or the beginning of one, behind what was read already. */
    method ReadWord(buffer: array<Byte>, src: nat, at: nat, count: nat, ghost size: nat) returns (ok: bool)
      requires count <= WORD_SIZE && at + count <= size <= buffer.Length && Holds(mem, src, buffer[..at])
      modifies buffer
      ensures ok <==> Mapped(mem, src + at, WORD_SIZE)
      ensures buffer[size..] == old(buffer[size..])
      ensures ok ==> Holds(mem, src, buffer[..at + count])
    {
      hide Mapped, Holds;
      var word;
      ok, word := PeekData(src + at);
      if !ok {
        return;
      }
      ghost var before := buffer[..];
      HoldsPrefix(mem, src + at, word, count);
      StoreBytes(buffer, at, word[..count]);
      StoredNext(mem, src, before, at, word[..count], buffer[..], size);
    }

    /** read_string(); `wanted` is how much process_vm_readv(2) would transfer from each offset.  -EFAULT is Err. */
    method ReadString(buffer: array<Byte>, src: nat, maxSize: nat, chunkSize: nat, wanted: nat -> nat) returns (r: Length)
      requires maxSize <= buffer.Length && chunkSize > 0
      modifies buffer
      ensures buffer[maxSize..] == old(buffer[maxSize..])
      ensures r.Ok? && r.n <= maxSize ==> r.n > 0 && IsString(mem, src, buffer[..r.n])
      ensures r.Ok? && r.n > maxSize ==> r.n == maxSize + 1 && Holds(mem, src, buffer[..maxSize]) && NoNul(buffer[..maxSize])
      ensures r.Err? ==> Unreadable(mem, src, maxSize)
    {
      hide Holds, NoNul, IsString, Unreadable;
      var found;
      found, r := ReadStringByChunks(buffer, src, maxSize, chunkSize, wanted);
      if found {
        return;
      }
      // Word by word, then.
      r := ReadStringByWords(buffer, src, maxSize);
    }

    /** Its first loop: false when something goes wrong, or when no end-of-string is in sight. */
    method ReadStringByChunks(buffer: array<Byte>, src: nat, maxSize: nat, chunkSize: nat, wanted: nat -> nat)
        returns (found: bool, r: Length)
      requires maxSize <= buffer.Length && chunkSize > 0
      modifies buffer
      ensures buffer[maxSize..] == old(buffer[maxSize..])
      ensures found ==> r.Ok? && 0 < r.n <= maxSize && IsString(mem, src, buffer[..r.n])
    {
      hide Holds, NoNul, IsString, PageDown;
      r := Err;
      var offset := 0;
      HoldsNothing(mem, src);
      NoNulNowhere();
      assert buffer[..0] == [];
      while true
        invariant 0 <= offset <= maxSize
        invariant Holds(mem, src, buffer[..offset]) && NoNul(buffer[..offset])
        invariant buffer[maxSize..] == old(buffer[maxSize..])
        decreases maxSize - offset
      {
        // No further than the end of this chunk, or of the buffer.
        PageBounds(src + offset, chunkSize);
        var nextChunk := PageDown(src + offset, chunkSize) + chunkSize;
        var size := nextChunk - (src + offset);
        size := if size < maxSize - offset then size else maxSize - offset;
        var ok, status := ReadChunk(buffer, src, offset, size, maxSize, wanted(offset));
        if !ok {
          return false, r;
        }
        if status < size {
          return true, Ok(offset + status + 1);
        }
        offset := offset + size;
        if offset >= maxSize {
          return false, r;
        }
      }
    }

    /** One chunk. */
    method ReadChunk(buffer: array<Byte>, src: nat, offset: nat, size: nat, maxSize: nat, wanted: nat)
        returns (ok: bool, status: nat)
      requires offset + size <= maxSize <= buffer.Length
      requires Holds(mem, src, buffer[..offset]) && NoNul(buffer[..offset])
      modifies buffer
      ensures buffer[maxSize..] == old(buffer[maxSize..])
      ensures ok && status < size ==> IsString(mem, src, buffer[..offset + status + 1])
      ensures ok && status >= size ==> Holds(mem, src, buffer[..offset + size]) && NoNul(buffer[..offset + size])
    {
      hide Holds, NoNul, IsString;
      ghost var before := buffer[..];
      var transferred := ProcessVmRead(buffer, offset, src + offset, size, wanted);
      assert buffer[maxSize..] == buffer[offset + size..][maxSize - offset - size..];
      assert before[maxSize..] == before[offset + size..][maxSize - offset - size..];
      if transferred != size {
        return false, 0;
      }
      status := StrnLen(buffer, offset, size);
      ghost var first, chunk := buffer[..offset], buffer[offset..offset + size];
      assert buffer[..offset + size] == first + chunk;
      HoldsConcat(mem, src, first, chunk);
      if status < size {
        assert buffer[offset..offset + status] == chunk[..status];
        FoundInChunk(mem, src, first, chunk, status);
        assert buffer[..offset + status + 1] == first + chunk[..status + 1];
      } else {
        NoNulConcat(first, chunk);
      }
      return true, status;
    }

    /** Its second loop. */
    method ReadStringByWords(buffer: array<Byte>, src: nat, maxSize: nat) returns (r: Length)
      requires maxSize <= buffer.Length
      modifies buffer
      ensures buffer[maxSize..] == old(buffer[maxSize..])
      ensures r.Ok? && r.n <= maxSize ==> r.n > 0 && IsString(mem, src, buffer[..r.n])
      ensures r.Ok? && r.n > maxSize ==> r.n == maxSize + 1 && Holds(mem, src, buffer[..maxSize]) && NoNul(buffer[..maxSize])
      ensures r.Err? ==> Unreadable(mem, src, maxSize)
    {
      hide Holds, NoNul, IsString, Unreadable, Mapped;
      var nbTrailingBytes := maxSize % WORD_SIZE;
      var nbFullWords := (maxSize - nbTrailingBytes) / WORD_SIZE;
      WordCount(maxSize);
      HoldsNothing(mem, src);
      NoNulNowhere();
      assert buffer[..0] == [];
      var i := 0;
      while i < nbFullWords
        invariant 0 <= i <= nbFullWords
        invariant Holds(mem, src, buffer[..WORD_SIZE * i]) && NoNul(buffer[..WORD_SIZE * i])
        invariant buffer[maxSize..] == old(buffer[maxSize..])
      {
        var ok, word := PeekData(src + WORD_SIZE * i);
        if !ok {
          CannotRead(mem, src, maxSize, i, buffer[..WORD_SIZE * i]);
          return Err;
        }
        ghost var before := buffer[..];
        StoreBytes(buffer, WORD_SIZE * i, word);
        StoredNext(mem, src, before, WORD_SIZE * i, word, buffer[..], maxSize);
        assert buffer[..WORD_SIZE * i] == before[..WORD_SIZE * i];
        assert buffer[WORD_SIZE * i..WORD_SIZE * i + WORD_SIZE] == word;
        // Is there a terminator in this chunk?
        var j := StrnLen(buffer, WORD_SIZE * i, WORD_SIZE);
        if j < WORD_SIZE {
          assert buffer[WORD_SIZE * i..WORD_SIZE * i + j] == word[..j];
          FoundInChunk(mem, src, buffer[..WORD_SIZE * i], word, j);
          assert buffer[..WORD_SIZE * i + j + 1] == buffer[..WORD_SIZE * i] + word[..j + 1];
          return Ok(WORD_SIZE * i + j + 1);
        }
        assert buffer[..WORD_SIZE * i + WORD_SIZE] == buffer[..WORD_SIZE * i] + word;
        NoNulConcat(buffer[..WORD_SIZE * i], word);
        i := i + 1;
      }
      r := ReadStringEnd(buffer, src, maxSize, i);
    }

    /** Its end: the bytes from the last word, up to the end-of-string. */
    method ReadStringEnd(buffer: array<Byte>, src: nat, maxSize: nat, i: nat) returns (r: Length)
      requires maxSize <= buffer.Length && WORD_SIZE * i <= maxSize < WORD_SIZE * i + WORD_SIZE
      requires Holds(mem, src, buffer[..WORD_SIZE * i]) && NoNul(buffer[..WORD_SIZE * i])
      modifies buffer
      ensures buffer[maxSize..] == old(buffer[maxSize..])
      ensures r.Ok? && r.n <= maxSize ==> r.n > 0 && IsString(mem, src, buffer[..r.n])
      ensures r.Ok? && r.n > maxSize ==> r.n == maxSize + 1 && Holds(mem, src, buffer[..maxSize]) && NoNul(buffer[..maxSize])
      ensures r.Err? ==> Unreadable(mem, src, maxSize)
    {
      hide Holds, NoNul, IsString, Unreadable, Mapped;
      var at := WORD_SIZE * i;
      var ok, word := PeekData(src + at);
      if !ok {
        CannotRead(mem, src, maxSize, i, buffer[..at]);
        return Err;
      }
      ghost var first := buffer[..at];
      ghost var rest := buffer[maxSize..];
      NoNulNowhere();
      HoldsPrefix(mem, src + at, word, 0);
      assert word[..0] == [] && first + [] == first;
      var j := 0;
      while j < maxSize - at
        invariant 0 <= j <= maxSize - at && |word| == WORD_SIZE
        invariant buffer[..at + j] == first + word[..j] && NoNul(word[..j])
        invariant buffer[maxSize..] == rest
      {
        buffer[at + j] := word[j];
        assert buffer[..at + j + 1] == buffer[..at + j] + [word[j]] && word[..j + 1] == word[..j] + [word[j]];
        assert first + word[..j] + [word[j]] == first + word[..j + 1];
        if word[j] == 0 {
          HoldsPrefix(mem, src + at, word, j + 1);
          HoldsConcat(mem, src, first, word[..j + 1]);
          NoNulConcat(first, word[..j]);
          EndsString(mem, src, first + word[..j], word[j]);
          return Ok(at + j + 1);
        }
        NoNulNext(word[..j], word[j]);
        j := j + 1;
      }
      HoldsPrefix(mem, src + at, word, j);
      HoldsConcat(mem, src, first, word[..j]);
      NoNulConcat(first, word[..j]);
      return Ok(at + j + 1);
    }

    /** strnlen(3). */
    method StrnLen(buffer: array<Byte>, at: nat, size: nat) returns (n: nat)
      requires at + size <= buffer.Length
      ensures n <= size && NoNul(buffer[at..at + n]) && (n < size ==> buffer[at + n] == 0)
    {
      n := 0;
      while n < size && buffer[at + n] != 0
        invariant n <= size && NoNul(buffer[at..at + n])
      {
        assert buffer[at..at + n + 1] == buffer[at..at + n] + [buffer[at + n]];
        n := n + 1;
      }
    }

    /** writev_data(): the buffers, one behind the other.  But for process_vm_writev(2), it succeeds just when all the words
    that each buffer touches are mapped. */
    method WritevData(dest: nat, buffers: seq<seq<Byte>>, wanted: nat) returns (ok: bool, ghost n: nat)
      modifies this
      ensures n <= |Gathered(buffers)| && Written(old(mem), mem, dest, Gathered(buffers)[..n])
      ensures ok ==> n == |Gathered(buffers)|
      ensures (forall i :: 0 <= i < |buffers| ==> BufferMapped(old(mem), dest, buffers, i)) ==> ok
      ensures ok && wanted == 0 ==> forall i :: 0 <= i < |buffers| ==> BufferMapped(old(mem), dest, buffers, i)
    {
      hide Written, BufferMapped;
      ghost var all := Gathered(buffers);
      var transferred := ProcessVmWrite(dest, Gathered(buffers), wanted);
      n := transferred;
      if transferred == |Gathered(buffers)| {
        NothingToMap(old(mem), dest, buffers);
        return true, n;
      }
      // One element after the other, then.
      var i, size := 0, 0;
      assert buffers[..0] == [];
      while i < |buffers|
        invariant 0 <= i <= |buffers|
        invariant size == |Gathered(buffers[..i])| <= |all| && all[..size] == Gathered(buffers[..i])
        invariant n == Max(size, transferred) && n <= |all|
        invariant Written(old(mem), mem, dest, all[..n])
        invariant wanted == 0 ==> forall j :: 0 <= j < i ==> BufferMapped(old(mem), dest, buffers, j)
      {
        ghost var before := mem;
        ghost var k;
        GatheredNext(buffers, i);
        SameBuffer(old(mem), mem, dest, all[..n], buffers, i);
        ok, k := WriteData(dest + size, buffers[i], wanted);
        SliceStart(all, size, buffers[i], k);
        WrittenOver(old(mem), before, mem, dest, all, n, size, k);
        n := Max(n, size + k);
        if !ok {
          return false, n;
        }
        size := size + |buffers[i]|;
        i := i + 1;
      }
      assert buffers[..i] == buffers && size == |all|;
      return true, n;
    }
  }

  datatype Length = Ok(n: nat) | Err

  function Gathered(buffers: seq<seq<Byte>>): seq<Byte> {
    if buffers == [] then [] else Gathered(buffers[..|buffers| - 1]) + buffers[|buffers| - 1]
  }

  /** The words that the i-th buffer touches are mapped. */
  ghost predicate BufferMapped(mem: Memory, dest: nat, buffers: seq<seq<Byte>>, i: nat)
    requires i < |buffers|
  {
    Mapped(mem, dest + |Gathered(buffers[..i])|, WholeWords(|buffers[i]|))
  }

  /** Writing does not map anything. */
  lemma SameBuffer(mem: Memory, mem': Memory, dest: nat, s: seq<Byte>, buffers: seq<seq<Byte>>, i: nat)
    requires Written(mem, mem', dest, s) && i < |buffers|
    ensures BufferMapped(mem, dest, buffers, i) <==> Mapped(mem', dest + |Gathered(buffers[..i])|, WholeWords(|buffers[i]|))
    ensures |buffers[i]| == 0 ==> BufferMapped(mem, dest, buffers, i)
  {
    hide WholeWords;
  }

  lemma NothingToMap(mem: Memory, dest: nat, buffers: seq<seq<Byte>>)
    ensures |Gathered(buffers)| == 0 ==> forall i :: 0 <= i < |buffers| ==> BufferMapped(mem, dest, buffers, i)
  {
    if |Gathered(buffers)| == 0 {
      forall i | 0 <= i < |buffers| ensures BufferMapped(mem, dest, buffers, i) {
        EmptyBuffer(buffers, i);
      }
    }
  }

  lemma EmptyBuffer(buffers: seq<seq<Byte>>, i: nat)
    requires i < |buffers|
    ensures |buffers[i]| <= |Gathered(buffers)|
  {
    GatheredConcat(buffers[..i + 1], buffers[i + 1..]);
    assert buffers[..i + 1] + buffers[i + 1..] == buffers;
    assert buffers[..i + 1][..i] == buffers[..i];
  }

  lemma {:induction false} GatheredConcat(a: seq<seq<Byte>>, b: seq<seq<Byte>>)
    ensures Gathered(a + b) == Gathered(a) + Gathered(b)
    decreases |b|
  {
    if b == [] {
      assert a + b == a;
    } else {
      var b', last := b[..|b| - 1], b[|b| - 1];
      GatheredConcat(a, b');
      assert (a + b)[..|a + b| - 1] == a + b';
      assert Gathered(a) + Gathered(b') + last == Gathered(a) + (Gathered(b') + last);
    }
  }

  lemma GatheredNext(buffers: seq<seq<Byte>>, i: nat)
    requires i < |buffers|
    ensures var done := Gathered(buffers[..i]);
            && Gathered(buffers[..i + 1]) == done + buffers[i]
            && |done| + |buffers[i]| <= |Gathered(buffers)|
            && Gathered(buffers)[..|done|] == done
            && Gathered(buffers)[..|done| + |buffers[i]|] == done + buffers[i]
            && Gathered(buffers)[|done|..|done| + |buffers[i]|] == buffers[i]
  {
    assert buffers[..i + 1][..i] == buffers[..i];
    GatheredConcat(buffers[..i + 1], buffers[i + 1..]);
    assert buffers[..i + 1] + buffers[i + 1..] == buffers;
  }

  lemma SliceStart(all: seq<Byte>, at: nat, s: seq<Byte>, k: nat)
    requires at + |s| <= |all| && all[at..at + |s|] == s && k <= |s|
    ensures all[at..at + k] == s[..k]
  {
    assert all[at..at + k] == all[at..at + |s|][..k];
  }

  /** What read_data() reads where write_data() wrote is what it wrote. */
  lemma ReadsBack(mem: Memory, mem': Memory, at: nat, written: seq<Byte>, read: seq<Byte>)
    requires Written(mem, mem', at, written) && |read| == |written| && Holds(mem', at, read)
    ensures read == written
  {
    forall k | 0 <= k < |read| ensures read[k] == written[k] {
      assert at + k in mem';
      assert mem'[at + k] == read[at + k - at];
    }
  }

  // ----- Strings -----

  ghost predicate NoNul(s: seq<Byte>) {
    forall k :: 0 <= k < |s| ==> s[k] != 0
  }

  /** A string of the tracee, with its terminator. */
  ghost predicate IsString(mem: Memory, at: nat, s: seq<Byte>) {
    s != [] && Holds(mem, at, s) && NoNul(s[..|s| - 1]) && s[|s| - 1] == 0
  }

  /** A word that has to be read is not mapped: the string does not end before it. */
  ghost predicate Unreadable(mem: Memory, at: nat, maxSize: nat) {
    exists i, s :: UnreadableWord(mem, at, maxSize, i, s)
  }

  ghost predicate UnreadableWord(mem: Memory, at: nat, maxSize: nat, i: nat, s: seq<Byte>) {
    && WORD_SIZE * i <= maxSize && |s| == WORD_SIZE * i && Holds(mem, at, s) && NoNul(s)
    && !Mapped(mem, at + WORD_SIZE * i, WORD_SIZE)
  }

  lemma CannotRead(mem: Memory, at: nat, maxSize: nat, i: nat, s: seq<Byte>)
    requires WORD_SIZE * i <= maxSize && |s| == WORD_SIZE * i && Holds(mem, at, s) && NoNul(s)
    requires !Mapped(mem, at + WORD_SIZE * i, WORD_SIZE)
    ensures Unreadable(mem, at, maxSize)
  {
    assert UnreadableWord(mem, at, maxSize, i, s);
  }

  lemma NoNulNowhere()
    ensures NoNul([])
  {
  }

  lemma NoNulConcat(a: seq<Byte>, b: seq<Byte>)
    requires NoNul(a) && NoNul(b)
    ensures NoNul(a + b)
  {
  }

  lemma NoNulNext(a: seq<Byte>, b: Byte)
    requires NoNul(a) && b != 0
    ensures NoNul(a + [b])
  {
  }

  lemma EndsString(mem: Memory, at: nat, s: seq<Byte>, nul: Byte)
    requires NoNul(s) && nul == 0 && Holds(mem, at, s + [nul])
    ensures IsString(mem, at, s + [nul])
  {
    assert (s + [nul])[..|s|] == s;
  }

  lemma HoldsConcat(mem: Memory, at: nat, a: seq<Byte>, b: seq<Byte>)
    requires Holds(mem, at, a) && Holds(mem, at + |a|, b)
    ensures Holds(mem, at, a + b)
  {
    var r := a + b;
    assert forall x :: at <= x < at + |r| ==> x in mem && mem[x] == r[x - at];
  }

  /** The first terminator, in the last bytes that were read. */
  lemma FoundInChunk(mem: Memory, at: nat, first: seq<Byte>, chunk: seq<Byte>, n: nat)
    requires n < |chunk| && Holds(mem, at, first) && NoNul(first)
    requires Holds(mem, at + |first|, chunk) && NoNul(chunk[..n]) && chunk[n] == 0
    ensures IsString(mem, at, first + chunk[..n + 1])
  {
    hide Holds, NoNul;
    HoldsPrefix(mem, at + |first|, chunk, n + 1);
    HoldsConcat(mem, at, first, chunk[..n + 1]);
    NoNulConcat(first, chunk[..n]);
    assert (first + chunk[..n + 1])[..|first| + n] == first + chunk[..n];
  }

  /** The first terminator is there. */
  ghost predicate NulAt(mem: Memory, at: nat, k: nat) {
    k in mem && mem[k] == 0 && forall j :: at <= j < k ==> j in mem && mem[j] != 0
  }

  /** So the length read_string() returns tells where the first terminator is, and one more than asked that there is
  none. */
  lemma LengthTells(mem: Memory, at: nat, maxSize: nat, s: seq<Byte>)
    requires (0 < |s| <= maxSize && IsString(mem, at, s)) || (|s| == maxSize && Holds(mem, at, s) && NoNul(s))
    ensures IsString(mem, at, s) <==> exists k :: at <= k < at + maxSize && NulAt(mem, at, k)
    ensures IsString(mem, at, s) ==> mem[at + |s| - 1] == 0 && forall j :: at <= j < at + |s| - 1 ==> mem[j] != 0
  {
    if IsString(mem, at, s) {
      var k := at + |s| - 1;
      assert k in mem && mem[k] == s[|s| - 1] == 0;
      forall j | at <= j < k ensures j in mem && mem[j] != 0 {
        assert mem[j] == s[j - at] == s[..|s| - 1][j - at];
      }
      assert NulAt(mem, at, k);
    }
  }

  /** Bytes stored behind those already read. */
  lemma StoredNext(mem: Memory, src: nat, before: seq<Byte>, at: nat, bytes: seq<Byte>, after: seq<Byte>, limit: nat)
    requires at + |bytes| <= limit <= |before| && after == before[..at] + bytes + before[at + |bytes|..]
    requires Holds(mem, src, before[..at]) && Holds(mem, src + at, bytes)
    ensures |after| == |before| && after[..at + |bytes|] == before[..at] + bytes && after[limit..] == before[limit..]
    ensures Holds(mem, src, after[..at + |bytes|])
  {
    var r := after[..at + |bytes|];
    assert r == before[..at] + bytes;
    forall a | src <= a < src + |r| ensures a in mem && mem[a] == r[a - src] {
      if a < src + at {
        assert r[a - src] == before[..at][a - src];
      } else {
        assert r[a - src] == bytes[a - (src + at)];
      }
    }
  }

  lemma HoldsPrefix(mem: Memory, at: nat, s: seq<Byte>, n: nat)
    requires Holds(mem, at, s) && n <= |s|
    ensures Holds(mem, at, s[..n])
  {
  }

  lemma Prefix(src: seq<Byte>, from: nat, length: nat, k: nat)
    requires k <= length && from + length <= |src|
    ensures src[from..from + length][..k] == src[from..from + k]
  {
  }

  lemma HoldsNothing(mem: Memory, at: nat)
    ensures Holds(mem, at, [])
  {
  }

  lemma HoldsNext(mem: Memory, at: nat, s: seq<Byte>)
    requires Holds(mem, at, s) && at + |s| in mem
    ensures Holds(mem, at, s + [mem[at + |s|]])
  {
    var r := s + [mem[at + |s|]];
    assert forall a :: at <= a < at + |r| ==> a in mem && mem[a] == r[a - at];
  }

  lemma NotMapped(mem: Memory, at: nat, n: nat, k: nat)
    requires k < n && at + k !in mem
    ensures !Mapped(mem, at, n)
  {
  }

  lemma HoldsMapped(mem: Memory, at: nat, s: seq<Byte>)
    requires Holds(mem, at, s)
    ensures Mapped(mem, at, |s|)
  {
  }

  lemma MappedNone(mem: Memory, at: nat)
    ensures Mapped(mem, at, 0)
  {
  }

  /** Consecutive ranges. */
  lemma SubMapped(mem: Memory, at: nat, n: nat, from: nat, k: nat)
    requires from + k <= n
    ensures Mapped(mem, at, n) ==> Mapped(mem, at + from, k)
    ensures Mapped(mem, at, from) && Mapped(mem, at + from, k) ==> Mapped(mem, at, from + k)
  {
  }

  lemma WrittenMapped(m0: Memory, m1: Memory, at: nat, s: seq<Byte>, at': nat, n: nat)
    requires Written(m0, m1, at, s)
    ensures Mapped(m0, at', n) <==> Mapped(m1, at', n)
  {
  }

  function Max(a: nat, b: nat): nat {
    if a > b then a else b
  }

  lemma WordCount(size: nat)
    ensures WORD_SIZE * ((size - size % WORD_SIZE) / WORD_SIZE) == size - size % WORD_SIZE
  {
  }

  /** A write that starts inside what is already written extends it. */
  lemma WrittenOver(m0: Memory, m1: Memory, m2: Memory, at: nat, s: seq<Byte>, n: nat, from: nat, k: nat)
    requires n <= |s| && from <= n && from + k <= |s|
    requires Written(m0, m1, at, s[..n]) && Written(m1, m2, at + from, s[from..from + k])
    ensures Written(m0, m2, at, s[..Max(n, from + k)])
  {
  }

  /** Bytes written back as they were read are not changed. */
  lemma RestUnchanged(m1: Memory, m2: Memory, at: nat, word: seq<Byte>, peeked: seq<Byte>, n: nat)
    requires n <= |word| == |peeked| && word[n..] == peeked[n..]
    requires Holds(m1, at, peeked) && Written(m1, m2, at, word)
    ensures Written(m1, m2, at, word[..n])
  {
    forall a | a in m1 ensures m2[a] == if at <= a < at + n then word[a - at] else m1[a] {
      if at + n <= a < at + |word| {
        assert word[n..][a - at - n] == peeked[n..][a - at - n];
      }
    }
  }

  // ----- Memory below the stack -----

  /** The stack pointer of a tracee in a sysenter stage. */
  class Stack {
    const redZone: nat
    const original: Word
    var pointer: Word

    /** alloc_mem(): 0 when the stack pointer would wrap around. */
    method AllocMem(size: int) returns (address: Word)
      requires 0 <= size + WORD_LIMIT / 2 && size + redZone < WORD_LIMIT / 2
      modifies this
      ensures address == Allocated(redZone, original, old(pointer), size)
      ensures address == Moved(old(pointer), if old(pointer) == original then size + redZone else size)
      ensures pointer == if address == 0 then old(pointer) else address
    {
      AllocatedExactly(redZone, original, pointer, size);
      // The first block of a syscall leaves the red zone alone.
      var size' := if pointer == original then size + redZone else size;
      if (size' > 0 && pointer <= size') || (size' < 0 && pointer >= Wrap(WORD_LIMIT - 1 + size')) {
        return 0;
      }
      pointer := Wrap(pointer - size');
      return pointer;
    }
  }

  function Allocated(redZone: nat, original: Word, pointer: Word, size: int): Word {
    var size' := if pointer == original then size + redZone else size;
    if (size' > 0 && pointer <= size') || (size' < 0 && pointer >= Wrap(WORD_LIMIT - 1 + size')) then 0
    else Wrap(pointer - size')
  }

  /** That far below the pointer, or above for a negative size, unless this is 0, the last address, or past the ends. */
  function Moved(pointer: Word, size: int): int {
    if size == 0 then pointer
    else if 0 < pointer - size < WORD_LIMIT - 1 then pointer - size
    else 0
  }

  /** So a block is given if and only if the stack pointer is greater than its size, with the red zone the first time; and it
  lies just below. */
  lemma AllocatedExactly(redZone: nat, original: Word, pointer: Word, size: int)
    requires 0 <= size + WORD_LIMIT / 2 && size + redZone < WORD_LIMIT / 2
    ensures var a, n := Allocated(redZone, original, pointer, size), if pointer == original then size + redZone else size;
            && a == Moved(pointer, n)
            && (n > 0 ==> (a != 0 <==> pointer > n) && (a != 0 ==> a + n == pointer))
            && (n < 0 ==> (a != 0 <==> pointer - n < WORD_LIMIT - 1))
  {
    var n := if pointer == original then size + redZone else size;
    hide Wrap;
    WrapSmall(pointer - n);
    WrapSmall(WORD_LIMIT - 1 + n);
  }

  function Sum(sizes: seq<nat>): nat {
    if sizes == [] then 0 else sizes[0] + Sum(sizes[1..])
  }

  /** The blocks of a syscall are all given as long as the stack has room for them, one right below the other. */
  lemma {:induction false} BlocksGiven(redZone: nat, original: Word, pointer: Word, sizes: seq<nat>, i: nat)
    requires forall j :: 0 <= j < |sizes| ==> 0 < sizes[j] && sizes[j] + redZone < WORD_LIMIT / 2
    requires i < |sizes| && pointer <= original && Sum(sizes[..i + 1]) + (if pointer == original then redZone else 0) < pointer
    ensures var blocks := Blocks(redZone, original, pointer, sizes);
            |blocks| == |sizes| &&
            blocks[i] == Some(((if pointer == original then pointer - redZone else pointer) - Sum(sizes[..i + 1]), sizes[i]))
    decreases |sizes|
  {
    hide Allocated, Moved;
    var a := Allocated(redZone, original, pointer, sizes[0]);
    AllocatedExactly(redZone, original, pointer, sizes[0]);
    assert sizes[..i + 1][0] == sizes[0] && sizes[..i + 1][1..] == sizes[1..][..i];
    if i > 0 {
      BlocksGiven(redZone, original, a, sizes[1..], i - 1);
    } else {
      BlocksLength(redZone, original, a, sizes[1..]);
    }
  }

  lemma {:induction false} BlocksLength(redZone: nat, original: Word, pointer: Word, sizes: seq<nat>)
    ensures |Blocks(redZone, original, pointer, sizes)| == |sizes|
    decreases |sizes|
  {
    hide Allocated;
    if sizes != [] {
      var a := Allocated(redZone, original, pointer, sizes[0]);
      BlocksLength(redZone, original, if a == 0 then pointer else a, sizes[1..]);
    }
  }

  /** The blocks a syscall gets, from the first one on: None for those it does not. */
  function Blocks(redZone: nat, original: Word, pointer: Word, sizes: seq<nat>): seq<Option<(nat, nat)>> {
    if sizes == [] then []
    else
      var a := Allocated(redZone, original, pointer, sizes[0]);
      [if a == 0 then None else Some((a, sizes[0]))] + Blocks(redZone, original, if a == 0 then pointer else a, sizes[1..])
  }

  /** The blocks lie below a limit, each one below those before it, without wrapping around. */
  ghost predicate Below(blocks: seq<Option<(nat, nat)>>, limit: int) {
    && (forall i :: 0 <= i < |blocks| && blocks[i].Some? ==> 0 < blocks[i].value.0 && blocks[i].value.0 + blocks[i].value.1 <= limit)
    && (forall i, j :: 0 <= i < j < |blocks| && blocks[i].Some? && blocks[j].Some? ==>
          blocks[j].value.0 + blocks[j].value.1 <= blocks[i].value.0)
  }

  /** What alloc_mem() gives during a syscall never overlaps: neither other blocks, nor the stack in use, nor its red
  zone. */
  lemma {:induction false} BlocksApart(redZone: nat, original: Word, pointer: Word, sizes: seq<nat>)
    requires forall i :: 0 <= i < |sizes| ==> 0 < sizes[i] && sizes[i] + redZone < WORD_LIMIT / 2
    requires pointer <= original && (pointer < original ==> pointer <= original - redZone)
    ensures Below(Blocks(redZone, original, pointer, sizes), if pointer == original then original - redZone else pointer)
    decreases |sizes|
  {
    hide Wrap, Below;
    NoneBelow(if pointer == original then original - redZone else pointer);
    if sizes != [] {
      var a := Allocated(redZone, original, pointer, sizes[0]);
      AllocatedBelow(redZone, original, pointer, sizes[0]);
      BlocksApart(redZone, original, if a == 0 then pointer else a, sizes[1..]);
      var rest := Blocks(redZone, original, if a == 0 then pointer else a, sizes[1..]);
      OneMoreBelow(a, sizes[0], rest, if pointer == original then original - redZone else pointer);
    }
  }

  lemma NoneBelow(limit: int)
    ensures Below([], limit)
  {
  }

  /** A block lies below the stack pointer, and below the red zone when it is the first one. */
  lemma AllocatedBelow(redZone: nat, original: Word, pointer: Word, size: nat)
    requires 0 < size && size + redZone < WORD_LIMIT / 2
    ensures var a, limit := Allocated(redZone, original, pointer, size), if pointer == original then original - redZone else pointer;
            a == 0 || a + size == limit
  {
    hide Wrap;
    WrapSmall(pointer - (if pointer == original then size + redZone else size));
  }

  lemma OneMoreBelow(a: nat, size: nat, rest: seq<Option<(nat, nat)>>, limit: int)
    requires if a == 0 then Below(rest, limit) else a + size <= limit && Below(rest, a)
    ensures Below([if a == 0 then None else Some((a, size))] + rest, limit)
  {
    var blocks := [if a == 0 then None else Some((a, size))] + rest;
    assert forall i :: 1 <= i < |blocks| ==> blocks[i] == rest[i - 1];
  }
}
