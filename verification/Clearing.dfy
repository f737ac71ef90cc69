/** How the loader clears the end of a page (clear(), loader/loader.c). */
module Clearing {

  type Byte = x: int | 0 <= x < 256

  const WORD_SIZE: nat := 8

  function AlignUp(start: nat): nat {
    if start % WORD_SIZE != 0 then start + WORD_SIZE - start % WORD_SIZE else start
  }

  function AlignDown(end: nat): nat {
    end - end % WORD_SIZE
  }

  /** The bytes that clear() zeroes: up to an aligned word, then whole words, then from the last aligned word. */
  predicate Clears(start: nat, end: nat, a: nat) {
    || start <= a < AlignUp(start)
    || AlignUp(start) <= a < AlignDown(end)
    || AlignDown(end) <= a < end
  }

  /** clear(), over an array of bytes indexed by address. */
  method Clear(bytes: array<Byte>, start: nat, end: nat)
    requires AlignUp(start) <= bytes.Length && end <= bytes.Length
    modifies bytes
    ensures forall a :: 0 <= a < bytes.Length ==> bytes[a] == if Clears(start, end, a) then 0 else old(bytes[a])
  {
    ClearBytes(bytes, start, AlignUp(start));
    ClearWords(bytes, AlignUp(start), AlignDown(end));
    ClearBytes(bytes, AlignDown(end), end);
  }

  /** Its loops over the bytes before the first aligned word, and behind the last one. */
  method ClearBytes(bytes: array<Byte>, start: nat, end: nat)
    requires end <= bytes.Length
    modifies bytes
    ensures forall a :: 0 <= a < bytes.Length ==> bytes[a] == if start <= a < end then 0 else old(bytes[a])
  {
    var i := start;
    while i < end
      invariant start <= i
      invariant start <= end ==> i <= end
      invariant forall a :: 0 <= a < bytes.Length ==> bytes[a] == if start <= a < i && a < end then 0 else old(bytes[a])
    {
      bytes[i] := 0;
      i := i + 1;
    }
  }

  /** Its loop over aligned words. */
  method ClearWords(bytes: array<Byte>, start: nat, end: nat)
    requires end <= bytes.Length && start % WORD_SIZE == 0 && end % WORD_SIZE == 0
    modifies bytes
    ensures forall a :: 0 <= a < bytes.Length ==> bytes[a] == if start <= a < end then 0 else old(bytes[a])
  {
    var i := start;
    while i < end
      invariant start <= i && i % WORD_SIZE == 0
      invariant start <= end ==> i <= end
      invariant forall a :: 0 <= a < bytes.Length ==> bytes[a] == if start <= a < i && a < end then 0 else old(bytes[a])
    {
      StoreZero(bytes, i);
      i := i + WORD_SIZE;
    }
  }

  /** One word store. */
  method StoreZero(bytes: array<Byte>, at: nat)
    requires at + WORD_SIZE <= bytes.Length
    modifies bytes
    ensures forall a :: 0 <= a < bytes.Length ==> bytes[a] == if at <= a < at + WORD_SIZE then 0 else old(bytes[a])
  {
    var i := at;
    while i < at + WORD_SIZE
      invariant at <= i <= at + WORD_SIZE
      invariant forall a :: 0 <= a < bytes.Length ==> bytes[a] == if at <= a < i then 0 else old(bytes[a])
    {
      bytes[i] := 0;
      i := i + 1;
    }
  }

  /** clear() zeroes exactly [start, end) just when it does not lie strictly inside one word: so for every
  word-aligned end, which is what the mappings give it. */
  lemma ClearsExactly(start: nat, end: nat)
    requires start <= end
    ensures (forall a: nat :: Clears(start, end, a) <==> start <= a < end) <==>
            (start % WORD_SIZE == 0 || AlignUp(start) <= end)
    ensures end % WORD_SIZE == 0 ==> forall a: nat :: Clears(start, end, a) <==> start <= a < end
  {
    if start % WORD_SIZE != 0 && AlignUp(start) > end {
      assert Clears(start, end, AlignUp(start) - 1);
    }
  }
}
