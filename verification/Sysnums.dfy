/** Neutral and architecture-specific syscall numbers (syscall/sysnum.c). */
module Sysnums {
  import opened Basics

  /** PR_void, the neutral number of no syscall. */
  const VOID: nat := 0

  /** The table of an ABI, which gives the neutral number of each architecture number from `offset` on, and what the memory
  behind it holds: nobody knows. */
  datatype Abi = Abi(table: seq<nat>, offset: nat, beyond: nat)

  /** The first index of a value. */
  function FirstIndex(table: seq<nat>, value: nat): (r: Option<nat>)
    ensures r.Some? ==> r.value < |table| && table[r.value] == value && (forall i :: 0 <= i < r.value ==> table[i] != value)
    ensures r.None? ==> value !in table
  {
    if table == [] then None
    else if table[0] == value then Some(0)
    else
      match FirstIndex(table[1..], value)
      case None => None
      case Some(i) => Some(i + 1)
  }

  /** The unknown entries of a table are VOID, which no number stands for. */
  function Detranslated(abi: Abi, sysnum: nat, avoider: nat): nat {
    if sysnum == VOID then avoider
    else
      match FirstIndex(abi.table, sysnum)
      case None => avoider
      case Some(i) => i + abi.offset
  }

  /** The numbers up to the length of the table, that length included. */
  function Translated(abi: Abi, number: nat): nat {
    if abi.offset <= number < abi.offset + |abi.table| then abi.table[number - abi.offset]
    else if number == abi.offset + |abi.table| then abi.beyond
    else VOID
  }

  /** Is it the number of a syscall in that ABI? */
  predicate Known(abi: Abi, number: nat) {
    abi.offset <= number < abi.offset + |abi.table| && abi.table[number - abi.offset] != VOID
  }

  /** translate_sysnum(): the number is the one the tracee chose. */
  method TranslateSysnum(abi: Abi, number: nat) returns (sysnum: nat)
    ensures sysnum == Translated(abi, number)
  {
    if number < abi.offset {
      return VOID;
    }
    var index := number - abi.offset;
    if index > |abi.table| {
      return VOID;
    }
    // The index may be one too far.
    return if index < |abi.table| then abi.table[index] else abi.beyond;
  }

  /** Only the numbers of syscalls are taken for such, just when the memory behind the table does not look like one. */
  lemma OnlyKnownTranslated(abi: Abi)
    ensures abi.beyond == VOID <==> forall number: nat :: Translated(abi, number) != VOID ==> Known(abi, number)
  {
    var behind := abi.offset + |abi.table|;
    assert Translated(abi, behind) == abi.beyond && !Known(abi, behind);
  }

  /** detranslate_sysnum(): SYSCALL_AVOIDER is the number of no syscall. */
  method DetranslateSysnum(abi: Abi, sysnum: nat, avoider: nat) returns (number: nat)
    ensures number == Detranslated(abi, sysnum, avoider)
  {
    if sysnum == VOID {
      return avoider;
    }
    var i := 0;
    while i < |abi.table|
      invariant 0 <= i <= |abi.table|
      invariant forall j :: 0 <= j < i ==> abi.table[j] != sysnum
    {
      if abi.table[i] != sysnum {
        i := i + 1;
        continue;
      }
      return i + abi.offset;
    }
    return avoider;
  }

  /** No syscall has two numbers. */
  ghost predicate Distinct(table: seq<nat>) {
    forall i, j :: 0 <= i < j < |table| && table[i] != VOID ==> table[i] != table[j]
  }

  /** A neutral number of the ABI is the translation of what it detranslates to. */
  lemma TranslateDetranslated(abi: Abi, sysnum: nat, avoider: nat)
    requires sysnum in abi.table && sysnum != VOID
    ensures Translated(abi, Detranslated(abi, sysnum, avoider)) == sysnum
  {
    assert FirstIndex(abi.table, sysnum).Some?;
  }

  /** The number of a syscall comes back from its translation, for the whole of an ABI just when no syscall has two numbers
  there. */
  lemma DetranslateTranslated(abi: Abi, avoider: nat)
    ensures Distinct(abi.table) <==>
            forall number: nat :: Known(abi, number) ==> Detranslated(abi, Translated(abi, number), avoider) == number
  {
    if Distinct(abi.table) {
      forall number: nat | Known(abi, number)
        ensures Detranslated(abi, Translated(abi, number), avoider) == number
      {
        var first := FirstIndex(abi.table, Translated(abi, number));
        assert abi.table[number - abi.offset] in abi.table;
      }
    } else {
      var i, j :| 0 <= i < j < |abi.table| && abi.table[i] != VOID && abi.table[i] == abi.table[j];
      assert Known(abi, j + abi.offset) && Translated(abi, j + abi.offset) == abi.table[i];
      assert FirstIndex(abi.table, abi.table[i]).Some?;
    }
  }

  /** No other number does, unless it is the avoider, and stands for no syscall of the table. */
  lemma DetranslateUnknown(abi: Abi, number: nat, avoider: nat)
    requires !Known(abi, number)
    ensures Detranslated(abi, Translated(abi, number), avoider) == number <==>
            number == avoider && (Translated(abi, number) == VOID || Translated(abi, number) !in abi.table)
  {
  }

  /** Within one ABI, two neutral numbers never share an architecture number. */
  lemma DetranslatedInjective(abi: Abi, a: nat, b: nat, avoider: nat)
    requires Detranslated(abi, a, avoider) == Detranslated(abi, b, avoider)
    requires Detranslated(abi, a, avoider) != avoider
    ensures a == b
  {
  }
}
