/** What the other modules share: optional values, machine words and pages. */
module Basics {

  datatype Option<+T> = None | Some(value: T)

  // ----- Words -----

  const WORD_LIMIT: nat := 0x1_0000_0000_0000_0000

  type Word = x: nat | x < WORD_LIMIT

  /** Unsigned word arithmetic. */
  function Wrap(x: int): Word {
    x % WORD_LIMIT
  }

  lemma WrapSmall(x: int)
    ensures 0 <= x < WORD_LIMIT ==> Wrap(x) == x
  {
  }

  // ----- Sets -----

  lemma {:induction false} SubsetSize(a: set<nat>, b: set<nat>)
    requires a <= b
    ensures |a| <= |b|
  {
    if a != {} {
      var x :| x in a;
      SubsetSize(a - {x}, b - {x});
    }
  }

  // ----- Pages -----

  /** x & page_mask. */
  function PageDown(x: nat, page: nat): nat
    requires page > 0
  {
    x - x % page
  }

  lemma PageBounds(x: nat, page: nat)
    requires page > 0
    ensures PageDown(x, page) <= x < PageDown(x, page) + page
  {
  }

  /** Congruent numbers stay so: rounding both down removes the same amount. */
  lemma PageDownAdd(x: nat, y: nat, n: nat, page: nat)
    requires page > 0 && x % page == y % page
    ensures (x + n) - PageDown(x + n, page) == (y + n) - PageDown(y + n, page)
  {
    ModAdd(x, n, page);
    ModAdd(y, n, page);
  }

  lemma ModAdd(x: nat, n: nat, page: nat)
    requires page > 0
    ensures (x + n) % page == (x % page + n) % page
  {
    var q, r := x / page, x % page;
    assert x == page * q + r;
    ModShift(r + n, q, page);
    assert x + n == (r + n) + page * q;
  }

  lemma {:induction false} ModShift(x: nat, q: nat, page: nat)
    requires page > 0
    ensures (x + page * q) % page == x % page
    decreases q
  {
    if q > 0 {
      ModShift(x, q - 1, page);
      assert x + page * q == (x + page * (q - 1)) + page;
      ModOne(x + page * (q - 1), page);
    } else {
      assert page * q == 0;
    }
  }

  lemma ModOne(x: nat, page: nat)
    requires page > 0
    ensures (x + page) % page == x % page
  {
    var q, r := x / page, x % page;
    assert x + page == page * (q + 1) + r;
    DivUnique(x + page, page, q + 1, r);
  }

  lemma {:induction false} Multiples(page: nat, q: nat, r: nat)
    ensures q > r ==> page * q >= page * r + page
    decreases q
  {
    if q > r + 1 {
      Multiples(page, q - 1, r);
    }
    assert q > 0 ==> page * q == page * (q - 1) + page;
  }

  lemma DivUnique(x: nat, page: nat, q: nat, r: nat)
    requires page > 0 && x == page * q + r && r < page
    ensures x % page == r
  {
    Multiples(page, q, x / page);
    Multiples(page, x / page, q);
  }

  lemma PageDownSmall(x: nat, k: nat, page: nat)
    requires page > 0 && x % page + k < page
    ensures PageDown(x + k, page) == PageDown(x, page)
  {
    ModAdd(x, k, page);
    SmallMod(x % page + k, page);
  }

  lemma PageOffset(x: nat, page: nat)
    requires page > 0
    ensures x % page == x - PageDown(x, page)
  {
  }

  lemma SmallMod(x: nat, page: nat)
    requires x < page
    ensures x % page == x
  {
  }

  lemma PageDownNext(x: nat, page: nat)
    requires page > 0
    ensures PageDown(x + page, page) == PageDown(x, page) + page
  {
    ModOne(x, page);
  }

  lemma PageDownMonotone(x: nat, y: nat, page: nat)
    requires page > 0 && x <= y
    ensures PageDown(x, page) <= PageDown(y, page)
  {
    var q, q' := x / page, y / page;
    assert PageDown(x, page) == page * q && PageDown(y, page) == page * q';
    Multiples(page, q, q');
  }

  lemma AlignedSum(base: nat, x: nat, page: nat)
    requires page > 0 && base % page == 0
    ensures (base + PageDown(x, page)) % page == 0
  {
    var q := base / page + x / page;
    assert base + PageDown(x, page) == page * (base / page) + page * (x / page) == page * q;
    DivUnique(base + PageDown(x, page), page, q, 0);
  }
}
