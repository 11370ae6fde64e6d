/** Rounding up to a multiple, as memory.py, guest.py and abi.py all do. */
module Alignment {
  function AlignUp(value: int, align: int): (r: int)
    requires align > 0
    ensures value >= 0 ==> r >= 0
  {
    (value + align - 1) / align * align
  }

  /** Rounding up gives the least multiple at or above a value. */
  lemma {:induction false} AlignUpLeast(value: int, align: int)
    requires align > 0
    ensures AlignUp(value, align) % align == 0
    ensures value <= AlignUp(value, align) < value + align
    ensures forall b :: b % align == 0 && value <= b ==> AlignUp(value, align) <= b
  {
    var q := (value + align - 1) / align;
    assert value + align - 1 == q * align + (value + align - 1) % align;
    MultipleMod(q, align);
    forall b | b % align == 0 && value <= b ensures q * align <= b {
      var c := b / align;
      assert b == c * align + b % align;
      assert (c + 1) * align == c * align + align;
      if c < q {
        Monotone(c + 1, q, align);
      } else {
        Monotone(q, c, align);
      }
    }
  }

  lemma {:induction false} MultipleMod(q: int, a: int)
    requires a > 0
    ensures q * a % a == 0
  {
    var x := q * a;
    var d, r := x / a, x % a;
    assert x == d * a + r;
    assert (q - d) * a == r;
    if q - d > 0 {
      Monotone(1, q - d, a);
    } else {
      Monotone(q - d, 0, a);
    }
  }

  lemma {:induction false} Monotone(p: int, q: int, a: int)
    requires p <= q && a > 0
    ensures p * a <= q * a
  {
  }
}
