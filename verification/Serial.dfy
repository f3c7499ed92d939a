/**
  Sequence numbers of section 3.4 of RFC 9293.

  Every algorithm of this project that compares sequence numbers is written once, over an
  `Arith`: `Mod32` is what the code computes with (unsigned 32-bit words compared by the sign
  of their 32-bit difference), `Exact` is the same algorithm on stream positions that never
  wrap.  A refinement lemma beside each algorithm shows that, while the live numbers of a flow
  stay within half of the number space, the first is the image of the second.
 */
module Serial {
  const M32: int := 0x1_0000_0000
  const HALF: int := 0x8000_0000

  type u32 = x: int | 0 <= x < 0x1_0000_0000

  function Wrap(x: int): (r: u32) {
    x % 0x1_0000_0000
  }

  datatype Arith = Mod32 | Exact {
    /** What is stored when the exact result is `x`. */
    function Norm(x: int): int {
      if Mod32? then Wrap(x) else x
    }

    /** `(__s32)(a - b)`. */
    function Diff(a: int, b: int): int {
      if Exact? then a - b
      else
        var d := Wrap(a - b);
        if d < 0x8000_0000 then d else d - 0x1_0000_0000
    }

    predicate Before(a: int, b: int) {
      Diff(a, b) < 0
    }

    function Max(a: int, b: int): int {
      if Before(a, b) then b else a
    }
  }

  /** A half window of stream positions. */
  predicate Within(lo: int, x: int) {
    lo <= x < lo + HALF
  }

  /** The sign test on wrapped numbers decides exactly like the subtraction of positions. */
  lemma DiffOfWrapped(x: int, y: int)
    requires -HALF <= x - y < HALF
    ensures Mod32.Diff(Wrap(x), Wrap(y)) == Exact.Diff(x, y)
  {
    var qx, qy := x / M32, y / M32;
    assert Wrap(x) - Wrap(y) == (x - y) - M32 * (qx - qy);
    ModShift(x - y, qx - qy);
  }

  lemma DiffInWindow(lo: int, x: int, y: int)
    requires Within(lo, x) && Within(lo, y)
    ensures Mod32.Diff(Wrap(x), Wrap(y)) == Exact.Diff(x, y)
  {
    DiffOfWrapped(x, y);
  }

  lemma ModShift(x: int, k: int)
    ensures (x - M32 * k) % M32 == x % M32
  {
    var q := x / M32;
    assert x - M32 * k == M32 * (q - k) + x % M32;
  }

  /** Addition may be done before or after wrapping. */
  lemma WrapAdd(x: int, y: int)
    ensures Wrap(Wrap(x) + y) == Wrap(x + y)
  {
    ModShift(x + y, x / M32);
  }

  /** Half a window is the most that can be told apart: one step further the sign flips. */
  lemma HalfWindowIsTight(x: int)
    ensures Mod32.Diff(Wrap(x + HALF), Wrap(x)) == -HALF
  {
    var q := (x + HALF) / M32 - x / M32;
    ModShift(HALF, q);
  }
}
