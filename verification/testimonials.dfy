/**
 * The testimonial carousel of the home page
 * (Frontend/src/component/TestimonialsSection.jsx): the index of the
 * testimonial shown and the cyclic "next" and "previous" buttons.
 */
module Testimonials {

  /** The number of testimonials in the carousel. */
  const TestimonialCount := 5

  /** JavaScript's integer quotient, `Math.trunc(a / n)`: rounded toward zero. */
  function JsQuot(a: int, n: int): int
    requires n > 0
  {
    if a >= 0 then a / n else -((-a) / n)
  }

  /** JavaScript's `%`: the remainder of the quotient rounded toward zero, so it takes the sign of the dividend. */
  function JsRem(a: int, n: int): (r: int)
    requires n > 0
    ensures a >= 0 ==> r == a % n
    ensures -n < r < n && (a < 0 ==> r <= 0)
    ensures a == JsQuot(a, n) * n + r
  {
    if a >= 0 then a % n
    else
      var m := -a;
      assert m == (m / n) * n + m % n;
      assert -(m / n) * n == -((m / n) * n);
      -(m % n)
  }

  /** handleNext: `(i + 1) % n`. */
  function Next(i: int, n: int): (r: int)
    requires n > 0
    ensures 0 <= i < n ==> 0 <= r < n && (r == i + 1 || (i == n - 1 && r == 0))
  {
    JsRem(i + 1, n)
  }

  /** handlePrev: `(i - 1 + n) % n`. */
  function Prev(i: int, n: int): (r: int)
    requires n > 0
    ensures 0 <= i < n ==> 0 <= r < n && (r == i - 1 || (i == 0 && r == n - 1))
  {
    JsRem(i - 1 + n, n)
  }

  datatype Button = NextButton | PrevButton

  /** The index after pressing the buttons in `presses`, in order. */
  function Press(i: int, n: int, presses: seq<Button>): int
    requires n > 0
    decreases |presses|
  {
    if presses == [] then i
    else Press(if presses[0] == NextButton then Next(i, n) else Prev(i, n), n, presses[1..])
  }

  /** Starting from a valid index, any sequence of presses keeps the index valid. */
  lemma {:induction false} PressStaysInRange(i: int, n: int, presses: seq<Button>)
    requires n > 0 && 0 <= i < n
    ensures 0 <= Press(i, n, presses) < n
    decreases |presses|
  {
    if presses != [] {
      var j := if presses[0] == NextButton then Next(i, n) else Prev(i, n);
      PressStaysInRange(j, n, presses[1..]);
    }
  }

  /** The carousel starts at the first testimonial, so the shown index always exists. */
  lemma ShownIndexExists(presses: seq<Button>)
    ensures 0 <= Press(0, TestimonialCount, presses) < TestimonialCount
  {
    PressStaysInRange(0, TestimonialCount, presses);
  }

  /** Previous undoes next and next undoes previous. */
  lemma NextPrevInverse(i: int, n: int)
    requires n > 0 && 0 <= i < n
    ensures Prev(Next(i, n), n) == i
    ensures Next(Prev(i, n), n) == i
  {
  }

  /** Next pressed k times. */
  function NextTimes(i: int, n: int, k: nat): int
    requires n > 0
  {
    if k == 0 then i else Next(NextTimes(i, n, k - 1), n)
  }

  /** Pressing next a + b times is pressing it a times, then b times. */
  lemma {:induction false} NextTimesAdd(i: int, n: int, a: nat, b: nat)
    requires n > 0
    ensures NextTimes(i, n, a + b) == NextTimes(NextTimes(i, n, a), n, b)
  {
    if b > 0 {
      NextTimesAdd(i, n, a, b - 1);
    }
  }

  /** Below the last testimonial each press of next moves one step forward. */
  lemma {:induction false} NextTimesClimb(i: int, n: int, k: nat)
    requires n > 0 && 0 <= i && i + k < n
    ensures NextTimes(i, n, k) == i + k
  {
    if k > 0 {
      NextTimesClimb(i, n, k - 1);
    }
  }

  /** Pressing next n times comes back to the same testimonial. */
  lemma NextCycle(i: int, n: int)
    requires n > 0 && 0 <= i < n
    ensures NextTimes(i, n, n) == i
  {
    NextTimesClimb(i, n, n - 1 - i);
    assert NextTimes(i, n, n - i) == 0;
    NextTimesClimb(0, n, i);
    NextTimesAdd(i, n, n - i, i);
  }

  /** At the ends the carousel wraps around. */
  lemma WrapAround(n: int)
    requires n > 0
    ensures Prev(0, n) == n - 1
    ensures Next(n - 1, n) == 0
  {
  }
}
