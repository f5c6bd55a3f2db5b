/** The testimonial carousel on the storefront: an index into the loaded
    testimonials that the arrows, the dots and the auto-slide timer move. */
module Carousel {
  import opened Js

  /** `currentIndex` and `testimonials.length`. */
  datatype Carousel = Carousel(index: int, length: nat)

  predicate InRange(c: Carousel) {
    0 <= c.index < c.length
  }

  /** `nextTestimonial`: with more than one testimonial, step forward and
      wrap from the last to the first; otherwise do nothing. */
  function Next(c: Carousel): (r: Carousel)
    ensures r.length == c.length
    ensures c.length <= 1 ==> r == c
    ensures c.length > 1 && InRange(c) ==> InRange(r)
    ensures c.length > 1 && 0 <= c.index < c.length - 1 ==> r.index == c.index + 1
    ensures c.length > 1 && c.index == c.length - 1 ==> r.index == 0
  {
    if c.length > 1 then c.(index := Rem(c.index + 1, c.length)) else c
  }

  /** `previousTestimonial`: with more than one testimonial, step back and
      wrap from the first to the last; otherwise do nothing. */
  function Prev(c: Carousel): (r: Carousel)
    ensures r.length == c.length
    ensures c.length <= 1 ==> r == c
    ensures c.length > 1 && InRange(c) ==> InRange(r)
    ensures c.length > 1 && c.index == 0 ==> r.index == c.length - 1
    ensures c.length > 1 && c.index != 0 ==> r.index == c.index - 1
  {
    if c.length > 1 then c.(index := if c.index == 0 then c.length - 1 else c.index - 1) else c
  }

  /** `goToTestimonial`: jump to any index, without a bounds check. */
  function GoTo(c: Carousel, index: int): (r: Carousel)
    ensures r.index == index && r.length == c.length
  {
    c.(index := index)
  }

  /** Back undoes forward and forward undoes back, on any index the
      carousel can be at. */
  lemma PrevNext(c: Carousel)
    requires InRange(c)
    ensures Prev(Next(c)) == c
    ensures Next(Prev(c)) == c
  {
  }

  function NextTimes(c: Carousel, k: nat): Carousel
    decreases k
  {
    if k == 0 then c else Next(NextTimes(c, k - 1))
  }

  /** Up to a full round, `k` steps forward land `k` places on, wrapping
      past the last testimonial back to the first. */
  lemma {:induction false} NextTimesIndex(c: Carousel, k: nat)
    requires InRange(c) && c.length > 1 && k <= c.length
    ensures NextTimes(c, k).length == c.length
    ensures NextTimes(c, k).index == if c.index + k < c.length then c.index + k else c.index + k - c.length
    decreases k
  {
    if k > 0 {
      NextTimesIndex(c, k - 1);
    }
  }

  /** A full round of auto-slide steps comes back to the starting
      testimonial. */
  lemma FullRound(c: Carousel)
    requires InRange(c)
    ensures NextTimes(c, c.length) == c
  {
    if c.length > 1 {
      NextTimesIndex(c, c.length);
    } else {
      assert NextTimes(c, 1) == Next(NextTimes(c, 0));
    }
  }

  /** After a jump to a negative index, stepping forward can stay negative:
      the remainder takes the dividend's sign. */
  lemma NegativeIndexStaysNegative()
    ensures Next(Carousel(-5, 3)).index == -1
  {
  }
}
