/** The home page carousel: up to twelve popular titles arranged on a ring,
    the active one in front. The previous/next buttons turn the ring one
    step, wrapping around; a click on a slide or on its dot jumps to it.
    Every slide is drawn in one of four tiers according to how far it is
    from the active one around the ring. */
module Slider {
  import opened Basics
  import opened Media

  /** `results.slice(0, 12)`. */
  const MaxSlides := 12

  /** The active index. JavaScript's `x % 0` is NaN, which is what the
      buttons leave behind when the ring is still empty. */
  datatype Active = At(i: int) | NaN

  datatype Carousel = Carousel(items: seq<Media>, active: Active)

  /** Every reachable carousel: either empty, or with the active index on
      one of its slides. */
  predicate Valid(c: Carousel) {
    |c.items| == 0 || (c.active.At? && 0 <= c.active.i < |c.items|)
  }

  /** JavaScript's `%` on a positive divisor: the remainder takes the sign
      of the dividend. */
  function JsRem(a: int, b: int): (r: int)
    requires b > 0
    ensures a >= 0 ==> 0 <= r < b && r == a % b
    ensures a < 0 ==> -b < r <= 0
    ensures (a - r) % b == 0
  {
    if a >= 0 then
      MultipleLeavesNoRemainder(a - a % b, a / b, b);
      a % b
    else
      MultipleLeavesNoRemainder(-((-a) - (-a) % b), -((-a) / b), b);
      -((-a) % b)
  }

  /** The state before the first load: no slides, index 0. */
  function Initial(): (c: Carousel)
    ensures Valid(c) && c.items == []
  {
    Carousel([], At(0))
  }

  /** The fetch effect: the first twelve results replace the slides and the
      ring turns back to its first slide. A reply without results (or a
      failed fetch) throws inside the effect and changes nothing. */
  function Load(c: Carousel, results: Option<seq<Media>>): (r: Carousel)
    ensures results.None? ==> r == c
    ensures results.Some? ==>
              && |r.items| == (if |results.value| < MaxSlides then |results.value| else MaxSlides)
              && r.items == results.value[..|r.items|]
              && r.active == At(0)
    ensures results.Some? ==> Valid(r)
  {
    match results
    case None => c
    case Some(rs) => Carousel(if |rs| <= MaxSlides then rs else rs[..MaxSlides], At(0))
  }

  /** The next button: `(prev + 1) % items.length`. */
  function Next(c: Carousel): (r: Carousel)
    ensures r.items == c.items
    ensures |c.items| == 0 || c.active.NaN? ==> r.active.NaN?
    ensures c.active.At? && 0 <= c.active.i < |c.items| ==>
              r.active == At(if c.active.i == |c.items| - 1 then 0 else c.active.i + 1)
  {
    if |c.items| == 0 || c.active.NaN? then c.(active := NaN)
    else
      NeighbourRemainders(c.active.i, |c.items|);
      c.(active := At(JsRem(c.active.i + 1, |c.items|)))
  }

  /** The previous button: `(prev - 1 + items.length) % items.length`. */
  function Prev(c: Carousel): (r: Carousel)
    ensures r.items == c.items
    ensures |c.items| == 0 || c.active.NaN? ==> r.active.NaN?
    ensures c.active.At? && 0 <= c.active.i < |c.items| ==>
              r.active == At(if c.active.i == 0 then |c.items| - 1 else c.active.i - 1)
  {
    if |c.items| == 0 || c.active.NaN? then c.(active := NaN)
    else
      NeighbourRemainders(c.active.i, |c.items|);
      c.(active := At(JsRem(c.active.i - 1 + |c.items|, |c.items|)))
  }

  /** A click on slide or dot `idx`. */
  function GoTo(c: Carousel, idx: int): (r: Carousel)
    ensures r.items == c.items && r.active == At(idx)
    ensures 0 <= idx < |c.items| ==> Valid(r)
  {
    c.(active := At(idx))
  }

  /** The buttons keep a carousel valid. */
  lemma ButtonsKeepValid(c: Carousel)
    requires Valid(c)
    ensures |c.items| > 0 ==> Valid(Next(c)) && Valid(Prev(c))
  {
  }

  /** Previous undoes next and next undoes previous. */
  lemma PrevUndoesNext(c: Carousel)
    requires Valid(c) && |c.items| > 0
    ensures Prev(Next(c)) == c
    ensures Next(Prev(c)) == c
  {
  }

  /** `m` presses of the next button. */
  function NextTimes(c: Carousel, m: nat): (r: Carousel)
    ensures r.items == c.items
  {
    if m == 0 then c else Next(NextTimes(c, m - 1))
  }

  /** Euclidean division is unique: `q * n + r` with `0 <= r < n` leaves
      remainder `r`. */
  lemma RemainderOfMultiplePlus(q: int, n: int, r: int)
    requires n > 0 && 0 <= r < n
    ensures (q * n + r) % n == r
  {
    var a := q * n + r;
    var d := a / n;
    assert d * n + a % n == a;
    assert (d - q) * n == r - a % n;
    SmallMultipleIsZero(d - q, n);
  }

  /** A multiple of `n`, written either way round, leaves no remainder. */
  lemma MultipleLeavesNoRemainder(x: int, q: int, n: int)
    requires n > 0 && (x == q * n || x == -((-q) * n))
    ensures x % n == 0
  {
    assert x == q * n;
    RemainderOfMultiplePlus(q, n, 0);
  }

  /** The only multiple of `n` strictly between `-n` and `n` is zero. */
  lemma SmallMultipleIsZero(x: int, n: int)
    requires n > 0 && -n < x * n < n
    ensures x == 0
  {
  }

  /** Below twice the divisor, the remainder is at most one subtraction
      away. */
  lemma RemainderBelowTwice(a: int, n: int)
    requires n > 0 && 0 <= a < 2 * n
    ensures a % n == if a < n then a else a - n
  {
    if a < n {
      RemainderOfMultiplePlus(0, n, a);
    } else {
      RemainderOfMultiplePlus(1, n, a - n);
    }
  }

  /** The remainders the buttons compute for an index on the ring. */
  lemma NeighbourRemainders(i: int, n: int)
    requires n > 0
    ensures 0 <= i < n ==> (i + 1) % n == (if i == n - 1 then 0 else i + 1)
    ensures 0 <= i < n ==> (i - 1 + n) % n == (if i == 0 then n - 1 else i - 1)
  {
    if 0 <= i < n {
      RemainderBelowTwice(i + 1, n);
      RemainderBelowTwice(i - 1 + n, n);
    }
  }

  /** Adding one to a number moves its remainder one step around the
      ring. */
  lemma RemainderStep(a: int, n: int)
    requires n > 0
    ensures (a + 1) % n == if a % n == n - 1 then 0 else a % n + 1
  {
    var q := a / n;
    if a % n == n - 1 {
      RemainderOfMultiplePlus(q + 1, n, 0);
      assert a + 1 == (q + 1) * n + 0;
    } else {
      RemainderOfMultiplePlus(q, n, a % n + 1);
    }
  }

  /** `m` presses of next move the ring `m` steps forward, modulo the
      number of slides. */
  lemma {:induction false} NextTimesAdvances(c: Carousel, m: nat)
    requires Valid(c) && |c.items| > 0
    ensures NextTimes(c, m).active == At((c.active.i + m) % |c.items|)
  {
    if m == 0 {
      RemainderOfMultiplePlus(0, |c.items|, c.active.i);
    } else {
      NextTimesAdvances(c, m - 1);
      RemainderStep(c.active.i + m - 1, |c.items|);
    }
  }

  /** A full turn of the ring, one press per slide, comes back to the
      starting slide. */
  lemma FullTurnRestores(c: Carousel)
    requires Valid(c) && |c.items| > 0
    ensures NextTimes(c, |c.items|) == c
  {
    NextTimesAdvances(c, |c.items|);
    RemainderOfMultiplePlus(1, |c.items|, c.active.i);
  }

  /** How far slide `idx` sits from the active slide around a ring of
      `total` slides: the plain difference, brought into the half-open
      range around zero by adding or removing one turn. The comparisons
      with `total / 2` are on real numbers in the source; here both sides
      are doubled. */
  function Offset(idx: int, active: int, total: int): (r: int)
    ensures 0 <= idx < total && 0 <= active < total ==>
              && -total <= 2 * r <= total
              && (r == idx - active || r == idx - active - total || r == idx - active + total)
              && (r == 0 <==> idx == active)
  {
    var o := idx - active;
    var o' := if 2 * o > total then o - total else o;
    if 2 * o' < -total then o' + total else o'
  }

  /** Different slides sit at different offsets, so each tier holds at most
      one slide per side. */
  lemma OffsetInjective(i: int, j: int, active: int, total: int)
    requires 0 <= i < total && 0 <= j < total && 0 <= active < total
    requires Offset(i, active, total) == Offset(j, active, total)
    ensures i == j
  {
  }

  /** What the carousel style of a slide decides besides its geometry and
      fading: its stacking order and whether it receives clicks. */
  datatype Tier = Tier(zIndex: int, clickable: bool)

  function Abs(x: int): nat {
    if x < 0 then -x else x
  }

  /** The four tiers of `getCarouselStyle`: the front slide, its two
      neighbours, the two slides after those, and every other slide, which
      lets clicks through. */
  function TierAt(offset: int): (t: Tier)
    ensures t.zIndex == 3 <==> offset == 0
    ensures t.clickable <==> Abs(offset) <= 2
    ensures 0 <= t.zIndex <= 3
  {
    if offset == 0 then Tier(3, true)
    else if offset == 1 || offset == -1 then Tier(2, true)
    else if offset == 2 || offset == -2 then Tier(1, true)
    else Tier(0, false)
  }

  /** Farther slides are never stacked above nearer ones, and each step
      away from the front within two steps lowers the slide by one. */
  lemma TierFallsWithDistance(a: int, b: int)
    requires Abs(a) <= Abs(b)
    ensures TierAt(a).zIndex >= TierAt(b).zIndex
    ensures Abs(b) <= 2 ==> TierAt(b).zIndex == 3 - Abs(b)
  {
  }

  /** The tier of slide `idx` in the carousel. */
  function SlideTier(c: Carousel, idx: int): Tier {
    match c.active
    case At(a) => TierAt(Offset(idx, a, |c.items|))
    // `idx - NaN` is NaN, which matches no tier test: the last tier.
    case NaN => TierAt(MaxSlides)
  }

  /** `tabIndex={idx === activeIdx ? 0 : -1}`. */
  function TabIndex(c: Carousel, idx: int): (t: int)
    ensures t == 0 <==> c.active == At(idx)
    ensures t == 0 || t == -1
  {
    if c.active == At(idx) then 0 else -1
  }

  /** `aria-hidden={idx !== activeIdx}`. */
  predicate AriaHidden(c: Carousel, idx: int) {
    c.active != At(idx)
  }

  /** In a loaded carousel exactly one slide is drawn in front, and it is
      also the only one keyboard focus reaches and assistive technology
      sees. */
  lemma FrontSlideIsTheActiveOne(c: Carousel, idx: int)
    requires Valid(c) && 0 <= idx < |c.items|
    ensures SlideTier(c, idx).zIndex == 3 <==> idx == c.active.i
    ensures SlideTier(c, idx).zIndex == 3 <==> TabIndex(c, idx) == 0
    ensures SlideTier(c, idx).zIndex == 3 <==> !AriaHidden(c, idx)
  {
  }
}
