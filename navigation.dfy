/** The slide-index state machine of the ImageSlider component: what each of
    its four handlers does to `currentIndex` and which `scrollTo` command it
    issues, and what follows for sequences of handler calls. */
module Navigation {

  import opened Wrappers
  import opened Arith

  /** One call into the component: a press on the previous or the next
      button, a tick of the autoplay timer, or the end of a swipe's momentum
      with the scroll region at horizontal offset `offset`. */
  datatype Event = PreviousPress | NextPress | AutoplayTick | ScrollEnd(offset: real)

  /** What one handler does: the index it sets and the `x` of the
      `scrollTo` command it issues, if it issues one. */
  datatype Effect = Effect(index: int, scrollTo: Option<int>)

  /** JavaScript's `Math.round`: the integer nearest to `x`, halves rounded
      toward positive infinity. */
  function Round(x: real): (r: int)
    ensures r as real - 0.5 <= x < r as real + 0.5
  {
    (x + 0.5).Floor
  }

  /** There is only one integer within half a unit (below inclusive) of `x`. */
  lemma RoundUnique(x: real, k: int)
    requires k as real - 0.5 <= x < k as real + 0.5
    ensures Round(x) == k
  {
  }

  /** The handler selected by `e`, run with index `cur`, `n` images and
      window width `w`. */
  function Handle(cur: int, e: Event, n: nat, w: int): (r: Effect)
    requires w > 0
    ensures r.scrollTo.Some? ==> r.scrollTo.value == w * r.index
    ensures r.scrollTo.None? ==> e.ScrollEnd? || r.index == cur
  {
    match e
    case PreviousPress =>
      if cur > 0 then Effect(cur - 1, Some(w * (cur - 1))) else Effect(cur, None)
    case NextPress =>
      if cur < n - 1 then Effect(cur + 1, Some(w * (cur + 1))) else Effect(cur, None)
    case AutoplayTick =>
      if cur < n - 1 then Effect(cur + 1, Some(w * (cur + 1))) else Effect(0, Some(0))
    case ScrollEnd(offset) =>
      Effect(Round(offset / w as real), None)
  }

  /** The scroll commands an effect issues, as a (zero- or one-element) log. */
  function Commands(r: Effect): (xs: seq<int>) {
    match r.scrollTo
    case None => []
    case Some(x) => [x]
  }

  /** The index after the handlers for `evs` ran in order, starting at `cur`. */
  function Run(cur: int, evs: seq<Event>, n: nat, w: int): (index: int)
    requires w > 0
    decreases |evs|
  {
    if evs == [] then cur
    else Handle(Run(cur, evs[..|evs| - 1], n, w), evs[|evs| - 1], n, w).index
  }

  /** Every `x` passed to `scrollTo` while the handlers for `evs` ran, oldest first. */
  function Scrolls(cur: int, evs: seq<Event>, n: nat, w: int): (xs: seq<int>)
    requires w > 0
    decreases |evs|
  {
    if evs == [] then []
    else
      var front := evs[..|evs| - 1];
      Scrolls(cur, front, n, w) + Commands(Handle(Run(cur, front, n, w), evs[|evs| - 1], n, w))
  }

  /** Every swipe among `evs` settles inside the scrollable content of `n`
      slides of width `w`, that is between offset 0 and the last slide's
      offset `w * (n - 1)`. Button presses and ticks are unconstrained. */
  predicate SwipesInContent(evs: seq<Event>, n: nat, w: int) {
    forall j :: 0 <= j < |evs| && evs[j].ScrollEnd? ==> 0.0 <= evs[j].offset <= (w * (n - 1)) as real
  }

  /** Running one more event is one more step of `Run` and `Scrolls`. */
  lemma RunSnoc(cur: int, evs: seq<Event>, e: Event, n: nat, w: int)
    requires w > 0
    ensures Run(cur, evs + [e], n, w) == Handle(Run(cur, evs, n, w), e, n, w).index
    ensures Scrolls(cur, evs + [e], n, w)
         == Scrolls(cur, evs, n, w) + Commands(Handle(Run(cur, evs, n, w), e, n, w))
  {
    assert (evs + [e])[..|evs + [e]| - 1] == evs;
  }

  /** A button press or an autoplay tick keeps a valid index valid. */
  lemma StepInRange(cur: int, e: Event, n: nat, w: int)
    requires w > 0 && 0 <= cur < n && !e.ScrollEnd?
    ensures 0 <= Handle(cur, e, n, w).index < n
  {
  }

  /** Any sequence of button presses, ticks and swipes that settle inside the
      content keeps a valid index valid. */
  lemma {:induction false} NavigationInRange(cur: int, evs: seq<Event>, n: nat, w: int)
    requires w > 0 && 0 <= cur < n && SwipesInContent(evs, n, w)
    ensures 0 <= Run(cur, evs, n, w) < n
    decreases |evs|
  {
    if evs != [] {
      var front, e := evs[..|evs| - 1], evs[|evs| - 1];
      assert SwipesInContent(front, n, w) by {
        forall j | 0 <= j < |front| ensures front[j] == evs[j] {
        }
      }
      NavigationInRange(cur, front, n, w);
      if e.ScrollEnd? {
        SettleWithinContent(e.offset, n, w);
      } else {
        StepInRange(Run(cur, front, n, w), e, n, w);
      }
    }
  }

  /** The previous button undoes the next button wherever next moved. */
  lemma PreviousUndoesNext(cur: int, n: nat, w: int)
    requires w > 0 && 0 <= cur < n - 1
    ensures Handle(Handle(cur, NextPress, n, w).index, PreviousPress, n, w) == Effect(cur, Some(w * cur))
  {
  }

  /** The next button undoes the previous button wherever previous moved. */
  lemma NextUndoesPrevious(cur: int, n: nat, w: int)
    requires w > 0 && 0 < cur < n
    ensures Handle(Handle(cur, PreviousPress, n, w).index, NextPress, n, w) == Effect(cur, Some(w * cur))
  {
  }

  /** `k` autoplay ticks in a row. */
  function Ticks(k: nat): (evs: seq<Event>)
    ensures |evs| == k && forall j :: 0 <= j < k ==> evs[j] == AutoplayTick
  {
    seq(k, _ => AutoplayTick)
  }

  /** Dafny's `/` and `%` are determined by `a == q * n + m` with `0 <= m < n`. */
  lemma DivModUnique(a: int, n: int, q: int, m: int)
    requires n > 0 && 0 <= m < n && a == q * n + m
    ensures a / n == q && a % n == m
  {
    var q', m' := a / n, a % n;
    var d := q - q';
    assert a == q' * n + m';
    assert d * n == q * n - q' * n;
    assert d * n == m' - m;
    if d >= 1 {
      MulAtLeast(d, n);
    } else if d <= -1 {
      MulAtLeast(-d, n);
    }
  }

  lemma {:induction false} MulAtLeast(d: int, n: int)
    requires d >= 1 && n > 0
    ensures d * n >= n
    decreases d
  {
    if d > 1 {
      MulAtLeast(d - 1, n);
      assert d * n == (d - 1) * n + n;
    }
  }

  lemma ModSucc(j: int, n: int)
    requires n > 0
    ensures (j + 1) % n == if j % n < n - 1 then j % n + 1 else 0
  {
    var q, m := j / n, j % n;
    assert j == q * n + m;
    if m < n - 1 {
      DivModUnique(j + 1, n, q, m + 1);
    } else {
      assert j + 1 == (q + 1) * n;
      DivModUnique(j + 1, n, q + 1, 0);
    }
  }

  /** From a valid index, `k` ticks advance the index by `k` modulo `n`. */
  lemma {:induction false} TicksAdvanceModulo(cur: int, k: nat, n: nat, w: int)
    requires w > 0 && 0 <= cur < n
    ensures Run(cur, Ticks(k), n, w) == (cur + k) % n
    decreases k
  {
    if k > 0 {
      assert Ticks(k)[..k - 1] == Ticks(k - 1);
      TicksAdvanceModulo(cur, k - 1, n, w);
      ModSucc(cur + k - 1, n);
    }
  }

  /** `n` ticks bring the slider back to the slide it started on. */
  lemma TicksReturnAfterFullCycle(cur: int, n: nat, w: int)
    requires w > 0 && 0 <= cur < n
    ensures Run(cur, Ticks(n), n, w) == cur
  {
    TicksAdvanceModulo(cur, n, n, w);
    DivModUnique(cur + n, n, 1, cur);
  }

  /** An offset that is exactly `k` window widths settles on index `k`, for
      every integer `k`: there is no clamping to the slide range. */
  lemma SettleAtMultiple(k: int, w: int)
    requires w > 0
    ensures Round((w * k) as real / w as real) == k
  {
    assert (w * k) as real == w as real * k as real;
    assert (w * k) as real / w as real == k as real;
    RoundUnique(k as real, k);
  }

  /** Settling where any handler scrolled to gives back that handler's index. */
  lemma SettleAtScrollTarget(cur: int, e: Event, n: nat, w: int, other: int)
    requires w > 0 && Handle(cur, e, n, w).scrollTo.Some?
    ensures Handle(other, ScrollEnd(Handle(cur, e, n, w).scrollTo.value as real), n, w).index
         == Handle(cur, e, n, w).index
  {
    SettleAtMultiple(Handle(cur, e, n, w).index, w);
  }

  /** On an integer offset, rounding the quotient is `(2 * o + w) div (2 * w)`,
      for negative offsets too (Dafny's division floors for a positive divisor). */
  lemma SettleIntegerOffset(o: int, w: int)
    requires w > 0
    ensures Round(o as real / w as real) == (2 * o + w) / (2 * w)
  {
    var q, m := (2 * o + w) / (2 * w), (2 * o + w) % (2 * w);
    assert 2 * o + w == q * (2 * w) + m && 0 <= m < 2 * w;
    assert q * (2 * w) == 2 * (q * w);
    assert (2 * q - 1) * w == 2 * (q * w) - w;
    assert (2 * q + 1) * w == 2 * (q * w) + w;
    QuotientWithinHalf(o, w, q);
    RoundUnique(o as real / w as real, q);
  }

  /** Integer bounds on `2 * o` put the real quotient `o / w` within half of `k`. */
  lemma QuotientWithinHalf(o: int, w: int, k: int)
    requires w > 0 && (2 * k - 1) * w <= 2 * o < (2 * k + 1) * w
    ensures k as real - 0.5 <= o as real / w as real < k as real + 0.5
  {
    QuotientAbove(2 * o, w, 2 * k - 1);
    QuotientBelow(2 * o, w, 2 * k + 1);
    assert (2 * o) as real / w as real == 2.0 * (o as real / w as real);
  }

  lemma QuotientAbove(a: int, w: int, b: int)
    requires w > 0 && b * w <= a
    ensures b as real <= a as real / w as real
  {
    var x := a as real / w as real;
    assert x * w as real == a as real;
    assert (b * w) as real == b as real * w as real;
    MulLessCancel(b as real, x, w as real);
  }

  lemma QuotientBelow(a: int, w: int, b: int)
    requires w > 0 && a < b * w
    ensures a as real / w as real < b as real
  {
    var x := a as real / w as real;
    assert x * w as real == a as real;
    assert (b * w) as real == b as real * w as real;
    MulLessCancel(x, b as real, w as real);
  }

  /** An offset inside the scrollable content settles on a valid index. */
  lemma SettleWithinContent(offset: real, n: nat, w: int)
    requires w > 0 && n > 0 && 0.0 <= offset <= (w * (n - 1)) as real
    ensures 0 <= Round(offset / w as real) < n
  {
    var x := offset / w as real;
    assert x * w as real == offset;
    assert (w * (n - 1)) as real == w as real * (n - 1) as real;
    assert x <= (n - 1) as real;
  }
}
