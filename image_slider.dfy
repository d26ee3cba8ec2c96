/** The ImageSlider component's mutable state and its four handlers. */
module ImageSlider {

  import opened Wrappers
  import opened Navigation
  import Dots

  /** One mounted slider. `currentIndex` is the component's one piece of
      state; `scrolls` records every `x` the handlers pass to the scroll
      region's `scrollTo`, oldest first; `history` is the ghost record of
      the handler calls so far. */
  class Slider {
    const images: seq<string>
    const windowWidth: int
    var currentIndex: int
    var scrolls: seq<int>
    ghost var history: seq<Event>

    /** The state is what replaying the handler calls from mount gives. */
    ghost predicate Valid()
      reads this
    {
      windowWidth > 0 &&
      currentIndex == Run(0, history, |images|, windowWidth) &&
      scrolls == Scrolls(0, history, |images|, windowWidth)
    }

    /** Mounting: the index starts at 0 and nothing has scrolled yet. */
    constructor (images: seq<string>, windowWidth: int)
      requires windowWidth > 0
      ensures Valid()
      ensures this.images == images && this.windowWidth == windowWidth
      ensures currentIndex == 0 && scrolls == [] && history == []
    {
      this.images := images;
      this.windowWidth := windowWidth;
      currentIndex := 0;
      scrolls := [];
      history := [];
    }

    /** Steps back one slide; at index 0 or below nothing happens. */
    method HandlePrevious()
      requires Valid()
      modifies this
      ensures Valid() && history == old(history) + [PreviousPress]
      ensures old(currentIndex) > 0 ==>
        currentIndex == old(currentIndex) - 1 && scrolls == old(scrolls) + [windowWidth * currentIndex]
      ensures old(currentIndex) <= 0 ==> currentIndex == old(currentIndex) && scrolls == old(scrolls)
      ensures |images| > 0 && SwipesInContent(history, |images|, windowWidth) ==> 0 <= currentIndex < |images|
    {
      RunSnoc(0, history, PreviousPress, |images|, windowWidth);
      if currentIndex > 0 {
        scrolls := scrolls + [windowWidth * (currentIndex - 1)];
        currentIndex := currentIndex - 1;
      }
      history := history + [PreviousPress];
      InRangeAfterNavigation();
    }

    /** Steps forward one slide; at the last slide or beyond nothing happens. */
    method HandleNext()
      requires Valid()
      modifies this
      ensures Valid() && history == old(history) + [NextPress]
      ensures old(currentIndex) < |images| - 1 ==>
        currentIndex == old(currentIndex) + 1 && scrolls == old(scrolls) + [windowWidth * currentIndex]
      ensures old(currentIndex) >= |images| - 1 ==> currentIndex == old(currentIndex) && scrolls == old(scrolls)
      ensures |images| > 0 && SwipesInContent(history, |images|, windowWidth) ==> 0 <= currentIndex < |images|
    {
      RunSnoc(0, history, NextPress, |images|, windowWidth);
      if currentIndex < |images| - 1 {
        scrolls := scrolls + [windowWidth * (currentIndex + 1)];
        currentIndex := currentIndex + 1;
      }
      history := history + [NextPress];
      InRangeAfterNavigation();
    }

    /** The autoplay timer's body: one slide forward, or back to the first
        slide from the last one. It always scrolls. */
    method HandleAutoplayTick()
      requires Valid()
      modifies this
      ensures Valid() && history == old(history) + [AutoplayTick]
      ensures old(currentIndex) < |images| - 1 ==> currentIndex == old(currentIndex) + 1
      ensures old(currentIndex) >= |images| - 1 ==> currentIndex == 0
      ensures scrolls == old(scrolls) + [windowWidth * currentIndex]
      ensures |images| > 0 && SwipesInContent(history, |images|, windowWidth) ==> 0 <= currentIndex < |images|
    {
      RunSnoc(0, history, AutoplayTick, |images|, windowWidth);
      if currentIndex < |images| - 1 {
        scrolls := scrolls + [windowWidth * (currentIndex + 1)];
        currentIndex := currentIndex + 1;
      } else {
        scrolls := scrolls + [0];
        currentIndex := 0;
      }
      history := history + [AutoplayTick];
      InRangeAfterNavigation();
    }

    /** The end of a swipe's momentum at offset `offset`: the index becomes
        the rounded number of window widths, unclamped, and nothing scrolls. */
    method HandleScrollEnd(offset: real)
      requires Valid()
      modifies this
      ensures Valid() && history == old(history) + [ScrollEnd(offset)]
      ensures currentIndex == Round(offset / windowWidth as real)
      ensures scrolls == old(scrolls)
      ensures |images| > 0 && SwipesInContent(history, |images|, windowWidth) ==> 0 <= currentIndex < |images|
    {
      RunSnoc(0, history, ScrollEnd(offset), |images|, windowWidth);
      currentIndex := Round(offset / windowWidth as real);
      history := history + [ScrollEnd(offset)];
      InRangeAfterNavigation();
    }

    /** While every swipe has settled inside the content, the index of a
        non-empty slider names a slide. */
    lemma InRangeAfterNavigation()
      requires Valid()
      ensures |images| > 0 && SwipesInContent(history, |images|, windowWidth) ==> 0 <= currentIndex < |images|
    {
      if |images| > 0 && SwipesInContent(history, |images|, windowWidth) {
        NavigationInRange(0, history, |images|, windowWidth);
      }
    }
  }

  /** After any run of button presses, ticks and swipes settling inside the
      content from mount, exactly one pagination dot of a non-empty slider is
      drawn in the active colour. */
  lemma OneActiveDotAfterNavigation(evs: seq<Event>, n: nat, w: int)
    requires w > 0 && n > 0 && SwipesInContent(evs, n, w)
    ensures Dots.ActiveDots(Run(0, evs, n, w), n) == {Run(0, evs, n, w)}
    ensures |Dots.ActiveDots(Run(0, evs, n, w), n)| == 1
  {
    NavigationInRange(0, evs, n, w);
    Dots.ExactlyOneActiveDot(Run(0, evs, n, w), n);
  }

  /** Because the scroll-end handler does not clamp, a swipe that settles one
      window width past the last slide leaves the index at `n` and no dot
      active. */
  lemma SwipePastLastSlideActivatesNoDot(n: nat, w: int)
    requires w > 0
    ensures Run(0, [ScrollEnd((w * n) as real)], n, w) == n
    ensures Dots.ActiveDots(Run(0, [ScrollEnd((w * n) as real)], n, w), n) == {}
  {
    SettleAtMultiple(n, w);
    assert [ScrollEnd((w * n) as real)][..0] == [];
    Dots.ExactlyOneActiveDot(n, n);
  }

  /** Five presses of next over five slides visit 1, 2, 3, 4 and stay at 4. */
  method NextStopsAtLastSlide() {
    var s := new Slider(["a", "b", "c", "d", "e"], 360);
    s.HandleNext(); assert s.currentIndex == 1;
    s.HandleNext(); assert s.currentIndex == 2;
    s.HandleNext(); assert s.currentIndex == 3;
    s.HandleNext(); assert s.currentIndex == 4;
    s.HandleNext(); assert s.currentIndex == 4;
  }

  /** Four autoplay ticks over three slides visit 1, 2, 0, 1. */
  method AutoplayCyclesThroughSlides() {
    var s := new Slider(["a", "b", "c"], 360);
    s.HandleAutoplayTick(); assert s.currentIndex == 1;
    s.HandleAutoplayTick(); assert s.currentIndex == 2;
    s.HandleAutoplayTick(); assert s.currentIndex == 0;
    s.HandleAutoplayTick(); assert s.currentIndex == 1;
  }

  /** A swipe that settles 2.4 window widths in lands on slide 2. */
  method ScrollEndRoundsToNearestSlide() {
    var s := new Slider(["a", "b", "c", "d"], 100);
    s.HandleScrollEnd(240.0);
    assert s.currentIndex == 2 by {
      RoundUnique(240.0 / 100.0, 2);
    }
  }
}
