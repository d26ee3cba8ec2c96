# ImageSlider slide-index model

A Dafny model of the logic inside the `ImageSlider` React Native component
(`index.tsx`): a horizontally paged carousel whose one piece of state,
`currentIndex`, is changed by four handlers (previous button, next button,
autoplay timer tick, end of a swipe), each of which may command the scroll
region to an offset; plus the pure calculations drawn next to that state
(pagination-dot width and colour, per-slide label).

Modules, one per concern of the component:

- `Navigation` — the handlers as a pure state machine: `Handle` gives the new
  index and the `scrollTo` target of one handler call, `Run` and `Scrolls`
  replay a sequence of calls. JavaScript's `Math.round` is `Round`.
- `ImageSlider` — the component instance as a class `Slider` with the mutable
  field `currentIndex`, a log `scrolls` of every `scrollTo` target, and a
  ghost `history` of handler calls; each handler is a method whose contract
  states the new index and scroll log and ties them to `Navigation`.
- `Dots` — the dot width as the three-point clamp-mode interpolation
  `[w(i-1), w·i, w(i+1)] → [dotSize, 2·dotSize, dotSize]` over reals, with a
  closed (tent-shaped) reference form proved equal to it; the active-colour
  choice.
- `Labels`, `Decimal` — the slide label, with `${imageIndex}` modelled as the
  decimal numeral of a natural number.
- `Wrappers` — `Option`; `Arith` — cancelling a positive factor in a real comparison.

The model follows `index.tsx` as written: it has no `loop` option (the
buttons never wrap, the autoplay tick always wraps to slide 0), its
scroll-end handler does not clamp the rounded index to the slide range, it
has no `onIndexChange` callback and no `inactiveDotScale` (the dot size is
`dotSize` itself), and `images` is a `string[]` with one shared `label` prop.

Model choices: `windowWidth` is a positive integer fixed at mount; scroll
offsets handed to the scroll-end handler are reals; `Math.round(x)` is
`floor(x + 1/2)`, which is what JavaScript computes for every finite `x`,
negative ones included. The integer form `(2·o + w) div (2·w)` is proved equal
to it for every integer offset `o`, negative ones included, since Dafny's
division floors for a positive divisor.

## Model

| member | source | states |
|---|---|---|
| `Navigation.Round` | index.tsx:100 | `Math.round(x)` is the integer `r` with `r - 1/2 <= x < r + 1/2`: nearest integer, halves rounded up |
| `Navigation.RoundUnique` | index.tsx:100 | any integer within that half-open half-unit of `x` is `Round(x)` |
| `Navigation.Handle` | index.tsx:59-102 | every `scrollTo` a handler issues targets `windowWidth * newIndex` (the wrapping tick's `x: 0` included); a handler that issues no scroll leaves the index unchanged unless it is the scroll-end handler |
| `Navigation.StepInRange` | index.tsx:59-96 | a previous press, next press or tick keeps an index in `[0, n)` in `[0, n)` |
| `Navigation.NavigationInRange` | index.tsx:54-102 | any sequence of previous presses, next presses, ticks and swipes that settle within `[0, windowWidth·(n-1)]` keeps a valid index valid |
| `Navigation.PreviousUndoesNext` | index.tsx:78-96 | below the last slide, next then previous returns to the same index and scrolls back to its offset |
| `Navigation.NextUndoesPrevious` | index.tsx:78-96 | above slide 0, previous then next returns to the same index and scrolls back to its offset |
| `Navigation.TicksAdvanceModulo` | index.tsx:59-72 | from a valid index `c`, `k` autoplay ticks lead to `(c + k) mod n` |
| `Navigation.TicksReturnAfterFullCycle` | index.tsx:59-72 | `n` ticks from any valid index return to that index |
| `Navigation.SettleAtMultiple` | index.tsx:98-102 | a swipe settling at `windowWidth * k` sets the index to `k` for every integer `k`, out-of-range `k` too (no clamping) |
| `Navigation.SettleAtScrollTarget` | index.tsx:59-102 | a swipe settling where any handler scrolled to sets that handler's index again |
| `Navigation.SettleIntegerOffset` | index.tsx:98-102 | on an integer offset `o`, the settled index is `(2·o + w) div (2·w)` for every `o` |
| `Navigation.SettleWithinContent` | index.tsx:98-102 | an offset within `[0, windowWidth·(n-1)]` settles on an index in `[0, n)` |
| `ImageSlider.Slider.constructor` | index.tsx:52-55 | on mount the index is 0 and nothing has scrolled |
| `ImageSlider.Slider.HandlePrevious` | index.tsx:78-86 | above 0: index minus one and one scroll to `windowWidth * newIndex`; at 0 or below: index and scroll log unchanged; while every swipe in the history settled within the content, the index stays in `[0, n)` |
| `ImageSlider.Slider.HandleNext` | index.tsx:88-96 | below `n-1`: index plus one and one scroll to `windowWidth * newIndex`; at `n-1` or above: index and scroll log unchanged; range kept as above |
| `ImageSlider.Slider.HandleAutoplayTick` | index.tsx:59-72 | below `n-1`: index plus one; otherwise index 0; always exactly one scroll, to `windowWidth * newIndex`; range kept as above |
| `ImageSlider.Slider.HandleScrollEnd` | index.tsx:98-102 | index becomes `Round(offset / windowWidth)`, unclamped; no scroll is issued; range kept as above |
| `ImageSlider.Slider.InRangeAfterNavigation` | index.tsx:54-102 | for a non-empty slider whose every swipe settled within the content, `0 <= currentIndex < n` |
| `ImageSlider.OneActiveDotAfterNavigation` | index.tsx:184-185 | after any presses, ticks and swipes settling within the content from mount, the set of active dots is exactly `{currentIndex}` |
| `ImageSlider.SwipePastLastSlideActivatesNoDot` | index.tsx:98-102 | a swipe settling one width past the last slide leaves `currentIndex == n` and no dot active |
| `Dots.Interpolate` | index.tsx:168-176 | one clamp-mode segment: `inMin` and below give `outMin`, `inMax` and above give `outMax`, and every output lies between the two |
| `Dots.Interpolate3` | index.tsx:168-176 | the three-point clamp interpolation hits each output point at its input point and stays within the adjacent outputs on each side |
| `Dots.DotWidth` | index.tsx:168-176 | dot `i` is `2·dotSize` wide at `windowWidth·i`, `dotSize` at and beyond `windowWidth·(i±1)`, and always between `dotSize` and `2·dotSize` |
| `Dots.DotWidthBounds` | index.tsx:168-176 | for a non-negative `dotSize`, every width lies in `[dotSize, 2·dotSize]` |
| `Dots.DotWidthIsTent` | index.tsx:168-176 | the width equals the reference form `dotSize·(2 - min(1, abs(x - windowWidth·i) / windowWidth))` |
| `Dots.DotWidthSymmetric` | index.tsx:168-176 | a dot's width is the same at equal distances before and after its slide |
| `Dots.DotWidthShift` | index.tsx:168-176 | shifting the offset by one window width and the dot by one slide leaves the width unchanged |
| `Dots.NeighbourWidthsSum` | index.tsx:168-176 | between slides `i` and `i+1`, dots `i` and `i+1` together are `3·dotSize` wide |
| `Dots.OtherDotsAtRest` | index.tsx:168-176 | between slides `i` and `i+1`, every other dot is `dotSize` wide |
| `Dots.TotalWidthConstant` | index.tsx:167-176 | with the offset between two slides, the `n` dots together are always `(n+1)·dotSize` wide |
| `Dots.DotColor` | index.tsx:184-185 | a dot gets one of the two colours, and (when they differ) `activeDotColor` exactly when its index equals `currentIndex` |
| `Dots.ExactlyOneActiveDot` | index.tsx:184-185 | among `n` dots exactly one is active when `0 <= currentIndex < n`, none otherwise |
| `Labels.SlideLabel` | index.tsx:129-136 | a label exists iff `imageLabel`; it is the `label` prop when that is non-empty and `"Image: "` followed by the slide's numeral otherwise |
| `Labels.FallbackLabelNamesSlide` | index.tsx:134-135 | the text after `"Image: "` in a fallback label is all digits and reads back as the slide's index |
| `Labels.LabelsDistinguishSlides` | index.tsx:131-136 | with an empty `label` prop, two slides get the same label iff they are the same slide; with a non-empty one, all slides share it |
| `Decimal.DecimalString` | index.tsx:135 | the numeral of `k` is non-empty, all digits, starts with `0` only for zero, and has one digit iff `k < 10` |
| `Decimal.ParseDecimalString` | index.tsx:135 | reading the numeral of `k` gives back `k` |
| `Decimal.DecimalStringInjective` | index.tsx:135 | two numbers have the same numeral iff they are equal |

## Left out

- Rendering: the JSX tree, `SafeAreaView`, `View`, `ImageBackground` (its `source={{ uri: image }}` only hands the string to the host), `TouchableOpacity`, the icons and the layout props `imageHeight`, `radius` and `containerStyle`. They have no logic of their own.
- `showNavigationButtons` and `showIndicatorDots`: they only decide whether the buttons and dots are drawn. The handlers and the dot functions are modelled as if drawn.
- The style table `src/assets/globalStyles.js` and the re-export module `src/imports/index.tsx`: one is constant data, the other forwards library primitives.
- The `Animated.Value` runtime and `Animated.event`: the scroll offset reaches the dot-width function as a plain real. The host engine's interpolation code is not part of this model. `Dots.Interpolate` follows the engine's documented clamp behaviour: clamp the input, then map linearly.
- The `extend` and `identity` extrapolation modes: only the default `clamp` is modelled, because the other two belong to the host animation engine.
- Timers: `setInterval`, `clearInterval`, the 3000 ms default period and the `useEffect` re-arming on `[currentIndex]`. A tick is a plain method call. Because of the re-arming, a tick always sees the latest index; the model keeps that by running handlers one after another on the current state.
- `useWindowDimensions`: `windowWidth` is a positive integer fixed at mount. A width change during the component's life is not modelled. A width of 0 is not modelled either: the scroll-end handler would divide by zero.
- Floating point: offsets and widths are exact reals and integers. Double-precision rounding of `offset / windowWidth` and of `windowWidth * index` is not modelled.
- React's state batching and re-rendering: each handler reads the index left by the previous handler.
- Dots.TotalWidthConstant: only stated for offsets between two slides (`0 <= i < n-1`), not for a slider with one slide or for offsets outside the content.
- ImageSlider.Slider: the image list is fixed at mount (`const images`), whereas the component takes `images` as a prop on every render. Two consequences are not modelled: the timer's closure is re-armed only on `[currentIndex]` (index.tsx:76), so a tick may read a stale `images.length` (index.tsx:60) while `handleNext` reads the current one (index.tsx:89); and nothing clamps `currentIndex` when the list shrinks, so 5 images at index 4 re-rendered with 2 images keep index 4 and no dot is active (index.tsx:185).
- The optional chaining in `scrollViewRef.current?.scrollTo` (index.tsx:61, 67, 80, 90): with a null ref the index still changes but no scroll is issued, while the model always logs the scroll. The ref is set while the component is mounted.
