/**
 * The testimonial list's visibility (components/testimonials.tsx): how many
 * cards the viewport width allows, the `showAll` toggle, the resize rule that
 * is ignored while expanded, which cards are visible and when the toggle
 * button and which label are shown. The viewport width is an input; the
 * cards' texts are not part of the model, only their number and order.
 */
module Testimonials {
  /** The number of entries in the `testimonials` table. */
  const TestimonialCount: nat := 11

  /** `getInitialCount`: 3 below 640 px, 4 below 1024 px, 6 otherwise. */
  function InitialCount(width: int): (r: nat)
    ensures width < 640 ==> r == 3
    ensures 640 <= width < 1024 ==> r == 4
    ensures 1024 <= width ==> r == 6
  {
    if width < 640 then 3
    else if width < 1024 then 4
    else 6
  }

  /** A wider viewport never shows fewer cards, and no width shows the whole table. */
  lemma InitialCountMonotone(w1: int, w2: int)
    requires w1 <= w2
    ensures 3 <= InitialCount(w1) <= InitialCount(w2) <= 6 < TestimonialCount
  {
  }

  /** The `count` and `showAll` state. */
  datatype Showcase = Showcase(count: nat, showAll: bool)

  /** The first render: `count` is 0 and the list is collapsed. */
  const Initial := Showcase(0, false)

  /** The effect's body, run after mounting and after every change of `showAll`. */
  function Effect(s: Showcase, width: int): (r: Showcase)
    ensures r.showAll == s.showAll && r.count == InitialCount(width)
  {
    s.(count := InitialCount(width))
  }

  /** The resize listener: the count follows the width only while collapsed. */
  function Resize(s: Showcase, width: int): (r: Showcase)
    ensures r.showAll == s.showAll
    ensures s.showAll ==> r == s
    ensures !s.showAll ==> r.count == InitialCount(width)
  {
    if s.showAll then s else s.(count := InitialCount(width))
  }

  /** A click on the button flips `showAll`; the effect then recomputes the count. */
  function Toggle(s: Showcase, width: int): (r: Showcase)
    ensures r.showAll == !s.showAll
    ensures r.count == InitialCount(width)
  {
    Effect(s.(showAll := !s.showAll), width)
  }

  function Min(a: nat, b: nat): nat {
    if a <= b then a else b
  }

  /**
   * `visibleTestimonials`: the whole table when expanded, otherwise
   * `slice(0, count)`, which stops at the end of the table.
   */
  function Visible<T>(s: Showcase, items: seq<T>): (r: seq<T>)
    ensures |r| <= |items| && r == items[..|r|]
    ensures s.showAll ==> r == items
    ensures !s.showAll ==> |r| == Min(s.count, |items|)
  {
    if s.showAll then items else items[..Min(s.count, |items|)]
  }

  /** The toggle button is rendered when the table is longer than the count or the list is expanded. */
  predicate ShowsToggle(s: Showcase, total: nat) {
    total > s.count || s.showAll
  }

  /**
   * The button is hidden exactly when the list is collapsed and the cards it
   * shows are already the whole table.
   */
  lemma ToggleHiddenIff<T>(s: Showcase, items: seq<T>)
    ensures !ShowsToggle(s, |items|) <==> !s.showAll && Visible(s, items) == items
  {
    if !s.showAll && Visible(s, items) == items {
      assert |Visible(s, items)| == |items|;
    }
  }

  function ToggleLabel(s: Showcase): (text: string)
    ensures text == "Show Less" <==> s.showAll
  {
    if s.showAll then "Show Less" else "Show All"
  }

  /** Before the effect has run, no card is visible. */
  lemma NothingVisibleAtFirst<T>(items: seq<T>)
    ensures Visible(Initial, items) == []
  {
  }

  // ---------------------------------------------------------------- the machine

  datatype Event = Mounted(width: int) | Resized(width: int) | Clicked(width: int)

  function Step(s: Showcase, e: Event): Showcase {
    match e
    case Mounted(w) => Effect(s, w)
    case Resized(w) => Resize(s, w)
    case Clicked(w) => Toggle(s, w)
  }

  function Run(s: Showcase, es: seq<Event>): Showcase
    decreases |es|
  {
    if es == [] then s else Run(Step(s, es[0]), es[1..])
  }

  /** The count is 0 before the effect runs and a breakpoint count after. */
  predicate CountFromBreakpoint(s: Showcase) {
    s.count in {0, 3, 4, 6}
  }

  lemma {:induction false} RunKeepsCount(s: Showcase, es: seq<Event>)
    requires CountFromBreakpoint(s)
    ensures CountFromBreakpoint(Run(s, es))
    ensures Run(s, es).count < TestimonialCount
    decreases |es|
  {
    if es != [] {
      RunKeepsCount(Step(s, es[0]), es[1..]);
    }
  }

  /**
   * With the eleven-entry table the toggle button is always on screen: no
   * breakpoint count reaches eleven.
   */
  lemma ToggleAlwaysShown(es: seq<Event>)
    ensures ShowsToggle(Run(Initial, es), TestimonialCount)
  {
    RunKeepsCount(Initial, es);
  }

  /** Collapsed, the visible cards are the first `count` of the table, in order. */
  lemma CollapsedShowsPrefix<T>(s: Showcase, items: seq<T>, width: int)
    requires |items| == TestimonialCount && !s.showAll
    ensures Visible(Resize(s, width), items) == items[..InitialCount(width)]
  {
    InitialCountMonotone(width, width);
  }

  /** Two clicks at the same width return to the collapsed list for that width. */
  lemma ToggleTwice<T>(s: Showcase, width: int, items: seq<T>)
    requires |items| == TestimonialCount && !s.showAll
    ensures var t := Toggle(Toggle(s, width), width);
            !t.showAll && Visible(t, items) == items[..InitialCount(width)]
  {
    InitialCountMonotone(width, width);
  }

  /** Expanding never hides a card that was visible. */
  lemma ExpandingOnlyAdds<T>(s: Showcase, width: int, items: seq<T>)
    requires !s.showAll
    ensures var before := Visible(s, items);
            var after := Visible(Toggle(s, width), items);
            after == items && before == after[..|before|]
  {
  }
}
