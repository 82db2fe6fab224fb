/** The state of one `walkthrough(itemCount)` closure and its transitions, as
    values. The page is abstracted to what the closure reads (the tagged
    elements, their text and rectangles) and what it changes (which elements
    are highlighted, the callout's text, position and buttons, and whether the
    dimmed background is still there). `console.warn`, the callout being
    repositioned and the background being removed are recorded in a log. */
module TourState {
  import opened Layout

  datatype Option<T> = None | Some(value: T)

  /** An element carrying the class `js__walkthrough{index}`: its
      `data-walkthrough` text (None when the attribute is absent) and its
      bounding rectangle. */
  datatype Element = Element(description: Option<string>, rect: Rect)

  /** What the closure is given: the number of steps it was called with and
      the page's tagged elements, keyed by index. */
  datatype Config = Config(itemCount: int, elements: map<int, Element>)

  /** Inactive: before `_init` has run. Active: the callout is on the page.
      Ended: the tour can do nothing more (the background was removed, or
      `_init` found no first element and attached no handlers). */
  datatype Phase = Inactive | Active | Ended

  datatype Event =
    | Show(step: int, text: string, at: Position)  // callout text set and moved next to a step's element
    | Warn(step: int)                               // a tagged element was missing at this index
    | End                                           // the dimmed background was removed

  /** The callout's buttons: the next button's label, the close control's
      label, and whether the back button is hidden. */
  datatype Controls = Controls(nextLabel: string, closeLabel: string, backHidden: bool)

  /** The buttons as the appended template creates them. */
  const StartControls := Controls("Next", "Close", false)

  /** The buttons once the last step has been reached by going forward. */
  const LastControls := Controls("Got it!", "", true)

  /** What string concatenation makes of an absent `data-walkthrough`. */
  const UndefinedText := "undefined"

  datatype State = State(
    phase: Phase,
    currentStep: int,
    focused: Option<Element>,  // `$focusedElement`; None when the selection is empty
    highlighted: set<int>,     // indices of the elements carrying the highlight style
    content: string,           // the callout's text
    position: Option<Position>,
    controls: Controls,
    log: seq<Event>)

  function Max(a: int, b: int): int { if a < b then b else a }

  /** `$('.js__walkthrough' + i)`. */
  function Lookup(c: Config, i: int): Option<Element>
  {
    if i in c.elements then Some(c.elements[i]) else None
  }

  /** The closure's variables right after they are declared. */
  function Initial(c: Config): State
  {
    State(Inactive, 1, Lookup(c, 1), {}, "", None, StartControls, [])
  }

  /** `walkthrough(itemCount)`: the initial variables followed by `_init`. */
  function Start(c: Config): (s: State)
    ensures s.currentStep == 1 && s.controls == StartControls
    ensures 1 !in c.elements ==> s.phase == Ended && s.log == [Warn(1)] && s.highlighted == {} && s.position == None
    ensures 1 in c.elements ==>
              && s.phase == Active
              && s.highlighted == {1}
              && s.position == Some(Placement(c.elements[1].rect))
              && s.log == [Show(1, s.content, Placement(c.elements[1].rect))]
              && s.content == (if c.elements[1].description.Some? then c.elements[1].description.value else UndefinedText)
  {
    var s0 := Initial(c);
    match s0.focused
    case None =>
      s0.(phase := Ended, log := s0.log + [Warn(s0.currentStep)])
    case Some(e) =>
      var text := if e.description.Some? then e.description.value else UndefinedText;
      var at := Placement(e.rect);
      s0.(phase := Active,
          highlighted := s0.highlighted + {s0.currentStep},
          content := text,
          position := Some(at),
          log := s0.log + [Show(s0.currentStep, text, at)])
  }

  /** The element whose highlight `nextFeature` clears: the one just left. */
  function Previous(step: int, back: bool): int
  {
    if back then step + 1 else step - 1
  }

  /** The callout text after moving to `e`: its description, or the text
      already there when it has none (`.html(undefined)` sets nothing). */
  function TextFor(e: Element, previous: string): string
  {
    if e.description.Some? then e.description.value else previous
  }

  /** `nextFeature(back)`: move the callout to the focused element, move the
      highlight to it from the element just left, and switch to the last-step
      buttons when the current step is `itemCount`. Otherwise the buttons are
      left as they are (the source hands `undefined` to `.html`, which sets
      nothing), and so is the text when the element has no description. */
  function NextFeature(c: Config, s: State, back: bool): (t: State)
    requires s.focused.Some?
    ensures t.phase == s.phase && t.currentStep == s.currentStep && t.focused == s.focused
    ensures t.highlighted == s.highlighted - {Previous(s.currentStep, back)} + {s.currentStep}
    ensures t.position == Some(Placement(s.focused.value.rect))
    ensures t.log == s.log + [Show(s.currentStep, t.content, Placement(s.focused.value.rect))]
    ensures t.controls == if c.itemCount == s.currentStep then LastControls else s.controls
    ensures s.focused.value.description.Some? ==> t.content == s.focused.value.description.value
    ensures s.focused.value.description.None? ==> t.content == s.content
  {
    var e := s.focused.value;
    var text := TextFor(e, s.content);
    var at := Placement(e.rect);
    s.(highlighted := s.highlighted - {Previous(s.currentStep, back)} + {s.currentStep},
       controls := if c.itemCount == s.currentStep then LastControls else s.controls,
       content := text,
       position := Some(at),
       log := s.log + [Show(s.currentStep, text, at)])
  }

  /** `removeWalkthrough`: the background goes, and with it every control.
      Nothing else changes: the last highlight stays. */
  function RemoveWalkthrough(s: State): (t: State)
    ensures t.phase == Ended && t.log == s.log + [End]
    ensures t.currentStep == s.currentStep && t.highlighted == s.highlighted && t.controls == s.controls
  {
    s.(phase := Ended, log := s.log + [End])
  }

  /** `step()`: increment first, then end the tour past `itemCount`, warn and
      end it when the element is missing, or show the new step. Only the next
      button calls it, and that button exists only while the tour is active. */
  function Step(c: Config, s: State): (t: State)
    requires s.phase == Active
    ensures t.currentStep == s.currentStep + 1
    ensures t.currentStep > c.itemCount ==> t.phase == Ended && t.log == s.log + [End]
    ensures t.currentStep <= c.itemCount && t.currentStep !in c.elements ==>
              t.phase == Ended && t.log == s.log + [Warn(t.currentStep), End]
    ensures t.currentStep <= c.itemCount && t.currentStep in c.elements ==>
              && t.phase == Active
              && t.content == TextFor(c.elements[t.currentStep], s.content)
              && t.log == s.log + [Show(t.currentStep, t.content, Placement(c.elements[t.currentStep].rect))]
    ensures t.phase == Ended ==> t.highlighted == s.highlighted
  {
    var n := s.currentStep + 1;
    var s1 := s.(currentStep := n, focused := Lookup(c, n));
    if n > c.itemCount then
      RemoveWalkthrough(s1)
    else if s1.focused.None? then
      RemoveWalkthrough(s1.(log := s1.log + [Warn(n)]))
    else
      NextFeature(c, s1, false)
  }

  /** A click on the next button. The button exists only while the tour is
      active. */
  function Next(c: Config, s: State): (t: State)
    ensures s.phase != Active ==> t == s
    ensures s.phase == Active ==> t.currentStep == s.currentStep + 1
  {
    if s.phase == Active then Step(c, s) else s
  }

  /** A click on the back button: nothing at step 1, otherwise decrement and
      show the element now focused. Were that element missing, `nextFeature`
      would throw on its first line, after the decrement and the refocus. */
  function Back(c: Config, s: State): (t: State)
    ensures s.phase != Active || s.currentStep == 1 ==> t == s
    ensures s.phase == Active && s.currentStep != 1 ==>
              t.currentStep == s.currentStep - 1 && t.phase == Active
    ensures s.phase == Active && s.currentStep != 1 && s.currentStep - 1 in c.elements ==>
              && t.position == Some(Placement(c.elements[s.currentStep - 1].rect))
              && t.content == TextFor(c.elements[s.currentStep - 1], s.content)
              && t.log == s.log + [Show(s.currentStep - 1, t.content, Placement(c.elements[s.currentStep - 1].rect))]
  {
    if s.phase != Active || s.currentStep == 1 then s
    else
      var s1 := s.(currentStep := s.currentStep - 1, focused := Lookup(c, s.currentStep - 1));
      if s1.focused.None? then s1 else NextFeature(c, s1, true)
  }

  /** A click on the close control. */
  function Close(s: State): (t: State)
    ensures s.phase != Active ==> t == s
    ensures s.phase == Active ==> t.phase == Ended && t.log == s.log + [End] && t.highlighted == s.highlighted
  {
    if s.phase == Active then RemoveWalkthrough(s) else s
  }

  // ---------------------------------------------------------------------------
  // The invariant every reachable state keeps

  /** Some callout was shown for step `k`. */
  ghost predicate Shown(log: seq<Event>, k: int)
  {
    exists i :: 0 <= i < |log| && log[i].Show? && log[i].step == k
  }

  /** An event agrees with the page: a callout only for a present step within
      range, placed next to that step's element; a warning only for a missing
      element. */
  ghost predicate EventFits(c: Config, e: Event)
  {
    match e
    case Show(k, _, at) => 1 <= k <= Max(1, c.itemCount) && k in c.elements && at == Placement(c.elements[k].rect)
    case Warn(k) => k !in c.elements
    case End => true
  }

  /** The tour started: `_init` found the first element. */
  ghost predicate Started(log: seq<Event>)
  {
    |log| > 0 && log[0].Show?
  }

  /** No warning has been logged. */
  ghost predicate NoWarn(log: seq<Event>)
  {
    forall i :: 0 <= i < |log| ==> !log[i].Warn?
  }

  /** At most one warning has been logged. */
  ghost predicate AtMostOneWarn(log: seq<Event>)
  {
    forall i, j :: 0 <= i < j < |log| && log[i].Warn? ==> !log[j].Warn?
  }

  ghost predicate ActiveFits(c: Config, s: State)
  {
    && 1 <= s.currentStep <= Max(1, c.itemCount)
    && (forall i :: 1 <= i <= s.currentStep ==> i in c.elements)
    && s.highlighted == {s.currentStep}
    && s.position == Some(Placement(c.elements[s.currentStep].rect))
    && Started(s.log)
    && s.log[|s.log| - 1].Show? && s.log[|s.log| - 1].step == s.currentStep
  }

  ghost predicate Invariant(c: Config, s: State)
  {
    && s.focused == Lookup(c, s.currentStep)
    && (s.phase == Inactive ==> s == Initial(c))
    && (s.phase == Active ==> ActiveFits(c, s))
    && (s.phase == Ended ==>
          s.highlighted == {} || s.highlighted == {s.currentStep} || s.highlighted == {s.currentStep - 1})
    && (s.controls == StartControls || s.controls == LastControls)
    && (s.controls == LastControls <==> 2 <= c.itemCount && Shown(s.log, c.itemCount))
    && (forall i :: 0 <= i < |s.log| ==> EventFits(c, s.log[i]))
    && multiset(s.log)[End] == (if s.phase == Ended && Started(s.log) then 1 else 0)
    && (s.phase != Ended ==> NoWarn(s.log))
    && AtMostOneWarn(s.log)
  }

  lemma ShownAppend(log: seq<Event>, e: Event, k: int)
    ensures Shown(log + [e], k) <==> Shown(log, k) || (e.Show? && e.step == k)
  {
    if Shown(log, k) {
      var i :| 0 <= i < |log| && log[i].Show? && log[i].step == k;
      assert (log + [e])[i] == log[i];
    }
    if e.Show? && e.step == k {
      assert (log + [e])[|log|] == e;
    }
    if Shown(log + [e], k) && !(e.Show? && e.step == k) {
      var i :| 0 <= i < |log + [e]| && (log + [e])[i].Show? && (log + [e])[i].step == k;
      assert i < |log| && log[i] == (log + [e])[i];
    }
  }

  lemma InitialInvariant(c: Config)
    ensures Invariant(c, Initial(c))
  {
  }

  lemma StartInvariant(c: Config)
    ensures Invariant(c, Start(c))
  {
  }

  lemma StepInvariant(c: Config, s: State)
    requires Invariant(c, s) && s.phase == Active
    ensures Invariant(c, Step(c, s))
  {
    var n := s.currentStep + 1;
    var t := Step(c, s);
    if n > c.itemCount {
      ShownAppend(s.log, End, c.itemCount);
    } else if n !in c.elements {
      ShownAppend(s.log, Warn(n), c.itemCount);
      ShownAppend(s.log + [Warn(n)], End, c.itemCount);
      assert t.log == s.log + [Warn(n)] + [End];
    } else {
      ShownAppend(s.log, t.log[|s.log|], c.itemCount);
      assert forall i :: 1 <= i <= n ==> i in c.elements by {
        forall i | 1 <= i <= n ensures i in c.elements {
          if i < n { assert 1 <= i <= s.currentStep; }
        }
      }
      assert t.highlighted == {n};
    }
  }

  lemma NextInvariant(c: Config, s: State)
    requires Invariant(c, s)
    ensures Invariant(c, Next(c, s))
  {
    if s.phase == Active {
      StepInvariant(c, s);
    }
  }

  lemma BackInvariant(c: Config, s: State)
    requires Invariant(c, s)
    ensures Invariant(c, Back(c, s))
  {
    if s.phase == Active && s.currentStep != 1 {
      var n := s.currentStep - 1;
      var t := Back(c, s);
      assert 1 <= n <= s.currentStep;
      assert n in c.elements;
      assert n != c.itemCount;
      ShownAppend(s.log, t.log[|s.log|], c.itemCount);
      assert t.highlighted == {n};
    }
  }

  lemma CloseInvariant(c: Config, s: State)
    requires Invariant(c, s)
    ensures Invariant(c, Close(s))
  {
    if s.phase == Active {
      ShownAppend(s.log, End, c.itemCount);
    }
  }
}
