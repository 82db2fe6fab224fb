/** What a whole tour does: any sequence of clicks after `walkthrough` starts
    keeps the invariant, and the properties the controller promises follow. */
module TourProperties {
  import opened Layout
  import opened TourState

  /** The three controls whose click handlers the callout carries. Whether
      the back button is hidden or the close label emptied does not gate them
      here, so runs include clicks a user could not make on the last step. */
  datatype Click = ClickNext | ClickBack | ClickClose

  /** The click handler for `k`. */
  function Apply(c: Config, s: State, k: Click): (t: State)
    requires Invariant(c, s)
    ensures Invariant(c, t)
  {
    match k
    case ClickNext => NextInvariant(c, s); Next(c, s)
    case ClickBack => BackInvariant(c, s); Back(c, s)
    case ClickClose => CloseInvariant(c, s); Close(s)
  }

  /** The state after `walkthrough(itemCount)` and then the given clicks. */
  function Run(c: Config, clicks: seq<Click>): (s: State)
    ensures Invariant(c, s)
    decreases |clicks|
  {
    if clicks == [] then
      StartInvariant(c);
      Start(c)
    else
      Apply(c, Run(c, clicks[..|clicks| - 1]), clicks[|clicks| - 1])
  }

  /** In every reachable state at most one element is highlighted; while the
      tour is active it is exactly the current step's, and the current step
      lies between 1 and `max(1, itemCount)`. */
  lemma HighlightAndBounds(c: Config, clicks: seq<Click>)
    ensures var s := Run(c, clicks);
            && |s.highlighted| <= 1
            && (s.phase == Active ==>
                  && s.highlighted == {s.currentStep}
                  && 1 <= s.currentStep <= Max(1, c.itemCount)
                  && s.position == Some(Placement(c.elements[s.currentStep].rect)))
  {
  }

  /** A missing element is never shown: no callout is ever placed for an index
      that has no element, nor for one beyond `max(1, itemCount)`. */
  lemma MissingNeverShown(c: Config, clicks: seq<Click>, k: int)
    requires k !in c.elements || k > Max(1, c.itemCount)
    ensures !Shown(Run(c, clicks).log, k)
  {
  }

  /** A whole run warns at most once, and never while the tour can still go
      on: each warning is followed by the end of the tour. */
  lemma SingleWarning(c: Config, clicks: seq<Click>)
    ensures var log := Run(c, clicks).log;
            && (forall i, j :: 0 <= i < j < |log| && log[i].Warn? ==> !log[j].Warn?)
            && (Run(c, clicks).phase != Ended ==> forall i :: 0 <= i < |log| ==> !log[i].Warn?)
  {
  }

  /** The last-step buttons appear exactly when the tour has gone forward onto
      step `itemCount` (which takes at least two steps), and stay once set. */
  lemma LastControlsExactly(c: Config, clicks: seq<Click>)
    ensures var s := Run(c, clicks);
            && (s.controls == StartControls || s.controls == LastControls)
            && (s.controls == LastControls <==> 2 <= c.itemCount && Shown(s.log, c.itemCount))
  {
  }

  /** Close ends the tour from any active step; the tour then ignores every
      click, so a second close adds no second `End`. */
  lemma CloseEndsForGood(c: Config, s: State)
    requires Invariant(c, s)
    ensures var t := Close(s);
            && t.phase != Active
            && Next(c, t) == t && Back(c, t) == t && Close(t) == t
            && multiset(t.log)[End] <= 1
  {
  }

  /** Going forward and straight back returns to the same step and shows it
      again, with its placement computed afresh from its element. */
  lemma NextThenBack(c: Config, s: State)
    requires Invariant(c, s) && s.phase == Active
    requires Next(c, s).phase == Active
    ensures var t := Back(c, Next(c, s));
            && t.phase == Active
            && t.currentStep == s.currentStep
            && t.highlighted == s.highlighted
            && t.position == s.position
            && |t.log| == |s.log| + 2
            && t.log[|t.log| - 1].Show? && t.log[|t.log| - 1].step == s.currentStep
            && t.log[|t.log| - 1].at == Placement(c.elements[s.currentStep].rect)
  {
  }

  /** `k` clicks on next. */
  function Forward(c: Config, s: State, k: nat): State
  {
    if k == 0 then s else Next(c, Forward(c, s, k - 1))
  }

  /** With elements for every index 1..itemCount, `k < itemCount` clicks on
      next after the start show steps 1..k+1 in order, each placed next to its
      own element, and keep the start buttons until the last step. */
  lemma {:induction false} ForwardPrefix(c: Config, k: nat)
    requires k < c.itemCount
    requires forall i :: 1 <= i <= c.itemCount ==> i in c.elements
    ensures var s := Forward(c, Start(c), k);
            && s.phase == Active
            && s.currentStep == k + 1
            && s.highlighted == {k + 1}
            && |s.log| == k + 1
            && (forall j :: 0 <= j <= k ==>
                  s.log[j].Show? && s.log[j].step == j + 1 && s.log[j].at == Placement(c.elements[j + 1].rect))
            && (s.controls == LastControls <==> 2 <= c.itemCount == k + 1)
  {
    if k > 0 {
      ForwardPrefix(c, k - 1);
      var p := Forward(c, Start(c), k - 1);
      var s := Next(c, p);
      assert s == Forward(c, Start(c), k);
      assert s.log == p.log + [s.log[k]];
      forall j | 0 <= j <= k
        ensures s.log[j].Show? && s.log[j].step == j + 1 && s.log[j].at == Placement(c.elements[j + 1].rect)
      {
        if j < k { assert s.log[j] == p.log[j]; }
      }
    }
  }

  /** A complete tour: with elements for every index 1..itemCount, the start
      followed by `itemCount - 1` clicks on next reaches the last step with the
      last-step buttons (when there is more than one step); one more click
      ends the tour with exactly one `End` and no warning. */
  lemma CompleteTour(c: Config)
    requires 1 <= c.itemCount
    requires forall i :: 1 <= i <= c.itemCount ==> i in c.elements
    ensures var last := Forward(c, Start(c), c.itemCount - 1);
            && last.phase == Active
            && last.currentStep == c.itemCount
            && (2 <= c.itemCount ==> last.controls == LastControls)
            && var done := Next(c, last);
               && done.phase == Ended
               && done.log == last.log + [End]
               && multiset(done.log)[End] == 1
               && (forall j :: 0 <= j < |done.log| ==> !done.log[j].Warn?)
  {
    ForwardPrefix(c, c.itemCount - 1);
    FinalClick(c, Forward(c, Start(c), c.itemCount - 1));
  }

  /** The next click on the last step of a tour that has only shown steps
      ends it with its one `End` and no warning. */
  lemma FinalClick(c: Config, last: State)
    requires last.phase == Active && last.currentStep == c.itemCount
    requires forall j :: 0 <= j < |last.log| ==> last.log[j].Show?
    ensures var done := Next(c, last);
            && done.phase == Ended
            && done.log == last.log + [End]
            && multiset(done.log)[End] == 1
            && (forall j :: 0 <= j < |done.log| ==> !done.log[j].Warn?)
  {
    var done := Next(c, last);
    assert End !in multiset(last.log);
    forall j | 0 <= j < |done.log| ensures !done.log[j].Warn? {
      if j < |last.log| { assert done.log[j] == last.log[j]; }
    }
  }

  /** The four-step tour over elements described "A" to "D". */
  function FourSteps(r1: Rect, r2: Rect, r3: Rect, r4: Rect): Config
  {
    Config(4, map[1 := Element(Some("A"), r1), 2 := Element(Some("B"), r2),
                  3 := Element(Some("C"), r3), 4 := Element(Some("D"), r4)])
  }

  lemma FourStepScenario(r1: Rect, r2: Rect, r3: Rect, r4: Rect)
    ensures var c := FourSteps(r1, r2, r3, r4);
            var s := Next(c, Next(c, Next(c, Start(c))));
            && s.log == [Show(1, "A", Placement(r1)), Show(2, "B", Placement(r2)),
                         Show(3, "C", Placement(r3)), Show(4, "D", Placement(r4))]
            && s.controls == LastControls
            && Next(c, s).phase == Ended
            && Next(c, s).log == s.log + [End]
  {
  }

  /** A tour with no element for index 2: the first next click warns about
      step 2 and ends the tour, whatever comes after. */
  lemma GapScenario(r1: Rect, r3: Rect, r4: Rect)
    ensures var c := Config(3, map[1 := Element(Some("A"), r1), 3 := Element(Some("C"), r3),
                                   4 := Element(Some("D"), r4)]);
            var s := Next(c, Start(c));
            && s.phase == Ended
            && s.log == [Show(1, "A", Placement(r1)), Warn(2), End]
  {
  }
}
