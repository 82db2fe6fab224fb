/** The `walkthrough(itemCount)` closure as an object: its two variables
    `currentStep` and `$focusedElement`, and the page state its functions
    change, become fields; `_init`, `nextFeature`, `removeWalkthrough`, `step`
    and the three click handlers become methods. Each method is proved to do
    what the matching function of `TourState` says. The constructor
    establishes `Valid()` (`TourState.Invariant` of the fields), and `Init`,
    `Step` and the handlers keep it; `NextFeature` and `RemoveWalkthrough` are
    internal steps of those and keep it only as part of them. */
module FeatureWalkthrough {
  import opened Layout
  import opened TourState

  class Walkthrough {
    const itemCount: int
    const elements: map<int, Element>  // the page's `js__walkthrough{i}` elements

    var phase: Phase
    var currentStep: int
    var focused: Option<Element>
    var highlighted: set<int>
    var content: string
    var position: Option<Position>
    var nextLabel: string
    var closeLabel: string
    var backHidden: bool
    var log: seq<Event>

    function Cfg(): Config
    {
      Config(itemCount, elements)
    }

    /** The object's fields as a `TourState.State` value. */
    function AsState(): State
      reads this
    {
      State(phase, currentStep, focused, highlighted, content, position,
            Controls(nextLabel, closeLabel, backHidden), log)
    }

    ghost predicate Valid()
      reads this
    {
      Invariant(Cfg(), AsState())
    }

    /** The closure's variables: step 1, focused on the first element. */
    constructor (itemCount: int, elements: map<int, Element>)
      ensures Cfg() == Config(itemCount, elements)
      ensures AsState() == Initial(Cfg()) && Valid()
    {
      this.itemCount := itemCount;
      this.elements := elements;
      phase := Inactive;
      currentStep := 1;
      focused := if 1 in elements then Some(elements[1]) else None;
      highlighted := {};
      content := "";
      position := None;
      nextLabel, closeLabel, backHidden := StartControls.nextLabel, StartControls.closeLabel, StartControls.backHidden;
      log := [];
      new;
      InitialInvariant(Cfg());
    }

    /** `_init`: warn and stop when there is no first element; otherwise
        highlight it, put up the callout with its text and place it. */
    method Init()
      requires Valid() && phase == Inactive
      modifies this
      ensures Valid() && AsState() == Start(Cfg())
      ensures old(focused).None? ==> phase == Ended && log == [Warn(1)]
      ensures old(focused).Some? ==> phase == Active && highlighted == {1} && currentStep == 1
    {
      ghost var after := Start(Cfg());
      StartInvariant(Cfg());
      if focused.None? {
        log := log + [Warn(currentStep)];
        phase := Ended;
        assert AsState() == after;
        return;
      }
      var e := focused.value;
      var text := if e.description.Some? then e.description.value else UndefinedText;
      var at := Placement(e.rect);
      highlighted := highlighted + {currentStep};
      content := text;
      phase := Active;
      position := Some(at);
      log := log + [Show(currentStep, text, at)];
      assert AsState() == after;
    }

    /** `nextFeature(back)`. */
    method NextFeature(back: bool)
      requires focused.Some?
      modifies this
      ensures AsState() == TourState.NextFeature(Cfg(), old(AsState()), back)
    {
      var e := focused.value;
      var text := if e.description.Some? then e.description.value else content;
      var at := Placement(e.rect);
      if itemCount == currentStep {
        nextLabel, closeLabel, backHidden := LastControls.nextLabel, LastControls.closeLabel, LastControls.backHidden;
      }
      var previous := if back then currentStep + 1 else currentStep - 1;
      highlighted := highlighted - {previous};
      highlighted := highlighted + {currentStep};
      content := text;
      position := Some(at);
      log := log + [Show(currentStep, text, at)];
    }

    /** `removeWalkthrough`. */
    method RemoveWalkthrough()
      modifies this
      ensures AsState() == TourState.RemoveWalkthrough(old(AsState()))
    {
      phase := Ended;
      log := log + [End];
    }

    /** `step()`. */
    method Step()
      requires Valid() && phase == Active
      modifies this
      ensures Valid() && AsState() == TourState.Step(Cfg(), old(AsState()))
      ensures currentStep == old(currentStep) + 1
    {
      ghost var before := AsState();
      ghost var after := TourState.Step(Cfg(), before);
      StepInvariant(Cfg(), before);
      currentStep := currentStep + 1;
      focused := if currentStep in elements then Some(elements[currentStep]) else None;
      assert AsState() == before.(currentStep := currentStep, focused := Lookup(Cfg(), currentStep));
      if currentStep > itemCount {
        RemoveWalkthrough();
        assert AsState() == after;
        return;
      }
      if focused.None? {
        log := log + [Warn(currentStep)];
        RemoveWalkthrough();
        assert AsState() == after;
        return;
      }
      NextFeature(false);
      assert AsState() == after;
    }

    /** The next button's click handler. */
    method OnNext()
      requires Valid()
      modifies this
      ensures Valid() && AsState() == Next(Cfg(), old(AsState()))
    {
      if phase == Active {
        Step();
      }
    }

    /** The back button's click handler. */
    method OnBack()
      requires Valid()
      modifies this
      ensures Valid() && AsState() == Back(Cfg(), old(AsState()))
      ensures old(currentStep) == 1 ==> AsState() == old(AsState())
    {
      if phase != Active {
        return;
      }
      if currentStep == 1 {
        return;
      }
      ghost var before := AsState();
      ghost var after := Back(Cfg(), before);
      BackInvariant(Cfg(), before);
      currentStep := currentStep - 1;
      focused := if currentStep in elements then Some(elements[currentStep]) else None;
      assert AsState() == before.(currentStep := currentStep, focused := Lookup(Cfg(), currentStep));
      NextFeature(true);
      assert AsState() == after;
    }

    /** The close control's click handler. */
    method OnClose()
      requires Valid()
      modifies this
      ensures Valid() && AsState() == Close(old(AsState()))
    {
      CloseInvariant(Cfg(), AsState());
      if phase == Active {
        RemoveWalkthrough();
      }
    }
  }
}
