/** `MultiStepFilter` (js/mobile-components.js:909-1227): a wizard that
    walks through its steps (by default region, category, conditions),
    letting the user leave a step only once it is filled in, and reports
    the collected data after the last one. */
module StepFilter {
  import opened Wrappers

  /** An entry of `options.steps`. */
  datatype Step = Step(id: string, title: string)

  const DefaultSteps: seq<Step> := [Step("region", "지역"), Step("category", "업종"), Step("conditions", "조건")]

  /** `options.data`: what the user has chosen so far. */
  datatype FilterData = FilterData(region: Option<string>, mainCategory: Option<string>, subCategory: Option<string>)

  const NoData := FilterData(None, None, None)

  /** `validateCurrentStep`'s `switch`: the region step needs a region, the
      category step a main and a sub-category, the conditions step
      nothing; a step of any other id is never valid. */
  predicate StepValid(id: string, data: FilterData)
  {
    match id
    case "region" => Truthy(data.region)
    case "category" => Truthy(data.mainCategory) && Truthy(data.subCategory)
    case "conditions" => true
    case _ => false
  }

  /** The wizard's position and data. */
  datatype FilterState = FilterState(current: int, data: FilterData)

  /** What the user can do: press next or back, confirm a region in the
      embedded region selector, or pick a sub-category of a main one. */
  datatype Event = Next | Back | ChooseRegion(region: string) | ChooseCategory(main: string, sub: string)

  /** The effect of one event on the position and the data. */
  function Apply(steps: seq<Step>, s: FilterState, e: Event): (t: FilterState)
    requires 0 <= s.current < |steps|
    ensures 0 <= t.current < |steps|
    ensures e.Next? ==> (t.data == s.data &&
      t.current == (if StepValid(steps[s.current].id, s.data) && s.current < |steps| - 1 then s.current + 1 else s.current))
    ensures e.Back? ==> t.data == s.data && t.current == (if s.current > 0 then s.current - 1 else 0)
    ensures !e.Next? && !e.Back? ==> t.current == s.current
  {
    match e
    case Next =>
      if StepValid(steps[s.current].id, s.data) && s.current < |steps| - 1 then s.(current := s.current + 1) else s
    case Back =>
      if s.current > 0 then s.(current := s.current - 1) else s
    case ChooseRegion(r) =>
      s.(data := s.data.(region := Some(r)))
    case ChooseCategory(m, c) =>
      s.(data := s.data.(mainCategory := Some(m), subCategory := Some(c)))
  }

  /** A `Next` on the last step that reports the data to `onStepComplete`. */
  predicate Completes(steps: seq<Step>, s: FilterState, e: Event)
    requires 0 <= s.current < |steps|
  {
    e.Next? && s.current == |steps| - 1 && StepValid(steps[s.current].id, s.data)
  }

  function Run(steps: seq<Step>, s: FilterState, events: seq<Event>): (t: FilterState)
    requires 0 <= s.current < |steps|
    ensures 0 <= t.current < |steps|
    decreases |events|
  {
    if |events| == 0 then s else Run(steps, Apply(steps, s, events[0]), events[1..])
  }

  /** Every step behind the current one is filled in. */
  predicate Passed(steps: seq<Step>, s: FilterState)
  {
    forall j :: 0 <= j < s.current && j < |steps| ==> StepValid(steps[j].id, s.data)
  }

  /** The user's choices are non-empty, as those the grids offer are. */
  predicate ChoicesNonEmpty(events: seq<Event>)
  {
    forall i :: 0 <= i < |events| ==>
      (events[i].ChooseRegion? ==> events[i].region != "") &&
      (events[i].ChooseCategory? ==> events[i].main != "" && events[i].sub != "")
  }

  /** Choices only ever fill data in, so a step once valid stays valid. */
  lemma ChoiceKeepsValid(id: string, data: FilterData, e: Event, steps: seq<Step>, s: FilterState)
    requires 0 <= s.current < |steps| && s.data == data && StepValid(id, data)
    requires e.ChooseRegion? ==> e.region != ""
    requires e.ChooseCategory? ==> e.main != "" && e.sub != ""
    ensures StepValid(id, Apply(steps, s, e).data)
  {
  }

  /** No event sequence lets the wizard past a step that is not filled
      in. */
  lemma {:induction false} RunPassesOnlyValidSteps(steps: seq<Step>, s: FilterState, events: seq<Event>)
    requires 0 <= s.current < |steps| && Passed(steps, s) && ChoicesNonEmpty(events)
    ensures Passed(steps, Run(steps, s, events))
    decreases |events|
  {
    if |events| > 0 {
      var e := events[0];
      var t := Apply(steps, s, e);
      forall j | 0 <= j < t.current && j < |steps|
        ensures StepValid(steps[j].id, t.data)
      {
        if j < s.current {
          ChoiceKeepsValid(steps[j].id, s.data, e, steps, s);
        }
      }
      assert ChoicesNonEmpty(events[1..]) by {
        forall i | 0 <= i < |events[1..]|
          ensures (events[1..][i].ChooseRegion? ==> events[1..][i].region != "") &&
            (events[1..][i].ChooseCategory? ==> events[1..][i].main != "" && events[1..][i].sub != "")
        {
          assert events[1..][i] == events[i + 1];
        }
      }
      RunPassesOnlyValidSteps(steps, t, events[1..]);
    }
  }

  /** On the default steps, the data reported at completion names a region
      and a main and a sub-category, whatever the user did before. */
  lemma DefaultCompletionHasChoices(events: seq<Event>, e: Event)
    requires ChoicesNonEmpty(events)
    requires Completes(DefaultSteps, Run(DefaultSteps, FilterState(0, NoData), events), e)
    ensures var d := Run(DefaultSteps, FilterState(0, NoData), events).data;
      Truthy(d.region) && Truthy(d.mainCategory) && Truthy(d.subCategory)
  {
    RunPassesOnlyValidSteps(DefaultSteps, FilterState(0, NoData), events);
    var t := Run(DefaultSteps, FilterState(0, NoData), events);
    assert StepValid(DefaultSteps[0].id, t.data) && StepValid(DefaultSteps[1].id, t.data);
  }

  /** A step whose id is none of the three known ones can never be left
      forwards. */
  lemma UnknownStepBlocks(steps: seq<Step>, s: FilterState)
    requires 0 <= s.current < |steps| && steps[s.current].id !in {"region", "category", "conditions"}
    ensures Apply(steps, s, Next) == s && !Completes(steps, s, Next)
  {
  }

  /** The progress bar's marking of a step. */
  datatype Mark = Completed | Current | Upcoming

  function MarkFor(index: int, current: int): (m: Mark)
    ensures m == Current <==> index == current
    ensures m == Completed <==> index < current
  {
    if index < current then Completed else if index == current then Current else Upcoming
  }

  /** The next button's caption, as `updateButtons` sets it. */
  function NextCaption(current: int, count: int): (c: string)
    ensures c == "검색하기" <==> current == count - 1
    ensures c == "다음" <==> current != count - 1
  {
    if current == count - 1 then "검색하기" else "다음"
  }

  class MultiStepFilter {
    const steps: seq<Step>
    /** Whether `onStepComplete` / `onBack` callbacks were given. */
    const notifiesComplete: bool
    const notifiesBack: bool
    var currentStep: int
    var data: FilterData
    var rendered: bool
    /** The progress bar: one mark per step, one connector between each
        two steps (`true` when completed). */
    var progress: array<Mark>
    var connectors: array<bool>
    var backDisabled: bool
    var nextDisabled: bool
    var nextCaption: string

    function State(): FilterState
      reads this
    {
      FilterState(currentStep, data)
    }

    /** The position is a step of the wizard and, once rendered, the
        progress bar and the buttons show it. */
    predicate Valid()
      reads this, progress, connectors
    {
      0 <= currentStep < |steps| &&
      (rendered ==>
        progress.Length == |steps| && connectors.Length == |steps| - 1 &&
        (forall i :: 0 <= i < progress.Length ==> progress[i] == MarkFor(i, currentStep)) &&
        (forall i :: 0 <= i < connectors.Length ==> connectors[i] == (i < currentStep)) &&
        backDisabled == (currentStep == 0) && nextCaption == NextCaption(currentStep, |steps|))
    }

    /** The constructor; a start outside the steps makes every later call
        throw, so it is excluded. */
    constructor(steps: seq<Step>, currentStep: int, data: FilterData, notifiesComplete: bool, notifiesBack: bool)
      requires 0 <= currentStep < |steps|
      ensures this.steps == steps && this.currentStep == currentStep && this.data == data
      ensures this.notifiesComplete == notifiesComplete && this.notifiesBack == notifiesBack
      ensures !rendered && Valid()
    {
      this.steps := steps;
      this.currentStep := currentStep;
      this.data := data;
      this.notifiesComplete := notifiesComplete;
      this.notifiesBack := notifiesBack;
      rendered := false;
      progress := new Mark[0];
      connectors := new bool[0];
      backDisabled := false;
      nextDisabled := false;
      nextCaption := "";
    }

    /** `updateProgressBar()`: remarks every step and connector for the
        current position. */
    method UpdateProgressBar()
      modifies progress, connectors
      ensures forall i :: 0 <= i < progress.Length ==> progress[i] == MarkFor(i, currentStep)
      ensures forall i :: 0 <= i < connectors.Length ==> connectors[i] == (i < currentStep)
    {
      for i := 0 to progress.Length
        invariant forall k :: 0 <= k < i ==> progress[k] == MarkFor(k, currentStep)
        modifies progress
      {
        progress[i] := MarkFor(i, currentStep);
      }
      for i := 0 to connectors.Length
        invariant forall k :: 0 <= k < i ==> connectors[k] == (k < currentStep)
        invariant forall k :: 0 <= k < progress.Length ==> progress[k] == MarkFor(k, currentStep)
        modifies connectors
      {
        connectors[i] := i < currentStep;
      }
    }

    /** `renderCurrentStep()`: before `render` there is no content element
        and nothing happens; afterwards the progress bar and the buttons
        follow the position. */
    method RenderCurrentStep()
      requires 0 <= currentStep < |steps|
      requires rendered ==> progress.Length == |steps| && connectors.Length == |steps| - 1
      modifies this, progress, connectors
      ensures Valid() && rendered == old(rendered) && State() == old(State()) && nextDisabled == old(nextDisabled)
      ensures progress == old(progress) && connectors == old(connectors)
      ensures rendered ==> forall i :: 0 <= i < progress.Length ==> progress[i] == MarkFor(i, currentStep)
      ensures rendered ==> backDisabled == (currentStep == 0) && nextCaption == NextCaption(currentStep, |steps|)
      ensures !rendered ==> unchanged(this, progress, connectors)
    {
      if !rendered {
        return;
      }
      UpdateProgressBar();
      backDisabled := currentStep == 0;
      nextCaption := NextCaption(currentStep, |steps|);
    }

    /** `render()`: builds the progress bar and the buttons, then renders
        the current step. The next button starts enabled. */
    method Render()
      requires Valid()
      modifies this
      ensures Valid() && rendered && fresh(progress) && fresh(connectors)
      ensures State() == old(State()) && !nextDisabled
    {
      progress := new Mark[|steps|];
      connectors := new bool[|steps| - 1];
      rendered := true;
      nextDisabled := false;
      RenderCurrentStep();
    }

    /** `validateCurrentStep()`: whether the current step is filled in;
        the next button is disabled exactly when it is not. */
    method ValidateCurrentStep() returns (isValid: bool)
      requires Valid() && rendered
      modifies this
      ensures State() == old(State()) && Valid() && rendered
      ensures isValid == StepValid(steps[currentStep].id, data)
      ensures nextDisabled == !isValid
      ensures progress == old(progress) && connectors == old(connectors)
    {
      var id := steps[currentStep].id;
      isValid := false;
      if id == "region" {
        isValid := Truthy(data.region);
      } else if id == "category" {
        isValid := Truthy(data.mainCategory) && Truthy(data.subCategory);
      } else if id == "conditions" {
        isValid := true;
      }
      nextDisabled := !isValid;
    }

    /** `goNext()`: nothing moves unless the current step is filled in;
        then the wizard advances, or on the last step reports the data to
        `onStepComplete` when one was given. */
    method GoNext() returns (completed: Option<FilterData>)
      requires Valid() && rendered
      modifies this, progress, connectors
      ensures Valid() && rendered && progress == old(progress) && connectors == old(connectors)
      ensures State() == Apply(steps, old(State()), Next)
      ensures completed.Some? <==> Completes(steps, old(State()), Next) && notifiesComplete
      ensures completed.Some? ==> completed == Some(data)
      ensures nextDisabled == !StepValid(steps[old(currentStep)].id, data)
    {
      completed := None;
      var valid := ValidateCurrentStep();
      if !valid {
        return;
      }
      if currentStep < |steps| - 1 {
        currentStep := currentStep + 1;
        RenderCurrentStep();
      } else if notifiesComplete {
        completed := Some(data);
      }
    }

    /** `goBack()`: steps back, or on the first step calls `onBack` when
        one was given (`calledBack`). */
    method GoBack() returns (calledBack: bool)
      requires Valid()
      modifies this, progress, connectors
      ensures Valid() && rendered == old(rendered) && progress == old(progress) && connectors == old(connectors)
      ensures State() == Apply(steps, old(State()), Back)
      ensures calledBack <==> old(currentStep) == 0 && notifiesBack
      ensures nextDisabled == old(nextDisabled)
    {
      calledBack := false;
      if currentStep > 0 {
        currentStep := currentStep - 1;
        RenderCurrentStep();
      } else if notifiesBack {
        calledBack := true;
      }
    }

    /** The embedded region selector's `onRegionSelect`: records the
        region and revalidates. */
    method ChooseRegion(region: string)
      requires Valid() && rendered
      modifies this
      ensures State() == Apply(steps, old(State()), Event.ChooseRegion(region))
      ensures Valid() && rendered && progress == old(progress) && connectors == old(connectors)
      ensures nextDisabled == !StepValid(steps[currentStep].id, data)
    {
      data := data.(region := Some(region));
      var _ := ValidateCurrentStep();
    }

    /** A sub-category button's click: records the main and the
        sub-category and revalidates. */
    method ChooseCategory(main: string, sub: string)
      requires Valid() && rendered
      modifies this
      ensures State() == Apply(steps, old(State()), Event.ChooseCategory(main, sub))
      ensures Valid() && rendered && progress == old(progress) && connectors == old(connectors)
      ensures nextDisabled == !StepValid(steps[currentStep].id, data)
    {
      data := data.(mainCategory := Some(main), subCategory := Some(sub));
      var _ := ValidateCurrentStep();
    }
  }
}
