/**
 * The wizard's step list (src/components/WizardSteps.js): one button per step,
 * classified by whether the step is the current one, enabled, and complete.
 */
module WizardSteps {
  import opened Wrappers

  /** A `WizardStep`: a page key, its title, and the two flags. */
  datatype Step = Step(key: string, title: string, enabled: bool, complete: bool)

  /**
   * One rendered `<button>`: its React key, its label, its CSS classes, its
   * `disabled` attribute, and its click handler. `onClick == Some(k)` is the handler
   * that calls `goToPage(k)`; `None` is no handler.
   */
  datatype StepButton = StepButton(
    key: string, title: string, className: string, disabled: bool, onClick: Option<string>)

  const BaseClass := "wizard-step-button"
  const CurrentClass := "wizard-step-button wizard-step-button-current"
  const CompleteClass := "wizard-step-button wizard-step-button-complete"
  const DisabledClass := "wizard-step-button wizard-step-button-disabled"

  /** `new WizardStep(key, title)`: the flags take their default values. */
  function NewStep(key: string, title: string): (s: Step)
    ensures s.key == key && s.title == title
    ensures s.enabled && !s.complete
  {
    Step(key, title, true, false)
  }

  /**
   * The button for one step. The current step wins over everything else: it is
   * neither disabled nor clickable even when the step is not enabled. Otherwise an
   * enabled step is clickable (and marked complete iff it is), and a step that is
   * not enabled is disabled.
   */
  function Classify(step: Step, currentStep: string): (b: StepButton)
    ensures b.key == step.key && b.title == step.title
    ensures b.className == CurrentClass <==> step.key == currentStep
    ensures b.disabled <==> step.key != currentStep && !step.enabled
    ensures b.onClick.Some? <==> step.key != currentStep && step.enabled
    ensures b.onClick.Some? ==> b.onClick.value == step.key
    ensures b.onClick.Some? ==> (b.className == CompleteClass <==> step.complete)
    ensures b.onClick.Some? && !step.complete ==> b.className == BaseClass
    ensures b.disabled ==> b.className == DisabledClass
  {
    if currentStep == step.key then
      StepButton(step.key, step.title, CurrentClass, false, None)
    else if step.enabled then
      StepButton(step.key, step.title, if step.complete then CompleteClass else BaseClass, false, Some(step.key))
    else
      StepButton(step.key, step.title, DisabledClass, true, None)
  }

  /**
   * `WizardSteps.render`: the buttons, one per step in input order, or `None`
   * (the component renders null) when there are no steps.
   */
  method Render(steps: seq<Step>, currentStep: string) returns (links: Option<seq<StepButton>>)
    ensures links.None? <==> |steps| == 0
    ensures links.Some? ==> |links.value| == |steps|
    ensures links.Some? ==> forall i :: 0 <= i < |steps| ==> links.value[i] == Classify(steps[i], currentStep)
  {
    var pageLinks: seq<StepButton> := [];
    for i := 0 to |steps|
      invariant |pageLinks| == i
      invariant forall j :: 0 <= j < i ==> pageLinks[j] == Classify(steps[j], currentStep)
    {
      pageLinks := pageLinks + [Classify(steps[i], currentStep)];
    }
    if |pageLinks| > 0 {
      links := Some(pageLinks);
    } else {
      links := None;
    }
  }
}
