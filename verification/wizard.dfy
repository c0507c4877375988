/** The four-step flow Model, Battery, Extras, Summary: the Back and Next
    buttons, the `canProceed` gate, and the selection handlers of the cards.
    The 150 ms transition delay of `handleStepChange` is collapsed: a click
    changes the step at once. */
module Wizard {
  import opened Wrappers
  import opened Catalog
  import opened AddonList
  import opened Configuration

  const firstStep := 1
  const lastStep := 4

  function Max(a: int, b: int): int { if a >= b then a else b }
  function Min(a: int, b: int): int { if a <= b then a else b }

  predicate ValidStep(step: int) { firstStep <= step <= lastStep }

  /** `canProceed`: step 1 needs a model, step 2 a battery, later steps nothing. */
  function CanProceed(sel: Selection): (r: bool)
    ensures sel.step == 1 ==> (r <==> sel.model.Some?)
    ensures sel.step == 2 ==> (r <==> sel.battery.Some?)
    ensures sel.step != 1 && sel.step != 2 ==> r
  {
    if sel.step == 1 then sel.model.Some?
    else if sel.step == 2 then sel.battery.Some?
    else true
  }

  /** The Back button is disabled on the first step. */
  predicate BackEnabled(sel: Selection) { sel.step != firstStep }

  /** The Next button is rendered only before the last step and is disabled
      while `canProceed` is false. */
  predicate NextEnabled(sel: Selection) { sel.step < lastStep && CanProceed(sel) }

  /** A click on Back: `max(1, step - 1)` when enabled, nothing otherwise.
      Only the step changes. */
  function Back(sel: Selection): (r: Selection)
    ensures r == sel.(step := r.step)
    ensures ValidStep(sel.step) ==> ValidStep(r.step)
    ensures ValidStep(sel.step) && sel.step > firstStep ==> r.step == sel.step - 1
    ensures sel.step == firstStep ==> r == sel
  {
    if BackEnabled(sel) then sel.(step := Max(firstStep, sel.step - 1)) else sel
  }

  /** A click on Next: `min(4, step + 1)` when the button is there and enabled,
      nothing otherwise. Only the step changes. */
  function Next(sel: Selection): (r: Selection)
    ensures r == sel.(step := r.step)
    ensures ValidStep(sel.step) ==> ValidStep(r.step)
    ensures ValidStep(sel.step) && NextEnabled(sel) ==> r.step == sel.step + 1
    ensures !NextEnabled(sel) ==> r == sel
  {
    if NextEnabled(sel) then sel.(step := Min(lastStep, sel.step + 1)) else sel
  }

  /** What a visitor can do on the page. */
  datatype Event =
    | PickModel(model: AtvModel)
    | PickColor(color: VehicleColor)
    | PickBattery(battery: BatteryOption)
    | ToggleAddon(id: AddonId)
    | ClickBack
    | ClickNext

  /** The cards only ever offer catalogue entries and catalogue add-on ids. */
  predicate Offered(e: Event) {
    match e
    case PickModel(m) => m in atvModels
    case PickColor(c) => c in vehicleColors
    case PickBattery(b) => b in batteryOptions
    case ToggleAddon(id) => exists i :: 0 <= i < |addons| && addons[i].id == id
    case _ => true
  }

  /** One event. Picks replace the field outright; toggles use `toggleAddon`. */
  function Apply(sel: Selection, e: Event): (r: Selection)
    ensures e.PickModel? ==> r.model == Some(e.model) && r == sel.(model := r.model)
    ensures e.PickColor? ==> r.color == e.color && r == sel.(color := r.color)
    ensures e.PickBattery? ==> r.battery == Some(e.battery) && r == sel.(battery := r.battery)
    ensures e.ToggleAddon? ==> (e.id in r.addons <==> e.id !in sel.addons) && r == sel.(addons := r.addons)
    ensures e.ToggleAddon? ==> r.addons == Toggle(sel.addons, e.id)
                               && forall y :: y != e.id ==> (y in r.addons <==> y in sel.addons)
    ensures e.ClickBack? || e.ClickNext? ==> r == sel.(step := r.step)
    ensures e.ClickBack? ==> r == Back(sel)
    ensures e.ClickNext? ==> r == Next(sel)
  {
    match e
    case PickModel(m) => sel.(model := Some(m))
    case PickColor(c) => sel.(color := c)
    case PickBattery(b) => sel.(battery := Some(b))
    case ToggleAddon(id) => sel.(addons := Toggle(sel.addons, id))
    case ClickBack => Back(sel)
    case ClickNext => Next(sel)
  }

  /** A session: the events applied in order. */
  function Run(sel: Selection, events: seq<Event>): Selection
    decreases |events|
  {
    if |events| == 0 then sel else Run(Apply(sel, events[0]), events[1..])
  }

  /** What holds of every state the page can reach: the step is in range, model,
      colour and battery are catalogue entries, and the add-on list holds only
      catalogue ids, each at most once. */
  predicate Reachable(sel: Selection) {
    && ValidStep(sel.step)
    && sel.model.Some? && sel.model.value in atvModels
    && sel.color in vehicleColors
    && sel.battery.Some? && sel.battery.value in batteryOptions
    && NoDup(sel.addons)
    && forall k :: 0 <= k < |sel.addons| ==> FindAddon(addons, sel.addons[k]).Some?
  }

  lemma InitialReachable()
    ensures Reachable(initialSelection)
  {
  }

  /** Every offered event keeps the state reachable. */
  lemma ApplyPreservesReachable(sel: Selection, e: Event)
    requires Reachable(sel) && Offered(e)
    ensures Reachable(Apply(sel, e))
  {
    if e.ToggleAddon? {
      ToggleKeepsNoDup(sel.addons, e.id);
      var r := Toggle(sel.addons, e.id);
      forall k | 0 <= k < |r| ensures FindAddon(addons, r[k]).Some? {
        if r[k] != e.id {
          assert r[k] in sel.addons;
          var j :| 0 <= j < |sel.addons| && sel.addons[j] == r[k];
        } else {
          var i :| 0 <= i < |addons| && addons[i].id == e.id;
        }
      }
    }
  }

  /** Any session of offered events, from a reachable state, ends reachable. */
  lemma {:induction false} RunPreservesReachable(sel: Selection, events: seq<Event>)
    requires Reachable(sel)
    requires forall k :: 0 <= k < |events| ==> Offered(events[k])
    ensures Reachable(Run(sel, events))
    decreases |events|
  {
    if |events| > 0 {
      ApplyPreservesReachable(sel, events[0]);
      RunPreservesReachable(Apply(sel, events[0]), events[1..]);
    }
  }

  /** In every reachable state `canProceed` is true, so Next is disabled only on
      the Summary step, where it is not rendered at all. */
  lemma ReachableCanProceed(sel: Selection)
    requires Reachable(sel)
    ensures CanProceed(sel)
    ensures NextEnabled(sel) <==> sel.step < lastStep
  {
  }

  /** From the start page, any session keeps the step between 1 and 4. */
  lemma SessionStepInRange(events: seq<Event>)
    requires forall k :: 0 <= k < |events| ==> Offered(events[k])
    ensures ValidStep(Run(initialSelection, events).step)
    ensures CanProceed(Run(initialSelection, events))
  {
    RunPreservesReachable(initialSelection, events);
  }

  /** The navigation example: with no model on step 1 Next does nothing; after
      picking a model it moves to step 2; Back from step 2 returns to step 1. */
  lemma ExampleNavigation()
    ensures Next(initialSelection.(model := None)) == initialSelection.(model := None)
    ensures Next(Apply(initialSelection.(model := None), PickModel(atvModels[1]))).step == 2
    ensures Back(initialSelection.(step := 2)).step == 1
  {
  }
}
