# Electric ATV configurator — a Dafny model

This project models the core of the ATV configurator page
(`src/app/configurator/page.tsx`). The page has four parts:

- **The build wizard.** The visitor picks a model, a body colour, a battery and
  any add-ons over four steps (Model, Battery, Extras, Summary). Back and Next
  buttons move between the steps, and `canProceed` gates Next. The price shown
  is recomputed from the selection by `calculateTotal`.
- **The model cache.** `loadATVModel` loads the vehicle mesh file once. A later
  caller gets a clone of the cached model. A caller that arrives while the load
  is still in flight waits on the same promise.
- **Material assignment and disposal.** `applyATVMaterials` classifies every
  mesh by its lower-cased name into body, rubber, chrome, seat or light, and
  gives it a matching material. `disposeATV` releases the geometries, and the
  materials that are not in the shared `materialCache`.
- **The 3D viewer.** When the selection changes, the load effect fetches a
  model instance. The new instance is added to the scene before the old one is
  removed and released. The page gets a "loading" notice and then a "done"
  notice. Dragging with the mouse or a finger turns the instance, and an
  animation loop turns it slowly until the first drag.

The modules follow that structure:

| file | module | models |
|---|---|---|
| `wrappers.dfy` | `Wrappers` | an `Option` type |
| `catalog.dfy` | `Catalog` | the four catalogue tables and their lookups |
| `addon_list.dfy` | `AddonList` | the selected add-on ids and `toggleAddon` |
| `configuration.dfy` | `Configuration` | the selection and `calculateTotal` |
| `wizard.dfy` | `Wizard` | step navigation, `canProceed` and the selection events |
| `classifier.dfy` | `Classifier` | the mesh-name classifier |
| `loader.dfy` | `Loader` | the single-flight model cache |
| `materials.dfy` | `Materials` | material assignment and `disposeATV` |
| `viewer.dfy` | `Viewer` | the viewer's effects, drag handlers and animation |

Asynchronous and external behaviour is turned into explicit events:

- The file load settles through `LoadSucceeded` or `LoadFailed`. In the viewer
  these are `LoadOk` and `LoadErr`.
- React's effect runs become `Mount`, `Unmount` and `SelectionEffect`.
- Mouse and touch input become `PointerDown`, `PointerMove` and `PointerUp`.
- The animation loop becomes `Frame`.

Numbers that the source keeps as JavaScript floats are Dafny `real`: metalness,
battery size, the scale factor and the rotation angle.

Behaviour of the code worth knowing before reading the model:

- **Failed loads.** The error callback of `loadATVModel` rejects the promise
  but leaves it in `modelLoadingPromise` (lines 62-65). Every later call
  awaits that same rejection (lines 21-23), so no second load is ever
  started, while the load effect's `catch` (lines 780-784) leaves the page
  usable as if a later selection could try again (see Findings).
- **Plastic parts.** `applyATVMaterials` builds a `plasticMaterial` (line 102)
  but never assigns it. Names containing "plastic" are classified as body
  (line 124).
- **Per-call materials.** `applyATVMaterials` creates new body, chrome, rubber
  and seat materials on every call, and a new light material for every light
  mesh. No mesh is given a `materialCache` entry (lines 357-459), so the
  cache check in `disposeATV` never spares anything
  (`Materials.DisposeReleasesAllApplied`).
- **Shared geometry.** Every instance is a `clone()` of the cached base model
  (lines 17, 23, 57), and cloning copies each mesh's geometry by reference.
  `disposeATV` releases every geometry it meets (line 716), so disposing the
  old instance releases geometry that the new instance and the cached base
  still hold (`Materials.DisposeReleasesSharedGeometry`).
- **Unmount guard.** The completion callback's comment (line 757) says the
  early return is for a component that was unmounted. Its test reads
  `sceneRef.current`, which cleanup never clears, and the `sceneReady`
  captured when the effect started, which was true; the branch cannot run
  (see Findings).
- **Battery changes.** The battery is among the load effect's dependencies, so
  choosing another battery reloads the model instance.
- **Auto-rotation.** No handler ever switches auto-rotation back on: the
  Play/Pause icons are imported but never used (`Viewer.RotationNeverResumes`).

## Model

| member | source | states |
|---|---|---|
| Catalog.CataloguesWellFormed | src/app/configurator/page.tsx:333-351 | the add-on ids are distinct, and no model, battery or add-on price is negative |
| Catalog.FindAddon | src/app/configurator/page.tsx:846-847 | the result is absent exactly when no entry has the id; otherwise it is the first entry with that id |
| Catalog.FindColor | src/app/configurator/page.tsx:749 | the result is absent exactly when no colour has that hex; otherwise it is the first catalogue colour with that hex |
| Catalog.ColorByHex | src/app/configurator/page.tsx:749 | the result is always a catalogue colour; it has the requested hex when one exists, and is otherwise the first colour (Volt Blue) |
| AddonList.Without | src/app/configurator/page.tsx:853 | the filter removes every occurrence of the id and keeps every other id with its multiplicity |
| AddonList.Toggle | src/app/configurator/page.tsx:852-854 | after a toggle the id is selected exactly when it was not before, no other id changes, and a new id goes at the end |
| AddonList.ToggleKeepsNoDup | src/app/configurator/page.tsx:852-854 | toggling never creates a duplicate id |
| AddonList.ToggleTwiceAbsent | src/app/configurator/page.tsx:852-854 | adding an id and toggling it off again restores the list exactly |
| AddonList.ToggleTwicePresent | src/app/configurator/page.tsx:852-854 | removing a selected id and toggling it back on gives the same ids, with that id moved to the end |
| AddonList.WithoutKeepsNoDup | src/app/configurator/page.tsx:853 | filtering a list with no duplicates leaves none |
| Configuration.CalculateTotal | src/app/configurator/page.tsx:842-850 | the total is the base price plus the battery price plus, for every catalogue add-on, its price times the number of times it is selected; unknown ids add nothing; the total is at least the base price |
| Configuration.Total | src/app/configurator/page.tsx:842-850 | the total is the base price plus the battery price plus the order-free catalogue sum of the selected add-ons |
| Configuration.AddonsPriceIsCatalogSum | src/app/configurator/page.tsx:845-848 | summing in list order gives the same result as the order-free catalogue sum |
| Configuration.AddonsPricePermutation | src/app/configurator/page.tsx:845-848 | the order of the selected ids never changes the total |
| Configuration.CatalogSumNonNegative | src/app/configurator/page.tsx:346-351 | with non-negative catalogue prices, the add-on part is never negative |
| Configuration.TotalLowerBound | src/app/configurator/page.tsx:842-850 | the total equals the catalogue reading and is never below the model's base price |
| Configuration.ToggleAbsentPrice | src/app/configurator/page.tsx:852-854 | adding an add-on raises the total by its catalogue price, and removing it again restores the total |
| Configuration.ToggleTwicePresentPrice | src/app/configurator/page.tsx:852-854 | removing a selected add-on and adding it back leaves the total unchanged |
| Configuration.ExampleTotals | src/app/configurator/page.tsx:834-850 | the initial build costs 8500; the extended battery makes it 11000; the fast charger makes it 11800; toggling the charger off returns to 11000 |
| Wizard.CanProceed | src/app/configurator/page.tsx:864 | step 1 needs a model, step 2 needs a battery, and later steps need nothing |
| Wizard.Apply | src/app/configurator/page.tsx:899-994 | each card click changes only its own choice: a model, colour or battery click selects that entry, and an add-on click is `toggleAddon`, flipping the membership of that id and keeping every other id's; Back and Next are exactly the two buttons' handlers and change only the step |
| Wizard.Back | src/app/configurator/page.tsx:1168-1170 | Back changes only the step: it goes down by one and stays in 1..4, and does nothing on step 1 |
| Wizard.Next | src/app/configurator/page.tsx:1182-1185 | Next changes only the step: it goes up by one and stays in 1..4 when enabled, and does nothing otherwise |
| Wizard.InitialReachable | src/app/configurator/page.tsx:833-837 | the initial state is a valid state |
| Wizard.ApplyPreservesReachable | src/app/configurator/page.tsx:852-854 | every card click and button click keeps the step in range, the choices in the catalogues, and the add-on ids known and unique |
| Wizard.RunPreservesReachable | src/app/configurator/page.tsx:833-854 | any session of clicks keeps the state valid |
| Wizard.ReachableCanProceed | src/app/configurator/page.tsx:864 | in every valid state `canProceed` holds, so Next is enabled exactly before the last step |
| Wizard.SessionStepInRange | src/app/configurator/page.tsx:1168-1185 | from the start page, any session keeps the step between 1 and 4 |
| Wizard.ExampleNavigation | src/app/configurator/page.tsx:1168-1185 | with no model, Next is inert on step 1; after a pick it moves to step 2; Back from step 2 returns to step 1 |
| Classifier.ToLower | src/app/configurator/page.tsx:121 | lower-casing keeps the length, turns every capital A-Z into its lower-case letter, and keeps every other character |
| Classifier.Classify | src/app/configurator/page.tsx:119-146 | a name containing "plastic" is body; a rubber name contains "tire" or "tyre", or both "wheel" and "rubber" |
| Classifier.RulesMatchGroups | src/app/configurator/page.tsx:124-133 | each row of the any-of-all-of rule table matches exactly when the corresponding keyword test of the source holds |
| Classifier.RubberRuleMatches | src/app/configurator/page.tsx:126 | the rubber row, read as "tire" or "tyre" or both "wheel" and "rubber", matches exactly when the source's rubber test holds |
| Classifier.ClassifyMatchesTable | src/app/configurator/page.tsx:119-146 | the if/else chain and a first-match rule table with a body default agree on every name |
| Classifier.ContainsIffOccurs | src/app/configurator/page.tsx:124 | the substring test holds exactly when the keyword occurs at some position |
| Classifier.MissingChar | src/app/configurator/page.tsx:124 | a keyword containing a character the name lacks is not contained in it |
| Classifier.ClassifyIgnoresCase | src/app/configurator/page.tsx:121 | the category does not depend on letter case |
| Classifier.WheelAloneIsBody | src/app/configurator/page.tsx:126 | "wheel" alone falls through every group to the body default |
| Classifier.WheelRubberIsRubber | src/app/configurator/page.tsx:126 | "wheel" together with "rubber" is rubber |
| Classifier.WheelRimIsChrome | src/app/configurator/page.tsx:126-128 | "wheel" with "rim" is chrome |
| Classifier.TireAloneIsRubber | src/app/configurator/page.tsx:126 | "tire" alone is rubber: the `&& rubber` qualifies only "wheel" |
| Classifier.TyreAloneIsRubber | src/app/configurator/page.tsx:126 | "rear_tyre_l" is rubber: "tyre" anywhere in the name is enough |
| Classifier.BodyKeywordWins | src/app/configurator/page.tsx:121-124 | every name holding a body keyword, in any case, is body, whatever later keywords it also holds |
| Classifier.BodyGroupWins | src/app/configurator/page.tsx:124-126 | examples of the body group winning: "plastic_cover" and "tire_body" are body |
| Classifier.ReachesChrome | src/app/configurator/page.tsx:124-128 | every name with no body or rubber keyword and a chrome keyword is chrome, whatever seat or light keywords it also holds |
| Classifier.ChromeBeforeSeat | src/app/configurator/page.tsx:128-130 | example of chrome winning over seat: "seat_metal_frame" is chrome |
| Classifier.LampIsLight | src/app/configurator/page.tsx:132 | "headlight" is light |
| Classifier.SaddleIsSeat | src/app/configurator/page.tsx:130 | "saddle" is seat |
| Classifier.NoGroupIsBody | src/app/configurator/page.tsx:124-143 | every name that no keyword group matches is body |
| Classifier.ReachesLight | src/app/configurator/page.tsx:124-132 | every name that only the light group matches is light |
| Classifier.UnknownIsBody | src/app/configurator/page.tsx:141-143 | example of the default: "mesh_001" holds no keyword and is body |
| Classifier.MixedCaseWheelRubber | src/app/configurator/page.tsx:121-126 | a name written "Wheel_Rubber" is lower-cased first and classified as rubber |
| Classifier.MixedCaseFrontTire | src/app/configurator/page.tsx:121-126 | a name written "FRONT_TIRE" is lower-cased first and classified as rubber |
| Classifier.MixedCaseWheel | src/app/configurator/page.tsx:121-143 | example: the name "Wheel" is lower-cased first and falls through every group to the body default |
| Loader.Lookup | src/app/configurator/page.tsx:14-27 | a cached model gives a clone; an in-flight load gains a waiter; a rejected promise answers at once with its error and a fulfilled one with a clone, changing nothing; with nothing cached or pending, exactly one new load starts and the caller waits on it |
| Loader.Succeed | src/app/configurator/page.tsx:56-57 | a successful load fills the cache, and every waiting caller gets a clone |
| Loader.Fail | src/app/configurator/page.tsx:62-65 | a failed load answers every waiter with the error; the source's policy keeps the rejected promise, and the corrected one drops it |
| Loader.AtMostOneLoadEver | src/app/configurator/page.tsx:11-70 | with the source's policy, no event sequence ever starts more than one load |
| Loader.EveryRequestAnswered | src/app/configurator/page.tsx:14-70 | every request is answered once: the replies plus the callers still waiting equal the requests made |
| Loader.CachedServesClones | src/app/configurator/page.tsx:16-18 | once the model is cached, nothing changes the cache and every reply is a clone of it |
| Loader.NoRetryAfterFailure | src/app/configurator/page.tsx:21-24 | after a failure, with the source's policy, the state never changes and every request gets the same error |
| Loader.FailureIsPermanent | src/app/configurator/page.tsx:62-65 | the sequence request, failure, request gives two errors and only one load |
| Loader.RetryAfterFailure | src/app/configurator/page.tsx:62-65 | with the corrected policy, the second request starts a second load, and its success answers that request with a clone |
| Loader.LoadsBoundedByFailures | src/app/configurator/page.tsx:27-65 | with the corrected policy, the number of loads started is at most the number of failures plus one |
| Loader.ConcurrentRequestsJoin | src/app/configurator/page.tsx:21-24 | while a load is in flight, any number of requests start nothing and all of them wait |
| Materials.SlotCategoryInverts | src/app/configurator/page.tsx:124-143 | each category's material slot maps back to that category |
| Materials.ApplyMaterials | src/app/configurator/page.tsx:119-146 | every mesh keeps its name and geometry and gets a material created by this call, chosen by the category of its name; other nodes are untouched |
| Materials.AppliedMaterialShowsCategory | src/app/configurator/page.tsx:119-146 | the category of every mesh can be read back from its material, and no mesh gets a shared cache entry |
| Materials.SharingFollowsCategory | src/app/configurator/page.tsx:78-143 | two meshes share a material exactly when they have the same category and it is not light |
| Materials.CachedMaterialsAreShared | src/app/configurator/page.tsx:710 | the skip set of `disposeATV` is exactly the `materialCache` entries |
| Materials.Keep | src/app/configurator/page.tsx:718-728 | a material is kept for release exactly when the mesh holds it and it is not in the cache |
| Materials.Dispose | src/app/configurator/page.tsx:708-734 | `disposeATV` never releases a material of the skip set, and releases at most one geometry per node; the lemmas below give the exact sets |
| Materials.DisposeReleasesGeometries | src/app/configurator/page.tsx:712-716 | every mesh geometry is released, and nothing else is |
| Materials.DisposeReleasesUncachedMaterials | src/app/configurator/page.tsx:717-730 | a material is released exactly when some mesh holds it and it is not a cache entry, so a cache entry is never released |
| Materials.DisposeReleasesAllApplied | src/app/configurator/page.tsx:708-734 | on an instance dressed by `applyATVMaterials`, every mesh's material is released |
| Materials.DisposeReleasesSharedGeometry | src/app/configurator/page.tsx:712-716 | two instances dressed from the same cached base hold the same geometries, and disposing one releases every geometry the other still holds |
| Viewer.Remove | src/app/configurator/page.tsx:773 | removal takes out the given instance and keeps all others |
| Viewer.StartLoad | src/app/configurator/page.tsx:737-749 | nothing happens without a scene, a model, readiness, or while a load is pending; otherwise the effect raises the loading flag, sends "loading" and records the instance on show, the style, the hex and the metalness looked up for that hex when the effect runs |
| Viewer.LookupMetalnessAgrees | src/app/configurator/page.tsx:749 | the metalness lookup gives the metalness of the first catalogue colour with the hex, or the fallback when none has it |
| Viewer.MetalnessIsColorByHex | src/app/configurator/page.tsx:749 | the effect's metalness is that of the selected colour, or of the first catalogue colour for an unknown hex |
| Viewer.Complete | src/app/configurator/page.tsx:751-779 | completion always clears the flag and sends "done"; when the guard fails, nothing else changes; when it passes, the new instance has the hex and metalness fixed when the load started, scale 0.75 for youth and 1 otherwise; the scene keeps the new instance and every earlier one except the instance on show when the load started, which is released; no other field changes |
| Viewer.CompleteKeepsInvariant | src/app/configurator/page.tsx:751-784 | a completing load, shown or dropped by the guard, keeps the viewer valid |
| Viewer.StartLoadKeepsInvariant | src/app/configurator/page.tsx:737-746 | starting a load, or declining to, keeps the viewer valid |
| Viewer.SettleEndsLoading | src/app/configurator/page.tsx:751-784 | every way a pending load settles clears the loading flag and sends "done", keeping the notices alternating; a rejection leaves the shown instance, the scene and the released set alone |
| Viewer.Drag | src/app/configurator/page.tsx:629-635 | while dragging, a move turns the shown instance by the distance times 0.008 and records the position, and changes nothing else, not even the instance's id, scale or colour; otherwise nothing changes |
| Viewer.InitialInvariant | src/app/configurator/page.tsx:476-485 | the viewer starts in a valid state |
| Viewer.Apply | src/app/configurator/page.tsx:620-704 | the setup effect sets the scene up once; cleanup only marks it not ready and never clears the scene; a press starts a drag at its position and stops auto-rotation; a release only ends the drag; a frame only turns the instance, leaving its id, scale and colour alone; a rejection only settles the load; before setup and after cleanup no handler or frame changes anything |
| Viewer.ApplyKeepsInvariant | src/app/configurator/page.tsx:737-785 | every event keeps the viewer valid: the scene holds exactly the shown instance, whose id was never passed to `disposeATV`; the flag is set exactly while a load is pending; the notices alternate |
| Viewer.RunKeepsInvariant | src/app/configurator/page.tsx:737-785 | any event sequence keeps the viewer valid |
| Viewer.SwapAddsBeforeRemoving | src/app/configurator/page.tsx:766-775 | a shown completion adds the new instance, then removes the old one, then settles the load; between the two steps the scene holds both; afterwards only the new one, and the old one is released |
| Viewer.SceneNeverEmptied | src/app/configurator/page.tsx:766-775 | once an instance is shown, no event leaves the viewer without a shown instance or with an empty scene |
| Viewer.SceneNeverEmptiedRun | src/app/configurator/page.tsx:737-785 | the same over any event sequence |
| Viewer.CapturedGuardAlwaysPasses | src/app/configurator/page.tsx:754-758 | the source's guard passes whenever a load is pending, so its early-return branch never runs |
| Viewer.LateCompletionAsWritten | src/app/configurator/page.tsx:754-775 | as written, a load that resolves after teardown still swaps a new instance into the discarded scene and releases the old one |
| Viewer.LateCompletionCorrected | src/app/configurator/page.tsx:754-758 | with the live readiness test, a load that resolves after teardown changes nothing but the flag and the notice |
| Viewer.GuardsAgreeWhileMounted | src/app/configurator/page.tsx:754 | while the viewer is mounted, the two guards give the same result |
| Viewer.StaleSelectionDropped | src/app/configurator/page.tsx:740-742 | a selection made during a load is ignored: the instance shown has the colour and scale of the selection that started the load |
| Viewer.DragTurnsByDistance | src/app/configurator/page.tsx:629-649 | a drag over any sequence of positions turns the instance by the total distance times 0.008 |
| Viewer.RotationNeverResumes | src/app/configurator/page.tsx:620-673 | once auto-rotation is off, no event turns it back on |
| Viewer.ReleaseDoesNotResume | src/app/configurator/page.tsx:620-628 | press then release leaves auto-rotation off and the drag ended |
| Viewer.FrameTurns | src/app/configurator/page.tsx:664-673 | a frame turns the instance by 0.004 exactly when auto-rotation is on and the viewer is set up |

## Left out

- Rendering: the three.js scene, camera, lights, floor, grid, shadows, the environment map and the renderer are not modelled. The scene is reduced to the ids of the model instances in it.
- Material appearance: colours, roughness, clearcoat and the other physical parameters are not modelled. A material is identified by the call that created it and its slot.
- The bounding-box centring and scale normalisation at lines 32-46 is not modelled. It is floating-point geometry, and a loaded model is an opaque asset here.
- The loader's progress logging and console error messages are not modelled.
- `handleStepChange`'s 150 ms `setTimeout` and the `isTransitioning` fade are collapsed: a click changes the step at once.
- Card clicks are accepted on every step. The page shows each card group only on its own step (lines 1136-1164), so the model allows a superset of the clicks the page offers.
- Viewer.Apply: a press stops auto-rotation at once. In the source the press calls `setIsRotating(false)` (lines 623 and 641), and the animation loop reads `isRotatingRef`, which the effect at lines 488-490 updates only after the next render, so a frame or two may still turn the model. That ref sync is collapsed.
- `AnimatedPrice` is not modelled. It only animates the displayed number towards `calculateTotal`'s value.
- The full-page loading overlay is not modelled. The model allows selection events during a load, which is a superset of what the overlay lets through.
- Re-running the setup effect on the same component is not modelled. `Mount` acts only once, and React's development double-invocation is left out.
- The window resize handler and `cancelAnimationFrame` are not modelled. Frames and pointer handlers simply stop acting once the viewer is torn down.
- The add-on `icon` field and the descriptive strings of the catalogues are not modelled. `power`, `topSpeed`, `capacity`, `range` and `chargeTime` are kept as plain strings.
- Classifier.ToLower: only the ASCII letters A-Z are lower-cased. JavaScript's `toLowerCase` also maps non-ASCII letters, and the keywords are all ASCII.
- Viewer.RunKeepsInvariant: the scene is stated for the ids of model instances only. The lights and floor that the setup effect adds are not tracked.
- Viewer.ApplyKeepsInvariant: the viewer tracks releases per instance id, not per geometry. Geometry that clones share with the cached base is stated only in `Materials.DisposeReleasesSharedGeometry`. three.js uploading a released geometry again on the next render is not modelled.
- Viewer.DragTurnsByDistance: holds over exact reals. The source adds `deltaX * 0.008` to a JavaScript double on every move (line 633), so the rounding error of repeated additions is not modelled.

## Findings

| source | as written | input that shows it | evidently intended | confidence | as-written member | corrected member |
|---|---|---|---|---|---|---|
| src/app/configurator/page.tsx:62-65 | a failed load rejects the promise but leaves it in `modelLoadingPromise`, so later calls await the same rejection and never load again | request, the load fails, request again: the second request fails at once and no second load starts | a failure clears the pending promise, so the next request starts a fresh load | not executed; medium | Loader.FailureIsPermanent | Loader.RetryAfterFailure |
| src/app/configurator/page.tsx:754-758 | the "unmounted" test reads `sceneRef.current`, which cleanup never clears, and the `sceneReady` captured when the effect started, which was true; the early return can never run | select a model, unmount the viewer before the load resolves, then let it resolve: the new instance is added to the discarded scene and the old one is released | a load that resolves after teardown only clears the loading flag | not executed; medium | Viewer.LateCompletionAsWritten | Viewer.LateCompletionCorrected |
