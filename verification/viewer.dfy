/** The 3D viewer component `ATV3DViewer`: the setup effect that creates the
    scene and the input handlers, the effect that loads a model instance for
    the current selection and swaps it into the scene, the drag handlers and
    the auto-rotation of the animation loop.

    The scene is reduced to the ids of the model instances it holds; cameras,
    lights, the floor and rendering are not modelled. Mouse and touch handlers
    behave alike and share one family of pointer events. */
module Viewer {
  import opened Wrappers
  import opened Catalog

  /** The model instance `atvRef.current` refers to. */
  datatype Shown = Shown(id: nat, scale: real, bodyHex: string, metalness: real, rotation: real)

  /** What the load effect captured when it started a load: the instance
      shown then, the selected style and colour, the metalness looked up for
      that colour, and `sceneReady` as seen by the effect. */
  datatype Ticket = Ticket(previous: Option<nat>, style: Style, hex: string, metalness: real, readyAtStart: bool)

  /** How the completion callback decides the component is gone. The source
      tests `sceneRef.current` and the `sceneReady` captured by the effect;
      `LiveGuard` is the corrected test of whether the component is still
      mounted. */
  datatype GuardPolicy = CapturedGuard | LiveGuard

  datatype View = View(
    sceneSet: bool,         // `sceneRef.current` is non-null; it is never reset
    ready: bool,            // `sceneReady`: set up, handlers attached, animation running
    loading: bool,          // `isLoadingModelRef.current`
    ticket: Option<Ticket>, // the load in flight
    current: Option<Shown>, // `atvRef.current`
    scene: seq<nat>,        // model instances added to the scene, in order
    disposed: set<nat>,     // instances released by `disposeATV`
    nextId: nat,            // the id the next loaded instance gets
    signals: seq<bool>,     // every call of `onLoadingChange`, in order
    dragging: bool,         // `mouseRef.current.isDragging`
    lastX: real,            // `mouseRef.current.lastX`
    rotating: bool)         // `isRotatingRef.current`

  /** The viewer before its first effect: auto-rotation is on. */
  const initialView := View(false, false, false, None, None, [], {}, 0, [], false, 0.0, true)

  datatype Event =
    | Mount                                   // the setup effect
    | Unmount                                 // its cleanup
    | SelectionEffect(model: Option<AtvModel>, hex: string)  // the load effect runs
    | LoadOk                                  // the pending load resolves
    | LoadErr                                 // the pending load rejects
    | PointerDown(x: real)
    | PointerMove(x: real)
    | PointerUp
    | Frame                                   // one animation frame

  /** Radians of rotation per pixel dragged, and per animation frame. */
  const dragFactor: real := 0.008
  const autoRotateStep: real := 0.004

  /** The metalness the load effect uses for a hex string: that of the first
      colour of `colors` with this hex, or `fallback` when none has it. */
  function LookupMetalness(colors: seq<VehicleColor>, hex: string, fallback: real): real
    decreases |colors|
  {
    if |colors| == 0 then fallback
    else if colors[0].hex == hex then colors[0].metalness
    else LookupMetalness(colors[1..], hex, fallback)
  }

  /** The lookup agrees with the catalogue's colour search. */
  lemma {:induction false} LookupMetalnessAgrees(colors: seq<VehicleColor>, hex: string, fallback: real)
    ensures LookupMetalness(colors, hex, fallback) ==
            (match FindColor(colors, hex) case Some(c) => c.metalness case None => fallback)
    decreases |colors|
  {
    if |colors| > 0 && colors[0].hex != hex {
      LookupMetalnessAgrees(colors[1..], hex, fallback);
    }
  }

  /** The metalness of the colour `ColorByHex` picks: the selected colour's,
      or the first catalogue colour's for an unknown hex. */
  lemma MetalnessIsColorByHex(hex: string)
    ensures LookupMetalness(vehicleColors, hex, vehicleColors[0].metalness) == ColorByHex(hex).metalness
  {
    LookupMetalnessAgrees(vehicleColors, hex, vehicleColors[0].metalness);
  }

  /** `ids` without `x`. */
  function Remove(ids: seq<nat>, x: nat): (r: seq<nat>)
    ensures forall y :: y in r <==> y in ids && y != x
  {
    if |ids| == 0 then [] else (if ids[0] == x then [] else [ids[0]]) + Remove(ids[1..], x)
  }

  /** The load effect. Nothing happens unless the scene exists, a model is
      selected and the scene is ready; nothing happens while a load is in
      flight. Otherwise a load starts and the page is told it is loading. */
  function StartLoad(v: View, model: Option<AtvModel>, hex: string): (r: View)
    ensures !v.sceneSet || model.None? || !v.ready || v.loading ==> r == v
    ensures v.sceneSet && model.Some? && v.ready && !v.loading ==>
              && r.loading && r.signals == v.signals + [true]
              && r.ticket == Some(Ticket(if v.current.Some? then Some(v.current.value.id) else None,
                                         model.value.style, hex, LookupMetalness(vehicleColors, hex, vehicleColors[0].metalness), true))
              && r == v.(loading := r.loading, signals := r.signals, ticket := r.ticket)
  {
    if !v.sceneSet || model.None? || !v.ready then v
    else if v.loading then v
    else
      var prev := if v.current.Some? then Some(v.current.value.id) else None;
      v.(loading := true, signals := v.signals + [true],
         ticket := Some(Ticket(prev, model.value.style, hex, LookupMetalness(vehicleColors, hex, vehicleColors[0].metalness), v.ready)))
  }

  /** Whether the completion callback goes on to show the loaded instance. */
  predicate GuardPasses(policy: GuardPolicy, v: View, t: Ticket) {
    match policy
    case CapturedGuard => v.sceneSet && t.readyAtStart
    case LiveGuard => v.sceneSet && v.ready
  }

  /** How every completion path ends: the loading flag is cleared, the load
      is no longer pending, and the page is told loading is over. */
  function Settle(v: View): (r: View)
    ensures r == v.(loading := r.loading, ticket := r.ticket, signals := r.signals)
  {
    v.(loading := false, ticket := None, signals := v.signals + [false])
  }

  /** The first half of a swap: the loaded instance, dressed in the captured
      colour and scaled for the captured style, becomes the current instance
      and is added to the scene, which still holds the old one. */
  function AddNew(v: View, t: Ticket): (r: View)
    ensures r == v.(current := r.current, scene := r.scene, nextId := r.nextId)
  {
    var shown := Shown(v.nextId, if t.style == Youth then 0.75 else 1.0, t.hex, t.metalness, 0.0);
    v.(current := Some(shown), scene := v.scene + [v.nextId], nextId := v.nextId + 1)
  }

  /** The second half: the instance shown before the load, if there was one,
      is taken out of the scene and released. */
  function RemoveOld(v: View, previous: Option<nat>): (r: View)
    ensures previous.None? ==> r == v
    ensures previous.Some? ==>
              && (forall id :: id in r.scene <==> id in v.scene && id != previous.value)
              && r.disposed == v.disposed + {previous.value}
              && r == v.(scene := r.scene, disposed := r.disposed)
  {
    if previous.Some? then v.(scene := Remove(v.scene, previous.value), disposed := v.disposed + {previous.value})
    else v
  }

  /** The load resolved. When the guard passes, the new instance is added and
      only then the old one removed and released; either way the load is then
      settled, in the order the callback runs these steps. */
  function Complete(policy: GuardPolicy, v: View): (r: View)
    requires v.ticket.Some?
    ensures !r.loading && r.ticket.None? && r.signals == v.signals + [false]
    ensures !GuardPasses(policy, v, v.ticket.value) ==> r == Settle(v)
    ensures GuardPasses(policy, v, v.ticket.value) ==>
              var t := v.ticket.value;
              && r.current == Some(Shown(v.nextId, if t.style == Youth then 0.75 else 1.0,
                                         t.hex, t.metalness, 0.0))
              && r.nextId == v.nextId + 1
              && (forall id :: id in r.scene <==> (id == v.nextId || id in v.scene) && Some(id) != t.previous)
              && r.disposed == v.disposed + (if t.previous.Some? then {t.previous.value} else {})
              && r == Settle(v).(current := r.current, scene := r.scene, disposed := r.disposed, nextId := r.nextId)
  {
    var t := v.ticket.value;
    if !GuardPasses(policy, v, t) then Settle(v)
    else
      var added := AddNew(v, t);
      assert added.scene == v.scene + [v.nextId] && added.nextId == v.nextId + 1;
      var removed := if v.sceneSet then RemoveOld(added, t.previous) else added;
      assert removed.current == added.current && removed.nextId == added.nextId;
      Settle(removed)
  }

  /** A drag step: the shown instance turns by the distance moved. */
  function Drag(v: View, x: real): (r: View)
    ensures v.ready && v.dragging && v.current.Some? ==>
              && r.current.Some? && r.current.value.rotation == v.current.value.rotation + (x - v.lastX) * dragFactor
              && r == v.(current := Some(v.current.value.(rotation := r.current.value.rotation)), lastX := x)
    ensures !(v.ready && v.dragging && v.current.Some?) ==> r == v
  {
    if v.ready && v.dragging && v.current.Some? then
      var s := v.current.value;
      v.(current := Some(s.(rotation := s.rotation + (x - v.lastX) * dragFactor)), lastX := x)
    else v
  }

  /** One event. Handlers and the animation frame act only while the
      component is set up; the settle events only when a load is pending. */
  function Apply(policy: GuardPolicy, v: View, e: Event): (r: View)
    ensures e.Mount? ==> r.sceneSet && r == v.(sceneSet := true, ready := v.ready || !v.sceneSet)
    ensures e.Unmount? ==> !r.ready && r == v.(ready := false)
    ensures e.LoadErr? ==> r == (if v.ticket.Some? then Settle(v) else v)
    ensures e.PointerDown? && v.ready ==>
              r.dragging && !r.rotating && r == v.(dragging := true, lastX := e.x, rotating := false)
    ensures e.PointerUp? && v.ready ==> !r.dragging && r == v.(dragging := false)
    ensures e.Frame? ==> r == v.(current := r.current)
    ensures e.Frame? && v.current.Some? ==>
              r.current.Some? && r == v.(current := Some(v.current.value.(rotation := r.current.value.rotation)))
    ensures !v.ready && (e.PointerDown? || e.PointerMove? || e.PointerUp? || e.Frame?) ==> r == v
  {
    match e
    case Mount => if v.sceneSet then v else v.(sceneSet := true, ready := true)
    case Unmount => v.(ready := false)
    case SelectionEffect(model, hex) => StartLoad(v, model, hex)
    case LoadOk => if v.ticket.Some? then Complete(policy, v) else v
    case LoadErr => if v.ticket.Some? then Settle(v) else v
    case PointerDown(x) => if v.ready then v.(dragging := true, lastX := x, rotating := false) else v
    case PointerMove(x) => Drag(v, x)
    case PointerUp => if v.ready then v.(dragging := false) else v
    case Frame =>
      if v.ready && v.rotating && v.current.Some? then
        v.(current := Some(v.current.value.(rotation := v.current.value.rotation + autoRotateStep)))
      else v
  }

  function Run(policy: GuardPolicy, v: View, events: seq<Event>): View
    decreases |events|
  {
    if |events| == 0 then v else Run(policy, Apply(policy, v, events[0]), events[1..])
  }

  /** `onLoadingChange` is called with true, false, true, false, … */
  predicate Alternates(s: seq<bool>) {
    forall i :: 0 <= i < |s| ==> s[i] == (i % 2 == 0)
  }

  /** What holds of every reachable view. */
  predicate Invariant(v: View) {
    && (v.ready ==> v.sceneSet)
    && Alternates(v.signals)
    && (v.loading <==> v.ticket.Some?)
    && (v.loading <==> |v.signals| % 2 == 1)
    && v.scene == (if v.current.Some? then [v.current.value.id] else [])
    && (v.current.Some? ==> v.current.value.id < v.nextId && v.current.value.id !in v.disposed)
    && (forall d :: d in v.disposed ==> d < v.nextId)
    && (v.ticket.Some? ==>
          && v.sceneSet && v.ticket.value.readyAtStart
          && v.ticket.value.previous == (if v.current.Some? then Some(v.current.value.id) else None))
  }

  lemma InitialInvariant()
    ensures Invariant(initialView)
  {
  }

  lemma RemoveOnly(ids: seq<nat>, x: nat)
    requires |ids| == 2 && ids[0] == x && ids[1] != x
    ensures Remove(ids, x) == [ids[1]]
  {
    assert ids[1..][1..] == [];
    assert Remove(ids[1..][1..], x) == [];
    assert Remove(ids[1..], x) == [ids[1]];
  }

  /** A completion that passes its guard leaves exactly the new instance in
      the scene. */
  lemma CompleteScene(policy: GuardPolicy, v: View)
    requires Invariant(v) && v.ticket.Some? && GuardPasses(policy, v, v.ticket.value)
    ensures Complete(policy, v).scene == [v.nextId]
    ensures Complete(policy, v).current.Some? && Complete(policy, v).current.value.id == v.nextId
  {
    var t := v.ticket.value;
    if t.previous.Some? {
      RemoveOnly(v.scene + [v.nextId], t.previous.value);
    }
  }

  lemma CompleteKeepsInvariant(policy: GuardPolicy, v: View)
    requires Invariant(v) && v.ticket.Some?
    ensures Invariant(Complete(policy, v))
  {
    if GuardPasses(policy, v, v.ticket.value) {
      ShowKeepsInvariant(policy, v);
    } else {
      var r := Complete(policy, v);
      assert r == v.(loading := false, ticket := None, signals := v.signals + [false]);
      DoneKeepsAlternation(v.signals, false);
    }
  }

  /** Appending the notice the parity calls for keeps the notices alternating. */
  lemma DoneKeepsAlternation(s: seq<bool>, b: bool)
    requires Alternates(s) && b == (|s| % 2 == 0)
    ensures Alternates(s + [b])
  {
  }

  lemma ShowKeepsInvariant(policy: GuardPolicy, v: View)
    requires Invariant(v) && v.ticket.Some? && GuardPasses(policy, v, v.ticket.value)
    ensures Invariant(Complete(policy, v))
  {
    var r := Complete(policy, v);
    CompleteScene(policy, v);
    DoneKeepsAlternation(v.signals, false);
    var t := v.ticket.value;
    // the instance released is the one on show, never the new one
    assert r.disposed == v.disposed + (if t.previous.Some? then {t.previous.value} else {});
    assert v.nextId !in r.disposed;
  }

  lemma StartLoadKeepsInvariant(v: View, model: Option<AtvModel>, hex: string)
    requires Invariant(v)
    ensures Invariant(StartLoad(v, model, hex))
  {
    var r := StartLoad(v, model, hex);
    if r != v {
      DoneKeepsAlternation(v.signals, true);
    }
  }

  lemma ApplyKeepsInvariant(policy: GuardPolicy, v: View, e: Event)
    requires Invariant(v)
    ensures Invariant(Apply(policy, v, e))
  {
    match e
    case LoadOk => if v.ticket.Some? { CompleteKeepsInvariant(policy, v); }
    case LoadErr =>
      if v.ticket.Some? {
        DoneKeepsAlternation(v.signals, false);
      }
    case SelectionEffect(m, h) => StartLoadKeepsInvariant(v, m, h);
    case _ =>
  }

  /** Every view reached from a valid one is valid: the scene holds exactly
      the shown instance, which was never released; the loading flag is set
      exactly while a load is pending; and the page's loading notices
      alternate, so every "loading" is followed by one "done". */
  lemma {:induction false} RunKeepsInvariant(policy: GuardPolicy, v: View, events: seq<Event>)
    requires Invariant(v)
    ensures Invariant(Run(policy, v, events))
    decreases |events|
  {
    if |events| > 0 {
      ApplyKeepsInvariant(policy, v, events[0]);
      RunKeepsInvariant(policy, Apply(policy, v, events[0]), events[1..]);
    }
  }

  /** A swap is the addition of the new instance followed by the removal of
      the old one. Between the two steps the scene holds both instances, so it
      is never empty; afterwards it holds only the new one, and the old one is
      released. */
  lemma SwapAddsBeforeRemoving(policy: GuardPolicy, v: View)
    requires Invariant(v) && v.ticket.Some? && v.current.Some?
    requires GuardPasses(policy, v, v.ticket.value)
    ensures var t := v.ticket.value;
            Complete(policy, v) == Settle(RemoveOld(AddNew(v, t), t.previous))
    ensures AddNew(v, v.ticket.value).scene == [v.current.value.id, v.nextId]
    ensures Complete(policy, v).scene == [v.nextId]
    ensures v.current.value.id in Complete(policy, v).disposed
  {
    CompleteScene(policy, v);
  }

  /** Every way a pending load settles, resolved or rejected, shown or dropped
      by the guard, clears the loading flag and tells the page loading is
      over; a rejection changes nothing else. */
  lemma SettleEndsLoading(policy: GuardPolicy, v: View, e: Event)
    requires Invariant(v) && v.loading && (e.LoadOk? || e.LoadErr?)
    ensures !Apply(policy, v, e).loading && Apply(policy, v, e).ticket.None?
    ensures Apply(policy, v, e).signals == v.signals + [false]
    ensures Alternates(Apply(policy, v, e).signals)
    ensures e.LoadErr? ==> var r := Apply(policy, v, e);
              r.current == v.current && r.scene == v.scene && r.disposed == v.disposed
  {
    DoneKeepsAlternation(v.signals, false);
  }

  /** Once an instance is shown, no event takes it away or leaves the scene
      empty: a swap replaces it, and nothing else removes it. */
  lemma SceneNeverEmptied(policy: GuardPolicy, v: View, e: Event)
    requires Invariant(v) && v.current.Some?
    ensures Apply(policy, v, e).current.Some? && Apply(policy, v, e).scene != []
  {
    ApplyKeepsInvariant(policy, v, e);
  }

  /** The same over any event sequence. */
  lemma {:induction false} SceneNeverEmptiedRun(policy: GuardPolicy, v: View, events: seq<Event>)
    requires Invariant(v) && v.current.Some?
    ensures Run(policy, v, events).current.Some? && Run(policy, v, events).scene != []
    decreases |events|
  {
    if |events| > 0 {
      SceneNeverEmptied(policy, v, events[0]);
      ApplyKeepsInvariant(policy, v, events[0]);
      SceneNeverEmptiedRun(policy, Apply(policy, v, events[0]), events[1..]);
    }
  }

  /** The as-written guard of the completion callback cannot fail: whenever a
      load is pending, the scene exists and the captured readiness is true. */
  lemma CapturedGuardAlwaysPasses(v: View)
    requires Invariant(v) && v.ticket.Some?
    ensures GuardPasses(CapturedGuard, v, v.ticket.value)
  {
  }

  /** As written: a load that resolves after the viewer was torn down still
      swaps a new instance into the discarded scene and releases the old one. */
  lemma LateCompletionAsWritten(v: View)
    requires Invariant(v) && v.ticket.Some? && v.ticket.value.previous.Some?
    ensures var after := Run(CapturedGuard, v, [Unmount, LoadOk]);
            && !after.ready && after.current.Some? && after.current.value.id == v.nextId
            && v.nextId in after.scene && v.ticket.value.previous.value in after.disposed
  {
    var u := v.(ready := false);
    RunPair(CapturedGuard, v, Unmount, LoadOk);
    assert Apply(CapturedGuard, v, Unmount) == u;
    assert GuardPasses(CapturedGuard, u, u.ticket.value);
    CompleteScene(CapturedGuard, u);
  }

  /** Corrected: with the live test, a load that resolves after teardown
      leaves the scene and the shown instance alone and only clears the
      loading flag. */
  lemma LateCompletionCorrected(v: View)
    requires Invariant(v) && v.ticket.Some?
    ensures var after := Run(LiveGuard, v, [Unmount, LoadOk]);
            && after.current == v.current && after.scene == v.scene && after.disposed == v.disposed
            && !after.loading && after.signals == v.signals + [false]
  {
    var u := v.(ready := false);
    RunPair(LiveGuard, v, Unmount, LoadOk);
    assert Apply(LiveGuard, v, Unmount) == u;
    assert !GuardPasses(LiveGuard, u, u.ticket.value);
  }

  /** Two events in a row. */
  lemma RunPair(policy: GuardPolicy, v: View, e1: Event, e2: Event)
    ensures Run(policy, v, [e1, e2]) == Apply(policy, Apply(policy, v, e1), e2)
  {
    var v1 := Apply(policy, v, e1);
    var v2 := Apply(policy, v1, e2);
    assert [e1, e2][1..] == [e2];
    assert [e2][1..] == [];
    assert Run(policy, v2, []) == v2;
    assert Run(policy, v1, [e2]) == v2;
  }

  /** While mounted, both guards agree. */
  lemma GuardsAgreeWhileMounted(v: View)
    requires Invariant(v) && v.ticket.Some? && v.ready
    ensures Complete(CapturedGuard, v) == Complete(LiveGuard, v)
  {
  }

  /** A selection made while a load is in flight is dropped: the instance
      finally shown has the colour of the selection that started the load. */
  lemma StaleSelectionDropped(policy: GuardPolicy, v: View, m1: AtvModel, h1: string, m2: AtvModel, h2: string)
    requires Invariant(v) && v.ready && !v.loading
    ensures var after := Run(policy, v, [SelectionEffect(Some(m1), h1), SelectionEffect(Some(m2), h2), LoadOk]);
            after.current.Some? && after.current.value.bodyHex == h1
            && after.current.value.scale == (if m1.style == Youth then 0.75 else 1.0)
  {
    var evs := [SelectionEffect(Some(m1), h1), SelectionEffect(Some(m2), h2), LoadOk];
    var s1 := Apply(policy, v, evs[0]);
    var s2 := Apply(policy, s1, evs[1]);
    assert s2 == s1;
    var s3 := Apply(policy, s2, evs[2]);
    assert evs[1..] == [SelectionEffect(Some(m2), h2), LoadOk];
    assert evs[1..][1..] == [LoadOk] && evs[1..][1..][1..] == [];
    assert Run(policy, s3, []) == s3;
    assert Run(policy, s2, evs[1..][1..]) == s3;
    assert Run(policy, s1, evs[1..]) == s3;
  }

  /** Dragging over a sequence of pointer positions turns the instance by the
      total distance, whatever the intermediate positions were. */
  lemma {:induction false} DragTurnsByDistance(policy: GuardPolicy, v: View, xs: seq<real>)
    requires v.ready && v.dragging && v.current.Some? && |xs| > 0
    ensures var after := Run(policy, v, seq(|xs|, i requires 0 <= i < |xs| => PointerMove(xs[i])));
            && after.current.Some?
            && after.current.value.rotation == v.current.value.rotation + (xs[|xs| - 1] - v.lastX) * dragFactor
            && after.lastX == xs[|xs| - 1]
    decreases |xs|
  {
    var evs := seq(|xs|, i requires 0 <= i < |xs| => PointerMove(xs[i]));
    var first := Apply(policy, v, evs[0]);
    if |xs| == 1 {
      assert evs[1..] == [];
    } else {
      assert evs[1..] == seq(|xs[1..]|, i requires 0 <= i < |xs[1..]| => PointerMove(xs[1..][i]));
      DragTurnsByDistance(policy, first, xs[1..]);
    }
  }

  /** Nothing ever switches auto-rotation back on: once a drag has stopped it,
      no event restarts it, and frames no longer turn the instance. */
  lemma {:induction false} RotationNeverResumes(policy: GuardPolicy, v: View, events: seq<Event>)
    requires !v.rotating
    ensures !Run(policy, v, events).rotating
    decreases |events|
  {
    if |events| > 0 {
      RotationNeverResumes(policy, Apply(policy, v, events[0]), events[1..]);
    }
  }

  /** Pressing stops auto-rotation; releasing only ends the drag. */
  lemma ReleaseDoesNotResume(policy: GuardPolicy, v: View, x: real)
    requires v.ready
    ensures var after := Run(policy, v, [PointerDown(x), PointerUp]);
            !after.rotating && !after.dragging && after.current == v.current
  {
    RunPair(policy, v, PointerDown(x), PointerUp);
  }

  /** A frame turns the instance by the fixed step exactly when auto-rotation
      is on and the viewer is set up. */
  lemma FrameTurns(policy: GuardPolicy, v: View)
    requires v.current.Some?
    ensures Apply(policy, v, Frame).current.Some?
    ensures Apply(policy, v, Frame).current.value.rotation ==
            v.current.value.rotation + (if v.ready && v.rotating then autoRotateStep else 0.0)
  {
  }
}
