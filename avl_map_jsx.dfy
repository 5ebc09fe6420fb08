/**
 * The state machine of the map component in src/avl-map.jsx: its `Reducer`,
 * the views computed from the state, the layer initialization pass, the
 * props-versus-state change detection feeding `update-prev`, the choice of
 * the initial map style and the filter update. In this version
 * `activeLayers` holds layer objects.
 */
module AvlMapJsx {
  import opened MapCommon

  /** One value of the hover Map: `{ data, HoverComp, layer, pinnable, sortOrder }`. */
  datatype HoverEntry = HoverEntry(data: Ref, hoverComp: Ref, layer: LayerRec, pinnable: bool, sortOrder: int)

  function SortOrder(e: HoverEntry): int { e.sortOrder }

  /** `hoverData`: the Map from layer id to entry (insertion ordered), the mouse position and its lngLat. */
  datatype HoverData = HoverData(data: seq<Entry<HoverEntry>>, pos: (int, int), lngLat: Ref)

  datatype AppState = AppState(
    mapHandle: Nullable,
    initializedLayers: seq<LayerId>,
    activeLayers: seq<LayerRec>,
    dynamicLayers: seq<LayerRec>,
    layersLoading: map<LayerId, int>,
    hoverData: HoverData,
    pinnedHoverComps: seq<Pinned<HoverEntry>>,
    mapStyles: seq<MapStyle>,
    styleIndex: int,
    sidebarTabIndex: int,
    modalData: seq<ModalEntry>,
    prevLayerStates: map<LayerId, Ref>,
    layerStates: map<LayerId, Ref>,
    prevLayerProps: map<LayerId, Nullable>,
    mapMoved: Option<int>)

  /** `InitialState`; its `hoverData.lngLat` is the object literal allocated first. */
  function InitialState(): AppState
  {
    AppState(Null, [], [], [], map[], HoverData([], (0, 0), Allocated(0)), [], [], 0, 0, [], map[], map[], map[], None)
  }

  function InitialEnv(): Env { Env(0, 1) }

  /** The action records the reducer understands; `Other` stands for every unknown `type`. */
  datatype Action =
    | InitLayer(layer: LayerRec)
    | LoadingStart(layerId: LayerId)
    | LoadingStop(layerId: LayerId)
    | ActivateLayer(layer: LayerRec)
    | DeactivateLayer(layerId: LayerId)
    | HoverLayerMove(data: Ref, layer: LayerRec, hoverComp: Ref, pinnable: bool, sortOrder: int,
                     restPos: Option<(int, int)>, restLngLat: Option<Ref>)
    | HoverLayerLeave(layer: LayerRec)
    | PinHoverComp(marker: Ref, lngLat: Ref)
    | RemovePinned(id: nat)
    | AddDynamicLayer(layer: LayerRec)
    | RemoveDynamicLayer(layer: LayerRec)
    | ShowModal(layerId: LayerId, modalKey: string)
    | BringModalToFront(layerId: LayerId, modalKey: string)
    | CloseModal(layerId: LayerId, modalKey: string)
    | LayerUpdate(layer: LayerRec, newState: Ref)
    | UpdatePrev(layerProps: map<LayerId, Ref>, updateProps: seq<LayerRec>, updateStates: seq<LayerRec>)
    | SetMapStyle(styleIndex: int)
    | SwitchTab(sidebarTabIndex: int)
    | MapLoaded(mapHandle: Ref, mapStyles: seq<MapStyle>, styleIndex: int)
    | UpdateState(mapMoved: Option<int>)
    | Other

  /** What `loading-stop` needs: the counter exists (otherwise JS computes NaN). */
  predicate CanReduce(s: AppState, a: Action)
  {
    a.LoadingStop? ==> a.layerId in s.layersLoading
  }

  /** The new state, the new environment and the marker effects of one step. */
  datatype Step = Step(state: AppState, env: Env, effects: seq<Effect>)

  /** The pinnable entries, in order. */
  function PinnableOf(es: seq<HoverEntry>): (r: seq<HoverEntry>)
    ensures forall e :: e in r <==> e in es && e.pinnable
    ensures |r| <= |es|
  {
    if es == [] then []
    else
      var init := es[..|es| - 1];
      assert forall e :: e in es <==> e in init || e == es[|es| - 1];
      PinnableOf(init) + (if es[|es| - 1].pinnable then [es[|es| - 1]] else [])
  }

  /** The ids a list of layers mentions. */
  function IdSet(ls: seq<LayerRec>): set<LayerId>
  {
    set l | l in ls :: l.id
  }

  /** `updateProps.reduce((a, c) => { a[c.id] = get(layerProps, c.id, null); ... })`: the props read by the detection. */
  function PropsSnapshot(lp: map<LayerId, Ref>, ls: seq<LayerRec>): (r: map<LayerId, Nullable>)
    ensures r.Keys == IdSet(ls)
    ensures forall id :: id in r ==> r[id] == Lookup(lp, id)
  {
    if ls == [] then map[]
    else
      var init := ls[..|ls| - 1];
      assert forall l :: l in ls <==> l in init || l == ls[|ls| - 1];
      PropsSnapshot(lp, init)[ls[|ls| - 1].id := Lookup(lp, ls[|ls| - 1].id)]
  }

  /**
   * The props accumulator as src/avl-map.jsx writes it: `get(layerProps, c.id, {})`,
   * whose argument `{}` is a new object at every step (the i-th gets `next + i`).
   */
  function PropsSnapshotAsWritten(lp: map<LayerId, Ref>, ls: seq<LayerRec>, next: nat): (r: map<LayerId, Nullable>)
    ensures r.Keys == IdSet(ls)
    ensures forall id :: id in r ==> r[id].Object? && (id in lp ==> r[id] == Object(lp[id]))
  {
    if ls == [] then map[]
    else
      var init := ls[..|ls| - 1];
      var id := ls[|ls| - 1].id;
      assert forall l :: l in ls <==> l in init || l == ls[|ls| - 1];
      PropsSnapshotAsWritten(lp, init, next)[id := Object(if id in lp then lp[id] else Allocated(next + |ls| - 1))]
  }

  /** `updateStates.reduce((a, c) => { a[c.id] = get(state.layerStates, c.id, {}); ... })`. */
  function StatesSnapshot(states: map<LayerId, Ref>, ls: seq<LayerRec>, next: nat): (r: map<LayerId, Ref>)
    ensures r.Keys == IdSet(ls)
    ensures forall id :: id in r && id in states ==> r[id] == states[id]
  {
    if ls == [] then map[]
    else
      var init := ls[..|ls| - 1];
      var id := ls[|ls| - 1].id;
      assert forall l :: l in ls <==> l in init || l == ls[|ls| - 1];
      StatesSnapshot(states, init, next)[id := if id in states then states[id] else Allocated(next + |ls| - 1)]
  }

  /** `update-prev`, storing for each refetched layer the very value the detection compares against. */
  function UpdatePrevStep(s: AppState, env: Env, lp: map<LayerId, Ref>, ups: seq<LayerRec>, uss: seq<LayerRec>): Step
  {
    var props := if |ups| > 0 then s.prevLayerProps + PropsSnapshot(lp, ups) else s.prevLayerProps;
    var states := if |uss| > 0 then s.prevLayerStates + StatesSnapshot(s.layerStates, uss, env.allocations)
                  else s.prevLayerStates;
    Step(s.(prevLayerProps := props, prevLayerStates := states), env.(allocations := env.allocations + |uss|), [])
  }

  /** `update-prev` as src/avl-map.jsx:279-306 writes it. */
  function UpdatePrevAsWritten(s: AppState, env: Env, lp: map<LayerId, Ref>, ups: seq<LayerRec>, uss: seq<LayerRec>): Step
  {
    var props := if |ups| > 0 then s.prevLayerProps + PropsSnapshotAsWritten(lp, ups, env.allocations)
                 else s.prevLayerProps;
    var states := if |uss| > 0 then s.prevLayerStates + StatesSnapshot(s.layerStates, uss, env.allocations + |ups|)
                  else s.prevLayerStates;
    Step(s.(prevLayerProps := props, prevLayerStates := states),
         env.(allocations := env.allocations + |ups| + |uss|), [])
  }

  /** The `Reducer` of src/avl-map.jsx, with `update-prev` corrected (see `ReduceAsWritten`). */
  function Reduce(s: AppState, env: Env, a: Action): Step
    requires CanReduce(s, a)
  {
    match a
    case InitLayer(l) =>
      Step(s.(initializedLayers := s.initializedLayers + [l.id]), env, [])
    case LoadingStart(id) =>
      Step(s.(layersLoading := StartLoading(s.layersLoading, id)), env, [])
    case LoadingStop(id) =>
      Step(s.(layersLoading := StopLoading(s.layersLoading, id)), env, [])
    case ActivateLayer(l) =>
      Step(s.(activeLayers := [l] + s.activeLayers, layerStates := s.layerStates[l.id := l.state]), env, [])
    case DeactivateLayer(id) =>
      Step(s.(activeLayers := WithoutId(s.activeLayers, id),
              layerStates := s.layerStates[id := Allocated(env.allocations)],
              prevLayerStates := s.layerStates[id := Allocated(env.allocations + 1)]),
           env.(allocations := env.allocations + 2), [])
    case HoverLayerMove(data, l, hoverComp, pinnable, sortOrder, pos, lngLat) =>
      var entry := HoverEntry(data, hoverComp, l, pinnable, sortOrder);
      var hd := s.hoverData;
      Step(s.(hoverData := HoverData(SetEntry(hd.data, l.id, entry),
                                     if pos.Some? then pos.value else hd.pos,
                                     if lngLat.Some? then lngLat.value else hd.lngLat)), env, [])
    case HoverLayerLeave(l) =>
      Step(s.(hoverData := s.hoverData.(data := DeleteEntry(s.hoverData.data, l.id))), env, [])
    case PinHoverComp(marker, lngLat) =>
      if |s.hoverData.data| == 0 then Step(s, env, [])
      else
        var id := env.uniqueIds + 1;
        var comps := SortByKey(PinnableOf(ValuesOf(s.hoverData.data)), SortOrder);
        if |comps| > 0 then
          Step(s.(pinnedHoverComps := s.pinnedHoverComps + [Pinned(id, comps, marker, lngLat)]),
               env.(uniqueIds := id), [AddMarkerTo(marker, s.mapHandle)])
        else Step(s, env.(uniqueIds := id), [])
    case RemovePinned(id) =>
      var r := Unpin(s.pinnedHoverComps, id);
      Step(s.(pinnedHoverComps := r.0), env, r.1)
    case AddDynamicLayer(l) =>
      Step(s.(dynamicLayers := s.dynamicLayers + [l]), env, [])
    case RemoveDynamicLayer(l) =>
      Step(s.(dynamicLayers := WithoutId(s.dynamicLayers, l.id)), env, [])
    case ShowModal(layerId, modalKey) =>
      if AnyMatch(s.modalData, layerId, modalKey) then Step(s, env, [])
      else Step(s.(modalData := PushModal(s.modalData, layerId, modalKey)), env, [])
    case BringModalToFront(layerId, modalKey) =>
      Step(s.(modalData := RaiseModal(s.modalData, layerId, modalKey)), env, [])
    case CloseModal(layerId, modalKey) =>
      Step(s.(modalData := DropModal(s.modalData, layerId, modalKey)), env, [])
    case LayerUpdate(l, newState) =>
      Step(s.(layerStates := s.layerStates[l.id := newState]), env, [])
    case UpdatePrev(lp, ups, uss) =>
      UpdatePrevStep(s, env, lp, ups, uss)
    case SetMapStyle(i) =>
      Step(s.(styleIndex := i), env, [])
    case SwitchTab(i) =>
      Step(s.(sidebarTabIndex := i), env, [])
    case MapLoaded(m, styles, i) =>
      Step(s.(mapHandle := Object(m), mapStyles := styles, styleIndex := i), env, [])
    case UpdateState(moved) =>
      Step(if moved.Some? then s.(mapMoved := moved) else s, env, [])
    case Other =>
      Step(s, env, [])
  }

  /** The reducer exactly as written, `update-prev` included. */
  function ReduceAsWritten(s: AppState, env: Env, a: Action): Step
    requires CanReduce(s, a)
  {
    if a.UpdatePrev? then UpdatePrevAsWritten(s, env, a.layerProps, a.updateProps, a.updateStates)
    else Reduce(s, env, a)
  }

  // ---------------------------------------------------------------------
  // Invariants the reducer keeps

  predicate Valid(s: AppState, env: Env)
  {
    && NonNegative(s.layersLoading)
    && UniquePairs(s.modalData)
    && UniqueKeys(s.hoverData.data)
    && UniquePinIds(s.pinnedHoverComps)
    && (forall p :: p in s.pinnedHoverComps ==> p.id <= env.uniqueIds)
    && (forall l :: l in s.activeLayers ==> l.id in s.layerStates)
  }

  lemma InitialValid()
    ensures Valid(InitialState(), InitialEnv())
  {
  }

  /** Every step keeps the loading counters non-negative. */
  lemma ReduceKeepsCounters(s: AppState, env: Env, a: Action)
    requires NonNegative(s.layersLoading) && CanReduce(s, a)
    ensures NonNegative(Reduce(s, env, a).state.layersLoading)
  {
  }

  /** `show-modal` keeps the modal stack free of duplicate pairs. */
  lemma ShowKeepsModals(s: AppState, env: Env, layerId: LayerId, modalKey: string)
    requires UniquePairs(s.modalData)
    ensures UniquePairs(Reduce(s, env, ShowModal(layerId, modalKey)).state.modalData)
  {
    var t := Reduce(s, env, ShowModal(layerId, modalKey));
    if !AnyMatch(s.modalData, layerId, modalKey) {
      assert t.state.modalData == PushModal(s.modalData, layerId, modalKey);
      PushModalSpec(s.modalData, layerId, modalKey);
    }
  }

  /** `bring-modal-to-front` keeps the modal stack free of duplicate pairs. */
  lemma RaiseKeepsModals(s: AppState, env: Env, layerId: LayerId, modalKey: string)
    requires UniquePairs(s.modalData)
    ensures UniquePairs(Reduce(s, env, BringModalToFront(layerId, modalKey)).state.modalData)
  {
    RaiseModalSpec(s.modalData, layerId, modalKey);
  }

  /** `close-modal` keeps the modal stack free of duplicate pairs. */
  lemma CloseKeepsModals(s: AppState, env: Env, layerId: LayerId, modalKey: string)
    requires UniquePairs(s.modalData)
    ensures UniquePairs(Reduce(s, env, CloseModal(layerId, modalKey)).state.modalData)
  {
    DropModalKeepsUnique(s.modalData, layerId, modalKey);
  }

  /** Every step keeps the modal stack free of duplicate (layer, modal) pairs. */
  lemma ReduceKeepsModals(s: AppState, env: Env, a: Action)
    requires UniquePairs(s.modalData) && CanReduce(s, a)
    ensures UniquePairs(Reduce(s, env, a).state.modalData)
  {
    if a.ShowModal? {
      ShowKeepsModals(s, env, a.layerId, a.modalKey);
    } else if a.BringModalToFront? {
      RaiseKeepsModals(s, env, a.layerId, a.modalKey);
    } else if a.CloseModal? {
      CloseKeepsModals(s, env, a.layerId, a.modalKey);
    }
  }

  /** `hover-layer-move` keeps the hover Map free of duplicate keys. */
  lemma HoverMoveKeepsHover(s: AppState, env: Env, data: Ref, l: LayerRec, hoverComp: Ref, pinnable: bool, sortOrder: int,
                            pos: Option<(int, int)>, lngLat: Option<Ref>)
    requires UniqueKeys(s.hoverData.data)
    ensures UniqueKeys(Reduce(s, env, HoverLayerMove(data, l, hoverComp, pinnable, sortOrder, pos, lngLat)).state.hoverData.data)
  {
    SetEntryUnique(s.hoverData.data, l.id, HoverEntry(data, hoverComp, l, pinnable, sortOrder));
  }

  /** Every step keeps the hover Map free of duplicate keys. */
  lemma ReduceKeepsHover(s: AppState, env: Env, a: Action)
    requires UniqueKeys(s.hoverData.data) && CanReduce(s, a)
    ensures UniqueKeys(Reduce(s, env, a).state.hoverData.data)
  {
    if a.HoverLayerMove? {
      HoverMoveKeepsHover(s, env, a.data, a.layer, a.hoverComp, a.pinnable, a.sortOrder, a.restPos, a.restLngLat);
    }
  }

  /** `pin-hover-comp` keeps the pinned ids distinct and no larger than the last id `getUniqueId` issued. */
  lemma PinKeepsPins(s: AppState, env: Env, marker: Ref, lngLat: Ref)
    requires UniquePinIds(s.pinnedHoverComps) && (forall p :: p in s.pinnedHoverComps ==> p.id <= env.uniqueIds)
    ensures var t := Reduce(s, env, PinHoverComp(marker, lngLat));
            && UniquePinIds(t.state.pinnedHoverComps)
            && (forall p :: p in t.state.pinnedHoverComps ==> p.id <= t.env.uniqueIds)
  {
    if |s.hoverData.data| > 0 {
      var comps := SortByKey(PinnableOf(ValuesOf(s.hoverData.data)), SortOrder);
      if |comps| > 0 {
        AppendFreshPin(s.pinnedHoverComps, Pinned(env.uniqueIds + 1, comps, marker, lngLat));
      }
    }
  }

  /** `remove-pinned` keeps the pinned ids distinct and bounded. */
  lemma UnpinKeepsPins(s: AppState, env: Env, id: nat)
    requires UniquePinIds(s.pinnedHoverComps) && (forall p :: p in s.pinnedHoverComps ==> p.id <= env.uniqueIds)
    ensures var t := Reduce(s, env, RemovePinned(id));
            && UniquePinIds(t.state.pinnedHoverComps)
            && (forall p :: p in t.state.pinnedHoverComps ==> p.id <= t.env.uniqueIds)
  {
    UnpinOne(s.pinnedHoverComps, id);
  }

  /** Every step keeps the pinned ids distinct and no larger than the last id `getUniqueId` issued. */
  lemma ReduceKeepsPins(s: AppState, env: Env, a: Action)
    requires UniquePinIds(s.pinnedHoverComps) && (forall p :: p in s.pinnedHoverComps ==> p.id <= env.uniqueIds)
    requires CanReduce(s, a)
    ensures var t := Reduce(s, env, a);
            && UniquePinIds(t.state.pinnedHoverComps)
            && (forall p :: p in t.state.pinnedHoverComps ==> p.id <= t.env.uniqueIds)
  {
    if a.RemovePinned? {
      UnpinKeepsPins(s, env, a.id);
    } else if a.PinHoverComp? {
      PinKeepsPins(s, env, a.marker, a.lngLat);
    }
  }

  /** Every step keeps a state entry for every active layer. */
  lemma ReduceKeepsLayerStates(s: AppState, env: Env, a: Action)
    requires (forall l :: l in s.activeLayers ==> l.id in s.layerStates) && CanReduce(s, a)
    ensures var t := Reduce(s, env, a);
            forall l :: l in t.state.activeLayers ==> l.id in t.state.layerStates
  {
  }

  /**
   * Every step keeps the counters non-negative, the modal stack and the
   * hover Map free of duplicates, the pinned ids distinct and issued by
   * `getUniqueId`, and a state entry for every active layer.
   */
  lemma ReducePreservesValid(s: AppState, env: Env, a: Action)
    requires Valid(s, env) && CanReduce(s, a)
    ensures Valid(Reduce(s, env, a).state, Reduce(s, env, a).env)
  {
    ReduceKeepsCounters(s, env, a);
    ReduceKeepsModals(s, env, a);
    ReduceKeepsHover(s, env, a);
    ReduceKeepsPins(s, env, a);
    ReduceKeepsLayerStates(s, env, a);
  }

  /** The reducer as written keeps the same invariant: its `update-prev` only touches the snapshots and the allocation count. */
  lemma ReduceAsWrittenPreservesValid(s: AppState, env: Env, a: Action)
    requires Valid(s, env) && CanReduce(s, a)
    ensures Valid(ReduceAsWritten(s, env, a).state, ReduceAsWritten(s, env, a).env)
  {
    if !a.UpdatePrev? {
      ReducePreservesValid(s, env, a);
    }
  }

  /** A run of actions; `None` when a `loading-stop` meets an id that never started. */
  function Run(s: AppState, env: Env, acts: seq<Action>): Option<Step>
    decreases |acts|
  {
    if acts == [] then Some(Step(s, env, []))
    else if !CanReduce(s, acts[0]) then None
    else
      var t := Reduce(s, env, acts[0]);
      match Run(t.state, t.env, acts[1..])
      case None => None
      case Some(u) => Some(Step(u.state, u.env, t.effects + u.effects))
  }

  lemma {:induction false} RunPreservesValid(s: AppState, env: Env, acts: seq<Action>)
    requires Valid(s, env) && Run(s, env, acts).Some?
    ensures Valid(Run(s, env, acts).value.state, Run(s, env, acts).value.env)
    decreases |acts|
  {
    if acts != [] {
      ReducePreservesValid(s, env, acts[0]);
      var t := Reduce(s, env, acts[0]);
      RunPreservesValid(t.state, t.env, acts[1..]);
    }
  }

  // ---------------------------------------------------------------------
  // Loading counters

  function LoadingActions(id: LayerId, ops: seq<bool>): (r: seq<Action>)
    ensures |r| == |ops|
  {
    if ops == [] then [] else [if ops[0] then LoadingStart(id) else LoadingStop(id)] + LoadingActions(id, ops[1..])
  }

  /** Dispatching loading events changes only `layersLoading`, exactly as `ApplyLoading` does. */
  lemma {:induction false} RunLoading(s: AppState, env: Env, id: LayerId, ops: seq<bool>)
    requires id in s.layersLoading || ops == [] || ops[0]
    ensures Run(s, env, LoadingActions(id, ops)) == Some(Step(s.(layersLoading := ApplyLoading(s.layersLoading, id, ops)), env, []))
    decreases |ops|
  {
    var acts := LoadingActions(id, ops);
    if ops == [] {
      assert s.(layersLoading := ApplyLoading(s.layersLoading, id, ops)) == s;
    } else {
      assert acts[0] == (if ops[0] then LoadingStart(id) else LoadingStop(id));
      assert acts[1..] == LoadingActions(id, ops[1..]);
      assert CanReduce(s, acts[0]);
      var t := Reduce(s, env, acts[0]);
      var next := if ops[0] then StartLoading(s.layersLoading, id) else StopLoading(s.layersLoading, id);
      assert t == Step(s.(layersLoading := next), env, []);
      assert ApplyLoading(s.layersLoading, id, ops) == ApplyLoading(next, id, ops[1..]);
      RunLoading(t.state, t.env, id, ops[1..]);
      assert t.state.(layersLoading := ApplyLoading(next, id, ops[1..]))
          == s.(layersLoading := ApplyLoading(s.layersLoading, id, ops));
      assert t.effects + [] == [];
    }
  }

  function LoadingLayers(layers: seq<LayerRec>, s: AppState): seq<LayerRec>
  {
    LoadingIn(layers + s.dynamicLayers, s.layersLoading)
  }

  /**
   * After n `loading-start`s and n `loading-stop`s for an id whose counter
   * was absent or zero, no layer with that id is shown as loading, while
   * every other counter is as it was.
   */
  lemma BalancedLoadingClears(s: AppState, env: Env, layers: seq<LayerRec>, id: LayerId, n: nat)
    requires Count(s.layersLoading, id) == 0
    ensures var r := Run(s, env, LoadingActions(id, Repeat(true, n) + Repeat(false, n)));
            && r.Some?
            && (forall l :: l in layers + s.dynamicLayers && l.id == id ==> l !in LoadingLayers(layers, r.value.state))
            && (forall k :: k in s.layersLoading && k != id ==>
                  (k in r.value.state.layersLoading && r.value.state.layersLoading[k] == s.layersLoading[k]))
  {
    var ops := Repeat(true, n) + Repeat(false, n);
    if n > 0 { assert ops[0]; } else { assert ops == []; }
    RunLoading(s, env, id, ops);
    StartsThenStopsRestore(s.layersLoading, id, n);
  }

  /** A layer is shown as loading right after a `loading-start` for its id. */
  lemma StartShowsLoading(s: AppState, env: Env, layers: seq<LayerRec>, l: LayerRec)
    requires Valid(s, env) && l in layers + s.dynamicLayers
    ensures l in LoadingLayers(layers, Reduce(s, env, LoadingStart(l.id)).state)
  {
  }

  // ---------------------------------------------------------------------
  // Activation

  /** `activate-layer` puts the layer first and records its state; nothing else changes. */
  lemma ActivateSpec(s: AppState, env: Env, l: LayerRec)
    ensures var t := Reduce(s, env, ActivateLayer(l));
            && t.state.activeLayers == [l] + s.activeLayers
            && t.state.layerStates == s.layerStates[l.id := l.state]
            && t.state.(activeLayers := s.activeLayers, layerStates := s.layerStates) == s
            && t.env == env
  {
  }

  /**
   * `deactivate-layer` removes every active layer with the id and keeps the
   * others in order; the id's state becomes a new empty object and
   * `prevLayerStates` becomes the old `layerStates` with that id mapped to
   * another new empty object, so the two entries differ.
   */
  lemma DeactivateSpec(s: AppState, env: Env, id: LayerId)
    ensures var t := Reduce(s, env, DeactivateLayer(id));
            && (forall l :: l in t.state.activeLayers <==> l in s.activeLayers && l.id != id)
            && t.state.layerStates.Keys == s.layerStates.Keys + {id}
            && (forall k :: k in s.layerStates && k != id ==> t.state.layerStates[k] == s.layerStates[k])
            && t.state.prevLayerStates.Keys == s.layerStates.Keys + {id}
            && (forall k :: k in s.layerStates && k != id ==> t.state.prevLayerStates[k] == s.layerStates[k])
            && t.state.layerStates[id].Allocated? && t.state.prevLayerStates[id].Allocated?
            && t.state.layerStates[id] != t.state.prevLayerStates[id]
  {
  }

  /** `includes(layer)` compares identities. */
  predicate IsIncluded(l: LayerRec, ls: seq<LayerRec>)
  {
    l.ref in RefsOf(ls)
  }

  /** The inactive layers: not initialized, or not (by identity) among `activeLayers`. */
  function InactiveIn(ls: seq<LayerRec>, initialized: seq<LayerId>, active: seq<LayerRec>): (r: seq<LayerRec>)
    ensures forall l :: l in r <==> l in ls && (l.id !in initialized || !IsIncluded(l, active))
  {
    if ls == [] then []
    else
      var init := ls[..|ls| - 1];
      var last := ls[|ls| - 1];
      assert forall l :: l in ls <==> l in init || l == last;
      InactiveIn(init, initialized, active) +
        (if last.id !in initialized || !IsIncluded(last, active) then [last] else [])
  }

  function InactiveLayers(layers: seq<LayerRec>, s: AppState): seq<LayerRec>
  {
    InactiveIn(layers + s.dynamicLayers, s.initializedLayers, s.activeLayers)
  }

  /** An initialized layer stops being listed as inactive once it is activated. */
  lemma ActivatedIsNotInactive(s: AppState, env: Env, layers: seq<LayerRec>, l: LayerRec)
    requires l.id in s.initializedLayers
    ensures l !in InactiveLayers(layers, Reduce(s, env, ActivateLayer(l)).state)
  {
    assert l in [l] + s.activeLayers;
  }

  /**
   * Every declared layer with the id is listed as inactive after
   * `deactivate-layer`, provided identities determine ids (no active object
   * with that identity under another id).
   */
  lemma DeactivatedIsInactive(s: AppState, env: Env, layers: seq<LayerRec>, l: LayerRec)
    requires l in layers + s.dynamicLayers
    requires forall a :: a in s.activeLayers && a.ref == l.ref ==> a.id == l.id
    ensures l in InactiveLayers(layers, Reduce(s, env, DeactivateLayer(l.id)).state)
  {
    var t := Reduce(s, env, DeactivateLayer(l.id));
    forall a | a in t.state.activeLayers ensures a.ref != l.ref {
      assert a in s.activeLayers && a.id != l.id;
    }
  }

  // ---------------------------------------------------------------------
  // Hover Map and pinned hover records

  /** The entries shown on hover: the Map's values sorted by `sortOrder`. */
  function HoverComps(s: AppState): seq<HoverEntry>
  {
    SortByKey(ValuesOf(s.hoverData.data), SortOrder)
  }

  /** The hover components are exactly the Map's values, in ascending `sortOrder`, and are shown iff the Map is non-empty. */
  lemma HoverCompsSpec(s: AppState)
    ensures multiset(HoverComps(s)) == multiset(ValuesOf(s.hoverData.data))
    ensures SortedBy(HoverComps(s), SortOrder)
    ensures |HoverComps(s)| > 0 <==> |s.hoverData.data| > 0
  {
    SortByKeySpec(ValuesOf(s.hoverData.data), SortOrder);
  }

  /** `hover-layer-move` makes the layer's entry present with the new values, appended when it is new. */
  lemma HoverMoveSpec(s: AppState, env: Env, a: Action)
    requires a.HoverLayerMove?
    ensures var d := Reduce(s, env, a).state.hoverData.data;
            var e := Entry(a.layer.id, HoverEntry(a.data, a.hoverComp, a.layer, a.pinnable, a.sortOrder));
            && (a.layer.id !in KeysOf(s.hoverData.data) ==> d == s.hoverData.data + [e])
            && (forall i :: (0 <= i < |s.hoverData.data| && s.hoverData.data[i].key == a.layer.id &&
                              (forall j :: 0 <= j < i ==> s.hoverData.data[j].key != a.layer.id)) ==>
                  d == s.hoverData.data[i := e])
  {
    var e := HoverEntry(a.data, a.hoverComp, a.layer, a.pinnable, a.sortOrder);
    if a.layer.id !in KeysOf(s.hoverData.data) {
      SetEntryAbsent(s.hoverData.data, a.layer.id, e);
    }
    forall i | 0 <= i < |s.hoverData.data| && s.hoverData.data[i].key == a.layer.id &&
               (forall j :: 0 <= j < i ==> s.hoverData.data[j].key != a.layer.id)
      ensures SetEntry(s.hoverData.data, a.layer.id, e) == s.hoverData.data[i := Entry(a.layer.id, e)]
    {
      SetEntryPresent(s.hoverData.data, a.layer.id, e, i);
    }
  }

  /** `hover-layer-leave` deletes exactly the layer's entry. */
  lemma HoverLeaveSpec(s: AppState, env: Env, l: LayerRec)
    ensures var d := Reduce(s, env, HoverLayerLeave(l)).state.hoverData.data;
            && KeysOf(d) == KeysOf(s.hoverData.data) - {l.id}
            && (forall e :: e in d <==> e in s.hoverData.data && e.key != l.id)
  {
  }

  /**
   * `pin-hover-comp` returns the state unchanged when the hover Map is
   * empty or holds no pinnable entry (the id counter still advances in the
   * second case); otherwise it appends one record under a new id whose
   * entries are the pinnable ones sorted by `sortOrder`, and adds its marker
   * to the map.
   */
  lemma PinSpec(s: AppState, env: Env, marker: Ref, lngLat: Ref)
    ensures var t := Reduce(s, env, PinHoverComp(marker, lngLat));
            var pinnable := PinnableOf(ValuesOf(s.hoverData.data));
            && (|s.hoverData.data| == 0 ==> t == Step(s, env, []))
            && (|s.hoverData.data| > 0 && |pinnable| == 0 ==>
                  t == Step(s, env.(uniqueIds := env.uniqueIds + 1), []))
            && (|pinnable| > 0 ==>
                  && |t.state.pinnedHoverComps| == |s.pinnedHoverComps| + 1
                  && t.state.pinnedHoverComps[..|s.pinnedHoverComps|] == s.pinnedHoverComps
                  && var p := t.state.pinnedHoverComps[|s.pinnedHoverComps|];
                  && p.id == env.uniqueIds + 1 && p.marker == marker && p.lngLat == lngLat
                  && multiset(p.hoverComps) == multiset(pinnable)
                  && SortedBy(p.hoverComps, SortOrder)
                  && (forall e :: e in p.hoverComps <==> e in ValuesOf(s.hoverData.data) && e.pinnable)
                  && t.state.(pinnedHoverComps := s.pinnedHoverComps) == s
                  && t.effects == [AddMarkerTo(marker, s.mapHandle)])
  {
    var pinnable := PinnableOf(ValuesOf(s.hoverData.data));
    SortByKeySpec(pinnable, SortOrder);
    var comps := SortByKey(pinnable, SortOrder);
    if |pinnable| > 0 {
      assert |s.hoverData.data| > 0;
      forall e ensures e in comps <==> e in pinnable {
        assert e in comps <==> e in multiset(comps);
        assert e in pinnable <==> e in multiset(pinnable);
      }
    }
  }

  /** With distinct pinned ids, removing one takes out at most one record and removes exactly its marker. */
  lemma RemovePinnedSpec(s: AppState, env: Env, id: nat)
    requires Valid(s, env)
    ensures var t := Reduce(s, env, RemovePinned(id));
            && (forall p :: p in t.state.pinnedHoverComps <==> p in s.pinnedHoverComps && p.id != id)
            && |t.effects| == (if exists p :: p in s.pinnedHoverComps && p.id == id then 1 else 0)
            && (forall e :: e in t.effects ==> exists p :: p in s.pinnedHoverComps && p.id == id && e == RemoveMarker(p.marker))
  {
    UnpinOne(s.pinnedHoverComps, id);
  }

  // ---------------------------------------------------------------------
  // Initialization pass

  /** The asynchronous chain the pass builds: `_init`, then, for a `setActive` layer, a detached fetch, `_onAdd` and `activate-layer`. */
  datatype ChainStep = CallInit(id: LayerId) | StartActivation(id: LayerId)

  /** What the pass chains for one layer. */
  function Segment(l: LayerRec): seq<ChainStep>
  {
    [CallInit(l.id)] + (if l.setActive then [StartActivation(l.id)] else [])
  }

  function ChainOf(order: seq<LayerRec>): seq<ChainStep>
  {
    if order == [] then []
    else
      var l := order[|order| - 1];
      ChainOf(order[..|order| - 1]) + Segment(l)
  }

  lemma ChainOfSnoc(order: seq<LayerRec>, i: nat)
    requires i < |order|
    ensures ChainOf(order[..i + 1]) ==
            ChainOf(order[..i]) + Segment(order[i])
  {
    assert order[..i + 1][..i] == order[..i];
  }

  function InitActions(order: seq<LayerRec>): (r: seq<Action>)
    ensures |r| == |order| && forall i :: 0 <= i < |order| ==> r[i] == InitLayer(order[i])
  {
    if order == [] then [] else [InitLayer(order[0])] + InitActions(order[1..])
  }

  /** The `initializingLayers` ref of the component. */
  class InitTracker {
    var current: seq<LayerId>

    constructor()
      ensures current == []
    {
      current := [];
    }

    /**
     * One run of the initialization effect. It dispatches `init-layer` for
     * each layer, pushes its id and builds the chain.
     */
    method RunPass(layers: seq<LayerRec>, dynamicLayers: seq<LayerRec>) returns (dispatched: seq<Action>, chain: seq<ChainStep>)
      modifies this
      ensures current == old(current) + IdsOf(PassOrder(layers + dynamicLayers, old(current)))
      ensures dispatched == InitActions(PassOrder(layers + dynamicLayers, old(current)))
      ensures chain == ChainOf(PassOrder(layers + dynamicLayers, old(current)))
    {
      var order := Reverse(Unseen(layers + dynamicLayers, current));
      ghost var start := current;
      var pushed := current;
      dispatched := [];
      chain := [];
      var i := 0;
      while i < |order|
        invariant 0 <= i <= |order|
        invariant pushed == start + IdsOf(order[..i])
        invariant dispatched == InitActions(order[..i])
        invariant chain == ChainOf(order[..i])
      {
        var layer := order[i];
        ghost var d0, p0, c0 := dispatched, pushed, chain;
        dispatched := dispatched + [InitLayer(layer)];
        pushed := pushed + [layer.id];
        chain := chain + Segment(layer);
        PassStep(order, i, start, d0, dispatched, p0, pushed, c0, chain);
        i := i + 1;
      }
      assert order[..|order|] == order;
      current := pushed;
    }
  }

  /** One iteration of the pass loop. */
  lemma PassStep(order: seq<LayerRec>, i: nat, start: seq<LayerId>, d0: seq<Action>, d1: seq<Action>,
                 p0: seq<LayerId>, p1: seq<LayerId>, c0: seq<ChainStep>, c1: seq<ChainStep>)
    requires i < |order|
    requires d0 == InitActions(order[..i]) && d1 == d0 + [InitLayer(order[i])]
    requires p0 == start + IdsOf(order[..i]) && p1 == p0 + [order[i].id]
    requires c0 == ChainOf(order[..i])
    requires c1 == c0 + Segment(order[i])
    ensures d1 == InitActions(order[..i + 1])
    ensures p1 == start + IdsOf(order[..i + 1])
    ensures c1 == ChainOf(order[..i + 1])
  {
    PrefixSnoc(order, i);
    IdsOfSnoc(order[..i], order[i]);
    InitActionsSnoc(order[..i], order[i]);
    ChainOfSnoc(order, i);
  }

  lemma InitActionsSnoc(order: seq<LayerRec>, l: LayerRec)
    ensures InitActions(order + [l]) == InitActions(order) + [InitLayer(l)]
  {
    var a := InitActions(order + [l]);
    var b := InitActions(order) + [InitLayer(l)];
    assert |a| == |b|;
    forall i | 0 <= i < |a| ensures a[i] == b[i] {
      if i < |order| { assert (order + [l])[i] == order[i]; }
    }
  }

  // ---------------------------------------------------------------------
  // Change detection (the effect that feeds `update-prev`)

  /** `get(state.prevLayerProps, id, null)`. */
  function PrevProps(s: AppState, id: LayerId): Nullable
  {
    if id in s.prevLayerProps then s.prevLayerProps[id] else Null
  }

  predicate PropsChanged(s: AppState, lp: map<LayerId, Ref>, l: LayerRec)
  {
    Lookup(lp, l.id) != PrevProps(s, l.id)
  }

  predicate StateChanged(s: AppState, l: LayerRec)
  {
    Lookup(s.layerStates, l.id) != Lookup(s.prevLayerStates, l.id)
  }

  function FetchList(s: AppState, lp: map<LayerId, Ref>, ls: seq<LayerRec>): (r: seq<LayerRec>)
    ensures forall l :: l in r <==> l in ls && PropsChanged(s, lp, l)
    ensures (forall l :: l in ls ==> !PropsChanged(s, lp, l)) ==> r == []
  {
    if ls == [] then []
    else
      var init := ls[..|ls| - 1];
      var last := ls[|ls| - 1];
      assert forall l :: l in ls <==> l in init || l == last;
      FetchList(s, lp, init) + (if PropsChanged(s, lp, last) then [last] else [])
  }

  function RenderList(s: AppState, lp: map<LayerId, Ref>, ls: seq<LayerRec>): (r: seq<LayerRec>)
    ensures forall l :: l in r <==> l in ls && !PropsChanged(s, lp, l) && StateChanged(s, l)
    ensures (forall l :: l in ls ==> PropsChanged(s, lp, l) || !StateChanged(s, l)) ==> r == []
  {
    if ls == [] then []
    else
      var init := ls[..|ls| - 1];
      var last := ls[|ls| - 1];
      assert forall l :: l in ls <==> l in init || l == last;
      RenderList(s, lp, init) + (if !PropsChanged(s, lp, last) && StateChanged(s, last) then [last] else [])
  }

  lemma ListsSnoc(s: AppState, lp: map<LayerId, Ref>, ls: seq<LayerRec>, x: LayerRec)
    ensures FetchList(s, lp, ls + [x]) == FetchList(s, lp, ls) + (if PropsChanged(s, lp, x) then [x] else [])
    ensures RenderList(s, lp, ls + [x]) == RenderList(s, lp, ls) + (if !PropsChanged(s, lp, x) && StateChanged(s, x) then [x] else [])
  {
    assert (ls + [x])[..|ls|] == ls;
  }

  /** The `update-prev` the effect dispatches, if any. */
  function Detect(s: AppState, lp: map<LayerId, Ref>): Option<Action>
  {
    var f := FetchList(s, lp, s.activeLayers);
    var r := RenderList(s, lp, s.activeLayers);
    if |f| == 0 && |r| == 0 then None else Some(UpdatePrev(lp, f, r))
  }

  /** The `loading-start` that the `fetchData` wrapper dispatches, synchronously, for each refetched layer. */
  function FetchStarts(ls: seq<LayerRec>): (r: seq<Action>)
    ensures |r| == |ls| && forall i :: 0 <= i < |ls| ==> r[i] == LoadingStart(ls[i].id)
  {
    if ls == [] then [] else [LoadingStart(ls[0].id)] + FetchStarts(ls[1..])
  }

  /** The counters after one `loading-start` per layer of `ls`, in order. */
  function StartsFor(counters: map<LayerId, int>, ls: seq<LayerRec>): map<LayerId, int>
    decreases |ls|
  {
    if ls == [] then counters else StartsFor(StartLoading(counters, ls[0].id), ls[1..])
  }

  /** How many layers of `ls` carry the id. */
  function NumWithId(ls: seq<LayerRec>, id: LayerId): nat
  {
    if ls == [] then 0 else (if ls[0].id == id then 1 else 0) + NumWithId(ls[1..], id)
  }

  /** Every action the effect dispatches, in order: the refetches' `loading-start`s, then `update-prev` if any. */
  function EffectActions(s: AppState, lp: map<LayerId, Ref>): seq<Action>
  {
    FetchStarts(FetchList(s, lp, s.activeLayers)) + (if Detect(s, lp).Some? then [Detect(s, lp).value] else [])
  }

  /**
   * The effect body: sorts the active layers into those to refetch and
   * those to re-render, dispatches a `loading-start` for each refetch, and
   * dispatches `update-prev` only if either list is non-empty.
   */
  method DetectChanges(s: AppState, lp: map<LayerId, Ref>)
    returns (needsFetch: seq<LayerRec>, needsRender: seq<LayerRec>, update: Option<Action>, dispatched: seq<Action>)
    ensures needsFetch == FetchList(s, lp, s.activeLayers)
    ensures needsRender == RenderList(s, lp, s.activeLayers)
    ensures update == Detect(s, lp)
    ensures update.Some? <==> |needsFetch| > 0 || |needsRender| > 0
    ensures dispatched == FetchStarts(needsFetch) + (if update.Some? then [update.value] else [])
  {
    needsFetch, needsRender := SortLayers(s, lp);
    if |needsFetch| > 0 || |needsRender| > 0 {
      update := Some(UpdatePrev(lp, needsFetch, needsRender));
    } else {
      update := None;
    }
    dispatched := DispatchFetches(needsFetch);
    if update.Some? {
      dispatched := dispatched + [update.value];
    }
  }

  /** The `state.activeLayers.forEach` of the effect: each changed layer goes to one of the two lists. */
  method SortLayers(s: AppState, lp: map<LayerId, Ref>) returns (needsFetch: seq<LayerRec>, needsRender: seq<LayerRec>)
    ensures needsFetch == FetchList(s, lp, s.activeLayers)
    ensures needsRender == RenderList(s, lp, s.activeLayers)
  {
    needsFetch := [];
    needsRender := [];
    var i := 0;
    while i < |s.activeLayers|
      invariant 0 <= i <= |s.activeLayers|
      invariant needsFetch == FetchList(s, lp, s.activeLayers[..i])
      invariant needsRender == RenderList(s, lp, s.activeLayers[..i])
    {
      var layer := s.activeLayers[i];
      assert s.activeLayers[..i + 1] == s.activeLayers[..i] + [layer];
      ListsSnoc(s, lp, s.activeLayers[..i], layer);
      if Lookup(lp, layer.id) != PrevProps(s, layer.id) {
        needsFetch := needsFetch + [layer];
      } else if Lookup(s.layerStates, layer.id) != Lookup(s.prevLayerStates, layer.id) {
        needsRender := needsRender + [layer];
      }
      i := i + 1;
    }
    assert s.activeLayers[..|s.activeLayers|] == s.activeLayers;
  }

  /** `needsFetch.forEach(layer => fetchData(layer))`: the actions dispatched synchronously, in order. */
  method DispatchFetches(needsFetch: seq<LayerRec>) returns (dispatched: seq<Action>)
    ensures dispatched == FetchStarts(needsFetch)
  {
    dispatched := [];
    var k := 0;
    while k < |needsFetch|
      invariant 0 <= k <= |needsFetch|
      invariant |dispatched| == k
      invariant forall j :: 0 <= j < k ==> dispatched[j] == LoadingStart(needsFetch[j].id)
    {
      dispatched := dispatched + [LoadingStart(needsFetch[k].id)];
      k := k + 1;
    }
  }

  /** No layer is both refetched and re-rendered, and every changed active layer is in one of the lists. */
  lemma DetectPartition(s: AppState, lp: map<LayerId, Ref>)
    ensures var f := FetchList(s, lp, s.activeLayers);
            var r := RenderList(s, lp, s.activeLayers);
            && (forall l :: !(l in f && l in r))
            && (forall l :: l in s.activeLayers && (PropsChanged(s, lp, l) || StateChanged(s, l)) ==> l in f || l in r)
  {
  }

  /** One run of the effect: the refetches' `loading-start`s, then its `update-prev`, if any. */
  function Round(s: AppState, env: Env, lp: map<LayerId, Ref>): Step
  {
    var f := FetchList(s, lp, s.activeLayers);
    var r := RenderList(s, lp, s.activeLayers);
    if |f| == 0 && |r| == 0 then Step(s, env, [])
    else UpdatePrevStep(s.(layersLoading := StartsFor(s.layersLoading, f)), env, lp, f, r)
  }

  function RoundAsWritten(s: AppState, env: Env, lp: map<LayerId, Ref>): Step
  {
    var f := FetchList(s, lp, s.activeLayers);
    var r := RenderList(s, lp, s.activeLayers);
    if |f| == 0 && |r| == 0 then Step(s, env, [])
    else UpdatePrevAsWritten(s.(layersLoading := StartsFor(s.layersLoading, f)), env, lp, f, r)
  }

  /** Dispatching the refetches' `loading-start`s before `rest` is running `rest` on the started counters. */
  lemma {:induction false} RunStartsThen(s: AppState, env: Env, ls: seq<LayerRec>, rest: seq<Action>)
    ensures Run(s, env, FetchStarts(ls) + rest) == Run(s.(layersLoading := StartsFor(s.layersLoading, ls)), env, rest)
    decreases |ls|
  {
    if ls != [] {
      var acts := FetchStarts(ls) + rest;
      assert acts[0] == LoadingStart(ls[0].id);
      assert acts[1..] == FetchStarts(ls[1..]) + rest;
      var t := Reduce(s, env, acts[0]);
      assert t == Step(s.(layersLoading := StartLoading(s.layersLoading, ls[0].id)), env, []);
      assert Run(s, env, acts) == match Run(t.state, t.env, acts[1..])
                                  case None => None
                                  case Some(u) => Some(Step(u.state, u.env, t.effects + u.effects));
      RunStartsThen(t.state, env, ls[1..], rest);
      assert StartsFor(s.layersLoading, ls) == StartsFor(t.state.layersLoading, ls[1..]);
      assert t.state.(layersLoading := StartsFor(t.state.layersLoading, ls[1..]))
          == s.(layersLoading := StartsFor(s.layersLoading, ls));
      assert t.env == env && t.effects == [];
      var s1 := s.(layersLoading := StartsFor(s.layersLoading, ls));
      assert Run(t.state, t.env, acts[1..]) == Run(s1, env, rest);
      match Run(t.state, t.env, acts[1..])
      case None =>
        assert Run(s, env, acts) == None;
      case Some(u) =>
        assert Run(s, env, acts) == Some(Step(u.state, u.env, t.effects + u.effects));
        assert t.effects + u.effects == u.effects;
        assert Step(u.state, u.env, u.effects) == u;
        assert Run(s, env, acts) == Some(u);
    } else {
      assert FetchStarts(ls) + rest == rest;
      assert s.(layersLoading := StartsFor(s.layersLoading, ls)) == s;
    }
  }

  /** Each `loading-start` of the round raises its id's counter: by one per refetched layer with that id. */
  lemma {:induction false} StartsForCount(counters: map<LayerId, int>, ls: seq<LayerRec>, id: LayerId)
    ensures Count(StartsFor(counters, ls), id) == Count(counters, id) + NumWithId(ls, id)
    ensures forall k :: k in counters ==> k in StartsFor(counters, ls)
    decreases |ls|
  {
    if ls != [] {
      StartsForCount(StartLoading(counters, ls[0].id), ls[1..], id);
    }
  }

  lemma {:induction false} NumWithIdIn(ls: seq<LayerRec>, l: LayerRec)
    requires l in ls
    ensures NumWithId(ls, l.id) >= 1
    decreases |ls|
  {
    if ls[0] != l {
      NumWithIdIn(ls[1..], l);
    }
  }

  lemma ReduceUpdatePrev(s: AppState, env: Env, lp: map<LayerId, Ref>, ups: seq<LayerRec>, uss: seq<LayerRec>)
    ensures Reduce(s, env, UpdatePrev(lp, ups, uss)) == UpdatePrevStep(s, env, lp, ups, uss)
  {
    var a := UpdatePrev(lp, ups, uss);
    assert a.layerProps == lp && a.updateProps == ups && a.updateStates == uss;
  }

  lemma ReduceAsWrittenUpdatePrev(s: AppState, env: Env, lp: map<LayerId, Ref>, ups: seq<LayerRec>, uss: seq<LayerRec>)
    ensures ReduceAsWritten(s, env, UpdatePrev(lp, ups, uss)) == UpdatePrevAsWritten(s, env, lp, ups, uss)
  {
  }

  /**
   * A round is the reducer run over everything the effect dispatches: the
   * `loading-start` of each refetched layer, then `update-prev`.
   */
  lemma RoundIsReduce(s: AppState, env: Env, lp: map<LayerId, Ref>)
    ensures Run(s, env, EffectActions(s, lp)) == Some(Round(s, env, lp))
  {
    var f := FetchList(s, lp, s.activeLayers);
    var r := RenderList(s, lp, s.activeLayers);
    var s1 := s.(layersLoading := StartsFor(s.layersLoading, f));
    if |f| == 0 && |r| == 0 {
      assert EffectActions(s, lp) == [];
    } else {
      var a := UpdatePrev(lp, f, r);
      assert Detect(s, lp) == Some(a);
      assert EffectActions(s, lp) == FetchStarts(f) + [a];
      RunStartsThen(s, env, f, [a]);
      ReduceUpdatePrev(s1, env, lp, f, r);
      RunSingle(s1, env, a);
    }
  }

  /** The same for the reducer as written: its round is its `update-prev` after the same starts. */
  lemma RoundAsWrittenIsReduce(s: AppState, env: Env, lp: map<LayerId, Ref>)
    ensures var started := s.(layersLoading := StartsFor(s.layersLoading, FetchList(s, lp, s.activeLayers)));
            && Run(s, env, FetchStarts(FetchList(s, lp, s.activeLayers))) == Some(Step(started, env, []))
            && (Detect(s, lp).None? ==> RoundAsWritten(s, env, lp) == Step(s, env, []))
            && (Detect(s, lp).Some? ==> RoundAsWritten(s, env, lp) == ReduceAsWritten(started, env, Detect(s, lp).value))
  {
    var f := FetchList(s, lp, s.activeLayers);
    var r := RenderList(s, lp, s.activeLayers);
    var s1 := s.(layersLoading := StartsFor(s.layersLoading, f));
    RunStartsThen(s, env, f, []);
    assert FetchStarts(f) + [] == FetchStarts(f);
    assert Run(s1, env, []) == Some(Step(s1, env, []));
    if |f| != 0 || |r| != 0 {
      ReduceAsWrittenUpdatePrev(s1, env, lp, f, r);
    }
  }

  lemma RunSingle(s: AppState, env: Env, a: Action)
    requires a.UpdatePrev?
    ensures Run(s, env, [a]) == Some(Reduce(s, env, a))
  {
    var acts := [a];
    assert acts[0] == a && acts[1..] == [];
    var t := Reduce(s, env, a);
    assert t.effects == [];
    assert Run(t.state, t.env, acts[1..]) == Some(Step(t.state, t.env, []));
    assert Run(s, env, acts) == Some(Step(t.state, t.env, t.effects + []));
    assert t.effects + [] == [];
    assert Step(t.state, t.env, []) == t;
    assert Run(s, env, acts) == Some(t);
    assert Reduce(s, env, a) == t;
  }

  /**
   * The round's effect on the loading counters: each id goes up by one per
   * refetched layer that carries it, so every refetched layer is listed as
   * loading; the detection never reads the counters.
   */
  lemma RoundStartsFetches(s: AppState, env: Env, lp: map<LayerId, Ref>, layers: seq<LayerRec>)
    requires Valid(s, env)
    ensures var t := Round(s, env, lp);
            && (forall id :: Count(t.state.layersLoading, id) == Count(s.layersLoading, id) + NumWithId(FetchList(s, lp, s.activeLayers), id))
            && (forall l :: l in FetchList(s, lp, s.activeLayers) && l in layers + s.dynamicLayers ==> l in LoadingLayers(layers, t.state))
  {
    var f := FetchList(s, lp, s.activeLayers);
    var t := Round(s, env, lp);
    RoundLoading(s, env, lp);
    forall id ensures Count(t.state.layersLoading, id) == Count(s.layersLoading, id) + NumWithId(f, id) {
      StartsForCount(s.layersLoading, f, id);
    }
    forall l | l in f && l in layers + s.dynamicLayers ensures l in LoadingLayers(layers, t.state) {
      NumWithIdIn(f, l);
      assert Count(s.layersLoading, l.id) >= 0;
      assert IsLoading(t.state.layersLoading, l.id);
    }
  }

  /** The round leaves the counters exactly as the refetches' starts leave them. */
  lemma RoundLoading(s: AppState, env: Env, lp: map<LayerId, Ref>)
    ensures Round(s, env, lp).state.layersLoading == StartsFor(s.layersLoading, FetchList(s, lp, s.activeLayers))
  {
    var f := FetchList(s, lp, s.activeLayers);
    if |f| == 0 {
      assert StartsFor(s.layersLoading, f) == s.layersLoading;
    }
  }

  /** After one round every active layer's props snapshot matches the current props. */
  lemma RoundClearsProps(s: AppState, env: Env, lp: map<LayerId, Ref>)
    ensures var t := Round(s, env, lp);
            && t.state.activeLayers == s.activeLayers
            && t.state.layerStates == s.layerStates
            && forall l :: l in s.activeLayers ==> !PropsChanged(t.state, lp, l)
  {
    var t := Round(s, env, lp);
    var f := FetchList(s, lp, s.activeLayers);
    var r := RenderList(s, lp, s.activeLayers);
    if |f| == 0 && |r| == 0 {
      assert t.state == s;
    } else {
      assert t == UpdatePrevStep(s.(layersLoading := StartsFor(s.layersLoading, f)), env, lp, f, r);
      var props := if |f| > 0 then s.prevLayerProps + PropsSnapshot(lp, f) else s.prevLayerProps;
      assert t.state.prevLayerProps == props;
      forall l | l in s.activeLayers ensures PrevProps(t.state, l.id) == Lookup(lp, l.id) {
        if |f| > 0 && l.id in PropsSnapshot(lp, f) {
          assert props[l.id] == Lookup(lp, l.id);
        } else {
          assert l !in f;
        }
      }
    }
  }

  /** When no props changed, one round matches every active layer's state snapshot, leaving props matched. */
  lemma RoundClearsStates(s: AppState, env: Env, lp: map<LayerId, Ref>)
    requires forall l :: l in s.activeLayers ==> l.id in s.layerStates
    requires forall l :: l in s.activeLayers ==> !PropsChanged(s, lp, l)
    ensures var t := Round(s, env, lp);
            && t.state.activeLayers == s.activeLayers
            && forall l :: l in s.activeLayers ==> !PropsChanged(t.state, lp, l) && !StateChanged(t.state, l)
  {
    var t := Round(s, env, lp);
    var f := FetchList(s, lp, s.activeLayers);
    var r := RenderList(s, lp, s.activeLayers);
    if |r| > 0 {
      var snap := StatesSnapshot(s.layerStates, r, env.allocations);
      assert t == UpdatePrevStep(s.(layersLoading := StartsFor(s.layersLoading, f)), env, lp, f, r);
      assert t.state.prevLayerStates == s.prevLayerStates + snap;
      assert t.state.prevLayerProps == s.prevLayerProps;
      forall l | l in s.activeLayers ensures !StateChanged(t.state, l) {
        if l.id in snap.Keys {
          assert Lookup(t.state.prevLayerStates, l.id) == Lookup(s.layerStates, l.id);
        } else {
          assert l !in r;
        }
      }
    } else {
      forall l | l in s.activeLayers ensures !StateChanged(t.state, l) {
        assert l !in r;
      }
    }
  }

  /** With nothing else dispatched in between, the detection settles: after two rounds it dispatches nothing. */
  lemma SettlesAfterTwoRounds(s: AppState, env: Env, lp: map<LayerId, Ref>)
    requires Valid(s, env)
    ensures var t1 := Round(s, env, lp);
            var t2 := Round(t1.state, t1.env, lp);
            Detect(t2.state, lp) == None
  {
    var t1 := Round(s, env, lp);
    RoundClearsProps(s, env, lp);
    RoundClearsStates(t1.state, t1.env, lp);
    var t2 := Round(t1.state, t1.env, lp);
    var f := FetchList(t2.state, lp, t2.state.activeLayers);
    var r := RenderList(t2.state, lp, t2.state.activeLayers);

  }

  /**
   * As written, a layer whose props entry has disappeared stays "changed"
   * after its `update-prev`: the snapshot is a new `{}` while the detection
   * reads `null`, so every round refetches it again.
   */
  lemma {:induction false} AsWrittenKeepsRefetching(s: AppState, env: Env, lp: map<LayerId, Ref>, l: LayerRec)
    requires l in s.activeLayers && l.id !in lp && PropsChanged(s, lp, l)
    ensures var t := RoundAsWritten(s, env, lp);
            && t.state.activeLayers == s.activeLayers
            && PropsChanged(t.state, lp, l)
            && Detect(t.state, lp).Some?
            && l in Detect(t.state, lp).value.updateProps
  {
    var f := FetchList(s, lp, s.activeLayers);
    assert l in f;
    var t := RoundAsWritten(s, env, lp);
    assert t.state.prevLayerProps[l.id].Object?;
    assert l in FetchList(t.state, lp, t.state.activeLayers);
  }

  /** A concrete case: one active layer whose props were dropped from `layerProps`. */
  lemma DroppedPropsRefetchForever()
    ensures var l := LayerRec(External(0), "a", true, External(1), map[], []);
            var s := InitialState().(activeLayers := [l], layerStates := map["a" := External(1)],
                                     prevLayerStates := map["a" := External(1)],
                                     prevLayerProps := map["a" := Object(External(2))]);
            var t1 := RoundAsWritten(s, InitialEnv(), map[]);
            var t2 := RoundAsWritten(t1.state, t1.env, map[]);
            && Detect(t2.state, map[]).Some?
            && Detect(Round(Round(s, InitialEnv(), map[]).state, Round(s, InitialEnv(), map[]).env, map[]).state, map[]) == None
  {
    var l := LayerRec(External(0), "a", true, External(1), map[], []);
    var s := InitialState().(activeLayers := [l], layerStates := map["a" := External(1)],
                             prevLayerStates := map["a" := External(1)],
                             prevLayerProps := map["a" := Object(External(2))]);
    AsWrittenKeepsRefetching(s, InitialEnv(), map[], l);
    var t1 := RoundAsWritten(s, InitialEnv(), map[]);
    AsWrittenKeepsRefetching(t1.state, t1.env, map[], l);
    assert Valid(s, InitialEnv());
    SettlesAfterTwoRounds(s, InitialEnv(), map[]);
  }

  // ---------------------------------------------------------------------
  // Initial style

  /** `mapStyles.reduce((a, c, i) => c.style === style ? i : a, -1)`. */
  function LastStyleIndex(styles: seq<MapStyle>, style: string): (r: int)
    ensures -1 <= r < |styles|
    ensures r >= 0 ==> styles[r].style == style && forall j :: r < j < |styles| ==> styles[j].style != style
    ensures r == -1 <==> forall j :: 0 <= j < |styles| ==> styles[j].style != style
  {
    if styles == [] then -1
    else if styles[|styles| - 1].style == style then |styles| - 1
    else LastStyleIndex(styles[..|styles| - 1], style)
  }

  datatype StyleChoice = StyleChoice(mapStyles: seq<MapStyle>, styleIndex: nat)

  function InitialStyle(styles: seq<MapStyle>, style: Option<string>): StyleChoice
  {
    if !IsMapboxStyle(style) then StyleChoice(styles, 0)
    else
      var i := LastStyleIndex(styles, style.value);
      if i == -1 then StyleChoice([MapStyle("Unspecified Style", style.value)] + styles, 0)
      else StyleChoice(styles, i)
  }

  /**
   * `new mapboxgl.Map({ style: mapStyles[styleIndex].style })`: the style the
   * map starts on, or `None` where reading `.style` of a missing entry throws.
   */
  function StartStyle(c: StyleChoice): Option<string>
  {
    if c.styleIndex < |c.mapStyles| then Some(c.mapStyles[c.styleIndex].style) else None
  }

  /**
   * A `mapbox://styles/` style is selected at the last entry naming it,
   * prepended as "Unspecified Style" when no entry does; any other style
   * leaves the list unchanged and selects index 0, so that building the map
   * throws exactly when that list is empty.
   */
  lemma InitialStyleSpec(styles: seq<MapStyle>, style: Option<string>)
    ensures var c := InitialStyle(styles, style);
            && (StartStyle(c).None? <==> !IsMapboxStyle(style) && styles == [])
            && (IsMapboxStyle(style) ==> StartStyle(c) == Some(style.value))
            && (!IsMapboxStyle(style) ==> c == StyleChoice(styles, 0))
            && (IsMapboxStyle(style) ==>
                  && c.styleIndex < |c.mapStyles|
                  && c.mapStyles[c.styleIndex].style == style.value
                  && (forall j :: c.styleIndex < j < |c.mapStyles| ==> c.mapStyles[j].style != style.value))
            && (IsMapboxStyle(style) && (forall j :: 0 <= j < |styles| ==> styles[j].style != style.value) ==>
                  c == StyleChoice([MapStyle("Unspecified Style", style.value)] + styles, 0))
            && (IsMapboxStyle(style) && (exists j :: 0 <= j < |styles| && styles[j].style == style.value) ==>
                  c.mapStyles == styles)
  {
  }

  // ---------------------------------------------------------------------
  // Filter update

  datatype FilterRec = FilterRec(value: Ref, prevValue: Option<Ref>)

  /** What `updateFilter` does: `None` when the layer has no such filter; otherwise the new filters and the events it dispatches. */
  datatype FilterUpdate = FilterUpdate(filters: map<string, FilterRec>, dispatched: seq<Action>, chainEnd: Action)

  function UpdateFilter(layerId: LayerId, filters: map<string, FilterRec>, name: string, value: Ref): Option<FilterUpdate>
  {
    if name !in filters then None
    else Some(FilterUpdate(filters[name := filters[name].(prevValue := Some(filters[name].value), value := value)],
                           [LoadingStart(layerId)], LoadingStop(layerId)))
  }

  /**
   * A filter update on a declared filter keeps its old value as
   * `prevValue`, sets the new one, leaves every other filter alone, starts
   * loading before the chain and stops it after; an unknown filter does nothing.
   */
  lemma UpdateFilterSpec(layerId: LayerId, filters: map<string, FilterRec>, name: string, value: Ref)
    ensures var u := UpdateFilter(layerId, filters, name, value);
            && (name !in filters <==> u.None?)
            && (u.Some? ==>
                  && u.value.filters.Keys == filters.Keys
                  && u.value.filters[name].value == value
                  && u.value.filters[name].prevValue == Some(filters[name].value)
                  && (forall k :: k in filters && k != name ==> u.value.filters[k] == filters[k])
                  && u.value.dispatched + [u.value.chainEnd] == LoadingActions(layerId, [true, false]))
  {
  }
}
