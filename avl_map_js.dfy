/**
 * The state machine of the map component in src/avl-map.js, the older
 * version of src/avl-map.jsx: its `Reducer`, the style list, the layer
 * initialization pass and the active/inactive partition. Here
 * `activeLayers` holds layer ids, and `init-layer` is what activates a layer.
 */
module AvlMapJs {
  import opened MapCommon

  /** One value of the hover Map: `{ data, HoverComp, layer }`. */
  datatype HoverEntry = HoverEntry(data: Ref, hoverComp: Ref, layer: LayerRec)

  datatype HoverData = HoverData(data: seq<Entry<HoverEntry>>, pos: (int, int), lngLat: Ref)

  datatype AppState = AppState(
    mapHandle: Nullable,
    activeLayers: seq<LayerId>,
    dynamicLayers: seq<LayerRec>,
    layersLoading: map<LayerId, int>,
    hoverData: HoverData,
    pinnedHoverComps: seq<Pinned<HoverEntry>>,
    mapStyles: seq<MapStyle>,
    styleIndex: int,
    sidebarTabIndex: int,
    modalData: seq<ModalEntry>,
    layerStates: map<LayerId, Ref>,
    mapMoved: Option<int>)

  function InitialState(): AppState
  {
    AppState(Null, [], [], map[], HoverData([], (0, 0), Allocated(0)), [], [], 0, 0, [], map[], None)
  }

  datatype Action =
    | InitLayer(layer: LayerRec)
    | LoadingStart(layerId: LayerId)
    | LoadingStop(layerId: LayerId)
    | ActivateLayer(layerId: LayerId)
    | DeactivateLayer(layerId: LayerId)
    | HoverLayerMove(data: Ref, layer: LayerRec, hoverComp: Ref, restPos: Option<(int, int)>, restLngLat: Option<Ref>)
    | HoverLayerLeave(layer: LayerRec)
    | PinHoverComp(marker: Ref, lngLat: Ref)
    | RemovePinned(id: nat)
    | AddDynamicLayer(layer: LayerRec)
    | RemoveDynamicLayer(layer: LayerRec)
    | ShowModal(layerId: LayerId, modalKey: string)
    | BringModalToFront(layerId: LayerId, modalKey: string)
    | CloseModal(layerId: LayerId, modalKey: string)
    | LayerUpdate(layer: LayerRec, newState: Ref)
    | SetMapStyle(styleIndex: int)
    | SwitchTab(sidebarTabIndex: int)
    | MapLoaded(mapHandle: Ref, mapStyles: seq<MapStyle>)
    | UpdateState(mapMoved: Option<int>)
    | Other

  predicate CanReduce(s: AppState, a: Action)
  {
    a.LoadingStop? ==> a.layerId in s.layersLoading
  }

  datatype Step = Step(state: AppState, env: Env, effects: seq<Effect>)

  /** `activeLayers.filter(id => id !== layerId)`. */
  function RemoveId(ids: seq<LayerId>, id: LayerId): (r: seq<LayerId>)
    ensures forall x :: x in r <==> x in ids && x != id
    ensures |r| <= |ids|
  {
    if ids == [] then []
    else
      assert forall x :: x in ids <==> x == ids[0] || x in ids[1..];
      (if ids[0] == id then [] else [ids[0]]) + RemoveId(ids[1..], id)
  }

  /** The `Reducer` of src/avl-map.js. */
  function Reduce(s: AppState, env: Env, a: Action): Step
    requires CanReduce(s, a)
  {
    match a
    case InitLayer(l) =>
      Step(s.(activeLayers := [l.id] + s.activeLayers, layerStates := s.layerStates[l.id := l.state]), env, [])
    case LoadingStart(id) =>
      Step(s.(layersLoading := StartLoading(s.layersLoading, id)), env, [])
    case LoadingStop(id) =>
      Step(s.(layersLoading := StopLoading(s.layersLoading, id)), env, [])
    case ActivateLayer(id) =>
      Step(s.(activeLayers := [id] + s.activeLayers), env, [])
    case DeactivateLayer(id) =>
      Step(s.(activeLayers := RemoveId(s.activeLayers, id)), env, [])
    case HoverLayerMove(data, l, hoverComp, pos, lngLat) =>
      var hd := s.hoverData;
      Step(s.(hoverData := HoverData(SetEntry(hd.data, l.id, HoverEntry(data, hoverComp, l)),
                                     if pos.Some? then pos.value else hd.pos,
                                     if lngLat.Some? then lngLat.value else hd.lngLat)), env, [])
    case HoverLayerLeave(l) =>
      Step(s.(hoverData := s.hoverData.(data := DeleteEntry(s.hoverData.data, l.id))), env, [])
    case PinHoverComp(marker, lngLat) =>
      if |s.hoverData.data| == 0 then Step(s, env, [])
      else
        var id := env.uniqueIds + 1;
        Step(s.(pinnedHoverComps := s.pinnedHoverComps + [Pinned(id, ValuesOf(s.hoverData.data), marker, lngLat)]),
             env.(uniqueIds := id), [])
    case RemovePinned(id) =>
      var r := Unpin(s.pinnedHoverComps, id);
      Step(s.(pinnedHoverComps := r.0), env, r.1)
    case AddDynamicLayer(l) =>
      Step(s.(dynamicLayers := s.dynamicLayers + [l]), env, [])
    case RemoveDynamicLayer(l) =>
      Step(s.(dynamicLayers := WithoutId(s.dynamicLayers, l.id)), env, [])
    case ShowModal(layerId, modalKey) =>
      if AnyMatch(s.modalData, layerId, modalKey) then Step(s, env, [])
      else Step(s.(modalData := PushModal(s.modalData, layerId, modalKey)), env, [])
    case BringModalToFront(layerId, modalKey) =>
      Step(s.(modalData := RaiseModal(s.modalData, layerId, modalKey)), env, [])
    case CloseModal(layerId, modalKey) =>
      Step(s.(modalData := DropModal(s.modalData, layerId, modalKey)), env, [])
    case LayerUpdate(l, newState) =>
      Step(s.(layerStates := s.layerStates[l.id := newState]), env, [])
    case SetMapStyle(i) =>
      Step(s.(styleIndex := i), env, [])
    case SwitchTab(i) =>
      Step(s.(sidebarTabIndex := i), env, [])
    case MapLoaded(m, styles) =>
      Step(s.(mapHandle := Object(m), mapStyles := styles), env, [])
    case UpdateState(moved) =>
      Step(if moved.Some? then s.(mapMoved := moved) else s, env, [])
    case Other =>
      Step(s, env, [])
  }

  predicate Valid(s: AppState, env: Env)
  {
    && NonNegative(s.layersLoading)
    && UniquePairs(s.modalData)
    && UniqueKeys(s.hoverData.data)
    && UniquePinIds(s.pinnedHoverComps)
    && (forall p :: p in s.pinnedHoverComps ==> p.id <= env.uniqueIds)
  }

  /** Every step keeps the counters non-negative and the modal stack, the hover Map and the pinned ids free of duplicates. */
  lemma ReducePreservesValid(s: AppState, env: Env, a: Action)
    requires Valid(s, env) && CanReduce(s, a)
    ensures Valid(Reduce(s, env, a).state, Reduce(s, env, a).env)
  {
    var t := Reduce(s, env, a);
    match a
    case ShowModal(layerId, modalKey) =>
      PushModalSpec(s.modalData, layerId, modalKey);
    case BringModalToFront(layerId, modalKey) =>
      RaiseModalSpec(s.modalData, layerId, modalKey);
    case CloseModal(layerId, modalKey) =>
      DropModalKeepsUnique(s.modalData, layerId, modalKey);
    case HoverLayerMove(data, l, hoverComp, pos, lngLat) =>
      SetEntryUnique(s.hoverData.data, l.id, HoverEntry(data, hoverComp, l));
    case RemovePinned(id) =>
      UnpinOne(s.pinnedHoverComps, id);
    case PinHoverComp(marker, lngLat) =>
      var ps := t.state.pinnedHoverComps;
      forall i, j | 0 <= i < j < |ps| ensures ps[i].id != ps[j].id {
        if j == |s.pinnedHoverComps| { assert s.pinnedHoverComps[i] in s.pinnedHoverComps; }
      }
    case _ =>
  }

  /** `init-layer` puts the id first and records the layer's state. */
  lemma InitLayerSpec(s: AppState, env: Env, l: LayerRec)
    ensures var t := Reduce(s, env, InitLayer(l));
            && t.state.activeLayers == [l.id] + s.activeLayers
            && t.state.layerStates == s.layerStates[l.id := l.state]
            && t.state.(activeLayers := s.activeLayers, layerStates := s.layerStates) == s
  {
  }

  /** `multiset(ids)[id]`: how often an id occurs. */
  function Occurrences(ids: seq<LayerId>, id: LayerId): nat
  {
    multiset(ids)[id]
  }

  /**
   * `activate-layer` does not check membership: the id gains one more
   * occurrence, so activating an active layer duplicates it;
   * `deactivate-layer` removes every occurrence and keeps the other ids in order.
   */
  lemma ActivateDeactivateSpec(s: AppState, env: Env, id: LayerId)
    ensures var t := Reduce(s, env, ActivateLayer(id));
            && Occurrences(t.state.activeLayers, id) == Occurrences(s.activeLayers, id) + 1
            && (id in s.activeLayers ==> Occurrences(t.state.activeLayers, id) >= 2)
    ensures var t := Reduce(s, env, DeactivateLayer(id));
            && Occurrences(t.state.activeLayers, id) == 0
            && (forall x :: x in t.state.activeLayers <==> x in s.activeLayers && x != id)
  {
    assert multiset([id] + s.activeLayers) == multiset{id} + multiset(s.activeLayers);
    assert id !in Reduce(s, env, DeactivateLayer(id)).state.activeLayers;
  }

  /** Removing an id keeps the order of the others: it works element by element. */
  lemma {:induction false} RemoveIdDistributes(a: seq<LayerId>, b: seq<LayerId>, id: LayerId)
    ensures RemoveId(a + b, id) == RemoveId(a, id) + RemoveId(b, id)
  {
    if a == [] {
      assert a + b == b;
    } else {
      assert (a + b)[0] == a[0];
      assert (a + b)[1..] == a[1..] + b;
      RemoveIdDistributes(a[1..], b, id);
    }
  }

  /**
   * `pin-hover-comp` does nothing on an empty hover Map; otherwise it
   * appends one record under a new id holding every hover entry, in Map
   * order, unfiltered and unsorted, and touches nothing else.
   */
  lemma PinSpec(s: AppState, env: Env, marker: Ref, lngLat: Ref)
    ensures var t := Reduce(s, env, PinHoverComp(marker, lngLat));
            && (|s.hoverData.data| == 0 ==> t == Step(s, env, []))
            && (|s.hoverData.data| > 0 ==>
                  && t.state.pinnedHoverComps == s.pinnedHoverComps + [Pinned(env.uniqueIds + 1, ValuesOf(s.hoverData.data), marker, lngLat)]
                  && t.state.(pinnedHoverComps := s.pinnedHoverComps) == s
                  && t.env.uniqueIds == env.uniqueIds + 1
                  && |t.state.pinnedHoverComps[|s.pinnedHoverComps|].hoverComps| == |s.hoverData.data|
                  && t.effects == [])
  {
  }

  /** The hover entries shown: the Map's values in insertion order, shown iff there is one. */
  function HoverComps(s: AppState): (r: seq<HoverEntry>)
    ensures |r| == |s.hoverData.data|
    ensures forall i :: 0 <= i < |r| ==> r[i] == s.hoverData.data[i].value
  {
    ValuesOf(s.hoverData.data)
  }

  function LoadingLayers(layers: seq<LayerRec>, s: AppState): seq<LayerRec>
  {
    LoadingIn(layers + s.dynamicLayers, s.layersLoading)
  }

  // ---------------------------------------------------------------------
  // Style list

  /** `styles.reduce((a, c) => a || c.style === style, false)`. */
  function AnyStyle(styles: seq<MapStyle>, style: string): (b: bool)
    ensures b <==> exists j :: 0 <= j < |styles| && styles[j].style == style
  {
    if styles == [] then false else AnyStyle(styles[..|styles| - 1], style) || styles[|styles| - 1].style == style
  }

  function StyleList(styles: seq<MapStyle>, style: Option<string>): seq<MapStyle>
  {
    if IsMapboxStyle(style) && !AnyStyle(styles, style.value) then [MapStyle("Unspecified Style", style.value)] + styles
    else styles
  }

  /**
   * `new mapboxgl.Map({ style: mapStyles[0].style })`: the style the map
   * starts on, or `None` where reading `.style` of a missing entry throws.
   */
  function StartStyle(m: seq<MapStyle>): Option<string>
  {
    if |m| > 0 then Some(m[0].style) else None
  }

  /**
   * An unlisted `mapbox://styles/` style is prepended as "Unspecified Style"
   * and is the style the map starts on (`mapStyles[0]`); in every other case
   * the list is unchanged.
   */
  lemma StyleListSpec(styles: seq<MapStyle>, style: Option<string>)
    ensures var m := StyleList(styles, style);
            && (StartStyle(m).None? <==> !IsMapboxStyle(style) && styles == [])
            && (IsMapboxStyle(style) && !AnyStyle(styles, style.value) ==> StartStyle(m) == Some(style.value))
            && (IsMapboxStyle(style) && !AnyStyle(styles, style.value) ==>
                  |m| == |styles| + 1 && m[0] == MapStyle("Unspecified Style", style.value) && m[1..] == styles)
            && (!IsMapboxStyle(style) || AnyStyle(styles, style.value) ==> m == styles)
  {
  }

  /**
   * Because the map always starts on `mapStyles[0]`, a listed style that is
   * not first is not the one the map starts on.
   */
  lemma ListedStyleNotFirstIsNotUsed()
    ensures var styles := [MapStyle("Dark", "mapbox://styles/a"), MapStyle("Light", "mapbox://styles/b")];
            var m := StyleList(styles, Some("mapbox://styles/b"));
            m[0].style != "mapbox://styles/b"
  {
    var styles := [MapStyle("Dark", "mapbox://styles/a"), MapStyle("Light", "mapbox://styles/b")];
    assert styles[1].style == "mapbox://styles/b";
    assert IsMapboxStyle(Some("mapbox://styles/b"));
  }

  // ---------------------------------------------------------------------
  // Initialization pass

  /** What the pass does, in the order it happens. */
  datatype PassEvent = Dispatch(action: Action) | CallInit(id: LayerId) | FetchData(id: LayerId)
                     | OnAdd(id: LayerId) | Render(id: LayerId)

  /** The synchronous part: a `loading-start` per layer, dispatched while the chain is built. */
  function SyncOf(order: seq<LayerRec>): (r: seq<PassEvent>)
    ensures |r| == |order| && forall i :: 0 <= i < |order| ==> r[i] == Dispatch(LoadingStart(order[i].id))
  {
    if order == [] then [] else SyncOf(order[..|order| - 1]) + [Dispatch(LoadingStart(order[|order| - 1].id))]
  }

  /** One layer's links of the promise chain. */
  function Segment(l: LayerRec): seq<PassEvent>
  {
    [CallInit(l.id)] +
    (if l.setActive then [FetchData(l.id), OnAdd(l.id), Render(l.id), Dispatch(InitLayer(l))] else []) +
    [Dispatch(LoadingStop(l.id))]
  }

  /** The promise chain: the layers' segments one after another. */
  function ChainOf(order: seq<LayerRec>): seq<PassEvent>
  {
    if order == [] then [] else ChainOf(order[..|order| - 1]) + Segment(order[|order| - 1])
  }

  /** The component's `initializedLayers` ref. */
  class InitTracker {
    var current: seq<LayerId>

    constructor()
      ensures current == []
    {
      current := [];
    }

    /** One run of the initialization effect. */
    method RunPass(layers: seq<LayerRec>, dynamicLayers: seq<LayerRec>) returns (sync: seq<PassEvent>, chain: seq<PassEvent>)
      modifies this
      ensures current == old(current) + IdsOf(PassOrder(layers + dynamicLayers, old(current)))
      ensures sync == SyncOf(PassOrder(layers + dynamicLayers, old(current)))
      ensures chain == ChainOf(PassOrder(layers + dynamicLayers, old(current)))
    {
      var order := Reverse(Unseen(layers + dynamicLayers, current));
      ghost var start := current;
      var pushed := current;
      sync := [];
      chain := [];
      var i := 0;
      while i < |order|
        invariant 0 <= i <= |order|
        invariant pushed == start + IdsOf(order[..i])
        invariant sync == SyncOf(order[..i])
        invariant chain == ChainOf(order[..i])
      {
        var layer := order[i];
        ghost var p0, s0, c0 := pushed, sync, chain;
        pushed := pushed + [layer.id];
        sync := sync + [Dispatch(LoadingStart(layer.id))];
        chain := chain + Segment(layer);
        PassStep(order, i, start, p0, pushed, s0, sync, c0, chain);
        i := i + 1;
      }
      assert order[..|order|] == order;
      current := pushed;
    }
  }

  /** One iteration of the pass loop. */
  lemma PassStep(order: seq<LayerRec>, i: nat, start: seq<LayerId>, p0: seq<LayerId>, p1: seq<LayerId>,
                 s0: seq<PassEvent>, s1: seq<PassEvent>, c0: seq<PassEvent>, c1: seq<PassEvent>)
    requires i < |order|
    requires p0 == start + IdsOf(order[..i]) && p1 == p0 + [order[i].id]
    requires s0 == SyncOf(order[..i]) && s1 == s0 + [Dispatch(LoadingStart(order[i].id))]
    requires c0 == ChainOf(order[..i]) && c1 == c0 + Segment(order[i])
    ensures p1 == start + IdsOf(order[..i + 1])
    ensures s1 == SyncOf(order[..i + 1])
    ensures c1 == ChainOf(order[..i + 1])
  {
    PrefixSnoc(order, i);
    IdsOfSnoc(order[..i], order[i]);
    assert order[..i + 1][..i] == order[..i];
  }

  /** The loading events for `id` among `evs`, in order: `true` a start, `false` a stop. */
  function LoadingOps(evs: seq<PassEvent>, id: LayerId): seq<bool>
  {
    if evs == [] then []
    else
      var e := evs[|evs| - 1];
      LoadingOps(evs[..|evs| - 1], id) +
      (if e == Dispatch(LoadingStart(id)) then [true] else if e == Dispatch(LoadingStop(id)) then [false] else [])
  }

  lemma {:induction false} LoadingOpsAppend(a: seq<PassEvent>, b: seq<PassEvent>, id: LayerId)
    ensures LoadingOps(a + b, id) == LoadingOps(a, id) + LoadingOps(b, id)
    decreases |b|
  {
    if b == [] {
      assert a + b == a;
    } else {
      var init := b[..|b| - 1];
      assert (a + b)[..|a + b| - 1] == a + init;
      assert (a + b)[|a + b| - 1] == b[|b| - 1];
      LoadingOpsAppend(a, init, id);
    }
  }

  /** An event that changes no loading counter. */
  predicate Quiet(e: PassEvent)
  {
    !(e.Dispatch? && (e.action.LoadingStart? || e.action.LoadingStop?))
  }

  lemma {:induction false} QuietOps(evs: seq<PassEvent>, id: LayerId)
    requires forall i :: 0 <= i < |evs| ==> Quiet(evs[i])
    ensures LoadingOps(evs, id) == []
    decreases |evs|
  {
    if evs != [] {
      QuietOps(evs[..|evs| - 1], id);
    }
  }

  lemma RepeatSnoc(b: bool, n: nat)
    ensures Repeat(b, n + 1) == Repeat(b, n) + [b]
  {
  }

  /** A segment holds exactly one loading event: its layer's `loading-stop`, last. */
  lemma SegmentLoadingOps(l: LayerRec, id: LayerId)
    ensures LoadingOps(Segment(l), id) == if l.id == id then [false] else []
  {
    var mid := if l.setActive then [FetchData(l.id), OnAdd(l.id), Render(l.id), Dispatch(InitLayer(l))] else [];
    assert Segment(l) == [CallInit(l.id)] + mid + [Dispatch(LoadingStop(l.id))];
    LoadingOpsAppend([CallInit(l.id)] + mid, [Dispatch(LoadingStop(l.id))], id);
    LoadingOpsAppend([CallInit(l.id)], mid, id);
    assert LoadingOps([CallInit(l.id)], id) == [];
    assert [Dispatch(LoadingStop(l.id))][..0] == [];
    QuietOps(mid, id);
  }

  /**
   * The synchronous part is one `loading-start` per handled layer, in the
   * handled order; for each id it is that id's starts and no stop.
   */
  lemma {:induction false} SyncStarts(order: seq<LayerRec>, id: LayerId)
    ensures LoadingOps(SyncOf(order), id) == Repeat(true, Occurrences(IdsOf(order), id))
    decreases |order|
  {
    if order != [] {
      var init := order[..|order| - 1];
      var last := order[|order| - 1];
      SyncStarts(init, id);
      OccurrencesLast(order, id);
      var evs := SyncOf(order);
      assert evs[..|evs| - 1] == SyncOf(init);
      RepeatSnoc(true, Occurrences(IdsOf(init), id));
    }
  }

  /** The handled ids gain one occurrence of the last layer's id. */
  lemma OccurrencesLast(order: seq<LayerRec>, id: LayerId)
    requires order != []
    ensures Occurrences(IdsOf(order), id) ==
            Occurrences(IdsOf(order[..|order| - 1]), id) + (if order[|order| - 1].id == id then 1 else 0)
  {
    var init := order[..|order| - 1];
    var last := order[|order| - 1];
    assert order == init + [last];
    IdsOfSnoc(init, last);
    assert multiset(IdsOf(order)) == multiset(IdsOf(init)) + multiset{last.id};
  }

  /** The chain holds, for each id, one `loading-stop` per handled layer with that id, and no start. */
  lemma {:induction false} ChainStops(order: seq<LayerRec>, id: LayerId)
    ensures LoadingOps(ChainOf(order), id) == Repeat(false, Occurrences(IdsOf(order), id))
    decreases |order|
  {
    if order != [] {
      var init := order[..|order| - 1];
      var last := order[|order| - 1];
      ChainStops(init, id);
      OccurrencesLast(order, id);
      LoadingOpsAppend(ChainOf(init), Segment(last), id);
      SegmentLoadingOps(last, id);
      RepeatSnoc(false, Occurrences(IdsOf(init), id));
    }
  }

  /**
   * Once the chain has run, every counter the pass touched is back at its
   * value before the pass: the synchronous starts all precede the stops of
   * the chain, and the two balance.
   */
  lemma PassRestoresLoading(counters: map<LayerId, int>, order: seq<LayerRec>, id: LayerId)
    requires Count(counters, id) >= 0
    ensures var n := Occurrences(IdsOf(order), id);
            LoadingOps(SyncOf(order) + ChainOf(order), id) == Repeat(true, n) + Repeat(false, n)
    ensures var ops := LoadingOps(SyncOf(order) + ChainOf(order), id);
            var r := ApplyLoading(counters, id, ops);
            Count(r, id) == Count(counters, id) &&
            forall k :: k in counters && k != id ==> k in r && r[k] == counters[k]
  {
    LoadingOpsAppend(SyncOf(order), ChainOf(order), id);
    SyncStarts(order, id);
    ChainStops(order, id);
    StartsThenStopsRestore(counters, id, Occurrences(IdsOf(order), id));
  }

  /** The chain dispatches `init-layer` for exactly the handled layers that have `setActive`. */
  lemma {:induction false} ChainInits(order: seq<LayerRec>, l: LayerRec)
    ensures Dispatch(InitLayer(l)) in ChainOf(order) <==> l in order && l.setActive
    decreases |order|
  {
    if order != [] {
      var init := order[..|order| - 1];
      var last := order[|order| - 1];
      ChainInits(init, l);
      assert order == init + [last];
      var mid := if last.setActive then [FetchData(last.id), OnAdd(last.id), Render(last.id), Dispatch(InitLayer(last))] else [];
      assert Segment(last) == [CallInit(last.id)] + mid + [Dispatch(LoadingStop(last.id))];
      assert Dispatch(InitLayer(l)) in Segment(last) <==> Dispatch(InitLayer(l)) in mid;
    }
  }

  /** Within the chain, a layer's `init-layer` is followed straight away by its `loading-stop`. */
  lemma {:induction false} InitThenStop(order: seq<LayerRec>, i: nat)
    requires i < |ChainOf(order)| && ChainOf(order)[i].Dispatch? && ChainOf(order)[i].action.InitLayer?
    ensures i + 1 < |ChainOf(order)| && ChainOf(order)[i + 1] == Dispatch(LoadingStop(ChainOf(order)[i].action.layer.id))
    decreases |order|
  {
    var init := order[..|order| - 1];
    var last := order[|order| - 1];
    var c := ChainOf(init);
    assert ChainOf(order) == c + Segment(last);
    if i < |c| {
      InitThenStop(init, i);
    } else {
      var seg := Segment(last);
      assert seg[i - |c|] == ChainOf(order)[i];
    }
  }

  // ---------------------------------------------------------------------
  // Active and inactive layers

  /** The layers whose id is (`inside`) or is not (`!inside`) in `ids`, in order. */
  function WithIdIn(ls: seq<LayerRec>, ids: seq<LayerId>, inside: bool): (r: seq<LayerRec>)
    ensures forall l :: l in r <==> l in ls && (l.id in ids <==> inside)
  {
    if ls == [] then []
    else
      var init := ls[..|ls| - 1];
      var last := ls[|ls| - 1];
      assert forall l :: l in ls <==> l in init || l == last;
      WithIdIn(init, ids, inside) + (if (last.id in ids) == inside then [last] else [])
  }

  lemma WithIdInSnoc(ls: seq<LayerRec>, ids: seq<LayerId>, inside: bool, i: nat)
    requires i < |ls|
    ensures WithIdIn(ls[..i + 1], ids, inside) == WithIdIn(ls[..i], ids, inside) + (if (ls[i].id in ids) == inside then [ls[i]] else [])
  {
    assert ls[..i + 1][..i] == ls[..i];
  }

  /** `state.activeLayers.reduce((a, c, i) => { a[c] = i; return a }, {})[id]`: the last index of the id. */
  function LastIndexOf(ids: seq<LayerId>, id: LayerId): (r: int)
    ensures -1 <= r < |ids|
    ensures r >= 0 ==> ids[r] == id && forall j :: r < j < |ids| ==> ids[j] != id
    ensures r == -1 <==> id !in ids
  {
    if ids == [] then -1
    else if ids[|ids| - 1] == id then |ids| - 1
    else LastIndexOf(ids[..|ids| - 1], id)
  }

  /** The sort key of the active part. */
  function ActiveOrder(ids: seq<LayerId>): LayerRec -> int
  {
    (l: LayerRec) => LastIndexOf(ids, l.id)
  }

  /**
   * The active/inactive split of the initialized declared layers: each is
   * pushed onto one list by a loop, and the active list is then sorted by
   * the id's last index in `state.activeLayers`.
   */
  method Partition(declared: seq<LayerRec>, initialized: seq<LayerId>, stateActive: seq<LayerId>)
    returns (active: seq<LayerRec>, inactive: seq<LayerRec>)
    ensures active == SortByKey(WithIdIn(WithIdIn(declared, initialized, true), stateActive, true), ActiveOrder(stateActive))
    ensures inactive == WithIdIn(WithIdIn(declared, initialized, true), stateActive, false)
  {
    var candidates := WithIdIn(declared, initialized, true);
    var a: seq<LayerRec> := [];
    var b: seq<LayerRec> := [];
    var i := 0;
    while i < |candidates|
      invariant 0 <= i <= |candidates|
      invariant a == WithIdIn(candidates[..i], stateActive, true)
      invariant b == WithIdIn(candidates[..i], stateActive, false)
    {
      var c := candidates[i];
      WithIdInSnoc(candidates, stateActive, true, i);
      WithIdInSnoc(candidates, stateActive, false, i);
      if c.id in stateActive {
        a := a + [c];
      } else {
        b := b + [c];
      }
      i := i + 1;
    }
    assert candidates[..|candidates|] == candidates;
    active := SortByKey(a, ActiveOrder(stateActive));
    inactive := b;
  }

  lemma {:induction false} SplitIsPermutation(ls: seq<LayerRec>, ids: seq<LayerId>)
    ensures multiset(WithIdIn(ls, ids, true)) + multiset(WithIdIn(ls, ids, false)) == multiset(ls)
    decreases |ls|
  {
    if ls != [] {
      SplitIsPermutation(ls[..|ls| - 1], ids);
      assert ls == ls[..|ls| - 1] + [ls[|ls| - 1]];
    }
  }

  /**
   * The two lists split the initialized declared layers between them: a
   * layer is active exactly when its id is in `state.activeLayers`, no layer
   * is in both, together they hold every initialized layer as often as it is
   * declared, and the active list ascends by position in `state.activeLayers`.
   */
  lemma PartitionSpec(declared: seq<LayerRec>, initialized: seq<LayerId>, stateActive: seq<LayerId>)
    ensures var candidates := WithIdIn(declared, initialized, true);
            var active := SortByKey(WithIdIn(candidates, stateActive, true), ActiveOrder(stateActive));
            var inactive := WithIdIn(candidates, stateActive, false);
            && (forall l :: l in active <==> l in declared && l.id in initialized && l.id in stateActive)
            && (forall l :: l in inactive <==> l in declared && l.id in initialized && l.id !in stateActive)
            && (forall l :: !(l in active && l in inactive))
            && multiset(active) + multiset(inactive) == multiset(candidates)
            && SortedBy(active, ActiveOrder(stateActive))
            && (forall i :: 0 <= i < |active| ==> 0 <= LastIndexOf(stateActive, active[i].id))
  {
    var candidates := WithIdIn(declared, initialized, true);
    var part := WithIdIn(candidates, stateActive, true);
    SortByKeySpec(part, ActiveOrder(stateActive));
    SplitIsPermutation(candidates, stateActive);
    var active := SortByKey(part, ActiveOrder(stateActive));
    forall l ensures l in active <==> l in part {
      assert l in active <==> l in multiset(active);
      assert l in part <==> l in multiset(part);
    }
    forall i | 0 <= i < |active| ensures 0 <= LastIndexOf(stateActive, active[i].id) {
      assert active[i] in active;
    }
  }
}
