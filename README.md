# avl-map, modelled in Dafny

This project models the core of `avl-map`. That is a React component around a mapbox-gl map. It hosts a set of
*layer containers*, which are objects that add sources and engine layers to the map, bind hover and click
handlers, and report state changes back to the component. The model covers:

- **The map component, in both of its versions** (`src/avl-map.jsx` and the older `src/avl-map.js`).
  - Its `Reducer`: loading counters, activation, the hover Map, pinned hover components, dynamic layers, the
    modal stack, and layer-state and `update-prev` bookkeeping.
  - The views derived from the state: loading layers, hover components, inactive layers, modals, map actions,
    and the js version's active/inactive partition.
  - The choice of the initial map style.
  - The layer initialization pass. It is a loop over the layers not yet initialized, last first, that builds a
    promise chain.
  - For the `.jsx` version, the props/state change detection that feeds `update-prev`, and `updateFilter`.
- **`LayerContainer`** (`src/LayerContainer.js`), as a Dafny class acting on a `Surface` class. `Surface`
  abstracts the mapbox map to its sources, engine-layer layouts, feature hover flags, bound handlers and a log
  of every call.
- **The layer panel** (`src/components/LayerPanel.js`): toolbar tool resolution, icons, filter controls and the
  loading overlay.
- **The info-box container** (`src/components/InfoBoxContainer.js`): the legend and info-box fold, and the
  widths it lays out.

JavaScript object identity is modelled by identity tokens (`Ref`).
- A fresh `{}` literal is a new `Allocated(n)` drawn from an allocation counter in `Env`.
- The module-level `getUniqueId` counter of the component is also in `Env`. A pinned id `unique-id-N` is
  modelled as the number `N`.
- The `idCounter`/`getLayerId` counter of `LayerContainer.js` is the `IdGenerator` class.

Files:

| file | module | contents |
|---|---|---|
| map_common.dfy | MapCommon | values shared by both versions: loading counters, modal stack, the insertion-ordered hover Map, the stable sort, pinned records, modal and map-action views, loading view, initialization order |
| avl_map_jsx.dfy | AvlMapJsx | `src/avl-map.jsx`: state, actions, `Reduce`, views, the initialization pass (class `InitTracker`), change detection, style index, `updateFilter` |
| avl_map_js.dfy | AvlMapJs | `src/avl-map.js`: the same for the older version, plus its active/inactive partition |
| layer_container.dfy | LayerContainerModel | `Surface`, `IdGenerator` and `LayerContainer` classes, with the value-level functions specifying them |
| layer_panel.dfy | LayerPanel | tool resolution, icon, filter controls, loading overlay |
| info_box_container.dfy | InfoBoxContainer | the legend and info-box fold and the derived widths |

Behaviours of the code that the model keeps as written:
- `deactivate-layer` in `src/avl-map.jsx:132-146` copies *all* of `layerStates` into `prevLayerStates`, not
  just the one entry (`AvlMapJsx.DeactivateSpec`).
- The `.jsx` initialization pass assigns `layer.dispatchStateUpdate` (`src/avl-map.jsx:703`). The container
  calls `this.dispatchUpdate` (`src/LayerContainer.js:70`), which stays the no-op from its constructor.
  `LayerContainerModel.LayerContainer.UpdateState` therefore records its notifications and does not reach the
  reducer.
- In `src/avl-map.js:469-492` the map always starts on `mapStyles[0]`. A listed style that is not first is
  never the one the map starts on (`AvlMapJs.ListedStyleNotFirstIsNotUsed`).
- `src/avl-map.js` orders the active layers by the *last* index at which `state.activeLayers` holds their id,
  because the `reduce` overwrites earlier indices (`AvlMapJs.LastIndexOf`).

## Model

| member | source | states |
|---|---|---|
| MapCommon.StartLoading | src/avl-map.jsx:98-106 | `loading-start` adds one to the id's counter, counting an absent key as 0; every other counter is unchanged |
| MapCommon.StopLoading | src/avl-map.jsx:107-118 | `loading-stop` on a present key lowers it by one but never below 0; the keys and the other counters are unchanged |
| MapCommon.ApplyLoading | src/avl-map.jsx:98-118 | a run of loading events leaves the id present once it has had an event and never touches other ids |
| MapCommon.LoadingNet | src/avl-map.jsx:98-118 | when no stop finds the counter at 0, the counter moves by exactly the starts minus the stops |
| MapCommon.StartsThenStopsNeverClamp | src/avl-map.jsx:98-118 | m starts followed by at most as many stops as the counter and the starts allow never hit the clamp, and move the counter by m minus the stops |
| MapCommon.StartsThenStopsRestore | src/avl-map.jsx:98-118 | N starts followed by N stops give the counter back its old value (0 if it was absent) and leave every other counter |
| MapCommon.StopBeforeStartLeavesOne | src/avl-map.jsx:113-116 | because of the clamp, a stop on 0 followed by a start leaves 1 although the two events balance |
| MapCommon.AnyMatch | src/avl-map.jsx:218-222 | the `show-modal` fold is true exactly when some entry has the (layer, modal) pair |
| MapCommon.PushModalSpec | src/avl-map.jsx:215-228 | `show-modal` appends the pair when it is new, with `zIndex` 0, and otherwise leaves the stack unchanged |
| MapCommon.PushTwiceOneEntry | src/avl-map.jsx:215-228 | showing the same pair twice leaves exactly one entry for it |
| MapCommon.RaiseModalSpec | src/avl-map.jsx:229-238 | `bring-modal-to-front` keeps every entry in place, gives the pair's entries `zIndex` 10 and the others 0 |
| MapCommon.DropModal | src/avl-map.jsx:251-258 | `close-modal` keeps exactly the entries with another pair |
| MapCommon.DropModalDistributes | src/avl-map.jsx:251-258 | `close-modal` works entry by entry, so it preserves the order of the rest |
| MapCommon.DropModalRemovesPair | src/avl-map.jsx:251-258 | after `close-modal` no entry has the pair |
| MapCommon.DropModalAbsent | src/avl-map.jsx:251-258 | closing a pair that is not open changes nothing |
| MapCommon.DropUndoesPush | src/avl-map.jsx:215-258 | closing a pair that was just shown gives back the old stack |
| MapCommon.DropModalKeepsUnique | src/avl-map.jsx:251-258 | `close-modal` keeps the pairs unique |
| MapCommon.SetEntryAbsent | src/avl-map.jsx:154 | `Map.set` of a new key appends it |
| MapCommon.SetEntryPresent | src/avl-map.jsx:154 | `Map.set` of a present key replaces the value of its entry in place |
| MapCommon.SetEntryUnique | src/avl-map.jsx:154 | `Map.set` keeps the keys unique and adds exactly the key it sets |
| MapCommon.SetEntryMembers | src/avl-map.jsx:154 | `Map.set` adds only the entry it sets and drops only the old entry for that key |
| MapCommon.GetEntry | src/avl-map.jsx:154 | `Map.get` of a present key is the value of its entry |
| MapCommon.DeleteEntry | src/avl-map.jsx:166 | `Map.delete` removes exactly the key's entries, keeps the rest in order and keeps keys unique |
| MapCommon.ValuesOf | src/avl-map.jsx:781 | `[...data.values()]` has one value per entry, in insertion order |
| MapCommon.SortByKeySpec | src/avl-map.jsx:781-783 | the sort by `sortOrder` yields a permutation of its input in ascending key order |
| MapCommon.Unpin | src/avl-map.jsx:194-202 | `remove-pinned` keeps exactly the records with another id and removes one marker per dropped record |
| MapCommon.UnpinCount | src/avl-map.jsx:194-202 | the records kept and the markers removed together account for every record |
| MapCommon.UnpinUnique | src/avl-map.jsx:194-202 | `remove-pinned` keeps pinned ids unique |
| MapCommon.UnpinOne | src/avl-map.jsx:194-202 | with unique ids, unpinning removes exactly one marker when the id is pinned and none otherwise |
| MapCommon.AppendFreshPin | src/avl-map.jsx:176-189 | appending a record under an id larger than every stored id keeps the ids unique |
| MapCommon.WithoutId | src/avl-map.jsx:135-137 | the `deactivate-layer` filter keeps exactly the layers with another id |
| MapCommon.WithoutIdDistributes | src/avl-map.jsx:135-137 | that filter works layer by layer, so it keeps the order of the rest |
| MapCommon.LastWithId | src/avl-map.jsx:886-890 | the inner fold of `Modals` finds the last active layer with the id, or nothing |
| MapCommon.ModalsViewSpec | src/avl-map.jsx:884-896 | each modal shown comes from a stack entry whose owning layer declares the key, and carries that layer's descriptor; every entry whose layer declares it is shown |
| MapCommon.ModalsViewDistributes | src/avl-map.jsx:884-896 | the modal selection works entry by entry, in stack order |
| MapCommon.MapActionsViewSpec | src/avl-map.jsx:902-910 | one map action per declared action of every active layer, each tagged with its layer, and no other |
| MapCommon.MapActionsViewDistributes | src/avl-map.jsx:902-910 | map actions are listed layer after layer in `activeLayers` order |
| MapCommon.LoadingIn | src/avl-map.jsx:773-778 | the loading layers are exactly the declared and dynamic layers whose counter is present and non-zero |
| MapCommon.Unseen | src/avl-map.jsx:695-696 | the pass handles exactly the layers whose ids are not yet initializing, and none once every id is |
| MapCommon.PassOrderSpec | src/avl-map.jsx:695-697 | the pass handles the unseen layers in reverse declaration order |
| MapCommon.PassIdempotent | src/avl-map.jsx:695-701 | after one pass every declared id is initializing, so a second pass handles nothing |
| AvlMapJsx.PinnableOf | src/avl-map.jsx:180 | the pinnable filter keeps exactly the entries flagged `pinnable` |
| AvlMapJsx.PropsSnapshot | src/avl-map.jsx:838-839 | the corrected props snapshot has one key per refetched layer, holding exactly what the detection reads (`null` when absent) |
| AvlMapJsx.PropsSnapshotAsWritten | src/avl-map.jsx:283-290 | as written, the snapshot stores an object for every key, even where the props are absent |
| AvlMapJsx.StatesSnapshot | src/avl-map.jsx:293-300 | the states snapshot has one key per re-rendered layer, with its current state where there is one |
| AvlMapJsx.InitialValid | src/avl-map.jsx:69-89 | the initial state satisfies the reducer invariant |
| AvlMapJsx.ReduceKeepsCounters | src/avl-map.jsx:98-118 | no step makes a loading counter negative |
| AvlMapJsx.ShowKeepsModals | src/avl-map.jsx:215-228 | `show-modal` keeps the (layer, modal) pairs of the stack unique |
| AvlMapJsx.RaiseKeepsModals | src/avl-map.jsx:229-238 | `bring-modal-to-front` keeps the pairs unique |
| AvlMapJsx.CloseKeepsModals | src/avl-map.jsx:251-258 | `close-modal` keeps the pairs unique |
| AvlMapJsx.ReduceKeepsModals | src/avl-map.jsx:215-258 | no step introduces a duplicate modal pair |
| AvlMapJsx.HoverMoveKeepsHover | src/avl-map.jsx:147-163 | `hover-layer-move` keeps the hover Map's keys unique |
| AvlMapJsx.ReduceKeepsHover | src/avl-map.jsx:147-173 | no step duplicates a hover Map key |
| AvlMapJsx.PinKeepsPins | src/avl-map.jsx:174-192 | `pin-hover-comp` keeps the pinned ids unique and no larger than the last id `getUniqueId` issued |
| AvlMapJsx.UnpinKeepsPins | src/avl-map.jsx:194-202 | `remove-pinned` keeps the pinned ids unique and bounded |
| AvlMapJsx.ReduceKeepsPins | src/avl-map.jsx:174-202 | no step breaks the uniqueness or the bound of pinned ids |
| AvlMapJsx.ReduceKeepsLayerStates | src/avl-map.jsx:119-146 | every active layer keeps a state entry across every step |
| AvlMapJsx.ReducePreservesValid | src/avl-map.jsx:90-318 | every reducer step preserves the whole invariant |
| AvlMapJsx.RunPreservesValid | src/avl-map.jsx:90-318 | any run of actions the reducer accepts preserves the invariant |
| AvlMapJsx.ReduceAsWrittenPreservesValid | src/avl-map.jsx:279-306 | the reducer as written preserves the same invariant |
| AvlMapJsx.RunLoading | src/avl-map.jsx:98-118 | dispatching loading events changes only `layersLoading`, exactly as the counter functions do |
| AvlMapJsx.BalancedLoadingClears | src/avl-map.jsx:773-778 | after n starts and n stops for an idle id, no layer with that id is listed as loading and every other counter is unchanged |
| AvlMapJsx.StartShowsLoading | src/avl-map.jsx:773-778 | right after a `loading-start` the layer is listed as loading |
| AvlMapJsx.ActivateSpec | src/avl-map.jsx:119-131 | `activate-layer` puts the layer first, records its state under its id, and changes nothing else |
| AvlMapJsx.DeactivateSpec | src/avl-map.jsx:132-146 | `deactivate-layer` drops every active layer with the id; the id's state and previous state become two different new objects; the other states are copied into `prevLayerStates` |
| AvlMapJsx.InactiveIn | src/avl-map.jsx:790-802 | a layer is inactive exactly when it is not initialized or not, by identity, among the active layers |
| AvlMapJsx.ActivatedIsNotInactive | src/avl-map.jsx:790-802 | an initialized layer is not inactive after `activate-layer` |
| AvlMapJsx.DeactivatedIsInactive | src/avl-map.jsx:790-802 | a declared layer is inactive after `deactivate-layer` of its id, when identities determine ids |
| AvlMapJsx.HoverCompsSpec | src/avl-map.jsx:780-785 | the hover components are a permutation of the Map's values, sorted by `sortOrder`, shown exactly when the Map is non-empty |
| AvlMapJsx.HoverMoveSpec | src/avl-map.jsx:147-163 | `hover-layer-move` appends the layer's entry when new and otherwise replaces the first one in place |
| AvlMapJsx.HoverLeaveSpec | src/avl-map.jsx:164-173 | `hover-layer-leave` deletes exactly the layer's entry |
| AvlMapJsx.PinSpec | src/avl-map.jsx:174-192 | `pin-hover-comp` does nothing on an empty Map; draws an id but pins nothing when no entry is pinnable; otherwise appends one record under a new id holding the pinnable entries sorted by `sortOrder`, and adds its marker to the map |
| AvlMapJsx.RemovePinnedSpec | src/avl-map.jsx:194-202 | `remove-pinned` keeps exactly the records with another id and removes exactly the removed record's marker |
| AvlMapJsx.InitActions | src/avl-map.jsx:699 | the pass dispatches one `init-layer` per handled layer, in order |
| AvlMapJsx.InitTracker.RunPass | src/avl-map.jsx:692-737 | the pass pushes the handled ids onto the initializing list, dispatches their `init-layer`s and chains `_init` and, for `setActive`, the activation of each, in pass order |
| AvlMapJsx.FetchList | src/avl-map.jsx:835-844 | the layers to refetch are exactly the active layers whose props changed |
| AvlMapJsx.RenderList | src/avl-map.jsx:846-851 | the layers to re-render are exactly the active layers whose props are unchanged and whose state changed |
| AvlMapJsx.DetectChanges | src/avl-map.jsx:831-868 | the effect builds both lists, dispatches one `loading-start` per refetched layer in order, and then `update-prev` exactly when one list is non-empty |
| AvlMapJsx.SortLayers | src/avl-map.jsx:835-852 | the `state.activeLayers.forEach` builds exactly the refetch list and the re-render list |
| AvlMapJsx.FetchStarts | src/avl-map.jsx:414-416 | the refetch wrapper dispatches one `loading-start` per layer, in list order |
| AvlMapJsx.DispatchFetches | src/avl-map.jsx:854-856 | the `needsFetch.forEach(fetchData)` loop dispatches exactly those `loading-start`s |
| AvlMapJsx.DetectPartition | src/avl-map.jsx:835-852 | no layer is in both lists, and every changed active layer is in one |
| AvlMapJsx.ReduceUpdatePrev | src/avl-map.jsx:279-306 | the corrected `update-prev` stores the snapshots of the refetched props and re-rendered states |
| AvlMapJsx.ReduceAsWrittenUpdatePrev | src/avl-map.jsx:279-306 | the reducer as written stores the as-written snapshots on `update-prev` |
| AvlMapJsx.RoundIsReduce | src/avl-map.jsx:854-868 | a round is the reducer run over what the effect dispatches: one `loading-start` per refetched layer, then `update-prev` when there is one |
| AvlMapJsx.RunStartsThen | src/avl-map.jsx:98-106 | running a block of `loading-start`s and then other actions is running the others on the counters the starts raised |
| AvlMapJsx.StartsForCount | src/avl-map.jsx:98-106 | after a block of `loading-start`s each counter has grown by the number of starts for its id |
| AvlMapJsx.RoundAsWrittenIsReduce | src/avl-map.jsx:279-306 | the reducer as written, run over the effect's dispatches, gives the as-written round |
| AvlMapJsx.RoundStartsFetches | src/avl-map.jsx:773-778 | after a round each counter has grown by the number of times its layer is refetched, and every refetched layer is listed as loading |
| AvlMapJsx.RoundLoading | src/avl-map.jsx:854-856 | a round raises the counters exactly by the refetches' `loading-start`s |
| AvlMapJsx.RoundClearsProps | src/avl-map.jsx:279-306 | after one corrected round no active layer's props differ from their snapshot |
| AvlMapJsx.RoundClearsStates | src/avl-map.jsx:279-306 | when no props changed, one round matches every active layer's state snapshot too |
| AvlMapJsx.SettlesAfterTwoRounds | src/avl-map.jsx:831-868 | with nothing else dispatched, the corrected detection dispatches nothing after two rounds |
| AvlMapJsx.AsWrittenKeepsRefetching | src/avl-map.jsx:283-290 | as written, a layer whose props entry disappeared is still "changed" after its `update-prev`, so it is refetched again |
| AvlMapJsx.DroppedPropsRefetchForever | src/avl-map.jsx:283-290 | a concrete case: as written the third round still refetches, corrected it does not |
| AvlMapJsx.LastStyleIndex | src/avl-map.jsx:654-656 | the style fold finds the last entry with the style, or -1 when none has it |
| AvlMapJsx.InitialStyleSpec | src/avl-map.jsx:643-671 | a `mapbox://styles/` style starts at its last listed entry, or is prepended as "Unspecified Style"; any other style starts at index 0 of the unchanged list; building the map throws exactly for a non-mapbox style with no listed styles |
| AvlMapJsx.UpdateFilterSpec | src/avl-map.jsx:385-410 | an unknown filter does nothing; a known one gets the new value, keeps the old as `prevValue`, leaves the other filters, and is bracketed by a loading start and stop |
| AvlMapJs.RemoveId | src/avl-map.js:114-118 | `deactivate-layer` keeps exactly the other ids |
| AvlMapJs.RemoveIdDistributes | src/avl-map.js:117 | the id filter works element by element, keeping the order of the rest |
| AvlMapJs.ReducePreservesValid | src/avl-map.js:75-249 | every step keeps counters non-negative, modal pairs, hover keys and pinned ids unique, and pinned ids issued by `getUniqueId` |
| AvlMapJs.InitLayerSpec | src/avl-map.js:78-89 | `init-layer` puts the id first, records the layer's state, and changes nothing else |
| AvlMapJs.ActivateDeactivateSpec | src/avl-map.js:106-118 | `activate-layer` adds one more occurrence of the id, duplicating an active one; `deactivate-layer` removes every occurrence |
| AvlMapJs.PinSpec | src/avl-map.js:148-163 | `pin-hover-comp` does nothing on an empty Map; otherwise it appends one record under a new id with every value, unfiltered and unsorted, and changes nothing else |
| AvlMapJs.HoverComps | src/avl-map.js:590-593 | the hover components are the Map's values in insertion order |
| AvlMapJs.AnyStyle | src/avl-map.js:480 | the fold is true exactly when some entry has the style |
| AvlMapJs.StyleListSpec | src/avl-map.js:469-492 | an unlisted `mapbox://styles/` style is prepended as "Unspecified Style" and is the starting style; otherwise the list is unchanged; building the map throws exactly when the list is empty |
| AvlMapJs.ListedStyleNotFirstIsNotUsed | src/avl-map.js:488-492 | a listed style that is not first is not the style the map starts on |
| AvlMapJs.SyncOf | src/avl-map.js:543 | the synchronous part of the pass is one `loading-start` per handled layer, in order |
| AvlMapJs.InitTracker.RunPass | src/avl-map.js:512-559 | the pass pushes the handled ids, dispatches their loading starts and builds their chain segments, in pass order |
| AvlMapJs.SegmentLoadingOps | src/avl-map.js:545-557 | each chain segment holds exactly one loading event, its layer's `loading-stop` |
| AvlMapJs.SyncStarts | src/avl-map.js:543 | per id, the synchronous part is one start per handled layer with that id, and no stop |
| AvlMapJs.ChainStops | src/avl-map.js:545-557 | per id, the chain is one stop per handled layer with that id, and no start |
| AvlMapJs.PassRestoresLoading | src/avl-map.js:512-559 | once the chain has run, every counter the pass touched is back at its old value |
| AvlMapJs.ChainInits | src/avl-map.js:547-552 | the chain dispatches `init-layer` for exactly the handled `setActive` layers |
| AvlMapJs.InitThenStop | src/avl-map.js:551-556 | a layer's `init-layer` is followed at once by its `loading-stop` |
| AvlMapJs.WithIdIn | src/avl-map.js:600-608 | the filter keeps exactly the layers whose id is (or is not) in the list |
| AvlMapJs.LastIndexOf | src/avl-map.js:610-613 | the sort key is the last index of the id in `state.activeLayers`, or -1 |
| AvlMapJs.Partition | src/avl-map.js:596-616 | the loop builds the inactive list and the active list sorted by its key |
| AvlMapJs.SplitIsPermutation | src/avl-map.js:601-608 | the two lists of the split together are a permutation of the candidates |
| AvlMapJs.PartitionSpec | src/avl-map.js:596-616 | a layer is active exactly when it is declared, initialized and listed active, inactive exactly when not listed; no layer is both; the active list is sorted |
| LayerContainerModel.Decimal | src/LayerContainer.js:8 | the decimal form of a number is non-empty and made of digits |
| LayerContainerModel.DecimalInjective | src/LayerContainer.js:8 | different numbers print differently |
| LayerContainerModel.LayerIdsDistinct | src/LayerContainer.js:7-8 | ids start at `avl-layer-0`; two different counter values give two different ids |
| LayerContainerModel.IdGenerator.Next | src/LayerContainer.js:8 | `getLayerId` returns the id of the current counter value and advances the counter |
| LayerContainerModel.AddSourcesSpec | src/LayerContainer.js:74-78 | adding the sources adds exactly the declared ids, calls `addSource` only for absent ids and never twice for one id, and changes nothing else |
| LayerContainerModel.AddSourcesNoop | src/LayerContainer.js:74-78 | when every declared source is present, nothing happens |
| LayerContainerModel.HideOne | src/LayerContainer.js:239-247 | `_setVisibilityNone` records a layout already `"none"` and otherwise sets it to `"none"` |
| LayerContainerModel.ShowOne | src/LayerContainer.js:234-238 | `_setVisibilityVisible` sets `"visible"` unless `"none"` is recorded |
| LayerContainerModel.AddLayer | src/LayerContainer.js:79-89 | one step of adding engine layers adds at most its own id, keeps every existing layout, sources, hover flags and bindings, and changes no other visibility record |
| LayerContainerModel.AddLayersKeeps | src/LayerContainer.js:79-89 | adding the engine layers adds exactly the declared absent ids and keeps every other layout and record, and all sources, hover flags and bindings |
| LayerContainerModel.AddLayersCreated | src/LayerContainer.js:79-89 | a created layer ends `"none"` for a hidden container, and otherwise at its declared visibility with that visibility recorded |
| LayerContainerModel.AddLayersCalls | src/LayerContainer.js:79-89 | the calls made are `addLayer`s of absent ids and, for a hidden container, `setLayoutProperty(id, "none")`s of absent ids |
| LayerContainerModel.AddLayersNoop | src/LayerContainer.js:79-89 | when every declared engine layer is present, nothing happens |
| LayerContainerModel.HoverBindings | src/LayerContainer.js:179-195 | `addHover` pushes a `mousemove` and a `mouseleave` record per hover layer, in order |
| LayerContainerModel.ClickBindings | src/LayerContainer.js:108-116 | `addClick` pushes one `click` record per click layer, in order |
| LayerContainerModel.BindSpec | src/LayerContainer.js:115 | binding appends to the bound handlers and logs one `on` per binding; nothing else changes |
| LayerContainerModel.UnbindSpec | src/LayerContainer.js:199-202 | unbinding removes every listed binding, keeps the others, and logs one `off` per binding, last registered first |
| LayerContainerModel.RemoveLayersSpec | src/LayerContainer.js:203-205 | removing the layers drops exactly those ids from the layout; sources, hover flags and bindings stay |
| LayerContainerModel.OnRemoveSpec | src/LayerContainer.js:198-207 | `_onRemove` unbinds every handler, last first, removes every declared engine layer and never removes a source |
| LayerContainerModel.HideAllSpec | src/LayerContainer.js:223-233 | hiding leaves every declared layer `"none"`, records `"none"` for those already `"none"` and changes nothing else |
| LayerContainerModel.HideAllLayout | src/LayerContainer.js:223-247 | for any declared ids, repeated or not, hiding leaves every declared layer `"none"`, every other layout as it was, and sources, hover flags and bindings unchanged |
| LayerContainerModel.RepeatedIdRecordsHidden | src/LayerContainer.js:239-247 | a visible engine layer declared twice gets `"none"` recorded by the second `_setVisibilityNone`; declared once, its record stays |
| LayerContainerModel.ShowAllSpec | src/LayerContainer.js:223-233 | showing sets every declared layer `"visible"` unless `"none"` is recorded for it, and changes nothing else |
| LayerContainerModel.ToggleTwiceFromVisible | src/LayerContainer.js:223-247 | toggling a visible container twice leaves `"none"` layers and layers with `"none"` recorded `"none"`, and every other declared layer `"visible"` |
| LayerContainerModel.ToggleTwiceFromHidden | src/LayerContainer.js:223-247 | toggling a hidden container twice leaves every declared layer `"none"`, for any declared ids |
| LayerContainerModel.MoveStepsMaps | src/LayerContainer.js:137-152 | for any reported features, repeated or not, the new Map holds exactly the non-null reported ids, and what is left of the old Map exactly the old ids no longer reported |
| LayerContainerModel.MoveStepsWrites | src/LayerContainer.js:140-152 | the `features.forEach` writes only `hover: true`, exactly for the reported ids that were not tracked or are reported twice |
| LayerContainerModel.ReportedTwiceSnoc | src/LayerContainer.js:140-151 | one more feature makes an id reported twice exactly when it repeats an id already reported |
| LayerContainerModel.ReleaseWrites | src/LayerContainer.js:153-155 | releasing a tracked Map writes `hover: false` for exactly its ids |
| LayerContainerModel.MouseMoveDiff | src/LayerContainer.js:135-155 | after `mousemove` the tracked Map holds exactly the non-null reported ids; ids newly reported or reported twice are turned on, ids no longer reported are turned off, and ids carried forward once get no write |
| LayerContainerModel.RepeatedFeatureIsRewritten | src/LayerContainer.js:140-151 | a feature reported twice in one event is written `hover: true` again on its second occurrence |
| LayerContainerModel.ReleaseTurnsOff | src/LayerContainer.js:119-128 | `hoverLeave` leaves every tracked feature's flag `false` and every other flag as it was |
| LayerContainerModel.TurnOnKeepsOn | src/LayerContainer.js:147-150 | `hover: true` writes turn on every feature they name and turn nothing off |
| LayerContainerModel.MoveStepsSources | src/LayerContainer.js:140-152 | the new Map's entries were tracked before or were just written `hover: true`; what is left to release was tracked before |
| LayerContainerModel.MoveNextNotReleased | src/LayerContainer.js:140-155 | no feature of the new Map is released |
| LayerContainerModel.MoveWritesTurnOn | src/LayerContainer.js:140-152 | when every tracked feature was on, the `features.forEach` leaves every feature of the new Map on |
| LayerContainerModel.MouseMoveKeepsOn | src/LayerContainer.js:135-155 | when every tracked feature is on before a `mousemove`, every feature of the new Map is on after it |
| LayerContainerModel.MouseMoveTurnsOff | src/LayerContainer.js:135-155 | after a `mousemove` every tracked feature that is no longer reported is off |
| LayerContainerModel.AddOutcomePresent | src/LayerContainer.js:73-95 | after `_onAdd` every declared source and engine layer is present |
| LayerContainerModel.AddOutcomeOnPresent | src/LayerContainer.js:73-95 | `_onAdd` on a map that has every declared source and layer creates nothing and only binds its handlers |
| LayerContainerModel.OnAddIdempotent | src/LayerContainer.js:260-263 | a second `_onAdd` (as `onMapStyleChange` does) leaves sources, layouts, hover flags and records as the first left them; it only binds its handlers again |
| LayerContainerModel.MergeSpec | src/LayerContainer.js:68 | the shallow merge keeps every old key, adds the new ones, and the new values win |
| LayerContainerModel.BindClicks | src/LayerContainer.js:108-116 | the `addClick` loop binds exactly the click records, in order, and returns them |
| LayerContainerModel.BindHovers | src/LayerContainer.js:179-195 | the `addHover` loop binds exactly the hover records, in order, and returns them |
| LayerContainerModel.BindHandlers | src/LayerContainer.js:90-95 | `addHover` when `onHover` is given, then `addClick` when `onClick` is given |
| LayerContainerModel.TrackMove | src/LayerContainer.js:140-152 | the `features.forEach` loop computes the specified Map diff and performs its writes |
| LayerContainerModel.ReleaseTracked | src/LayerContainer.js:123-126 | the release loop writes `hover: false` for each tracked feature, in Map order |
| LayerContainerModel.LayerContainer.constructor | src/LayerContainer.js:29-48 | the options over the defaults, a fresh id from the counter (overriding any `id` option), and empty visibility records, callbacks and hover Map |
| LayerContainerModel.LayerContainer.UpdateState | src/LayerContainer.js:63-71 | the state is replaced by the function's result or shallow-merged, then `dispatchUpdate` is called once with it |
| LayerContainerModel.LayerContainer.SetVisibilityNone | src/LayerContainer.js:239-247 | acts on the map and the records as `HideOne` says |
| LayerContainerModel.LayerContainer.SetVisibilityVisible | src/LayerContainer.js:234-238 | acts on the map as `ShowOne` says |
| LayerContainerModel.LayerContainer.AddClick | src/LayerContainer.js:102-117 | pushes and binds the click records |
| LayerContainerModel.LayerContainer.AddHover | src/LayerContainer.js:130-196 | pushes and binds the hover records |
| LayerContainerModel.LayerContainer.AddDeclaredSources | src/LayerContainer.js:74-78 | acts on the map as `AddSources` says |
| LayerContainerModel.LayerContainer.AddDeclaredLayers | src/LayerContainer.js:79-89 | acts on the map and the records as `AddLayers` says |
| LayerContainerModel.LayerContainer.OnAdd | src/LayerContainer.js:73-97 | `_onAdd` leaves the map, records and callbacks that `AddOutcome` specifies |
| LayerContainerModel.LayerContainer.OnMapStyleChange | src/LayerContainer.js:260-263 | the same as `_onAdd` on the restyled map |
| LayerContainerModel.LayerContainer.HoverLeaveLayer | src/LayerContainer.js:119-128 | does nothing when the layer is not tracked; otherwise releases its features and forgets them |
| LayerContainerModel.LayerContainer.OnMouseMove | src/LayerContainer.js:135-169 | updates the tracked Map and the flags as the diff specifies, and sends `hover-layer-move` exactly when the callback's data has a value |
| LayerContainerModel.LayerContainer.OnMouseLeave | src/LayerContainer.js:171-177 | releases the layer's features and always sends `hover-layer-leave` |
| LayerContainerModel.LayerContainer.OnRemove | src/LayerContainer.js:198-207 | empties the callbacks, unbinds them last first, then removes the declared engine layers |
| LayerContainerModel.LayerContainer.ToggleVisibility | src/LayerContainer.js:223-233 | flips `isVisible`, then shows or hides every declared layer |
| LayerContainerModel.LayerContainer.SetLayerVisibility | src/LayerContainer.js:248-254 | records the requested visibility and sets `"visible"` only if the container is visible and `"visible"` was asked for, else `"none"` |
| LayerPanel.CheckDefaultTools | src/components/LayerPanel.js:176-193 | a tool object passes through; `"toggle-visibility"` gives the "Toogle Visibility" tool with the eye icon and the toggle action; any other name gives `Unknown Tool "<name>"`, the thumbs-down icon and a no-op |
| LayerPanel.IconOf | src/components/LayerPanel.js:205 | a function icon is applied to the layer; a string icon is used as is |
| LayerPanel.ClickOf | src/components/LayerPanel.js:201-203 | the toggle action calls `toggleVisibility` on the clicked layer; the no-op does nothing |
| LayerPanel.ToggleToolFollowsVisibility | src/components/LayerPanel.js:180-185 | the toggle tool shows `fa-eye` exactly when the layer is visible and `fa-eye-slash` otherwise, and toggles that layer |
| LayerPanel.UnknownToolIsInert | src/components/LayerPanel.js:186-191 | an unknown tool shows `fa-thumbs-down` and does nothing, whatever the layer |
| LayerPanel.CheckDefaultToolsIdempotent | src/components/LayerPanel.js:177 | resolving a resolved tool again gives it back |
| LayerPanel.UnknownTooltipInjective | src/components/LayerPanel.js:188 | two different unknown names never share a tooltip |
| LayerPanel.Filters | src/components/LayerPanel.js:24-43 | one slot per filter, empty exactly for a filter whose `active` is present and falsy; a control is keyed `${layerId}-${name}` and removable when `multi` |
| LayerPanel.ActiveFilters | src/components/LayerPanel.js:26-27 | the active filters are filters with `active` absent or truthy |
| LayerPanel.RenderedFilters | src/components/LayerPanel.js:24-43 | the panel shows exactly one control per active filter, in filter order |
| LayerPanel.OverlayShown | src/components/LayerPanel.js:50 | the overlay shows exactly when the layer's counter is present and non-zero |
| LayerPanel.StartShowsOverlay | src/components/LayerPanel.js:50 | a `loading-start` shows that layer's overlay and no other layer's |
| LayerPanel.BalancedLoadingHidesOverlay | src/components/LayerPanel.js:50 | after as many stops as starts, an idle layer's overlay is hidden again |
| InfoBoxContainer.WidestBox | src/components/InfoBoxContainer.js:18 | the inner fold is at least 0 and at least every box width (a missing width is 0), and equals one of them or 0 |
| InfoBoxContainer.Select | src/components/InfoBoxContainer.js:11-22 | the legend layer has a legend; the width is at least `width` and at least the widest box of every layer with boxes |
| InfoBoxContainer.WidthAttained | src/components/InfoBoxContainer.js:17-19 | the width is `width` or the widest box of some layer, nothing else |
| InfoBoxContainer.NoLegendLayer | src/components/InfoBoxContainer.js:12-14 | there is no legend layer exactly when no active layer has a legend |
| InfoBoxContainer.LegendLayerIsLast | src/components/InfoBoxContainer.js:11-14 | the legend layer is an active layer with a legend and no later layer has one |
| InfoBoxContainer.InfoBoxLayersInOrder | src/components/InfoBoxContainer.js:15-16 | the info-box layers are exactly the active layers with boxes, in `activeLayers` order |
| InfoBoxContainer.LegendShown | src/components/InfoBoxContainer.js:34-38 | the legend shows exactly when there is a legend layer whose `legend.show` is truthy |
| InfoBoxContainer.LegendWidth | src/components/InfoBoxContainer.js:127 | the legend is at least as wide as the panel and as its own width (420 by default), less the padding, and equal to one of the two |
| InfoBoxContainer.BoxesFitPanel | src/components/InfoBoxContainer.js:48 | the panel is at least as wide as every box and as `width`, less the padding on both sides |
| InfoBoxContainer.NoBoxesKeepsWidth | src/components/InfoBoxContainer.js:41 | without info boxes the panel is hidden and the width stays `width` |
| InfoBoxContainer.DefaultWidths | src/components/InfoBoxContainer.js:9 | with the defaults and no boxes, the panel width is 304 and a legend without a width is 404 wide |

## Left out

- React hooks, effects and JSX rendering; map construction, controls, `resize`, `saveMapAsImage` and `projectLngLat`. These are DOM, canvas and projection work outside the state logic.
- Falcor fetching and the bodies of `_init`, `fetchData`, `render`, `onAdd`, `onRemove` and `onFilterChange`. These are collaborators the layers supply. The initialization pass records the calls in order as chain steps.
- Promise timing. The chains are modelled as ordered step sequences. The model does not claim they are serialized: in `src/avl-map.jsx:731-735` the `setActive` branch is detached; `onMapStyleChange` does not return its promise; `loading-stop` runs only on success.
- `hasValue` from avl-components. It is a boolean parameter of `OnMouseMove`.
- The `onHover.callback` and `onClick.callback` results. They are parameters.
- `getStaticImageUrl` and the `imageUrl` fields. They only build a URL.
- `set-map-style` restyling (`setMapStyle`), beyond the `styleIndex` the reducer stores.
- The assignments of `layer.props`, `layer.filters[..].onChange`, `tool.actionFunc` and `action.actionFunc` in the initialization passes. They mutate the layer objects and change no state the reducer reads.
- The `pinnedMapMarkers` field of the initial state. No reducer case reads or writes it.
- The in-place update of the hover Map. The reducer changes `state.hoverData.data` itself (`set` at src/avl-map.jsx:149, `delete` at src/avl-map.jsx:166), so the state before the step sees the change too. The model builds a new Map value on each step and keeps no aliasing between successive states.
- `beneath` for `addLayer`. The surface keeps no layer order.
- The option keys the container copies but never reads in the modelled code (`filters`, `modals`, `mapActions`, `legend`, `infoBoxes`, `mapboxMap`).
- A component id drawn from the shared `getUniqueId` counter at mount. `Env.uniqueIds` counts only the pinned ids.
- `loading-stop` on an id that never started. JavaScript computes `NaN` there, so `Reduce` requires the counter to be present (`CanReduce`).
- AvlMapJsx.HoverMoveSpec: the `hover-layer-move` that `mousemove` sends (src/LayerContainer.js:160-167) carries no `pinnable` or `sortOrder`, so the reducer stores `undefined` for both (src/avl-map.jsx:148-155). The model takes a boolean and an integer from the action. An absent `pinnable` acts like `false` in the filter at src/avl-map.jsx:180, but an absent `sortOrder` makes the comparator at src/avl-map.jsx:781-783 return `NaN`, and the model does not capture the order JavaScript then produces.
- LayerContainerModel.ToggleTwiceFromVisible: requires the declared engine-layer ids to be distinct.
- LayerContainerModel.HideAllSpec: requires the declared engine-layer ids to be distinct. With a repeated id the second `_setVisibilityNone` reads the `"none"` the first one set and records `"none"` for a layer that was visible (`RepeatedIdRecordsHidden`). `HideAllLayout` states the layout half for any ids.
- The `loading-stop` that `fetchData` dispatches once `layer.fetchData` and `layer.render` resolve. It happens later, outside a detection round; `Round` leaves the counters raised.
- The `layer.render` calls of the detection effect for the layers to re-render. They are calls into the layers and change no reducer state.
- LayerContainerModel.Surface: `setLayoutProperty` on a missing layer is a no-op and `getLayoutProperty` then reads `Unset`. Mapbox itself reports an error there.
- LayerPanel.IconOf: a function icon is an index into a caller-supplied table, not an arbitrary JavaScript function.
- The `addHover` and `addClick` loops accumulate their records locally and append them to `callbacks` once, rather than pushing one by one. No other code observes the intermediate state.
- Widths and counters are unbounded integers. The floating-point arithmetic of JavaScript numbers is not modelled.

## Findings

| source | as written | input that shows it | evidently intended | confidence | as-written member | corrected member |
|---|---|---|---|---|---|---|
| src/avl-map.jsx:279-306 | `update-prev` stores `get(layerProps, id, {})`, a new object, as the previous props, while the detection at src/avl-map.jsx:838-841 compares `get(layerProps, id, null)` with it | one active layer whose entry is absent from `layerProps` while `prevLayerProps` holds an object for it: every round sees `null !== {}` and refetches it again | store the same value the detection reads (`null` for an absent entry), so that one `update-prev` settles the layer | not executed | AvlMapJsx.UpdatePrevAsWritten, AvlMapJsx.AsWrittenKeepsRefetching, AvlMapJsx.DroppedPropsRefetchForever | AvlMapJsx.UpdatePrevStep, AvlMapJsx.RoundClearsProps, AvlMapJsx.SettlesAfterTwoRounds |
