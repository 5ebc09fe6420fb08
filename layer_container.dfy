/**
 * The per-layer lifecycle object of src/LayerContainer.js, acting on an
 * abstract map surface. The surface keeps the parts of the mapbox map the
 * container touches: the source ids, the layout visibility of each engine
 * layer, the hover flag of each feature, the event bindings, and a log of
 * every call made on it.
 */
module LayerContainerModel {
  import opened MapCommon

  // ---------------------------------------------------------------------
  // Layer ids

  const LayerIdPrefix: string := "avl-layer-"

  function DigitChar(d: nat): (c: char)
    requires d < 10
    ensures '0' <= c <= '9'
  {
    (d + '0' as int) as char
  }

  /** The decimal form of `n`, as a template literal prints it. */
  function Decimal(n: nat): (r: string)
    ensures |r| >= 1
    ensures |r| == 1 <==> n < 10
    decreases n
  {
    if n < 10 then [DigitChar(n)] else Decimal(n / 10) + [DigitChar(n % 10)]
  }

  /** Different numbers print differently. */
  lemma {:induction false} DecimalInjective(a: nat, b: nat)
    ensures Decimal(a) == Decimal(b) ==> a == b
    decreases a
  {
    if Decimal(a) == Decimal(b) && a >= 10 && b >= 10 {
      var da := Decimal(a);
      assert da[..|da| - 1] == Decimal(a / 10);
      assert Decimal(b)[..|da| - 1] == Decimal(b / 10);
      DecimalInjective(a / 10, b / 10);
      assert DigitChar(a % 10) == DigitChar(b % 10);
    }
  }

  /** The id of the `n`-th container, counting from 0. */
  function LayerIdOf(n: nat): string
  {
    LayerIdPrefix + Decimal(n)
  }

  /** The ids start at `avl-layer-0`, and two different counter values give two different ids. */
  lemma LayerIdsDistinct(a: nat, b: nat)
    ensures LayerIdOf(0) == "avl-layer-0"
    ensures a != b ==> LayerIdOf(a) != LayerIdOf(b)
  {
    if LayerIdOf(a) == LayerIdOf(b) {
      assert Decimal(a) == LayerIdOf(a)[|LayerIdPrefix|..];
      assert Decimal(b) == LayerIdOf(b)[|LayerIdPrefix|..];
      DecimalInjective(a, b);
    }
  }

  /** The module-level counter behind `getLayerId`; `issued` is the source's `id + 1`. */
  class IdGenerator {
    var issued: nat

    constructor()
      ensures issued == 0
    {
      issued := 0;
    }

    method Next() returns (id: string)
      modifies this
      ensures issued == old(issued) + 1
      ensures id == LayerIdOf(old(issued))
    {
      id := LayerIdOf(issued);
      issued := issued + 1;
    }
  }

  // ---------------------------------------------------------------------
  // The map surface

  /** A layout `visibility` value: not set (`undefined`), `"visible"` or `"none"`. */
  datatype Visibility = Unset | Visible | Hidden

  /** The feature a `setFeatureState` call addresses: `{ id, source, sourceLayer }`. */
  datatype FeatureKey = FeatureKey(id: string, source: string, sourceLayer: string)

  datatype EventKind = Click | MouseMove | MouseLeave

  /** The identity of a bound callback: its container and a serial number. */
  datatype Handler = Handler(owner: string, serial: nat)

  /** One `{ action, layerId, callback }` record, as registered with `map.on`. */
  datatype Binding = Binding(event: EventKind, layerId: string, handler: Handler)

  /** A source declaration `{ id, source }`. */
  datatype SourceSpec = SourceSpec(id: string, source: Ref)

  /** An engine-layer declaration: its id and the layout visibility it is declared with. */
  datatype LayerSpec = LayerSpec(id: string, visibility: Visibility)

  datatype Call =
    | AddSourceCall(sourceId: string)
    | AddLayerCall(spec: LayerSpec)
    | SetLayoutCall(layerId: string, visibility: Visibility)
    | SetFeatureStateCall(feature: FeatureKey, hover: bool)
    | OnCall(binding: Binding)
    | OffCall(binding: Binding)
    | RemoveLayerCall(layerId: string)

  /** The surface's state: the engine layers present are the keys of `layout`. */
  datatype Surf = Surf(sources: set<string>, layout: map<string, Visibility>,
                       featureHover: map<FeatureKey, bool>, bindings: seq<Binding>, log: seq<Call>)

  /** The bindings other than `b`. */
  function Without(bs: seq<Binding>, b: Binding): (r: seq<Binding>)
    ensures forall x :: x in r <==> x in bs && x != b
  {
    if bs == [] then []
    else
      var rest := Without(bs[..|bs| - 1], b);
      assert forall x :: x in bs <==> x in bs[..|bs| - 1] || x == bs[|bs| - 1];
      if bs[|bs| - 1] == b then rest else rest + [bs[|bs| - 1]]
  }

  /** `getLayoutProperty(id, "visibility")`. */
  function LayoutOf(s: Surf, id: string): Visibility
  {
    if id in s.layout then s.layout[id] else Unset
  }

  /** What one call does to the surface; every call is logged. */
  function Perform(s: Surf, c: Call): (r: Surf)
    ensures r.log == s.log + [c]
  {
    var t := s.(log := s.log + [c]);
    match c
    case AddSourceCall(id) => t.(sources := s.sources + {id})
    case AddLayerCall(spec) => t.(layout := s.layout[spec.id := spec.visibility])
    case SetLayoutCall(id, v) => if id in s.layout then t.(layout := s.layout[id := v]) else t
    case SetFeatureStateCall(k, b) => t.(featureHover := s.featureHover[k := b])
    case OnCall(b) => t.(bindings := s.bindings + [b])
    case OffCall(b) => t.(bindings := Without(s.bindings, b))
    case RemoveLayerCall(id) => t.(layout := s.layout - {id})
  }

  function PerformAll(s: Surf, calls: seq<Call>): (r: Surf)
    ensures r.log == s.log + calls
    decreases |calls|
  {
    if calls == [] then s
    else Perform(PerformAll(s, calls[..|calls| - 1]), calls[|calls| - 1])
  }

  lemma PerformAllSnoc(s: Surf, calls: seq<Call>, c: Call)
    ensures PerformAll(s, calls + [c]) == Perform(PerformAll(s, calls), c)
  {
    assert (calls + [c])[..|calls|] == calls;
  }

  lemma {:induction false} PerformAllAppend(s: Surf, a: seq<Call>, b: seq<Call>)
    ensures PerformAll(PerformAll(s, a), b) == PerformAll(s, a + b)
    decreases |b|
  {
    if b != [] {
      PerformAllAppend(s, a, b[..|b| - 1]);
      assert (a + b)[..|a + b| - 1] == a + b[..|b| - 1];
    } else {
      assert a + b == a;
    }
  }

  /** The mapbox map, reduced to what the container reads and changes. */
  class Surface {
    var sources: set<string>
    var layout: map<string, Visibility>
    var featureHover: map<FeatureKey, bool>
    var bindings: seq<Binding>
    var log: seq<Call>

    constructor(sources: set<string>, layout: map<string, Visibility>)
      ensures Snapshot() == Surf(sources, layout, map[], [], [])
    {
      this.sources := sources;
      this.layout := layout;
      featureHover := map[];
      bindings := [];
      log := [];
    }

    function Snapshot(): Surf
      reads this
    {
      Surf(sources, layout, featureHover, bindings, log)
    }

    /** `getSource(id)` is truthy. */
    predicate HasSource(id: string)
      reads this
    {
      id in sources
    }

    /** `getLayer(id)` is truthy. */
    predicate HasLayer(id: string)
      reads this
    {
      id in layout
    }

    function GetLayoutProperty(id: string): (v: Visibility)
      reads this
      ensures v == LayoutOf(Snapshot(), id)
    {
      if id in layout then layout[id] else Unset
    }

    method AddSource(id: string)
      modifies this
      ensures Snapshot() == Perform(old(Snapshot()), AddSourceCall(id))
    {
      sources := sources + {id};
      log := log + [AddSourceCall(id)];
    }

    method AddLayer(spec: LayerSpec)
      modifies this
      ensures Snapshot() == Perform(old(Snapshot()), AddLayerCall(spec))
    {
      layout := layout[spec.id := spec.visibility];
      log := log + [AddLayerCall(spec)];
    }

    /** `setLayoutProperty(id, "visibility", v)`; a missing layer is left alone. */
    method SetLayoutProperty(id: string, v: Visibility)
      modifies this
      ensures Snapshot() == Perform(old(Snapshot()), SetLayoutCall(id, v))
    {
      if id in layout {
        layout := layout[id := v];
      }
      log := log + [SetLayoutCall(id, v)];
    }

    /** `setFeatureState(feature, { hover })`. */
    method SetFeatureState(feature: FeatureKey, hover: bool)
      modifies this
      ensures Snapshot() == Perform(old(Snapshot()), SetFeatureStateCall(feature, hover))
    {
      featureHover := featureHover[feature := hover];
      log := log + [SetFeatureStateCall(feature, hover)];
    }

    method On(b: Binding)
      modifies this
      ensures Snapshot() == Perform(old(Snapshot()), OnCall(b))
    {
      bindings := bindings + [b];
      log := log + [OnCall(b)];
    }

    method Off(b: Binding)
      modifies this
      ensures Snapshot() == Perform(old(Snapshot()), OffCall(b))
    {
      bindings := Without(bindings, b);
      log := log + [OffCall(b)];
    }

    method RemoveLayer(id: string)
      modifies this
      ensures Snapshot() == Perform(old(Snapshot()), RemoveLayerCall(id))
    {
      layout := layout - {id};
      log := log + [RemoveLayerCall(id)];
    }
  }

  // ---------------------------------------------------------------------
  // Adding sources and engine layers

  function SourceIdsOf(specs: seq<SourceSpec>): set<string>
  {
    set spec | spec in specs :: spec.id
  }

  function LayerIdsOf(specs: seq<LayerSpec>): (r: seq<string>)
    ensures |r| == |specs| && forall i :: 0 <= i < |specs| ==> r[i] == specs[i].id
  {
    seq(|specs|, i requires 0 <= i < |specs| => specs[i].id)
  }

  /** The `sources.forEach` of `_onAdd`: `addSource` for each id the surface lacks at that moment. */
  function AddSources(s: Surf, specs: seq<SourceSpec>): Surf
    decreases |specs|
  {
    if specs == [] then s
    else
      var r := AddSources(s, specs[..|specs| - 1]);
      var spec := specs[|specs| - 1];
      if spec.id in r.sources then r else Perform(r, AddSourceCall(spec.id))
  }

  /**
   * Adding the sources adds exactly the declared ids and changes nothing
   * else; every call it makes is an `addSource` of an id that was absent,
   * and no id is added twice.
   */
  lemma {:induction false} AddSourcesSpec(s: Surf, specs: seq<SourceSpec>)
    ensures var r := AddSources(s, specs);
            && r.sources == s.sources + SourceIdsOf(specs)
            && r.layout == s.layout && r.featureHover == s.featureHover && r.bindings == s.bindings
            && |r.log| >= |s.log| && r.log[..|s.log|] == s.log
            && (forall i :: |s.log| <= i < |r.log| ==>
                  r.log[i].AddSourceCall? && r.log[i].sourceId !in s.sources && r.log[i].sourceId in r.sources)
            && (forall i, j :: |s.log| <= i < j < |r.log| ==> r.log[i] != r.log[j])
    decreases |specs|
  {
    if specs != [] {
      var init := specs[..|specs| - 1];
      var spec := specs[|specs| - 1];
      AddSourcesSpec(s, init);
      assert SourceIdsOf(specs) == SourceIdsOf(init) + {spec.id} by {
        assert specs == init + [spec];
      }
      var r1 := AddSources(s, init);
      if spec.id !in r1.sources {
        var r := Perform(r1, AddSourceCall(spec.id));
        assert r.log == r1.log + [AddSourceCall(spec.id)];
        assert r.log[..|s.log|] == r1.log[..|s.log|];
        forall i, j | |s.log| <= i < j < |r.log| ensures r.log[i] != r.log[j] {
          if j == |r1.log| {
            assert r1.log[i].sourceId in r1.sources;
          }
        }
      }
    }
  }

  /** When every declared source is present, adding the sources does nothing at all. */
  lemma {:induction false} AddSourcesNoop(s: Surf, specs: seq<SourceSpec>)
    requires SourceIdsOf(specs) <= s.sources
    ensures AddSources(s, specs) == s
    decreases |specs|
  {
    if specs != [] {
      var init := specs[..|specs| - 1];
      assert SourceIdsOf(init) <= SourceIdsOf(specs) by {
        forall x | x in SourceIdsOf(init) ensures x in SourceIdsOf(specs) {
          var spec :| spec in init && spec.id == x;
          assert spec in specs;
        }
      }
      AddSourcesNoop(s, init);
      assert specs[|specs| - 1] in specs;
    }
  }

  /** `layerVisibility[id]`, `undefined` (here `Unset`) when nothing is recorded. */
  function RecordOf(lv: map<string, Visibility>, id: string): Visibility
  {
    if id in lv then lv[id] else Unset
  }

  /** `_setVisibilityNone`: record a layout that is already `"none"`, otherwise set it to `"none"`. */
  function HideOne(s: Surf, lv: map<string, Visibility>, id: string): (r: (Surf, map<string, Visibility>))
    ensures r.0.sources == s.sources && r.0.featureHover == s.featureHover && r.0.bindings == s.bindings
    ensures forall k :: k in r.0.layout <==> k in s.layout
    ensures forall k :: k in s.layout && k != id ==> r.0.layout[k] == s.layout[k]
    ensures forall k :: k != id ==> RecordOf(r.1, k) == RecordOf(lv, k)
    ensures id in s.layout ==> r.0.layout[id] == Hidden
    ensures RecordOf(r.1, id) == if LayoutOf(s, id) == Hidden then Hidden else RecordOf(lv, id)
  {
    if LayoutOf(s, id) == Hidden then (s, lv[id := Hidden])
    else (Perform(s, SetLayoutCall(id, Hidden)), lv)
  }

  /** `_setVisibilityVisible`: set `"visible"` unless `"none"` is recorded. */
  function ShowOne(s: Surf, lv: map<string, Visibility>, id: string): (r: Surf)
    ensures r.sources == s.sources && r.featureHover == s.featureHover && r.bindings == s.bindings
    ensures forall k :: k in r.layout <==> k in s.layout
    ensures forall k :: k in s.layout && k != id ==> r.layout[k] == s.layout[k]
    ensures id in s.layout ==> r.layout[id] == if RecordOf(lv, id) != Hidden then Visible else s.layout[id]
  {
    if RecordOf(lv, id) != Hidden then Perform(s, SetLayoutCall(id, Visible)) else s
  }

  /**
   * The `layers.forEach` of `_onAdd`: an engine layer the surface lacks is
   * added, then hidden when the container is not visible, or else has its
   * layout visibility recorded; a present one is left alone.
   */
  function AddLayers(s: Surf, lv: map<string, Visibility>, isVisible: bool, specs: seq<LayerSpec>): (Surf, map<string, Visibility>)
    decreases |specs|
  {
    if specs == [] then (s, lv)
    else
      var r := AddLayers(s, lv, isVisible, specs[..|specs| - 1]);
      AddLayer(r.0, r.1, isVisible, specs[|specs| - 1])
  }

  /** One step of the `layers.forEach` of `_onAdd`. */
  function AddLayer(s: Surf, lv: map<string, Visibility>, isVisible: bool, spec: LayerSpec): (r: (Surf, map<string, Visibility>))
    ensures r.0.sources == s.sources && r.0.featureHover == s.featureHover && r.0.bindings == s.bindings
    ensures forall id :: id in r.0.layout <==> id in s.layout || id == spec.id
    ensures forall id :: id in s.layout ==> r.0.layout[id] == s.layout[id]
    ensures forall id :: id in s.layout || id != spec.id ==> RecordOf(r.1, id) == RecordOf(lv, id)
  {
    if spec.id in s.layout then (s, lv)
    else
      var t := Perform(s, AddLayerCall(spec));
      if !isVisible then HideOne(t, lv, spec.id) else (t, lv[spec.id := LayoutOf(t, spec.id)])
  }

  /** The first declaration with the given id. */
  function SpecFor(specs: seq<LayerSpec>, id: string): (spec: LayerSpec)
    requires id in LayerIdsOf(specs)
    ensures spec in specs && spec.id == id
  {
    if specs[0].id == id then specs[0]
    else
      assert LayerIdsOf(specs)[1..] == LayerIdsOf(specs[1..]);
      SpecFor(specs[1..], id)
  }

  lemma LayerIdsCons(specs: seq<LayerSpec>)
    requires specs != []
    ensures LayerIdsOf(specs) == [specs[0].id] + LayerIdsOf(specs[1..])
  {
  }

  lemma {:induction false} SpecForSnoc(specs: seq<LayerSpec>, spec: LayerSpec, id: string)
    requires id in LayerIdsOf(specs + [spec])
    ensures id in LayerIdsOf(specs) ==> SpecFor(specs + [spec], id) == SpecFor(specs, id)
    ensures id !in LayerIdsOf(specs) ==> SpecFor(specs + [spec], id) == spec
    decreases |specs|
  {
    var ss := specs + [spec];
    LayerIdsCons(ss);
    if specs == [] {
      assert ss == [spec];
      assert LayerIdsOf(ss[1..]) == [];
    } else {
      assert ss[0] == specs[0];
      assert ss[1..] == specs[1..] + [spec];
      LayerIdsCons(specs);
      if specs[0].id != id {
        SpecForSnoc(specs[1..], spec, id);
      }
    }
  }

  /**
   * Adding the engine layers adds exactly the declared ids that were absent
   * and keeps the layout and the record of every pre-existing layer, and of
   * every undeclared id; sources, hover flags and bindings do not change.
   */
  lemma {:induction false} AddLayersKeeps(s: Surf, lv: map<string, Visibility>, isVisible: bool, specs: seq<LayerSpec>)
    ensures var r := AddLayers(s, lv, isVisible, specs);
            && r.0.sources == s.sources && r.0.featureHover == s.featureHover && r.0.bindings == s.bindings
            && (forall id :: id in r.0.layout <==> id in s.layout || id in LayerIdsOf(specs))
            && (forall id :: id in s.layout ==> r.0.layout[id] == s.layout[id])
            && (forall id :: id in s.layout || id !in LayerIdsOf(specs) ==> RecordOf(r.1, id) == RecordOf(lv, id))
    decreases |specs|
  {
    if specs != [] {
      var init := specs[..|specs| - 1];
      AddLayersKeeps(s, lv, isVisible, init);
      assert LayerIdsOf(specs) == LayerIdsOf(init) + [specs[|specs| - 1].id];
    }
  }

  /**
   * A layer that adding the engine layers creates ends `"none"` when the
   * container is hidden (recording `"none"` if it was declared so), and
   * otherwise at its declared visibility, with that visibility recorded.
   */
  lemma {:induction false} AddLayersCreated(s: Surf, lv: map<string, Visibility>, isVisible: bool, specs: seq<LayerSpec>, id: string)
    requires id in LayerIdsOf(specs) && id !in s.layout
    ensures var r := AddLayers(s, lv, isVisible, specs);
            var spec := SpecFor(specs, id);
            && id in r.0.layout
            && (!isVisible ==> r.0.layout[id] == Hidden &&
                               RecordOf(r.1, id) == (if spec.visibility == Hidden then Hidden else RecordOf(lv, id)))
            && (isVisible ==> r.0.layout[id] == spec.visibility && RecordOf(r.1, id) == spec.visibility)
    decreases |specs|
  {
    var init := specs[..|specs| - 1];
    var spec := specs[|specs| - 1];
    assert specs == init + [spec];
    assert LayerIdsOf(specs) == LayerIdsOf(init) + [spec.id];
    SpecForSnoc(init, spec, id);
    AddLayersKeeps(s, lv, isVisible, init);
    var r1 := AddLayers(s, lv, isVisible, init);
    assert AddLayers(s, lv, isVisible, specs) == AddLayer(r1.0, r1.1, isVisible, spec);
    if id in LayerIdsOf(init) {
      AddLayersCreated(s, lv, isVisible, init, id);
    } else {
      assert RecordOf(r1.1, id) == RecordOf(lv, id);
      AddLayerCreates(r1.0, r1.1, isVisible, spec);
    }
  }

  /** One step of the `layers.forEach` on an absent id creates it with the layout the container's visibility calls for. */
  lemma AddLayerCreates(s: Surf, lv: map<string, Visibility>, isVisible: bool, spec: LayerSpec)
    requires spec.id !in s.layout
    ensures var r := AddLayer(s, lv, isVisible, spec);
            && spec.id in r.0.layout
            && (!isVisible ==> r.0.layout[spec.id] == Hidden &&
                               RecordOf(r.1, spec.id) == (if spec.visibility == Hidden then Hidden else RecordOf(lv, spec.id)))
            && (isVisible ==> r.0.layout[spec.id] == spec.visibility && RecordOf(r.1, spec.id) == spec.visibility)
  {
    var t := Perform(s, AddLayerCall(spec));
    assert t.layout == s.layout[spec.id := spec.visibility];
    assert LayoutOf(t, spec.id) == spec.visibility;
  }

  /** An `addLayer` of an id absent from `layout`, or, for a hidden container, a `setLayoutProperty(id, "none")` of one. */
  predicate CreatesAbsent(c: Call, layout: map<string, Visibility>, isVisible: bool)
  {
    (c.AddLayerCall? && c.spec.id !in layout) ||
    (!isVisible && c.SetLayoutCall? && c.visibility == Hidden && c.layerId !in layout)
  }

  /** The calls of one step of the `layers.forEach`. */
  lemma AddLayerCalls(s: Surf, lv: map<string, Visibility>, isVisible: bool, spec: LayerSpec)
    ensures var r := AddLayer(s, lv, isVisible, spec);
            && |r.0.log| >= |s.log| && r.0.log[..|s.log|] == s.log
            && (forall i :: |s.log| <= i < |r.0.log| ==> CreatesAbsent(r.0.log[i], s.layout, isVisible))
  {
    if spec.id !in s.layout {
      var t := Perform(s, AddLayerCall(spec));
      assert t.log == s.log + [AddLayerCall(spec)];
      if !isVisible {
        assert LayoutOf(t, spec.id) == spec.visibility;
      }
    }
  }

  /**
   * The calls adding the engine layers makes are `addLayer`s of absent ids
   * and, for a hidden container, `setLayoutProperty(id, "none")`s of absent ids.
   */
  lemma {:induction false} AddLayersCalls(s: Surf, lv: map<string, Visibility>, isVisible: bool, specs: seq<LayerSpec>)
    ensures var r := AddLayers(s, lv, isVisible, specs);
            && |r.0.log| >= |s.log| && r.0.log[..|s.log|] == s.log
            && (forall i :: |s.log| <= i < |r.0.log| ==> CreatesAbsent(r.0.log[i], s.layout, isVisible))
    decreases |specs|
  {
    if specs != [] {
      var init := specs[..|specs| - 1];
      var r1 := AddLayers(s, lv, isVisible, init);
      var r := AddLayer(r1.0, r1.1, isVisible, specs[|specs| - 1]);
      assert r == AddLayers(s, lv, isVisible, specs);
      AddLayersCalls(s, lv, isVisible, init);
      AddLayersKeeps(s, lv, isVisible, init);
      AddLayerCalls(r1.0, r1.1, isVisible, specs[|specs| - 1]);
      forall i | |s.log| <= i < |r.0.log| ensures CreatesAbsent(r.0.log[i], s.layout, isVisible) {
        if i < |r1.0.log| {
          assert r.0.log[i] == r1.0.log[i];
        } else {
          assert CreatesAbsent(r.0.log[i], r1.0.layout, isVisible);
        }
      }
    }
  }

  /** When every declared engine layer is present, adding the layers does nothing at all. */
  lemma {:induction false} AddLayersNoop(s: Surf, lv: map<string, Visibility>, isVisible: bool, specs: seq<LayerSpec>)
    requires forall i :: 0 <= i < |specs| ==> specs[i].id in s.layout
    ensures AddLayers(s, lv, isVisible, specs) == (s, lv)
    decreases |specs|
  {
    if specs != [] {
      AddLayersNoop(s, lv, isVisible, specs[..|specs| - 1]);
    }
  }

  // ---------------------------------------------------------------------
  // Event bindings

  /** The records `addHover` pushes: a `mousemove` and a `mouseleave` per hover layer. */
  function HoverBindings(layerIds: seq<string>, owner: string, serial: nat): (r: seq<Binding>)
    ensures |r| == 2 * |layerIds|
    decreases |layerIds|
  {
    if layerIds == [] then []
    else
      var k := serial + 2 * (|layerIds| - 1);
      var l := layerIds[|layerIds| - 1];
      HoverBindings(layerIds[..|layerIds| - 1], owner, serial) +
      [Binding(MouseMove, l, Handler(owner, k)), Binding(MouseLeave, l, Handler(owner, k + 1))]
  }

  /** The records `addClick` pushes: a `click` per click layer. */
  function ClickBindings(layerIds: seq<string>, owner: string, serial: nat): (r: seq<Binding>)
    ensures |r| == |layerIds|
    decreases |layerIds|
  {
    if layerIds == [] then []
    else
      ClickBindings(layerIds[..|layerIds| - 1], owner, serial) +
      [Binding(Click, layerIds[|layerIds| - 1], Handler(owner, serial + |layerIds| - 1))]
  }

  function OnCallsOf(bs: seq<Binding>): (r: seq<Call>)
    ensures |r| == |bs| && forall i :: 0 <= i < |bs| ==> r[i] == OnCall(bs[i])
    decreases |bs|
  {
    if bs == [] then [] else OnCallsOf(bs[..|bs| - 1]) + [OnCall(bs[|bs| - 1])]
  }

  /** The `off` calls for `bs`, the last binding first. */
  function OffCallsReversed(bs: seq<Binding>): (r: seq<Call>)
    ensures |r| == |bs| && forall i :: 0 <= i < |bs| ==> r[i] == OffCall(bs[|bs| - 1 - i])
    decreases |bs|
  {
    if bs == [] then [] else [OffCall(bs[|bs| - 1])] + OffCallsReversed(bs[..|bs| - 1])
  }

  function RemoveCallsOf(ids: seq<string>): (r: seq<Call>)
    ensures |r| == |ids| && forall i :: 0 <= i < |ids| ==> r[i] == RemoveLayerCall(ids[i])
    decreases |ids|
  {
    if ids == [] then [] else RemoveCallsOf(ids[..|ids| - 1]) + [RemoveLayerCall(ids[|ids| - 1])]
  }

  /** `map.on` for each binding, in order. */
  function Bind(s: Surf, bs: seq<Binding>): Surf
    decreases |bs|
  {
    if bs == [] then s else Perform(Bind(s, bs[..|bs| - 1]), OnCall(bs[|bs| - 1]))
  }

  /** Binding appends to the surface's bindings and logs one `on` per binding; nothing else changes. */
  lemma {:induction false} BindSpec(s: Surf, bs: seq<Binding>)
    ensures var r := Bind(s, bs);
            && r.bindings == s.bindings + bs
            && r.sources == s.sources && r.layout == s.layout && r.featureHover == s.featureHover
            && r.log == s.log + OnCallsOf(bs)
    decreases |bs|
  {
    if bs != [] {
      BindSpec(s, bs[..|bs| - 1]);
      assert bs == bs[..|bs| - 1] + [bs[|bs| - 1]];
    }
  }

  /** `map.off` for each binding, the last one first. */
  function Unbind(s: Surf, bs: seq<Binding>): Surf
    decreases |bs|
  {
    if bs == [] then s else Unbind(Perform(s, OffCall(bs[|bs| - 1])), bs[..|bs| - 1])
  }

  /**
   * Unbinding removes every listed binding from the surface, keeps every
   * other one, and logs one `off` per binding in reverse registration order;
   * nothing else changes.
   */
  lemma {:induction false} UnbindSpec(s: Surf, bs: seq<Binding>)
    ensures var r := Unbind(s, bs);
            && (forall b :: b in r.bindings <==> b in s.bindings && b !in bs)
            && r.sources == s.sources && r.layout == s.layout && r.featureHover == s.featureHover
            && r.log == s.log + OffCallsReversed(bs)
    decreases |bs|
  {
    if bs != [] {
      var last := bs[|bs| - 1];
      var t := Perform(s, OffCall(last));
      UnbindSpec(t, bs[..|bs| - 1]);
      assert forall b :: b in bs <==> b in bs[..|bs| - 1] || b == last by {
        assert bs == bs[..|bs| - 1] + [last];
      }
    }
  }

  /** `removeLayer` for each declared engine layer, in order. */
  function RemoveLayers(s: Surf, ids: seq<string>): Surf
    decreases |ids|
  {
    if ids == [] then s else Perform(RemoveLayers(s, ids[..|ids| - 1]), RemoveLayerCall(ids[|ids| - 1]))
  }

  /** Removing the layers drops exactly those ids from the layout; sources, hover flags and bindings stay. */
  lemma {:induction false} RemoveLayersSpec(s: Surf, ids: seq<string>)
    ensures var r := RemoveLayers(s, ids);
            && (forall id :: id in r.layout <==> id in s.layout && id !in ids)
            && (forall id :: id in r.layout ==> r.layout[id] == s.layout[id])
            && r.sources == s.sources && r.featureHover == s.featureHover && r.bindings == s.bindings
            && r.log == s.log + RemoveCallsOf(ids)
    decreases |ids|
  {
    if ids != [] {
      var init := ids[..|ids| - 1];
      var last := ids[|ids| - 1];
      RemoveLayersSpec(s, init);
      var t := RemoveLayers(s, init);
      var r := RemoveLayers(s, ids);
      assert r.layout == t.layout - {last} && r.log == t.log + [RemoveLayerCall(last)];
      assert RemoveCallsOf(ids) == RemoveCallsOf(init) + [RemoveLayerCall(last)];
      assert forall id :: id in ids <==> id in init || id == last by {
        assert ids == init + [last];
      }
    }
  }

  /**
   * `_onRemove` unbinds every registered handler, last registered first,
   * removes every declared engine layer and never removes a source.
   */
  lemma OnRemoveSpec(s: Surf, callbacks: seq<Binding>, ids: seq<string>)
    ensures var r := RemoveLayers(Unbind(s, callbacks), ids);
            && (forall b :: b in r.bindings <==> b in s.bindings && b !in callbacks)
            && (forall id :: id in r.layout <==> id in s.layout && id !in ids)
            && (forall id :: id in r.layout ==> r.layout[id] == s.layout[id])
            && r.sources == s.sources && r.featureHover == s.featureHover
            && r.log == s.log + OffCallsReversed(callbacks) + RemoveCallsOf(ids)
  {
    UnbindSpec(s, callbacks);
    RemoveLayersSpec(Unbind(s, callbacks), ids);
  }

  // ---------------------------------------------------------------------
  // Visibility

  predicate Distinct(ids: seq<string>)
  {
    forall i, j :: 0 <= i < j < |ids| ==> ids[i] != ids[j]
  }

  /** The hiding half of `toggleVisibility`: `_setVisibilityNone` for each declared engine layer. */
  function HideAll(s: Surf, lv: map<string, Visibility>, ids: seq<string>): (Surf, map<string, Visibility>)
    decreases |ids|
  {
    if ids == [] then (s, lv)
    else
      var r := HideAll(s, lv, ids[..|ids| - 1]);
      HideOne(r.0, r.1, ids[|ids| - 1])
  }

  /** One iteration of the `layers.forEach` of `toggleVisibility`. */
  lemma ToggleStep(s0: Surf, lv0: map<string, Visibility>, ids: seq<string>, i: nat, visible: bool,
                   before: Surf, lvBefore: map<string, Visibility>, after: Surf, lvAfter: map<string, Visibility>)
    requires i < |ids|
    requires visible ==> before == ShowAll(s0, lv0, ids[..i]) && lvBefore == lv0 &&
                         after == ShowOne(before, lvBefore, ids[i]) && lvAfter == lvBefore
    requires !visible ==> (before, lvBefore) == HideAll(s0, lv0, ids[..i]) &&
                          (after, lvAfter) == HideOne(before, lvBefore, ids[i])
    ensures visible ==> after == ShowAll(s0, lv0, ids[..i + 1]) && lvAfter == lv0
    ensures !visible ==> (after, lvAfter) == HideAll(s0, lv0, ids[..i + 1])
  {
    assert ids[..i + 1][..i] == ids[..i];
  }

  /** The showing half of `toggleVisibility`: `_setVisibilityVisible` for each declared engine layer. */
  function ShowAll(s: Surf, lv: map<string, Visibility>, ids: seq<string>): Surf
    decreases |ids|
  {
    if ids == [] then s else ShowOne(ShowAll(s, lv, ids[..|ids| - 1]), lv, ids[|ids| - 1])
  }

  /**
   * Hiding leaves every declared engine layer `"none"` and records `"none"`
   * for those already `"none"`; undeclared layers and records stay, and so
   * do sources, hover flags and bindings.
   */
  lemma {:induction false} HideAllSpec(s: Surf, lv: map<string, Visibility>, ids: seq<string>)
    requires Distinct(ids)
    ensures var r := HideAll(s, lv, ids);
            && r.0.sources == s.sources && r.0.featureHover == s.featureHover && r.0.bindings == s.bindings
            && (forall id :: id in r.0.layout <==> id in s.layout)
            && (forall id :: id in s.layout && id in ids ==> r.0.layout[id] == Hidden)
            && (forall id :: id in ids ==> RecordOf(r.1, id) == if LayoutOf(s, id) == Hidden then Hidden else RecordOf(lv, id))
            && (forall id :: id in s.layout && id !in ids ==> r.0.layout[id] == s.layout[id])
            && (forall id :: id !in ids ==> RecordOf(r.1, id) == RecordOf(lv, id))
    decreases |ids|
  {
    if ids != [] {
      var init := ids[..|ids| - 1];
      var last := ids[|ids| - 1];
      HideAllSpec(s, lv, init);
      assert ids == init + [last];
      assert last !in init by {
        forall i | 0 <= i < |init| ensures init[i] != last {
          assert ids[i] == init[i];
        }
      }
      var r := HideAll(s, lv, init);
      assert LayoutOf(r.0, last) == LayoutOf(s, last);
    }
  }

  /**
   * With an engine layer declared twice, the second `_setVisibilityNone`
   * reads the `"none"` the first one set and records `"none"` for a layer
   * that was visible: declared once, its record stays as it was.
   */
  lemma RepeatedIdRecordsHidden(s: Surf, lv: map<string, Visibility>, id: string)
    requires id in s.layout && s.layout[id] != Hidden
    ensures RecordOf(HideAll(s, lv, [id]).1, id) == RecordOf(lv, id)
    ensures RecordOf(HideAll(s, lv, [id, id]).1, id) == Hidden
  {
    assert [id][..0] == [];
    assert [id, id][..1] == [id];
    assert HideAll(s, lv, []) == (s, lv);
    var r1 := HideAll(s, lv, [id]);
    assert r1 == HideOne(s, lv, id);
    assert HideAll(s, lv, [id, id]) == HideOne(r1.0, r1.1, id);
  }

  /**
   * The layout half of hiding, for any declared ids, repeated or not: every
   * declared engine layer ends `"none"`, the others keep their layout, and
   * sources, hover flags and bindings stay.
   */
  lemma {:induction false} HideAllLayout(s: Surf, lv: map<string, Visibility>, ids: seq<string>)
    ensures var r := HideAll(s, lv, ids);
            && r.0.sources == s.sources && r.0.featureHover == s.featureHover && r.0.bindings == s.bindings
            && (forall id :: id in r.0.layout <==> id in s.layout)
            && (forall id :: id in s.layout && id in ids ==> r.0.layout[id] == Hidden)
            && (forall id :: id in s.layout && id !in ids ==> r.0.layout[id] == s.layout[id])
    decreases |ids|
  {
    if ids != [] {
      var init := ids[..|ids| - 1];
      var last := ids[|ids| - 1];
      HideAllLayout(s, lv, init);
      assert ids == init + [last];
    }
  }

  /**
   * Showing sets every declared engine layer `"visible"` unless `"none"` is
   * recorded for it, in which case it keeps its layout; nothing else changes.
   */
  lemma {:induction false} ShowAllSpec(s: Surf, lv: map<string, Visibility>, ids: seq<string>)
    ensures var r := ShowAll(s, lv, ids);
            && r.sources == s.sources && r.featureHover == s.featureHover && r.bindings == s.bindings
            && (forall id :: id in r.layout <==> id in s.layout)
            && (forall id :: id in s.layout && id in ids ==>
                  r.layout[id] == if RecordOf(lv, id) != Hidden then Visible else s.layout[id])
            && (forall id :: id in s.layout && id !in ids ==> r.layout[id] == s.layout[id])
    decreases |ids|
  {
    if ids != [] {
      ShowAllSpec(s, lv, ids[..|ids| - 1]);
      assert ids == ids[..|ids| - 1] + [ids[|ids| - 1]];
    }
  }

  /**
   * Toggling a visible container twice: a declared engine layer whose layout
   * was `"none"`, or that has `"none"` recorded, stays `"none"`; every other
   * declared engine layer ends `"visible"`; undeclared ones are untouched.
   */
  lemma ToggleTwiceFromVisible(s: Surf, lv: map<string, Visibility>, ids: seq<string>)
    requires Distinct(ids)
    ensures var h := HideAll(s, lv, ids);
            var r := ShowAll(h.0, h.1, ids);
            && (forall id :: id in r.layout <==> id in s.layout)
            && (forall id :: id in s.layout && id in ids ==>
                  r.layout[id] == if s.layout[id] == Hidden || RecordOf(lv, id) == Hidden then Hidden else Visible)
            && (forall id :: id in s.layout && id !in ids ==> r.layout[id] == s.layout[id])
  {
    var h := HideAll(s, lv, ids);
    HideAllSpec(s, lv, ids);
    ShowAllSpec(h.0, h.1, ids);
  }

  /** Toggling a hidden container twice leaves every declared engine layer `"none"`. */
  lemma ToggleTwiceFromHidden(s: Surf, lv: map<string, Visibility>, ids: seq<string>)
    ensures var r := HideAll(ShowAll(s, lv, ids), lv, ids);
            && (forall id :: id in r.0.layout <==> id in s.layout)
            && (forall id :: id in s.layout && id in ids ==> r.0.layout[id] == Hidden)
  {
    var t := ShowAll(s, lv, ids);
    ShowAllSpec(s, lv, ids);
    HideAllLayout(t, lv, ids);
  }

  // ---------------------------------------------------------------------
  // Hovered features

  /** A feature as a mouse event reports it; `id` is `None` for `undefined` or `null`. */
  datatype Feature = Feature(id: Option<string>, source: string, sourceLayer: string)

  /** A tracked Map of one hover layer stores each feature under its own id. */
  predicate WellKeyed(m: seq<Entry<FeatureKey>>)
  {
    forall e :: e in m ==> e.value.id == e.key
  }

  function NonNullIds(features: seq<Feature>): set<string>
  {
    set f | f in features && f.id.Some? :: f.id.value
  }

  /** Two features of one event share this id (`queryRenderedFeatures` may report a feature twice). */
  predicate ReportedTwice(features: seq<Feature>, id: string)
  {
    exists i, j :: 0 <= i < j < |features| && features[i].id == Some(id) && features[j].id == Some(id)
  }

  lemma ReportedTwiceSnoc(init: seq<Feature>, f: Feature, id: string)
    ensures ReportedTwice(init, id) ==> id in NonNullIds(init)
    ensures ReportedTwice(init + [f], id) <==> ReportedTwice(init, id) || (f.id == Some(id) && id in NonNullIds(init))
  {
    var features := init + [f];
    if ReportedTwice(init, id) {
      var i, j :| 0 <= i < j < |init| && init[i].id == Some(id) && init[j].id == Some(id);
      assert init[i] in init;
      assert features[i] == init[i] && features[j] == init[j];
    }
    if ReportedTwice(features, id) {
      var i, j :| 0 <= i < j < |features| && features[i].id == Some(id) && features[j].id == Some(id);
      assert features[i] == init[i];
      if j < |init| {
        assert features[j] == init[j];
      } else {
        assert init[i] in init;
      }
    }
    if f.id == Some(id) && id in NonNullIds(init) {
      var g :| g in init && g.id == Some(id);
      var i :| 0 <= i < |init| && init[i] == g;
      assert features[i] == g && features[|init|] == f;
    }
  }

  /** The state of the `features.forEach` of `mousemove`: what is left of the old Map, the new Map, and the writes so far. */
  datatype Diff = Diff(rest: seq<Entry<FeatureKey>>, next: seq<Entry<FeatureKey>>, calls: seq<Call>)

  function MoveSteps(prev: seq<Entry<FeatureKey>>, features: seq<Feature>): Diff
    decreases |features|
  {
    if features == [] then Diff(prev, [], [])
    else
      var d := MoveSteps(prev, features[..|features| - 1]);
      var f := features[|features| - 1];
      if f.id.None? then d
      else if f.id.value in KeysOf(d.rest) then
        Diff(DeleteEntry(d.rest, f.id.value), SetEntry(d.next, f.id.value, GetEntry(d.rest, f.id.value)), d.calls)
      else
        var v := FeatureKey(f.id.value, f.source, f.sourceLayer);
        Diff(d.rest, SetEntry(d.next, f.id.value, v), d.calls + [SetFeatureStateCall(v, true)])
  }

  /** One more feature of the event. */
  lemma MoveStepsSnoc(prev: seq<Entry<FeatureKey>>, features: seq<Feature>, i: nat)
    requires i < |features|
    ensures var d := MoveSteps(prev, features[..i]);
            var f := features[i];
            MoveSteps(prev, features[..i + 1]) ==
              if f.id.None? then d
              else if f.id.value in KeysOf(d.rest) then
                Diff(DeleteEntry(d.rest, f.id.value), SetEntry(d.next, f.id.value, GetEntry(d.rest, f.id.value)), d.calls)
              else
                var v := FeatureKey(f.id.value, f.source, f.sourceLayer);
                Diff(d.rest, SetEntry(d.next, f.id.value, v), d.calls + [SetFeatureStateCall(v, true)])
  {
    assert features[..i + 1][..i] == features[..i];
  }

  /** `hover: false` for each entry, in Map order. */
  function ReleaseCalls(m: seq<Entry<FeatureKey>>): (r: seq<Call>)
    ensures |r| == |m| && forall i :: 0 <= i < |m| ==> r[i] == SetFeatureStateCall(m[i].value, false)
    decreases |m|
  {
    if m == [] then [] else ReleaseCalls(m[..|m| - 1]) + [SetFeatureStateCall(m[|m| - 1].value, false)]
  }

  /** Every write `mousemove` makes: the new features on, then what is left of the old Map off. */
  function MoveCalls(prev: seq<Entry<FeatureKey>>, features: seq<Feature>): seq<Call>
  {
    var d := MoveSteps(prev, features);
    d.calls + ReleaseCalls(d.rest)
  }

  /** Some call sets `hover` to `b` on a feature with this id. */
  predicate Turned(calls: seq<Call>, id: string, b: bool)
  {
    exists i :: 0 <= i < |calls| && calls[i].SetFeatureStateCall? && calls[i].hover == b && calls[i].feature.id == id
  }

  lemma TurnedAppend(a: seq<Call>, c: seq<Call>, id: string, b: bool)
    ensures Turned(a + c, id, b) <==> Turned(a, id, b) || Turned(c, id, b)
  {
    if Turned(a + c, id, b) {
      var i :| 0 <= i < |a + c| && (a + c)[i].SetFeatureStateCall? && (a + c)[i].hover == b && (a + c)[i].feature.id == id;
      if i >= |a| { assert c[i - |a|] == (a + c)[i]; }
    }
    if Turned(c, id, b) {
      var i :| 0 <= i < |c| && c[i].SetFeatureStateCall? && c[i].hover == b && c[i].feature.id == id;
      assert (a + c)[|a| + i] == c[i];
    }
    if Turned(a, id, b) {
      var i :| 0 <= i < |a| && a[i].SetFeatureStateCall? && a[i].hover == b && a[i].feature.id == id;
      assert (a + c)[i] == a[i];
    }
  }

  lemma NonNullIdsSnoc(features: seq<Feature>, f: Feature)
    ensures NonNullIds(features + [f]) == NonNullIds(features) + (if f.id.Some? then {f.id.value} else {})
  {
    assert forall g :: g in features + [f] <==> g in features || g == f;
  }

  /**
   * The new Map holds exactly the non-null reported ids, and what is left
   * of the old Map exactly the old ids no longer reported; both stay keyed
   * by feature id without duplicates. A repeated id changes none of this.
   */
  lemma {:induction false} MoveStepsMaps(prev: seq<Entry<FeatureKey>>, features: seq<Feature>)
    requires UniqueKeys(prev) && WellKeyed(prev)
    ensures var d := MoveSteps(prev, features);
            && KeysOf(d.next) == NonNullIds(features) && UniqueKeys(d.next) && WellKeyed(d.next)
            && KeysOf(d.rest) == KeysOf(prev) - NonNullIds(features) && UniqueKeys(d.rest) && WellKeyed(d.rest)
    decreases |features|
  {
    if features != [] {
      var init := features[..|features| - 1];
      var f := features[|features| - 1];
      assert features == init + [f];
      MoveStepsMaps(prev, init);
      NonNullIdsSnoc(init, f);
      var d := MoveSteps(prev, init);
      if f.id.Some? {
        var x := f.id.value;
        if x in KeysOf(d.rest) {
          var v := GetEntry(d.rest, x);
          SetEntryUnique(d.next, x, v);
          SetEntryMembers(d.next, x, v);
        } else {
          var v := FeatureKey(x, f.source, f.sourceLayer);
          SetEntryUnique(d.next, x, v);
          SetEntryMembers(d.next, x, v);
        }
      }
    }
  }

  /**
   * The `features.forEach` writes only `hover: true`, and does so exactly
   * for the reported ids that were not tracked and for those reported twice.
   */
  lemma {:induction false} MoveStepsWrites(prev: seq<Entry<FeatureKey>>, features: seq<Feature>)
    requires UniqueKeys(prev) && WellKeyed(prev)
    ensures var d := MoveSteps(prev, features);
            && (forall i :: 0 <= i < |d.calls| ==> d.calls[i].SetFeatureStateCall? && d.calls[i].hover)
            && (forall id :: Turned(d.calls, id, true) <==>
                  id in NonNullIds(features) && (id !in KeysOf(prev) || ReportedTwice(features, id)))
    decreases |features|
  {
    if features != [] {
      var init := features[..|features| - 1];
      var f := features[|features| - 1];
      assert features == init + [f];
      MoveStepsWrites(prev, init);
      MoveStepsMaps(prev, init);
      NonNullIdsSnoc(init, f);
      forall id ensures (ReportedTwice(features, id) <==> ReportedTwice(init, id) || (f.id == Some(id) && id in NonNullIds(init)))
                 && (ReportedTwice(init, id) ==> id in NonNullIds(init))
      {
        ReportedTwiceSnoc(init, f, id);
      }
      var d := MoveSteps(prev, init);
      if f.id.Some? && f.id.value !in KeysOf(d.rest) {
        var x := f.id.value;
        var c := SetFeatureStateCall(FeatureKey(x, f.source, f.sourceLayer), true);
        forall id ensures Turned(d.calls + [c], id, true) <==> Turned(d.calls, id, true) || id == x {
          TurnedAppend(d.calls, [c], id, true);
          assert [c][0] == c;
        }
      }
    }
  }

  /** Releasing a tracked Map writes `hover: false` for exactly its ids, and nothing else. */
  lemma ReleaseWrites(m: seq<Entry<FeatureKey>>)
    requires WellKeyed(m)
    ensures forall id :: Turned(ReleaseCalls(m), id, false) <==> id in KeysOf(m)
    ensures forall id :: !Turned(ReleaseCalls(m), id, true)
  {
    var r := ReleaseCalls(m);
    forall id ensures Turned(r, id, false) <==> id in KeysOf(m) {
      if id in KeysOf(m) {
        var e :| e in m && e.key == id;
        var i :| 0 <= i < |m| && m[i] == e;
        assert r[i] == SetFeatureStateCall(m[i].value, false);
      }
      if Turned(r, id, false) {
        var i :| 0 <= i < |r| && r[i].SetFeatureStateCall? && r[i].hover == false && r[i].feature.id == id;
        assert m[i] in m;
      }
    }
  }

  /**
   * The hover-feature diff of `mousemove`: the tracked Map afterwards holds
   * exactly the non-null reported ids; every write is a `setFeatureState`;
   * newly reported ids and ids reported twice get `hover: true`, ids no
   * longer reported get `hover: false`, and ids carried forward once get
   * no write at all.
   */
  lemma MouseMoveDiff(prev: seq<Entry<FeatureKey>>, features: seq<Feature>)
    requires UniqueKeys(prev) && WellKeyed(prev)
    ensures var next := MoveSteps(prev, features).next;
            KeysOf(next) == NonNullIds(features) && UniqueKeys(next) && WellKeyed(next)
    ensures var calls := MoveCalls(prev, features);
            && (forall i :: 0 <= i < |calls| ==> calls[i].SetFeatureStateCall?)
            && (forall id :: Turned(calls, id, true) <==>
                  id in NonNullIds(features) && (id !in KeysOf(prev) || ReportedTwice(features, id)))
            && (forall id :: Turned(calls, id, false) <==> id in KeysOf(prev) && id !in NonNullIds(features))
            && (forall id :: id in KeysOf(prev) && id in NonNullIds(features) && !ReportedTwice(features, id) ==>
                  !Turned(calls, id, true) && !Turned(calls, id, false))
  {
    var d := MoveSteps(prev, features);
    MoveStepsMaps(prev, features);
    MoveStepsWrites(prev, features);
    ReleaseWrites(d.rest);
    forall id ensures (Turned(MoveCalls(prev, features), id, true) <==> Turned(d.calls, id, true))
                 && (Turned(MoveCalls(prev, features), id, false) <==> Turned(ReleaseCalls(d.rest), id, false))
    {
      TurnedAppend(d.calls, ReleaseCalls(d.rest), id, true);
      TurnedAppend(d.calls, ReleaseCalls(d.rest), id, false);
    }
  }

  /**
   * A feature reported twice in one event is written `hover: true` on its
   * second occurrence even when it was already tracked: the first
   * occurrence moved it out of the old Map.
   */
  lemma RepeatedFeatureIsRewritten()
    ensures var k := FeatureKey("7", "s", "");
            var prev := [Entry("7", k)];
            var features := [Feature(Some("7"), "s", ""), Feature(Some("7"), "s", "")];
            "7" in KeysOf(prev) && Turned(MoveCalls(prev, features), "7", true)
  {
    var k := FeatureKey("7", "s", "");
    var prev := [Entry("7", k)];
    var f := Feature(Some("7"), "s", "");
    var features := [f, f];
    assert [f, f][..1] == [f];
    assert [f][..0] == [];
    assert prev[0] in prev;
    assert prev[1..] == [];
    assert DeleteEntry(prev, "7") == [];
    assert MoveSteps(prev, []) == Diff(prev, [], []);
    assert "7" in KeysOf(prev);
    var d1 := MoveSteps(prev, [f]);
    assert d1 == Diff(DeleteEntry(prev, "7"), SetEntry([], "7", GetEntry(prev, "7")), []);
    var d := MoveSteps(prev, features);
    assert d.calls == [SetFeatureStateCall(k, true)];
    assert MoveCalls(prev, features)[0] == SetFeatureStateCall(k, true);
  }

  /**
   * `hoverLeave` turns every tracked feature off: after the release writes,
   * each tracked feature's flag is `false`, and every other feature keeps its flag.
   */
  lemma {:induction false} ReleaseTurnsOff(s: Surf, m: seq<Entry<FeatureKey>>)
    ensures var r := PerformAll(s, ReleaseCalls(m));
            && r.sources == s.sources && r.layout == s.layout && r.bindings == s.bindings
            && (forall i :: 0 <= i < |m| ==> m[i].value in r.featureHover && !r.featureHover[m[i].value])
            && (forall k :: k !in ValuesOf(m) ==>
                  (k in r.featureHover <==> k in s.featureHover) && (k in s.featureHover ==> r.featureHover[k] == s.featureHover[k]))
  {
    ReleaseOff(s, m);
    ReleaseFrame(s, m);
  }

  /** The release writes, one more entry at a time. */
  lemma ReleaseSnoc(s: Surf, m: seq<Entry<FeatureKey>>)
    requires m != []
    ensures var t := PerformAll(s, ReleaseCalls(m[..|m| - 1]));
            var r := PerformAll(s, ReleaseCalls(m));
            && r.sources == t.sources && r.layout == t.layout && r.bindings == t.bindings
            && r.featureHover == t.featureHover[m[|m| - 1].value := false]
  {
    var c := SetFeatureStateCall(m[|m| - 1].value, false);
    assert ReleaseCalls(m) == ReleaseCalls(m[..|m| - 1]) + [c];
    PerformAllSnoc(s, ReleaseCalls(m[..|m| - 1]), c);
  }

  /** Every released feature ends with its flag `false`. */
  lemma {:induction false} ReleaseOff(s: Surf, m: seq<Entry<FeatureKey>>)
    ensures var r := PerformAll(s, ReleaseCalls(m));
            forall i :: 0 <= i < |m| ==> m[i].value in r.featureHover && !r.featureHover[m[i].value]
    decreases |m|
  {
    if m != [] {
      var init := m[..|m| - 1];
      ReleaseOff(s, init);
      ReleaseSnoc(s, m);
      var r := PerformAll(s, ReleaseCalls(m));
      forall i | 0 <= i < |m|
        ensures m[i].value in r.featureHover && !r.featureHover[m[i].value]
      {
        if i < |init| {
          assert m[i] == init[i];
        }
      }
    }
  }

  /** Releasing changes no other flag, and no source, layout or binding. */
  lemma {:induction false} ReleaseFrame(s: Surf, m: seq<Entry<FeatureKey>>)
    ensures var r := PerformAll(s, ReleaseCalls(m));
            && r.sources == s.sources && r.layout == s.layout && r.bindings == s.bindings
            && (forall k :: k !in ValuesOf(m) ==>
                  (k in r.featureHover <==> k in s.featureHover) && (k in s.featureHover ==> r.featureHover[k] == s.featureHover[k]))
    decreases |m|
  {
    if m != [] {
      var init := m[..|m| - 1];
      ReleaseFrame(s, init);
      ReleaseSnoc(s, m);
      assert ValuesOf(m) == ValuesOf(init) + [m[|m| - 1].value];
    }
  }

  /** `hover: true` writes turn on every feature they name and leave every flag that was on, on. */
  lemma {:induction false} TurnOnKeepsOn(s: Surf, calls: seq<Call>)
    requires forall i :: 0 <= i < |calls| ==> calls[i].SetFeatureStateCall? && calls[i].hover
    ensures var r := PerformAll(s, calls);
            && (forall i :: 0 <= i < |calls| ==> calls[i].feature in r.featureHover && r.featureHover[calls[i].feature])
            && (forall k :: k in s.featureHover && s.featureHover[k] ==> k in r.featureHover && r.featureHover[k])
    decreases |calls|
  {
    if calls != [] {
      var init := calls[..|calls| - 1];
      var c := calls[|calls| - 1];
      TurnOnKeepsOn(s, init);
      var r := PerformAll(s, calls);
      assert r.featureHover == PerformAll(s, init).featureHover[c.feature := true];
      forall i | 0 <= i < |calls|
        ensures calls[i].feature in r.featureHover && r.featureHover[calls[i].feature]
      {
        if i < |init| {
          assert calls[i] == init[i];
        }
      }
    }
  }

  /**
   * Where the entries of the `features.forEach` come from: what is left of
   * the old Map was in it, and every entry of the new Map was either in the
   * old Map or is named by a `hover: true` write.
   */
  lemma {:induction false} MoveStepsSources(prev: seq<Entry<FeatureKey>>, features: seq<Feature>)
    ensures var d := MoveSteps(prev, features);
            && (forall e :: e in d.rest ==> e in prev)
            && (forall e :: e in d.next ==> e in prev || exists i :: 0 <= i < |d.calls| && d.calls[i] == SetFeatureStateCall(e.value, true))
    decreases |features|
  {
    if features != [] {
      var init := features[..|features| - 1];
      var f := features[|features| - 1];
      MoveStepsSources(prev, init);
      var d := MoveSteps(prev, init);
      if f.id.Some? {
        var x := f.id.value;
        if x in KeysOf(d.rest) {
          var v := GetEntry(d.rest, x);
          SetEntryMembers(d.next, x, v);
        } else {
          var v := FeatureKey(x, f.source, f.sourceLayer);
          var c := SetFeatureStateCall(v, true);
          var calls := d.calls + [c];
          SetEntryMembers(d.next, x, v);
          forall e | e in SetEntry(d.next, x, v)
            ensures e in prev || exists i :: 0 <= i < |calls| && calls[i] == SetFeatureStateCall(e.value, true)
          {
            if e == Entry(x, v) {
              assert calls[|d.calls|] == c;
            } else if e !in prev {
              var i :| 0 <= i < |d.calls| && d.calls[i] == SetFeatureStateCall(e.value, true);
              assert calls[i] == d.calls[i];
            }
          }
        }
      }
    }
  }

  /** No feature of the new Map is among the features left to release. */
  lemma MoveNextNotReleased(prev: seq<Entry<FeatureKey>>, features: seq<Feature>)
    requires UniqueKeys(prev) && WellKeyed(prev)
    ensures var d := MoveSteps(prev, features);
            forall e :: e in d.next ==> e.value !in ValuesOf(d.rest)
  {
    var d := MoveSteps(prev, features);
    MoveStepsMaps(prev, features);
    forall e, i | e in d.next && 0 <= i < |d.rest|
      ensures ValuesOf(d.rest)[i] != e.value
    {
      var x := d.rest[i];
      assert x in d.rest;
      assert x.key in KeysOf(d.rest) && x.value.id == x.key;
      assert e.key in KeysOf(d.next) && e.value.id == e.key;
    }
  }

  /** The `hover: true` writes leave every feature of the new Map on, when every tracked one was on. */
  lemma MoveWritesTurnOn(s: Surf, prev: seq<Entry<FeatureKey>>, features: seq<Feature>)
    requires UniqueKeys(prev) && WellKeyed(prev)
    requires forall e :: e in prev ==> e.value in s.featureHover && s.featureHover[e.value]
    ensures var d := MoveSteps(prev, features);
            var t := PerformAll(s, d.calls);
            forall e :: e in d.next ==> e.value in t.featureHover && t.featureHover[e.value]
  {
    var d := MoveSteps(prev, features);
    MoveStepsWrites(prev, features);
    assert forall i :: 0 <= i < |MoveSteps(prev, features).calls| ==>
      MoveSteps(prev, features).calls[i].SetFeatureStateCall? && MoveSteps(prev, features).calls[i].hover;
    TurnOnKeepsOn(s, d.calls);
    MoveStepsSources(prev, features);
    var t := PerformAll(s, d.calls);
    forall e | e in d.next
      ensures e.value in t.featureHover && t.featureHover[e.value]
    {
      if e !in prev {
        var i :| 0 <= i < |d.calls| && d.calls[i] == SetFeatureStateCall(e.value, true);
      }
    }
  }

  /**
   * `mousemove` keeps the hover flags in step with the tracked Map: when
   * every tracked feature is on before the event, every feature of the new
   * Map is on after it.
   */
  lemma MouseMoveKeepsOn(s: Surf, prev: seq<Entry<FeatureKey>>, features: seq<Feature>)
    requires UniqueKeys(prev) && WellKeyed(prev)
    requires forall e :: e in prev ==> e.value in s.featureHover && s.featureHover[e.value]
    ensures var r := PerformAll(s, MoveCalls(prev, features));
            forall e :: e in MoveSteps(prev, features).next ==> e.value in r.featureHover && r.featureHover[e.value]
  {
    var d := MoveSteps(prev, features);
    MoveWritesTurnOn(s, prev, features);
    MoveNextNotReleased(prev, features);
    var t := PerformAll(s, d.calls);
    PerformAllAppend(s, d.calls, ReleaseCalls(d.rest));
    ReleaseTurnsOff(t, d.rest);
  }

  /** ... and every tracked feature that the event no longer reports is off after it. */
  lemma MouseMoveTurnsOff(s: Surf, prev: seq<Entry<FeatureKey>>, features: seq<Feature>)
    requires UniqueKeys(prev) && WellKeyed(prev)
    ensures var r := PerformAll(s, MoveCalls(prev, features));
            forall e :: e in prev && e.key !in NonNullIds(features) ==> e.value in r.featureHover && !r.featureHover[e.value]
  {
    var d := MoveSteps(prev, features);
    MoveStepsMaps(prev, features);
    MoveStepsSources(prev, features);
    var t := PerformAll(s, d.calls);
    PerformAllAppend(s, d.calls, ReleaseCalls(d.rest));
    ReleaseTurnsOff(t, d.rest);
    forall e | e in prev && e.key !in NonNullIds(features)
      ensures exists k :: 0 <= k < |d.rest| && d.rest[k] == e
    {
      assert e.key in KeysOf(d.rest);
      var e' :| e' in d.rest && e'.key == e.key;
      var i :| 0 <= i < |prev| && prev[i] == e;
      var j :| 0 <= j < |prev| && prev[j] == e';
      var k :| 0 <= k < |d.rest| && d.rest[k] == e';
    }
  }


  // ---------------------------------------------------------------------
  // `_onAdd` as a whole

  /** The `onHover` option: the engine layers to watch and the hover component. */
  datatype HoverOptions = HoverOptions(layers: seq<string>, hoverComp: Option<Ref>)

  /** The `onClick` option: the engine layers to watch. */
  datatype ClickOptions = ClickOptions(layers: seq<string>)

  /** What `_onAdd` leaves: the surface, `layerVisibility`, and the records pushed onto `callbacks`. */
  datatype Added = Added(surf: Surf, layerVisibility: map<string, Visibility>, bindings: seq<Binding>)

  /** The records `addHover` pushes, numbered from `serial`. */
  function HoverPart(onHover: Option<HoverOptions>, owner: string, serial: nat): seq<Binding>
  {
    if onHover.Some? then HoverBindings(onHover.value.layers, owner, serial) else []
  }

  /** The records `addClick` pushes, numbered from `serial`. */
  function ClickPart(onClick: Option<ClickOptions>, owner: string, serial: nat): seq<Binding>
  {
    if onClick.Some? then ClickBindings(onClick.value.layers, owner, serial) else []
  }

  function AddOutcome(s: Surf, lv: map<string, Visibility>, isVisible: bool, sources: seq<SourceSpec>, layers: seq<LayerSpec>,
                      onHover: Option<HoverOptions>, onClick: Option<ClickOptions>, owner: string, serial: nat): Added
  {
    var r := AddLayers(AddSources(s, sources), lv, isVisible, layers);
    var hb := HoverPart(onHover, owner, serial);
    var cb := ClickPart(onClick, owner, serial + |hb|);
    Added(Bind(Bind(r.0, hb), cb), r.1, hb + cb)
  }

  /** `_onAdd` as a whole: its three stages compose to `AddOutcome`. */
  lemma AddOutcomeOf(s: Surf, lv: map<string, Visibility>, isVisible: bool, sources: seq<SourceSpec>, layers: seq<LayerSpec>,
                     onHover: Option<HoverOptions>, onClick: Option<ClickOptions>, owner: string, serial: nat,
                     c: seq<Binding>, s2: Surf, lv2: map<string, Visibility>, s3: Surf, c3: seq<Binding>, h3: nat)
    requires (s2, lv2) == AddLayers(AddSources(s, sources), lv, isVisible, layers)
    requires var hb := HoverPart(onHover, owner, serial);
             var cb := ClickPart(onClick, owner, serial + |hb|);
             && s3 == Bind(Bind(s2, hb), cb)
             && c3 == c + (hb + cb)
             && h3 == serial + |hb + cb|
    ensures var a := AddOutcome(s, lv, isVisible, sources, layers, onHover, onClick, owner, serial);
            && s3 == a.surf
            && lv2 == a.layerVisibility
            && c3 == c + a.bindings
            && h3 == serial + |a.bindings|
  {
  }

  lemma ConcatAssoc<T>(a: seq<T>, b: seq<T>, c: seq<T>)
    ensures a + b + c == a + (b + c)
  {
  }

  lemma OnCallsAppend(a: seq<Binding>, b: seq<Binding>)
    ensures OnCallsOf(a + b) == OnCallsOf(a) + OnCallsOf(b)
  {
  }

  /** One iteration of the `sources.forEach`. */
  lemma SourceStep(s0: Surf, specs: seq<SourceSpec>, i: nat, before: Surf, after: Surf)
    requires i < |specs|
    requires before == AddSources(s0, specs[..i])
    requires after == if specs[i].id in before.sources then before else Perform(before, AddSourceCall(specs[i].id))
    ensures after == AddSources(s0, specs[..i + 1])
  {
    assert specs[..i + 1][..i] == specs[..i];
  }

  /** One iteration of the `layers.forEach`. */
  lemma LayerStep(s0: Surf, lv0: map<string, Visibility>, isVisible: bool, specs: seq<LayerSpec>, i: nat,
                  before: (Surf, map<string, Visibility>), after: (Surf, map<string, Visibility>))
    requires i < |specs|
    requires before == AddLayers(s0, lv0, isVisible, specs[..i])
    requires after == AddLayer(before.0, before.1, isVisible, specs[i])
    ensures after == AddLayers(s0, lv0, isVisible, specs[..i + 1])
  {
    assert specs[..i + 1][..i] == specs[..i];
  }

  /** One iteration of the `addHover` loop: a `mousemove` and a `mouseleave` record, pushed and bound. */
  lemma HoverStep(s0: Surf, c0: seq<Binding>, ls: seq<string>, i: nat, owner: string, h0: nat, serial: nat,
                  before: Surf, mid: Surf, after: Surf, pushedBefore: seq<Binding>, pushedAfter: seq<Binding>)
    requires i < |ls| && serial == h0 + 2 * i
    requires before == Bind(s0, HoverBindings(ls[..i], owner, h0))
    requires pushedBefore == c0 + HoverBindings(ls[..i], owner, h0)
    requires mid == Perform(before, OnCall(Binding(MouseMove, ls[i], Handler(owner, serial))))
    requires after == Perform(mid, OnCall(Binding(MouseLeave, ls[i], Handler(owner, serial + 1))))
    requires pushedAfter == pushedBefore + [Binding(MouseMove, ls[i], Handler(owner, serial))]
                            + [Binding(MouseLeave, ls[i], Handler(owner, serial + 1))]
    ensures after == Bind(s0, HoverBindings(ls[..i + 1], owner, h0))
    ensures pushedAfter == c0 + HoverBindings(ls[..i + 1], owner, h0)
  {
    assert ls[..i + 1][..i] == ls[..i];
    var done := HoverBindings(ls[..i], owner, h0);
    var move := Binding(MouseMove, ls[i], Handler(owner, serial));
    var leave := Binding(MouseLeave, ls[i], Handler(owner, serial + 1));
    assert HoverBindings(ls[..i + 1], owner, h0) == done + [move] + [leave];
    BindSnoc(s0, done, move);
    BindSnoc(s0, done + [move], leave);
  }

  /** One iteration of the `addClick` loop: a `click` record, pushed and bound. */
  lemma ClickStep(s0: Surf, c0: seq<Binding>, ls: seq<string>, i: nat, owner: string, h0: nat, serial: nat,
                  before: Surf, after: Surf, pushedBefore: seq<Binding>, pushedAfter: seq<Binding>)
    requires i < |ls| && serial == h0 + i
    requires before == Bind(s0, ClickBindings(ls[..i], owner, h0))
    requires pushedBefore == c0 + ClickBindings(ls[..i], owner, h0)
    requires after == Perform(before, OnCall(Binding(Click, ls[i], Handler(owner, serial))))
    requires pushedAfter == pushedBefore + [Binding(Click, ls[i], Handler(owner, serial))]
    ensures after == Bind(s0, ClickBindings(ls[..i + 1], owner, h0))
    ensures pushedAfter == c0 + ClickBindings(ls[..i + 1], owner, h0)
  {
    assert ls[..i + 1][..i] == ls[..i];
    BindSnoc(s0, ClickBindings(ls[..i], owner, h0), Binding(Click, ls[i], Handler(owner, serial)));
  }

  lemma BindSnoc(s: Surf, bs: seq<Binding>, b: Binding)
    ensures Bind(s, bs + [b]) == Perform(Bind(s, bs), OnCall(b))
  {
    assert (bs + [b])[..|bs|] == bs;
  }

  /** Binding the hover records and then the click records: both pushed and logged, nothing else changed. */
  lemma BindBoth(s: Surf, hb: seq<Binding>, cb: seq<Binding>)
    ensures var r := Bind(Bind(s, hb), cb);
            && r.sources == s.sources && r.layout == s.layout && r.featureHover == s.featureHover
            && r.bindings == s.bindings + (hb + cb)
            && r.log == s.log + OnCallsOf(hb + cb)
  {
    BindSpec(s, hb);
    BindSpec(Bind(s, hb), cb);
    ConcatAssoc(s.bindings, hb, cb);
    OnCallsAppend(hb, cb);
    ConcatAssoc(s.log, OnCallsOf(hb), OnCallsOf(cb));
  }

  /** The sources stage adds exactly the declared sources and leaves the layouts. */
  lemma AddSourcesAdds(s: Surf, specs: seq<SourceSpec>)
    ensures AddSources(s, specs).sources == s.sources + SourceIdsOf(specs)
    ensures AddSources(s, specs).layout == s.layout
  {
    AddSourcesSpec(s, specs);
  }

  /** After one `_onAdd` every declared source and engine layer is present. */
  lemma AddOutcomePresent(s: Surf, lv: map<string, Visibility>, isVisible: bool, sources: seq<SourceSpec>, layers: seq<LayerSpec>,
                          onHover: Option<HoverOptions>, onClick: Option<ClickOptions>, owner: string, serial: nat, a: Added)
    requires a == AddOutcome(s, lv, isVisible, sources, layers, onHover, onClick, owner, serial)
    ensures SourceIdsOf(sources) <= a.surf.sources
    ensures forall i :: 0 <= i < |layers| ==> layers[i].id in a.surf.layout
  {
    var s1 := AddSources(s, sources);
    AddSourcesAdds(s, sources);
    var r := AddLayers(s1, lv, isVisible, layers);
    AddLayersKeeps(s1, lv, isVisible, layers);
    var hb := HoverPart(onHover, owner, serial);
    var cb := ClickPart(onClick, owner, serial + |hb|);
    assert a.surf == Bind(Bind(r.0, hb), cb);
    BindBoth(r.0, hb, cb);
    forall i | 0 <= i < |layers| ensures layers[i].id in a.surf.layout {
      assert layers[i].id in LayerIdsOf(layers);
    }
  }

  /**
   * `_onAdd` on a surface that already has every declared source and engine
   * layer creates nothing and changes no record; it only binds its handlers.
   */
  lemma AddOutcomeOnPresent(t: Surf, lv: map<string, Visibility>, isVisible: bool, sources: seq<SourceSpec>, layers: seq<LayerSpec>,
                            onHover: Option<HoverOptions>, onClick: Option<ClickOptions>, owner: string, serial: nat, b: Added)
    requires SourceIdsOf(sources) <= t.sources
    requires forall i :: 0 <= i < |layers| ==> layers[i].id in t.layout
    requires b == AddOutcome(t, lv, isVisible, sources, layers, onHover, onClick, owner, serial)
    ensures b.surf.sources == t.sources && b.surf.layout == t.layout
    ensures b.surf.featureHover == t.featureHover && b.layerVisibility == lv
    ensures b.surf.bindings == t.bindings + b.bindings
    ensures b.surf.log == t.log + OnCallsOf(b.bindings)
  {
    AddSourcesNoop(t, sources);
    AddLayersNoop(t, lv, isVisible, layers);
    var hb := HoverPart(onHover, owner, serial);
    var cb := ClickPart(onClick, owner, serial + |hb|);
    assert b == Added(Bind(Bind(t, hb), cb), lv, hb + cb);
    BindBoth(t, hb, cb);
  }

  /**
   * A second `_onAdd` creates nothing: sources, layouts, hover flags and
   * `layerVisibility` come out as the first call left them, and the only
   * calls it makes are the `on`s of the handlers it binds again.
   */
  lemma OnAddIdempotent(s: Surf, lv: map<string, Visibility>, isVisible: bool, sources: seq<SourceSpec>, layers: seq<LayerSpec>,
                        onHover: Option<HoverOptions>, onClick: Option<ClickOptions>, owner: string, serial: nat, a: Added, b: Added)
    requires a == AddOutcome(s, lv, isVisible, sources, layers, onHover, onClick, owner, serial)
    requires b == AddOutcome(a.surf, a.layerVisibility, isVisible, sources, layers, onHover, onClick, owner, serial + |a.bindings|)
    ensures b.surf.sources == a.surf.sources && b.surf.layout == a.surf.layout
    ensures b.surf.featureHover == a.surf.featureHover && b.layerVisibility == a.layerVisibility
    ensures b.surf.bindings == a.surf.bindings + b.bindings
    ensures b.surf.log == a.surf.log + OnCallsOf(b.bindings)
  {
    AddOutcomePresent(s, lv, isVisible, sources, layers, onHover, onClick, owner, serial, a);
    AddOutcomeOnPresent(a.surf, a.layerVisibility, isVisible, sources, layers, onHover, onClick, owner, serial + |a.bindings|, b);
  }

  // ---------------------------------------------------------------------
  // The container

  /** A toolbar entry: a named default tool or a custom tool object. */
  datatype Tool = ToolName(name: string) | ToolObject(ref: Ref)

  /** A layer's `state` object, as its own keys and values. */
  type LayerState = map<string, Ref>

  /** The argument of `updateState`: a function of the old state, or an object to merge in. */
  datatype StateUpdate = Replace(f: LayerState -> LayerState) | Merge(obj: LayerState)

  function Updated(old_: LayerState, u: StateUpdate): LayerState
  {
    match u
    case Replace(f) => f(old_)
    case Merge(obj) => old_ + obj
  }

  /** A shallow merge keeps every old key, adds the new ones, and lets the new values win. */
  lemma MergeSpec(st: LayerState, obj: LayerState)
    ensures var r := Updated(st, Merge(obj));
            && r.Keys == st.Keys + obj.Keys
            && (forall k :: k in obj ==> r[k] == obj[k])
            && (forall k :: k in st && k !in obj ==> r[k] == st[k])
  {
  }

  /** A call of `dispatchUpdate(layer, newState)`. */
  datatype Notification = Notification(layerId: string, state: LayerState)

  /** The constructor options; `None` is a key the caller left out. */
  datatype Options = Options(id: Option<string>, setActive: Option<bool>, isDynamic: Option<bool>, isVisible: Option<bool>,
                             sources: Option<seq<SourceSpec>>, layers: Option<seq<LayerSpec>>, toolbar: Option<seq<Tool>>,
                             state: Option<LayerState>, onHover: Option<HoverOptions>, onClick: Option<ClickOptions>)

  function OrElse<T>(o: Option<T>, d: T): T
  {
    if o.Some? then o.value else d
  }

  /** The module's `DefaultHoverComp`. */
  const DefaultHoverComp: Ref := External(0)

  function HoverCompOf(onHover: Option<HoverOptions>): Ref
  {
    if onHover.Some? && onHover.value.hoverComp.Some? then onHover.value.hoverComp.value else DefaultHoverComp
  }

  /** What the `mousemove` and `mouseleave` handlers pass to `updateHover`. */
  datatype HoverMessage =
    | HoverMove(pos: (int, int), hoverComp: Ref, layerId: string, lngLat: Ref, data: Ref)
    | HoverLeave(layerId: string)

  /** `hoveredFeatures.get(layerId) || new Map()`. */
  function Tracked(hf: map<string, seq<Entry<FeatureKey>>>, layerId: string): seq<Entry<FeatureKey>>
  {
    if layerId in hf then hf[layerId] else []
  }

  /** The loop of `addClick`: binds one click handler per layer, numbered from `serial`, and returns them. */
  method BindClicks(m: Surface, ls: seq<string>, owner: string, serial: nat) returns (pushed: seq<Binding>)
    modifies m
    ensures pushed == ClickBindings(ls, owner, serial)
    ensures m.Snapshot() == Bind(old(m.Snapshot()), pushed)
  {
    ghost var s0 := m.Snapshot();
    pushed := [];
    var next := serial;
    var i := 0;
    while i < |ls|
      invariant 0 <= i <= |ls|
      invariant next == serial + i
      invariant pushed == ClickBindings(ls[..i], owner, serial)
      invariant m.Snapshot() == Bind(s0, pushed)
    {
      var b := Binding(Click, ls[i], Handler(owner, next));
      ghost var before := m.Snapshot();
      ghost var pushedBefore := pushed;
      pushed := pushed + [b];
      m.On(b);
      ClickStep(s0, [], ls, i, owner, serial, next, before, m.Snapshot(), pushedBefore, pushed);
      next := next + 1;
      i := i + 1;
    }
    assert ls[..|ls|] == ls;
  }

  /** The loop of `addHover`: binds a mousemove and a mouseleave handler per layer and returns them. */
  method BindHovers(m: Surface, ls: seq<string>, owner: string, serial: nat) returns (pushed: seq<Binding>)
    modifies m
    ensures pushed == HoverBindings(ls, owner, serial)
    ensures m.Snapshot() == Bind(old(m.Snapshot()), pushed)
  {
    ghost var s0 := m.Snapshot();
    pushed := [];
    var next := serial;
    var i := 0;
    while i < |ls|
      invariant 0 <= i <= |ls|
      invariant next == serial + 2 * i
      invariant pushed == HoverBindings(ls[..i], owner, serial)
      invariant m.Snapshot() == Bind(s0, pushed)
    {
      var move := Binding(MouseMove, ls[i], Handler(owner, next));
      var leave := Binding(MouseLeave, ls[i], Handler(owner, next + 1));
      ghost var before := m.Snapshot();
      ghost var pushedBefore := pushed;
      pushed := pushed + [move];
      m.On(move);
      ghost var mid := m.Snapshot();
      pushed := pushed + [leave];
      m.On(leave);
      HoverStep(s0, [], ls, i, owner, serial, next, before, mid, m.Snapshot(), pushedBefore, pushed);
      next := next + 2;
      i := i + 1;
    }
    assert ls[..|ls|] == ls;
  }

  /** `addHover` when `onHover` is given, then `addClick` when `onClick` is given; returns what each bound. */
  method BindHandlers(m: Surface, onHover: Option<HoverOptions>, onClick: Option<ClickOptions>, owner: string, serial: nat)
    returns (hb: seq<Binding>, cb: seq<Binding>)
    modifies m
    ensures hb == HoverPart(onHover, owner, serial)
    ensures cb == ClickPart(onClick, owner, serial + |hb|)
    ensures m.Snapshot() == Bind(Bind(old(m.Snapshot()), hb), cb)
  {
    hb := [];
    if onHover.Some? {
      hb := BindHovers(m, onHover.value.layers, owner, serial);
    }
    cb := [];
    if onClick.Some? {
      cb := BindClicks(m, onClick.value.layers, owner, serial + |hb|);
    }
  }

  /**
   * The `features.forEach` of the `mousemove` handler: a feature already
   * tracked moves from the old Map to the new one; a new one is turned on
   * and tracked. It returns what is left of the old Map and the new Map.
   */
  method TrackMove(m: Surface, prev: seq<Entry<FeatureKey>>, features: seq<Feature>)
    returns (rest: seq<Entry<FeatureKey>>, next: seq<Entry<FeatureKey>>)
    modifies m
    ensures Diff(rest, next, MoveSteps(prev, features).calls) == MoveSteps(prev, features)
    ensures m.Snapshot() == PerformAll(old(m.Snapshot()), MoveSteps(prev, features).calls)
  {
    rest := prev;
    next := [];
    ghost var s0 := m.Snapshot();
    ghost var calls: seq<Call> := [];
    var i := 0;
    while i < |features|
      invariant 0 <= i <= |features|
      invariant Diff(rest, next, calls) == MoveSteps(prev, features[..i])
      invariant m.Snapshot() == PerformAll(s0, calls)
    {
      MoveStepsSnoc(prev, features, i);
      var f := features[i];
      if f.id.Some? {
        var fid := f.id.value;
        if fid in KeysOf(rest) {
          next := SetEntry(next, fid, GetEntry(rest, fid));
          rest := DeleteEntry(rest, fid);
        } else {
          var value := FeatureKey(fid, f.source, f.sourceLayer);
          next := SetEntry(next, fid, value);
          PerformAllSnoc(s0, calls, SetFeatureStateCall(value, true));
          m.SetFeatureState(value, true);
          calls := calls + [SetFeatureStateCall(value, true)];
        }
      }
      i := i + 1;
    }
    assert features[..|features|] == features;
  }

  lemma ReleaseStep(s0: Surf, tracked: seq<Entry<FeatureKey>>, i: nat, before: Surf, after: Surf)
    requires i < |tracked|
    requires before == PerformAll(s0, ReleaseCalls(tracked[..i]))
    requires after == Perform(before, SetFeatureStateCall(tracked[i].value, false))
    ensures after == PerformAll(s0, ReleaseCalls(tracked[..i + 1]))
  {
    assert tracked[..i + 1][..i] == tracked[..i];
    PerformAllSnoc(s0, ReleaseCalls(tracked[..i]), SetFeatureStateCall(tracked[i].value, false));
  }

  /** `hover: false` for each tracked feature, in Map order. */
  method ReleaseTracked(m: Surface, tracked: seq<Entry<FeatureKey>>)
    modifies m
    ensures m.Snapshot() == PerformAll(old(m.Snapshot()), ReleaseCalls(tracked))
  {
    ghost var s0 := m.Snapshot();
    var i := 0;
    while i < |tracked|
      invariant 0 <= i <= |tracked|
      invariant m.Snapshot() == PerformAll(s0, ReleaseCalls(tracked[..i]))
    {
      ghost var before := m.Snapshot();
      m.SetFeatureState(tracked[i].value, false);
      ReleaseStep(s0, tracked, i, before, m.Snapshot());
      i := i + 1;
    }
    assert tracked[..|tracked|] == tracked;
  }

  class LayerContainer {
    var id: string
    var setActive: bool
    var isDynamic: bool
    var isVisible: bool
    var sources: seq<SourceSpec>
    var layers: seq<LayerSpec>
    var toolbar: seq<Tool>
    var state: LayerState
    var onHover: Option<HoverOptions>
    var onClick: Option<ClickOptions>
    var layerVisibility: map<string, Visibility>
    var needsRender: bool
    var callbacks: seq<Binding>
    var hoveredFeatures: map<string, seq<Entry<FeatureKey>>>
    /** The calls of `dispatchUpdate`, which is a no-op until the map component replaces it. */
    var notifications: seq<Notification>
    /** How many callbacks this container has bound; it names the next one. */
    var handlersMade: nat

    /**
     * `{ ...DefaultOptions, ...options }` copied onto the container, then a
     * fresh id from the module's counter, which overrides any `id` option.
     */
    constructor(options: Options, ids: IdGenerator)
      modifies ids
      ensures ids.issued == old(ids.issued) + 1
      ensures id == LayerIdOf(old(ids.issued))
      ensures setActive == OrElse(options.setActive, true)
      ensures isDynamic == OrElse(options.isDynamic, false)
      ensures isVisible == OrElse(options.isVisible, true)
      ensures sources == OrElse(options.sources, [])
      ensures layers == OrElse(options.layers, [])
      ensures toolbar == OrElse(options.toolbar, [ToolName("toggle-visibility")])
      ensures state == OrElse(options.state, map[])
      ensures onHover == options.onHover && onClick == options.onClick
      ensures layerVisibility == map[] && needsRender == setActive
      ensures callbacks == [] && hoveredFeatures == map[] && notifications == [] && handlersMade == 0
    {
      setActive := OrElse(options.setActive, true);
      isDynamic := OrElse(options.isDynamic, false);
      isVisible := OrElse(options.isVisible, true);
      sources := OrElse(options.sources, []);
      layers := OrElse(options.layers, []);
      toolbar := OrElse(options.toolbar, [ToolName("toggle-visibility")]);
      state := OrElse(options.state, map[]);
      onHover := options.onHover;
      onClick := options.onClick;
      var issuedId := ids.Next();
      id := issuedId;
      layerVisibility := map[];
      needsRender := OrElse(options.setActive, true);
      callbacks := [];
      hoveredFeatures := map[];
      notifications := [];
      handlersMade := 0;
    }

    /** `updateState`: replace or shallow-merge the state, then notify once. */
    method UpdateState(u: StateUpdate)
      modifies this`state, this`notifications
      ensures state == Updated(old(state), u)
      ensures notifications == old(notifications) + [Notification(id, state)]
    {
      state := Updated(state, u);
      notifications := notifications + [Notification(id, state)];
    }

    method SetVisibilityNone(m: Surface, layerId: string)
      modifies m, this`layerVisibility
      ensures (m.Snapshot(), layerVisibility) == HideOne(old(m.Snapshot()), old(layerVisibility), layerId)
    {
      var visibility := m.GetLayoutProperty(layerId);
      if visibility == Hidden {
        layerVisibility := layerVisibility[layerId := Hidden];
      } else {
        m.SetLayoutProperty(layerId, Hidden);
      }
    }

    method SetVisibilityVisible(m: Surface, layerId: string)
      modifies m
      ensures m.Snapshot() == ShowOne(old(m.Snapshot()), layerVisibility, layerId)
    {
      if RecordOf(layerVisibility, layerId) != Hidden {
        m.SetLayoutProperty(layerId, Visible);
      }
    }

    /** `addClick`: one click handler per engine layer of `onClick.layers`, each pushed onto `callbacks`. */
    method AddClick(m: Surface)
      requires onClick.Some?
      modifies m, this`callbacks, this`handlersMade
      ensures callbacks == old(callbacks) + ClickBindings(onClick.value.layers, id, old(handlersMade))
      ensures handlersMade == old(handlersMade) + |onClick.value.layers|
      ensures m.Snapshot() == Bind(old(m.Snapshot()), ClickBindings(onClick.value.layers, id, old(handlersMade)))
    {
      var pushed := BindClicks(m, onClick.value.layers, id, handlersMade);
      callbacks := callbacks + pushed;
      handlersMade := handlersMade + |pushed|;
    }

    /** `addHover`: a mousemove and a mouseleave handler per engine layer of `onHover.layers`. */
    method AddHover(m: Surface)
      requires onHover.Some?
      modifies m, this`callbacks, this`handlersMade
      ensures callbacks == old(callbacks) + HoverBindings(onHover.value.layers, id, old(handlersMade))
      ensures handlersMade == old(handlersMade) + 2 * |onHover.value.layers|
      ensures m.Snapshot() == Bind(old(m.Snapshot()), HoverBindings(onHover.value.layers, id, old(handlersMade)))
    {
      var pushed := BindHovers(m, onHover.value.layers, id, handlersMade);
      callbacks := callbacks + pushed;
      handlersMade := handlersMade + |pushed|;
    }

    /** The `sources.forEach` of `_onAdd`. */
    method AddDeclaredSources(m: Surface)
      modifies m
      ensures m.Snapshot() == AddSources(old(m.Snapshot()), sources)
    {
      ghost var s0 := m.Snapshot();
      var i := 0;
      while i < |sources|
        invariant 0 <= i <= |sources|
        invariant m.Snapshot() == AddSources(s0, sources[..i])
      {
        ghost var before := m.Snapshot();
        if !m.HasSource(sources[i].id) {
          m.AddSource(sources[i].id);
        }
        SourceStep(s0, sources, i, before, m.Snapshot());
        i := i + 1;
      }
      assert sources[..|sources|] == sources;
    }

    /** The `layers.forEach` of `_onAdd`. */
    method AddDeclaredLayers(m: Surface)
      modifies m, this`layerVisibility
      ensures (m.Snapshot(), layerVisibility) == AddLayers(old(m.Snapshot()), old(layerVisibility), isVisible, layers)
    {
      ghost var s1 := m.Snapshot();
      ghost var lv0 := layerVisibility;
      var j := 0;
      while j < |layers|
        invariant 0 <= j <= |layers|
        invariant (m.Snapshot(), layerVisibility) == AddLayers(s1, lv0, isVisible, layers[..j])
      {
        ghost var before := (m.Snapshot(), layerVisibility);
        var spec := layers[j];
        if !m.HasLayer(spec.id) {
          m.AddLayer(spec);
          if !isVisible {
            SetVisibilityNone(m, spec.id);
          } else {
            layerVisibility := layerVisibility[spec.id := m.GetLayoutProperty(spec.id)];
          }
        }
        LayerStep(s1, lv0, isVisible, layers, j, before, (m.Snapshot(), layerVisibility));
        j := j + 1;
      }
      assert layers[..|layers|] == layers;
    }

    /** `_onAdd`: add the missing sources and engine layers, then bind the hover and click handlers. */
    method OnAdd(m: Surface)
      modifies m, this`layerVisibility, this`callbacks, this`handlersMade
      ensures var a := AddOutcome(old(m.Snapshot()), old(layerVisibility), isVisible, sources, layers, onHover, onClick, id, old(handlersMade));
              && m.Snapshot() == a.surf
              && layerVisibility == a.layerVisibility
              && callbacks == old(callbacks) + a.bindings
              && handlersMade == old(handlersMade) + |a.bindings|
    {
      ghost var s0, lv0, c0, h0 := m.Snapshot(), layerVisibility, callbacks, handlersMade;
      AddDeclaredSources(m);
      AddDeclaredLayers(m);
      ghost var s2, lv2 := m.Snapshot(), layerVisibility;
      var hb, cb := BindHandlers(m, onHover, onClick, id, handlersMade);
      ghost var s3 := m.Snapshot();
      callbacks := callbacks + (hb + cb);
      handlersMade := handlersMade + |hb + cb|;
      assert m.Snapshot() == s3;
      AddOutcomeOf(s0, lv0, isVisible, sources, layers, onHover, onClick, id, h0, c0, s2, lv2, s3, callbacks, handlersMade);
    }

    /** `onMapStyleChange`: `_onAdd` again on the restyled map (the following `render` is not modelled). */
    method OnMapStyleChange(m: Surface)
      modifies m, this`layerVisibility, this`callbacks, this`handlersMade
      ensures var a := AddOutcome(old(m.Snapshot()), old(layerVisibility), isVisible, sources, layers, onHover, onClick, id, old(handlersMade));
              && m.Snapshot() == a.surf
              && layerVisibility == a.layerVisibility
              && callbacks == old(callbacks) + a.bindings
              && handlersMade == old(handlersMade) + |a.bindings|
    {
      OnAdd(m);
    }

    /** `hoverLeave`: turn every tracked feature of the layer off and forget them; nothing when none are tracked. */
    method HoverLeaveLayer(m: Surface, layerId: string)
      modifies m, this`hoveredFeatures
      ensures layerId !in old(hoveredFeatures) ==> m.Snapshot() == old(m.Snapshot()) && hoveredFeatures == old(hoveredFeatures)
      ensures layerId in old(hoveredFeatures) ==>
                && m.Snapshot() == PerformAll(old(m.Snapshot()), ReleaseCalls(old(hoveredFeatures)[layerId]))
                && hoveredFeatures == old(hoveredFeatures) - {layerId}
    {
      if layerId !in hoveredFeatures {
        return;
      }
      ReleaseTracked(m, hoveredFeatures[layerId]);
      hoveredFeatures := hoveredFeatures - {layerId};
    }

    /**
     * The `mousemove` handler of one hover layer. `data` is what the
     * `onHover.callback` returns and `hasData` is `hasValue(data)`.
     */
    method OnMouseMove(m: Surface, layerId: string, features: seq<Feature>, point: (int, int), lngLat: Ref, data: Ref, hasData: bool)
      returns (message: Option<HoverMessage>)
      modifies m, this`hoveredFeatures
      ensures hoveredFeatures == old(hoveredFeatures)[layerId := MoveSteps(Tracked(old(hoveredFeatures), layerId), features).next]
      ensures m.Snapshot() == PerformAll(old(m.Snapshot()), MoveCalls(Tracked(old(hoveredFeatures), layerId), features))
      ensures message == if hasData then Some(HoverMove(point, HoverCompOf(onHover), id, lngLat, data)) else None
    {
      ghost var s0 := m.Snapshot();
      var prev := Tracked(hoveredFeatures, layerId);
      var rest, next := TrackMove(m, prev, features);
      ReleaseTracked(m, rest);
      PerformAllAppend(s0, MoveSteps(prev, features).calls, ReleaseCalls(rest));
      hoveredFeatures := hoveredFeatures[layerId := next];
      message := if hasData then Some(HoverMove(point, HoverCompOf(onHover), id, lngLat, data)) else None;
    }

    /** The `mouseleave` handler of one hover layer. */
    method OnMouseLeave(m: Surface, layerId: string) returns (message: HoverMessage)
      modifies m, this`hoveredFeatures
      ensures layerId !in old(hoveredFeatures) ==> m.Snapshot() == old(m.Snapshot()) && hoveredFeatures == old(hoveredFeatures)
      ensures layerId in old(hoveredFeatures) ==>
                && m.Snapshot() == PerformAll(old(m.Snapshot()), ReleaseCalls(old(hoveredFeatures)[layerId]))
                && hoveredFeatures == old(hoveredFeatures) - {layerId}
      ensures message == HoverLeave(id)
    {
      HoverLeaveLayer(m, layerId);
      message := HoverLeave(id);
    }

    /** `_onRemove`: pop and unbind every callback, then remove each declared engine layer. */
    method OnRemove(m: Surface)
      modifies m, this`callbacks
      ensures callbacks == []
      ensures m.Snapshot() == RemoveLayers(Unbind(old(m.Snapshot()), old(callbacks)), LayerIdsOf(layers))
    {
      ghost var s0 := m.Snapshot();
      ghost var c0 := callbacks;
      while |callbacks| > 0
        invariant Unbind(m.Snapshot(), callbacks) == Unbind(s0, c0)
        decreases |callbacks|
      {
        var b := callbacks[|callbacks| - 1];
        callbacks := callbacks[..|callbacks| - 1];
        m.Off(b);
      }
      ghost var s1 := m.Snapshot();
      var ids := LayerIdsOf(layers);
      var i := 0;
      while i < |ids|
        invariant 0 <= i <= |ids|
        invariant callbacks == []
        invariant m.Snapshot() == RemoveLayers(s1, ids[..i])
      {
        assert ids[..i + 1][..i] == ids[..i];
        m.RemoveLayer(ids[i]);
        i := i + 1;
      }
      assert ids[..|ids|] == ids;
    }

    /** `toggleVisibility`: flip `isVisible`, then show or hide each declared engine layer. */
    method ToggleVisibility(m: Surface)
      modifies m, this`isVisible, this`layerVisibility
      ensures isVisible == !old(isVisible)
      ensures isVisible ==> m.Snapshot() == ShowAll(old(m.Snapshot()), old(layerVisibility), LayerIdsOf(layers)) &&
                            layerVisibility == old(layerVisibility)
      ensures !isVisible ==> (m.Snapshot(), layerVisibility) == HideAll(old(m.Snapshot()), old(layerVisibility), LayerIdsOf(layers))
    {
      isVisible := !isVisible;
      ghost var s0 := m.Snapshot();
      ghost var lv0 := layerVisibility;
      var ids := LayerIdsOf(layers);
      var i := 0;
      while i < |ids|
        invariant 0 <= i <= |ids|
        invariant isVisible == !old(isVisible)
        invariant isVisible ==> m.Snapshot() == ShowAll(s0, lv0, ids[..i]) && layerVisibility == lv0
        invariant !isVisible ==> (m.Snapshot(), layerVisibility) == HideAll(s0, lv0, ids[..i])
      {
        ghost var before, lvBefore := m.Snapshot(), layerVisibility;
        if isVisible {
          SetVisibilityVisible(m, ids[i]);
        } else {
          SetVisibilityNone(m, ids[i]);
        }
        ToggleStep(s0, lv0, ids, i, isVisible, before, lvBefore, m.Snapshot(), layerVisibility);
        i := i + 1;
      }
      assert ids[..|ids|] == ids;
    }

    /**
     * `setLayerVisibility`: record the requested visibility, and show the
     * layer only if the container is visible and `"visible"` was asked for.
     */
    method SetLayerVisibility(m: Surface, layerId: string, visibility: Visibility)
      modifies m, this`layerVisibility
      ensures layerVisibility == old(layerVisibility)[layerId := visibility]
      ensures m.Snapshot() == Perform(old(m.Snapshot()), SetLayoutCall(layerId, if isVisible && visibility == Visible then Visible else Hidden))
    {
      var shown := isVisible && visibility == Visible;
      layerVisibility := layerVisibility[layerId := visibility];
      m.SetLayoutProperty(layerId, if shown then Visible else Hidden);
    }
  }
}
