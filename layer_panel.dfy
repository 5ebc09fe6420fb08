// The pure selections of the layer panel: how a toolbar entry is resolved to
// a tool, which icon a tool shows for a layer, which filters get a control,
// and when the loading overlay covers the panel.

module LayerPanel {
  import opened MapCommon

  /** An icon: a fixed class name, the built-in eye that follows visibility, or a layer-defined function (by index). */
  datatype Icon = Literal(cls: string) | EyeIfVisible | IconFn(fn: nat)

  /** What a tool does when clicked: the built-in toggle, nothing, or a layer-defined action (by index). */
  datatype ToolAction = ToggleVisibility | NoOp | ActionFn(fn: nat)

  datatype Tool = Tool(tooltip: string, icon: Icon, action: ToolAction)

  /** An entry of `layer.toolbar`: a string naming a built-in tool, or a tool object. */
  datatype ToolEntry = Named(name: string) | Given(tool: Tool)

  /** The part of a layer the panel reads. */
  datatype PanelLayer = PanelLayer(id: LayerId, isVisible: bool)

  /** What clicking a tool does to the map: `MapActions.toggleVisibility(layer)`, nothing, or a layer-defined call. */
  datatype Click = ToggleCall(layerId: LayerId) | NoCall | CustomCall(fn: nat, layerId: LayerId)

  const ToggleName := "toggle-visibility"

  function UnknownTooltip(name: string): string
  {
    "Unknown Tool \"" + name + "\""
  }

  /** `checkDefaultTools`: tool objects pass through; strings resolve to the built-in toggle or to the "unknown tool" placeholder. */
  function CheckDefaultTools(entry: ToolEntry): (t: Tool)
    ensures entry.Given? ==> t == entry.tool
    ensures entry.Named? && entry.name == ToggleName ==>
              t.tooltip == "Toogle Visibility" && t.icon == EyeIfVisible && t.action == ToggleVisibility
    ensures entry.Named? && entry.name != ToggleName ==>
              t.tooltip == UnknownTooltip(entry.name) && t.icon == Literal("fa-thumbs-down") && t.action == NoOp
  {
    match entry
    case Given(tool) => tool
    case Named(name) =>
      if name == ToggleName then Tool("Toogle Visibility", EyeIfVisible, ToggleVisibility)
      else Tool(UnknownTooltip(name), Literal("fa-thumbs-down"), NoOp)
  }

  /** The icon class of a tool for `layer` (`LayerTool`): functions are applied to the layer, anything else is used as is. */
  function IconOf(t: Tool, layer: PanelLayer, apply: (nat, PanelLayer) -> string): (cls: string)
    ensures t.icon.Literal? ==> cls == t.icon.cls
    ensures t.icon.IconFn? ==> cls == apply(t.icon.fn, layer)
  {
    match t.icon
    case Literal(c) => c
    case EyeIfVisible => if layer.isVisible then "fa-eye" else "fa-eye-slash"
    case IconFn(f) => apply(f, layer)
  }

  /** `Tool.action(MapActions, layer)`. */
  function ClickOf(t: Tool, layer: PanelLayer): (c: Click)
    ensures t.action.ToggleVisibility? <==> c == ToggleCall(layer.id)
    ensures t.action.NoOp? <==> c.NoCall?
  {
    match t.action
    case ToggleVisibility => ToggleCall(layer.id)
    case NoOp => NoCall
    case ActionFn(f) => CustomCall(f, layer.id)
  }

  /** The built-in toggle shows the open eye exactly when the layer is visible, and clicking it toggles that layer. */
  lemma ToggleToolFollowsVisibility(layer: PanelLayer, apply: (nat, PanelLayer) -> string)
    ensures var t := CheckDefaultTools(Named(ToggleName));
            && (IconOf(t, layer, apply) == "fa-eye" <==> layer.isVisible)
            && (IconOf(t, layer, apply) == "fa-eye-slash" <==> !layer.isVisible)
            && ClickOf(t, layer) == ToggleCall(layer.id)
  {
  }

  /** Any other name shows the thumbs-down icon and does nothing, whatever the layer. */
  lemma UnknownToolIsInert(name: string, layer: PanelLayer, apply: (nat, PanelLayer) -> string)
    requires name != ToggleName
    ensures var t := CheckDefaultTools(Named(name));
            IconOf(t, layer, apply) == "fa-thumbs-down" && ClickOf(t, layer) == NoCall
  {
  }

  /** Resolving is idempotent: a resolved tool, handed back in, resolves to itself. */
  lemma CheckDefaultToolsIdempotent(entry: ToolEntry)
    ensures CheckDefaultTools(Given(CheckDefaultTools(entry))) == CheckDefaultTools(entry)
  {
  }

  /** The placeholder tooltip names the tool: two different unknown names never share a tooltip. */
  lemma UnknownTooltipInjective(a: string, b: string)
    requires UnknownTooltip(a) == UnknownTooltip(b)
    ensures a == b
  {
    var prefix := "Unknown Tool \"";
    assert UnknownTooltip(a) == prefix + a + "\"";
    assert a == UnknownTooltip(a)[|prefix|..|UnknownTooltip(a)| - 1];
    assert b == UnknownTooltip(b)[|prefix|..|UnknownTooltip(b)| - 1];
  }

  // ---------------------------------------------------------------------
  // Filters

  /** The `active` key of a filter: absent (so `true` by default), or present with its truthiness. */
  datatype Flag = Absent | Present(truthy: bool)

  datatype Filter = Filter(name: string, filterType: string, layerId: LayerId, active: Flag, multi: bool)

  /** The control for one filter: its React key `${layerId}-${name}`, its caption and whether its select is removable. */
  datatype Control = Control(key: string, caption: string, removable: bool)

  predicate IsActive(f: Filter)
  {
    f.active.Absent? || f.active.truthy
  }

  function ControlFor(f: Filter): Control
  {
    Control(f.layerId + "-" + f.name, f.name, f.multi)
  }

  /** The `useMemo` over `Object.values(layer.filters)`: one slot per filter, empty for an inactive one. */
  function Filters(fs: seq<Filter>): (r: seq<Option<Control>>)
    ensures |r| == |fs|
    ensures forall i :: 0 <= i < |fs| ==> (r[i].Some? <==> IsActive(fs[i]))
    ensures forall i :: 0 <= i < |fs| && r[i].Some? ==>
              r[i].value.caption == fs[i].name && r[i].value.key == fs[i].layerId + "-" + fs[i].name &&
              r[i].value.removable == fs[i].multi
  {
    if fs == [] then []
    else [if IsActive(fs[0]) then Some(ControlFor(fs[0])) else None] + Filters(fs[1..])
  }

  /** What React renders of a list of slots: the present controls, in order. */
  function Rendered(slots: seq<Option<Control>>): seq<Control>
  {
    if slots == [] then []
    else (if slots[0].Some? then [slots[0].value] else []) + Rendered(slots[1..])
  }

  /** The active filters, in order. */
  function ActiveFilters(fs: seq<Filter>): (r: seq<Filter>)
    ensures forall f :: f in r ==> f in fs && IsActive(f)
  {
    if fs == [] then []
    else (if IsActive(fs[0]) then [fs[0]] else []) + ActiveFilters(fs[1..])
  }

  function ControlsFor(fs: seq<Filter>): (r: seq<Control>)
    ensures |r| == |fs| && forall i :: 0 <= i < |fs| ==> r[i] == ControlFor(fs[i])
  {
    if fs == [] then [] else [ControlFor(fs[0])] + ControlsFor(fs[1..])
  }

  /** The panel shows exactly one control per active filter, in filter order, and none for the others. */
  lemma {:induction false} RenderedFilters(fs: seq<Filter>)
    ensures Rendered(Filters(fs)) == ControlsFor(ActiveFilters(fs))
  {
    if fs != [] {
      RenderedFilters(fs[1..]);
      assert Filters(fs)[1..] == Filters(fs[1..]);
      if IsActive(fs[0]) {
        assert ActiveFilters(fs) == [fs[0]] + ActiveFilters(fs[1..]);
        assert ControlsFor(ActiveFilters(fs)) == [ControlFor(fs[0])] + ControlsFor(ActiveFilters(fs[1..]));
      } else {
        assert ActiveFilters(fs) == ActiveFilters(fs[1..]);
      }
    }
  }

  // ---------------------------------------------------------------------
  // Loading overlay

  /** `Boolean(layersLoading[layer.id])`: an absent counter and a zero counter both hide the overlay. */
  function OverlayShown(layersLoading: map<LayerId, int>, id: LayerId): (shown: bool)
    ensures shown <==> id in layersLoading && layersLoading[id] != 0
  {
    Count(layersLoading, id) != 0
  }

  /** A `loading-start` on a non-negative counter always shows the overlay of that layer and no other. */
  lemma StartShowsOverlay(counters: map<LayerId, int>, id: LayerId, other: LayerId)
    requires Count(counters, id) >= 0 && other != id
    ensures OverlayShown(StartLoading(counters, id), id)
    ensures OverlayShown(StartLoading(counters, other), id) == OverlayShown(counters, id)
  {
  }

  /** After as many stops as starts, a layer that was idle is idle again and its overlay is hidden. */
  lemma BalancedLoadingHidesOverlay(counters: map<LayerId, int>, id: LayerId, n: nat)
    requires !OverlayShown(counters, id)
    ensures !OverlayShown(ApplyLoading(counters, id, Repeat(true, n) + Repeat(false, n)), id)
  {
    StartsThenStopsRestore(counters, id, n);
  }
}
