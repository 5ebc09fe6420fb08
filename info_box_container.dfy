// The selection the info-box container makes over the active layers: the
// legend to show, the layers that contribute info boxes, and the width those
// boxes and the legend are laid out at.

module InfoBoxContainer {
  import opened MapCommon

  /** An info box of a layer; only its optional `width` matters here. */
  datatype Box = Box(width: Option<int>)

  /** A layer's `legend` object: whether it is shown and its optional `width` (420 when absent). */
  datatype Legend = Legend(show: bool, width: Option<int>)

  /** The part of an active layer the container reads: a legend when `layer.legend` is truthy, and the info boxes. */
  datatype InfoLayer = InfoLayer(id: LayerId, legend: Option<Legend>, infoBoxes: seq<Box>)

  /** The fold's accumulator `[legendLayer, infoBoxLayers, infoBoxWidth]`. */
  datatype Selection = Selection(legendLayer: Option<InfoLayer>, infoBoxLayers: seq<InfoLayer>, infoBoxWidth: int)

  const DefaultWidth := 320
  const DefaultPadding := 8
  const DefaultLegendWidth := 420

  /** `get(box, "width", 0)`. */
  function BoxWidth(b: Box): int
  {
    if b.width.Some? then b.width.value else 0
  }

  /** The inner `reduce`: the widest box of a layer, starting from 0. */
  function WidestBox(boxes: seq<Box>): (w: int)
    ensures w >= 0
    ensures forall k :: 0 <= k < |boxes| ==> w >= BoxWidth(boxes[k])
    ensures w == 0 || exists k :: 0 <= k < |boxes| && w == BoxWidth(boxes[k])
    decreases |boxes|
  {
    if boxes == [] then 0
    else
      var w0 := WidestBox(boxes[..|boxes| - 1]);
      assert forall k :: 0 <= k < |boxes| - 1 ==> boxes[..|boxes| - 1][k] == boxes[k];
      Max(w0, BoxWidth(boxes[|boxes| - 1]))
  }

  /** One step of the outer `reduce`. */
  function Step(a: Selection, c: InfoLayer): Selection
  {
    var legendLayer := if c.legend.Some? then Some(c) else a.legendLayer;
    if |c.infoBoxes| != 0 then
      Selection(legendLayer, a.infoBoxLayers + [c], Max(a.infoBoxWidth, WidestBox(c.infoBoxes)))
    else
      Selection(legendLayer, a.infoBoxLayers, a.infoBoxWidth)
  }

  /** `activeLayers.reduce(..., [null, [], width])`. */
  function Select(ls: seq<InfoLayer>, width: int): (r: Selection)
    ensures r.legendLayer.Some? ==> r.legendLayer.value.legend.Some?
    ensures r.infoBoxWidth >= width
    ensures forall i :: 0 <= i < |ls| && |ls[i].infoBoxes| != 0 ==> r.infoBoxWidth >= WidestBox(ls[i].infoBoxes)
    decreases |ls|
  {
    if ls == [] then Selection(None, [], width)
    else
      var init := ls[..|ls| - 1];
      assert forall i :: 0 <= i < |init| ==> init[i] == ls[i];
      Step(Select(init, width), ls[|ls| - 1])
  }

  /** The width is the container's `width` or the widest box of some layer: nothing else widens it. */
  lemma {:induction false} WidthAttained(ls: seq<InfoLayer>, width: int)
    ensures var w := Select(ls, width).infoBoxWidth;
            w == width || exists i :: 0 <= i < |ls| && |ls[i].infoBoxes| != 0 && w == WidestBox(ls[i].infoBoxes)
    decreases |ls|
  {
    if ls != [] {
      var init := ls[..|ls| - 1];
      var c := ls[|ls| - 1];
      var a := Select(init, width);
      assert Select(ls, width) == Step(a, c);
      WidthAttained(init, width);
      if Select(ls, width).infoBoxWidth != width && Select(ls, width).infoBoxWidth == a.infoBoxWidth {
        var i :| 0 <= i < |init| && |init[i].infoBoxes| != 0 && a.infoBoxWidth == WidestBox(init[i].infoBoxes);
        assert ls[i] == init[i];
      }
    }
  }

  /** There is no legend layer exactly when no active layer has a legend. */
  lemma {:induction false} NoLegendLayer(ls: seq<InfoLayer>, width: int)
    ensures Select(ls, width).legendLayer.None? <==> forall i :: 0 <= i < |ls| ==> ls[i].legend.None?
    decreases |ls|
  {
    if ls != [] {
      var init := ls[..|ls| - 1];
      var c := ls[|ls| - 1];
      var a := Select(init, width);
      assert Select(ls, width) == Step(a, c);
      NoLegendLayer(init, width);
      assert forall i :: 0 <= i < |init| ==> init[i] == ls[i];
    }
  }

  /** The layers with at least one info box, in order. */
  function WithBoxes(ls: seq<InfoLayer>): (r: seq<InfoLayer>)
    decreases |ls|
  {
    if ls == [] then [] else (if |ls[0].infoBoxes| != 0 then [ls[0]] else []) + WithBoxes(ls[1..])
  }

  lemma {:induction false} WithBoxesSnoc(ls: seq<InfoLayer>, c: InfoLayer)
    ensures WithBoxes(ls + [c]) == WithBoxes(ls) + (if |c.infoBoxes| != 0 then [c] else [])
    decreases |ls|
  {
    if ls == [] {
      assert [c][1..] == [];
    } else {
      var h := if |ls[0].infoBoxes| != 0 then [ls[0]] else [];
      assert (ls + [c])[0] == ls[0];
      assert (ls + [c])[1..] == ls[1..] + [c];
      assert WithBoxes(ls + [c]) == h + WithBoxes(ls[1..] + [c]);
      WithBoxesSnoc(ls[1..], c);
      assert WithBoxes(ls) == h + WithBoxes(ls[1..]);
    }
  }

  /** `infoBoxLayers` are exactly the active layers with info boxes, in `activeLayers` order. */
  lemma {:induction false} InfoBoxLayersInOrder(ls: seq<InfoLayer>, width: int)
    ensures Select(ls, width).infoBoxLayers == WithBoxes(ls)
    decreases |ls|
  {
    if ls != [] {
      var init := ls[..|ls| - 1];
      assert ls == init + [ls[|ls| - 1]];
      InfoBoxLayersInOrder(init, width);
      WithBoxesSnoc(init, ls[|ls| - 1]);
    }
  }

  /** The position of the legend layer: it has a legend, and no later layer does. */
  lemma {:induction false} LegendLayerIndex(ls: seq<InfoLayer>, width: int, l: InfoLayer) returns (i: nat)
    requires Select(ls, width).legendLayer == Some(l)
    ensures i < |ls| && ls[i] == l && l.legend.Some?
    ensures forall j :: i < j < |ls| ==> ls[j].legend.None?
    decreases |ls|
  {
    var init := ls[..|ls| - 1];
    var c := ls[|ls| - 1];
    var a := Select(init, width);
    assert Select(ls, width) == Step(a, c);
    if c.legend.Some? {
      i := |ls| - 1;
    } else {
      i := LegendLayerIndex(init, width, l);
      assert ls[i] == init[i];
      forall j | i < j < |ls| ensures ls[j].legend.None? {
        if j < |init| { assert ls[j] == init[j]; }
      }
    }
  }

  /** `legendLayer` is the last active layer with a legend: it has one, and no later layer does. */
  lemma LegendLayerIsLast(ls: seq<InfoLayer>, width: int)
    requires Select(ls, width).legendLayer.Some?
    ensures exists i :: 0 <= i < |ls| && ls[i] == Select(ls, width).legendLayer.value && ls[i].legend.Some? &&
                        forall j :: i < j < |ls| ==> ls[j].legend.None?
  {
    var i := LegendLayerIndex(ls, width, Select(ls, width).legendLayer.value);
  }

  // ---------------------------------------------------------------------
  // What the container renders

  /** The legend is rendered only when there is a legend layer and its `legend.show` is truthy. */
  function LegendShown(sel: Selection): (shown: bool)
    ensures shown <==> sel.legendLayer.Some? && sel.legendLayer.value.legend.Some? && sel.legendLayer.value.legend.value.show
  {
    match sel.legendLayer
    case None => false
    case Some(l) => l.legend.Some? && l.legend.value.show
  }

  /** The panel of info boxes is rendered only when some layer contributes boxes. */
  predicate PanelShown(sel: Selection)
  {
    |sel.infoBoxLayers| != 0
  }

  /** The panel's CSS width, `infoBoxWidth - padding * 2`. */
  function PanelWidth(sel: Selection, padding: int): int
  {
    sel.infoBoxWidth - padding * 2
  }

  /** The legend's CSS width, `Math.max(infoBoxWidth, width) - padding * 2`, with the legend's own `width` defaulting to 420. */
  function LegendWidth(sel: Selection, legend: Legend, padding: int): (w: int)
    ensures w >= PanelWidth(sel, padding)
    ensures w >= (if legend.width.Some? then legend.width.value else DefaultLegendWidth) - padding * 2
    ensures w == PanelWidth(sel, padding) || w == (if legend.width.Some? then legend.width.value else DefaultLegendWidth) - padding * 2
  {
    Max(sel.infoBoxWidth, if legend.width.Some? then legend.width.value else DefaultLegendWidth) - padding * 2
  }

  /** Every info box fits its panel: the panel is as wide as the widest box, less the padding on both sides. */
  lemma BoxesFitPanel(ls: seq<InfoLayer>, width: int, padding: int, i: nat, k: nat)
    requires i < |ls| && k < |ls[i].infoBoxes|
    ensures PanelWidth(Select(ls, width), padding) >= BoxWidth(ls[i].infoBoxes[k]) - padding * 2
    ensures PanelWidth(Select(ls, width), padding) >= width - padding * 2
  {
  }

  /** With no info boxes the panel is hidden and the width is the container's own `width`. */
  lemma {:induction false} NoBoxesKeepsWidth(ls: seq<InfoLayer>, width: int)
    requires forall i :: 0 <= i < |ls| ==> |ls[i].infoBoxes| == 0
    ensures !PanelShown(Select(ls, width)) && Select(ls, width).infoBoxWidth == width
  {
    InfoBoxLayersInOrder(ls, width);
    NoBoxesNoLayers(ls);
    WidthAttained(ls, width);
  }

  /** With the defaults (width 320, padding 8) and no boxes, the panel is 304 wide and a legend without a width 404. */
  lemma DefaultWidths(ls: seq<InfoLayer>, legend: Legend)
    requires forall i :: 0 <= i < |ls| ==> |ls[i].infoBoxes| == 0
    requires legend.width.None?
    ensures PanelWidth(Select(ls, DefaultWidth), DefaultPadding) == 304
    ensures LegendWidth(Select(ls, DefaultWidth), legend, DefaultPadding) == 404
  {
    NoBoxesKeepsWidth(ls, DefaultWidth);
  }

  lemma {:induction false} NoBoxesNoLayers(ls: seq<InfoLayer>)
    requires forall i :: 0 <= i < |ls| ==> |ls[i].infoBoxes| == 0
    ensures WithBoxes(ls) == []
    decreases |ls|
  {
    if ls != [] {
      assert forall i :: 0 <= i < |ls[1..]| ==> ls[1..][i] == ls[i + 1];
      NoBoxesNoLayers(ls[1..]);
    }
  }
}
