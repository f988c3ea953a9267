/**
 * dashboard/app_utils/map.py: finding a map layer by name, and the bounds
 * the base map is fitted to. A map's layers are a list in drawing order; the
 * map widget itself (ipyleaflet's Map) is modelled by the class LeafletMap,
 * whose add_layer and remove_layer are what main_map in dashboard/app.py
 * builds its layer replacement on.
 */
module MapLayers {
  import opened Wrappers
  import opened Geometry
  import opened Tables

  /** What a layer draws. */
  datatype LayerContent =
    | TileLayer(base: bool)
    | ImageOverlay(url: string, bounds: CornerPair, opacity: real)
    | GeoData(points: seq<Corner>)

  /** A layer widget: `id` is its widget model id, unique per widget; `name` is what the layer control shows. */
  datatype Layer = Layer(id: nat, name: string, content: LayerContent)

  /** layer_exists: scan the layers in order and stop at the first with that name. */
  function LayerExists(layers: seq<Layer>, name: string): (b: bool)
    ensures b <==> exists i :: 0 <= i < |layers| && layers[i].name == name
  {
    if layers == [] then false
    else if layers[0].name == name then
      assert layers[0].name == name;
      true
    else
      var b := LayerExists(layers[1..], name);
      assert forall i :: 1 <= i < |layers| ==> layers[i] == layers[1..][i - 1];
      b
  }

  /** get_layer: the same scan, giving the first layer with that name, or None. */
  function GetLayer(layers: seq<Layer>, name: string): (r: Option<Layer>)
    ensures r.None? <==> !LayerExists(layers, name)
    ensures r.Some? ==> exists i :: 0 <= i < |layers| && layers[i] == r.value && r.value.name == name &&
                                   forall j :: 0 <= j < i ==> layers[j].name != name
  {
    if layers == [] then None
    else if layers[0].name == name then Some(layers[0])
    else
      var r := GetLayer(layers[1..], name);
      assert forall i :: 1 <= i < |layers| ==> layers[i] == layers[1..][i - 1];
      if r.Some? then
        var i :| 0 <= i < |layers[1..]| && layers[1..][i] == r.value && r.value.name == name &&
                 forall j :: 0 <= j < i ==> layers[1..][j].name != name;
        assert layers[i + 1] == r.value;
        r
      else r
  }

  /** The index of the layer get_layer finds: the first one named `name`. */
  lemma {:induction false} GetLayerIndex(layers: seq<Layer>, name: string) returns (i: nat)
    requires LayerExists(layers, name)
    ensures i < |layers| && GetLayer(layers, name) == Some(layers[i]) && layers[i].name == name
    ensures forall j :: 0 <= j < i ==> layers[j].name != name
  {
    if layers[0].name == name {
      i := 0;
    } else {
      var k := GetLayerIndex(layers[1..], name);
      i := k + 1;
    }
  }

  /** Widget model ids identify layers: no two layers of a map share one. */
  predicate DistinctIds(layers: seq<Layer>)
  {
    forall i, j :: 0 <= i < j < |layers| ==> layers[i].id != layers[j].id
  }

  /** How many layers carry that name. */
  function CountNamed(layers: seq<Layer>, name: string): (n: nat)
    ensures n <= |layers|
    ensures n > 0 <==> LayerExists(layers, name)
  {
    if layers == [] then 0
    else
      assert forall i :: 1 <= i < |layers| ==> layers[i] == layers[1..][i - 1];
      (if layers[0].name == name then 1 else 0) + CountNamed(layers[1..], name)
  }

  /** The layers without the one whose widget id is `id`: what remove_layer leaves. */
  function RemoveId(layers: seq<Layer>, id: nat): (r: seq<Layer>)
    ensures |r| <= |layers|
    ensures forall l :: l in r <==> l in layers && l.id != id
  {
    if layers == [] then []
    else if layers[0].id == id then RemoveId(layers[1..], id)
    else [layers[0]] + RemoveId(layers[1..], id)
  }

  /** The mask remove_layer applies: every layer but the one with that widget id. */
  function OtherIds(id: nat): Layer -> bool
  {
    (l: Layer) => l.id != id
  }

  /** Removing a layer is the boolean-mask selection of the other layers. */
  lemma {:induction false} RemoveIdIsWhere(layers: seq<Layer>, id: nat)
    ensures RemoveId(layers, id) == Where(layers, OtherIds(id))
  {
    if layers != [] {
      RemoveIdIsWhere(layers[1..], id);
    }
  }

  /** remove_layer keeps the other layers in their drawing order, each as often as before. */
  lemma RemoveIdInOrder(layers: seq<Layer>, id: nat)
    ensures IsSubsequence(RemoveId(layers, id), layers)
    ensures forall l :: multiset(RemoveId(layers, id))[l] == if l.id != id then multiset(layers)[l] else 0
  {
    RemoveIdIsWhere(layers, id);
  }

  /** Removing one layer of a map takes exactly that layer's name off the count. */
  lemma {:induction false} RemoveIdCount(layers: seq<Layer>, k: nat, name: string)
    requires DistinctIds(layers) && k < |layers|
    ensures CountNamed(RemoveId(layers, layers[k].id), name)
         == CountNamed(layers, name) - (if layers[k].name == name then 1 else 0)
  {
    var id := layers[k].id;
    if k == 0 {
      RemoveAbsentId(layers[1..], id);
    } else {
      assert layers[0].id != id;
      assert layers[1..][k - 1] == layers[k];
      RemoveIdCount(layers[1..], k - 1, name);
      assert RemoveId(layers, id) == [layers[0]] + RemoveId(layers[1..], id);
      assert ([layers[0]] + RemoveId(layers[1..], id))[1..] == RemoveId(layers[1..], id);
    }
  }

  /** A layer whose id no other layer has can go in front of a list with unique ids. */
  lemma DistinctIdsCons(h: Layer, rest: seq<Layer>)
    requires DistinctIds(rest) && forall j :: 0 <= j < |rest| ==> rest[j].id != h.id
    ensures DistinctIds([h] + rest)
  {
    var r := [h] + rest;
    forall i, j | 0 <= i < j < |r| ensures r[i].id != r[j].id {
      assert r[j] == rest[j - 1];
      if i > 0 {
        assert r[i] == rest[i - 1];
      }
    }
  }

  /** Removing an id no layer has changes nothing. */
  lemma {:induction false} RemoveAbsentId(layers: seq<Layer>, id: nat)
    requires forall i :: 0 <= i < |layers| ==> layers[i].id != id
    ensures RemoveId(layers, id) == layers
  {
    if layers != [] {
      RemoveAbsentId(layers[1..], id);
    }
  }

  /** Counting over a concatenation. */
  lemma {:induction false} CountNamedAppend(layers: seq<Layer>, l: Layer, name: string)
    ensures CountNamed(layers + [l], name) == CountNamed(layers, name) + (if l.name == name then 1 else 0)
  {
    if layers != [] {
      assert (layers + [l])[1..] == layers[1..] + [l];
      CountNamedAppend(layers[1..], l, name);
    } else {
      assert [l][1..] == [];
    }
  }

  /**
   * The main_map pattern: if a layer named like `l` exists, remove the first
   * such layer, then add `l`.
   */
  function ReplaceNamed(layers: seq<Layer>, l: Layer): (r: seq<Layer>)
    ensures |r| > 0 && r[|r| - 1] == l
  {
    var kept := if LayerExists(layers, l.name) then RemoveId(layers, GetLayer(layers, l.name).value.id) else layers;
    kept + [l]
  }

  /**
   * After a replacement there is exactly one layer with the new layer's name
   * if there was at most one before, and the count of every other name is
   * unchanged. So a map that never holds two layers of one name keeps it so.
   */
  lemma ReplaceNamedCount(layers: seq<Layer>, l: Layer, name: string)
    requires DistinctIds(layers)
    ensures name == l.name && CountNamed(layers, name) <= 1 ==> CountNamed(ReplaceNamed(layers, l), name) == 1
    ensures name != l.name ==> CountNamed(ReplaceNamed(layers, l), name) == CountNamed(layers, name)
  {
    var kept := if LayerExists(layers, l.name) then RemoveId(layers, GetLayer(layers, l.name).value.id) else layers;
    CountNamedAppend(kept, l, name);
    if LayerExists(layers, l.name) {
      var k := GetLayerIndex(layers, l.name);
      RemoveIdCount(layers, k, name);
    }
  }

  /** Replacing keeps widget ids unique when the new layer is a new widget. */
  lemma ReplaceNamedDistinct(layers: seq<Layer>, l: Layer)
    requires DistinctIds(layers)
    requires forall i :: 0 <= i < |layers| ==> layers[i].id != l.id
    ensures DistinctIds(ReplaceNamed(layers, l))
  {
    var kept := if LayerExists(layers, l.name) then RemoveId(layers, GetLayer(layers, l.name).value.id) else layers;
    if LayerExists(layers, l.name) {
      RemoveIdDistinct(layers, GetLayer(layers, l.name).value.id);
    }
    assert forall i :: 0 <= i < |kept| ==> kept[i] in layers && kept[i].id != l.id;
  }

  /** Removing keeps the remaining ids unique. */
  lemma {:induction false} RemoveIdDistinct(layers: seq<Layer>, id: nat)
    requires DistinctIds(layers)
    ensures DistinctIds(RemoveId(layers, id))
  {
    if layers != [] {
      var tail := layers[1..];
      assert DistinctIds(tail) by {
        assert forall m :: 0 <= m < |tail| ==> tail[m] == layers[m + 1];
      }
      RemoveIdDistinct(tail, id);
      if layers[0].id != id {
        var rest := RemoveId(tail, id);
        assert forall j :: 0 <= j < |rest| ==> rest[j].id != layers[0].id by {
          forall j | 0 <= j < |rest| ensures rest[j].id != layers[0].id {
            assert rest[j] in tail;
            var m :| 0 <= m < |tail| && tail[m] == rest[j];
            assert layers[m + 1] == rest[j];
          }
        }
        DistinctIdsCons(layers[0], rest);
      }
    }
  }

  /**
   * generate_basemap fits the map to `[[miny, minx], [maxy, maxx]]` of the
   * boundary's total_bounds (minx, miny, maxx, maxy): leaflet wants each
   * corner as (latitude, longitude), so x and y trade places.
   */
  function FitBounds(b: Bounds): (c: CornerPair)
    ensures c.southWest.first == b.miny && c.southWest.second == b.minx
    ensures c.northEast.first == b.maxy && c.northEast.second == b.maxx
  {
    CornerPair(Corner(b.miny, b.minx), Corner(b.maxy, b.maxx))
  }

  /** Fitting to a well-formed box gives a south-west corner below and left of the north-east one. */
  lemma FitBoundsOrdered(b: Bounds)
    requires b.minx <= b.maxx && b.miny <= b.maxy
    ensures FitBounds(b).southWest.first <= FitBounds(b).northEast.first
    ensures FitBounds(b).southWest.second <= FitBounds(b).northEast.second
  {
  }

  /** The ipyleaflet Map widget, as far as main_map uses it: its list of layers. */
  class LeafletMap {
    var layers: seq<Layer>

    ghost predicate Valid()
      reads this
    {
      DistinctIds(layers)
    }

    constructor (initial: seq<Layer>)
      requires DistinctIds(initial)
      ensures Valid() && layers == initial
    {
      layers := initial;
    }

    /**
     * add_layer: append a layer widget. ipyleaflet refuses a widget that is
     * already on the map; the layers main_map adds are new widgets.
     */
    method AddLayer(l: Layer)
      requires Valid()
      requires forall i :: 0 <= i < |layers| ==> layers[i].id != l.id
      modifies this
      ensures Valid()
      ensures layers == old(layers) + [l]
    {
      layers := layers + [l];
    }

    /** remove_layer: keep every layer whose widget id differs from the removed one's. */
    method RemoveLayer(l: Layer)
      requires Valid() && l in layers
      modifies this
      ensures Valid()
      ensures layers == RemoveId(old(layers), l.id)
      ensures |layers| == |old(layers)| - 1
      ensures IsSubsequence(layers, old(layers))
    {
      RemoveIdDistinct(layers, l.id);
      RemoveIdInOrder(layers, l.id);
      var k :| 0 <= k < |layers| && layers[k] == l;
      RemoveIdLength(layers, k);
      layers := RemoveId(layers, l.id);
    }
  }

  /** Removing a present id drops exactly one layer. */
  lemma {:induction false} RemoveIdLength(layers: seq<Layer>, k: nat)
    requires DistinctIds(layers) && k < |layers|
    ensures |RemoveId(layers, layers[k].id)| == |layers| - 1
  {
    var id := layers[k].id;
    if k == 0 {
      RemoveAbsentId(layers[1..], id);
    } else {
      assert layers[1..][k - 1] == layers[k];
      RemoveIdLength(layers[1..], k - 1);
    }
  }
}
