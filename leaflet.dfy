/** The Leaflet map seen as a store of live layers. A layer is named by an opaque
    handle; `addTo(map)` makes a layer live under a fresh handle and
    `map.removeLayer` takes it off the map (a no-op for a layer that is not on it). */
module Leaflet {
  import opened JsValues

  /** Handles are handed out by a counter that starts at 0. */
  type Handle = int

  /** The icons the scripts put on markers. */
  datatype Icon =
    | LabeledPin(address: string, title: Option<string>, subtext: string)  // pin with an address label
    | DeleteButton                                                          // the "x" shown at a circle's centre
    | SearchPin(popup: string)                                              // oldest revision: purple search pin
    | LabelBadge(text: string, miles: int)                                  // oldest revision: floating radius label

  datatype Layer =
    | Marker(lat: Num, lon: Num, icon: Icon)
    | Circle(lat: Num, lon: Num, miles: int)

  /** What `marker.setIcon(icon)` does to the drawn layers: a live marker shows the new
      icon; a handle that is not a live marker changes nothing that is drawn. */
  function Relabel(layers: map<Handle, Layer>, h: Handle, icon: Icon): (layers': map<Handle, Layer>)
    ensures layers'.Keys == layers.Keys
    ensures forall g :: g in layers && g != h ==> layers'[g] == layers[g]
    ensures h in layers && layers[h].Marker? ==> layers'[h] == Marker(layers[h].lat, layers[h].lon, icon)
    ensures !(h in layers && layers[h].Marker?) ==> layers' == layers
  {
    if h in layers && layers[h].Marker? then layers[h := layers[h].(icon := icon)] else layers
  }

  /** Removing two sets of layers one after the other removes their union. */
  lemma RemoveBoth(layers: map<Handle, Layer>, a: set<Handle>, b: set<Handle>)
    ensures layers - a - b == layers - (a + b)
  {
  }

  class LeafletMap {
    /** The layers currently drawn, by handle. */
    var layers: map<Handle, Layer>
    /** The next handle to hand out; handles are never reused. */
    var next: Handle

    constructor ()
      ensures layers == map[] && next == 0
    {
      layers := map[];
      next := 0;
    }

    /** `layer.addTo(map)`. */
    method AddTo(layer: Layer) returns (h: Handle)
      modifies this
      ensures h == old(next) && next == h + 1
      ensures layers == old(layers)[h := layer]
    {
      h := next;
      layers := layers[h := layer];
      next := next + 1;
    }

    /** `map.removeLayer(h)`. */
    method RemoveLayer(h: Handle)
      modifies this`layers
      ensures layers == old(layers) - {h}
    {
      layers := layers - {h};
    }

    /** `marker.setIcon(icon)`: only a live marker changes what is drawn. */
    method SetIcon(h: Handle, icon: Icon)
      modifies this`layers
      ensures layers == Relabel(old(layers), h, icon)
    {
      layers := Relabel(layers, h, icon);
    }
  }
}
