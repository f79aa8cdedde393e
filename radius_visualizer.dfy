/** `RadiusVisualizer.js`, the oldest revision. A search only moves the single search pin
    (`map._marker`) and never touches the registry; choosing a radius draws a circle and a
    floating label badge and stores `{ lat, lon, radius, circle, label }` under the address,
    whether or not the address was there before. The registry is the same kind of table as
    in the newer revisions, read through `AsRecord`: the badge plays the part of the pin and
    the search pin the part of the slot. */
module RadiusVisualizer {
  import opened JsValues
  import opened Leaflet
  import opened Registry
  import opened Dom
  import Geocoding

  /** One entry of this revision's `addressMap`; `badge` is the record's `label` marker. */
  datatype LegacyRecord = LegacyRecord(lat: Num, lon: Num, radius: int, circle: Handle, badge: Handle)

  /** The entry as a registry record: the badge is its marker, it always has a radius and a
      circle, and it has no full address. */
  function AsRecord(l: LegacyRecord): (r: Record)
    ensures Handles(r) == {l.badge, l.circle}
    ensures r.lat == l.lat && r.lon == l.lon && r.radius == Some(l.radius)
  {
    Record(l.lat, l.lon, Some(l.radius), Some(l.circle), l.badge, None)
  }

  function AsRegistry(m: map<string, LegacyRecord>): (g: map<string, Record>)
    ensures g.Keys == m.Keys
    ensures forall a :: a in m ==> g[a] == AsRecord(m[a])
  {
    map a | a in m :: AsRecord(m[a])
  }

  lemma AsRegistryPut(m: map<string, LegacyRecord>, a: string, l: LegacyRecord)
    ensures AsRegistry(m[a := l]) == AsRegistry(m)[a := AsRecord(l)]
  {
  }

  lemma AsRegistryRemove(m: map<string, LegacyRecord>, a: string)
    ensures AsRegistry(m - {a}) == AsRegistry(m) - {a}
  {
  }

  /** The selector's neutral text in this revision. */
  const PLACEHOLDER: string := "Select Cars Social Type"

  /** What choosing radius `v` for `a` does to the layers, as `ReplaceConsistent` asks for it. */
  lemma SelectFrame(m: map<string, Record>, layers: map<Handle, Layer>, next: Handle, a: string,
                    lat: Num, lon: Num, v: int)
    requires Fresh(layers, next)
    ensures var r' := AsRecord(LegacyRecord(lat, lon, v, next, next + 1));
            var layers' := (layers - HandlesAt(m, a))[next := Circle(lat, lon, v)][next + 1 := Marker(lat, lon, LabelBadge(a, v))];
            && layers'.Keys == (layers.Keys - HandlesAt(m, a)) + Handles(r')
            && Handles(r') !! (layers.Keys - HandlesAt(m, a))
            && (forall h :: h in layers && h !in HandlesAt(m, a) ==> h in layers' && layers'[h] == layers[h])
            && Drawn(layers', Legacy, a, r')
            && Fresh(layers', next + 2)
  {
    assert next !in layers && next + 1 !in layers;
    assert Pin(Legacy, a, Some(v), None) == LabelBadge(a, v);
  }

  /** Choosing a radius keeps the registry and the map in agreement: the entry's old circle
      and badge (if any) are released, and a fresh circle and badge are drawn and recorded. */
  lemma SelectConsistent(m: map<string, Record>, sm: Option<Handle>, layers: map<Handle, Layer>,
                         next: Handle, a: string, lat: Num, lon: Num, v: int)
    requires Consistent(m, sm, layers, next, Legacy)
    ensures Consistent(m[a := AsRecord(LegacyRecord(lat, lon, v, next, next + 1))], sm,
                       (layers - HandlesAt(m, a))[next := Circle(lat, lon, v)][next + 1 := Marker(lat, lon, LabelBadge(a, v))],
                       next + 2, Legacy)
  {
    SelectFrame(m, layers, next, a, lat, lon, v);
    ReplaceConsistent(m, sm, layers, next, Legacy, a, AsRecord(LegacyRecord(lat, lon, v, next, next + 1)),
                      (layers - HandlesAt(m, a))[next := Circle(lat, lon, v)][next + 1 := Marker(lat, lon, LabelBadge(a, v))],
                      next + 2);
  }

  /** `SelectConsistent`, read through `AsRegistry`. */
  lemma SelectShown(m: map<string, LegacyRecord>, sm: Option<Handle>, layers: map<Handle, Layer>,
                    next: Handle, a: string, lat: Num, lon: Num, v: int,
                    m': map<string, LegacyRecord>, layers': map<Handle, Layer>, next': Handle)
    requires Consistent(AsRegistry(m), sm, layers, next, Legacy)
    requires m' == m[a := LegacyRecord(lat, lon, v, next, next + 1)]
    requires layers' == (layers - HandlesAt(AsRegistry(m), a))[next := Circle(lat, lon, v)][next + 1 := Marker(lat, lon, LabelBadge(a, v))]
    requires next' == next + 2
    ensures Consistent(AsRegistry(m'), sm, layers', next', Legacy)
  {
    SelectConsistent(AsRegistry(m), sm, layers, next, a, lat, lon, v);
    AsRegistryPut(m, a, LegacyRecord(lat, lon, v, next, next + 1));
  }

  /** One step of the clear-all loop: releasing the handles of the entry under `a` moves them
      from the entries still to visit to the released ones. */
  lemma ReleaseStep(left: map<string, LegacyRecord>, a: string, released: set<Handle>, total: set<Handle>)
    requires a in left
    requires released + Tracked(AsRegistry(left)) == total
    ensures (released + {left[a].circle, left[a].badge}) + Tracked(AsRegistry(left - {a})) == total
    ensures |left - {a}| < |left|
  {
    assert left.Keys == (left - {a}).Keys + {a};
    TrackedSplit(AsRegistry(left), a);
    AsRegistryRemove(left, a);
  }

  class Visualizer {
    /** `addressMap`: address |-> `{ lat, lon, radius, circle, label }`. */
    var addressMap: map<string, LegacyRecord>
    /** `map._marker`: the search pin, or nothing. */
    var searchMarker: Option<Handle>

    constructor ()
      ensures addressMap == map[] && searchMarker == None
    {
      addressMap := map[];
      searchMarker := None;
    }

    /** The registry and the search pin agree with what `lm` draws. */
    ghost predicate ShownOn(lm: LeafletMap)
      reads this, lm
    {
      Consistent(AsRegistry(addressMap), searchMarker, lm.layers, lm.next, Legacy)
    }

    /** The previous search pin (if any) is released and a fresh one drawn at the point. */
    method ReplaceSearchMarker(lm: LeafletMap, address: string, lat: Num, lon: Num)
      modifies this`searchMarker, lm
      ensures searchMarker == Some(old(lm.next)) && lm.next == old(lm.next) + 1
      ensures lm.layers == (old(lm.layers) - ToSet(old(searchMarker)))[old(lm.next) := Marker(lat, lon, SearchPin(address))]
    {
      if searchMarker.Some? {
        lm.RemoveLayer(searchMarker.value);
      }
      var marker := lm.AddTo(Marker(lat, lon, SearchPin(address)));
      searchMarker := Some(marker);
    }

    /** The delayed part of `geocodeAddress(address)`: the search pin moves to the first
        result, the radius panel remembers the address and the point and the selector is
        enabled. The registry is not touched. */
    method PlaceSearchResult(lm: LeafletMap, page: Page, address: string, lat: Num, lon: Num)
      requires ShownOn(lm)
      modifies this`searchMarker, lm, page`radiusVisible, page`radiusAddress, page`radiusLat, page`radiusLon,
               page`dropdownDisabled, page`selectedText, page`selectedValue
      ensures ShownOn(lm)
      ensures addressMap == old(addressMap)
      ensures searchMarker == Some(old(lm.next)) && lm.next == old(lm.next) + 1
      ensures lm.layers == (old(lm.layers) - ToSet(old(searchMarker)))[old(lm.next) := Marker(lat, lon, SearchPin(address))]
      ensures page.radiusVisible && page.radiusAddress == Some(address) && page.radiusLat == lat && page.radiusLon == lon
      ensures !page.dropdownDisabled && page.selectedText == PLACEHOLDER && page.selectedValue == ""
    {
      ShowSlotConsistent(AsRegistry(addressMap), searchMarker, lm.layers, lm.next, Legacy, lat, lon, SearchPin(address));
      ReplaceSearchMarker(lm, address, lat, lon);
      page.ShowRadiusPanel(address, lat, lon);
      page.EnableCustomDropdown(PLACEHOLDER);
    }

    /** `geocodeAddress(address)` once the response is parsed: "Address not found" changes
        nothing, and so does a first result with a NaN coordinate (`flyTo` throws and the
        error alert is shown); otherwise only the first result is used. */
    method OnSearchResults(lm: LeafletMap, page: Page, address: string, data: seq<Geocoding.Candidate>)
      requires ShownOn(lm)
      modifies this`searchMarker, lm, page`radiusVisible, page`radiusAddress, page`radiusLat, page`radiusLon,
               page`dropdownDisabled, page`selectedText, page`selectedValue
      ensures ShownOn(lm)
      ensures addressMap == old(addressMap)
      ensures |data| == 0 || data[0].lat == NaN || data[0].lon == NaN ==> unchanged(this, lm, page)
      ensures |data| > 0 && data[0].lat != NaN && data[0].lon != NaN ==>
                && searchMarker == Some(old(lm.next)) && lm.next == old(lm.next) + 1
                && lm.layers == (old(lm.layers) - ToSet(old(searchMarker)))[old(lm.next) := Marker(data[0].lat, data[0].lon, SearchPin(address))]
                && page.radiusVisible && page.radiusAddress == Some(address) && page.radiusLat == data[0].lat && page.radiusLon == data[0].lon
                && !page.dropdownDisabled && page.selectedText == PLACEHOLDER && page.selectedValue == ""
    {
      if |data| == 0 || data[0].lat == NaN || data[0].lon == NaN {
        return;
      }
      PlaceSearchResult(lm, page, address, data[0].lat, data[0].lon);
    }

    /** `drawCircle(lat, lon, miles, label)`: a circle and then a badge reading `text` (the `label` argument) and
        `miles`, both at the point. */
    method DrawCircle(lm: LeafletMap, lat: Num, lon: Num, miles: int, text: string)
      returns (circle: Handle, labelMarker: Handle)
      modifies lm
      ensures circle == old(lm.next) && labelMarker == circle + 1 && lm.next == circle + 2
      ensures lm.layers == old(lm.layers)[circle := Circle(lat, lon, miles)][labelMarker := Marker(lat, lon, LabelBadge(text, miles))]
    {
      circle := lm.AddTo(Circle(lat, lon, miles));
      labelMarker := lm.AddTo(Marker(lat, lon, LabelBadge(text, miles)));
    }

    /** The registry part of choosing radius `value` at the panel's address and point: the
        entry's circle and badge (if any) are released, fresh ones are drawn and the entry is
        set, whether or not it was there. */
    method PutSelection(lm: LeafletMap, address: string, value: int, lat: Num, lon: Num)
      modifies this`addressMap, lm
      ensures addressMap == old(addressMap)[address := LegacyRecord(lat, lon, value, old(lm.next), old(lm.next) + 1)]
      ensures lm.layers == (old(lm.layers) - HandlesAt(AsRegistry(old(addressMap)), address))
                             [old(lm.next) := Circle(lat, lon, value)]
                             [old(lm.next) + 1 := Marker(lat, lon, LabelBadge(address, value))]
      ensures lm.next == old(lm.next) + 2
    {
      if address in addressMap {
        var existing := addressMap[address];
        lm.RemoveLayer(existing.circle);
        lm.RemoveLayer(existing.badge);
        RemoveBoth(old(lm.layers), {existing.circle}, {existing.badge});
      }
      var circle, labelMarker := DrawCircle(lm, lat, lon, value, address);
      addressMap := addressMap[address := LegacyRecord(lat, lon, value, circle, labelMarker)];
    }

    /** `PutSelection` keeps the registry and the map in agreement. */
    method Select(lm: LeafletMap, address: string, value: int, lat: Num, lon: Num)
      requires ShownOn(lm)
      modifies this`addressMap, lm
      ensures ShownOn(lm)
      ensures addressMap == old(addressMap)[address := LegacyRecord(lat, lon, value, old(lm.next), old(lm.next) + 1)]
      ensures lm.layers == (old(lm.layers) - HandlesAt(AsRegistry(old(addressMap)), address))
                             [old(lm.next) := Circle(lat, lon, value)]
                             [old(lm.next) + 1 := Marker(lat, lon, LabelBadge(address, value))]
      ensures lm.next == old(lm.next) + 2
      ensures searchMarker == old(searchMarker)
    {
      ghost var m, L, n := addressMap, lm.layers, lm.next;
      PutSelection(lm, address, value, lat, lon);
      SelectShown(m, searchMarker, L, n, address, lat, lon, value, addressMap, lm.layers, lm.next);
    }

    /** A radius option's click handler, for an option whose `data-value` parses to `value`
        and whose text is `text`. Without an address and two numbers in the radius panel only
        the selector is reset; otherwise the selector shows the option's own text, the list
        closes, the entry under the panel's address is set and the clear button is shown. */
    method OnRadiusOption(lm: LeafletMap, page: Page, value: int, text: string)
      requires ShownOn(lm)
      modifies this`addressMap, lm, page`selectedText, page`selectedValue, page`optionsOpen, page`clearVisible
      ensures ShownOn(lm)
      ensures !old(page.HasLocation()) ==>
                && addressMap == old(addressMap) && lm.layers == old(lm.layers) && lm.next == old(lm.next)
                && page.selectedText == PLACEHOLDER && page.selectedValue == ""
                && page.optionsOpen == old(page.optionsOpen) && page.clearVisible == old(page.clearVisible)
      ensures old(page.HasLocation()) ==>
                var a := page.radiusAddress.value;
                && page.selectedText == text && page.selectedValue == IntToString(value)
                && !page.optionsOpen && page.clearVisible
                && addressMap == old(addressMap)[a := LegacyRecord(page.radiusLat, page.radiusLon, value, old(lm.next), old(lm.next) + 1)]
                && lm.layers == (old(lm.layers) - HandlesAt(AsRegistry(old(addressMap)), a))
                                  [old(lm.next) := Circle(page.radiusLat, page.radiusLon, value)]
                                  [old(lm.next) + 1 := Marker(page.radiusLat, page.radiusLon, LabelBadge(a, value))]
                && lm.next == old(lm.next) + 2
    {
      if !page.HasLocation() {
        page.ResetSelector(PLACEHOLDER);
        return;
      }
      var address := page.radiusAddress.value;
      var lat, lon := page.radiusLat, page.radiusLon;
      page.selectedText := text;
      page.selectedValue := IntToString(value);
      page.optionsOpen := false;
      Select(lm, address, value, lat, lon);
      page.clearVisible := true;
    }

    /** The `addressMap.forEach` of the clear-all handler: every entry's circle and badge is
        released, and nothing else. */
    method ReleaseAll(lm: LeafletMap)
      modifies lm`layers
      ensures lm.layers == old(lm.layers) - Tracked(AsRegistry(addressMap))
    {
      var left := addressMap;
      ghost var released: set<Handle> := {};
      TrackedEmpty();
      while left != map[]
        invariant lm.layers == old(lm.layers) - released
        invariant released + Tracked(AsRegistry(left)) == Tracked(AsRegistry(addressMap))
        decreases |left|
      {
        var a :| a in left;
        var entry := left[a];
        ReleaseStep(left, a, released, Tracked(AsRegistry(addressMap)));
        RemoveBoth(old(lm.layers), released, {entry.circle, entry.badge});
        RemoveEntryLayers(lm, entry);
        released := released + {entry.circle, entry.badge};
        left := left - {a};
      }
    }

    /** `map.removeLayer(circle); map.removeLayer(label)` for one entry. */
    method RemoveEntryLayers(lm: LeafletMap, entry: LegacyRecord)
      modifies lm`layers
      ensures lm.layers == old(lm.layers) - {entry.circle, entry.badge}
    {
      lm.RemoveLayer(entry.circle);
      lm.RemoveLayer(entry.badge);
      RemoveBoth(old(lm.layers), {entry.circle}, {entry.badge});
    }

    /** The clear-all button: every circle and badge is released, the registry is emptied,
        the search pin is released and unset, and the page is reset. */
    method OnClearAll(lm: LeafletMap, page: Page)
      requires ShownOn(lm)
      modifies this, lm`layers, page`radiusVisible, page`dropdownDisabled, page`selectedText,
               page`selectedValue, page`clearVisible
      ensures ShownOn(lm)
      ensures addressMap == map[] && searchMarker == None
      ensures lm.layers == map[] && lm.next == old(lm.next)
      ensures page.Reset(PLACEHOLDER)
    {
      ClearConsistent(AsRegistry(addressMap), searchMarker, lm.layers, lm.next, Legacy);
      ReleaseAll(lm);
      assert AsRegistry(map[]) == map[];
      addressMap := map[];
      if searchMarker.Some? {
        lm.RemoveLayer(searchMarker.value);
        searchMarker := None;
      }
      page.ResetControls(PLACEHOLDER);
    }
  }

  /** A fresh script, map and page agree, and the page starts with the selector disabled. */
  method InitialState() returns (v: Visualizer, lm: LeafletMap, page: Page)
    ensures fresh(v) && fresh(lm) && fresh(page)
    ensures v.addressMap == map[] && v.searchMarker == None && lm.layers == map[]
    ensures v.ShownOn(lm)
    ensures page.Reset(PLACEHOLDER)
  {
    v := new Visualizer();
    lm := new LeafletMap();
    page := new Page(PLACEHOLDER);
    assert AsRegistry(map[]) == map[];
    EmptyConsistent(lm.next, Legacy);
  }
}
