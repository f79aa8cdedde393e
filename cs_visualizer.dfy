/** `csRadiusVisualizer.js`, the standalone revision of the same controller: one script
    keeps its own `addressMap` and draws its own pins (labelled with the address, no
    separate title, and its own copy of the radius presets). It has no delete button and
    no pin-placement mode; its map-click handler only knows label clicks. */
module CsVisualizer {
  import opened JsValues
  import opened Leaflet
  import opened Labels
  import opened Registry
  import opened Dom
  import opened Markers
  import opened Ui
  import Geocoding

  class Visualizer {
    /** `addressMap`: address |-> `{ lat, lon, radius, circle, marker }`. */
    var addressMap: map<string, Record>

    constructor ()
      ensures addressMap == map[]
    {
      addressMap := map[];
    }

    /** The registry agrees with what `lm` draws, as this script draws it. */
    ghost predicate ShownOn(lm: LeafletMap)
      reads this, lm
    {
      Consistent(addressMap, None, lm.layers, lm.next, Standalone)
    }

    /** The upsert of the search handler: the layers of the entry under `address` (if any)
        are released, a fresh pin is drawn and the entry is replaced by one with no radius. */
    method PutEntry(lm: LeafletMap, address: string, lat: Num, lon: Num)
      modifies this`addressMap, lm
      ensures addressMap == old(addressMap)[address := Record(lat, lon, None, None, old(lm.next), None)]
      ensures lm.layers == (old(lm.layers) - HandlesAt(old(addressMap), address))[old(lm.next) := Marker(lat, lon, Pin(Standalone, address, None, None))]
      ensures lm.next == old(lm.next) + 1
    {
      if address in addressMap {
        RemoveRecordLayers(lm, addressMap[address]);
      }
      var marker := lm.AddTo(Marker(lat, lon, CreateStandalonePinIcon(address, None)));
      addressMap := addressMap[address := Record(lat, lon, None, None, marker, None)];
    }

    /** The delayed part of `geocodeAddress(address)` for a first result at `lat`, `lon`. */
    method PlaceSearchResult(lm: LeafletMap, page: Page, address: string, lat: Num, lon: Num)
      requires ShownOn(lm)
      modifies this`addressMap, lm, page`radiusVisible, page`radiusAddress, page`radiusLat, page`radiusLon,
               page`dropdownDisabled, page`selectedText, page`selectedValue
      ensures ShownOn(lm)
      ensures addressMap == old(addressMap)[address := Record(lat, lon, None, None, old(lm.next), None)]
      ensures lm.layers == (old(lm.layers) - HandlesAt(old(addressMap), address))[old(lm.next) := Marker(lat, lon, Pin(Standalone, address, None, None))]
      ensures lm.next == old(lm.next) + 1
      ensures page.radiusVisible && page.radiusAddress == Some(address) && page.radiusLat == lat && page.radiusLon == lon
      ensures !page.dropdownDisabled && page.selectedText == CHOOSE_ONE && page.selectedValue == ""
    {
      UpsertConsistent(addressMap, None, lm.layers, lm.next, Standalone, address, lat, lon, None);
      PutEntry(lm, address, lat, lon);
      page.ShowRadiusPanel(address, lat, lon);
      page.EnableCustomDropdown(CHOOSE_ONE);
    }

    /** `geocodeAddress(address)` once the response is parsed: "Address not found" changes
        nothing, and so does a first result with a NaN coordinate (`flyTo` throws and the
        error alert is shown); otherwise only the first result is used. */
    method OnSearchResults(lm: LeafletMap, page: Page, address: string, data: seq<Geocoding.Candidate>)
      requires ShownOn(lm)
      modifies this`addressMap, lm, page`radiusVisible, page`radiusAddress, page`radiusLat, page`radiusLon,
               page`dropdownDisabled, page`selectedText, page`selectedValue
      ensures ShownOn(lm)
      ensures |data| == 0 || data[0].lat == NaN || data[0].lon == NaN ==> unchanged(this, lm, page)
      ensures |data| > 0 && data[0].lat != NaN && data[0].lon != NaN ==>
                && addressMap == old(addressMap)[address := Record(data[0].lat, data[0].lon, None, None, old(lm.next), None)]
                && lm.layers == (old(lm.layers) - HandlesAt(old(addressMap), address))[old(lm.next) := Marker(data[0].lat, data[0].lon, Pin(Standalone, address, None, None))]
                && lm.next == old(lm.next) + 1
                && page.radiusVisible && page.radiusAddress == Some(address) && page.radiusLat == data[0].lat && page.radiusLon == data[0].lon
                && !page.dropdownDisabled && page.selectedText == CHOOSE_ONE && page.selectedValue == ""
    {
      if |data| == 0 || data[0].lat == NaN || data[0].lon == NaN {
        return;
      }
      PlaceSearchResult(lm, page, address, data[0].lat, data[0].lon);
    }

    /** The registry/icon part of `drawCircle`: a fresh circle, and the entry's pin (if any)
        relabelled for `miles`. */
    method DrawCircle(lm: LeafletMap, lat: Num, lon: Num, miles: int, address: string) returns (circle: Handle)
      modifies lm
      ensures circle == old(lm.next) && lm.next == circle + 1
      ensures address in addressMap ==>
                var r := addressMap[address];
                lm.layers == Relabel(old(lm.layers)[circle := Circle(lat, lon, miles)],
                                     r.marker, Pin(Standalone, address, Some(miles), r.fullAddress))
      ensures address !in addressMap ==> lm.layers == old(lm.layers)[circle := Circle(lat, lon, miles)]
    {
      circle := lm.AddTo(Circle(lat, lon, miles));
      if address in addressMap {
        var existing := addressMap[address];
        lm.SetIcon(existing.marker, CreateStandalonePinIcon(address, Some(miles)));
      }
    }

    /** The registry part of choosing radius `value` for an existing entry. */
    method ReplaceRadius(lm: LeafletMap, address: string, value: int, lat: Num, lon: Num)
      requires address in addressMap
      modifies this`addressMap, lm
      ensures var r := old(addressMap)[address];
              && addressMap == old(addressMap)[address := r.(radius := Some(value), circle := Some(old(lm.next)))]
              && lm.layers == Relabel((old(lm.layers) - ToSet(r.circle))[old(lm.next) := Circle(lat, lon, value)],
                                      r.marker, Pin(Standalone, address, Some(value), r.fullAddress))
              && lm.next == old(lm.next) + 1
    {
      var old' := addressMap[address];
      if old'.circle.Some? {
        lm.RemoveLayer(old'.circle.value);
      }
      assert lm.layers == old(lm.layers) - ToSet(old'.circle);
      var circle := DrawCircle(lm, lat, lon, value, address);
      addressMap := addressMap[address := old'.(radius := Some(value), circle := Some(circle))];
    }

    /** `ReplaceRadius` keeps the registry and the map in agreement. */
    method SetRadius(lm: LeafletMap, address: string, value: int, lat: Num, lon: Num)
      requires ShownOn(lm) && address in addressMap
      modifies this`addressMap, lm
      ensures ShownOn(lm)
      ensures var r := old(addressMap)[address];
              && addressMap == old(addressMap)[address := r.(radius := Some(value), circle := Some(old(lm.next)))]
              && lm.layers == Relabel((old(lm.layers) - ToSet(r.circle))[old(lm.next) := Circle(lat, lon, value)],
                                      r.marker, Pin(Standalone, address, Some(value), r.fullAddress))
              && lm.next == old(lm.next) + 1
    {
      SetRadiusConsistent(addressMap, None, lm.layers, lm.next, Standalone, address, value, lat, lon);
      ReplaceRadius(lm, address, value, lat, lon);
    }

    /** A radius option's click handler: as in the modular scripts, with this script's presets. */
    method OnRadiusOption(lm: LeafletMap, page: Page, value: int)
      requires ShownOn(lm)
      modifies this`addressMap, lm, page`selectedText, page`selectedValue, page`optionsOpen, page`clearVisible
      ensures ShownOn(lm)
      ensures !old(page.HasLocation()) ==>
                && addressMap == old(addressMap) && lm.layers == old(lm.layers) && lm.next == old(lm.next)
                && page.selectedText == CHOOSE_ONE && page.selectedValue == ""
                && page.optionsOpen == old(page.optionsOpen) && page.clearVisible == old(page.clearVisible)
      ensures old(page.HasLocation()) ==>
                && page.selectedText == SelectorText(STANDALONE_RADIUS_LABELS, value)
                && page.selectedValue == IntToString(value)
                && !page.optionsOpen && page.clearVisible
      ensures old(page.HasLocation()) && page.radiusAddress.value !in old(addressMap) ==>
                addressMap == old(addressMap) && lm.layers == old(lm.layers) && lm.next == old(lm.next)
      ensures old(page.HasLocation()) && page.radiusAddress.value in old(addressMap) ==>
                var a := page.radiusAddress.value;
                var r := old(addressMap)[a];
                && addressMap == old(addressMap)[a := r.(radius := Some(value), circle := Some(old(lm.next)))]
                && lm.layers == Relabel((old(lm.layers) - ToSet(r.circle))[old(lm.next) := Circle(page.radiusLat, page.radiusLon, value)],
                                        r.marker, Pin(Standalone, a, Some(value), r.fullAddress))
                && lm.next == old(lm.next) + 1
    {
      if !page.HasLocation() {
        page.ResetSelector(CHOOSE_ONE);
        return;
      }
      var address := page.radiusAddress.value;
      var lat, lon := page.radiusLat, page.radiusLon;
      page.selectedText := SelectorText(STANDALONE_RADIUS_LABELS, value);
      page.selectedValue := IntToString(value);
      page.optionsOpen := false;
      if address in addressMap {
        SetRadius(lm, address, value, lat, lon);
      }
      page.clearVisible := true;
    }

    /** The clear-all button: every entry's layers are released, the registry is emptied and
        the selector, the panel and the clear button are reset. */
    method OnClearAll(lm: LeafletMap, page: Page)
      requires ShownOn(lm)
      modifies this`addressMap, lm`layers, page`radiusVisible, page`dropdownDisabled, page`selectedText,
               page`selectedValue, page`clearVisible
      ensures ShownOn(lm)
      ensures addressMap == map[] && lm.layers == map[] && lm.next == old(lm.next)
      ensures page.Reset(CHOOSE_ONE)
    {
      ClearConsistent(addressMap, None, lm.layers, lm.next, Standalone);
      ReleaseAll(lm, addressMap);
      addressMap := map[];
      page.ResetControls(CHOOSE_ONE);
    }

    /** The map-click handler: a click outside any label, or on the label of an unknown
        address, changes nothing; a click on a known entry's label shows that entry. */
    method OnMapClick(page: Page, labelAddress: Option<string>)
      modifies page`addressInput, page`radiusVisible, page`radiusAddress, page`radiusLat, page`radiusLon,
               page`dropdownDisabled, page`selectedText, page`selectedValue
      ensures labelAddress.None? || labelAddress.value !in addressMap ==> unchanged(page)
      ensures labelAddress.Some? && labelAddress.value in addressMap ==>
                ShowsEntry(page, STANDALONE_RADIUS_LABELS, labelAddress.value, addressMap[labelAddress.value])
    {
      if labelAddress.None? {
        return;
      }
      var address := labelAddress.value;
      if address !in addressMap {
        return;
      }
      var data := addressMap[address];
      page.addressInput := address;
      page.ShowRadiusPanel(address, data.lat, data.lon);
      page.EnableCustomDropdown(CHOOSE_ONE);
      if TruthyInt(data.radius) {
        page.selectedText := SelectorText(STANDALONE_RADIUS_LABELS, data.radius.value);
        page.selectedValue := IntToString(data.radius.value);
      } else {
        page.ResetSelector(CHOOSE_ONE);
      }
    }
  }

  /** A fresh script, map and page agree, and the page starts with the selector disabled. */
  method InitialState() returns (v: Visualizer, lm: LeafletMap, page: Page)
    ensures fresh(v) && fresh(lm) && fresh(page)
    ensures v.addressMap == map[] && lm.layers == map[]
    ensures v.ShownOn(lm)
    ensures page.Reset(CHOOSE_ONE)
  {
    v := new Visualizer();
    lm := new LeafletMap();
    page := new Page(CHOOSE_ONE);
    EmptyConsistent(lm.next, Standalone);
  }
}
