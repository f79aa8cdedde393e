/** `js/geocoding.js`: what the forward and reverse lookups do once their response has
    arrived (and, for the forward one, once the fly-to delay is over): the registry upsert,
    the radius panel and the selector, and the short label a reverse lookup keys its
    entry by. The requests themselves are not modelled; each handler takes the parsed
    response. */
module Geocoding {
  import opened JsValues
  import opened Leaflet
  import opened Labels
  import opened Registry
  import opened Storage
  import opened Dom
  import opened Markers

  /** One result of a forward lookup, with its coordinates as `parseFloat` reads them. */
  datatype Candidate = Candidate(lat: Num, lon: Num)

  /** The `address` object of a reverse lookup's response; a field that is missing is `None`. */
  datatype AddressParts = AddressParts(city: Option<string>, town: Option<string>, village: Option<string>,
                                       state: Option<string>, postcode: Option<string>)

  /** A reverse lookup's response: `display_name` and `address`, either of which may be missing. */
  datatype ReverseData = ReverseData(displayName: Option<string>, address: Option<AddressParts>)

  /** `data.address || {}`: a missing `address` object has no fields. */
  function PartsOf(address: Option<AddressParts>): (a: AddressParts)
    ensures address.Some? ==> a == address.value
    ensures address.None? ==> a.city.None? && a.town.None? && a.village.None? && a.state.None? && a.postcode.None?
  {
    if address.Some? then address.value else AddressParts(None, None, None, None, None)
  }

  /** `addr.city || addr.town || addr.village`. */
  function Locality(a: AddressParts): (r: Option<string>)
    ensures Truthy(r) <==> Truthy(a.city) || Truthy(a.town) || Truthy(a.village)
    ensures Truthy(a.city) ==> r == a.city
    ensures !Truthy(a.city) && Truthy(a.town) ==> r == a.town
    ensures !Truthy(a.city) && !Truthy(a.town) && Truthy(a.village) ==> r == a.village
  {
    Or(Or(a.city, a.town), a.village)
  }

  /** The truthy values among `opts`, in their order. */
  function Present(opts: seq<Option<string>>): (r: seq<string>)
    ensures |r| <= |opts|
    ensures forall i :: 0 <= i < |r| ==> r[i] != ""
    ensures |r| == 0 <==> forall i :: 0 <= i < |opts| ==> !Truthy(opts[i])
  {
    if opts == [] then []
    else (if Truthy(opts[0]) then [opts[0].value] else []) + Present(opts[1..])
  }

  /** The parts of the short label: the locality, the state and the postcode, each only when present. */
  function LabelParts(a: AddressParts): seq<string>
  {
    Present([Locality(a), a.state, a.postcode])
  }

  /** `parts.join(sep)`: nothing for no parts; otherwise the text starts with the first part
      and ends with the last. */
  function Join(parts: seq<string>, sep: string): (r: string)
    ensures |parts| == 0 ==> r == ""
    ensures |parts| > 0 ==> |parts[0]| <= |r| && r[..|parts[0]|] == parts[0]
    ensures |parts| > 0 ==> |parts[|parts| - 1]| <= |r| && r[|r| - |parts[|parts| - 1]|..] == parts[|parts| - 1]
  {
    if |parts| == 0 then ""
    else if |parts| == 1 then parts[0]
    else
      var rest := Join(parts[1..], sep);
      assert parts[1..][|parts[1..]| - 1] == parts[|parts| - 1];
      var r := parts[0] + sep + rest;
      assert r[|r| - |rest|..] == rest;
      r
  }

  /** The label a reverse lookup keys its entry by: the label parts joined by ", ", or the
      full display name when there are none. It starts with the locality when there is one,
      and it is non-empty whenever the display name is. */
  function ShortLabel(fullAddress: string, address: Option<AddressParts>): (s: string)
    ensures var a := PartsOf(address);
            !Truthy(Locality(a)) && !Truthy(a.state) && !Truthy(a.postcode) ==> s == fullAddress
    ensures var loc := Locality(PartsOf(address));
            Truthy(loc) ==> |loc.value| <= |s| && s[..|loc.value|] == loc.value
    ensures fullAddress != "" ==> s != ""
  {
    var a := PartsOf(address);
    LabelPartsOrder(a);
    var parts := LabelParts(a);
    if |parts| > 0 then Join(parts, ", ") else fullAddress
  }

  lemma {:induction false} PresentAppend(xs: seq<Option<string>>, ys: seq<Option<string>>)
    ensures Present(xs + ys) == Present(xs) + Present(ys)
    decreases |xs|
  {
    if xs == [] {
      assert xs + ys == ys;
    } else {
      assert (xs + ys)[1..] == xs[1..] + ys;
      PresentAppend(xs[1..], ys);
    }
  }

  function PresentOne(o: Option<string>): (r: seq<string>)
    ensures r == Present([o])
  {
    assert [o][1..] == [];
    if Truthy(o) then [o.value] else []
  }

  /** The label parts come in the order locality, state, postcode, each one there exactly
      when it is present. */
  lemma LabelPartsOrder(a: AddressParts)
    ensures LabelParts(a) == PresentOne(Locality(a)) + PresentOne(a.state) + PresentOne(a.postcode)
  {
    PresentAppend([Locality(a)], [a.state]);
    PresentAppend([Locality(a), a.state], [a.postcode]);
    assert [Locality(a), a.state] + [a.postcode] == [Locality(a), a.state, a.postcode];
  }

  /** There are no label parts exactly when the locality, the state and the postcode are all
      missing or empty, so the display name is the fallback in exactly that case. */
  lemma ShortLabelFallback(fullAddress: string, address: Option<AddressParts>)
    ensures var a := PartsOf(address);
            !Truthy(Locality(a)) && !Truthy(a.state) && !Truthy(a.postcode) <==> |LabelParts(a)| == 0
  {
    LabelPartsOrder(PartsOf(address));
  }

  /** Three parts are joined with the separator between each neighbouring pair. */
  lemma JoinThree(x: string, y: string, z: string, sep: string)
    ensures Join([x, y, z], sep) == x + sep + y + sep + z
  {
    JoinTwo(y, z, sep);
    assert [x, y, z][1..] == [y, z];
    assert x + sep + (y + sep + z) == x + sep + y + sep + z;
  }

  /** Two parts are joined with the separator between them. */
  lemma JoinTwo(y: string, z: string, sep: string)
    ensures Join([y, z], sep) == y + sep + z
  {
    assert [y, z][1..] == [z];
  }

  /** A typical response: city, state and postcode are kept, the county and country dropped. */
  lemma ShortLabelExample()
    ensures ShortLabel("Austin, Travis County, Texas, 78701, United States",
                       Some(AddressParts(Some("Austin"), None, None, Some("Texas"), Some("78701"))))
            == "Austin" + ", " + "Texas" + ", " + "78701"
  {
    var a := AddressParts(Some("Austin"), None, None, Some("Texas"), Some("78701"));
    LabelPartsOrder(a);
    assert LabelParts(a) == ["Austin", "Texas", "78701"];
    JoinThree("Austin", "Texas", "78701", ", ");
    ShortLabelFallback("Austin, Travis County, Texas, 78701, United States", Some(a));
  }

  /** An empty city gives way to the town, and a village is then ignored. */
  lemma ShortLabelTownExample()
    ensures ShortLabel("Hanover, Grafton County, New Hampshire, United States",
                       Some(AddressParts(Some(""), Some("Hanover"), Some("Etna"), None, None)))
            == "Hanover"
  {
    var a := AddressParts(Some(""), Some("Hanover"), Some("Etna"), None, None);
    LabelPartsOrder(a);
    assert LabelParts(a) == ["Hanover"];
    ShortLabelFallback("Hanover, Grafton County, New Hampshire, United States", Some(a));
  }

  /** The short-label derivation of `reverseGeocode`, pushing the parts one by one. */
  method ShortAddress(fullAddress: string, address: Option<AddressParts>) returns (shortAddress: string)
    ensures shortAddress == ShortLabel(fullAddress, address)
  {
    var addr := PartsOf(address);
    var parts: seq<string> := [];
    var locality := Or(Or(addr.city, addr.town), addr.village);
    if Truthy(locality) {
      parts := parts + [locality.value];
    }
    assert parts == PresentOne(Locality(addr));
    if Truthy(addr.state) {
      parts := parts + [addr.state.value];
    }
    assert parts == PresentOne(Locality(addr)) + PresentOne(addr.state);
    if Truthy(addr.postcode) {
      parts := parts + [addr.postcode.value];
    }
    LabelPartsOrder(addr);
    assert parts == LabelParts(addr);
    shortAddress := if |parts| > 0 then Join(parts, ", ") else fullAddress;
  }

  /** After an upsert under `k` none of the layers the old entry owned is still on the map,
      and the entry's new marker is a handle that was not live before. */
  lemma UpsertReleases(m: map<string, Record>, dm: Option<Handle>, layers: map<Handle, Layer>,
                       next: Handle, rev: Revision, k: string, lat: Num, lon: Num, full: Option<string>)
    requires Consistent(m, dm, layers, next, rev)
    ensures var layers' := (layers - HandlesAt(m, k))[next := Marker(lat, lon, Pin(rev, k, None, full))];
            && HandlesAt(m, k) !! layers'.Keys
            && next !in layers
            && layers'.Keys == (layers.Keys - HandlesAt(m, k)) + {next}
  {
    if k in m {
      InTracked(m, k);
    }
    assert next !in layers;
  }

  /** The upsert shared by both lookups: the layers of the entry under `key` (if any) are
      released, a fresh pin is drawn at the point and the entry is replaced whole by a record
      with no radius and no circle. */
  method PutEntry(st: Store, lm: LeafletMap, key: string, lat: Num, lon: Num, full: Option<string>)
    modifies st`addressMap, lm
    ensures st.addressMap == old(st.addressMap)[key := Record(lat, lon, None, None, old(lm.next), full)]
    ensures lm.layers == (old(lm.layers) - HandlesAt(old(st.addressMap), key))[old(lm.next) := Marker(lat, lon, Pin(Modular, key, None, full))]
    ensures lm.next == old(lm.next) + 1
  {
    if key in st.addressMap {
      RemoveRecordLayers(lm, st.addressMap[key]);
    }
    var marker := lm.AddTo(Marker(lat, lon, CreateLabeledPinIcon(RADIUS_OPTIONS, key, None, full)));
    st.addressMap := st.addressMap[key := Record(lat, lon, None, None, marker, full)];
  }

  /** The delayed part of `geocodeAddress(address)` for a response whose first result is at
      `lat`, `lon`: the upsert, then the radius panel remembers the address and the point and
      the selector is enabled. */
  method PlaceSearchResult(st: Store, lm: LeafletMap, page: Page, address: string, lat: Num, lon: Num)
    requires st.ShownOn(lm)
    modifies st`addressMap, lm, page`radiusVisible, page`radiusAddress, page`radiusLat, page`radiusLon,
             page`dropdownDisabled, page`selectedText, page`selectedValue
    ensures st.ShownOn(lm)
    ensures st.addressMap == old(st.addressMap)[address := Record(lat, lon, None, None, old(lm.next), None)]
    ensures lm.layers == (old(lm.layers) - HandlesAt(old(st.addressMap), address))[old(lm.next) := Marker(lat, lon, Pin(Modular, address, None, None))]
    ensures lm.next == old(lm.next) + 1
    ensures page.radiusVisible && page.radiusAddress == Some(address) && page.radiusLat == lat && page.radiusLon == lon
    ensures !page.dropdownDisabled && page.selectedText == CHOOSE_ONE && page.selectedValue == ""
  {
    UpsertConsistent(st.addressMap, st.deleteMarker, lm.layers, lm.next, Modular, address, lat, lon, None);
    PutEntry(st, lm, address, lat, lon, None);
    page.ShowRadiusPanel(address, lat, lon);
    page.EnableCustomDropdown(CHOOSE_ONE);
  }

  /** `geocodeAddress(address)` once the response is parsed: no result changes nothing, and
      neither does a first result with a NaN coordinate (`flyTo` throws before the delayed
      upsert is scheduled, and the error alert is shown); otherwise only the first result's
      coordinates are used. */
  method OnSearchResults(st: Store, lm: LeafletMap, page: Page, address: string, data: seq<Candidate>)
    requires st.ShownOn(lm)
    modifies st`addressMap, lm, page`radiusVisible, page`radiusAddress, page`radiusLat, page`radiusLon,
             page`dropdownDisabled, page`selectedText, page`selectedValue
    ensures st.ShownOn(lm)
    ensures |data| == 0 || data[0].lat == NaN || data[0].lon == NaN ==> unchanged(st, lm, page)
    ensures |data| > 0 && data[0].lat != NaN && data[0].lon != NaN ==>
              && st.addressMap == old(st.addressMap)[address := Record(data[0].lat, data[0].lon, None, None, old(lm.next), None)]
              && lm.layers == (old(lm.layers) - HandlesAt(old(st.addressMap), address))[old(lm.next) := Marker(data[0].lat, data[0].lon, Pin(Modular, address, None, None))]
              && lm.next == old(lm.next) + 1
              && page.radiusVisible && page.radiusAddress == Some(address) && page.radiusLat == data[0].lat && page.radiusLon == data[0].lon
              && !page.dropdownDisabled && page.selectedText == CHOOSE_ONE && page.selectedValue == ""
  {
    if |data| == 0 || data[0].lat == NaN || data[0].lon == NaN {
      return;
    }
    PlaceSearchResult(st, lm, page, address, data[0].lat, data[0].lon);
  }

  /** `reverseGeocode(lat, lon)` once the response is parsed: without a display name nothing
      changes; otherwise the entry is upserted under the short label with the display name as
      its full address, and the address input, the radius panel and the selector follow. */
  method OnReverseResult(st: Store, lm: LeafletMap, page: Page, lat: Num, lon: Num, data: ReverseData)
    requires st.ShownOn(lm)
    modifies st`addressMap, lm, page`addressInput, page`radiusVisible, page`radiusAddress, page`radiusLat,
             page`radiusLon, page`dropdownDisabled, page`selectedText, page`selectedValue
    ensures st.ShownOn(lm)
    ensures !Truthy(data.displayName) ==> unchanged(st, lm, page)
    ensures Truthy(data.displayName) ==>
              var full := data.displayName.value;
              var key := ShortLabel(full, data.address);
              && st.addressMap == old(st.addressMap)[key := Record(lat, lon, None, None, old(lm.next), Some(full))]
              && lm.layers == (old(lm.layers) - HandlesAt(old(st.addressMap), key))[old(lm.next) := Marker(lat, lon, Pin(Modular, key, None, Some(full)))]
              && lm.next == old(lm.next) + 1
              && page.addressInput == key
              && page.radiusVisible && page.radiusAddress == Some(key) && page.radiusLat == lat && page.radiusLon == lon
              && !page.dropdownDisabled && page.selectedText == CHOOSE_ONE && page.selectedValue == ""
  {
    if !Truthy(data.displayName) {
      return;
    }
    var fullAddress := data.displayName.value;
    var shortAddress := ShortAddress(fullAddress, data.address);
    PlaceReverseResult(st, lm, page, shortAddress, lat, lon, fullAddress);
  }

  /** The part of `reverseGeocode` after the short label is known. */
  method PlaceReverseResult(st: Store, lm: LeafletMap, page: Page, key: string, lat: Num, lon: Num, full: string)
    requires st.ShownOn(lm)
    modifies st`addressMap, lm, page`addressInput, page`radiusVisible, page`radiusAddress, page`radiusLat,
             page`radiusLon, page`dropdownDisabled, page`selectedText, page`selectedValue
    ensures st.ShownOn(lm)
    ensures st.addressMap == old(st.addressMap)[key := Record(lat, lon, None, None, old(lm.next), Some(full))]
    ensures lm.layers == (old(lm.layers) - HandlesAt(old(st.addressMap), key))[old(lm.next) := Marker(lat, lon, Pin(Modular, key, None, Some(full)))]
    ensures lm.next == old(lm.next) + 1
    ensures page.addressInput == key
    ensures page.radiusVisible && page.radiusAddress == Some(key) && page.radiusLat == lat && page.radiusLon == lon
    ensures !page.dropdownDisabled && page.selectedText == CHOOSE_ONE && page.selectedValue == ""
  {
    UpsertConsistent(st.addressMap, st.deleteMarker, lm.layers, lm.next, Modular, key, lat, lon, Some(full));
    PutEntry(st, lm, key, lat, lon, Some(full));
    page.addressInput := key;
    page.ShowRadiusPanel(key, lat, lon);
    page.EnableCustomDropdown(CHOOSE_ONE);
  }
}
