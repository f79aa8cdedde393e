/** `js/ui.js`: the radius-option handler of the selector, the clear-all button, the
    pin-placement toggle and the map-click dispatch with its label-click handler. The
    selector's open/close toggle, the banners and the mobile sheet are not modelled. */
module Ui {
  import opened JsValues
  import opened Leaflet
  import opened Labels
  import opened Registry
  import opened Storage
  import opened Dom
  import opened Markers

  /** The module-level `pinPlacementMode` flag. */
  class Controls {
    var pinPlacementMode: bool

    constructor ()
      ensures !pinPlacementMode
    {
      pinPlacementMode := false;
    }

    /** The toggle's change handler: the flag follows the checkbox. */
    method OnTogglePinMode(checked: bool)
      modifies this`pinPlacementMode
      ensures pinPlacementMode == checked
    {
      pinPlacementMode := checked;
    }
  }

  // ---- choosing a radius ----

  /** The registry part of choosing radius `value` for an existing entry: the old circle is
      released, `drawCircle` adds a fresh one at the point and relabels the pin, and the
      record keeps everything but its radius and circle. */
  method ReplaceRadius(st: Store, lm: LeafletMap, address: string, value: int, lat: Num, lon: Num)
    requires address in st.addressMap
    modifies st`addressMap, lm
    ensures var r := old(st.addressMap)[address];
            && st.addressMap == old(st.addressMap)[address := r.(radius := Some(value), circle := Some(old(lm.next)))]
            && lm.layers == Relabel((old(lm.layers) - ToSet(r.circle))[old(lm.next) := Circle(lat, lon, value)],
                                    r.marker, Pin(Modular, address, Some(value), r.fullAddress))
            && lm.next == old(lm.next) + 1
  {
    var old' := st.addressMap[address];
    if old'.circle.Some? {
      lm.RemoveLayer(old'.circle.value);
    }
    assert lm.layers == old(lm.layers) - ToSet(old'.circle);
    var circle := DrawCircle(st, lm, lat, lon, value, address);
    st.addressMap := st.addressMap[address := old'.(radius := Some(value), circle := Some(circle))];
  }

  /** `ReplaceRadius` keeps the registry and the map in agreement. */
  method SetRadius(st: Store, lm: LeafletMap, address: string, value: int, lat: Num, lon: Num)
    requires st.ShownOn(lm) && address in st.addressMap
    modifies st`addressMap, lm
    ensures st.ShownOn(lm)
    ensures var r := old(st.addressMap)[address];
            && st.addressMap == old(st.addressMap)[address := r.(radius := Some(value), circle := Some(old(lm.next)))]
            && lm.layers == Relabel((old(lm.layers) - ToSet(r.circle))[old(lm.next) := Circle(lat, lon, value)],
                                    r.marker, Pin(Modular, address, Some(value), r.fullAddress))
            && lm.next == old(lm.next) + 1
  {
    SetRadiusConsistent(st.addressMap, st.deleteMarker, lm.layers, lm.next, Modular, address, value, lat, lon);
    ReplaceRadius(st, lm, address, value, lat, lon);
  }

  /** The click handler of a radius option whose `data-value` parses to `value`. Without an
      address and two numbers in the radius panel only the selector is reset. Otherwise the
      selector shows the option, the list closes, an entry under the panel's address gets the
      radius, and the clear button is shown whether or not there was such an entry. */
  method OnRadiusOption(st: Store, lm: LeafletMap, page: Page, value: int)
    requires st.ShownOn(lm)
    modifies st`addressMap, lm, page`selectedText, page`selectedValue, page`optionsOpen, page`clearVisible
    ensures st.ShownOn(lm)
    ensures !old(page.HasLocation()) ==>
              && st.addressMap == old(st.addressMap) && lm.layers == old(lm.layers) && lm.next == old(lm.next)
              && page.selectedText == CHOOSE_ONE && page.selectedValue == ""
              && page.optionsOpen == old(page.optionsOpen) && page.clearVisible == old(page.clearVisible)
    ensures old(page.HasLocation()) ==>
              && page.selectedText == SelectorText(RADIUS_OPTIONS, value)
              && page.selectedValue == IntToString(value)
              && !page.optionsOpen && page.clearVisible
    ensures old(page.HasLocation()) && page.radiusAddress.value !in old(st.addressMap) ==>
              st.addressMap == old(st.addressMap) && lm.layers == old(lm.layers) && lm.next == old(lm.next)
    ensures old(page.HasLocation()) && page.radiusAddress.value in old(st.addressMap) ==>
              var a := page.radiusAddress.value;
              var r := old(st.addressMap)[a];
              && st.addressMap == old(st.addressMap)[a := r.(radius := Some(value), circle := Some(old(lm.next)))]
              && lm.layers == Relabel((old(lm.layers) - ToSet(r.circle))[old(lm.next) := Circle(page.radiusLat, page.radiusLon, value)],
                                      r.marker, Pin(Modular, a, Some(value), r.fullAddress))
              && lm.next == old(lm.next) + 1
  {
    if !page.HasLocation() {
      page.ResetSelector(CHOOSE_ONE);
      return;
    }
    var address := page.radiusAddress.value;
    var lat, lon := page.radiusLat, page.radiusLon;
    page.selectedText := SelectorText(RADIUS_OPTIONS, value);
    page.selectedValue := IntToString(value);
    page.optionsOpen := false;
    if address in st.addressMap {
      SetRadius(st, lm, address, value, lat, lon);
    }
    page.clearVisible := true;
  }

  // ---- clear all ----

  /** The `addressMap.forEach` of the clear-all handler (the standalone script's is the same):
      every entry's marker and circle is released, and nothing else. */
  method ReleaseAll(lm: LeafletMap, m: map<string, Record>)
    modifies lm`layers
    ensures lm.layers == old(lm.layers) - Tracked(m)
  {
    var left := m;
    ghost var released: set<Handle> := {};
    TrackedEmpty();
    while left != map[]
      invariant lm.layers == old(lm.layers) - released
      invariant released + Tracked(left) == Tracked(m)
      decreases |left|
    {
      var a :| a in left;
      TrackedSplit(left, a);
      RemoveBoth(old(lm.layers), released, Handles(left[a]));
      RemoveRecordLayers(lm, left[a]);
      released := released + Handles(left[a]);
      left := left - {a};
    }
  }

  /** The clear-all button: every entry's layers and the delete button are released, the
      registry is emptied, both slots are cleared and the selector, the panel and the clear
      button go back to their initial state. */
  method OnClearAll(st: Store, lm: LeafletMap, page: Page)
    requires st.ShownOn(lm)
    modifies st, lm`layers, page`radiusVisible, page`dropdownDisabled, page`selectedText, page`selectedValue,
             page`clearVisible
    ensures st.ShownOn(lm)
    ensures st.addressMap == map[] && st.deleteMarker == None && st.selectedRadius == None
    ensures lm.layers == map[] && lm.next == old(lm.next)
    ensures page.Reset(CHOOSE_ONE)
  {
    ClearConsistent(st.addressMap, st.deleteMarker, lm.layers, lm.next, Modular);
    ReleaseAll(lm, st.addressMap);
    st.addressMap := map[];
    RemoveDeleteButton(st, lm);
    st.ClearSelectedRadius();
    page.ResetControls(CHOOSE_ONE);
  }

  // ---- map clicks ----

  /** What a click on the map hit: the `data-address` of the pin label it is inside, if any,
      whether it is inside the delete button, and where on the map it landed. */
  datatype Click = Click(labelAddress: Option<string>, onDeleteButton: bool, lat: Num, lng: Num)

  /** Where the map-click handler sends a click. */
  datatype Outcome =
    | Ignored               // a click on the delete button
    | LabelClicked          // handed to `handleLabelClick`
    | Lookup(lat: Num, lon: Num)  // a reverse lookup of the clicked point is requested
    | Reminder              // the reminder banner is shown

  /** The page as `handleLabelClick` leaves it for the entry `address |-> r`, with the presets
      `options`: the address
      is in the input, the panel carries the address and the entry's point, the selector is
      enabled and shows the entry's radius, or the neutral text when it has none. */
  ghost predicate ShowsEntry(page: Page, options: map<int, string>, address: string, r: Record)
    reads page
  {
    && page.addressInput == address
    && page.radiusVisible && page.radiusAddress == Some(address)
    && page.radiusLat == r.lat && page.radiusLon == r.lon
    && !page.dropdownDisabled
    && (TruthyInt(r.radius) ==>
          page.selectedText == SelectorText(options, r.radius.value)
          && page.selectedValue == IntToString(r.radius.value))
    && (!TruthyInt(r.radius) ==> page.selectedText == CHOOSE_ONE && page.selectedValue == "")
  }

  /** `handleLabelClick(label)` for the label of `address`: an unknown address changes nothing. */
  method HandleLabelClick(st: Store, page: Page, address: string)
    modifies page`addressInput, page`radiusVisible, page`radiusAddress, page`radiusLat, page`radiusLon,
             page`dropdownDisabled, page`selectedText, page`selectedValue
    ensures address !in st.addressMap ==> unchanged(page)
    ensures address in st.addressMap ==> ShowsEntry(page, RADIUS_OPTIONS, address, st.addressMap[address])
  {
    if address !in st.addressMap {
      return;
    }
    var data := st.addressMap[address];
    page.addressInput := address;
    page.ShowRadiusPanel(address, data.lat, data.lon);
    page.EnableCustomDropdown(CHOOSE_ONE);
    if TruthyInt(data.radius) {
      page.selectedText := SelectorText(RADIUS_OPTIONS, data.radius.value);
      page.selectedValue := IntToString(data.radius.value);
    } else {
      page.ResetSelector(CHOOSE_ONE);
    }
  }

  /** The first half of the map-click handler outside the delete button: a showing delete
      button is released and both slots are cleared. */
  method HideDeleteButton(st: Store, lm: LeafletMap)
    requires st.ShownOn(lm)
    modifies st`deleteMarker, st`selectedRadius, lm`layers
    ensures st.ShownOn(lm)
    ensures old(st.deleteMarker).None? ==> unchanged(st, lm)
    ensures old(st.deleteMarker).Some? ==>
              && lm.layers == old(lm.layers) - {old(st.deleteMarker).value}
              && st.deleteMarker == None && st.selectedRadius == None
  {
    var deleteMarker := st.GetDeleteMarker();
    if deleteMarker.Some? {
      HideSlotConsistent(st.addressMap, st.deleteMarker, lm.layers, lm.next, Modular);
      lm.RemoveLayer(deleteMarker.value);
      st.ClearDeleteMarker();
      st.ClearSelectedRadius();
    }
  }

  /** The map-click handler. A click on the delete button is left to the button. Any other
      click first hides the delete button; then a click on a label goes to `handleLabelClick`,
      a click on the bare map asks for a reverse lookup in pin mode and shows the reminder
      otherwise. */
  method OnMapClick(st: Store, lm: LeafletMap, page: Page, ctl: Controls, click: Click) returns (outcome: Outcome)
    requires st.ShownOn(lm)
    modifies st`deleteMarker, st`selectedRadius, lm`layers, page`addressInput, page`radiusVisible,
             page`radiusAddress, page`radiusLat, page`radiusLon, page`dropdownDisabled, page`selectedText,
             page`selectedValue
    ensures st.ShownOn(lm)
    ensures click.onDeleteButton ==> outcome == Ignored && unchanged(st, lm, page)
    ensures !click.onDeleteButton ==>
              && st.deleteMarker == None
              && (old(st.deleteMarker).Some? ==>
                    lm.layers == old(lm.layers) - {old(st.deleteMarker).value} && st.selectedRadius == None)
              && (old(st.deleteMarker).None? ==>
                    lm.layers == old(lm.layers) && st.selectedRadius == old(st.selectedRadius))
    ensures !click.onDeleteButton && click.labelAddress.Some? ==>
              && outcome == LabelClicked
              && (click.labelAddress.value in st.addressMap ==> ShowsEntry(page, RADIUS_OPTIONS, click.labelAddress.value, st.addressMap[click.labelAddress.value]))
              && (click.labelAddress.value !in st.addressMap ==> unchanged(page))
    ensures !click.onDeleteButton && click.labelAddress.None? ==>
              && unchanged(page)
              && (ctl.pinPlacementMode ==> outcome == Lookup(click.lat, click.lng))
              && (!ctl.pinPlacementMode ==> outcome == Reminder)
  {
    if click.onDeleteButton {
      return Ignored;
    }
    HideDeleteButton(st, lm);
    if click.labelAddress.Some? {
      HandleLabelClick(st, page, click.labelAddress.value);
      outcome := LabelClicked;
    } else if ctl.pinPlacementMode {
      outcome := Lookup(click.lat, click.lng);
    } else {
      outcome := Reminder;
    }
  }
}
