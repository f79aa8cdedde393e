/** `js/markers.js`: showing the delete button at an entry's centre, deleting an entry,
    and drawing a circle for an entry (which relabels the entry's pin). The icon
    builders themselves are `Labels.CreateLabeledPinIcon` and `Leaflet.DeleteButton`. */
module Markers {
  import opened JsValues
  import opened Leaflet
  import opened Labels
  import opened Registry
  import opened Storage
  import opened Dom

  /** `showDeleteButton(address)`: for a known address, the previous delete button is
      released, the address becomes the selected radius and a fresh delete button is
      drawn at the entry's centre and put in the slot. An unknown address changes nothing. */
  method ShowDeleteButton(st: Store, lm: LeafletMap, address: string)
    requires st.ShownOn(lm)
    modifies st`selectedRadius, st`deleteMarker, lm
    ensures st.ShownOn(lm)
    ensures address !in st.addressMap ==>
              && st.selectedRadius == old(st.selectedRadius) && st.deleteMarker == old(st.deleteMarker)
              && lm.layers == old(lm.layers) && lm.next == old(lm.next)
    ensures address in st.addressMap ==>
              var r := st.addressMap[address];
              && st.selectedRadius == Some(address)
              && st.deleteMarker == Some(old(lm.next))
              && lm.next == old(lm.next) + 1
              && lm.layers == (old(lm.layers) - ToSet(old(st.deleteMarker)))[old(lm.next) := Marker(r.lat, r.lon, DeleteButton)]
  {
    if address !in st.addressMap {
      return;
    }
    var data := st.addressMap[address];
    ghost var layers, next, dm := lm.layers, lm.next, st.deleteMarker;
    var current := st.GetDeleteMarker();
    if current.Some? {
      lm.RemoveLayer(current.value);
    }
    st.SetSelectedRadius(address);
    var deleteMarker := lm.AddTo(Marker(data.lat, data.lon, DeleteButton));
    st.SetDeleteMarker(deleteMarker);
    assert lm.layers == (layers - ToSet(dm))[next := Marker(data.lat, data.lon, DeleteButton)];
    ShowSlotConsistent(st.addressMap, dm, layers, next, Modular, data.lat, data.lon, DeleteButton);
  }

  /** `deleteRadius(address)`: for a known address, its marker and circle and the delete
      button are released, the slots are cleared and the entry is removed; the clear
      button is hidden once the registry is empty and otherwise left as it was. An
      unknown address changes nothing. */
  method DeleteRadius(st: Store, lm: LeafletMap, page: Page, address: string)
    requires st.ShownOn(lm)
    modifies st, lm`layers, page`clearVisible
    ensures st.ShownOn(lm)
    ensures address !in old(st.addressMap) ==>
              && st.addressMap == old(st.addressMap) && st.selectedRadius == old(st.selectedRadius)
              && st.deleteMarker == old(st.deleteMarker) && lm.layers == old(lm.layers)
              && page.clearVisible == old(page.clearVisible)
    ensures address in old(st.addressMap) ==>
              && st.addressMap == old(st.addressMap) - {address}
              && lm.layers == old(lm.layers) - Handles(old(st.addressMap)[address]) - ToSet(old(st.deleteMarker))
              && st.deleteMarker == None && st.selectedRadius == None
              && (st.addressMap == map[] ==> !page.clearVisible)
              && (st.addressMap != map[] ==> page.clearVisible == old(page.clearVisible))
  {
    if address !in st.addressMap {
      return;
    }
    DeleteConsistent(st.addressMap, st.deleteMarker, lm.layers, lm.next, Modular, address);
    RemoveEntry(st, lm, page, address);
  }

  /** The steps of `deleteRadius` for an address that has an entry. */
  method RemoveEntry(st: Store, lm: LeafletMap, page: Page, address: string)
    requires address in st.addressMap
    modifies st, lm`layers, page`clearVisible
    ensures st.addressMap == old(st.addressMap) - {address}
    ensures lm.layers == old(lm.layers) - Handles(old(st.addressMap)[address]) - ToSet(old(st.deleteMarker))
    ensures st.deleteMarker == None && st.selectedRadius == None
    ensures st.addressMap == map[] ==> !page.clearVisible
    ensures st.addressMap != map[] ==> page.clearVisible == old(page.clearVisible)
  {
    var data := st.addressMap[address];
    RemoveRecordLayers(lm, data);
    RemoveDeleteButton(st, lm);
    st.addressMap := st.addressMap - {address};
    st.ClearSelectedRadius();
    if |st.addressMap| == 0 {
      page.clearVisible := false;
    }
  }

  /** `if (data.marker) map.removeLayer(data.marker); if (data.circle) map.removeLayer(data.circle)`. */
  method RemoveRecordLayers(lm: LeafletMap, data: Record)
    modifies lm`layers
    ensures lm.layers == old(lm.layers) - Handles(data)
  {
    lm.RemoveLayer(data.marker);
    if data.circle.Some? {
      lm.RemoveLayer(data.circle.value);
    }
    RemoveBoth(old(lm.layers), {data.marker}, ToSet(data.circle));
  }

  /** Releases the delete button, if one is showing, and clears its slot. */
  method RemoveDeleteButton(st: Store, lm: LeafletMap)
    modifies st`deleteMarker, lm`layers
    ensures lm.layers == old(lm.layers) - ToSet(old(st.deleteMarker))
    ensures st.deleteMarker == None
  {
    var deleteMarker := st.GetDeleteMarker();
    if deleteMarker.Some? {
      lm.RemoveLayer(deleteMarker.value);
      st.ClearDeleteMarker();
    }
  }

  /** The registry/icon part of `drawCircle(lat, lon, miles, address)`: a fresh circle of
      `miles` is drawn at the given point and, when the address has an entry, that entry's
      pin is relabelled for `miles` (keeping its full address). The registry is untouched. */
  method DrawCircle(st: Store, lm: LeafletMap, lat: Num, lon: Num, miles: int, address: string)
    returns (circle: Handle)
    modifies lm
    ensures circle == old(lm.next) && lm.next == circle + 1
    ensures address in st.addressMap ==>
              var r := st.addressMap[address];
              lm.layers == Relabel(old(lm.layers)[circle := Circle(lat, lon, miles)],
                                   r.marker, Pin(Modular, address, Some(miles), r.fullAddress))
    ensures address !in st.addressMap ==> lm.layers == old(lm.layers)[circle := Circle(lat, lon, miles)]
  {
    circle := lm.AddTo(Circle(lat, lon, miles));
    if address in st.addressMap {
      var existing := st.addressMap[address];
      var updatedIcon := CreateLabeledPinIcon(RADIUS_OPTIONS, address, Some(miles), existing.fullAddress);
      lm.SetIcon(existing.marker, updatedIcon);
    }
  }
}
