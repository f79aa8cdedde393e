/** The state of `js/storage.js`: the registry itself and the two slots beside it,
    the address whose radius is selected for deletion and the live delete button. */
module Storage {
  import opened JsValues
  import opened Leaflet
  import opened Registry

  class Store {
    /** `addressMap`: address label |-> record. */
    var addressMap: map<string, Record>
    /** `selectedRadius`: the address whose delete button is showing, or null. */
    var selectedRadius: Option<string>
    /** `deleteMarker`: the delete button's layer, or null. */
    var deleteMarker: Option<Handle>

    /** The module's initial state: an empty registry and both slots null. */
    constructor ()
      ensures addressMap == map[] && selectedRadius == None && deleteMarker == None
    {
      addressMap := map[];
      selectedRadius := None;
      deleteMarker := None;
    }

    /** The registry and the delete-button slot agree with what `lm` draws, as the
        modular scripts draw it. */
    ghost predicate ShownOn(lm: LeafletMap)
      reads this, lm
    {
      Consistent(addressMap, deleteMarker, lm.layers, lm.next, Modular)
    }

    method SetSelectedRadius(address: string)
      modifies this`selectedRadius
      ensures selectedRadius == Some(address)
    {
      selectedRadius := Some(address);
    }

    method ClearSelectedRadius()
      modifies this`selectedRadius
      ensures selectedRadius == None
    {
      selectedRadius := None;
    }

    method SetDeleteMarker(marker: Handle)
      modifies this`deleteMarker
      ensures deleteMarker == Some(marker)
    {
      deleteMarker := Some(marker);
    }

    method ClearDeleteMarker()
      modifies this`deleteMarker
      ensures deleteMarker == None
    {
      deleteMarker := None;
    }

    method GetDeleteMarker() returns (marker: Option<Handle>)
      ensures marker == deleteMarker
    {
      marker := deleteMarker;
    }

    /** Empties the registry and resets both slots. It does not touch the map: the
        callers release the layers first. */
    method ClearAllData()
      modifies this
      ensures addressMap == map[] && selectedRadius == None && deleteMarker == None
    {
      addressMap := map[];
      selectedRadius := None;
      deleteMarker := None;
    }
  }

  /** Storing a delete button and reading the slot back gives that button; the registry
      and the selected-radius slot are left alone. */
  method SetThenGetDeleteMarker(st: Store, marker: Handle) returns (got: Option<Handle>)
    modifies st`deleteMarker
    ensures got == Some(marker)
    ensures st.addressMap == old(st.addressMap) && st.selectedRadius == old(st.selectedRadius)
  {
    st.SetDeleteMarker(marker);
    got := st.GetDeleteMarker();
  }

  /** Clearing the slot and reading it back gives null. */
  method ClearThenGetDeleteMarker(st: Store) returns (got: Option<Handle>)
    modifies st`deleteMarker
    ensures got == None
    ensures st.addressMap == old(st.addressMap) && st.selectedRadius == old(st.selectedRadius)
  {
    st.ClearDeleteMarker();
    got := st.GetDeleteMarker();
  }

  /** A fresh store and a fresh map agree. */
  method InitialState() returns (st: Store, lm: LeafletMap)
    ensures fresh(st) && fresh(lm)
    ensures st.addressMap == map[] && st.selectedRadius == None && st.deleteMarker == None
    ensures lm.layers == map[]
    ensures st.ShownOn(lm)
  {
    st := new Store();
    lm := new LeafletMap();
    EmptyConsistent(lm.next, Modular);
  }
}
