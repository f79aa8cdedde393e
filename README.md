# Social radius visualizer: the address registry

This project models the address registry of the social radius visualizer and the handlers that keep it consistent with the Leaflet map. The registry (`addressMap`) maps an address label to a record `{ lat, lon, radius, circle, marker, fullAddress }`.

Three revisions of the controller are modelled, each as its own class or set of module methods:

- **The modular scripts** (`js/storage.js`, `js/geocoding.js`, `js/markers.js`, `js/ui.js`). They keep the registry, a selected-radius slot and a delete-button slot. A search or a reverse lookup upserts an entry. Choosing a radius replaces the entry's circle. An entry can be deleted through its delete button, and clear-all empties everything. A map click is dispatched to the delete button, a label, a reverse lookup or a reminder.
- **The standalone script** (`csRadiusVisualizer.js`). It works the same way with its own presets. It has no delete button and no pin placement.
- **The oldest script** (`RadiusVisualizer.js`). A search only moves a single search pin. Choosing a radius inserts or replaces an entry made of a circle and a label badge.

The Leaflet map is modelled as a class `LeafletMap` with two fields:

- `layers`, a map from opaque handles to the live layers;
- `next`, a counter that hands out fresh handles.

`addTo` draws a layer under a fresh handle, `removeLayer` takes a handle off the map and `setIcon` relabels a live marker.

The central invariant is `Registry.Consistent`. It says:

- every layer the controller tracks belongs to exactly one registry entry, or is the single layer held by the slot beside the registry (the map's tile layer and the dealer markers are outside the model's `layers`);
- no two entries share a layer;
- each entry's marker is live at the entry's point and shows the icon its record determines;
- each entry has a live circle of its radius exactly when a radius is set;
- every live handle is older than the counter.

Each revision's class has a predicate `ShownOn(lm)` that instantiates this invariant. Every handler that changes the registry or the map keeps it, and also states the exact new registry and layers in terms of the old ones.

Network responses and timer callbacks are modelled as methods that take the already-parsed data and run as one step.

Modules, one per file:

| module | file |
|---|---|
| `JsValues` | `js_values.dfy` |
| `Leaflet` | `leaflet.dfy` |
| `Labels` | `labels.dfy` |
| `Registry` | `registry.dfy` |
| `Storage` | `storage.dfy` |
| `Dom` | `dom.dfy` |
| `Markers` | `markers.dfy` |
| `Geocoding` | `geocoding.dfy` |
| `Ui` | `ui.dfy` |
| `CsVisualizer` | `cs_visualizer.dfy` |
| `RadiusVisualizer` | `radius_visualizer.dfy` |

## Model

| member | source | states |
|---|---|---|
| Storage.Store.constructor | js/storage.js:5-9 | The registry starts empty and both slots start null. |
| Storage.Store.SetSelectedRadius | js/storage.js:11-13 | The selected-radius slot holds the given address. Its `modifies` frame leaves the registry and the delete-button slot alone. |
| Storage.Store.ClearSelectedRadius | js/storage.js:15-17 | The selected-radius slot is null. Nothing else can change. |
| Storage.Store.SetDeleteMarker | js/storage.js:19-21 | The delete-button slot holds the given layer. |
| Storage.Store.ClearDeleteMarker | js/storage.js:23-25 | The delete-button slot is null. |
| Storage.Store.GetDeleteMarker | js/storage.js:27-29 | Returns the current content of the delete-button slot and changes nothing. |
| Storage.Store.ClearAllData | js/storage.js:31-35 | The registry is empty and both slots are null. |
| Storage.SetThenGetDeleteMarker | js/storage.js:19-29 | Storing a layer and reading the slot back gives that layer. The registry and the selected radius are unchanged. |
| Storage.ClearThenGetDeleteMarker | js/storage.js:23-29 | Clearing the slot and reading it back gives null. The registry and the selected radius are unchanged. |
| Storage.InitialState | js/storage.js:5-9 | A fresh store and an empty map satisfy the consistency invariant. |
| JsValues.Or | js/geocoding.js:79-80 | JavaScript `or` on optional strings: the result is truthy exactly when one operand is. It is the first operand when that one is truthy and the second otherwise. |
| JsValues.Truthy | js/ui.js:45 | An optional string is truthy exactly when it is present and non-empty. |
| JsValues.TruthyInt | js/ui.js:201 | An optional number is truthy exactly when it is present and not zero. |
| JsValues.NatToString | js/ui.js:52 | The decimal text of a natural number is non-empty, made of digits only, and has no leading zero. |
| JsValues.IntToString | js/ui.js:52-53 | The text of an integer is non-empty, and it starts with a minus sign exactly when the integer is negative. |
| JsValues.DigitsValueOfNatToString | js/ui.js:52 | The decimal text of a natural number, read back as a decimal numeral, gives the number. |
| JsValues.IntToStringInjective | js/ui.js:52-53 | Different integers have different decimal texts, so distinct radii write distinct `data-value` texts. |
| Labels.Subtext | js/markers.js:20 | The pin's subtext is non-empty exactly when the radius is a preset with a non-empty label, and it is then that label. |
| Labels.CreateLabeledPinIcon | js/markers.js:8-28 | The pin is keyed and labelled by the address. Its title is the full address when one is given and the address otherwise. Its subtext is the preset label of the radius, or empty. |
| Labels.SelectorText | js/ui.js:52 | The selector shows the preset's label when the value has a non-empty one. Otherwise it shows the value's decimal text followed by " mi radius". |
| Labels.SelectorTextDistinct | js/ui.js:52 | Two radii without a preset label never share the generic selector text. |
| Labels.CreateStandalonePinIcon | csRadiusVisualizer.js:21-35 | The standalone pin is labelled by the address and has no separate title. Its subtext is the preset label from the script's own table, or empty. |
| Leaflet.Relabel | js/markers.js:121 | `setIcon` keeps the set of live handles and every other layer. A live marker shows the new icon at the same point. A handle that is not a live marker changes nothing. |
| Leaflet.LeafletMap.constructor | js/map.js:6-9 | A new map has no tracked layers, and handles start at 0. |
| Leaflet.LeafletMap.AddTo | js/geocoding.js:33-35 | The layer is drawn under the next fresh handle, and the counter advances. |
| Leaflet.LeafletMap.RemoveLayer | js/geocoding.js:29-30 | The handle is no longer live, and every other layer is kept. |
| Leaflet.LeafletMap.SetIcon | js/markers.js:121 | The live layers become `Relabel` of the old ones for that handle and icon. The counter is not touched. |
| Registry.Pin | js/markers.js:8-20 | The icon each revision draws for an entry. The modular revision draws the labelled pin with title and preset subtext. The standalone revision draws its own pin. The oldest revision draws the label badge with the address and the radius. None of them is the delete button or the search pin. |
| Registry.HandlesAt | js/geocoding.js:27-30 | The layers owned by the entry under a key: its marker and its circle, if any. A missing key owns none. |
| Registry.DisjointIff | js/storage.js:3-5 | The entry-by-entry form of "no two entries share a layer" is equivalent to the pairwise form. |
| Registry.AllDrawnIff | js/storage.js:3-5 | The entry-by-entry form of "every entry is drawn" is equivalent to a quantifier over all entries. |
| Registry.TrackedOwner | js/storage.js:3-5 | Every handle the registry tracks belongs to some entry. |
| Registry.UpsertConsistent | js/geocoding.js:27-43 | The invariant is kept when the old entry's marker and circle are released, a fresh pin is drawn and the entry is replaced by one with no radius and no circle. |
| Registry.SetRadiusConsistent | js/ui.js:56-67 | The invariant is kept when an existing entry's old circle is released, a fresh circle is drawn and the pin is relabelled. The entry keeps its point, marker and full address. |
| Registry.RemoveConsistent | js/markers.js:78-90 | The invariant is kept when an entry is dropped and its layers are released. |
| Registry.DeleteConsistent | js/markers.js:78-90 | The invariant is kept when an entry is dropped and both its layers and the slot's layer are released. The slot is then empty. |
| Registry.ShowSlotConsistent | js/markers.js:46-59 | The invariant is kept when the slot's previous layer is released and a fresh marker fills the slot. |
| Registry.SlotIsOnly | js/markers.js:46-59 | Under the invariant, a live marker showing the slot's icon is the slot's layer. So at most one delete button (or search pin) is live at a time. |
| Registry.HideSlotConsistent | js/ui.js:156-161 | The invariant is kept when the slot's layer is released and the slot is emptied. |
| Registry.EmptyConsistent | js/storage.js:5-9 | An empty registry with an empty slot agrees with an empty map. |
| Registry.ClearConsistent | js/ui.js:123-134 | Once every entry's layers and the slot's layer are released, none of the layers the registry or the slot tracks is left on the map, and the emptied state agrees with it. |
| Geocoding.PartsOf | js/geocoding.js:76 | A missing address object counts as one with no fields. |
| Geocoding.Locality | js/geocoding.js:79-80 | The locality is the first truthy value among city, town and village, and it is truthy exactly when one of them is. |
| Geocoding.Present | js/geocoding.js:79-87 | The truthy parts, in order. None of them is empty, and there are none exactly when no part is truthy. |
| Geocoding.LabelPartsOrder | js/geocoding.js:79-87 | The label parts are the locality, then the state, then the postcode, each one present exactly when it is truthy. |
| Geocoding.Join | js/geocoding.js:89 | Joining no parts gives the empty text. Otherwise the text starts with the first part and ends with the last. |
| Geocoding.ShortLabel | js/geocoding.js:76-89 | With no locality, state or postcode the label is the full display name. When there is a locality, the label starts with it. A lookup that got a display name keys its entry by a non-empty label. |
| Geocoding.ShortLabelFallback | js/geocoding.js:79-89 | There are no parts, and so the display name is the label, exactly when the locality, the state and the postcode are all missing or empty. |
| Geocoding.ShortLabelExample | js/geocoding.js:76-89 | For a city, state and postcode, the label is "Austin, Texas, 78701". The county and the country of the display name are dropped. |
| Geocoding.ShortLabelTownExample | js/geocoding.js:79-80 | An empty city gives way to the town, and the village is then ignored. |
| Geocoding.ShortAddress | js/geocoding.js:76-89 | Pushing the parts one by one and joining them gives the short label. |
| Geocoding.UpsertReleases | js/geocoding.js:27-35 | After an upsert, none of the old entry's layers is live, and the new marker is a handle that was not live before. |
| Geocoding.PutEntry | js/geocoding.js:27-43 | The old entry's layers are released and a fresh pin is drawn. The entry is replaced whole: same point, no radius, no circle, the new marker and the given full address. Every other key is unchanged. |
| Geocoding.PlaceSearchResult | js/geocoding.js:26-53 | The upsert keeps the invariant. The radius panel then carries the address and the point, and the selector is enabled and shows "Choose One". |
| Geocoding.OnSearchResults | js/geocoding.js:15-58 | No result changes nothing, and neither does a first result with a NaN coordinate, on which `flyTo` throws into the error alert. Otherwise only the first result's coordinates are used: the entry is replaced without a radius and any earlier full address is dropped. The panel is shown with the address and the point, and the selector is enabled and shows "Choose One". The invariant is kept. |
| Geocoding.OnReverseResult | js/geocoding.js:67-120 | A response without a display name changes nothing. Otherwise the entry is upserted under the short label with the display name as its full address. The address input, the panel and the selector follow, and the invariant is kept. |
| Geocoding.PlaceReverseResult | js/geocoding.js:91-119 | The reverse upsert under a known label, with its effect on the input, the panel and the selector. |
| Dom.Page.constructor | js/ui.js:137-142 | The page starts as clear-all leaves it: the selector disabled and showing its placeholder, the panel and the clear button hidden, and no address or point in the panel. |
| Dom.Page.HasLocation | js/ui.js:45 | The panel has a usable location exactly when its address is present and non-empty and neither number is NaN. |
| Dom.Page.ResetSelector | js/ui.js:47-48 | The selector shows the given text and its value is empty. Only those two fields can change. |
| Dom.Page.EnableCustomDropdown | js/ui.js:19-23 | The selector is enabled and shows the neutral text with an empty value. |
| Dom.Page.ShowRadiusPanel | js/geocoding.js:45-49 | The panel is visible and carries the address and the point. It has a usable location exactly when the address is non-empty and both numbers are not NaN. |
| Dom.Page.ResetControls | js/ui.js:137-142 | The panel and the clear button are hidden, and the selector is disabled and shows the neutral text. |
| Markers.ShowDeleteButton | js/markers.js:41-59 | An unknown address changes nothing. For a known one, the previous delete button is released, the address becomes the selected radius, and a fresh delete button at the entry's point fills the slot. The invariant is kept. |
| Markers.DeleteRadius | js/markers.js:74-97 | An unknown address changes nothing. For a known one, its marker and circle and the delete button are released and both slots are cleared. Only that key is removed. The clear button is hidden when the registry became empty and is otherwise left as it was. The invariant is kept. |
| Markers.RemoveEntry | js/markers.js:78-96 | The steps of a delete for a known address, with the exact new registry, layers and slots. |
| Markers.RemoveRecordLayers | js/markers.js:79-80 | Exactly the entry's marker and circle are released. |
| Markers.RemoveDeleteButton | js/markers.js:83-87 | Exactly the delete button's layer (if any) is released, and the slot is empty. |
| Markers.DrawCircle | js/markers.js:100-128 | The registry is not touched. A fresh circle of the radius is drawn at the point. A known entry's pin is relabelled for the radius and keeps its full address. |
| Ui.Controls.constructor | js/ui.js:10 | Pin-placement mode starts off. |
| Ui.Controls.OnTogglePinMode | js/ui.js:107-108 | The pin-placement flag equals the checkbox's state. |
| Ui.ReplaceRadius | js/ui.js:56-67 | The old circle is released and a fresh circle is drawn. The entry keeps its point, marker and full address, and gets the new radius and circle. The pin is relabelled. |
| Ui.SetRadius | js/ui.js:56-67 | `ReplaceRadius`, keeping the invariant. |
| Ui.OnRadiusOption | js/ui.js:36-70 | Without an address and two numbers in the panel, only the selector is reset to "Choose One". Otherwise the selector shows the option's text, the list closes and the clear button is shown. The radius is set only if the address is in the registry; otherwise the registry and the map are unchanged. The invariant is kept. |
| Ui.ReleaseAll | js/ui.js:123-126 | The loop over the entries releases exactly the layers the registry tracks. |
| Ui.OnClearAll | js/ui.js:122-143 | No layer the registry or the slots track is left on the map. The registry is empty, both slots are null, and the panel, the selector and the clear button are reset. |
| Ui.HandleLabelClick | js/ui.js:180-219 | An unknown address changes nothing. For a known one, the input, the panel and the selector show the entry: its radius's label, or "Choose One" when it has none. |
| Ui.HideDeleteButton | js/ui.js:155-161 | A showing delete button is released and both slots are cleared. Otherwise nothing changes. The invariant is kept. |
| Ui.OnMapClick | js/ui.js:147-177 | A click on the delete button changes nothing. Any other click first hides the delete button. Then a label click goes to the label handler, a bare-map click asks for a reverse lookup in pin mode, and it shows the reminder otherwise. |
| CsVisualizer.Visualizer.constructor | csRadiusVisualizer.js:11 | The registry starts empty. |
| CsVisualizer.Visualizer.PutEntry | csRadiusVisualizer.js:60-77 | The old entry's layers are released and a fresh standalone pin is drawn. The entry is replaced by one with no radius and no circle. |
| CsVisualizer.Visualizer.PlaceSearchResult | csRadiusVisualizer.js:60-87 | The upsert keeps the invariant. The panel and the selector follow. |
| CsVisualizer.Visualizer.OnSearchResults | csRadiusVisualizer.js:52-92 | "Address not found" changes nothing, and so does a first result with a NaN coordinate, on which `flyTo` throws into the error alert. Otherwise the first result is upserted, the panel carries the address and the point, and the selector is enabled and shows "Choose One". The invariant is kept. |
| CsVisualizer.Visualizer.DrawCircle | csRadiusVisualizer.js:96-118 | A fresh circle is drawn and a known entry's pin is relabelled for the radius. The registry is not touched. |
| CsVisualizer.Visualizer.ReplaceRadius | csRadiusVisualizer.js:161-172 | The old circle is released, and the entry keeps its marker and gets the new radius and circle. |
| CsVisualizer.Visualizer.SetRadius | csRadiusVisualizer.js:161-172 | `ReplaceRadius`, keeping the invariant. |
| CsVisualizer.Visualizer.OnRadiusOption | csRadiusVisualizer.js:141-175 | Without a usable location, only the selector is reset. Otherwise the selector shows the script's preset text, an existing entry gets the radius, an absent key leaves the registry unchanged, and the clear button is shown. |
| CsVisualizer.Visualizer.OnClearAll | csRadiusVisualizer.js:184-197 | Every marker and circle is released, the registry is empty, and the panel, the selector and the clear button are reset. |
| CsVisualizer.Visualizer.OnMapClick | csRadiusVisualizer.js:219-261 | A click outside a label, or on an unknown address, is a no-op. A known entry's label shows the entry. |
| CsVisualizer.InitialState | csRadiusVisualizer.js:11 | A fresh script and an empty map satisfy the invariant. |
| RadiusVisualizer.AsRecord | RadiusVisualizer.js:13 | An entry of this revision owns exactly its circle and its badge, and always has a radius. |
| RadiusVisualizer.AsRegistry | RadiusVisualizer.js:13 | The registry read as a general registry has the same keys, and each entry is read through `AsRecord`. |
| RadiusVisualizer.AsRegistryPut | RadiusVisualizer.js:171 | Setting an entry commutes with reading the registry through `AsRecord`. |
| RadiusVisualizer.SelectConsistent | RadiusVisualizer.js:162-171 | The invariant is kept when an entry's circle and badge (if any) are released and a fresh circle and badge are drawn and stored. This holds whether or not the key was there. |
| RadiusVisualizer.SelectShown | RadiusVisualizer.js:162-171 | `SelectConsistent`, read through `AsRegistry`. |
| RadiusVisualizer.ReleaseStep | RadiusVisualizer.js:188-191 | One step of the clear-all loop moves one entry's circle and badge from the entries still to visit to the released ones. |
| RadiusVisualizer.Visualizer.constructor | RadiusVisualizer.js:13 | The registry starts empty and there is no search pin. |
| RadiusVisualizer.Visualizer.ReplaceSearchMarker | RadiusVisualizer.js:55-59 | The previous search pin (if any) is released and a fresh one drawn. |
| RadiusVisualizer.Visualizer.PlaceSearchResult | RadiusVisualizer.js:53-76 | The search never touches the registry. Only the single search-pin slot is refilled, and the invariant is kept. |
| RadiusVisualizer.Visualizer.OnSearchResults | RadiusVisualizer.js:41-84 | "Address not found" changes nothing, and so does a first result with a NaN coordinate, on which `flyTo` throws into the error alert. Otherwise the search pin moves to the first result, the registry is untouched, the panel carries the address and the point, and the selector is enabled and shows its placeholder. The invariant is kept. |
| RadiusVisualizer.Visualizer.DrawCircle | RadiusVisualizer.js:88-116 | A fresh circle and then a fresh badge for the text and the radius are drawn at the point. |
| RadiusVisualizer.Visualizer.PutSelection | RadiusVisualizer.js:162-171 | The entry's circle and badge (if any) are released first. The entry is then set to the point, the radius and the fresh circle and badge, whether or not it existed. Other keys are unchanged. |
| RadiusVisualizer.Visualizer.Select | RadiusVisualizer.js:162-171 | `PutSelection`, keeping the invariant. |
| RadiusVisualizer.Visualizer.OnRadiusOption | RadiusVisualizer.js:141-175 | Without a usable location, only the selector is reset. Otherwise the selector shows the option's text and the entry is set as by `Select`. |
| RadiusVisualizer.Visualizer.ReleaseAll | RadiusVisualizer.js:188-191 | The loop releases exactly the circles and badges of all entries. |
| RadiusVisualizer.Visualizer.RemoveEntryLayers | RadiusVisualizer.js:189-190 | Exactly one entry's circle and badge are released. |
| RadiusVisualizer.Visualizer.OnClearAll | RadiusVisualizer.js:186-208 | Every circle and badge is released, the registry is empty, the search pin is released and unset, and the page is reset. |
| RadiusVisualizer.InitialState | RadiusVisualizer.js:13 | A fresh script and an empty map satisfy the invariant. |

## Left out

- Network requests are not modelled: the Nominatim `fetch` calls, JSON parsing, the error alerts and the dealership lookup `fetchNearbyDealerships`. Each response handler takes the parsed response as a parameter. Dealer markers are never registered, so they are not part of the registry invariant.
- Geocoding.OnSearchResults: the camera movement of `map.flyTo` is not modelled. Only its one effect on the registry is: Leaflet rejects a NaN coordinate, so `flyTo` throws before the timer is set and the `.catch` alert replaces the upsert. The same holds for the standalone and oldest revisions' `OnSearchResults`.
- Geocoding.PlaceSearchResult: the 2-second `setTimeout` is not modelled. The delayed body runs as one step, and interleavings between it and other events are not modelled. The same holds for the standalone and oldest revisions' search handlers.
- Floating-point arithmetic is not modelled: the miles-to-meters conversion, the zoom scale and `parseFloat`. A coordinate is opaque and the model only asks whether it is NaN. A number stored in the radius panel's `data-lat`/`data-lon` is read back unchanged.
- DOM and Leaflet rendering are not modelled: icon HTML, CSS classes, styles, `focus`, `scrollIntoView`, banners, the cursor and alerts. The selector's open/close toggle and the close-on-outside-click handler are left out as well; the model keeps only whether the option list is open.
- The mobile sheet's touch handling and `updateMarkerLabelScale` are left out, because they are presentation only.
- Event wiring is not modelled: the circle's click handler that calls `showDeleteButton`, the delete button's `onclick` installed after 50 ms, the search button and the Enter key. A handler is modelled as a method called with the values the event supplies.
- Leaflet.LeafletMap: its `layers` holds only the layers these scripts track. The tile layer that js/map.js adds and the dealer markers are not in it.
- Geocoding.OnSearchResults, Markers.DeleteRadius, Ui.OnClearAll: the dealer markers that `fetchNearbyDealerships` adds (js/markers.js:158, csRadiusVisualizer.js:286) are never removed, so they stay on the map after a delete and after clear-all. The model's statements about the map cover the tracked layers only.
- Ui.OnRadiusOption: the option's `data-value` is taken as an integer. JavaScript `parseInt` (leading whitespace, a `0x` prefix, NaN for a malformed value) is not modelled.
- JsValues.IntToString: JavaScript writes integers of 10^21 and more in exponent form. The model always writes decimal digits.
- Ui.HandleLabelClick: the `active-option` class updates on the options are not modelled.
- Ui.ReleaseAll: the `forEach` visits the entries in insertion order, but the model's registry is unordered. The result does not depend on the order.
- Geocoding.PutEntry: `createLabeledPinIcon(address, "")` looks up the empty string in the presets and finds nothing. The model passes no radius, which gives the same empty subtext.
- Registry.Pin: for the oldest revision an entry always has a radius, so the pin for a missing radius (radius 0) never occurs.
- Markers.DeleteRadius: the clear button is stated as hidden when the registry becomes empty and otherwise as it was before. Whether it was showing before depends on earlier events.
- index.html is not part of this model. The page's initial state is taken to be the one clear-all returns it to.
- js/map.js, js/main.js and js/config.js are not part of this model. `RADIUS_OPTIONS` (Small - 15 mi, Large - 30 mi) is used as a constant table.
- leaflet.js is not part of this model. It is a stateless demo with no registry.
