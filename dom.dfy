/** The page elements the handlers read and write, reduced to the values that matter:
    the radius selector (`#radiusSelect`: disabled or not, its shown text and
    `data-value`, whether its option list is open), the radius panel (`#radius`:
    visible or not, and the `data-address`/`data-lat`/`data-lon` it carries), the
    clear-all button's wrapper and the address input. */
module Dom {
  import opened JsValues

  class Page {
    var dropdownDisabled: bool
    var selectedText: string
    var selectedValue: string
    var optionsOpen: bool
    var radiusVisible: bool
    var radiusAddress: Option<string>
    var radiusLat: Num
    var radiusLon: Num
    var clearVisible: bool
    var addressInput: string

    /** The page before any search, which is also what clear-all returns it to: the selector
        disabled and showing `placeholder`, nothing in the radius panel. */
    constructor (placeholder: string)
      ensures Reset(placeholder)
      ensures !optionsOpen && radiusAddress == None && radiusLat == NaN && radiusLon == NaN && addressInput == ""
    {
      dropdownDisabled := true;
      selectedText := placeholder;
      selectedValue := "";
      optionsOpen := false;
      radiusVisible := false;
      radiusAddress := None;
      radiusLat := NaN;
      radiusLon := NaN;
      clearVisible := false;
      addressInput := "";
    }

    /** The radius panel carries an address and two numbers: the check the radius
        handler makes before it draws anything. */
    predicate HasLocation(): (b: bool)
      reads this
      ensures b <==> radiusAddress != None && radiusAddress != Some("") && radiusLat != NaN && radiusLon != NaN
    {
      Truthy(radiusAddress) && radiusLat != NaN && radiusLon != NaN
    }

    /** The selector, panel and clear button as clear-all leaves them. */
    predicate Reset(placeholder: string)
      reads this
    {
      && !radiusVisible && dropdownDisabled && selectedText == placeholder && selectedValue == ""
      && !clearVisible
    }

    /** `enableCustomDropdown()`: the selector is enabled and shows its neutral text. */
    method EnableCustomDropdown(placeholder: string)
      modifies this`dropdownDisabled, this`selectedText, this`selectedValue
      ensures !dropdownDisabled && selectedText == placeholder && selectedValue == ""
    {
      dropdownDisabled := false;
      selectedText := placeholder;
      selectedValue := "";
    }

    /** The selector shows `text` with an empty `data-value`. */
    method ResetSelector(text: string)
      modifies this`selectedText, this`selectedValue
      ensures selectedText == text && selectedValue == ""
    {
      selectedText := text;
      selectedValue := "";
    }

    /** The radius panel is shown and remembers the address and its coordinates. */
    method ShowRadiusPanel(address: string, lat: Num, lon: Num)
      modifies this`radiusVisible, this`radiusAddress, this`radiusLat, this`radiusLon
      ensures radiusVisible && radiusAddress == Some(address) && radiusLat == lat && radiusLon == lon
      ensures HasLocation() <==> address != "" && lat != NaN && lon != NaN
    {
      radiusVisible := true;
      radiusAddress := Some(address);
      radiusLat := lat;
      radiusLon := lon;
    }

    /** Clear-all's reset of the selector, the panel and the clear button. */
    method ResetControls(placeholder: string)
      modifies this`radiusVisible, this`dropdownDisabled, this`selectedText, this`selectedValue, this`clearVisible
      ensures Reset(placeholder)
    {
      radiusVisible := false;
      dropdownDisabled := true;
      selectedText := placeholder;
      selectedValue := "";
      clearVisible := false;
    }
  }
}
