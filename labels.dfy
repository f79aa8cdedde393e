/** The label texts: the pin icon's title and subtext, and the radius selector's text. */
module Labels {
  import opened JsValues
  import opened Leaflet

  /** The radius presets and their display labels. */
  const RADIUS_OPTIONS: map<int, string> := map[15 := "Small - 15 mi", 30 := "Large - 30 mi"]

  /** The radius selector's neutral text. */
  const CHOOSE_ONE: string := "Choose One"

  /** `options[miles] || ""`: the preset's label, or nothing. */
  function Subtext(options: map<int, string>, miles: Option<int>): (s: string)
    ensures s != "" <==> miles.Some? && miles.value in options && options[miles.value] != ""
    ensures s != "" ==> s == options[miles.value]
  {
    if miles.Some? && miles.value in options then options[miles.value] else ""
  }

  /** The labelled pin: labelled and keyed by `address`, titled with the full address
      when one is given and otherwise with the address, and with the preset label of
      `miles` (if any) underneath. */
  function CreateLabeledPinIcon(options: map<int, string>, address: string, miles: Option<int>,
                                fullAddress: Option<string>): (icon: Icon)
    ensures icon.LabeledPin? && icon.address == address
    ensures Truthy(fullAddress) ==> icon.title == fullAddress
    ensures !Truthy(fullAddress) ==> icon.title == Some(address)
    ensures icon.subtext == Subtext(options, miles)
  {
    var displayAddress := if Truthy(fullAddress) then fullAddress.value else address;
    LabeledPin(address, Some(displayAddress), Subtext(options, miles))
  }

  /** `options[value] || `${value} mi radius``: the preset's label when it has a non-empty one,
      otherwise a generic text that starts with the value's decimal digits. */
  function SelectorText(options: map<int, string>, value: int): (text: string)
    ensures value in options && options[value] != "" ==> text == options[value]
    ensures !(value in options && options[value] != "") ==> text == IntToString(value) + " mi radius"
  {
    if value in options && options[value] != "" then options[value]
    else IntToString(value) + " mi radius"
  }

  /** Two values without a preset label never share the generic selector text. */
  lemma SelectorTextDistinct(options: map<int, string>, v: int, w: int)
    requires !(v in options && options[v] != "") && !(w in options && options[w] != "")
    ensures SelectorText(options, v) == SelectorText(options, w) ==> v == w
  {
    var t := " mi radius";
    if SelectorText(options, v) == SelectorText(options, w) {
      var a, b := IntToString(v), IntToString(w);
      assert a + t == b + t;
      assert |a| == |b|;
      assert a == (a + t)[..|a|];
      assert b == (b + t)[..|b|];
      IntToStringInjective(v, w);
    }
  }

  /** The standalone revision's own copy of the radius presets. */
  const STANDALONE_RADIUS_LABELS: map<int, string> := map[15 := "Small - 15 mi", 30 := "Large - 30 mi"]

  /** The standalone revision's pin: labelled with the address, no separate title, and the
      preset label of `miles` (if any) underneath. */
  function CreateStandalonePinIcon(address: string, miles: Option<int>): (icon: Icon)
    ensures icon.LabeledPin? && icon.address == address && icon.title.None?
    ensures icon.subtext == Subtext(STANDALONE_RADIUS_LABELS, miles)
  {
    LabeledPin(address, None, Subtext(STANDALONE_RADIUS_LABELS, miles))
  }
}
