/**
 * The bulk-edit toolbar: the selection label, the "select all matching"
 * banner and the actions it offers for the selected cards.
 */
module BulkActions {
  import opened Wrappers
  import opened JsText
  import Constants

  /** What a toolbar button or menu entry reports. */
  datatype Action = Exit | SelectAll | ClearSelection | SetFlag(flag: int) | Suspend | Unsuspend

  /** The toolbar: its text and the actions that can be taken. */
  datatype Toolbar = Toolbar(text: string, actions: seq<Action>)

  /** The banner offering to select every matching card. */
  predicate ShowSelectAllBanner(isAllSelected: bool, selectedCount: int, totalMatching: int) {
    !isAllSelected && selectedCount > 0 && totalMatching > selectedCount
  }

  /** The flag menu's entries, one per `FLAG_OPTIONS` entry, in order. */
  function FlagMenu(): (menu: seq<Action>)
    ensures |menu| == |Constants.FlagOptions|
    ensures forall i :: 0 <= i < |menu| ==> menu[i] == SetFlag(Constants.FlagOptions[i].value)
  {
    seq(|Constants.FlagOptions|, i requires 0 <= i < |Constants.FlagOptions| => SetFlag(Constants.FlagOptions[i].value))
  }

  /** The menu sets exactly the flags 0-7, each once, in order. */
  lemma FlagMenuCodes()
    ensures |FlagMenu()| == 8
    ensures forall i :: 0 <= i < |FlagMenu()| ==> FlagMenu()[i] == SetFlag(i)
    ensures forall f :: SetFlag(f) in FlagMenu() <==> 0 <= f <= 7
  {
    Constants.FlagOptionsCodes();
    forall f | 0 <= f <= 7 ensures SetFlag(f) in FlagMenu() {
      assert FlagMenu()[f] == SetFlag(f);
    }
  }

  /** The selection label: "All N selected" with everything selected, else
      "k selected". */
  function SelectionLabel(isAllSelected: bool, selectedCount: int, totalMatching: int): string {
    if isAllSelected then "All " + IntToString(totalMatching) + " selected"
    else IntToString(selectedCount) + " selected"
  }

  /** The toolbar: nothing selected shows only a prompt; otherwise the label,
      the banner when it applies, clearing, the flag menu, suspend and
      unsuspend. While a request is pending every button is disabled. */
  function BulkToolbar(isAllSelected: bool, selectedCount: int, totalMatching: int, pending: bool): (t: Toolbar)
    ensures selectedCount <= 0 ==> t.text == "Select cards to edit"
    ensures selectedCount > 0 ==> t.text == SelectionLabel(isAllSelected, selectedCount, totalMatching)
    ensures pending ==> t.actions == []
    ensures !pending && selectedCount <= 0 ==> t.actions == [Exit]
    ensures !pending && selectedCount > 0 ==>
      && (SelectAll in t.actions <==> ShowSelectAllBanner(isAllSelected, selectedCount, totalMatching))
      && (forall f :: SetFlag(f) in t.actions <==> SetFlag(f) in FlagMenu())
      && Exit in t.actions && ClearSelection in t.actions && Suspend in t.actions && Unsuspend in t.actions
  {
    var text := if selectedCount > 0 then SelectionLabel(isAllSelected, selectedCount, totalMatching)
                else "Select cards to edit";
    var actions :=
      [Exit] +
      (if selectedCount > 0 then
         (if ShowSelectAllBanner(isAllSelected, selectedCount, totalMatching) then [SelectAll] else []) +
         [ClearSelection] + FlagMenu() + [Suspend, Unsuspend]
       else []);
    Toolbar(text, if pending then [] else actions)
  }

  /** The label of a partial selection starts with the number selected:
      reading it back as a number gives the count. */
  lemma LabelCountsSelection(selectedCount: nat, totalMatching: int)
    requires selectedCount > 0
    ensures ParseInt(SelectionLabel(false, selectedCount, totalMatching)) == Some(selectedCount)
    ensures SelectionLabel(true, selectedCount, totalMatching)[..4] == "All "
  {
    var d := NatToString(selectedCount);
    var text := SelectionLabel(false, selectedCount, totalMatching);
    assert text == d + " selected";
    TrimStartKeeps(text);
    DigitPrefixStops(d, " selected");
    NatToStringValue(selectedCount);
  }
}
