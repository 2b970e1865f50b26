/**
 * The flag tables: the colour of each flag code, the flag choices offered
 * when setting a flag (numeric codes 0-7), and the flag filter choices of the
 * search bar (URL values "none" and "1"-"7").
 */
module Constants {
  import opened Wrappers
  import opened JsText

  /** An entry of the flag menu: its numeric code, label and colour. */
  datatype FlagOption = FlagOption(value: int, name: string, color: Option<string>)

  /** An entry of the flag filter: its URL value, label and colour. */
  datatype FilterOption = FilterOption(value: string, name: string, color: Option<string>)

  const Red := "#ef4444"
  const Orange := "#f97316"
  const Green := "#22c55e"
  const Blue := "#3b82f6"
  const Pink := "#ec4899"
  const Turquoise := "#14b8a6"
  const Purple := "#a855f7"

  /** `FLAG_COLORS`: flag code to colour, for codes 1-7 only. */
  const FlagColors: map<int, string> := map[
    1 := Red, 2 := Orange, 3 := Green, 4 := Turquoise, 5 := Pink, 6 := Blue, 7 := Purple]

  /** `FLAG_OPTIONS`. */
  const FlagOptions: seq<FlagOption> := [
    FlagOption(0, "None", None),
    FlagOption(1, "Red", Some(Red)),
    FlagOption(2, "Orange", Some(Orange)),
    FlagOption(3, "Green", Some(Green)),
    FlagOption(4, "Blue", Some(Blue)),
    FlagOption(5, "Pink", Some(Pink)),
    FlagOption(6, "Turquoise", Some(Turquoise)),
    FlagOption(7, "Purple", Some(Purple))]

  /** `FLAG_FILTER_OPTIONS`. */
  const FlagFilterOptions: seq<FilterOption> := [
    FilterOption("none", "All", None),
    FilterOption("1", "Red", Some(Red)),
    FilterOption("2", "Orange", Some(Orange)),
    FilterOption("3", "Green", Some(Green)),
    FilterOption("4", "Blue", Some(Blue)),
    FilterOption("5", "Pink", Some(Pink)),
    FilterOption("6", "Turquoise", Some(Turquoise)),
    FilterOption("7", "Purple", Some(Purple))]

  /** The menu lists the codes 0-7 in order, and only code 0 ("None") has no
      colour. */
  lemma FlagOptionsCodes()
    ensures |FlagOptions| == 8
    ensures forall i :: 0 <= i < |FlagOptions| ==> FlagOptions[i].value == i
    ensures forall i :: 0 <= i < |FlagOptions| ==> (FlagOptions[i].color.None? <==> i == 0)
    ensures FlagOptions[0].name == "None"
  {
  }

  /** The filter is "All" (URL value "none") followed by one entry per code
      1-7, whose URL value is the code written in decimal and whose label and
      colour are the menu's. */
  lemma FilterOptionsFollowMenu()
    ensures |FlagFilterOptions| == |FlagOptions|
    ensures FlagFilterOptions[0] == FilterOption("none", "All", None)
    ensures forall i :: 1 <= i < |FlagFilterOptions| ==>
      && FlagFilterOptions[i].value == IntToString(FlagOptions[i].value)
      && FlagFilterOptions[i].name == FlagOptions[i].name
      && FlagFilterOptions[i].color == FlagOptions[i].color
  {
    assert forall i :: 1 <= i < 8 ==> IntToString(i) == [DigitChar(i)];
  }

  /** `FLAG_COLORS` has codes 1-7 only: flag 0 has no colour. */
  lemma FlagColorsCodes()
    ensures FlagColors.Keys == {1, 2, 3, 4, 5, 6, 7}
    ensures 0 !in FlagColors
  {
  }

  /** `FLAG_COLORS` agrees with the menu's colours at codes 1, 2, 3, 5 and 7,
      but codes 4 and 6 are swapped: the table paints flag 4 (the menu's
      "Blue") turquoise and flag 6 (the menu's "Turquoise") blue. */
  lemma FlagColorsDisagreeAt4And6()
    ensures forall i :: i in {1, 2, 3, 5, 7} ==> FlagColors[i] == FlagOptions[i].color.value
    ensures FlagColors[4] == FlagOptions[6].color.value && FlagOptions[4].name == "Blue"
    ensures FlagColors[6] == FlagOptions[4].color.value && FlagOptions[6].name == "Turquoise"
    ensures FlagColors[4] != FlagOptions[4].color.value && FlagColors[6] != FlagOptions[6].color.value
  {
  }
}
