/**
 * The cards table: its flag, status, interval and sort-field cells, its
 * own flag colour table, and the page state it reports (the table pages the
 * loaded cards itself, so its counts come from the number of cards).
 */
module CardsTable {
  import opened Wrappers
  import opened JsText
  import opened Cells
  import Constants

  /** The table's own flag colours; unlike the shared table, 4 is blue and
      6 turquoise. */
  const FlagColors: map<int, string> := map[
    1 := Constants.Red, 2 := Constants.Orange, 3 := Constants.Green, 4 := Constants.Blue,
    5 := Constants.Pink, 6 := Constants.Turquoise, 7 := Constants.Purple]

  /** A flag cell: a dash, or a flag icon in a colour (none for a code
      outside 1-7). */
  datatype FlagDisplay = NoFlag | FlagIcon(color: Option<string>)

  /** The flag cell: flag 0 shows a dash; flags 1-7 are painted in the
      colour the flag menu gives them; any other code shows an uncoloured
      icon. */
  function FlagCell(flag: int): (d: FlagDisplay)
    ensures d.NoFlag? <==> flag == 0
    ensures 1 <= flag <= 7 ==> d == FlagIcon(Constants.FlagOptions[flag].color)
    ensures flag != 0 && !(1 <= flag <= 7) ==> d == FlagIcon(None)
  {
    if flag == 0 then NoFlag
    else FlagIcon(if flag in FlagColors then Some(FlagColors[flag]) else None)
  }

  /** The table's colours differ from the shared `FLAG_COLORS` exactly at
      codes 4 and 6. */
  lemma FlagColorsDifferFromShared()
    ensures FlagColors.Keys == Constants.FlagColors.Keys
    ensures forall k :: k in FlagColors ==> (FlagColors[k] != Constants.FlagColors[k] <==> k == 4 || k == 6)
  {
  }

  /** The status cell: the queue's name, or the queue number itself for a
      queue without one. */
  function StatusLabel(queue: int): (text: string)
    ensures text == "Suspended" <==> queue == -1
    ensures queue == 0 ==> text == "New"
    ensures queue == 1 ==> text == "Learning"
    ensures queue == 2 ==> text == "Review"
    ensures queue == 3 ==> text == "Relearning"
    ensures !(-1 <= queue <= 3) ==> text == IntToString(queue)
  {
    if queue == -1 then "Suspended"
    else if queue == 0 then "New"
    else if queue == 1 then "Learning"
    else if queue == 2 then "Review"
    else if queue == 3 then "Relearning"
    else
      IntToStringFirst(queue);
      IntToString(queue)
  }

  /** A number is written with a digit or a minus sign first. */
  lemma IntToStringFirst(n: int)
    ensures IntToString(n)[0] == '-' || IsDigit(IntToString(n)[0])
  {
  }

  /** Different queues never show the same status. */
  lemma StatusLabelInjective(a: int, b: int)
    requires a != b
    ensures StatusLabel(a) != StatusLabel(b)
  {
    IntToStringFirst(a);
    IntToStringFirst(b);
    if !(-1 <= a <= 3) && !(-1 <= b <= 3) {
      ParseIntToString(a);
      ParseIntToString(b);
    }
  }

  /** The sort-field cell cuts the stripped text at 50 characters. */
  const SortFieldLimit: nat := 50

  /** The sort-field cell: a dash for an empty value, otherwise the value
      without markup, cut to 50 characters plus "..." when it is longer. */
  function SortFieldCell(value: string): (d: TextDisplay)
    ensures d.Dash? <==> value == ""
    ensures d.Shown? && |StripTags(value)| <= SortFieldLimit ==> d.text == StripTags(value)
    ensures d.Shown? && |StripTags(value)| > SortFieldLimit ==> d.text == StripTags(value)[..SortFieldLimit] + "..."
    ensures d.Shown? ==> |d.text| <= SortFieldLimit + 3 && TagFree(d.text)
  {
    TextCell(value, SortFieldLimit)
  }
}
