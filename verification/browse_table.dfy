/**
 * The server-paged browse table: the columns it builds, their default
 * visibility, the field, deck and tags cells, row ids and the selected-row
 * test. Its paging arithmetic (page count, "Showing" range, page buttons)
 * is the one in `Cells`, counted over the server's total.
 */
module BrowseTable {
  import opened Wrappers
  import opened JsText
  import opened Dicts
  import opened Cells
  import Api

  // ---------------------------------------------------------------------
  // Columns

  /** The column ids, in order: the selection checkbox in bulk-edit mode,
      one column per field, deck and tags, then flag, status and interval in
      the cards view. */
  method BuildColumns(bulkEdit: bool, fields: seq<string>, viewMode: string) returns (cols: seq<string>)
    ensures var off := if bulkEdit then 1 else 0;
      && |cols| == off + |fields| + 2 + (if viewMode == "cards" then 3 else 0)
      && (bulkEdit ==> cols[0] == "select")
      && cols[off..off + |fields|] == fields
      && cols[off + |fields|..off + |fields| + 2] == ["deck", "tags"]
      && cols[off + |fields| + 2..] == (if viewMode == "cards" then ["flag", "status", "interval"] else [])
  {
    cols := [];
    if bulkEdit {
      cols := cols + ["select"];
    }
    var start := |cols|;
    for i := 0 to |fields|
      invariant |cols| == start + i
      invariant cols[..start] == (if bulkEdit then ["select"] else [])
      invariant cols[start..] == fields[..i]
    {
      cols := cols + [fields[i]];
      assert fields[..i + 1] == fields[..i] + [fields[i]];
    }
    assert cols[start..] == fields;
    var body := cols;
    cols := cols + ["deck"];
    cols := cols + ["tags"];
    if viewMode == "cards" {
      cols := cols + ["flag"];
      cols := cols + ["status"];
      cols := cols + ["interval"];
    }
    assert cols[..|body|] == body;
  }

  /** The pairs the visibility initialiser writes, in order: field `i` is
      visible when `i < 3`. */
  function VisibilityPairs(fields: seq<string>): (ps: seq<(string, bool)>)
    ensures |ps| == |fields|
    ensures forall i :: 0 <= i < |ps| ==> ps[i] == (fields[i], i < 3)
  {
    seq(|fields|, i requires 0 <= i < |fields| => (fields[i], i < 3))
  }

  /** The initial column visibility: one entry per field, the first three
      visible and the rest hidden (for a repeated name, its last position
      decides), and the deck column visible. */
  method DefaultVisibility(fields: seq<string>) returns (v: map<string, bool>)
    ensures forall k :: k in v <==> k in fields || k == "deck"
    ensures v["deck"]
    ensures forall i :: 0 <= i < |fields| && fields[i] !in fields[i + 1..] && fields[i] != "deck" ==>
      v[fields[i]] == (i < 3)
  {
    var ps := VisibilityPairs(fields);
    v := map[];
    var i := 0;
    while i < |fields|
      invariant 0 <= i <= |fields|
      invariant v == MapOfPairs(ps[..i])
    {
      assert ps[..i + 1][..i] == ps[..i];
      v := v[fields[i] := i < 3];
      i := i + 1;
    }
    assert ps[..i] == ps;
    VisibilityPairsLast(fields);
    v := v["deck" := true];
  }

  /** Each field holds the visibility of its last position. */
  lemma VisibilityPairsLast(fields: seq<string>)
    ensures forall k :: k in MapOfPairs(VisibilityPairs(fields)) <==> k in fields
    ensures forall i :: 0 <= i < |fields| && fields[i] !in fields[i + 1..] ==>
      MapOfPairs(VisibilityPairs(fields))[fields[i]] == (i < 3)
  {
    var ps := VisibilityPairs(fields);
    forall k | k in fields ensures k in MapOfPairs(ps) {
      var i :| 0 <= i < |fields| && fields[i] == k;
      assert ps[i].0 == k;
    }
    forall i | 0 <= i < |fields| && fields[i] !in fields[i + 1..]
      ensures MapOfPairs(ps)[fields[i]] == (i < 3)
    {
      forall j | i < j < |ps| ensures ps[j].0 != ps[i].0 {
        assert fields[j] == fields[i + 1..][j - i - 1];
      }
      MapOfPairsLastWins(ps, i);
    }
  }

  // ---------------------------------------------------------------------
  // Cells

  /** A field cell cuts the stripped text at 80 characters. */
  const FieldLimit: nat := 80

  /** `row.fields?.[field] ?? ""`. */
  function FieldValue(item: Api.Item, field: string): string {
    if field in item.fields then item.fields[field] else ""
  }

  /** The field cell: a dash for an empty value, otherwise the value without
      markup, cut to 80 characters plus "..." when it is longer. */
  function FieldCell(value: string): (d: TextDisplay)
    ensures d.Dash? <==> value == ""
    ensures d.Shown? && |StripTags(value)| <= FieldLimit ==> d.text == StripTags(value)
    ensures d.Shown? && |StripTags(value)| > FieldLimit ==> d.text == StripTags(value)[..FieldLimit] + "..."
    ensures d.Shown? ==> |d.text| <= FieldLimit + 3 && TagFree(d.text)
  {
    TextCell(value, FieldLimit)
  }

  /** The tags cell: a dash for no tags, else at most three badges and a
      "+n" badge counting the rest. */
  datatype TagsDisplay = NoTags | Badges(shown: seq<string>, more: Option<string>)

  function TagsCell(tags: seq<string>): (d: TagsDisplay)
    ensures d.NoTags? <==> |tags| == 0
    ensures d.Badges? ==> d.shown == tags[..if |tags| < 3 then |tags| else 3]
    ensures d.Badges? ==> (d.more.Some? <==> |tags| > 3)
  {
    if |tags| == 0 then NoTags
    else if |tags| <= 3 then Badges(tags, None)
    else Badges(tags[..3], Some("+" + IntToString(|tags| - 3)))
  }

  /** With more than three tags, three badges are shown and the "+n"
      badge reads back as the number of the others. */
  lemma TagsCellCountsAll(tags: seq<string>)
    requires |tags| > 3
    ensures TagsCell(tags).Badges? && |TagsCell(tags).shown| == 3 && TagsCell(tags).more.Some?
    ensures ParseInt(TagsCell(tags).more.value[1..]) == Some(|tags| - 3)
  {
    MoreBadgeNumber(|tags| - 3);
  }

  lemma MoreBadgeNumber(n: nat)
    ensures ParseInt(("+" + IntToString(n))[1..]) == Some(n)
  {
    assert ("+" + IntToString(n))[1..] == IntToString(n);
    ParseIntToString(n);
  }

  // ---------------------------------------------------------------------
  // Rows

  /** `getRowId`: the card id for a card row, the note id for a note row. */
  function RowId(item: Api.Item): string {
    IntToString(if item.CardItem? then item.cardId else item.noteId)
  }

  /** Whether a row is drawn selected: card ids are compared when both the
      row and the selection are cards, note ids otherwise. */
  predicate IsSelected(item: Api.Item, selected: Option<Api.Item>) {
    && selected.Some?
    && if item.CardItem? && selected.value.CardItem? then item.cardId == selected.value.cardId
       else item.noteId == selected.value.noteId
  }

  /** A row is drawn selected when it is the selection, and selection is
      symmetric. */
  lemma SelectionReflexiveSymmetric(a: Api.Item, b: Api.Item)
    ensures IsSelected(a, Some(a))
    ensures IsSelected(a, Some(b)) <==> IsSelected(b, Some(a))
  {
  }

  /** Among rows of one kind, a row is drawn selected exactly when it has
      the selection's row id. */
  lemma SelectedIffSameRowId(item: Api.Item, selected: Api.Item)
    requires item.CardItem? == selected.CardItem?
    ensures IsSelected(item, Some(selected)) <==> RowId(item) == RowId(selected)
  {
    var a := if item.CardItem? then item.cardId else item.noteId;
    var b := if selected.CardItem? then selected.cardId else selected.noteId;
    ParseIntToString(a);
    ParseIntToString(b);
  }

  /** The "Showing" lines the browsing tests read: 1-10 and 11-20 of 20 on
      the first two pages of ten, and 0-0 of 0 for no matches. */
  lemma ShowingExamples()
    ensures ShowingRange(0, 10, 20) == (1, 10)
    ensures ShowingRange(1, 10, 20) == (11, 20)
    ensures ShowingRange(0, 20, 0) == (0, 0)
    ensures PageCount(20, 10) == 2
  {
  }
}
