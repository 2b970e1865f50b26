/**
 * The bulk-import dialog: tab-separated text is parsed into notes keyed by
 * the header line, the headers are sorted into those the chosen note type
 * has and those it lacks, and the import request attaches one comma-typed
 * tag list to every note.
 */
module BulkImportDialog {
  import opened Wrappers
  import opened JsText
  import opened Dicts

  /** One row of the pasted text: a value per header. */
  datatype ParsedNote = ParsedNote(fields: map<string, string>)

  /** The lines of the trimmed input. */
  function Lines(tsv: string): seq<string> {
    Split(Trim(tsv), '\n')
  }

  /** The trimmed cells of the header line (`tsvHeaders`, and the keys of every
      parsed note). */
  function TsvHeaders(tsv: string): seq<string> {
    TrimAll(Split(Lines(tsv)[0], '\t'))
  }

  /** `values[i]?.trim() ?? ""`: the trimmed cell, or "" past the row's end. */
  function CellAt(values: seq<string>, i: nat): string {
    if i < |values| then Trim(values[i]) else ""
  }

  /** The cell under each header. */
  function CellsFor(headers: seq<string>, values: seq<string>): (cells: seq<string>)
    ensures |cells| == |headers|
  {
    seq(|headers|, i requires 0 <= i < |headers| => CellAt(values, i))
  }

  /** One data line read against the headers; a later duplicate header wins. */
  function ParseRow(headers: seq<string>, line: string): ParsedNote {
    ParsedNote(ZipMap(headers, CellsFor(headers, Split(line, '\t'))))
  }

  /** `parseTSV`: no notes unless there are at least two lines, else one note
      per line after the header line. */
  function ParseTSV(tsv: string): seq<ParsedNote> {
    var lines := Lines(tsv);
    if |lines| < 2 then []
    else
      var headers := TsvHeaders(tsv);
      seq(|lines| - 1, k requires 0 <= k < |lines| - 1 => ParseRow(headers, lines[k + 1]))
  }

  /** There is one note per line break of the trimmed input: text of fewer
      than two lines gives none, and otherwise every line after the header
      line gives one. */
  lemma ParsedNoteCount(tsv: string)
    ensures |ParseTSV(tsv)| == CountChar(Trim(tsv), '\n')
    ensures |ParseTSV(tsv)| == if |Lines(tsv)| < 2 then 0 else |Lines(tsv)| - 1
  {
    SplitLength(Trim(tsv), '\n');
  }

  /** Note `k` has exactly the trimmed headers as keys, and the header in
      column `i` (unless it repeats further right) holds the trimmed `i`-th
      cell of line `k + 1`, or "" when that line is shorter; cells beyond the
      headers are dropped. */
  lemma ParsedNoteFields(tsv: string, k: int)
    requires 0 <= k < |ParseTSV(tsv)|
    ensures forall h :: h in ParseTSV(tsv)[k].fields <==> h in TsvHeaders(tsv)
    ensures forall i :: 0 <= i < |TsvHeaders(tsv)| && TsvHeaders(tsv)[i] !in TsvHeaders(tsv)[i + 1..] ==>
      ParseTSV(tsv)[k].fields[TsvHeaders(tsv)[i]] == CellAt(Split(Lines(tsv)[k + 1], '\t'), i)
  {
    var headers := TsvHeaders(tsv);
    assert ParseTSV(tsv)[k] == ParseRow(headers, Lines(tsv)[k + 1]);
    ZipMapPairs(headers, CellsFor(headers, Split(Lines(tsv)[k + 1], '\t')));
  }

  // ---------------------------------------------------------------------
  // Header categories

  /** The note type's field names (`model ? schema.models[model] : []`);
      `None` is `undefined`, for a chosen name the schema does not list,
      on which the categorisation below throws. */
  function ModelFields(models: map<string, seq<string>>, model: string): Option<seq<string>> {
    if model == "" then Some([])
    else if model in models then Some(models[model])
    else None
  }

  /** `xs.filter((x) => ys.includes(x) == keep)`. */
  function FilterByMembership(xs: seq<string>, ys: seq<string>, keep: bool): (r: seq<string>)
    ensures forall x :: x in r <==> x in xs && ((x in ys) == keep)
  {
    if |xs| == 0 then []
    else (if (xs[0] in ys) == keep then [xs[0]] else []) + FilterByMembership(xs[1..], ys, keep)
  }

  /** Matched headers, headers the note type lacks, and fields no header names. */
  datatype Categories = Categories(matched: seq<string>, tsvOnly: seq<string>, modelOnly: seq<string>)

  function Categorise(headers: seq<string>, modelFields: seq<string>): Categories {
    Categories(
      FilterByMembership(headers, modelFields, true),
      FilterByMembership(headers, modelFields, false),
      FilterByMembership(modelFields, headers, false))
  }

  /** Matched and header-only names split the headers between them: every
      header lands in exactly one, as often as it occurs. */
  lemma {:induction false} FilterPartition(xs: seq<string>, ys: seq<string>)
    ensures multiset(FilterByMembership(xs, ys, true)) + multiset(FilterByMembership(xs, ys, false)) == multiset(xs)
  {
    if |xs| > 0 {
      FilterPartition(xs[1..], ys);
      assert xs == [xs[0]] + xs[1..];
    }
  }

  /** The categories of the header line: matched and header-only names
      partition the headers; the model-only names are exactly the fields no
      header names. */
  lemma CategoriesPartition(headers: seq<string>, modelFields: seq<string>)
    ensures var c := Categorise(headers, modelFields);
      && multiset(c.matched) + multiset(c.tsvOnly) == multiset(headers)
      && |c.matched| + |c.tsvOnly| == |headers|
      && (forall h :: h in c.matched <==> h in headers && h in modelFields)
      && (forall h :: h in c.tsvOnly <==> h in headers && h !in modelFields)
      && (forall f :: f in c.modelOnly <==> f in modelFields && f !in headers)
  {
    var c := Categorise(headers, modelFields);
    FilterPartition(headers, modelFields);
    assert |multiset(c.matched) + multiset(c.tsvOnly)| == |multiset(headers)|;
  }

  // ---------------------------------------------------------------------
  // The import request

  /** Tags typed as comma-separated text: split on ",", trim, drop empties. */
  function CommaTags(input: string): seq<string> {
    DropEmpty(TrimAll(Split(input, ',')))
  }

  /** Every tag is non-empty, has no surrounding whitespace and no comma. */
  lemma CommaTagsWellFormed(input: string)
    ensures forall i :: 0 <= i < |CommaTags(input)| ==>
      var t := CommaTags(input)[i];
      t != "" && Trim(t) == t && ',' !in t
  {
    var pieces := Split(input, ',');
    SplitPiecesHaveNoSep(input, ',');
    DropEmptyKept(TrimAll(pieces));
    forall i | 0 <= i < |CommaTags(input)|
      ensures var t := CommaTags(input)[i]; t != "" && Trim(t) == t && ',' !in t
    {
      var t := CommaTags(input)[i];
      var j :| 0 <= j < |pieces| && TrimAll(pieces)[j] == t;
      TrimFixedPoints(t);
      TrimKeepsChars(pieces[j]);
    }
  }

  /** An empty input gives no tags. */
  lemma CommaTagsOfEmpty(input: string)
    requires |input| == 0
    ensures CommaTags(input) == []
  {
    var pieces := Split(input, ',');
    assert pieces == [input];
    assert Trim(input) == input by {
      assert TrimStart(input) == input;
    }
    assert TrimAll(pieces) == [input];
  }

  /** Writing well-formed tags back with commas and splitting again returns
      the same list. */
  lemma CommaTagsRoundTrip(tags: seq<string>)
    requires forall i :: 0 <= i < |tags| ==> tags[i] != "" && Trim(tags[i]) == tags[i] && ',' !in tags[i]
    ensures CommaTags(Join(tags, ',')) == tags
  {
    if |tags| == 0 {
      CommaTagsOfEmpty(Join(tags, ','));
    } else {
      assert Split(Join(tags, ','), ',') == tags by { SplitJoin(tags, ','); }
      assert TrimAll(tags) == tags;
      assert DropEmpty(tags) == tags by { DropEmptyKeeps(tags); }
    }
  }

  /** A note of the import request. */
  datatype ImportNote = ImportNote(fields: map<string, string>, tags: seq<string>)

  /** `handleImport`'s notes: every parsed note, in order, with the same tags. */
  function ImportNotes(parsed: seq<ParsedNote>, tagsInput: string): (notes: seq<ImportNote>)
    ensures |notes| == |parsed|
    ensures forall i :: 0 <= i < |notes| ==>
      notes[i].fields == parsed[i].fields && notes[i].tags == CommaTags(tagsInput)
  {
    seq(|parsed|, i requires 0 <= i < |parsed| => ImportNote(parsed[i].fields, CommaTags(tagsInput)))
  }

  /** `isValid`: a note type, a deck and at least one parsed note. */
  predicate IsValid(model: string, deck: string, tsv: string) {
    model != "" && deck != "" && |ParseTSV(tsv)| > 0
  }

  /** Import stays disabled while the trimmed input has no line break. */
  lemma ImportNeedsARow(model: string, deck: string, tsv: string)
    ensures IsValid(model, deck, tsv) <==> model != "" && deck != "" && '\n' in Trim(tsv)
  {
    ParsedNoteCount(tsv);
    CountCharPositive(Trim(tsv), '\n');
  }

  /** `defaultDeck ?? schema.decks[0] ?? ""`: the initial deck is the one the
      caller named, else the schema's first deck, else none. */
  function InitialDeck(defaultDeck: Option<string>, decks: seq<string>): (deck: string)
    ensures defaultDeck.Some? ==> deck == defaultDeck.value
    ensures defaultDeck.None? && |decks| > 0 ==> deck == decks[0]
    ensures defaultDeck.None? && |decks| == 0 ==> deck == ""
  {
    match defaultDeck
    case Some(d) => d
    case None => if |decks| > 0 then decks[0] else ""
  }
}
