/**
 * The provider that talks to AnkiConnect directly: the note-type schema is
 * gathered one note type at a time, the browse query is the note-type filter
 * optionally followed by the search, and each note returned is flattened and
 * given the deck that holds most of the matching cards. The answers of the
 * AnkiConnect actions are parameters.
 */
module AnkiConnect {
  import opened Wrappers
  import opened JsText
  import Api

  // ---------------------------------------------------------------------
  // Schema

  /** `fetchAllModelsWithFields`: one entry per note type name, holding the
      field names AnkiConnect gives for it. */
  method FetchAllModelsWithFields(modelNames: seq<string>, fieldNamesOf: string -> seq<string>)
    returns (models: map<string, seq<string>>)
    ensures models.Keys == set n | n in modelNames
    ensures forall n :: n in models ==> models[n] == fieldNamesOf(n)
  {
    models := map[];
    for i := 0 to |modelNames|
      invariant models.Keys == set n | n in modelNames[..i]
      invariant forall n :: n in models ==> models[n] == fieldNamesOf(n)
    {
      models := models[modelNames[i] := fieldNamesOf(modelNames[i])];
      assert modelNames[..i + 1] == modelNames[..i] + [modelNames[i]];
    }
    assert modelNames[..|modelNames|] == modelNames;
  }

  // ---------------------------------------------------------------------
  // Query

  /** The note-type filter. */
  function NoteFilter(modelName: string): (filter: string)
    ensures |filter| == |modelName| + 7
  {
    "note:\"" + modelName + "\""
  }

  /** The query: the note-type filter alone when the search is absent or
      empty, else the filter, one space and the search. */
  function Query(modelName: string, search: Option<string>): (query: string)
    ensures StartsWith(query, NoteFilter(modelName))
    ensures query == NoteFilter(modelName) <==> Api.SearchText(search) == ""
    ensures query != NoteFilter(modelName) ==> query[|modelName| + 7..] == " " + Api.SearchText(search)
  {
    var filter := NoteFilter(modelName);
    if search.Some? && search.value != "" then
      assert (filter + " " + search.value)[..|filter|] == filter;
      assert (filter + " " + search.value)[|filter|..] == " " + search.value;
      filter + " " + search.value
    else
      assert filter[..|filter|] == filter;
      filter
  }

  /** This query and the one the add-on's API client builds agree when there
      is a search; without one, the client's query has a trailing space this
      one lacks. */
  lemma QueryMatchesClient(modelName: string, search: Option<string>)
    ensures Api.SearchText(search) != "" ==> Api.FetchQuery(modelName, search) == Query(modelName, search)
    ensures Api.SearchText(search) == "" ==> Api.FetchQuery(modelName, search) == Query(modelName, search) + " "
  {
    var filter := NoteFilter(modelName);
    var text := Api.SearchText(search);
    assert Api.FetchQuery(modelName, search) == filter + " " + text;
    if text == "" {
      assert Query(modelName, search) == filter;
      assert filter + " " + text == filter + " ";
    } else {
      assert Query(modelName, search) == filter + " " + text;
    }
  }

  // ---------------------------------------------------------------------
  // Notes

  /** A field as `notesInfo` reports it: its value and its position. */
  datatype FieldInfo = FieldInfo(value: string, order: int)

  /** A note as `notesInfo` reports it. */
  datatype NoteInfo = NoteInfo(noteId: int, modelName: string, fields: map<string, FieldInfo>, tags: seq<string>)

  /** A note as the provider hands it on. */
  datatype Note = Note(id: int, modelName: string, fields: map<string, string>, tags: seq<string>, deckName: string)

  /** `normalizeNote`: the same fields, each holding only its value, and the
      deck given. */
  function NormalizeNote(note: NoteInfo, deckName: string): (n: Note)
    ensures n.id == note.noteId && n.modelName == note.modelName && n.tags == note.tags
    ensures n.deckName == deckName
    ensures n.fields.Keys == note.fields.Keys
    ensures forall k :: k in n.fields ==> n.fields[k] == note.fields[k].value
  {
    Note(note.noteId, note.modelName, map k | k in note.fields :: note.fields[k].value, note.tags, deckName)
  }

  /** Field positions are dropped: notes that differ only in them flatten to
      the same note. */
  lemma NormalizeIgnoresOrder(a: NoteInfo, b: NoteInfo, deckName: string)
    requires a.noteId == b.noteId && a.modelName == b.modelName && a.tags == b.tags
    requires a.fields.Keys == b.fields.Keys
    requires forall k :: k in a.fields ==> a.fields[k].value == b.fields[k].value
    ensures NormalizeNote(a, deckName) == NormalizeNote(b, deckName)
  {
  }

  // ---------------------------------------------------------------------
  // Primary deck

  /** `primary` is the first deck, in the order given, holding `maxCards`
      cards, the most any deck holds; "" and 0 when no deck holds a card. */
  predicate IsPrimaryDeck(decks: seq<(string, seq<int>)>, primary: string, maxCards: nat) {
    && (forall j :: 0 <= j < |decks| ==> |decks[j].1| <= maxCards)
    && (maxCards == 0 ==> primary == "")
    && (maxCards > 0 ==> exists k ::
          && 0 <= k < |decks| && decks[k].0 == primary && |decks[k].1| == maxCards
          && (forall j :: 0 <= j < k ==> |decks[j].1| < maxCards))
  }

  /** The primary-deck loop: a deck replaces the current one only when it
      holds strictly more cards. */
  method PrimaryDeck(decks: seq<(string, seq<int>)>) returns (primary: string, maxCards: nat)
    ensures IsPrimaryDeck(decks, primary, maxCards)
  {
    primary := "";
    maxCards := 0;
    ghost var at := 0;
    for i := 0 to |decks|
      invariant forall j :: 0 <= j < i ==> |decks[j].1| <= maxCards
      invariant maxCards == 0 ==> primary == ""
      invariant maxCards > 0 ==>
        && 0 <= at < i && decks[at].0 == primary && |decks[at].1| == maxCards
        && (forall j :: 0 <= j < at ==> |decks[j].1| < maxCards)
    {
      if |decks[i].1| > maxCards {
        maxCards := |decks[i].1|;
        primary := decks[i].0;
        at := i;
      }
    }
  }

  /** The primary deck is determined by the decks: two answers that both
      meet the description are the same. */
  lemma PrimaryDeckUnique(decks: seq<(string, seq<int>)>, a: string, ma: nat, b: string, mb: nat)
    requires IsPrimaryDeck(decks, a, ma) && IsPrimaryDeck(decks, b, mb)
    ensures a == b && ma == mb
  {
    if ma > 0 {
      var k :| 0 <= k < |decks| && decks[k].0 == a && |decks[k].1| == ma &&
        (forall j :: 0 <= j < k ==> |decks[j].1| < ma);
      assert |decks[k].1| <= mb;
    }
    if mb > 0 {
      var l :| 0 <= l < |decks| && decks[l].0 == b && |decks[l].1| == mb &&
        (forall j :: 0 <= j < l ==> |decks[j].1| < mb);
      assert |decks[l].1| <= ma;
    }
    if ma > 0 {
      var k :| 0 <= k < |decks| && decks[k].0 == a && |decks[k].1| == ma &&
        (forall j :: 0 <= j < k ==> |decks[j].1| < ma);
      var l :| 0 <= l < |decks| && decks[l].0 == b && |decks[l].1| == mb &&
        (forall j :: 0 <= j < l ==> |decks[j].1| < mb);
      assert k >= l;
      assert l >= k;
    }
  }

  /** The decks consulted: `getDecks` is asked only when cards were found. */
  function DecksConsulted(cardIds: seq<int>, decksByName: seq<(string, seq<int>)>): seq<(string, seq<int>)> {
    if |cardIds| > 0 then decksByName else []
  }

  /** `fetchNotes` after the query: no notes when none match; otherwise
      every note's information flattened, in order, all with the primary
      deck. */
  method FetchNotes(noteIds: seq<int>, notesInfo: seq<NoteInfo>, cardIds: seq<int>,
                    decksByName: seq<(string, seq<int>)>) returns (notes: seq<Note>)
    ensures |noteIds| == 0 ==> notes == []
    ensures |noteIds| > 0 ==> |notes| == |notesInfo|
    ensures |noteIds| > 0 ==> exists deck, m ::
      && IsPrimaryDeck(DecksConsulted(cardIds, decksByName), deck, m)
      && (forall i :: 0 <= i < |notes| ==> notes[i] == NormalizeNote(notesInfo[i], deck))
  {
    if |noteIds| == 0 {
      return [];
    }
    var decks := DecksConsulted(cardIds, decksByName);
    var deck, m := PrimaryDeck(decks);
    notes := seq(|notesInfo|, i requires 0 <= i < |notesInfo| => NormalizeNote(notesInfo[i], deck));
  }

  /** With no cards found, every note gets the empty deck name. */
  lemma NoCardsNoDeck(cardIds: seq<int>, decksByName: seq<(string, seq<int>)>, deck: string, m: nat)
    requires |cardIds| == 0
    requires IsPrimaryDeck(DecksConsulted(cardIds, decksByName), deck, m)
    ensures deck == "" && m == 0
  {
  }
}
