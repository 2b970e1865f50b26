/**
 * The front end's API client for the add-on: the raw note and card records
 * the server returns are turned into the items the tables show, the browse
 * query is built from the note type and the search, `invoke` reads the
 * `{result, error}` envelope, and every implementation gets a query key made
 * of its name and its arguments.
 */
module Api {
  import opened Wrappers
  import opened JsText
  import Server

  /** A row of a table: a note, or a card with its note's data. */
  datatype Item =
    | NoteItem(noteId: int, modelName: string, fields: map<string, string>,
               tags: seq<string>, deckName: string)
    | CardItem(noteId: int, modelName: string, fields: map<string, string>,
               tags: seq<string>, deckName: string,
               cardId: int, flag: int, queue: int, due: int, interval: int)

  /** `toNote`: a raw note record becomes a note item. */
  function ToNote(raw: Server.NoteView): (item: Item)
    ensures item.NoteItem? && item.noteId == raw.id
  {
    NoteItem(raw.id, raw.modelName, raw.fields, raw.tags, raw.deckName)
  }

  /** `toCard`: a raw card record becomes a card item. */
  function ToCard(raw: Server.CardView): (item: Item)
    ensures item.CardItem? && item.cardId == raw.id && item.noteId == raw.noteId
  {
    CardItem(raw.noteId, raw.modelName, raw.fields, raw.tags, raw.deckName,
             raw.id, raw.flag, raw.queue, raw.due, raw.interval)
  }

  /** The raw note record a note item was made from. */
  function NoteRecordOf(item: Item): Server.NoteView
    requires item.NoteItem?
  {
    Server.NoteView(item.noteId, item.modelName, item.fields, item.tags, item.deckName)
  }

  /** The raw card record a card item was made from. */
  function CardRecordOf(item: Item): Server.CardView
    requires item.CardItem?
  {
    Server.CardView(item.cardId, item.noteId, item.deckName, item.modelName, item.fields,
                    item.tags, item.flag, item.queue, item.due, item.interval)
  }

  /** Nothing of a raw record is lost: the record can be read back from its
      item. */
  lemma ItemsKeepRecords(note: Server.NoteView, card: Server.CardView)
    ensures NoteRecordOf(ToNote(note)) == note
    ensures CardRecordOf(ToCard(card)) == card
  {
  }

  /** `input.search || ""`: an absent or empty search adds nothing. */
  function SearchText(search: Option<string>): string {
    match search
    case Some(s) => s
    case None => ""
  }

  /** The browse query: the note-type filter, a space, then the search; the
      space is there even when the search is absent or empty. */
  function FetchQuery(modelName: string, search: Option<string>): (query: string)
    ensures StartsWith(query, "note:\"" + modelName + "\" ")
    ensures query[|modelName| + 8..] == SearchText(search)
  {
    var prefix := "note:\"" + modelName + "\" ";
    assert |prefix| == |modelName| + 8;
    assert (prefix + SearchText(search))[..|prefix|] == prefix;
    prefix + SearchText(search)
  }

  /** The action `fetchItems` calls for a view: `browseNotes` for "notes",
      `browseCards` for anything else. */
  function BrowseAction(viewMode: string): string {
    if viewMode == "notes" then "browseNotes" else "browseCards"
  }

  /** The server's answer fits the action asked for. */
  predicate AnswerFits(viewMode: string, raw: Server.ActionResult) {
    if viewMode == "notes" then raw.Notes? else raw.Cards?
  }

  /** `fetchItems`' result: each raw record mapped, in order, to a note item
      in the notes view and to a card item otherwise. */
  function FetchItems(viewMode: string, raw: Server.ActionResult): (items: seq<Item>)
    requires AnswerFits(viewMode, raw)
    ensures viewMode == "notes" ==>
      |items| == |raw.notes| && forall i :: 0 <= i < |items| ==> items[i] == ToNote(raw.notes[i])
    ensures viewMode != "notes" ==>
      |items| == |raw.cards| && forall i :: 0 <= i < |items| ==> items[i] == ToCard(raw.cards[i])
  {
    if viewMode == "notes" then seq(|raw.notes|, i requires 0 <= i < |raw.notes| => ToNote(raw.notes[i]))
    else seq(|raw.cards|, i requires 0 <= i < |raw.cards| => ToCard(raw.cards[i]))
  }

  /** Every item of the notes view is a note item whose record is the raw
      record at the same position; likewise for cards. */
  lemma FetchItemsRecords(viewMode: string, raw: Server.ActionResult)
    requires AnswerFits(viewMode, raw)
    ensures viewMode == "notes" ==> forall i :: 0 <= i < |FetchItems(viewMode, raw)| ==>
      FetchItems(viewMode, raw)[i].NoteItem? && NoteRecordOf(FetchItems(viewMode, raw)[i]) == raw.notes[i]
    ensures viewMode != "notes" ==> forall i :: 0 <= i < |FetchItems(viewMode, raw)| ==>
      FetchItems(viewMode, raw)[i].CardItem? && CardRecordOf(FetchItems(viewMode, raw)[i]) == raw.cards[i]
  {
  }

  /** `invoke`: a truthy `error` (present and not empty) is thrown; any other
      envelope gives its `result`, which is absent (`null`) when the server
      sent none. */
  function Invoke(env: Server.Envelope): (r: Result<Option<Server.ActionResult>, string>)
    ensures r.Failure? <==> env.error.Some? && env.error.value != ""
    ensures r.Failure? ==> r.error == env.error.value
    ensures r.Success? ==> r.value == env.result
  {
    match env.error
    case Some(e) => if e != "" then Failure(e) else Success(env.result)
    case None => Success(env.result)
  }

  /** Read through `invoke`, an action that succeeded gives its value, and
      one that raised gives its message, unless the message is empty: then
      the client sees a success without a result. */
  lemma InvokeReadsEnvelope(outcome: Result<Server.ActionResult, Server.Error>)
    ensures outcome.Success? ==> Invoke(Server.EnvelopeOf(outcome)) == Success(Some(outcome.value))
    ensures outcome.Failure? && Server.Message(outcome.error) != "" ==>
      Invoke(Server.EnvelopeOf(outcome)) == Failure(Server.Message(outcome.error))
    ensures outcome.Failure? && Server.Message(outcome.error) == "" ==>
      Invoke(Server.EnvelopeOf(outcome)) == Success(None)
  {
  }

  // ---------------------------------------------------------------------
  // Query helpers

  /** A derived helper: it remembers the name it was derived under. */
  datatype QueryHelper = QueryHelper(name: string)

  /** `queryOptions(...args).queryKey`: the helper's name followed by the
      arguments. */
  function QueryKey(h: QueryHelper, args: seq<string>): (key: seq<string>)
    ensures |key| == |args| + 1 && key[0] == h.name && key[1..] == args
  {
    [h.name] + args
  }

  /** `deriveQueryHelpers`: one helper per implementation name, each
      remembering its own name. */
  method DeriveQueryHelpers(names: seq<string>) returns (helpers: map<string, QueryHelper>)
    ensures helpers.Keys == set n | n in names
    ensures forall n :: n in helpers ==> helpers[n].name == n
  {
    helpers := map[];
    var i := 0;
    while i < |names|
      invariant 0 <= i <= |names|
      invariant helpers.Keys == set n | n in names[..i]
      invariant forall n :: n in helpers ==> helpers[n].name == n
    {
      helpers := helpers[names[i] := QueryHelper(names[i])];
      assert names[..i + 1] == names[..i] + [names[i]];
      i := i + 1;
    }
    assert names[..i] == names;
  }

  /** Helpers of different implementations never share a query key,
      whatever their arguments. */
  lemma QueryKeysDistinct(helpers: map<string, QueryHelper>, a: string, b: string, x: seq<string>, y: seq<string>)
    requires a in helpers && b in helpers && a != b
    requires forall n :: n in helpers ==> helpers[n].name == n
    ensures QueryKey(helpers[a], x) != QueryKey(helpers[b], y)
  {
    assert QueryKey(helpers[a], x)[0] == a;
    assert QueryKey(helpers[b], y)[0] == b;
  }
}
