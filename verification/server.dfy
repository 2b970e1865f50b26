/**
 * The add-on's HTTP back end: the action dispatcher `handle_action` over an
 * abstract Anki collection, the `{result, error}` envelope built around it,
 * the `/api` routing of POST requests and the started/stopped state of
 * `BrowseServer`.
 *
 * Anki's collection is modelled as a class whose fields are the parts the
 * dispatcher reads and writes: the note types (models) with their ordered
 * field names, the notes with their ordered field values and tags, and the
 * cards. Anki's search (`find_notes`/`find_cards`) and deck naming are
 * uninterpreted functions.
 */
module Server {
  import opened Wrappers
  import opened JsText
  import opened Dicts

  /** A note type: its name and its field names in field order. */
  datatype NoteType = NoteType(name: string, fieldNames: seq<string>)

  /** A note: index of its note type, field values in field order, tags and
      the ids of its cards in Anki's order. */
  datatype Note = Note(model: nat, fields: seq<string>, tags: seq<string>, cards: seq<int>)

  /** A card: owning note, deck id, user flag, queue, due and interval. */
  datatype Card = Card(nid: int, deck: int, flag: int, queue: int, due: int, ivl: int)

  /** The JSON object `browseNotes` returns for one note. */
  datatype NoteView = NoteView(
    id: int, modelName: string, fields: map<string, string>, tags: seq<string>, deckName: string)

  /** The JSON object `browseCards` returns for one card. */
  datatype CardView = CardView(
    id: int, noteId: int, deckName: string, modelName: string, fields: map<string, string>,
    tags: seq<string>, flag: int, queue: int, due: int, interval: int)

  /** What a successful action returns. */
  datatype ActionResult =
    | Models(models: map<string, seq<string>>)
    | Notes(notes: seq<NoteView>)
    | Cards(cards: seq<CardView>)
    | Done  // Python's `True`

  /** The exceptions an action can raise. */
  datatype Error =
    | KeyError(key: string)                 // a required entry of `params` is missing
    | NoteNotFound(nid: int)                // `col.get_note` on an unknown id
    | UnknownAction(action: Option<string>) // `ValueError` from the final `raise`
    | NotSubscriptable                      // `TypeError` from indexing `None` params
    | Raised(text: string)                  // any other exception, by its text

  /** `str(e)` for each exception. */
  function Message(e: Error): string {
    match e
    case KeyError(key) => "'" + key + "'"
    case NoteNotFound(_) => "Note not found"
    case UnknownAction(None) => "Unknown action: None"
    case UnknownAction(Some(a)) => "Unknown action: " + a
    case NotSubscriptable => "'NoneType' object is not subscriptable"
    case Raised(text) => text
  }

  /** The error text of an unknown action ends with the action's name, so the
      client sees which name was refused. */
  lemma UnknownActionNamed(a: string)
    ensures var m := Message(UnknownAction(Some(a)));
      |m| >= |a| && m[|m| - |a|..] == a && StartsWith(m, "Unknown action: ")
  {
    var m := Message(UnknownAction(Some(a)));
    assert m[|m| - |a|..] == a;
    assert m[..|"Unknown action: "|] == "Unknown action: ";
  }

  /** The request parameters the actions read; `None` is a missing key. */
  datatype Params = Params(
    query: Option<string>, cardId: Option<int>, flag: Option<int>,
    noteId: Option<int>, fields: Option<seq<(string, string)>>)

  /** `{}`: the parameters used when the request has none. */
  const NoParams := Params(None, None, None, None, None)

  /** The `params` entry of a request body: left out, JSON `null`, or an
      object. */
  datatype ParamsEntry = Absent | Null | Given(p: Params)

  /** A decoded request body. */
  datatype Request = Request(action: Option<string>, params: ParamsEntry)

  /** `request.get("params", {})`: a missing entry reads as `{}`, while an
      explicit `null` stays Python's `None`. */
  function ParamsOf(request: Request): Option<Params> {
    match request.params
    case Absent => Some(NoParams)
    case Null => None
    case Given(p) => Some(p)
  }

  /** The JSON object every `/api` call answers with. */
  datatype Envelope = Envelope(result: Option<ActionResult>, error: Option<string>)

  /** A response to a POST request. */
  datatype Response = Json(body: Envelope) | HttpError(status: int)

  // ---------------------------------------------------------------------
  // The dicts of the results

  /** The `getModels` result: every note type's name mapped to its field
      names. */
  function ModelsMap(models: seq<NoteType>): map<string, seq<string>> {
    MapOfPairs(seq(|models|, i requires 0 <= i < |models| => (models[i].name, models[i].fieldNames)))
  }

  /** `getModels` has one key per note-type name, and each name maps to the
      field names, in field order, of the (last) note type with that name. */
  lemma ModelsMapEntries(models: seq<NoteType>)
    ensures forall k :: k in ModelsMap(models) <==> exists i :: 0 <= i < |models| && models[i].name == k
    ensures forall i :: 0 <= i < |models| && (forall j :: i < j < |models| ==> models[j].name != models[i].name) ==>
      ModelsMap(models)[models[i].name] == models[i].fieldNames
  {
    var ps := seq(|models|, i requires 0 <= i < |models| => (models[i].name, models[i].fieldNames));
    forall k ensures k in ModelsMap(models) <==> exists i :: 0 <= i < |models| && models[i].name == k {
      if k in ModelsMap(models) {
        var i :| 0 <= i < |ps| && ps[i].0 == k;
        assert models[i].name == k;
      }
      if exists i :: 0 <= i < |models| && models[i].name == k {
        var i :| 0 <= i < |models| && models[i].name == k;
        assert ps[i].0 == k;
      }
    }
    forall i | 0 <= i < |models| && (forall j :: i < j < |models| ==> models[j].name != models[i].name)
      ensures ModelsMap(models)[models[i].name] == models[i].fieldNames
    {
      assert forall j :: i < j < |ps| ==> ps[j].0 == models[j].name;
      MapOfPairsLastWins(ps, i);
    }
  }

  // ---------------------------------------------------------------------
  // The updateNoteFields rule

  /** `field_names.index(name)`: the first position of `name`. */
  function FirstIndex(names: seq<string>, name: string): (i: nat)
    requires name in names
    ensures i < |names| && names[i] == name && name !in names[..i]
  {
    if names[0] == name then 0
    else
      var i := 1 + FirstIndex(names[1..], name);
      assert names[..i] == [names[0]] + names[1..][..i - 1];
      i
  }

  /** One pass of the loop body: a known name overwrites the value at its
      first position; an unknown name changes nothing. */
  function ApplyFieldUpdate(names: seq<string>, fields: seq<string>, name: string, value: string): (r: seq<string>)
    requires |fields| == |names|
    ensures |r| == |fields|
  {
    if name in names then fields[FirstIndex(names, name) := value] else fields
  }

  /** The note's fields after the loop has run over `updates` in order. */
  function ApplyFieldUpdates(names: seq<string>, fields: seq<string>, updates: seq<(string, string)>): (r: seq<string>)
    requires |fields| == |names|
    ensures |r| == |fields|
  {
    if |updates| == 0 then fields
    else
      var last := updates[|updates| - 1];
      ApplyFieldUpdate(names, ApplyFieldUpdates(names, fields, updates[..|updates| - 1]), last.0, last.1)
  }

  /** The value the last update for `name` supplies, if any. */
  function LastValue(name: string, updates: seq<(string, string)>): (v: Option<string>)
    ensures v.None? <==> forall j :: 0 <= j < |updates| ==> updates[j].0 != name
  {
    if |updates| == 0 then None
    else if updates[|updates| - 1].0 == name then Some(updates[|updates| - 1].1)
    else
      var init := updates[..|updates| - 1];
      assert forall j :: 0 <= j < |init| ==> init[j] == updates[j];
      LastValue(name, init)
  }

  /** The updateNoteFields rule, position by position: the field at the first
      position of its name takes the last value supplied for that name; every
      other position (a repeated name, or a name nobody supplied) keeps its
      value. Names that are not field names therefore have no effect, and the
      length and order of the fields never change. */
  lemma {:induction false} ApplyFieldUpdatesAt(names: seq<string>, fields: seq<string>, updates: seq<(string, string)>, k: int)
    requires |fields| == |names| && 0 <= k < |names|
    ensures ApplyFieldUpdates(names, fields, updates)[k] ==
      if names[k] !in names[..k] && LastValue(names[k], updates).Some?
      then LastValue(names[k], updates).value
      else fields[k]
  {
    if |updates| > 0 {
      var init := updates[..|updates| - 1];
      var last := updates[|updates| - 1];
      ApplyFieldUpdatesAt(names, fields, init, k);
      if last.0 in names {
        var idx := FirstIndex(names, last.0);
        if idx < k && names[k] == last.0 {
          assert names[k] == names[..k][idx];
        }
      }
    }
  }

  /** With distinct field names, each field holds the last value supplied
      under its name, or its old value when none was supplied. */
  lemma ApplyFieldUpdatesDistinct(names: seq<string>, fields: seq<string>, updates: seq<(string, string)>)
    requires |fields| == |names|
    requires forall i, j :: 0 <= i < j < |names| ==> names[i] != names[j]
    ensures forall k :: 0 <= k < |names| ==>
      ApplyFieldUpdates(names, fields, updates)[k] == LastValue(names[k], updates).GetOr(fields[k])
  {
    forall k | 0 <= k < |names|
      ensures ApplyFieldUpdates(names, fields, updates)[k] == LastValue(names[k], updates).GetOr(fields[k])
    {
      ApplyFieldUpdatesAt(names, fields, updates, k);
      assert names[k] !in names[..k] by {
        forall i | 0 <= i < k ensures names[..k][i] != names[k] { }
      }
    }
  }

  /** Only the updates whose name is a field name. */
  function KnownUpdates(names: seq<string>, updates: seq<(string, string)>): (r: seq<(string, string)>)
    ensures forall j :: 0 <= j < |r| ==> r[j].0 in names
  {
    if |updates| == 0 then []
    else
      var last := updates[|updates| - 1];
      KnownUpdates(names, updates[..|updates| - 1]) + (if last.0 in names then [last] else [])
  }

  /** Dropping every update whose name is not a field name leaves the result
      unchanged: unknown names are ignored. */
  lemma {:induction false} UnknownNamesIgnored(names: seq<string>, fields: seq<string>, updates: seq<(string, string)>)
    requires |fields| == |names|
    ensures ApplyFieldUpdates(names, fields, updates) == ApplyFieldUpdates(names, fields, KnownUpdates(names, updates))
  {
    if |updates| > 0 {
      var init := updates[..|updates| - 1];
      var last := updates[|updates| - 1];
      UnknownNamesIgnored(names, fields, init);
      var known := KnownUpdates(names, init);
      if last.0 in names {
        assert KnownUpdates(names, updates) == known + [last];
        assert (known + [last])[..|known|] == known;
      } else {
        assert KnownUpdates(names, updates) == known;
      }
    }
  }

  /** When no supplied name is a field name, the fields are untouched. */
  lemma NoKnownNameNoChange(names: seq<string>, fields: seq<string>, updates: seq<(string, string)>)
    requires |fields| == |names|
    requires forall j :: 0 <= j < |updates| ==> updates[j].0 !in names
    ensures ApplyFieldUpdates(names, fields, updates) == fields
  {
    forall k | 0 <= k < |names| ensures ApplyFieldUpdates(names, fields, updates)[k] == fields[k] {
      ApplyFieldUpdatesAt(names, fields, updates, k);
    }
  }

  // ---------------------------------------------------------------------
  // The collection

  /** What the actions may change in a collection, as one value. */
  datatype ColState = ColState(models: seq<NoteType>, notes: map<int, Note>, cards: map<int, Card>)

  /** The part of an Anki collection the dispatcher uses. */
  class Collection {
    var models: seq<NoteType>
    var notes: map<int, Note>
    var cards: map<int, Card>
    /** `col.find_notes(query)` / `col.find_cards(query)`: ids in search order. */
    const findNotes: string -> seq<int>
    const findCards: string -> seq<int>
    /** `col.decks.name(did)`. */
    const deckName: int -> string

    /** Anki's referential integrity: every note has a note type and as many
        field values as it has field names, every card of a note exists and
        belongs to a note, and searches only return existing ids. */
    ghost predicate Valid()
      reads this
    {
      && (forall nid :: nid in notes ==>
            notes[nid].model < |models| && |notes[nid].fields| == |models[notes[nid].model].fieldNames|)
      && (forall nid, i :: nid in notes && 0 <= i < |notes[nid].cards| ==> notes[nid].cards[i] in cards)
      && (forall cid :: cid in cards ==> cards[cid].nid in notes)
      && (forall q, i :: 0 <= i < |findNotes(q)| ==> findNotes(q)[i] in notes)
      && (forall q, i :: 0 <= i < |findCards(q)| ==> findCards(q)[i] in cards)
    }

    constructor (models: seq<NoteType>, notes: map<int, Note>, cards: map<int, Card>,
                 findNotes: string -> seq<int>, findCards: string -> seq<int>, deckName: int -> string)
      ensures this.models == models && this.notes == notes && this.cards == cards
      ensures this.findNotes == findNotes && this.findCards == findCards && this.deckName == deckName
    {
      this.models := models;
      this.notes := notes;
      this.cards := cards;
      this.findNotes := findNotes;
      this.findCards := findCards;
      this.deckName := deckName;
    }

    function State(): ColState
      reads this
    {
      ColState(models, notes, cards)
    }

    /** The field names of a note's type. */
    function FieldNamesOf(nid: int): (names: seq<string>)
      reads this
      requires Valid() && nid in notes
      ensures |names| == |notes[nid].fields|
    {
      models[notes[nid].model].fieldNames
    }

    /** The `browseNotes` entry for a note. */
    function NoteViewOf(nid: int): NoteView
      reads this
      requires Valid() && nid in notes
    {
      var note := notes[nid];
      NoteView(nid, models[note.model].name, ZipMap(FieldNamesOf(nid), note.fields), note.tags,
               if |note.cards| == 0 then "" else deckName(cards[note.cards[0]].deck))
    }

    /** A note's entry names the note and its type, pairs each field name
        with the value at its position, carries the note's tags, and names
        the deck of the note's first card ("" for a note without cards). */
    lemma NoteViewFields(nid: int)
      requires Valid() && nid in notes
      ensures var v := NoteViewOf(nid); var names := FieldNamesOf(nid);
        && v.id == nid
        && v.modelName == models[notes[nid].model].name && v.tags == notes[nid].tags
        && (forall k :: k in v.fields <==> k in names)
        && (forall i :: 0 <= i < |names| && names[i] !in names[i + 1..] ==> v.fields[names[i]] == notes[nid].fields[i])
        && (|notes[nid].cards| == 0 ==> v.deckName == "")
        && (|notes[nid].cards| > 0 ==> v.deckName == deckName(cards[notes[nid].cards[0]].deck))
    {
      ZipMapPairs(FieldNamesOf(nid), notes[nid].fields);
    }

    /** The `browseCards` entry for a card. */
    function CardViewOf(cid: int): CardView
      reads this
      requires Valid() && cid in cards
    {
      var card := cards[cid];
      var note := notes[card.nid];
      CardView(cid, card.nid, deckName(card.deck), models[note.model].name,
               ZipMap(FieldNamesOf(card.nid), note.fields), note.tags,
               card.flag, card.queue, card.due, card.ivl)
    }

    /** A card's entry carries the card's own note id, deck name and
        scheduling values unchanged, and its note's type name, tags and
        fields paired with their names. */
    lemma CardViewFields(cid: int)
      requires Valid() && cid in cards
      ensures var v := CardViewOf(cid); var card := cards[cid]; var names := FieldNamesOf(card.nid);
        && v.id == cid && v.noteId == card.nid && v.deckName == deckName(card.deck)
        && v.modelName == models[notes[card.nid].model].name && v.tags == notes[card.nid].tags
        && v.flag == card.flag && v.queue == card.queue && v.due == card.due && v.interval == card.ivl
        && (forall k :: k in v.fields <==> k in names)
        && (forall i :: 0 <= i < |names| && names[i] !in names[i + 1..] ==> v.fields[names[i]] == notes[card.nid].fields[i])
    {
      ZipMapPairs(FieldNamesOf(cards[cid].nid), notes[cards[cid].nid].fields);
    }

    /** `col.set_user_flag_for_cards(flag, cids)`: the listed cards that exist
        take the flag; nothing else changes. */
    method SetUserFlagForCards(flag: int, cids: seq<int>)
      requires Valid()
      modifies this
      ensures Valid()
      ensures models == old(models) && notes == old(notes) && cards.Keys == old(cards).Keys
      ensures forall cid :: cid in cards ==>
        cards[cid] == if cid in cids then old(cards)[cid].(flag := flag) else old(cards)[cid]
    {
      var i := 0;
      while i < |cids|
        invariant 0 <= i <= |cids|
        invariant Valid()
        invariant models == old(models) && notes == old(notes) && cards.Keys == old(cards).Keys
        invariant forall cid :: cid in cards ==>
          cards[cid] == if cid in cids[..i] then old(cards)[cid].(flag := flag) else old(cards)[cid]
      {
        var cid := cids[i];
        if cid in cards {
          cards := cards[cid := cards[cid].(flag := flag)];
        }
        assert cids[..i + 1] == cids[..i] + [cid];
        i := i + 1;
      }
      assert cids[..i] == cids;
    }

    /** `col.update_note(note)` for a note whose type, length and cards are
        unchanged. */
    method UpdateNote(nid: int, note: Note)
      requires Valid() && nid in notes
      requires note.model == notes[nid].model && |note.fields| == |notes[nid].fields|
      requires note.cards == notes[nid].cards
      modifies this
      ensures Valid()
      ensures notes == old(notes)[nid := note] && cards == old(cards) && models == old(models)
    {
      notes := notes[nid := note];
    }
  }

  // ---------------------------------------------------------------------
  // The actions

  /** `browseNotes`: one entry per id the search returns, in search order. */
  method BrowseNotes(col: Collection, query: string) returns (views: seq<NoteView>)
    requires col.Valid()
    ensures |views| == |col.findNotes(query)|
    ensures forall i :: 0 <= i < |views| ==> views[i] == col.NoteViewOf(col.findNotes(query)[i])
  {
    var ids := col.findNotes(query);
    views := [];
    for i := 0 to |ids|
      invariant |views| == i
      invariant forall j :: 0 <= j < i ==> views[j] == col.NoteViewOf(ids[j])
    {
      views := views + [col.NoteViewOf(ids[i])];
    }
  }

  /** `browseCards`: one entry per id the search returns, in search order. */
  method BrowseCards(col: Collection, query: string) returns (views: seq<CardView>)
    requires col.Valid()
    ensures |views| == |col.findCards(query)|
    ensures forall i :: 0 <= i < |views| ==> views[i] == col.CardViewOf(col.findCards(query)[i])
  {
    var ids := col.findCards(query);
    views := [];
    for i := 0 to |ids|
      invariant |views| == i
      invariant forall j :: 0 <= j < i ==> views[j] == col.CardViewOf(ids[j])
    {
      views := views + [col.CardViewOf(ids[i])];
    }
  }

  /** `updateNoteFields` for one note: the loop writes the supplied values
      into the note's fields, then the note is saved. */
  method UpdateNoteFields(col: Collection, nid: int, updates: seq<(string, string)>) returns (r: Result<ActionResult, Error>)
    requires col.Valid()
    modifies col
    ensures col.Valid()
    ensures col.models == old(col.models) && col.cards == old(col.cards)
    ensures nid !in old(col.notes) ==> r == Failure(NoteNotFound(nid)) && col.notes == old(col.notes)
    ensures nid in old(col.notes) ==>
      && r == Success(Done)
      && col.notes == old(col.notes)[nid := old(col.notes)[nid].(fields :=
           ApplyFieldUpdates(old(col.FieldNamesOf(nid)), old(col.notes)[nid].fields, updates))]
  {
    if nid !in col.notes {
      return Failure(NoteNotFound(nid));
    }
    var note := col.notes[nid];
    var names := col.FieldNamesOf(nid);
    var fields := note.fields;
    var i := 0;
    while i < |updates|
      invariant 0 <= i <= |updates|
      invariant fields == ApplyFieldUpdates(names, note.fields, updates[..i])
    {
      var (name, value) := updates[i];
      if name in names {
        var idx := FirstIndex(names, name);
        fields := fields[idx := value];
      }
      assert updates[..i + 1][..i] == updates[..i];
      i := i + 1;
    }
    assert updates[..i] == updates;
    col.UpdateNote(nid, note.(fields := fields));
    r := Success(Done);
  }

  /** The action names the dispatcher knows. */
  predicate IsKnownAction(action: Option<string>) {
    action.Some? && action.value in {"getModels", "browseNotes", "browseCards", "setCardFlag", "updateNoteFields"}
  }

  /** `browseNotes` and `browseCards` with the given `query` entry: a
      missing query is the key's error, otherwise one view per id the search
      returns, in search order. */
  ghost predicate BrowseSpec(col: Collection, cardsView: bool, query: Option<string>, r: Result<ActionResult, Error>)
    reads col
    requires col.Valid()
  {
    match query
    case None => r == Failure(KeyError("query"))
    case Some(q) =>
      if cardsView then
        var ids := col.findCards(q);
        && r.Success? && r.value.Cards? && |r.value.cards| == |ids|
        && (forall i :: 0 <= i < |ids| ==> r.value.cards[i] == col.CardViewOf(ids[i]))
      else
        var ids := col.findNotes(q);
        && r.Success? && r.value.Notes? && |r.value.notes| == |ids|
        && (forall i :: 0 <= i < |ids| ==> r.value.notes[i] == col.NoteViewOf(ids[i]))
  }

  /** `setCardFlag` from state `s0`: `cardId` and then `flag` are required;
      with both, exactly the card `cardId` takes the flag. */
  ghost predicate SetCardFlagSpec(col: Collection, s0: ColState, p: Params, r: Result<ActionResult, Error>)
    reads col
  {
    if p.cardId.None? then r == Failure(KeyError("cardId")) && col.State() == s0
    else if p.flag.None? then r == Failure(KeyError("flag")) && col.State() == s0
    else
      && r == Success(Done) && col.notes == s0.notes && col.cards.Keys == s0.cards.Keys
      && (forall cid :: cid in col.cards ==>
            col.cards[cid] == if cid == p.cardId.value then s0.cards[cid].(flag := p.flag.value) else s0.cards[cid])
  }

  /** `updateNoteFields` from state `s0`: `noteId` and then `fields` are
      required; an unknown note is an error; otherwise only that note's
      fields change, to the fold of the supplied updates over its type's
      field names. */
  ghost predicate UpdateNoteFieldsSpec(col: Collection, s0: ColState, p: Params, r: Result<ActionResult, Error>)
    reads col
    requires col.Valid()
  {
    if p.noteId.None? then r == Failure(KeyError("noteId")) && col.State() == s0
    else if p.fields.None? then r == Failure(KeyError("fields")) && col.State() == s0
    else
      var nid := p.noteId.value;
      && col.cards == s0.cards
      && if nid !in s0.notes then r == Failure(NoteNotFound(nid)) && col.notes == s0.notes
         else
           && r == Success(Done) && nid in col.notes
           && col.notes[nid].model == s0.notes[nid].model && |col.notes[nid].fields| == |s0.notes[nid].fields|
           && col.notes == s0.notes[nid := s0.notes[nid].(fields :=
                ApplyFieldUpdates(col.FieldNamesOf(nid), s0.notes[nid].fields, p.fields.value))]
  }

  /** What `handle_action(col, action, params)` does when the collection was
      in state `s0` and is now `col`, with outcome `r`. The collection stays
      consistent and keeps its note types; `getModels` and an unknown action
      read nothing from `params`; every other action first indexes `params`,
      which fails when it is `None`. */
  ghost predicate ActionSpec(col: Collection, s0: ColState, action: Option<string>, params: Option<Params>,
                             r: Result<ActionResult, Error>)
    reads col
  {
    && col.Valid()
    && col.models == s0.models
    && if !IsKnownAction(action) then r == Failure(UnknownAction(action)) && col.State() == s0
       else if action == Some("getModels") then r == Success(Models(ModelsMap(s0.models))) && col.State() == s0
       else if params.None? then r == Failure(NotSubscriptable) && col.State() == s0
       else if action == Some("browseNotes") then col.State() == s0 && BrowseSpec(col, false, params.value.query, r)
       else if action == Some("browseCards") then col.State() == s0 && BrowseSpec(col, true, params.value.query, r)
       else if action == Some("setCardFlag") then SetCardFlagSpec(col, s0, params.value, r)
       else UpdateNoteFieldsSpec(col, s0, params.value, r)
  }

  /** A known action whose parameters are all present succeeds, so its
      envelope carries a result and no error; for `updateNoteFields` the
      note must exist. */
  lemma CompleteRequestSucceeds(col: Collection, s0: ColState, action: Option<string>, p: Params,
                                r: Result<ActionResult, Error>)
    requires ActionSpec(col, s0, action, Some(p), r) && IsKnownAction(action)
    requires p.query.Some? && p.cardId.Some? && p.flag.Some? && p.noteId.Some? && p.fields.Some?
    requires p.noteId.value in s0.notes
    ensures r.Success? && EnvelopeOf(r).result == Some(r.value) && EnvelopeOf(r).error.None?
  {
  }

  /** `handle_action(col, action, params)`, where `params` is `None` when the
      request's `params` entry is `null`. */
  method HandleAction(col: Collection, action: Option<string>, params: Option<Params>) returns (r: Result<ActionResult, Error>)
    requires col.Valid()
    modifies col
    ensures col.Valid()
    ensures ActionSpec(col, old(col.State()), action, params, r)
  {
    if action == Some("getModels") {
      r := Success(Models(ModelsMap(col.models)));
    } else if !IsKnownAction(action) {
      r := Failure(UnknownAction(action));
    } else if params.None? {
      r := Failure(NotSubscriptable);
    } else if action == Some("browseNotes") {
      if params.value.query.None? {
        return Failure(KeyError("query"));
      }
      var views := BrowseNotes(col, params.value.query.value);
      r := Success(Notes(views));
    } else if action == Some("browseCards") {
      if params.value.query.None? {
        return Failure(KeyError("query"));
      }
      var views := BrowseCards(col, params.value.query.value);
      r := Success(Cards(views));
    } else if action == Some("setCardFlag") {
      var p := params.value;
      if p.cardId.None? {
        return Failure(KeyError("cardId"));
      }
      if p.flag.None? {
        return Failure(KeyError("flag"));
      }
      col.SetUserFlagForCards(p.flag.value, [p.cardId.value]);
      r := Success(Done);
    } else {
      var p := params.value;
      if p.noteId.None? {
        return Failure(KeyError("noteId"));
      }
      if p.fields.None? {
        return Failure(KeyError("fields"));
      }
      r := UpdateNoteFields(col, p.noteId.value, p.fields.value);
    }
  }

  /** The envelope for an action's outcome: the result on success, the
      exception's text on failure. */
  function EnvelopeOf(outcome: Result<ActionResult, Error>): (env: Envelope)
    ensures env.result.Some? != env.error.Some?
    ensures outcome.Success? ==> env.result == Some(outcome.value)
    ensures outcome.Failure? ==> env.error == Some(Message(outcome.error))
  {
    match outcome
    case Success(v) => Envelope(Some(v), None)
    case Failure(e) => Envelope(None, Some(Message(e)))
  }

  /** `_handle_api` on the synchronous path: fetch the collection (which may
      raise), run the action on the request's `action` and `params`, and
      report the outcome in the envelope. `outcome` is the action's outcome. */
  method HandleApi(getCol: Result<Collection, string>, request: Request)
    returns (env: Envelope, ghost outcome: Result<ActionResult, Error>)
    requires getCol.Success? ==> getCol.value.Valid()
    modifies if getCol.Success? then {getCol.value} else {}
    ensures getCol.Success? ==> getCol.value.Valid()
    ensures env.result.Some? != env.error.Some?
    ensures getCol.Failure? ==> env == Envelope(None, Some(getCol.error))
    ensures getCol.Success? ==>
      && env == EnvelopeOf(outcome)
      && ActionSpec(getCol.value, old(getCol.value.State()), request.action, ParamsOf(request), outcome)
  {
    match getCol
    case Failure(text) =>
      outcome := Failure(Raised(text));
      env := EnvelopeOf(Failure(Raised(text)));
    case Success(col) =>
      var r := HandleAction(col, request.action, ParamsOf(request));
      outcome := r;
      env := EnvelopeOf(r);
  }

  /** `do_POST`: only the path `/api` reaches the dispatcher and answers with
      the envelope of `_handle_api`; any other path is answered with 404 and
      touches nothing. */
  method DoPost(path: string, getCol: Result<Collection, string>, request: Request)
    returns (resp: Response, ghost outcome: Result<ActionResult, Error>)
    requires getCol.Success? ==> getCol.value.Valid()
    modifies if getCol.Success? then {getCol.value} else {}
    ensures getCol.Success? ==> getCol.value.Valid()
    ensures path == "/api" ==> resp.Json? && resp.body.result.Some? != resp.body.error.Some?
    ensures path == "/api" && getCol.Failure? ==> resp == Json(Envelope(None, Some(getCol.error)))
    ensures path == "/api" && getCol.Success? ==>
      && resp == Json(EnvelopeOf(outcome))
      && ActionSpec(getCol.value, old(getCol.value.State()), request.action, ParamsOf(request), outcome)
    ensures path != "/api" ==> resp == HttpError(404) && (getCol.Success? ==> unchanged(getCol.value))
  {
    if path == "/api" {
      var env;
      env, outcome := HandleApi(getCol, request);
      resp := Json(env);
    } else {
      resp := HttpError(404);
      outcome := Success(Done);
    }
  }

  // ---------------------------------------------------------------------
  // Server start/stop

  /** Where the running HTTP server listens. */
  datatype Binding = Binding(host: string, port: int)

  /** The host `start` binds when the caller names none: the loopback
      address. */
  const DefaultHost := "127.0.0.1"

  /** The `_server` slot after `start(port, host)` from slot `s`, and the
      exception `start` lets escape. Binding the socket may fail with
      `bindError`; then the slot stays empty. */
  function AfterStart(s: Option<Binding>, host: string, port: int, bindError: Option<string>): (Option<Binding>, Option<string>) {
    if s.Some? then (s, None)
    else if bindError.Some? then (None, bindError)
    else (Some(Binding(host, port)), None)
  }

  /** Starting a running server changes nothing and raises nothing. */
  lemma StartWhenRunning(b: Binding, host: string, port: int, bindError: Option<string>)
    ensures AfterStart(Some(b), host, port, bindError) == (Some(b), None)
  {
  }

  /** A second start after a successful one is a no-op. */
  lemma StartIdempotent(host: string, port: int, host2: string, port2: int, bindError: Option<string>)
    ensures var s1 := AfterStart(None, host, port, None).0;
      s1 == Some(Binding(host, port)) && AfterStart(s1, host2, port2, bindError).0 == s1
  {
  }

  /** `BrowseServer`: the collection accessor is supplied per request, so
      the server's own state is the `_server` slot. */
  class BrowseServer {
    var server: Option<Binding>

    constructor ()
      ensures server == None
    {
      server := None;
    }

    /** `start(port, host)`. */
    method Start(port: int, host: string, bindError: Option<string>) returns (raised: Option<string>)
      modifies this
      ensures (server, raised) == AfterStart(old(server), host, port, bindError)
    {
      if server.Some? {
        return None;
      }
      if bindError.Some? {
        return bindError;
      }
      server := Some(Binding(host, port));
      raised := None;
    }

    /** `start(port)`: the host defaults to the loopback address. */
    method StartDefault(port: int, bindError: Option<string>) returns (raised: Option<string>)
      modifies this
      ensures (server, raised) == AfterStart(old(server), DefaultHost, port, bindError)
      ensures old(server).None? && bindError.None? ==> server == Some(Binding("127.0.0.1", port))
    {
      raised := Start(port, DefaultHost, bindError);
    }

    /** `stop()`: afterwards the server is stopped, whether it ran or not. */
    method Stop()
      modifies this
      ensures server == None
    {
      if server.Some? {
        server := None;
      }
    }
  }
}
