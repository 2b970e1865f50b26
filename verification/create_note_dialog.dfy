/**
 * The dialog that creates one note: the initial note type and deck, which
 * fields get a text area, the note built from the submitted form (the
 * fields the note type names whose form value is text, and comma-separated
 * tags), and when the submit button is enabled.
 */
module CreateNoteDialog {
  import opened Wrappers
  import opened JsText
  import BulkImportDialog

  /** A form entry: text, or a file (`FormDataEntryValue`). */
  datatype FormValue = Text(text: string) | File

  /** The note handed to `addNote`. */
  datatype NewNote = NewNote(deckName: string, modelName: string, fields: map<string, string>, tags: seq<string>)

  /** `defaultModel ?? ""`. */
  function InitialModel(defaultModel: Option<string>): (model: string)
    ensures defaultModel.Some? ==> model == defaultModel.value
    ensures defaultModel.None? ==> model == ""
  {
    match defaultModel
    case Some(m) => m
    case None => ""
  }

  /** A field is typed in a text area when its lowered name contains
      "example" or "notes", and in a one-line input otherwise. */
  predicate UsesTextarea(fieldName: string) {
    Includes(ToLower(fieldName), "example") || Includes(ToLower(fieldName), "notes")
  }

  /** The test ignores letter case: a name holding "Example", "NOTES" or any
      other casing of the two words gets a text area. */
  lemma TextareaAnyCase(fieldName: string, word: string)
    requires ToLower(word) == "example" || ToLower(word) == "notes"
    requires Includes(fieldName, word)
    ensures UsesTextarea(fieldName)
  {
    IncludesLower(fieldName, word);
  }

  /** The field loop of `handleSubmit`: each field the note type names is
      taken from the form when its value there is text. */
  method ExtractFields(modelFields: seq<string>, form: map<string, FormValue>) returns (fields: map<string, string>)
    ensures forall k :: k in fields <==> k in modelFields && k in form && form[k].Text?
    ensures forall k :: k in fields ==> fields[k] == form[k].text
  {
    fields := map[];
    for i := 0 to |modelFields|
      invariant forall k :: k in fields <==> k in modelFields[..i] && k in form && form[k].Text?
      invariant forall k :: k in fields ==> k in form && form[k].Text? && fields[k] == form[k].text
    {
      var name := modelFields[i];
      if name in form && form[name].Text? {
        fields := fields[name := form[name].text];
      }
      assert modelFields[..i + 1] == modelFields[..i] + [name];
    }
    assert modelFields[..|modelFields|] == modelFields;
  }

  /** The tags of the `_tags` entry: split on commas when it is text, none
      when it is missing or a file. */
  function FormTags(tagsInput: Option<FormValue>): (tags: seq<string>)
    ensures tagsInput.None? || tagsInput.value.File? ==> tags == []
    ensures tagsInput.Some? && tagsInput.value.Text? ==> tags == BulkImportDialog.CommaTags(tagsInput.value.text)
  {
    match tagsInput
    case Some(Text(s)) => BulkImportDialog.CommaTags(s)
    case _ => []
  }

  /** Every submitted tag is non-empty, trimmed and comma-free, and tags of
      that kind typed with commas between them are submitted as they are. */
  lemma FormTagsRoundTrip(tagsInput: Option<FormValue>, tags: seq<string>)
    requires forall i :: 0 <= i < |tags| ==> tags[i] != "" && Trim(tags[i]) == tags[i] && ',' !in tags[i]
    ensures forall i :: 0 <= i < |FormTags(tagsInput)| ==>
      var t := FormTags(tagsInput)[i]; t != "" && Trim(t) == t && ',' !in t
    ensures FormTags(Some(Text(Join(tags, ',')))) == tags
  {
    if tagsInput.Some? && tagsInput.value.Text? {
      BulkImportDialog.CommaTagsWellFormed(tagsInput.value.text);
    }
    BulkImportDialog.CommaTagsRoundTrip(tags);
  }

  /** `handleSubmit`: the note of the chosen type and deck, with the typed
      fields and tags. A note type the schema does not list gives no field
      list, and the submit stops there (`None`). */
  method HandleSubmit(models: map<string, seq<string>>, model: string, deck: string, form: map<string, FormValue>)
    returns (note: Option<NewNote>)
    ensures note.None? <==> BulkImportDialog.ModelFields(models, model).None?
    ensures note.Some? ==> note.value.deckName == deck && note.value.modelName == model
    ensures note.Some? ==> note.value.tags == FormTags(if "_tags" in form then Some(form["_tags"]) else None)
    ensures note.Some? ==> forall k :: k in note.value.fields <==>
      k in BulkImportDialog.ModelFields(models, model).value && k in form && form[k].Text?
    ensures note.Some? ==> forall k :: k in note.value.fields ==> note.value.fields[k] == form[k].text
  {
    var modelFields := BulkImportDialog.ModelFields(models, model);
    if modelFields.None? {
      return None;
    }
    var fields := ExtractFields(modelFields.value, form);
    var tags := FormTags(if "_tags" in form then Some(form["_tags"]) else None);
    note := Some(NewNote(deck, model, fields, tags));
  }

  /** `isValid`: a note type and a deck are chosen. */
  predicate IsValid(model: string, deck: string) {
    model != "" && deck != ""
  }

  /** The submit button is enabled while the dialog is valid and no request
      is pending. */
  function SubmitEnabled(model: string, deck: string, pending: bool): (enabled: bool)
    ensures enabled <==> model != "" && deck != "" && !pending
  {
    IsValid(model, deck) && !pending
  }

  /** The dialog opened without defaults starts disabled: it has no note type
      until one is chosen. */
  lemma OpensDisabled(decks: seq<string>, pending: bool)
    ensures !SubmitEnabled(InitialModel(None), BulkImportDialog.InitialDeck(None, decks), pending)
  {
  }
}
