/**
 * The detail panel of one note or card: the field editor and the tag editor
 * (a small state machine over the field being edited, its draft value, the
 * tag-edit flag and the tag draft), the whitespace tag parser used when tags
 * are saved, and the suspend toggle.
 */
module NoteDetail {
  import opened Wrappers
  import opened JsText

  // ---------------------------------------------------------------------
  // Tags: `tagInput.split(/\s+/).map(trim).filter(nonEmpty)`

  /** The longest prefix of `s` without whitespace. */
  function WordPrefix(s: string): (p: string)
    ensures |p| <= |s| && p == s[..|p|] && NoWhitespace(p)
    ensures |p| < |s| ==> IsWhitespace(s[|p|])
  {
    if |s| == 0 || IsWhitespace(s[0]) then ""
    else
      var p := WordPrefix(s[1..]);
      assert ([s[0]] + p)[1..] == p;
      [s[0]] + p
  }

  /** `s.split(/\s+/)`: the pieces between maximal runs of whitespace,
      including an empty first piece when `s` starts with whitespace and an
      empty last piece when it ends with whitespace. */
  function SplitWhitespace(s: string): (parts: seq<string>)
    ensures |parts| >= 1
    ensures forall k :: 0 <= k < |parts| ==> NoWhitespace(parts[k])
    decreases |s|
  {
    var p := WordPrefix(s);
    if |p| == |s| then [p]
    else
      TrimStartShorter(s[|p|..]);
      var tail := SplitWhitespace(TrimStart(s[|p|..]));
      PiecesNoWhitespace(p, tail);
      [p] + tail
  }

  lemma PiecesNoWhitespace(p: string, tail: seq<string>)
    requires NoWhitespace(p)
    requires forall k :: 0 <= k < |tail| ==> NoWhitespace(tail[k])
    ensures forall k :: 0 <= k < |[p] + tail| ==> NoWhitespace(([p] + tail)[k])
  {
    forall k | 0 <= k < |[p] + tail|
      ensures NoWhitespace(([p] + tail)[k])
    {
      if k > 0 {
        assert ([p] + tail)[k] == tail[k - 1];
      }
    }
  }

  lemma TrimStartShorter(t: string)
    requires |t| > 0 && IsWhitespace(t[0])
    ensures |TrimStart(t)| < |t|
  {
  }

  /** The tags saved from the tag input. */
  function ParseTags(input: string): seq<string> {
    DropEmpty(TrimAll(SplitWhitespace(input)))
  }

  /** A tag as the editor shows and saves it: not empty, no whitespace. */
  predicate WellFormedTag(t: string) {
    t != "" && NoWhitespace(t)
  }

  lemma TrimNoWhitespace(s: string)
    requires NoWhitespace(s)
    ensures Trim(s) == s
  {
    TrimFixedPoints(s);
  }

  /** Trimming pieces that hold no whitespace changes none of them. */
  lemma TrimAllNoWhitespace(xs: seq<string>)
    requires forall k :: 0 <= k < |xs| ==> NoWhitespace(xs[k])
    ensures TrimAll(xs) == xs
  {
    forall k | 0 <= k < |xs| ensures TrimAll(xs)[k] == xs[k] {
      TrimNoWhitespace(xs[k]);
    }
  }

  /** Every saved tag is non-empty and holds no whitespace. */
  lemma ParsedTagsWellFormed(input: string)
    ensures forall k :: 0 <= k < |ParseTags(input)| ==> WellFormedTag(ParseTags(input)[k])
  {
    var pieces := SplitWhitespace(input);
    TrimAllNoWhitespace(pieces);
    var tags := DropEmpty(pieces);
    assert ParseTags(input) == tags;
    DropEmptyKept(pieces);
    forall k | 0 <= k < |tags| ensures WellFormedTag(tags[k]) {
      assert tags[k] in pieces;
    }
  }

  /** A well-formed word followed by whitespace (or by nothing) is the word
      prefix. */
  lemma {:induction false} WordPrefixOf(a: string, b: string)
    requires NoWhitespace(a) && (|b| == 0 || IsWhitespace(b[0]))
    ensures WordPrefix(a + b) == a
  {
    if |a| > 0 {
      assert (a + b)[1..] == a[1..] + b;
      WordPrefixOf(a[1..], b);
      assert a == [a[0]] + a[1..];
    } else {
      assert a + b == b;
    }
  }

  /** A word with no whitespace is one piece. */
  lemma SplitWord(a: string)
    requires NoWhitespace(a)
    ensures SplitWhitespace(a) == [a]
  {
    WordPrefixOf(a, "");
    assert a + "" == a;
  }

  /** A word, one space, and text that starts with a non-space: the word is
      the first piece and the text is split on. */
  lemma SplitWordSpace(a: string, rest: string)
    requires NoWhitespace(a) && |rest| > 0 && !IsWhitespace(rest[0])
    ensures SplitWhitespace(a + " " + rest) == [a] + SplitWhitespace(rest)
  {
    var s := a + " " + rest;
    assert s == a + (" " + rest);
    WordPrefixOf(a, " " + rest);
    assert s[|a|..] == " " + rest;
    TrimStartKeeps(rest);
    assert TrimStart(" " + rest) == TrimStart((" " + rest)[1..]);
    assert (" " + rest)[1..] == rest;
  }

  lemma JoinStartsWithFirst(tags: seq<string>)
    requires |tags| >= 1 && tags[0] != ""
    ensures |Join(tags, ' ')| > 0 && Join(tags, ' ')[0] == tags[0][0]
  {
  }

  /** Splitting well-formed tags joined by single spaces gives them back. */
  lemma {:induction false} SplitJoinedTags(tags: seq<string>)
    requires |tags| >= 1
    requires forall k :: 0 <= k < |tags| ==> WellFormedTag(tags[k])
    ensures SplitWhitespace(Join(tags, ' ')) == tags
  {
    if |tags| == 1 {
      SplitWord(tags[0]);
    } else {
      var rest := tags[1..];
      forall k | 0 <= k < |rest|
        ensures WellFormedTag(rest[k])
      {
        assert rest[k] == tags[k + 1];
      }
      SplitJoinedTags(rest);
      var tail := Join(rest, ' ');
      assert |tail| > 0 && !IsWhitespace(tail[0]) by {
        JoinStartsWithFirst(rest);
        assert NoWhitespace(rest[0]);
      }
      assert Join(tags, ' ') == tags[0] + " " + tail;
      SplitWordSpace(tags[0], tail);
      assert tags == [tags[0]] + rest;
    }
  }

  /** An empty input saves no tags. */
  lemma ParseTagsEmpty(input: string)
    requires input == ""
    ensures ParseTags(input) == []
  {
    SplitWord(input);
    TrimAllNoWhitespace([input]);
    assert TrimAll(SplitWhitespace(input)) == [""];
    assert DropEmpty([""]) == [];
  }

  /** When the input splits into well-formed tags, those are what is saved. */
  lemma ParseTagsOfPieces(input: string, pieces: seq<string>)
    requires SplitWhitespace(input) == pieces
    requires forall k :: 0 <= k < |pieces| ==> WellFormedTag(pieces[k])
    ensures ParseTags(input) == pieces
  {
    TrimAllNoWhitespace(pieces);
    DropEmptyKeeps(pieces);
  }

  /** Opening the tag editor and saving without typing returns the same tag
      list, for tags that are non-empty and hold no whitespace. */
  lemma TagsRoundTrip(tags: seq<string>)
    requires forall k :: 0 <= k < |tags| ==> WellFormedTag(tags[k])
    ensures ParseTags(Join(tags, ' ')) == tags
  {
    var s := Join(tags, ' ');
    if |tags| == 0 {
      assert s == "";
      ParseTagsEmpty(s);
    } else {
      SplitJoinedTags(tags);
      ParseTagsOfPieces(s, tags);
    }
  }

  // ---------------------------------------------------------------------
  // Status and suspend toggle

  /** The status is drawn as suspended (pause icon, warning colour) exactly
      for queue -1. */
  predicate ShownSuspended(queue: int) {
    queue == -1
  }

  /** The suspend button's request: `suspended = queue != -1`. */
  function SuspendRequest(queue: int): (suspend: bool)
    ensures suspend <==> !ShownSuspended(queue)
  {
    queue != -1
  }

  /** The suspend button's caption. */
  function SuspendButtonCaption(queue: int): (caption: string)
    ensures caption == "Unsuspend" <==> !SuspendRequest(queue)
    ensures caption == "Suspend" <==> SuspendRequest(queue)
  {
    if queue == -1 then "Unsuspend" else "Suspend"
  }

  // ---------------------------------------------------------------------
  // The editor state

  class NoteEditor {
    var editingField: Option<string>
    var editValue: string
    var editingTags: bool
    var tagInput: string

    constructor()
      ensures editingField == None && editValue == ""
      ensures !editingTags && tagInput == ""
    {
      editingField := None;
      editValue := "";
      editingTags := false;
      tagInput := "";
    }

    /** The pencil of `field`: that field becomes the one being edited
        (replacing any other), and the draft starts from its current value,
        or "" when the item has none. */
    method StartFieldEdit(field: string, itemFields: map<string, string>)
      modifies this
      ensures editingField == Some(field)
      ensures editValue == (if field in itemFields then itemFields[field] else "")
      ensures editingTags == old(editingTags) && tagInput == old(tagInput)
    {
      editingField := Some(field);
      editValue := if field in itemFields then itemFields[field] else "";
    }

    /** Typing in the field's text area. */
    method EditValue(value: string)
      modifies this
      ensures editValue == value
      ensures editingField == old(editingField)
      ensures editingTags == old(editingTags) && tagInput == old(tagInput)
    {
      editValue := value;
    }

    /** Save: the change emitted is the single entry from the edited field
        to the draft, and no field is in edit any more. */
    method SaveFieldEdit() returns (change: map<string, string>)
      requires editingField.Some?
      modifies this
      ensures change.Keys == {old(editingField).value}
      ensures change[old(editingField).value] == old(editValue)
      ensures editingField == None && editValue == old(editValue)
      ensures editingTags == old(editingTags) && tagInput == old(tagInput)
    {
      change := map[editingField.value := editValue];
      editingField := None;
    }

    /** Cancel: no field is in edit, nothing is emitted. */
    method CancelFieldEdit()
      modifies this
      ensures editingField == None && editValue == old(editValue)
      ensures editingTags == old(editingTags) && tagInput == old(tagInput)
    {
      editingField := None;
    }

    /** The tags pencil: the draft is the tags joined by single spaces. */
    method StartTagEdit(tags: seq<string>)
      modifies this
      ensures editingTags && tagInput == Join(tags, ' ')
      ensures editingField == old(editingField) && editValue == old(editValue)
    {
      editingTags := true;
      tagInput := Join(tags, ' ');
    }

    /** Typing in the tag input. */
    method EditTags(input: string)
      modifies this
      ensures tagInput == input
      ensures editingTags == old(editingTags)
      ensures editingField == old(editingField) && editValue == old(editValue)
    {
      tagInput := input;
    }

    /** Save: the tags emitted are the parsed draft, and tag edit ends. */
    method SaveTags() returns (tags: seq<string>)
      modifies this
      ensures tags == ParseTags(old(tagInput))
      ensures forall k :: 0 <= k < |tags| ==> WellFormedTag(tags[k])
      ensures !editingTags && tagInput == old(tagInput)
      ensures editingField == old(editingField) && editValue == old(editValue)
    {
      tags := ParseTags(tagInput);
      ParsedTagsWellFormed(tagInput);
      editingTags := false;
    }

    /** Cancel: tag edit ends, nothing is emitted. */
    method CancelTagEdit()
      modifies this
      ensures !editingTags && tagInput == old(tagInput)
      ensures editingField == old(editingField) && editValue == old(editValue)
    {
      editingTags := false;
    }
  }

  /** Opening the tag editor on well-formed tags and saving at once emits the
      same tags. */
  method EditTagsUnchanged(editor: NoteEditor, tags: seq<string>) returns (saved: seq<string>)
    requires forall k :: 0 <= k < |tags| ==> WellFormedTag(tags[k])
    modifies editor
    ensures saved == tags && !editor.editingTags
  {
    editor.StartTagEdit(tags);
    saved := editor.SaveTags();
    TagsRoundTrip(tags);
  }
}
