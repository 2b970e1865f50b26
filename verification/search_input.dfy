/**
 * The search box's autocomplete: the word being typed (after the last space)
 * is looked up in a fixed table of Anki search terms, the matches are listed
 * with one of them selected, and the arrow keys, Enter, Tab and Escape drive
 * the selection.
 */
module SearchInput {
  import opened JsText

  /** The `value` of every entry of the suggestion table, in table order
      (descriptions and categories are only displayed). */
  const Suggestions: seq<string> := TermSuggestions + FlagSuggestions + FieldSuggestions

  /** The state, property and date entries, which come first. */
  const TermSuggestions: seq<string> := [
    "is:new", "is:due", "is:review", "is:learn", "is:suspended", "is:buried",
    "is:buried-sibling", "is:buried-manually", "-is:suspended", "-is:buried",
    "prop:ivl>=30", "prop:ivl<=7", "prop:due=-1", "prop:due=0", "prop:due>0",
    "prop:reps>10", "prop:reps=0", "prop:lapses>0", "prop:lapses>=3",
    "prop:ease<2.5", "prop:ease>=2.5",
    "added:1", "added:7", "added:30", "edited:1", "edited:7", "rated:1",
    "rated:7", "rated:30", "introduced:1", "introduced:7"]

  /** The flag entries, in table order. */
  const FlagSuggestions: seq<string> := [
    "flag:1", "flag:2", "flag:3", "flag:4", "flag:5", "flag:6", "flag:7", "flag:0"]

  /** The card, deck, tag and note entries, which come last. */
  const FieldSuggestions: seq<string> := ["card:1", "card:2", "deck:", "tag:", "note:"]

  /** The word being typed: the text after the last space, lowercased. */
  function CurrentWord(value: string): (w: string)
    ensures w == ToLower(value[AfterLastSep(value, ' ')..])
  {
    ReplaceLastPiece(value, "", ' ');
    var words := Split(value, ' ');
    ToLower(words[|words| - 1])
  }

  /** The entries whose lowercased value starts with `word`, in table order. */
  function Matching(table: seq<string>, word: string): (r: seq<string>)
    ensures |r| <= |table|
    ensures forall v :: v in r <==> v in table && StartsWith(ToLower(v), word)
  {
    if |table| == 0 then []
    else
      (if StartsWith(ToLower(table[0]), word) then [table[0]] else [])
      + Matching(table[1..], word)
  }

  /** Filtering a concatenation filters each part and keeps them in order:
      the matches keep the table's order. */
  lemma {:induction false} MatchingAppend(a: seq<string>, b: seq<string>, word: string)
    ensures Matching(a + b, word) == Matching(a, word) + Matching(b, word)
  {
    if |a| > 0 {
      assert (a + b)[0] == a[0];
      assert (a + b)[1..] == a[1..] + b;
      MatchingAppend(a[1..], b, word);
    } else {
      assert a + b == b;
    }
  }

  /** The suggestion list the filter effect computes for `value`: none for an
      empty value or a current word shorter than two characters. */
  function Filtered(value: string): seq<string> {
    if value == "" then []
    else if |CurrentWord(value)| < 2 then []
    else Matching(Suggestions, CurrentWord(value))
  }

  /** What is listed is what the current word prefixes, and nothing is listed
      for a current word shorter than two characters. */
  lemma FilteredEntries(value: string)
    ensures |CurrentWord(value)| < 2 ==> Filtered(value) == []
    ensures |CurrentWord(value)| >= 2 ==>
      forall v :: v in Filtered(value) <==> v in Suggestions && StartsWith(ToLower(v), CurrentWord(value))
  {
    if value == "" {
      assert CurrentWord(value) == "";
    }
  }

  lemma {:induction false} AllMatchFl(table: seq<string>, word: string)
    requires word == "fl"
    requires forall i :: 0 <= i < |table| ==> |table[i]| >= 2 && table[i][..2] == "fl"
    ensures Matching(table, word) == table
  {
    if |table| > 0 {
      var v := table[0];
      assert ToLower(v)[..2] == "fl" by {
        assert ToLower(v)[0] == LowerChar(v[0]);
        assert ToLower(v)[1..][0] == LowerChar(v[1]);
      }
      AllMatchFl(table[1..], word);
    }
  }

  lemma {:induction false} NoneMatchesFl(table: seq<string>, word: string)
    requires word == "fl"
    requires forall i :: 0 <= i < |table| ==> |table[i]| >= 1 && table[i][0] != 'f' && table[i][0] != 'F'
    ensures Matching(table, word) == []
  {
    if |table| > 0 {
      assert ToLower(table[0])[0] == LowerChar(table[0][0]);
      NoneMatchesFl(table[1..], word);
    }
  }

  lemma TermsDoNotMatchFl(word: string)
    requires word == "fl"
    ensures Matching(TermSuggestions, word) == []
  {
    NoneMatchesFl(TermSuggestions, word);
  }

  lemma FlagsMatchFl(word: string)
    requires word == "fl"
    ensures Matching(FlagSuggestions, word) == FlagSuggestions
  {
    AllMatchFl(FlagSuggestions, word);
  }

  lemma FieldsDoNotMatchFl(word: string)
    requires word == "fl"
    ensures Matching(FieldSuggestions, word) == []
  {
    NoneMatchesFl(FieldSuggestions, word);
  }

  lemma CurrentWordFl(value: string)
    requires value == "fl"
    ensures CurrentWord(value) == value
  {
    assert AfterLastSep(value, ' ') == 0;
    assert ToLower(value) == value;
  }

  lemma SuggestionsMatchingFl(word: string)
    requires word == "fl"
    ensures Matching(Suggestions, word) == FlagSuggestions
  {
    TermsDoNotMatchFl(word);
    FlagsMatchFl(word);
    FieldsDoNotMatchFl(word);
    MatchingAppend(TermSuggestions + FlagSuggestions, FieldSuggestions, word);
    MatchingAppend(TermSuggestions, FlagSuggestions, word);
    assert Matching(Suggestions, word) == [] + FlagSuggestions + [];
  }

  /** Typing `fl` lists exactly the eight flag entries. */
  lemma FlListsFlags(value: string)
    requires value == "fl"
    ensures Filtered(value) == FlagSuggestions
  {
    CurrentWordFl(value);
    SuggestionsMatchingFl(value);
  }

  /** `applySuggestion`'s new value: the last space-separated word is replaced
      by the suggestion, everything up to and including the last space kept. */
  function ApplySuggestion(value: string, suggestion: string): (r: string)
    ensures r == value[..AfterLastSep(value, ' ')] + suggestion
  {
    ReplaceLastPiece(value, suggestion, ' ');
    var words := Split(value, ' ');
    Join(words[..|words| - 1] + [suggestion], ' ')
  }

  /** Read as words again, the new value has the earlier words unchanged and
      the suggestion as its last word. */
  lemma ApplySuggestionWords(value: string, suggestion: string)
    requires ' ' !in suggestion
    ensures var words := Split(value, ' ');
      Split(ApplySuggestion(value, suggestion), ' ') == words[..|words| - 1] + [suggestion]
  {
    var words := Split(value, ' ');
    var parts := words[..|words| - 1] + [suggestion];
    SplitPiecesHaveNoSep(value, ' ');
    assert forall k :: 0 <= k < |parts| ==> ' ' !in parts[k] by {
      forall k | 0 <= k < |parts| ensures ' ' !in parts[k] {
        if k < |words| - 1 {
          assert parts[k] == words[k];
        }
      }
    }
    SplitJoin(parts, ' ');
  }

  /** What a key press asks of the parent: submit the search, take a new
      value, or nothing. */
  datatype KeyOutcome = Submit | Change(newValue: string) | NoOutcome

  /** The state of the suggestion list. */
  class SearchBox {
    var showSuggestions: bool
    var selectedIndex: int
    var filtered: seq<string>

    /** The selection is never negative, and while the list is shown it
        points at one of its entries. */
    ghost predicate Valid()
      reads this
    {
      0 <= selectedIndex && (showSuggestions ==> selectedIndex < |filtered|)
    }

    constructor()
      ensures Valid()
      ensures !showSuggestions && selectedIndex == 0 && filtered == []
    {
      showSuggestions := false;
      selectedIndex := 0;
      filtered := [];
    }

    /** The filter effect, run whenever the value changes: an empty value or
        a short current word clears and hides the list (the selection is left
        as it was); otherwise the matches are listed, shown when there are
        any, and the first is selected. */
    method OnValueChanged(value: string)
      requires Valid()
      modifies this
      ensures Valid()
      ensures filtered == Filtered(value)
      ensures showSuggestions <==> |filtered| > 0
      ensures |filtered| > 0 ==> selectedIndex == 0
      ensures value == "" || |CurrentWord(value)| < 2 ==> selectedIndex == old(selectedIndex)
    {
      if value == "" {
        filtered := [];
        showSuggestions := false;
        return;
      }
      var word := CurrentWord(value);
      if |word| < 2 {
        filtered := [];
        showSuggestions := false;
        return;
      }
      var matches := Matching(Suggestions, word);
      filtered := matches;
      showSuggestions := |matches| > 0;
      selectedIndex := 0;
    }

    /** `handleKeyDown` for the key named `key` while the box holds `value`. */
    method HandleKeyDown(key: string, value: string) returns (outcome: KeyOutcome)
      requires Valid()
      modifies this
      ensures Valid()
      ensures filtered == old(filtered)
      // hidden or empty list: Enter submits, nothing else happens
      ensures !old(showSuggestions) || |old(filtered)| == 0 ==>
        && outcome == (if key == "Enter" then Submit else NoOutcome)
        && showSuggestions == old(showSuggestions)
        && selectedIndex == old(selectedIndex)
      // shown list
      ensures old(showSuggestions) && |old(filtered)| > 0 ==>
        && outcome != Submit
        && (key == "ArrowDown" ==>
              && selectedIndex == (if old(selectedIndex) < |filtered| - 1 then old(selectedIndex) + 1 else old(selectedIndex))
              && showSuggestions && outcome == NoOutcome)
        && (key == "ArrowUp" ==>
              && selectedIndex == (if old(selectedIndex) > 0 then old(selectedIndex) - 1 else old(selectedIndex))
              && showSuggestions && outcome == NoOutcome)
        && (key == "Enter" || key == "Tab" ==>
              && outcome == Change(ApplySuggestion(value, old(filtered)[old(selectedIndex)]))
              && !showSuggestions && selectedIndex == old(selectedIndex))
        && (key == "Escape" ==>
              !showSuggestions && selectedIndex == old(selectedIndex) && outcome == NoOutcome)
        && (key !in {"ArrowDown", "ArrowUp", "Enter", "Tab", "Escape"} ==>
              showSuggestions && selectedIndex == old(selectedIndex) && outcome == NoOutcome)
    {
      if !showSuggestions || |filtered| == 0 {
        outcome := if key == "Enter" then Submit else NoOutcome;
        return;
      }
      outcome := NoOutcome;
      if key == "ArrowDown" {
        if selectedIndex < |filtered| - 1 {
          selectedIndex := selectedIndex + 1;
        }
      } else if key == "ArrowUp" {
        if selectedIndex > 0 {
          selectedIndex := selectedIndex - 1;
        }
      } else if key == "Enter" || key == "Tab" {
        outcome := Change(ApplySuggestion(value, filtered[selectedIndex]));
        showSuggestions := false;
      } else if key == "Escape" {
        showSuggestions := false;
      }
    }
  }
}
