/**
 * The browser page: its state lives in the URL's query parameters (note
 * type, 1-based page, page size, search, flag filter, view). The page reads
 * them with defaults, writes them back as the tables and inputs report
 * changes, builds the search sent for the notes or cards, and chooses what
 * the main area shows.
 */
module Root {
  import opened Wrappers
  import opened JsText
  import opened Dicts
  import opened Cells
  import Constants

  // ---------------------------------------------------------------------
  // Writing the URL parameters

  /** `String(value)` for a reported value. */
  function StateText(v: StateValue): string {
    match v
    case Num(n) => IntToString(n)
    case Str(s) => s
  }

  /** The `(key, String(value))` pairs a state change writes, in order. */
  function TextPairs(newState: seq<(string, StateValue)>): (ps: seq<(string, string)>)
    ensures |ps| == |newState|
    ensures forall i :: 0 <= i < |ps| ==> ps[i] == (newState[i].0, StateText(newState[i].1))
  {
    seq(|newState|, i requires 0 <= i < |newState| => (newState[i].0, StateText(newState[i].1)))
  }

  /** The parameters after a change of note type. */
  function AfterModelChange(params: map<string, string>, model: string): map<string, string> {
    (params - {"page", "pageSize", "search"})["model" := model]
  }

  /** The parameters after a reported state change. */
  function AfterStateChange(params: map<string, string>, newState: seq<(string, StateValue)>): map<string, string> {
    params + MapOfPairs(TextPairs(newState))
  }

  /** The query parameters, updated in place. */
  class UrlParams {
    var params: map<string, string>

    constructor(initial: map<string, string>)
      ensures params == initial
    {
      params := initial;
    }

    /** `setUrlModel`: set the note type and drop page, page size and
        search. */
    method SetUrlModel(model: string)
      modifies this
      ensures params == AfterModelChange(old(params), model)
    {
      params := params["model" := model];
      params := params - {"page"};
      params := params - {"pageSize"};
      params := params - {"search"};
    }

    /** `setUrlState`: each reported key is set, in order, to its value
        written as text. */
    method SetUrlState(newState: seq<(string, StateValue)>)
      modifies this
      ensures params == AfterStateChange(old(params), newState)
    {
      var ps := TextPairs(newState);
      var i := 0;
      while i < |newState|
        invariant 0 <= i <= |newState|
        invariant params == old(params) + MapOfPairs(ps[..i])
      {
        MapOfPairsSnoc(ps, i);
        MergeAssign(old(params), MapOfPairs(ps[..i]), ps[i].0, ps[i].1);
        params := params[newState[i].0 := StateText(newState[i].1)];
        i := i + 1;
      }
      assert ps[..i] == ps;
    }

    /** The notes / cards switch. */
    method SetView(view: string)
      modifies this
      ensures params == old(params)["view" := view]
    {
      params := params["view" := view];
    }
  }

  /** A change of note type sets it, removes page, page size and search, and
      leaves every other parameter as it was. */
  lemma ModelChangeKeepsOthers(params: map<string, string>, model: string, k: string)
    ensures var p := AfterModelChange(params, model);
      && "model" in p && p["model"] == model
      && "page" !in p && "pageSize" !in p && "search" !in p
      && (k !in {"model", "page", "pageSize", "search"} ==>
            (k in p <==> k in params) && (k in p ==> p[k] == params[k]))
  {
  }

  /** A state change sets a reported key to the text of its last value. */
  lemma StateChangeSets(params: map<string, string>, newState: seq<(string, StateValue)>, i: nat)
    requires i < |newState|
    requires forall j :: i < j < |newState| ==> newState[j].0 != newState[i].0
    ensures newState[i].0 in AfterStateChange(params, newState)
    ensures AfterStateChange(params, newState)[newState[i].0] == StateText(newState[i].1)
  {
    var ps := TextPairs(newState);
    assert ps[i].0 == newState[i].0;
    MapOfPairsLastWins(ps, i);
  }

  /** A state change leaves every key it does not report as it was. */
  lemma StateChangeKeeps(params: map<string, string>, newState: seq<(string, StateValue)>, k: string)
    requires forall i :: 0 <= i < |newState| ==> newState[i].0 != k
    ensures k in AfterStateChange(params, newState) <==> k in params
    ensures k in params ==> AfterStateChange(params, newState)[k] == params[k]
  {
  }

  /** A change of one key sets it. */
  lemma OneKeyChange(params: map<string, string>, k0: string, v0: StateValue)
    ensures var p := AfterStateChange(params, [(k0, v0)]);
      k0 in p && p[k0] == StateText(v0)
  {
    StateChangeSets(params, [(k0, v0)], 0);
  }

  /** A change of two different keys sets both. */
  lemma TwoKeyChange(params: map<string, string>, k0: string, v0: StateValue, k1: string, v1: StateValue)
    requires k0 != k1
    ensures var p := AfterStateChange(params, [(k0, v0), (k1, v1)]);
      && k0 in p && p[k0] == StateText(v0)
      && k1 in p && p[k1] == StateText(v1)
  {
    var change := [(k0, v0), (k1, v1)];
    StateChangeSets(params, change, 0);
    StateChangeSets(params, change, 1);
  }

  /** A key a two-key change does not name is read as before. */
  lemma TwoKeyChangeKeeps(params: map<string, string>, k0: string, v0: StateValue, k1: string, v1: StateValue, k: string, fallback: string)
    requires k != k0 && k != k1
    ensures GetOr(AfterStateChange(params, [(k0, v0), (k1, v1)]), k, fallback) == GetOr(params, k, fallback)
  {
    StateChangeKeeps(params, [(k0, v0), (k1, v1)], k);
  }

  // ---------------------------------------------------------------------
  // Reading the URL parameters

  /** `searchParams.get(key) ?? fallback`. */
  function GetOr(params: map<string, string>, key: string, fallback: string): string {
    if key in params then params[key] else fallback
  }

  /** What the page reads from its parameters; `None` for a page or page
      size stands for a value `parseInt` cannot read. */
  datatype UrlState = UrlState(
    model: Option<string>, pageIndex: Option<int>, pageSize: Option<int>,
    search: string, flag: string, viewMode: string)

  /** The 0-based page index of a 1-based page number, never below 0. */
  function PageIndexOf(page: Option<int>): (index: Option<int>)
    ensures index.Some? <==> page.Some?
    ensures index.Some? ==> index.value >= 0 && (page.value >= 1 ==> index.value == page.value - 1)
  {
    match page
    case None => None
    case Some(p) => Some(if p - 1 > 0 then p - 1 else 0)
  }

  /** `parseInt(searchParams.get(key) ?? String(fallback), 10)`: a missing
      key reads as the fallback number (`ReadNumberParses` shows the two
      readings agree). */
  function ReadNumber(params: map<string, string>, key: string, fallback: int): Option<int> {
    if key in params then ParseInt(params[key]) else Some(fallback)
  }

  function Decode(params: map<string, string>): UrlState {
    UrlState(
      if "model" in params then Some(params["model"]) else None,
      PageIndexOf(ReadNumber(params, "page", 1)),
      ReadNumber(params, "pageSize", 20),
      GetOr(params, "search", ""),
      GetOr(params, "flag", ""),
      GetOr(params, "view", "notes"))
  }

  /** A number written into the URL is read back as that number. */
  lemma ReadsBack(params: map<string, string>, key: string, n: int)
    requires key in params && params[key] == IntToString(n)
    ensures ParseInt(params[key]) == Some(n)
  {
    ParseIntToString(n);
  }

  /** A page number written into the URL is read as its 0-based index. */
  lemma PageReadsAs(p: map<string, string>, n: int)
    requires "page" in p && p["page"] == IntToString(n)
    ensures Decode(p).pageIndex == PageIndexOf(Some(n))
  {
    ReadsBack(p, "page", n);
  }

  /** A page size written into the URL is read back as that size. */
  lemma PageSizeReadsAs(p: map<string, string>, n: int)
    requires "pageSize" in p && p["pageSize"] == IntToString(n)
    ensures Decode(p).pageSize == Some(n)
  {
    ReadsBack(p, "pageSize", n);
  }

  /** Reading a number with a fallback is parsing the parameter, or the
      fallback written out, when the parameter is missing. */
  lemma ReadNumberParses(params: map<string, string>, key: string, fallback: int)
    ensures ReadNumber(params, key, fallback) == ParseInt(GetOr(params, key, IntToString(fallback)))
  {
    ParseIntToString(fallback);
  }

  /** The fallbacks as the page writes them: `"1"` for the page and `"20"`
      for the page size. */
  lemma FallbackTexts()
    ensures IntToString(1) == "1" && IntToString(20) == "20"
  {
    assert NatToString(20) == NatToString(2) + [DigitChar(0)];
  }

  /** Without parameters the page shows the first page of 20 notes, with no
      search and no flag filter. */
  lemma DecodeDefaults(params: map<string, string>)
    requires params == map[]
    ensures Decode(params) == UrlState(None, Some(0), Some(20), "", "", "notes")
  {
  }

  /** After a change of note type the page reads that note type on the first
      page of 20 with no search; the flag filter and the view are kept. */
  lemma ModelChangeDecodes(params: map<string, string>, model: string)
    ensures var s := Decode(AfterModelChange(params, model));
      && s.model == Some(model) && s.pageIndex == Some(0) && s.pageSize == Some(20) && s.search == ""
      && s.flag == Decode(params).flag && s.viewMode == Decode(params).viewMode
  {
    var p := AfterModelChange(params, model);
    ModelChangeKeepsOthers(params, model, "flag");
    ModelChangeKeepsOthers(params, model, "view");
  }

  /** A page change reported by a table is read back as that page index and
      page size. */
  lemma PaginationChangeDecodes(params: map<string, string>, pageIndex: nat, pageSize: nat)
    ensures var s := Decode(AfterStateChange(params, PaginationChange(pageIndex, pageSize)));
      s.pageIndex == Some(pageIndex) && s.pageSize == Some(pageSize) && s.search == Decode(params).search
  {
    var p := AfterStateChange(params, PaginationChange(pageIndex, pageSize));
    TwoKeyChange(params, "page", Num(pageIndex + 1), "pageSize", Num(pageSize));
    TwoKeyChangeKeeps(params, "page", Num(pageIndex + 1), "pageSize", Num(pageSize), "search", "");
    PageReadsAs(p, pageIndex + 1);
    PageSizeReadsAs(p, pageSize);
  }

  /** A page button that is enabled moves the page read from the URL to its
      target: one back, one forward, the first or the last page. */
  lemma ButtonChangeDecodes(params: map<string, string>, b: PageButton, pageIndex: nat, pageCount: nat)
    requires Enabled(b, pageIndex, pageCount)
    ensures var s := Decode(AfterStateChange(params, ButtonChange(b, pageIndex, pageCount)));
      && s.pageIndex == Some(ButtonTarget(b, pageIndex, pageCount) - 1)
      && s.pageSize == Decode(params).pageSize
    ensures var target := ButtonTarget(b, pageIndex, pageCount) - 1;
      && (b == FirstPage ==> target == 0)
      && (b == PreviousPage ==> target == pageIndex - 1)
      && (b == NextPage ==> target == pageIndex + 1)
      && (b == LastPage ==> target == pageCount - 1)
  {
    ButtonPageRead(params, b, pageIndex, pageCount);
    ButtonPageSizeKept(params, b, pageIndex, pageCount);
  }

  /** A button's change is read as the 0-based index of its target. */
  lemma ButtonPageRead(params: map<string, string>, b: PageButton, pageIndex: nat, pageCount: nat)
    requires Enabled(b, pageIndex, pageCount)
    ensures Decode(AfterStateChange(params, ButtonChange(b, pageIndex, pageCount))).pageIndex
      == Some(ButtonTarget(b, pageIndex, pageCount) - 1)
  {
    var target := ButtonTarget(b, pageIndex, pageCount);
    OneKeyChange(params, "page", Num(target));
    PageReadsAs(AfterStateChange(params, ButtonChange(b, pageIndex, pageCount)), target);
  }

  /** A button's change leaves the page size read as before. */
  lemma ButtonPageSizeKept(params: map<string, string>, b: PageButton, pageIndex: nat, pageCount: nat)
    ensures Decode(AfterStateChange(params, ButtonChange(b, pageIndex, pageCount))).pageSize
      == Decode(params).pageSize
  {
    StateChangeKeeps(params, ButtonChange(b, pageIndex, pageCount), "pageSize");
  }

  /** Choosing a page size goes back to the first page. */
  lemma PageSizeChangeDecodes(params: map<string, string>, size: nat)
    ensures var s := Decode(AfterStateChange(params, PageSizeChange(size)));
      s.pageIndex == Some(0) && s.pageSize == Some(size)
  {
    var p := AfterStateChange(params, PageSizeChange(size));
    TwoKeyChange(params, "pageSize", Num(size), "page", Num(1));
    PageReadsAs(p, 1);
    PageSizeReadsAs(p, size);
  }

  // ---------------------------------------------------------------------
  // Main content

  /** The note-type schema query: loading, failed with a message, or the
      field names of each note type. */
  datatype Schema = Loading | Failed(message: string) | Loaded(models: map<string, seq<string>>)

  /** What the main area shows. */
  datatype Content =
    | Connecting
    | ConnectFailed(message: string)
    | NoNoteTypes
    | SelectNoteType
    | ModelNotFound(name: string)
    | Browse(model: string, fields: seq<string>)

  /** `urlModel && models?.[urlModel]`: a non-empty note type the schema
      knows (its field list is truthy even when empty). */
  predicate ValidModel(schema: Schema, urlModel: Option<string>) {
    schema.Loaded? && urlModel.Some? && urlModel.value != "" && urlModel.value in schema.models
  }

  function MainContent(schema: Schema, urlModel: Option<string>): (c: Content)
    ensures c.Browse? <==> ValidModel(schema, urlModel)
    ensures c.Browse? ==> c.model == urlModel.value && c.fields == schema.models[urlModel.value]
    ensures c.NoNoteTypes? <==> schema.Loaded? && schema.models == map[]
    ensures c.SelectNoteType? <==> schema.Loaded? && schema.models != map[] && (urlModel.None? || urlModel.value == "")
    ensures c.Connecting? <==> schema.Loading?
    ensures schema.Failed? ==> c == ConnectFailed(schema.message)
    ensures c.ModelNotFound? ==> schema.Loaded? && urlModel == Some(c.name) && c.name !in schema.models
    ensures (schema.Loaded? && schema.models != map[] && urlModel.Some? && urlModel.value != ""
             && urlModel.value !in schema.models) ==> c == ModelNotFound(urlModel.value)
  {
    match schema
    case Loading => Connecting
    case Failed(msg) => ConnectFailed(msg)
    case Loaded(models) =>
      if models == map[] then NoNoteTypes
      else if urlModel.None? || urlModel.value == "" then SelectNoteType
      else if urlModel.value !in models then ModelNotFound(urlModel.value)
      else Browse(urlModel.value, models[urlModel.value])
  }

  /** The note-type select's value: the URL's note type when it is valid,
      else "" (the "Select model..." entry). */
  function SelectedModel(schema: Schema, urlModel: Option<string>): (v: string)
    ensures v != "" <==> ValidModel(schema, urlModel)
  {
    if ValidModel(schema, urlModel) then urlModel.value else ""
  }

  /** Picking a note type from the select browses it, and the select then
      shows it. */
  lemma PickModelBrowses(params: map<string, string>, models: map<string, seq<string>>, model: string)
    requires model != "" && model in models
    ensures var s := Decode(AfterModelChange(params, model));
      && MainContent(Loaded(models), s.model) == Browse(model, models[model])
      && SelectedModel(Loaded(models), s.model) == model
  {
  }

  // ---------------------------------------------------------------------
  // The search sent with the note type

  /** A flag filter that restricts the search: set and not "none". */
  predicate FlagActive(flag: string) {
    flag != "" && flag != "none"
  }

  /** `fullSearch`: the search and the `flag:` term, joined by a space;
      nothing when both are absent. */
  method FullSearch(search: string, flag: string) returns (full: Option<string>)
    ensures full.None? <==> search == "" && !FlagActive(flag)
    ensures search != "" && !FlagActive(flag) ==> full == Some(search)
    ensures search == "" && FlagActive(flag) ==> full == Some("flag:" + flag)
    ensures search != "" && FlagActive(flag) ==> full == Some(search + " flag:" + flag)
  {
    var parts: seq<string> := [];
    if search != "" {
      parts := parts + [search];
    }
    if FlagActive(flag) {
      parts := parts + ["flag:" + flag];
    }
    var joined := Join(parts, ' ');
    if |parts| == 2 {
      assert parts == [search, "flag:" + flag];
      assert parts[1..] == ["flag:" + flag];
      assert Join(parts[1..], ' ') == "flag:" + flag;
      assert joined == search + [' '] + ("flag:" + flag);
      assert search + [' '] + ("flag:" + flag) == search + " flag:" + flag;
    }
    full := if joined == "" then None else Some(joined);
  }

  /** Submitting the search box: nothing when the text is the current
      search, else the new search on page 1. */
  function SubmitSearch(localSearch: string, search: string): (change: Option<seq<(string, StateValue)>>)
    ensures change.None? <==> localSearch == search
  {
    if localSearch != search then Some([("search", Str(localSearch)), ("page", Num(1))]) else None
  }

  /** A submitted search is read back from the URL, on the first page. */
  lemma SubmitSearchDecodes(params: map<string, string>, localSearch: string)
    requires localSearch != Decode(params).search
    ensures var s := Decode(AfterStateChange(params, SubmitSearch(localSearch, Decode(params).search).value));
      s.search == localSearch && s.pageIndex == Some(0) && s.flag == Decode(params).flag
  {
    var change := [("search", Str(localSearch)), ("page", Num(1))];
    assert SubmitSearch(localSearch, Decode(params).search) == Some(change);
    var p := AfterStateChange(params, change);
    TwoKeyChange(params, "search", Str(localSearch), "page", Num(1));
    TwoKeyChangeKeeps(params, "search", Str(localSearch), "page", Num(1), "flag", "");
    PageReadsAs(p, 1);
  }

  /** The flag select's value: the stored flag, or "none" when unset. */
  function FlagValue(flag: string): string {
    if flag != "" then flag else "none"
  }

  /** Choosing a flag filter: "none" is stored as "", and the page goes
      back to 1. */
  function FlagSelectChange(value: string): (change: seq<(string, StateValue)>)
    ensures |change| == 2 && change[0].0 == "flag" && change[1] == ("page", Num(1))
    ensures change[0].1 == Str(if value == "none" then "" else value)
  {
    [("flag", Str(if value == "none" then "" else value)), ("page", Num(1))]
  }

  /** `FLAG_OPTIONS.find`: the first filter entry with a value. */
  function FindFilter(options: seq<Constants.FilterOption>, value: string): (r: Option<Constants.FilterOption>)
    ensures r.Some? ==> r.value in options && r.value.value == value
    ensures r.None? ==> forall i :: 0 <= i < |options| ==> options[i].value != value
  {
    if |options| == 0 then None
    else if options[0].value == value then Some(options[0])
    else FindFilter(options[1..], value)
  }

  /** `find` returns the first entry holding the value. */
  lemma {:induction false} FindFilterFirst(options: seq<Constants.FilterOption>, i: nat)
    requires i < |options|
    requires forall j :: 0 <= j < i ==> options[j].value != options[i].value
    ensures FindFilter(options, options[i].value) == Some(options[i])
  {
    if i > 0 {
      var rest := options[1..];
      forall j | 0 <= j < i - 1
        ensures rest[j].value != rest[i - 1].value
      {
        assert rest[j] == options[j + 1];
      }
      FindFilterFirst(rest, i - 1);
    }
  }

  /** Each filter entry is found by its own value; the entry "All" has the
      value "none", and entry `i` of 1-7 has `i` written in decimal. */
  lemma FilterEntryFound(i: nat)
    requires i < |Constants.FlagFilterOptions|
    ensures FindFilter(Constants.FlagFilterOptions, Constants.FlagFilterOptions[i].value) == Some(Constants.FlagFilterOptions[i])
    ensures i == 0 <==> Constants.FlagFilterOptions[i].value == "none"
    ensures i > 0 ==> Constants.FlagFilterOptions[i].value == IntToString(i) && FlagActive(IntToString(i))
  {
    var options := Constants.FlagFilterOptions;
    assert options[i].value == ["none", "1", "2", "3", "4", "5", "6", "7"][i];
    assert forall j :: 0 <= j < i ==> options[j].value != options[i].value;
    FindFilterFirst(options, i);
    Constants.FilterOptionsFollowMenu();
    Constants.FlagOptionsCodes();
  }

  /** Choosing the filter entry `i` stores a flag that the select shows as
      that entry again, on page 1; the entry "All" stores no flag filter, and
      entry `i` of 1-7 filters on the Anki search term for flag `i`. */
  lemma FlagSelectRoundTrip(params: map<string, string>, i: nat)
    requires i < |Constants.FlagFilterOptions|
    ensures var s := Decode(AfterStateChange(params, FlagSelectChange(Constants.FlagFilterOptions[i].value)));
      && FindFilter(Constants.FlagFilterOptions, FlagValue(s.flag)) == Some(Constants.FlagFilterOptions[i])
      && s.pageIndex == Some(0)
      && (FlagActive(s.flag) <==> i > 0)
      && (i > 0 ==> s.flag == IntToString(i))
  {
    var v := Constants.FlagFilterOptions[i].value;
    var p := AfterStateChange(params, FlagSelectChange(v));
    TwoKeyChange(params, "flag", Str(if v == "none" then "" else v), "page", Num(1));
    PageReadsAs(p, 1);
    FilterEntryFound(i);
  }

  // ---------------------------------------------------------------------
  // The selected card after a flag change

  /** The selected card, as this page reads it: its id and flag, and the
      rest of its data. */
  datatype SelectedCard = SelectedCard(id: int, flag: int, fields: map<string, string>)

  /** The selection after `setCardFlag(cardId, flag)`: when the call
      succeeded and the selected card is the flagged one, its flag is the
      new one; otherwise the selection is unchanged. */
  function OnFlagChange(prev: Option<SelectedCard>, cardId: int, flag: int, succeeded: bool): (next: Option<SelectedCard>)
    ensures next.Some? <==> prev.Some?
    ensures next.Some? ==> next.value.id == prev.value.id && next.value.fields == prev.value.fields
    ensures next.Some? ==> next.value.flag == (if succeeded && prev.value.id == cardId then flag else prev.value.flag)
  {
    if succeeded && prev.Some? && prev.value.id == cardId then Some(prev.value.(flag := flag)) else prev
  }

  /** Applying the same flag change twice is applying it once, and a
      change for another card leaves the selection alone. */
  lemma OnFlagChangeIdempotent(prev: Option<SelectedCard>, cardId: int, flag: int, succeeded: bool)
    ensures OnFlagChange(OnFlagChange(prev, cardId, flag, succeeded), cardId, flag, succeeded)
      == OnFlagChange(prev, cardId, flag, succeeded)
    ensures prev.Some? && prev.value.id != cardId ==> OnFlagChange(prev, cardId, flag, succeeded) == prev
  {
  }
}
