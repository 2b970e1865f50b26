/**
 * Display arithmetic shared by the two tables and the detail panel: the
 * markup-stripping, truncating text cell, the rounded interval label, and
 * the "Showing a-b of n" range and page count of a paged list.
 */
module Cells {
  import opened JsText

  // ---------------------------------------------------------------------
  // Text cells

  /** The position of the first `>` in `s`, or -1 when there is none. */
  function CloseIndex(s: string): (i: int)
    ensures -1 <= i < |s|
  {
    if |s| == 0 then -1
    else if s[0] == '>' then 0
    else
      var j := CloseIndex(s[1..]);
      if j == -1 then -1 else j + 1
  }

  /** `CloseIndex` finds the first `>`, and -1 means there is none. */
  lemma {:induction false} CloseIndexFirst(s: string)
    ensures CloseIndex(s) >= 0 ==> s[CloseIndex(s)] == '>' && '>' !in s[..CloseIndex(s)]
    ensures CloseIndex(s) == -1 <==> '>' !in s
    decreases |s|
  {
    if |s| > 0 && s[0] != '>' {
      CloseIndexFirst(s[1..]);
      var j := CloseIndex(s[1..]);
      assert s == [s[0]] + s[1..];
      if j >= 0 {
        assert s[..j + 1] == [s[0]] + s[1..][..j];
      }
    }
  }

  /** The first `>` of a concatenation: the first one of the left part, else
      the first one of the right part, shifted. */
  lemma {:induction false} CloseIndexConcat(a: string, b: string)
    ensures CloseIndex(a + b) ==
      if CloseIndex(a) >= 0 then CloseIndex(a)
      else if CloseIndex(b) >= 0 then |a| + CloseIndex(b)
      else -1
    decreases |a|
  {
    if |a| == 0 {
      assert a + b == b;
    } else if a[0] != '>' {
      assert (a + b)[1..] == a[1..] + b;
      CloseIndexConcat(a[1..], b);
    }
  }

  /** `s.replace(/<[^>]*>/g, "")`: scanning from the left, a `<` with a `>`
      somewhere after it is removed together with everything up to and
      including the first such `>`; every other character is kept. */
  function StripTags(s: string): (r: string)
    ensures |r| <= |s|
    decreases |s|
  {
    if |s| == 0 then ""
    else if s[0] == '<' && CloseIndex(s[1..]) >= 0 then StripTags(s[CloseIndex(s[1..]) + 2..])
    else [s[0]] + StripTags(s[1..])
  }

  /** No `<` is followed, anywhere later, by a `>`: the text holds no tag
      the pattern would match. */
  predicate TagFree(s: string) {
    forall i :: 0 <= i < |s| && s[i] == '<' ==> '>' !in s[i + 1..]
  }

  lemma TagFreeCons(c: char, t: string)
    requires TagFree(t) && (c == '<' ==> '>' !in t)
    ensures TagFree([c] + t)
  {
    var s := [c] + t;
    forall i | 0 <= i < |s| && s[i] == '<' ensures '>' !in s[i + 1..] {
      if i == 0 {
        assert s[1..] == t;
      } else {
        assert s[i + 1..] == t[i..];
        assert t[i - 1] == '<';
      }
    }
  }

  lemma TagFreeTail(s: string)
    requires |s| > 0 && TagFree(s)
    ensures TagFree(s[1..])
  {
    var t := s[1..];
    forall i | 0 <= i < |t| && t[i] == '<' ensures '>' !in t[i + 1..] {
      assert s[i + 1] == '<';
      assert t[i + 1..] == s[i + 2..];
    }
  }

  /** Text without a `>` has nothing to strip. */
  lemma {:induction false} NoCloseUnchanged(s: string)
    requires '>' !in s
    ensures StripTags(s) == s
    decreases |s|
  {
    if |s| > 0 {
      CloseIndexFirst(s[1..]);
      NoCloseUnchanged(s[1..]);
    }
  }

  /** After stripping, no tag is left. */
  lemma {:induction false} StripTagsTagFree(s: string)
    ensures TagFree(StripTags(s))
    decreases |s|
  {
    if |s| > 0 {
      if s[0] == '<' && CloseIndex(s[1..]) >= 0 {
        StripTagsTagFree(s[CloseIndex(s[1..]) + 2..]);
      } else {
        StripTagsTagFree(s[1..]);
        if s[0] == '<' {
          CloseIndexFirst(s[1..]);
          NoCloseUnchanged(s[1..]);
        }
        TagFreeCons(s[0], StripTags(s[1..]));
      }
    }
  }

  /** Tag-free text is left as it is; in particular stripping twice is
      stripping once. */
  lemma {:induction false} TagFreeUnchanged(s: string)
    requires TagFree(s)
    ensures StripTags(s) == s
    decreases |s|
  {
    if |s| > 0 {
      if s[0] == '<' {
        CloseIndexFirst(s[1..]);
      }
      TagFreeTail(s);
      TagFreeUnchanged(s[1..]);
    }
  }

  lemma StripTagsIdempotent(s: string)
    ensures StripTags(StripTags(s)) == StripTags(s)
  {
    StripTagsTagFree(s);
    TagFreeUnchanged(StripTags(s));
  }

  /** A first `<` that some later `>` closes starts a removed span. */
  lemma TagStep(w: string)
    requires |w| > 0 && w[0] == '<' && CloseIndex(w[1..]) >= 0
    ensures StripTags(w) == StripTags(w[CloseIndex(w[1..]) + 2..])
  {
  }

  /** A span from `<` to the first `>` at the start is removed. */
  lemma TagAtStart(t: string, q: string)
    requires '>' !in t
    ensures StripTags("<" + t + ">" + q) == StripTags(q)
  {
    var u := "<" + t + ">" + q;
    assert u[1..] == t + (">" + q);
    CloseIndexFirst(t);
    CloseIndexConcat(t, ">" + q);
    TagStep(u);
    assert u[|t| + 2..] == q;
  }

  lemma SpanAssoc(p: string, t: string, q: string)
    ensures p + "<" + t + ">" + q == p + ("<" + t + ">" + q)
  {
  }

  lemma ConsRest(p: string, v: string)
    requires |p| > 0
    ensures [p[0]] + (p[1..] + v) == p + v
  {
    assert p == [p[0]] + p[1..];
  }

  /** Text before the first `<` is kept, and the span from that `<` to the
      first `>` after it is removed: the text after the span is stripped on
      its own. */
  lemma {:induction false} TagRemoved(p: string, t: string, q: string)
    requires '<' !in p && '>' !in t
    ensures StripTags(p + "<" + t + ">" + q) == p + StripTags(q)
    decreases |p|
  {
    var u := "<" + t + ">" + q;
    SpanAssoc(p, t, q);
    if |p| == 0 {
      assert p + u == u;
      TagAtStart(t, q);
    } else {
      assert p[0] in p;
      TagRemoved(p[1..], t, q);
      SpanAssoc(p[1..], t, q);
      DropFirstOfConcat(p, u);
      KeptStep(p + u);
      ConsRest(p, StripTags(q));
    }
  }

  /** Over `p + s`, a tag that opens `p` and closes inside it is skipped to
      the same place as over `p`. */
  lemma SkipTagInConcat(p: string, s: string)
    requires |p| > 0 && p[0] == '<' && CloseIndex(p[1..]) >= 0
    ensures StripTags(p + s) == StripTags(p[CloseIndex(p[1..]) + 2..] + s)
  {
    var w := p + s;
    assert w[1..] == p[1..] + s;
    CloseIndexConcat(p[1..], s);
    assert w[CloseIndex(p[1..]) + 2..] == p[CloseIndex(p[1..]) + 2..] + s;
  }

  lemma DropFirstOfConcat(p: string, s: string)
    requires |p| > 0
    ensures (p + s)[0] == p[0] && (p + s)[1..] == p[1..] + s
  {
  }

  lemma ConsAssoc(c: char, x: string, s: string)
    ensures [c] + (x + s) == ([c] + x) + s
  {
  }

  /** A first character that opens no tag is kept. */
  lemma KeptStep(w: string)
    requires |w| > 0 && !(w[0] == '<' && CloseIndex(w[1..]) >= 0)
    ensures StripTags(w) == [w[0]] + StripTags(w[1..])
  {
  }

  /** A first character other than `<` is kept over `p + s` as over `p`:
      one step of `NoCloseSuffixKept`. */
  lemma SuffixAfterPlain(p: string, s: string)
    requires |p| > 0 && p[0] != '<'
    requires StripTags(p[1..] + s) == StripTags(p[1..]) + s
    ensures StripTags(p + s) == StripTags(p) + s
  {
    DropFirstOfConcat(p, s);
    KeptStep(p + s);
    KeptStep(p);
    ConsAssoc(p[0], StripTags(p[1..]), s);
  }

  /** A `<` that no `>` in `p` closes is kept over `p + s` as over `p`, when
      `s` has no `>` either: one step of `NoCloseSuffixKept`. */
  lemma SuffixAfterOpen(p: string, s: string)
    requires |p| > 0 && p[0] == '<' && CloseIndex(p[1..]) == -1 && '>' !in s
    requires StripTags(p[1..] + s) == StripTags(p[1..]) + s
    ensures StripTags(p + s) == StripTags(p) + s
  {
    DropFirstOfConcat(p, s);
    CloseIndexFirst(s);
    CloseIndexConcat(p[1..], s);
    KeptStep(p + s);
    KeptStep(p);
    ConsAssoc(p[0], StripTags(p[1..]), s);
  }

  /** The tag step of `NoCloseSuffixKept`, given the claim for the text
      after the tag. */
  lemma SuffixAfterTag(p: string, s: string, r: string)
    requires |p| > 0 && p[0] == '<' && CloseIndex(p[1..]) >= 0 && r == p[CloseIndex(p[1..]) + 2..]
    requires StripTags(r + s) == StripTags(r) + s
    ensures StripTags(p + s) == StripTags(p) + s
  {
    SkipTagInConcat(p, s);
    assert StripTags(p) == StripTags(r);
  }

  /** A tail without `>` closes no tag: it is kept whole, and the text before
      it is stripped on its own. */
  lemma {:induction false} NoCloseSuffixKept(p: string, s: string)
    requires '>' !in s
    ensures StripTags(p + s) == StripTags(p) + s
    decreases |p|
  {
    if |p| == 0 {
      assert p + s == s;
      NoCloseUnchanged(s);
    } else if p[0] == '<' && CloseIndex(p[1..]) >= 0 {
      var r := p[CloseIndex(p[1..]) + 2..];
      NoCloseSuffixKept(r, s);
      SuffixAfterTag(p, s, r);
    } else if p[0] == '<' {
      NoCloseSuffixKept(p[1..], s);
      SuffixAfterOpen(p, s);
    } else {
      NoCloseSuffixKept(p[1..], s);
      SuffixAfterPlain(p, s);
    }
  }

  /** A `<` with no `>` after it is kept, together with everything after
      it. */
  lemma UnclosedKept(p: string, q: string)
    requires '>' !in q
    ensures StripTags(p + "<" + q) == StripTags(p) + "<" + q
  {
    assert p + "<" + q == p + ("<" + q);
    NoCloseSuffixKept(p, "<" + q);
  }

  /** `text.length > limit ? text.slice(0, limit) + "..." : text`. */
  function Truncate(text: string, limit: nat): string {
    if |text| > limit then text[..limit] + "..." else text
  }

  /** A text cell: a dash for an empty value, else the shown text. */
  datatype TextDisplay = Dash | Shown(text: string)

  lemma TagFreePrefix(s: string, n: nat)
    requires TagFree(s) && n <= |s|
    ensures TagFree(s[..n])
  {
    var p := s[..n];
    forall i | 0 <= i < |p| && p[i] == '<' ensures '>' !in p[i + 1..] {
      assert s[i] == '<';
      assert p[i + 1..] == s[i + 1..][..n - i - 1];
    }
  }

  /** Cutting tag-free text and appending the ellipsis adds no tag. */
  lemma TruncateTagFree(text: string, limit: nat)
    requires TagFree(text)
    ensures TagFree(Truncate(text, limit))
  {
    if |text| > limit {
      var shown := text[..limit] + "...";
      TagFreePrefix(text, limit);
      forall i | 0 <= i < |shown| && shown[i] == '<' ensures '>' !in shown[i + 1..] {
        assert i < limit;
        assert shown[i + 1..] == text[..limit][i + 1..] + "...";
      }
    }
  }

  /** The field and sort-field cells: an empty value shows a dash; any other
      value shows its text without markup, itself when it fits in `limit`
      characters, and otherwise its first `limit` characters followed by
      "..."; shown text is never longer than `limit` plus the ellipsis and
      holds no tag. */
  function TextCell(value: string, limit: nat): (d: TextDisplay)
    ensures d.Dash? <==> value == ""
    ensures d.Shown? && |StripTags(value)| <= limit ==> d.text == StripTags(value)
    ensures d.Shown? && |StripTags(value)| > limit ==> d.text == StripTags(value)[..limit] + "..."
    ensures d.Shown? ==> |d.text| <= limit + 3 && TagFree(d.text)
  {
    if value == "" then Dash
    else
      StripTagsTagFree(value);
      TruncateTagFree(StripTags(value), limit);
      Shown(Truncate(StripTags(value), limit))
  }

  // ---------------------------------------------------------------------
  // Intervals

  /** `Math.round(ivl / 30)` for a positive interval: the nearest whole
      number of months, halves rounded up. */
  function MonthsOf(ivl: nat): (m: nat)
    ensures 60 * m <= 2 * ivl + 30 < 60 * (m + 1)
  {
    (ivl + 15) / 30
  }

  /** `Math.round(ivl / 365)` for a positive interval: the nearest whole
      number of years, halves rounded up. */
  function YearsOf(ivl: nat): (y: nat)
    ensures 730 * y <= 2 * ivl + 365 < 730 * (y + 1)
  {
    (2 * ivl + 365) / 730
  }

  /** The interval label: `-` for none, whole years from 365 days, whole
      months from 30 days, else days. */
  function FormatInterval(ivl: int): string {
    if ivl <= 0 then "-"
    else if ivl >= 365 then NatToString(YearsOf(ivl)) + "y"
    else if ivl >= 30 then NatToString(MonthsOf(ivl)) + "mo"
    else NatToString(ivl) + "d"
  }

  /** Each unit is used on its own range and the number never rounds to
      zero: at least one year, between one and twelve months, or between
      one and 29 days. */
  lemma IntervalUnits(ivl: int)
    ensures ivl <= 0 ==> FormatInterval(ivl) == "-"
    ensures ivl >= 365 ==> YearsOf(ivl) >= 1 && FormatInterval(ivl) == NatToString(YearsOf(ivl)) + "y"
    ensures 30 <= ivl < 365 ==> 1 <= MonthsOf(ivl) <= 12 && FormatInterval(ivl) == NatToString(MonthsOf(ivl)) + "mo"
    ensures 0 < ivl < 30 ==> FormatInterval(ivl) == NatToString(ivl) + "d"
  {
  }

  /** Rounding keeps the order: a longer interval never shows fewer months
      or years. */
  lemma RoundingMonotone(a: nat, b: nat)
    requires a <= b
    ensures MonthsOf(a) <= MonthsOf(b) && YearsOf(a) <= YearsOf(b)
  {
    var ma, mb := MonthsOf(a), MonthsOf(b);
    var ya, yb := YearsOf(a), YearsOf(b);
  }

  // ---------------------------------------------------------------------
  // Paging

  /** `Math.ceil(total / pageSize)`. */
  function PageCount(total: nat, pageSize: nat): (c: nat)
    requires pageSize > 0
    ensures c * pageSize >= total
    ensures c > 0 ==> (c - 1) * pageSize < total
  {
    (total + pageSize - 1) / pageSize
  }

  /** The "Showing start-end of total" numbers. */
  function ShowingRange(pageIndex: nat, pageSize: nat, total: nat): (nat, nat) {
    (if total > 0 then pageIndex * pageSize + 1 else 0,
     if (pageIndex + 1) * pageSize < total then (pageIndex + 1) * pageSize else total)
  }

  /** On an existing page the range counts exactly the items of that page;
      a full page is followed by the next item. */
  lemma ShowingRangeOnPage(pageIndex: nat, pageSize: nat, total: nat)
    requires pageSize > 0 && pageIndex < PageCount(total, pageSize)
    ensures var (start, end) := ShowingRange(pageIndex, pageSize, total);
      && 1 <= start <= end <= total
      && end - start + 1 == (if total - pageIndex * pageSize < pageSize then total - pageIndex * pageSize else pageSize)
      && (end < total ==> ShowingRange(pageIndex + 1, pageSize, total).0 == end + 1)
  {
    var c := PageCount(total, pageSize);
    assert pageIndex * pageSize <= (c - 1) * pageSize;
    assert (pageIndex + 1) * pageSize == pageIndex * pageSize + pageSize;
    assert (pageIndex + 2) * pageSize == (pageIndex + 1) * pageSize + pageSize;
  }

  /** Past the last page the start exceeds the end. */
  lemma ShowingRangePastEnd(pageIndex: nat, pageSize: nat, total: nat)
    requires pageSize > 0 && total > 0 && pageIndex >= PageCount(total, pageSize)
    ensures ShowingRange(pageIndex, pageSize, total).0 > ShowingRange(pageIndex, pageSize, total).1
  {
    var c := PageCount(total, pageSize);
    assert pageIndex * pageSize >= c * pageSize;
  }

  /** With no items the range is 0-0 on every page. */
  lemma ShowingRangeEmpty(pageIndex: nat, pageSize: nat)
    ensures ShowingRange(pageIndex, pageSize, 0) == (0, 0)
  {
  }

  // ---------------------------------------------------------------------
  // Page buttons and the state changes a table reports

  /** A value a table reports for a URL parameter (`string | number`). */
  datatype StateValue = Num(n: int) | Str(s: string)

  /** The four page buttons under a table. */
  datatype PageButton = FirstPage | PreviousPage | NextPage | LastPage

  /** Whether a button is enabled: first and previous from the second page
      on (`getCanPreviousPage`), next and last before the last page
      (`getCanNextPage`). */
  predicate Enabled(b: PageButton, pageIndex: nat, pageCount: nat) {
    match b
    case FirstPage => pageIndex > 0
    case PreviousPage => pageIndex > 0
    case NextPage => pageIndex + 1 < pageCount
    case LastPage => pageIndex + 1 < pageCount
  }

  /** The 1-based page a button asks for while the 0-based page `pageIndex`
      is shown (the 1-based page `pageIndex + 1`): an enabled button asks for
      a different, existing page, one page back or forward for previous and
      next. */
  function ButtonTarget(b: PageButton, pageIndex: nat, pageCount: nat): (page: nat)
    ensures Enabled(b, pageIndex, pageCount) ==>
      && 1 <= page && page != pageIndex + 1
      && (b == PreviousPage ==> page == (pageIndex + 1) - 1)
      && (b == NextPage ==> page == (pageIndex + 1) + 1)
      && (b == NextPage || b == LastPage ==> page <= pageCount)
  {
    match b
    case FirstPage => 1
    case PreviousPage => pageIndex
    case NextPage => pageIndex + 2
    case LastPage => pageCount
  }

  /** What a button reports: the page it asks for. */
  function ButtonChange(b: PageButton, pageIndex: nat, pageCount: nat): seq<(string, StateValue)> {
    [("page", Num(ButtonTarget(b, pageIndex, pageCount)))]
  }

  /** What the table library's pagination change reports: the new 0-based
      index as a 1-based page, and the page size. */
  function PaginationChange(newPageIndex: nat, newPageSize: nat): seq<(string, StateValue)> {
    [("page", Num(newPageIndex + 1)), ("pageSize", Num(newPageSize))]
  }

  /** Choosing a page size reports it together with page 1. */
  function PageSizeChange(size: nat): seq<(string, StateValue)> {
    [("pageSize", Num(size)), ("page", Num(1))]
  }
}
