/**
 * `normalizeSearchQuery`: every `is:suspend` that stands as a whole word is
 * rewritten to `is:suspended`, as the global replace of `\bis:suspend\b`
 * does. A word boundary `\b` lies between a word character (`[A-Za-z0-9_]`)
 * and a non-word character, the ends of the text counting as non-word.
 */
module Utils {
  import opened JsText

  const Typo := "is:suspend"
  const Fixed := "is:suspended"

  /** The pattern matches at position `i` of `s`: the ten characters are
      there, with a boundary before (the text starts, or a non-word character
      precedes) and after (the text ends, or a non-word character follows). */
  predicate MatchAt(s: string, i: int) {
    && 0 <= i && i + 10 <= |s| && s[i..i + 10] == Typo
    && (i == 0 || !IsWordChar(s[i - 1]))
    && (i + 10 == |s| || !IsWordChar(s[i + 10]))
  }

  /** The replace scan over `s`, where `afterWord` says whether the character
      just before `s` in the original text was a word character. A match is
      replaced and the scan resumes after it; otherwise one character is
      copied. */
  function Scan(afterWord: bool, s: string): string
    decreases |s|
  {
    if |s| == 0 then ""
    else if !afterWord && MatchesAtStart(s) then
      Fixed + Scan(true, s[10..])
    else [s[0]] + Scan(IsWordChar(s[0]), s[1..])
  }

  /** `normalizeSearchQuery(query)`. */
  function NormalizeSearchQuery(query: string): string {
    if query == "" then query else Scan(false, query)
  }

  /** The scan state at position `i` of `s`. */
  function AfterWordAt(s: string, i: int): bool
    requires 0 <= i <= |s|
  {
    i > 0 && IsWordChar(s[i - 1])
  }

  /** The scan takes the replacing step exactly where the pattern matches. */
  lemma ScanStepAt(s: string, i: int)
    requires 0 <= i < |s|
    ensures MatchAt(s, i) ==> Scan(AfterWordAt(s, i), s[i..]) == Fixed + Scan(true, s[i + 10..])
    ensures !MatchAt(s, i) ==> Scan(AfterWordAt(s, i), s[i..]) == [s[i]] + Scan(AfterWordAt(s, i + 1), s[i + 1..])
  {
    var t := s[i..];
    assert t[1..] == s[i + 1..];
    if i + 10 <= |s| {
      assert t[..10] == s[i..i + 10];
      assert t[10..] == s[i + 10..];
      if |t| > 10 {
        assert t[10] == s[i + 10];
      }
    }
  }

  // ---------------------------------------------------------------------
  // Copying

  /** The output starts with the input's first character. */
  lemma FirstCharKept(b: bool, x: string)
    ensures |Scan(b, x)| >= |x| && (|x| > 0 ==> Scan(b, x)[0] == x[0])
    decreases |x|
  {
    if |x| > 0 {
      if !b && MatchesAtStart(x) {
        FirstCharKept(true, x[10..]);
      } else {
        FirstCharKept(IsWordChar(x[0]), x[1..]);
      }
    }
  }

  /** The state after copying `p` from state `b`. */
  function StateAfter(b: bool, p: string): bool {
    if |p| == 0 then b else IsWordChar(p[|p| - 1])
  }

  /** Text without an `i` is copied as it is. */
  lemma {:induction false} CopyWithoutI(b: bool, p: string, y: string)
    requires 'i' !in p
    ensures Scan(b, p + y) == p + Scan(StateAfter(b, p), y)
    decreases |p|
  {
    if |p| > 0 {
      var x := p + y;
      assert x[0] == p[0] && x[1..] == p[1..] + y;
      CopyWithoutI(IsWordChar(p[0]), p[1..], y);
      assert StateAfter(IsWordChar(p[0]), p[1..]) == StateAfter(b, p);
      assert p == [p[0]] + p[1..];
    } else {
      assert p + y == y;
    }
  }

  /** An output that starts with text without an `i` was copied from an input
      starting with the same text. */
  lemma {:induction false} CopiedWithoutI(b: bool, x: string, p: string)
    requires 'i' !in p
    requires |Scan(b, x)| >= |p| && Scan(b, x)[..|p|] == p
    ensures |x| >= |p| && x[..|p|] == p
    decreases |p|
  {
    if |p| > 0 {
      FirstCharKept(b, x);
      assert |x| > 0;
      assert x[0] == p[0];
      var tail := Scan(IsWordChar(x[0]), x[1..]);
      assert Scan(b, x) == [x[0]] + tail;
      assert tail[..|p| - 1] == p[1..];
      CopiedWithoutI(IsWordChar(x[0]), x[1..], p[1..]);
      assert x[..|p|] == [x[0]] + x[1..][..|p| - 1];
    }
  }

  /** The replacement text is copied unchanged: `is:suspended` is not
      rewritten, since no boundary follows its `is:suspend`. */
  lemma FixedIsKept(b: bool, y: string)
    ensures Scan(b, Fixed + y) == Fixed + Scan(true, y)
  {
    var x := Fixed + y;
    assert x[10] == 'e';
    assert x[1..] == "s:suspended" + y;
    CopyWithoutI(true, "s:suspended", y);
  }

  // ---------------------------------------------------------------------
  // Properties

  /** The pattern with its trailing boundary at the start of `x`. */
  predicate MatchesAtStart(x: string) {
    StartsWith(x, Typo) && (|x| == 10 || !IsWordChar(x[10]))
  }

  /** Copying an `i` that did not start a match cannot make one start there:
      the nine characters after it would have been copied from the input,
      followed by the same kind of character. */
  lemma NoNewMatch(s: string)
    requires |s| > 0 && s[0] == 'i' && !MatchesAtStart(s)
    ensures !MatchesAtStart([s[0]] + Scan(true, s[1..]))
  {
    var t := Scan(true, s[1..]);
    var x := [s[0]] + t;
    if MatchesAtStart(x) {
      assert x[..10] == Typo;
      assert t[..9] == x[..10][1..];
      CopiedWithoutI(true, s[1..], "s:suspend");
      assert s[1..] == "s:suspend" + s[10..];
      CopyWithoutI(true, "s:suspend", s[10..]);
      FirstCharKept(true, s[10..]);
      assert false;
    }
  }

  /** One copying step of the scan. */
  lemma CopyStep(b: bool, c: char, t: string)
    requires b || c != 'i' || !MatchesAtStart([c] + t)
    ensures Scan(b, [c] + t) == [c] + Scan(IsWordChar(c), t)
  {
    var x := [c] + t;
    assert x[0] == c && x[1..] == t;
    if c != 'i' && |x| >= 10 {
      assert x[..10][0] == c;
    }
  }

  /** The scan is idempotent from every state. */
  lemma {:induction false} ScanIdempotent(b: bool, s: string)
    ensures Scan(b, Scan(b, s)) == Scan(b, s)
    decreases |s|
  {
    if |s| > 0 {
      if !b && MatchesAtStart(s) {
        ScanIdempotent(true, s[10..]);
        FixedIsKept(b, Scan(true, s[10..]));
      } else {
        var c := s[0];
        var t := Scan(IsWordChar(c), s[1..]);
        ScanIdempotent(IsWordChar(c), s[1..]);
        if !b && c == 'i' {
          NoNewMatch(s);
        }
        CopyStep(b, c, t);
      }
    }
  }

  /** Normalisation is idempotent. */
  lemma NormalizeIdempotent(q: string)
    ensures NormalizeSearchQuery(NormalizeSearchQuery(q)) == NormalizeSearchQuery(q)
  {
    if q != "" {
      ScanIdempotent(false, q);
      FirstCharKept(false, q);
    }
  }

  /** A query in which the pattern matches nowhere is returned unchanged. */
  lemma NoMatchUnchanged(q: string)
    requires forall i :: 0 <= i < |q| ==> !MatchAt(q, i)
    ensures NormalizeSearchQuery(q) == q
  {
    if q != "" {
      ScanCopiesFrom(q, 0);
      assert q[0..] == q;
    }
  }

  lemma {:induction false} ScanCopiesFrom(s: string, k: int)
    requires 0 <= k <= |s|
    requires forall i :: k <= i < |s| ==> !MatchAt(s, i)
    ensures Scan(AfterWordAt(s, k), s[k..]) == s[k..]
    decreases |s| - k
  {
    if k < |s| {
      ScanStepAt(s, k);
      ScanCopiesFrom(s, k + 1);
      assert s[k..] == [s[k]] + s[k + 1..];
    }
  }

  /** Position `i` lies strictly inside a match. */
  predicate InsideMatch(s: string, i: int) {
    exists k :: i - 10 < k < i && MatchAt(s, k)
  }

  /** Matches never overlap: the pattern's `i` occurs only at its start. */
  lemma NoOverlap(s: string, k: int, j: int)
    requires MatchAt(s, k) && k < j < k + 10
    ensures !MatchAt(s, j)
  {
    var m := j - k;
    assert s[j] == s[k..k + 10][m] == Typo[m];
    assert Typo[m] != 'i';
    assert j + 10 > |s| || s[j..j + 10][0] == s[j];
  }

  /** A position just past a match that is not inside one ends a match
      which itself starts outside any match. */
  lemma MatchEndingAt(s: string, i: int) returns (k: int)
    requires 0 < i <= |s| && !InsideMatch(s, i) && InsideMatch(s, i - 1)
    ensures k + 10 == i && MatchAt(s, k) && !InsideMatch(s, k)
  {
    k :| i - 11 < k < i - 1 && MatchAt(s, k);
    assert !(i - 10 < k < i && MatchAt(s, k));
    assert !InsideMatch(s, k) by {
      if InsideMatch(s, k) {
        var k' :| k - 10 < k' < k && MatchAt(s, k');
        NoOverlap(s, k', k);
      }
    }
  }

  /** A match ends with a word character. */
  lemma MatchEndsWord(s: string, k: int)
    requires MatchAt(s, k)
    ensures AfterWordAt(s, k + 10)
  {
    assert s[k + 9] == s[k..k + 10][9];
  }

  /** One replacing step of the scan, seen from the start of the text. */
  lemma ReachesPastMatch(s: string, k: int, q: string)
    requires MatchAt(s, k) && Scan(false, s) == q + Scan(AfterWordAt(s, k), s[k..])
    ensures Scan(false, s) == (q + Fixed) + Scan(AfterWordAt(s, k + 10), s[k + 10..])
  {
    ScanStepAt(s, k);
    MatchEndsWord(s, k);
  }

  /** One copying step of the scan, seen from the start of the text. */
  lemma ReachesPastChar(s: string, i: int, q: string)
    requires 0 <= i < |s| && !MatchAt(s, i)
    requires Scan(false, s) == q + Scan(AfterWordAt(s, i), s[i..])
    ensures Scan(false, s) == (q + [s[i]]) + Scan(AfterWordAt(s, i + 1), s[i + 1..])
  {
    ScanStepAt(s, i);
  }

  /** The scan passes through every position that is not inside a match:
      the output is some text followed by the scan of the rest from there. */
  lemma {:induction false} ScanReaches(s: string, i: int) returns (p: string)
    requires 0 <= i <= |s| && !InsideMatch(s, i)
    ensures Scan(false, s) == p + Scan(AfterWordAt(s, i), s[i..])
    decreases i
  {
    if i == 0 {
      assert s[0..] == s;
      p := "";
    } else if InsideMatch(s, i - 1) {
      var k := MatchEndingAt(s, i);
      var q := ScanReaches(s, k);
      ReachesPastMatch(s, k, q);
      p := q + Fixed;
    } else {
      var q := ScanReaches(s, i - 1);
      assert !MatchAt(s, i - 1) by {
        assert !(i - 10 < i - 1 < i && MatchAt(s, i - 1));
      }
      ReachesPastChar(s, i - 1, q);
      p := q + [s[i - 1]];
    }
  }

  /** Every whole-word occurrence of `is:suspend` becomes `is:suspended`, and
      the scan goes on after it. */
  lemma OccurrenceReplaced(q: string, i: int)
    requires MatchAt(q, i)
    ensures exists p :: NormalizeSearchQuery(q) == p + Fixed + Scan(true, q[i + 10..])
  {
    assert !InsideMatch(q, i) by {
      if InsideMatch(q, i) {
        var k :| i - 10 < k < i && MatchAt(q, k);
        NoOverlap(q, k, i);
      }
    }
    var p := ScanReaches(q, i);
    ScanStepAt(q, i);
    assert NormalizeSearchQuery(q) == p + Fixed + Scan(true, q[i + 10..]);
  }

  /** The query of the first end-to-end search test is rewritten. */
  lemma TypoRewritten()
    ensures NormalizeSearchQuery("is:suspend") == "is:suspended"
  {
    assert MatchesAtStart("is:suspend");
    assert Fixed + "" == Fixed;
  }

  /** The query of the second end-to-end search test is left alone. */
  lemma CorrectFormKept()
    ensures NormalizeSearchQuery("is:suspended") == "is:suspended"
  {
    FixedIsKept(false, "");
    assert Fixed + "" == Fixed;
  }

  /** No boundary before the pattern: after a word character other than
      `i`, the pattern is copied as it is (as in `this:suspend`). */
  lemma WordBeforeKept(b: bool, c: char, y: string)
    requires IsWordChar(c) && c != 'i'
    ensures Scan(b, [c] + Typo + y) == [c] + Typo + Scan(true, y)
  {
    var x := [c] + Typo + y;
    assert x == [c] + ("is:suspend" + y);
    CopyStep(b, c, Typo + y);
    assert Typo + y == ['i'] + ("s:suspend" + y);
    CopyStep(true, 'i', "s:suspend" + y);
    CopyWithoutI(true, "s:suspend", y);
  }
}
