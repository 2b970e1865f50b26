/**
 * The JavaScript string operations the front end relies on, written out as
 * sequence functions: `split`/`join` with a one-character separator, `trim`,
 * `toLowerCase`, `startsWith`, `includes`, `String(n)` for integers and
 * `parseInt(s, 10)`.
 */
module JsText {
  import opened Wrappers

  /** `\s` in a JavaScript regular expression, which is also the set of code
      points `String.prototype.trim` removes (WhiteSpace and LineTerminator). */
  predicate IsWhitespace(c: char) {
    || c == ' ' || c == '\t' || c == '\n' || c == '\r' || c == '\U{B}' || c == '\U{C}'
    || c == '\U{A0}' || c == '\U{1680}' || ('\U{2000}' <= c <= '\U{200A}')
    || c == '\U{2028}' || c == '\U{2029}' || c == '\U{202F}' || c == '\U{205F}'
    || c == '\U{3000}' || c == '\U{FEFF}'
  }

  /** `\w` in a JavaScript regular expression without the `u` and `i` flags. */
  predicate IsWordChar(c: char) {
    ('a' <= c <= 'z') || ('A' <= c <= 'Z') || ('0' <= c <= '9') || c == '_'
  }

  predicate NoWhitespace(s: string) {
    forall i :: 0 <= i < |s| ==> !IsWhitespace(s[i])
  }

  // ---------------------------------------------------------------------------
  // split and join
  // ---------------------------------------------------------------------------

  /** `s.split(sep)` for a one-character separator: the pieces between
      separators, empty pieces included; never an empty list. */
  function Split(s: string, sep: char): (parts: seq<string>)
    ensures |parts| >= 1
  {
    if |s| == 0 then [""]
    else
      var rest := Split(s[1..], sep);
      if s[0] == sep then [""] + rest
      else [[s[0]] + rest[0]] + rest[1..]
  }

  /** `parts.join(sep)`; an empty list joins to the empty string. */
  function Join(parts: seq<string>, sep: char): string {
    if |parts| == 0 then ""
    else if |parts| == 1 then parts[0]
    else parts[0] + [sep] + Join(parts[1..], sep)
  }

  /** Joining the pieces back with the separator restores the input. */
  lemma {:induction false} JoinSplit(s: string, sep: char)
    ensures Join(Split(s, sep), sep) == s
  {
    if |s| > 0 {
      JoinSplit(s[1..], sep);
      var rest := Split(s[1..], sep);
      if s[0] == sep {
        assert ([""] + rest)[1..] == rest;
      } else if |rest| > 1 {
        assert ([[s[0]] + rest[0]] + rest[1..])[1..] == rest[1..];
      }
      assert s == [s[0]] + s[1..];
    }
  }

  /** No piece contains the separator. */
  lemma {:induction false} SplitPiecesHaveNoSep(s: string, sep: char)
    ensures forall k :: 0 <= k < |Split(s, sep)| ==> sep !in Split(s, sep)[k]
  {
    if |s| > 0 {
      SplitPiecesHaveNoSep(s[1..], sep);
      var rest := Split(s[1..], sep);
      if s[0] != sep {
        var parts := Split(s, sep);
        forall k | 0 <= k < |parts| ensures sep !in parts[k] {
          if k == 0 {
            assert parts[0] == [s[0]] + rest[0];
          } else {
            assert parts[k] == rest[k];
          }
        }
      }
    }
  }

  /** How many times `c` occurs in `s`. */
  function CountChar(s: string, c: char): nat {
    if |s| == 0 then 0 else (if s[0] == c then 1 else 0) + CountChar(s[1..], c)
  }

  /** There is one more piece than there are separators. */
  lemma {:induction false} SplitLength(s: string, sep: char)
    ensures |Split(s, sep)| == CountChar(s, sep) + 1
  {
    if |s| > 0 {
      SplitLength(s[1..], sep);
    }
  }

  /** A character occurs iff it is counted. */
  lemma {:induction false} CountCharPositive(s: string, c: char)
    ensures CountChar(s, c) > 0 <==> c in s
  {
    if |s| > 0 {
      CountCharPositive(s[1..], c);
      assert s == [s[0]] + s[1..];
    }
  }

  /** One step of `Split`, stated for a string given as head and tail. */
  lemma SplitCons(c: char, t: string, sep: char)
    ensures Split([c] + t, sep)
         == (var r := Split(t, sep); if c == sep then [""] + r else [[c] + r[0]] + r[1..])
  {
    assert ([c] + t)[1..] == t;
  }

  /** `SplitCons` when the tail's pieces are known to end with `rb`. */
  lemma SplitConsAppend(c: char, x: string, rx: seq<string>, rb: seq<string>, sep: char)
    requires |rx| >= 1
    requires Split(x, sep) == rx + rb
    ensures Split([c] + x, sep)
         == (if c == sep then [""] + rx else [[c] + rx[0]] + rx[1..]) + rb
  {
    SplitCons(c, x, sep);
    assert (rx + rb)[0] == rx[0];
    assert (rx + rb)[1..] == rx[1..] + rb;
  }

  /** Splitting at an occurrence of the separator splits each side independently. */
  lemma {:induction false} SplitAtSep(a: string, b: string, sep: char)
    ensures Split(a + [sep] + b, sep) == Split(a, sep) + Split(b, sep)
  {
    if |a| == 0 {
      assert a + [sep] + b == [sep] + b;
      SplitCons(sep, b, sep);
    } else {
      var a' := a[1..];
      SplitAtSep(a', b, sep);
      assert a + [sep] + b == [a[0]] + (a' + [sep] + b);
      SplitConsAppend(a[0], a' + [sep] + b, Split(a', sep), Split(b, sep), sep);
      assert a == [a[0]] + a';
      SplitCons(a[0], a', sep);
    }
  }

  /** A string without the separator is a single piece. */
  lemma {:induction false} SplitWithoutSep(s: string, sep: char)
    requires sep !in s
    ensures Split(s, sep) == [s]
  {
    if |s| > 0 {
      assert sep !in s[1..] by {
        forall i | 0 <= i < |s[1..]| ensures s[1..][i] != sep { assert s[1..][i] == s[i + 1]; }
      }
      SplitWithoutSep(s[1..], sep);
      assert s == [s[0]] + s[1..];
    }
  }

  /** Splitting a join of separator-free pieces gives the pieces back. */
  lemma {:induction false} SplitJoin(parts: seq<string>, sep: char)
    requires |parts| >= 1
    requires forall k :: 0 <= k < |parts| ==> sep !in parts[k]
    ensures Split(Join(parts, sep), sep) == parts
  {
    if |parts| == 1 {
      SplitWithoutSep(parts[0], sep);
    } else {
      SplitJoin(parts[1..], sep);
      SplitAtSep(parts[0], Join(parts[1..], sep), sep);
      SplitWithoutSep(parts[0], sep);
      assert parts == [parts[0]] + parts[1..];
    }
  }

  /** Appending one piece to a non-empty list adds one separator and the piece. */
  lemma {:induction false} JoinAppend(parts: seq<string>, w: string, sep: char)
    requires |parts| >= 1
    ensures Join(parts + [w], sep) == Join(parts, sep) + [sep] + w
  {
    if |parts| > 1 {
      JoinAppend(parts[1..], w, sep);
      assert (parts + [w])[1..] == parts[1..] + [w];
    } else {
      assert (parts + [w])[1..] == [w];
    }
  }

  /** The position just after the last `sep` in `s`, or 0 when `s` has none. */
  function AfterLastSep(s: string, sep: char): (k: nat)
    ensures k <= |s|
    ensures sep !in s[k..]
    ensures k > 0 ==> s[k - 1] == sep
  {
    if |s| == 0 then 0
    else if s[|s| - 1] == sep then |s|
    else
      var k := AfterLastSep(s[..|s| - 1], sep);
      assert s[k..] == s[..|s| - 1][k..] + [s[|s| - 1]];
      k
  }

  /** The last piece of a split is the text after the last separator, and
      replacing it by `w` (then joining) keeps everything up to and including
      that separator. */
  lemma {:induction false} ReplaceLastPiece(s: string, w: string, sep: char)
    ensures var parts := Split(s, sep);
      && parts[|parts| - 1] == s[AfterLastSep(s, sep)..]
      && Join(parts[..|parts| - 1] + [w], sep) == s[..AfterLastSep(s, sep)] + w
  {
    var k := AfterLastSep(s, sep);
    var b := s[k..];
    SplitWithoutSep(b, sep);
    if k == 0 {
      assert s == b;
    } else {
      var a := s[..k - 1];
      assert s == a + [sep] + b;
      SplitAtSep(a, b, sep);
      var pa := Split(a, sep);
      var parts := Split(s, sep);
      assert parts == pa + [b];
      assert parts[..|parts| - 1] == pa;
      JoinAppend(pa, w, sep);
      JoinSplit(a, sep);
      assert s[..k] == a + [sep];
    }
  }

  // ---------------------------------------------------------------------------
  // trim
  // ---------------------------------------------------------------------------

  /** Drops leading whitespace: the result is the suffix of `s` that starts at
      the first non-whitespace character. */
  function TrimStart(s: string): (r: string)
    ensures |r| <= |s| && r == s[|s| - |r|..]
    ensures forall i :: 0 <= i < |s| - |r| ==> IsWhitespace(s[i])
    ensures |r| > 0 ==> !IsWhitespace(r[0])
  {
    if |s| > 0 && IsWhitespace(s[0]) then TrimStart(s[1..]) else s
  }

  /** Drops trailing whitespace: the result is the prefix of `s` that ends at
      the last non-whitespace character. */
  function TrimEnd(s: string): (r: string)
    ensures |r| <= |s| && r == s[..|r|]
    ensures forall i :: |r| <= i < |s| ==> IsWhitespace(s[i])
    ensures |r| > 0 ==> !IsWhitespace(r[|r| - 1])
  {
    if |s| > 0 && IsWhitespace(s[|s| - 1]) then TrimEnd(s[..|s| - 1]) else s
  }

  /** `s.trim()`. */
  function Trim(s: string): (r: string)
    ensures |r| > 0 ==> !IsWhitespace(r[0]) && !IsWhitespace(r[|r| - 1])
  {
    TrimEnd(TrimStart(s))
  }

  /** Trimming only removes characters. */
  lemma TrimKeepsChars(s: string)
    ensures forall c :: c in Trim(s) ==> c in s
  {
    var t := TrimStart(s);
    forall c | c in Trim(s) ensures c in s {
      var i :| 0 <= i < |Trim(s)| && Trim(s)[i] == c;
      assert Trim(s)[i] == t[i];
      assert t[i] == s[|s| - |t| + i];
    }
  }

  /** Trimming a string with no whitespace at either end changes nothing, and
      trimming a string made only of whitespace gives the empty string. */
  lemma TrimFixedPoints(s: string)
    ensures (|s| == 0 || (!IsWhitespace(s[0]) && !IsWhitespace(s[|s| - 1]))) ==> Trim(s) == s
    ensures (forall i :: 0 <= i < |s| ==> IsWhitespace(s[i])) ==> Trim(s) == ""
  {
  }

  // ---------------------------------------------------------------------------
  // toLowerCase, startsWith, includes
  // ---------------------------------------------------------------------------

  function LowerChar(c: char): char {
    if 'A' <= c <= 'Z' then (c as int + 32) as char else c
  }

  /** `s.toLowerCase()` on ASCII letters. */
  function ToLower(s: string): (r: string)
    ensures |r| == |s|
  {
    if |s| == 0 then "" else [LowerChar(s[0])] + ToLower(s[1..])
  }

  /** Each character is lowered on its own. */
  lemma {:induction false} ToLowerAt(s: string)
    ensures forall i :: 0 <= i < |s| ==> ToLower(s)[i] == LowerChar(s[i])
  {
    if |s| > 0 {
      ToLowerAt(s[1..]);
      assert forall i :: 1 <= i < |s| ==> ToLower(s)[i] == ToLower(s[1..])[i - 1];
    }
  }

  /** Lowering a prefix is a prefix of the lowered text. */
  lemma ToLowerPrefix(s: string, n: nat)
    requires n <= |s|
    ensures ToLower(s)[..n] == ToLower(s[..n])
  {
    ToLowerAt(s);
    ToLowerAt(s[..n]);
  }

  /** `s.startsWith(prefix)`. */
  predicate StartsWith(s: string, prefix: string) {
    |prefix| <= |s| && s[..|prefix|] == prefix
  }

  /** `s.includes(sub)`. */
  predicate Includes(s: string, sub: string) {
    if StartsWith(s, sub) then true else |s| > 0 && Includes(s[1..], sub)
  }

  /** Text that starts with `sub` still does once both are lowered. */
  lemma StartsWithLower(s: string, sub: string)
    requires StartsWith(s, sub)
    ensures StartsWith(ToLower(s), ToLower(sub))
  {
    ToLowerPrefix(s, |sub|);
  }

  /** Text that contains `sub` still does once both are lowered. */
  lemma {:induction false} IncludesLower(s: string, sub: string)
    requires Includes(s, sub)
    ensures Includes(ToLower(s), ToLower(sub))
  {
    if StartsWith(s, sub) {
      StartsWithLower(s, sub);
    } else {
      IncludesLower(s[1..], sub);
      assert ToLower(s)[1..] == ToLower(s[1..]);
    }
  }

  // ---------------------------------------------------------------------------
  // String(n) and parseInt(s, 10)
  // ---------------------------------------------------------------------------

  predicate IsDigit(c: char) {
    '0' <= c <= '9'
  }

  predicate AllDigits(s: string) {
    forall i :: 0 <= i < |s| ==> IsDigit(s[i])
  }

  function DigitChar(d: nat): char
    requires d < 10
  {
    ('0' as int + d) as char
  }

  /** Decimal digits of `n`, most significant first, without leading zeros. */
  function NatToString(n: nat): (r: string)
    ensures |r| >= 1 && AllDigits(r)
    ensures |r| > 1 ==> r[0] != '0'
  {
    if n < 10 then [DigitChar(n)] else NatToString(n / 10) + [DigitChar(n % 10)]
  }

  /** `String(n)` for an integer. */
  function IntToString(n: int): (r: string)
    ensures |r| >= 1
  {
    if n < 0 then "-" + NatToString(-n) else NatToString(n)
  }

  /** The number a string of decimal digits denotes. */
  function DigitsValue(s: string): nat
    requires AllDigits(s)
  {
    if |s| == 0 then 0 else DigitsValue(s[..|s| - 1]) * 10 + (s[|s| - 1] as int - '0' as int)
  }

  /** The longest prefix of `s` made of decimal digits. */
  function DigitPrefix(s: string): (d: string)
    ensures |d| <= |s| && d == s[..|d|] && AllDigits(d)
    ensures |d| < |s| ==> !IsDigit(s[|d|])
  {
    if |s| > 0 && IsDigit(s[0]) then [s[0]] + DigitPrefix(s[1..]) else ""
  }

  /** The value of the digit run at the start of `body`, if there is one. */
  function LeadingDigits(body: string): Option<int> {
    var d := DigitPrefix(body);
    if |d| == 0 then None else Some(DigitsValue(d) as int)
  }

  /** `parseInt(s, 10)`: leading whitespace, an optional sign, then the longest
      run of digits; `None` stands for NaN (no digit where one is expected). */
  function ParseInt(s: string): Option<int> {
    var t := TrimStart(s);
    if |t| > 0 && t[0] == '-' then
      match LeadingDigits(t[1..])
      case None => None
      case Some(v) => Some(-v)
    else if |t| > 0 && t[0] == '+' then LeadingDigits(t[1..])
    else LeadingDigits(t)
  }

  lemma {:induction false} NatToStringValue(n: nat)
    ensures DigitsValue(NatToString(n)) == n
  {
    if n >= 10 {
      NatToStringValue(n / 10);
      var s := NatToString(n);
      assert s[..|s| - 1] == NatToString(n / 10);
    }
  }

  lemma {:induction false} DigitPrefixOfDigits(s: string)
    requires AllDigits(s)
    ensures DigitPrefix(s) == s
  {
    if |s| > 0 {
      DigitPrefixOfDigits(s[1..]);
      assert s == [s[0]] + s[1..];
    }
  }

  /** Digits followed by a non-digit: the digit run is exactly those digits. */
  lemma {:induction false} DigitPrefixStops(d: string, rest: string)
    requires AllDigits(d)
    requires |rest| == 0 || !IsDigit(rest[0])
    ensures DigitPrefix(d + rest) == d
  {
    if |d| > 0 {
      DigitPrefixStops(d[1..], rest);
      assert (d + rest)[1..] == d[1..] + rest;
      assert d == [d[0]] + d[1..];
    } else {
      assert d + rest == rest;
    }
  }

  lemma TrimStartKeeps(s: string)
    requires |s| > 0 && !IsWhitespace(s[0])
    ensures TrimStart(s) == s
  {
  }

  lemma ParseIntOfDigits(d: string)
    requires |d| >= 1 && AllDigits(d)
    ensures ParseInt(d) == Some(DigitsValue(d) as int)
  {
    TrimStartKeeps(d);
    LeadingDigitsOfDigits(d);
  }

  lemma ParseIntOfNegatedDigits(s: string)
    requires |s| >= 2 && s[0] == '-' && AllDigits(s[1..])
    ensures ParseInt(s) == Some(-(DigitsValue(s[1..]) as int))
  {
    TrimStartKeeps(s);
    LeadingDigitsOfDigits(s[1..]);
  }

  lemma LeadingDigitsOfDigits(d: string)
    requires |d| >= 1 && AllDigits(d)
    ensures LeadingDigits(d) == Some(DigitsValue(d) as int)
  {
    DigitPrefixOfDigits(d);
  }

  /** What `String(n)` writes, `parseInt` reads back. */
  lemma ParseIntToString(n: int)
    ensures ParseInt(IntToString(n)) == Some(n)
  {
    var m: nat := if n < 0 then -n else n;
    NatToStringValue(m);
    if n < 0 {
      var s := IntToString(n);
      assert s[1..] == NatToString(m);
      ParseIntOfNegatedDigits(s);
    } else {
      ParseIntOfDigits(NatToString(m));
    }
  }

  // ---------------------------------------------------------------------------
  // map(trim) and filter(Boolean)
  // ---------------------------------------------------------------------------

  /** `xs.map((x) => x.trim())`. */
  function TrimAll(xs: seq<string>): seq<string> {
    seq(|xs|, i requires 0 <= i < |xs| => Trim(xs[i]))
  }

  /** `xs.filter(Boolean)`: drops the empty strings, keeps the rest in order. */
  function DropEmpty(xs: seq<string>): seq<string> {
    if |xs| == 0 then []
    else (if xs[0] == "" then [] else [xs[0]]) + DropEmpty(xs[1..])
  }

  /** What is kept is non-empty and was in the list. */
  lemma {:induction false} DropEmptyKept(xs: seq<string>)
    ensures forall i :: 0 <= i < |DropEmpty(xs)| ==> DropEmpty(xs)[i] != "" && DropEmpty(xs)[i] in xs
  {
    if |xs| > 0 {
      DropEmptyKept(xs[1..]);
    }
  }

  /** Without empty strings there is nothing to drop. */
  lemma {:induction false} DropEmptyKeeps(xs: seq<string>)
    requires forall i :: 0 <= i < |xs| ==> xs[i] != ""
    ensures DropEmpty(xs) == xs
  {
    if |xs| > 0 {
      DropEmptyKeeps(xs[1..]);
    }
  }
}
