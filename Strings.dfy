/**
 * The Kotlin/JVM string operations the core relies on, over `seq<char>`:
 * `startsWith`, `endsWith`, `indexOf`, `substringAfter`, `substringAfterLast`,
 * `split` and `joinToString` on a one-character delimiter, `removePrefix`,
 * `replace` of one character, `isBlank`, `Char.isDigit`, `Int.toString`
 * and `String.toIntOrNull` (whose accepting case is also `String.toInt`).
 */
module Strings {
  import opened Wrappers

  predicate StartsWith(s: string, prefix: string) {
    |prefix| <= |s| && s[..|prefix|] == prefix
  }

  predicate EndsWith(s: string, suffix: string) {
    |suffix| <= |s| && s[|s| - |suffix|..] == suffix
  }

  /** `pat` occurs in `s` starting at index `i`. */
  predicate OccursAt(s: string, pat: string, i: nat) {
    i + |pat| <= |s| && s[i..i + |pat|] == pat
  }

  /** `s.indexOf(pat, from)`: the first occurrence of `pat` at or after `from`. */
  function IndexOfFrom(s: string, pat: string, from: nat): (r: Option<nat>)
    decreases |s| - from
    ensures r.Some? ==> from <= r.value && OccursAt(s, pat, r.value)
    ensures r.Some? ==> forall j :: from <= j < r.value ==> !OccursAt(s, pat, j)
    ensures r.None? ==> forall j :: from <= j ==> !OccursAt(s, pat, j)
  {
    if |s| < from + |pat| then None
    else if OccursAt(s, pat, from) then Some(from)
    else IndexOfFrom(s, pat, from + 1)
  }

  /** `s.indexOf(pat)`, with `None` for Kotlin's -1. */
  function IndexOf(s: string, pat: string): Option<nat> {
    IndexOfFrom(s, pat, 0)
  }

  /** `s.split(delim).first()`: the text before the first `delim`, or all of `s`. */
  function BeforeFirst(s: string, delim: string): (r: string)
    ensures IsPrefixOf(r, s)
  {
    match IndexOf(s, delim)
    case Some(i) => s[..i]
    case None => s
  }

  predicate IsPrefixOf(p: string, s: string) {
    StartsWith(s, p)
  }

  /** `s.substringAfter(delim)`: the text after the first `delim`, or all of `s` when absent. */
  function SubstringAfter(s: string, delim: string): string {
    match IndexOf(s, delim)
    case Some(i) => s[i + |delim|..]
    case None => s
  }

  /** `s.lastIndexOf(c)`, with `None` for Kotlin's -1. */
  function LastIndexOf(s: string, c: char): (r: Option<nat>)
    ensures r.Some? ==> r.value < |s| && s[r.value] == c
    ensures r.Some? ==> forall j :: r.value < j < |s| ==> s[j] != c
    ensures r.None? ==> c !in s
  {
    if |s| == 0 then None
    else if s[|s| - 1] == c then Some(|s| - 1)
    else LastIndexOf(s[..|s| - 1], c)
  }

  /** `s.substringAfterLast(c)`: the text after the last `c`, or all of `s` when absent. */
  function SubstringAfterLast(s: string, c: char): (r: string)
    ensures c !in r
    ensures EndsWith(s, r)
    ensures |r| < |s| ==> s[|s| - |r| - 1] == c
    ensures c !in s ==> r == s
  {
    match LastIndexOf(s, c)
    case Some(i) => s[i + 1..]
    case None => s
  }

  /** `s.removePrefix(p)`. */
  function RemovePrefix(s: string, p: string): (r: string)
    ensures StartsWith(s, p) ==> s == p + r
    ensures !StartsWith(s, p) ==> r == s
  {
    if StartsWith(s, p) then s[|p|..] else s
  }

  /** `s.replace(a, b)` for one-character strings `a` and `b`. */
  function ReplaceChar(s: string, a: char, b: char): (r: string)
    ensures |r| == |s|
    ensures forall i :: 0 <= i < |s| ==> r[i] == (if s[i] == a then b else s[i])
  {
    if |s| == 0 then "" else [if s[0] == a then b else s[0]] + ReplaceChar(s[1..], a, b)
  }

  /** `s.split(c)` for a one-character delimiter: the segments between the delimiters. */
  function Split(s: string, c: char): (parts: seq<string>)
    ensures |parts| >= 1
    ensures forall i :: 0 <= i < |parts| ==> c !in parts[i]
  {
    if |s| == 0 then [""]
    else
      var rest := Split(s[1..], c);
      if s[0] == c then [""] + rest
      else [[s[0]] + rest[0]] + rest[1..]
  }

  /** `parts.joinToString(c)`. */
  function Join(parts: seq<string>, c: char): string
    requires |parts| >= 1
  {
    if |parts| == 1 then parts[0] else parts[0] + [c] + Join(parts[1..], c)
  }

  /** Joining the segments of a split gives back the string. */
  lemma {:induction false} JoinSplit(s: string, c: char)
    ensures Join(Split(s, c), c) == s
  {
    if |s| > 0 {
      var rest := Split(s[1..], c);
      JoinSplit(s[1..], c);
      if s[0] == c {
        assert Join([""] + rest, c) == "" + [c] + Join(rest, c);
      } else {
        var parts := [[s[0]] + rest[0]] + rest[1..];
        if |rest| > 1 {
          assert parts[1..] == rest[1..];
          assert Join(parts, c) == [s[0]] + rest[0] + [c] + Join(rest[1..], c);
        }
        assert Join(parts, c) == [s[0]] + Join(rest, c);
      }
      assert s == [s[0]] + s[1..];
    }
  }

  function Count(s: string, c: char): nat {
    if |s| == 0 then 0 else (if s[0] == c then 1 else 0) + Count(s[1..], c)
  }

  /** A split has one more segment than the string has delimiters. */
  lemma {:induction false} SplitLength(s: string, c: char)
    ensures |Split(s, c)| == Count(s, c) + 1
  {
    if |s| > 0 {
      SplitLength(s[1..], c);
    }
  }

  /** Splitting at the first delimiter: the head segment is the text before it. */
  lemma {:induction false} SplitAtFirst(s: string, c: char, k: nat)
    requires k < |s| && s[k] == c
    requires forall j :: 0 <= j < k ==> s[j] != c
    ensures Split(s, c) == [s[..k]] + Split(s[k + 1..], c)
  {
    if k > 0 {
      SplitAtFirst(s[1..], c, k - 1);
      assert s[1..][k..] == s[k + 1..];
      assert [s[0]] + s[1..][..k - 1] == s[..k];
    }
  }

  /** The first occurrence of a one-character pattern is the first index holding it. */
  lemma IndexOfChar(s: string, c: char)
    requires c in s
    ensures IndexOf(s, [c]).Some?
    ensures var k := IndexOf(s, [c]).value;
      k < |s| && s[k] == c && forall j :: 0 <= j < k ==> s[j] != c
  {
    var i :| 0 <= i < |s| && s[i] == c;
    assert OccursAt(s, [c], i);
    var k := IndexOf(s, [c]).value;
    forall j | 0 <= j < k ensures s[j] != c {
      assert !OccursAt(s, [c], j);
      assert s[j..j + 1] == [s[j]];
    }
  }

  /** Dropping the first segment and re-joining is `substringAfter` of the delimiter. */
  lemma SplitTailJoin(s: string, c: char)
    requires c in s
    ensures |Split(s, c)| >= 2
    ensures Join(Split(s, c)[1..], c) == SubstringAfter(s, [c])
  {
    IndexOfChar(s, c);
    var k := IndexOf(s, [c]).value;
    SplitAtFirst(s, c, k);
    assert Split(s, c)[1..] == Split(s[k + 1..], c);
    JoinSplit(s[k + 1..], c);
  }

  /** `substringAfter` of a prefix the string starts with drops exactly that prefix. */
  lemma SubstringAfterPrefix(s: string, p: string)
    requires StartsWith(s, p)
    ensures SubstringAfter(s, p) == s[|p|..]
  {
    assert OccursAt(s, p, 0);
  }

  /** `Char.isDigit`, restricted to the ASCII digits. */
  predicate IsDigit(ch: char) {
    '0' <= ch <= '9'
  }

  predicate AllDigits(s: string) {
    forall i :: 0 <= i < |s| ==> IsDigit(s[i])
  }

  /** `Char.isWhitespace` on the JVM: Java's whitespace and space characters. */
  predicate IsWhitespace(ch: char) {
    || ch == ' ' || ch == '\t' || ch == '\n' || ch == '\r'
    || ch == '\U{000B}' || ch == '\U{000C}'
    || ('\U{001C}' <= ch <= '\U{001F}')
    || ch == '\U{00A0}' || ch == '\U{1680}'
    || ('\U{2000}' <= ch <= '\U{200A}')
    || ch == '\U{2028}' || ch == '\U{2029}' || ch == '\U{202F}' || ch == '\U{205F}' || ch == '\U{3000}'
  }

  /** `s.isBlank()`: empty or whitespace only. */
  predicate IsBlank(s: string) {
    forall i :: 0 <= i < |s| ==> IsWhitespace(s[i])
  }

  /** `s.isNullOrBlank()` for a nullable string. */
  predicate IsNullOrBlank(s: Option<string>) {
    s.None? || IsBlank(s.value)
  }

  /** The decimal value of a string of ASCII digits. */
  function DigitsValue(ds: string): nat
    requires AllDigits(ds)
  {
    if |ds| == 0 then 0
    else DigitsValue(ds[..|ds| - 1]) * 10 + (ds[|ds| - 1] as int - '0' as int)
  }

  const IntMin: int := -0x8000_0000
  const IntMax: int := 0x7FFF_FFFF

  /** The range of a Kotlin `Int`. */
  predicate IsInt32(n: int) {
    IntMin <= n <= IntMax
  }

  /** The text after an optional leading `+` or `-`. */
  function Unsigned(s: string): string {
    if |s| > 0 && (s[0] == '-' || s[0] == '+') then s[1..] else s
  }

  /** An optional sign followed by at least one digit. */
  predicate IsNumeral(s: string) {
    |Unsigned(s)| > 0 && AllDigits(Unsigned(s))
  }

  /** The value a numeral denotes: its digits' value, negated after a `-`. */
  function NumeralValue(s: string): int
    requires IsNumeral(s)
  {
    var m: int := DigitsValue(Unsigned(s));
    if s[0] == '-' then -m else m
  }

  /** Digits read from the left, each step multiplying what was read so far by ten. */
  function ReadDigits(acc: int, ds: string): int
    requires AllDigits(ds)
    decreases |ds|
  {
    if |ds| == 0 then acc else ReadDigits(acc * 10 + (ds[0] as int - '0' as int), ds[1..])
  }

  lemma {:induction false} ReadDigitsSnoc(acc: int, ds: string, ch: char)
    requires AllDigits(ds) && IsDigit(ch)
    decreases |ds|
    ensures ReadDigits(acc, ds + [ch]) == ReadDigits(acc, ds) * 10 + (ch as int - '0' as int)
  {
    if |ds| > 0 {
      assert (ds + [ch])[1..] == ds[1..] + [ch];
      ReadDigitsSnoc(acc * 10 + (ds[0] as int - '0' as int), ds[1..], ch);
    }
  }

  /** Reading digits from the left gives their decimal value. */
  lemma {:induction false} ReadDigitsValue(ds: string)
    requires AllDigits(ds)
    ensures ReadDigits(0, ds) == DigitsValue(ds)
  {
    if |ds| > 0 {
      var init := ds[..|ds| - 1];
      ReadDigitsValue(init);
      ReadDigitsSnoc(0, init, ds[|ds| - 1]);
      assert init + [ds[|ds| - 1]] == ds;
    }
  }

  /**
   * `String.toIntOrNull()` (and `String.toInt()`, which throws where this is `None`):
   * an optional `+` or `-` followed by at least one digit, whose value fits in an `Int`.
   */
  function ParseInt(s: string): (r: Option<int>)
    ensures r.Some? <==> IsNumeral(s) && IsInt32(NumeralValue(s))
    ensures r.Some? ==> r.value == NumeralValue(s)
  {
    if |s| == 0 then None
    else
      var digits := if s[0] == '-' || s[0] == '+' then s[1..] else s;
      if |digits| == 0 || !AllDigits(digits) then None
      else
        var magnitude := ReadDigits(0, digits);
        ReadDigitsValue(digits);
        var v := if s[0] == '-' then -magnitude else magnitude;
        if IsInt32(v) then Some(v) else None
  }

  function DigitChar(d: nat): (ch: char)
    requires d < 10
    ensures IsDigit(ch) && ch as int - '0' as int == d
  {
    (d + '0' as int) as char
  }

  /** Decimal digits of a natural number, without leading zeros. */
  function NatToString(n: nat): (s: string)
    ensures |s| >= 1 && AllDigits(s)
  {
    if n < 10 then [DigitChar(n)] else NatToString(n / 10) + [DigitChar(n % 10)]
  }

  /** `Int.toString()`. */
  function IntToString(n: int): string {
    if n < 0 then "-" + NatToString(-n) else NatToString(n)
  }

  lemma {:induction false} NatToStringValue(n: nat)
    ensures DigitsValue(NatToString(n)) == n
  {
    if n >= 10 {
      NatToStringValue(n / 10);
      var s := NatToString(n);
      assert s[..|s| - 1] == NatToString(n / 10);
    }
  }

  /** Parsing the decimal form of an `Int` gives the number back. */
  lemma ParseIntToString(n: int)
    requires IsInt32(n)
    ensures ParseInt(IntToString(n)) == Some(n)
  {
    var s := IntToString(n);
    if n < 0 {
      NatToStringValue(-n);
      assert s[1..] == NatToString(-n);
    } else {
      NatToStringValue(n);
    }
  }

  /** The decimal form of a number holds no character other than a sign and digits. */
  lemma IntToStringChars(n: int, c: char)
    requires !IsDigit(c) && c != '-'
    ensures c !in IntToString(n)
  {
  }
}
