/**
 * The JavaScript string and number built-ins the bot relies on, as defined by ECMA-262:
 * white space (sections 12.2 and 12.3), String.prototype.trim / split / indexOf /
 * toLowerCase, Annex B String.prototype.substr, parseInt (section 19.2.5) and isNaN
 * applied to a string (section 19.2.3, through StringToNumber of section 7.1.4.1.1).
 */
module JsText {
  import opened Wrappers

  // ---------------------------------------------------------------- characters

  /** LineTerminator: the characters a regular expression `.` does not match. */
  predicate IsLineTerminator(c: char) {
    c == '\n' || c == '\r' || c == '\U{2028}' || c == '\U{2029}'
  }

  /** WhiteSpace or LineTerminator: what `trim` removes and `parseInt` skips. */
  predicate IsWhitespace(c: char) {
    IsLineTerminator(c) || c == '\t' || c == '\U{000B}' || c == '\U{000C}' || c == ' '
    || c == '\U{00A0}' || c == '\U{1680}' || ('\U{2000}' <= c <= '\U{200A}')
    || c == '\U{202F}' || c == '\U{205F}' || c == '\U{3000}' || c == '\U{FEFF}'
  }

  predicate IsDigit(c: char) { '0' <= c <= '9' }

  predicate AllDigits(s: string) { forall k :: 0 <= k < |s| ==> IsDigit(s[k]) }

  predicate NoLineTerminator(s: string) { forall k :: 0 <= k < |s| ==> !IsLineTerminator(s[k]) }

  predicate IsBlank(s: string) { forall k :: 0 <= k < |s| ==> IsWhitespace(s[k]) }

  predicate StartsWith(s: string, prefix: string) { |prefix| <= |s| && s[..|prefix|] == prefix }

  // ---------------------------------------------------------------- trim

  function TrimStart(s: string): (r: string)
    ensures |r| <= |s| && r == s[|s| - |r|..]
    ensures forall k :: 0 <= k < |s| - |r| ==> IsWhitespace(s[k])
    ensures r == [] || !IsWhitespace(r[0])
  {
    if s != [] && IsWhitespace(s[0]) then TrimStart(s[1..]) else s
  }

  function TrimEnd(s: string): (r: string)
    ensures |r| <= |s| && r == s[..|r|]
    ensures forall k :: |r| <= k < |s| ==> IsWhitespace(s[k])
    ensures r == [] || !IsWhitespace(r[|r| - 1])
  {
    if s != [] && IsWhitespace(s[|s| - 1]) then TrimEnd(s[..|s| - 1]) else s
  }

  /**
   * String.prototype.trim: drops the leading and the trailing white space. That only
   * white space at the ends goes is stated by TrimInfix.
   */
  function Trim(s: string): (r: string)
    ensures |r| <= |s|
    ensures r == [] || (!IsWhitespace(r[0]) && !IsWhitespace(r[|r| - 1]))
  {
    TrimEnd(TrimStart(s))
  }

  /** `r` is the part of `s` from `i` on that has only white space before and after it. */
  predicate BetweenBlanks(s: string, r: string, i: int) {
    0 <= i && i + |r| <= |s| && r == s[i..i + |r|] && IsBlank(s[..i]) && IsBlank(s[i + |r|..])
  }

  /** The characters of `s` from `lo` to `hi` are white space, as a slice. */
  lemma BlankSlice(s: string, lo: nat, hi: nat)
    requires lo <= hi <= |s|
    requires forall k :: lo <= k < hi ==> IsWhitespace(s[k])
    ensures IsBlank(s[lo..hi])
  {
    forall k | 0 <= k < hi - lo ensures IsWhitespace(s[lo..hi][k]) {
      assert s[lo..hi][k] == s[lo + k];
    }
  }

  /** What TrimStart drops is white space. */
  lemma TrimStartDropsBlank(s: string)
    ensures IsBlank(s[..|s| - |TrimStart(s)|])
  {
    BlankSlice(s, 0, |s| - |TrimStart(s)|);
    assert s[..|s| - |TrimStart(s)|] == s[0..|s| - |TrimStart(s)|];
  }

  /** What TrimEnd drops is white space. */
  lemma TrimEndDropsBlank(t: string)
    ensures IsBlank(t[|TrimEnd(t)|..])
  {
    BlankSlice(t, |TrimEnd(t)|, |t|);
    assert t[|TrimEnd(t)|..] == t[|TrimEnd(t)|..|t|];
  }

  /** Trimming leaves the infix of `s` between a blank prefix and a blank suffix. */
  lemma {:induction false} TrimInfix(s: string)
    ensures exists i :: BetweenBlanks(s, Trim(s), i)
  {
    var t := TrimStart(s);
    var r := TrimEnd(t);
    var i := |s| - |t|;
    TrimStartDropsBlank(s);
    TrimEndDropsBlank(t);
    assert t == s[i..];
    assert r == s[i..i + |r|];
    assert s[i + |r|..] == t[|r|..];
    assert Trim(s) == r;
    assert BetweenBlanks(s, r, i);
  }

  lemma TrimStartOfUnpadded(s: string)
    requires s == [] || !IsWhitespace(s[0])
    ensures TrimStart(s) == s
  {
  }

  lemma DigitIsNotWhitespace(c: char)
    requires IsDigit(c)
    ensures !IsWhitespace(c)
  {
  }

  /** Text without white space at either end is left as it is. */
  lemma TrimOfUnpadded(s: string)
    requires s == [] || (!IsWhitespace(s[0]) && !IsWhitespace(s[|s| - 1]))
    ensures Trim(s) == s
  {
    assert TrimStart(s) == s;
  }

  /** Leading white space is dropped by trim. */
  lemma TrimSkipsLeadingWhitespace(c: char, s: string)
    requires IsWhitespace(c)
    ensures Trim([c] + s) == Trim(s)
  {
    assert ([c] + s)[1..] == s;
  }

  lemma {:induction false} TrimEmptyIffBlank(s: string)
    ensures Trim(s) == [] <==> IsBlank(s)
  {
    var t := TrimStart(s);
    if Trim(s) == [] {
      assert IsBlank(t);
      assert |t| == 0;
    }
  }

  // ---------------------------------------------------------------- case

  /** Lower-casing of one character (ASCII letters only). */
  function LowerChar(c: char): char {
    if 'A' <= c <= 'Z' then (c as int + 32) as char else c
  }

  /** String.prototype.toLowerCase, on ASCII letters. */
  function ToLower(s: string): (r: string)
    ensures |r| == |s|
    ensures forall k :: 0 <= k < |s| ==> r[k] == LowerChar(s[k])
  {
    if s == [] then [] else [LowerChar(s[0])] + ToLower(s[1..])
  }

  /** `a.toLowerCase() === b.toLowerCase()`. */
  predicate SameText(a: string, b: string) { ToLower(a) == ToLower(b) }

  // ---------------------------------------------------------------- split / join

  /** Joins pieces with a separator; the inverse of `Split`. */
  function Join(parts: seq<string>, sep: char): string {
    if parts == [] then []
    else if |parts| == 1 then parts[0]
    else parts[0] + [sep] + Join(parts[1..], sep)
  }

  /** String.prototype.split with a one-character separator. */
  function Split(s: string, sep: char): (parts: seq<string>)
    ensures |parts| >= 1
    ensures forall k :: 0 <= k < |parts| ==> sep !in parts[k]
    ensures Join(parts, sep) == s
  {
    if s == [] then [[]]
    else
      var rest := Split(s[1..], sep);
      if s[0] == sep then
        assert Join([[]] + rest, sep) == [sep] + Join(rest, sep);
        [[]] + rest
      else
        var parts := [[s[0]] + rest[0]] + rest[1..];
        assert parts[1..] == rest[1..];
        assert Join(parts, sep) == [s[0]] + Join(rest, sep);
        parts
  }

  /** Splitting gives a single piece exactly when the separator does not occur. */
  lemma {:induction false} SplitHasOnePart(s: string, sep: char)
    ensures |Split(s, sep)| == 1 <==> sep !in s
  {
    if s != [] {
      SplitHasOnePart(s[1..], sep);
      assert sep in s <==> s[0] == sep || sep in s[1..];
    }
  }

  /** A join starts as its first piece does. */
  lemma JoinStart(parts: seq<string>, sep: char)
    requires parts != [] && parts[0] != []
    ensures Join(parts, sep) != [] && Join(parts, sep)[0] == parts[0][0]
  {
  }

  /** A join ends as its last piece does. */
  lemma {:induction false} JoinEnd(parts: seq<string>, sep: char)
    requires parts != [] && parts[|parts| - 1] != []
    ensures Join(parts, sep) != []
    ensures Join(parts, sep)[|Join(parts, sep)| - 1] == parts[|parts| - 1][|parts[|parts| - 1]| - 1]
  {
    if |parts| > 1 {
      assert parts[1..][|parts| - 2] == parts[|parts| - 1];
      JoinEnd(parts[1..], sep);
    }
  }

  /** Text without the separator splits into itself alone. */
  lemma {:induction false} SplitWithoutSeparator(s: string, sep: char)
    requires sep !in s
    ensures Split(s, sep) == [s]
  {
    if s != [] {
      assert sep !in s[1..];
      SplitWithoutSeparator(s[1..], sep);
      assert [s[0]] + s[1..] == s;
    }
  }

  /** A piece without the separator, then the separator, splits off as the first part. */
  lemma {:induction false} SplitAtFirstSeparator(a: string, b: string, sep: char)
    requires sep !in a
    ensures Split(a + [sep] + b, sep) == [a] + Split(b, sep)
  {
    var s := a + [sep] + b;
    if a == [] {
      assert s == [sep] + b && s[1..] == b;
    } else {
      assert s[0] == a[0] && s[1..] == a[1..] + [sep] + b;
      assert sep !in a[1..];
      SplitAtFirstSeparator(a[1..], b, sep);
      assert [a[0]] + a[1..] == a;
    }
  }

  /** Splitting undoes joining when no piece holds the separator. */
  lemma {:induction false} SplitJoin(parts: seq<string>, sep: char)
    requires parts != []
    requires forall k :: 0 <= k < |parts| ==> sep !in parts[k]
    ensures Split(Join(parts, sep), sep) == parts
  {
    if |parts| == 1 {
      SplitWithoutSeparator(parts[0], sep);
    } else {
      SplitJoin(parts[1..], sep);
      SplitAtFirstSeparator(parts[0], Join(parts[1..], sep), sep);
      assert [parts[0]] + parts[1..] == parts;
    }
  }

  /** Trims every piece, as `.map(p => p.trim())` does. */
  function TrimAll(parts: seq<string>): (r: seq<string>)
    ensures |r| == |parts|
    ensures forall k :: 0 <= k < |parts| ==> r[k] == Trim(parts[k])
  {
    if parts == [] then [] else [Trim(parts[0])] + TrimAll(parts[1..])
  }

  /** Texts that trimming leaves alone are left alone by trimming each of them. */
  lemma TrimAllOfTrimmed(parts: seq<string>)
    requires forall k :: 0 <= k < |parts| ==> Trim(parts[k]) == parts[k]
    ensures TrimAll(parts) == parts
  {
  }

  // ---------------------------------------------------------------- search

  predicate OccursAt(s: string, pat: string, i: nat) {
    i + |pat| <= |s| && s[i..i + |pat|] == pat
  }

  function IndexOfFrom(s: string, pat: string, from: nat): (r: Option<nat>)
    requires from <= |s|
    decreases |s| - from
    ensures r.Some? ==> (from <= r.value && OccursAt(s, pat, r.value)
      && forall j :: from <= j < r.value ==> !OccursAt(s, pat, j))
    ensures r.None? ==> forall j :: from <= j <= |s| ==> !OccursAt(s, pat, j)
  {
    if OccursAt(s, pat, from) then Some(from)
    else if from == |s| then None
    else IndexOfFrom(s, pat, from + 1)
  }

  /** String.prototype.indexOf: the first position where `pat` occurs, if any. */
  function IndexOf(s: string, pat: string): (r: Option<nat>)
    ensures r.Some? ==> (OccursAt(s, pat, r.value) && forall j :: 0 <= j < r.value ==> !OccursAt(s, pat, j))
    ensures r.None? ==> forall j :: 0 <= j <= |s| ==> !OccursAt(s, pat, j)
  {
    IndexOfFrom(s, pat, 0)
  }

  /** `s.replace(pat, '')` with a string pattern: drops the first occurrence only. */
  function RemoveFirst(s: string, pat: string): string {
    match IndexOf(s, pat)
    case None => s
    case Some(i) => s[..i] + s[i + |pat|..]
  }

  /** A text that starts with the pattern loses exactly that prefix. */
  lemma RemoveLeadingPattern(pat: string, rest: string)
    ensures RemoveFirst(pat + rest, pat) == rest
  {
    assert OccursAt(pat + rest, pat, 0);
    assert (pat + rest)[|pat|..] == rest;
  }

  /** The last position of `c` in `s`, if any. */
  function LastIndexOf(s: string, c: char): (r: Option<nat>)
    ensures r.Some? ==> r.value < |s| && s[r.value] == c && c !in s[r.value + 1..]
    ensures r.None? ==> c !in s
  {
    if s == [] then None
    else if s[|s| - 1] == c then Some(|s| - 1)
    else
      var r := LastIndexOf(s[..|s| - 1], c);
      assert s == s[..|s| - 1] + [s[|s| - 1]];
      assert r.Some? ==> s[r.value + 1..] == s[..|s| - 1][r.value + 1..] + [s[|s| - 1]];
      r
  }

  /** Annex B String.prototype.substr(start, length): at most `length` characters from `start`. */
  function Substr(s: string, start: int, length: int): (r: string)
    ensures |r| <= Max(length, 0)
    ensures 0 <= start <= |s| && 0 <= length ==> r == s[start..Min(start + length, |s|)]
  {
    var from := if start < 0 then Max(|s| + start, 0) else start;
    var n := Min(Max(length, 0), |s| - from);
    if n <= 0 then [] else s[from..from + n]
  }

  // ---------------------------------------------------------------- digits and numbers

  predicate IsRadixDigit(c: char, radix: nat) {
    IsDigit(c) || (radix == 16 && (('a' <= c <= 'f') || ('A' <= c <= 'F')))
  }

  function DigitVal(c: char): nat {
    if IsDigit(c) then c as int - '0' as int
    else if 'a' <= c <= 'f' then c as int - 'a' as int + 10
    else if 'A' <= c <= 'F' then c as int - 'A' as int + 10
    else 0
  }

  /** The value of a digit string, most significant digit first. */
  function Value(d: string, radix: nat): nat {
    if d == [] then 0 else Value(d[..|d| - 1], radix) * radix + DigitVal(d[|d| - 1])
  }

  /** The longest prefix of `s` made of digits of the radix. */
  function LeadingDigits(s: string, radix: nat): (d: string)
    ensures |d| <= |s| && d == s[..|d|]
    ensures forall k :: 0 <= k < |d| ==> IsRadixDigit(d[k], radix)
    ensures |d| < |s| ==> !IsRadixDigit(s[|d|], radix)
  {
    if s != [] && IsRadixDigit(s[0], radix) then [s[0]] + LeadingDigits(s[1..], radix) else []
  }

  function DigitChar(d: nat): char
    requires d < 10
  {
    ('0' as int + d) as char
  }

  /** `${n}` for a non-negative integer: decimal digits, no leading zero. */
  function NatToString(n: nat): (s: string)
    ensures s != [] && AllDigits(s)
    ensures Value(s, 10) == n
  {
    if n < 10 then
      var s := [DigitChar(n)];
      assert s[..0] == [];
      s
    else
      var s := NatToString(n / 10) + [DigitChar(n % 10)];
      assert s[..|s| - 1] == NatToString(n / 10);
      s
  }

  /** The value of the longest run of digits at the start of `u`; None when there is none. */
  function DigitsValue(u: string, radix: nat): Option<nat> {
    var d := LeadingDigits(u, radix);
    if d == [] then None else Some(Value(d, radix))
  }

  /** What parseInt reads after the sign: a `0x`/`0X` prefix selects radix 16. */
  function ParseUnsigned(u: string): Option<nat> {
    if |u| >= 2 && u[0] == '0' && (u[1] == 'x' || u[1] == 'X') then DigitsValue(u[2..], 16)
    else DigitsValue(u, 10)
  }

  /**
   * parseInt(s) with no radix: skip leading white space, read an optional sign, then the
   * digits ParseUnsigned reads. None is NaN.
   */
  function ParseInt(s: string): Option<int> {
    var t := TrimStart(s);
    if t != [] && t[0] == '-' then Negated(ParseUnsigned(t[1..]))
    else if t != [] && t[0] == '+' then Widened(ParseUnsigned(t[1..]))
    else Widened(ParseUnsigned(t))
  }

  function Widened(v: Option<nat>): Option<int> {
    match v case None => None case Some(n) => Some(n)
  }

  function Negated(v: Option<nat>): Option<int> {
    match v case None => None case Some(n) => Some(-(n as int))
  }

  lemma {:induction false} LeadingDigitsOfDigits(d: string, rest: string)
    requires AllDigits(d)
    requires rest == [] || !IsDigit(rest[0])
    ensures LeadingDigits(d + rest, 10) == d
  {
    if d != [] {
      assert (d + rest)[1..] == d[1..] + rest;
      LeadingDigitsOfDigits(d[1..], rest);
    } else {
      assert d + rest == rest;
    }
  }

  /**
   * A decimal number written at the start of a text is what parseInt reads, whatever
   * follows it, unless the text reads as a `0x` hexadecimal literal.
   */
  lemma ParseIntOfDigitPrefix(d: string, rest: string)
    requires d != [] && AllDigits(d)
    requires rest == [] || !IsDigit(rest[0])
    requires |d| >= 2 || rest == [] || (rest[0] != 'x' && rest[0] != 'X')
    ensures ParseInt(d + rest) == Some(Value(d, 10))
  {
    var s := d + rest;
    assert s[0] == d[0];
    DigitIsNotWhitespace(s[0]);
    TrimStartOfUnpadded(s);
    assert !(|s| >= 2 && s[0] == '0' && (s[1] == 'x' || s[1] == 'X')) by {
      if |s| >= 2 {
        if |d| >= 2 { assert s[1] == d[1]; } else { assert s[1] == rest[0]; }
      }
    }
    LeadingDigitsOfDigits(d, rest);
    assert DigitsValue(s, 10) == Some(Value(d, 10));
    assert ParseUnsigned(s) == Some(Value(d, 10));
  }

  /** parseInt reads back every `${n}`: the decoder of the qty and page fields. */
  lemma ParseIntOfNatToString(n: nat)
    ensures ParseInt(NatToString(n)) == Some(n)
  {
    ParseIntOfDigitPrefix(NatToString(n), []);
    assert NatToString(n) + [] == NatToString(n);
  }

  // ---------------------------------------------------------------- isNaN on strings

  predicate IsDigitsNoSep(s: string) { s != [] && AllDigits(s) }

  /** SignedInteger of an exponent. */
  predicate IsSignedInteger(s: string) {
    if s != [] && (s[0] == '+' || s[0] == '-') then IsDigitsNoSep(s[1..]) else IsDigitsNoSep(s)
  }

  /** `DecimalDigits . DecimalDigits?`, `. DecimalDigits` or `DecimalDigits`. */
  predicate IsMantissa(m: string) {
    match IndexOf(m, ".")
    case None => IsDigitsNoSep(m)
    case Some(k) => AllDigits(m[..k]) && AllDigits(m[k + 1..]) && (k > 0 || k + 1 < |m|)
  }

  predicate IsExponentMark(c: char) { c == 'e' || c == 'E' }

  function FirstExponentMark(u: string): (r: Option<nat>)
    ensures r.Some? ==> r.value < |u| && IsExponentMark(u[r.value])
  {
    match IndexOf(u, "e")
    case Some(i) =>
      (match IndexOf(u, "E")
       case Some(j) => Some(Min(i, j))
       case None => Some(i))
    case None => IndexOf(u, "E")
  }

  /** StrUnsignedDecimalLiteral. */
  predicate IsUnsignedDecimal(u: string) {
    u == "Infinity" ||
    match FirstExponentMark(u)
    case None => IsMantissa(u)
    case Some(e) => IsMantissa(u[..e]) && IsSignedInteger(u[e + 1..])
  }

  /** NonDecimalIntegerLiteral without separators: `0b…`, `0o…`, `0x…`. */
  predicate IsNonDecimalInteger(t: string) {
    |t| >= 3 && t[0] == '0' &&
    (if t[1] == 'b' || t[1] == 'B' then forall k :: 2 <= k < |t| ==> t[k] == '0' || t[k] == '1'
     else if t[1] == 'o' || t[1] == 'O' then forall k :: 2 <= k < |t| ==> '0' <= t[k] <= '7'
     else if t[1] == 'x' || t[1] == 'X' then forall k :: 2 <= k < |t| ==> IsRadixDigit(t[k], 16)
     else false)
  }

  /** StrNumericLiteral. */
  predicate IsStrNumericLiteral(t: string) {
    IsNonDecimalInteger(t) ||
    (if t != [] && (t[0] == '+' || t[0] == '-') then IsUnsignedDecimal(t[1..]) else IsUnsignedDecimal(t))
  }

  /** `!isNaN(s)` for a string `s`: it is a StringNumericLiteral (blank text counts as 0). */
  predicate IsNumericString(s: string) {
    var t := Trim(s);
    t == [] || IsStrNumericLiteral(t)
  }

  /** A numeric literal with no white space around it passes the `isNaN` test. */
  lemma NumericWhenUnpadded(s: string)
    requires s != [] && !IsWhitespace(s[0]) && !IsWhitespace(s[|s| - 1])
    requires !(s[0] == '+' || s[0] == '-') && IsUnsignedDecimal(s)
    ensures IsNumericString(s)
  {
    TrimOfUnpadded(s);
  }

  /** parseInt gives NaN for a text that starts with neither white space, a sign nor a digit. */
  lemma NaNWithoutLeadingDigit(s: string)
    requires s != [] && !IsWhitespace(s[0]) && !IsDigit(s[0]) && s[0] != '+' && s[0] != '-'
    ensures ParseInt(s).None?
  {
    TrimStartOfUnpadded(s);
  }

  lemma IndexOfAbsent(s: string, c: char)
    requires c !in s
    ensures IndexOf(s, [c]).None?
  {
    forall j | 0 <= j <= |s| ensures !OccursAt(s, [c], j) {
      if j + 1 <= |s| { assert s[j..j + 1][0] == s[j]; }
    }
  }

  /** Every decimal digit string passes the `isNaN` test. */
  lemma DigitsAreNumeric(d: string)
    requires d != [] && AllDigits(d)
    ensures IsNumericString(d)
  {
    assert IsDigit(d[0]) && IsDigit(d[|d| - 1]);
    TrimOfUnpadded(d);
    assert 'e' !in d && 'E' !in d && '.' !in d by {
      forall k | 0 <= k < |d| ensures d[k] != 'e' && d[k] != 'E' && d[k] != '.' { assert IsDigit(d[k]); }
    }
    IndexOfAbsent(d, 'e');
    IndexOfAbsent(d, 'E');
    IndexOfAbsent(d, '.');
    assert d != "Infinity" by { assert d[0] != "Infinity"[0]; }
    assert IsUnsignedDecimal(d);
  }

  /** Empty or blank text passes the `isNaN` test, yet parseInt gives NaN for it. */
  lemma BlankIsNumericButNotAnInteger(s: string)
    requires IsBlank(s)
    ensures IsNumericString(s)
    ensures ParseInt(s).None?
  {
    TrimEmptyIffBlank(s);
  }
}
