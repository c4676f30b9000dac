/** The string operations the source calls: `toLowerCase`/`toUpperCase`
    (ASCII letters only), `includes`, `startsWith`, `split`/`join` on a single
    character, the `\s` character class, `trim`, and the default string order
    that `Array.prototype.sort` uses. */
module Text {
  import opened Wrappers
  import opened Seqs

  /** The characters JavaScript's `\s` and `String.prototype.trim` treat as
      white space: the ECMAScript WhiteSpace and LineTerminator sets. */
  predicate IsSpace(c: char) {
    c == '\t' || c == '\n' || c == '\U{0B}' || c == '\U{0C}' || c == '\r' || c == ' '
    || c == '\U{A0}' || c == '\U{1680}' || ('\U{2000}' <= c <= '\U{200A}')
    || c == '\U{2028}' || c == '\U{2029}' || c == '\U{202F}' || c == '\U{205F}'
    || c == '\U{3000}' || c == '\U{FEFF}'
  }

  predicate IsUpper(c: char) { 'A' <= c <= 'Z' }

  predicate IsLower(c: char) { 'a' <= c <= 'z' }

  predicate IsDigit(c: char) { '0' <= c <= '9' }

  /** The regular-expression class `\w`: `[A-Za-z0-9_]`. */
  predicate IsWordChar(c: char) { IsUpper(c) || IsLower(c) || IsDigit(c) || c == '_' }

  function LowerChar(c: char): (r: char)
    ensures !IsUpper(r)
    ensures IsUpper(c) ==> r as int == c as int + 32
    ensures !IsUpper(c) ==> r == c
  {
    if IsUpper(c) then (c as int + 32) as char else c
  }

  function UpperChar(c: char): (r: char)
    ensures !IsLower(r)
    ensures IsLower(c) ==> r as int == c as int - 32
    ensures !IsLower(c) ==> r == c
  {
    if IsLower(c) then (c as int - 32) as char else c
  }

  /** `String.prototype.toLowerCase`, restricted to the ASCII letters. */
  function Lower(s: string): (r: string)
    ensures |r| == |s|
    ensures forall i | 0 <= i < |s| :: r[i] == LowerChar(s[i])
  {
    seq(|s|, i requires 0 <= i < |s| => LowerChar(s[i]))
  }

  /** `String.prototype.toUpperCase`, restricted to the ASCII letters. */
  function Upper(s: string): (r: string)
    ensures |r| == |s|
    ensures forall i | 0 <= i < |s| :: r[i] == UpperChar(s[i])
  {
    seq(|s|, i requires 0 <= i < |s| => UpperChar(s[i]))
  }

  /** Lower-casing a second time changes nothing. */
  lemma LowerIdempotent(s: string)
    ensures Lower(Lower(s)) == Lower(s)
  {
  }

  /** A string with no upper-case letter is its own lower-case form. */
  lemma LowerOfLower(s: string)
    requires forall i | 0 <= i < |s| :: !IsUpper(s[i])
    ensures Lower(s) == s
  {
  }

  lemma LowerAppend(a: string, b: string)
    ensures Lower(a + b) == Lower(a) + Lower(b)
  {
  }

  /** `s.startsWith(p)`. */
  predicate StartsWith(s: string, p: string) {
    |p| <= |s| && s[..|p|] == p
  }

  /** `s.includes(t)`: `t` occurs in `s` at some position. */
  predicate Contains(s: string, t: string) {
    exists i | 0 <= i <= |s| :: OccursAt(s, t, i)
  }

  /** `t` occurs in `s` starting at position `i`. */
  predicate OccursAt(s: string, t: string, i: int) {
    0 <= i <= |s| - |t| && s[i..i + |t|] == t
  }

  /** Every string contains the empty string. */
  lemma ContainsEmpty(s: string)
    ensures Contains(s, "")
  {
    assert OccursAt(s, "", 0);
  }

  /** A string contains each of its prefixes. */
  lemma ContainsPrefix(s: string, p: string)
    requires StartsWith(s, p)
    ensures Contains(s, p)
  {
    assert OccursAt(s, p, 0);
  }

  /** Case-insensitive `includes`, the way the search boxes compare:
      `a.toLowerCase().includes(b.toLowerCase())`. */
  predicate ContainsIgnoreCase(s: string, t: string) {
    Contains(Lower(s), Lower(t))
  }

  /** `s.split(sep)` for a one-character separator. */
  function Split(s: string, sep: char): (r: seq<string>)
    ensures |r| >= 1
    ensures forall i | 0 <= i < |r| :: sep !in r[i]
    ensures Join(r, sep) == s
    decreases |s|
  {
    var k := IndexOf(s, sep);
    if k == |s| then [s]
    else
      assert s == s[..k] + [sep] + s[k + 1..];
      [s[..k]] + Split(s[k + 1..], sep)
  }

  /** `parts.join(sep)` for a one-character separator. */
  function Join(parts: seq<string>, sep: char): (r: string)
    ensures |parts| == 1 ==> r == parts[0]
  {
    if |parts| == 0 then ""
    else if |parts| == 1 then parts[0]
    else parts[0] + [sep] + Join(parts[1..], sep)
  }

  /** Splitting a join recovers the parts, provided no part contains the
      separator (`Split` composed with `Join` is the other direction, stated
      on `Split` itself). */
  lemma {:induction false} SplitJoin(parts: seq<string>, sep: char)
    requires |parts| >= 1
    requires forall i | 0 <= i < |parts| :: sep !in parts[i]
    ensures Split(Join(parts, sep), sep) == parts
  {
    if |parts| > 1 {
      JoinFirstSeparator(parts, sep);
      SplitJoin(parts[1..], sep);
      assert parts == [parts[0]] + parts[1..];
    } else {
      assert IndexOf(parts[0], sep) == |parts[0]|;
    }
  }

  /** The first separator of a join ends its first part. */
  lemma JoinFirstSeparator(parts: seq<string>, sep: char)
    requires |parts| > 1 && sep !in parts[0]
    ensures var s := Join(parts, sep);
      IndexOf(s, sep) == |parts[0]| && s[..|parts[0]|] == parts[0] && s[|parts[0]| + 1..] == Join(parts[1..], sep)
  {
    var s := Join(parts, sep);
    var rest := Join(parts[1..], sep);
    assert s == parts[0] + [sep] + rest;
    assert s[|parts[0]|] == sep;
    forall k | 0 <= k < |parts[0]| ensures s[k] != sep {
      assert s[k] == parts[0][k];
    }
    assert s[..|parts[0]|] == parts[0];
    assert s[|parts[0]| + 1..] == rest;
  }

  /** `s.split(/\s+/)`: the pieces between maximal runs of white space. A
      leading or trailing run yields an empty first or last piece, and the
      empty string yields one empty piece. */
  function SplitSpaces(s: string): (r: seq<string>)
    ensures |r| >= 1
    ensures forall i, k | 0 <= i < |r| && 0 <= k < |r[i]| :: !IsSpace(r[i][k])
    decreases |s|
  {
    var k := FindIndex(s, IsSpace);
    match k
    case None => [s]
    case Some(k) => [s[..k]] + SplitSpaces(DropWhile(s[k..], IsSpace))
  }

  /** Position `i` starts a maximal run of white space. */
  predicate RunStart(s: string, i: int) {
    0 <= i < |s| && IsSpace(s[i]) && (i == 0 || !IsSpace(s[i - 1]))
  }

  /** The runs starting before position `j`, counted on the whole string. */
  function CountRunsUpTo(s: string, j: nat): (n: nat)
    requires j <= |s|
    ensures n <= j
  {
    if j == 0 then 0
    else CountRunsUpTo(s, j - 1) + (if RunStart(s, j - 1) then 1 else 0)
  }

  /** Adding text that starts with a non-space after text that ends in a
      run adds the runs of the second part only. */
  lemma {:induction false} CountRunsUpToShift(a: string, b: string, j: nat)
    requires j <= |b|
    requires |b| > 0 ==> !IsSpace(b[0]) || |a| == 0 || !IsSpace(a[|a| - 1])
    ensures CountRunsUpTo(a + b, |a| + j) == CountRunsUpTo(a + b, |a|) + CountRunsUpTo(b, j)
    decreases j
  {
    if j > 0 {
      CountRunsUpToShift(a, b, j - 1);
      var s := a + b;
      var i := |a| + j - 1;
      assert s[i] == b[j - 1];
      if j - 1 > 0 {
        assert s[i - 1] == b[j - 2];
      }
      assert RunStart(s, i) <==> RunStart(b, j - 1);
    }
  }

  lemma {:induction false} CountRunsUpToPrefix(s: string, t: string, j: nat)
    requires j <= |s| && j <= |t| && s[..j] == t[..j]
    ensures CountRunsUpTo(s, j) == CountRunsUpTo(t, j)
    decreases j
  {
    if j > 0 {
      assert s[..j - 1] == t[..j - 1];
      CountRunsUpToPrefix(s, t, j - 1);
      assert s[j - 1] == s[..j][j - 1] == t[..j][j - 1] == t[j - 1];
      if j > 1 {
        assert s[j - 2] == s[..j][j - 2] == t[..j][j - 2] == t[j - 2];
      }
    }
  }

  /** There is one more piece than there are white-space runs. */
  lemma {:induction false} SplitSpacesCount(s: string)
    ensures |SplitSpaces(s)| == CountRunsUpTo(s, |s|) + 1
    decreases |s|
  {
    match FindIndex(s, IsSpace) {
    case None =>
      assert CountRunsUpTo(s, |s|) == 0 by { NoRuns(s, |s|); }
    case Some(k) =>
      var rest := DropWhile(s[k..], IsSpace);
      assert SplitSpaces(s) == [s[..k]] + SplitSpaces(rest);
      SplitSpacesCount(rest);
      FirstRunCount(s, k);
    }
  }

  /** The runs of `s` are its first run plus the runs after it. */
  lemma FirstRunCount(s: string, k: nat)
    requires k < |s| && IsSpace(s[k])
    requires forall i | 0 <= i < k :: !IsSpace(s[i])
    ensures var rest := DropWhile(s[k..], IsSpace);
      CountRunsUpTo(s, |s|) == 1 + CountRunsUpTo(rest, |rest|)
  {
    var rest := DropWhile(s[k..], IsSpace);
    var head := FirstRun(s, k);
    assert |rest| > 0 ==> !IsSpace(rest[0]);
    ShiftWhole(head, rest);
  }

  /** Text that starts with a non-space adds its own runs to those before it. */
  lemma ShiftWhole(a: string, b: string)
    requires |b| > 0 ==> !IsSpace(b[0])
    ensures CountRunsUpTo(a + b, |a + b|) == CountRunsUpTo(a + b, |a|) + CountRunsUpTo(b, |b|)
  {
    CountRunsUpToShift(a, b, |b|);
  }

  /** The text up to the end of the first white-space run, which holds exactly one run. */
  lemma FirstRun(s: string, k: nat) returns (head: string)
    requires k < |s| && IsSpace(s[k])
    requires forall i | 0 <= i < k :: !IsSpace(s[i])
    ensures s == head + DropWhile(s[k..], IsSpace)
    ensures CountRunsUpTo(s, |head|) == 1
  {
    var t := s[k..];
    var rest := DropWhile(t, IsSpace);
    var d := |t| - |rest|;
    assert d > 0 by {
      assert t[0] == s[k];
    }
    head := s[..k + d];
    assert s == head + rest by {
      assert rest == t[d..];
    }
    forall i | k <= i < k + d ensures IsSpace(s[i]) {
      assert s[i] == t[i - k];
    }
    OneRun(s, k, d);
  }

  /** A prefix free of white space starts no run. */
  lemma {:induction false} NoRuns(s: string, j: nat)
    requires j <= |s|
    requires forall i | 0 <= i < j :: !IsSpace(s[i])
    ensures CountRunsUpTo(s, j) == 0
    decreases j
  {
    if j > 0 {
      NoRuns(s, j - 1);
    }
  }

  /** When `s[k..k+d)` is all white space, `s[..k]` has none and `d > 0`,
      exactly one run starts before `k + d`. */
  lemma {:induction false} OneRun(s: string, k: nat, d: nat)
    requires 0 < d && k + d <= |s|
    requires forall i | 0 <= i < k :: !IsSpace(s[i])
    requires forall i | k <= i < k + d :: IsSpace(s[i])
    ensures CountRunsUpTo(s, k + d) == 1
    decreases d
  {
    if d == 1 {
      NoRuns(s, k);
    } else {
      OneRun(s, k, d - 1);
    }
  }

  /** Leading white space removed. */
  function TrimStart(s: string): (r: string)
    ensures |r| <= |s|
    ensures |r| > 0 ==> !IsSpace(r[0])
  {
    if |s| > 0 && IsSpace(s[0]) then TrimStart(s[1..]) else s
  }

  /** Trailing white space removed. */
  function TrimEnd(s: string): (r: string)
    ensures |r| <= |s|
    ensures |r| > 0 ==> !IsSpace(r[|r| - 1])
  {
    if |s| > 0 && IsSpace(s[|s| - 1]) then TrimEnd(s[..|s| - 1]) else s
  }

  /** `s.trim()`: white space removed at both ends. */
  function Trim(s: string): (r: string)
  {
    TrimEnd(TrimStart(s))
  }

  function Reverse<T>(s: seq<T>): (r: seq<T>)
    ensures |r| == |s|
    ensures forall i | 0 <= i < |s| :: r[i] == s[|s| - 1 - i]
  {
    seq(|s|, i requires 0 <= i < |s| => s[|s| - 1 - i])
  }

  /** The order `<` puts on strings, and so the default order of
      `Array.prototype.sort`: compare character by character, a proper
      prefix coming first. */
  predicate LexLess(a: string, b: string)
    decreases |a|
  {
    if |a| == 0 then |b| > 0
    else if |b| == 0 then false
    else if a[0] != b[0] then a[0] < b[0]
    else LexLess(a[1..], b[1..])
  }

  /** `LexLess` is a strict total order: of two different strings exactly one
      is smaller. */
  lemma {:induction false} LexLessTotal(a: string, b: string)
    ensures a == b ==> !LexLess(a, b)
    ensures a != b ==> (LexLess(a, b) <==> !LexLess(b, a))
    decreases |a|
  {
    if |a| > 0 && |b| > 0 && a[0] == b[0] {
      LexLessTotal(a[1..], b[1..]);
      if a != b {
        assert a == [a[0]] + a[1..] && b == [b[0]] + b[1..];
      }
    }
  }

  /** The value of a decimal digit. */
  function DigitValue(c: char): (d: nat)
    requires IsDigit(c)
    ensures d < 10
  {
    c as int - '0' as int
  }

  function DigitChar(d: nat): (c: char)
    requires d < 10
    ensures IsDigit(c) && DigitValue(c) == d
  {
    ('0' as int + d) as char
  }

  predicate AllDigits(s: string) {
    forall i | 0 <= i < |s| :: IsDigit(s[i])
  }

  /** The number a string of decimal digits denotes (`""` denotes 0). */
  function DecimalValue(s: string): (n: nat)
    requires AllDigits(s)
  {
    if |s| == 0 then 0 else 10 * DecimalValue(s[..|s| - 1]) + DigitValue(s[|s| - 1])
  }

  /** `String(n)` for a natural number: its decimal digits, no leading zero. */
  function DecimalString(n: nat): (s: string)
    ensures |s| >= 1 && AllDigits(s)
    ensures |s| > 1 ==> s[0] != '0'
  {
    if n < 10 then [DigitChar(n)]
    else DecimalString(n / 10) + [DigitChar(n % 10)]
  }

  /** Reading back the digits of a number gives the number. */
  lemma {:induction false} DecimalRoundTrip(n: nat)
    ensures DecimalValue(DecimalString(n)) == n
  {
    if n >= 10 {
      DecimalRoundTrip(n / 10);
      var s := DecimalString(n);
      assert s[..|s| - 1] == DecimalString(n / 10);
    }
  }

  /** The longest prefix made of decimal digits. */
  function DigitPrefix(s: string): (r: string)
    ensures AllDigits(r) && r <= s
    ensures |r| < |s| ==> !IsDigit(s[|r|])
  {
    if |s| == 0 || !IsDigit(s[0]) then []
    else [s[0]] + DigitPrefix(s[1..])
  }

  lemma {:induction false} DigitPrefixOfDigits(s: string)
    requires AllDigits(s)
    ensures DigitPrefix(s) == s
  {
    if |s| > 0 {
      DigitPrefixOfDigits(s[1..]);
    }
  }

  /** `parseInt(s)` with the default radix: leading white space is skipped
      and one `+` or `-` is read. Text that then starts with `0x` or `0X` is
      read in radix 16, any other text in radix 10: the longest run of
      digits of that radix. Without any such digit the result is `NaN`
      (`None`). */
  function ParseInt(s: string): (r: Option<int>)
  {
    var t := DropWhile(s, IsSpace);
    var m := Magnitude(SignFree(t));
    if m.None? then None
    else if |t| > 0 && t[0] == '-' then Some(-(m.value as int))
    else Some(m.value)
  }

  /** The unsigned value `parseInt` reads from text after the sign. */
  function Magnitude(u: string): (r: Option<nat>)
    ensures r.Some? <==> if HasHexPrefix(u) then |HexPrefix(u[2..])| > 0 else |DigitPrefix(u)| > 0
  {
    if HasHexPrefix(u) then
      var h := HexPrefix(u[2..]);
      if |h| == 0 then None else Some(HexValue(h))
    else
      var d := DigitPrefix(u);
      if |d| == 0 then None else Some(DecimalValue(d))
  }

  /** The text after one leading sign character, if there is one. */
  function SignFree(t: string): (r: string)
    ensures r == t || (|t| > 0 && r == t[1..])
  {
    if |t| > 0 && (t[0] == '+' || t[0] == '-') then t[1..] else t
  }

  /** The `0x` or `0X` prefix that switches the default radix to 16. */
  predicate HasHexPrefix(u: string) {
    |u| >= 2 && u[0] == '0' && (u[1] == 'x' || u[1] == 'X')
  }

  predicate IsHexChar(c: char) {
    IsDigit(c) || 'a' <= c <= 'f' || 'A' <= c <= 'F'
  }

  /** The value of a radix-16 digit, in either case. */
  function HexCharValue(c: char): (d: nat)
    requires IsHexChar(c)
    ensures d < 16
    ensures IsDigit(c) <==> d < 10
  {
    if IsDigit(c) then DigitValue(c)
    else if 'a' <= c <= 'f' then c as int - 'a' as int + 10
    else c as int - 'A' as int + 10
  }

  predicate AllHexChars(s: string) {
    forall i | 0 <= i < |s| :: IsHexChar(s[i])
  }

  /** The number a string of radix-16 digits denotes. */
  function HexValue(s: string): (n: nat)
    requires AllHexChars(s)
  {
    if |s| == 0 then 0 else 16 * HexValue(s[..|s| - 1]) + HexCharValue(s[|s| - 1])
  }

  /** The longest prefix made of radix-16 digits. */
  function HexPrefix(s: string): (r: string)
    ensures AllHexChars(r) && r <= s
    ensures |r| < |s| ==> !IsHexChar(s[|r|])
  {
    if |s| == 0 || !IsHexChar(s[0]) then []
    else [s[0]] + HexPrefix(s[1..])
  }

  lemma {:induction false} HexPrefixOfHex(s: string)
    requires AllHexChars(s)
    ensures HexPrefix(s) == s
  {
    if |s| > 0 {
      HexPrefixOfHex(s[1..]);
    }
  }

  /** Text that starts with a digit has no white space or sign to skip, so
      `parseInt` reads its magnitude. */
  lemma ParseIntOfUnsigned(u: string)
    requires |u| > 0 && IsDigit(u[0])
    ensures Magnitude(u).None? ==> ParseInt(u).None?
    ensures Magnitude(u).Some? ==> ParseInt(u) == Some(Magnitude(u).value as int)
  {
    assert !IsSpace(u[0]);
    assert DropWhile(u, IsSpace) == u;
    assert SignFree(u) == u;
  }

  /** A minus sign before such text negates the magnitude. */
  lemma ParseIntOfMinus(u: string, v: nat)
    requires |u| > 0 && IsDigit(u[0]) && Magnitude(u) == Some(v)
    ensures ParseInt("-" + u) == Some(-(v as int))
  {
    var t := "-" + u;
    assert t[0] == '-' && !IsSpace(t[0]);
    assert DropWhile(t, IsSpace) == t;
    assert t[1..] == u;
    assert SignFree(t) == u;
  }

  /** Decimal digits are read in radix 10: a second digit is no `x`. */
  lemma MagnitudeOfDigits(d: string)
    requires |d| >= 1 && AllDigits(d)
    ensures Magnitude(d) == Some(DecimalValue(d))
  {
    assert !HasHexPrefix(d) by {
      if |d| >= 2 {
        assert IsDigit(d[1]);
      }
    }
    DigitPrefixOfDigits(d);
  }

  /** After `0x` or `0X`, the radix-16 digits are read. */
  lemma MagnitudeOfHex(x: char, h: string)
    requires x == 'x' || x == 'X'
    requires AllHexChars(h)
    ensures Magnitude(['0', x] + h) == if |h| == 0 then None else Some(HexValue(h))
  {
    assert (['0', x] + h)[2..] == h;
    HexPrefixOfHex(h);
  }

  /** `parseInt` of `0x` or `0X` followed by radix-16 digits is their value,
      and `0x` alone is `NaN`. */
  lemma ParseIntOfHex(x: char, h: string)
    requires x == 'x' || x == 'X'
    requires AllHexChars(h)
    ensures ParseInt(['0', x] + h) == if |h| == 0 then None else Some(HexValue(h))
  {
    MagnitudeOfHex(x, h);
    ParseIntOfUnsigned(['0', x] + h);
  }

  /** `parseInt("0x1A")` is 26, `parseInt("0x2")` is 2 and `parseInt("0x")`
      is `NaN`. */
  lemma ParseIntHexExamples()
    ensures ParseInt("0x1A") == Some(26)
    ensures ParseInt("0x2") == Some(2)
    ensures ParseInt("0x") == None
  {
    HexValueExamples();
    ParseIntOfHexText('x', "1A", "0x1A");
    ParseIntOfHexText('x', "2", "0x2");
    ParseIntOfHexText('x', "", "0x");
  }

  lemma HexValueExamples()
    ensures AllHexChars("1A") && HexValue("1A") == 26
    ensures AllHexChars("1a") && HexValue("1a") == 26
    ensures AllHexChars("2") && HexValue("2") == 2
  {
    assert ("1A")[..1] == "1";
    assert ("1a")[..1] == "1";
  }

  /** `ParseIntOfHex` for text written out in full. */
  lemma ParseIntOfHexText(x: char, h: string, text: string)
    requires x == 'x' || x == 'X'
    requires AllHexChars(h) && text == ['0', x] + h
    ensures ParseInt(text) == if |h| == 0 then None else Some(HexValue(h))
  {
    ParseIntOfHex(x, h);
  }

  /** The sign comes before the prefix: `parseInt("-0X1a")` is -26. */
  lemma ParseIntSignedHex()
    ensures ParseInt("-0X1a") == Some(-26)
  {
    HexValueExamples();
    MagnitudeOfHex('X', "1a");
    assert ['0', 'X'] + "1a" == "0X1a";
    ParseIntOfMinusText("0X1a", 26, "-0X1a");
  }

  /** `ParseIntOfMinus` for text written out in full. */
  lemma ParseIntOfMinusText(u: string, v: nat, text: string)
    requires |u| > 0 && IsDigit(u[0]) && Magnitude(u) == Some(v)
    requires text == "-" + u
    ensures ParseInt(text) == Some(-(v as int))
  {
    ParseIntOfMinus(u, v);
  }

  /** `parseInt` of plain digits. */
  lemma ParseIntOfDigits(d: string)
    requires |d| >= 1 && AllDigits(d)
    ensures ParseInt(d) == Some(DecimalValue(d))
  {
    MagnitudeOfDigits(d);
    ParseIntOfUnsigned(d);
  }

  /** The decimal text of `m` is read in radix 10 as `m`. */
  lemma MagnitudeOfString(m: nat)
    ensures Magnitude(DecimalString(m)) == Some(m)
  {
    DecimalRoundTrip(m);
    MagnitudeOfDigits(DecimalString(m));
  }

  /** `parseInt` reads back what `String` writes, for every integer. */
  lemma ParseIntRoundTrip(n: int)
    ensures ParseInt(IntString(n)) == Some(n)
  {
    var m: nat := if n < 0 then -n else n;
    var d := DecimalString(m);
    MagnitudeOfString(m);
    assert IsDigit(d[0]);
    if n < 0 {
      ParseIntOfMinus(d, m);
    } else {
      ParseIntOfUnsigned(d);
    }
  }

  /** `String(n)` for any integer. */
  function IntString(n: int): (s: string)
    ensures |s| >= 1
  {
    if n < 0 then "-" + DecimalString(-n) else DecimalString(n)
  }

  /** The value of the digits after a decimal point: `"25"` is 0.25. */
  function FractionValue(f: string): (r: real)
    requires AllDigits(f)
    ensures 0.0 <= r < 1.0
  {
    if |f| == 0 then 0.0 else (DigitValue(f[0]) as real + FractionValue(f[1..])) / 10.0
  }

  /** Unsigned decimal text: digits, then optionally a point and more digits,
      with at least one digit in all (`"5"`, `"5."`, `".5"`, `"9.99"`). */
  function UnsignedDecimal(u: string): (r: Option<real>)
    ensures r.Some? ==> r.value >= 0.0
  {
    var whole := DigitPrefix(u);
    var rest := u[|whole|..];
    if rest == [] then
      if |whole| > 0 then Some(DecimalValue(whole) as real) else None
    else if rest[0] != '.' || !AllDigits(rest[1..]) || |whole| + |rest| == 1 then None
    else Some(DecimalValue(whole) as real + FractionValue(rest[1..]))
  }

  /** `Number(s)`, the conversion JavaScript's `<`, `<=`, `>` and `>=` apply
      to a string compared with a number. White space is trimmed and blank
      text is 0. Otherwise one optional `+` or `-` is followed by unsigned
      decimal text. Anything else is `NaN` (`None`), for which every
      comparison is false. */
  function ToNumber(s: string): (r: Option<real>)
    ensures Trim(s) == "" ==> r == Some(0.0)
  {
    var t := Trim(s);
    if t == "" then Some(0.0)
    else
      match UnsignedDecimal(SignFree(t))
      case None => None
      case Some(v) => Some(if t[0] == '-' then -v else v)
  }

  /** The digit prefix stops at the first character that is not a digit. */
  lemma {:induction false} DigitPrefixStops(w: string, rest: string)
    requires AllDigits(w)
    requires |rest| > 0 && !IsDigit(rest[0])
    ensures DigitPrefix(w + rest) == w
  {
    if |w| > 0 {
      assert (w + rest)[1..] == w[1..] + rest;
      DigitPrefixStops(w[1..], rest);
    } else {
      assert w + rest == rest;
    }
  }

  /** Text without white space is its own trim. */
  lemma TrimOfSpaceless(s: string)
    requires forall i | 0 <= i < |s| :: s[i] == '-' || s[i] == '.' || IsDigit(s[i])
    ensures Trim(s) == s
  {
    assert forall i | 0 <= i < |s| :: !IsSpace(s[i]);
  }

  /** `trim` changes nothing in text that has no white space at either end. */
  lemma TrimOfTrimmed(s: string)
    requires |s| > 0 ==> !IsSpace(s[0]) && !IsSpace(s[|s| - 1])
    ensures Trim(s) == s
  {
  }

  /** `trim` is idempotent. */
  lemma TrimIdempotent(s: string)
    ensures Trim(Trim(s)) == Trim(s)
  {
    TrimEndKeepsStart(TrimStart(s));
    TrimOfTrimmed(Trim(s));
  }

  /** Trimming the end keeps a start that is not white space. */
  lemma {:induction false} TrimEndKeepsStart(s: string)
    requires |s| > 0 ==> !IsSpace(s[0])
    ensures var r := TrimEnd(s); |r| > 0 ==> !IsSpace(r[0])
    decreases |s|
  {
    if |s| > 0 && IsSpace(s[|s| - 1]) {
      TrimEndKeepsStart(s[..|s| - 1]);
    }
  }

  /** Digits, a point and digits denote the whole part plus the fraction. */
  lemma UnsignedDecimalOfPoint(w: string, f: string)
    requires AllDigits(w) && AllDigits(f) && |w| + |f| >= 1
    ensures UnsignedDecimal(w + "." + f) == Some(DecimalValue(w) as real + FractionValue(f))
  {
    var u, rest := w + "." + f, "." + f;
    assert u == w + rest;
    DigitPrefixStops(w, rest);
    assert u[|w|..] == rest;
    UnsignedDecimalSplit(w, f, u, rest);
  }

  lemma UnsignedDecimalSplit(w: string, f: string, u: string, rest: string)
    requires AllDigits(w) && AllDigits(f) && |w| + |f| >= 1
    requires DigitPrefix(u) == w && u[|w|..] == rest && rest == "." + f
    ensures UnsignedDecimal(u) == Some(DecimalValue(w) as real + FractionValue(f))
  {
    assert rest[1..] == f;
  }

  /** Plain digits denote their value. */
  lemma UnsignedDecimalOfDigits(w: string)
    requires AllDigits(w) && |w| >= 1
    ensures UnsignedDecimal(w) == Some(DecimalValue(w) as real)
  {
    DigitPrefixOfDigits(w);
  }

  /** `Number` of trimmed, signed text is the signed value of what follows
      the sign. */
  lemma ToNumberSplit(s: string, u: string, v: real, negative: bool)
    requires Trim(s) == s && s != []
    requires SignFree(s) == u && UnsignedDecimal(u) == Some(v)
    requires negative <==> s[0] == '-'
    ensures ToNumber(s) == Some(if negative then -v else v)
  {
  }

  /** Unsigned decimal text reads as its value, and with a minus sign in
      front as the negated value. */
  lemma ToNumberOfUnsigned(u: string, v: real)
    requires u != [] && (u[0] == '.' || IsDigit(u[0]))
    requires forall i | 0 <= i < |u| :: u[i] == '.' || IsDigit(u[i])
    requires UnsignedDecimal(u) == Some(v)
    ensures ToNumber(u) == Some(v)
    ensures ToNumber("-" + u) == Some(-v)
  {
    TrimOfSpaceless(u);
    ToNumberSplit(u, u, v, false);
    var m := "-" + u;
    assert m[0] == '-' && m[1..] == u;
    TrimOfSpaceless(m);
    ToNumberSplit(m, u, v, true);
  }

  /** Digits, a point and digits form unsigned decimal text. */
  lemma PointTextChars(w: string, f: string)
    requires AllDigits(w) && AllDigits(f)
    ensures var u := w + "." + f;
      u != [] && (u[0] == '.' || IsDigit(u[0])) &&
      forall i | 0 <= i < |u| :: u[i] == '.' || IsDigit(u[i])
  {
    var u := w + "." + f;
    forall i | 0 <= i < |u|
      ensures u[i] == '.' || IsDigit(u[i])
    {
      if i < |w| {
        assert u[i] == w[i];
      } else if i > |w| {
        assert u[i] == f[i - |w| - 1];
      }
    }
  }

  /** `Number` of digits, a point and digits is the whole part plus the
      fraction; with a minus sign in front it is the negation
      (`ToNumberOfUnsigned`, with the value from `UnsignedDecimalOfPoint`). */
  lemma ToNumberOfDecimal(w: string, f: string, u: string)
    requires AllDigits(w) && AllDigits(f) && |w| + |f| >= 1
    requires u == w + "." + f
    ensures ToNumber(u) == Some(DecimalValue(w) as real + FractionValue(f))
  {
    UnsignedDecimalOfPoint(w, f);
    PointTextChars(w, f);
    ToNumberOfUnsigned(u, DecimalValue(w) as real + FractionValue(f));
  }

  /** Decimal digits read as the number they denote; with a minus sign in
      front they read as its negation (`ToNumberOfUnsigned`, with the value
      from `UnsignedDecimalOfDigits`). */
  lemma ToNumberOfDigits(d: string, m: nat)
    requires AllDigits(d) && |d| >= 1 && DecimalValue(d) == m
    ensures ToNumber(d) == Some(m as real)
  {
    assert IsDigit(d[0]) && forall i | 0 <= i < |d| :: d[i] == '.' || IsDigit(d[i]);
    UnsignedDecimalOfDigits(d);
    ToNumberOfUnsigned(d, m as real);
  }

  /** The decimal text of a natural number is unsigned decimal text with
      that value. */
  lemma UnsignedDecimalOfString(m: nat)
    ensures UnsignedDecimal(DecimalString(m)) == Some(m as real)
  {
    DecimalRoundTrip(m);
    UnsignedDecimalOfDigits(DecimalString(m));
  }

  /** `Number` looks at the trimmed text only. */
  lemma ToNumberOfTrim(s: string)
    ensures ToNumber(s) == ToNumber(Trim(s))
  {
    TrimIdempotent(s);
  }

  /** `Number` reads back what `String` writes for every integer. */
  lemma ToNumberRoundTrip(n: int)
    ensures ToNumber(IntString(n)) == Some(n as real)
  {
    var m: nat := if n < 0 then -n else n;
    var d := DecimalString(m);
    UnsignedDecimalOfString(m);
    DecimalStringChars(m);
    ToNumberOfSigned(d, m as real, IntString(n), n < 0);
    assert (n as real) == (if n < 0 then -(m as real) else m as real);
  }

  /** `ToNumberOfUnsigned` for text given with or without its minus sign. */
  lemma ToNumberOfSigned(u: string, v: real, text: string, negative: bool)
    requires u != [] && (u[0] == '.' || IsDigit(u[0]))
    requires forall i | 0 <= i < |u| :: u[i] == '.' || IsDigit(u[i])
    requires UnsignedDecimal(u) == Some(v)
    requires text == if negative then "-" + u else u
    ensures ToNumber(text) == Some(if negative then -v else v)
  {
    ToNumberOfUnsigned(u, v);
  }

  /** The decimal text of a number is unsigned decimal text. */
  lemma DecimalStringChars(m: nat)
    ensures var d := DecimalString(m);
      d != [] && (d[0] == '.' || IsDigit(d[0])) &&
      forall i | 0 <= i < |d| :: d[i] == '.' || IsDigit(d[i])
  {
  }

  /** A price with cents reads as its value. */
  lemma ToNumberOfPrice()
    ensures ToNumber("9.99") == Some(9.99)
  {
    assert Trim("9.99") == "9.99" && SignFree("9.99") == "9.99";
    assert DigitPrefix("9.99") == "9";
    assert "9.99"[1..] == ".99" && ".99"[1..] == "99";
    assert FractionValue("99") == 0.99 by {
      assert "99"[1..] == "9";
    }
    assert UnsignedDecimal("9.99") == Some(9.99);
  }

  /** A negative fraction reads as its value. */
  lemma ToNumberOfNegativeFraction()
    ensures ToNumber("-2.5") == Some(-2.5)
  {
    assert Trim("-2.5") == "-2.5";
    assert SignFree("-2.5") == "2.5";
    assert DigitPrefix("2.5") == "2";
    assert "2.5"[1..] == ".5" && ".5"[1..] == "5";
    assert FractionValue("5") == 0.5 && DecimalValue("2") == 2;
    assert UnsignedDecimal("2.5") == Some(2.5);
  }

  /** Blank text is 0. */
  lemma ToNumberOfBlank()
    ensures ToNumber("") == Some(0.0)
    ensures ToNumber(" ") == Some(0.0)
  {
  }

  /** Text that is not a number reads as `NaN`. */
  lemma ToNumberOfWord()
    ensures ToNumber("abc") == None
  {
    assert Trim("abc") == "abc" && SignFree("abc") == "abc";
    assert DigitPrefix("abc") == "";
  }

  /** A point or a sign alone is not a number. */
  lemma ToNumberOfLonePunctuation()
    ensures ToNumber(".") == None
    ensures ToNumber("-") == None
  {
    assert Trim(".") == "." && SignFree(".") == ".";
    assert DigitPrefix(".") == "";
    assert Trim("-") == "-" && SignFree("-") == "";
    assert DigitPrefix("") == "";
  }
}
