/**
 * The string primitives the handlers use: JavaScript's `trim`, `toLowerCase`,
 * `toUpperCase`, the regular-expression classes `\s` and `\w`, decimal
 * rendering of numbers, and `substring`/`slice`.
 * Case mapping is modelled for the ASCII letters only.
 */
module Text {

  /** The characters JavaScript's `\s` and `String.prototype.trim` treat as white space. */
  predicate IsSpace(c: char) {
    || c == ' ' || c == '\t' || c == '\n' || c == '\r' || c == '\U{0B}' || c == '\U{0C}'
    || c == '\U{A0}' || c == '\U{1680}' || ('\U{2000}' <= c <= '\U{200A}')
    || c == '\U{2028}' || c == '\U{2029}' || c == '\U{202F}' || c == '\U{205F}'
    || c == '\U{3000}' || c == '\U{FEFF}'
  }

  /** The class `\w`: ASCII letters, digits and underscore. */
  predicate IsWordChar(c: char) {
    ('a' <= c <= 'z') || ('A' <= c <= 'Z') || ('0' <= c <= '9') || c == '_'
  }

  /** The class `[\w\-]`. */
  predicate IsWordOrHyphen(c: char) {
    IsWordChar(c) || c == '-'
  }

  predicate IsUpper(c: char) { 'A' <= c <= 'Z' }
  predicate IsLowerLetter(c: char) { 'a' <= c <= 'z' }
  predicate IsDigit(c: char) { '0' <= c <= '9' }

  function LowerChar(c: char): (r: char)
    ensures !IsUpper(r)
    ensures IsUpper(c) || r == c
  {
    if IsUpper(c) then (c as int + 32) as char else c
  }

  function UpperChar(c: char): (r: char)
    ensures !IsLowerLetter(r)
    ensures IsLowerLetter(c) || r == c
  {
    if IsLowerLetter(c) then (c as int - 32) as char else c
  }

  /** `s.toLowerCase()` */
  function Lower(s: string): (r: string)
    ensures |r| == |s|
    ensures forall i :: 0 <= i < |r| ==> !IsUpper(r[i])
  {
    seq(|s|, i requires 0 <= i < |s| => LowerChar(s[i]))
  }

  /** Lower-casing turns no character into white space and no white space into anything else. */
  lemma LowerKeepsSpaces(s: string, i: nat)
    requires i < |s|
    ensures IsSpace(Lower(s)[i]) <==> IsSpace(s[i])
  {
  }

  /** `s.toUpperCase()` */
  function Upper(s: string): (r: string)
    ensures |r| == |s|
    ensures forall i :: 0 <= i < |r| ==> !IsLowerLetter(r[i])
  {
    seq(|s|, i requires 0 <= i < |s| => UpperChar(s[i]))
  }

  predicate NoUpper(s: string) {
    forall i :: 0 <= i < |s| ==> !IsUpper(s[i])
  }

  /** Lower-casing leaves a string without capitals as it is. */
  lemma LowerOfLowered(s: string)
    requires NoUpper(s)
    ensures Lower(s) == s
  {
  }

  lemma LowerIdempotent(s: string)
    ensures Lower(Lower(s)) == Lower(s)
  {
    LowerOfLowered(Lower(s));
  }

  /** Leading white space removed. */
  function TrimStart(s: string): (r: string)
    ensures |r| <= |s| && r == s[|s| - |r|..]
    ensures forall i :: 0 <= i < |s| - |r| ==> IsSpace(s[i])
    ensures r == [] || !IsSpace(r[0])
  {
    if s != [] && IsSpace(s[0]) then TrimStart(s[1..]) else s
  }

  /** Trailing white space removed. */
  function TrimEnd(s: string): (r: string)
    ensures |r| <= |s| && r == s[..|r|]
    ensures forall i :: |r| <= i < |s| ==> IsSpace(s[i])
    ensures r == [] || !IsSpace(r[|r| - 1])
  {
    if s != [] && IsSpace(s[|s| - 1]) then TrimEnd(s[..|s| - 1]) else s
  }

  /** Neither starting nor ending with white space. */
  predicate Trimmed(s: string) {
    s == [] || (!IsSpace(s[0]) && !IsSpace(s[|s| - 1]))
  }

  /** `s.trim()`: the part of `s` between its first and last non-space characters. */
  function Trim(s: string): (r: string)
    ensures |r| <= |s|
    ensures Trimmed(r)
  {
    TrimEnd(TrimStart(s))
  }

  /** A string that neither starts nor ends with white space is its own trim. */
  lemma TrimOfTrimmed(s: string)
    requires Trimmed(s)
    ensures Trim(s) == s
  {
  }

  lemma TrimIdempotent(s: string)
    ensures Trim(Trim(s)) == Trim(s)
  {
    TrimOfTrimmed(Trim(s));
  }

  /** Trimming a string without capitals gives a string without capitals. */
  lemma TrimKeepsNoUpper(s: string)
    requires NoUpper(s)
    ensures NoUpper(Trim(s))
  {
    var a := TrimStart(s);
    forall i | 0 <= i < |a| ensures !IsUpper(a[i]) {
      assert a[i] == s[|s| - |a| + i];
    }
    var b := TrimEnd(a);
    forall i | 0 <= i < |b| ensures !IsUpper(b[i]) {
      assert b[i] == a[i];
    }
  }

  /** A schema path declared `lowercase: true, trim: true`. */
  function LowerTrim(s: string): (r: string)
    ensures NoUpper(r)
    ensures Trimmed(r)
    ensures |r| <= |s|
  {
    TrimKeepsNoUpper(Lower(s));
    Trim(Lower(s))
  }

  /** Lower-casing keeps a trimmed string trimmed. */
  lemma LowerKeepsTrimmed(s: string)
    requires Trimmed(s)
    ensures Trimmed(Lower(s))
  {
    if s != [] {
      LowerKeepsSpaces(s, 0);
      LowerKeepsSpaces(s, |s| - 1);
    }
  }

  /** Normalising twice is normalising once. */
  lemma LowerTrimIdempotent(s: string)
    ensures LowerTrim(LowerTrim(s)) == LowerTrim(s)
  {
    var r := LowerTrim(s);
    LowerOfLowered(r);
    TrimOfTrimmed(r);
  }

  /** Lower-casing before normalising changes nothing. */
  lemma LowerTrimOfLowered(s: string)
    ensures LowerTrim(Lower(s)) == LowerTrim(s)
  {
    LowerIdempotent(s);
  }

  /** `s.replace(/\s+/g, "")`: every white-space character removed. */
  function RemoveSpaces(s: string): (r: string)
    ensures |r| <= |s|
    ensures forall i :: 0 <= i < |r| ==> !IsSpace(r[i])
  {
    if s == [] then []
    else if IsSpace(s[0]) then RemoveSpaces(s[1..])
    else [s[0]] + RemoveSpaces(s[1..])
  }

  /** Removing white space keeps every other character, and only those. */
  lemma {:induction false} RemoveSpacesMembers(s: string)
    ensures forall c :: c in RemoveSpaces(s) <==> c in s && !IsSpace(c)
  {
    if s != [] {
      RemoveSpacesMembers(s[1..]);
      assert s == [s[0]] + s[1..];
    }
  }

  /** `s.replace(/[^\w\-]/g, "")`: every character outside `[\w\-]` removed. */
  function KeepWordOrHyphen(s: string): (r: string)
    ensures |r| <= |s|
    ensures forall i :: 0 <= i < |r| ==> IsWordOrHyphen(r[i])
  {
    if s == [] then []
    else if IsWordOrHyphen(s[0]) then [s[0]] + KeepWordOrHyphen(s[1..])
    else KeepWordOrHyphen(s[1..])
  }

  /** Filtering to `[\w\-]` keeps every such character, and only those. */
  lemma {:induction false} KeepWordOrHyphenMembers(s: string)
    ensures forall c :: c in KeepWordOrHyphen(s) <==> c in s && IsWordOrHyphen(c)
  {
    if s != [] {
      KeepWordOrHyphenMembers(s[1..]);
      assert s == [s[0]] + s[1..];
    }
  }

  /** `s.replace(/[@.]/g, "_")` */
  function ReplaceAtAndDot(s: string): (r: string)
    ensures |r| == |s|
    ensures forall i :: 0 <= i < |s| ==> r[i] == (if s[i] == '@' || s[i] == '.' then '_' else s[i])
  {
    seq(|s|, i requires 0 <= i < |s| => if s[i] == '@' || s[i] == '.' then '_' else s[i])
  }

  /** `s.replace(/[^\w\-]/g, "_")` */
  function ReplaceNonWord(s: string): (r: string)
    ensures |r| == |s|
    ensures forall i :: 0 <= i < |s| ==> r[i] == if IsWordOrHyphen(s[i]) then s[i] else '_'
  {
    seq(|s|, i requires 0 <= i < |s| => if IsWordOrHyphen(s[i]) then s[i] else '_')
  }

  function Digit(d: nat): (c: char)
    requires d < 10
    ensures IsDigit(c)
  {
    ('0' as int + d) as char
  }

  function DigitValue(c: char): nat
    requires IsDigit(c)
  {
    c as int - '0' as int
  }

  predicate AllDigits(s: string) {
    forall i :: 0 <= i < |s| ==> IsDigit(s[i])
  }

  /** The decimal rendering of a natural number, as `String(n)` gives it. */
  function Dec(n: nat): (r: string)
    ensures |r| >= 1 && AllDigits(r)
    ensures n < 100 ==> |r| <= 2
  {
    if n < 10 then [Digit(n)] else Dec(n / 10) + [Digit(n % 10)]
  }

  /** Reads a string of decimal digits back as a number. */
  function ParseDec(s: string): nat
    requires AllDigits(s)
  {
    if s == [] then 0 else 10 * ParseDec(s[..|s| - 1]) + DigitValue(s[|s| - 1])
  }

  /** Decimal rendering loses nothing: parsing it back gives the number. */
  lemma {:induction false} ParseDecOfDec(n: nat)
    ensures ParseDec(Dec(n)) == n
  {
    var s := Dec(n);
    if n >= 10 {
      assert s[..|s| - 1] == Dec(n / 10);
      ParseDecOfDec(n / 10);
    }
  }

  /** A number of at least 10^4 has at least five decimal digits. */
  lemma {:induction false} DecHasFiveDigits(n: nat)
    requires n >= 10000
    ensures |Dec(n)| >= 5
  {
    assert Dec(n) == Dec(n / 10) + [Digit(n % 10)];
    if n >= 100000 {
      DecHasFiveDigits(n / 10);
    } else {
      var a := n / 10;
      assert 1000 <= a < 10000;
      assert Dec(a) == Dec(a / 10) + [Digit(a % 10)];
      var b := a / 10;
      assert 100 <= b < 1000;
      assert Dec(b) == Dec(b / 10) + [Digit(b % 10)];
      var c := b / 10;
      assert 10 <= c < 100;
      assert Dec(c) == Dec(c / 10) + [Digit(c % 10)];
    }
  }

  /** `String(n)` for an integer, negative numbers with a leading minus. */
  function IntToString(n: int): (r: string)
    ensures r != []
  {
    if n < 0 then "-" + Dec(-n) else Dec(n)
  }

  /** A two-digit, zero-padded rendering, as `toTimeString` prints each time field. */
  function Pad2(n: nat): (r: string)
    requires n < 100
    ensures |r| == 2 && AllDigits(r)
    ensures DigitValue(r[0]) * 10 + DigitValue(r[1]) == n
  {
    [Digit(n / 10), Digit(n % 10)]
  }

  /** `s.substring(0, n)` / `s.slice(0, n)` */
  function Take(s: string, n: nat): (r: string)
    ensures |r| == if |s| < n then |s| else n
    ensures r <= s
  {
    if |s| <= n then s else s[..n]
  }

  /** `s.slice(-n)`: the last `n` characters, or all of `s` when it is shorter. */
  function TakeLast(s: string, n: nat): (r: string)
    ensures |r| == if |s| < n then |s| else n
    ensures r == s[|s| - |r|..]
  {
    if |s| <= n then s else s[|s| - n..]
  }
}
