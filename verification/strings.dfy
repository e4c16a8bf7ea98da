/** The JavaScript string operations the admin pages rely on, restricted to
    what the pages use: ASCII case folding (`toLowerCase`), `includes`,
    `trim`, `split` on one character, `replace` of the first occurrence of a
    character, `Number.prototype.toString` on integers, `parseInt` with no
    radix argument and the NaN test on `parseFloat`. */
module Strings {
  import opened Wrappers

  predicate IsDigit(c: char) { '0' <= c <= '9' }

  predicate AllDigits(s: string) {
    forall i :: 0 <= i < |s| ==> IsDigit(s[i])
  }

  predicate IsUpper(c: char) { 'A' <= c <= 'Z' }

  predicate IsLetter(c: char) { IsUpper(c) || 'a' <= c <= 'z' }

  predicate NoLetters(s: string) {
    forall i :: 0 <= i < |s| ==> !IsLetter(s[i])
  }

  /** The code points JavaScript counts as WhiteSpace or LineTerminator:
      what `\s` matches and what `trim` and `parseInt` skip. */
  predicate IsSpace(c: char) {
    || c == ' ' || c == '\t' || c == '\n' || c == '\U{000B}' || c == '\U{000C}' || c == '\r'
    || c == '\U{00A0}' || c == '\U{1680}' || ('\U{2000}' <= c <= '\U{200A}')
    || c == '\U{2028}' || c == '\U{2029}' || c == '\U{202F}' || c == '\U{205F}'
    || c == '\U{3000}' || c == '\U{FEFF}'
  }

  function LowerChar(c: char): char {
    if IsUpper(c) then (c as int + 32) as char else c
  }

  /** `s.toLowerCase()` on the ASCII letters. */
  function Lower(s: string): (r: string)
    ensures |r| == |s|
    ensures forall i :: 0 <= i < |s| ==> r[i] == LowerChar(s[i])
  {
    seq(|s|, i requires 0 <= i < |s| => LowerChar(s[i]))
  }

  /** `s.includes(sub)`. */
  predicate Contains(s: string, sub: string) {
    exists i | 0 <= i <= |s| - |sub| :: OccursAt(s, sub, i)
  }

  predicate OccursAt(s: string, sub: string, i: int) {
    0 <= i <= |s| - |sub| && s[i..i + |sub|] == sub
  }

  /** `s.toLowerCase().includes(term.toLowerCase())`. */
  predicate ContainsIgnoringCase(s: string, term: string) {
    Contains(Lower(s), Lower(term))
  }

  predicate StartsWith(s: string, prefix: string) {
    |prefix| <= |s| && s[..|prefix|] == prefix
  }

  /** A text contains each of its middle parts. */
  lemma ContainsMiddle(a: string, m: string, b: string)
    ensures Contains(a + m + b, m)
  {
    var s := a + m + b;
    assert s[|a|..|a| + |m|] == m;
    assert OccursAt(s, m, |a|);
  }

  lemma ContainsEmpty(s: string)
    ensures Contains(s, "")
  {
    assert OccursAt(s, "", 0);
  }

  /** Every string includes itself, whatever its case. */
  lemma ContainsSelf(s: string)
    ensures Contains(s, s)
  {
    assert OccursAt(s, s, 0);
  }

  /** Lowering twice is lowering once. */
  lemma LowerIdempotent(s: string)
    ensures Lower(Lower(s)) == Lower(s)
  {
  }

  /** A search that lowers the term itself does not care how the term was
      typed. */
  lemma ContainsIgnoringCaseOfLower(s: string, term: string)
    ensures ContainsIgnoringCase(s, term) <==> ContainsIgnoringCase(s, Lower(term))
  {
    LowerIdempotent(term);
  }

  /** The empty term matches everything. */
  lemma ContainsIgnoringCaseEmpty(s: string)
    ensures ContainsIgnoringCase(s, "")
  {
    assert Lower("") == "";
    ContainsEmpty(Lower(s));
  }

  lemma LowerOfNoUpper(t: string)
    requires forall i :: 0 <= i < |t| ==> !IsUpper(t[i])
    ensures Lower(t) == t
  {
  }

  /** Lowering the search term makes no difference when the searched text has
      no letters (an id, a count, an ISO date): a term with an upper-case
      letter matches neither way. */
  lemma {:induction false} ContainsLowerTermOnNoLetters(s: string, t: string)
    requires NoLetters(s)
    ensures Contains(s, t) <==> Contains(s, Lower(t))
  {
    if Contains(s, t) {
      var i :| 0 <= i <= |s| - |t| && OccursAt(s, t, i);
      assert s[i..i + |t|] == t;
      forall k | 0 <= k < |t|
        ensures !IsUpper(t[k])
      {
        assert t[k] == s[i + k];
      }
      LowerOfNoUpper(t);
    }
    if Contains(s, Lower(t)) {
      var lt := Lower(t);
      var i :| 0 <= i <= |s| - |lt| && OccursAt(s, lt, i);
      assert s[i..i + |lt|] == lt;
      forall k | 0 <= k < |t|
        ensures !IsUpper(t[k])
      {
        assert lt[k] == s[i + k];
        assert !IsLetter(lt[k]);
      }
      LowerOfNoUpper(t);
    }
  }

  // ---------------------------------------------------------------------
  // White space

  /** `s.trimStart()`: drops the leading white space and nothing else. */
  function TrimStart(s: string): (r: string)
    ensures |r| <= |s| && r == s[|s| - |r|..]
    ensures forall i :: 0 <= i < |s| - |r| ==> IsSpace(s[i])
    ensures r == [] || !IsSpace(r[0])
  {
    if |s| > 0 && IsSpace(s[0]) then TrimStart(s[1..]) else s
  }

  /** `s.trimEnd()`: drops the trailing white space and nothing else. */
  function TrimEnd(s: string): (r: string)
    ensures |r| <= |s| && r == s[..|r|]
    ensures forall i :: |r| <= i < |s| ==> IsSpace(s[i])
    ensures r == [] || !IsSpace(r[|r| - 1])
  {
    if |s| > 0 && IsSpace(s[|s| - 1]) then TrimEnd(s[..|s| - 1]) else s
  }

  /** `r` sits in `s` at offset `lead`, with only white space before and
      after it. */
  predicate SurroundedBySpace(s: string, r: string, lead: int) {
    && 0 <= lead <= |s| - |r| && s[lead..lead + |r|] == r
    && (forall i :: 0 <= i < lead ==> IsSpace(s[i]))
    && (forall i :: lead + |r| <= i < |s| ==> IsSpace(s[i]))
  }

  /** `s.trim()`: the part of `s` between its leading and trailing white
      space, which itself starts and ends with a non-space. */
  function Trim(s: string): (r: string)
    ensures r == [] || (!IsSpace(r[0]) && !IsSpace(r[|r| - 1]))
    ensures exists lead :: SurroundedBySpace(s, r, lead)
  {
    SurroundedByTrims(s, TrimStart(s), TrimEnd(TrimStart(s)));
    TrimEnd(TrimStart(s))
  }

  /** Text that neither starts nor ends with white space is left as it is,
      inner white space included. */
  lemma TrimKeepsFramed(s: string)
    requires s == [] || (!IsSpace(s[0]) && !IsSpace(s[|s| - 1]))
    ensures Trim(s) == s
  {
  }

  /** Text made only of white space trims to nothing. */
  lemma TrimOfSpaces(s: string)
    requires forall i :: 0 <= i < |s| ==> IsSpace(s[i])
    ensures Trim(s) == ""
  {
  }

  /** The two trims together leave `r` surrounded by white space in `s`. */
  lemma SurroundedByTrims(s: string, t: string, r: string)
    requires |t| <= |s| && t == s[|s| - |t|..]
    requires forall i :: 0 <= i < |s| - |t| ==> IsSpace(s[i])
    requires |r| <= |t| && r == t[..|r|]
    requires forall i :: |r| <= i < |t| ==> IsSpace(t[i])
    ensures SurroundedBySpace(s, r, |s| - |t|)
  {
    var lead := |s| - |t|;
    PrefixOfSuffix(s, lead, |r|);
    SpaceAfterSuffix(s, lead, |r|);
  }

  lemma PrefixOfSuffix(s: string, lead: int, n: int)
    requires 0 <= lead <= |s| && 0 <= n <= |s| - lead
    ensures s[lead..lead + n] == s[lead..][..n]
  {
  }

  /** White space at the end of the suffix `s[lead..]` is white space at
      the end of `s`. */
  lemma SpaceAfterSuffix(s: string, lead: int, n: int)
    requires 0 <= lead <= |s| && 0 <= n <= |s| - lead
    requires forall k :: n <= k < |s[lead..]| ==> IsSpace(s[lead..][k])
    ensures forall i :: lead + n <= i < |s| ==> IsSpace(s[i])
  {
    forall i | lead + n <= i < |s|
      ensures IsSpace(s[i])
    {
      assert s[i] == s[lead..][i - lead];
    }
  }

  // ---------------------------------------------------------------------
  // Searching and splitting

  /** `s.indexOf(c)`, with `None` for -1. */
  function IndexOf(s: string, c: char): (r: Option<nat>)
    ensures r.Some? ==> r.value < |s| && s[r.value] == c && c !in s[..r.value]
    ensures r.None? <==> c !in s
  {
    if |s| == 0 then None
    else if s[0] == c then Some(0)
    else match IndexOf(s[1..], c)
      case None => None
      case Some(i) =>
        assert s[..i + 1] == [s[0]] + s[1..][..i];
        Some(i + 1)
  }

  /** `fields.join(sep)`. */
  function Join(fields: seq<string>, sep: char): string {
    if |fields| == 0 then ""
    else if |fields| == 1 then fields[0]
    else fields[0] + [sep] + Join(fields[1..], sep)
  }

  /** `s.split(sep)` for a one-character separator: never empty, no field
      holds the separator, and joining the fields back gives `s`. */
  function Split(s: string, sep: char): (r: seq<string>)
    ensures |r| >= 1
    ensures forall k :: 0 <= k < |r| ==> sep !in r[k]
    ensures Join(r, sep) == s
    decreases |s|
  {
    match IndexOf(s, sep)
    case None => [s]
    case Some(i) =>
      var rest := Split(s[i + 1..], sep);
      assert s == s[..i] + [sep] + s[i + 1..];
      [s[..i]] + rest
  }

  /** Splitting undoes joining, so `Split` loses nothing. */
  lemma {:induction false} SplitJoin(fields: seq<string>, sep: char)
    requires |fields| >= 1
    requires forall k :: 0 <= k < |fields| ==> sep !in fields[k]
    ensures Split(Join(fields, sep), sep) == fields
    decreases |fields|
  {
    if |fields| > 1 {
      var f := fields[0];
      var rest := Join(fields[1..], sep);
      var s := Join(fields, sep);
      assert s == f + [sep] + rest;
      assert s[..|f|] == f;
      assert s[|f|] == sep;
      assert IndexOf(s, sep) == Some(|f|);
      assert s[|f| + 1..] == rest;
      SplitJoin(fields[1..], sep);
      assert fields == [f] + fields[1..];
    }
  }

  /** A text whose first field is `a` splits into `a` and the fields of
      what follows the separator. */
  lemma SplitAfterField(a: string, sep: char, b: string)
    requires sep !in a
    ensures Split(a + [sep] + b, sep) == [a] + Split(b, sep)
  {
    var s := a + [sep] + b;
    assert s[|a|] == sep && s[..|a|] == a && s[|a| + 1..] == b;
    assert IndexOf(s, sep) == Some(|a|);
  }

  /** The first field of a text is everything before its first separator. */
  lemma SplitFirstField(a: string, sep: char, b: string)
    requires sep !in a && (b == [] || b[0] == sep)
    ensures Split(a + b, sep)[0] == a
  {
    if b == [] {
      assert a + b == a;
    } else {
      SplitAfterField(a, sep, b[1..]);
      assert a + b == a + [sep] + b[1..];
    }
  }

  /** `s.replace(from, to)` with one-character strings: only the first
      occurrence changes. */
  function ReplaceFirst(s: string, from: char, to: char): (r: string)
    ensures |r| == |s|
    ensures from !in s ==> r == s
    ensures from in s ==> exists i :: 0 <= i < |s| && from !in s[..i] && r == s[..i] + [to] + s[i + 1..]
  {
    match IndexOf(s, from)
    case None => s
    case Some(i) => s[..i] + [to] + s[i + 1..]
  }

  /** Replacing in a text whose first occurrence follows a prefix free of
      it changes that occurrence only. */
  lemma ReplaceFirstAfter(a: string, from: char, to: char, b: string)
    requires from !in a
    ensures ReplaceFirst(a + [from] + b, from, to) == a + [to] + b
  {
    var s := a + [from] + b;
    assert s[|a|] == from && s[..|a|] == a && s[|a| + 1..] == b;
    assert IndexOf(s, from) == Some(|a|);
  }

  // ---------------------------------------------------------------------
  // Integers as decimal text

  function DigitChar(d: nat): (c: char)
    requires d < 10
    ensures IsDigit(c)
  {
    (48 + d) as char
  }

  /** `n.toString()` for a non-negative integer: decimal digits without
      leading zeros. */
  function NatToString(n: nat): (r: string)
    ensures |r| > 0 && AllDigits(r)
    ensures r[0] == '0' ==> n == 0
    decreases n
  {
    if n < 10 then [DigitChar(n)] else NatToString(n / 10) + [DigitChar(n % 10)]
  }

  /** `i.toString()` for an integer. */
  function IntToString(i: int): (r: string)
    ensures |r| > 0
    ensures i >= 0 <==> AllDigits(r)
  {
    if i < 0 then
      var r := "-" + NatToString(-i);
      assert !IsDigit(r[0]);
      r
    else NatToString(i)
  }

  /** The decimal text of an integer holds no letter. */
  lemma IntToStringNoLetters(i: int)
    ensures NoLetters(IntToString(i))
  {
    var r := IntToString(i);
    if i < 0 {
      var digits := NatToString(-i);
      assert r == "-" + digits;
      forall k | 0 <= k < |r|
        ensures !IsLetter(r[k])
      {
        if k > 0 {
          assert r[k] == digits[k - 1];
        }
      }
    }
  }

  predicate IsRadixDigit(c: char, radix: nat) {
    IsDigit(c) || (radix == 16 && ('a' <= c <= 'f' || 'A' <= c <= 'F'))
  }

  function RadixDigitValue(c: char, radix: nat): (v: nat)
    requires radix == 10 || radix == 16
    requires IsRadixDigit(c, radix)
    ensures v < radix
  {
    if IsDigit(c) then c as int - 48
    else if 'a' <= c <= 'f' then c as int - 87
    else c as int - 55
  }

  /** The value of a string of digits in base `radix`, most significant first. */
  function DigitsValue(s: string, radix: nat): nat
    requires radix == 10 || radix == 16
    requires forall i :: 0 <= i < |s| ==> IsRadixDigit(s[i], radix)
  {
    if s == [] then 0
    else DigitsValue(s[..|s| - 1], radix) * radix + RadixDigitValue(s[|s| - 1], radix)
  }

  lemma {:induction false} DigitsValueOfNatToString(n: nat)
    ensures DigitsValue(NatToString(n), 10) == n
    decreases n
  {
    var s := NatToString(n);
    if n >= 10 {
      assert s[..|s| - 1] == NatToString(n / 10);
      DigitsValueOfNatToString(n / 10);
    }
  }

  /** The number of leading characters of `s` that are digits in `radix`. */
  function LeadingDigits(s: string, radix: nat): (n: nat)
    ensures n <= |s|
    ensures forall i :: 0 <= i < n ==> IsRadixDigit(s[i], radix)
    ensures n == |s| || !IsRadixDigit(s[n], radix)
  {
    if |s| > 0 && IsRadixDigit(s[0], radix) then 1 + LeadingDigits(s[1..], radix) else 0
  }

  /** `parseInt(s)` with no radix: skip leading white space, take an optional
      sign, then read the digits that follow (see `ParseUnsigned`). `None` is
      NaN, the result when no digit follows. */
  function ParseInt(s: string): Option<int> {
    var t := TrimStart(s);
    var negative := |t| > 0 && t[0] == '-';
    var u := if |t| > 0 && (t[0] == '-' || t[0] == '+') then t[1..] else t;
    match ParseUnsigned(u)
    case None => None
    case Some(v) =>
      var value: int := if negative then -(v as int) else v;
      Some(value)
  }

  /** The unsigned part of `parseInt`: base 16 after a `0x`/`0X` prefix,
      base 10 otherwise, stopping at the first character that is not a
      digit of the base. */
  function ParseUnsigned(u: string): Option<nat> {
    var hex := |u| >= 2 && u[0] == '0' && (u[1] == 'x' || u[1] == 'X');
    var radix := if hex then 16 else 10;
    var body := if hex then u[2..] else u;
    var n := LeadingDigits(body, radix);
    if n == 0 then None else Some(DigitsValue(body[..n], radix))
  }

  lemma {:induction false} LeadingDigitsOfDigits(s: string)
    requires AllDigits(s)
    ensures LeadingDigits(s, 10) == |s|
  {
    if |s| > 0 {
      LeadingDigitsOfDigits(s[1..]);
    }
  }

  lemma ParseUnsignedOfDigits(s: string)
    requires s != [] && AllDigits(s)
    ensures ParseUnsigned(s) == Some(DigitsValue(s, 10))
  {
    if |s| >= 2 {
      assert IsDigit(s[1]);
    }
    LeadingDigitsOfDigits(s);
    assert s[..|s|] == s;
  }

  /** A non-empty string of decimal digits parses to its value. */
  lemma ParseIntOfDigits(s: string)
    requires s != [] && AllDigits(s)
    ensures var v: int := DigitsValue(s, 10); ParseInt(s) == Some(v)
  {
    assert IsDigit(s[0]);
    var t := TrimStart(s);
    assert t == s;
    ParseUnsignedOfDigits(s);
  }

  /** The empty string parses to NaN. */
  lemma ParseIntEmpty()
    ensures ParseInt("") == None
  {
  }

  /** A minus sign followed by digits parses to the negated value. */
  lemma ParseIntOfNegatedDigits(digits: string, v: int)
    requires digits != [] && AllDigits(digits)
    requires v == DigitsValue(digits, 10)
    ensures ParseInt("-" + digits) == Some(-v)
  {
    var s := "-" + digits;
    assert s[0] == '-';
    var t := TrimStart(s);
    assert t == s;
    assert t[1..] == digits;
    ParseUnsignedOfDigits(digits);
  }

  /** `parseInt(i.toString()) === i`: text produced from an integer reads
      back as the same integer. */
  lemma ParseIntOfIntToString(i: int)
    ensures ParseInt(IntToString(i)) == Some(i)
  {
    if i < 0 {
      var digits := NatToString(-i);
      DigitsValueOfNatToString(-i);
      ParseIntOfNegatedDigits(digits, -i);
      assert IntToString(i) == "-" + digits;
    } else {
      var digits := NatToString(i);
      DigitsValueOfNatToString(i);
      ParseIntOfDigits(digits);
      assert IntToString(i) == digits;
    }
  }

  /** `!isNaN(parseFloat(s))`: after leading white space and an optional
      sign, `s` starts with `Infinity`, with a digit, or with a point followed
      by a digit. */
  predicate ParsesAsFloat(s: string) {
    var t := TrimStart(s);
    var u := if |t| > 0 && (t[0] == '-' || t[0] == '+') then t[1..] else t;
    || StartsWith(u, "Infinity")
    || (|u| > 0 && IsDigit(u[0]))
    || (|u| > 1 && u[0] == '.' && IsDigit(u[1]))
  }
}
