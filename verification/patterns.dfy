/** Two of the regular expressions the admin pages test input against, each
    given as the shape the expression describes, together with a direct
    check proved to agree with it. (The third, `/^\d*$/`, is
    `Strings.AllDigits`.) In JavaScript `\d` is `[0-9]` and `\s` is the white
    space of `Strings.IsSpace`. */
module Patterns {
  import opened Wrappers
  import opened Strings

  // ---------------------------------------------------------------------
  // /^\d*\.?\d*$/

  /** Splitting `s` at `k` gives a run of digits, then an optional point,
      then a run of digits. */
  predicate DecimalShapeAt(s: string, k: int) {
    && 0 <= k <= |s|
    && AllDigits(s[..k])
    && (AllDigits(s[k..]) || (k < |s| && s[k] == '.' && AllDigits(s[k + 1..])))
  }

  /** `/^\d*\.?\d*$/`. */
  predicate DecimalShape(s: string) {
    exists k | 0 <= k <= |s| :: DecimalShapeAt(s, k)
  }

  lemma NonDecimalCharBlocks(s: string, i: int)
    requires 0 <= i < |s| && !IsDigit(s[i]) && s[i] != '.'
    ensures !DecimalShape(s)
  {
    forall k | 0 <= k <= |s|
      ensures !DecimalShapeAt(s, k)
    {
      if i < k {
        assert s[..k][i] == s[i];
      } else if i == k {
        assert s[k..][0] == s[i];
      } else {
        assert s[k..][i - k] == s[i];
        if k < |s| {
          assert s[k + 1..][i - k - 1] == s[i];
        }
      }
    }
  }

  lemma SecondPointBlocks(s: string, d: int, i: int)
    requires 0 <= d < i < |s| && s[d] == '.' && s[i] == '.'
    ensures !DecimalShape(s)
  {
    forall k | 0 <= k <= |s|
      ensures !DecimalShapeAt(s, k)
    {
      if d < k {
        assert s[..k][d] == s[d];
      } else {
        assert s[k..][i - k] == s[i];
        if k < |s| && k == d {
          assert s[k + 1..][i - k - 1] == s[i];
        } else if k < |s| {
          assert s[k + 1..][d - k - 1] == s[d];
        }
      }
    }
  }

  /** Runs the test of `/^\d*\.?\d*$/` the way a matcher does: one pass,
      remembering whether the point has been seen. */
  method MatchDecimal(s: string) returns (ok: bool)
    ensures ok <==> DecimalShape(s)
  {
    var seenPoint := false;
    ghost var pointAt := 0;
    var i := 0;
    while i < |s|
      invariant 0 <= i <= |s|
      invariant !seenPoint ==> AllDigits(s[..i])
      invariant seenPoint ==> 0 <= pointAt < i && s[pointAt] == '.'
      invariant seenPoint ==> AllDigits(s[..pointAt]) && AllDigits(s[pointAt + 1..i])
    {
      if IsDigit(s[i]) {
        assert s[..i + 1] == s[..i] + [s[i]];
        assert seenPoint ==> s[pointAt + 1..i + 1] == s[pointAt + 1..i] + [s[i]];
      } else if s[i] == '.' && !seenPoint {
        seenPoint := true;
        pointAt := i;
      } else if s[i] == '.' {
        SecondPointBlocks(s, pointAt, i);
        return false;
      } else {
        NonDecimalCharBlocks(s, i);
        return false;
      }
      i := i + 1;
    }
    if seenPoint {
      assert s[pointAt + 1..i] == s[pointAt + 1..];
      assert DecimalShapeAt(s, pointAt);
    } else {
      assert s[..i] == s[|s|..] + s;
      assert DecimalShapeAt(s, |s|);
    }
    return true;
  }

  /** Every string of the amount shape that holds a digit is a number to
      `parseFloat`; the only shaped strings it rejects are "" and ".". */
  lemma DecimalShapeParses(s: string)
    requires DecimalShape(s)
    ensures ParsesAsFloat(s) <==> s != "" && s != "."
  {
    var k :| 0 <= k <= |s| && DecimalShapeAt(s, k);
    if s != [] {
      assert !IsSpace(s[0]) by {
        if k > 0 {
          assert s[..k][0] == s[0];
        } else if AllDigits(s[k..]) {
          assert s[k..][0] == s[0];
        }
      }
      assert TrimStart(s) == s;
      if k == 0 && !AllDigits(s) && |s| > 1 {
        assert s[1..][0] == s[1];
      }
    }
  }

  // ---------------------------------------------------------------------
  // /^[^\s@]+@[^\s@]+\.[^\s@]+$/

  /** `[^\s@]`. */
  predicate EmailChar(c: char) {
    !IsSpace(c) && c != '@'
  }

  predicate EmailChars(s: string) {
    forall i :: 0 <= i < |s| ==> EmailChar(s[i])
  }

  /** `s` reads as `L@A.B` with the `@` at `at` and the point at `point`,
      where `L`, `A` and `B` are non-empty runs of `[^\s@]`. */
  predicate EmailShapeAt(s: string, at: int, point: int) {
    && 0 < at && at + 1 < point && point + 1 < |s|
    && s[at] == '@' && s[point] == '.'
    && EmailChars(s[..at]) && EmailChars(s[at + 1..point]) && EmailChars(s[point + 1..])
  }

  /** `/^[^\s@]+@[^\s@]+\.[^\s@]+$/`. */
  predicate EmailShape(s: string) {
    exists at, point | 0 <= at < |s| && 0 <= point < |s| :: EmailShapeAt(s, at, point)
  }

  /** `d` holds a point that is neither its first nor its last character. */
  predicate HasInnerPoint(d: string) {
    exists k | 0 < k < |d| - 1 :: d[k] == '.'
  }

  /** The staff form's email rule stated field by field: exactly one `@`,
      a non-empty local part before it and a domain after it, neither holding
      white space or another `@`, and a point inside the domain that is not
      its first or last character. */
  predicate IsValidEmail(s: string) {
    match IndexOf(s, '@')
    case None => false
    case Some(at) =>
      var local := s[..at];
      var domain := s[at + 1..];
      local != [] && EmailChars(local) && EmailChars(domain) && HasInnerPoint(domain)
  }

  /** The field-by-field rule accepts exactly the strings the regular
      expression matches. */
  lemma EmailRuleIsPattern(s: string)
    ensures IsValidEmail(s) <==> EmailShape(s)
  {
    if IsValidEmail(s) {
      var at := IndexOf(s, '@').value;
      var domain := s[at + 1..];
      var k :| 0 < k < |domain| - 1 && domain[k] == '.';
      var point := at + 1 + k;
      assert s[at + 1..point] == domain[..k];
      assert s[point + 1..] == domain[k + 1..];
      assert EmailShapeAt(s, at, point);
    }
    if EmailShape(s) {
      var at, point :| 0 <= at < |s| && 0 <= point < |s| && EmailShapeAt(s, at, point);
      assert '@' !in s[..at] by {
        forall i | 0 <= i < at
          ensures s[..at][i] != '@'
        {
          assert EmailChar(s[..at][i]);
        }
      }
      assert IndexOf(s, '@') == Some(at);
      var domain := s[at + 1..];
      assert domain == s[at + 1..point] + ['.'] + s[point + 1..];
      assert domain[point - at - 1] == '.';
      assert EmailChars(domain) by {
        forall i | 0 <= i < |domain|
          ensures EmailChar(domain[i])
        {
          if i < point - at - 1 {
            assert domain[i] == s[at + 1..point][i];
          } else if i > point - at - 1 {
            assert domain[i] == s[point + 1..][i - (point - at)];
          }
        }
      }
    }
  }
}
