/**
 * The two format checks of the participant routes, `isValidDate` and
 * `isValidEmail`. Each is a JavaScript regular expression; here each is the
 * predicate "the string matches the anchored pattern", written over the
 * pattern's own pieces, and the lemmas say which strings that accepts.
 */
module Validators {
  import opened JsValues

  /** `\d`: an ASCII decimal digit (JavaScript's `\d` is not Unicode-aware). */
  predicate IsDigit(c: char)
  {
    '0' <= c <= '9'
  }

  predicate AllDigits(t: string)
  {
    forall k | 0 <= k < |t| :: IsDigit(t[k])
  }

  /** `\s`: the ECMAScript WhiteSpace and LineTerminator characters. */
  predicate IsSpace(c: char)
  {
    || c == '\t' || c == '\n' || c == '\U{000B}' || c == '\U{000C}' || c == '\r'
    || c == ' ' || c == '\U{00A0}' || c == '\U{1680}'
    || ('\U{2000}' <= c <= '\U{200A}')
    || c == '\U{2028}' || c == '\U{2029}' || c == '\U{202F}' || c == '\U{205F}'
    || c == '\U{3000}' || c == '\U{FEFF}'
  }

  /** `[^\s@]`: a character an address part may hold. */
  predicate IsAddressChar(c: char)
  {
    !IsSpace(c) && c != '@'
  }

  predicate AllAddressChars(t: string)
  {
    forall k | 0 <= k < |t| :: IsAddressChar(t[k])
  }

  // ---------------------------------------------------------------------------
  // isValidDate: /^\d{4}\/\d{2}\/\d{2}$/

  /** The string is `\d{4}`, '/', `\d{2}`, '/', `\d{2}` and nothing more. */
  predicate IsValidDate(s: string)
  {
    && |s| == 10
    && AllDigits(s[..4]) && s[4] == '/'
    && AllDigits(s[5..7]) && s[7] == '/'
    && AllDigits(s[8..])
  }

  /** `isValidDate(v)`: `RegExp.prototype.test` first turns its argument into
      a string, and no other modelled value renders as a text containing '/'
      ("undefined", "null", "true", "false", "[object Object]", a number's
      digits), so only strings can pass. Arrays are not modelled: a
      one-element array renders as its element and can pass. An object with
      its own `toString` property makes that conversion throw; that case is
      not modelled either. */
  predicate TestDate(v: Value)
  {
    v.Str? && IsValidDate(v.s)
  }

  function DigitChar(d: nat): (c: char)
    requires d < 10
    ensures IsDigit(c)
  {
    ('0' as int + d) as char
  }

  function DigitValue(c: char): (d: nat)
    requires IsDigit(c)
    ensures d < 10 && DigitChar(d) == c
  {
    c as int - '0' as int
  }

  function Pow10(n: nat): (p: nat)
  {
    if n == 0 then 1 else 10 * Pow10(n - 1)
  }

  /** The last `width` decimal digits of `n`, zero-padded on the left. */
  function Digits(n: nat, width: nat): (r: string)
    ensures |r| == width && AllDigits(r)
  {
    if width == 0 then "" else Digits(n / 10, width - 1) + [DigitChar(n % 10)]
  }

  /** The number a string of decimal digits denotes. */
  function DecimalValue(t: string): (n: nat)
    requires AllDigits(t)
    ensures n < Pow10(|t|)
  {
    if t == [] then 0 else 10 * DecimalValue(t[..|t| - 1]) + DigitValue(t[|t| - 1])
  }

  /** Writing out the number a digit string denotes, at the string's width,
      gives back the string, leading zeros included. */
  lemma {:induction false} DigitsOfDecimalValue(t: string)
    requires AllDigits(t)
    ensures Digits(DecimalValue(t), |t|) == t
  {
    if t != [] {
      var p, c := t[..|t| - 1], t[|t| - 1];
      assert AllDigits(p);
      var v, d := DecimalValue(p), DigitValue(c);
      assert (10 * v + d) / 10 == v && (10 * v + d) % 10 == d;
      DigitsOfDecimalValue(p);
      assert t == p + [c];
    }
  }

  /** A calendar-free rendering of year, month and day as "YYYY/MM/DD". */
  function FormatDate(y: nat, m: nat, d: nat): (s: string)
    requires y < 10000 && m < 100 && d < 100
  {
    Digits(y, 4) + "/" + Digits(m, 2) + "/" + Digits(d, 2)
  }

  /** Every rendering of numbers in range is accepted: nothing checks that
      the month or the day exists. */
  lemma FormattedDatesAreValid(y: nat, m: nat, d: nat)
    requires y < 10000 && m < 100 && d < 100
    ensures IsValidDate(FormatDate(y, m, d))
  {
  }

  /** Every accepted string is such a rendering, of the numbers its digit
      groups denote. */
  lemma ValidDatesAreFormatted(s: string)
    requires IsValidDate(s)
    ensures DecimalValue(s[..4]) < 10000 && DecimalValue(s[5..7]) < 100 && DecimalValue(s[8..]) < 100
    ensures s == FormatDate(DecimalValue(s[..4]), DecimalValue(s[5..7]), DecimalValue(s[8..]))
  {
    DigitsOfDecimalValue(s[..4]);
    DigitsOfDecimalValue(s[5..7]);
    DigitsOfDecimalValue(s[8..]);
    assert s == s[..4] + "/" + s[5..7] + "/" + s[8..];
  }

  /** The language of the date pattern: exactly the zero-padded
      "YYYY/MM/DD" renderings of a year below 10000 and a month and day
      below 100. */
  lemma DateLanguage(s: string)
    ensures IsValidDate(s) <==>
      exists y: nat, m: nat, d: nat :: y < 10000 && m < 100 && d < 100 && s == FormatDate(y, m, d)
  {
    if IsValidDate(s) {
      ValidDatesAreFormatted(s);
      var y, m, d := DecimalValue(s[..4]), DecimalValue(s[5..7]), DecimalValue(s[8..]);
      assert y < 10000 && m < 100 && d < 100 && s == FormatDate(y, m, d);
    }
    if exists y: nat, m: nat, d: nat :: y < 10000 && m < 100 && d < 100 && s == FormatDate(y, m, d) {
      var y: nat, m: nat, d: nat :| y < 10000 && m < 100 && d < 100 && s == FormatDate(y, m, d);
      FormattedDatesAreValid(y, m, d);
    }
  }

  /** Examples: a well-formed date and a calendar-impossible one are
      accepted; dashes and day-first order are not. */
  lemma DateExamples()
    ensures IsValidDate("2024/01/15")
    ensures IsValidDate("2024/99/99")
    ensures !IsValidDate("2024-01-15")
    ensures !IsValidDate("15/01/2024")
  {
  }

  // ---------------------------------------------------------------------------
  // isValidEmail: /^[^\s@]+@[^\s@]+\.[^\s@]+$/

  /** `s` is `local '@' host '.' tail` with `local == s[..i]`, `host ==
      s[i + 1..j]` and `tail == s[j + 1..]` non-empty runs of `[^\s@]`. */
  predicate SplitsAt(s: string, i: int, j: int)
  {
    && 0 < i && i + 1 < j && j + 1 < |s|
    && s[i] == '@' && s[j] == '.'
    && AllAddressChars(s[..i]) && AllAddressChars(s[i + 1..j]) && AllAddressChars(s[j + 1..])
  }

  /** The whole string matches the pattern: it splits as the pattern's
      pieces at some '@' and some later '.'. */
  predicate IsValidEmail(s: string)
  {
    exists i, j | 0 <= i < |s| && 0 <= j < |s| :: SplitsAt(s, i, j)
  }

  /** `isValidEmail(v)`: as for dates, no other modelled value renders as a
      text containing '@', so only strings can pass. */
  predicate TestEmail(v: Value)
  {
    v.Str? && IsValidEmail(v.s)
  }

  predicate NoSpace(s: string)
  {
    forall k | 0 <= k < |s| :: !IsSpace(s[k])
  }

  /** The position of the first '@'. */
  function FirstAt(s: string): (i: nat)
    requires '@' in s
    ensures i < |s| && s[i] == '@' && '@' !in s[..i]
  {
    if s[0] == '@' then 0 else 1 + FirstAt(s[1..])
  }

  /** `d` has a '.' with at least one character on each side. */
  predicate HasInnerDot(d: string)
  {
    exists k | 0 < k < |d| - 1 :: d[k] == '.'
  }

  /** The address properties, stated one by one: no whitespace, exactly one
      '@', something before it, and after it a '.' with at least one
      character on each side. */
  predicate EmailProperties(s: string)
  {
    && NoSpace(s)
    && multiset(s)['@'] == 1
    && FirstAt(s) > 0
    && HasInnerDot(s[FirstAt(s) + 1..])
  }

  lemma {:induction false} FirstAtAfter(local: string, d: string)
    requires '@' !in local
    ensures FirstAt(local + ['@'] + d) == |local|
  {
    if local != [] {
      assert (local + ['@'] + d)[1..] == local[1..] + ['@'] + d;
      FirstAtAfter(local[1..], d);
    }
  }

  lemma NoAtCount(t: string)
    requires '@' !in t
    ensures multiset(t)['@'] == 0
  {
  }

  lemma AddressCharsNoSpace(t: string)
    requires AllAddressChars(t)
    ensures NoSpace(t) && '@' !in t
  {
  }

  lemma NoSpaceJoin(a: string, b: string)
    requires NoSpace(a) && NoSpace(b)
    ensures NoSpace(a + b)
  {
  }

  /** A slice of a whitespace-free string that holds no '@' is a run of
      `[^\s@]`. */
  lemma SliceAddressChars(s: string, lo: nat, hi: nat)
    requires lo <= hi <= |s|
    requires NoSpace(s) && '@' !in s[lo..hi]
    ensures AllAddressChars(s[lo..hi])
  {
  }

  /** Three non-empty runs of `[^\s@]` joined by '@' and '.' have the
      address properties. */
  lemma PiecesHaveEmailProperties(local: string, host: string, tail: string)
    requires |local| > 0 && |host| > 0 && |tail| > 0
    requires AllAddressChars(local) && AllAddressChars(host) && AllAddressChars(tail)
    ensures EmailProperties(local + ['@'] + (host + ['.'] + tail))
  {
    var d := host + ['.'] + tail;
    var s := local + ['@'] + d;
    AddressCharsNoSpace(local);
    AddressCharsNoSpace(host);
    AddressCharsNoSpace(tail);
    NoSpaceJoin(host, ['.']);
    NoSpaceJoin(host + ['.'], tail);
    NoSpaceJoin(local, ['@']);
    NoSpaceJoin(local + ['@'], d);
    assert '@' !in d;
    NoAtCount(local);
    NoAtCount(d);
    assert multiset(s) == multiset(local) + multiset(['@']) + multiset(d);
    FirstAtAfter(local, d);
    assert s[|local| + 1..] == d;
    assert d[|host|] == '.';
  }

  lemma MatchHasEmailProperties(s: string)
    requires IsValidEmail(s)
    ensures EmailProperties(s)
  {
    var i, j :| 0 <= i < |s| && 0 <= j < |s| && SplitsAt(s, i, j);
    var local, host, tail := s[..i], s[i + 1..j], s[j + 1..];
    assert s == local + ['@'] + (host + ['.'] + tail);
    PiecesHaveEmailProperties(local, host, tail);
  }

  /** With exactly one '@', what follows the first '@' holds none. */
  lemma NoAtAfterFirst(s: string)
    requires multiset(s)['@'] == 1
    ensures '@' !in s[FirstAt(s) + 1..]
  {
    var i := FirstAt(s);
    var local, d := s[..i], s[i + 1..];
    assert s == local + ['@'] + d;
    NoAtCount(local);
    assert multiset(s) == multiset(local) + multiset(['@']) + multiset(d);
    assert multiset(d)['@'] == 0;
  }

  lemma EmailPropertiesGiveMatch(s: string)
    requires EmailProperties(s)
    ensures IsValidEmail(s)
  {
    var i := FirstAt(s);
    var d := s[i + 1..];
    NoAtAfterFirst(s);
    var k :| 0 < k < |d| - 1 && d[k] == '.';
    var j := i + 1 + k;
    assert s[i + 1..j] == d[..k];
    assert s[j + 1..] == d[k + 1..];
    SliceAddressChars(s, 0, i);
    SliceAddressChars(s, i + 1, j);
    SliceAddressChars(s, j + 1, |s|);
    assert s[..i] == s[0..i] && s[j + 1..] == s[j + 1..|s|];
    assert SplitsAt(s, i, j);
  }

  /** The language of the address pattern is exactly the strings with the
      address properties. */
  lemma EmailLanguage(s: string)
    ensures IsValidEmail(s) <==> EmailProperties(s)
  {
    if IsValidEmail(s) {
      MatchHasEmailProperties(s);
    }
    if EmailProperties(s) {
      EmailPropertiesGiveMatch(s);
    }
  }

  /** Example: an accepted address. */
  lemma EmailAccepted()
    ensures IsValidEmail("a@b.com")
  {
    var s := "a@b.com";
    assert s[..1] == "a" && s[2..3] == "b" && s[4..] == "com";
    assert AllAddressChars(s[..1]) && AllAddressChars(s[2..3]) && AllAddressChars(s[4..]);
    assert SplitsAt(s, 1, 3);
  }

  /** Examples: rejected addresses with no domain dot, nothing before the
      '@', two '@'s, and a space. */
  lemma EmailRejected()
    ensures !IsValidEmail("a@b")
    ensures !IsValidEmail("@b.com")
    ensures !IsValidEmail("a@@b.com")
    ensures !IsValidEmail("a b@c.d")
  {
    var t := "a@@b.com";
    forall i, j | 0 <= i < |t| && 0 <= j < |t|
      ensures !SplitsAt(t, i, j)
    {
      if 0 < i && i + 1 < j && t[i] == '@' {
        if i == 1 {
          assert t[i + 1..j][0] == '@';
        } else {
          assert t[..i][1] == '@';
        }
      }
    }
    var u := "a b@c.d";
    forall i, j | 0 <= i < |u| && 0 <= j < |u|
      ensures !SplitsAt(u, i, j)
    {
      if 0 < i && u[i] == '@' {
        assert u[..i][1] == ' ';
      }
    }
  }
}
