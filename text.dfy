/**
 * The string operations the booking engine applies to user input: Python's
 * `str.strip()`, `str.lower()`/`str.upper()` (ASCII letters only), `str.split(sep)`,
 * `int(str)` in base 10, and the `"HH:MM"` parse of working-hours times.
 */
module Text {
  import opened Wrappers

  /** Python's `str.isspace()`: the characters `strip()` and `int()` remove. */
  predicate IsSpace(c: char) {
    ('\t' <= c <= '\r') || ('\U{1c}' <= c <= '\U{1f}') || c == ' ' || c == '\U{85}' || c == '\U{a0}'
    || c == '\U{1680}' || ('\U{2000}' <= c <= '\U{200a}') || c == '\U{2028}' || c == '\U{2029}'
    || c == '\U{202f}' || c == '\U{205f}' || c == '\U{3000}'
  }

  /** `s.lstrip()`. */
  function StripLeft(s: string): (r: string)
    ensures |r| <= |s| && r == s[|s| - |r|..]
    ensures r == [] || !IsSpace(r[0])
    ensures forall i :: 0 <= i < |s| - |r| ==> IsSpace(s[i])
  {
    if |s| > 0 && IsSpace(s[0]) then StripLeft(s[1..]) else s
  }

  /** `s.rstrip()`. */
  function StripRight(s: string): (r: string)
    ensures |r| <= |s| && r == s[..|r|]
    ensures r == [] || !IsSpace(r[|r| - 1])
    ensures forall i :: |r| <= i < |s| ==> IsSpace(s[i])
  {
    if |s| > 0 && IsSpace(s[|s| - 1]) then StripRight(s[..|s| - 1]) else s
  }

  /** `r` is `s` without its first `a` characters and some last ones, all of them whitespace. */
  predicate PaddedBy(s: string, a: int, r: string) {
    && 0 <= a <= |s| - |r| && r == s[a..a + |r|]
    && (forall i :: 0 <= i < a ==> IsSpace(s[i]))
    && (forall i :: a + |r| <= i < |s| ==> IsSpace(s[i]))
  }

  /** `s.strip()`: no whitespace is left at either end. */
  function Strip(s: string): (r: string)
    ensures r == [] || (!IsSpace(r[0]) && !IsSpace(r[|r| - 1]))
    ensures |r| <= |s|
  {
    StripRight(StripLeft(s))
  }

  /** `s.strip()` removes only the whitespace around the text: what is left sits inside `s`. */
  lemma StripOnlyWhitespace(s: string)
    ensures exists a :: PaddedBy(s, a, Strip(s))
  {
    StripPaddedBy(s, StripLeft(s), Strip(s));
  }

  /** Whitespace removed from the front of `s`, then from the back of what is left, pads `r` in `s`. */
  lemma StripPaddedBy(s: string, left: string, r: string)
    requires |left| <= |s| && left == s[|s| - |left|..]
    requires forall i :: 0 <= i < |s| - |left| ==> IsSpace(s[i])
    requires |r| <= |left| && r == left[..|r|]
    requires forall i :: |r| <= i < |left| ==> IsSpace(left[i])
    ensures PaddedBy(s, |s| - |left|, r)
  {
    var a := |s| - |left|;
    assert r == s[a..a + |r|];
    forall i | a + |r| <= i < |s| ensures IsSpace(s[i]) {
      assert s[i] == left[i - a];
    }
  }

  /** A string with no whitespace at either end is its own strip. */
  lemma StripTrimmed(s: string)
    requires s == [] || (!IsSpace(s[0]) && !IsSpace(s[|s| - 1]))
    ensures Strip(s) == s
  {
  }

  /** Whitespace before a string that does not start with whitespace is all `lstrip()` removes. */
  lemma {:induction false} StripLeftPadded(pad: string, s: string)
    requires forall i :: 0 <= i < |pad| ==> IsSpace(pad[i])
    requires s != [] && !IsSpace(s[0])
    ensures StripLeft(pad + s) == s
    decreases |pad|
  {
    if pad == [] {
      assert pad + s == s;
    } else {
      assert (pad + s)[1..] == pad[1..] + s;
      StripLeftPadded(pad[1..], s);
    }
  }

  /** Whitespace after a string that does not end with whitespace is all `rstrip()` removes. */
  lemma {:induction false} StripRightPadded(s: string, pad: string)
    requires forall i :: 0 <= i < |pad| ==> IsSpace(pad[i])
    requires s != [] && !IsSpace(s[|s| - 1])
    ensures StripRight(s + pad) == s
    decreases |pad|
  {
    if pad == [] {
      assert s + pad == s;
    } else {
      assert (s + pad)[..|s + pad| - 1] == s + pad[..|pad| - 1];
      StripRightPadded(s, pad[..|pad| - 1]);
    }
  }

  /** `strip()` removes exactly the whitespace padding around a string with no whitespace at its ends. */
  lemma StripPadded(before: string, s: string, after: string)
    requires forall i :: 0 <= i < |before| ==> IsSpace(before[i])
    requires forall i :: 0 <= i < |after| ==> IsSpace(after[i])
    requires s != [] && !IsSpace(s[0]) && !IsSpace(s[|s| - 1])
    ensures Strip(before + s + after) == s
  {
    assert before + s + after == before + (s + after);
    StripLeftPadded(before, s + after);
    StripRightPadded(s, after);
  }

  lemma StripIdempotent(s: string)
    ensures Strip(Strip(s)) == Strip(s)
  {
    StripTrimmed(Strip(s));
  }

  function LowerChar(c: char): (d: char)
    ensures IsSpace(d) == IsSpace(c)
  {
    if 'A' <= c <= 'Z' then (c as int + 32) as char else c
  }

  function UpperChar(c: char): char {
    if 'a' <= c <= 'z' then (c as int - 32) as char else c
  }

  /** `s.lower()` on ASCII letters. */
  function Lower(s: string): (r: string)
    ensures |r| == |s| && forall i :: 0 <= i < |s| ==> r[i] == LowerChar(s[i])
  {
    seq(|s|, i requires 0 <= i < |s| => LowerChar(s[i]))
  }

  /** `s.upper()` on ASCII letters. */
  function Upper(s: string): (r: string)
    ensures |r| == |s| && forall i :: 0 <= i < |s| ==> r[i] == UpperChar(s[i])
  {
    seq(|s|, i requires 0 <= i < |s| => UpperChar(s[i]))
  }

  lemma LowerIdempotent(s: string)
    ensures Lower(Lower(s)) == Lower(s)
  {
  }

  /** `s.split(sep)`: the pieces between separators; there is always at least one. */
  function Split(s: string, sep: char): (r: seq<string>)
    ensures |r| >= 1
    ensures forall i :: 0 <= i < |r| ==> sep !in r[i]
    decreases |s|
  {
    if |s| == 0 then [""]
    else
      var rest := Split(s[1..], sep);
      if s[0] == sep then [""] + rest else [[s[0]] + rest[0]] + rest[1..]
  }

  /** `sep.join(pieces)`, the inverse of `Split`. */
  function Join(pieces: seq<string>, sep: char): string
    requires |pieces| >= 1
  {
    if |pieces| == 1 then pieces[0] else pieces[0] + [sep] + Join(pieces[1..], sep)
  }

  lemma {:induction false} JoinSplit(s: string, sep: char)
    ensures Join(Split(s, sep), sep) == s
    decreases |s|
  {
    if |s| > 0 {
      var rest := Split(s[1..], sep);
      JoinSplit(s[1..], sep);
      if s[0] == sep {
        assert Split(s, sep)[1..] == rest;
      } else {
        var r := Split(s, sep);
        if |rest| == 1 {
          assert r == [[s[0]] + rest[0]];
        } else {
          assert r[1..] == rest[1..];
          assert Join(rest, sep) == rest[0] + [sep] + Join(rest[1..], sep);
        }
      }
    }
  }

  /** Splitting a piece free of the separator, followed by the separator, peels that piece off. */
  lemma {:induction false} SplitPeel(a: string, b: string, sep: char)
    requires sep !in a
    ensures Split(a + [sep] + b, sep) == [a] + Split(b, sep)
    decreases |a|
  {
    if |a| > 0 {
      SplitPeel(a[1..], b, sep);
      assert (a + [sep] + b)[1..] == a[1..] + [sep] + b;
      assert [a[0]] + a[1..] == a;
    } else {
      assert a + [sep] + b == [sep] + b;
      assert ([sep] + b)[1..] == b;
    }
  }

  /** A string free of the separator is one piece. */
  lemma {:induction false} SplitWhole(a: string, sep: char)
    requires sep !in a
    ensures Split(a, sep) == [a]
    decreases |a|
  {
    if |a| > 0 {
      SplitWhole(a[1..], sep);
      assert [a[0]] + a[1..] == a;
    }
  }

  predicate IsDigit(c: char) {
    '0' <= c <= '9'
  }

  /** The digit run `int()` accepts: ASCII digits, with single underscores between digits. */
  predicate IsDigitRun(s: string) {
    && |s| > 0 && IsDigit(s[0]) && IsDigit(s[|s| - 1])
    && (forall i :: 0 <= i < |s| ==> IsDigit(s[i]) || s[i] == '_')
    && (forall i :: 0 <= i < |s| - 1 ==> s[i] == '_' ==> s[i + 1] != '_')
  }

  /** The decimal value of a digit run; underscores are skipped. */
  function DigitsValue(s: string): nat
    decreases |s|
  {
    if s == [] then 0
    else
      var c := s[|s| - 1];
      if IsDigit(c) then DigitsValue(s[..|s| - 1]) * 10 + (c as int - '0' as int)
      else DigitsValue(s[..|s| - 1])
  }

  /**
   * `int(s)`: surrounding whitespace, an optional sign, then a digit run. In Python any
   * other string raises ValueError, which is None here.
   */
  function ParseInt(s: string): (r: Option<int>)
    ensures r.Some? ==> exists i :: 0 <= i < |s| && IsDigit(s[i])
  {
    var t := Strip(s);
    if |t| > 0 && (t[0] == '+' || t[0] == '-') then
      if IsDigitRun(t[1..]) then
        var v: int := DigitsValue(t[1..]);
        Some(if t[0] == '-' then -v else v)
      else
        None
    else if IsDigitRun(t) then Some(DigitsValue(t))
    else None
  }

  /** `s` is `a`, a colon and `b`, with no colon in `a` or `b`. */
  predicate ColonPieces(s: string, a: string, b: string) {
    ':' !in a && ':' !in b && s == a + [':'] + b
  }

  /**
   * `map(int, s.split(":"))` unpacked into two names: the string must have exactly two
   * pieces, both integers; otherwise Python raises ValueError, which is None here.
   */
  function ParseHHMM(s: string): (r: Option<(int, int)>)
    ensures r.Some? ==> ':' in s
  {
    var parts := Split(s, ':');
    if |parts| != 2 then
      None
    else
      match (ParseInt(parts[0]), ParseInt(parts[1]))
      case (Some(h), Some(m)) =>
        JoinSplit(s, ':');
        assert s == parts[0] + [':'] + parts[1];
        assert s[|parts[0]|] == ':';
        Some((h, m))
      case _ => None
  }

  /**
   * A time parses exactly when it is two integers around its one colon: without exactly
   * one colon the result is None, and a result is the two pieces read as integers.
   */
  lemma ParseHHMMShape(s: string)
    ensures multiset(s)[':'] != 1 ==> ParseHHMM(s).None?
    ensures ParseHHMM(s).Some? ==> exists a, b :: ColonPieces(s, a, b) && ParseInt(a) == Some(ParseHHMM(s).value.0) && ParseInt(b) == Some(ParseHHMM(s).value.1)
  {
    var parts := Split(s, ':');
    SplitCount(s, ':');
    if ParseHHMM(s).Some? {
      JoinSplit(s, ':');
      assert ColonPieces(s, parts[0], parts[1]);
    }
  }

  lemma {:induction false} SplitCount(s: string, sep: char)
    ensures |Split(s, sep)| == multiset(s)[sep] + 1
    decreases |s|
  {
    if |s| > 0 {
      SplitCount(s[1..], sep);
      assert s == [s[0]] + s[1..];
      assert multiset(s) == multiset{s[0]} + multiset(s[1..]);
    }
  }

  /** A time with one colon parses exactly when both sides are integers, to those integers. */
  lemma ParseHHMMOfPieces(a: string, b: string)
    requires ':' !in a && ':' !in b
    ensures ParseHHMM(a + [':'] + b) ==
      if ParseInt(a).Some? && ParseInt(b).Some? then Some((ParseInt(a).value, ParseInt(b).value)) else None
  {
    SplitPeel(a, b, ':');
    SplitWhole(b, ':');
  }

  function DigitChar(n: int): char
    requires 0 <= n < 10
  {
    ('0' as int + n) as char
  }

  /** A number below 100 written with two digits, as in "09". */
  function TwoDigits(n: int): string
    requires 0 <= n < 100
  {
    [DigitChar(n / 10), DigitChar(n % 10)]
  }

  /** `"%02d:%02d" % (hour, minute)`. */
  function FormatHHMM(hour: int, minute: int): string
    requires 0 <= hour < 100 && 0 <= minute < 100
  {
    TwoDigits(hour) + ":" + TwoDigits(minute)
  }

  /** A digit character is a digit, not whitespace and not a sign, and stands for its value. */
  lemma DigitCharFacts(n: int)
    requires 0 <= n < 10
    ensures IsDigit(DigitChar(n)) && !IsSpace(DigitChar(n))
    ensures DigitChar(n) != '+' && DigitChar(n) != '-' && DigitChar(n) != '_'
    ensures DigitChar(n) as int - '0' as int == n
  {
  }

  lemma ParseTwoDigits(n: int)
    requires 0 <= n < 100
    ensures ParseInt(TwoDigits(n)) == Some(n)
    ensures ':' !in TwoDigits(n)
  {
    var t := TwoDigits(n);
    DigitCharFacts(n / 10);
    DigitCharFacts(n % 10);
    StripTrimmed(t);
    assert IsDigitRun(t);
    assert t[..1] == [t[0]] && t[..1][..0] == [];
    assert DigitsValue(t[..1]) == n / 10;
    assert DigitsValue(t) == DigitsValue(t[..1]) * 10 + n % 10;
  }

  /** Reading back a formatted time gives the hour and the minute. */
  lemma ParseFormatHHMM(hour: int, minute: int)
    requires 0 <= hour < 100 && 0 <= minute < 100
    ensures ParseHHMM(FormatHHMM(hour, minute)) == Some((hour, minute))
  {
    var a, b := TwoDigits(hour), TwoDigits(minute);
    ParseTwoDigits(hour);
    ParseTwoDigits(minute);
    ParseHHMMOfPieces(a, b);
    assert FormatHHMM(hour, minute) == a + [':'] + b;
  }

  /** `str(n)` for a natural number: its decimal digits, most significant first. */
  function Decimal(n: nat): (r: string)
    ensures |r| >= 1
    decreases n
  {
    if n < 10 then [DigitChar(n)] else Decimal(n / 10) + [DigitChar(n % 10)]
  }

  /** `str(n)`: a minus sign before the digits of a negative number. */
  function Signed(n: int): string {
    if n < 0 then "-" + Decimal(-n) else Decimal(n)
  }

  /** The decimal text of a number is a run of digits with that value. */
  lemma {:induction false} DecimalDigits(n: nat)
    ensures forall i :: 0 <= i < |Decimal(n)| ==> IsDigit(Decimal(n)[i])
    ensures DigitsValue(Decimal(n)) == n
    decreases n
  {
    DigitCharFacts(n % 10);
    if n >= 10 {
      DecimalDigits(n / 10);
      var t := Decimal(n);
      assert t[..|t| - 1] == Decimal(n / 10);
    }
  }

  /** A digit is neither whitespace nor a sign. */
  lemma DigitNotSpace(c: char)
    requires IsDigit(c)
    ensures !IsSpace(c) && c != '+' && c != '-'
  {
  }

  /** A digit run is read as its value. */
  lemma ParseDigitRun(t: string)
    requires IsDigitRun(t)
    ensures ParseInt(t) == Some(DigitsValue(t))
  {
    DigitNotSpace(t[0]);
    DigitNotSpace(t[|t| - 1]);
    StripTrimmed(t);
  }

  /** A minus sign before a digit run is read as the negated value. */
  lemma ParseNegatedDigitRun(t: string)
    requires IsDigitRun(t)
    ensures ParseInt("-" + t) == Some(-(DigitsValue(t) as int))
  {
    var u := "-" + t;
    DigitNotSpace(t[|t| - 1]);
    assert u[|u| - 1] == t[|t| - 1];
    StripTrimmed(u);
    assert u[1..] == t;
  }

  /** `int` reads back the decimal text of every integer. */
  lemma ParseSignedText(n: int)
    ensures ParseInt(Signed(n)) == Some(n)
  {
    var m: nat := if n < 0 then -n else n;
    DecimalDigits(m);
    assert IsDigitRun(Decimal(m));
    if n < 0 {
      ParseNegatedDigitRun(Decimal(m));
    } else {
      ParseDigitRun(Decimal(m));
    }
  }

  /** `int` looks only at the stripped text. */
  lemma ParseIntOfStrip(s: string, t: string)
    requires Strip(s) == Strip(t)
    ensures ParseInt(s) == ParseInt(t)
  {
  }

  /** `int` reads back the decimal text of every integer, with any whitespace around it. */
  lemma ParseSigned(before: string, n: int, after: string)
    requires forall i :: 0 <= i < |before| ==> IsSpace(before[i])
    requires forall i :: 0 <= i < |after| ==> IsSpace(after[i])
    ensures ParseInt(before + Signed(n) + after) == Some(n)
  {
    var t := Signed(n);
    ParseSignedText(n);
    SignedEnds(n);
    StripPadded(before, t, after);
    StripTrimmed(t);
    ParseIntOfStrip(before + t + after, t);
  }

  /** The decimal text of an integer starts and ends with a character that is not whitespace. */
  lemma SignedEnds(n: int)
    ensures Signed(n) != [] && !IsSpace(Signed(n)[0]) && !IsSpace(Signed(n)[|Signed(n)| - 1])
  {
    var m: nat := if n < 0 then -n else n;
    DecimalDigits(m);
    var d := Decimal(m);
    assert IsDigit(d[0]) && IsDigit(d[|d| - 1]);
  }
}
