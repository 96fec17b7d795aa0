/** The timestamp text used in the lyric table and in LRC files:
    `MM:SS.CC` built from integer milliseconds by truncating division
    (main.py:261-264, repeated at 204-206 and 234-237), and the formula
    `replay_line` uses to read it back (main.py:296-299). */
module Timestamp {
  import opened Options
  import opened Text

  predicate IsDigit(c: char)
  {
    '0' <= c <= '9'
  }

  predicate AllDigits(s: string)
  {
    forall i :: 0 <= i < |s| ==> IsDigit(s[i])
  }

  /** What `int()` accepts in this model: a non-empty run of ASCII digits. */
  predicate IsNumeral(s: string)
  {
    |s| > 0 && AllDigits(s)
  }

  function DigitChar(d: nat): (c: char)
    requires d < 10
    ensures IsDigit(c)
  {
    ('0' as int + d) as char
  }

  /** `int(s)` for a string of digits. */
  function NumeralValue(s: string): nat
    requires AllDigits(s)
    decreases |s|
  {
    if |s| == 0 then 0
    else NumeralValue(s[..|s| - 1]) * 10 + (s[|s| - 1] as int - '0' as int)
  }

  /** `str(n)`: the decimal digits of `n`, without leading zeros. */
  function Decimal(n: nat): (s: string)
    ensures IsNumeral(s) && NumeralValue(s) == n
    ensures n < 10 <==> |s| == 1
    ensures n < 100 ==> |s| <= 2
    ensures s[0] == '0' <==> n == 0
    decreases n
  {
    if n < 10 then [DigitChar(n)]
    else
      var s := Decimal(n / 10) + [DigitChar(n % 10)];
      assert s[..|s| - 1] == Decimal(n / 10);
      s
  }

  /** The `{n:02}` format field: decimal, zero-padded to two digits. */
  function Pad2(n: nat): (s: string)
    ensures IsNumeral(s) && NumeralValue(s) == n
    ensures |s| >= 2 && (n < 100 ==> |s| == 2)
    ensures s[0] == '0' <==> n < 10
    ensures n >= 10 ==> s == Decimal(n)
  {
    if n < 10 then
      var s := "0" + Decimal(n);
      assert s[..1] == "0";
      s
    else Decimal(n)
  }

  /** The text every row starts with and `retime_previous_row` puts back. */
  const Unset: string := "00:00.00"

  /** `f"{minutes:02}:{seconds:02}.{hundredths:02}"` of `ms`. */
  function Format(ms: nat): string
  {
    Pad2(ms / 60000) + ":" + Pad2((ms % 60000) / 1000) + "." + Pad2((ms % 1000) / 10)
  }

  /** The `replay_line` formula: split at ":" and then at ".", read the three
      fields with `int()`; None where Python would raise. The fields are not
      range-checked. */
  function Parse(ts: string): (ms: Option<nat>)
    ensures ms.Some? ==> ms.value % 10 == 0
  {
    var parts := Split(ts, ':');
    if |parts| != 2 then None
    else
      var fraction := Split(parts[1], '.');
      if |fraction| != 2 then None
      else if !IsNumeral(parts[0]) || !IsNumeral(fraction[0]) || !IsNumeral(fraction[1]) then None
      else Some((NumeralValue(parts[0]) * 60 + NumeralValue(fraction[0])) * 1000 + NumeralValue(fraction[1]) * 10)
  }

  /** A numeral without a leading zero (or the single digit "0") is the
      `str()` of its value: `Decimal` and `Pad2` fix their text, not only
      its value. */
  lemma {:induction false} NumeralCanonical(s: string)
    requires IsNumeral(s) && (|s| == 1 || s[0] != '0')
    ensures s == Decimal(NumeralValue(s))
    decreases |s|
  {
    var last := s[|s| - 1];
    var d := last as int - '0' as int;
    assert DigitChar(d) == last;
    if |s| > 1 {
      var init := s[..|s| - 1];
      assert init[0] == s[0];
      NumeralCanonical(init);
      NumeralPositive(init);
      var v := NumeralValue(s);
      assert v == NumeralValue(init) * 10 + d;
      TensDigits(v, NumeralValue(init), d);
      assert Decimal(v) == Decimal(NumeralValue(init)) + [DigitChar(d)];
      assert s == init + [last];
    }
  }

  /** Division by 10 has one quotient and remainder. */
  lemma TensDigits(x: int, q: int, r: int)
    requires x == q * 10 + r && 0 <= r < 10
    ensures x / 10 == q && x % 10 == r
  {
    var k := q - x / 10;
    assert x == 10 * (x / 10) + x % 10;
    assert 10 * k == x % 10 - r;
  }

  /** A numeral that does not start with '0' has a positive value. */
  lemma {:induction false} NumeralPositive(s: string)
    requires IsNumeral(s) && s[0] != '0'
    ensures NumeralValue(s) > 0
    decreases |s|
  {
    if |s| > 1 {
      var init := s[..|s| - 1];
      assert init[0] == s[0];
      NumeralPositive(init);
    }
  }

  lemma NoSeparators(s: string)
    requires AllDigits(s)
    ensures ':' !in s && '.' !in s
  {
  }

  /** A text built like a formatted timestamp splits back into its fields. */
  lemma SplitFields(m: string, s: string, h: string)
    requires AllDigits(m) && AllDigits(s) && AllDigits(h)
    ensures Split(m + ":" + s + "." + h, ':') == [m, s + "." + h]
    ensures Split(s + "." + h, '.') == [s, h]
  {
    NoSeparators(m);
    NoSeparators(s);
    NoSeparators(h);
    var tail := s + ['.'] + h;
    assert ':' !in tail;
    assert Split(tail, ':') == [tail];
    SplitAfter(m, ':', tail);
    assert m + ":" + s + "." + h == m + [':'] + tail;
    assert Split(h, '.') == [h];
    SplitAfter(s, '.', h);
  }

  /** Parse reads the three numerals of a text built like a timestamp. */
  lemma ParseFields(m: string, s: string, h: string)
    requires IsNumeral(m) && IsNumeral(s) && IsNumeral(h)
    ensures Parse(m + ":" + s + "." + h) == Some((NumeralValue(m) * 60 + NumeralValue(s)) * 1000 + NumeralValue(h) * 10)
  {
    SplitFields(m, s, h);
    var t := m + ":" + s + "." + h;
    var parts := Split(t, ':');
    assert parts == [m, s + "." + h];
    var fraction := Split(parts[1], '.');
    assert fraction == [s, h];
    assert IsNumeral(parts[0]) && IsNumeral(fraction[0]) && IsNumeral(fraction[1]);
  }

  /** `replay_line` gets a time exactly from a text made of three numerals
      separated by ':' and '.'; on any other text it raises. */
  lemma ParseShape(t: string)
    ensures Parse(t).Some? <==>
      (exists m, s, h :: IsNumeral(m) && IsNumeral(s) && IsNumeral(h) && t == m + ":" + s + "." + h)
  {
    if Parse(t).Some? {
      var parts := Split(t, ':');
      var fraction := Split(parts[1], '.');
      JoinSplit(t, ':');
      JoinSplit(parts[1], '.');
      assert parts[1..][0] == parts[1] && fraction[1..][0] == fraction[1];
      assert t == parts[0] + [':'] + parts[1];
      assert parts[1] == fraction[0] + ['.'] + fraction[1];
      assert t == parts[0] + ":" + fraction[0] + "." + fraction[1];
    }
    if exists m, s, h :: IsNumeral(m) && IsNumeral(s) && IsNumeral(h) && t == m + ":" + s + "." + h {
      var m, s, h :| IsNumeral(m) && IsNumeral(s) && IsNumeral(h) && t == m + ":" + s + "." + h;
      ParseFields(m, s, h);
    }
  }

  /** Format(ms) is `m + ":" + s + "." + h` with three numerals: the minutes
      ms / 60000 (at least two digits), the seconds in 0..59 and the
      hundredths in 0..99 (exactly two digits each). */
  lemma FormatFields(ms: nat)
    ensures exists m, s, h ::
      Format(ms) == m + ":" + s + "." + h &&
      IsNumeral(m) && |m| >= 2 && NumeralValue(m) == ms / 60000 && (m[0] == '0' <==> ms / 60000 < 10) &&
      IsNumeral(s) && |s| == 2 && NumeralValue(s) == (ms % 60000) / 1000 < 60 &&
      IsNumeral(h) && |h| == 2 && NumeralValue(h) == (ms % 1000) / 10 < 100
  {
    var m, s, h := Pad2(ms / 60000), Pad2((ms % 60000) / 1000), Pad2((ms % 1000) / 10);
    assert Format(ms) == m + ":" + s + "." + h;
  }

  /** Dropping the last decimal digit of a millisecond count does not change
      how each field is computed. */
  lemma FieldsOfCentiseconds(ms: nat)
    ensures ms / 60000 == (ms / 10) / 6000
    ensures (ms % 60000) / 1000 == ((ms / 10) % 6000) / 100
    ensures (ms % 1000) / 10 == (ms / 10) % 100
  {
    MinutesField(ms);
    SecondsField(ms);
    HundredthsField(ms);
  }

  lemma MinutesField(ms: nat)
    ensures ms / 60000 == (ms / 10) / 6000
  {
    var c := ms / 10;
    var r := 10 * (c % 6000) + ms % 10;
    assert ms == 60000 * (c / 6000) + r && 0 <= r < 60000;
  }

  lemma SecondsField(ms: nat)
    ensures (ms % 60000) / 1000 == ((ms / 10) % 6000) / 100
  {
    var c := ms / 10;
    var r := c % 6000;
    assert ms % 60000 == 10 * r + ms % 10 by {
      MinutesField(ms);
      assert ms == 60000 * (c / 6000) + (10 * r + ms % 10);
    }
    assert 10 * r + ms % 10 == 1000 * (r / 100) + (10 * (r % 100) + ms % 10);
  }

  lemma HundredthsField(ms: nat)
    ensures (ms % 1000) / 10 == (ms / 10) % 100
  {
    var c := ms / 10;
    assert ms == 1000 * (c / 100) + (10 * (c % 100) + ms % 10);
  }

  /** Round trip: reading back a formatted time loses exactly the
      sub-centisecond part. */
  lemma ParseFormat(ms: nat)
    ensures Parse(Format(ms)) == Some(ms - ms % 10)
  {
    var mins, secs, hund := ms / 60000, (ms % 60000) / 1000, (ms % 1000) / 10;
    var m, s, h := Pad2(mins), Pad2(secs), Pad2(hund);
    assert Format(ms) == m + ":" + s + "." + h;
    ParseFields(m, s, h);
    CentisecondsOfFields(ms);
    assert (mins * 60 + secs) * 1000 + hund * 10 == ms - ms % 10;
  }

  lemma CentisecondsOfFields(ms: nat)
    ensures (ms / 60000 * 60 + (ms % 60000) / 1000) * 1000 + (ms % 1000) / 10 * 10 == ms - ms % 10
  {
    FieldsOfCentiseconds(ms);
    var c := ms / 10;
    var m, r := c / 6000, c % 6000;
    var q, h := r / 100, r % 100;
    assert c == 6000 * m + r;
    assert r == 100 * q + h;
    HundredsDigits(c, 60 * m + q, h);
    assert (m * 60 + q) * 1000 + h * 10 == 10 * c;
  }

  /** Division by 100 has one quotient and remainder. */
  lemma HundredsDigits(x: int, q: int, h: int)
    requires x == 100 * q + h && 0 <= h < 100
    ensures x / 100 == q && x % 100 == h
  {
    var k := q - x / 100;
    assert x == 100 * (x / 100) + x % 100;
    assert 100 * k == x % 100 - h;
  }

  /** Two times format to the same text exactly when they fall in the same
      hundredth of a second. */
  lemma FormatSameCentisecond(a: nat, b: nat)
    ensures Format(a) == Format(b) <==> a / 10 == b / 10
  {
    FieldsOfCentiseconds(a);
    FieldsOfCentiseconds(b);
    if Format(a) == Format(b) {
      ParseFormat(a);
      ParseFormat(b);
    }
  }

  /** Cutting a time to whole hundredths does not change its text: read
      back and formatted again, a formatted time gives the same text. */
  lemma FormatTruncated(ms: nat)
    ensures ms - ms % 10 >= 0 && Format(ms - ms % 10) == Format(ms)
  {
    var t: nat := ms - ms % 10;
    assert t / 10 == ms / 10;
    FormatSameCentisecond(ms, t);
  }

  /** The unset text is the formatted time zero. */
  lemma UnsetIsZero()
    ensures Unset == Format(0)
  {
    assert Pad2(0) == "00";
  }

  /** A formatted time holds only digits, ':' and '.'. */
  lemma FormatCharacters(ms: nat)
    ensures forall i :: 0 <= i < |Format(ms)| ==>
      IsDigit(Format(ms)[i]) || Format(ms)[i] == ':' || Format(ms)[i] == '.'
  {
    var ts := Format(ms);
    var m, s, h := Pad2(ms / 60000), Pad2((ms % 60000) / 1000), Pad2((ms % 1000) / 10);
    assert ts == m + ":" + s + "." + h;
    forall i | 0 <= i < |ts|
      ensures IsDigit(ts[i]) || ts[i] == ':' || ts[i] == '.'
    {
      if i < |m| {
        assert ts[i] == m[i];
      } else if |m| < i <= |m| + |s| {
        assert ts[i] == s[i - |m| - 1];
      } else if |m| + |s| + 1 < i {
        assert ts[i] == h[i - |m| - |s| - 2];
      }
    }
  }
}
