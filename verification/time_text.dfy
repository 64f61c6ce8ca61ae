/** `VideoPlayer.getTimeText`: a position in milliseconds shown as "mm:ss",
    together with the decimal rendering of Java ints it is built from and a
    parser for the texts it produces. */
module TimeText {
  import opened Java

  predicate IsDigit(c: char) {
    '0' <= c <= '9'
  }

  predicate AllDigits(s: string) {
    forall i :: 0 <= i < |s| ==> IsDigit(s[i])
  }

  function DigitChar(d: nat): (c: char)
    requires d < 10
    ensures IsDigit(c) && DigitValue(c) == d
  {
    ('0' as int + d) as char
  }

  function DigitValue(c: char): nat
    requires IsDigit(c)
  {
    c as int - '0' as int
  }

  /** The decimal digits of `n`, most significant first, without leading zeros. */
  function Digits(n: nat): (s: string)
    ensures AllDigits(s) && |s| >= 1
    ensures |s| == 1 <==> n < 10
    ensures |s| > 1 ==> s[0] != '0'
    decreases n
  {
    if n < 10 then [DigitChar(n)] else Digits(n / 10) + [DigitChar(n % 10)]
  }

  /** Java's `n + ""` for an int: an optional minus sign, then the digits. */
  function DecimalString(n: int): (s: string)
    ensures n >= 0 ==> AllDigits(s)
    ensures n < 0 ==> |s| >= 2 && s[0] == '-'
  {
    if n < 0 then "-" + Digits(-n) else Digits(n)
  }

  /** Java's int-to-string conversion reads back: the digits after an
      optional minus sign spell the magnitude of `n`. */
  lemma DecimalStringValue(n: int)
    ensures n >= 0 ==> AllDigits(DecimalString(n)) && ParseDecimal(DecimalString(n)) == n
    ensures n < 0 ==> var s := DecimalString(n);
      |s| >= 2 && s[0] == '-' && AllDigits(s[1..]) && ParseDecimal(s[1..]) == -n
  {
    if n < 0 {
      ParseDigits(-n);
      assert DecimalString(n)[1..] == Digits(-n);
    } else {
      ParseDigits(n);
    }
  }

  /** The value of a string of decimal digits (leading zeros allowed). */
  function ParseDecimal(s: string): nat
    requires AllDigits(s)
  {
    if s == [] then 0 else ParseDecimal(s[..|s| - 1]) * 10 + DigitValue(s[|s| - 1])
  }

  /** getTimeText's padding step: a one-character field gets a leading "0". */
  function PadTwo(s: string): (r: string)
    ensures |r| >= 2 || |s| == 0
  {
    if |s| == 1 then "0" + s else s
  }

  /** `getTimeText(milliseconds)`: whole minutes and the remaining seconds,
      each rendered by Java's int-to-string conversion and padded to at
      least two characters, joined by ':'. */
  function GetTimeText(milliseconds: Int32): (text: string)
  {
    var seconds := Div(milliseconds, 1000);
    var min := PadTwo(DecimalString(Div(seconds, 60)));
    var sec := PadTwo(DecimalString(Rem(seconds, 60)));
    min + ":" + sec
  }

  /** The fields of a time text: a minutes field of at least two digits (more
      only when needed, so no extra leading zero) and a seconds field of
      exactly two digits below 60. */
  predicate WellFormedFields(min: string, sec: string) {
    AllDigits(min) && |min| >= 2 && (|min| > 2 ==> min[0] != '0')
    && AllDigits(sec) && |sec| == 2 && ParseDecimal(sec) < 60
  }

  /** The texts getTimeText produces for non-negative input: well-formed
      fields joined by ':'. */
  predicate IsTimeText(text: string) {
    |text| >= 5 && text[|text| - 3] == ':'
    && WellFormedFields(text[..|text| - 3], text[|text| - 2..])
  }

  /** Reads a time text back as a number of whole seconds. */
  function ParseTimeText(text: string): (seconds: Option<nat>)
    ensures seconds.Some? <==> IsTimeText(text)
  {
    if IsTimeText(text) then
      Some(ParseDecimal(text[..|text| - 3]) * 60 + ParseDecimal(text[|text| - 2..]))
    else
      None
  }

  lemma {:induction false} ParseDigits(n: nat)
    ensures ParseDecimal(Digits(n)) == n
    decreases n
  {
    if n >= 10 {
      var s := Digits(n);
      assert s[..|s| - 1] == Digits(n / 10);
      ParseDigits(n / 10);
    }
  }

  lemma {:induction false} ParseLeadingZero(s: string)
    requires AllDigits(s)
    ensures AllDigits("0" + s) && ParseDecimal("0" + s) == ParseDecimal(s)
    decreases |s|
  {
    var z := "0" + s;
    assert AllDigits(z) by {
      forall i | 0 <= i < |z| ensures IsDigit(z[i]) {
        if i > 0 { assert z[i] == s[i - 1]; }
      }
    }
    if s != [] {
      assert z[..|z| - 1] == "0" + s[..|s| - 1];
      ParseLeadingZero(s[..|s| - 1]);
    }
  }

  lemma {:induction false} ParsePositive(s: string)
    requires AllDigits(s) && |s| >= 1 && s[0] != '0'
    ensures ParseDecimal(s) >= 1
    decreases |s|
  {
    if |s| > 1 {
      ParsePositive(s[..|s| - 1]);
    }
  }

  /** A digit string without a leading zero is exactly the decimal form of its value. */
  lemma {:induction false} DigitsOfParse(s: string)
    requires AllDigits(s) && |s| >= 1 && (|s| > 1 ==> s[0] != '0')
    ensures Digits(ParseDecimal(s)) == s
    decreases |s|
  {
    var p := s[..|s| - 1];
    if |s| == 1 {
      assert ParseDecimal(s) == ParseDecimal(p) * 10 + DigitValue(s[0]);
      assert p == [];
    } else {
      ParsePositive(p);
      DigitsOfParse(p);
      var v := ParseDecimal(s);
      assert v == ParseDecimal(p) * 10 + DigitValue(s[|s| - 1]);
      assert v / 10 == ParseDecimal(p) && v % 10 == DigitValue(s[|s| - 1]);
      assert s == p + [s[|s| - 1]];
    }
  }

  /** A padded field of a non-negative value: all digits, at least two of them,
      no leading zero beyond the padding, and the value reads back. */
  lemma PaddedField(n: nat)
    ensures AllDigits(PadTwo(Digits(n))) && |PadTwo(Digits(n))| >= 2
    ensures |PadTwo(Digits(n))| > 2 ==> PadTwo(Digits(n))[0] != '0'
    ensures n < 100 ==> |PadTwo(Digits(n))| == 2
    ensures ParseDecimal(PadTwo(Digits(n))) == n
  {
    ParseDigits(n);
    if n < 10 {
      ParseLeadingZero(Digits(n));
    } else if n < 100 {
      assert Digits(n) == Digits(n / 10) + [DigitChar(n % 10)];
    }
  }

  /** Reading a padded field back and rendering its value again gives the field. */
  lemma PaddedFieldOfParse(field: string)
    requires AllDigits(field) && |field| >= 2 && (|field| > 2 ==> field[0] != '0')
    ensures PadTwo(Digits(ParseDecimal(field))) == field
  {
    if field[0] == '0' {
      var rest := field[1..];
      assert field == "0" + rest;
      ParseLeadingZero(rest);
      DigitsOfParse(rest);
    } else {
      DigitsOfParse(field);
    }
  }

  /** The text of `minutes` and `seconds` once both are non-negative: each
      field is a plain decimal rendering padded to two characters. */
  function FormatFields(minutes: nat, seconds: nat): string
  {
    PadTwo(Digits(minutes)) + ":" + PadTwo(Digits(seconds))
  }

  /** For a non-negative position both fields are plain decimal renderings. */
  lemma TimeTextFields(milliseconds: Int32)
    requires milliseconds >= 0
    ensures GetTimeText(milliseconds) == FormatFields(milliseconds / 1000 / 60, milliseconds / 1000 % 60)
  {
    var seconds := Div(milliseconds, 1000);
    assert seconds == milliseconds / 1000;
    assert Div(seconds, 60) == seconds / 60 && Rem(seconds, 60) == seconds % 60;
  }

  /** Splitting "min:sec" at the third character from the end gives the fields back. */
  lemma SplitFields(min: string, sec: string)
    requires |min| >= 2 && |sec| == 2
    ensures var text := min + ":" + sec;
      |text| >= 5 && text[..|text| - 3] == min && text[|text| - 3] == ':' && text[|text| - 2..] == sec
  {
  }

  /** Minutes, and seconds below 60, render as a time text whose fields read
      back as those numbers. */
  lemma FormatFieldsRoundTrip(minutes: nat, seconds: nat)
    requires seconds < 60
    ensures var text := FormatFields(minutes, seconds);
      IsTimeText(text)
      && ParseDecimal(text[..|text| - 3]) == minutes
      && ParseDecimal(text[|text| - 2..]) == seconds
      && ParseTimeText(text) == Some(minutes * 60 + seconds)
  {
    var min, sec := PadTwo(Digits(minutes)), PadTwo(Digits(seconds));
    PaddedField(minutes);
    PaddedField(seconds);
    SplitFields(min, sec);
  }

  /** A number of seconds, split into whole minutes and the remaining
      seconds and rendered, reads back as that number. */
  lemma FormatSecondsRoundTrip(total: nat)
    ensures ParseTimeText(FormatFields(total / 60, total % 60)) == Some(total)
  {
    FormatFieldsRoundTrip(total / 60, total % 60);
    assert total / 60 * 60 + total % 60 == total;
  }

  /** For a non-negative position the text is well formed and reads back as
      the whole number of seconds `ms/1000`: its minutes field reads as
      `(ms/1000) / 60` and its seconds field as `(ms/1000) % 60`. */
  lemma TimeTextRoundTrip(milliseconds: Int32)
    requires milliseconds >= 0
    ensures ParseTimeText(GetTimeText(milliseconds)) == Some(milliseconds / 1000)
  {
    TimeTextFields(milliseconds);
    FormatSecondsRoundTrip(milliseconds / 1000);
  }

  /** The start of the second `m * 60 + s`, in milliseconds, splits back into `m` and `s`. */
  lemma SecondsOfFields(seconds: nat, m: nat, s: nat)
    requires s < 60 && seconds == m * 60 + s
    ensures seconds * 1000 / 1000 / 60 == m
    ensures seconds * 1000 / 1000 % 60 == s
  {
  }

  /** A time text is the rendering of the two numbers its fields read as. */
  lemma FormatFieldsOfParse(text: string)
    requires IsTimeText(text)
    ensures FormatFields(ParseDecimal(text[..|text| - 3]), ParseDecimal(text[|text| - 2..])) == text
  {
    var min, sec := text[..|text| - 3], text[|text| - 2..];
    PaddedFieldOfParse(min);
    PaddedFieldOfParse(sec);
    assert text == min + ":" + sec;
  }

  /** Every well-formed time text is produced, from the start of the second it names. */
  lemma TimeTextFromParse(text: string)
    requires IsTimeText(text)
    requires ParseTimeText(text).value * 1000 <= INT_MAX
    ensures GetTimeText(ParseTimeText(text).value * 1000) == text
  {
    var m, s := ParseDecimal(text[..|text| - 3]), ParseDecimal(text[|text| - 2..]);
    var seconds := ParseTimeText(text).value;
    SecondsOfFields(seconds, m, s);
    TimeTextFields(seconds * 1000);
    FormatFieldsOfParse(text);
  }

  /** Two non-negative positions show the same text exactly when they fall in the same second. */
  lemma TimeTextSameSecond(a: Int32, b: Int32)
    requires a >= 0 && b >= 0
    ensures GetTimeText(a) == GetTimeText(b) <==> a / 1000 == b / 1000
  {
    TimeTextRoundTrip(a);
    TimeTextRoundTrip(b);
  }

  /** An unknown duration (the decoder reports -1) and any other position
      above -1000 ms show as "00:00". */
  lemma TimeTextNearZero(milliseconds: Int32)
    requires -1000 < milliseconds < 1000
    ensures GetTimeText(milliseconds) == "00:00"
  {
    assert Div(milliseconds, 1000) == 0;
    assert Digits(0) == "0";
  }

  /** Java's truncating `/` and `%` carry the sign into the fields: a position
      of -1000 ms or less never yields a well-formed time text. */
  lemma NegativeTimeTextMalformed(milliseconds: Int32)
    requires milliseconds <= -1000
    ensures !IsTimeText(GetTimeText(milliseconds))
  {
    var seconds := Div(milliseconds, 1000);
    assert seconds < 0;
    var min := PadTwo(DecimalString(Div(seconds, 60)));
    var sec := PadTwo(DecimalString(Rem(seconds, 60)));
    var text := min + ":" + sec;
    assert GetTimeText(milliseconds) == text;
    if Rem(seconds, 60) < 0 {
      // The seconds field is "-" followed by one or two digits.
      assert sec[0] == '-';
      if |sec| == 2 {
        assert text[|text| - 2] == '-';
        assert !IsDigit(text[|text| - 2..][0]);
      } else {
        assert text[|text| - 3] == '-';
      }
    } else {
      // A whole number of negative minutes: the minutes field starts with '-'.
      assert Div(seconds, 60) < 0;
      assert sec == "00";
      assert text[..|text| - 3] == min && min[0] == '-';
      assert !IsDigit(text[..|text| - 3][0]);
    }
  }
}
