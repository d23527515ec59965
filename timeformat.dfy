/**
 * `formatTime` of the stopwatch (components.tsx): whole minutes, seconds
 * within the minute and centiseconds within the second, each written in
 * decimal and left-padded with '0' to two characters, joined as MM:SS.CC.
 * `ParseTime` reads such a display back; the round trip shows the display
 * keeps the elapsed time to the 10 ms.
 */
module TimeFormat {
  import opened Util

  predicate IsDigit(c: char) {
    '0' <= c <= '9'
  }

  predicate AllDigits(s: string) {
    forall i :: 0 <= i < |s| ==> IsDigit(s[i])
  }

  function DigitChar(d: nat): (c: char)
    requires d < 10
    ensures IsDigit(c) && c as int - '0' as int == d
  {
    "0123456789"[d]
  }

  function DigitValue(c: char): nat
    requires IsDigit(c)
  {
    c as int - '0' as int
  }

  /** `n.toString()` for a natural number: decimal, without leading zeros. */
  function Digits(n: nat): (r: string)
    ensures 1 <= |r| && AllDigits(r)
    ensures n < 10 <==> |r| == 1
    ensures 10 <= n < 100 ==> |r| == 2
    // no leading zero: only 0 itself starts with '0'
    ensures r[0] == '0' ==> n == 0
    decreases n
  {
    if n < 10 then [DigitChar(n)]
    else
      var r := Digits(n / 10) + [DigitChar(n % 10)];
      assert 10 <= n < 100 ==> n / 10 < 10;
      assert r[0] == Digits(n / 10)[0];
      r
  }

  /** The value of a string of decimal digits; the inverse of `Digits`. */
  function ParseDigits(s: string): nat
    requires AllDigits(s)
  {
    if s == [] then 0 else ParseDigits(s[..|s| - 1]) * 10 + DigitValue(s[|s| - 1])
  }

  lemma {:induction false} DigitsRoundTrip(n: nat)
    ensures ParseDigits(Digits(n)) == n
    decreases n
  {
    if n >= 10 {
      var r := Digits(n);
      assert r[..|r| - 1] == Digits(n / 10);
      DigitsRoundTrip(n / 10);
    }
  }

  /** `s.padStart(2, '0')`. */
  function PadStart2(s: string): (r: string)
    ensures |r| == if |s| >= 2 then |s| else 2
    ensures r[|r| - |s|..] == s
    ensures forall i :: 0 <= i < |r| - |s| ==> r[i] == '0'
  {
    if |s| >= 2 then s else if |s| == 1 then ['0'] + s else "00"
  }

  /** A leading zero does not change the value of a digit string. */
  lemma {:induction false} ParseDigitsLeadingZero(s: string)
    requires AllDigits(s)
    ensures AllDigits(['0'] + s)
    ensures ParseDigits(['0'] + s) == ParseDigits(s)
    decreases |s|
  {
    var t := ['0'] + s;
    assert AllDigits(t) by {
      forall i | 0 <= i < |t| ensures IsDigit(t[i]) {
        if i > 0 { assert t[i] == s[i - 1]; }
      }
    }
    if s != [] {
      assert t[..|t| - 1] == ['0'] + s[..|s| - 1];
      assert AllDigits(s[..|s| - 1]);
      ParseDigitsLeadingZero(s[..|s| - 1]);
    }
  }

  /** One field of the display: the number's digits, padded to two with '0'. */
  function Field(n: nat): (r: string)
    ensures |r| >= 2
    ensures n < 100 ==> |r| == 2
  {
    PadStart2(Digits(n))
  }

  /** A field is digits only and reads back as the number it shows. */
  lemma PaddedDigits(n: nat)
    ensures AllDigits(Field(n))
    ensures ParseDigits(Field(n)) == n
  {
    var d := Digits(n);
    DigitsRoundTrip(n);
    if |d| < 2 {
      assert PadStart2(d) == ['0'] + d;
      ParseDigitsLeadingZero(d);
    }
  }

  /** The whole minutes elapsed. */
  function Minutes(ms: nat): (m: nat)
    ensures m * 60000 <= ms < m * 60000 + 60000
  {
    ms / 60000
  }

  /** Below 100 minutes the minutes field fits in two digits. */
  lemma MinutesBelow100(ms: nat)
    ensures ms < 100 * 60000 ==> Minutes(ms) < 100
  {
  }

  function Seconds(ms: nat): (s: nat)
    ensures s < 60
  {
    (ms % 60000) / 1000
  }

  function Centiseconds(ms: nat): (c: nat)
    ensures c < 100
  {
    (ms % 1000) / 10
  }

  /** What is left below the second is the same whether or not the whole minutes are taken out first. */
  lemma BelowSecond(ms: nat)
    ensures ms % 1000 == (ms % 60000) % 1000
  {
    var q, r1 := ms / 60000, ms % 60000;
    var s, r2 := r1 / 1000, r1 % 1000;
    var k := 60 * q + s;
    assert ms == 1000 * k + r2 && r2 < 1000;
  }

  /** The three fields give back the time, rounded down to the 10 ms the display shows. */
  lemma FieldsRecompose(ms: nat)
    ensures Minutes(ms) * 60000 + Seconds(ms) * 1000 + Centiseconds(ms) * 10 == ms - ms % 10
  {
    var q, r1 := ms / 60000, ms % 60000;
    var s, r2 := r1 / 1000, r1 % 1000;
    var c, r3 := r2 / 10, r2 % 10;
    BelowSecond(ms);
    var k := 6000 * q + 100 * s + c;
    assert ms == 10 * k + r3 && r3 < 10;
  }

  /** For a multiple of 10 ms (every value the stopwatch reaches) the fields give back the time exactly. */
  lemma FieldsExact(ms: nat)
    requires ms % 10 == 0
    ensures Minutes(ms) * 60000 + Seconds(ms) * 1000 + Centiseconds(ms) * 10 == ms
  {
    FieldsRecompose(ms);
  }

  /** The template `${m}:${s}.${c}`: the three parts in order, separated by ':' and '.'. */
  function Join(m: string, s: string, c: string): (r: string)
    ensures |r| == |m| + |s| + |c| + 2
    ensures r[..|m|] == m && r[|m|] == ':'
    ensures r[|m| + 1..|m| + 1 + |s|] == s && r[|m| + 1 + |s|] == '.'
    ensures r[|m| + 2 + |s|..] == c
  {
    m + ":" + s + "." + c
  }

  /** `formatTime(ms)`: minutes, seconds and centiseconds, each padded to two digits. */
  function FormatTime(ms: nat): (r: string)
    ensures |r| >= 8
    ensures ms < 100 * 60000 ==> |r| == 8
    ensures r[|r| - 6] == ':' && r[|r| - 3] == '.'
  {
    var m := Field(Minutes(ms));
    var s := Field(Seconds(ms));
    var c := Field(Centiseconds(ms));
    MinutesBelow100(ms);
    var r := Join(m, s, c);
    assert |s| == 2 && |c| == 2;
    assert |r| == |m| + 6 && r[|m|] == ':' && r[|m| + 3] == '.';
    r
  }

  /** The text before the first `sep` and the text after it; None when `sep` does not occur. */
  function SplitAt(t: string, sep: char): Option<(string, string)>
    decreases |t|
  {
    if t == [] then None
    else if t[0] == sep then Some(([], t[1..]))
    else match SplitAt(t[1..], sep)
      case None => None
      case Some((a, b)) => Some(([t[0]] + a, b))
  }

  /** Splitting at a separator that the left part does not contain gives back both parts. */
  lemma {:induction false} SplitAtJoined(a: string, sep: char, b: string)
    requires sep !in a
    ensures SplitAt(a + [sep] + b, sep) == Some((a, b))
    decreases |a|
  {
    var t := a + [sep] + b;
    if a != [] {
      assert t[0] == a[0] && t[1..] == a[1..] + [sep] + b;
      SplitAtJoined(a[1..], sep, b);
      assert [a[0]] + a[1..] == a;
    }
  }

  /** Reads a displayed MM:SS.CC back into milliseconds (None when it has another shape). */
  function ParseTime(t: string): Option<nat>
  {
    match SplitAt(t, ':')
    case None => None
    case Some((mm, rest)) =>
      match SplitAt(rest, '.')
      case None => None
      case Some((ss, cc)) =>
        if AllDigits(mm) && AllDigits(ss) && AllDigits(cc)
        then Some(ParseDigits(mm) * 60000 + ParseDigits(ss) * 1000 + ParseDigits(cc) * 10)
        else None
  }

  lemma NoSeparator(s: string, sep: char)
    requires AllDigits(s) && !IsDigit(sep)
    ensures sep !in s
  {
  }

  /** Three digit strings joined as M:S.C read back as M·60000 + S·1000 + C·10. */
  lemma ParseJoin(m: string, s: string, c: string)
    requires AllDigits(m) && AllDigits(s) && AllDigits(c)
    ensures ParseTime(Join(m, s, c)) == Some(ParseDigits(m) * 60000 + ParseDigits(s) * 1000 + ParseDigits(c) * 10)
  {
    var rest := s + ['.'] + c;
    assert Join(m, s, c) == m + [':'] + rest;
    NoSeparator(m, ':');
    NoSeparator(s, '.');
    SplitAtJoined(m, ':', rest);
    SplitAtJoined(s, '.', c);
  }

  /** Three digit strings that read as m, s and c, joined as M:S.C, read back as m·60000 + s·1000 + c·10. */
  lemma ParseDigitFields(fm: string, fs: string, fc: string, m: nat, s: nat, c: nat)
    requires AllDigits(fm) && AllDigits(fs) && AllDigits(fc)
    requires ParseDigits(fm) == m && ParseDigits(fs) == s && ParseDigits(fc) == c
    ensures ParseTime(Join(fm, fs, fc)) == Some(m * 60000 + s * 1000 + c * 10)
  {
    ParseJoin(fm, fs, fc);
  }

  /** Three padded fields joined as M:S.C read back as M·60000 + S·1000 + C·10. */
  lemma ParseFields(m: nat, s: nat, c: nat)
    ensures ParseTime(Join(Field(m), Field(s), Field(c))) == Some(m * 60000 + s * 1000 + c * 10)
  {
    PaddedDigits(m);
    PaddedDigits(s);
    PaddedDigits(c);
    ParseDigitFields(Field(m), Field(s), Field(c), m, s, c);
  }

  /** Reading the display back gives the elapsed time to the 10 ms: `formatTime` loses nothing else. */
  lemma FormatTimeRoundTrip(ms: nat)
    ensures ParseTime(FormatTime(ms)) == Some(ms - ms % 10)
  {
    ParseFields(Minutes(ms), Seconds(ms), Centiseconds(ms));
    FieldsRecompose(ms);
  }

  /** Times that differ by 10 ms or more (any two the stopwatch reaches) are displayed differently. */
  lemma FormatTimeInjectiveOnTicks(a: nat, b: nat)
    requires a % 10 == 0 && b % 10 == 0 && a != b
    ensures FormatTime(a) != FormatTime(b)
  {
    FormatTimeRoundTrip(a);
    FormatTimeRoundTrip(b);
  }

  /** The three fields of 1230 ms: 0 minutes, 1 second, 23 centiseconds. */
  lemma FieldsOf1230()
    ensures Field(0) == "00" && Field(1) == "01" && Field(23) == "23"
  {
    assert Field(0) == "00" by {
      assert Digits(0) == "0";
    }
    assert Field(1) == "01" by {
      assert Digits(1) == "1";
    }
    assert Field(23) == "23" by {
      assert Digits(2) == "2" && DigitChar(3) == '3';
      assert Digits(23) == Digits(2) + [DigitChar(3)] == "23";
      assert PadStart2("23") == "23";
    }
  }

  /** 1230 ms is displayed as 00:01.23. */
  lemma DisplayOf1230()
    ensures FormatTime(1230) == "00:01.23"
  {
    assert Minutes(1230) == 0 && Seconds(1230) == 1 && Centiseconds(1230) == 23;
    FieldsOf1230();
    assert Join("00", "01", "23") == "00:01.23";
  }
}
