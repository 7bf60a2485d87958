/**
 * Times of day as the data and the clock write them: zero-padded "HH:MM:SS"
 * strings. For these strings JavaScript's string comparison agrees with the
 * chronological order used to sort the timeline, which is why the model can
 * represent a time by its seconds since midnight.
 */
module TimeOfDay {
  import opened WeatherModel
  import opened Timeline

  /** Whether a character is a decimal digit. */
  predicate IsDigit(c: char) {
    '0' <= c <= '9'
  }

  /** The character of a decimal digit. */
  function Digit(n: nat): (c: char)
    requires n < 10
    ensures IsDigit(c)
  {
    ('0' as int + n) as char
  }

  /** The value of a decimal digit character. */
  function DigitValue(c: char): (n: nat)
    requires IsDigit(c)
    ensures n < 10 && Digit(n) == c
  {
    c as int - '0' as int
  }

  /** A number below 100 written with two digits, zero-padded. */
  function TwoDigits(n: nat): (s: string)
    requires n < 100
    ensures |s| == 2 && IsDigit(s[0]) && IsDigit(s[1])
    ensures 10 * DigitValue(s[0]) + DigitValue(s[1]) == n
  {
    [Digit(n / 10), Digit(n % 10)]
  }

  /** The hours, minutes and seconds of a time of day. */
  lemma TimeParts(t: Time)
    ensures t / 3600 < 24 && (t / 60) % 60 < 60 && t % 60 < 60
    ensures t == 3600 * (t / 3600) + 60 * ((t / 60) % 60) + t % 60
  {
    var h, m, s := t / 3600, (t / 60) % 60, t % 60;
    assert t / 60 == 60 * h + m;
  }

  /** The zero-padded "HH:MM:SS" string of a time of day. */
  function Format(t: Time): (s: string)
    ensures |s| == 8 && s[2] == ':' && s[5] == ':'
  {
    TimeParts(t);
    TwoDigits(t / 3600) + ([':'] + (TwoDigits((t / 60) % 60) + ([':'] + TwoDigits(t % 60))))
  }

  /** Two digits, a colon, two digits, a colon, two digits. */
  predicate WellFormed(s: string) {
    && |s| == 8 && s[2] == ':' && s[5] == ':'
    && IsDigit(s[0]) && IsDigit(s[1]) && IsDigit(s[3]) && IsDigit(s[4]) && IsDigit(s[6]) && IsDigit(s[7])
  }

  /**
   * A "HH:MM:SS" string read as a time of day, as the `Date` constructor reads
   * it after a fixed date; `None` for anything else.
   */
  function Parse(s: string): (r: Option<Time>)
    ensures r.Some? ==> Format(r.value) == s
  {
    if WellFormed(s) then
      var h := 10 * DigitValue(s[0]) + DigitValue(s[1]);
      var m := 10 * DigitValue(s[3]) + DigitValue(s[4]);
      var sec := 10 * DigitValue(s[6]) + DigitValue(s[7]);
      if h < 24 && m < 60 && sec < 60 then
        var t := 3600 * h + 60 * m + sec;
        FormatOfParts(s, h, m, sec);
        Some(t)
      else None
    else None
  }

  /** A well-formed "HH:MM:SS" string is the string of the time its fields add up to. */
  lemma FormatOfParts(s: string, h: nat, m: nat, sec: nat)
    requires WellFormed(s)
    requires h == 10 * DigitValue(s[0]) + DigitValue(s[1]) && h < 24
    requires m == 10 * DigitValue(s[3]) + DigitValue(s[4]) && m < 60
    requires sec == 10 * DigitValue(s[6]) + DigitValue(s[7]) && sec < 60
    ensures Format(3600 * h + 60 * m + sec) == s
  {
    FormatFromParts(h, m, sec);
    TwoDigitsOf(s[0], s[1]);
    TwoDigitsOf(s[3], s[4]);
    TwoDigitsOf(s[6], s[7]);
    assert s == [s[0], s[1]] + ([':'] + ([s[3], s[4]] + ([':'] + [s[6], s[7]])));
  }

  /** The string of the time with the given hours, minutes and seconds. */
  lemma FormatFromParts(h: nat, m: nat, sec: nat)
    requires h < 24 && m < 60 && sec < 60
    ensures Format(3600 * h + 60 * m + sec) == TwoDigits(h) + ([':'] + (TwoDigits(m) + ([':'] + TwoDigits(sec))))
  {
    TimePartsUnique(3600 * h + 60 * m + sec, h, m, sec);
  }

  /** Two digit characters are the two-digit writing of their value. */
  lemma TwoDigitsOf(c0: char, c1: char)
    requires IsDigit(c0) && IsDigit(c1)
    ensures TwoDigits(10 * DigitValue(c0) + DigitValue(c1)) == [c0, c1]
  {
    var n := 10 * DigitValue(c0) + DigitValue(c1);
    assert n / 10 == DigitValue(c0) && n % 10 == DigitValue(c1);
  }

  /** Hours, minutes and seconds within range are those of the time they add up to. */
  lemma TimePartsUnique(t: Time, h: nat, m: nat, s: nat)
    requires m < 60 && s < 60 && t == 3600 * h + 60 * m + s
    ensures t / 3600 == h && (t / 60) % 60 == m && t % 60 == s
  {
    assert t / 60 == 60 * h + m;
  }

  /** Every time of day reads back from its string. */
  lemma ParseFormat(t: Time)
    ensures Parse(Format(t)) == Some(t)
  {
    var s := Format(t);
    TimeParts(t);
    var h, m, sec := t / 3600, (t / 60) % 60, t % 60;
    assert s[..2] == TwoDigits(h) && s[3..5] == TwoDigits(m) && s[6..] == TwoDigits(sec);
    assert s[0] == TwoDigits(h)[0] && s[1] == TwoDigits(h)[1];
    assert s[3] == TwoDigits(m)[0] && s[4] == TwoDigits(m)[1];
    assert s[6] == TwoDigits(sec)[0] && s[7] == TwoDigits(sec)[1];
  }

  /** JavaScript's `a < b` on strings: lexicographic order of the characters. */
  predicate Less(a: string, b: string): (r: bool)
    ensures r ==> a != b
    ensures |a| < |b| && a == b[..|a|] ==> r
    decreases |a|
  {
    if a == [] then b != []
    else if b == [] then false
    else if a[0] < b[0] then true
    else if a[0] == b[0] then Less(a[1..], b[1..])
    else false
  }

  /** Comparing two strings made of equally long heads compares the heads first, then the tails. */
  lemma {:induction false} LessConcat(x: string, y: string, x': string, y': string)
    requires |x| == |x'|
    ensures Less(x + y, x' + y') <==> Less(x, x') || (x == x' && Less(y, y'))
    decreases |x|
  {
    if x == [] {
      assert x + y == y && x' + y' == y';
    } else {
      assert (x + y)[0] == x[0] && (x' + y')[0] == x'[0];
      assert (x + y)[1..] == x[1..] + y && (x' + y')[1..] == x'[1..] + y';
      LessConcat(x[1..], y, x'[1..], y');
      if x[0] == x'[0] {
        assert x == x' <==> x[1..] == x'[1..] by {
          if x[1..] == x'[1..] {
            assert x == [x[0]] + x[1..] && x' == [x'[0]] + x'[1..];
          }
        }
      }
    }
  }

  /** Two-character strings compare by their first characters, then by their second. */
  lemma LessTwo(x0: char, x1: char, y0: char, y1: char)
    ensures Less([x0, x1], [y0, y1]) <==> x0 < y0 || (x0 == y0 && x1 < y1)
  {
    assert [x0, x1][1..] == [x1] && [y0, y1][1..] == [y1];
    assert Less([x1], [y1]) <==> x1 < y1 by {
      assert [x1][1..] == [] && [y1][1..] == [];
      assert !Less([], []);
    }
  }

  /** Zero-padded two-digit strings compare as their numbers do. */
  lemma TwoDigitsOrder(a: nat, b: nat)
    requires a < 100 && b < 100
    ensures Less(TwoDigits(a), TwoDigits(b)) <==> a < b
    ensures TwoDigits(a) == TwoDigits(b) <==> a == b
  {
    LessTwo(Digit(a / 10), Digit(a % 10), Digit(b / 10), Digit(b % 10));
    assert a == 10 * (a / 10) + a % 10 && b == 10 * (b / 10) + b % 10;
    if TwoDigits(a) == TwoDigits(b) {
      assert Digit(a / 10) == Digit(b / 10) && Digit(a % 10) == Digit(b % 10);
    }
  }

  /** Times of day compare by hours, then minutes, then seconds. */
  lemma ClockOrder(t1: Time, t2: Time)
    ensures t1 < t2 <==>
              t1 / 3600 < t2 / 3600 ||
              (t1 / 3600 == t2 / 3600 &&
               ((t1 / 60) % 60 < (t2 / 60) % 60 || ((t1 / 60) % 60 == (t2 / 60) % 60 && t1 % 60 < t2 % 60)))
  {
    TimeParts(t1);
    TimeParts(t2);
  }

  /** Two "HH:MM:SS" strings compare by hours, then minutes, then seconds. */
  lemma FormatOrderByParts(t1: Time, t2: Time)
    ensures Less(Format(t1), Format(t2)) <==>
              Less(TwoDigits(t1 / 3600), TwoDigits(t2 / 3600)) ||
              (t1 / 3600 == t2 / 3600 &&
               (Less(TwoDigits((t1 / 60) % 60), TwoDigits((t2 / 60) % 60)) ||
                ((t1 / 60) % 60 == (t2 / 60) % 60 && Less(TwoDigits(t1 % 60), TwoDigits(t2 % 60)))))
  {
    TimeParts(t1);
    TimeParts(t2);
    var h1, m1, s1 := t1 / 3600, (t1 / 60) % 60, t1 % 60;
    var h2, m2, s2 := t2 / 3600, (t2 / 60) % 60, t2 % 60;
    TwoDigitsOrder(h1, h2);
    TwoDigitsOrder(m1, m2);
    var r1 := TwoDigits(m1) + ([':'] + TwoDigits(s1));
    var r2 := TwoDigits(m2) + ([':'] + TwoDigits(s2));
    LessConcat(TwoDigits(h1), [':'] + r1, TwoDigits(h2), [':'] + r2);
    LessConcat([':'], r1, [':'], r2);
    LessConcat(TwoDigits(m1), [':'] + TwoDigits(s1), TwoDigits(m2), [':'] + TwoDigits(s2));
    LessConcat([':'], TwoDigits(s1), [':'], TwoDigits(s2));
    assert !Less([':'], [':']);
  }

  /**
   * The string comparison the start position uses (`t >= now` on "HH:MM:SS"
   * strings) is the chronological order by which the timeline is sorted.
   */
  lemma FormatOrder(t1: Time, t2: Time)
    ensures Less(Format(t1), Format(t2)) <==> t1 < t2
  {
    TimeParts(t1);
    TimeParts(t2);
    FormatOrderByParts(t1, t2);
    ClockOrder(t1, t2);
    TwoDigitsOrder(t1 / 3600, t2 / 3600);
    TwoDigitsOrder((t1 / 60) % 60, (t2 / 60) % 60);
    TwoDigitsOrder(t1 % 60, t2 % 60);
  }

  /** The strings of a timeline, as the service holds it. */
  function Formats(times: seq<Time>): (strs: seq<string>)
    ensures |strs| == |times| && forall k :: 0 <= k < |times| ==> strs[k] == Format(times[k])
  {
    seq(|times|, k requires 0 <= k < |times| => Format(times[k]))
  }

  /** `findIndex(t => t >= currentTimeStr)` on the timeline's strings. */
  function FirstAtOrAfter(strs: seq<string>, nowStr: string): (r: int)
    ensures -1 <= r < |strs|
    ensures 0 <= r ==> !Less(strs[r], nowStr) && forall j :: 0 <= j < r ==> Less(strs[j], nowStr)
    ensures r == -1 <==> forall j :: 0 <= j < |strs| ==> Less(strs[j], nowStr)
  {
    if strs == [] then -1
    else if !Less(strs[0], nowStr) then 0
    else
      var r := FirstAtOrAfter(strs[1..], nowStr);
      if r == -1 then -1 else r + 1
  }

  /**
   * The search on "HH:MM:SS" strings that the service performs finds the same
   * position as the search on times of day.
   */
  lemma {:induction false} StringSearchAgrees(times: seq<Time>, now: Time)
    ensures FirstAtOrAfter(Formats(times), Format(now)) == FindIndexAtLeast(times, now)
    decreases |times|
  {
    if times != [] {
      FormatOrder(times[0], now);
      assert Formats(times)[1..] == Formats(times[1..]);
      StringSearchAgrees(times[1..], now);
    }
  }
}
