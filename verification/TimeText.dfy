/**
 Clock times as text: the request's "HH:MM", the stored "HH:MM:SS", and Go's
 `time.Parse("15:04:05", …)`. A character stands for one byte.
 */
module TimeText {
  import opened Prelude
  import opened Calendar

  datatype Clock = Clock(hour: nat, minute: nat, second: nat)

  predicate IsDigit(c: char) {
    '0' <= c <= '9'
  }

  function Digit(c: char): nat
    requires IsDigit(c)
  {
    (c - '0') as nat
  }

  /** A colon and two digits at position `i`. */
  predicate ColonPair(s: string, i: nat) {
    i + 2 < |s| && s[i] == ':' && IsDigit(s[i + 1]) && IsDigit(s[i + 2])
  }

  function Pair(s: string, i: nat): nat
    requires i + 1 < |s| && IsDigit(s[i]) && IsDigit(s[i + 1])
  {
    10 * Digit(s[i]) + Digit(s[i + 1])
  }

  /** Where a run of digits from `i` on ends. */
  function DigitsEnd(s: string, i: nat): (e: nat)
    requires i <= |s|
    ensures i <= e <= |s|
    decreases |s| - i
  {
    if i < |s| && IsDigit(s[i]) then DigitsEnd(s, i + 1) else i
  }

  /** The parser takes a fraction after the seconds although the layout names none. */
  function FractionEnd(s: string, i: nat): (e: nat)
    requires i <= |s|
    ensures i <= e <= |s|
  {
    if i + 1 < |s| && (s[i] == '.' || s[i] == ',') && IsDigit(s[i + 1]) then DigitsEnd(s, i + 1) else i
  }

  /** `HMSTime.Time`: one or two hour digits, two minute digits, two second digits, nothing left over. */
  function ParseHMS(s: string): (r: Option<Clock>)
    ensures r.Some? ==> r.value.hour < 24 && r.value.minute < 60 && r.value.second < 60
  {
    if |s| == 0 || !IsDigit(s[0]) then None else
      var n := if |s| > 1 && IsDigit(s[1]) then 2 else 1;
      var hour := if n == 2 then Pair(s, 0) else Digit(s[0]);
      if hour >= 24 || !ColonPair(s, n) then None else
        var minute := Pair(s, n + 1);
        if minute >= 60 || !ColonPair(s, n + 3) then None else
          var second := Pair(s, n + 4);
          if second >= 60 || FractionEnd(s, n + 6) != |s| then None else Some(Clock(hour, minute, second))
  }

  /** The generators drop the parser's error, and the zero time it comes with reads 00:00. */
  function GoMinutes(s: string): (m: int)
    ensures 0 <= m < MINUTES_PER_DAY
  {
    match ParseHMS(s)
    case Some(c) => 60 * c.hour + c.minute
    case None => 0
  }

  function FromHMToHMS(hm: string): string {
    hm + ":00"
  }

  /** Slicing off the first five bytes; Go panics on a shorter text. */
  function HMTime(t: string): string
    requires |t| >= 5
  {
    t[..5]
  }

  /** `Scan` of a text column value. */
  function ScanText(v: string): string {
    if |v| > 8 then v[..8] else v
  }

  function TwoDigits(n: nat): (s: string)
    requires n < 100
    ensures |s| == 2 && IsDigit(s[0]) && IsDigit(s[1]) && Pair(s, 0) == n
  {
    [('0' as int + n / 10) as char, ('0' as int + n % 10) as char]
  }

  /** A request time with one or two hour digits, in range. */
  predicate IsClockText(hm: string) {
    || (|hm| == 5 && IsDigit(hm[0]) && IsDigit(hm[1]) && ColonPair(hm, 2) && Pair(hm, 0) < 24 && Pair(hm, 3) < 60)
    || (|hm| == 4 && IsDigit(hm[0]) && ColonPair(hm, 1) && Pair(hm, 2) < 60)
  }

  /** The parser accepts a stored request time exactly when the request was H:MM or HH:MM in range. */
  lemma AcceptedExactly(hm: string)
    ensures ParseHMS(FromHMToHMS(hm)).Some? <==> IsClockText(hm)
  {
    var s := FromHMToHMS(hm);
    assert |s| == |hm| + 3;
    assert s[|hm|] == ':' && s[|hm| + 1] == '0' && s[|hm| + 2] == '0';
    assert forall i :: 0 <= i < |hm| ==> s[i] == hm[i];
    var n := if |s| > 1 && IsDigit(s[1]) then 2 else 1;
    if ParseHMS(s).Some? {
      assert s[n] == ':' && s[n + 3] == ':';
      if n + 6 < |s| {
        assert s[|hm|] == ':';
        FractionHasNoColon(s, n + 6, |hm|);
      }
      assert |hm| == n + 3;
    }
  }

  /** The number a run of decimal digits writes. */
  function Decimal(s: string): int {
    if s == "" then 0 else 10 * Decimal(s[..|s| - 1]) + (s[|s| - 1] as int - '0' as int)
  }

  /**
   The value of every accepted request time, with one hour digit or two: the hour is the number before
   the colon, the minute the number after it, and the grid starts that many minutes after midnight.
   */
  lemma AcceptedValue(hm: string)
    requires ParseHMS(FromHMToHMS(hm)).Some?
    ensures var colon := |hm| - 3;
      && colon > 0 && hm[colon] == ':'
      && 0 <= Decimal(hm[..colon]) < 24 && 0 <= Decimal(hm[colon + 1..]) < 60
      && ParseHMS(FromHMToHMS(hm)).value == Clock(Decimal(hm[..colon]), Decimal(hm[colon + 1..]), 0)
      && GoMinutes(FromHMToHMS(hm)) == 60 * Decimal(hm[..colon]) + Decimal(hm[colon + 1..])
  {
    AcceptedExactly(hm);
    var s := FromHMToHMS(hm);
    assert forall i :: 0 <= i < |hm| ==> s[i] == hm[i];
    assert s[|hm| + 1] == '0' && s[|hm| + 2] == '0';
    ClockTextValue(hm);
  }

  /** Every hour below ten may be written with one digit. */
  lemma OneDigitHour(hour: nat, minute: nat)
    requires hour < 10 && minute < 60
    ensures var hm := [('0' as int + hour) as char] + ":" + TwoDigits(minute);
      ParseHMS(FromHMToHMS(hm)) == Some(Clock(hour, minute, 0)) && GoMinutes(FromHMToHMS(hm)) == 60 * hour + minute
  {
    var hm := [('0' as int + hour) as char] + ":" + TwoDigits(minute);
    var hms := FromHMToHMS(hm);
    assert |hm| == 4 && |hms| == 7;
    assert hms[0] == ('0' as int + hour) as char && hms[1] == ':';
    assert hms[2] == TwoDigits(minute)[0] && hms[3] == TwoDigits(minute)[1];
    assert hms[4] == ':' && hms[5] == '0' && hms[6] == '0';
  }

  /** The minute a grid starts or ends at, for any request text: a refused text counts as midnight. */
  lemma GridMinuteExactly(hm: string)
    ensures GoMinutes(FromHMToHMS(hm)) == if IsClockText(hm) then 60 * Decimal(hm[..|hm| - 3]) + Decimal(hm[|hm| - 2..]) else 0
  {
    AcceptedExactly(hm);
    if IsClockText(hm) {
      AcceptedValue(hm);
    }
  }

  /** Nothing, or a point or comma and at least one digit. */
  predicate IsFraction(f: string) {
    f == "" || (|f| >= 2 && (f[0] == '.' || f[0] == ',') && forall i :: 1 <= i < |f| ==> IsDigit(f[i]))
  }

  /** `s` writes the clock time: H:MM or HH:MM, the seconds, and a fraction that does not count. */
  predicate WritesClock(s: string, hm: string, f: string, c: Clock) {
    && IsClockText(hm) && IsFraction(f) && c.second < 60 && s == hm + ":" + TwoDigits(c.second) + f
    && c.hour == Decimal(hm[..|hm| - 3]) && c.minute == Decimal(hm[|hm| - 2..])
  }

  /** The parser's whole language, with values. */
  lemma ParsedExactly(s: string, c: Clock)
    ensures ParseHMS(s) == Some(c) <==> exists hm, f :: WritesClock(s, hm, f, c)
  {
    if ParseHMS(s) == Some(c) {
      ParsedParts(s, c);
    }
    if hm, f :| WritesClock(s, hm, f, c) {
      WrittenParses(s, hm, f, c);
    }
  }

  lemma WrittenParses(s: string, hm: string, f: string, c: Clock)
    requires WritesClock(s, hm, f, c)
    ensures ParseHMS(s) == Some(c)
  {
    var n, seconds := |hm| - 3, TwoDigits(c.second);
    assert |s| == n + 6 + |f| && forall i :: 0 <= i < |hm| ==> s[i] == hm[i];
    assert s[n + 3] == ':' && s[n + 4] == seconds[0] && s[n + 5] == seconds[1];
    assert s[n + 6..] == f;
    FractionExactly(s, n + 6);
    ClockTextValue(hm);
  }

  lemma ParsedParts(s: string, c: Clock)
    requires ParseHMS(s) == Some(c)
    ensures exists hm, f :: WritesClock(s, hm, f, c)
  {
    var n := if |s| > 1 && IsDigit(s[1]) then 2 else 1;
    var hm, f, seconds := s[..n + 3], s[n + 6..], TwoDigits(c.second);
    assert forall i :: 0 <= i < |hm| ==> hm[i] == s[i];
    FractionExactly(s, n + 6);
    SamePair(s[n + 4..n + 6], seconds);
    ClockTextValue(hm);
    assert s == s[..n + 3] + s[n + 3..n + 4] + s[n + 4..n + 6] + s[n + 6..];
    assert s[n + 3..n + 4] == ":";
    assert WritesClock(s, hm, f, c);
  }

  /** Two digits are told by their number. */
  lemma SamePair(a: string, b: string)
    requires |a| == 2 && IsDigit(a[0]) && IsDigit(a[1]) && |b| == 2 && IsDigit(b[0]) && IsDigit(b[1]) && Pair(a, 0) == Pair(b, 0)
    ensures a == b
  {
  }

  lemma ClockTextValue(hm: string)
    requires IsClockText(hm)
    ensures var n := |hm| - 3;
      Decimal(hm[..n]) == (if n == 2 then Pair(hm, 0) else Digit(hm[0])) && Decimal(hm[n + 1..]) == Pair(hm, n + 1)
  {
    TwoDigitValue(hm[|hm| - 2..]);
    if |hm| == 5 {
      TwoDigitValue(hm[..2]);
    } else {
      OneDigitValue(hm[..1]);
    }
  }

  lemma FractionExactly(s: string, i: nat)
    requires i <= |s|
    ensures FractionEnd(s, i) == |s| <==> IsFraction(s[i..])
  {
    if i + 1 < |s| {
      DigitsExactly(s, i + 1);
    }
  }

  lemma {:induction false} DigitsExactly(s: string, i: nat)
    requires i <= |s|
    ensures DigitsEnd(s, i) == |s| <==> forall k :: i <= k < |s| ==> IsDigit(s[k])
    decreases |s| - i
  {
    if i < |s| && IsDigit(s[i]) {
      DigitsExactly(s, i + 1);
    }
  }

  lemma OneDigitValue(s: string)
    requires |s| == 1 && IsDigit(s[0])
    ensures Decimal(s) == Digit(s[0])
  {
    assert s[..0] == "";
  }

  lemma TwoDigitValue(s: string)
    requires |s| == 2 && IsDigit(s[0]) && IsDigit(s[1])
    ensures Decimal(s) == Pair(s, 0)
  {
    OneDigitValue(s[..1]);
  }

  /** `Scan` keeps the first eight characters and nothing else. */
  lemma ScanKeepsEight(v: string)
    ensures |ScanText(v)| == (if |v| < 8 then |v| else 8) && forall i :: 0 <= i < |ScanText(v)| ==> ScanText(v)[i] == v[i]
  {
  }

  /** An accepted fraction never reaches past a colon. */
  lemma FractionHasNoColon(s: string, i: nat, k: nat)
    requires i <= k < |s| && s[k] == ':'
    ensures FractionEnd(s, i) <= k
  {
    if i + 1 < |s| && i < k {
      DigitsStop(s, i + 1, k);
    }
  }

  lemma {:induction false} DigitsStop(s: string, i: nat, k: nat)
    requires i <= k < |s| && !IsDigit(s[k])
    ensures DigitsEnd(s, i) <= k
    decreases k - i
  {
    if i < k && IsDigit(s[i]) {
      DigitsStop(s, i + 1, k);
    }
  }

  /** The response text equals the request text exactly when the request text has five characters. */
  lemma ResponseTextExact(hm: string)
    requires |hm| >= 2
    ensures HMTime(FromHMToHMS(hm)) == hm <==> |hm| == 5
  {
    var s := FromHMToHMS(hm);
    if |hm| == 5 {
      assert s[..5] == hm;
    } else {
      assert |s[..5]| == 5;
    }
  }

  /**
   Text round trip for every minute of the day: parsing gives the minute back, the response
   gives the text back, and reading the stored text with any suffix gives the same value.
   */
  lemma ClockRoundTrip(hour: nat, minute: nat, suffix: string)
    requires hour < 24 && minute < 60
    ensures var hm := TwoDigits(hour) + ":" + TwoDigits(minute);
      var hms := FromHMToHMS(hm);
      && ParseHMS(hms) == Some(Clock(hour, minute, 0))
      && GoMinutes(hms) == 60 * hour + minute
      && HMTime(hms) == hm
      && ScanText(hms + suffix) == hms
  {
    var hm := TwoDigits(hour) + ":" + TwoDigits(minute);
    var hms := FromHMToHMS(hm);
    assert |hm| == 5 && |hms| == 8;
    assert hms[0] == TwoDigits(hour)[0] && hms[1] == TwoDigits(hour)[1] && hms[2] == ':';
    assert hms[3] == TwoDigits(minute)[0] && hms[4] == TwoDigits(minute)[1];
    assert hms[5] == ':' && hms[6] == '0' && hms[7] == '0';
    assert (hms + suffix)[..8] == hms;
  }
}
