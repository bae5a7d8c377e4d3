/**
 * `calcDuration`, shared word for word by the Git history dialog and the
 * global Git history panel: the time between a run's start and end, as
 * "<s>s" under a minute and "<m>m <s>s" from a minute on, or "-" when it
 * cannot be computed. Date parsing is outside the model: each timestamp
 * string comes with the millisecond value `new Date(...)` gives it, `None`
 * standing for an invalid date (NaN).
 */
module Duration {
  import opened Wrappers
  import opened Strings

  /** `Math.round(ms / 1000)` for a non-negative duration: halves round up. */
  function RoundSeconds(ms: nat): (s: nat)
    ensures 1000 * s <= ms + 500 < 1000 * s + 1000
  {
    (ms + 500) / 1000
  }

  /** Whole seconds as the dialog shows them. */
  function FormatSeconds(s: nat): (r: string)
    ensures |r| >= 2 && r[|r| - 1] == 's'
  {
    if s < 60 then NatToString(s) + "s"
    else NatToString(s / 60) + "m " + NatToString(s % 60) + "s"
  }

  /**
   * The duration of a run: "-" for an empty or invalid timestamp and for an
   * end before the start, else the rounded seconds formatted.
   */
  function CalcDuration(start: string, end: string, startMs: Option<int>, endMs: Option<int>): (r: string)
    ensures r == "-" <==>
      start == "" || end == "" || startMs.None? || endMs.None? || endMs.value < startMs.value
    ensures r != "-" ==> ParseDuration(r) == Some(RoundSeconds(endMs.value - startMs.value))
  {
    if start == "" || end == "" then "-"
    else if startMs.None? || endMs.None? then "-"
    else
      var ms := endMs.value - startMs.value;
      if ms < 0 then "-"
      else
        var r := FormatSeconds(RoundSeconds(ms));
        FormatParse(RoundSeconds(ms));
        assert r != "-" by {
          assert |r| >= 2;
        }
        r
  }

  // ---------------------------------------------------------------------------
  // Reading a duration back

  /** The number of seconds a formatted duration stands for. */
  function ParseDuration(r: string): Option<nat> {
    if |r| < 2 || r[|r| - 1] != 's' then None else ParseBody(r[..|r| - 1])
  }

  /** What precedes the final "s": "<m>m <s>" or "<s>". */
  function ParseBody(body: string): Option<nat> {
    if ' ' in body then
      var i := FirstIndexOf(body, ' ');
      ParseMinutes(body[..i], body[i + 1..])
    else if body != [] && AllDigits(body) then Some(DigitsValue(body))
    else None
  }

  /** "<m>m" and "<s>", both digits. */
  function ParseMinutes(m: string, sec: string): Option<nat> {
    if |m| >= 2 && m[|m| - 1] == 'm' && AllDigits(m[..|m| - 1]) && sec != [] && AllDigits(sec)
    then Some(DigitsValue(m[..|m| - 1]) * 60 + DigitsValue(sec))
    else None
  }

  /**
   * Formatting loses nothing: the minutes and seconds shown add up to the
   * seconds formatted, the seconds part being below 60.
   */
  lemma FormatParse(s: nat)
    ensures ParseDuration(FormatSeconds(s)) == Some(s)
  {
    if s < 60 {
      NatToStringRoundTrip(s);
      ParseSecondsOnly(NatToString(s));
    } else {
      NatToStringRoundTrip(s / 60);
      NatToStringRoundTrip(s % 60);
      ParseMinutesSeconds(NatToString(s / 60), NatToString(s % 60));
    }
  }

  /** "<digits>s" reads back as that many seconds. */
  lemma ParseSecondsOnly(a: string)
    requires a != [] && AllDigits(a)
    ensures ParseDuration(a + "s") == Some(DigitsValue(a))
  {
    var r := a + "s";
    assert r[..|r| - 1] == a;
    assert ' ' !in a by {
      assert forall k :: 0 <= k < |a| ==> IsDigit(a[k]);
    }
  }

  /** "<digits>m <digits>s" reads back as the minutes times 60 plus the seconds. */
  lemma ParseMinutesSeconds(a: string, b: string)
    requires a != [] && AllDigits(a) && b != [] && AllDigits(b)
    ensures ParseDuration(a + "m " + b + "s") == Some(DigitsValue(a) * 60 + DigitsValue(b))
  {
    var body := a + "m " + b;
    var r := body + "s";
    assert r[..|r| - 1] == body;
    SplitAtSpace(a, b);
    assert ParseBody(body) == ParseMinutes(a + "m", b);
    ReadMinutes(a, b);
  }

  /** The first space of "<digits>m <s>" is the one after the "m". */
  lemma SplitAtSpace(a: string, b: string)
    requires AllDigits(a)
    ensures var body := a + "m " + b;
      ' ' in body && FirstIndexOf(body, ' ') == |a| + 1 && body[..|a| + 1] == a + "m" && body[|a| + 2..] == b
  {
    var body := a + "m " + b;
    assert body[|a| + 1] == ' ';
    assert ' ' !in body[..|a| + 1] by {
      assert forall k :: 0 <= k < |a| ==> body[k] == a[k] && IsDigit(a[k]);
    }
    FirstIndexOfIs(body, ' ', |a| + 1);
    assert body[..|a| + 1] == a + "m";
    assert body[|a| + 2..] == b;
  }

  lemma ReadMinutes(a: string, b: string)
    requires a != [] && AllDigits(a) && b != [] && AllDigits(b)
    ensures ParseMinutes(a + "m", b) == Some(DigitsValue(a) * 60 + DigitsValue(b))
  {
    assert (a + "m")[..|a|] == a;
  }

  /** Under a minute only seconds are shown; from a minute on, minutes and seconds below 60. */
  lemma FormatShape(s: nat)
    ensures s < 60 ==> FormatSeconds(s) == NatToString(s) + "s"
    ensures s >= 60 ==>
      exists m: nat, sec: nat ::
        sec < 60 && 60 * m + sec == s && FormatSeconds(s) == NatToString(m) + "m " + NatToString(sec) + "s"
  {
    if s >= 60 {
      var m, sec := s / 60, s % 60;
      assert sec < 60 && 60 * m + sec == s && FormatSeconds(s) == NatToString(m) + "m " + NatToString(sec) + "s";
    }
  }
}
