/** The `HH:MM` check that every time field of the booking and availability payloads runs:
    the pattern `^([0-1]?[0-9]|2[0-3]):[0-5][0-9]$` written out as character classes,
    next to an independent description of the same language as the clock readings it spells. */
module TimeFormat {
  import opened Text

  /** The hour group `[0-1]?[0-9]|2[0-3]` matching the whole of `h`. */
  predicate HourMatches(h: string) {
    || (|h| == 1 && IsDigit(h[0]))
    || (|h| == 2 && '0' <= h[0] <= '1' && IsDigit(h[1]))
    || (|h| == 2 && h[0] == '2' && '0' <= h[1] <= '3')
  }

  /** The minute group `[0-5][0-9]` matching the whole of `m`. */
  predicate MinuteMatches(m: string) {
    |m| == 2 && '0' <= m[0] <= '5' && IsDigit(m[1])
  }

  /** The pattern body between the anchors: one or two hour characters, a colon, two minute digits. */
  predicate TimeMatches(s: string)
    ensures TimeMatches(s) ==> 4 <= |s| <= 5 && s[|s| - 3] == ':' && IsDigit(s[|s| - 1])
  {
    || (|s| == 4 && HourMatches(s[..1]) && s[1] == ':' && MinuteMatches(s[2..]))
    || (|s| == 5 && HourMatches(s[..2]) && s[2] == ':' && MinuteMatches(s[3..]))
  }

  /** The whole anchored pattern as `re.match` applies it. */
  predicate TimePatternMatches(s: string)
    ensures TimeMatches(s) ==> TimePatternMatches(s)
    ensures TimePatternMatches(s) && !TimeMatches(s) ==>
              5 <= |s| <= 6 && s[|s| - 1] == '\n' && TimeMatches(s[..|s| - 1])
  {
    MatchesAnchored(TimeMatches, s)
  }

  /** Reference definition: the reading `h:m` of a 24-hour clock, with the hour written with
      two digits when `padded` or when it needs two, and with one digit otherwise. */
  function Clock(h: nat, m: nat, padded: bool): string
    requires h < 24 && m < 60
  {
    (if padded || h >= 10 then [DigitChar(h / 10), DigitChar(h % 10)] else [DigitChar(h)])
    + [':', DigitChar(m / 10), DigitChar(m % 10)]
  }

  /** The clock reading a matching string denotes. */
  function ParseClock(s: string): (hm: (nat, nat))
    requires TimeMatches(s)
    ensures hm.0 < 24 && hm.1 < 60
  {
    var k := |s| - 3;
    var h := if k == 1 then DigitValue(s[0]) else 10 * DigitValue(s[0]) + DigitValue(s[1]);
    (h, 10 * DigitValue(s[k + 1]) + DigitValue(s[k + 2]))
  }

  lemma DigitRoundTrip(c: char)
    requires IsDigit(c)
    ensures DigitChar(DigitValue(c)) == c
  {
  }

  /** Every matching string is the clock reading it denotes, spelt as it was given. */
  lemma ParseThenSpell(s: string)
    requires TimeMatches(s)
    ensures Clock(ParseClock(s).0, ParseClock(s).1, |s| == 5) == s
  {
    var (h, m) := ParseClock(s);
    var k := |s| - 3;
    DigitRoundTrip(s[k + 1]);
    DigitRoundTrip(s[k + 2]);
    DigitRoundTrip(s[0]);
    if k == 2 {
      DigitRoundTrip(s[1]);
      assert h / 10 == DigitValue(s[0]) && h % 10 == DigitValue(s[1]);
    }
    assert m / 10 == DigitValue(s[k + 1]) && m % 10 == DigitValue(s[k + 2]);
  }

  /** Every clock reading is accepted and reads back as itself. */
  lemma SpellThenParse(h: nat, m: nat, padded: bool)
    requires h < 24 && m < 60
    ensures TimeMatches(Clock(h, m, padded))
    ensures ParseClock(Clock(h, m, padded)) == (h, m)
  {
    var s := Clock(h, m, padded);
    if padded || h >= 10 {
      assert s[..2] == [DigitChar(h / 10), DigitChar(h % 10)];
      assert s[3..] == [DigitChar(m / 10), DigitChar(m % 10)];
    } else {
      assert s[..1] == [DigitChar(h)];
      assert s[2..] == [DigitChar(m / 10), DigitChar(m % 10)];
    }
  }

  /** The character-class predicate accepts exactly the 24-hour clock readings
      `H:MM` and `HH:MM` (leading zero optional), hours 0–23 and minutes 00–59. */
  lemma TimeLanguage(s: string)
    ensures TimeMatches(s) <==> exists h: nat, m: nat, padded: bool :: h < 24 && m < 60 && s == Clock(h, m, padded)
  {
    if TimeMatches(s) {
      ParseThenSpell(s);
    }
    if exists h: nat, m: nat, padded: bool :: h < 24 && m < 60 && s == Clock(h, m, padded) {
      var h: nat, m: nat, padded: bool :| h < 24 && m < 60 && s == Clock(h, m, padded);
      SpellThenParse(h, m, padded);
    }
  }

  /** Accepted strings are four or five characters long, so a five-character field limit
      never refuses a string the pattern accepts. */
  lemma MatchedTimeIsShort(s: string)
    requires TimeMatches(s)
    ensures 4 <= |s| <= 5
    ensures forall i :: 0 <= i < |s| ==> IsDigit(s[i]) || s[i] == ':'
  {
    var k := |s| - 3;
    assert IsDigit(s[k + 1]) && IsDigit(s[k + 2]) by {
      assert s[k + 1..][0] == s[k + 1] && s[k + 1..][1] == s[k + 2];
    }
    assert forall i :: 0 <= i < k ==> IsDigit(s[i]) by {
      assert forall i :: 0 <= i < k ==> s[..k][i] == s[i];
    }
  }

  /** Examples: "9:00" and "23:59" are accepted; "24:00", "9:5" and "09:60" are not. */
  lemma TimeExamples()
    ensures TimeMatches("9:00") && TimeMatches("09:00") && TimeMatches("23:59")
    ensures !TimeMatches("24:00") && !TimeMatches("9:5") && !TimeMatches("09:60") && !TimeMatches("123:00")
    ensures TimePatternMatches("9:00\n") && !TimeMatches("9:00\n")
  {
    assert "9:00"[..1] == "9" && "9:00"[2..] == "00";
    assert "09:00"[..2] == "09" && "09:00"[3..] == "00";
    assert "23:59"[..2] == "23" && "23:59"[3..] == "59";
    assert "24:00"[..2] == "24";
    assert "09:60"[3..] == "60";
    assert "9:00\n"[..4] == "9:00";
  }
}
