/**
 * `datetime.strptime(text, "%Y%m%dT%H%M%S")` as CPython's `_strptime` performs it.
 *
 * The format is compiled to one regular expression, one alternation group per
 * directive, matched case-insensitively with `re.match` (leftmost alternative
 * first, backtracking into earlier groups when a later one fails):
 *
 *   %Y  \d\d\d\d
 *   %m  1[0-2] | 0[1-9] | [1-9]
 *   %d  3[01] | [12]\d | 0[1-9] | [1-9] | " "[1-9]
 *   T   the literal T (or t)
 *   %H  2[0-3] | [0-1]\d | \d
 *   %M  [0-5]\d | \d
 *   %S  6[0-1] | [0-5]\d | \d
 *
 * Text left over after the match raises "unconverted data remains"; no match
 * raises "does not match format". The captured fields are converted with
 * `int` and `datetime` rejects out-of-range values (year 0, February 30,
 * second 60 or 61). Every failure is a `ValueError`.
 */
module Strptime {
  import opened Optional

  datatype DateTime = DateTime(year: int, month: int, day: int, hour: int, minute: int, second: int)

  predicate IsLeapYear(year: int)
  {
    year % 4 == 0 && (year % 100 != 0 || year % 400 == 0)
  }

  function DaysInMonth(year: int, month: int): int
    requires 1 <= month <= 12
  {
    if month == 2 then (if IsLeapYear(year) then 29 else 28)
    else if month == 4 || month == 6 || month == 9 || month == 11 then 30
    else 31
  }

  /** The ranges `datetime.datetime` accepts (MINYEAR is 1, MAXYEAR is 9999, no leap seconds). */
  predicate ValidDateTime(dt: DateTime)
  {
    && 1 <= dt.year <= 9999
    && 1 <= dt.month <= 12
    && 1 <= dt.day <= DaysInMonth(dt.year, dt.month)
    && 0 <= dt.hour < 24
    && 0 <= dt.minute < 60
    && 0 <= dt.second < 60
  }

  /** The three ways the conversion raises `ValueError`. */
  datatype ParseError = DoesNotMatchFormat | UnconvertedDataRemains | ValueOutOfRange

  // ---------------------------------------------------------------------------
  // The compiled regular expression

  /** One character position of an alternative: a character range, or a letter matched ignoring case. */
  datatype Atom = Chars(lo: char, hi: char) | Letter(upper: char)

  function LowerCase(c: char): char
  {
    if 'A' <= c <= 'Z' then (c as int + 32) as char else c
  }

  predicate AtomMatches(a: Atom, ch: char)
  {
    match a
    case Chars(lo, hi) => lo <= ch <= hi
    case Letter(upper) => ch == upper || ch == LowerCase(upper)
  }

  /** Every directive's alternatives are fixed-length runs of atoms. */
  type Alternative = seq<Atom>
  type Group = seq<Alternative>

  /** Alternative `alt` matches the text of `s` starting at position `i`. */
  predicate MatchesAt(alt: Alternative, s: string, i: nat)
  {
    i + |alt| <= |s| && forall m :: 0 <= m < |alt| ==> AtomMatches(alt[m], s[i + m])
  }

  const Digit: Atom := Chars('0', '9')
  const YearGroup: Group := [[Digit, Digit, Digit, Digit]]
  const MonthGroup: Group := [[Chars('1', '1'), Chars('0', '2')], [Chars('0', '0'), Chars('1', '9')], [Chars('1', '9')]]
  const DayGroup: Group :=
    [[Chars('3', '3'), Chars('0', '1')], [Chars('1', '2'), Digit], [Chars('0', '0'), Chars('1', '9')],
     [Chars('1', '9')], [Chars(' ', ' '), Chars('1', '9')]]
  const SeparatorGroup: Group := [[Letter('T')]]
  const HourGroup: Group := [[Chars('2', '2'), Chars('0', '3')], [Chars('0', '1'), Digit], [Digit]]
  const MinuteGroup: Group := [[Chars('0', '5'), Digit], [Digit]]
  const SecondGroup: Group := [[Chars('6', '6'), Chars('0', '1')], [Chars('0', '5'), Digit], [Digit]]

  /** The regular expression `_strptime` builds for "%Y%m%dT%H%M%S". */
  const IsoPattern: seq<Group> :=
    [YearGroup, MonthGroup, DayGroup, SeparatorGroup, HourGroup, MinuteGroup, SecondGroup]

  /** The text each group captured, and where the match ended. */
  datatype Captures = Captures(groups: seq<string>, end: nat)

  /** The length of the longest alternative of group `g`. */
  function MaxWidth(g: Group): (w: nat)
    ensures forall k :: 0 <= k < |g| ==> |g[k]| <= w
  {
    if g == [] then 0
    else
      var w := MaxWidth(g[1..]);
      if |g[0]| > w then |g[0]| else w
  }

  function Concat(parts: seq<string>): string
  {
    if parts == [] then [] else parts[0] + Concat(parts[1..])
  }

  /**
   * `re.match` of the groups `p` against `s` from position `i`: the first
   * successful match in backtracking order.
   */
  function Match(p: seq<Group>, s: string, i: nat): (r: Option<Captures>)
    requires i <= |s|
    ensures r.Some? ==> |r.value.groups| == |p| && i <= r.value.end <= |s|
    decreases |p|, 0
  {
    if p == [] then Some(Captures([], i)) else FirstAlternative(p[0], p[1..], s, i)
  }

  /** Try the alternatives of one group in order, each followed by the rest of the pattern. */
  function FirstAlternative(alts: Group, rest: seq<Group>, s: string, i: nat): (r: Option<Captures>)
    requires i <= |s|
    ensures r.Some? ==> |r.value.groups| == |rest| + 1 && i <= r.value.end <= |s|
    decreases |rest|, |alts|
  {
    if alts == [] then None
    else
      var n := |alts[0]|;
      if MatchesAt(alts[0], s, i) && Match(rest, s, i + n).Some? then
        var c := Match(rest, s, i + n).value;
        Some(Captures([s[i..i + n]] + c.groups, c.end))
      else
        FirstAlternative(alts[1..], rest, s, i)
  }

  /**
   * What any match captures: consecutive pieces of `s`, each no longer than
   * the longest alternative of its group.
   */
  lemma {:induction false} MatchSound(p: seq<Group>, s: string, i: nat)
    requires i <= |s| && Match(p, s, i).Some?
    ensures Concat(Match(p, s, i).value.groups) == s[i..Match(p, s, i).value.end]
    ensures forall k :: 0 <= k < |p| ==> |Match(p, s, i).value.groups[k]| <= MaxWidth(p[k])
    decreases |p|, 0
  {
    if p != [] {
      FirstAlternativeSound(p[0], p[1..], s, i);
    }
  }

  lemma {:induction false} FirstAlternativeSound(alts: Group, rest: seq<Group>, s: string, i: nat)
    requires i <= |s| && FirstAlternative(alts, rest, s, i).Some?
    ensures Concat(FirstAlternative(alts, rest, s, i).value.groups) == s[i..FirstAlternative(alts, rest, s, i).value.end]
    ensures |FirstAlternative(alts, rest, s, i).value.groups[0]| <= MaxWidth(alts)
    ensures forall k :: 0 <= k < |rest| ==>
              |FirstAlternative(alts, rest, s, i).value.groups[k + 1]| <= MaxWidth(rest[k])
    decreases |rest|, |alts|
  {
    var n := |alts[0]|;
    if MatchesAt(alts[0], s, i) && Match(rest, s, i + n).Some? {
      var c := Match(rest, s, i + n).value;
      var piece := s[i..i + n];
      MatchSound(rest, s, i + n);
      var gs := [piece] + c.groups;
      assert gs[1..] == c.groups;
      assert piece + s[i + n..c.end] == s[i..c.end];
      assert FirstAlternative(alts, rest, s, i).value.groups == gs;
      forall k | 0 <= k < |rest| ensures |gs[k + 1]| <= MaxWidth(rest[k]) {
        assert gs[k + 1] == c.groups[k];
      }
    } else {
      FirstAlternativeSound(alts[1..], rest, s, i);
      assert MaxWidth(alts[1..]) <= MaxWidth(alts);
    }
  }

  /** Some alternative of group `g` accepts exactly the text `t`. */
  predicate CapturedBy(g: Group, t: string)
  {
    exists m :: 0 <= m < |g| && |g[m]| == |t| && MatchesAt(g[m], t, 0)
  }

  /** What any match captures for each group is text one of that group's alternatives accepts. */
  lemma {:induction false} MatchCaptures(p: seq<Group>, s: string, i: nat)
    requires i <= |s| && Match(p, s, i).Some?
    ensures forall k :: 0 <= k < |p| ==> CapturedBy(p[k], Match(p, s, i).value.groups[k])
    decreases |p|, 0
  {
    if p != [] {
      FirstAlternativeCaptures(p[0], p[1..], s, i);
      forall k | 0 < k < |p| ensures CapturedBy(p[k], Match(p, s, i).value.groups[k]) {
        assert p[k] == p[1..][k - 1];
      }
    }
  }

  lemma {:induction false} FirstAlternativeCaptures(alts: Group, rest: seq<Group>, s: string, i: nat)
    requires i <= |s| && FirstAlternative(alts, rest, s, i).Some?
    ensures CapturedBy(alts, FirstAlternative(alts, rest, s, i).value.groups[0])
    ensures forall k :: 0 <= k < |rest| ==>
              CapturedBy(rest[k], FirstAlternative(alts, rest, s, i).value.groups[k + 1])
    decreases |rest|, |alts|
  {
    var n := |alts[0]|;
    if MatchesAt(alts[0], s, i) && Match(rest, s, i + n).Some? {
      var c := Match(rest, s, i + n).value;
      var piece := s[i..i + n];
      MatchCaptures(rest, s, i + n);
      var gs := [piece] + c.groups;
      assert FirstAlternative(alts, rest, s, i).value.groups == gs;
      assert MatchesAt(alts[0], piece, 0) by {
        forall m | 0 <= m < n ensures AtomMatches(alts[0][m], piece[m]) {
          assert piece[m] == s[i + m];
        }
      }
      assert CapturedBy(alts, gs[0]) by {
        assert 0 < |alts| && |alts[0]| == |piece|;
      }
      forall k | 0 <= k < |rest| ensures CapturedBy(rest[k], gs[k + 1]) {
        assert gs[k + 1] == c.groups[k];
      }
    } else {
      FirstAlternativeCaptures(alts[1..], rest, s, i);
      var t := FirstAlternative(alts, rest, s, i).value.groups[0];
      var m :| 0 <= m < |alts[1..]| && |alts[1..][m]| == |t| && MatchesAt(alts[1..][m], t, 0);
      assert alts[1..][m] == alts[m + 1];
    }
  }

  // ---------------------------------------------------------------------------
  // Conversion of the captured fields

  predicate IsDigit(ch: char)
  {
    '0' <= ch <= '9'
  }

  function DigitChar(d: nat): (ch: char)
    requires d < 10
    ensures IsDigit(ch)
  {
    ('0' as int + d) as char
  }

  /** `int(t)` for a captured field: its decimal digits (a leading blank, possible for %d, is skipped). */
  function Value(t: string): (v: nat)
    ensures (forall k :: 0 <= k < |t| ==> IsDigit(t[k])) ==> v < Pow10(|t|)
  {
    if t == [] then 0
    else
      var last := t[|t| - 1];
      if IsDigit(last) then 10 * Value(t[..|t| - 1]) + (last as int - '0' as int)
      else Value(t[..|t| - 1])
  }

  /** `datetime(year, month, day, hour, minute, second)`: raises on any value out of range. */
  function MakeDateTime(year: int, month: int, day: int, hour: int, minute: int, second: int): (r: Result<DateTime, ParseError>)
    ensures r.Ok? <==> ValidDateTime(DateTime(year, month, day, hour, minute, second))
    ensures r.Ok? ==> r.value == DateTime(year, month, day, hour, minute, second)
  {
    var dt := DateTime(year, month, day, hour, minute, second);
    if ValidDateTime(dt) then Ok(dt) else Err(ValueOutOfRange)
  }

  /** `datetime.strptime(s, "%Y%m%dT%H%M%S")`; it never produces an invalid date-time. */
  function Parse(s: string): (r: Result<DateTime, ParseError>)
    ensures r.Ok? ==> ValidDateTime(r.value)
  {
    match Match(IsoPattern, s, 0)
    case None => Err(DoesNotMatchFormat)
    case Some(c) =>
      if c.end != |s| then Err(UnconvertedDataRemains)
      else
        var g := c.groups;
        MakeDateTime(Value(g[0]), Value(g[1]), Value(g[2]), Value(g[4]), Value(g[5]), Value(g[6]))
  }

  // ---------------------------------------------------------------------------
  // The canonical rendering YYYYMMDDTHHMMSS and the round trip through Parse

  function Pow10(n: nat): nat
  {
    if n == 0 then 1 else 10 * Pow10(n - 1)
  }

  /** `x` written with exactly `width` decimal digits, zero-padded on the left. */
  function Digits(x: nat, width: nat): (r: string)
    requires x < Pow10(width)
    ensures |r| == width
    ensures forall k :: 0 <= k < |r| ==> IsDigit(r[k])
    ensures Value(r) == x
  {
    if width == 0 then []
    else
      var r := Digits(x / 10, width - 1) + [DigitChar(x % 10)];
      assert r[..|r| - 1] == Digits(x / 10, width - 1);
      r
  }

  /** The text the pattern is meant for: 8 digits, `T`, 6 digits. */
  function Format(dt: DateTime): (s: string)
    requires ValidDateTime(dt)
    ensures |s| == 15
  {
    Digits(dt.year, 4) + Digits(dt.month, 2) + Digits(dt.day, 2) + "T"
      + Digits(dt.hour, 2) + Digits(dt.minute, 2) + Digits(dt.second, 2)
  }

  lemma {:induction false} TwoDigits(x: nat)
    requires x < 100
    ensures Digits(x, 2) == [DigitChar(x / 10), DigitChar(x % 10)]
  {
    assert Digits(x / 10, 1) == Digits(x / 10 / 10, 0) + [DigitChar(x / 10 % 10)];
  }

  /** Alternative `k` is the first alternative of `g` that matches at `i`. */
  predicate Forced(g: Group, s: string, i: nat, k: nat)
  {
    && k < |g|
    && MatchesAt(g[k], s, i)
    && forall j :: 0 <= j < k ==> !MatchesAt(g[j], s, i)
  }

  lemma {:induction false} FirstAlternativeForced(alts: Group, rest: seq<Group>, s: string, i: nat, k: nat, c: Captures)
    requires i <= |s| && Forced(alts, s, i, k)
    requires Match(rest, s, i + |alts[k]|) == Some(c)
    ensures FirstAlternative(alts, rest, s, i) == Some(Captures([s[i..i + |alts[k]|]] + c.groups, c.end))
  {
    if k > 0 {
      assert !MatchesAt(alts[0], s, i);
      assert Forced(alts[1..], s, i, k - 1) by {
        forall j | 0 <= j < k - 1 ensures !MatchesAt(alts[1..][j], s, i) {
          assert alts[1..][j] == alts[j + 1];
        }
      }
      FirstAlternativeForced(alts[1..], rest, s, i, k - 1, c);
    }
  }

  /** When the first matching alternative of group `g` leaves a matchable rest, the match takes it. */
  lemma {:induction false} MatchForced(g: Group, rest: seq<Group>, s: string, i: nat, k: nat, c: Captures)
    requires i <= |s| && Forced(g, s, i, k)
    requires Match(rest, s, i + |g[k]|) == Some(c)
    ensures Match([g] + rest, s, i) == Some(Captures([s[i..i + |g[k]|]] + c.groups, c.end))
  {
    assert ([g] + rest)[0] == g && ([g] + rest)[1..] == rest;
    FirstAlternativeForced(g, rest, s, i, k, c);
  }

  lemma {:induction false} YearForced(s: string, i: nat)
    requires i + 4 <= |s| && forall m :: i <= m < i + 4 ==> IsDigit(s[m])
    ensures Forced(YearGroup, s, i, 0) && |YearGroup[0]| == 4
  {
  }

  lemma {:induction false} MonthForced(s: string, i: nat, month: nat) returns (k: nat)
    requires 1 <= month <= 12 && i + 2 <= |s|
    requires s[i] == DigitChar(month / 10) && s[i + 1] == DigitChar(month % 10)
    ensures Forced(MonthGroup, s, i, k) && |MonthGroup[k]| == 2
  {
    if month >= 10 {
      k := 0;
    } else {
      assert !AtomMatches(MonthGroup[0][0], s[i]);
      k := 1;
    }
  }

  lemma {:induction false} DayForced(s: string, i: nat, day: nat) returns (k: nat)
    requires 1 <= day <= 31 && i + 2 <= |s|
    requires s[i] == DigitChar(day / 10) && s[i + 1] == DigitChar(day % 10)
    ensures Forced(DayGroup, s, i, k) && |DayGroup[k]| == 2
  {
    if day >= 30 {
      k := 0;
    } else if day >= 10 {
      assert !AtomMatches(DayGroup[0][0], s[i]);
      k := 1;
    } else {
      assert !AtomMatches(DayGroup[0][0], s[i]);
      assert !AtomMatches(DayGroup[1][0], s[i]);
      k := 2;
    }
  }

  lemma {:induction false} SeparatorForced(s: string, i: nat)
    requires i + 1 <= |s| && (s[i] == 'T' || s[i] == 't')
    ensures Forced(SeparatorGroup, s, i, 0) && |SeparatorGroup[0]| == 1
  {
  }

  lemma {:induction false} HourForced(s: string, i: nat, hour: nat) returns (k: nat)
    requires hour < 24 && i + 2 <= |s|
    requires s[i] == DigitChar(hour / 10) && s[i + 1] == DigitChar(hour % 10)
    ensures Forced(HourGroup, s, i, k) && |HourGroup[k]| == 2
  {
    if hour >= 20 {
      k := 0;
    } else {
      assert !AtomMatches(HourGroup[0][0], s[i]);
      k := 1;
    }
  }

  lemma {:induction false} MinuteForced(s: string, i: nat, minute: nat)
    requires minute < 60 && i + 2 <= |s|
    requires s[i] == DigitChar(minute / 10) && s[i + 1] == DigitChar(minute % 10)
    ensures Forced(MinuteGroup, s, i, 0) && |MinuteGroup[0]| == 2
  {
  }

  lemma {:induction false} SecondForced(s: string, i: nat, second: nat)
    requires second < 60 && i + 2 <= |s|
    requires s[i] == DigitChar(second / 10) && s[i + 1] == DigitChar(second % 10)
    ensures Forced(SecondGroup, s, i, 1) && |SecondGroup[1]| == 2
  {
    assert !AtomMatches(SecondGroup[0][0], s[i]);
  }

  /** The characters of `s` spell the fields of `dt` with two digits each after a 4-digit year. */
  predicate SpellsTwoDigitFields(s: string, dt: DateTime)
  {
    && |s| == 15
    && (forall m :: 0 <= m < 4 ==> IsDigit(s[m]))
    && 1 <= dt.month <= 12 && s[4] == DigitChar(dt.month / 10) && s[5] == DigitChar(dt.month % 10)
    && 1 <= dt.day <= 31 && s[6] == DigitChar(dt.day / 10) && s[7] == DigitChar(dt.day % 10)
    && (s[8] == 'T' || s[8] == 't')
    && 0 <= dt.hour < 24 && s[9] == DigitChar(dt.hour / 10) && s[10] == DigitChar(dt.hour % 10)
    && 0 <= dt.minute < 60 && s[11] == DigitChar(dt.minute / 10) && s[12] == DigitChar(dt.minute % 10)
    && 0 <= dt.second < 60 && s[13] == DigitChar(dt.second / 10) && s[14] == DigitChar(dt.second % 10)
  }

  /** The captures of a full-width match: the fixed slices 4, 2, 2, 1, 2, 2, 2. */
  function FixedSlices(s: string): seq<string>
    requires |s| == 15
  {
    [s[0..4], s[4..6], s[6..8], s[8..9], s[9..11], s[11..13], s[13..15]]
  }

  lemma {:induction false} MatchTimeOfDay(s: string, dt: DateTime)
    requires SpellsTwoDigitFields(s, dt)
    ensures Match([HourGroup, MinuteGroup, SecondGroup], s, 9) == Some(Captures(FixedSlices(s)[4..], 15))
  {
    var c7 := Captures([], 15);
    SecondForced(s, 13, dt.second);
    MatchForced(SecondGroup, [], s, 13, 1, c7);
    var c6 := Captures([s[13..15]], 15);
    assert Match([SecondGroup], s, 13) == Some(c6) by {
      assert [SecondGroup] + [] == [SecondGroup];
      assert [s[13..15]] + c7.groups == c6.groups;
    }
    MinuteForced(s, 11, dt.minute);
    MatchForced(MinuteGroup, [SecondGroup], s, 11, 0, c6);
    var c5 := Captures([s[11..13], s[13..15]], 15);
    assert Match([MinuteGroup, SecondGroup], s, 11) == Some(c5) by {
      assert [MinuteGroup] + [SecondGroup] == [MinuteGroup, SecondGroup];
      assert [s[11..13]] + c6.groups == c5.groups;
    }
    var kh := HourForced(s, 9, dt.hour);
    MatchForced(HourGroup, [MinuteGroup, SecondGroup], s, 9, kh, c5);
    assert [HourGroup] + [MinuteGroup, SecondGroup] == [HourGroup, MinuteGroup, SecondGroup];
    assert [s[9..11]] + c5.groups == FixedSlices(s)[4..];
  }

  lemma {:induction false} MatchFromSeparator(s: string, dt: DateTime)
    requires SpellsTwoDigitFields(s, dt)
    ensures Match([SeparatorGroup, HourGroup, MinuteGroup, SecondGroup], s, 8) == Some(Captures(FixedSlices(s)[3..], 15))
  {
    var p4 := [HourGroup, MinuteGroup, SecondGroup];
    var slices := FixedSlices(s);
    MatchTimeOfDay(s, dt);
    SeparatorForced(s, 8);
    MatchForced(SeparatorGroup, p4, s, 8, 0, Captures(slices[4..], 15));
    assert [slices[3]] + slices[4..] == slices[3..];
    assert [SeparatorGroup] + p4 == [SeparatorGroup, HourGroup, MinuteGroup, SecondGroup];
  }

  lemma {:induction false} MatchFromDay(s: string, dt: DateTime)
    requires SpellsTwoDigitFields(s, dt)
    ensures Match([DayGroup, SeparatorGroup, HourGroup, MinuteGroup, SecondGroup], s, 6)
      == Some(Captures(FixedSlices(s)[2..], 15))
  {
    var p3 := [SeparatorGroup, HourGroup, MinuteGroup, SecondGroup];
    var slices := FixedSlices(s);
    MatchFromSeparator(s, dt);
    var kd := DayForced(s, 6, dt.day);
    MatchForced(DayGroup, p3, s, 6, kd, Captures(slices[3..], 15));
    assert [slices[2]] + slices[3..] == slices[2..];
    assert [DayGroup] + p3 == [DayGroup, SeparatorGroup, HourGroup, MinuteGroup, SecondGroup];
  }

  lemma {:induction false} MatchFromMonth(s: string, dt: DateTime)
    requires SpellsTwoDigitFields(s, dt)
    ensures Match([MonthGroup, DayGroup, SeparatorGroup, HourGroup, MinuteGroup, SecondGroup], s, 4)
      == Some(Captures(FixedSlices(s)[1..], 15))
  {
    var p2 := [DayGroup, SeparatorGroup, HourGroup, MinuteGroup, SecondGroup];
    var slices := FixedSlices(s);
    MatchFromDay(s, dt);
    var km := MonthForced(s, 4, dt.month);
    MatchForced(MonthGroup, p2, s, 4, km, Captures(slices[2..], 15));
    assert [slices[1]] + slices[2..] == slices[1..];
    assert [MonthGroup] + p2 == [MonthGroup, DayGroup, SeparatorGroup, HourGroup, MinuteGroup, SecondGroup];
  }

  lemma {:induction false} MatchTwoDigitFields(s: string, dt: DateTime)
    requires SpellsTwoDigitFields(s, dt)
    ensures Match(IsoPattern, s, 0) == Some(Captures(FixedSlices(s), 15))
  {
    var p1 := [MonthGroup, DayGroup, SeparatorGroup, HourGroup, MinuteGroup, SecondGroup];
    var slices := FixedSlices(s);
    MatchFromMonth(s, dt);
    YearForced(s, 0);
    MatchForced(YearGroup, p1, s, 0, 0, Captures(slices[1..], 15));
    assert [slices[0]] + slices[1..] == slices;
    assert IsoPattern == [YearGroup] + p1;
  }

  /** Seven pieces of widths 4, 2, 2, 1, 2, 2, 2 side by side are the fixed slices of their concatenation. */
  lemma {:induction false} SevenSlices(y: string, mo: string, d: string, t: string, h: string, mi: string, se: string)
    requires |y| == 4 && |mo| == 2 && |d| == 2 && |t| == 1 && |h| == 2 && |mi| == 2 && |se| == 2
    ensures |y + mo + d + t + h + mi + se| == 15
    ensures FixedSlices(y + mo + d + t + h + mi + se) == [y, mo, d, t, h, mi, se]
  {
    var s := y + mo + d + t + h + mi + se;
    var date := y + mo + d;
    var time := h + mi + se;
    assert s == date + t + time;
    assert s[0..8] == date && s[8..9] == t && s[9..15] == time;
    assert s[0..4] == date[0..4] == y && s[4..6] == date[4..6] == mo && s[6..8] == date[6..8] == d;
    assert s[9..11] == time[0..2] == h && s[11..13] == time[2..4] == mi && s[13..15] == time[4..6] == se;
  }

  /** The rendering is the seven fields side by side. */
  lemma {:induction false} FormatSlices(dt: DateTime)
    requires ValidDateTime(dt)
    ensures FixedSlices(Format(dt)) == [Digits(dt.year, 4), Digits(dt.month, 2), Digits(dt.day, 2), "T",
                                        Digits(dt.hour, 2), Digits(dt.minute, 2), Digits(dt.second, 2)]
  {
    SevenSlices(Digits(dt.year, 4), Digits(dt.month, 2), Digits(dt.day, 2), "T",
                Digits(dt.hour, 2), Digits(dt.minute, 2), Digits(dt.second, 2));
  }

  lemma {:induction false} FormatSpellsFields(dt: DateTime)
    requires ValidDateTime(dt)
    ensures SpellsTwoDigitFields(Format(dt), dt)
    ensures FixedSlices(Format(dt)) == [Digits(dt.year, 4), Digits(dt.month, 2), Digits(dt.day, 2), "T",
                                        Digits(dt.hour, 2), Digits(dt.minute, 2), Digits(dt.second, 2)]
  {
    var s := Format(dt);
    FormatSlices(dt);
    TwoDigits(dt.month);
    TwoDigits(dt.day);
    TwoDigits(dt.hour);
    TwoDigits(dt.minute);
    TwoDigits(dt.second);
    assert s[4] == s[4..6][0] && s[5] == s[4..6][1] && s[6] == s[6..8][0] && s[7] == s[6..8][1];
    assert s[8] == s[8..9][0];
    assert s[9] == s[9..11][0] && s[10] == s[9..11][1] && s[11] == s[11..13][0] && s[12] == s[11..13][1];
    assert s[13] == s[13..15][0] && s[14] == s[13..15][1];
    assert forall m :: 0 <= m < 4 ==> s[m] == s[0..4][m];
  }

  /** Round trip: every valid date-time, written as YYYYMMDDTHHMMSS, parses back to itself. */
  lemma {:induction false} ParseFormat(dt: DateTime)
    requires ValidDateTime(dt)
    ensures Parse(Format(dt)) == Ok(dt)
  {
    FormatSpellsFields(dt);
    MatchTwoDigitFields(Format(dt), dt);
  }

  // ---------------------------------------------------------------------------
  // Strings of the canonical shape: 8 digits, `T`, 6 digits

  predicate CanonicalShape(s: string)
  {
    |s| == 15 && (s[8] == 'T' || s[8] == 't') && forall m :: 0 <= m < 15 && m != 8 ==> IsDigit(s[m])
  }

  /** The date-time a canonical string spells, read field by field at fixed positions. */
  function FieldsOf(s: string): DateTime
    requires |s| == 15
  {
    DateTime(Value(s[0..4]), Value(s[4..6]), Value(s[6..8]), Value(s[9..11]), Value(s[11..13]), Value(s[13..15]))
  }

  lemma {:induction false} TwoDigitValue(t: string)
    requires |t| == 2 && IsDigit(t[0]) && IsDigit(t[1])
    ensures Value(t) < 100 && t[0] == DigitChar(Value(t) / 10) && t[1] == DigitChar(Value(t) % 10)
  {
    assert t[..1][..0] == [];
    assert Value(t[..1]) == t[0] as int - '0' as int;
  }

  lemma {:induction false} MaxWidthAtMost(g: Group, n: nat)
    requires forall alt :: alt in g ==> |alt| <= n
    ensures MaxWidth(g) <= n
  {
    if g != [] {
      assert g[0] in g;
      MaxWidthAtMost(g[1..], n);
    }
  }

  lemma {:induction false} ConcatSeven(gs: seq<string>)
    requires |gs| == 7
    ensures Concat(gs) == gs[0] + (gs[1] + (gs[2] + (gs[3] + (gs[4] + (gs[5] + gs[6])))))
  {
    assert Concat(gs[6..]) == gs[6] by {
      assert gs[6..][0] == gs[6] && gs[6..][1..] == [];
    }
    assert Concat(gs[5..]) == gs[5] + Concat(gs[6..]) by { assert gs[5..][0] == gs[5] && gs[5..][1..] == gs[6..]; }
    assert Concat(gs[4..]) == gs[4] + Concat(gs[5..]) by { assert gs[4..][0] == gs[4] && gs[4..][1..] == gs[5..]; }
    assert Concat(gs[3..]) == gs[3] + Concat(gs[4..]) by { assert gs[3..][0] == gs[3] && gs[3..][1..] == gs[4..]; }
    assert Concat(gs[2..]) == gs[2] + Concat(gs[3..]) by { assert gs[2..][0] == gs[2] && gs[2..][1..] == gs[3..]; }
    assert Concat(gs[1..]) == gs[1] + Concat(gs[2..]) by { assert gs[1..][0] == gs[1] && gs[1..][1..] == gs[2..]; }
  }

  /** Seven pieces no longer than 4, 2, 2, 1, 2, 2, 2 that make up 15 characters are the fixed slices. */
  lemma {:induction false} FixedWidthPieces(s: string, gs: seq<string>)
    requires |s| == 15 && |gs| == 7 && Concat(gs) == s
    requires |gs[0]| <= 4 && |gs[1]| <= 2 && |gs[2]| <= 2 && |gs[3]| <= 1
    requires |gs[4]| <= 2 && |gs[5]| <= 2 && |gs[6]| <= 2
    ensures gs == FixedSlices(s)
  {
    ConcatSeven(gs);
    var t := gs[0] + (gs[1] + (gs[2] + (gs[3] + (gs[4] + (gs[5] + gs[6])))));
    assert |t| == |gs[0]| + |gs[1]| + |gs[2]| + |gs[3]| + |gs[4]| + |gs[5]| + |gs[6]|;
    assert t[0..4] == gs[0] && t[4..6] == gs[1] && t[6..8] == gs[2] && t[8..9] == gs[3];
    assert t[9..11] == gs[4] && t[11..13] == gs[5] && t[13..15] == gs[6];
  }

  /** The widest alternative of each group of the pattern: 4, 2, 2, 1, 2, 2, 2 characters. */
  lemma {:induction false} IsoPatternWidths()
    ensures MaxWidth(YearGroup) <= 4 && MaxWidth(MonthGroup) <= 2 && MaxWidth(DayGroup) <= 2
    ensures MaxWidth(SeparatorGroup) <= 1 && MaxWidth(HourGroup) <= 2
    ensures MaxWidth(MinuteGroup) <= 2 && MaxWidth(SecondGroup) <= 2
  {
    YearWidth();
    MonthWidth();
    DayWidth();
    SeparatorWidth();
    HourWidth();
    MinuteWidth();
    SecondWidth();
  }

  lemma {:induction false} YearWidth() ensures MaxWidth(YearGroup) <= 4 { MaxWidthAtMost(YearGroup, 4); }
  lemma {:induction false} MonthWidth() ensures MaxWidth(MonthGroup) <= 2 { MaxWidthAtMost(MonthGroup, 2); }
  lemma {:induction false} DayWidth() ensures MaxWidth(DayGroup) <= 2 { MaxWidthAtMost(DayGroup, 2); }
  lemma {:induction false} SeparatorWidth() ensures MaxWidth(SeparatorGroup) <= 1 { MaxWidthAtMost(SeparatorGroup, 1); }
  lemma {:induction false} HourWidth() ensures MaxWidth(HourGroup) <= 2 { MaxWidthAtMost(HourGroup, 2); }
  lemma {:induction false} MinuteWidth() ensures MaxWidth(MinuteGroup) <= 2 { MaxWidthAtMost(MinuteGroup, 2); }
  lemma {:induction false} SecondWidth() ensures MaxWidth(SecondGroup) <= 2 { MaxWidthAtMost(SecondGroup, 2); }

  /**
   * A match of the whole pattern that consumes 15 characters must have taken
   * the widest alternative of every group, so it captured the fixed slices.
   */
  lemma {:induction false} FullWidthMatch(s: string)
    requires |s| == 15 && Match(IsoPattern, s, 0).Some? && Match(IsoPattern, s, 0).value.end == 15
    ensures Match(IsoPattern, s, 0).value.groups == FixedSlices(s)
  {
    var gs := Match(IsoPattern, s, 0).value.groups;
    MatchSound(IsoPattern, s, 0);
    assert s[0..15] == s;
    IsoPatternWidths();
    FixedWidthPieces(s, gs);
  }

  /** The conversion accepts no text longer than YYYYMMDDTHHMMSS. */
  lemma {:induction false} ParseLength(s: string)
    ensures Parse(s).Ok? ==> |s| <= 15
  {
    if Parse(s).Ok? {
      var gs := Match(IsoPattern, s, 0).value.groups;
      MatchSound(IsoPattern, s, 0);
      IsoPatternWidths();
      ConcatSeven(gs);
      assert s[0..|s|] == s;
    }
  }

  /**
   * On strings of the canonical shape, the conversion succeeds exactly when the
   * fields read at their fixed positions form a valid date-time, and then
   * returns that date-time.
   */
  lemma {:induction false} ParseCanonical(s: string)
    requires CanonicalShape(s)
    ensures Parse(s).Ok? <==> ValidDateTime(FieldsOf(s))
    ensures Parse(s).Ok? ==> Parse(s).value == FieldsOf(s)
  {
    var dt := FieldsOf(s);
    if ValidDateTime(dt) {
      TwoDigitValue(s[4..6]);
      TwoDigitValue(s[6..8]);
      TwoDigitValue(s[9..11]);
      TwoDigitValue(s[11..13]);
      TwoDigitValue(s[13..15]);
      assert SpellsTwoDigitFields(s, dt);
      MatchTwoDigitFields(s, dt);
    } else if Match(IsoPattern, s, 0).Some? && Match(IsoPattern, s, 0).value.end == 15 {
      FullWidthMatch(s);
    }
  }

  // ---------------------------------------------------------------------------
  // Text the conversion accepts although it is not YYYYMMDDTHHMMSS

  /** Thirteen characters the conversion accepts: single-digit month and day. */
  const CompactText: string := "202431T000000"

  lemma {:induction false} CompactSeconds()
    ensures Match([SecondGroup], CompactText, 11) == Some(Captures(["00"], 13))
  {
    var s := CompactText;
    assert Forced(SecondGroup, s, 11, 1) by { assert !AtomMatches(SecondGroup[0][0], s[11]); }
    MatchForced(SecondGroup, [], s, 11, 1, Captures([], 13));
    assert [SecondGroup] + [] == [SecondGroup] && |SecondGroup[1]| == 2 && s[11..13] == "00";
    assert [s[11..13]] + [] == ["00"];
  }

  lemma {:induction false} CompactMinutes()
    ensures Match([MinuteGroup, SecondGroup], CompactText, 9) == Some(Captures(["00", "00"], 13))
  {
    var s := CompactText;
    CompactSeconds();
    assert Forced(MinuteGroup, s, 9, 0);
    MatchForced(MinuteGroup, [SecondGroup], s, 9, 0, Captures(["00"], 13));
    assert s[9..11] == "00" && [MinuteGroup] + [SecondGroup] == [MinuteGroup, SecondGroup];
    assert [s[9..11]] + ["00"] == ["00", "00"];
  }

  lemma {:induction false} CompactHours()
    ensures Match([HourGroup, MinuteGroup, SecondGroup], CompactText, 7) == Some(Captures(["00", "00", "00"], 13))
  {
    var s := CompactText;
    CompactMinutes();
    assert Forced(HourGroup, s, 7, 1) by { assert !AtomMatches(HourGroup[0][0], s[7]); }
    MatchForced(HourGroup, [MinuteGroup, SecondGroup], s, 7, 1, Captures(["00", "00"], 13));
    assert s[7..9] == "00" && [HourGroup] + [MinuteGroup, SecondGroup] == [HourGroup, MinuteGroup, SecondGroup];
    assert [s[7..9]] + ["00", "00"] == ["00", "00", "00"];
  }

  lemma {:induction false} CompactTimeOfDay()
    ensures Match([SeparatorGroup, HourGroup, MinuteGroup, SecondGroup], CompactText, 6)
            == Some(Captures(["T", "00", "00", "00"], 13))
  {
    var s := CompactText;
    var p4 := [HourGroup, MinuteGroup, SecondGroup];
    CompactHours();
    assert Forced(SeparatorGroup, s, 6, 0);
    MatchForced(SeparatorGroup, p4, s, 6, 0, Captures(["00", "00", "00"], 13));
    assert s[6..7] == "T" && [SeparatorGroup] + p4 == [SeparatorGroup, HourGroup, MinuteGroup, SecondGroup];
    assert [s[6..7]] + ["00", "00", "00"] == ["T", "00", "00", "00"];
  }

  lemma {:induction false} CompactDay()
    ensures Match([DayGroup, SeparatorGroup, HourGroup, MinuteGroup, SecondGroup], CompactText, 5)
            == Some(Captures(["1", "T", "00", "00", "00"], 13))
  {
    var s := CompactText;
    var p3 := [SeparatorGroup, HourGroup, MinuteGroup, SecondGroup];
    CompactTimeOfDay();
    assert Forced(DayGroup, s, 5, 3) by {
      assert !AtomMatches(DayGroup[0][0], s[5]);
      assert !AtomMatches(DayGroup[1][1], s[6]);
      assert !AtomMatches(DayGroup[2][0], s[5]);
    }
    MatchForced(DayGroup, p3, s, 5, 3, Captures(["T", "00", "00", "00"], 13));
    assert s[5..6] == "1" && [DayGroup] + p3 == [DayGroup, SeparatorGroup, HourGroup, MinuteGroup, SecondGroup];
    assert [s[5..6]] + ["T", "00", "00", "00"] == ["1", "T", "00", "00", "00"];
  }

  lemma {:induction false} CompactMonth()
    ensures Match([MonthGroup, DayGroup, SeparatorGroup, HourGroup, MinuteGroup, SecondGroup], CompactText, 4)
            == Some(Captures(["3", "1", "T", "00", "00", "00"], 13))
  {
    var s := CompactText;
    var p2 := [DayGroup, SeparatorGroup, HourGroup, MinuteGroup, SecondGroup];
    CompactDay();
    assert Forced(MonthGroup, s, 4, 2) by {
      assert !AtomMatches(MonthGroup[0][0], s[4]);
      assert !AtomMatches(MonthGroup[1][0], s[4]);
    }
    MatchForced(MonthGroup, p2, s, 4, 2, Captures(["1", "T", "00", "00", "00"], 13));
    assert s[4..5] == "3" && [MonthGroup] + p2 == [MonthGroup, DayGroup, SeparatorGroup, HourGroup, MinuteGroup, SecondGroup];
    assert [s[4..5]] + ["1", "T", "00", "00", "00"] == ["3", "1", "T", "00", "00", "00"];
  }

  lemma {:induction false} CompactMatch()
    ensures Match(IsoPattern, CompactText, 0) == Some(Captures(["2024", "3", "1", "T", "00", "00", "00"], 13))
  {
    var s := CompactText;
    var p1 := [MonthGroup, DayGroup, SeparatorGroup, HourGroup, MinuteGroup, SecondGroup];
    CompactMonth();
    assert Forced(YearGroup, s, 0, 0);
    MatchForced(YearGroup, p1, s, 0, 0, Captures(["3", "1", "T", "00", "00", "00"], 13));
    assert s[0..4] == "2024" && IsoPattern == [YearGroup] + p1;
    assert [s[0..4]] + ["3", "1", "T", "00", "00", "00"] == ["2024", "3", "1", "T", "00", "00", "00"];
  }

  /** Month and day may have a single digit: these 13 characters read as 2024-03-01 00:00:00. */
  lemma {:induction false} SingleDigitFieldsAccepted()
    ensures Parse(CompactText) == Ok(DateTime(2024, 3, 1, 0, 0, 0))
  {
    CompactMatch();
    assert "2024"[..3] == "202" && "202"[..2] == "20" && "20"[..1] == "2" && "2"[..0] == [];
    assert Value("2024") == 2024;
    assert "3"[..0] == [] && "1"[..0] == [] && "00"[..1] == "0" && "0"[..0] == [];
    assert Value("3") == 3 && Value("1") == 1 && Value("00") == 0;
  }
}
