/** `AddBlockDialog`: the form that adds an entry. The start time is typed as text
    ("0930", "9:30", "198", full-width digits allowed) and parsed by `parse_time`; `accept`
    checks the fields in a fixed order and keeps the parsed time only when all pass. */
module AddBlockDialog {
  import opened Wrappers
  import opened Text
  import opened QtTime

  // ------------------------------------------------------------ half-width folding

  /** The Halfwidth and Fullwidth Forms block of Unicode places the full-width forms of
      U+0021..U+007E at U+FF01..U+FF5E, 0xFEE0 above them. */
  predicate IsFullWidth(c: char) {
    '\U{FF01}' <= c <= '\U{FF5E}'
  }

  function HalfWidthChar(c: char): (r: char)
    ensures IsFullWidth(c) ==> r as int == c as int - 0xFEE0
    ensures !IsFullWidth(c) ==> r == c
    ensures !IsFullWidth(r)
  {
    if IsFullWidth(c) then (c as int - 0xFEE0) as char else c
  }

  /** The character-by-character folding of `to_half_width`. */
  function FoldChars(s: string): (r: string)
    ensures |r| == |s|
    ensures forall i :: 0 <= i < |s| ==> r[i] == HalfWidthChar(s[i])
  {
    if s == [] then [] else FoldChars(s[..|s| - 1]) + [HalfWidthChar(s[|s| - 1])]
  }

  /** `to_half_width`: the folding, then every full-width colon replaced by ':'. */
  function ToHalfWidth(s: string): string {
    ReplaceChar(FoldChars(s), '\U{FF1A}', ':')
  }

  /** The length is kept, every character of the block is moved down by 0xFEE0, every other
      character is kept, and no character of the block is left; in particular the final
      colon replacement finds nothing to replace. */
  lemma ToHalfWidthSpec(s: string)
    ensures ToHalfWidth(s) == FoldChars(s)
    ensures |ToHalfWidth(s)| == |s|
    ensures forall i :: 0 <= i < |s| ==>
              (IsFullWidth(s[i]) ==> ToHalfWidth(s)[i] as int == s[i] as int - 0xFEE0)
              && (!IsFullWidth(s[i]) ==> ToHalfWidth(s)[i] == s[i])
              && !IsFullWidth(ToHalfWidth(s)[i])
  {
    var f := FoldChars(s);
    assert forall i :: 0 <= i < |f| ==> f[i] != '\U{FF1A}' by {
      forall i | 0 <= i < |f| ensures f[i] != '\U{FF1A}' {
        assert !IsFullWidth(HalfWidthChar(s[i]));
      }
    }
    ReplaceAbsent(f, '\U{FF1A}', ':');
  }

  lemma {:induction false} ReplaceAbsent(s: string, a: char, b: char)
    requires forall i :: 0 <= i < |s| ==> s[i] != a
    ensures ReplaceChar(s, a, b) == s
  {
    if s != [] {
      ReplaceAbsent(s[1..], a, b);
      ReplaceCharCons(s, a, b);
    }
  }

  lemma ReplaceCharCons(s: string, a: char, b: char)
    requires s != []
    ensures ReplaceChar(s, a, b) == [if s[0] == a then b else s[0]] + ReplaceChar(s[1..], a, b)
  {
    assert s == [s[0]] + s[1..];
  }

  // ------------------------------------------------------------------- parse_time

  /** The groups of `^(\d{1,2}):?(\d{1,2})$` when the hour group takes `g1` digits: the
      optional colon is taken when present and the minute group is all the rest. */
  function GroupsAt(s: string, g1: nat): Option<(string, string)> {
    if |s| < g1 || !AllDigits(s[..g1]) then None
    else
      var rest := s[g1..];
      var tail := if |rest| > 0 && rest[0] == ':' then rest[1..] else rest;
      if 1 <= |tail| <= 2 && AllDigits(tail) then Some((s[..g1], tail)) else None
  }

  /** `re.match` with that pattern: the engine tries the longer hour group first and backs
      off to one digit only when two do not lead to a match. Digits are ASCII. */
  function ClockGroups(s: string): Option<(string, string)> {
    var two := GroupsAt(s, 2);
    if two.Some? then two else GroupsAt(s, 1)
  }

  /** The time the groups stand for, when hour 0..23 and minute 0..59. */
  function TimeOfGroups(g: Option<(string, string)>): (r: Option<(int, int)>)
    requires g.Some? ==> AllDigits(g.value.0) && AllDigits(g.value.1)
    ensures r.Some? <==> g.Some? && DigitsValue(g.value.0) <= 23 && DigitsValue(g.value.1) <= 59
    ensures r.Some? ==> r.value == (DigitsValue(g.value.0), DigitsValue(g.value.1)) && ValidTime(r.value.0, r.value.1)
  {
    if g.None? then None
    else
      var hour, minute := DigitsValue(g.value.0), DigitsValue(g.value.1);
      if !(0 <= hour <= 23) then None
      else if !(0 <= minute <= 59) then None
      else Some((hour, minute))
  }

  /** The text the regex is matched against: stripped, then folded to half width. */
  function Cleaned(raw: string): string {
    ToHalfWidth(Strip(raw))
  }

  /** What the regex and the range checks of `parse_time` make of the cleaned text `w`. */
  function MatchWritten(w: string): (r: Option<(int, int)>)
    ensures r.Some? ==> ValidTime(r.value.0, r.value.1)
  {
    TimeOfGroups(ClockGroups(w))
  }

  /** The same, as the comment of `parse_time` describes it: when the greedy split gives an
      hour or minute out of range, the one-digit hour split is tried as well. */
  function MatchIntended(w: string): (r: Option<(int, int)>)
    ensures r.Some? ==> ValidTime(r.value.0, r.value.1)
  {
    var greedy := TimeOfGroups(GroupsAt(w, 2));
    if greedy.Some? then greedy else TimeOfGroups(GroupsAt(w, 1))
  }

  /** `parse_time(raw)` as written: strip, fold to half width, match, and accept hour 0..23
      and minute 0..59; `None` otherwise. */
  function ParseTimeAsWritten(raw: string): (r: Option<(int, int)>)
    ensures r.Some? ==> ValidTime(r.value.0, r.value.1)
  {
    MatchWritten(Cleaned(raw))
  }

  /** `parse_time` as its comment describes it, so that "930" reads as 09:30. */
  function ParseTime(raw: string): (r: Option<(int, int)>)
    ensures r.Some? ==> ValidTime(r.value.0, r.value.1)
  {
    MatchIntended(Cleaned(raw))
  }

  /** The corrected parser differs from the code only where the code's greedy match
      succeeded and then failed its range check; there it takes the one-digit hour split. */
  lemma ParseTimeExtends(raw: string)
    ensures ParseTimeAsWritten(raw).Some? ==> ParseTime(raw) == ParseTimeAsWritten(raw)
    ensures ParseTime(raw) != ParseTimeAsWritten(raw) ==>
              ParseTimeAsWritten(raw).None? && GroupsAt(Cleaned(raw), 2).Some?
              && ParseTime(raw) == TimeOfGroups(GroupsAt(Cleaned(raw), 1))
  {
  }

  lemma HalfWidthIdentity(t: string)
    requires forall i :: 0 <= i < |t| ==> !IsFullWidth(t[i])
    ensures ToHalfWidth(t) == t
  {
    ToHalfWidthSpec(t);
  }

  /** A text without whitespace at its ends and without full-width characters goes to the
      regex unchanged. */
  lemma CleanParse(s: string)
    requires s == [] || (!IsSpace(s[0]) && !IsSpace(s[|s| - 1]))
    requires forall i :: 0 <= i < |s| ==> !IsFullWidth(s[i])
    ensures Cleaned(s) == s
  {
    CleanEnds(s);
    HalfWidthIdentity(s);
  }

  lemma CleanEnds(s: string)
    requires s == [] || (!IsSpace(s[0]) && !IsSpace(s[|s| - 1]))
    ensures Cleaned(s) == ToHalfWidth(s)
  {
    StripUnchanged(s);
  }

  /** On a string of ASCII digits without a colon the hour group is greedy: two digits read
      h then m, three read hh then m, four read hh then mm, and other lengths never match. */
  lemma ColonFreeDigits(s: string)
    requires AllDigits(s) && |s| > 0
    ensures var hd := if |s| == 2 then 1 else 2;
            ClockGroups(s) == (if 2 <= |s| <= 4 then Some((s[..hd], s[hd..])) else None)
  {
    if |s| >= 2 {
      assert AllDigits(s[..2]) && AllDigits(s[..1]) && AllDigits(s[2..]);
    }
    if |s| == 2 {
      assert AllDigits(s[1..]);
      assert s[2..] == [];
    }
  }

  lemma DigitsValue1(s: string)
    requires |s| == 1 && IsDigit(s[0])
    ensures AllDigits(s) && DigitsValue(s) == DigitValue(s[0])
  {
    assert s[..0] == [];
  }

  lemma DigitsValue2(s: string)
    requires |s| == 2 && IsDigit(s[0]) && IsDigit(s[1])
    ensures AllDigits(s) && DigitsValue(s) == 10 * DigitValue(s[0]) + DigitValue(s[1])
  {
    DigitsValue1(s[..1]);
  }

  /** On a clean text both parsers reduce to the regex splits. */
  lemma ParseOfClean(s: string)
    requires s == [] || (!IsSpace(s[0]) && !IsSpace(s[|s| - 1]))
    requires forall i :: 0 <= i < |s| ==> !IsFullWidth(s[i])
    ensures ParseTimeAsWritten(s) == MatchWritten(s) && ParseTime(s) == MatchIntended(s)
  {
    CleanParse(s);
    ParseOfCleaned(s, s);
  }

  /** Both parsers match whatever the cleaning leaves. */
  lemma ParseOfCleaned(raw: string, s: string)
    requires Cleaned(raw) == s
    ensures ParseTimeAsWritten(raw) == MatchWritten(s) && ParseTime(raw) == MatchIntended(s)
  {
  }

  /** A digit string parses by its splits. */
  lemma ParseOfDigits(s: string)
    requires AllDigits(s)
    ensures ParseTimeAsWritten(s) == MatchWritten(s) && ParseTime(s) == MatchIntended(s)
  {
    ParseOfClean(s);
  }

  /** Two digits "hm" read as h:0m, both as written and corrected. */
  lemma TwoDigits(s: string)
    requires |s| == 2 && AllDigits(s)
    ensures var t := Some((DigitValue(s[0]), DigitValue(s[1])));
            ParseTimeAsWritten(s) == t && ParseTime(s) == t
  {
    TwoDigitGroups(s);
    ParseOfDigits(s);
  }

  lemma TwoDigitGroups(s: string)
    requires |s| == 2 && AllDigits(s)
    ensures GroupsAt(s, 2).None?
    ensures GroupsAt(s, 1) == Some((s[..1], s[1..]))
    ensures TimeOfGroups(GroupsAt(s, 1)) == Some((DigitValue(s[0]), DigitValue(s[1])))
  {
    ColonFreeDigits(s);
    DigitsValue1(s[..1]);
    DigitsValue1(s[1..]);
  }

  /** Three digits "abc": the code reads ab:0c and nothing else; the corrected parser falls
      back to a:bc when ab is not an hour. */
  lemma ThreeDigits(s: string)
    requires |s| == 3 && AllDigits(s)
    ensures var a, b, c := DigitValue(s[0]), DigitValue(s[1]), DigitValue(s[2]);
            ParseTimeAsWritten(s) == (if 10 * a + b <= 23 then Some((10 * a + b, c)) else None)
            && ParseTime(s) == (if 10 * a + b <= 23 then Some((10 * a + b, c))
                                else if 10 * b + c <= 59 then Some((a, 10 * b + c)) else None)
  {
    ThreeDigitGroups(s);
    ParseOfDigits(s);
  }

  lemma ThreeDigitGroups(s: string)
    requires |s| == 3 && AllDigits(s)
    ensures var a, b, c := DigitValue(s[0]), DigitValue(s[1]), DigitValue(s[2]);
            ClockGroups(s) == GroupsAt(s, 2)
            && TimeOfGroups(GroupsAt(s, 2)) == (if 10 * a + b <= 23 then Some((10 * a + b, c)) else None)
            && TimeOfGroups(GroupsAt(s, 1)) == (if 10 * b + c <= 59 then Some((a, 10 * b + c)) else None)
  {
    assert AllDigits(s[..2]) && AllDigits(s[2..]) && AllDigits(s[..1]) && AllDigits(s[1..]);
    DigitsValue2(s[..2]);
    DigitsValue1(s[2..]);
    DigitsValue1(s[..1]);
    DigitsValue2(s[1..]);
  }

  /** Four digits "hhmm" read as hh:mm, both as written and corrected. */
  lemma FourDigits(s: string)
    requires |s| == 4 && AllDigits(s)
    ensures var hh, mm := 10 * DigitValue(s[0]) + DigitValue(s[1]), 10 * DigitValue(s[2]) + DigitValue(s[3]);
            var t := if hh <= 23 && mm <= 59 then Some((hh, mm)) else None;
            ParseTimeAsWritten(s) == t && ParseTime(s) == t
  {
    FourDigitGroups(s);
    ParseOfDigits(s);
  }

  lemma FourDigitGroups(s: string)
    requires |s| == 4 && AllDigits(s)
    ensures var hh, mm := 10 * DigitValue(s[0]) + DigitValue(s[1]), 10 * DigitValue(s[2]) + DigitValue(s[3]);
            var t := if hh <= 23 && mm <= 59 then Some((hh, mm)) else None;
            MatchWritten(s) == t && MatchIntended(s) == t
  {
    assert AllDigits(s[..2]) && AllDigits(s[2..]);
    assert |s[1..]| == 3 && s[1..][0] != ':';
    assert GroupsAt(s, 2) == Some((s[..2], s[2..])) && GroupsAt(s, 1).None?;
    DigitsValue2(s[..2]);
    DigitsValue2(s[2..]);
  }

  /** "h:mm" with a one-digit hour: the two-digit hour group fails on the colon and the
      one-digit hour group matches. */
  lemma ShortColon(s: string)
    requires |s| == 4 && IsDigit(s[0]) && s[1] == ':' && IsDigit(s[2]) && IsDigit(s[3])
    ensures var h, m := DigitValue(s[0]), 10 * DigitValue(s[2]) + DigitValue(s[3]);
            var t := if m <= 59 then Some((h, m)) else None;
            ParseTimeAsWritten(s) == t && ParseTime(s) == t
  {
    ShortColonGroups(s);
    ParseOfClean(s);
  }

  lemma ShortColonGroups(s: string)
    requires |s| == 4 && IsDigit(s[0]) && s[1] == ':' && IsDigit(s[2]) && IsDigit(s[3])
    ensures GroupsAt(s, 2).None?
    ensures var h, m := DigitValue(s[0]), 10 * DigitValue(s[2]) + DigitValue(s[3]);
            TimeOfGroups(GroupsAt(s, 1)) == if m <= 59 then Some((h, m)) else None
  {
    assert !IsDigit(s[..2][1]);
    assert s[..1] == [s[0]] && s[1..][1..] == s[2..];
    DigitsValue1(s[..1]);
    DigitsValue2(s[2..]);
  }

  /** "hh:mm": the two-digit hour group matches. */
  lemma LongColon(s: string)
    requires |s| == 5 && IsDigit(s[0]) && IsDigit(s[1]) && s[2] == ':' && IsDigit(s[3]) && IsDigit(s[4])
    ensures var h, m := 10 * DigitValue(s[0]) + DigitValue(s[1]), 10 * DigitValue(s[3]) + DigitValue(s[4]);
            var t := if h <= 23 && m <= 59 then Some((h, m)) else None;
            ParseTimeAsWritten(s) == t && ParseTime(s) == t
  {
    LongColonGroups(s);
    ParseOfClean(s);
  }

  lemma LongColonGroups(s: string)
    requires |s| == 5 && IsDigit(s[0]) && IsDigit(s[1]) && s[2] == ':' && IsDigit(s[3]) && IsDigit(s[4])
    ensures GroupsAt(s, 2).Some? && GroupsAt(s, 1).None?
    ensures var h, m := 10 * DigitValue(s[0]) + DigitValue(s[1]), 10 * DigitValue(s[3]) + DigitValue(s[4]);
            TimeOfGroups(GroupsAt(s, 2)) == if h <= 23 && m <= 59 then Some((h, m)) else None
  {
    assert s[2..][1..] == s[3..];
    DigitsValue2(s[..2]);
    DigitsValue2(s[3..]);
    assert !IsDigit(s[1..][1]) && s[1..][0] != ':';
  }

  /** A text typed in full-width forms of printable ASCII characters parses like the
      half-width text. */
  lemma FullWidthParsesAlike(w: string, s: string)
    requires |w| == |s|
    requires forall i :: 0 <= i < |s| ==> '!' <= s[i] <= '~' && w[i] as int == s[i] as int + 0xFEE0
    ensures ParseTimeAsWritten(w) == ParseTimeAsWritten(s) && ParseTime(w) == ParseTime(s)
  {
    FullWidthCleaned(w, s);
    PrintableCleaned(s);
  }

  lemma FullWidthCleaned(w: string, s: string)
    requires |w| == |s|
    requires forall i :: 0 <= i < |s| ==> '!' <= s[i] <= '~' && w[i] as int == s[i] as int + 0xFEE0
    ensures Cleaned(w) == s
  {
    if w != [] {
      Shifted(s[0], w[0]);
      Shifted(s[|s| - 1], w[|w| - 1]);
    }
    CleanEnds(w);
    FoldsTo(w, s);
  }

  /** The full-width form of a printable ASCII character is not white space. */
  lemma Shifted(a: char, b: char)
    requires '!' <= a <= '~' && b as int == a as int + 0xFEE0
    ensures IsFullWidth(b) && !IsSpace(b)
  {
  }

  lemma FoldsTo(w: string, s: string)
    requires |w| == |s|
    requires forall i :: 0 <= i < |s| ==> '!' <= s[i] <= '~' && w[i] as int == s[i] as int + 0xFEE0
    ensures ToHalfWidth(w) == s
  {
    ToHalfWidthSpec(w);
  }

  lemma PrintableCleaned(s: string)
    requires forall i :: 0 <= i < |s| ==> '!' <= s[i] <= '~'
    ensures Cleaned(s) == s
  {
    CleanParse(s);
  }

  /** The full-width text "９：３０" parses as 09:30. */
  lemma ExampleFullWidth()
    ensures ParseTimeAsWritten("\U{FF19}\U{FF1A}\U{FF13}\U{FF10}") == Some((9, 30))
  {
    FullWidthParsesAlike("\U{FF19}\U{FF1A}\U{FF13}\U{FF10}", "9:30");
    Example930Colon();
  }

  /** The examples the source gives: "198" is 19:08, "0930" is 09:30, "9:30" is 09:30 and
      "12" is 01:02. */
  lemma Example198()
    ensures ParseTimeAsWritten("198") == ParseTime("198") == Some((19, 8))
  {
    var s := "198";
    assert s[0] == '1' && s[1] == '9' && s[2] == '8';
    assert AllDigits(s);
    ThreeDigits(s);
  }

  lemma Example0930()
    ensures ParseTimeAsWritten("0930") == ParseTime("0930") == Some((9, 30))
  {
    FourDigits("0930");
  }

  lemma Example930Colon()
    ensures ParseTimeAsWritten("9:30") == ParseTime("9:30") == Some((9, 30))
  {
    ShortColon("9:30");
  }

  lemma Example12()
    ensures ParseTimeAsWritten("12") == ParseTime("12") == Some((1, 2))
  {
    TwoDigits("12");
  }

  /** "930", listed in the source among the supported inputs, is rejected by the code: the
      greedy hour group reads 93, the match has succeeded, and 93 is out of range. The
      corrected parser reads 09:30. */
  lemma GreedyHourFinding()
    ensures ParseTimeAsWritten("930") == None
    ensures ParseTime("930") == Some((9, 30))
  {
    ThreeDigits("930");
  }

  /** `format_time_input` rewrites a parsed time as "HH:mm", and that text parses back to
      the same time. */
  lemma TimeTextParses(h: int, m: int)
    requires ValidTime(h, m)
    ensures ParseTimeAsWritten(TimeText(h, m)) == ParseTime(TimeText(h, m)) == Some((h, m))
  {
    TimeTextShape(h, m);
    ClockTextParses(TimeText(h, m), h, m);
  }

  lemma ClockTextParses(t: string, h: int, m: int)
    requires ValidTime(h, m)
    requires |t| == 5 && IsDigit(t[0]) && IsDigit(t[1]) && t[2] == ':' && IsDigit(t[3]) && IsDigit(t[4])
    requires 10 * DigitValue(t[0]) + DigitValue(t[1]) == h && 10 * DigitValue(t[3]) + DigitValue(t[4]) == m
    ensures ParseTimeAsWritten(t) == ParseTime(t) == Some((h, m))
  {
    LongColonGroups(t);
    assert MatchWritten(t) == MatchIntended(t) == Some((h, m));
    ParseOfClean(t);
  }

  lemma TimeTextShape(h: int, m: int)
    requires ValidTime(h, m)
    ensures var t := TimeText(h, m);
            |t| == 5 && IsDigit(t[0]) && IsDigit(t[1]) && t[2] == ':' && IsDigit(t[3]) && IsDigit(t[4])
            && 10 * DigitValue(t[0]) + DigitValue(t[1]) == h && 10 * DigitValue(t[3]) + DigitValue(t[4]) == m
  {
    var hs, ms := Format02(h), Format02(m);
    assert hs == PadNat(h, 2) && ms == PadNat(m, 2);
    var t := TimeText(h, m);
    assert t == hs + ":" + ms;
    assert t[0] == hs[0] && t[1] == hs[1] && t[2] == ':' && t[3] == ms[0] && t[4] == ms[1];
    DigitsValue2(hs);
    DigitsValue2(ms);
  }

  // -------------------------------------------------------------- the time field

  /** The message under the form when the typed time does not parse. */
  const FormatHint: string := "❌ 時間格式錯誤，例如 0930、9:30、198"

  /** `format_time_input` as written, over the code's `parse_time`: the new text of the
      time field and of the status line. */
  function FormatTimeInput(text: string): (r: (string, string))
    ensures ParseTimeAsWritten(text).Some? ==> r.1 == "" && ParseTimeAsWritten(r.0) == ParseTimeAsWritten(text)
    ensures ParseTimeAsWritten(text).None? ==> r == (text, FormatHint)
  {
    var t := ParseTimeAsWritten(text);
    if t.Some? then
      TimeTextParses(t.value.0, t.value.1);
      (TimeText(t.value.0, t.value.1), "")
    else (text, FormatHint)
  }

  /** Formatting the field twice is formatting it once. */
  lemma FormatTimeInputIdempotent(text: string)
    ensures FormatTimeInput(FormatTimeInput(text).0) == FormatTimeInput(text)
  {
  }

  /** `format_time_input` over the corrected parser. */
  function FormatTimeInputIntended(text: string): (r: (string, string))
    ensures ParseTime(text).Some? ==> r.1 == "" && ParseTime(r.0) == ParseTime(text)
    ensures ParseTime(text).None? ==> r == (text, FormatHint)
  {
    var t := ParseTime(text);
    if t.Some? then
      TimeTextParses(t.value.0, t.value.1);
      (TimeText(t.value.0, t.value.1), "")
    else (text, FormatHint)
  }

  /** Formatting the field twice is formatting it once, with the corrected parser too. */
  lemma FormatTimeInputIntendedIdempotent(text: string)
    ensures FormatTimeInputIntended(FormatTimeInputIntended(text).0) == FormatTimeInputIntended(text)
  {
  }

  /** The text the time field starts with: the next whole hour after the current hour,
      23 wrapping to 00. */
  function DefaultTimeText(nowHour: int): (r: string)
    requires 0 <= nowHour < 24
    ensures ParseTimeAsWritten(r) == ParseTime(r) == Some(((nowHour + 1) % 24, 0))
  {
    TimeTextParses((nowHour + 1) % 24, 0);
    TimeText((nowHour + 1) % 24, 0)
  }

  // ----------------------------------------------------------------------- accept

  const EmptyName: string := "❌ 節目名稱不能空白"
  const BadTime: string := "❌ 請輸入正確的時間格式，例如 0930、9:30"
  const PastStart: string := "❌ 無法新增過去的行程"
  const PastEnd: string := "❌ 結束時間不能早於現在時間"
  const Overlapping: string := "⚠️ 時間重疊"
  /** `list.index` of an encoder that is not in the list (or of `None`, when there is none). */
  const NotInList: string := "is not in list"

  /** What `accept` does: show a message and stay open, raise, or close with the values
      `get_values` then returns (name, date, time, duration in seconds, encoder). */
  datatype Verdict =
    | Rejected(message: string)
    | Raises(error: string)
    | Accepted(name: string, qdate: Date, time: (int, int), durSec: int, encoder: string)

  /** The first index of `x` in `s`, as `list.index`. */
  function IndexIn(s: seq<string>, x: string): (r: Option<nat>)
    ensures r.Some? ==> r.value < |s| && s[r.value] == x && forall j :: 0 <= j < r.value ==> s[j] != x
    ensures r.None? ==> forall j :: 0 <= j < |s| ==> s[j] != x
  {
    if s == [] then None
    else if s[0] == x then Some(0)
    else
      var r := IndexIn(s[1..], x);
      if r.None? then None else Some(r.value + 1)
  }

  /** The checks of `accept` once the name has been stripped and the time parsed, at
      instant `nowMs`. `selected` is the encoder chosen (`None` when the list is empty),
      `durSec` is `int(duration * 3600)`, and `checker` is `overlap_checker`, called with the
      track, the start rounded to hundredths of an hour, the duration and the date (hours
      are carried as seconds throughout). Each message is shown exactly when every earlier
      check passed and its own fails. */
  function Decide(name: string, time: Option<(int, int)>, durSec: int, qdate: Date, names: seq<string>,
                  selected: Option<string>, nowMs: int, checker: Option<(int, int, int, Date) -> bool>): (r: Verdict)
    ensures r == Rejected(EmptyName) <==> name == ""
    ensures r == Rejected(BadTime) <==> name != "" && time.None?
    ensures r.Raises? <==> name != "" && time.Some? && (selected.None? || IndexIn(names, selected.value).None?)
    ensures r == Rejected(PastStart) <==>
              name != "" && time.Some? && selected.Some? && IndexIn(names, selected.value).Some?
              && DateTimeAt(qdate, time.value.0, time.value.1) < nowMs
    ensures r == Rejected(PastEnd) <==>
              name != "" && time.Some? && selected.Some? && IndexIn(names, selected.value).Some?
              && nowMs <= DateTimeAt(qdate, time.value.0, time.value.1)
              && DateTimeAt(qdate, time.value.0, time.value.1) + durSec * 1000 < nowMs
    ensures r.Accepted? <==>
              name != "" && time.Some? && selected.Some? && IndexIn(names, selected.value).Some?
              && nowMs <= DateTimeAt(qdate, time.value.0, time.value.1)
              && nowMs <= DateTimeAt(qdate, time.value.0, time.value.1) + durSec * 1000
              && (checker.None?
                  || !checker.value(IndexIn(names, selected.value).value, RoundedHours(time.value.0, time.value.1), durSec, qdate))
    ensures r.Accepted? ==> r == Accepted(name, qdate, time.value, durSec, selected.value)
  {
    if name == "" then Rejected(EmptyName)
    else if time.None? then Rejected(BadTime)
    else
      var (h, m) := time.value;
      var track := if selected.Some? then IndexIn(names, selected.value) else None;
      if track.None? then Raises(NotInList)
      else
        var start := DateTimeAt(qdate, h, m);
        var end := start + durSec * 1000;
        if start < nowMs then Rejected(PastStart)
        else if end < nowMs then Rejected(PastEnd)
        else if checker.Some? && checker.value(track.value, RoundedHours(h, m), durSec, qdate) then Rejected(Overlapping)
        else Accepted(name, qdate, (h, m), durSec, selected.value)
  }

  /** `accept` as written, on the texts of the name and time fields, over the code's
      `parse_time`. */
  function Accept(nameText: string, timeText: string, durSec: int, qdate: Date, names: seq<string>,
                  selected: Option<string>, nowMs: int, checker: Option<(int, int, int, Date) -> bool>): (r: Verdict)
    ensures r == Rejected(EmptyName) <==> Strip(nameText) == ""
    ensures r == Rejected(BadTime) <==> Strip(nameText) != "" && ParseTimeAsWritten(timeText).None?
    ensures r.Accepted? ==> r.name == Strip(nameText) != "" && ParseTimeAsWritten(timeText) == Some(r.time)
                            && ValidTime(r.time.0, r.time.1)
  {
    Decide(Strip(nameText), ParseTimeAsWritten(timeText), durSec, qdate, names, selected, nowMs, checker)
  }

  /** `accept` over the corrected parser. */
  function AcceptIntended(nameText: string, timeText: string, durSec: int, qdate: Date, names: seq<string>,
                          selected: Option<string>, nowMs: int, checker: Option<(int, int, int, Date) -> bool>): (r: Verdict)
    ensures r == Rejected(EmptyName) <==> Strip(nameText) == ""
    ensures r == Rejected(BadTime) <==> Strip(nameText) != "" && ParseTime(timeText).None?
    ensures r.Accepted? ==> r.name == Strip(nameText) != "" && ParseTime(timeText) == Some(r.time)
                            && ValidTime(r.time.0, r.time.1)
  {
    Decide(Strip(nameText), ParseTime(timeText), durSec, qdate, names, selected, nowMs, checker)
  }

  /** The dialog as written refuses "930" with the format messages, in the field and on
      accepting, whatever else the form holds; the corrected dialog reads it as 09:30. */
  lemma Dialog930(nameText: string, durSec: int, qdate: Date, names: seq<string>,
                  selected: Option<string>, nowMs: int, checker: Option<(int, int, int, Date) -> bool>)
    requires Strip(nameText) != ""
    ensures FormatTimeInput("930") == ("930", FormatHint)
    ensures Accept(nameText, "930", durSec, qdate, names, selected, nowMs, checker) == Rejected(BadTime)
    ensures FormatTimeInputIntended("930") == (TimeText(9, 30), "")
    ensures AcceptIntended(nameText, "930", durSec, qdate, names, selected, nowMs, checker) != Rejected(BadTime)
  {
    GreedyHourFinding();
  }

  /** With a non-negative duration the end is never before the start, so the end check
      can never be the one that fails. */
  lemma EndCheckNeverFires(name: string, time: Option<(int, int)>, durSec: int, qdate: Date, names: seq<string>,
                           selected: Option<string>, nowMs: int, checker: Option<(int, int, int, Date) -> bool>)
    requires durSec >= 0
    ensures Decide(name, time, durSec, qdate, names, selected, nowMs, checker) != Rejected(PastEnd)
  {
  }
}
