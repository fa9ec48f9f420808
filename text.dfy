/** Python string operations the scheduler relies on: strip, substring search,
    split, splitlines, decimal conversion and `02d` formatting. */
module Text {

  /** Python's `str.isspace()` for one character. */
  predicate IsSpace(c: char) {
    c == ' ' || c == '\t' || c == '\n' || c == '\r' || c == '\U{000B}' || c == '\U{000C}'
    || ('\U{001C}' <= c <= '\U{001F}') || c == '\U{0085}' || c == '\U{00A0}'
    || c == '\U{1680}' || ('\U{2000}' <= c <= '\U{200A}') || c == '\U{2028}'
    || c == '\U{2029}' || c == '\U{202F}' || c == '\U{205F}' || c == '\U{3000}'
  }

  /** Leading whitespace removed. */
  function LStrip(s: string): (r: string)
    ensures |r| <= |s| && r == s[|s| - |r|..]
    ensures r == [] || !IsSpace(r[0])
    ensures forall i :: 0 <= i < |s| - |r| ==> IsSpace(s[i])
  {
    if s != [] && IsSpace(s[0]) then LStrip(s[1..]) else s
  }

  /** Trailing whitespace removed. */
  function RStrip(s: string): (r: string)
    ensures |r| <= |s| && r == s[..|r|]
    ensures r == [] || !IsSpace(r[|r| - 1])
    ensures forall i :: |r| <= i < |s| ==> IsSpace(s[i])
  {
    if s != [] && IsSpace(s[|s| - 1]) then RStrip(s[..|s| - 1]) else s
  }

  /** Python's `str.strip()`: the longest slice with no whitespace at either end. */
  function Strip(s: string): (r: string)
    ensures exists i :: MatchAt(s, r, i)
                        && (forall k :: 0 <= k < i ==> IsSpace(s[k]))
                        && (forall k :: i + |r| <= k < |s| ==> IsSpace(s[k]))
    ensures r == [] || (!IsSpace(r[0]) && !IsSpace(r[|r| - 1]))
  {
    var l := LStrip(s);
    var r := RStrip(l);
    StripWitness(s, l, r);
    r
  }

  /** A text with no whitespace at either end is its own strip. */
  lemma StripUnchanged(s: string)
    requires s == [] || (!IsSpace(s[0]) && !IsSpace(s[|s| - 1]))
    ensures Strip(s) == s
  {
    assert LStrip(s) == s;
    assert RStrip(s) == s;
  }

  lemma StripWitness(s: string, l: string, r: string)
    requires |l| <= |s| && l == s[|s| - |l|..] && forall k :: 0 <= k < |s| - |l| ==> IsSpace(s[k])
    requires |r| <= |l| && r == l[..|r|] && forall k :: |r| <= k < |l| ==> IsSpace(l[k])
    ensures var i := |s| - |l|;
            MatchAt(s, r, i)
            && (forall k :: 0 <= k < i ==> IsSpace(s[k]))
            && (forall k :: i + |r| <= k < |s| ==> IsSpace(s[k]))
  {
    var i := |s| - |l|;
    assert l == s[i..];
    assert r == l[..|r|];
    forall k | 0 <= k < |r|
      ensures r[k] == s[i + k]
    {
      assert r[k] == l[k];
    }
    assert r == s[i..i + |r|];
    forall k | i + |r| <= k < |s|
      ensures IsSpace(s[k])
    {
      assert s[k] == l[k - i];
    }
  }

  /** `sub` occurs in `s` at index `j`. */
  predicate MatchAt(s: string, sub: string, j: int) {
    0 <= j && j + |sub| <= |s| && s[j..j + |sub|] == sub
  }

  /** The first index at which `sub` occurs in `s`, or -1: Python's `s.find(sub)`. */
  function IndexOf(s: string, sub: string): (r: int)
    ensures r == -1 || MatchAt(s, sub, r)
    ensures r >= 0 ==> forall j :: 0 <= j < r ==> !MatchAt(s, sub, j)
    ensures r == -1 ==> forall j :: !MatchAt(s, sub, j)
    decreases |s|
  {
    if |sub| > |s| then -1
    else if s[..|sub|] == sub then 0
    else
      var k := IndexOf(s[1..], sub);
      ShiftMatch(s, sub);
      assert !MatchAt(s, sub, 0);
      if k < 0 then -1 else k + 1
  }

  /** An occurrence past the first character is an occurrence in the tail. */
  lemma ShiftMatch(s: string, sub: string)
    requires s != []
    ensures forall j {:trigger MatchAt(s, sub, j)} :: 1 <= j ==> (MatchAt(s, sub, j) <==> MatchAt(s[1..], sub, j - 1))
  {
    forall j | 1 <= j
      ensures MatchAt(s, sub, j) <==> MatchAt(s[1..], sub, j - 1)
    {
      if j + |sub| <= |s| {
        var a, b := s[j..j + |sub|], s[1..][j - 1..j - 1 + |sub|];
        assert forall k :: 0 <= k < |a| ==> a[k] == b[k];
        assert a == b;
      }
    }
  }

  /** Python's `sub in s`. */
  predicate Contains(s: string, sub: string) {
    IndexOf(s, sub) >= 0
  }

  /** `sub in s` holds exactly when `sub` occurs somewhere in `s`. */
  lemma ContainsIff(s: string, sub: string)
    ensures Contains(s, sub) <==> exists j :: MatchAt(s, sub, j)
  {
  }

  /** `s.split(sub)[0]`: the text before the first occurrence of `sub` (all of `s` if none). */
  function TextBefore(s: string, sub: string): (r: string)
    ensures Contains(s, sub) ==> MatchAt(s, sub, |r|) && r == s[..|r|]
    ensures !Contains(s, sub) ==> r == s
    ensures sub != [] ==> forall j :: !MatchAt(r, sub, j)
  {
    var k := IndexOf(s, sub);
    if k < 0 then s
    else
      assert forall j :: MatchAt(s[..k], sub, j) ==> MatchAt(s, sub, j) by {
        forall j | MatchAt(s[..k], sub, j) ensures MatchAt(s, sub, j) {
          assert s[..k][j..j + |sub|] == s[j..j + |sub|];
        }
      }
      s[..k]
  }

  /** Number of occurrences of `c` in `s`. */
  function CountChar(s: string, c: char): nat {
    if s == [] then 0 else (if s[0] == c then 1 else 0) + CountChar(s[1..], c)
  }

  /** The pieces joined back with the separator. */
  function JoinWith(parts: seq<string>, c: char): string {
    if parts == [] then []
    else if |parts| == 1 then parts[0]
    else parts[0] + [c] + JoinWith(parts[1..], c)
  }

  /** Python's `s.split(c)` for a one-character separator. */
  function SplitOn(s: string, c: char): (r: seq<string>)
    ensures |r| == CountChar(s, c) + 1
    ensures forall k :: 0 <= k < |r| ==> c !in r[k]
    ensures JoinWith(r, c) == s
  {
    if s == [] then [[]]
    else
      var rest := SplitOn(s[1..], c);
      if s[0] == c then [[]] + rest
      else
        assert JoinWith(rest, c) == s[1..];
        var r := [[s[0]] + rest[0]] + rest[1..];
        assert JoinWith(r, c) == s by {
          if |rest| == 1 { } else {
            assert r[1..] == rest[1..];
          }
        }
        r
  }

  /** A line boundary of Python's `str.splitlines()`. */
  predicate IsLineBreak(c: char) {
    c == '\n' || c == '\r' || c == '\U{000B}' || c == '\U{000C}' || ('\U{001C}' <= c <= '\U{001E}')
    || c == '\U{0085}' || c == '\U{2028}' || c == '\U{2029}'
  }

  /** Index of the first line boundary in `s`, or |s|. */
  function FirstBreak(s: string): (r: nat)
    ensures r <= |s|
    ensures r < |s| ==> IsLineBreak(s[r])
    ensures forall j :: 0 <= j < r ==> !IsLineBreak(s[j])
  {
    if s == [] then 0 else if IsLineBreak(s[0]) then 0 else 1 + FirstBreak(s[1..])
  }

  /** Python's `s.splitlines()`: lines without their terminators ("\r\n" is one
      terminator); no empty line is produced for a trailing terminator. The first line
      is the text before the first terminator, and the lines together hold exactly
      the text's other characters, in order. */
  function SplitLines(s: string): (r: seq<string>)
    ensures forall k, j :: 0 <= k < |r| && 0 <= j < |r[k]| ==> !IsLineBreak(r[k][j])
    ensures s == [] <==> r == []
    ensures s != [] ==> r[0] == s[..FirstBreak(s)]
    ensures Concat(r) == WithoutBreaks(s)
    decreases |s|
  {
    if s == [] then []
    else
      var i := FirstBreak(s);
      if i == |s| then
        SkipLine(s, i, 0);
        assert s[..i] == s && s[i..] == [];
        [s]
      else
        var w := BreakWidth(s, i);
        var r := [s[..i]] + SplitLines(s[i + w..]);
        SkipFirstLine(s, i, w);
        assert r[1..] == SplitLines(s[i + w..]);
        r
  }

  /** The number of line terminators in `s` ("\r\n" counts once). */
  function Terminators(s: string): nat
    decreases |s|
  {
    if s == [] then 0
    else if IsLineBreak(s[0]) then 1 + Terminators(s[BreakWidth(s, 0)..])
    else Terminators(s[1..])
  }

  /** `splitlines` gives one line per terminator, and one more for text after the last
      terminator. */
  lemma {:induction false} SplitLinesCount(s: string)
    ensures |SplitLines(s)| == Terminators(s) + (if s != [] && !IsLineBreak(s[|s| - 1]) then 1 else 0)
    decreases |s|
  {
    if s != [] {
      var i := FirstBreak(s);
      SkipToBreak(s, i);
      if i < |s| {
        var w := BreakWidth(s, i);
        var t := s[i..];
        assert t[0] == s[i] && BreakWidth(t, 0) == w && t[w..] == s[i + w..];
        SplitLinesCount(s[i + w..]);
        if i + w < |s| {
          assert s[i + w..][|s[i + w..]| - 1] == s[|s| - 1];
        } else {
          TerminatorBreaks(s, i, w);
        }
      }
    }
  }

  /** Characters before the first terminator add none. */
  lemma {:induction false} SkipToBreak(s: string, i: nat)
    requires i <= |s| && forall j :: 0 <= j < i ==> !IsLineBreak(s[j])
    ensures Terminators(s) == Terminators(s[i..])
    decreases i
  {
    if i > 0 {
      SkipToBreak(s[1..], i - 1);
      assert s[1..][i - 1..] == s[i..];
    }
  }

  /** The length of the line terminator at `i`: "\r\n" counts as one. */
  function BreakWidth(s: string, i: nat): (w: nat)
    requires i < |s|
    ensures 1 <= w <= 2 && i + w <= |s|
  {
    if s[i] == '\r' && i + 1 < |s| && s[i + 1] == '\n' then 2 else 1
  }

  /** Skipping the first line and its terminator. */
  lemma SkipFirstLine(s: string, i: nat, w: nat)
    requires i == FirstBreak(s) < |s| && w == BreakWidth(s, i)
    ensures WithoutBreaks(s) == s[..i] + WithoutBreaks(s[i + w..])
  {
    TerminatorBreaks(s, i, w);
    SkipLine(s, i, w);
  }

  /** Every character of a terminator is a line break. */
  lemma TerminatorBreaks(s: string, i: nat, w: nat)
    requires i < |s| && w == BreakWidth(s, i) && IsLineBreak(s[i])
    ensures forall j :: i <= j < i + w ==> IsLineBreak(s[j])
  {
  }

  /** The lines written one after the other, without terminators. */
  function Concat(lines: seq<string>): string {
    if lines == [] then "" else lines[0] + Concat(lines[1..])
  }

  /** The text with its line-break characters removed. */
  function WithoutBreaks(s: string): string {
    if s == [] then "" else (if IsLineBreak(s[0]) then "" else [s[0]]) + WithoutBreaks(s[1..])
  }

  /** Skipping a break-free line of length `i` and the `w` terminator characters after it. */
  lemma {:induction false} SkipLine(s: string, i: nat, w: nat)
    requires i + w <= |s|
    requires forall j :: 0 <= j < i ==> !IsLineBreak(s[j])
    requires forall j :: i <= j < i + w ==> IsLineBreak(s[j])
    ensures WithoutBreaks(s) == s[..i] + WithoutBreaks(s[i + w..])
    decreases i + w
  {
    if i > 0 {
      SkipLine(s[1..], i - 1, w);
      assert s[1..][..i - 1] == s[1..i];
      assert s[1..][i - 1 + w..] == s[i + w..];
      assert s[..i] == [s[0]] + s[1..i];
    } else if w > 0 {
      SkipLine(s[1..], 0, w - 1);
      assert s[1..][w - 1..] == s[w..];
    } else {
      assert s[..0] + WithoutBreaks(s[0..]) == WithoutBreaks(s);
    }
  }

  predicate IsDigit(c: char) {
    '0' <= c <= '9'
  }

  predicate AllDigits(s: string) {
    forall i :: 0 <= i < |s| ==> IsDigit(s[i])
  }

  function DigitChar(d: nat): (c: char)
    requires d < 10
    ensures IsDigit(c) && (c as int) - ('0' as int) == d
  {
    ('0' as int + d) as char
  }

  function DigitValue(c: char): nat
    requires IsDigit(c)
  {
    (c as int) - ('0' as int)
  }

  /** The value of a string of ASCII decimal digits (leading zeros allowed). */
  function DigitsValue(s: string): nat
    requires AllDigits(s)
  {
    if s == [] then 0 else DigitsValue(s[..|s| - 1]) * 10 + DigitValue(s[|s| - 1])
  }

  /** Python's `str(n)` for n >= 0. */
  function NatToString(n: nat): (r: string)
    ensures |r| >= 1 && AllDigits(r)
    ensures |r| == 1 || r[0] != '0'
  {
    if n < 10 then [DigitChar(n)] else NatToString(n / 10) + [DigitChar(n % 10)]
  }

  /** Decimal rendering followed by decimal parsing gives the number back. */
  lemma {:induction false} DecimalRoundTrip(n: nat)
    ensures DigitsValue(NatToString(n)) == n
  {
    if n >= 10 {
      DecimalRoundTrip(n / 10);
      var s := NatToString(n);
      assert s[..|s| - 1] == NatToString(n / 10);
    }
  }

  /** Different numbers render differently. */
  lemma NatToStringInjective(a: nat, b: nat)
    requires NatToString(a) == NatToString(b)
    ensures a == b
  {
    DecimalRoundTrip(a);
    DecimalRoundTrip(b);
  }

  /** `n` zero-padded to at least `width` digits (Qt's `MM`, `dd`, `yyyy` for n >= 0). */
  function PadNat(n: nat, width: nat): (r: string)
    ensures AllDigits(r) && |r| >= width
    ensures |NatToString(n)| >= width ==> r == NatToString(n)
  {
    var d := NatToString(n);
    if |d| >= width then d else Zeros(width - |d|) + d
  }

  /** `k` zero characters. */
  function Zeros(k: nat): (z: string)
    ensures |z| == k && forall i :: 0 <= i < k ==> z[i] == '0'
  {
    seq(k, _ => '0')
  }

  /** Leading zeros do not change the value of a digit string. */
  lemma {:induction false} ZerosPrefixValue(k: nat, d: string)
    requires AllDigits(d)
    ensures AllDigits(Zeros(k) + d)
    ensures DigitsValue(Zeros(k) + d) == DigitsValue(d)
    decreases |d|
  {
    var z := Zeros(k);
    if d == [] {
      assert z + d == z;
      ZerosValue(k);
    } else {
      var d' := d[..|d| - 1];
      ZerosPrefixValue(k, d');
      assert (z + d)[..|z + d| - 1] == z + d';
    }
  }

  lemma {:induction false} ZerosValue(k: nat)
    ensures AllDigits(Zeros(k)) && DigitsValue(Zeros(k)) == 0
  {
    if k > 0 {
      ZerosValue(k - 1);
      assert Zeros(k)[..k - 1] == Zeros(k - 1);
    }
  }

  /** Padding preserves the value. */
  lemma {:induction false} PadNatValue(n: nat, width: nat)
    ensures DigitsValue(PadNat(n, width)) == n
  {
    DecimalRoundTrip(n);
    var d := NatToString(n);
    var p := PadNat(n, width);
    if |d| < width {
      var k: nat := width - |d|;
      ZerosPrefixValue(k, d);
      assert p == Zeros(k) + d;
      assert DigitsValue(p) == DigitsValue(Zeros(k) + d) == DigitsValue(d);
    } else {
      assert p == d;
    }
  }

  /** Numbers below 10^w render in at most `w` digits. */
  lemma {:induction false} NatToStringLength(n: nat, w: nat)
    requires n < Pow10(w)
    ensures |NatToString(n)| <= w || (n == 0 && w == 0)
  {
    if w > 0 && n >= 10 {
      NatToStringLength(n / 10, w - 1);
    }
  }

  function Pow10(w: nat): nat {
    if w == 0 then 1 else 10 * Pow10(w - 1)
  }

  /** Python's `str(n)` for any integer. */
  function IntToString(n: int): (r: string)
    ensures n >= 0 ==> r == NatToString(n)
    ensures n < 0 ==> r == "-" + NatToString(-n)
  {
    if n >= 0 then NatToString(n) else "-" + NatToString(-n)
  }

  /** Python's `f"{n:02d}"`: zero-padded to two characters; a negative number keeps its sign. */
  function Format02(n: int): (r: string)
    ensures 0 <= n < 100 ==> |r| == 2 && AllDigits(r) && DigitsValue(r) == n
    ensures n >= 0 ==> AllDigits(r) && DigitsValue(r) == n && |r| >= 2
    ensures n < 0 ==> r == "-" + NatToString(-n)
  {
    if n < 0 then "-" + NatToString(-n)
    else
      PadNatValue(n, 2);
      assert n < 100 ==> |NatToString(n)| <= 2 by {
        if n < 100 { NatToStringLength(n, 2); }
      }
      PadNat(n, 2)
  }

  /** Every occurrence of character `a` replaced by `b`: Python's `s.replace(a, b)`. */
  function ReplaceChar(s: string, a: char, b: char): (r: string)
    ensures |r| == |s|
    ensures forall i :: 0 <= i < |s| ==> r[i] == (if s[i] == a then b else s[i])
  {
    if s == [] then [] else [if s[0] == a then b else s[0]] + ReplaceChar(s[1..], a, b)
  }

  /** A path separator on Windows. */
  predicate IsSep(c: char) {
    c == '\\' || c == '/'
  }

  /** The drive of a Windows path as `ntpath.splitdrive` finds a drive letter: the
      first two characters when the second is a colon, else none. */
  function DriveOf(p: string): (d: string)
    ensures d <= p && (d == [] || (|d| == 2 && d[1] == ':'))
  {
    if |p| >= 2 && p[1] == ':' then p[..2] else []
  }

  /** The part of the path after its drive starts with a separator. */
  predicate IsAbsolute(p: string) {
    |DriveOf(p)| < |p| && IsSep(p[|DriveOf(p)|])
  }

  /** A relative path without a drive. */
  predicate IsRelativeName(p: string) {
    DriveOf(p) == [] && !IsAbsolute(p)
  }

  /** A text starting with two digits is a relative name. */
  lemma DigitsRelative(p: string)
    requires |p| >= 2 && IsDigit(p[0]) && IsDigit(p[1])
    ensures IsRelativeName(p)
  {
  }

  function LowerAscii(c: char): char {
    if 'A' <= c <= 'Z' then (c as int + 32) as char else c
  }

  /** Two drives name the same drive when they agree up to the case of letters. */
  predicate SameDrive(d1: string, d2: string) {
    |d1| == |d2| && forall i :: 0 <= i < |d1| ==> LowerAscii(d1[i]) == LowerAscii(d2[i])
  }

  /** `os.path.join(a, b)` on Windows (`ntpath.join`). The result always ends with
      `b`'s path; the lemmas below give it for each kind of `b`. */
  function JoinPath(a: string, b: string): (r: string)
    ensures |b| - |DriveOf(b)| <= |r| && r[|r| - (|b| - |DriveOf(b)|)..] == b[|DriveOf(b)|..]
  {
    var ad := DriveOf(a);
    var bd := DriveOf(b);
    var bp := b[|bd|..];
    if IsAbsolute(b) then
      (if bd != [] || ad == [] then bd else ad) + bp
    else if bd != [] && !SameDrive(bd, ad) then
      b
    else
      (if bd != [] then bd else ad) + WithSep(a[|ad|..]) + bp
  }

  /** A path followed by a backslash unless it is empty or ends with a separator. */
  function WithSep(p: string): string {
    if p != [] && !IsSep(p[|p| - 1]) then p + "\\" else p
  }

  /** A relative `b` without a drive follows `a`, with a backslash in between unless the
      part of `a` after its drive is empty or ends with a separator ("D:" and "x" give
      "D:x"). */
  lemma JoinPathRelative(a: string, b: string)
    requires IsRelativeName(b)
    ensures JoinPath(a, b) == a + (if |DriveOf(a)| < |a| && !IsSep(a[|a| - 1]) then "\\" else "") + b
  {
    var ad := DriveOf(a);
    assert a == ad + a[|ad|..];
    assert b[0..] == b;
  }

  /** Joining a relative name extends `a` and ends with the name. */
  lemma JoinExtends(a: string, b: string)
    requires IsRelativeName(b)
    ensures var r := JoinPath(a, b);
            |a| + |b| <= |r| && a <= r && r[|r| - |b|..] == b
  {
    JoinPathRelative(a, b);
  }

  /** An absolute `b` replaces the path, and keeps `a`'s drive only when it has none. */
  lemma JoinPathAbsolute(a: string, b: string)
    requires IsAbsolute(b)
    ensures JoinPath(a, b) == (if DriveOf(b) == [] then DriveOf(a) else []) + b
  {
    assert DriveOf(b) + b[|DriveOf(b)|..] == b;
  }

  /** A `b` on another drive replaces `a` altogether. */
  lemma JoinPathOtherDrive(a: string, b: string)
    requires DriveOf(b) != [] && !SameDrive(DriveOf(b), DriveOf(a))
    ensures JoinPath(a, b) == b
  {
    assert DriveOf(b) + b[|DriveOf(b)|..] == b;
  }

  /** A relative `b` on the same drive, whatever the case of its letter, takes `b`'s
      drive and follows `a`'s path. */
  lemma JoinPathSameDrive(a: string, b: string)
    requires DriveOf(b) != [] && SameDrive(DriveOf(b), DriveOf(a)) && !IsAbsolute(b)
    ensures JoinPath(a, b) == DriveOf(b) + a[2..] + (if |a| > 2 && !IsSep(a[|a| - 1]) then "\\" else "") + b[2..]
  {
  }

  /** `os.path.join` after a bare drive adds no separator. */
  lemma JoinAfterBareDrive()
    ensures JoinPath("D:", "x") == "D:x"
  {
    assert DriveOf("D:") == "D:" && DriveOf("x") == [];
    JoinPathRelative("D:", "x");
  }

  /** `os.path.join` restarts at a path on another drive. */
  lemma JoinOtherDrive()
    ensures JoinPath("C:\\rec", "D:x") == "D:x"
  {
    assert DriveOf("D:x") == "D:" && DriveOf("C:\\rec") == "C:";
    assert LowerAscii("D:"[0]) != LowerAscii("C:"[0]);
    JoinPathOtherDrive("C:\\rec", "D:x");
  }

  /** `os.path.join` keeps the drive for an absolute path without one. */
  lemma JoinAbsolute()
    ensures JoinPath("C:\\rec", "\\x") == "C:\\x"
  {
    assert DriveOf("\\x") == [] && DriveOf("C:\\rec") == "C:";
    JoinPathAbsolute("C:\\rec", "\\x");
  }
}
