/** `find_conflict_blocks`: the labels of the schedule file's entries that collide
    with a proposed recording, compared as date-times. */
module ConflictCheck {
  import opened QtTime
  import opened ScheduleView

  /** Start of a recording as the date-time the check builds: the minute is truncated. */
  function StartAt(qdate: Date, startSec: int): int {
    StartInstant(qdate, startSec)
  }

  /** End of a recording: the truncated start plus the duration in whole seconds. */
  function EndAt(qdate: Date, startSec: int, durSec: int): int {
    StartAt(qdate, startSec) + durSec * 1000
  }

  /** The file entry `rec` is reported for the proposed recording: same track, a date
      that reads back as the same date, and strictly overlapping date-time intervals. */
  predicate Reported(rec: Record, qdate: Date, track: int, startSec: int, durSec: int) {
    rec.track == track && ParseIso(rec.qdate) == qdate
    && StartAt(qdate, startSec) < EndAt(qdate, rec.startSec, rec.durSec)
    && EndAt(qdate, startSec, durSec) > StartAt(qdate, rec.startSec)
  }

  /** `find_conflict_blocks` over the file contents `raw`: the reported labels, in file order. */
  function FindConflictBlocks(raw: seq<Record>, qdate: Date, track: int, startSec: int, durSec: int): (r: seq<string>)
    ensures |r| <= |raw|
    ensures r == [] <==> forall i :: 0 <= i < |raw| ==> !Reported(raw[i], qdate, track, startSec, durSec)
    ensures forall k :: 0 <= k < |r| ==>
              exists i :: 0 <= i < |raw| && Reported(raw[i], qdate, track, startSec, durSec) && raw[i].title == r[k]
  {
    if raw == [] then []
    else
      var rest := FindConflictBlocks(raw[1..], qdate, track, startSec, durSec);
      var here := if Reported(raw[0], qdate, track, startSec, durSec) then [raw[0].title] else [];
      ConflictsStep(raw, qdate, track, startSec, durSec, here, rest);
      here + rest
  }

  /** The induction step of `FindConflictBlocks`' contract. */
  lemma ConflictsStep(raw: seq<Record>, qdate: Date, track: int, startSec: int, durSec: int,
                      here: seq<string>, rest: seq<string>)
    requires raw != []
    requires here == if Reported(raw[0], qdate, track, startSec, durSec) then [raw[0].title] else []
    requires |rest| <= |raw| - 1
    requires rest == [] <==> forall i :: 0 <= i < |raw| - 1 ==> !Reported(raw[1..][i], qdate, track, startSec, durSec)
    requires forall k :: 0 <= k < |rest| ==>
               exists i :: 0 <= i < |raw| - 1 && Reported(raw[1..][i], qdate, track, startSec, durSec)
                           && raw[1..][i].title == rest[k]
    ensures |here + rest| <= |raw|
    ensures here + rest == [] <==> forall i :: 0 <= i < |raw| ==> !Reported(raw[i], qdate, track, startSec, durSec)
    ensures forall k :: 0 <= k < |here + rest| ==>
              exists i :: 0 <= i < |raw| && Reported(raw[i], qdate, track, startSec, durSec) && raw[i].title == (here + rest)[k]
  {
    var r := here + rest;
    forall i | 1 <= i < |raw| ensures raw[i] == raw[1..][i - 1] { }
    forall k | 0 <= k < |r|
      ensures exists i :: 0 <= i < |raw| && Reported(raw[i], qdate, track, startSec, durSec) && raw[i].title == r[k]
    {
      if k < |here| {
        assert Reported(raw[0], qdate, track, startSec, durSec) && raw[0].title == r[k];
      } else {
        assert r[k] == rest[k - |here|];
        var i :| 0 <= i < |raw| - 1 && Reported(raw[1..][i], qdate, track, startSec, durSec)
                 && raw[1..][i].title == rest[k - |here|];
        assert raw[i + 1] == raw[1..][i];
      }
    }
  }

  /** Reported labels are in file order: the result of a concatenated file is the
      concatenation of the results. */
  lemma {:induction false} ConflictsAppend(a: seq<Record>, b: seq<Record>, qdate: Date, track: int, s: int, d: int)
    ensures FindConflictBlocks(a + b, qdate, track, s, d)
            == FindConflictBlocks(a, qdate, track, s, d) + FindConflictBlocks(b, qdate, track, s, d)
  {
    if a != [] {
      assert (a + b)[0] == a[0] && (a + b)[1..] == a[1..] + b;
      ConflictsAppend(a[1..], b, qdate, track, s, d);
      var here := if Reported(a[0], qdate, track, s, d) then [a[0].title] else [];
      assert FindConflictBlocks(a + b, qdate, track, s, d) == here + FindConflictBlocks(a[1..] + b, qdate, track, s, d);
      assert FindConflictBlocks(a, qdate, track, s, d) == here + FindConflictBlocks(a[1..], qdate, track, s, d);
    } else {
      assert a + b == b;
    }
  }

  /** There is no self-exclusion: asking about an entry's own date, track and start with
      a positive duration reports that entry's own label. */
  lemma ReportsItself(raw: seq<Record>, i: int, durSec: int)
    requires 0 <= i < |raw| && raw[i].durSec > 0 && durSec > 0
    ensures raw[i].title in FindConflictBlocks(raw, ParseIso(raw[i].qdate), raw[i].track, raw[i].startSec, durSec)
  {
    var q, t, s := ParseIso(raw[i].qdate), raw[i].track, raw[i].startSec;
    if i == 0 {
      assert Reported(raw[0], q, t, s, durSec);
    } else {
      assert raw[1..][i - 1] == raw[i];
      ReportsItself(raw[1..], i - 1, durSec);
    }
  }

  /** The proposed start counts only to the minute. */
  lemma {:induction false} StartTruncatedToMinute(raw: seq<Record>, qdate: Date, track: int, s: int, d: int)
    requires s >= 0
    ensures FindConflictBlocks(raw, qdate, track, s, d) == FindConflictBlocks(raw, qdate, track, s - s % 60, d)
  {
    var s' := s - s % 60;
    ClockOfMinute(s);
    assert StartAt(qdate, s) == StartAt(qdate, s');
    if raw != [] {
      assert Reported(raw[0], qdate, track, s, d) == Reported(raw[0], qdate, track, s', d);
      StartTruncatedToMinute(raw[1..], qdate, track, s, d);
    }
  }

  /** Starts the date-time arithmetic keeps exactly: whole minutes within the day. */
  predicate ExactStart(startSec: int) {
    0 <= startSec < 86400 && startSec % 60 == 0
  }

  lemma ExactStartInstant(qdate: Date, s: int)
    requires ExactStart(s)
    ensures StartAt(qdate, s) == DayNumber(qdate) * MsPerDay + s * 1000
  {
    ClockOfTruncates(s);
  }

  /** For whole-minute starts within the day the check agrees with the view's
      overlap test without exclusion on the loaded schedule. */
  lemma {:induction false} AgreesWithIsOverlap(raw: seq<Record>, qdate: Date, track: int, s: int, d: int)
    requires ExactStart(s)
    requires forall i :: 0 <= i < |raw| ==> ExactStart(raw[i].startSec)
    ensures FindConflictBlocks(raw, qdate, track, s, d) != [] <==> IsOverlap(LoadRecords(raw), qdate, track, s, d, "")
  {
    if raw != [] {
      var rec := raw[0];
      ExactStartInstant(qdate, s);
      ExactStartInstant(qdate, rec.startSec);
      assert Reported(rec, qdate, track, s, d) <==> Clashes(FromRecord(rec), qdate, track, s, d, "");
      AgreesWithIsOverlap(raw[1..], qdate, track, s, d);
      var loaded := LoadRecords(raw);
      assert loaded[1..] == LoadRecords(raw[1..]);
      assert IsOverlap(loaded, qdate, track, s, d, "")
             == (Clashes(loaded[0], qdate, track, s, d, "") || IsOverlap(loaded[1..], qdate, track, s, d, ""));
    }
  }
}
