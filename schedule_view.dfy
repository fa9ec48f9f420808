/** The week view's schedule: the list of block records (`block_data`), the
    blocks drawn for the visible week, the overlap test and the schedule file. */
module ScheduleView {
  import opened Wrappers
  import opened QtTime

  /** One entry of `block_data`: date, track, start and duration (in seconds of
      the day; the source holds hours) and label (`title`). `encoderName` and `id` are the
      optional keys some callers add; the view itself never sets them. */
  datatype Block = Block(qdate: Date, track: int, startSec: int, durSec: int, title: string,
                         encoderName: Option<string>, id: Option<string>)

  /** One object of the schedule file: the date as text and the four other fields. */
  datatype Record = Record(qdate: string, track: int, startSec: int, durSec: int, title: string)

  /** Number of days the view shows. */
  const Days: int := 7
  const SecPerDay: int := 86400

  // -------------------------------------------------------------- overlap

  /** The half-open intervals [s1, s1 + d1) and [s2, s2 + d2) intersect. */
  predicate Intersects(s1: int, d1: int, s2: int, d2: int) {
    !(s1 + d1 <= s2 || s1 >= s2 + d2)
  }

  /** Intersection is symmetric, and intervals that only touch do not intersect. */
  lemma IntersectsProperties(s1: int, d1: int, s2: int, d2: int)
    ensures Intersects(s1, d1, s2, d2) == Intersects(s2, d2, s1, d1)
    ensures !Intersects(s1, d1, s1 + d1, d2) && !Intersects(s1 + d1, d2, s1, d1)
    ensures d1 > 0 && d2 > 0 ==> (Intersects(s1, d1, s2, d2) <==> s1 < s2 + d2 && s2 < s1 + d1)
  {
  }

  /** `b` is an existing entry that the new interval collides with: same date, same
      track, not the excluded label (an empty exclusion excludes nothing), intersecting. */
  predicate Clashes(b: Block, qdate: Date, track: int, startSec: int, durSec: int, exclude: string) {
    b.qdate == qdate && b.track == track && !(exclude != "" && b.title == exclude)
    && Intersects(startSec, durSec, b.startSec, b.durSec)
  }

  /** `is_overlap`: some entry of `data` clashes with the new interval. */
  function IsOverlap(data: seq<Block>, qdate: Date, track: int, startSec: int, durSec: int,
                     exclude: string): (r: bool)
    ensures r <==> exists i :: 0 <= i < |data| && Clashes(data[i], qdate, track, startSec, durSec, exclude)
  {
    if data == [] then false
    else if Clashes(data[0], qdate, track, startSec, durSec, exclude) then true
    else
      var r := IsOverlap(data[1..], qdate, track, startSec, durSec, exclude);
      assert forall i :: 1 <= i < |data| ==> data[i] == data[1..][i - 1];
      r
  }

  /** Only entries of the same date are compared: an entry of the previous day that
      runs past midnight is not seen as overlapping the early hours of the next day. */
  lemma OverlapIgnoresPreviousDay(d: Date, track: int)
    requires d.Ymd?
    ensures var late := Block(d, track, 23 * 3600, 2 * 3600, "late", None, None);
            !IsOverlap([late], NextDay(d), track, 0, 3600, "")
  {
    NextDayNumber(d);
  }

  /** Excluding a label can only remove clashes; excluding "" is the same as excluding nothing. */
  lemma {:induction false} ExcludeOnlyRemoves(data: seq<Block>, qdate: Date, track: int, s: int, d: int, exclude: string)
    ensures IsOverlap(data, qdate, track, s, d, exclude) ==> IsOverlap(data, qdate, track, s, d, "")
    ensures !IsOverlap(data, qdate, track, s, d, "") ==> forall x :: !IsOverlap(data, qdate, track, s, d, x)
  {
    if IsOverlap(data, qdate, track, s, d, exclude) {
      var i :| 0 <= i < |data| && Clashes(data[i], qdate, track, s, d, exclude);
      assert Clashes(data[i], qdate, track, s, d, "");
    }
    forall x | IsOverlap(data, qdate, track, s, d, x)
      ensures IsOverlap(data, qdate, track, s, d, "")
    {
      var i :| 0 <= i < |data| && Clashes(data[i], qdate, track, s, d, x);
      assert Clashes(data[i], qdate, track, s, d, "");
    }
  }

  // -------------------------------------------------------- visible week

  /** The date on which a block ends: its date plus the whole days in start + duration. */
  function EndDate(b: Block): Date {
    AddDays(b.qdate, (b.startSec + b.durSec) / SecPerDay)
  }

  /** `draw_blocks`' range test: the block starts before `base + 7` and ends on or after `base`. */
  predicate Visible(b: Block, base: Date) {
    Before(b.qdate, AddDays(base, Days)) && !Before(EndDate(b), base)
  }

  /** The test in day numbers: for valid dates and a block that does not end before
      its own midnight, visible iff `base <= day + whole days` and `day < base + 7`. */
  lemma VisibleDays(b: Block, base: Date)
    requires b.qdate.Ymd? && base.Ymd? && b.startSec + b.durSec >= 0
    ensures Visible(b, base) <==>
            DayNumber(b.qdate) < DayNumber(base) + Days
            && DayNumber(base) <= DayNumber(b.qdate) + (b.startSec + b.durSec) / SecPerDay
  {
    var n: nat := (b.startSec + b.durSec) / SecPerDay;
    assert EndDate(b) == AddDays(b.qdate, n);
    VisibleDaysAt(b, base, n);
  }

  /** The same test, with the whole days of the end given as `n`. */
  lemma VisibleDaysAt(b: Block, base: Date, n: nat)
    requires b.qdate.Ymd? && base.Ymd? && EndDate(b) == AddDays(b.qdate, n)
    ensures Visible(b, base) <==> DayNumber(b.qdate) < DayNumber(base) + Days && DayNumber(base) <= DayNumber(b.qdate) + n
  {
    AddDaysNumber(base, Days);
    AddDaysNumber(b.qdate, n);
    assert Before(b.qdate, AddDays(base, Days)) == (DayNumber(b.qdate) < DayNumber(base) + Days);
    assert Before(EndDate(b), base) == (DayNumber(b.qdate) + n < DayNumber(base));
  }

  /** The entries `draw_blocks` draws, in `block_data` order. */
  function Shown(data: seq<Block>, base: Date): (r: seq<Block>)
    ensures |r| <= |data|
  {
    if data == [] then []
    else (if Visible(data[0], base) then [data[0]] else []) + Shown(data[1..], base)
  }

  lemma ShownOne(x: Block, base: Date)
    ensures Shown([x], base) == if Visible(x, base) then [x] else []
  {
    assert [x][1..] == [];
  }

  /** Exactly the visible entries are drawn. */
  lemma {:induction false} ShownMembers(data: seq<Block>, base: Date)
    ensures forall b :: b in Shown(data, base) <==> b in data && Visible(b, base)
  {
    if data != [] {
      ShownMembers(data[1..], base);
      assert data == [data[0]] + data[1..];
    }
  }

  lemma {:induction false} ShownAppend(a: seq<Block>, b: seq<Block>, base: Date)
    ensures Shown(a + b, base) == Shown(a, base) + Shown(b, base)
  {
    if a != [] {
      assert (a + b)[0] == a[0] && (a + b)[1..] == a[1..] + b;
      ShownAppend(a[1..], b, base);
      var here := if Visible(a[0], base) then [a[0]] else [];
      assert Shown(a + b, base) == here + Shown(a[1..] + b, base);
      assert Shown(a, base) == here + Shown(a[1..], base);
    } else {
      assert a + b == b;
    }
  }

  // ---------------------------------------------------- removal by label

  /** The entries whose label differs from `title`, in their original order. */
  function WithoutLabel(data: seq<Block>, title: string): (r: seq<Block>)
    ensures |r| <= |data|
    ensures forall b :: b in r <==> b in data && b.title != title
  {
    if data == [] then []
    else (if data[0].title != title then [data[0]] else []) + WithoutLabel(data[1..], title)
  }

  /** The filter works entry by entry, so it keeps the order of what it keeps. */
  lemma {:induction false} WithoutLabelAppend(a: seq<Block>, b: seq<Block>, title: string)
    ensures WithoutLabel(a + b, title) == WithoutLabel(a, title) + WithoutLabel(b, title)
  {
    if a != [] {
      assert (a + b)[1..] == a[1..] + b;
      WithoutLabelAppend(a[1..], b, title);
    } else {
      assert a + b == b;
    }
  }

  /** When no entry has the label, nothing is removed. */
  lemma {:induction false} WithoutAbsentLabel(data: seq<Block>, title: string)
    requires forall b :: b in data ==> b.title != title
    ensures WithoutLabel(data, title) == data
  {
    if data != [] {
      WithoutAbsentLabel(data[1..], title);
    }
  }

  /** Index of the first entry with the label, or |s|. */
  function FirstWithLabel(s: seq<Block>, title: string): (i: nat)
    ensures i <= |s|
    ensures i < |s| ==> s[i].title == title
    ensures forall j :: 0 <= j < i ==> s[j].title != title
  {
    if s == [] then 0 else if s[0].title == title then 0 else 1 + FirstWithLabel(s[1..], title)
  }

  /** Remove the first drawn block with the label (the loop that stops at its first hit). */
  function RemoveFirst(s: seq<Block>, title: string): (r: seq<Block>)
    ensures FirstWithLabel(s, title) == |s| ==> r == s
    ensures FirstWithLabel(s, title) < |s| ==> |r| == |s| - 1 && multiset(r) + multiset{s[FirstWithLabel(s, title)]} == multiset(s)
  {
    var i := FirstWithLabel(s, title);
    if i == |s| then s
    else
      assert s == s[..i] + [s[i]] + s[i + 1..];
      s[..i] + s[i + 1..]
  }

  // ------------------------------------------------------- schedule file

  /** The object `save_schedule` writes for one entry: the date as `yyyy-MM-dd`. */
  function ToRecord(b: Block): (r: Record)
    ensures ParseIso(r.qdate) == b.qdate || (b.qdate.Ymd? && b.qdate.year > 9999)
    ensures r.track == b.track && r.startSec == b.startSec && r.durSec == b.durSec && r.title == b.title
  {
    assert b.qdate.Null? || b.qdate.year <= 9999 ==> ParseIso(FormatIso(b.qdate)) == b.qdate by {
      if b.qdate.Null? || b.qdate.year <= 9999 { IsoRoundTrip(b.qdate); }
    }
    Record(FormatIso(b.qdate), b.track, b.startSec, b.durSec, b.title)
  }

  /** The entry `load_schedule` builds from one object: no encoder name and no id. */
  function FromRecord(r: Record): (b: Block)
    ensures b.encoderName.None? && b.id.None?
    ensures b.track == r.track && b.startSec == r.startSec && b.durSec == r.durSec && b.title == r.title
    ensures b.qdate.Ymd? ==> |r.qdate| == 10
  {
    Block(ParseIso(r.qdate), r.track, r.startSec, r.durSec, r.title, None, None)
  }

  function SaveRecords(data: seq<Block>): (r: seq<Record>)
    ensures |r| == |data|
  {
    if data == [] then [] else [ToRecord(data[0])] + SaveRecords(data[1..])
  }

  function LoadRecords(raw: seq<Record>): (r: seq<Block>)
    ensures |r| == |raw|
  {
    if raw == [] then [] else [FromRecord(raw[0])] + LoadRecords(raw[1..])
  }

  /** An entry as it comes back from the file: the same but without the optional keys. */
  function Forget(b: Block): Block {
    b.(encoderName := None, id := None)
  }

  function ForgetAll(data: seq<Block>): (r: seq<Block>)
    ensures |r| == |data|
    ensures forall k :: 0 <= k < |data| ==> r[k] == Forget(data[k])
  {
    if data == [] then [] else [Forget(data[0])] + ForgetAll(data[1..])
  }

  /** Dates the file format writes with four-digit years. */
  predicate FileDates(data: seq<Block>) {
    forall b :: b in data ==> b.qdate.Null? || b.qdate.year <= 9999
  }

  /** Saving and loading back keeps date, track, start, duration and label of every
      entry, in order, and drops the encoder name and the id. */
  lemma {:induction false} SaveLoadRoundTrip(data: seq<Block>)
    requires FileDates(data)
    ensures LoadRecords(SaveRecords(data)) == ForgetAll(data)
  {
    if data != [] {
      IsoRoundTrip(data[0].qdate);
      SaveLoadRoundTrip(data[1..]);
    }
  }

  // ------------------------------------------------------------ the view

  class View {
    /** `block_data`: every entry of the schedule, in insertion order. */
    var blockData: seq<Block>
    /** `blocks`: the entries drawn for the visible week. */
    var blocks: seq<Block>
    /** `base_date`: the first day shown. */
    var baseDate: Date
    /** The schedule file: `None` while it does not exist. */
    var file: Option<seq<Record>>
    /** Whether writing the schedule file succeeds; a failed write is reported and ignored. */
    var canWrite: bool

    /** The view starts on `today` and loads the schedule file if there is one. */
    constructor(today: Date, file0: Option<seq<Record>>, canWrite0: bool)
      ensures baseDate == today && file == file0 && canWrite == canWrite0
      ensures blockData == (if file0.Some? then LoadRecords(file0.value) else [])
      ensures blocks == Shown(blockData, baseDate)
    {
      baseDate := today;
      file := file0;
      canWrite := canWrite0;
      blockData := [];
      blocks := [];
      new;
      LoadSchedule();
    }

    /** `draw_blocks`: redraw the entries of the visible week. */
    method DrawBlocks()
      modifies this
      ensures blocks == Shown(blockData, baseDate)
      ensures blockData == old(blockData) && baseDate == old(baseDate)
      ensures file == old(file) && canWrite == old(canWrite)
    {
      var all, base := blockData, baseDate;
      var drawn: seq<Block> := [];
      var i := 0;
      while i < |all|
        invariant 0 <= i <= |all|
        invariant drawn == Shown(all[..i], base)
        invariant blockData == all && baseDate == base && unchanged(this)
      {
        var data := all[i];
        ShownAppend(all[..i], [data], base);
        ShownOne(data, base);
        assert all[..i + 1] == all[..i] + [data];
        if Visible(data, base) {
          drawn := drawn + [data];
        }
        i := i + 1;
      }
      assert all[..i] == all;
      blocks := drawn;
    }

    /** `add_time_block` (defaults: four hours, label "節目"): append one entry with
        exactly the given fields, with no overlap check, and redraw. */
    method AddTimeBlock(qdate: Date, track: int, startSec: int, durSec: int, title: string)
      modifies this
      ensures blockData == old(blockData) + [Block(qdate, track, startSec, durSec, title, None, None)]
      ensures blocks == Shown(blockData, baseDate)
      ensures baseDate == old(baseDate) && file == old(file) && canWrite == old(canWrite)
    {
      blockData := blockData + [Block(qdate, track, startSec, durSec, title, None, None)];
      DrawBlocks();
    }

    /** `save_schedule`: write every entry's five fields; a failed write changes nothing. */
    method SaveSchedule()
      modifies this
      ensures file == (if canWrite then Some(SaveRecords(blockData)) else old(file))
      ensures blockData == old(blockData) && blocks == old(blocks) && baseDate == old(baseDate)
      ensures canWrite == old(canWrite)
    {
      if canWrite {
        file := Some(SaveRecords(blockData));
      }
    }

    /** `load_schedule`: replace the entries by the file's and redraw; a missing file
        leaves everything as it was. */
    method LoadSchedule()
      modifies this
      ensures old(file).None? ==> blockData == old(blockData) && blocks == old(blocks)
      ensures old(file).Some? ==> blockData == LoadRecords(old(file).value) && blocks == Shown(blockData, baseDate)
      ensures file == old(file) && baseDate == old(baseDate) && canWrite == old(canWrite)
    {
      if file.Some? {
        blockData := LoadRecords(file.value);
        DrawBlocks();
      }
    }

    /** `remove_block_by_label`: drop the first drawn block with the label, every entry
        with the label, and save. */
    method RemoveBlockByLabel(title: string)
      modifies this
      ensures blocks == RemoveFirst(old(blocks), title)
      ensures blockData == WithoutLabel(old(blockData), title)
      ensures file == (if canWrite then Some(SaveRecords(blockData)) else old(file))
      ensures baseDate == old(baseDate) && canWrite == old(canWrite)
    {
      blocks := RemoveFirst(blocks, title);
      blockData := WithoutLabel(blockData, title);
      SaveSchedule();
    }

    /** `set_start_date`: show the week starting on `qdate`. */
    method SetStartDate(qdate: Date)
      modifies this
      ensures baseDate == qdate && blocks == Shown(blockData, qdate)
      ensures blockData == old(blockData) && file == old(file) && canWrite == old(canWrite)
    {
      baseDate := qdate;
      DrawBlocks();
    }
  }

  /** After a removal no entry carries the label and the others keep their order;
      after a save the file holds exactly the remaining entries. */
  lemma RemovalThenLoad(data: seq<Block>, title: string)
    requires FileDates(data)
    ensures forall b :: b in WithoutLabel(data, title) ==> b.title != title
    ensures LoadRecords(SaveRecords(WithoutLabel(data, title))) == ForgetAll(WithoutLabel(data, title))
  {
    SaveLoadRoundTrip(WithoutLabel(data, title));
  }
}
