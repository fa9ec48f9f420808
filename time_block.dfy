/** `TimeBlock`: one entry drawn on the week view. Its label shows the title and the
    start and end clock times; its edges can be dragged to resize it and the block itself
    can be dropped on another day, hour or track. Scene coordinates along the time axis
    are carried in seconds of timeline: one pixel is 180 s, an hour is 20 px, a day
    column (24 hours plus a 20 px margin) is 500 px. Vertical coordinates stay in pixels. */
module TimeBlock {
  import opened Wrappers
  import opened Text
  import opened QtTime
  import opened ScheduleView

  /** 20 px: the left margin of a day column, and one hour. */
  const Hour: int := 3600
  /** 500 px: the width of a day column. */
  const DayWidth: int := 90000
  /** 100 px: the height of a track. */
  const TrackHeight: int := 100
  /** The status a new block shows. */
  const Waiting: string := "等待中"

  function Max(a: int, b: int): int { if a >= b then a else b }
  function Min(a: int, b: int): int { if a <= b then a else b }

  // ----------------------------------------------------------------- label

  /** `fmt(h)`: `int(h)` and `int((h % 1) * 60)`, each as `{:02d}`. A time of day prints
      as five characters that read back as the time truncated to the minute. */
  function Fmt(sec: int): (r: string)
    ensures 0 <= sec < SecPerDay ==> |r| == 5 && ClockField(r) == Some(sec - sec % 60)
  {
    var (h, m) := ClockOf(sec);
    var r := Format02(h) + ":" + Format02(m);
    if 0 <= sec < SecPerDay then
      ClockOfTruncates(sec);
      assert r[..2] == Format02(h) && r[3..] == Format02(m) && r[2] == ':';
      r
    else r
  }

  /** The end of the label: past midnight it reads the clock of `end % 24` and the
      whole days in `end // 24` as " (+N)". Either form reads back as the end truncated
      to the minute, whole days included. */
  function EndText(endSec: int): (r: string)
    ensures endSec >= 0 ==> |r| >= 5 && EndField(r) == Some(endSec - endSec % 60)
  {
    if endSec >= SecPerDay then
      DayEndReadsBack(endSec);
      Fmt(endSec % SecPerDay) + " (+" + IntToString(endSec / SecPerDay) + ")"
    else Fmt(endSec)
  }

  /** The second line of the label: "start - end". */
  function RangeText(startSec: int, durSec: int): string {
    Fmt(startSec) + " - " + EndText(startSec + durSec)
  }

  /** `format_text`: the title, a line break, then "start - end". */
  function FormatText(title: string, startSec: int, durSec: int): string {
    title + "\n" + RangeText(startSec, durSec)
  }

  /** Reading an "HH:MM" field back as seconds. */
  function ClockField(t: string): Option<int> {
    if |t| == 5 && t[2] == ':' && AllDigits(t[..2]) && AllDigits(t[3..])
    then Some(3600 * DigitsValue(t[..2]) + 60 * DigitsValue(t[3..]))
    else None
  }

  /** Reading the end field back: "HH:MM", or "HH:MM (+N)" which adds N days. */
  function EndField(t: string): Option<int> {
    if |t| > 9 && t[5..8] == " (+" && t[|t| - 1] == ')' && AllDigits(t[8..|t| - 1])
       && ClockField(t[..5]).Some?
    then Some(SecPerDay * DigitsValue(t[8..|t| - 1]) + ClockField(t[..5]).value)
    else ClockField(t)
  }

  /** Reading the "start - end" line back as a pair of seconds. */
  function RangeField(t: string): Option<(int, int)> {
    if |t| >= 13 && t[5..8] == " - " && ClockField(t[..5]).Some? && EndField(t[8..]).Some?
    then Some((ClockField(t[..5]).value, EndField(t[8..]).value))
    else None
  }

  /** An end past midnight reads back as its whole days plus its truncated clock. */
  lemma DayEndReadsBack(endSec: int)
    requires endSec >= SecPerDay
    ensures var r := Fmt(endSec % SecPerDay) + " (+" + IntToString(endSec / SecPerDay) + ")";
            |r| >= 5 && EndField(r) == Some(endSec - endSec % 60)
  {
    var n, c := endSec / SecPerDay, endSec % SecPerDay;
    DecimalRoundTrip(n);
    DaysAndClock(endSec);
    SuffixReadsBack(Fmt(c), IntToString(n), c - c % 60, n);
  }

  /** "HH:MM (+N)" reads back as N days plus the clock. */
  lemma SuffixReadsBack(f: string, ns: string, x: int, n: int)
    requires |f| == 5 && ClockField(f) == Some(x) && |ns| >= 1 && AllDigits(ns) && DigitsValue(ns) == n
    ensures EndField(f + " (+" + ns + ")") == Some(SecPerDay * n + x)
  {
    var t := f + " (+" + ns + ")";
    assert t[..5] == f && t[5..8] == " (+" && t[8..|t| - 1] == ns && t[|t| - 1] == ')';
  }

  /** Whole days and the truncated clock of the rest add up to the truncated whole. */
  lemma DaysAndClock(endSec: int)
    requires endSec >= 0
    ensures var c := endSec % SecPerDay; SecPerDay * (endSec / SecPerDay) + (c - c % 60) == endSec - endSec % 60
  {
    var n, c := endSec / SecPerDay, endSec % SecPerDay;
    assert endSec == SecPerDay * n + c;
    assert c % 60 == endSec % 60;
  }

  /** The "start - end" line reads back field by field. */
  lemma RangeReadsBack(s: string, e: string, x: int, y: int)
    requires |s| == 5 && ClockField(s) == Some(x) && |e| >= 5 && EndField(e) == Some(y)
    ensures RangeField(s + " - " + e) == Some((x, y))
  {
    var line := s + " - " + e;
    assert line[..5] == s && line[5..8] == " - " && line[8..] == e;
  }

  /** The second line reads back as the start and the end, each truncated to the minute. */
  lemma RangeTextReadsBack(startSec: int, durSec: int)
    requires 0 <= startSec < SecPerDay && startSec + durSec >= 0
    ensures RangeField(RangeText(startSec, durSec))
            == Some((startSec - startSec % 60, startSec + durSec - (startSec + durSec) % 60))
  {
    LineReadsBack(startSec, durSec, startSec - startSec % 60, startSec + durSec - (startSec + durSec) % 60);
  }

  /** The line reads back as the values its two fields read back as. */
  lemma LineReadsBack(startSec: int, durSec: int, x: int, y: int)
    requires |Fmt(startSec)| == 5 && ClockField(Fmt(startSec)) == Some(x)
    requires |EndText(startSec + durSec)| >= 5 && EndField(EndText(startSec + durSec)) == Some(y)
    ensures RangeField(RangeText(startSec, durSec)) == Some((x, y))
  {
    RangeReadsBack(Fmt(startSec), EndText(startSec + durSec), x, y);
  }

  /** The label starts with the title and a line break, and the line after it reads back
      as the start and the end, each truncated to the minute. */
  lemma FormatTextReadsBack(title: string, startSec: int, durSec: int)
    requires 0 <= startSec < SecPerDay && startSec + durSec >= 0
    ensures var t := FormatText(title, startSec, durSec);
            |t| > |title| && t[..|title|] == title && t[|title|] == '\n'
            && RangeField(t[|title| + 1..]) == Some((startSec - startSec % 60, startSec + durSec - (startSec + durSec) % 60))
  {
    RangeTextReadsBack(startSec, durSec);
    var line := RangeText(startSec, durSec);
    var t := title + "\n" + line;
    assert t[..|title|] == title && t[|title| + 1..] == line;
  }

  // -------------------------------------------------------------- geometry

  /** `round(v / 20, 2)` hours for a length `v` held in seconds of timeline: the nearest
      hundredth of an hour (36 s), an exact half going to the even hundredth. */
  function Round36(x: int): (r: int)
    ensures r % 36 == 0
    ensures -18 <= r - x <= 18
    ensures x % 36 == 0 ==> r == x
  {
    var q, rem := x / 36, x % 36;
    if rem < 18 || (rem == 18 && q % 2 == 0) then 36 * q else 36 * (q + 1)
  }

  /** Rounding never reverses the order of two lengths. */
  lemma Round36Monotone(a: int, b: int)
    requires a <= b
    ensures Round36(a) <= Round36(b)
  {
    if a / 36 < b / 36 {
      assert 36 * (a / 36 + 1) <= 36 * (b / 36);
    }
  }

  /** `update_geometry`: the scene position of a block, `x` on the time axis and `y` in pixels. */
  function ScenePos(base: Date, qdate: Date, track: int, startSec: int): (int, int) {
    (DaysTo(base, qdate) * DayWidth + Hour + startSec, track * TrackHeight)
  }

  /** `base_date.addDays(x // 500)`: the day column under `x`. */
  function DropDate(base: Date, x: int): Date {
    AddDays(base, x / DayWidth)
  }

  /** `round(max(0, x % 500 - 20) / 20, 2)`: the hour under `x` within its column. */
  function DropHour(x: int): (r: int)
    ensures 0 <= r <= SecPerDay && r % 36 == 0
  {
    var offset := Max(0, x % DayWidth - Hour);
    Round36Monotone(offset, SecPerDay);
    Round36Monotone(0, offset);
    Round36(offset)
  }

  /** `y // 100`: the track under `y`. */
  function DropTrack(y: int): int {
    y / TrackHeight
  }

  // ---------------------------------------------------------- the handlers

  /** The right edge dragged to `eventX` (in the block's own coordinates): the width is at
      least 20 px and the new right edge must stay in the scene; `None` when the drag is
      ignored, otherwise the new duration. */
  function ResizedRight(data: seq<Block>, qdate: Date, track: int, startSec: int, title: string,
                        posX: int, eventX: int, sceneWidth: int): (r: Option<int>)
    ensures r.Some? ==> r.value >= Hour && r.value % 36 == 0
    ensures r.Some? <==> posX + Max(Hour, eventX) <= sceneWidth
                         && !IsOverlap(data, qdate, track, startSec, Round36(Max(Hour, eventX)), title)
    ensures r.Some? ==> -18 <= r.value - Max(Hour, eventX) <= 18
  {
    var width := Max(Hour, eventX);
    Round36Monotone(Hour, width);
    if posX + width > sceneWidth then None
    else if IsOverlap(data, qdate, track, startSec, Round36(width), title) then None
    else Some(Round36(width))
  }

  /** The left edge dragged to `eventX`: the shift is at most the width less 20 px, the
      end stays where it was, the new duration is at least an hour and the new left edge
      stays in the scene; `None` when the drag is ignored, otherwise (start, duration). */
  function ResizedLeft(data: seq<Block>, qdate: Date, track: int, startSec: int, durSec: int,
                       title: string, posX: int, eventX: int): (r: Option<(int, int)>)
    ensures r.Some? ==> r.value.0 + r.value.1 == startSec + durSec
    ensures r.Some? ==> r.value.1 >= Hour && posX + (r.value.0 - startSec) >= 0
    ensures r.Some? ==> !IsOverlap(data, qdate, track, r.value.0, r.value.1, title)
    ensures r.None? <==>
              var shift := Round36(Min(eventX, durSec - Hour));
              durSec - shift < Hour || posX + shift < 0
              || IsOverlap(data, qdate, track, startSec + shift, durSec - shift, title)
  {
    var shift := Round36(Min(eventX, durSec - Hour));
    if durSec - shift < Hour then None
    else if posX + shift < 0 then None
    else if IsOverlap(data, qdate, track, startSec + shift, durSec - shift, title) then None
    else Some((startSec + shift, durSec - shift))
  }

  /** The block dropped at scene position (x, y): `None` when the drop is refused (left of
      the scene, right edge past it, a track outside the encoder list, an overlap),
      otherwise its new (date, start, track). */
  function Dropped(data: seq<Block>, base: Date, title: string, durSec: int,
                   x: int, y: int, sceneWidth: int, encoderCount: int): (r: Option<(Date, int, int)>)
    ensures r.Some? <==> 0 <= x && x + durSec <= sceneWidth && 0 <= DropTrack(y) < encoderCount
                         && !IsOverlap(data, DropDate(base, x), DropTrack(y), DropHour(x), durSec, title)
    ensures r.Some? ==> 0 <= r.value.1 <= SecPerDay && r.value.1 % 36 == 0 && 0 <= r.value.2 < encoderCount
    ensures r.Some? ==> r.value == (DropDate(base, x), DropHour(x), DropTrack(y))
  {
    var qdate, hour, track := DropDate(base, x), DropHour(x), DropTrack(y);
    if hour < 0 || x < 0 || x + durSec > sceneWidth || track < 0 || track >= encoderCount then None
    else if IsOverlap(data, qdate, track, hour, durSec, title) then None
    else Some((qdate, hour, track))
  }

  /** `block_data` after a drop: the first entry with the label takes the new date, track,
      start and duration; everything else stays. */
  function Moved(data: seq<Block>, title: string, qdate: Date, track: int, startSec: int, durSec: int): (r: seq<Block>)
    ensures |r| == |data|
    ensures forall j :: 0 <= j < |data| ==>
              r[j].title == data[j].title && r[j].encoderName == data[j].encoderName && r[j].id == data[j].id
    ensures forall j :: 0 <= j < |data| && j != FirstWithLabel(data, title) ==> r[j] == data[j]
    ensures FirstWithLabel(data, title) < |data| ==>
              var b := r[FirstWithLabel(data, title)];
              b.qdate == qdate && b.track == track && b.startSec == startSec && b.durSec == durSec
  {
    var i := FirstWithLabel(data, title);
    if i == |data| then data
    else data[i := data[i].(qdate := qdate, track := track, startSec := startSec, durSec := durSec)]
  }

  /** Only entries with the label can change, and none of the entries with another label
      on the new date and track intersects the dropped block. */
  lemma DropKeepsApart(data: seq<Block>, base: Date, title: string, durSec: int,
                       x: int, y: int, sceneWidth: int, encoderCount: int)
    requires Dropped(data, base, title, durSec, x, y, sceneWidth, encoderCount).Some?
    ensures var (qdate, startSec, track) := Dropped(data, base, title, durSec, x, y, sceneWidth, encoderCount).value;
            var r := Moved(data, title, qdate, track, startSec, durSec);
            forall j :: 0 <= j < |r| && r[j].title != title ==>
              r[j] == data[j] && !(r[j].qdate == qdate && r[j].track == track
                                   && Intersects(startSec, durSec, r[j].startSec, r[j].durSec))
  {
    var (qdate, startSec, track) := Dropped(data, base, title, durSec, x, y, sceneWidth, encoderCount).value;
    var r := Moved(data, title, qdate, track, startSec, durSec);
    forall j | 0 <= j < |r| && r[j].title != title
      ensures r[j] == data[j]
    {
      var i := FirstWithLabel(data, title);
      assert i < |data| ==> data[i].title == title;
    }
    if title == "" {
      assert forall j :: 0 <= j < |data| ==> !Clashes(data[j], qdate, track, startSec, durSec, title);
    }
  }

  /** Dropping a block where `update_geometry` put it gives back its own date, start and
      track, for a block on or after the first day shown whose start is a whole hundredth
      of an hour within its day. */
  lemma DropAtOwnPlace(base: Date, qdate: Date, track: int, startSec: int)
    requires base.Ymd? && qdate.Ymd? && DayNumber(base) <= DayNumber(qdate)
    requires 0 <= startSec < SecPerDay && startSec % 36 == 0 && track >= 0
    ensures var (x, y) := ScenePos(base, qdate, track, startSec);
            DayNumber(DropDate(base, x)) == DayNumber(qdate) && DropHour(x) == startSec && DropTrack(y) == track
  {
    var k: nat := DayNumber(qdate) - DayNumber(base);
    var (x, y) := ScenePos(base, qdate, track, startSec);
    assert x == k * DayWidth + (Hour + startSec);
    assert x / DayWidth == k && x % DayWidth == Hour + startSec;
    AddDaysNumber(base, k);
  }

  /** The left edge can be dragged past the start of the block's own day: the start then
      lies before midnight while the block keeps its date. */
  lemma LeftResizeBeforeMidnight(base: Date)
    requires base.Ymd?
    ensures var next := NextDay(base);
            var (x, _) := ScenePos(base, next, 0, 0);
            ResizedLeft([], next, 0, 0, 4 * Hour, "", x, -2 * Hour) == Some((-2 * Hour, 6 * Hour))
  {
    NextDayNumber(base);
    assert Round36(-2 * Hour) == -2 * Hour;
  }

  // ------------------------------------------------------------- the block

  class TimeBlock {
    /** `start_date`, `track_index`, `start_hour` (seconds), `duration_hours` (seconds), `label`. */
    var startDate: Date
    var track: int
    var startSec: int
    var durSec: int
    var title: string
    /** The status line the schedule check writes. */
    var status: string

    constructor(startDate0: Date, track0: int, startSec0: int, durSec0: int, title0: string)
      ensures startDate == startDate0 && track == track0 && startSec == startSec0
      ensures durSec == durSec0 && title == title0 && status == Waiting
    {
      startDate, track, startSec, durSec, title := startDate0, track0, startSec0, durSec0, title0;
      status := Waiting;
    }

    /** The text shown on the block. */
    function Label(): string
      reads this
    {
      FormatText(title, startSec, durSec)
    }

    /** `mouseMoveEvent` with the right handle held, the cursor at `eventX` in the block's
        own coordinates: only the duration can change. */
    method DragRight(eventX: int, sceneWidth: int, view: View)
      modifies this
      ensures var r := ResizedRight(view.blockData, startDate, track, startSec, title,
                                    ScenePos(view.baseDate, startDate, track, startSec).0, eventX, sceneWidth);
              durSec == (if r.Some? then r.value else old(durSec))
      ensures startDate == old(startDate) && track == old(track) && startSec == old(startSec)
      ensures title == old(title) && status == old(status)
    {
      var newWidth := Max(Hour, eventX);
      var (posX, _) := ScenePos(view.baseDate, startDate, track, startSec);
      if posX + newWidth > sceneWidth {
        return;
      }
      var newDuration := Round36(newWidth);
      if !IsOverlap(view.blockData, startDate, track, startSec, newDuration, title) {
        durSec := newDuration;
      }
    }

    /** `mouseMoveEvent` with the left handle held: start and duration change together. */
    method DragLeft(eventX: int, view: View)
      modifies this
      ensures var r := ResizedLeft(view.blockData, startDate, track, old(startSec), old(durSec), title,
                                   ScenePos(view.baseDate, startDate, track, old(startSec)).0, eventX);
              (startSec, durSec) == (if r.Some? then r.value else (old(startSec), old(durSec)))
      ensures startSec + durSec == old(startSec) + old(durSec)
      ensures startDate == old(startDate) && track == old(track) && title == old(title) && status == old(status)
    {
      var diff := Min(eventX, durSec - Hour);
      var shift := Round36(diff);
      var newStart := startSec + shift;
      var newDuration := durSec - shift;
      if newDuration >= Hour {
        var (posX, _) := ScenePos(view.baseDate, startDate, track, startSec);
        if posX + shift < 0 {
          return;
        }
        if !IsOverlap(view.blockData, startDate, track, newStart, newDuration, title) {
          startSec := newStart;
          durSec := newDuration;
        }
      }
    }

    /** `mouseReleaseEvent` after the block was dragged to scene position (x, y), with
        `encoderCount` tracks: a refused drop changes nothing; otherwise the block takes
        its new date, start and track, the first entry of `block_data` with its label
        follows, and the schedule is saved. */
    method Release(x: int, y: int, sceneWidth: int, encoderCount: int, view: View)
      modifies this, view
      ensures var r := Dropped(old(view.blockData), view.baseDate, title, durSec, x, y, sceneWidth, encoderCount);
              if r.None? then
                unchanged(this) && unchanged(view)
              else
                startDate == r.value.0 && startSec == r.value.1 && track == r.value.2
                && view.blockData == Moved(old(view.blockData), title, startDate, track, startSec, durSec)
                && view.file == (if view.canWrite then Some(SaveRecords(view.blockData)) else old(view.file))
                && view.blocks == old(view.blocks) && view.canWrite == old(view.canWrite)
      ensures durSec == old(durSec) && title == old(title) && status == old(status)
      ensures view.baseDate == old(view.baseDate)
    {
      var dayWidth := DayWidth;
      var hourPixel := Max(0, x % dayWidth - Hour);
      var newDate := AddDays(view.baseDate, x / dayWidth);
      var newHour := Round36(hourPixel);
      var newTrack := y / TrackHeight;
      if newHour < 0 || x < 0 || x + durSec > sceneWidth || newTrack < 0 || newTrack >= encoderCount {
        return;
      }
      if IsOverlap(view.blockData, newDate, newTrack, newHour, durSec, title) {
        return;
      }
      startDate := newDate;
      startSec := newHour;
      track := newTrack;

      var data := view.blockData;
      var i := 0;
      while i < |data| && data[i].title != title
        invariant 0 <= i <= |data|
        invariant forall j :: 0 <= j < i ==> data[j].title != title
      {
        i := i + 1;
      }
      assert i == FirstWithLabel(data, title);
      if i < |data| {
        view.blockData := data[i := data[i].(qdate := startDate, track := track, startSec := startSec, durSec := durSec)];
      }
      view.SaveSchedule();
    }
  }
}
