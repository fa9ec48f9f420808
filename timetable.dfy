/** `Timetable`: the single-window timetable, the program's earlier form. The encoder
    names come from the device's `List` answer; the week view keeps `block_data`, draws
    the entries dated inside the shown week, and saves and loads the schedule file; one
    row of controls per encoder starts and stops a recording by sending two commands. */
module Timetable {
  import opened Wrappers
  import opened Text
  import opened QtTime
  import opened ScheduleView
  import EncoderController

  // ------------------------------------------------------------- list_encoders

  /** The index of the first `c` in `s`, or |s| when there is none. */
  function FirstOf(s: string, c: char): (i: nat)
    ensures i <= |s|
    ensures i < |s| ==> s[i] == c
    ensures forall j :: 0 <= j < i ==> s[j] != c
  {
    if s == [] then 0 else if s[0] == c then 0 else 1 + FirstOf(s[1..], c)
  }

  /** `s.split(c)` starts with the text before the first `c`, and the pieces after it
      are those of the text that follows it. */
  lemma {:induction false} SplitHead(s: string, c: char)
    ensures SplitOn(s, c)[0] == s[..FirstOf(s, c)]
    ensures FirstOf(s, c) < |s| ==> SplitOn(s, c)[1..] == SplitOn(s[FirstOf(s, c) + 1..], c)
  {
    if s != [] && s[0] != c {
      var t := s[1..];
      SplitHead(t, c);
      assert FirstOf(s, c) == 1 + FirstOf(t, c);
      assert [s[0]] + t[..FirstOf(t, c)] == s[..FirstOf(s, c)];
      if FirstOf(s, c) < |s| {
        assert t[FirstOf(t, c) + 1..] == s[FirstOf(s, c) + 1..];
      }
    }
  }

  /** The text between the first and the second '"' of a line (up to the end of the
      line when there is only one). */
  function Between(line: string): (r: string)
    requires '"' in line
    ensures var i := FirstOf(line, '"');
            i < |line| && i + 1 + |r| <= |line| && r == line[i + 1..i + 1 + |r|]
            && (i + 1 + |r| == |line| || line[i + 1 + |r|] == '"')
    ensures '"' !in r
  {
    var i := FirstOf(line, '"');
    var t := line[i + 1..];
    var r := t[..FirstOf(t, '"')];
    assert r == line[i + 1..i + 1 + |r|];
    r
  }

  /** The loop of `list_encoders` over the lines: a line with a '"' contributes the
      second piece of its split on '"'; the `except` branch skips a line with fewer. */
  function NamesOf(lines: seq<string>): (r: seq<string>)
    ensures |r| <= |lines|
  {
    if lines == [] then []
    else
      var line := lines[0];
      var here := if '"' in line then
                    var parts := SplitOn(line, '"');
                    if |parts| >= 2 then [parts[1]] else []
                  else [];
      here + NamesOf(lines[1..])
  }

  /** `list_encoders` on the device's answer to `List` (or the error text in its place). */
  function ListEncoders(response: string): (r: seq<string>)
    ensures |r| <= CountChar(response, '\n') + 1
  {
    NamesOf(SplitOn(response, '\n'))
  }

  /** The lines that hold a '"', in order. */
  function Quoted(lines: seq<string>): (r: seq<string>)
    ensures forall k :: 0 <= k < |r| ==> '"' in r[k]
    ensures forall l :: l in r <==> l in lines && '"' in l
  {
    if lines == [] then []
    else (if '"' in lines[0] then [lines[0]] else []) + Quoted(lines[1..])
  }

  /** A line with a '"' splits into at least two pieces, and its second piece is the
      text between its first and second '"'. */
  lemma SecondPiece(line: string)
    requires '"' in line
    ensures |SplitOn(line, '"')| >= 2 && SplitOn(line, '"')[1] == Between(line)
  {
    var i := FirstOf(line, '"');
    var t := line[i + 1..];
    SplitHead(line, '"');
    SplitHead(t, '"');
    assert SplitOn(line, '"')[1..][0] == SplitOn(t, '"')[0];
  }

  /** The `except` branch never runs: one name per quoted line, in order, each the
      text between that line's first two quotes. */
  lemma {:induction false} NamesOfQuoted(lines: seq<string>)
    ensures |NamesOf(lines)| == |Quoted(lines)|
    ensures forall k :: 0 <= k < |Quoted(lines)| ==> NamesOf(lines)[k] == Between(Quoted(lines)[k])
  {
    if lines != [] {
      NamesOfQuoted(lines[1..]);
      if '"' in lines[0] {
        SecondPiece(lines[0]);
        assert NamesOf(lines) == [Between(lines[0])] + NamesOf(lines[1..]);
        assert Quoted(lines) == [lines[0]] + Quoted(lines[1..]);
      } else {
        assert NamesOf(lines) == NamesOf(lines[1..]);
        assert Quoted(lines) == Quoted(lines[1..]);
      }
    }
  }

  /** The encoder names: one per line of the answer that holds a '"', in order, each
      free of '"' and of line breaks. */
  lemma ListEncodersNames(response: string)
    ensures var q := Quoted(SplitOn(response, '\n'));
            var r := ListEncoders(response);
            |r| == |q| && forall k :: 0 <= k < |r| ==> r[k] == Between(q[k]) && '"' !in r[k] && '\n' !in r[k]
  {
    var lines := SplitOn(response, '\n');
    var q := Quoted(lines);
    NamesOfQuoted(lines);
    forall k | 0 <= k < |q|
      ensures '\n' !in Between(q[k])
    {
      assert q[k] in lines;
      var b := Between(q[k]);
      var i := FirstOf(q[k], '"');
      forall j | 0 <= j < |b|
        ensures b[j] != '\n'
      {
        assert b[j] == q[k][i + 1 + j];
      }
    }
  }

  // --------------------------------------------------------------- draw_blocks

  /** `draw_blocks`' range test here: the entry's date lies in `[base, base + 7)`. */
  predicate InWeek(b: Block, base: Date) {
    !Before(b.qdate, base) && Before(b.qdate, AddDays(base, Days))
  }

  /** The entries `draw_blocks` draws, in `block_data` order. */
  function Drawn(data: seq<Block>, base: Date): (r: seq<Block>)
    ensures |r| <= |data|
  {
    if data == [] then []
    else (if InWeek(data[0], base) then [data[0]] else []) + Drawn(data[1..], base)
  }

  lemma {:induction false} DrawnAppend(a: seq<Block>, b: seq<Block>, base: Date)
    ensures Drawn(a + b, base) == Drawn(a, base) + Drawn(b, base)
  {
    if a != [] {
      assert (a + b)[0] == a[0] && (a + b)[1..] == a[1..] + b;
      DrawnAppend(a[1..], b, base);
      var here := if InWeek(a[0], base) then [a[0]] else [];
      assert Drawn(a + b, base) == here + Drawn(a[1..] + b, base);
      assert Drawn(a, base) == here + Drawn(a[1..], base);
    } else {
      assert a + b == b;
    }
  }

  /** One more entry of the scan adds itself when it falls in the shown week. */
  lemma DrawnStep(all: seq<Block>, i: int, base: Date)
    requires 0 <= i < |all|
    ensures Drawn(all[..i + 1], base) == Drawn(all[..i], base) + (if InWeek(all[i], base) then [all[i]] else [])
  {
    DrawnAppend(all[..i], [all[i]], base);
    assert [all[i]][1..] == [];
    assert all[..i + 1] == all[..i] + [all[i]];
  }

  /** Exactly the entries dated inside the week are drawn. */
  lemma {:induction false} DrawnMembers(data: seq<Block>, base: Date)
    ensures forall b :: b in Drawn(data, base) <==> b in data && InWeek(b, base)
  {
    if data != [] {
      DrawnMembers(data[1..], base);
      assert data == [data[0]] + data[1..];
    }
  }

  /** This range test is stricter than the later view's (`ScheduleView.Visible`): every
      entry drawn here is drawn there too. */
  lemma InWeekVisible(b: Block, base: Date)
    requires b.qdate.Ymd? && base.Ymd? && b.startSec + b.durSec >= 0
    ensures InWeek(b, base) ==> Visible(b, base)
  {
    VisibleDays(b, base);
    AddDaysNumber(base, Days);
  }

  /** ... but an overnight entry of the day before the week, which runs into its first
      day, is drawn by the later view and not here. */
  lemma OvernightHidden(base: Date)
    requires base.Ymd? && PrevDay(base).Ymd?
    ensures var b := Block(PrevDay(base), 0, 22 * 3600, 4 * 3600, "", None, None);
            Visible(b, base) && !InWeek(b, base)
  {
    var b := Block(PrevDay(base), 0, 22 * 3600, 4 * 3600, "", None, None);
    PrevDayNumber(base);
    VisibleDays(b, base);
  }

  // -------------------------------------------------------------- the view

  /** The message of the `TypeError` that `TimeBlock(..., block_id=...)` raises: the
      timetable's own `TimeBlock` takes no `block_id`. */
  const NoBlockId: string := "TimeBlock.__init__() got an unexpected keyword argument 'block_id'"

  class View {
    /** `block_data`: every entry of the schedule, in insertion order. */
    var blockData: seq<Block>
    /** `blocks`: the entries drawn for the shown week. */
    var blocks: seq<Block>
    /** `base_date`: the first day shown. */
    var baseDate: Date
    /** The schedule file: `None` while it does not exist. */
    var file: Option<seq<Record>>
    /** Whether writing the schedule file succeeds; a failed write is reported and ignored. */
    var canWrite: bool

    /** The view starts on `today` and loads the schedule file if there is one, drawn as
        intended. */
    constructor(today: Date, file0: Option<seq<Record>>, canWrite0: bool)
      ensures baseDate == today && file == file0 && canWrite == canWrite0
      ensures blockData == (if file0.Some? then LoadRecords(file0.value) else [])
      ensures file0.Some? ==> blocks == Drawn(blockData, baseDate)
      ensures file0.None? ==> blocks == []
    {
      baseDate := today;
      file := file0;
      canWrite := canWrite0;
      blockData := [];
      blocks := [];
      new;
      LoadSchedule();
    }

    /** `draw_blocks` as written: the drawn list is emptied, and the first entry dated in
        the shown week reaches `TimeBlock(..., block_id=...)`, whose constructor here takes
        no `block_id`: the call raises `TypeError` and nothing is drawn. With no entry in the
        week the method returns, with nothing drawn. */
    method DrawBlocks() returns (r: Outcome<()>)
      modifies this
      ensures blocks == []
      ensures r == (if Drawn(blockData, baseDate) == [] then Returned(()) else Raised(NoBlockId))
      ensures blockData == old(blockData) && baseDate == old(baseDate)
      ensures file == old(file) && canWrite == old(canWrite)
    {
      blocks := [];
      var all, base := blockData, baseDate;
      var i := 0;
      while i < |all|
        invariant 0 <= i <= |all|
        invariant Drawn(all[..i], base) == []
        invariant blockData == all && baseDate == base && blocks == []
        invariant file == old(file) && canWrite == old(canWrite)
      {
        DrawnStep(all, i, base);
        if InWeek(all[i], base) {
          DrawnAppend(all[..i + 1], all[i + 1..], base);
          assert all[..i + 1] + all[i + 1..] == all;
          return Raised(NoBlockId);
        }
        i := i + 1;
      }
      assert all[..i] == all;
      return Returned(());
    }

    /** `draw_blocks` as intended: redraw the entries dated in the shown week. */
    method DrawBlocksIntended()
      modifies this
      ensures blocks == Drawn(blockData, baseDate)
      ensures blockData == old(blockData) && baseDate == old(baseDate)
      ensures file == old(file) && canWrite == old(canWrite)
    {
      var all, base := blockData, baseDate;
      var drawn: seq<Block> := [];
      var i := 0;
      while i < |all|
        invariant 0 <= i <= |all|
        invariant drawn == Drawn(all[..i], base)
        invariant blockData == all && baseDate == base && unchanged(this)
      {
        var data := all[i];
        DrawnStep(all, i, base);
        if InWeek(data, base) {
          drawn := drawn + [data];
        }
        i := i + 1;
      }
      assert all[..i] == all;
      blocks := drawn;
    }

    /** `is_overlap`: scan `block_data` and answer true at the first entry of the same
        date and track, not carrying the excluded label ("" excludes nothing), whose
        half-open interval meets the new one. */
    method IsOverlap(qdate: Date, track: int, startSec: int, durSec: int, exclude: string) returns (r: bool)
      ensures r == ScheduleView.IsOverlap(blockData, qdate, track, startSec, durSec, exclude)
      ensures r <==> exists i :: 0 <= i < |blockData| && Clashes(blockData[i], qdate, track, startSec, durSec, exclude)
    {
      var i := 0;
      while i < |blockData|
        invariant 0 <= i <= |blockData|
        invariant forall j :: 0 <= j < i ==> !Clashes(blockData[j], qdate, track, startSec, durSec, exclude)
      {
        var b := blockData[i];
        if b.qdate == qdate && b.track == track && !(exclude != "" && b.title == exclude) {
          var existEnd := b.startSec + b.durSec;
          var newEnd := startSec + durSec;
          if !(newEnd <= b.startSec || startSec >= existEnd) {
            assert Clashes(blockData[i], qdate, track, startSec, durSec, exclude);
            return true;
          }
        }
        i := i + 1;
      }
      return false;
    }

    /** `add_time_block` (defaults: four hours, label "節目"): append one entry with
        exactly the given fields, with no overlap check and no save, and redraw as
        intended. */
    method AddTimeBlock(qdate: Date, track: int, startSec: int, durSec: int, title: string)
      modifies this
      ensures blockData == old(blockData) + [Block(qdate, track, startSec, durSec, title, None, None)]
      ensures blocks == Drawn(blockData, baseDate)
      ensures baseDate == old(baseDate) && file == old(file) && canWrite == old(canWrite)
    {
      blockData := blockData + [Block(qdate, track, startSec, durSec, title, None, None)];
      DrawBlocksIntended();
    }

    /** `set_start_date`: show the week starting on `qdate` (the grid redraw redraws
        the entries too, here as intended). */
    method SetStartDate(qdate: Date)
      modifies this
      ensures baseDate == qdate && blocks == Drawn(blockData, qdate)
      ensures blockData == old(blockData) && file == old(file) && canWrite == old(canWrite)
    {
      baseDate := qdate;
      DrawBlocksIntended();
    }

    /** `save_schedule`: write every entry's date as `yyyy-MM-dd` and its four other
        fields; a failed write changes nothing. */
    method SaveSchedule()
      modifies this
      ensures file == (if canWrite then Some(SaveRecords(blockData)) else old(file))
      ensures blockData == old(blockData) && blocks == old(blocks) && baseDate == old(baseDate)
      ensures canWrite == old(canWrite)
    {
      if canWrite {
        file := Some(SaveRecords(blockData));
      }
    }

    /** `load_schedule`: replace the entries by the file's five fields each and redraw as
        intended; a missing file leaves everything as it was. */
    method LoadSchedule()
      modifies this
      ensures old(file).None? ==> blockData == old(blockData) && blocks == old(blocks)
      ensures old(file).Some? ==> blockData == LoadRecords(old(file).value) && blocks == Drawn(blockData, baseDate)
      ensures file == old(file) && baseDate == old(baseDate) && canWrite == old(canWrite)
    {
      if file.Some? {
        blockData := LoadRecords(file.value);
        DrawBlocksIntended();
      }
    }
  }

  /** A save followed by a load gives back every entry's five fields (for dates the
      file can spell). */
  lemma SaveThenLoad(data: seq<Block>)
    requires FileDates(data)
    ensures var back := LoadRecords(SaveRecords(data));
            |back| == |data|
            && forall k :: 0 <= k < |data| ==>
                 back[k].qdate == data[k].qdate && back[k].track == data[k].track
                 && back[k].startSec == data[k].startSec && back[k].durSec == data[k].durSec
                 && back[k].title == data[k].title
  {
    SaveLoadRoundTrip(data);
  }

  // ------------------------------------------------------- the encoder rows

  const Waiting: string := "等待中"
  const BlankName: string := "⚠️ 檔名空白"
  const Recording: string := "✅ 錄影中"
  const StartFailed: string := "❌ 錯誤"
  const Stopped: string := "⏹ 已停止"
  const StopFailed: string := "❌ 停止失敗"

  /** `Setfile "<encoder>" 1 <path>`: here the path is sent without quotes. */
  function SetfileCommand(encoder: string, today: Date, filename: string): string {
    "Setfile \"" + encoder + "\" 1 " + EncoderController.FileInFolder(today, filename)
  }

  /** The status after both answers of a start: recording iff both contain "OK". */
  function StartStatus(res1: string, res2: string): (s: string)
    ensures s == Recording <==> Contains(res1, "OK") && Contains(res2, "OK")
    ensures s != Recording ==> s == StartFailed
  {
    if Contains(res1, "OK") && Contains(res2, "OK") then Recording else StartFailed
  }

  /** The status after the answer to `Stop`: stopped iff it contains "OK". */
  function StopStatus(res: string): (s: string)
    ensures s == Stopped <==> Contains(res, "OK")
    ensures s != Stopped ==> s == StopFailed
  {
    if Contains(res, "OK") then Stopped else StopFailed
  }

  /** The main window: one row per listed encoder (its status text is kept here by
      name) and the week view. */
  /** The message of the `AttributeError` that `datetime.today()` raises when `datetime`
      is the module. */
  const NoToday: string := "module 'datetime' has no attribute 'today'"

  class Window {
    const view: View
    /** The encoder names listed at start-up. */
    const names: seq<string>
    /** Each row's status text. */
    var status: map<string, string>

    /** `__init__`: list the encoders from the device's answer, give each row the
        waiting status, and open the view on `today`. */
    constructor(listAnswer: string, today: Date, file0: Option<seq<Record>>, canWrite0: bool)
      ensures names == ListEncoders(listAnswer)
      ensures status == map n | n in names :: Waiting
      ensures fresh(view) && view.baseDate == today && view.file == file0 && view.canWrite == canWrite0
      ensures view.blockData == (if file0.Some? then LoadRecords(file0.value) else [])
    {
      names := ListEncoders(listAnswer);
      status := map n | n in ListEncoders(listAnswer) :: Waiting;
      view := new View(today, file0, canWrite0);
    }

    /** `add_new_block`: when the name dialog is confirmed with a non-empty name, add a
        four-hour entry at 09:00 on track 1 of the day after the first day shown. */
    method AddNewBlock(text: string, ok: bool)
      modifies view
      ensures ok && text != "" ==>
                view.blockData == old(view.blockData) + [Block(AddDays(old(view.baseDate), 1), 1, 9 * 3600, 4 * 3600, text, None, None)]
                && view.blocks == Drawn(view.blockData, view.baseDate)
      ensures !(ok && text != "") ==> view.blockData == old(view.blockData) && view.blocks == old(view.blocks)
      ensures view.baseDate == old(view.baseDate) && view.file == old(view.file) && view.canWrite == old(view.canWrite)
    {
      if ok && text != "" {
        view.AddTimeBlock(AddDays(view.baseDate, 1), 1, 9 * 3600, 4 * 3600, text);
      }
    }

    /** `encoder_start` as written, for the row of `encoder` whose file-name field holds
        `entryText`. A blank name shows the blank-name warning. Any other name reaches
        `datetime.today()`, but the module imports `datetime` as a module, which has no
        `today`: the slot raises `AttributeError` before sending anything and before the
        row's text changes. */
    method EncoderStart(encoder: string, entryText: string) returns (sent: seq<string>, r: Outcome<()>)
      modifies this
      ensures sent == []
      ensures Strip(entryText) == "" ==> r == Returned(()) && status == old(status)[encoder := BlankName]
      ensures Strip(entryText) != "" ==> r == Raised(NoToday) && status == old(status)
    {
      var filename := Strip(entryText);
      sent := [];
      if filename == "" {
        status := status[encoder := BlankName];
        return sent, Returned(());
      }
      r := Raised(NoToday);
    }

    /** `encoder_start` as intended, with today's date `today`, and `device` answering
        each command (its error text in place of an answer when the connection fails):
        a blank name sends nothing; otherwise the `Setfile` and `Start` commands both go
        out, and the row reports recording iff both answers contain "OK". */
    method EncoderStartIntended(encoder: string, entryText: string, today: Date, device: string -> string)
        returns (sent: seq<string>)
      modifies this
      ensures var f := Strip(entryText);
              (f == "" <==> sent == [])
              && (f != "" ==> sent == [SetfileCommand(encoder, today, f), EncoderController.StartCommand(encoder)])
              && status == old(status)[encoder := if f == "" then BlankName else StartStatus(device(sent[0]), device(sent[1]))]
    {
      var filename := Strip(entryText);
      sent := StartWithIntended(encoder, filename, today, device);
    }

    /** `encoder_start` as intended, once the file name is stripped. */
    method StartWithIntended(encoder: string, filename: string, today: Date, device: string -> string)
        returns (sent: seq<string>)
      modifies this
      ensures (filename == "" <==> sent == [])
      ensures filename != "" ==> sent == [SetfileCommand(encoder, today, filename), EncoderController.StartCommand(encoder)]
      ensures status == old(status)[encoder := if filename == "" then BlankName else StartStatus(device(sent[0]), device(sent[1]))]
    {
      if filename == "" {
        status := status[encoder := BlankName];
        return [];
      }
      var setfile := SetfileCommand(encoder, today, filename);
      var start := EncoderController.StartCommand(encoder);
      var res1 := device(setfile);
      var res2 := device(start);
      status := status[encoder := StartStatus(res1, res2)];
      sent := [setfile, start];
    }

    /** `encoder_stop`: send `Stop` and report stopped iff the answer contains "OK". */
    method EncoderStop(encoder: string, device: string -> string) returns (sent: string)
      modifies this
      ensures sent == EncoderController.StopCommand(encoder)
      ensures status == old(status)[encoder := StopStatus(device(sent))]
    {
      sent := EncoderController.StopCommand(encoder);
      var res := device(sent);
      status := status[encoder := StopStatus(res)];
    }
  }
}
