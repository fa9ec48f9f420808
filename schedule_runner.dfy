/** `ScheduleRunner`: the older once-a-second check that classifies every entry of the
    schedule as recording, ended or waiting, starts and stops encoders over one-shot
    connections, and shows a countdown on the entry's block. */
module ScheduleRunner {
  import opened Wrappers
  import opened Text
  import opened QtTime
  import opened ScheduleView
  import opened EncoderUtils
  import opened EncoderController

  // ------------------------------------------------------------- clock texts

  /** `format_remaining_time`: `HH:MM:SS` of a number of seconds, with Python's floor
      division and remainder; the hour field grows past two digits when it must. */
  function FormatRemainingTime(seconds: int): string {
    Format02(seconds / 3600) + ":" + Format02((seconds % 3600) / 60) + ":" + Format02(seconds % 60)
  }

  /** Reading an `H...H:MM:SS` text back as seconds; `None` when the text has another shape. */
  function ClockValue(t: string): Option<int> {
    var n := |t|;
    if n >= 7 && t[n - 3] == ':' && t[n - 6] == ':'
       && AllDigits(t[..n - 6]) && AllDigits(t[n - 5..n - 3]) && AllDigits(t[n - 2..])
    then Some(3600 * DigitsValue(t[..n - 6]) + 60 * DigitsValue(t[n - 5..n - 3]) + DigitsValue(t[n - 2..]))
    else None
  }

  /** For a non-negative number of seconds the text has two-digit minute and second
      fields and reads back as the same number: 3600 h + 60 m + s = seconds. */
  lemma RemainingRoundTrip(seconds: int)
    requires seconds >= 0
    ensures ClockValue(FormatRemainingTime(seconds)) == Some(seconds)
  {
    var h, m, s := seconds / 3600, (seconds % 3600) / 60, seconds % 60;
    ClockFields(seconds);
    FieldsReadBack(h, m, s, seconds);
  }

  /** Hours, minutes and seconds printed as `H...H:MM:SS` read back as their total. */
  lemma FieldsReadBack(h: int, m: int, s: int, total: int)
    requires h >= 0 && 0 <= m < 60 && 0 <= s < 60 && total == 3600 * h + 60 * m + s
    ensures ClockValue(Format02(h) + ":" + Format02(m) + ":" + Format02(s)) == Some(total)
  {
    ClockShape(Format02(h), Format02(m), Format02(s));
  }

  /** The three fields of the clock text are the hours, minutes and seconds in it. */
  lemma ClockFields(seconds: int)
    requires seconds >= 0
    ensures 0 <= (seconds % 3600) / 60 < 60 && 0 <= seconds % 60 < 60
    ensures 3600 * (seconds / 3600) + 60 * ((seconds % 3600) / 60) + seconds % 60 == seconds
  {
    var q, r := seconds / 3600, seconds % 3600;
    var m, s := r / 60, r % 60;
    assert seconds == 60 * (60 * q + m) + s;
    Mod60(seconds, 60 * q + m, s);
  }

  lemma Mod60(x: int, a: int, u: int)
    requires x == 60 * a + u && 0 <= u < 60
    ensures x % 60 == u
  {
  }

  /** Where the fields of `hs:ms:ss` sit when the last two have two characters. */
  lemma ClockShape(hs: string, ms: string, ss: string)
    requires |hs| >= 2 && AllDigits(hs) && |ms| == 2 && AllDigits(ms) && |ss| == 2 && AllDigits(ss)
    ensures var t := hs + ":" + ms + ":" + ss;
            var n := |t|;
            n >= 7 && t[n - 3] == ':' && t[n - 6] == ':'
            && t[..n - 6] == hs && t[n - 5..n - 3] == ms && t[n - 2..] == ss
  {
    var t := hs + ":" + ms + ":" + ss;
    var n := |t|;
    assert t[..n - 6] == hs;
    assert t[n - 5..n - 3] == ms;
    assert t[n - 2..] == ss;
  }

  /** The hour and minute `check_schedule` takes from a start held in seconds:
      `h = int(start_hour)` and `m = int((start_hour - h) * 60)`, both truncating. */
  function RunnerClock(sec: int): (int, int) {
    var h := TruncDiv(sec, 3600);
    (h, TruncDiv(sec - 3600 * h, 60))
  }

  /** For starts at or after midnight this is the clock every other module uses. */
  lemma RunnerClockAgrees(sec: int)
    requires sec >= 0
    ensures RunnerClock(sec) == ClockOf(sec)
  {
    assert sec - 3600 * (sec / 3600) == sec % 3600;
  }

  /** `f"{h:02d}:{m:02d}"`. */
  function HourMinuteText(h: int, m: int): string {
    Format02(h) + ":" + Format02(m)
  }

  // --------------------------------------------------------- one entry

  /** `start_dt`: the entry's date at the truncated clock (midnight when the clock is not a
      valid time), in milliseconds. */
  function StartMs(b: Block): int {
    var (h, m) := RunnerClock(b.startSec);
    DateTimeAt(b.qdate, h, m)
  }

  /** `end_dt = start_dt.addSecs(int(duration * 3600))`. */
  function EndMs(b: Block): int {
    StartMs(b) + b.durSec * 1000
  }

  /** `toSecsSinceEpoch()`: whole seconds, truncated toward zero. */
  function EpochSecs(ms: int): int {
    TruncDiv(ms, 1000)
  }

  /** The branch of `check_schedule` an entry takes; `Idle` when none applies. */
  datatype Phase = Recording | Ended | Waiting | Idle

  function PhaseOf(b: Block, nowMs: int, stopped: set<string>): Phase {
    if StartMs(b) <= nowMs < EndMs(b) then Recording
    else if nowMs >= EndMs(b) && b.title !in stopped then Ended
    else if nowMs < StartMs(b) then Waiting
    else Idle
  }

  /** For an entry of non-negative duration exactly one case applies: recording while
      start <= now < end, ended once now >= end unless already stopped, waiting before
      the start, and nothing for an ended entry already stopped. */
  lemma PhaseCases(b: Block, nowMs: int, stopped: set<string>)
    requires b.durSec >= 0
    ensures PhaseOf(b, nowMs, stopped) == Recording <==> StartMs(b) <= nowMs < EndMs(b)
    ensures PhaseOf(b, nowMs, stopped) == Ended <==> nowMs >= EndMs(b) && b.title !in stopped
    ensures PhaseOf(b, nowMs, stopped) == Waiting <==> nowMs < StartMs(b)
    ensures PhaseOf(b, nowMs, stopped) == Idle <==> nowMs >= EndMs(b) && b.title in stopped
  {
  }

  /** What a block shows: the time left of a recording, that it has ended, or the start
      time and the countdown of a waiting entry. */
  datatype Shown = Remaining(secs: int) | Finished | Countdown(h: int, m: int, secs: int)

  /** The text of `block.status`. */
  function ShownText(st: Shown): string {
    match st
    case Remaining(secs) => "錄影中\n剩餘 " + FormatRemainingTime(secs)
    case Finished => "⏹ 已結束"
    case Countdown(h, m, secs) => "等待中\n啟動於 " + HourMinuteText(h, m) + "\n倒數 " + FormatRemainingTime(secs)
  }

  /** The status written on the entry's block, if any. */
  function TileStatus(b: Block, nowMs: int, stopped: set<string>): Option<Shown> {
    match PhaseOf(b, nowMs, stopped)
    case Recording => Some(Remaining(EpochSecs(EndMs(b)) - EpochSecs(nowMs)))
    case Ended => Some(Finished)
    case Waiting =>
      var (h, m) := RunnerClock(b.startSec);
      Some(Countdown(h, m, EpochSecs(StartMs(b)) - EpochSecs(nowMs)))
    case Idle => None
  }

  /** The countdowns shown are never negative, so they read back as the seconds left
      (see `RemainingRoundTrip`). */
  lemma ShownSecondsNonNegative(b: Block, nowMs: int, stopped: set<string>)
    ensures match TileStatus(b, nowMs, stopped)
            case Some(Remaining(secs)) => secs >= 0
            case Some(Countdown(_, _, secs)) => secs >= 0
            case _ => true
  {
  }

  /** `encoder_names[track_index]` with Python's indexing: a negative index counts from
      the end; anything else raises `IndexError`. */
  function EncoderAt(names: seq<string>, track: int): (r: Option<string>)
    ensures r.Some? <==> -|names| <= track < |names|
    ensures 0 <= track < |names| ==> r == Some(names[track])
  {
    if 0 <= track < |names| then Some(names[track])
    else if -|names| <= track < 0 then Some(names[|names| + track])
    else None
  }

  const IndexErrorText: string := "list index out of range"
  /** `setText` on the `None` that `encoder_status.get` gives for an encoder without a label. */
  const NoLabelText: string := "'NoneType' object has no attribute 'setText'"

  /** The texts and colours the runner puts on an encoder's status label. */
  const StartFailedText: string := "❌ 錯誤"
  const StopFailedText: string := "❌ 停止失敗"
  const StoppedText: string := "⏹ 已停止"
  const RecordingText: string := "✅ 錄影中"

  /** The runner's `Setfile`: the path follows the channel without quotes. */
  function RunnerSetfile(encoder: string, path: string): string {
    "Setfile \"" + encoder + "\" 1 " + path
  }

  /** A block on screen: its label and the status it shows, once the runner has set one. */
  datatype Tile = Tile(title: string, status: Option<Shown>)

  /** The text and colour of a status label. */
  datatype Label = Label(text: string, color: string)

  /** Index of the first block with the label, if any. */
  function FirstTile(tiles: seq<Tile>, title: string): (r: Option<nat>)
    ensures r.Some? ==> r.value < |tiles| && tiles[r.value].title == title
                        && forall j :: 0 <= j < r.value ==> tiles[j].title != title
    ensures r.None? ==> forall j :: 0 <= j < |tiles| ==> tiles[j].title != title
  {
    if tiles == [] then None
    else if tiles[0].title == title then Some(0)
    else
      var r := FirstTile(tiles[1..], title);
      if r.None? then None else Some(r.value + 1)
  }

  /** The blocks after the first one with the label shows the status, when there is one. */
  function WithStatus(tiles: seq<Tile>, title: string, st: Option<Shown>): seq<Tile> {
    var i := FirstTile(tiles, title);
    if i.None? || st.None? then tiles else tiles[i.value := Tile(title, st)]
  }

  /** Writing a status keeps every block's label. */
  lemma WithStatusKeepsTitles(tiles: seq<Tile>, title: string, st: Option<Shown>)
    ensures |WithStatus(tiles, title, st)| == |tiles|
    ensures forall j :: 0 <= j < |tiles| ==> WithStatus(tiles, title, st)[j].title == tiles[j].title
  {
  }

  /** Setting a label's text: an update of the encoder's entry, or `AttributeError` when
      the encoder has no label. */
  predicate LabelSet(labels0: map<string, Label>, labels1: map<string, Label>, name: string,
                     shown: Label, r: Outcome<()>)
  {
    if name in labels0 then r == Returned(()) && labels1 == labels0[name := shown]
    else r == Raised(NoLabelText) && labels1 == labels0
  }

  // ------------------------------------------------------------ the runner

  class Runner {
    /** `schedule_data`, `encoder_names`. */
    const schedule: seq<Block>
    const encoderNames: seq<string>
    /** `encoder_status`: the status label of each encoder that has one. */
    var labels: map<string, Label>
    /** `blocks`: the blocks on screen. */
    var tiles: seq<Tile>
    var alreadyStarted: set<string>
    var alreadyStopped: set<string>
    /** The labels `start_encoder` and `stop_encoder` were called for, in order. */
    ghost var startCalls: seq<string>
    ghost var stopCalls: seq<string>

    constructor(schedule0: seq<Block>, names: seq<string>, labels0: map<string, Label>, tiles0: seq<Tile>)
      ensures schedule == schedule0 && encoderNames == names && labels == labels0 && tiles == tiles0
      ensures alreadyStarted == {} && alreadyStopped == {} && startCalls == [] && stopCalls == []
    {
      schedule, encoderNames := schedule0, names;
      labels, tiles := labels0, tiles0;
      alreadyStarted, alreadyStopped := {}, {};
      startCalls, stopCalls := [], [];
    }

    /** `find_block_by_label`: the first block with the label. */
    method FindBlockByLabel(title: string) returns (r: Option<nat>)
      ensures r == FirstTile(tiles, title)
    {
      var i := 0;
      while i < |tiles|
        invariant 0 <= i <= |tiles|
        invariant forall j :: 0 <= j < i ==> tiles[j].title != title
      {
        if tiles[i].title == title {
          return Some(i);
        }
        i := i + 1;
      }
      return None;
    }

    /** `start_encoder(encoder, label, status_label)`: over a fresh connection send the
        runner's `Setfile` (path `MM.dd.yyyy\MMdd_<label>`) and `Start`, close, and show
        "✅ 錄影中" when both answers contain "OK", "❌ 錯誤" otherwise. No connection
        shows "❌ 無法連線" and sends nothing. A lost connection propagates, and an
        encoder without a label raises `AttributeError` where the label is set. */
    method StartEncoder(link: Link, encoder: string, filename: string, today: Date) returns (r: Outcome<()>)
      modifies this, link
      ensures var plan := old(link.exchanges);
              var s := old(link.nextSock);
              if old(link.connects) == [] || !old(link.connects)[0] then
                link.writes == old(link.writes)
                && LabelSet(old(labels), labels, encoder, Label(NoConnection, "red"), r)
              else
                (ReplyAt(plan, 0).ConnectionLost? || ReplyAt(plan, 1).ConnectionLost? ==>
                   r == Raised(if ReplyAt(plan, 0).ConnectionLost? then ReplyAt(plan, 0).error
                               else ReplyAt(plan, 1).error)
                   && labels == old(labels))
                && (ReplyAt(plan, 0).Answer? && ReplyAt(plan, 1).Answer? ==>
                      link.writes == old(link.writes)
                                     + [(s, RunnerSetfile(encoder, FileInFolder(today, filename)) + "\r\n"),
                                        (s, StartCommand(encoder) + "\r\n")]
                      && link.closed == old(link.closed) + {s}
                      && LabelSet(old(labels), labels, encoder,
                                  if HasOk(ReplyAt(plan, 0)) && HasOk(ReplyAt(plan, 1))
                                  then Label(RecordingText, "green") else Label(StartFailedText, "red"), r))
      ensures tiles == old(tiles) && alreadyStarted == old(alreadyStarted) && alreadyStopped == old(alreadyStopped)
      ensures startCalls == old(startCalls) && stopCalls == old(stopCalls)
    {
      var rel := FileInFolder(today, filename);
      var sock := link.ConnectSocket();
      if sock.None? {
        r := SetLabel(encoder, Label(NoConnection, "red"));
        return;
      }
      var res1 := link.SendCommand(sock, RunnerSetfile(encoder, rel));
      if res1.ConnectionLost? {
        return Raised(res1.error);
      }
      var res2 := link.SendCommand(sock, StartCommand(encoder));
      if res2.ConnectionLost? {
        return Raised(res2.error);
      }
      link.Close(sock.value);
      if Contains(res1.text, "OK") && Contains(res2.text, "OK") {
        r := SetLabel(encoder, Label(RecordingText, "green"));
      } else {
        r := SetLabel(encoder, Label(StartFailedText, "red"));
      }
    }

    /** `stop_encoder(encoder, status_label)`: send `Stop` over a fresh connection, close,
        and show "⏹ 已停止" when the answer contains "OK", "❌ 停止失敗" otherwise or when
        there is no connection. */
    method StopEncoder(link: Link, encoder: string) returns (r: Outcome<()>)
      modifies this, link
      ensures var a := ReplyAt(old(link.exchanges), 0);
              var s := old(link.nextSock);
              if old(link.connects) == [] || !old(link.connects)[0] then
                link.writes == old(link.writes)
                && LabelSet(old(labels), labels, encoder, Label(StopFailedText, "red"), r)
              else
                (a.ConnectionLost? ==> r == Raised(a.error) && labels == old(labels))
                && (a.Answer? ==>
                      link.writes == old(link.writes) + [(s, StopCommand(encoder) + "\r\n")]
                      && link.closed == old(link.closed) + {s}
                      && LabelSet(old(labels), labels, encoder,
                                  if HasOk(a) then Label(StoppedText, "gray") else Label(StopFailedText, "red"), r))
      ensures tiles == old(tiles) && alreadyStarted == old(alreadyStarted) && alreadyStopped == old(alreadyStopped)
      ensures startCalls == old(startCalls) && stopCalls == old(stopCalls)
    {
      var sock := link.ConnectSocket();
      if sock.None? {
        r := SetLabel(encoder, Label(StopFailedText, "red"));
        return;
      }
      var res := link.SendCommand(sock, StopCommand(encoder));
      if res.ConnectionLost? {
        return Raised(res.error);
      }
      link.Close(sock.value);
      if Contains(res.text, "OK") {
        r := SetLabel(encoder, Label(StoppedText, "gray"));
      } else {
        r := SetLabel(encoder, Label(StopFailedText, "red"));
      }
    }

    /** `status_label.setText(...)` and `setStyleSheet(...)` on the encoder's label. */
    method SetLabel(encoder: string, shown: Label) returns (r: Outcome<()>)
      modifies this
      ensures LabelSet(old(labels), labels, encoder, shown, r)
      ensures tiles == old(tiles) && alreadyStarted == old(alreadyStarted) && alreadyStopped == old(alreadyStopped)
      ensures startCalls == old(startCalls) && stopCalls == old(stopCalls)
    {
      if encoder in labels {
        labels := labels[encoder := shown];
        r := Returned(());
      } else {
        r := Raised(NoLabelText);
      }
    }

    /** The status written on entry `b`'s block by `check_schedule`: the first block with the
        entry's label shows the remaining time, the end, or the countdown, and the others are
        untouched. */
    method ShowStatus(b: Block, nowMs: int)
      modifies this
      ensures tiles == WithStatus(old(tiles), b.title, TileStatus(b, nowMs, alreadyStopped))
      ensures labels == old(labels) && alreadyStarted == old(alreadyStarted) && alreadyStopped == old(alreadyStopped)
      ensures startCalls == old(startCalls) && stopCalls == old(stopCalls)
    {
      var st := TileStatus(b, nowMs, alreadyStopped);
      var tile := FindBlockByLabel(b.title);
      if tile.Some? && st.Some? {
        tiles := tiles[tile.value := Tile(b.title, st)];
      }
    }

    /** One pass of the loop of `check_schedule` for entry `b`: look up the encoder (an
        invalid track raises `IndexError` before anything else), write the block's status
        (`ShowStatus`), then start a recording entry not yet started, or stop an ended entry
        not yet stopped, marking its label once the call has returned. */
    method CheckEntry(link: Link, b: Block, nowMs: int, today: Date) returns (r: Outcome<()>)
      modifies this, link
      ensures EncoderAt(encoderNames, b.track).None? ==>
                r == Raised(IndexErrorText) && unchanged(this) && unchanged(link)
      ensures MarkStep(old(startCalls), startCalls, old(alreadyStarted), alreadyStarted, b.title,
                       EncoderAt(encoderNames, b.track).Some? && StartMs(b) <= nowMs < EndMs(b), r.Returned?)
      ensures MarkStep(old(stopCalls), stopCalls, old(alreadyStopped), alreadyStopped, b.title,
                       EncoderAt(encoderNames, b.track).Some? && nowMs >= EndMs(b), r.Returned?)
      ensures startCalls == old(startCalls) && stopCalls == old(stopCalls) ==>
                r == Returned(()) || r == Raised(IndexErrorText)
      ensures startCalls == old(startCalls) && stopCalls == old(stopCalls) ==>
                labels == old(labels) && unchanged(link)
    {
      var encoder := EncoderAt(encoderNames, b.track);
      if encoder.None? {
        return Raised(IndexErrorText);
      }
      var name := encoder.value;
      var recording, ended := StartMs(b) <= nowMs < EndMs(b), nowMs >= EndMs(b);
      ShowStatus(b, nowMs);
      r := Returned(());
      if recording && b.title !in alreadyStarted {
        startCalls := startCalls + [b.title];
        r := StartEncoder(link, name, b.title, today);
        if r.Returned? {
          alreadyStarted := alreadyStarted + {b.title};
        }
      } else if ended && b.title !in alreadyStopped {
        stopCalls := stopCalls + [b.title];
        r := StopEncoder(link, name);
        if r.Returned? {
          alreadyStopped := alreadyStopped + {b.title};
        }
      }
    }

    /** One pass of the loop of `check_schedule`, at entry `i`: the bookkeeping of the
        loop holds after it, up to entry `i` included, unless the entry raised; then the
        marks made so far stay within the qualifying labels. */
    method CheckStep(link: Link, i: int, nowMs: int, today: Date, ghost started0: set<string>,
                     ghost stopped0: set<string>, ghost starts0: seq<string>, ghost stops0: seq<string>)
      returns (r: Outcome<()>)
      requires 0 <= i < |schedule|
      requires alreadyStarted == started0 + RecordingTitles(schedule[..i], nowMs)
      requires alreadyStopped == stopped0 + EndedTitles(schedule[..i], nowMs)
      requires Marked(starts0, startCalls, started0, alreadyStarted)
      requires Marked(stops0, stopCalls, stopped0, alreadyStopped)
      modifies this, link
      ensures started0 <= alreadyStarted <= started0 + RecordingTitles(schedule, nowMs)
      ensures stopped0 <= alreadyStopped <= stopped0 + EndedTitles(schedule, nowMs)
      ensures FreshCalls(starts0, startCalls, started0) && FreshCalls(stops0, stopCalls, stopped0)
      ensures r.Returned? ==> alreadyStarted == started0 + RecordingTitles(schedule[..i + 1], nowMs)
      ensures r.Returned? ==> alreadyStopped == stopped0 + EndedTitles(schedule[..i + 1], nowMs)
      ensures r.Returned? ==> Marked(starts0, startCalls, started0, alreadyStarted)
      ensures r.Returned? ==> Marked(stops0, stopCalls, stopped0, alreadyStopped)
    {
      var b := schedule[i];
      ghost var started1, stopped1, starts1, stops1 := alreadyStarted, alreadyStopped, startCalls, stopCalls;
      TitlesStep(schedule, i, nowMs);
      PrefixTitles(schedule, i + 1, nowMs);
      r := CheckEntry(link, b, nowMs, today);
      Advance(starts0, starts1, startCalls, started0, started1, alreadyStarted,
              RecordingTitles(schedule[..i], nowMs), RecordingTitles(schedule[..i + 1], nowMs),
              RecordingTitles(schedule, nowMs), b.title,
              EncoderAt(encoderNames, b.track).Some? && StartMs(b) <= nowMs < EndMs(b), r.Returned?);
      Advance(stops0, stops1, stopCalls, stopped0, stopped1, alreadyStopped,
              EndedTitles(schedule[..i], nowMs), EndedTitles(schedule[..i + 1], nowMs),
              EndedTitles(schedule, nowMs), b.title,
              EncoderAt(encoderNames, b.track).Some? && nowMs >= EndMs(b), r.Returned?);
    }

    /** `check_schedule` at instant `nowMs` (on day `today`): every entry in turn, until one
        raises. The labels marked started are exactly those of recording entries; those
        marked stopped exactly those of ended entries; no label is started or stopped twice,
        and none that was already marked. */
    method CheckSchedule(link: Link, nowMs: int, today: Date) returns (r: Outcome<()>)
      modifies this, link
      ensures old(alreadyStarted) <= alreadyStarted <= old(alreadyStarted) + RecordingTitles(schedule, nowMs)
      ensures old(alreadyStopped) <= alreadyStopped <= old(alreadyStopped) + EndedTitles(schedule, nowMs)
      ensures r.Returned? ==> alreadyStarted == old(alreadyStarted) + RecordingTitles(schedule, nowMs)
      ensures r.Returned? ==> alreadyStopped == old(alreadyStopped) + EndedTitles(schedule, nowMs)
      ensures FreshCalls(old(startCalls), startCalls, old(alreadyStarted))
      ensures FreshCalls(old(stopCalls), stopCalls, old(alreadyStopped))
    {
      ghost var started0, stopped0 := alreadyStarted, alreadyStopped;
      ghost var starts0, stops0 := startCalls, stopCalls;
      var i := 0;
      while i < |schedule|
        invariant 0 <= i <= |schedule|
        invariant alreadyStarted == started0 + RecordingTitles(schedule[..i], nowMs)
        invariant alreadyStopped == stopped0 + EndedTitles(schedule[..i], nowMs)
        invariant Marked(starts0, startCalls, started0, alreadyStarted)
        invariant Marked(stops0, stopCalls, stopped0, alreadyStopped)
      {
        r := CheckStep(link, i, nowMs, today, started0, stopped0, starts0, stops0);
        if r.Raised? {
          return;
        }
        i := i + 1;
      }
      assert schedule[..i] == schedule;
      r := Returned(());
    }
  }

  /** Labels of the entries that are recording at `nowMs`. */
  function RecordingTitles(s: seq<Block>, nowMs: int): set<string> {
    if s == [] then {}
    else RecordingTitles(s[..|s| - 1], nowMs)
         + (if StartMs(s[|s| - 1]) <= nowMs < EndMs(s[|s| - 1]) then {s[|s| - 1].title} else {})
  }

  /** Labels of the entries that have ended at `nowMs`. */
  function EndedTitles(s: seq<Block>, nowMs: int): set<string> {
    if s == [] then {}
    else EndedTitles(s[..|s| - 1], nowMs)
         + (if nowMs >= EndMs(s[|s| - 1]) then {s[|s| - 1].title} else {})
  }

  /** The calls made since `calls0` are for distinct labels none of which was marked. */
  ghost predicate FreshCalls(calls0: seq<string>, calls: seq<string>, marked0: set<string>) {
    calls0 <= calls
    && (forall k :: |calls0| <= k < |calls| ==> calls[k] !in marked0)
    && (forall k, j :: |calls0| <= k < j < |calls| ==> calls[k] != calls[j])
  }

  /** Between iterations: the labels called for since `calls0` are exactly those marked since
      `marked0`, one call each. */
  ghost predicate Marked(calls0: seq<string>, calls: seq<string>, marked0: set<string>, marked: set<string>) {
    FreshCalls(calls0, calls, marked0)
    && marked0 <= marked
    && (forall k :: |calls0| <= k < |calls| ==> calls[k] in marked)
  }

  lemma TitlesStep(s: seq<Block>, i: int, nowMs: int)
    requires 0 <= i < |s|
    ensures RecordingTitles(s[..i + 1], nowMs)
            == RecordingTitles(s[..i], nowMs) + (if StartMs(s[i]) <= nowMs < EndMs(s[i]) then {s[i].title} else {})
    ensures EndedTitles(s[..i + 1], nowMs)
            == EndedTitles(s[..i], nowMs) + (if nowMs >= EndMs(s[i]) then {s[i].title} else {})
  {
    assert s[..i + 1][..i] == s[..i];
  }

  lemma {:induction false} PrefixTitles(s: seq<Block>, n: int, nowMs: int)
    requires 0 <= n <= |s|
    ensures RecordingTitles(s[..n], nowMs) <= RecordingTitles(s, nowMs)
    ensures EndedTitles(s[..n], nowMs) <= EndedTitles(s, nowMs)
    decreases |s| - n
  {
    if n < |s| {
      PrefixTitles(s, n + 1, nowMs);
      TitlesStep(s, n, nowMs);
    } else {
      assert s[..n] == s;
    }
  }

  /** What one entry does to a set of marked labels and the calls made for them: a call
      when the entry qualifies and its label is not yet marked, and the label marked when
      the entry qualifies and nothing raised. */
  ghost predicate MarkStep(calls0: seq<string>, calls1: seq<string>, marked0: set<string>, marked1: set<string>,
                           title: string, qualifies: bool, returned: bool)
  {
    calls1 == calls0 + (if qualifies && title !in marked0 then [title] else [])
    && marked1 == marked0 + (if qualifies && returned then {title} else {})
  }

  /** One iteration of `check_schedule` keeps the loop's bookkeeping. */
  lemma Advance(calls0: seq<string>, calls1: seq<string>, calls2: seq<string>,
                m0: set<string>, m1: set<string>, m2: set<string>,
                t1: set<string>, t2: set<string>, all: set<string>,
                title: string, qualifies: bool, returned: bool)
    requires Marked(calls0, calls1, m0, m1) && m1 == m0 + t1
    requires t1 <= t2 <= all && (returned ==> t2 == t1 + (if qualifies then {title} else {}))
    requires MarkStep(calls1, calls2, m1, m2, title, qualifies, returned)
    ensures FreshCalls(calls0, calls2, m0) && m0 <= m2 <= m0 + all
    ensures returned ==> Marked(calls0, calls2, m0, m2) && m2 == m0 + t2
  {
  }
}
