/** `EditBlockDialog`: the form that edits an existing entry. A block whose start has
    passed opens read-only: its date, start time and encoder are locked and only the name
    and the duration can change. `accept` checks the fields; `get_updated_data` returns them
    with the start time rounded to hundredths of an hour. */
module EditBlockDialog {
  import opened Wrappers
  import opened Text
  import opened QtTime

  /** The `qdate` of the block handed to the dialog: a date, or a "yyyy-MM-dd" text. */
  datatype DateArg = DateValue(date: Date) | DateText(text: string)

  /** The fields of `block_data` the dialog reads; hours are carried as seconds. */
  datatype BlockData = BlockData(title: string, startSec: int, durSec: int, qdate: DateArg, encoder: Option<string>)

  /** The fields of the open dialog. */
  datatype Form = Form(name: string, time: (int, int), durSec: int, qdate: Date, encoder: string, readonly: bool)

  /** The duration spin box holds 0.25 to 24 hours. */
  const MinDurSec: int := 900
  const MaxDurSec: int := 86400

  /** `setValue` on the spin box clamps to its range. */
  function ClampDuration(durSec: int): (r: int)
    ensures MinDurSec <= r <= MaxDurSec
    ensures MinDurSec <= durSec <= MaxDurSec ==> r == durSec
    ensures durSec < MinDurSec ==> r == MinDurSec
    ensures durSec > MaxDurSec ==> r == MaxDurSec
  {
    if durSec < MinDurSec then MinDurSec else if durSec > MaxDurSec then MaxDurSec else durSec
  }

  /** The time edit after `setTime(QTime(h, m))`: an invalid time is ignored and the edit
      keeps its initial 00:00. */
  function ShownTime(h: int, m: int): (r: (int, int))
    ensures ValidTime(r.0, r.1)
    ensures ValidTime(h, m) ==> r == (h, m)
    ensures DateTimeAt(Null, r.0, r.1) == DateTimeAt(Null, h, m)
  {
    if ValidTime(h, m) then (h, m) else (0, 0)
  }

  /** Both spellings of the start instant agree: an invalid time counts as midnight, and
      midnight is what the time edit shows instead. */
  lemma ShownTimeInstant(d: Date, h: int, m: int)
    ensures DateTimeAt(d, ShownTime(h, m).0, ShownTime(h, m).1) == DateTimeAt(d, h, m)
  {
  }

  /** `currentText()` of the encoder selector: the block's encoder when it is in the list,
      otherwise the first item, or "" for an empty list. */
  function SelectedEncoder(names: seq<string>, wanted: Option<string>): (r: string)
    ensures wanted.Some? && wanted.value in names ==> r == wanted.value
    ensures !(wanted.Some? && wanted.value in names) ==> r == (if names == [] then "" else names[0])
    ensures names != [] ==> r in names
  {
    if wanted.Some? && wanted.value in names then wanted.value
    else if names == [] then "" else names[0]
  }

  /** `__init__` at instant `nowMs`, with the caller's `readonly`. A text date is parsed
      for the read-only test, but `setDate` then refuses it (a TypeError): `None`. */
  function Open(data: BlockData, names: seq<string>, readonly: bool, nowMs: int): (r: Option<Form>)
    ensures r.None? <==> data.qdate.DateText?
    ensures r.Some? ==>
              var f := r.value;
              var (h, m) := ClockOf(data.startSec);
              f.name == data.title && f.qdate == data.qdate.date
              && f.time == ShownTime(h, m)
              && (f.readonly <==> readonly || StartInstant(data.qdate.date, data.startSec) <= nowMs)
              && f.durSec == ClampDuration(data.durSec)
              && f.encoder == SelectedEncoder(names, data.encoder)
    ensures r.Some? && 0 <= data.startSec < 86400 ==>
              var (h, m) := r.value.time;
              (h * 60 + m) * 60 <= data.startSec < (h * 60 + m) * 60 + 60
  {
    var (h, m) := ClockOf(data.startSec);
    var start := match data.qdate
      case DateValue(d) => DateTimeAt(d, h, m)
      case DateText(t) => DateTimeAt(ParseIso(t), h, m);
    var locked := readonly || start <= nowMs;
    if data.qdate.DateText? then None
    else
      assert 0 <= data.startSec < 86400 ==> ValidTime(h, m) && (h * 60 + m) * 60 == data.startSec - data.startSec % 60 by {
        if 0 <= data.startSec < 86400 {
          ClockOfTruncates(data.startSec);
        }
      }
      Some(Form(data.title, ShownTime(h, m), ClampDuration(data.durSec), data.qdate.date,
                SelectedEncoder(names, data.encoder), locked))
  }

  /** The values the user types or picks; a locked field ignores them. */
  datatype Edits = Edits(name: string, time: (int, int), durSec: int, qdate: Date, encoder: string)

  /** The form after the user's edits: the name and the duration always follow them, the
      date, the time and the encoder only when the dialog is not read-only. */
  function Edited(f: Form, e: Edits): (r: Form)
    requires ValidTime(e.time.0, e.time.1)
    ensures r.name == e.name && r.durSec == ClampDuration(e.durSec) && r.readonly == f.readonly
    ensures f.readonly ==> r.qdate == f.qdate && r.time == f.time && r.encoder == f.encoder
    ensures !f.readonly ==> r.qdate == e.qdate && r.time == e.time && r.encoder == e.encoder
  {
    if f.readonly then f.(name := e.name, durSec := ClampDuration(e.durSec))
    else Form(e.name, e.time, ClampDuration(e.durSec), e.qdate, e.encoder, false)
  }

  const EmptyName: string := "❌ 節目名稱不能空白"
  const StartPast: string := "❌ 開始時間不能早於現在"
  const EndPast: string := "❌ 結束時間不能早於現在"

  datatype Verdict = Rejected(message: string) | Accepted

  function StartOf(f: Form): int {
    DateTimeAt(f.qdate, f.time.0, f.time.1)
  }

  function EndOf(f: Form): int {
    StartOf(f) + f.durSec * 1000
  }

  /** `accept` as written, at instant `nowMs`: the start check applies to read-only
      dialogs too. */
  function AcceptAsWritten(f: Form, nowMs: int): (r: Verdict)
    ensures r == Rejected(EmptyName) <==> Strip(f.name) == ""
    ensures r == Rejected(StartPast) <==> Strip(f.name) != "" && StartOf(f) < nowMs
    ensures r == Rejected(EndPast) <==> Strip(f.name) != "" && nowMs <= StartOf(f) && EndOf(f) < nowMs
    ensures r == Accepted <==> Strip(f.name) != "" && nowMs <= StartOf(f) && nowMs <= EndOf(f)
  {
    if Strip(f.name) == "" then Rejected(EmptyName)
    else if StartOf(f) < nowMs then Rejected(StartPast)
    else if EndOf(f) < nowMs then Rejected(EndPast)
    else Accepted
  }

  /** A block that opened read-only because it had started can never be saved: its start
      is locked, and by the time OK is pressed it lies in the past. This defeats the
      dialog's own notice that the name and the duration may still be changed. */
  lemma StartedNeverSaved(data: BlockData, names: seq<string>, readonly: bool, openedMs: int,
                          e: Edits, nowMs: int)
    requires data.qdate.DateValue? && StartInstant(data.qdate.date, data.startSec) <= openedMs < nowMs
    requires ValidTime(e.time.0, e.time.1)
    ensures Open(data, names, readonly, openedMs).Some?
    ensures AcceptAsWritten(Edited(Open(data, names, readonly, openedMs).value, e), nowMs) != Accepted
  {
    var f := Open(data, names, readonly, openedMs).value;
    var (h, m) := ClockOf(data.startSec);
    ShownTimeInstant(f.qdate, h, m);
    assert StartOf(Edited(f, e)) == StartInstant(data.qdate.date, data.startSec);
  }

  /** `accept` as its read-only notice describes it: a read-only dialog skips the start
      check, so a started block can still be renamed or have its duration changed as long
      as it does not end before now; an editable dialog checks as written. */
  function Accept(f: Form, nowMs: int): (r: Verdict)
    ensures r == Accepted <==> Strip(f.name) != "" && (f.readonly || nowMs <= StartOf(f)) && nowMs <= EndOf(f)
    ensures !f.readonly ==> r == AcceptAsWritten(f, nowMs)
    ensures f.readonly ==> r != Rejected(StartPast)
  {
    if Strip(f.name) == "" then Rejected(EmptyName)
    else if !f.readonly && StartOf(f) < nowMs then Rejected(StartPast)
    else if EndOf(f) < nowMs then Rejected(EndPast)
    else Accepted
  }

  /** A started block opened read-only can be saved with a new name and a duration that
      reaches past now. */
  lemma StartedRenamed(data: BlockData, names: seq<string>, readonly: bool, openedMs: int,
                       e: Edits, nowMs: int)
    requires data.qdate.DateValue? && StartInstant(data.qdate.date, data.startSec) <= openedMs
    requires ValidTime(e.time.0, e.time.1) && Strip(e.name) != ""
    requires Open(data, names, readonly, openedMs).Some?
    requires nowMs <= EndOf(Edited(Open(data, names, readonly, openedMs).value, e))
    ensures Accept(Edited(Open(data, names, readonly, openedMs).value, e), nowMs) == Accepted
  {
    var f := Open(data, names, readonly, openedMs).value;
    assert f.readonly;
  }

  /** What `get_updated_data` returns; hours are carried as seconds. */
  datatype Updated = Updated(qdate: Date, title: string, startSec: int, durSec: int, encoder: string)

  /** `get_updated_data`: the label stripped, the start hour rounded to hundredths. */
  function UpdatedData(f: Form): (r: Updated)
    ensures r.qdate == f.qdate && r.title == Strip(f.name) && r.durSec == f.durSec && r.encoder == f.encoder
    ensures r.startSec % 36 == 0
    ensures -12 <= r.startSec - (3600 * f.time.0 + 60 * f.time.1) <= 12
    ensures ValidTime(f.time.0, f.time.1) ==> ClockNearest(r.startSec) == f.time
  {
    RoundedHoursClose(f.time.0, f.time.1);
    assert ValidTime(f.time.0, f.time.1) ==> ClockNearest(RoundedHours(f.time.0, f.time.1)) == f.time by {
      if ValidTime(f.time.0, f.time.1) {
        ClockNearestRoundTrip(f.time.0, f.time.1);
      }
    }
    Updated(f.qdate, Strip(f.name), RoundedHours(f.time.0, f.time.1), f.durSec, f.encoder)
  }

  /** Saving and reopening: the dialog reads the stored hours back by truncation, so a
      time whose rounding went down comes back a minute early — 09:20 reopens as 09:19. */
  lemma ReopenAfterSave(f: Form, names: seq<string>, readonly: bool, nowMs: int)
    requires ValidTime(f.time.0, f.time.1)
    ensures var d := UpdatedData(f);
            var g := Open(BlockData(d.title, d.startSec, d.durSec, DateValue(d.qdate), Some(d.encoder)), names, readonly, nowMs);
            g.Some? && g.value.time == ShownTime(ClockOf(d.startSec).0, ClockOf(d.startSec).1)
            && (f.time == (9, 20) ==> g.value.time == (9, 19))
  {
    if f.time == (9, 20) {
      MinuteDrift();
    }
  }
}
