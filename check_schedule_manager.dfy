/** `CheckScheduleManager`: the newer once-a-second check. A snapshot of today's entries
    is taken, a worker turns it into a list of start and stop actions, and the actions are
    applied to the runner; a block id is marked once its call returns, and a call that
    raises ends the batch. */
module CheckScheduleManager {
  import opened Wrappers
  import opened QtTime

  // ------------------------------------------------------------ schedule entries

  /** A date held by an entry: a QDate, or its `yyyy-MM-dd` text. */
  datatype DateField = AsDate(date: Date) | AsText(text: string)

  /** The QDate of a date field; text that does not parse gives the null date. */
  function DateOf(f: DateField): Date {
    match f
    case AsDate(d) => d
    case AsText(s) => ParseIso(s)
  }

  /** One entry of the manager's `schedule_data` (times in seconds; the source holds hours).
      `id` is `None` when the key is missing or `None`; `endQdate` and `endSec` are the
      optional keys `end_qdate` and `end_hour`. */
  datatype Entry = Entry(id: Option<string>, qdate: DateField, endQdate: Option<DateField>, track: int,
                         startSec: int, durSec: int, endSec: Option<int>, title: string)

  /** Python truthiness of an entry's id. */
  predicate HasId(e: Entry) {
    e.id.Some? && e.id.value != ""
  }

  /** One element of the snapshot's `today_blocks`. */
  datatype Item = Item(id: string, qdate: Date, endQdate: Date, track: int,
                       startSec: int, durSec: int, endSec: int, title: string)

  /** The snapshot handed to the worker: copies of the encoder names and of the two sets. */
  datatype Snapshot = Snapshot(encoderNames: seq<string>, started: set<string>, stopped: set<string>,
                               items: seq<Item>)

  /** The snapshot element of an entry: the end date defaults to the (parsed) start date
      and the end hour to start + duration. */
  function ItemOf(e: Entry): Item
    requires HasId(e)
  {
    var qdate := DateOf(e.qdate);
    var endQdate := if e.endQdate.Some? then DateOf(e.endQdate.value) else qdate;
    Item(e.id.value, qdate, endQdate, e.track, e.startSec, e.durSec,
         e.endSec.GetOr(e.startSec + e.durSec), e.title)
  }

  /** Whether `_make_snapshot` keeps the entry: a truthy id, dated today. */
  predicate Kept(e: Entry, today: Date) {
    HasId(e) && DateOf(e.qdate) == today
  }

  /** `today_blocks`: the kept entries, in order. */
  function TodayItems(data: seq<Entry>, today: Date): seq<Item> {
    if data == [] then []
    else
      var last := data[|data| - 1];
      TodayItems(data[..|data| - 1], today) + (if Kept(last, today) then [ItemOf(last)] else [])
  }

  /** The snapshot holds exactly the entries with a truthy id dated today, in their order:
      each item comes from such an entry, each such entry gives an item, and no item has
      an empty id or another date. */
  lemma {:induction false} TodayItemsSpec(data: seq<Entry>, today: Date)
    ensures |TodayItems(data, today)| <= |data|
    ensures forall it :: it in TodayItems(data, today) <==>
                         exists i :: 0 <= i < |data| && Kept(data[i], today) && it == ItemOf(data[i])
    ensures forall it :: it in TodayItems(data, today) ==> it.id != "" && it.qdate == today
  {
    if data != [] {
      var init := data[..|data| - 1];
      TodayItemsSpec(init, today);
      forall it | it in TodayItems(data, today)
        ensures exists i :: 0 <= i < |data| && Kept(data[i], today) && it == ItemOf(data[i])
      {
        if it in TodayItems(init, today) {
          var i :| 0 <= i < |init| && Kept(init[i], today) && it == ItemOf(init[i]);
          assert data[i] == init[i];
        } else {
          assert Kept(data[|data| - 1], today) && it == ItemOf(data[|data| - 1]);
        }
      }
      forall i | 0 <= i < |data| && Kept(data[i], today) ensures ItemOf(data[i]) in TodayItems(data, today) {
        if i < |init| {
          assert data[i] == init[i];
        }
      }
    }
  }

  lemma TodayItemsStep(data: seq<Entry>, i: int, today: Date)
    requires 0 <= i < |data|
    ensures TodayItems(data[..i + 1], today)
            == TodayItems(data[..i], today) + (if Kept(data[i], today) then [ItemOf(data[i])] else [])
  {
    assert data[..i + 1][..i] == data[..i];
  }

  // ------------------------------------------------------------------ the worker

  /** `start_dt` and `end_dt` of an item, in milliseconds. */
  function StartOf(it: Item): int {
    StartInstant(it.qdate, it.startSec)
  }

  function EndOf(it: Item): int {
    StartInstant(it.endQdate, it.endSec)
  }

  datatype Kind = Start | Stop

  /** One element of the worker's result: `{"action", "block_id", "encoder_name"}`. */
  datatype Action = Action(kind: Kind, id: string, encoder: string)

  /** The actions the worker emits for one item: nothing for an empty id or a track
      outside the encoder list; otherwise a start when `start_dt.secsTo(now)` is 0 or 1 and
      the id is not started, then a stop when now has reached `end_dt` and the id is not
      stopped. */
  function ItemActions(it: Item, names: seq<string>, started: set<string>, stopped: set<string>,
                       nowMs: int): seq<Action>
  {
    if it.id == "" || !(0 <= it.track < |names|) then []
    else
      var enc := names[it.track];
      (if 0 <= SecsTo(StartOf(it), nowMs) <= 1 && it.id !in started then [Action(Start, it.id, enc)] else [])
      + (if nowMs >= EndOf(it) && it.id !in stopped then [Action(Stop, it.id, enc)] else [])
  }

  /** At most one start and one stop per item, the start first, both for the item's id and
      encoder; a start exactly in the three-second window around the start instant (from
      999 ms before it to 1999 ms after it) for an id not yet started, a stop exactly once
      the end is reached for an id not yet stopped, whether or not it was ever started. */
  lemma ItemActionsSpec(it: Item, names: seq<string>, started: set<string>, stopped: set<string>, nowMs: int)
    ensures var acts := ItemActions(it, names, started, stopped, nowMs);
            var ok := it.id != "" && 0 <= it.track < |names|;
            |acts| <= 2
            && (forall a :: a in acts ==> ok && a.id == it.id && a.encoder == names[it.track])
            && ((|acts| > 0 && acts[0].kind == Start) <==>
                  ok && it.id !in started && StartOf(it) - 1000 < nowMs < StartOf(it) + 2000)
            && ((|acts| > 0 && acts[|acts| - 1].kind == Stop) <==>
                  ok && it.id !in stopped && nowMs >= EndOf(it))
            && (|acts| == 2 ==> acts[0].kind == Start && acts[1].kind == Stop)
  {
    SecsToWindow(StartOf(it), nowMs);
  }

  /** An entry running past midnight, with no `end_qdate` or `end_hour` (nothing writes
      them), ends at an hour of 24 or more on its start day. `QTime` of that hour is invalid,
      so the end instant is the start day's midnight, before the start: the stop is emitted
      at the day's first check, and no start is emitted with it. */
  lemma OvernightStopFirst(id: string, d: Date, track: int, startSec: int, durSec: int, title: string,
                           names: seq<string>)
    requires d.Ymd? && id != "" && 0 <= track < |names|
    requires 60 <= startSec < 24 * 3600 && startSec + durSec >= 24 * 3600
    ensures var it := ItemOf(Entry(Some(id), AsDate(d), None, track, startSec, durSec, None, title));
            EndOf(it) == DayNumber(d) * MsPerDay
            && EndOf(it) < StartOf(it)
            && ItemActions(it, names, {}, {}, EndOf(it)) == [Action(Stop, id, names[track])]
  {
    var it := ItemOf(Entry(Some(id), AsDate(d), None, track, startSec, durSec, None, title));
    assert ClockOf(startSec).0 == startSec / 3600 && ClockOf(it.endSec).0 == it.endSec / 3600;
    assert startSec / 3600 < 24 <= it.endSec / 3600;
    SecsToWindow(StartOf(it), EndOf(it));
  }

  /** The actions `f` gives for the items of `s`, joined in order. */
  function ConcatMap(s: seq<Item>, f: Item -> seq<Action>): seq<Action> {
    if s == [] then [] else ConcatMap(s[..|s| - 1], f) + f(s[|s| - 1])
  }

  lemma {:induction false} ConcatMapMembers(s: seq<Item>, f: Item -> seq<Action>)
    ensures forall u :: u in ConcatMap(s, f) <==> exists i :: 0 <= i < |s| && u in f(s[i])
  {
    if s != [] {
      var init := s[..|s| - 1];
      ConcatMapMembers(init, f);
      forall u | u in ConcatMap(s, f) ensures exists i :: 0 <= i < |s| && u in f(s[i]) {
        if u in ConcatMap(init, f) {
          assert exists i :: 0 <= i < |init| && u in f(init[i]);
          var i :| 0 <= i < |init| && u in f(init[i]);
          assert s[i] == init[i];
        } else {
          assert u in f(s[|s| - 1]);
        }
      }
      forall u, i | 0 <= i < |s| && u in f(s[i]) ensures u in ConcatMap(s, f) {
        if i < |init| {
          assert s[i] == init[i];
        }
      }
    }
  }

  lemma ConcatMapStep(s: seq<Item>, i: int, f: Item -> seq<Action>)
    requires 0 <= i < |s|
    ensures ConcatMap(s[..i + 1], f) == ConcatMap(s[..i], f) + f(s[i])
  {
    assert s[..i + 1][..i] == s[..i];
  }

  /** The worker's result: the actions of every item, in order. */
  function ActionsFor(items: seq<Item>, names: seq<string>, started: set<string>, stopped: set<string>,
                      nowMs: int): seq<Action>
  {
    ConcatMap(items, it => ItemActions(it, names, started, stopped, nowMs))
  }

  /** An action is in the result exactly when some item emits it. */
  lemma ActionsForMembers(items: seq<Item>, names: seq<string>, started: set<string>,
                          stopped: set<string>, nowMs: int)
    ensures forall a :: a in ActionsFor(items, names, started, stopped, nowMs) <==>
                        exists i :: 0 <= i < |items| && a in ItemActions(items[i], names, started, stopped, nowMs)
  {
    ConcatMapMembers(items, it => ItemActions(it, names, started, stopped, nowMs));
  }

  lemma ActionsForStep(items: seq<Item>, i: int, names: seq<string>, started: set<string>,
                       stopped: set<string>, nowMs: int)
    requires 0 <= i < |items|
    ensures ActionsFor(items[..i + 1], names, started, stopped, nowMs)
            == ActionsFor(items[..i], names, started, stopped, nowMs)
               + ItemActions(items[i], names, started, stopped, nowMs)
  {
    ConcatMapStep(items, i, it => ItemActions(it, names, started, stopped, nowMs));
  }

  /** `_CheckWorker.run` at instant `nowMs`: it reads only the snapshot. */
  method Run(snap: Snapshot, nowMs: int) returns (actions: seq<Action>)
    ensures actions == ActionsFor(snap.items, snap.encoderNames, snap.started, snap.stopped, nowMs)
  {
    actions := [];
    var i := 0;
    while i < |snap.items|
      invariant 0 <= i <= |snap.items|
      invariant actions == ActionsFor(snap.items[..i], snap.encoderNames, snap.started, snap.stopped, nowMs)
    {
      var b := snap.items[i];
      ActionsForStep(snap.items, i, snap.encoderNames, snap.started, snap.stopped, nowMs);
      i := i + 1;
      if b.id == "" {
        continue;
      }
      var startDt, endDt := StartOf(b), EndOf(b);
      if !(0 <= b.track < |snap.encoderNames|) {
        continue;
      }
      var name := snap.encoderNames[b.track];
      var delta := SecsTo(startDt, nowMs);
      if 0 <= delta <= 1 && b.id !in snap.started {
        actions := actions + [Action(Start, b.id, name)];
      }
      if nowMs >= endDt && b.id !in snap.stopped {
        actions := actions + [Action(Stop, b.id, name)];
      }
    }
    assert snap.items[..i] == snap.items;
  }


  // ------------------------------------------------------------- applying actions

  /** A block on screen: its id and label. */
  datatype Drawn = Drawn(blockId: string, title: string)

  /** What the runner was asked to do: start `encoder` for the block with label `title`,
      or stop it; `statusLabel` says whether a live status label was passed (or `None`),
      and `id` is the block the action came from. */
  datatype Call = Call(kind: Kind, id: string, encoder: string, title: string, statusLabel: bool)

  /** How the runner answers a call: `None` when it returns, the text of the exception when
      it raises (a stop given `None` for its status label raises when there is no
      connection, for instance). */
  type Answer = Call -> Option<string>

  /** The text of the `TypeError` of the `start_encoder` call, which passes four arguments
      to a method that takes three. */
  const StartArityError: string := "ScheduleRunner.start_encoder() takes 4 positional arguments but 5 were given"

  /** The answers as the calls are written in `_apply_actions_on_main`: every start raises
      the `TypeError` before the runner runs; a stop is answered by the runner. */
  function AsCalled(answer: Answer): Answer {
    (c: Call) => if c.kind == Start then Some(StartArityError) else answer(c)
  }

  /** The state `_apply_actions_on_main` changes: the two sets, the status labels (each
      either alive or already deleted by Qt) and the runner calls made so far. */
  datatype Marks = Marks(started: set<string>, stopped: set<string>, statusLabels: map<string, bool>,
                         calls: seq<Call>)

  /** The marks after some actions, and the text of the exception that ended the batch, if
      one did. */
  datatype Applied = Applied(marks: Marks, error: Option<string>)

  /** `find_block_by_id`: the first block with the id. */
  function FirstById(blocks: seq<Drawn>, id: string): Option<Drawn> {
    if blocks == [] then None
    else if blocks[0].blockId == id then Some(blocks[0])
    else FirstById(blocks[1..], id)
  }

  /** The block found has the id and no earlier block has it; none is found only when no
      block has it. */
  lemma {:induction false} FirstByIdSpec(blocks: seq<Drawn>, id: string)
    ensures var r := FirstById(blocks, id);
            (r.Some? ==> exists i :: 0 <= i < |blocks| && blocks[i] == r.value
                           && r.value.blockId == id && forall j :: 0 <= j < i ==> blocks[j].blockId != id)
            && (r.None? ==> forall j :: 0 <= j < |blocks| ==> blocks[j].blockId != id)
  {
    if blocks != [] && blocks[0].blockId != id {
      FirstByIdSpec(blocks[1..], id);
      var r := FirstById(blocks, id);
      if r.Some? {
        var i :| 0 <= i < |blocks[1..]| && blocks[1..][i] == r.value && r.value.blockId == id
                 && forall j :: 0 <= j < i ==> blocks[1..][j].blockId != id;
        assert blocks[i + 1] == r.value;
        forall j | 0 <= j < i + 1 ensures blocks[j].blockId != id {
          if j > 0 {
            assert blocks[j] == blocks[1..][j - 1];
          }
        }
      } else {
        forall j | 0 <= j < |blocks| ensures blocks[j].blockId != id {
          if j > 0 {
            assert blocks[j] == blocks[1..][j - 1];
          }
        }
      }
    }
  }

  /** The label of the first schedule entry with the id, if any. */
  function FirstEntryTitle(data: seq<Entry>, id: string): Option<string> {
    if data == [] then None
    else if data[0].id == Some(id) then Some(data[0].title)
    else FirstEntryTitle(data[1..], id)
  }

  /** The label used for an action: that of the block with the id, else that of the first
      entry with the id, else "". */
  function TitleFor(blocks: seq<Drawn>, data: seq<Entry>, id: string): string {
    var blk := FirstById(blocks, id);
    if blk.Some? then blk.value.title else FirstEntryTitle(data, id).GetOr("")
  }

  /** Whether an action's id is not yet in the set of its kind. */
  predicate IsNew(m: Marks, act: Action) {
    if act.kind == Start then act.id !in m.started else act.id !in m.stopped
  }

  /** The call an action makes in state `m`. */
  function CallOf(m: Marks, act: Action, blocks: seq<Drawn>, data: seq<Entry>): Call {
    Call(act.kind, act.id, act.encoder, TitleFor(blocks, data, act.id),
         act.encoder in m.statusLabels && m.statusLabels[act.encoder])
  }

  /** Call `c` made: when it raises, nothing is marked and the batch ends with its text;
      otherwise the sets become `started` and `stopped`. */
  function Called(m: Marks, c: Call, answer: Answer, started: set<string>, stopped: set<string>): Applied {
    var made := m.(calls := m.calls + [c]);
    if answer(c).Some? then Applied(made, answer(c))
    else Applied(made.(started := started, stopped := stopped), None)
  }

  /** One action applied: a status label Qt has deleted is dropped (and `None` passed);
      then a start for an id not yet started calls the runner and, once the call returns,
      marks the id; a stop for an id not yet stopped likewise. */
  function Step(m: Marks, act: Action, blocks: seq<Drawn>, data: seq<Entry>, answer: Answer): Applied {
    var alive := act.encoder in m.statusLabels && m.statusLabels[act.encoder];
    var labels := if act.encoder in m.statusLabels && !alive then m.statusLabels - {act.encoder}
                  else m.statusLabels;
    var c := Call(act.kind, act.id, act.encoder, TitleFor(blocks, data, act.id), alive);
    if act.kind == Start && act.id !in m.started then
      Called(m.(statusLabels := labels), c, answer, m.started + {act.id}, m.stopped)
    else if act.kind == Stop && act.id !in m.stopped then
      Called(m.(statusLabels := labels), c, answer, m.started, m.stopped + {act.id})
    else
      Applied(m.(statusLabels := labels), None)
  }

  /** The actions applied in order, up to the first call that raises. */
  function ApplyAll(m: Marks, acts: seq<Action>, blocks: seq<Drawn>, data: seq<Entry>, answer: Answer): Applied {
    if acts == [] then Applied(m, None)
    else
      var r := ApplyAll(m, acts[..|acts| - 1], blocks, data, answer);
      if r.error.Some? then r else Step(r.marks, acts[|acts| - 1], blocks, data, answer)
  }

  lemma ApplyAllStep(m: Marks, acts: seq<Action>, i: int, blocks: seq<Drawn>, data: seq<Entry>, answer: Answer)
    requires 0 <= i < |acts|
    ensures var r := ApplyAll(m, acts[..i], blocks, data, answer);
            ApplyAll(m, acts[..i + 1], blocks, data, answer)
            == if r.error.Some? then r else Step(r.marks, acts[i], blocks, data, answer)
  {
    assert acts[..i + 1][..i] == acts[..i];
  }

  /** Once a call has raised, the rest of the list is skipped. */
  lemma {:induction false} RaisedStays(m: Marks, acts: seq<Action>, j: int, blocks: seq<Drawn>, data: seq<Entry>,
                                        answer: Answer)
    requires 0 <= j <= |acts| && ApplyAll(m, acts[..j], blocks, data, answer).error.Some?
    ensures ApplyAll(m, acts, blocks, data, answer) == ApplyAll(m, acts[..j], blocks, data, answer)
    decreases |acts| - j
  {
    if j < |acts| {
      ApplyAllStep(m, acts, j, blocks, data, answer);
      RaisedStays(m, acts, j + 1, blocks, data, answer);
    } else {
      assert acts[..j] == acts;
    }
  }

  /** The ids of the actions of one kind. */
  function IdsOf(acts: seq<Action>, k: Kind): set<string> {
    set a | a in acts && a.kind == k :: a.id
  }

  lemma IdsOfSnoc(acts: seq<Action>, last: Action, k: Kind)
    ensures IdsOf(acts + [last], k) == IdsOf(acts, k) + (if last.kind == k then {last.id} else {})
  {
    assert forall a :: a in acts + [last] <==> a in acts || a == last;
  }

  /** One action: the runner is called exactly when the id is not yet in the set of its
      kind; the id joins that set unless the call raised, in which case the batch ends with
      the call's exception; the status labels only lose entries. */
  lemma StepSpec(m: Marks, act: Action, blocks: seq<Drawn>, data: seq<Entry>, answer: Answer)
    ensures var r := Step(m, act, blocks, data, answer);
            var c := CallOf(m, act, blocks, data);
            var raised := IsNew(m, act) && answer(c).Some?;
            r.error == (if raised then answer(c) else None)
            && r.marks.started == m.started + (if act.kind == Start && !raised then {act.id} else {})
            && r.marks.stopped == m.stopped + (if act.kind == Stop && !raised then {act.id} else {})
            && r.marks.calls == m.calls + (if IsNew(m, act) then [c] else [])
            && r.marks.statusLabels.Keys <= m.statusLabels.Keys
            && (forall e :: e in r.marks.statusLabels ==> r.marks.statusLabels[e] == m.statusLabels[e])
  {
  }

  /** Applying a list: the sets only grow, and only by ids of its start (stop) actions; when
      no call raised they grow by exactly those ids. The status labels only lose entries. */
  lemma {:induction false} ApplyAllMarks(m: Marks, acts: seq<Action>, blocks: seq<Drawn>, data: seq<Entry>,
                                         answer: Answer)
    ensures var r := ApplyAll(m, acts, blocks, data, answer);
            m.started <= r.marks.started <= m.started + IdsOf(acts, Start)
            && m.stopped <= r.marks.stopped <= m.stopped + IdsOf(acts, Stop)
            && (r.error.None? ==> r.marks.started == m.started + IdsOf(acts, Start)
                                  && r.marks.stopped == m.stopped + IdsOf(acts, Stop))
            && r.marks.statusLabels.Keys <= m.statusLabels.Keys
            && forall e :: e in r.marks.statusLabels ==> r.marks.statusLabels[e] == m.statusLabels[e]
  {
    if acts != [] {
      var init := acts[..|acts| - 1];
      var last := acts[|acts| - 1];
      ApplyAllMarks(m, init, blocks, data, answer);
      var r0 := ApplyAll(m, init, blocks, data, answer);
      StepSpec(r0.marks, last, blocks, data, answer);
      assert acts == init + [last];
      IdsOfSnoc(init, last, Start);
      IdsOfSnoc(init, last, Stop);
    }
  }

  /** A batch that ends in an exception ends at a call made in it, for an action of the list:
      the call's answer is the exception, and its id is left unmarked for its kind. */
  lemma {:induction false} ApplyAllRaised(m: Marks, acts: seq<Action>, blocks: seq<Drawn>, data: seq<Entry>,
                                          answer: Answer)
    ensures var r := ApplyAll(m, acts, blocks, data, answer);
            r.error.Some? ==>
              |r.marks.calls| > |m.calls|
              && var c := r.marks.calls[|r.marks.calls| - 1];
                 answer(c) == r.error
                 && (c.kind == Start ==> c.id !in r.marks.started)
                 && (c.kind == Stop ==> c.id !in r.marks.stopped)
                 && exists a :: a in acts && a.kind == c.kind && a.id == c.id && a.encoder == c.encoder
  {
    if acts != [] {
      var init := acts[..|acts| - 1];
      var last := acts[|acts| - 1];
      var r0 := ApplyAll(m, init, blocks, data, answer);
      var r := ApplyAll(m, acts, blocks, data, answer);
      if r0.error.Some? {
        assert r == r0;
        ApplyAllRaised(m, init, blocks, data, answer);
        var c := r.marks.calls[|r.marks.calls| - 1];
        var a :| a in init && a.kind == c.kind && a.id == c.id && a.encoder == c.encoder;
        assert a in acts;
      } else if r.error.Some? {
        ApplyAllCallsOnce(m, init, blocks, data, answer);
        StepSpec(r0.marks, last, blocks, data, answer);
      }
    }
  }

  /** The calls made since `m0` are for ids of their kind not marked in `m0`, each id once
      per kind; every one of them is marked in `r` except a last call that raised. */
  ghost predicate CalledOnce(m0: Marks, r: Applied) {
    m0.calls <= r.marks.calls
    && (forall k :: |m0.calls| <= k < |r.marks.calls| ==>
          var done := k < |r.marks.calls| - 1 || r.error.None?;
          (r.marks.calls[k].kind == Start ==> r.marks.calls[k].id !in m0.started
                                              && (done ==> r.marks.calls[k].id in r.marks.started))
          && (r.marks.calls[k].kind == Stop ==> r.marks.calls[k].id !in m0.stopped
                                                && (done ==> r.marks.calls[k].id in r.marks.stopped)))
    && (forall k, j :: |m0.calls| <= k < j < |r.marks.calls| && r.marks.calls[k].kind == r.marks.calls[j].kind ==>
          r.marks.calls[k].id != r.marks.calls[j].id)
  }

  /** Applying a list starts and stops each id at most once, and never one already marked;
      each call is marked once it has returned. */
  lemma {:induction false} ApplyAllCallsOnce(m: Marks, acts: seq<Action>, blocks: seq<Drawn>, data: seq<Entry>,
                                             answer: Answer)
    ensures CalledOnce(m, ApplyAll(m, acts, blocks, data, answer))
  {
    if acts != [] {
      var init := acts[..|acts| - 1];
      var last := acts[|acts| - 1];
      ApplyAllCallsOnce(m, init, blocks, data, answer);
      ApplyAllMarks(m, init, blocks, data, answer);
      var r0 := ApplyAll(m, init, blocks, data, answer);
      if r0.error.None? {
        StepSpec(r0.marks, last, blocks, data, answer);
        CalledOnceStep(m, r0.marks, Step(r0.marks, last, blocks, data, answer), last,
                       CallOf(r0.marks, last, blocks, data), answer);
      }
    }
  }

  lemma CalledOnceStep(m0: Marks, r0: Marks, r: Applied, act: Action, c: Call, answer: Answer)
    requires CalledOnce(m0, Applied(r0, None)) && m0.started <= r0.started && m0.stopped <= r0.stopped
    requires c.kind == act.kind && c.id == act.id
    requires var raised := IsNew(r0, act) && answer(c).Some?;
             r.error == (if raised then answer(c) else None)
             && r.marks.started == r0.started + (if act.kind == Start && !raised then {act.id} else {})
             && r.marks.stopped == r0.stopped + (if act.kind == Stop && !raised then {act.id} else {})
             && r.marks.calls == r0.calls + (if IsNew(r0, act) then [c] else [])
    ensures CalledOnce(m0, r)
  {
    if IsNew(r0, act) {
      forall k | |m0.calls| <= k < |r0.calls| ensures r.marks.calls[k] == r0.calls[k] {
      }
    }
  }

  /** Every action of the list has taken effect in `m`: its id is marked for its kind and
      its encoder has no deleted status label left. */
  predicate Settled(m: Marks, acts: seq<Action>) {
    forall a :: a in acts ==>
      (a.kind == Start ==> a.id in m.started) && (a.kind == Stop ==> a.id in m.stopped)
      && (a.encoder in m.statusLabels ==> m.statusLabels[a.encoder])
  }

  lemma {:induction false} SettledFixed(m: Marks, acts: seq<Action>, blocks: seq<Drawn>, data: seq<Entry>,
                                        answer: Answer)
    requires Settled(m, acts)
    ensures ApplyAll(m, acts, blocks, data, answer) == Applied(m, None)
  {
    if acts != [] {
      var init := acts[..|acts| - 1];
      assert Settled(m, init);
      SettledFixed(m, init, blocks, data, answer);
      assert acts[|acts| - 1] in acts;
    }
  }

  /** After a list is applied without an exception, every action in it has taken effect. */
  lemma {:induction false} ApplyAllSettles(m: Marks, acts: seq<Action>, blocks: seq<Drawn>, data: seq<Entry>,
                                           answer: Answer)
    ensures var r := ApplyAll(m, acts, blocks, data, answer);
            r.error.None? ==> Settled(r.marks, acts)
  {
    if acts != [] {
      var init := acts[..|acts| - 1];
      var last := acts[|acts| - 1];
      ApplyAllSettles(m, init, blocks, data, answer);
      var r0 := ApplyAll(m, init, blocks, data, answer);
      var r := ApplyAll(m, acts, blocks, data, answer);
      if r.error.None? {
        assert r0.error.None?;
        StepSpec(r0.marks, last, blocks, data, answer);
        forall a | a in acts
          ensures (a.kind == Start ==> a.id in r.marks.started) && (a.kind == Stop ==> a.id in r.marks.stopped)
                  && (a.encoder in r.marks.statusLabels ==> r.marks.statusLabels[a.encoder])
        {
          if a != last {
            assert a in init;
          }
        }
      }
    }
  }

  /** Applying a list twice, the first time without an exception, does no more than
      applying it once: duplicate actions, in one list or across ticks, reach the runner
      once, whatever it answers the second time. */
  lemma ApplyIdempotent(m: Marks, acts: seq<Action>, blocks: seq<Drawn>, data: seq<Entry>, answer: Answer)
    ensures var r := ApplyAll(m, acts, blocks, data, answer);
            r.error.None? ==> ApplyAll(r.marks, acts, blocks, data, answer) == r
  {
    ApplyAllSettles(m, acts, blocks, data, answer);
    var r := ApplyAll(m, acts, blocks, data, answer);
    if r.error.None? {
      SettledFixed(r.marks, acts, blocks, data, answer);
    }
  }

  /** The action whose call raised is emitted again by the worker on the next tick: its id
      is still unmarked, so an item with that id still in its start window (or past its end,
      for a stop) yields the action once more. */
  lemma RaisedEmittedAgain(m: Marks, acts: seq<Action>, blocks: seq<Drawn>, data: seq<Entry>, answer: Answer,
                           it: Item, names: seq<string>, nowMs: int)
    requires var r := ApplyAll(m, acts, blocks, data, answer);
             r.error.Some? && |r.marks.calls| > 0 && r.marks.calls[|r.marks.calls| - 1].id == it.id
    requires it.id != "" && 0 <= it.track < |names|
    ensures var r := ApplyAll(m, acts, blocks, data, answer);
            var c := r.marks.calls[|r.marks.calls| - 1];
            var again := ItemActions(it, names, r.marks.started, r.marks.stopped, nowMs);
            (c.kind == Start && StartOf(it) - 1000 < nowMs < StartOf(it) + 2000 ==>
               Action(Start, it.id, names[it.track]) in again)
            && (c.kind == Stop && nowMs >= EndOf(it) ==> Action(Stop, it.id, names[it.track]) in again)
  {
    ApplyAllRaised(m, acts, blocks, data, answer);
    SecsToWindow(StartOf(it), nowMs);
  }

  /** As the calls are written, no start ever takes effect: the started set never grows, and
      a list holding a start for an id not yet started always ends in an exception, so the
      view is not saved. */
  lemma {:induction false} StartsNeverMarked(m: Marks, acts: seq<Action>, blocks: seq<Drawn>, data: seq<Entry>,
                                             answer: Answer)
    ensures var r := ApplyAll(m, acts, blocks, data, AsCalled(answer));
            r.marks.started == m.started
            && ((exists a :: a in acts && a.kind == Start && a.id !in m.started) ==> r.error.Some?)
  {
    if acts != [] {
      var init := acts[..|acts| - 1];
      var last := acts[|acts| - 1];
      StartsNeverMarked(m, init, blocks, data, answer);
      var r0 := ApplyAll(m, init, blocks, data, AsCalled(answer));
      StepSpec(r0.marks, last, blocks, data, AsCalled(answer));
      if exists a :: a in acts && a.kind == Start && a.id !in m.started {
        var a :| a in acts && a.kind == Start && a.id !in m.started;
        if a != last {
          assert a in init;
        }
      }
    }
  }

  /** One start for a fresh id: the call raises the `TypeError`, the id stays unmarked. */
  lemma StartRaisesOnce(id: string, encoder: string, answer: Answer)
    ensures var m := Marks({}, {}, map[], []);
            ApplyAll(m, [Action(Start, id, encoder)], [], [], AsCalled(answer))
            == Applied(m.(calls := [Call(Start, id, encoder, "", false)]), Some(StartArityError))
  {
    var m := Marks({}, {}, map[], []);
    var acts := [Action(Start, id, encoder)];
    assert acts[..0] == [];
  }

  // ------------------------------------------------------------------ the manager

  class Manager {
    /** `encoder_names`, and whether `get_parent_view()` gives a view to save. */
    const encoderNames: seq<string>
    const hasView: bool
    /** `schedule_data` and `blocks`, as the application sets them. */
    var scheduleData: seq<Entry>
    var blocks: seq<Drawn>
    var alreadyStarted: set<string>
    var alreadyStopped: set<string>
    /** `encoder_status`: each encoder's status label, alive or deleted by Qt. */
    var statusLabels: map<string, bool>
    /** The calls made on the runner, in order, including those that raised. */
    var calls: seq<Call>
    /** How many times the parent view's schedule was saved. */
    var saves: nat

    constructor(names: seq<string>, labels: map<string, bool>, view: bool)
      ensures encoderNames == names && statusLabels == labels && hasView == view
      ensures scheduleData == [] && blocks == [] && alreadyStarted == {} && alreadyStopped == {}
      ensures calls == [] && saves == 0
    {
      encoderNames, hasView := names, view;
      statusLabels := labels;
      scheduleData, blocks := [], [];
      alreadyStarted, alreadyStopped := {}, {};
      calls, saves := [], 0;
    }

    function State(): Marks
      reads this
    {
      Marks(alreadyStarted, alreadyStopped, statusLabels, calls)
    }

    /** `_make_snapshot` on day `today`: copies of the names and sets, and today's entries. */
    method MakeSnapshot(today: Date) returns (snap: Snapshot)
      ensures snap == Snapshot(encoderNames, alreadyStarted, alreadyStopped, TodayItems(scheduleData, today))
    {
      var items := [];
      var i := 0;
      while i < |scheduleData|
        invariant 0 <= i <= |scheduleData|
        invariant items == TodayItems(scheduleData[..i], today)
      {
        var b := scheduleData[i];
        TodayItemsStep(scheduleData, i, today);
        i := i + 1;
        if !HasId(b) {
          continue;
        }
        var qdate := DateOf(b.qdate);
        if qdate != today {
          continue;
        }
        var endQdate := if b.endQdate.Some? then DateOf(b.endQdate.value) else qdate;
        items := items + [Item(b.id.value, qdate, endQdate, b.track, b.startSec, b.durSec,
                               b.endSec.GetOr(b.startSec + b.durSec), b.title)];
      }
      assert scheduleData[..i] == scheduleData;
      snap := Snapshot(encoderNames, alreadyStarted, alreadyStopped, items);
    }

    /** `find_block_by_id`. */
    method FindBlockById(id: string) returns (r: Option<Drawn>)
      ensures r == FirstById(blocks, id)
    {
      var i := 0;
      while i < |blocks|
        invariant 0 <= i <= |blocks|
        invariant FirstById(blocks, id) == FirstById(blocks[i..], id)
      {
        if blocks[i].blockId == id {
          return Some(blocks[i]);
        }
        assert blocks[i..][1..] == blocks[i + 1..];
        i := i + 1;
      }
      return None;
    }

    /** One action of `_apply_actions_on_main`'s loop; `err` is the exception of a call
        that raised. */
    method ApplyStep(act: Action, answer: Answer) returns (err: Option<string>)
      modifies this
      ensures Applied(State(), err) == Step(old(State()), act, blocks, scheduleData, answer)
      ensures saves == old(saves) && scheduleData == old(scheduleData) && blocks == old(blocks)
    {
      var alive := act.encoder in statusLabels && statusLabels[act.encoder];
      if act.encoder in statusLabels && !alive {
        statusLabels := statusLabels - {act.encoder};
      }
      var blk := FindBlockById(act.id);
      var title := if blk.Some? then blk.value.title else FirstEntryTitle(scheduleData, act.id).GetOr("");
      err := None;
      if act.kind == Start && act.id !in alreadyStarted {
        var c := Call(Start, act.id, act.encoder, title, alive);
        calls := calls + [c];
        err := answer(c);
        if err.None? {
          alreadyStarted := alreadyStarted + {act.id};
        }
      } else if act.kind == Stop && act.id !in alreadyStopped {
        var c := Call(Stop, act.id, act.encoder, title, alive);
        calls := calls + [c];
        err := answer(c);
        if err.None? {
          alreadyStopped := alreadyStopped + {act.id};
        }
      }
    }

    /** The body of `_apply_actions_on_main` with the runner answering by `answer`: nothing
        at all for an empty list; otherwise every action in order until a call raises, which
        ends the slot with that exception; when none raised, one save of the parent view
        when there is one. */
    method Apply(actions: seq<Action>, answer: Answer) returns (r: Outcome<()>)
      modifies this
      ensures var a := ApplyAll(old(State()), actions, blocks, scheduleData, answer);
              State() == a.marks
              && r == (if a.error.Some? then Raised(a.error.value) else Returned(()))
              && saves == old(saves) + (if actions != [] && hasView && a.error.None? then 1 else 0)
      ensures scheduleData == old(scheduleData) && blocks == old(blocks)
    {
      if actions == [] {
        return Returned(());
      }
      ghost var m0 := State();
      var i := 0;
      while i < |actions|
        invariant 0 <= i <= |actions|
        invariant State() == ApplyAll(m0, actions[..i], blocks, scheduleData, answer).marks
        invariant ApplyAll(m0, actions[..i], blocks, scheduleData, answer).error.None?
        invariant saves == old(saves) && scheduleData == old(scheduleData) && blocks == old(blocks)
      {
        ApplyAllStep(m0, actions, i, blocks, scheduleData, answer);
        var err := ApplyStep(actions[i], answer);
        if err.Some? {
          RaisedStays(m0, actions, i + 1, blocks, scheduleData, answer);
          return Raised(err.value);
        }
        i := i + 1;
      }
      assert actions[..i] == actions;
      if hasView {
        saves := saves + 1;
      }
      return Returned(());
    }

    /** `_apply_actions_on_main` as written: every start raises the `TypeError` of its
        four-argument call, and stops are answered by the runner. */
    method ApplyActions(actions: seq<Action>, answer: Answer) returns (r: Outcome<()>)
      modifies this
      ensures var a := ApplyAll(old(State()), actions, blocks, scheduleData, AsCalled(answer));
              State() == a.marks
              && r == (if a.error.Some? then Raised(a.error.value) else Returned(()))
              && saves == old(saves) + (if actions != [] && hasView && a.error.None? then 1 else 0)
      ensures alreadyStarted == old(alreadyStarted)
      ensures scheduleData == old(scheduleData) && blocks == old(blocks)
    {
      StartsNeverMarked(State(), actions, blocks, scheduleData, answer);
      r := Apply(actions, AsCalled(answer));
    }

    /** `_apply_actions_on_main` with the three-argument call the runner takes: every call
        is answered by the runner. */
    method ApplyActionsIntended(actions: seq<Action>, answer: Answer) returns (r: Outcome<()>)
      modifies this
      ensures var a := ApplyAll(old(State()), actions, blocks, scheduleData, answer);
              State() == a.marks
              && r == (if a.error.Some? then Raised(a.error.value) else Returned(()))
              && saves == old(saves) + (if actions != [] && hasView && a.error.None? then 1 else 0)
      ensures scheduleData == old(scheduleData) && blocks == old(blocks)
    {
      r := Apply(actions, answer);
    }

    /** One tick as written: the snapshot taken on day `today`, the worker run at `nowMs`,
        and its actions applied (the source runs the worker on a thread pool and applies the
        result when it arrives); `r` is how the applying slot ends. */
    method Tick(nowMs: int, today: Date, answer: Answer) returns (r: Outcome<()>)
      modifies this
      ensures var acts := ActionsFor(TodayItems(old(scheduleData), today), encoderNames,
                                     old(alreadyStarted), old(alreadyStopped), nowMs);
              var a := ApplyAll(old(State()), acts, old(blocks), old(scheduleData), AsCalled(answer));
              State() == a.marks
              && r == (if a.error.Some? then Raised(a.error.value) else Returned(()))
              && saves == old(saves) + (if acts != [] && hasView && a.error.None? then 1 else 0)
      ensures alreadyStarted == old(alreadyStarted)
      ensures scheduleData == old(scheduleData) && blocks == old(blocks)
    {
      var snap := MakeSnapshot(today);
      var actions := Run(snap, nowMs);
      r := ApplyActions(actions, answer);
    }

    /** One tick with the intended three-argument start call. */
    method TickIntended(nowMs: int, today: Date, answer: Answer) returns (r: Outcome<()>)
      modifies this
      ensures var acts := ActionsFor(TodayItems(old(scheduleData), today), encoderNames,
                                     old(alreadyStarted), old(alreadyStopped), nowMs);
              var a := ApplyAll(old(State()), acts, old(blocks), old(scheduleData), answer);
              State() == a.marks
              && r == (if a.error.Some? then Raised(a.error.value) else Returned(()))
              && saves == old(saves) + (if acts != [] && hasView && a.error.None? then 1 else 0)
      ensures scheduleData == old(scheduleData) && blocks == old(blocks)
    {
      var snap := MakeSnapshot(today);
      var actions := Run(snap, nowMs);
      r := ApplyActionsIntended(actions, answer);
    }
  }
}
