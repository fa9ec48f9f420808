# Recording scheduler: a Dafny model

This project models the core of a desktop recording scheduler. The scheduler keeps a weekly timetable of recording *blocks*. Each block has a date, a track (one per encoder), a start hour, a duration and a label. At the right moment it starts and stops remote video encoders over a text protocol (`Setfile`, `Start`, `Stop`, `EncStatus`, `List`). The model covers the deterministic layer under the widgets and sockets:

- the timeline's interval model;
- overlap and conflict tests;
- the visible-week filter;
- the `yyyy-MM-dd` save format (the ISO 8601 extended calendar-date form);
- the two reconcilers that decide when to start and stop, each marking a block once its call has returned;
- the device status classifier and its cool-down cache;
- the persistent device link with one retry;
- the chunked read loop;
- the `List` reply parsers;
- the form parsers and acceptance guards of the add and edit dialogs;
- the drag and resize rules of a block on screen;
- the unique-label generator;
- the encoder registry editor;
- the path and configuration builders;
- the log, whose 500-line limit raises as written and trims as intended.

"Now", device replies and file contents are parameters. A device is a `Link` object with planned connection outcomes and replies, or, in `Timetable`, a function from command to reply.

## Modules

| module | source |
|---|---|
| `Wrappers` | the `Option`/`Result` types |
| `Text` | Python string built-ins: `strip`, `split`, `splitlines`, `in`, `find`, `f"{n:02d}"`, `str(n)`, `os.path.join` on Windows |
| `QtTime` | QDate (proleptic Gregorian), QTime, QDateTime as milliseconds, `secsTo`, the `yyyy-MM-dd` format, and the hour↔clock conversions the code uses |
| `ScheduleView` | schedule_project/schedule_view.py |
| `ConflictCheck` | schedule_project/utils_conflict.py |
| `BlockManager` | schedule_project/block_manager.py |
| `TimeBlock` | schedule_project/time_block.py |
| `Logging` | schedule_project/utils.py |
| `PathManager` | schedule_project/path_manager.py |
| `EncoderUtils` | schedule_project/encoder_utils.py |
| `EncoderController` | schedule_project/encoder_controller.py |
| `EncoderStatus` | schedule_project/encoder_status_manager.py |
| `ScheduleRunner` | schedule_project/schedule_runner.py |
| `CheckScheduleManager` | schedule_project/check_schedule_manager.py |
| `AddBlockDialog` | schedule_project/add_block_dialog.py |
| `EditBlockDialog` | schedule_project/edit_block_dialog.py |
| `EncoderManagerDialog` | schedule_project/EncoderManagerDialog.py |
| `Timetable` | timetable.py, the earlier single-file version of the application |

Objects whose fields the source updates become classes whose methods have `modifies` clauses:

- the views;
- the runner;
- the check manager;
- the status manager;
- the path manager;
- the logger;
- the device link;
- a block on screen;
- the registry dialog;
- the timetable window.

Each such method is proved against a specification function, and that function's properties are proved as lemmas. Pure code (parsers, filters, the worker's action computation) becomes functions and lemmas.

Representation choices:

- **Hours.** Hours, which are Python floats in the source, are integer seconds. Every hour the program stores is a quarter hour or is rounded to hundredths of an hour, which is a multiple of 36 s. `round(x, 2)` on hours is therefore the nearest multiple of 36 s, ties to even. The truncation `int((h % 1) * 60)` drops the seconds.
- **Pixels.** On the timeline, 1 px stands for 180 s.
- **Dates and instants.** A date is `Null` or a valid year-month-day. An instant is milliseconds from 1970-01-01 in local time. An invalid QTime in a QDateTime counts as midnight.
- **Empty values.** `None` and `""` are the same for a label to exclude and for a block id, since both are falsy.

`timetable.py:90-94` defines the same `format_text` as `schedule_project/time_block.py:58-62`. The `TimeBlock` members below cover both.

Where the code and its documented intent differ, the model follows the code:

- the status classifier is case-sensitive and has no fallback to the last good status;
- a block id is marked started, or stopped, once the runner call returns, whether or not the encoder accepted the command; a call that raises leaves the id unmarked, skips the rest of the batch and the save;
- the schedule is saved after every non-empty batch of actions in which no call raised;
- a start is only issued within the 0–1 s `secsTo` window.

## Model

| member | source | states |
|---|---|---|
| ScheduleView.IntersectsProperties | schedule_project/schedule_view.py:89-92 | The collision test is symmetric in the two intervals; intervals that only touch do not collide; for positive durations it is the usual half-open intersection `s1 < e2 && s2 < e1`. |
| ScheduleView.IsOverlap | schedule_project/schedule_view.py:84-95 | True iff some entry has the same date and track, does not carry the excluded label (an empty label excludes nothing), and intersects the new half-open interval. |
| ScheduleView.OverlapIgnoresPreviousDay | schedule_project/schedule_view.py:86 | Only entries of the same date are compared: a 23:00-01:00 entry of the day before does not collide with 00:00-01:00 of the next day. |
| ScheduleView.ExcludeOnlyRemoves | schedule_project/schedule_view.py:87-88 | Excluding a label can only remove collisions; with no collision under "" there is none under any exclusion. |
| ScheduleView.VisibleDays | schedule_project/schedule_view.py:70-75 | In day numbers, an entry is drawn iff its date is before base + 7 and its date plus the whole days of start + duration is not before base. |
| ScheduleView.ShownMembers | schedule_project/schedule_view.py:72-82 | `draw_blocks` draws exactly the entries that pass the range test. |
| ScheduleView.ShownAppend | schedule_project/schedule_view.py:72-82 | The drawn entries keep `block_data` order: drawing a concatenation draws the concatenation of the drawn parts. |
| ScheduleView.WithoutLabel | schedule_project/schedule_view.py:113 | The kept entries are exactly those whose label differs, no more of them than before. |
| ScheduleView.WithoutLabelAppend | schedule_project/schedule_view.py:113 | The removal keeps the original order of the remaining entries. |
| ScheduleView.WithoutAbsentLabel | schedule_project/schedule_view.py:113 | Removing a label no entry carries changes nothing. |
| ScheduleView.FirstWithLabel | schedule_project/schedule_view.py:108-112 | The index found is that of the first drawn block with the label, or the length when there is none. |
| ScheduleView.RemoveFirst | schedule_project/schedule_view.py:108-112 | Only the first drawn block with the label is removed (one fewer, the same multiset otherwise); with none, nothing changes. |
| ScheduleView.ToRecord | schedule_project/schedule_view.py:123-129 | A saved object keeps track, start, duration and label; its date text reads back as the date (for years up to 9999). |
| ScheduleView.FromRecord | schedule_project/schedule_view.py:140-146 | A loaded entry keeps track, start, duration and label and has no encoder name or id; a valid date came from a ten-character text. |
| ScheduleView.SaveLoadRoundTrip | schedule_project/schedule_view.py:119-147 | Saving and loading back gives every entry with its five fields, in order, with the encoder name and id dropped. |
| ScheduleView.View.constructor | schedule_project/schedule_view.py:8-24 | The view opens on today and holds the file's entries, or none when there is no file, drawn for the first week. |
| ScheduleView.View.DrawBlocks | schedule_project/schedule_view.py:65-82 | The drawn blocks are exactly the visible entries in order; nothing else changes. |
| ScheduleView.View.AddTimeBlock | schedule_project/schedule_view.py:98-106 | Exactly one entry with the five given fields is appended at the end, with no overlap check; the earlier entries are unchanged, and the view is redrawn. |
| ScheduleView.View.SaveSchedule | schedule_project/schedule_view.py:119-133 | The file holds exactly the saved form of every entry; a failed write changes nothing. |
| ScheduleView.View.LoadSchedule | schedule_project/schedule_view.py:135-151 | The entries are replaced by the file's and redrawn; a missing file leaves the view as it was. |
| ScheduleView.View.RemoveBlockByLabel | schedule_project/schedule_view.py:107-114 | The first drawn block with the label and every entry with it are removed, the rest keep their order, and the schedule is saved. |
| ScheduleView.View.SetStartDate | schedule_project/schedule_view.py:115-117 | The week starts on the new date and the drawn blocks are those visible from it. |
| ScheduleView.RemovalThenLoad | schedule_project/schedule_view.py:113-114 | After a removal no entry carries the label, and the saved file loads back as the remaining entries. |
| ConflictCheck.FindConflictBlocks | schedule_project/utils_conflict.py:5-26 | The labels of exactly those file entries that share the track and the date and whose date-time interval meets the proposed one, in file order; empty iff there are none. |
| ConflictCheck.ConflictsAppend | schedule_project/utils_conflict.py:12-24 | Results follow file order: for a concatenated file the result is the concatenation of the results. |
| ConflictCheck.ReportsItself | schedule_project/utils_conflict.py:13-24 | There is no self-exclusion: an entry with a positive duration is reported when its own date, track and start are asked about. |
| ConflictCheck.StartTruncatedToMinute | schedule_project/utils_conflict.py:6 | The proposed start counts only to the minute: seconds within the minute never change the result. |
| ConflictCheck.ExactStartInstant | schedule_project/utils_conflict.py:6 | For whole-minute starts within the day, the start date-time is exactly the date's midnight plus the start. |
| ConflictCheck.AgreesWithIsOverlap | schedule_project/utils_conflict.py:13-24 | For whole-minute starts within the day, a conflict is found iff the view's overlap test fires on the loaded entries. |
| BlockManager.CandidateInjective | schedule_project/block_manager.py:11-13 | Different attempts of the label loop produce different labels. |
| BlockManager.TriedCardinality | schedule_project/block_manager.py:11-13 | After `n` attempts, `n` distinct labels have been tried. |
| BlockManager.ChooseLabel | schedule_project/block_manager.py:8-13 | The chosen label is not among the existing ones; it is the base label when that is free, and otherwise one of the first attempts, so the loop ends. |
| BlockManager.Labels | schedule_project/block_manager.py:9 | One label per entry, in order; exactly the entries' labels. |
| BlockManager.AddBlockWithUniqueLabel | schedule_project/block_manager.py:7-31 | The view gains two entries on its first day under a label no earlier entry had: the one `add_time_block` appends, and a second carrying the encoder name when one is given. Earlier entries are kept, and the schedule is saved. |
| TimeBlock.Fmt | schedule_project/time_block.py:59 | A time of day prints as five characters "HH:MM" that read back as the time truncated to the minute. |
| TimeBlock.EndText | schedule_project/time_block.py:60-61 | The end prints as "HH:MM", with " (+N)" from 24 hours on; either form reads back as the end truncated to the minute, whole days included. |
| TimeBlock.DayEndReadsBack | schedule_project/time_block.py:60-61 | An end from 24 hours on, printed as the clock of the rest of the day and " (+N)" whole days, reads back as the end truncated to the minute. |
| TimeBlock.SuffixReadsBack | schedule_project/time_block.py:61 | A clock followed by " (+N)" reads back as N days plus the clock. |
| TimeBlock.DaysAndClock | schedule_project/time_block.py:61 | The whole days of the end plus its truncated clock within the day equal the truncated end. |
| TimeBlock.RangeTextReadsBack | schedule_project/time_block.py:62 | The "start - end" line reads back as the start and the end, each truncated to the minute. |
| TimeBlock.FormatTextReadsBack | schedule_project/time_block.py:58-62 | The block text is the label, a line break, and a line that reads back as the start and the end truncated to the minute. |
| TimeBlock.Round36 | schedule_project/time_block.py:90 | Rounding a length to two decimals of an hour gives a multiple of 36 s within 18 s of it, and keeps a multiple of 36 s as it is. |
| TimeBlock.Round36Monotone | schedule_project/time_block.py:97 | Rounding never reverses the order of two lengths. |
| TimeBlock.DropHour | schedule_project/time_block.py:120-122 | The hour under a drop position is a multiple of 36 s between 0 and 24:00 inclusive, so the `new_hour < 0` refusal never fires. |
| TimeBlock.ResizedRight | schedule_project/time_block.py:85-93 | A right-edge drag is taken iff the new right edge stays inside the scene and the rounded width does not overlap another entry. The new duration is then at least an hour, within 18 s of the cursor width. |
| TimeBlock.ResizedLeft | schedule_project/time_block.py:95-107 | A left-edge drag is refused iff the duration would fall under an hour, the left edge would leave the scene, or the new interval overlaps. A taken drag keeps the end where it was. |
| TimeBlock.Dropped | schedule_project/time_block.py:118-135 | A drop is taken iff it lands inside the scene on a listed track without overlap. The block then takes the date, start and track under the drop point; the start is a multiple of 36 s between 0 and 24:00. |
| TimeBlock.Moved | schedule_project/time_block.py:142-150 | Only the first entry with the label takes the new date, track, start and duration; every label, encoder name and id is kept. |
| TimeBlock.DropKeepsApart | schedule_project/time_block.py:132-150 | After a drop the entries with other labels are unchanged, and none of them on the new date and track intersects the dropped block. |
| TimeBlock.DropAtOwnPlace | schedule_project/time_block.py:64-68 | Dropping a block where it is drawn gives back its own date, start and track, for a start that is a whole hundredth of an hour within its day. |
| TimeBlock.LeftResizeBeforeMidnight | schedule_project/time_block.py:95-107 | A left-edge drag can move the start before midnight of the block's own date (a 00:00 block of the second day shown takes start -2 h). |
| TimeBlock.TimeBlock.constructor | schedule_project/time_block.py:9-16 | A new block holds the given date, track, start, duration and label, with the waiting status. |
| TimeBlock.TimeBlock.DragRight | schedule_project/time_block.py:85-93 | Only the duration can change, and it changes exactly when the right-edge drag is taken. |
| TimeBlock.TimeBlock.DragLeft | schedule_project/time_block.py:95-107 | Start and duration change together when the left-edge drag is taken; their sum, the end, never changes. |
| TimeBlock.TimeBlock.Release | schedule_project/time_block.py:112-153 | A refused drop changes nothing. A taken drop moves the block, updates the first entry with its label, and saves the schedule. |
| Logging.ClockText | schedule_project/utils.py:25 | The timestamp is eight characters `HH:mm:ss` with colons at positions 2 and 5. |
| Logging.LogLine | schedule_project/utils.py:26 | The line starts with "[" + timestamp + "] [", ends with the text, and has the length of its parts. |
| Logging.KeepLast | schedule_project/utils.py:40-41 | As intended, the box keeps its last lines: at most 500, all of them when there are no more, and always a suffix of the original. |
| Logging.Trim | schedule_project/utils.py:40-41 | The trimming loop as intended leaves exactly the last 500 lines (all of them when there are fewer). |
| Logging.Logger.constructor | schedule_project/utils.py:6-9 | The log starts with no box, nothing buffered and nothing written. |
| Logging.Logger.Log | schedule_project/utils.py:24-41 | As written: an error, a warning, or any line in debug mode goes to standard output, to the log file when it can be written, and to the box if there is one, untrimmed. The call raises the missing-`removeBlock` error iff the box then holds more than 500 lines. Other lines go nowhere, and nothing is ever buffered. |
| Logging.Logger.LogIntended | schedule_project/utils.py:24-41 | As intended: the same outputs, with the box trimmed to its last 500 lines. |
| Logging.Logger.SetLogBox | schedule_project/utils.py:10-18 | The new box receives the buffered lines after its own, and the buffer is emptied. |
| Logging.TrimEachTime | schedule_project/utils.py:39-41 | Trimming as intended after every line equals trimming once: the box always holds the last 500 lines it was given. |
| PathManager.LoadPaths | schedule_project/path_manager.py:48-65 | The roots come from `config.json`, or from the bundled copy when that file is absent. The record root defaults to `<cwd>\Recordings`; the snapshot root defaults to the resolved record root. A read error keeps both defaults. |
| PathManager.SnapshotFollowsRecord | schedule_project/path_manager.py:62 | Without a snapshot entry, the snapshot root equals the record root. |
| PathManager.WithRecordRoot | schedule_project/path_manager.py:28-29 | The rewritten configuration sets `record_root`, keeps an existing `snapshot_root` (otherwise sets it to the same path), and keeps every other key. |
| PathManager.WithSnapshotRoot | schedule_project/path_manager.py:41-42 | The rewritten configuration sets `snapshot_root`, keeps an existing `record_root` (otherwise the in-memory one), and keeps every other key. |
| PathManager.SaveThenLoad | schedule_project/path_manager.py:22-65 | A saved root loads back as itself. Saving the record root into a file without a snapshot entry makes both roots that path. |
| PathManager.FullPath | schedule_project/path_manager.py:17-20 | For today's (valid) date, the full path starts with the record root and ends with `MMdd_<filename>`; the encoder name plays no part. |
| PathManager.FolderNameRelative | schedule_project/path_manager.py:18 | A day's folder name is a relative name without a drive, so joining it extends the root. |
| PathManager.FileNameRelative | schedule_project/path_manager.py:19-20 | The recording's file name starts with two digits, so it is a relative name without a drive whatever the user typed. |
| PathManager.Paths.constructor | schedule_project/path_manager.py:14-15 | The roots are those `load_paths` gives for the files as they are. |
| PathManager.Paths.SaveRecordRoot | schedule_project/path_manager.py:22-33 | The file receives the merged configuration (from an empty one when it is absent). An unreadable file or a failed write changes nothing, and the in-memory roots never change. |
| PathManager.Paths.SaveSnapshotRoot | schedule_project/path_manager.py:35-46 | As for the record root, with `record_root` defaulting to the in-memory record root. |
| PathManager.Paths.GetImagePath | schedule_project/path_manager.py:70-77 | A non-string id or a non-date raises with its message, the id checked first. Otherwise the path ends with the path part of `<id>.png`, and, for an id that is a relative name without a drive, starts with the record root and ends with `<id>.png` itself. |
| PathManager.ImagePath | schedule_project/path_manager.py:76-77 | The image path ends with the path part of the file name; for a relative name without a drive it starts with the root and ends with the name. |
| EncoderUtils.ReadsConsumed | schedule_project/encoder_utils.py:74-81 | The read loop consumes no more reads than the device offers. |
| EncoderUtils.CollectIsChunks | schedule_project/encoder_utils.py:73-81 | The data collected is exactly the chunks read before the loop stopped, concatenated in order. |
| EncoderUtils.ReplyOf | schedule_project/encoder_utils.py:69-90 | A connection error while writing is re-raised as a lost connection with its text; any other error gives "". An answer is stripped, so it has no whitespace at either end. |
| EncoderUtils.ReadLoop | schedule_project/encoder_utils.py:73-81 | The loop appends chunks until an empty chunk, a timeout or an error, with the outcome the read-loop specification gives. |
| EncoderUtils.CollectAt | schedule_project/encoder_utils.py:75-81 | One step of the loop: a timeout or an empty chunk ends it with no further data, an error ends it with that error, and data continues it. |
| EncoderUtils.PrependTwice | schedule_project/encoder_utils.py:79 | Appending chunk after chunk equals appending their concatenation. |
| EncoderUtils.Link.constructor | schedule_project/encoder_utils.py:9 | The link starts with no shared connection, nothing written and nothing closed. |
| EncoderUtils.Link.ConnectSocket | schedule_project/encoder_utils.py:51-63 | Each attempt consumes one planned outcome and gives a fresh socket or `None`. |
| EncoderUtils.Link.Close | schedule_project/encoder_utils.py:100 | Closing adds the socket to the closed ones and changes nothing else. |
| EncoderUtils.Link.InitSocket | schedule_project/encoder_utils.py:11-18 | An existing shared connection is reused untouched; otherwise one attempt is made and becomes the shared connection. |
| EncoderUtils.Link.CloseSocket | schedule_project/encoder_utils.py:20-30 | The shared connection is closed and forgotten; with none, nothing changes. |
| EncoderUtils.Link.SendCommand | schedule_project/encoder_utils.py:65-90 | With no socket, the answer is "" and nothing is written. Otherwise `cmd + "\r\n"` is written once and the reply is the one the planned exchange produces. |
| EncoderUtils.Link.SendPersistentCommand | schedule_project/encoder_utils.py:32-49 | Each path stated with its reply, shared socket, writes and closed sockets. No socket at first: "" and nothing written. An answered first send: that reply, one write, and the socket (new or kept) is shared. A lost connection with a working reconnection: the old socket closed, a second write on the new one, which becomes shared, and its reply (a second loss propagates). A failed reconnection: the reconnection-failure text and no shared socket. The link's invariant is kept. |
| EncoderUtils.PersistentReply | schedule_project/encoder_utils.py:32-49 | The reply is a lost connection iff a socket was found, the first exchange was lost, the reconnection worked and the second exchange was lost too; an answered first exchange is the reply. |
| EncoderUtils.Link.ListEncoders | schedule_project/encoder_utils.py:92-109 | With no connection there are no names and nothing is written. Otherwise "List\r\n" is written once on a fresh socket; the names come from the answer, and a lost connection propagates with its text. |
| EncoderUtils.NameOfClean | schedule_project/encoder_utils.py:105 | A name is free of "Mode:" and has no whitespace at either end. |
| EncoderUtils.ParseLines | schedule_project/encoder_utils.py:103-106 | The k-th name is the clean name taken from the k-th line containing "Mode:", and there is one name per such line. |
| EncoderUtils.ModeLinesOfSpec | schedule_project/encoder_utils.py:104 | The kept lines are exactly the lines that contain "Mode:". |
| EncoderUtils.ParseLinesClean | schedule_project/encoder_utils.py:103-106 | Every name taken from the `List` answer is clean. |
| EncoderController.RelPath | schedule_project/encoder_controller.py:18 | The relative path is `MM.dd.yyyy/MMdd_<filename>`: the same characters as the backslash form, with no backslash left. |
| EncoderController.Controller.constructor | schedule_project/encoder_controller.py:8-9 | The controller keeps the record root it is given. |
| EncoderController.Controller.StartEncoder | schedule_project/encoder_controller.py:16-35 | With no connection, nothing is written and the result is failure with the no-connection text. Otherwise the writes are the three-argument `Setfile`, the two-argument one only after "Invalid Parameters", and `Start`. Success iff the final `Setfile` answer and the `Start` answer both contain "OK"; a lost connection propagates with the text of the first lost exchange. |
| EncoderController.Controller.StopEncoder | schedule_project/encoder_controller.py:38-44 | With no connection, false and nothing written. Otherwise one `Stop` write, then the socket is closed; the result is whether the answer contains "OK", and a lost connection propagates with its text. |
| EncoderStatus.Parse | schedule_project/encoder_status_manager.py:14-29 | The status is the first, in the order running, paused, stopped, preparing, error, whose words occur in the stripped reply; unknown when none does. |
| EncoderStatus.FirstMentioned | schedule_project/encoder_status_manager.py:19-29 | The ordered tests pick the first status mentioned, and no earlier one is mentioned. |
| EncoderStatus.ContainsStripped | schedule_project/encoder_status_manager.py:18 | A word with no whitespace at either end occurs in the stripped reply iff it occurs in the reply. |
| EncoderStatus.MentionsStripped | schedule_project/encoder_status_manager.py:18-28 | Stripping never changes whether a status is mentioned. |
| EncoderStatus.PairStripped | schedule_project/encoder_status_manager.py:19-25 | The same holds for the two-word tests. |
| EncoderStatus.ParseRaw | schedule_project/encoder_status_manager.py:18-29 | The status is the first one mentioned anywhere in the raw reply. |
| EncoderStatus.LowerCaseIsUnknown | schedule_project/encoder_status_manager.py:19-29 | The tests are case-sensitive: a reply with no capital letter is always unknown. |
| EncoderStatus.NoCapitalNoMatch | schedule_project/encoder_status_manager.py:19-28 | A word that starts with a capital never occurs in a text without capitals. |
| EncoderStatus.KwargErrorIsUnknown | schedule_project/encoder_status_manager.py:53-57 | The text of the `TypeError` raised by the keyword argument parses as unknown. |
| EncoderStatus.NoCapitalConcat | schedule_project/encoder_status_manager.py:57 | Joining two texts without capitals gives a text without capitals. |
| EncoderStatus.StatusManager.constructor | schedule_project/encoder_status_manager.py:7-12 | The manager starts with empty caches and the given cool-down and log period. |
| EncoderStatus.StatusManager.MaybeLog | schedule_project/encoder_status_manager.py:31-36 | A reply is logged iff it changed or the log period has passed since the encoder's last log line; only then does that time move. |
| EncoderStatus.StatusManager.Store | schedule_project/encoder_status_manager.py:59-63 | The reply and the query's time are cached, and the reply is logged, at the second read from the clock again, when it differs from the cached one or the period has passed. |
| EncoderStatus.StatusManager.GetStatus | schedule_project/encoder_status_manager.py:38-65 | Within the cool-down, the cached reply is parsed and nothing changes. Otherwise the cached reply is what `send_persistent_command` answers from the link's state, or the text of the lost connection it raises; it is cached with the query's time, logged by the rule at the later log instant, and parsed. Only `EncStatus "<name>"` is written, and only this encoder's cache entry changes. |
| EncoderStatus.StatusManager.GetStatusAsWritten | schedule_project/encoder_status_manager.py:38-65 | As written, the request raises before anything is sent, so the cache only ever holds the exception text and every status is unknown. Outside the cool-down, the exception text is cached with the query time and logged by the log rule at the second clock reading, as a change exactly when the cached reply differed. |
| EncoderStatus.StatusManager.RefreshAll | schedule_project/encoder_status_manager.py:67-69 | The table has exactly the given names, each with the status of the reply cached for it at the end; other encoders' cache entries are kept. Each query reads the clock anew. This is the intended form, querying through `GetStatus`. |
| EncoderStatus.StatusManager.RefreshAllAsWritten | schedule_project/encoder_status_manager.py:67-69 | As written, each query goes through `GetStatusAsWritten`, so nothing is sent. The table has exactly the given names, each with the status of its cached reply, and other encoders' entries are kept. From a cache holding only the exception text, as from construction on, every status in the table is unknown. |
| EncoderStatus.RefreshStep | schedule_project/encoder_status_manager.py:69 | One query adds its name to the table and keeps both invariants of the table. |
| ScheduleRunner.RemainingRoundTrip | schedule_project/schedule_runner.py:115-119 | The remaining-time text `HH:MM:SS` (the hours growing past two digits when needed) reads back as the same number of seconds. |
| ScheduleRunner.ClockFields | schedule_project/schedule_runner.py:116-118 | The minute and second fields are below 60 and recombine to the whole: 3600 h + 60 m + s = seconds. |
| ScheduleRunner.ClockShape | schedule_project/schedule_runner.py:119 | In `hs:ms:ss` with two-digit minutes and seconds, the fields sit at fixed places from the end. |
| ScheduleRunner.RunnerClockAgrees | schedule_project/schedule_runner.py:31-33 | For starts at or after midnight, the runner's truncated hour and minute are the clock every other module uses. |
| ScheduleRunner.PhaseCases | schedule_project/schedule_runner.py:44-72 | For a non-negative duration, exactly one case applies: recording iff start ≤ now < end; ended iff now ≥ end and the label is not yet stopped; waiting iff now < start; otherwise nothing. |
| ScheduleRunner.ShownSecondsNonNegative | schedule_project/schedule_runner.py:44-68 | The remaining time and the countdown shown are never negative. |
| ScheduleRunner.EncoderAt | schedule_project/schedule_runner.py:39 | A track selects an encoder iff it indexes the name list (negative tracks count from the end, as in Python); any other track raises `IndexError`. |
| ScheduleRunner.FirstTile | schedule_project/schedule_runner.py:121-125 | The block found is the first with the label, or none when no block has it. |
| ScheduleRunner.WithStatusKeepsTitles | schedule_project/schedule_runner.py:48-72 | Writing a status keeps the number of blocks and every block's label. |
| ScheduleRunner.Runner.constructor | schedule_project/schedule_runner.py:8-17 | The runner keeps the schedule, names, labels and blocks it is given, with nothing started or stopped. |
| ScheduleRunner.Runner.FindBlockByLabel | schedule_project/schedule_runner.py:121-125 | The loop returns the index of the first block with the label, or none. |
| ScheduleRunner.Runner.StartEncoder | schedule_project/schedule_runner.py:74-96 | With no connection, the label shows the no-connection text and nothing is written. Otherwise `Setfile` (path unquoted) and `Start` are written, and the label shows recording iff both answers contain "OK". A lost connection propagates with its text. |
| ScheduleRunner.Runner.StopEncoder | schedule_project/schedule_runner.py:98-113 | The label shows stopped iff the `Stop` answer contains "OK", and the stop failure otherwise or when there is no connection. |
| ScheduleRunner.Runner.SetLabel | schedule_project/schedule_runner.py:83-84 | The encoder's label takes the text and colour; an encoder without a label raises `AttributeError`. |
| ScheduleRunner.Runner.ShowStatus | schedule_project/schedule_runner.py:41-72 | The first block with the entry's label shows the remaining time, the end or the countdown; every other block is untouched. |
| ScheduleRunner.Runner.CheckEntry | schedule_project/schedule_runner.py:25-72 | An invalid track raises before anything changes. A recording entry not yet started is started once; an ended entry not yet stopped is stopped once. The label is marked only when the call returns, and nothing else is sent. |
| ScheduleRunner.Runner.CheckStep | schedule_project/schedule_runner.py:25-72 | One pass over an entry keeps the loop's bookkeeping: the marks stay within the qualifying labels and the calls are fresh; if nothing raised, the marks cover the entries up to this one. |
| ScheduleRunner.Runner.CheckSchedule | schedule_project/schedule_runner.py:23-72 | After a full pass, the labels marked started are the earlier ones plus those of the recording entries, and those marked stopped are the earlier ones plus those of the ended entries. No label is started or stopped twice, nor one already marked. |
| ScheduleRunner.TitlesStep | schedule_project/schedule_runner.py:25 | One more entry adds at most its own label to the recording and ended labels. |
| ScheduleRunner.PrefixTitles | schedule_project/schedule_runner.py:25 | The labels of a prefix are among those of the whole schedule. |
| ScheduleRunner.Advance | schedule_project/schedule_runner.py:52-63 | One iteration keeps the loop's bookkeeping: the calls are fresh and the marks grow by the qualifying label. |
| CheckScheduleManager.TodayItemsSpec | schedule_project/check_schedule_manager.py:84-120 | The snapshot holds exactly the entries with a truthy id dated today, in order. Text dates are parsed as `yyyy-MM-dd`; the end date defaults to the start date and the end hour to start + duration. |
| CheckScheduleManager.TodayItemsStep | schedule_project/check_schedule_manager.py:87-113 | One more entry adds its item exactly when it is kept. |
| CheckScheduleManager.ItemActionsSpec | schedule_project/check_schedule_manager.py:33-59 | An item with an empty id or an out-of-range track emits nothing. Otherwise it emits at most a start then a stop, for its id and encoder. The start comes iff the id is not started and now lies in the window where `secsTo` is 0 or 1. The stop comes iff the id is not stopped and the end is reached. |
| CheckScheduleManager.OvernightStopFirst | schedule_project/check_schedule_manager.py:39-59 | An entry from a minute after midnight or later that runs past midnight, with no end date or end hour, ends at its start day's midnight, before its start. At that midnight the worker emits exactly its stop. |
| CheckScheduleManager.ConcatMapMembers | schedule_project/check_schedule_manager.py:33-59 | The worker's list holds exactly the actions its items emit. |
| CheckScheduleManager.ActionsForMembers | schedule_project/check_schedule_manager.py:25-61 | An action is in the worker's result exactly when some snapshot item emits it. |
| CheckScheduleManager.ActionsForStep | schedule_project/check_schedule_manager.py:33-59 | One more item appends its own actions. |
| CheckScheduleManager.Run | schedule_project/check_schedule_manager.py:25-61 | The worker's loop returns the actions of the snapshot's items, in item order. It reads only the snapshot. |
| CheckScheduleManager.FirstByIdSpec | schedule_project/check_schedule_manager.py:169-173 | The block found has the id and no earlier block has it; nothing is found only when no block has it. |
| CheckScheduleManager.ApplyAllStep | schedule_project/check_schedule_manager.py:137-161 | Applying one more action is one more step of the loop, unless an earlier call has raised. |
| CheckScheduleManager.RaisedStays | schedule_project/check_schedule_manager.py:137-161 | Once a call has raised, the rest of the list is skipped. |
| CheckScheduleManager.IdsOfSnoc | schedule_project/check_schedule_manager.py:156-161 | One more action adds its id to the ids of its kind. |
| CheckScheduleManager.StepSpec | schedule_project/check_schedule_manager.py:142-161 | One action calls the runner exactly when its id is not yet in the set of its kind. The id joins that set only when the call returns; a raise ends the batch with the call's exception. A status label Qt has deleted is dropped, and the others are kept. |
| CheckScheduleManager.ApplyAllMarks | schedule_project/check_schedule_manager.py:137-161 | Applying a list grows the started and stopped sets only by ids of its start and stop actions. When no call raised, they grow by exactly those ids, whatever the encoder answered. Status labels are only removed. |
| CheckScheduleManager.ApplyAllRaised | schedule_project/check_schedule_manager.py:153-161 | A batch that ends in an exception ends at a call made for one of its actions. That call's answer is the exception, and its id stays unmarked. |
| CheckScheduleManager.ApplyAllCallsOnce | schedule_project/check_schedule_manager.py:153-161 | Each runner call is for an id not marked before the list. Each is marked after it, except a last call that raised. No id is started twice or stopped twice within a list. |
| CheckScheduleManager.CalledOnceStep | schedule_project/check_schedule_manager.py:153-161 | One step keeps the called-once property. |
| CheckScheduleManager.SettledFixed | schedule_project/check_schedule_manager.py:153-158 | Actions that have all taken effect make no call and change nothing when applied again. |
| CheckScheduleManager.ApplyAllSettles | schedule_project/check_schedule_manager.py:137-161 | After a list is applied with no call raising, every action in it has taken effect. |
| CheckScheduleManager.ApplyIdempotent | schedule_project/check_schedule_manager.py:153-161 | Applying a list that raised nothing a second time changes nothing: a duplicate of a returned call never reaches the runner again. |
| CheckScheduleManager.RaisedEmittedAgain | schedule_project/check_schedule_manager.py:153-161 | The action whose call raised stays unmarked. The worker on the next tick emits it again while its item is in its start window, or past its end for a stop. |
| CheckScheduleManager.StartsNeverMarked | schedule_project/check_schedule_manager.py:155-156 | With the four-argument `start_encoder` call, the started set never grows. A list holding a start for an id not yet started always ends in an exception, so the view is not saved. |
| CheckScheduleManager.StartRaisesOnce | schedule_project/check_schedule_manager.py:153-156 | As written, one start for a fresh id records the call, raises the `TypeError` and leaves the id unmarked. |
| CheckScheduleManager.Manager.constructor | schedule_project/check_schedule_manager.py:69-81 | Starts with no schedule, no blocks, and empty started and stopped sets. |
| CheckScheduleManager.Manager.MakeSnapshot | schedule_project/check_schedule_manager.py:84-120 | The loop builds the snapshot from the encoder names, copies of both sets, and today's items. |
| CheckScheduleManager.Manager.FindBlockById | schedule_project/check_schedule_manager.py:169-173 | The loop returns the first block with the id. |
| CheckScheduleManager.Manager.ApplyStep | schedule_project/check_schedule_manager.py:138-161 | One action of the loop: the new marks, labels and calls, and the exception raised if any, are exactly the step function's on the old state. Saves, schedule and blocks are unchanged. |
| CheckScheduleManager.Manager.Apply | schedule_project/check_schedule_manager.py:133-167 | The loop applies the actions until a call raises; the marks, labels and calls follow the step function. The slot ends with the exception iff one was raised. The view saves once iff the list is non-empty, a view exists and nothing raised. The schedule and blocks are untouched. |
| CheckScheduleManager.Manager.ApplyActions | schedule_project/check_schedule_manager.py:133-167 | As written: the same, with every start raising the `TypeError` of its four-argument call. The started set is unchanged. |
| CheckScheduleManager.Manager.ApplyActionsIntended | schedule_project/check_schedule_manager.py:133-167 | Intended: the same, with every call answered by the runner. |
| CheckScheduleManager.Manager.Tick | schedule_project/check_schedule_manager.py:123-128 | As written: a tick applies the worker's actions for the snapshot taken at its start, with every start raising; the started set is unchanged. |
| CheckScheduleManager.Manager.TickIntended | schedule_project/check_schedule_manager.py:123-128 | Intended: a tick applies the worker's actions for its snapshot, each call answered by the runner. |
| AddBlockDialog.HalfWidthChar | schedule_project/add_block_dialog.py:68-71 | A character in U+FF01..U+FF5E moves down by 0xFEE0, any other is kept, and the result is never in that block. |
| AddBlockDialog.FoldChars | schedule_project/add_block_dialog.py:69-71 | Folding keeps the length and folds each character independently. |
| AddBlockDialog.ToHalfWidthSpec | schedule_project/add_block_dialog.py:68-72 | `to_half_width` keeps the length, shifts every full-width character down by 0xFEE0, keeps the others, and leaves none of the block. The trailing `replace('：', ':')` never finds anything. |
| AddBlockDialog.TimeOfGroups | schedule_project/add_block_dialog.py:82-89 | A time is produced iff the groups read as an hour 0..23 and a minute 0..59. It is those two values, and a valid time. |
| AddBlockDialog.ColonFreeDigits | schedule_project/add_block_dialog.py:78 | Without a colon, 2 to 4 digits match: the hour group takes two digits except in a two-digit text. Any other length fails. |
| AddBlockDialog.TwoDigits | schedule_project/add_block_dialog.py:78-89 | Two digits read as a one-digit hour and a one-digit minute ("12" is 01:02). |
| AddBlockDialog.ThreeDigits | schedule_project/add_block_dialog.py:76-89 | Three digits: the code reads `ab:c` when `ab` ≤ 23 and rejects the text otherwise. The corrected parser then tries `a:bc`. |
| AddBlockDialog.FourDigits | schedule_project/add_block_dialog.py:76-89 | Four digits read as `hh:mm` when both are in range, else as nothing, in both versions. |
| AddBlockDialog.ShortColon | schedule_project/add_block_dialog.py:76-89 | `h:mm` reads as that hour and minute when the minute is ≤ 59. |
| AddBlockDialog.LongColon | schedule_project/add_block_dialog.py:76-89 | `hh:mm` reads as that hour and minute when both are in range. |
| AddBlockDialog.FullWidthParsesAlike | schedule_project/add_block_dialog.py:68-74 | A text typed in full-width forms parses exactly like its half-width counterpart. |
| AddBlockDialog.ExampleFullWidth | schedule_project/add_block_dialog.py:68-89 | "９：３０" parses as 09:30. |
| AddBlockDialog.Example198 | schedule_project/add_block_dialog.py:76 | "198" parses as 19:08. |
| AddBlockDialog.Example0930 | schedule_project/add_block_dialog.py:77-90 | "0930" parses as 09:30. |
| AddBlockDialog.Example930Colon | schedule_project/add_block_dialog.py:77-90 | "9:30" parses as 09:30. |
| AddBlockDialog.Example12 | schedule_project/add_block_dialog.py:78 | "12" parses as 01:02. |
| AddBlockDialog.ParseTimeAsWritten | schedule_project/add_block_dialog.py:67-89 | As written: strip, fold, take the regex's backtracking match, check the ranges. Any time returned is valid. |
| AddBlockDialog.GreedyHourFinding | schedule_project/add_block_dialog.py:77-85 | As written, "930" (listed as supported) is rejected, because the greedy hour group reads 93. The corrected parser reads 09:30. |
| AddBlockDialog.ParseTime | schedule_project/add_block_dialog.py:67-89 | Corrected parser: when the greedy split is out of range, it tries the one-digit hour. Any time returned is valid. |
| AddBlockDialog.ParseTimeExtends | schedule_project/add_block_dialog.py:78-89 | The corrected parser agrees with the code wherever the code accepts. It differs only where the greedy match succeeded and then failed its range check, and there it gives the one-digit-hour reading. |
| AddBlockDialog.TimeTextParses | schedule_project/add_block_dialog.py:58-61 | The `HH:mm` text written back into the field parses to the same time. |
| AddBlockDialog.FormatTimeInput | schedule_project/add_block_dialog.py:58-65 | As written, with the code's parser: a parseable field is rewritten to a text with the same time, and the message is cleared. Otherwise the text stays and the format hint is shown. |
| AddBlockDialog.FormatTimeInputIdempotent | schedule_project/add_block_dialog.py:58-65 | Formatting the field twice is formatting it once. |
| AddBlockDialog.FormatTimeInputIntended | schedule_project/add_block_dialog.py:58-65 | The same field formatting over the corrected parser. |
| AddBlockDialog.FormatTimeInputIntendedIdempotent | schedule_project/add_block_dialog.py:58-65 | With the corrected parser too, formatting twice is formatting once. |
| AddBlockDialog.DefaultTimeText | schedule_project/add_block_dialog.py:19-22 | The initial time field parses, with either parser, to the next whole hour, with 23 wrapping to 00. |
| AddBlockDialog.IndexIn | schedule_project/add_block_dialog.py:107 | `list.index` gives the first position holding the encoder, or fails when none does. |
| AddBlockDialog.Decide | schedule_project/add_block_dialog.py:91-127 | Each outcome happens exactly when every earlier check passes and its own fails, in the source's order: empty name, bad time, encoder not in the list (raises), start in the past, end in the past, overlap. On acceptance the stripped name, date, parsed time, duration and encoder are kept. |
| AddBlockDialog.Accept | schedule_project/add_block_dialog.py:91-136 | As written, with the code's parser: an empty stripped name is refused; with a name, the time-format message appears iff the code's parser rejects the time text. An accepted form carries the stripped name and the time the text parses to. |
| AddBlockDialog.AcceptIntended | schedule_project/add_block_dialog.py:91-136 | The same checks over the corrected parser. |
| AddBlockDialog.Dialog930 | schedule_project/add_block_dialog.py:58-104 | With any non-blank name, "930" gets the format hint in the field and the time-format message on accepting; the corrected dialog rewrites it to 09:30 and does not refuse its time. |
| AddBlockDialog.EndCheckNeverFires | schedule_project/add_block_dialog.py:114-120 | With a non-negative duration the "end before now" message can never appear, because the start check fires first. |
| EditBlockDialog.ClampDuration | schedule_project/edit_block_dialog.py:26-29 | The spin box holds a duration between 15 minutes and 24 hours: a value in range is kept, and one outside is clamped to the nearer bound. |
| EditBlockDialog.ShownTime | schedule_project/edit_block_dialog.py:13-17 | The time editor always holds a valid time: a valid time is kept, and an invalid one shows as midnight, the instant an invalid QTime stands for. |
| EditBlockDialog.ShownTimeInstant | schedule_project/edit_block_dialog.py:16-22 | The instant of the shown time equals the instant `__init__` computed from the raw hour and minute. |
| EditBlockDialog.SelectedEncoder | schedule_project/edit_block_dialog.py:31-34 | The combo selects the block's encoder when it is listed, otherwise the first name, and always a listed one when the list is non-empty. |
| EditBlockDialog.Open | schedule_project/edit_block_dialog.py:6-38 | A text date makes `setDate` raise: no dialog. Otherwise the form holds the label, the truncated clock time (within the minute of the stored start), the clamped duration, the date and the selected encoder. It is read-only iff the caller asked or the start is not in the future. |
| EditBlockDialog.Edited | schedule_project/edit_block_dialog.py:54-62 | The name and duration follow the user. The date, time and encoder follow only when not read-only; otherwise they keep the opened values. |
| EditBlockDialog.AcceptAsWritten | schedule_project/edit_block_dialog.py:68-92 | As written: refuses an empty stripped name, then a start in the past, then an end in the past; accepts exactly when none applies. |
| EditBlockDialog.StartedNeverSaved | schedule_project/edit_block_dialog.py:68-92 | As written, a dialog opened on a started block can never be accepted. Its locked start stays in the past, so the name and duration the warning invites changing can never be saved. |
| EditBlockDialog.Accept | schedule_project/edit_block_dialog.py:68-92 | Corrected: the start check is skipped for a read-only form. Accepts iff the stripped name is non-empty, the form is read-only or the start is not past, and the end is not past. It agrees with the code on editable forms. |
| EditBlockDialog.StartedRenamed | schedule_project/edit_block_dialog.py:55 | With the correction, a started block with a non-empty name and an end not yet past is accepted, as the warning promises. |
| EditBlockDialog.UpdatedData | schedule_project/edit_block_dialog.py:93-101 | The result carries the date, stripped name, duration and encoder. The start is the hour rounded to hundredths (a multiple of 36 s), within 12 s of the time shown, and its nearest clock reading is that time. |
| EditBlockDialog.ReopenAfterSave | schedule_project/edit_block_dialog.py:14-16 | A saved block reopens at the truncated clock reading of its rounded start: 09:20 reopens as 09:19. |
| EncoderManagerDialog.DropUnderscores | schedule_project/EncoderManagerDialog.py:102 | The digits of an integer literal are its characters without the underscores, and nothing else. |
| EncoderManagerDialog.ParseInt | schedule_project/EncoderManagerDialog.py:101-105 | `int(text)` refuses the empty text. A value read after '-' is ≤ 0, and any other is ≥ 0. |
| EncoderManagerDialog.ParseIntRoundTrip | schedule_project/EncoderManagerDialog.py:102 | Every integer's decimal text reads back as that integer. |
| EncoderManagerDialog.CheckAdd | schedule_project/EncoderManagerDialog.py:92-114 | Each warning appears exactly when the earlier checks pass and its own fails: a missing field, then a port that is not an integer, then a duplicate name. Otherwise the name is inserted with the host and the parsed port. |
| EncoderManagerDialog.AddThenDelete | schedule_project/EncoderManagerDialog.py:107-130 | An accepted name was absent, and deleting it again gives back the registry as it was. |
| EncoderManagerDialog.EncoderManager.constructor | schedule_project/EncoderManagerDialog.py:11-18 | The dialog starts from a copy of the registry with empty inputs. |
| EncoderManagerDialog.EncoderManager.AddEncoder | schedule_project/EncoderManagerDialog.py:92-120 | On the stripped inputs, a refused add shows its warning and changes neither the registry nor the inputs. An accepted one inserts exactly the new entry and clears the three inputs. |
| EncoderManagerDialog.EncoderManager.Submit | schedule_project/EncoderManagerDialog.py:97-117 | The same, given inputs already stripped. |
| EncoderManagerDialog.EncoderManager.DeleteEncoder | schedule_project/EncoderManagerDialog.py:122-132 | On confirmation the name is removed (an absent name changes nothing). Otherwise nothing changes, and the inputs are never touched. |
| EncoderManagerDialog.EncoderManager.GetResult | schedule_project/EncoderManagerDialog.py:134-135 | Returns the edited copy. |
| QtTime.DaysInMonth | schedule_project/schedule_view.py:71 | A month of the proleptic Gregorian calendar has 28 to 31 days. |
| QtTime.NextDay | schedule_project/time_block.py:121 | The day after a valid date is a valid date. |
| QtTime.NextDayNumber | schedule_project/schedule_view.py:71-74 | `addDays(1)` advances the day number by exactly one, across month and year ends. |
| QtTime.PrevDayNumber | schedule_project/schedule_view.py:71-74 | Going back a day lowers the day number by exactly one. |
| QtTime.NextOfPrev | schedule_project/schedule_view.py:71-74 | The day after the previous day is the day itself. |
| QtTime.AddDaysNumber | schedule_project/time_block.py:121 | `addDays(n)` on a valid date advances the day number by n. |
| QtTime.AddDaysNotBefore | schedule_project/schedule_view.py:71 | Adding days never goes before the start date. |
| QtTime.ParseIso | schedule_project/schedule_view.py:141 | `QDate.fromString(s, "yyyy-MM-dd")` yields a valid date only from a ten-character text. |
| QtTime.IsoRoundTrip | schedule_project/schedule_view.py:124-141 | Every date with a four-digit year, and the null date, survives `toString("yyyy-MM-dd")` followed by `fromString`. |
| QtTime.TruncDiv | schedule_project/utils_conflict.py:6 | Python's `int()` of a quotient truncates toward zero, for negative values as well. |
| QtTime.ClockOf | schedule_project/utils_conflict.py:6 | `QTime(int(h), int((h % 1) * 60))`: for a non-negative start the hour is the whole hours, and the minute is always 0..59. |
| QtTime.ClockOfTruncates | schedule_project/edit_block_dialog.py:14-16 | Within a day, the clock reading is valid and stands for the start rounded down to its minute. |
| QtTime.ClockOfMinute | schedule_project/utils_conflict.py:6-21 | Seconds within a minute do not change the clock reading. |
| QtTime.SecsToWindow | schedule_project/check_schedule_manager.py:53-54 | `secsTo` (whole seconds, truncated) is 0 or 1 exactly when now lies strictly between 1 s before and 2 s after the start. |
| QtTime.MidnightText | schedule_project/add_block_dialog.py:22 | Midnight formats as "00:00". |
| QtTime.RoundedHoursClose | schedule_project/add_block_dialog.py:104 | `round(h + m/60, 2)` hours is a multiple of 36 s, within 12 s of the exact time. |
| QtTime.MinuteDrift | schedule_project/edit_block_dialog.py:14-15 | 09:20 is stored as 9.33 h, and the truncating reader shows it as 09:19. |
| QtTime.ClockNearest | schedule_project/edit_block_dialog.py:98 | The nearest-minute reading has a minute in 0..59. |
| QtTime.ClockNearestRoundTrip | schedule_project/edit_block_dialog.py:98 | Reading a rounded start to the nearest minute gives back the time it came from. |
| Text.LStrip | schedule_project/encoder_utils.py:84 | The result is a suffix that starts with no white space, and everything dropped is white space. |
| Text.RStrip | schedule_project/encoder_utils.py:84 | The result is a prefix that ends with no white space, and everything dropped is white space. |
| Text.Strip | schedule_project/add_block_dialog.py:92 | `str.strip()` returns a contiguous piece of the text with no white space at either end, and only white space was removed. |
| Text.StripUnchanged | schedule_project/encoder_status_manager.py:18 | A text without white space at its ends strips to itself. |
| Text.IndexOf | schedule_project/encoder_status_manager.py:19-27 | `str.find`: the first place the text occurs, or -1 exactly when it occurs nowhere. |
| Text.ContainsIff | schedule_project/schedule_runner.py:91-108 | `sub in s` holds exactly when `sub` occurs at some position. |
| Text.TextBefore | schedule_project/encoder_utils.py:105 | `split(sep)[0]`: the text up to the first occurrence of the separator, or the whole text when there is none. The separator never occurs inside it. |
| Text.SplitOn | timetable.py:31 | `str.split(c)` gives one more piece than there are separators. No piece contains the separator, and joining the pieces gives back the text. |
| Text.FirstBreak | schedule_project/encoder_utils.py:103 | The first line break, with none before it. |
| Text.SplitLines | schedule_project/encoder_utils.py:103 | `str.splitlines()` gives lines with no break characters, and none exactly for the empty text. The first line is the text before the first terminator, and the lines together hold exactly the text's other characters, in order. |
| Text.SplitLinesCount | schedule_project/encoder_utils.py:103 | `splitlines` gives one line per terminator ("\r\n" counting once), and one more when the text does not end with a terminator. |
| Text.DigitChar | schedule_project/schedule_runner.py:119 | A decimal digit character stands for its value. |
| Text.NatToString | schedule_project/schedule_runner.py:119 | The decimal text is all digits, without a leading zero except for 0 itself. |
| Text.DecimalRoundTrip | schedule_project/schedule_runner.py:119 | A number's decimal text reads back as the number. |
| Text.NatToStringInjective | schedule_project/schedule_runner.py:119 | Different numbers print differently. |
| Text.PadNat | schedule_project/schedule_runner.py:119 | Zero padding gives digits at least as wide as asked, and leaves a text already that wide alone. |
| Text.PadNatValue | schedule_project/schedule_runner.py:119 | Zero padding keeps the value. |
| Text.IntToString | schedule_project/EncoderManagerDialog.py:119 | `str(n)`: a minus sign for a negative number, then its digits. |
| Text.Format02 | schedule_project/schedule_runner.py:119 | `f"{n:02d}"`: two digits for 0..99, at least two digits holding the value for any n ≥ 0, and a minus sign and digits below zero. |
| Text.ReplaceChar | schedule_project/add_block_dialog.py:72 | `str.replace` for one character: same length, and each occurrence replaced. |
| Text.JoinPath | schedule_project/path_manager.py:20 | `os.path.join(a, b)` on Windows always ends with `b`'s path after its drive. |
| Text.JoinPathRelative | schedule_project/path_manager.py:20 | A relative `b` without a drive follows `a`, with a backslash in between unless `a`'s part after its drive is empty or ends in a separator. |
| Text.JoinExtends | schedule_project/path_manager.py:20 | Joining a relative name without a drive extends `a` and ends with the name. |
| Text.JoinPathAbsolute | schedule_project/path_manager.py:77 | An absolute `b` replaces the path and keeps `a`'s drive only when it has none of its own. |
| Text.JoinPathOtherDrive | schedule_project/path_manager.py:77 | A `b` on another drive replaces `a` altogether. |
| Text.JoinPathSameDrive | schedule_project/path_manager.py:77 | A relative `b` on the same drive, in either case, takes `b`'s drive and follows `a`'s path. |
| Text.JoinAfterBareDrive | schedule_project/path_manager.py:20 | "D:" joined with "x" is "D:x", with no separator. |
| Text.JoinOtherDrive | schedule_project/path_manager.py:77 | "C:\rec" joined with "D:x" is "D:x". |
| Text.JoinAbsolute | schedule_project/path_manager.py:77 | "C:\rec" joined with "\x" is "C:\x". |
| Timetable.FirstOf | timetable.py:36 | The first position of the character, with none before it, or the length when it is absent. |
| Timetable.SplitHead | timetable.py:36 | The first piece of a split ends at the first separator, and the other pieces are the split of what follows it. |
| Timetable.Between | timetable.py:36 | The name is the text right after the first '"', up to the second '"' or the end of the line, and holds no '"'. |
| Timetable.SecondPiece | timetable.py:34-36 | A line holding a '"' splits into at least two pieces, so the `except` branch never runs, and the second piece is that text. |
| Timetable.NamesOf | timetable.py:33-39 | The loop yields at most one name per line. |
| Timetable.ListEncoders | timetable.py:29-40 | `list_encoders` yields at most one name per line of the answer. |
| Timetable.Quoted | timetable.py:34 | The lines kept are exactly those holding a '"'. |
| Timetable.NamesOfQuoted | timetable.py:33-39 | One name per quoted line, in order, each the text between its first two quotes. |
| Timetable.ListEncodersNames | timetable.py:29-40 | The names are, in order, one per answer line holding a '"'. Each is the text after its first quote, with no '"' and no line break. |
| Timetable.Drawn | timetable.py:249-258 | Drawing keeps at most the entries it is given. |
| Timetable.DrawnAppend | timetable.py:249-258 | The filter works entry by entry: the entries drawn from a concatenation are those drawn from each part. |
| Timetable.DrawnMembers | timetable.py:249-258 | An entry is drawn exactly when it is listed and dated within the seven days from the base date. |
| Timetable.InWeekVisible | timetable.py:249-258 | Every entry this view draws is also drawn by the later view. |
| Timetable.OvernightHidden | timetable.py:249-258 | An entry from 22:00 the day before the week, lasting four hours, reaches into the week and is drawn by the later view but not by this one. |
| Timetable.View.constructor | timetable.py:169-186 | The view starts at today. When a file exists, its entries are loaded and drawn; otherwise there are none. |
| Timetable.View.DrawBlocks | timetable.py:241-274 | As written: the drawn list is emptied and nothing is drawn. The method raises the `TypeError` of the `block_id` keyword iff some entry lies in the shown week. The entries, base date and file are unchanged. |
| Timetable.View.DrawBlocksIntended | timetable.py:241-287 | Intended: the loop draws exactly the week's entries, in order, and changes nothing else. |
| Timetable.View.IsOverlap | timetable.py:290-300 | The loop answers true iff some entry other than the excluded label clashes with the new one on the same date and track. It agrees with the later view's overlap test. |
| Timetable.View.AddTimeBlock | timetable.py:302-311 | The new entry is appended and the week redrawn; nothing is saved. |
| Timetable.View.SetStartDate | timetable.py:313-315 | The base date is moved and the week redrawn from the same entries. |
| Timetable.View.SaveSchedule | timetable.py:317-331 | A writable file receives every entry with its date as `yyyy-MM-dd`; otherwise nothing changes. |
| Timetable.View.LoadSchedule | timetable.py:333-349 | A missing file leaves everything as it was. Otherwise the entries are those read from the file, and they are redrawn. |
| Timetable.SaveThenLoad | timetable.py:317-349 | Saving then loading gives back every entry's date, track, start, duration and label. |
| Timetable.StartStatus | timetable.py:437-442 | The row shows recording iff both answers contain "OK", and the error otherwise. |
| Timetable.StopStatus | timetable.py:452-457 | The row shows stopped iff the answer contains "OK", and the stop failure otherwise. |
| Timetable.Window.constructor | timetable.py:355-412 | One row per listed encoder, each showing "等待中", over a fresh view of today. |
| Timetable.Window.AddNewBlock | timetable.py:414-418 | A confirmed non-empty name adds a 09:00 four-hour entry on track 1 for the day after the base date. Otherwise the entries are untouched. |
| Timetable.Window.EncoderStart | timetable.py:422-444 | As written: nothing is ever sent. A blank file name shows the blank-name warning; any other name raises `AttributeError` at `datetime.today()` and leaves the row's text as it was. |
| Timetable.Window.EncoderStartIntended | timetable.py:422-444 | As intended, with today's date: a blank file name shows the blank-name warning and sends nothing. Otherwise `Setfile` with the day's path and then `Start` are sent, and the row shows the start status of the two answers. |
| Timetable.Window.StartWithIntended | timetable.py:426-444 | The same, given a stripped name. |
| Timetable.Window.EncoderStop | timetable.py:446-457 | `Stop` is sent, and the row shows the stop status of the answer. |

## Left out

- Floating-point arithmetic is not modelled. Hours are exact seconds, as described above, so binary rounding of `round(…, 2)`, `% 1` and the pixel/hour scaling is not captured.
- Logging.Logger.Log: counts one block of the box per logged line. A text holding line breaks makes several blocks in the real box, so it can reach the 500-block limit sooner.
- Logging.Logger.Log: the `AttributeError` it raises propagates into whichever function called `log`; those callers are not followed past the raise.
- Text.JoinPath: UNC prefixes (`\\server\share`) are not recognised as drives. Drive letters are compared with ASCII case folding only.
- PathManager.FullPath: `os.path.abspath` is not applied. The path is as joined: a relative root is not resolved against the working directory, and `..` and `/` are not normalised.
- PathManager.FullPath: requires a valid date, since it is always called with today's date.
- EncoderController.RelPath: `os.path.relpath(os.path.abspath(...), root)` (schedule_project/encoder_controller.py:14-18) is taken as the joined folder and file name. This equals the code's path only for a file name without `/` or `\` that does not end in a dot or a space. Otherwise the code collapses `.` and `..` components, merges repeated separators and drops trailing dots and spaces, and the model does not.
- EncoderController.Controller.StartEncoder: sends and returns `RelPath`, so it has the same limit. For a file name with separators, `..` or trailing dots or spaces, the path sent differs from the code's.
- ScheduleRunner.Runner.StartEncoder: sends `FileInFolder` where the code sends `relpath(abspath(...))` (schedule_project/schedule_runner.py:78-79). The two agree only for a file name without `/` or `\` that does not end in a dot or a space. Otherwise the code also turns `/` into `\` in the unquoted `Setfile` path.
- PathManager.Paths.GetImagePath: the record root is promised as a prefix only for an id that is a relative name without a drive. Another id replaces the root, as `os.path.join` does, and the contract then states only how the path ends.
- Socket I/O is not modelled: `connect`, `sendall`, `recv`, timeouts and the cp950 encoding. Devices are oracles, and a reply is the decoded text.
- Concurrency is not modelled. A check tick's worker runs to completion before its actions are applied; the thread pool, the signal hop and overlapping workers are absent. In the code, a new check tick starts a new worker even while one is still running; the model does not capture two workers that both read the schedule before either applies its actions.
- The JSON files are held as values already parsed, for the schedule file, the configuration file and the encoder registry. Malformed JSON, missing keys and wrongly typed values are not modelled, except where the code tests for them.
- `datetime.today()`, `QDate.currentDate()`, `QDateTime.currentDateTime()` and `time.time()` are parameters. The exception is the timetable's `encoder_start`, where `datetime.today()` raises (see Findings). Time zones and daylight-saving shifts are not modelled.
- Years outside 1–9999 are not modelled: the save format is only proved for four-digit years.
- The regular expressions' `\d` is taken as ASCII digits only, though Python also accepts other decimal digits. Likewise, `int()` in the registry dialog reads ASCII digits only.
- Qt widgets are not modelled: painting, hover handles, colours and style sheets, message boxes, menus, the scroll list rebuilt by `refresh_encoder_list`, and the intermediate "🔄" texts shown before a command is sent. A status label is its text.
- The blocks on screen in `ScheduleView` are records, not the `TimeBlock` objects they share with the scene. The aliasing between a view's list and a dragged block is not modelled; a `TimeBlock` is modelled alone, with the view's records as a field.
- The timetable's `check_schedule` (timetable.py:196-213) reads attributes that do not exist and is not modelled.
- Timetable.View.constructor: redraws with `DrawBlocksIntended`. In the code, `load_schedule` calls the as-written `draw_blocks`, whose `TypeError` escapes the constructor (only `FileNotFoundError` is caught) when the file holds an entry in the week.
- Timetable.View.AddTimeBlock: redraws with `DrawBlocksIntended`. In the code, the redraw after the append raises when an entry lies in the week, which includes the new one when it is dated in the week.
- Timetable.View.SetStartDate: redraws with `DrawBlocksIntended`. In the code, `draw_grid` calls `draw_blocks`, which raises when an entry lies in the new week.
- Timetable.View.LoadSchedule: redraws with `DrawBlocksIntended`. In the code, the redraw raises when a loaded entry lies in the week.
- Timetable.Window.constructor: builds its view with the intended redraw. In the code, the view's constructor raises when the file holds an entry in the week.
- Timetable.Window.AddNewBlock: adds through `AddTimeBlock`. In the code, the new entry is dated the day after the base date, always in the week, so the redraw always raises after the append.
- Timetable.View.DrawBlocksIntended: even past the `block_id` keyword, the code reads `self.record_root`, which this view never sets, and calls `load_preview_images`, which this `TimeBlock` lacks (timetable.py:282-283). The intended draw leaves out the preview images.
- The timetable's own drag handlers (timetable.py:104-165) are not modelled separately. They are the earlier form of the `TimeBlock` rules, without the track, left-edge and scene-width checks.
- The timetable's module-level and window `send_command` (timetable.py:13-27, 459-466) are socket I/O and are replaced by the `device` function.
- schedule_project/capture.py, schedule_project/snapshot_worker.py, schedule_project/LivePreviewWindow.py, schedule_project/ui_main_window.py, schedule_project/header_view.py, auto_recoder.py and schedule_project/main.py are not part of this model. They are UI, filesystem snapshots and application start-up.
- `log(...)` calls inside the other modules are not modelled, except in `Logging` and in the status manager's log rule.
- ScheduleRunner.Runner.CheckEntry: its contract states the encoder calls and the started and stopped marks; it leaves the block texts to `ShowStatus`, whose own contract states them.
- ScheduleRunner.Runner.CheckStep: states the loop's bookkeeping (marks and calls) only; the block texts and encoder status labels after the step are left to `ShowStatus` and `SetLabel`.
- ScheduleRunner.Runner.CheckSchedule: states the started and stopped marks and the calls after the pass, not the block texts or the encoder status labels it leaves behind (schedule_project/schedule_runner.py:48-72, 83-112). Those change one entry at a time, under the contracts of `ShowStatus` and `SetLabel`.
- The manager's runner is modelled by its answer to each call: the call returns, or raises with an exception's text. What the runner does to the encoders and to the status label is modelled in `ScheduleRunner`. For example, `stop_encoder` given `None` for a deleted label raises when there is no connection; the answer function covers such raises without deriving them.
- The tree's schedule_project/encoder_utils.py defines neither `get_encoder_display_name`, imported at schedule_project/check_schedule_manager.py:5 and schedule_project/add_block_dialog.py:8, nor `encoder_config`, imported at schedule_project/EncoderManagerDialog.py:7. So those three modules fail to import as the tree stands. The model assumes the names exist. The alias only feeds a log line (schedule_project/check_schedule_manager.py:144) and the encoder list's display text (schedule_project/add_block_dialog.py:36), both outside the model. The registry is a parameter of `EncoderManagerDialog.EncoderManager.constructor`.
- EncoderStatus.Parse: the branch of `_parse` for a non-string reply cannot be reached, because every reply is a string (text or an exception's message); the model keeps the string case only.

## Findings

| source | as written | input that shows it | evidently intended | confidence | as-written member | corrected member |
|---|---|---|---|---|---|---|
| schedule_project/encoder_status_manager.py:54 | `send_persistent_command(..., encoder_name=...)` passes a keyword the function (schedule_project/encoder_utils.py:32) does not take, so every real query raises `TypeError`. The exception text is cached, and the status is always unknown. | any encoder, outside the cool-down | send `EncStatus "<name>"` over the persistent link and classify the reply | high (not executed) | EncoderStatus.StatusManager.GetStatusAsWritten | EncoderStatus.StatusManager.GetStatus |
| schedule_project/add_block_dialog.py:78-85 | the greedy hour group of `^(\d{1,2}):?(\d{1,2})$` reads "930" as 93:0 and the range check rejects it | "930" | 09:30, as the comment on line 77 lists "930" among the supported inputs | high (not executed) | AddBlockDialog.ParseTimeAsWritten | AddBlockDialog.ParseTime |
| schedule_project/edit_block_dialog.py:24-25, 84-86 | a block whose start has passed opens read-only, with its start locked, and `accept` still refuses any start before now | a started block opened and accepted with a new name | the warning on line 55 says the name and duration may still be changed, so the start check should not apply to a read-only form | medium (not executed) | EditBlockDialog.AcceptAsWritten | EditBlockDialog.Accept |
| timetable.py:428-429 | the module imports `datetime` as a module (line 11), which has no `today`, so `datetime.today()` raises `AttributeError`: nothing is sent and the row keeps its text | any non-blank file name | build `MM.dd.yyyy\MMdd_<name>` from today's date, send `Setfile` and `Start`, and show the outcome | high (not executed) | Timetable.Window.EncoderStart | Timetable.Window.EncoderStartIntended |
| schedule_project/check_schedule_manager.py:155 | `self.runner.start_encoder(enc, label, status_label, block_id)` passes four arguments, but `start_encoder` (schedule_project/schedule_runner.py:74) takes three, so every automatic start raises `TypeError`. The id is never marked started, the rest of the batch and the save are skipped, and the start is tried again on the next tick within its window | any start action for an id not yet started | call the runner with encoder, label and status label, then mark the id | high (not executed) | CheckScheduleManager.Manager.ApplyActions | CheckScheduleManager.Manager.ApplyActionsIntended |
| timetable.py:267-274 | `draw_blocks` passes `block_id=` to the timetable's own `TimeBlock`, whose constructor (timetable.py:45) takes no such keyword, so drawing any entry dated in the shown week raises `TypeError`; the drawn list stays empty, and loading, adding, moving the week and `add_new_block` all raise through it | a schedule entry dated on the first day shown | draw a block for each entry in the week | high (not executed) | Timetable.View.DrawBlocks | Timetable.View.DrawBlocksIntended |
| schedule_project/utils.py:40-41 | `QTextDocument` has no `removeBlock`, so the trimming loop raises `AttributeError` after the line is appended; the box is never trimmed, and every later emitted line raises too | the 501st emitted line with a log box attached | drop the oldest blocks until 500 remain | high (not executed) | Logging.Logger.Log | Logging.Logger.LogIntended |

The counterexample lemmas are `EncoderStatus.KwargErrorIsUnknown` (with `EncoderStatus.StatusManager.RefreshAllAsWritten` for the whole table), `AddBlockDialog.GreedyHourFinding` (with `AddBlockDialog.Dialog930` for the dialog), `EditBlockDialog.StartedNeverSaved` and `CheckScheduleManager.StartsNeverMarked` (with `CheckScheduleManager.StartRaisesOnce` for one start). For the timetable and the log, the as-written methods' contracts state the failure for every input that reaches it: any non-blank file name, any week holding an entry, and any emitted line once the box holds 500 lines. The corrected behaviour is proved in `EncoderStatus.StatusManager.GetStatus`, `AddBlockDialog.ParseTimeExtends` (used by `AddBlockDialog.AcceptIntended` and `AddBlockDialog.FormatTimeInputIntended`), `EditBlockDialog.StartedRenamed`, `Timetable.Window.EncoderStartIntended`, `Timetable.View.DrawBlocksIntended`, `Logging.Logger.LogIntended` and `CheckScheduleManager.Manager.ApplyActionsIntended` (with `CheckScheduleManager.ApplyAllMarks` and `CheckScheduleManager.ApplyIdempotent`).

Other behaviours are proved as lemmas of the code as written, not corrected:

- a time saved from the edit dialog reopens a minute early (`QtTime.MinuteDrift`, `EditBlockDialog.ReopenAfterSave`);
- a left resize can move a block's start before midnight (`TimeBlock.LeftResizeBeforeMidnight`);
- the runner's `Setfile` path is not quoted, unlike the controller's;
- the timetable draws a stricter set of entries than the later view (`Timetable.InWeekVisible`, `Timetable.OvernightHidden`);
- an entry running past midnight is stopped at its start day's first check, before its start (`CheckScheduleManager.OvernightStopFirst`).
