/** The application log (`utils.log`): timestamped lines to standard output, to
    `log.txt` and to the on-screen log box, which keeps at most 500 lines. */
module Logging {
  import opened Wrappers
  import opened Text
  import opened QtTime

  /** `MAX_LOG_LINES`. */
  const MaxLogLines: int := 500

  /** `QDateTime::toString("HH:mm:ss")` of an instant in milliseconds since the epoch. */
  function ClockText(nowMs: int): (r: string)
    ensures |r| == 8 && r[2] == ':' && r[5] == ':'
  {
    var sec := (nowMs % MsPerDay) / 1000;
    NatToStringLength(sec / 3600, 2);
    NatToStringLength((sec % 3600) / 60, 2);
    NatToStringLength(sec % 60, 2);
    PadNat(sec / 3600, 2) + ":" + PadNat((sec % 3600) / 60, 2) + ":" + PadNat(sec % 60, 2)
  }

  /** The log line: `[HH:mm:ss] [level] text`. */
  function LogLine(nowMs: int, level: string, text: string): (r: string)
    ensures |r| == 14 + |level| + |text|
    ensures r[..12] == "[" + ClockText(nowMs) + "] [" && r[|r| - |text|..] == text
  {
    "[" + ClockText(nowMs) + "] [" + level + "] " + text
  }

  /** The message of the `AttributeError` raised by `doc.removeBlock(...)`. */
  const NoRemoveBlock: string := "'PySide6.QtGui.QTextDocument' object has no attribute 'removeBlock'"

  /** Whether a line of this level is written anywhere. */
  predicate Emitted(debugMode: bool, level: string) {
    debugMode || level == "ERROR" || level == "WARNING"
  }

  /** The box after trimming as intended: its last 500 lines. */
  function KeepLast(lines: seq<string>): (r: seq<string>)
    ensures |r| <= MaxLogLines
    ensures |lines| <= MaxLogLines ==> r == lines
    ensures |lines| > MaxLogLines ==> |r| == MaxLogLines
    ensures r == lines[|lines| - |r|..]
  {
    if |lines| <= MaxLogLines then lines else lines[|lines| - MaxLogLines..]
  }

  /** The trimming loop of `log` as intended: drop the first line while more than 500
      remain. */
  method Trim(all: seq<string>) returns (lines: seq<string>)
    ensures lines == KeepLast(all)
  {
    lines := all;
    while |lines| > MaxLogLines
      invariant |lines| <= |all| && lines == all[|all| - |lines|..]
      invariant |lines| >= MaxLogLines || lines == all
      decreases |lines|
    {
      lines := lines[1..];
    }
  }

  class Logger {
    /** `DEBUG_MODE` (set in the source): when off, only errors and warnings are written. */
    const debugMode: bool
    /** `_log_box`: the lines of the log box, once there is one. */
    var box: Option<seq<string>>
    /** `_buffered_logs`: lines waiting for a log box. */
    var buffered: seq<string>
    /** What went to standard output and to `log.txt`. */
    var stdout: seq<string>
    var logFile: seq<string>
    /** Whether appending to `log.txt` succeeds; a failure is silently ignored. */
    var fileWritable: bool

    constructor(debug: bool, writable: bool)
      ensures debugMode == debug && fileWritable == writable
      ensures box == None && buffered == [] && stdout == [] && logFile == []
    {
      debugMode := debug;
      fileWritable := writable;
      box := None;
      buffered := [];
      stdout := [];
      logFile := [];
    }

    /** `log(text, level)` as written, at instant `nowMs`. An emitted line goes to
        standard output, to the log file when writable, and to the log box if there is
        one. The trimming loop then calls `removeBlock`, which `QTextDocument` does not
        have: once the box holds more than 500 lines the call raises `AttributeError`,
        with the line already appended, and the box is never trimmed. Nothing is ever
        buffered. */
    method Log(nowMs: int, text: string, level: string) returns (r: Outcome<()>)
      modifies this
      ensures Emitted(debugMode, level) ==> stdout == old(stdout) + [LogLine(nowMs, level, text)]
      ensures Emitted(debugMode, level) && fileWritable ==> logFile == old(logFile) + [LogLine(nowMs, level, text)]
      ensures Emitted(debugMode, level) && old(box).Some? ==>
                box == Some(old(box).value + [LogLine(nowMs, level, text)])
                && (r.Raised? <==> |old(box).value| + 1 > MaxLogLines)
                && (r.Raised? ==> r.message == NoRemoveBlock)
      ensures !Emitted(debugMode, level) ==> stdout == old(stdout)
      ensures !Emitted(debugMode, level) || !fileWritable ==> logFile == old(logFile)
      ensures !Emitted(debugMode, level) || old(box).None? ==> box == old(box) && r == Returned(())
      ensures buffered == old(buffered) && fileWritable == old(fileWritable)
    {
      var line := LogLine(nowMs, level, text);
      var emitted := Emitted(debugMode, level);
      Output(line, emitted);
      r := Returned(());
      if box.Some? && emitted {
        box := Some(box.value + [line]);
        if |box.value| > MaxLogLines {
          r := Raised(NoRemoveBlock);
        }
      }
    }

    /** `log(text, level)` as intended: the same, but the oldest lines are dropped until
        500 remain. */
    method LogIntended(nowMs: int, text: string, level: string)
      modifies this
      ensures Emitted(debugMode, level) ==> stdout == old(stdout) + [LogLine(nowMs, level, text)]
      ensures Emitted(debugMode, level) && fileWritable ==> logFile == old(logFile) + [LogLine(nowMs, level, text)]
      ensures Emitted(debugMode, level) && old(box).Some? ==>
                box == Some(KeepLast(old(box).value + [LogLine(nowMs, level, text)]))
      ensures !Emitted(debugMode, level) ==> stdout == old(stdout)
      ensures !Emitted(debugMode, level) || !fileWritable ==> logFile == old(logFile)
      ensures !Emitted(debugMode, level) || old(box).None? ==> box == old(box)
      ensures buffered == old(buffered) && fileWritable == old(fileWritable)
    {
      Write(LogLine(nowMs, level, text), Emitted(debugMode, level));
    }

    /** The line to standard output and, when writable, to the log file, if `emitted`. */
    method Output(line: string, emitted: bool)
      modifies this
      ensures emitted ==> stdout == old(stdout) + [line]
      ensures emitted && fileWritable ==> logFile == old(logFile) + [line]
      ensures !emitted ==> stdout == old(stdout)
      ensures !emitted || !fileWritable ==> logFile == old(logFile)
      ensures box == old(box) && buffered == old(buffered) && fileWritable == old(fileWritable)
    {
      if emitted {
        stdout := stdout + [line];
        if fileWritable {
          logFile := logFile + [line];
        }
      }
    }

    /** Where a line goes once it is made, as intended: nowhere unless `emitted`; otherwise
        to standard output, to the log file when writable, and to the box if there is
        one, trimmed. */
    method Write(line: string, emitted: bool)
      modifies this
      ensures emitted ==> stdout == old(stdout) + [line]
      ensures emitted && fileWritable ==> logFile == old(logFile) + [line]
      ensures emitted && old(box).Some? ==> box == Some(KeepLast(old(box).value + [line]))
      ensures !emitted ==> stdout == old(stdout)
      ensures !emitted || !fileWritable ==> logFile == old(logFile)
      ensures !emitted || old(box).None? ==> box == old(box)
      ensures buffered == old(buffered) && fileWritable == old(fileWritable)
    {
      Output(line, emitted);
      if box.Some? && emitted {
        var lines := Trim(box.value + [line]);
        box := Some(lines);
      }
    }

    /** `set_log_box(widget)`: attach a box (already holding `widgetLines`), replay the
        buffered lines into it in order, and empty the buffer. The replay does not trim. */
    method SetLogBox(widgetLines: seq<string>)
      modifies this
      ensures box == Some(widgetLines + old(buffered))
      ensures buffered == []
      ensures stdout == old(stdout) && logFile == old(logFile) && fileWritable == old(fileWritable)
    {
      var lines := widgetLines;
      var i := 0;
      while i < |buffered|
        invariant 0 <= i <= |buffered|
        invariant lines == widgetLines + buffered[..i]
      {
        lines := lines + [buffered[i]];
        i := i + 1;
      }
      assert buffered[..i] == buffered;
      box := Some(lines);
      buffered := [];
    }
  }

  /** Trimming after every line is the same as trimming once: after a run of log calls
      the box holds the last 500 of all lines it was ever given. */
  lemma TrimEachTime(lines: seq<string>, line: string)
    ensures KeepLast(KeepLast(lines) + [line]) == KeepLast(lines + [line])
  {
    var all := lines + [line];
    if |lines| > MaxLogLines {
      assert KeepLast(lines) + [line] == all[|all| - MaxLogLines - 1..];
    }
  }
}
