/** `EncoderStatusManager`: the status of each encoder, asked of the device with
    `EncStatus "<name>"`, cached for a cool-down period, and logged when it changes
    or at most every few seconds. */
module EncoderStatus {
  import opened Text
  import opened EncoderUtils

  /** The statuses `_parse` distinguishes, in the order it tests them. */
  datatype Status = Recording | Paused | Stopped | Preparing | Failed | Unknown

  /** The label and colour shown for a status. */
  function StatusText(st: Status): string {
    match st
    case Recording => "✅ 錄影中"
    case Paused => "⏸ 暫停中"
    case Stopped => "⏹ 停止中"
    case Preparing => "🟡 準備中"
    case Failed => "❌ 錯誤"
    case Unknown => "❓未知"
  }

  function StatusColor(st: Status): string {
    match st
    case Recording => "green"
    case Paused => "orange"
    case Stopped => "gray"
    case Preparing => "blue"
    case Failed => "red"
    case Unknown => "black"
  }

  /** Position of a status in the order of the tests. */
  function Rank(st: Status): nat {
    match st
    case Recording => 0
    case Paused => 1
    case Stopped => 2
    case Preparing => 3
    case Failed => 4
    case Unknown => 5
  }

  /** The reply mentions one of the words that signal the status (matched
      case-sensitively); no word signals the unknown status. */
  predicate Mentions(s: string, st: Status) {
    match st
    case Recording => Contains(s, "Running") || Contains(s, "Runned")
    case Paused => Contains(s, "Paused")
    case Stopped => Contains(s, "Stopped") || Contains(s, "None")
    case Preparing => Contains(s, "Prepared") || Contains(s, "Preparing")
    case Failed => Contains(s, "Error")
    case Unknown => false
  }

  /** `_parse`: the first status, in the order above, one of whose words occurs in the
      stripped reply; unknown when none does. */
  function Parse(res: string): (st: Status)
    ensures st != Unknown ==> Mentions(Strip(res), st)
    ensures forall e :: Rank(e) < Rank(st) ==> !Mentions(Strip(res), e)
  {
    FirstMentioned(Strip(res))
  }

  function FirstMentioned(r: string): (st: Status)
    ensures st != Unknown ==> Mentions(r, st)
    ensures forall e :: Rank(e) < Rank(st) ==> !Mentions(r, e)
  {
    if Contains(r, "Running") || Contains(r, "Runned") then Recording
    else if Contains(r, "Paused") then Paused
    else if Contains(r, "Stopped") || Contains(r, "None") then Stopped
    else if Contains(r, "Prepared") || Contains(r, "Preparing") then Preparing
    else if Contains(r, "Error") then Failed
    else Unknown
  }

  /** A word with no whitespace at either end occurs in the stripped reply exactly when
      it occurs in the reply. */
  lemma ContainsStripped(s: string, w: string)
    requires w != [] && !IsSpace(w[0]) && !IsSpace(w[|w| - 1])
    ensures Contains(Strip(s), w) <==> Contains(s, w)
  {
    ContainsIff(s, w);
    ContainsIff(Strip(s), w);
    if Contains(s, w) {
      var j :| MatchAt(s, w, j);
      ReplyMatchStripped(s, w, j);
    }
    if Contains(Strip(s), w) {
      var j :| MatchAt(Strip(s), w, j);
      StrippedMatchReply(s, w, j);
    }
  }

  /** An occurrence in the reply, not starting or ending in whitespace, survives stripping. */
  lemma ReplyMatchStripped(s: string, w: string, j: int)
    requires w != [] && !IsSpace(w[0]) && !IsSpace(w[|w| - 1]) && MatchAt(s, w, j)
    ensures Contains(Strip(s), w)
  {
    var r := Strip(s);
    var i := StripMargins(s);
    InsideMargins(s, r, w, i, j);
    MatchWithinSlice(s, r, w, i, j);
    ContainsIff(r, w);
  }

  /** Where the stripped reply sits in the reply: only whitespace lies before and after it. */
  lemma StripMargins(s: string) returns (i: int)
    ensures MatchAt(s, Strip(s), i) && (forall k :: 0 <= k < i ==> IsSpace(s[k]))
            && (forall k :: i + |Strip(s)| <= k < |s| ==> IsSpace(s[k]))
  {
    var r := Strip(s);
    i :| MatchAt(s, r, i) && (forall k :: 0 <= k < i ==> IsSpace(s[k]))
         && (forall k :: i + |r| <= k < |s| ==> IsSpace(s[k]));
  }

  /** An occurrence that neither starts nor ends in whitespace lies between the
      whitespace margins. */
  lemma InsideMargins(s: string, r: string, w: string, i: int, j: int)
    requires MatchAt(s, r, i) && (forall k :: 0 <= k < i ==> IsSpace(s[k]))
             && (forall k :: i + |r| <= k < |s| ==> IsSpace(s[k]))
    requires w != [] && !IsSpace(w[0]) && !IsSpace(w[|w| - 1]) && MatchAt(s, w, j)
    ensures i <= j && j + |w| <= i + |r|
  {
    assert s[j] == w[0];
    assert s[j + |w| - 1] == w[|w| - 1];
  }

  /** An occurrence in the stripped reply is an occurrence in the reply. */
  lemma StrippedMatchReply(s: string, w: string, j: int)
    requires MatchAt(Strip(s), w, j)
    ensures Contains(s, w)
  {
    var r := Strip(s);
    var i := StripMargins(s);
    MatchInSlice(s, r, w, i, j);
    ContainsIff(s, w);
  }

  /** An occurrence lying inside an occurring slice is an occurrence in the slice. */
  lemma MatchWithinSlice(s: string, t: string, w: string, i: int, j: int)
    requires MatchAt(s, t, i) && MatchAt(s, w, j) && i <= j && j + |w| <= i + |t|
    ensures MatchAt(t, w, j - i)
  {
    forall k | 0 <= k < |w|
      ensures t[j - i + k] == w[k]
    {
      assert t[j - i + k] == s[j + k];
    }
    assert t[j - i..j - i + |w|] == w;
  }

  lemma MentionsStripped(s: string, st: Status)
    ensures Mentions(Strip(s), st) <==> Mentions(s, st)
  {
    match st
    case Recording => PairStripped(s, "Running", "Runned");
    case Paused => ContainsStripped(s, "Paused");
    case Stopped => PairStripped(s, "Stopped", "None");
    case Preparing => PairStripped(s, "Prepared", "Preparing");
    case Failed => ContainsStripped(s, "Error");
    case Unknown =>
  }

  lemma PairStripped(s: string, v: string, w: string)
    requires v != [] && !IsSpace(v[0]) && !IsSpace(v[|v| - 1])
    requires w != [] && !IsSpace(w[0]) && !IsSpace(w[|w| - 1])
    ensures Contains(Strip(s), v) || Contains(Strip(s), w) <==> Contains(s, v) || Contains(s, w)
  {
    ContainsStripped(s, v);
    ContainsStripped(s, w);
  }

  /** Stripping makes no difference: the status is the first one mentioned anywhere in
      the raw reply. */
  lemma ParseRaw(res: string)
    ensures Parse(res) != Unknown ==> Mentions(res, Parse(res))
    ensures forall e :: Rank(e) < Rank(Parse(res)) ==> !Mentions(res, e)
  {
    MentionsStripped(res, Parse(res));
    forall e | Rank(e) < Rank(Parse(res))
      ensures !Mentions(res, e)
    {
      MentionsStripped(res, e);
    }
  }

  /** No capital letter anywhere. */
  predicate NoCapital(s: string) {
    forall i :: 0 <= i < |s| ==> !('A' <= s[i] <= 'Z')
  }

  /** The test is case-sensitive and every word starts with a capital, so a reply with
      no capital letter is always unknown ("running" is not recognised). */
  lemma LowerCaseIsUnknown(res: string)
    requires NoCapital(res)
    ensures Parse(res) == Unknown
  {
    var r := Strip(res);
    var i :| MatchAt(res, r, i);
    assert NoCapital(r) by {
      forall k | 0 <= k < |r| ensures !('A' <= r[k] <= 'Z') {
        assert r[k] == res[i + k];
      }
    }
    NoCapitalNoMatch(r, "Running");
    NoCapitalNoMatch(r, "Runned");
    NoCapitalNoMatch(r, "Paused");
    NoCapitalNoMatch(r, "Stopped");
    NoCapitalNoMatch(r, "None");
    NoCapitalNoMatch(r, "Prepared");
    NoCapitalNoMatch(r, "Preparing");
    NoCapitalNoMatch(r, "Error");
  }

  lemma NoCapitalNoMatch(s: string, w: string)
    requires NoCapital(s) && w != [] && 'A' <= w[0] <= 'Z'
    ensures !Contains(s, w)
  {
    ContainsIff(s, w);
    forall j | 0 <= j && j + |w| <= |s|
      ensures !MatchAt(s, w, j)
    {
      assert s[j..j + |w|][0] == s[j];
    }
  }

  const DefaultCooldownMs: int := 800
  const DefaultLogEverySec: int := 10

  /** What the status request yields: the reply, or the text of the exception. */
  function ReplyText(r: Reply): string {
    match r
    case Answer(t) => t
    case ConnectionLost(e) => e
  }

  function EncStatusCommand(name: string): string {
    "EncStatus \"" + name + "\""
  }

  function LogText(name: string, res: string): string {
    "⬅️ EncStatus " + name + ": " + res
  }

  function GetOr(m: map<string, int>, key: string, default: int): int {
    if key in m then m[key] else default
  }

  /** `get_status` as written passes `encoder_name=` to `send_persistent_command`, which
      has no such parameter: the call raises `TypeError` before sending anything and
      the stored reply is the exception's text. */
  const KwargError: string :=
    "send_persistent_command()" + " got an" + " unexpected" + " keyword" + " argument" + " 'encoder_name'"

  lemma KwargErrorIsUnknown()
    ensures Parse(KwargError) == Unknown
  {
    var a := "send_persistent_command()";
    assert NoCapital(a);
    assert NoCapital(" got an");
    NoCapitalConcat(a, " got an");
    a := a + " got an";
    assert NoCapital(" unexpected");
    NoCapitalConcat(a, " unexpected");
    a := a + " unexpected";
    assert NoCapital(" keyword");
    NoCapitalConcat(a, " keyword");
    a := a + " keyword";
    assert NoCapital(" argument");
    NoCapitalConcat(a, " argument");
    a := a + " argument";
    assert NoCapital(" 'encoder_name'");
    NoCapitalConcat(a, " 'encoder_name'");
    a := a + " 'encoder_name'";
    LowerCaseIsUnknown(a);
  }

  lemma NoCapitalConcat(a: string, b: string)
    requires NoCapital(a) && NoCapital(b)
    ensures NoCapital(a + b)
  {
    forall i | 0 <= i < |a + b|
      ensures !('A' <= (a + b)[i] <= 'Z')
    {
      if i >= |a| {
        assert (a + b)[i] == b[i - |a|];
      }
    }
  }

  /** The log rule of `_maybe_log`, as a relation between the log and timestamps before
      and after: log when the reply changed or `every` seconds have passed since the
      last log line for this encoder (0 when there was none). */
  predicate LogStep(logged0: seq<string>, lastLog0: map<string, int>,
                    logged1: seq<string>, lastLog1: map<string, int>,
                    name: string, res: string, changed: bool, nowS: int, every: int)
  {
    if changed || nowS - GetOr(lastLog0, name, 0) >= every then
      logged1 == logged0 + [LogText(name, res)] && lastLog1 == lastLog0[name := nowS]
    else
      logged1 == logged0 && lastLog1 == lastLog0
  }

  class StatusManager {
    /** `encoder_last_state`, `_last_query_ts` (ms) and `_last_log_ts` (s). */
    var lastState: map<string, string>
    var lastQuery: map<string, int>
    var lastLog: map<string, int>
    const cooldownMs: int
    const logEverySec: int
    /** The texts handed to `log`. */
    var logged: seq<string>

    constructor(cooldown: int, logEvery: int)
      ensures cooldownMs == cooldown && logEverySec == logEvery
      ensures lastState == map[] && lastQuery == map[] && lastLog == map[] && logged == []
    {
      cooldownMs, logEverySec := cooldown, logEvery;
      lastState, lastQuery, lastLog, logged := map[], map[], map[], [];
    }

    /** The cached reply is fresh enough to be answered without asking. */
    predicate InCooldown(name: string, nowMs: int)
      reads this
    {
      nowMs - GetOr(lastQuery, name, 0) < cooldownMs && name in lastState
    }

    /** `_maybe_log` at second `nowS`. */
    method MaybeLog(name: string, res: string, changed: bool, nowS: int)
      modifies this
      ensures LogStep(old(logged), old(lastLog), logged, lastLog, name, res, changed, nowS, logEverySec)
      ensures lastState == old(lastState) && lastQuery == old(lastQuery)
    {
      var last := GetOr(lastLog, name, 0);
      if changed || nowS - last >= logEverySec {
        logged := logged + [LogText(name, res)];
        lastLog := lastLog[name := nowS];
      }
    }

    /** Lines 59-63 of `get_status`: store the reply with the query's time `nowMs`, and
        log it by the clock read again in `_maybe_log`, at millisecond `logMs`. */
    method Store(name: string, res: string, nowMs: int, logMs: int)
      modifies this
      ensures lastState == old(lastState)[name := res] && lastQuery == old(lastQuery)[name := nowMs]
      ensures LogStep(old(logged), old(lastLog), logged, lastLog, name, res,
                      name !in old(lastState) || old(lastState)[name] != res, logMs / 1000, logEverySec)
    {
      var changed := name !in lastState || lastState[name] != res;
      lastState := lastState[name := res];
      lastQuery := lastQuery[name := nowMs];
      MaybeLog(name, res, changed, logMs / 1000);
    }

    /** `get_status(name)` with the request sent over the persistent connection; the
        clock reads millisecond `nowMs` at the start and `logMs` when the reply is
        logged. Within the cool-down the cached reply is parsed and nothing is sent;
        otherwise the reply of `send_persistent_command` (or the text of the exception
        it raises) is stored, logged and parsed. Either way the answer is the status of
        the reply now cached for this encoder. */
    method GetStatus(link: Link, name: string, nowMs: int, logMs: int) returns (st: Status)
      modifies this, link
      ensures name in lastState && st == Parse(lastState[name])
      ensures lastState == old(lastState)[name := lastState[name]]
      ensures old(InCooldown(name, nowMs)) ==> unchanged(this) && unchanged(link)
      ensures !old(InCooldown(name, nowMs)) ==> lastQuery == old(lastQuery)[name := nowMs]
      ensures !old(InCooldown(name, nowMs)) ==>
                lastState[name] == ReplyText(PersistentReply(old(link.persistent), old(link.connects),
                                                             old(link.exchanges)))
      ensures !old(InCooldown(name, nowMs)) ==>
                LogStep(old(logged), old(lastLog), logged, lastLog, name, lastState[name],
                        name !in old(lastState) || old(lastState)[name] != lastState[name],
                        logMs / 1000, logEverySec)
      ensures !old(InCooldown(name, nowMs)) ==>
                old(link.writes) <= link.writes
                && forall k :: |old(link.writes)| <= k < |link.writes| ==>
                                 link.writes[k].1 == EncStatusCommand(name) + "\r\n"
      ensures old(link.Valid()) ==> link.Valid()
    {
      if InCooldown(name, nowMs) {
        return Parse(lastState[name]);
      }
      var reply := link.SendPersistentCommand(EncStatusCommand(name));
      var res := ReplyText(reply);
      Store(name, res, nowMs, logMs);
      assert lastState[name] == res;
      st := Parse(res);
    }

    /** Every reply in the cache is the `TypeError` text. */
    predicate OnlyKwargErrors()
      reads this
    {
      forall n :: n in lastState ==> lastState[n] == KwargError
    }

    /** `get_status` as written: the request raises `TypeError` (see `KwargError`), so
        nothing is ever sent and every status reported is unknown. */
    method GetStatusAsWritten(name: string, nowMs: int, logMs: int) returns (st: Status)
      modifies this
      ensures old(OnlyKwargErrors()) ==> OnlyKwargErrors() && st == Unknown
      ensures name in lastState && st == Parse(lastState[name])
      ensures old(InCooldown(name, nowMs)) ==> unchanged(this)
      ensures !old(InCooldown(name, nowMs)) ==>
                lastState == old(lastState)[name := KwargError] && lastQuery == old(lastQuery)[name := nowMs]
      ensures !old(InCooldown(name, nowMs)) ==>
                LogStep(old(logged), old(lastLog), logged, lastLog, name, KwargError,
                        name !in old(lastState) || old(lastState)[name] != KwargError, logMs / 1000, logEverySec)
    {
      KwargErrorIsUnknown();
      if nowMs - GetOr(lastQuery, name, 0) < cooldownMs && name in lastState {
        return Parse(lastState[name]);
      }
      Store(name, KwargError, nowMs, logMs);
      st := Parse(KwargError);
    }

    /** `refresh_all(names)`: one `get_status` per name, in order, the `i`-th reading the
        clock at `clock(2 * i)` and logging at `clock(2 * i + 1)`; the table has exactly
        the given names, each with the status of the reply cached for it at the end. */
    method RefreshAll(link: Link, names: seq<string>, clock: nat -> int) returns (m: map<string, Status>)
      modifies this, link
      ensures m.Keys == set n | n in names
      ensures Agrees(m, lastState, Parse)
      ensures KeepsOthers(old(lastState), lastState, names)
    {
      ghost var start := lastState;
      m := map[];
      var i := 0;
      while i < |names|
        invariant 0 <= i <= |names|
        invariant m.Keys == set n | n in names[..i]
        invariant Agrees(m, lastState, Parse)
        invariant KeepsOthers(start, lastState, names)
      {
        ghost var before := lastState;
        var st := GetStatus(link, names[i], clock(2 * i), clock(2 * i + 1));
        RefreshStep(m, start, before, lastState, names, i, i + 1, st, Parse);
        m := m[names[i] := st];
        i := i + 1;
      }
      assert names[..i] == names;
    }

    /** `refresh_all(names)` as written: every query goes through `GetStatusAsWritten`,
        so nothing is sent, and from a cache holding only the `TypeError` text (as it
        does from construction on) every status in the table is unknown. */
    method RefreshAllAsWritten(names: seq<string>, clock: nat -> int) returns (m: map<string, Status>)
      modifies this
      ensures m.Keys == set n | n in names
      ensures Agrees(m, lastState, Parse)
      ensures KeepsOthers(old(lastState), lastState, names)
      ensures old(OnlyKwargErrors()) ==> OnlyKwargErrors() && forall n :: n in m ==> m[n] == Unknown
    {
      ghost var start := lastState;
      ghost var clean := OnlyKwargErrors();
      m := map[];
      var i := 0;
      while i < |names|
        invariant 0 <= i <= |names|
        invariant m.Keys == set n | n in names[..i]
        invariant Agrees(m, lastState, Parse)
        invariant KeepsOthers(start, lastState, names)
        invariant clean ==> OnlyKwargErrors() && forall n :: n in m ==> m[n] == Unknown
      {
        ghost var before := lastState;
        var st := GetStatusAsWritten(names[i], clock(2 * i), clock(2 * i + 1));
        RefreshStep(m, start, before, lastState, names, i, i + 1, st, Parse);
        m := m[names[i] := st];
        i := i + 1;
      }
      assert names[..i] == names;
    }
  }

  /** Every status in the table is that of the reply cached for its encoder. */


  ghost predicate Agrees(m: map<string, Status>, cache: map<string, string>, parse: string -> Status) {
    forall n :: n in m ==> n in cache && m[n] == parse(cache[n])
  }

  /** The replies cached for encoders outside `names` are as they were. */
  ghost predicate KeepsOthers(cache0: map<string, string>, cache1: map<string, string>, names: seq<string>) {
    forall n :: n in cache0 && n !in names ==> n in cache1 && cache1[n] == cache0[n]
  }

  /** One step of `refresh_all`: querying `names[i]` keeps both invariants. */
  lemma RefreshStep(m: map<string, Status>, start: map<string, string>, before: map<string, string>,
                    after: map<string, string>, names: seq<string>, i: int, next: int, st: Status,
                    parse: string -> Status)
    requires 0 <= i < |names| && next == i + 1 && m.Keys == set n | n in names[..i]
    requires Agrees(m, before, parse) && KeepsOthers(start, before, names)
    requires names[i] in after && st == parse(after[names[i]])
    requires after == before[names[i] := after[names[i]]]
    ensures m[names[i] := st].Keys == set n | n in names[..next]
    ensures Agrees(m[names[i] := st], after, parse) && KeepsOthers(start, after, names)
  {
    assert names[..i + 1] == names[..i] + [names[i]];
  }
}
