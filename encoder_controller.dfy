/** `EncoderController`: start a recording (set the file, then start) and stop it,
    each over its own one-shot connection. */
module EncoderController {
  import opened Wrappers
  import opened Text
  import opened QtTime
  import opened EncoderUtils

  /** The message returned when no connection can be made. */
  const NoConnection: string := "❌ 無法連線"

  /** `Setfile "<encoder>" 1 "<path>"`: the three-argument form. */
  function SetfileWithChannel(encoder: string, path: string): string {
    "Setfile \"" + encoder + "\" 1 \"" + path + "\""
  }

  /** `Setfile "<encoder>" "<path>"`: the two-argument form. */
  function SetfileWithoutChannel(encoder: string, path: string): string {
    "Setfile \"" + encoder + "\" \"" + path + "\""
  }

  function StartCommand(encoder: string): string {
    "Start \"" + encoder + "\" 1"
  }

  function StopCommand(encoder: string): string {
    "Stop \"" + encoder + "\" 1"
  }

  /** The file name of a recording: `MMdd_<filename>` in the `MM.dd.yyyy` folder. */
  function FileInFolder(today: Date, filename: string): string {
    FolderName(today) + "\\" + FilePrefix(today) + "_" + filename
  }

  /** The path of `get_full_path` (see `PathManager.FullPath`) relative to the record
      root, with every backslash turned into '/'. */
  function RelPath(today: Date, filename: string): (r: string)
    ensures '\\' !in r
    ensures |r| == |FileInFolder(today, filename)|
    ensures forall i :: 0 <= i < |r| && FileInFolder(today, filename)[i] != '\\' ==> r[i] == FileInFolder(today, filename)[i]
  {
    ReplaceChar(FileInFolder(today, filename), '\\', '/')
  }

  /** The reply to the `k`-th planned command from now. */
  function ReplyAt(plan: seq<Exchange>, k: nat): Reply {
    ReplyOf(if k < |plan| then plan[k] else Exchange(Sent, []))
  }

  /** The answer contains "OK" (a lost connection never gets here). */
  predicate HasOk(r: Reply) {
    r.Answer? && Contains(r.text, "OK")
  }

  /** The answer asks for the other `Setfile` form. */
  predicate WantsTwoArguments(r: Reply) {
    r.Answer? && Contains(r.text, "Invalid Parameters")
  }

  class Controller {
    /** `record_root`. */
    const recordRoot: string

    constructor(root: string)
      ensures recordRoot == root
    {
      recordRoot := root;
    }

    /** `start_encoder`: with no connection, fail without sending anything; otherwise
        send the three-argument `Setfile`, then the two-argument one only if the
        device answered "Invalid Parameters", then always `Start`, and close.
        Success needs "OK" in the final `Setfile` answer and in the `Start` answer.
        A lost connection propagates as an exception. */
    method StartEncoder(link: Link, today: Date, encoder: string, filename: string)
        returns (r: Outcome<(bool, string)>)
      modifies link
      ensures var rel := RelPath(today, filename);
              var plan := old(link.exchanges);
              var a1 := ReplyAt(plan, 0);
              var fallback := WantsTwoArguments(a1);
              var a2 := if fallback then ReplyAt(plan, 1) else a1;
              var a3 := ReplyAt(plan, if fallback then 2 else 1);
              var s := old(link.nextSock);
              if old(link.connects) == [] || !old(link.connects)[0] then
                r == Returned((false, NoConnection)) && link.writes == old(link.writes)
              else
                (r.Raised? <==> a1.ConnectionLost? || (fallback && a2.ConnectionLost?) || a3.ConnectionLost?)
                && (r.Raised? ==> r.message == (if a1.ConnectionLost? then a1.error
                                                else if fallback && a2.ConnectionLost? then a2.error
                                                else a3.error))
                && (r.Returned? ==>
                      r.value == (HasOk(a2) && HasOk(a3), rel)
                      && link.writes == old(link.writes) + [(s, SetfileWithChannel(encoder, rel) + "\r\n")]
                                        + (if fallback then [(s, SetfileWithoutChannel(encoder, rel) + "\r\n")] else [])
                                        + [(s, StartCommand(encoder) + "\r\n")]
                      && link.closed == old(link.closed) + {s})
      ensures link.persistent == old(link.persistent)
    {
      var rel := RelPath(today, filename);
      var sock := link.ConnectSocket();
      if sock.None? {
        return Returned((false, NoConnection));
      }
      var res1 := link.SendCommand(sock, SetfileWithChannel(encoder, rel));
      if res1.ConnectionLost? {
        return Raised(res1.error);
      }
      if Contains(res1.text, "Invalid Parameters") {
        res1 := link.SendCommand(sock, SetfileWithoutChannel(encoder, rel));
        if res1.ConnectionLost? {
          return Raised(res1.error);
        }
      }
      var res2 := link.SendCommand(sock, StartCommand(encoder));
      if res2.ConnectionLost? {
        return Raised(res2.error);
      }
      link.Close(sock.value);
      r := Returned((Contains(res1.text, "OK") && Contains(res2.text, "OK"), rel));
    }

    /** `stop_encoder`: with no connection, false without sending; otherwise send `Stop`,
        close, and report whether the answer contains "OK". */
    method StopEncoder(link: Link, encoder: string) returns (r: Outcome<bool>)
      modifies link
      ensures var s := old(link.nextSock);
              var a := ReplyAt(old(link.exchanges), 0);
              if old(link.connects) == [] || !old(link.connects)[0] then
                r == Returned(false) && link.writes == old(link.writes)
              else
                (r.Raised? <==> a.ConnectionLost?)
                && (r.Raised? ==> r.message == a.error)
                && (r.Returned? ==> r.value == HasOk(a)
                                    && link.writes == old(link.writes) + [(s, StopCommand(encoder) + "\r\n")]
                                    && link.closed == old(link.closed) + {s})
      ensures link.persistent == old(link.persistent)
    {
      var sock := link.ConnectSocket();
      if sock.None? {
        return Returned(false);
      }
      var res := link.SendCommand(sock, StopCommand(encoder));
      if res.ConnectionLost? {
        return Raised(res.error);
      }
      link.Close(sock.value);
      r := Returned(Contains(res.text, "OK"));
    }
  }
}
