/** `EncoderManagerDialog`: the dialog that edits a copy of the encoder registry, a map
    from device name to host and port. Adding checks the three inputs in a fixed order;
    deleting removes one name after the user confirms. */
module EncoderManagerDialog {
  import opened Wrappers
  import opened Text

  /** One registry entry: `{"host": ..., "port": ...}`. */
  datatype Device = Device(host: string, port: int)

  // ------------------------------------------------------------- int(text)

  /** ASCII digits with single underscores between them, as an integer literal allows. */
  predicate GroupedDigits(r: string) {
    |r| >= 1 && IsDigit(r[0]) && IsDigit(r[|r| - 1])
    && (forall i :: 0 <= i < |r| ==> IsDigit(r[i]) || r[i] == '_')
    && (forall i :: 0 <= i < |r| - 1 && r[i] == '_' ==> r[i + 1] != '_')
  }

  /** The digits of `r` without its underscores. */
  function DropUnderscores(r: string): (d: string)
    ensures forall c :: c in d ==> c in r && c != '_'
    ensures forall c :: c in r && c != '_' ==> c in d
  {
    if r == [] then [] else (if r[0] == '_' then [] else [r[0]]) + DropUnderscores(r[1..])
  }

  lemma {:induction false} DropUnderscoresDigits(r: string)
    requires forall i :: 0 <= i < |r| ==> IsDigit(r[i]) || r[i] == '_'
    ensures AllDigits(DropUnderscores(r))
  {
    var d := DropUnderscores(r);
    forall i | 0 <= i < |d|
      ensures IsDigit(d[i])
    {
      assert d[i] in d;
    }
  }

  /** Python's `int(text)` on a stripped text: an optional sign, then digits grouped by
      single underscores; `None` where Python raises ValueError. */
  function ParseInt(t: string): (r: Option<int>)
    ensures t == [] ==> r.None?
    ensures r.Some? && t[0] == '-' ==> r.value <= 0
    ensures r.Some? && t[0] != '-' ==> r.value >= 0
  {
    var hasSign := |t| >= 1 && (t[0] == '+' || t[0] == '-');
    var body := if hasSign then t[1..] else t;
    if !GroupedDigits(body) then None
    else
      DropUnderscoresDigits(body);
      var v: int := DigitsValue(DropUnderscores(body));
      Some(if hasSign && t[0] == '-' then -v else v)
  }

  lemma {:induction false} DropUnderscoresNone(r: string)
    requires AllDigits(r)
    ensures DropUnderscores(r) == r
  {
    if r != [] {
      assert IsDigit(r[0]);
      DropUnderscoresNone(r[1..]);
    }
  }

  /** `int(str(n)) == n`: every port the registry can hold reads back from its text. */
  lemma ParseIntRoundTrip(n: int)
    ensures ParseInt(IntToString(n)) == Some(n)
  {
    var m: nat := if n < 0 then -n else n;
    var d := NatToString(m);
    DecimalRoundTrip(m);
    DropUnderscoresNone(d);
    assert GroupedDigits(d);
    if n < 0 {
      var t := "-" + d;
      assert t[0] == '-' && t[1..] == d;
    } else {
      assert d[0] != '+' && d[0] != '-' by { assert IsDigit(d[0]); }
    }
  }

  // -------------------------------------------------------- add validation

  const Incomplete: string := "欄位不完整"
  const BadPort: string := "Port 格式錯誤"
  const Duplicate: string := "名稱重複"

  /** What `add_encoder` decides: a warning title, or the entry to insert. */
  datatype AddVerdict = Warn(title: string) | Insert(name: string, device: Device)

  /** The checks of `add_encoder` on the stripped inputs, in order: all three filled,
      the port an integer, the name new. */
  function CheckAdd(data: map<string, Device>, name: string, ip: string, portText: string): (v: AddVerdict)
    ensures v == Warn(Incomplete) <==> name == "" || ip == "" || portText == ""
    ensures v == Warn(BadPort) <==> name != "" && ip != "" && portText != "" && ParseInt(portText).None?
    ensures v == Warn(Duplicate) <==> name != "" && ip != "" && ParseInt(portText).Some? && name in data
    ensures v.Insert? <==> name != "" && ip != "" && ParseInt(portText).Some? && name !in data
    ensures v.Insert? ==> v.name == name && v.device == Device(ip, ParseInt(portText).value)
  {
    if name == "" || ip == "" || portText == "" then Warn(Incomplete)
    else if ParseInt(portText).None? then Warn(BadPort)
    else if name in data then Warn(Duplicate)
    else Insert(name, Device(ip, ParseInt(portText).value))
  }

  /** An accepted entry can be deleted again, which gives back the registry as it was;
      a refused one leaves nothing to undo. */
  lemma AddThenDelete(data: map<string, Device>, name: string, ip: string, portText: string)
    ensures var v := CheckAdd(data, name, ip, portText);
            v.Insert? ==> v.name !in data && data[v.name := v.device] - {v.name} == data
  {
    var v := CheckAdd(data, name, ip, portText);
    if v.Insert? {
      var m := data[v.name := v.device] - {v.name};
      assert m.Keys == data.Keys;
    }
  }

  // ---------------------------------------------------------------- dialog

  class EncoderManager {
    /** `encoder_data`: the dialog's own copy of the registry. */
    var data: map<string, Device>
    /** The three input fields. */
    var nameInput: string
    var ipInput: string
    var portInput: string
    /** The title of the last warning box shown, if any. */
    var warning: Option<string>

    /** `__init__`: a copy of the global registry and empty inputs. */
    constructor(config: map<string, Device>)
      ensures data == config && nameInput == "" && ipInput == "" && portInput == "" && warning.None?
    {
      data := config;
      nameInput, ipInput, portInput := "", "", "";
      warning := None;
    }

    /** `add_encoder`: a refused add shows its warning and changes neither the registry
        nor the inputs; an accepted one inserts exactly the new name and clears the inputs. */
    method AddEncoder()
      modifies this
      ensures var v := CheckAdd(old(data), Strip(old(nameInput)), Strip(old(ipInput)), Strip(old(portInput)));
              if v.Insert? then
                data == old(data)[v.name := v.device] && nameInput == "" && ipInput == "" && portInput == ""
                && warning == old(warning)
              else
                data == old(data) && warning == Some(v.title)
                && nameInput == old(nameInput) && ipInput == old(ipInput) && portInput == old(portInput)
    {
      var name := Strip(nameInput);
      var ip := Strip(ipInput);
      var portText := Strip(portInput);
      Submit(name, ip, portText);
    }

    /** The checks and the insertion of `add_encoder` on the stripped inputs. */
    method Submit(name: string, ip: string, portText: string)
      modifies this
      ensures var v := CheckAdd(old(data), name, ip, portText);
              if v.Insert? then
                data == old(data)[v.name := v.device] && nameInput == "" && ipInput == "" && portInput == ""
                && warning == old(warning)
              else
                data == old(data) && warning == Some(v.title)
                && nameInput == old(nameInput) && ipInput == old(ipInput) && portInput == old(portInput)
    {
      if name == "" || ip == "" || portText == "" {
        warning := Some(Incomplete);
        return;
      }
      var port := ParseInt(portText);
      if port.None? {
        warning := Some(BadPort);
        return;
      }
      if name in data {
        warning := Some(Duplicate);
        return;
      }
      data := data[name := Device(ip, port.value)];
      nameInput, ipInput, portInput := "", "", "";
    }

    /** `delete_encoder`: on "Yes" remove the name, if present; otherwise nothing. */
    method DeleteEncoder(name: string, confirmed: bool)
      modifies this
      ensures data == if confirmed then old(data) - {name} else old(data)
      ensures name !in old(data) ==> data == old(data)
      ensures nameInput == old(nameInput) && ipInput == old(ipInput) && portInput == old(portInput)
      ensures warning == old(warning)
    {
      if confirmed {
        data := data - {name};
      }
    }

    /** `get_result`: the edited copy. */
    method GetResult() returns (r: map<string, Device>)
      ensures r == data
    {
      r := data;
    }
  }
}
