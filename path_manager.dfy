/** `PathManager`: the recording and snapshot roots, kept in the JSON configuration
    file, and the paths built from them. */
module PathManager {
  import opened Wrappers
  import opened Text
  import opened QtTime

  /** The state of a configuration file: absent, readable with these string
      entries, or present but unreadable (the read raises). */
  datatype ConfigFile = Missing | Readable(entries: map<string, string>) | Unreadable

  /** `os.path.join(os.getcwd(), "Recordings")`. */
  function DefaultRecordRoot(cwd: string): string {
    JoinPath(cwd, "Recordings")
  }

  /** `dict.get(key, default)`. */
  function Get(m: map<string, string>, key: string, default: string): string {
    if key in m then m[key] else default
  }

  /** `load_paths`: read `config.json`, or the bundled copy when it is absent; take
      `record_root` from it (default `<cwd>\Recordings`) and `snapshot_root` from it
      (default the resolved record root). A read error keeps both defaults. */
  function LoadPaths(cwd: string, config: ConfigFile, bundled: ConfigFile): (roots: (string, string))
    ensures var source := if config.Missing? then bundled else config;
            var dflt := DefaultRecordRoot(cwd);
            (source.Unreadable? ==> roots == (dflt, dflt))
            && (source.Missing? ==> roots == (dflt, dflt))
            && (source.Readable? ==>
                  roots.0 == (if "record_root" in source.entries then source.entries["record_root"] else dflt)
                  && roots.1 == (if "snapshot_root" in source.entries then source.entries["snapshot_root"] else roots.0))
  {
    var dflt := DefaultRecordRoot(cwd);
    var source := if config.Missing? then bundled else config;
    match source
    case Readable(data) =>
      var record := Get(data, "record_root", dflt);
      (record, Get(data, "snapshot_root", record))
    case _ => (dflt, dflt)
  }

  /** Without a snapshot entry the snapshot root follows the record root. */
  lemma SnapshotFollowsRecord(cwd: string, config: ConfigFile, bundled: ConfigFile)
    requires var source := if config.Missing? then bundled else config;
             !source.Readable? || "snapshot_root" !in source.entries
    ensures LoadPaths(cwd, config, bundled).1 == LoadPaths(cwd, config, bundled).0
  {
  }

  /** The configuration as rewritten by `save_record_root(path)`: `record_root` set,
      an existing `snapshot_root` kept (otherwise set to `path`), other keys kept. */
  function WithRecordRoot(data: map<string, string>, path: string): (r: map<string, string>)
    ensures r.Keys == data.Keys + {"record_root", "snapshot_root"}
    ensures r["record_root"] == path
    ensures r["snapshot_root"] == (if "snapshot_root" in data then data["snapshot_root"] else path)
    ensures forall k :: k in data && k != "record_root" && k != "snapshot_root" ==> r[k] == data[k]
  {
    var d := data["record_root" := path];
    if "snapshot_root" in d then d else d["snapshot_root" := Get(d, "record_root", path)]
  }

  /** The configuration as rewritten by `save_snapshot_root(path)`: `snapshot_root`
      set, an existing `record_root` kept (otherwise the in-memory record root). */
  function WithSnapshotRoot(data: map<string, string>, path: string, recordRoot: string): (r: map<string, string>)
    ensures r.Keys == data.Keys + {"record_root", "snapshot_root"}
    ensures r["snapshot_root"] == path
    ensures r["record_root"] == (if "record_root" in data then data["record_root"] else recordRoot)
    ensures forall k :: k in data && k != "record_root" && k != "snapshot_root" ==> r[k] == data[k]
  {
    var d := data["snapshot_root" := path];
    if "record_root" in d then d else d["record_root" := recordRoot]
  }

  /** Saving a root and loading the file back yields that root; saving the record
      root into a file without a snapshot entry makes both roots that path. */
  lemma SaveThenLoad(cwd: string, data: map<string, string>, path: string, recordRoot: string)
    ensures LoadPaths(cwd, Readable(WithRecordRoot(data, path)), Missing).0 == path
    ensures "snapshot_root" !in data ==> LoadPaths(cwd, Readable(WithRecordRoot(data, path)), Missing) == (path, path)
    ensures LoadPaths(cwd, Readable(WithSnapshotRoot(data, path, recordRoot)), Missing).1 == path
  {
  }

  /** `get_full_path` (of the path manager and of the encoder controller):
      `<root>\MM.dd.yyyy\MMdd_<filename>` for today's date, which the clock always
      gives as a valid date; the encoder name is not used. */
  function FullPath(root: string, today: Date, filename: string): (r: string)
    requires today.Ymd?
    ensures var name := FilePrefix(today) + "_" + filename;
            |root| + |name| <= |r| && root <= r && r[|r| - |name|..] == name
  {
    var folder := JoinPath(root, FolderName(today));
    var name := FilePrefix(today) + "_" + filename;
    var r := JoinPath(folder, name);
    FolderNameRelative(today);
    JoinExtends(root, FolderName(today));
    FileNameRelative(today, filename);
    JoinExtends(folder, name);
    PrefixTrans(root, folder, r);
    r
  }

  /** The recording's file name for a valid date starts with two digits. */
  lemma FileNameRelative(d: Date, filename: string)
    requires d.Ymd?
    ensures IsRelativeName(FilePrefix(d) + "_" + filename)
  {
    var name := FilePrefix(d) + "_" + filename;
    assert name[0] == PadNat(d.month, 2)[0] && name[1] == PadNat(d.month, 2)[1];
    DigitsRelative(name);
  }

  /** A day's folder name is a relative name: empty for a null date, two digits first
      otherwise. */
  lemma FolderNameRelative(d: Date)
    ensures IsRelativeName(FolderName(d))
  {
    if d.Ymd? {
      var f := FolderName(d);
      assert f[0] == PadNat(d.month, 2)[0] && f[1] == PadNat(d.month, 2)[1];
      DigitsRelative(f);
    }
  }

  lemma PrefixTrans(a: string, b: string, c: string)
    requires a <= b && b <= c
    ensures a <= c
  {
    assert c[..|a|] == b[..|a|];
  }

  /** `<root>\MM.dd.yyyy\img\<file>`, joined as `os.path.join` does: it ends with the
      path part of `file`, and, for a relative `file` without a drive, starts with the
      root and ends with `file` itself. */
  function ImagePath(root: string, d: Date, file: string): (r: string)
    ensures |file| - |DriveOf(file)| <= |r| && r[|r| - (|file| - |DriveOf(file)|)..] == file[|DriveOf(file)|..]
    ensures IsRelativeName(file) ==> |root| + |file| <= |r| && root <= r && r[|r| - |file|..] == file
  {
    var folder := ImageFolder(root, d);
    if IsRelativeName(file) then
      JoinExtends(folder, file);
      PrefixTrans(root, folder, JoinPath(folder, file));
      JoinPath(folder, file)
    else JoinPath(folder, file)
  }

  /** `<root>\MM.dd.yyyy\img`, which starts with the root. */
  function ImageFolder(root: string, d: Date): (folder: string)
    ensures root <= folder
  {
    var day := JoinPath(root, FolderName(d));
    FolderNameRelative(d);
    JoinExtends(root, FolderName(d));
    ImgRelative();
    JoinExtends(day, "img");
    PrefixTrans(root, day, JoinPath(day, "img"));
    JoinPath(day, "img")
  }

  lemma ImgRelative()
    ensures IsRelativeName("img")
  {
    assert DriveOf("img") == [];
  }

  /** Why `get_image_path` refuses its arguments. */
  const IdNotString: string := "block_id 必須是字串（UUID）"
  const DateNotQDate: string := "qdate 必須是 QDate 物件"

  class Paths {
    /** `record_root` and `snapshot_root`, fixed at construction. */
    var recordRoot: string
    var snapshotRoot: string
    /** `config.json` in the working directory. */
    var config: ConfigFile
    /** Whether writing `config.json` succeeds; a failed write is logged and ignored. */
    var canWrite: bool

    constructor(cwd: string, config0: ConfigFile, bundled: ConfigFile, canWrite0: bool)
      ensures (recordRoot, snapshotRoot) == LoadPaths(cwd, config0, bundled)
      ensures config == config0 && canWrite == canWrite0
    {
      var roots := LoadPaths(cwd, config0, bundled);
      recordRoot, snapshotRoot := roots.0, roots.1;
      config := config0;
      canWrite := canWrite0;
    }

    /** `save_record_root`: merge into the existing configuration (an empty one when the
        file is absent) and write it; an unreadable file or a failed write changes nothing.
        The in-memory roots are not changed. */
    method SaveRecordRoot(path: string)
      modifies this
      ensures old(config).Unreadable? || !canWrite ==> config == old(config)
      ensures !old(config).Unreadable? && canWrite ==>
                config == Readable(WithRecordRoot(if old(config).Readable? then old(config).entries else map[], path))
      ensures recordRoot == old(recordRoot) && snapshotRoot == old(snapshotRoot) && canWrite == old(canWrite)
    {
      if config.Unreadable? {
        return;
      }
      var data := if config.Readable? then config.entries else map[];
      data := WithRecordRoot(data, path);
      if canWrite {
        config := Readable(data);
      }
    }

    /** `save_snapshot_root`: as above, defaulting `record_root` to the in-memory one. */
    method SaveSnapshotRoot(path: string)
      modifies this
      ensures old(config).Unreadable? || !canWrite ==> config == old(config)
      ensures !old(config).Unreadable? && canWrite ==>
                config == Readable(WithSnapshotRoot(if old(config).Readable? then old(config).entries else map[],
                                                    path, recordRoot))
      ensures recordRoot == old(recordRoot) && snapshotRoot == old(snapshotRoot) && canWrite == old(canWrite)
    {
      if config.Unreadable? {
        return;
      }
      var data := if config.Readable? then config.entries else map[];
      data := WithSnapshotRoot(data, path, recordRoot);
      if canWrite {
        config := Readable(data);
      }
    }

    /** `get_image_path`: `<record root>\MM.dd.yyyy\img\<id>.png`, or `ValueError` when the
        id is not a string (`None` here) or the date not a `QDate` (`None` here). The
        path always ends with the path part of `<id>.png`; an id that is not a relative
        name replaces the root, as `os.path.join` does. */
    function GetImagePath(blockId: Option<string>, qdate: Option<Date>): (r: Outcome<string>)
      reads this
      ensures blockId.None? ==> r == Raised(IdNotString)
      ensures blockId.Some? && qdate.None? ==> r == Raised(DateNotQDate)
      ensures blockId.Some? && qdate.Some? ==>
                var file := blockId.value + ".png";
                r.Returned? && |file| - |DriveOf(file)| <= |r.value|
                && r.value[|r.value| - (|file| - |DriveOf(file)|)..] == file[|DriveOf(file)|..]
      ensures blockId.Some? && qdate.Some? && IsRelativeName(blockId.value + ".png") ==>
                r.Returned?
                && |recordRoot| + |blockId.value| + 4 <= |r.value|
                && recordRoot <= r.value
                && r.value[|r.value| - |blockId.value| - 4..] == blockId.value + ".png"
    {
      if blockId.None? then Raised(IdNotString)
      else if qdate.None? then Raised(DateNotQDate)
      else Returned(ImagePath(recordRoot, qdate.value, blockId.value + ".png"))
    }
  }
}
