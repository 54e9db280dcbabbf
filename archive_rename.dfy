/**
 * The archive renamer of Python/RenameZip.py and of RenameZip.py (the same
 * program without the recursive option): an archive whose entries all lie
 * under one top-level name is renamed to that name, keeping its extension.
 *
 * Entry names use '/' as the separator (section 4.4.17.1 of PKWARE's
 * APPNOTE.TXT). Reading an archive is outside the model: the caller gives
 * its entry names, or the text of the exception its reader raised. The
 * filesystem is the set of existing paths; a rename that raises is given
 * by the text of its exception.
 */
module ArchiveRename {
  import opened Wrappers
  import opened Text
  import opened Folds

  const ArchiveExtensions: seq<string> := [".zip", ".7z"]

  const MsgUnsupported := "Unsupported file type."
  const MsgNo7z := "py7zr module is not installed; cannot process 7z files."
  const MsgNoFolder := "Archive does not contain any folder."
  const MsgManyFolders := "Archive does not contain exactly one top-level folder."

  // ---------------------------------------------------------------------
  // The top-level name of an entry
  // ---------------------------------------------------------------------

  /** The first non-empty string of `parts`: `[p for p in parts if p][0]`, when there is one. */
  function FirstNonEmpty(parts: seq<string>): (r: Option<string>)
    ensures r.Some? ==> r.value != "" && r.value in parts
    ensures r.None? <==> forall k :: 0 <= k < |parts| ==> parts[k] == ""
  {
    if |parts| == 0 then None
    else if parts[0] != "" then Some(parts[0])
    else FirstNonEmpty(parts[1..])
  }

  predicate IsSlash(c: char) { c == '/' }

  /** The inner loop of `process_archive`: the first non-empty '/'-component of an entry name. */
  function TopLevel(name: string): (r: Option<string>)
    ensures r.Some? ==> r.value != "" && '/' !in r.value
  {
    FirstNonEmpty(Split(name, '/'))
  }

  /** The same name read directly: drop the leading slashes and take what comes before the next one. */
  function LeadingComponent(name: string): Option<string> {
    var t := TrimLeft(name, IsSlash);
    if t == "" then None else Some(t[..FirstIndexOf(t, '/')])
  }

  /** The two readings agree: the top-level name is the run of characters after the leading slashes. */
  lemma {:induction false} TopLevelIsLeadingComponent(name: string)
    ensures TopLevel(name) == LeadingComponent(name)
    decreases |name|
  {
    var i := FirstIndexOf(name, '/');
    if i == |name| {
      assert Split(name, '/') == [name];
      if name != "" {
        assert !IsSlash(name[0]);
        assert TrimLeft(name, IsSlash) == name;
        assert name[..|name|] == name;
        assert FirstNonEmpty([name]) == Some(name);
      }
    } else if i == 0 {
      var rest := name[1..];
      assert Split(name, '/') == [""] + Split(rest, '/');
      assert (["" ] + Split(rest, '/'))[1..] == Split(rest, '/');
      TopLevelIsLeadingComponent(rest);
      assert TrimLeft(name, IsSlash) == TrimLeft(rest, IsSlash);
    } else {
      assert Split(name, '/') == [name[..i]] + Split(name[i + 1..], '/');
      assert !IsSlash(name[0]);
      assert TrimLeft(name, IsSlash) == name;
    }
  }

  /** A name without '/' (a lone file at the root, say) is its own top-level name. */
  lemma PlainNameIsTopLevel(name: string)
    requires name != "" && '/' !in name
    ensures TopLevel(name) == Some(name)
  {
    TopLevelIsLeadingComponent(name);
    assert !IsSlash(name[0]);
    assert TrimLeft(name, IsSlash) == name;
  }

  /** An empty name, or one made only of '/', has no top-level name. */
  lemma SlashesHaveNoTopLevel(name: string)
    requires forall k :: 0 <= k < |name| ==> name[k] == '/'
    ensures TopLevel(name) == None
  {
    TopLevelIsLeadingComponent(name);
  }

  /** `top_levels` as the set it ends up: every top-level name of an entry. */
  ghost function TopLevelSet(names: seq<string>): set<string> {
    set k | 0 <= k < |names| && TopLevel(names[k]).Some? :: TopLevel(names[k]).value
  }

  /** The loop of `process_archive` filling `top_levels`. */
  method CollectTopLevels(names: seq<string>) returns (tops: set<string>)
    ensures tops == TopLevelSet(names)
  {
    tops := {};
    var i := 0;
    while i < |names|
      invariant 0 <= i <= |names|
      invariant tops == TopLevelSet(names[..i])
    {
      assert forall k :: 0 <= k < i ==> names[..i + 1][k] == names[..i][k];
      match TopLevel(names[i]) {
        case None =>
        case Some(t) => tops := tops + {t};
      }
      i := i + 1;
    }
    assert names[..i] == names;
  }

  /** Every entry under one folder `f` (the folder itself, or inside it) gives the single top-level name `f`. */
  lemma OneFolder(names: seq<string>, f: string)
    requires exists k :: 0 <= k < |names| && TopLevel(names[k]) == Some(f)
    requires forall k :: 0 <= k < |names| ==> TopLevel(names[k]) == Some(f) || TopLevel(names[k]) == None
    ensures TopLevelSet(names) == {f}
  {
  }

  // ---------------------------------------------------------------------
  // process_archive
  // ---------------------------------------------------------------------

  /** Which reader the lower-cased extension selects. */
  datatype ArchiveKind = Zip | SevenZip | Unsupported

  function KindOf(path: string): (k: ArchiveKind)
    ensures k == Zip <==> Lower(Ext(path)) == ".zip"
    ensures k == SevenZip <==> Lower(Ext(path)) == ".7z"
  {
    var ext := Lower(Ext(path));
    if ext == ".zip" then Zip else if ext == ".7z" then SevenZip else Unsupported
  }

  /** The decision `process_archive` takes on the set of top-level names. */
  function Verdict(tops: set<string>): (r: Result<string, string>)
    ensures r.Ok? <==> |tops| == 1
    ensures r.Ok? ==> tops == {r.value}
    ensures r.Err? ==> r.error == (if tops == {} then MsgNoFolder else MsgManyFolders)
  {
    if |tops| != 1 then
      Err(if tops == {} then MsgNoFolder else MsgManyFolders)
    else
      var t :| t in tops;
      assert tops == {t} by {
        assert |tops - {t}| == |tops| - 1;
        assert tops - {t} == {};
      }
      Ok(t)
  }

  /** The value `process_archive` returns, as a function of the archive path and what its reader gave. */
  ghost function ArchiveScan(path: string, has7z: bool, read: Result<seq<string>, string>): Result<string, string> {
    match KindOf(path)
    case Unsupported => Err(MsgUnsupported)
    case Zip => if read.Err? then Err("Error reading ZIP file: " + read.error) else Verdict(TopLevelSet(read.value))
    case SevenZip =>
      if !has7z then Err(MsgNo7z)
      else if read.Err? then Err("Error reading 7z file: " + read.error)
      else Verdict(TopLevelSet(read.value))
  }

  /**
   * `process_archive(file_path)`: the archive's single top-level name, or
   * the error of an unsupported extension, a missing 7z reader, a reader
   * that raised, no top-level name, or several.
   */
  method ProcessArchive(path: string, has7z: bool, read: Result<seq<string>, string>) returns (r: Result<string, string>)
    ensures r == ArchiveScan(path, has7z, read)
  {
    match KindOf(path) {
      case Unsupported => return Err(MsgUnsupported);
      case Zip =>
        if read.Err? { return Err("Error reading ZIP file: " + read.error); }
      case SevenZip =>
        if !has7z { return Err(MsgNo7z); }
        if read.Err? { return Err("Error reading 7z file: " + read.error); }
    }
    var tops := CollectTopLevels(read.value);
    r := Verdict(tops);
  }

  /** A name is returned exactly when a supported archive was read and its entries have one top-level name, and it is that name. */
  lemma ArchiveScanOk(path: string, has7z: bool, read: Result<seq<string>, string>)
    ensures var r := ArchiveScan(path, has7z, read);
      && (r.Ok? <==> KindOf(path) != Unsupported && (KindOf(path) == SevenZip ==> has7z)
                     && read.Ok? && |TopLevelSet(read.value)| == 1)
      && (r.Ok? ==> read.Ok? && TopLevelSet(read.value) == {r.value})
  {
  }

  /** An archive that could be read reports no folder exactly when no entry has a top-level name. */
  lemma ArchiveScanEmpty(path: string, read: seq<string>)
    requires KindOf(path) == Zip
    ensures ArchiveScan(path, false, Ok(read)) == Err(MsgNoFolder) <==>
      forall k :: 0 <= k < |read| ==> TopLevel(read[k]) == None
  {
    assert forall k :: 0 <= k < |read| && TopLevel(read[k]).Some? ==> TopLevel(read[k]).value in TopLevelSet(read);
    assert (forall k :: 0 <= k < |read| ==> TopLevel(read[k]) == None) ==> TopLevelSet(read) == {};
    assert MsgNoFolder != MsgManyFolders;
  }

  // ---------------------------------------------------------------------
  // rename_archive
  // ---------------------------------------------------------------------

  /** The target of `rename_archive`: the archive's directory joined with the folder name and the extension in its original case. */
  function Target(path: string, folder: string): (t: string)
    ensures EndsWith(t, folder + Ext(path))
  {
    PathJoin(Dirname(path), folder + Ext(path))
  }

  lemma {:induction false} LastIndexOfAppend(s: string, t: string, c: char)
    requires c !in t
    ensures LastIndexOf(s + t, c) == LastIndexOf(s, c)
    decreases |t|
  {
    if |t| == 0 {
      assert s + t == s;
    } else {
      assert (s + t)[..|s + t| - 1] == s + t[..|t| - 1];
      LastIndexOfAppend(s, t[..|t| - 1], c);
    }
  }

  /** The target lies in the archive's own directory and is named after the folder, with the archive's extension. */
  lemma TargetBasename(path: string, folder: string)
    requires '/' !in folder
    requires Dirname(path) != "" && !EndsWith(Dirname(path), "/")
    ensures Target(path, folder) == Dirname(path) + "/" + folder + Ext(path)
    ensures Basename(Target(path, folder)) == folder + Ext(path)
  {
    SlashFree(folder, Ext(path));
    JoinBasename(Dirname(path), folder + Ext(path));
  }

  lemma SlashFree(a: string, b: string)
    requires '/' !in a && '/' !in b
    ensures '/' !in a + b
  {
    forall k | 0 <= k < |a + b| ensures (a + b)[k] != '/' {
      if k >= |a| { assert (a + b)[k] == b[k - |a|]; }
      else { assert (a + b)[k] == a[k]; }
    }
  }

  /** Joining a directory with a name that has no slash puts the name at the end, as the basename. */
  lemma JoinBasename(d: string, b: string)
    requires '/' !in b && d != "" && !EndsWith(d, "/")
    ensures PathJoin(d, b) == d + "/" + b
    ensures Basename(PathJoin(d, b)) == b
  {
    assert !StartsWith(b, "/") by {
      if |b| > 0 { assert b[0] in b; }
    }
    assert d + "/" + b == (d + "/") + b;
    LastIndexOfAppend(d + "/", b, '/');
    assert PathJoin(d, b)[|d| + 1..] == b;
  }

  /** The filesystem after a rename, and the error text when there is one. */
  datatype Rename = Rename(error: Option<string>, present: set<string>)

  /**
   * `rename_archive(file_path, folder_name)`: an existing target is
   * reported and nothing moves; otherwise the archive moves to the target,
   * unless the rename raises.
   */
  function RenameArchive(path: string, folder: string, present: set<string>, renameError: Option<string>): (r: Rename)
    ensures Target(path, folder) in present ==>
      r == Rename(Some("Target file '" + Target(path, folder) + "' already exists."), present)
    ensures Target(path, folder) !in present && renameError.Some? ==>
      r == Rename(Some("Error renaming file: " + renameError.value), present)
    ensures r.error.None? ==> Target(path, folder) !in present && r.present == present - {path} + {Target(path, folder)}
  {
    var t := Target(path, folder);
    if t in present then Rename(Some("Target file '" + t + "' already exists."), present)
    else if renameError.Some? then Rename(Some("Error renaming file: " + renameError.value), present)
    else Rename(None, present - {path} + {t})
  }

  /** A rename overwrites nothing: an existing archive other than the renamed one is kept, and no path is lost. */
  lemma RenameKeepsOthers(path: string, folder: string, present: set<string>, renameError: Option<string>)
    requires path in present
    ensures var r := RenameArchive(path, folder, present, renameError);
      && (forall p :: p in present && p != path ==> p in r.present)
      && |r.present| == |present|
  {
    var r := RenameArchive(path, folder, present, renameError);
    if r.error.None? {
      var t := Target(path, folder);
      assert present - {path} + {t} == (present - {path}) + {t};
      assert |present - {path}| == |present| - 1;
    }
  }

  /** An archive already named after its folder is reported as an existing target, not renamed. */
  lemma AlreadyNamed(path: string, folder: string, present: set<string>, renameError: Option<string>)
    requires path in present && Target(path, folder) == path
    ensures RenameArchive(path, folder, present, renameError).error == Some("Target file '" + path + "' already exists.")
  {
  }

  // ---------------------------------------------------------------------
  // process_folder
  // ---------------------------------------------------------------------

  /** `s.lower().endswith((".zip", ".7z"))`. */
  predicate IsArchiveName(s: string) {
    EndsWithAny(Lower(s), ArchiveExtensions)
  }

  /** The archives of the non-recursive branch, in listing order: regular files whose joined path ends in an archive extension. */
  function DirectArchives(folder: string, entries: seq<string>, isFile: string -> bool): (r: seq<string>)
    ensures |r| <= |entries|
    ensures forall p :: p in r <==> exists e :: e in entries && p == PathJoin(folder, e) && isFile(p) && IsArchiveName(p)
  {
    if |entries| == 0 then []
    else
      var init := entries[..|entries| - 1];
      var p := PathJoin(folder, entries[|entries| - 1]);
      assert forall e :: e in entries <==> e in init || e == entries[|entries| - 1];
      DirectArchives(folder, init, isFile) + (if isFile(p) && IsArchiveName(p) then [p] else [])
  }

  /** The archives of the recursive branch, directory by directory in walk order: names ending in an archive extension. */
  function WalkedArchives(walk: seq<(string, seq<string>)>): (r: seq<string>)
    ensures forall p :: p in r <==> exists k, f :: 0 <= k < |walk| && f in walk[k].1 && IsArchiveName(f) && p == PathJoin(walk[k].0, f)
  {
    if |walk| == 0 then []
    else
      var init := walk[..|walk| - 1];
      var (dir, files) := walk[|walk| - 1];
      assert forall k :: 0 <= k < |walk| - 1 ==> init[k] == walk[k];
      WalkedArchives(init) + InDir(dir, files)
  }

  /** The archive names of one walked directory, joined with it. */
  function InDir(dir: string, files: seq<string>): (r: seq<string>)
    ensures forall p :: p in r <==> exists f :: f in files && IsArchiveName(f) && p == PathJoin(dir, f)
  {
    if |files| == 0 then []
    else
      var init := files[..|files| - 1];
      var f := files[|files| - 1];
      assert forall g :: g in files <==> g in init || g == f;
      InDir(dir, init) + (if IsArchiveName(f) then [PathJoin(dir, f)] else [])
  }

  /** A suffix without '/' ends `a + "/" + b` exactly when it ends `b`. */
  lemma EndsAfterSlash(a: string, b: string, x: string)
    requires '/' !in x
    ensures EndsWith(a + "/" + b, x) <==> EndsWith(b, x)
  {
    var s := a + "/" + b;
    if |x| <= |b| {
      assert s[|s| - |x|..] == b[|b| - |x|..];
    } else if |x| <= |s| {
      assert s[|s| - |x|..][|x| - |b| - 1] == '/';
    }
  }

  /** Testing the joined path or the entry's own name selects the same entries. */
  lemma PathTestIsNameTest(folder: string, e: string)
    requires folder != "" && !EndsWith(folder, "/") && !StartsWith(e, "/")
    ensures IsArchiveName(PathJoin(folder, e)) <==> IsArchiveName(e)
  {
    LowerJoin(folder, e);
    SuffixesAfterSlash(Lower(folder), Lower(e));
  }

  lemma LowerJoin(folder: string, e: string)
    requires folder != "" && !EndsWith(folder, "/") && !StartsWith(e, "/")
    ensures Lower(PathJoin(folder, e)) == Lower(folder) + "/" + Lower(e)
  {
    assert PathJoin(folder, e) == (folder + "/") + e;
    LowerAppend(folder + "/", e);
    LowerAppend(folder, "/");
    assert Lower("/") == "/";
  }

  lemma SuffixesAfterSlash(a: string, b: string)
    ensures EndsWithAny(a + "/" + b, ArchiveExtensions) <==> EndsWithAny(b, ArchiveExtensions)
  {
    EndsAfterSlash(a, b, ".zip");
    EndsAfterSlash(a, b, ".7z");
    assert ArchiveExtensions[0] == ".zip" && ArchiveExtensions[1] == ".7z";
  }

  /** One log entry: the archive and either the name it was renamed to or the error reported for it. */
  datatype Logged = Renamed(path: string, newName: string) | Failed(path: string, error: string)

  /** A log entry as `process_single_file` writes it: the scan's error, the rename's error, or the new name `folder + ext`. */
  ghost predicate LogFits(path: string, has7z: bool, read: Result<seq<string>, string>, entry: Logged) {
    var a := ArchiveScan(path, has7z, read);
    && entry.path == path
    && (a.Err? ==> entry == Failed(path, a.error))
    && (entry.Renamed? ==> a.Ok? && entry.newName == a.value + Ext(path))
  }

  /** The log entry and the filesystem after one archive: unchanged after a failed scan, otherwise as the rename leaves it. */
  ghost predicate SingleDone(path: string, has7z: bool, read: Result<seq<string>, string>, present: set<string>,
                             renameError: Option<string>, log: Logged, present': set<string>) {
    var a := ArchiveScan(path, has7z, read);
    && (a.Err? ==> present' == present)
    && (a.Ok? ==> var rn := RenameArchive(path, a.value, present, renameError);
          && present' == rn.present
          && (rn.error.Some? ==> log == Failed(path, rn.error.value))
          && (rn.error.None? ==> log == Renamed(path, a.value + Ext(path))))
  }

  /** The log entry and the filesystem `process_single_file` leaves for one archive. */
  ghost function SingleOutcome(path: string, has7z: bool, read: Result<seq<string>, string>, present: set<string>,
                               renameError: Option<string>): (Logged, set<string>)
  {
    var a := ArchiveScan(path, has7z, read);
    if a.Err? then (Failed(path, a.error), present)
    else
      var rn := RenameArchive(path, a.value, present, renameError);
      (if rn.error.Some? then Failed(path, rn.error.value) else Renamed(path, a.value + Ext(path)), rn.present)
  }

  /**
   * `process_single_file`: an archive whose scan fails is reported with
   * the scan's error; otherwise it is renamed as `rename_archive` decides,
   * and logged with its new name `folder + ext`.
   */
  method ProcessSingle(path: string, has7z: bool, read: Result<seq<string>, string>,
                       present: set<string>, renameError: Option<string>)
    returns (log: Logged, present': set<string>)
    ensures LogFits(path, has7z, read, log)
    ensures SingleDone(path, has7z, read, present, renameError, log, present')
    ensures (log, present') == SingleOutcome(path, has7z, read, present, renameError)
  {
    var a := ProcessArchive(path, has7z, read);
    match a {
      case Err(e) =>
        log, present' := Failed(path, e), present;
      case Ok(folder) =>
        var rn := RenameArchive(path, folder, present, renameError);
        present' := rn.present;
        log := if rn.error.Some? then Failed(path, rn.error.value) else Renamed(path, folder + Ext(path));
    }
  }

  /**
   * The loops of `process_folder`: every selected archive is processed in
   * order, one log entry each; the filesystem changes only by the renames,
   * so no path is lost when the archives exist.
   */
  method ProcessAll(archives: seq<string>, has7z: bool, read: string -> Result<seq<string>, string>,
                    present: set<string>, renameError: string -> Option<string>)
    returns (log: seq<Logged>, present': set<string>)
    ensures |log| == |archives|
    ensures forall k :: 0 <= k < |archives| ==> LogFits(archives[k], has7z, read(archives[k]), log[k])
    ensures Pending(archives, 0, present) ==> |present'| == |present|
    ensures (log, present') == ProcessedUpTo(archives, |archives|, has7z, read, present, renameError)
  {
    log, present' := [], present;
    var i := 0;
    while i < |archives|
      invariant 0 <= i <= |archives|
      invariant LoggedSoFar(archives, i, has7z, read, log)
      invariant Pending(archives, 0, present) ==> Pending(archives, i, present') && |present'| == |present|
      invariant (log, present') == ProcessedUpTo(archives, i, has7z, read, present, renameError)
    {
      log, present' := ProcessStep(archives, i, has7z, read, present, renameError, log, present');
      i := i + 1;
    }
  }

  /** The log and the filesystem after the first `n` archives: `process_single_file` applied to each in turn. */
  ghost function ProcessedUpTo(archives: seq<string>, n: nat, has7z: bool, read: string -> Result<seq<string>, string>,
                               present: set<string>, renameError: string -> Option<string>): (r: (seq<Logged>, set<string>))
    requires n <= |archives|
  {
    Run(archives, n, present, (now: set<string>, p: string) => SingleOutcome(p, has7z, read(p), now, renameError(p)))
  }

  /**
   * Archive `k` is logged as renamed to `folder + ext` exactly when its
   * scan succeeds, its target is not present after the archives before it,
   * and its rename does not raise; otherwise it is logged with its error.
   */
  lemma ProcessedEntry(archives: seq<string>, k: nat, has7z: bool, read: string -> Result<seq<string>, string>,
                       present: set<string>, renameError: string -> Option<string>)
    requires k < |archives|
    ensures var p := archives[k];
      var before := ProcessedUpTo(archives, k, has7z, read, present, renameError).1;
      var entry := ProcessedUpTo(archives, |archives|, has7z, read, present, renameError).0[k];
      var a := ArchiveScan(p, has7z, read(p));
      && entry.path == p
      && (entry.Renamed? <==> a.Ok? && Target(p, a.value) !in before && renameError(p).None?)
      && (entry.Renamed? ==> entry.newName == a.value + Ext(p))
      && (a.Err? ==> entry == Failed(p, a.error))
  {
    RunAt(archives, k, |archives|, present, (now: set<string>, p: string) => SingleOutcome(p, has7z, read(p), now, renameError(p)));
  }

  /** The log holds one fitting entry for each of the first `i` archives. */
  ghost predicate LoggedSoFar(archives: seq<string>, i: nat, has7z: bool, read: string -> Result<seq<string>, string>, log: seq<Logged>)
    requires i <= |archives|
  {
    |log| == i && forall k :: 0 <= k < i ==> LogFits(archives[k], has7z, read(archives[k]), log[k])
  }

  /** One archive of the loop. */
  method ProcessStep(archives: seq<string>, i: nat, has7z: bool, read: string -> Result<seq<string>, string>,
                     present0: set<string>, renameError: string -> Option<string>, log: seq<Logged>, present: set<string>)
    returns (log': seq<Logged>, next: set<string>)
    requires i < |archives| && LoggedSoFar(archives, i, has7z, read, log)
    requires Pending(archives, 0, present0) ==> Pending(archives, i, present) && |present| == |present0|
    ensures LoggedSoFar(archives, i + 1, has7z, read, log')
    ensures Pending(archives, 0, present0) ==> Pending(archives, i + 1, next) && |next| == |present0|
    ensures (log, present) == ProcessedUpTo(archives, i, has7z, read, present0, renameError) ==>
      (log', next) == ProcessedUpTo(archives, i + 1, has7z, read, present0, renameError)
  {
    var p := archives[i];
    var entry;
    entry, next := ProcessSingle(p, has7z, read(p), present, renameError(p));
    if Pending(archives, 0, present0) {
      SingleKeeps(archives, i, present, has7z, read(p), renameError(p), entry, next);
    }
    log' := log + [entry];
    LoggedSnoc(archives, i, has7z, read, log, entry);
  }

  lemma LoggedSnoc(archives: seq<string>, i: nat, has7z: bool, read: string -> Result<seq<string>, string>, log: seq<Logged>, entry: Logged)
    requires i < |archives| && LoggedSoFar(archives, i, has7z, read, log)
    requires LogFits(archives[i], has7z, read(archives[i]), entry)
    ensures LoggedSoFar(archives, i + 1, has7z, read, log + [entry])
  {
    assert forall k :: 0 <= k < i ==> (log + [entry])[k] == log[k];
  }

  /** The archives from `i` on are distinct and all still exist. */
  ghost predicate Pending(archives: seq<string>, i: nat, present: set<string>) {
    && (forall k :: i <= k < |archives| ==> archives[k] in present)
    && (forall a, b :: 0 <= a < b < |archives| ==> archives[a] != archives[b])
  }

  /** Processing one pending archive loses no path and leaves the later ones in place. */
  lemma SingleKeeps(archives: seq<string>, i: nat, present: set<string>, has7z: bool,
                    read: Result<seq<string>, string>, renameError: Option<string>, entry: Logged, next: set<string>)
    requires i < |archives| && Pending(archives, i, present)
    requires SingleDone(archives[i], has7z, read, present, renameError, entry, next)
    ensures Pending(archives, i + 1, next) && |next| == |present|
  {
    var a := ArchiveScan(archives[i], has7z, read);
    if a.Ok? {
      RenameKeepsOthers(archives[i], a.value, present, renameError);
      forall k | i + 1 <= k < |archives| ensures archives[k] in next {
        assert archives[k] != archives[i];
      }
    }
  }

  /** `process_folder(folder, log_func, recursive)`: the walked or listed archives, processed in order. */
  method ProcessFolder(folder: string, recursive: bool, walk: seq<(string, seq<string>)>, entries: seq<string>,
                       isFile: string -> bool, has7z: bool, read: string -> Result<seq<string>, string>,
                       present: set<string>, renameError: string -> Option<string>)
    returns (log: seq<Logged>, present': set<string>)
    ensures var archives := if recursive then WalkedArchives(walk) else DirectArchives(folder, entries, isFile);
      && |log| == |archives|
      && (forall k :: 0 <= k < |archives| ==> LogFits(archives[k], has7z, read(archives[k]), log[k]))
      && (Pending(archives, 0, present) ==> |present'| == |present|)
      && (log, present') == ProcessedUpTo(archives, |archives|, has7z, read, present, renameError)
  {
    var archives := if recursive then WalkedArchives(walk) else DirectArchives(folder, entries, isFile);
    log, present' := ProcessAll(archives, has7z, read, present, renameError);
  }
}
