/**
 * The planning and execution body of `organize_music_folders` in
 * Python/AudioOrganizer.py, from the list of analysed album folders on:
 * the duplicate pass that appends the year to shared album titles and
 * numbers shared base names in path order, the per-folder warnings and file
 * plans, the folder-rename conflict check against the parent listings, and
 * the order in which the renames would run.
 *
 * The filesystem is a map from a directory path to the names it lists; a
 * path that is not a key is not a directory.
 */
module AudioOrganize {
  import opened Wrappers
  import opened Text
  import opened Vote
  import opened Suffix
  import opened Sorting
  import opened Sanitize
  import opened AudioMeta
  import opened AudioWarnings
  import opened AudioFiles

  type Listing = map<string, set<string>>

  /** An analysed album folder with the base name the duplicate pass gives it. */
  datatype Album = Album(info: FolderInfo, baseName: string)

  /** What one run plans: the albums in path order with their final names, the plans, the warnings, and the renames it would run. */
  datatype Outcome = Outcome(
    albums: seq<Album>, finals: seq<string>,
    filePlans: seq<seq<(string, string)>>, filePlan: seq<(string, string)>,
    folderPlan: seq<(string, string)>,
    warnings: seq<set<Warning>>, warningsByAlbum: map<string, set<Warning>>,
    executed: seq<(string, string)>)

  // ---------------------------------------------------------------------
  // The duplicate pass
  // ---------------------------------------------------------------------

  function AlbumTitles(infos: seq<FolderInfo>): (r: seq<string>)
    ensures |r| == |infos|
    ensures forall i :: 0 <= i < |infos| ==> r[i] == infos[i].album
  {
    seq(|infos|, i requires 0 <= i < |infos| => infos[i].album)
  }

  /** `sanitize_filename(info['album'])` for every folder, as the duplicate pass of `organize_music_folders` starts. */
  function Cleaned(infos: seq<FolderInfo>): (r: seq<string>)
    ensures |r| == |infos|
  {
    if |infos| == 0 then []
    else Cleaned(infos[..|infos| - 1]) + [SanitizeFilename(infos[|infos| - 1].album, false)]
  }

  lemma {:induction false} CleanedAt(infos: seq<FolderInfo>, i: nat)
    requires i < |infos|
    ensures Cleaned(infos)[i] == SanitizeFilename(infos[i].album, false)
  {
    if i < |infos| - 1 {
      CleanedAt(infos[..|infos| - 1], i);
    }
  }

  /** The base name followed by " ({year})" when the raw title is shared and the year is known. */
  function WithYear(base: string, info: FolderInfo, shared: bool): string {
    if shared && info.year.Some? && info.year.value != "" then base + " (" + info.year.value + ")" else base
  }

  lemma AppendCancel(s: string, u: string, v: string, t: string)
    ensures s + u + t == s + v + t ==> u == v
  {
    if s + u + t == s + v + t {
      assert u == (s + u + t)[|s|..|s| + |u|];
      assert v == (s + v + t)[|s|..|s| + |v|];
    }
  }

  /** Two folders of the same title and different known years get different base names. */
  lemma YearSeparates(base: string, a: FolderInfo, b: FolderInfo)
    requires a.year.Some? && a.year.value != "" && b.year.Some? && b.year.value != ""
    requires a.year != b.year
    ensures WithYear(base, a, true) != WithYear(base, b, true)
  {
    AppendCancel(base + " (", a.year.value, b.year.value, ")");
  }

  /** Whether the raw album title of the i-th folder is carried by another folder. */
  function SharedTitle(infos: seq<FolderInfo>, i: nat): bool
    requires i < |infos|
  {
    Count(AlbumTitles(infos), infos[i].album) > 1
  }

  /** The albums with their base names, in input order. */
  function BaseNamed(infos: seq<FolderInfo>): (r: seq<Album>)
    ensures |r| == |infos|
  {
    seq(|infos|, i requires 0 <= i < |infos| =>
      Album(infos[i], WithYear(Cleaned(infos)[i], infos[i], SharedTitle(infos, i))))
  }

  /**
   * A folder whose title no other folder carries keeps its sanitized title;
   * one whose title is shared gets " ({year})" when its year is known.
   */
  lemma BaseNamedAt(infos: seq<FolderInfo>, i: nat)
    requires i < |infos|
    ensures var b := BaseNamed(infos)[i].baseName; var t := SanitizeFilename(infos[i].album, false);
      && (Count(AlbumTitles(infos), infos[i].album) == 1 ==> b == t)
      && (Count(AlbumTitles(infos), infos[i].album) > 1 && infos[i].year.Some? && infos[i].year.value != "" ==>
            b == t + " (" + infos[i].year.value + ")")
  {
    CleanedAt(infos, i);
  }

  /** The first loop of the duplicate pass: the sanitized album title of every folder. */
  method CleanTitles(infos: seq<FolderInfo>) returns (cleaned: seq<string>)
    ensures cleaned == Cleaned(infos)
  {
    cleaned := [];
    var i := 0;
    while i < |infos|
      invariant 0 <= i <= |infos|
      invariant cleaned == Cleaned(infos[..i])
    {
      assert infos[..i + 1][..i] == infos[..i];
      cleaned := cleaned + [SanitizeFilename(infos[i].album, false)];
      i := i + 1;
    }
    assert infos[..i] == infos;
  }

  /** Whether each element occurs more than once, from one `Counter` of the sequence. */
  method Repeated(xs: seq<string>) returns (rep: seq<bool>)
    ensures |rep| == |xs|
    ensures forall i :: 0 <= i < |xs| ==> rep[i] == (Count(xs, xs[i]) > 1)
  {
    var _, counts := Tally(xs);
    ghost var spec := RepeatedSpec(xs);
    rep := [];
    var i := 0;
    while i < |xs|
      invariant 0 <= i <= |xs|
      invariant rep == spec[..i]
    {
      assert xs[i] in xs;
      TakeSnoc(spec, i);
      rep := rep + [counts[xs[i]] > 1];
      i := i + 1;
    }
    assert spec[..i] == spec;
  }

  ghost function RepeatedSpec(xs: seq<string>): (r: seq<bool>)
    ensures |r| == |xs|
    ensures forall i :: 0 <= i < |xs| ==> r[i] == (Count(xs, xs[i]) > 1)
  {
    seq(|xs|, i requires 0 <= i < |xs| => Count(xs, xs[i]) > 1)
  }

  /** The `Counter` of raw album titles in the duplicate pass: whether each folder's raw album title occurs more than once. */
  method SharedTitles(infos: seq<FolderInfo>) returns (shared: seq<bool>)
    ensures |shared| == |infos|
    ensures forall i :: 0 <= i < |infos| ==> shared[i] == SharedTitle(infos, i)
  {
    var titles := AlbumTitles(infos);
    shared := Repeated(titles);
    assert forall i :: 0 <= i < |infos| ==> titles[i] == infos[i].album;
  }

  /** The duplicate pass of `organize_music_folders`: every folder's base name, the year appended when its raw album title occurs more than once. */
  method AssignBaseNames(infos: seq<FolderInfo>) returns (albums: seq<Album>)
    ensures albums == BaseNamed(infos)
  {
    var cleaned := CleanTitles(infos);
    var shared := SharedTitles(infos);
    ghost var spec := BaseNamed(infos);
    albums := [];
    var i := 0;
    while i < |infos|
      invariant 0 <= i <= |infos|
      invariant albums == spec[..i]
    {
      var a := Album(infos[i], WithYear(cleaned[i], infos[i], shared[i]));
      assert a == spec[i];
      TakeSnoc(spec, i);
      albums := albums + [a];
      i := i + 1;
    }
    assert spec[..i] == spec;
  }

  lemma TakeSnoc<T>(s: seq<T>, i: nat)
    requires i < |s|
    ensures s[..i] + [s[i]] == s[..i + 1]
  {
  }

  /** The final name of the i-th folder in path order: the k-th holder of a shared base name gets " (k)". */
  function FinalName(bases: seq<string>, i: nat): string
    requires i < |bases|
  {
    if Count(bases, bases[i]) > 1 then Suffixed(bases[i], Count(bases[..i + 1], bases[i]), "") else bases[i]
  }

  lemma CountPrefix(bases: seq<string>, i: nat, j: nat)
    requires i < j < |bases| && bases[i] == bases[j]
    ensures Count(bases[..i + 1], bases[i]) < Count(bases[..j + 1], bases[i])
  {
    assert bases[..j + 1] == bases[..i + 1] + bases[i + 1..j + 1];
    assert bases[j] in bases[i + 1..j + 1];
  }

  lemma CountPrefixBounds(bases: seq<string>, i: nat)
    requires i < |bases|
    ensures 1 <= Count(bases[..i + 1], bases[i]) <= Count(bases, bases[i])
  {
    assert bases == bases[..i + 1] + bases[i + 1..];
    assert bases[i] in bases[..i + 1];
  }

  /** The counter a shared base name gets runs within 1 .. number of holders. */
  lemma NumberInRange(bases: seq<string>, i: nat)
    requires i < |bases| && Count(bases, bases[i]) > 1
    ensures exists k: nat :: 1 <= k <= Count(bases, bases[i]) && FinalName(bases, i) == Suffixed(bases[i], k, "")
  {
    CountPrefixBounds(bases, i);
    var k := Count(bases[..i + 1], bases[i]);
    assert FinalName(bases, i) == Suffixed(bases[i], k, "");
  }

  /** Folders sharing a base name get pairwise different final names. */
  lemma NumberedDistinct(bases: seq<string>, i: nat, j: nat)
    requires i < j < |bases| && bases[i] == bases[j]
    ensures FinalName(bases, i) != FinalName(bases, j)
  {
    assert bases[i] in bases[..i + 1] && bases[i] in bases[i + 1..];
    assert bases == bases[..i + 1] + bases[i + 1..];
    CountPrefix(bases, i, j);
    if FinalName(bases, i) == FinalName(bases, j) {
      SuffixedInjective(bases[i], "", Count(bases[..i + 1], bases[i]), Count(bases[..j + 1], bases[j]));
    }
  }

  /** A base name held once is the final name itself. */
  lemma UniqueBaseKept(bases: seq<string>, i: nat)
    requires i < |bases| && Count(bases, bases[i]) == 1
    ensures FinalName(bases, i) == bases[i]
  {
  }

  /** Final names of different base names can coincide: "X", "X", "X (1)". */
  lemma FinalNamesCanClash()
    ensures var bases := ["X", "X", "X (1)"]; FinalName(bases, 0) == FinalName(bases, 2)
  {
    var bases := ["X", "X", "X (1)"];
    assert multiset(bases)["X"] == 2;
    assert multiset(bases)["X (1)"] == 1;
    assert bases[..1] == ["X"];
    assert NatToString(1) == "1";
  }

  /** `numbering_counters[b]`: a `Counter` gives 0 for a name it has not seen. */
  function CounterOf(counters: map<string, nat>, b: string): nat {
    if b in counters then counters[b] else 0
  }

  /** The counters after the first `i` folders: the number of earlier holders of each numbered base name. */
  ghost predicate CountersAt(bases: seq<string>, i: nat, counters: map<string, nat>)
    requires i <= |bases|
  {
    forall c :: CounterOf(counters, c) == if Count(bases, c) > 1 then Count(bases[..i], c) else 0
  }

  /** One turn of the numbering loop, for the i-th folder: its final name, and the counter of its base name moved on. */
  method NextName(bases: seq<string>, i: nat, numbered: bool, counters: map<string, nat>)
    returns (name: string, counters': map<string, nat>)
    requires i < |bases| && numbered == (Count(bases, bases[i]) > 1)
    requires CountersAt(bases, i, counters)
    ensures name == FinalName(bases, i)
    ensures CountersAt(bases, i + 1, counters')
  {
    var b := bases[i];
    name := if numbered then Suffixed(b, CounterOf(counters, b) + 1, "") else b;
    counters' := if numbered then counters[b := CounterOf(counters, b) + 1] else counters;
    forall c ensures CounterOf(counters', c) == if Count(bases, c) > 1 then Count(bases[..i + 1], c) else 0 {
      CountSnoc(bases, i, c);
      assert CounterOf(counters, c) == if Count(bases, c) > 1 then Count(bases[..i], c) else 0;
    }
    CountSnoc(bases, i, b);
  }

  /** The numbering loop over `folder_info` sorted by path: the final names in path order, kept by a counter per numbered base name. */
  method NumberNames(bases: seq<string>) returns (finals: seq<string>)
    ensures |finals| == |bases|
    ensures forall i :: 0 <= i < |bases| ==> finals[i] == FinalName(bases, i)
  {
    var numbered := Repeated(bases);
    var counters: map<string, nat> := map[];
    ghost var spec := FinalNames(bases);
    finals := [];
    var i := 0;
    while i < |bases|
      invariant 0 <= i <= |bases|
      invariant finals == spec[..i]
      invariant CountersAt(bases, i, counters)
    {
      var name;
      name, counters := NextName(bases, i, numbered[i], counters);
      TakeSnoc(spec, i);
      finals := finals + [name];
      i := i + 1;
    }
    assert spec[..i] == spec;
  }

  /** The final names of all folders, in path order. */
  ghost function FinalNames(bases: seq<string>): (r: seq<string>)
    ensures |r| == |bases|
    ensures forall i :: 0 <= i < |bases| ==> r[i] == FinalName(bases, i)
  {
    seq(|bases|, i requires 0 <= i < |bases| => FinalName(bases, i))
  }

  function BaseNames(albums: seq<Album>): (r: seq<string>)
    ensures |r| == |albums|
    ensures forall i :: 0 <= i < |albums| ==> r[i] == albums[i].baseName
  {
    seq(|albums|, i requires 0 <= i < |albums| => albums[i].baseName)
  }

  function Paths(albums: seq<Album>): (r: seq<string>)
    ensures |r| == |albums|
    ensures forall i :: 0 <= i < |albums| ==> r[i] == albums[i].info.path
  {
    seq(|albums|, i requires 0 <= i < |albums| => albums[i].info.path)
  }

  function PathOf(a: Album): string { a.info.path }

  // ---------------------------------------------------------------------
  // Warnings and file plans per folder
  // ---------------------------------------------------------------------

  const AllWarnings: set<Warning> := {
    NoImage, ZeroMetadata, InvalidYear, TrackStart, TrackGap,
    MultipleCovers, InconsistentCovers, MissingCover,
    MissingTitle, MissingArtist, MissingAlbum, MissingAlbumArtist,
    InconsistentAlbum, InconsistentDisc, RedundantDisc, DuplicateTrack }

  lemma AllWarningsListed(y: Warning)
    ensures y in AllWarnings
  {
  }

  /** The records after the disc strip: the tag goes from every file it could be removed from, outside check-only mode, when all files share one value. */
  function Stripped(fs: seq<FileMeta>, checkOnly: bool, fails: set<string>): (r: seq<FileMeta>)
    ensures |r| == |fs|
  {
    seq(|fs|, k requires 0 <= k < |fs| =>
      if !checkOnly && UniformDisc(fs) && fs[k].filename !in fails then fs[k].(disc := None) else fs[k])
  }

  /** The warning set of one folder: the tag rules on its records and the disc rules before and after the strip. */
  ghost function FolderWarningSet(info: FolderInfo, checkOnly: bool, fails: set<string>): set<Warning> {
    set y | y in AllWarnings && (TagRule(y, info) || DiscRule(y, info.files, Stripped(info.files, checkOnly, fails), checkOnly))
  }

  /** File renames are skipped for a folder with a track gap or a repeated (track, disc) pair. */
  ghost predicate Skipped(info: FolderInfo, checkOnly: bool, fails: set<string>) {
    SomeGap(info.files) || DuplicatePair(Stripped(info.files, checkOnly, fails))
  }

  /** The warning rules of `organize_music_folders` for one folder: its warnings and its records as they are after the disc strip. */
  method FolderCheck(info: FolderInfo, checkOnly: bool, fails: set<string>) returns (w: set<Warning>, files: seq<FileMeta>)
    ensures w == FolderWarningSet(info, checkOnly, fails)
    ensures files == Stripped(info.files, checkOnly, fails)
    ensures (TrackGap in w || DuplicateTrack in w) <==> Skipped(info, checkOnly, fails)
  {
    w, files := FolderWarnings(info, checkOnly, fails);
    assert files == Stripped(info.files, checkOnly, fails);
    forall y ensures y in w <==> y in FolderWarningSet(info, checkOnly, fails) {
      AllWarningsListed(y);
    }
    assert TrackGap in w <==> SomeGap(info.files);
    assert DuplicateTrack in w <==> DuplicatePair(files);
  }

  /** `w`, `files` and `skip` are what the check of folder `a` gives. */
  ghost predicate Checked(a: Album, checkOnly: bool, stripFails: string -> set<string>,
                          w: set<Warning>, files: seq<FileMeta>, skip: bool) {
    var fails := stripFails(a.info.path);
    && w == FolderWarningSet(a.info, checkOnly, fails)
    && files == Stripped(a.info.files, checkOnly, fails)
    && (skip <==> Skipped(a.info, checkOnly, fails))
  }

  /** The warnings and the stripped records of every folder, in order. */
  method CheckAll(albums: seq<Album>, checkOnly: bool, stripFails: string -> set<string>)
    returns (ws: seq<set<Warning>>, lists: seq<seq<FileMeta>>, skip: seq<bool>)
    ensures |ws| == |albums| && |lists| == |albums| && |skip| == |albums|
    ensures forall k :: 0 <= k < |albums| ==> Checked(albums[k], checkOnly, stripFails, ws[k], lists[k], skip[k])
  {
    ghost var spec := CheckSpec(albums, checkOnly, stripFails);
    ghost var wsSpec := seq(|albums|, k requires 0 <= k < |albums| => spec[k].0);
    ghost var listsSpec := seq(|albums|, k requires 0 <= k < |albums| => spec[k].1);
    ghost var skipSpec := seq(|albums|, k requires 0 <= k < |albums| => spec[k].2);
    ws, lists, skip := [], [], [];
    var i := 0;
    while i < |albums|
      invariant 0 <= i <= |albums|
      invariant ws == wsSpec[..i] && lists == listsSpec[..i] && skip == skipSpec[..i]
    {
      var a := albums[i];
      var w, files := FolderCheck(a.info, checkOnly, stripFails(a.info.path));
      assert (w, files, TrackGap in w || DuplicateTrack in w) == spec[i];
      TakeSnoc(wsSpec, i);
      TakeSnoc(listsSpec, i);
      TakeSnoc(skipSpec, i);
      ws, lists, skip := ws + [w], lists + [files], skip + [TrackGap in w || DuplicateTrack in w];
      i := i + 1;
    }
    assert ws == wsSpec && lists == listsSpec && skip == skipSpec;
    CheckSpecChecked(albums, checkOnly, stripFails, ws, lists, skip);
  }

  /** What the check of each folder gives: its warnings, its stripped records and whether its renames are skipped. */
  ghost function CheckSpec(albums: seq<Album>, checkOnly: bool, stripFails: string -> set<string>)
    : (r: seq<(set<Warning>, seq<FileMeta>, bool)>)
    ensures |r| == |albums|
    ensures forall k :: 0 <= k < |albums| ==> r[k] == CheckOf(albums[k], checkOnly, stripFails)
  {
    seq(|albums|, k requires 0 <= k < |albums| => CheckOf(albums[k], checkOnly, stripFails))
  }

  ghost function CheckOf(a: Album, checkOnly: bool, stripFails: string -> set<string>): (set<Warning>, seq<FileMeta>, bool) {
    var fails := stripFails(a.info.path);
    (FolderWarningSet(a.info, checkOnly, fails), Stripped(a.info.files, checkOnly, fails), Skipped(a.info, checkOnly, fails))
  }

  lemma CheckSpecChecked(albums: seq<Album>, checkOnly: bool, stripFails: string -> set<string>,
                         ws: seq<set<Warning>>, lists: seq<seq<FileMeta>>, skip: seq<bool>)
    requires |ws| == |albums| && |lists| == |albums| && |skip| == |albums|
    requires forall k :: 0 <= k < |albums| ==> (ws[k], lists[k], skip[k]) == CheckSpec(albums, checkOnly, stripFails)[k]
    ensures forall k :: 0 <= k < |albums| ==> Checked(albums[k], checkOnly, stripFails, ws[k], lists[k], skip[k])
  {
    forall k | 0 <= k < |albums| ensures Checked(albums[k], checkOnly, stripFails, ws[k], lists[k], skip[k]) {
      assert (ws[k], lists[k], skip[k]) == CheckOf(albums[k], checkOnly, stripFails);
    }
  }

  /** The `plan_file_renames` calls of the planning loop: the file plan of every folder not skipped. */
  method PlanFilesAll(lists: seq<seq<FileMeta>>, finals: seq<string>, skip: seq<bool>)
    returns (planned: seq<seq<(string, string)>>)
    requires |finals| == |lists| && |skip| == |lists|
    ensures |planned| == |lists|
    ensures forall k :: 0 <= k < |lists| ==>
      (skip[k] ==> planned[k] == []) && (!skip[k] ==> planned[k] == FilePlan(lists[k], finals[k]))
  {
    ghost var spec := PlansSpec(lists, finals, skip);
    planned := [];
    var i := 0;
    while i < |lists|
      invariant 0 <= i <= |lists|
      invariant planned == spec[..i]
    {
      var p := [];
      if !skip[i] {
        p := PlanFileRenames(lists[i], finals[i]);
      }
      TakeSnoc(spec, i);
      planned := planned + [p];
      i := i + 1;
    }
    assert spec[..i] == spec;
  }

  /** The plan of each folder: none when skipped, otherwise what `plan_file_renames` returns. */
  ghost function PlansSpec(lists: seq<seq<FileMeta>>, finals: seq<string>, skip: seq<bool>): (r: seq<seq<(string, string)>>)
    requires |finals| == |lists| && |skip| == |lists|
    ensures |r| == |lists|
    ensures forall k :: 0 <= k < |lists| ==> r[k] == if skip[k] then [] else FilePlan(lists[k], finals[k])
  {
    seq(|lists|, k requires 0 <= k < |lists| => if skip[k] then [] else FilePlan(lists[k], finals[k]))
  }

  /** `warnings_by_album` after the loop: each final name with warnings maps to them, a later folder overwriting an earlier one. */
  function Recorded(ws: seq<set<Warning>>, finals: seq<string>): map<string, set<Warning>>
    requires |finals| == |ws|
  {
    if |ws| == 0 then map[]
    else
      var n := |ws| - 1;
      var m := Recorded(ws[..n], finals[..n]);
      if ws[n] != {} then m[finals[n] := ws[n]] else m
  }

  /**
   * A final name is recorded exactly when some folder of that name had
   * warnings, and it holds the warnings of the last such folder.
   */
  lemma {:induction false} RecordedLast(ws: seq<set<Warning>>, finals: seq<string>, f: string, k: nat)
    requires |finals| == |ws|
    ensures f in Recorded(ws, finals) <==> exists j :: 0 <= j < |ws| && finals[j] == f && ws[j] != {}
    ensures k < |ws| && finals[k] == f && ws[k] != {} && (forall l :: k < l < |ws| && finals[l] == f ==> ws[l] == {})
      ==> Recorded(ws, finals)[f] == ws[k]
  {
    if |ws| > 0 {
      var n := |ws| - 1;
      RecordedLast(ws[..n], finals[..n], f, k);
      if exists j :: 0 <= j < |ws| && finals[j] == f && ws[j] != {} {
        var j :| 0 <= j < |ws| && finals[j] == f && ws[j] != {};
        if j < n {
          assert finals[..n][j] == f && ws[..n][j] != {};
        }
      }
      if exists j :: 0 <= j < n && finals[..n][j] == f && ws[..n][j] != {} {
        var j :| 0 <= j < n && finals[..n][j] == f && ws[..n][j] != {};
        assert finals[j] == f && ws[j] != {};
      }
      if k < n && finals[k] == f && ws[k] != {} && (forall l :: k < l < |ws| && finals[l] == f ==> ws[l] == {}) {
        assert finals[..n][k] == f && ws[..n][k] == ws[k];
        forall l | k < l < n && finals[..n][l] == f ensures ws[..n][l] == {} {
          assert finals[l] == f;
        }
      }
    }
  }

  /** The `warnings_by_album` updates over all folders: the warnings recorded under each final name. */
  method RecordWarnings(ws: seq<set<Warning>>, finals: seq<string>) returns (m: map<string, set<Warning>>)
    requires |finals| == |ws|
    ensures m == Recorded(ws, finals)
  {
    m := map[];
    var i := 0;
    while i < |ws|
      invariant 0 <= i <= |ws|
      invariant m == Recorded(ws[..i], finals[..i])
    {
      assert ws[..i + 1][..i] == ws[..i] && finals[..i + 1][..i] == finals[..i];
      if ws[i] != {} {
        m := m[finals[i] := ws[i]];
      }
      i := i + 1;
    }
    assert ws[..i] == ws && finals[..i] == finals;
  }

  /** The file plan of one folder: empty when skipped, otherwise what `plan_file_renames` returns for its records after the strip. */
  ghost predicate FolderFilePlan(a: Album, finalName: string, checkOnly: bool, stripFails: string -> set<string>,
                                 planned: seq<(string, string)>) {
    var fails := stripFails(a.info.path);
    (Skipped(a.info, checkOnly, fails) ==> planned == [])
    && (!Skipped(a.info, checkOnly, fails) ==> planned == FilePlan(Stripped(a.info.files, checkOnly, fails), finalName))
  }

  /** All file renames as paths, folder after folder. */
  function FilePaths(albums: seq<Album>, planned: seq<seq<(string, string)>>): seq<(string, string)>
    requires |planned| == |albums|
  {
    if |albums| == 0 then []
    else InFolder(albums[0].info.path, planned[0]) + FilePaths(albums[1..], planned[1..])
  }

  /** Every file rename comes from the plan of one folder, joined to that folder's path. */
  lemma {:induction false} FilePathsFrom(albums: seq<Album>, planned: seq<seq<(string, string)>>, e: (string, string))
    requires |planned| == |albums|
    requires e in FilePaths(albums, planned)
    ensures exists k :: 0 <= k < |albums| && e in InFolder(albums[k].info.path, planned[k])
  {
    if e !in InFolder(albums[0].info.path, planned[0]) {
      FilePathsFrom(albums[1..], planned[1..], e);
      var k :| 0 <= k < |albums| - 1 && e in InFolder(albums[1..][k].info.path, planned[1..][k]);
      assert albums[1..][k] == albums[k + 1] && planned[1..][k] == planned[k + 1];
    }
  }

  // ---------------------------------------------------------------------
  // Folder renames
  // ---------------------------------------------------------------------

  /** `os.path.join(os.path.dirname(path), final_name)`. */
  function Target(path: string, finalName: string): string {
    PathJoin(Dirname(path), finalName)
  }

  /** `os.path.isdir(parent_dir) and final_name in os.listdir(parent_dir)`. */
  predicate Listed(fs: Listing, path: string, finalName: string) {
    Dirname(path) in fs && finalName in fs[Dirname(path)]
  }

  /** `os.path.join(os.path.dirname(path), final_name)` for every folder. */
  function Targets(paths: seq<string>, finals: seq<string>): (r: seq<string>)
    requires |finals| == |paths|
    ensures |r| == |paths|
    ensures forall k :: 0 <= k < |paths| ==> r[k] == Target(paths[k], finals[k])
  {
    seq(|paths|, k requires 0 <= k < |paths| => Target(paths[k], finals[k]))
  }

  /** For every folder, whether its final name is already listed in its parent. */
  function Blocked(paths: seq<string>, finals: seq<string>, fs: Listing): (r: seq<bool>)
    requires |finals| == |paths|
    ensures |r| == |paths|
    ensures forall k :: 0 <= k < |paths| ==> r[k] == Listed(fs, paths[k], finals[k])
  {
    seq(|paths|, k requires 0 <= k < |paths| => Listed(fs, paths[k], finals[k]))
  }

  /** Folder `k` moves, its final name is not listed, and no earlier folder has its target. */
  predicate Proposable(paths: seq<string>, targets: seq<string>, blocked: seq<bool>, k: nat)
    requires |targets| == |paths| && |blocked| == |paths| && k < |paths|
  {
    && paths[k] != targets[k]
    && !blocked[k]
    && forall l :: 0 <= l < k ==> targets[l] != targets[k]
  }

  /** `e` is the move of some folder whose final name is not listed. */
  ghost predicate FromFolder(paths: seq<string>, targets: seq<string>, blocked: seq<bool>, e: (string, string))
    requires |targets| == |paths| && |blocked| == |paths|
  {
    exists k :: 0 <= k < |paths| && e == (paths[k], targets[k]) && !blocked[k]
  }

  /** `e` is in the plan. */
  ghost predicate InPlan(plan: seq<(string, string)>, e: (string, string)) {
    exists j :: 0 <= j < |plan| && plan[j] == e
  }

  /** `proposed_new_paths`: the targets of a plan. */
  ghost function PlannedTargets(plan: seq<(string, string)>): set<string> {
    set j | 0 <= j < |plan| :: plan[j].1
  }

  lemma PlannedTargetsSnoc(plan: seq<(string, string)>, e: (string, string))
    ensures PlannedTargets(plan + [e]) == PlannedTargets(plan) + {e.1}
  {
    var p := plan + [e];
    assert p[|plan|] == e;
    forall t | t in PlannedTargets(plan) ensures t in PlannedTargets(p) {
      var j :| 0 <= j < |plan| && plan[j].1 == t;
      assert p[j] == plan[j];
    }
  }

  /**
   * The folder plan after the first `n` folders as the planning loop builds it:
   * folder `n - 1` is appended when it moves, its final name is not listed
   * in its parent, and no planned move has its target yet.
   */
  ghost function FolderPlanOf(paths: seq<string>, targets: seq<string>, blocked: seq<bool>, n: nat): seq<(string, string)>
    requires |targets| == |paths| && |blocked| == |paths| && n <= |paths|
  {
    if n == 0 then []
    else
      var plan := FolderPlanOf(paths, targets, blocked, n - 1);
      var k := n - 1;
      if paths[k] != targets[k] && !blocked[k] && targets[k] !in PlannedTargets(plan) then plan + [(paths[k], targets[k])]
      else plan
  }

  /** What the folder loop keeps after the first `i` folders. */
  ghost predicate FolderPlanSoFar(paths: seq<string>, targets: seq<string>, blocked: seq<bool>, i: nat,
                                  plan: seq<(string, string)>, proposed: set<string>)
    requires |targets| == |paths| && |blocked| == |paths| && i <= |paths|
  {
    && plan == FolderPlanOf(paths, targets, blocked, i)
    && proposed == PlannedTargets(plan)
    && |plan| <= i
    && (forall j :: 0 <= j < |plan| ==> plan[j].0 != plan[j].1 && plan[j].1 in proposed)
    && (forall j, l :: 0 <= j < l < |plan| ==> plan[j].1 != plan[l].1)
    && (forall t :: t in proposed ==> exists l :: 0 <= l < i && targets[l] == t)
    && (forall j :: 0 <= j < |plan| ==> FromFolder(paths, targets, blocked, plan[j]))
    && (forall k :: 0 <= k < i && Proposable(paths, targets, blocked, k) ==> InPlan(plan, (paths[k], targets[k])))
  }

  /** The conflict check of the planning loop for folder `i`: planned unless it stays, its name is listed, or its target is already proposed. */
  method ProposeFolder(paths: seq<string>, targets: seq<string>, blocked: seq<bool>, i: nat,
                       plan: seq<(string, string)>, proposed: set<string>)
    returns (plan': seq<(string, string)>, proposed': set<string>)
    requires |targets| == |paths| && |blocked| == |paths| && i < |paths|
    requires FolderPlanSoFar(paths, targets, blocked, i, plan, proposed)
    ensures FolderPlanSoFar(paths, targets, blocked, i + 1, plan', proposed')
  {
    var path, target := paths[i], targets[i];
    plan', proposed' := plan, proposed;
    if path != target && !(blocked[i] || target in proposed) {
      plan' := plan + [(path, target)];
      proposed' := proposed + {target};
    }
    if path != target && !(blocked[i] || target in proposed) {
      PlannedTargetsSnoc(plan, (path, target));
    }
    forall t | t in proposed' ensures exists l :: 0 <= l < i + 1 && targets[l] == t {
      if t != target {
        var l :| 0 <= l < i && targets[l] == t;
      }
    }
    forall j | 0 <= j < |plan'| ensures FromFolder(paths, targets, blocked, plan'[j]) {
      if j < |plan| {
        assert plan'[j] == plan[j];
      } else {
        assert plan'[j] == (paths[i], targets[i]) && !blocked[i];
      }
    }
    forall k | 0 <= k <= i && Proposable(paths, targets, blocked, k) ensures InPlan(plan', (paths[k], targets[k])) {
      if k < i {
        assert InPlan(plan, (paths[k], targets[k]));
        var j :| 0 <= j < |plan| && plan[j] == (paths[k], targets[k]);
        assert plan'[j] == plan[j];
      } else {
        assert plan'[|plan|] == (paths[i], targets[i]);
      }
    }
  }

  /**
   * The folder-rename planning: a folder whose target differs from its path is renamed
   * unless its final name is already listed in its parent or an earlier
   * folder was given the same target. Planned targets are distinct, and
   * each comes from a folder whose name is not listed.
   */
  method ProposeFolderRenames(paths: seq<string>, targets: seq<string>, blocked: seq<bool>)
    returns (plan: seq<(string, string)>)
    requires |targets| == |paths| && |blocked| == |paths|
    ensures |plan| <= |paths|
    ensures forall i :: 0 <= i < |plan| ==> plan[i].0 != plan[i].1
    ensures forall i, j :: 0 <= i < j < |plan| ==> plan[i].1 != plan[j].1
    ensures forall i :: 0 <= i < |plan| ==> FromFolder(paths, targets, blocked, plan[i])
    ensures forall k :: 0 <= k < |paths| && Proposable(paths, targets, blocked, k) ==> InPlan(plan, (paths[k], targets[k]))
    ensures plan == FolderPlanOf(paths, targets, blocked, |paths|)
  {
    plan := [];
    var proposed: set<string> := {};
    var i := 0;
    while i < |paths|
      invariant 0 <= i <= |paths|
      invariant FolderPlanSoFar(paths, targets, blocked, i, plan, proposed)
    {
      plan, proposed := ProposeFolder(paths, targets, blocked, i, plan, proposed);
      i := i + 1;
    }
  }

  // ---------------------------------------------------------------------
  // Execution order
  // ---------------------------------------------------------------------

  function OldLength(e: (string, string)): int { |e.0| }

  /**
   * The execution phase: nothing runs in check-only mode; otherwise every file
   * rename runs, in plan order, before the folder renames, which run by
   * descending length of the old path.
   */
  function ExecutionOrder(checkOnly: bool, filePlan: seq<(string, string)>, folderPlan: seq<(string, string)>): (ops: seq<(string, string)>)
    ensures checkOnly ==> ops == []
    ensures !checkOnly ==> |ops| == |filePlan| + |folderPlan| && ops[..|filePlan|] == filePlan
    ensures !checkOnly ==> multiset(ops[|filePlan|..]) == multiset(folderPlan)
    ensures !checkOnly ==> SortedDescending(ops[|filePlan|..], OldLength)
    ensures !checkOnly ==> forall n :: WithKey(ops[|filePlan|..], OldLength, n) == WithKey(folderPlan, OldLength, n)
  {
    if checkOnly then []
    else
      var folders := SortDescending(folderPlan, OldLength);
      assert forall n :: WithKey(folders, OldLength, n) == WithKey(folderPlan, OldLength, n) by {
        forall n ensures WithKey(folders, OldLength, n) == WithKey(folderPlan, OldLength, n) {
          SortDescendingStable(folderPlan, OldLength, n);
        }
      }
      assert |folders| == |multiset(folders)| == |multiset(folderPlan)| == |folderPlan|;
      assert (filePlan + folders)[..|filePlan|] == filePlan;
      assert (filePlan + folders)[|filePlan|..] == folders;
      filePlan + folders
  }

  /** In the folder phase, a folder inside another is renamed before the one containing it. */
  lemma DescendantsFirst(ops: seq<(string, string)>, i: nat, j: nat)
    requires SortedDescending(ops, OldLength)
    requires i < |ops| && j < |ops|
    requires StartsWith(ops[j].0, ops[i].0 + "/")
    ensures j < i
  {
    assert |ops[j].0| > |ops[i].0|;
  }

  /** The albums carry their base names, sorted by path, with the final name of each. */
  ghost predicate NamedInPathOrder(infos: seq<FolderInfo>, albums: seq<Album>, finals: seq<string>) {
    && multiset(albums) == multiset(BaseNamed(infos))
    && SortedByKey(albums, PathOf)
    && |finals| == |albums|
    && forall i :: 0 <= i < |albums| ==> finals[i] == FinalName(BaseNames(albums), i)
  }

  /** The duplicate pass and the numbering loop: base names, the sort by path and the final names. */
  method NameAlbums(infos: seq<FolderInfo>) returns (albums: seq<Album>, finals: seq<string>)
    ensures NamedInPathOrder(infos, albums, finals)
  {
    var named := AssignBaseNames(infos);
    albums := SortByKey(named, PathOf);
    finals := NumberNames(BaseNames(albums));
  }

  /**
   * Every folder's warning set is its rule set, the recorded map is the
   * last non-empty set per final name, and every folder's file plan is
   * empty when skipped and otherwise what `plan_file_renames` returns.
   */
  ghost predicate FoldersChecked(albums: seq<Album>, finals: seq<string>, checkOnly: bool, stripFails: string -> set<string>,
                                 warnings: seq<set<Warning>>, warningsBy: map<string, set<Warning>>,
                                 filePlans: seq<seq<(string, string)>>)
  {
    && |finals| == |albums| && |warnings| == |albums| && |filePlans| == |albums|
    && (forall k :: 0 <= k < |albums| ==>
          warnings[k] == FolderWarningSet(albums[k].info, checkOnly, stripFails(albums[k].info.path)))
    && warningsBy == Recorded(warnings, finals)
    && (forall k :: 0 <= k < |albums| ==> FolderFilePlan(albums[k], finals[k], checkOnly, stripFails, filePlans[k]))
  }

  /** The planning loop of `organize_music_folders`: the warnings and file plans of every folder. */
  method PlanFolders(albums: seq<Album>, finals: seq<string>, checkOnly: bool, stripFails: string -> set<string>)
    returns (warnings: seq<set<Warning>>, warningsBy: map<string, set<Warning>>, filePlans: seq<seq<(string, string)>>)
    requires |finals| == |albums|
    ensures FoldersChecked(albums, finals, checkOnly, stripFails, warnings, warningsBy, filePlans)
  {
    var lists, skip;
    warnings, lists, skip := CheckAll(albums, checkOnly, stripFails);
    filePlans := PlanFilesAll(lists, finals, skip);
    warningsBy := RecordWarnings(warnings, finals);
    forall k | 0 <= k < |albums| ensures FolderFilePlan(albums[k], finals[k], checkOnly, stripFails, filePlans[k]) {
      assert Checked(albums[k], checkOnly, stripFails, warnings[k], lists[k], skip[k]);
    }
  }

  /**
   * The folder plan has distinct targets and no move onto itself; each
   * move is some folder's, with its final name not listed in its parent;
   * and every folder that is proposable is moved.
   */
  ghost predicate FoldersMoved(albums: seq<Album>, finals: seq<string>, fs: Listing, folderPlan: seq<(string, string)>)
    requires |finals| == |albums|
  {
    var paths := Paths(albums);
    var targets, blocked := Targets(paths, finals), Blocked(paths, finals, fs);
    && (forall i, j :: 0 <= i < j < |folderPlan| ==> folderPlan[i].1 != folderPlan[j].1)
    && (forall i :: 0 <= i < |folderPlan| ==> folderPlan[i].0 != folderPlan[i].1)
    && (forall i :: 0 <= i < |folderPlan| ==> FromFolder(paths, targets, blocked, folderPlan[i]))
    && (forall k :: 0 <= k < |paths| && Proposable(paths, targets, blocked, k) ==> InPlan(folderPlan, (paths[k], targets[k])))
    && folderPlan == FolderPlanOf(paths, targets, blocked, |paths|)
  }

  /**
   * The planning and execution of `organize_music_folders` over the
   * analysed folders: base names, path order, final names, warnings, file
   * plans, folder plan, and the renames that would run.
   */
  method Organize(infos: seq<FolderInfo>, fs: Listing, checkOnly: bool, stripFails: string -> set<string>)
    returns (r: Outcome)
    ensures NamedInPathOrder(infos, r.albums, r.finals)
    ensures FoldersChecked(r.albums, r.finals, checkOnly, stripFails, r.warnings, r.warningsByAlbum, r.filePlans)
    ensures r.filePlan == FilePaths(r.albums, r.filePlans)
    ensures FoldersMoved(r.albums, r.finals, fs, r.folderPlan)
    ensures r.executed == ExecutionOrder(checkOnly, r.filePlan, r.folderPlan)
  {
    var albums, finals := NameAlbums(infos);
    var warnings, warningsBy, filePlans := PlanFolders(albums, finals, checkOnly, stripFails);
    var paths := Paths(albums);
    var folderPlan := ProposeFolderRenames(paths, Targets(paths, finals), Blocked(paths, finals, fs));
    var filePlan := FilePaths(albums, filePlans);
    r := Outcome(albums, finals, filePlans, filePlan, folderPlan, warnings, warningsBy,
                 ExecutionOrder(checkOnly, filePlan, folderPlan));
  }
}
