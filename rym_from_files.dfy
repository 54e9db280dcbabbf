/**
 * RYMFromFiles.py: a list of albums by artist for a music-database
 * post. In each directory of the walk every audio file must agree with the
 * first one on format, album and album artist; a directory that does not
 * is reported and left out, and the others are grouped by artist, in
 * first-seen order, repeats kept.
 */
module RymFromFiles {
  import opened Wrappers
  import opened Text
  import opened AlbumScan

  // ---------------------------------------------------------------------
  // the audio files of one directory
  // ---------------------------------------------------------------------

  /** The audio files of a directory, in listing order. */
  function AudioFiles(files: seq<string>): (r: seq<string>)
    ensures |r| <= |files|
  {
    if |files| == 0 then []
    else
      var f := files[|files| - 1];
      AudioFiles(files[..|files| - 1]) + (if IsAudio(f) then [f] else [])
  }

  /** The audio files are exactly the files with an audio extension. */
  lemma {:induction false} AudioFilesMembers(files: seq<string>)
    ensures forall f :: f in AudioFiles(files) <==> f in files && IsAudio(f)
  {
    if |files| > 0 {
      var init := files[..|files| - 1];
      AudioFilesMembers(init);
      assert forall x :: x in files <==> x in init || x == files[|files| - 1];
    }
  }

  /** A directory is skipped iff none of its files has an audio extension. */
  lemma AudioFilesNone(files: seq<string>)
    ensures |AudioFiles(files)| == 0 <==> forall k :: 0 <= k < |files| ==> !IsAudio(files[k])
  {
    AudioFilesMembers(files);
    if |AudioFiles(files)| > 0 {
      assert AudioFiles(files)[0] in AudioFiles(files);
    }
  }

  lemma AudioFilesSnoc(files: seq<string>, i: nat)
    requires i < |files|
    ensures AudioFiles(files[..i + 1]) == AudioFiles(files[..i]) + (if IsAudio(files[i]) then [files[i]] else [])
  {
    assert files[..i + 1][..i] == files[..i];
  }

  /** The first loop of `process_directory`, gathering the audio files. */
  method FilterAudio(files: seq<string>) returns (audio: seq<string>)
    ensures audio == AudioFiles(files)
  {
    audio := [];
    var i := 0;
    while i < |files|
      invariant 0 <= i <= |files|
      invariant audio == AudioFiles(files[..i])
    {
      audio := FilterStep(files, i, audio);
      i := i + 1;
    }
    assert files[..|files|] == files;
  }

  /** One file of the first loop: kept when its extension is an audio one. */
  method FilterStep(files: seq<string>, i: nat, audio: seq<string>) returns (audio': seq<string>)
    requires i < |files| && audio == AudioFiles(files[..i])
    ensures audio' == AudioFiles(files[..i + 1])
  {
    AudioFilesSnoc(files, i);
    if IsAudio(files[i]) {
      audio' := audio + [files[i]];
    } else {
      audio' := audio;
    }
  }

  // ---------------------------------------------------------------------
  // the consistency check
  // ---------------------------------------------------------------------

  /** What one audio file says: its album, its album artist and its format. */
  datatype Tagged = Tagged(album: string, artist: string, format: string)

  /** The tags of the file `f` of directory `root`: `get_metadata` and the upper-cased extension. */
  function Info(read: string -> Reading, root: string, f: string): (t: Tagged)
    ensures IsAudio(f) ==> t.format == FormatOf(f)
  {
    var (album, artist) := Metadata(read(PathJoin(root, f)));
    Tagged(album, artist, if IsAudio(f) then FormatOf(f) else "")
  }

  /** The tag reader the script uses, as one function value. */
  function TagReader(read: string -> Reading): (string, string) -> Tagged {
    (root, f) => Info(read, root, f)
  }

  /** Which value a later file disagrees on. */
  datatype Field = Formats | Titles | Artists

  function Message(field: Field, root: string): string {
    match field
    case Formats => "Error: Multiple audio formats in " + root
    case Titles => "Error: Multiple album titles in " + root
    case Artists => "Error: Multiple album artists in " + root
  }

  /** The disagreement of a later file with the first, compared on format, then album, then artist. */
  function Mismatch(first: Tagged, cur: Tagged): (r: Option<Field>)
    ensures r.None? <==> cur == first
    ensures r == Some(Formats) <==> cur.format != first.format
    ensures r == Some(Titles) <==> cur.format == first.format && cur.album != first.album
    ensures r == Some(Artists) <==> cur.format == first.format && cur.album == first.album && cur.artist != first.artist
  {
    if cur.format != first.format then Some(Formats)
    else if cur.album != first.album then Some(Titles)
    else if cur.artist != first.artist then Some(Artists)
    else None
  }

  /** The error of the first later file that disagrees with `first`. */
  function FirstMismatch(first: Tagged, rest: seq<Tagged>): (r: Option<Field>)
    ensures r.None? <==> forall k :: 0 <= k < |rest| ==> rest[k] == first
  {
    if |rest| == 0 then None
    else
      var m := Mismatch(first, rest[0]);
      if m.Some? then m
      else
        var r := FirstMismatch(first, rest[1..]);
        assert forall k :: 1 <= k < |rest| ==> rest[k] == rest[1..][k - 1];
        r
  }

  /** The file that makes the error: its position, every file before it agreeing. */
  ghost predicate RaisedAt(first: Tagged, rest: seq<Tagged>, k: int, r: Option<Field>) {
    && 0 <= k < |rest|
    && (forall j :: 0 <= j < k ==> rest[j] == first)
    && r == Mismatch(first, rest[k])
  }

  /** An error is the one the first disagreeing file raises. */
  lemma {:induction false} FirstMismatchAt(first: Tagged, rest: seq<Tagged>)
    requires FirstMismatch(first, rest).Some?
    ensures exists k :: RaisedAt(first, rest, k, FirstMismatch(first, rest))
  {
    var r := FirstMismatch(first, rest);
    if Mismatch(first, rest[0]).Some? {
      assert RaisedAt(first, rest, 0, r);
    } else {
      FirstMismatchAt(first, rest[1..]);
      var k :| RaisedAt(first, rest[1..], k, r);
      assert RaisedAt(first, rest, k + 1, r);
    }
  }

  /** The first disagreement at `k` is the one reported. */
  lemma {:induction false} FirstMismatchFrom(first: Tagged, rest: seq<Tagged>, k: nat)
    requires k < |rest| && rest[k] != first
    requires forall j :: 0 <= j < k ==> rest[j] == first
    ensures FirstMismatch(first, rest) == Mismatch(first, rest[k])
  {
    if k > 0 {
      FirstMismatchFrom(first, rest[1..], k - 1);
    }
  }

  /** What `info` finds for the files of `root`, in order. */
  function Tags(info: (string, string) -> Tagged, root: string, audio: seq<string>): (r: seq<Tagged>)
    ensures |r| == |audio|
    ensures forall k :: 0 <= k < |audio| ==> r[k] == info(root, audio[k])
  {
    seq(|audio|, k requires 0 <= k < |audio| => info(root, audio[k]))
  }

  /** The tags a directory agrees on, or the first disagreement. */
  function Consistency(infos: seq<Tagged>): Result<Tagged, Field>
    requires |infos| > 0
  {
    match FirstMismatch(infos[0], infos[1..])
    case Some(field) => Err(field)
    case None => Ok(infos[0])
  }

  /** Consistent iff every file agrees with the first on all three values; then they are the first file's. */
  lemma ConsistencyOk(infos: seq<Tagged>)
    requires |infos| > 0
    ensures Consistency(infos).Ok? <==> forall k :: 0 <= k < |infos| ==> infos[k] == infos[0]
    ensures Consistency(infos).Ok? ==> Consistency(infos).value == infos[0]
  {
    assert forall k :: 1 <= k < |infos| ==> infos[1..][k - 1] == infos[k];
  }

  /** A directory with audio files: its entry, or the error of the first file that disagrees. */
  function DirResult(root: string, audio: seq<string>, info: (string, string) -> Tagged): Result<Entry, string>
    requires |audio| > 0
  {
    match Consistency(Tags(info, root, audio))
    case Err(field) => Err(Message(field, root))
    case Ok(t) => Ok((t.artist, (t.album, t.format)))
  }

  /** A directory passes iff every audio file agrees with the first on format, album and artist. */
  lemma DirResultOk(root: string, audio: seq<string>, info: (string, string) -> Tagged)
    requires |audio| > 0
    ensures DirResult(root, audio, info).Ok? <==>
      forall k :: 0 <= k < |audio| ==> info(root, audio[k]) == info(root, audio[0])
    ensures DirResult(root, audio, info).Ok? ==>
      var t := info(root, audio[0]);
      DirResult(root, audio, info).value == (t.artist, (t.album, t.format))
  {
    ConsistencyOk(Tags(info, root, audio));
  }

  /** `process_directory` on one directory with audio files: its entry, or the error of the first file that disagrees. */
  method CheckDirectory(root: string, audio: seq<string>, info: (string, string) -> Tagged) returns (r: Result<Entry, string>)
    requires |audio| > 0
    ensures r == DirResult(root, audio, info)
  {
    var first, error, seen := ScanTags(root, audio, info);
    LoopOutcome(Tags(info, root, audio), seen, first, error);
    match error
    case Some(field) =>
      r := Err(Message(field, root));
    case None =>
      var f := first.value;
      r := Ok((f.artist, (f.album, f.format)));
  }

  /** The loop over the audio files, left at the first disagreement with the first file. */
  method ScanTags(root: string, audio: seq<string>, info: (string, string) -> Tagged)
    returns (first: Option<Tagged>, error: Option<Field>, ghost seen: seq<Tagged>)
    requires |audio| > 0
    ensures 0 < |seen| <= |audio| && seen == Tags(info, root, audio)[..|seen|]
    ensures first == Some(seen[0])
    ensures forall k :: 1 <= k < |seen| - 1 ==> seen[k] == seen[0]
    ensures error.None? ==> |seen| == |audio| && seen[|seen| - 1] == seen[0]
    ensures error.Some? ==> |seen| >= 2 && error == Mismatch(seen[0], seen[|seen| - 1])
  {
    ghost var all := Tags(info, root, audio);
    first := None;
    error := None;
    var i := 0;
    while i < |audio|
      invariant 0 <= i <= |audio|
      invariant i == 0 <==> first.None?
      invariant first.Some? ==> first.value == all[0]
      invariant forall k :: 1 <= k < i ==> all[k] == all[0]
      invariant error.None?
    {
      var cur := info(root, audio[i]);
      if first.None? {
        first := Some(cur);
      } else {
        var m := Mismatch(first.value, cur);
        if m.Some? {
          error := m;
          break;
        }
      }
      i := i + 1;
    }
    seen := if error.Some? then all[..i + 1] else all;
  }

  /** Where the file loop stops, having seen the tags `seen`, and what the directory then gives. */
  lemma LoopOutcome(infos: seq<Tagged>, seen: seq<Tagged>, first: Option<Tagged>, error: Option<Field>)
    requires 0 < |seen| <= |infos| && seen == infos[..|seen|]
    requires first == Some(seen[0])
    requires forall k :: 1 <= k < |seen| - 1 ==> seen[k] == seen[0]
    requires error.None? ==> |seen| == |infos| && seen[|seen| - 1] == seen[0]
    requires error.Some? ==> |seen| >= 2 && error == Mismatch(seen[0], seen[|seen| - 1])
    ensures error.Some? ==> Consistency(infos) == Err(error.value)
    ensures error.None? ==> Consistency(infos) == Ok(first.value)
  {
    var n := |seen|;
    assert forall k :: 0 <= k < n ==> seen[k] == infos[k];
    if error.Some? {
      FirstMismatchFrom(infos[0], infos[1..], n - 2);
    } else {
      ConsistencyOk(infos);
    }
  }

  // ---------------------------------------------------------------------
  // the walk
  // ---------------------------------------------------------------------

  /** What one directory gives: nothing, an entry, or an error. */
  function DirOutcome(root: string, files: seq<string>, info: (string, string) -> Tagged): Option<Result<Entry, string>> {
    var audio := AudioFiles(files);
    if |audio| == 0 then None else Some(DirResult(root, audio, info))
  }

  /** The entries of the walk, in walk order. */
  function EntriesOf(walk: Walk, info: (string, string) -> Tagged): (r: seq<Entry>)
    ensures |r| <= |walk|
  {
    if |walk| == 0 then []
    else
      var init := EntriesOf(walk[..|walk| - 1], info);
      var (root, files) := walk[|walk| - 1];
      match DirOutcome(root, files, info)
      case Some(Ok(e)) => init + [e]
      case _ => init
  }

  /** The errors printed, in walk order. */
  function ErrorsOf(walk: Walk, info: (string, string) -> Tagged): (r: seq<string>)
    ensures |r| + |EntriesOf(walk, info)| <= |walk|
  {
    if |walk| == 0 then []
    else
      var init := ErrorsOf(walk[..|walk| - 1], info);
      var (root, files) := walk[|walk| - 1];
      match DirOutcome(root, files, info)
      case Some(Err(m)) => init + [m]
      case _ => init
  }

  /** Every directory with audio files gives exactly one entry or one error; one without gives neither. */
  lemma {:induction false} WalkAccounted(walk: Walk, info: (string, string) -> Tagged)
    ensures |ErrorsOf(walk, info)| + |EntriesOf(walk, info)| == |WithAudio(walk)|
  {
    if |walk| > 0 {
      WalkAccounted(walk[..|walk| - 1], info);
    }
  }

  /** The directories of the walk that hold an audio file. */
  function WithAudio(walk: Walk): (r: seq<string>)
    ensures |r| <= |walk|
  {
    if |walk| == 0 then []
    else
      var init := WithAudio(walk[..|walk| - 1]);
      var (root, files) := walk[|walk| - 1];
      if |AudioFiles(files)| == 0 then init else init + [root]
  }

  // ---------------------------------------------------------------------
  // the output
  // ---------------------------------------------------------------------

  function Header(artist: string): string {
    "[b]" + artist + " [, Folder][/b]\n"
  }

  function AlbumLine(album: (string, string)): string {
    "[, " + album.0 + ", " + album.1 + "]"
  }

  /** The lines of one artist: its header, one line per album, then an empty line. */
  function Block(artist: string, albums: seq<(string, string)>): (r: seq<string>)
    ensures |r| == |albums| + 2
    ensures r[0] == Header(artist) && r[|r| - 1] == ""
    ensures forall k :: 0 <= k < |albums| ==> r[k + 1] == AlbumLine(albums[k])
  {
    [Header(artist)] + AlbumLines(albums) + [""]
  }

  /** The lines of every artist of `keys`, in order, with the albums `entries` files under each. */
  function ReportLines(keys: seq<string>, entries: seq<Entry>): (r: seq<string>)
  {
    if |keys| == 0 then []
    else ReportLines(keys[..|keys| - 1], entries) + Block(keys[|keys| - 1], AlbumsOf(entries, keys[|keys| - 1]))
  }

  /** Each artist takes two lines more than its albums. */
  lemma {:induction false} ReportLinesLength(keys: seq<string>, entries: seq<Entry>)
    ensures |ReportLines(keys, entries)| == 2 * |keys| + TotalAlbums(keys, entries)
  {
    if |keys| > 0 {
      ReportLinesLength(keys[..|keys| - 1], entries);
    }
  }

  function TotalAlbums(keys: seq<string>, entries: seq<Entry>): nat {
    if |keys| == 0 then 0
    else TotalAlbums(keys[..|keys| - 1], entries) + |AlbumsOf(entries, keys[|keys| - 1])|
  }

  /** The number of entries filed under an artist of `s`. */
  function CountIn(entries: seq<Entry>, s: set<string>): (n: nat)
    ensures n <= |entries|
  {
    if |entries| == 0 then 0
    else CountIn(entries[..|entries| - 1], s) + (if entries[|entries| - 1].0 in s then 1 else 0)
  }

  lemma {:induction false} CountSplit(entries: seq<Entry>, s: set<string>, a: string)
    requires a in s
    ensures CountIn(entries, s) == CountIn(entries, s - {a}) + |AlbumsOf(entries, a)|
  {
    if |entries| > 0 {
      CountSplit(entries[..|entries| - 1], s, a);
    }
  }

  lemma {:induction false} CountAll(entries: seq<Entry>, s: set<string>)
    requires forall k :: 0 <= k < |entries| ==> entries[k].0 in s
    ensures CountIn(entries, s) == |entries|
  {
    if |entries| > 0 {
      CountAll(entries[..|entries| - 1], s);
    }
  }

  /** Over distinct artists, the album count is the number of entries filed under one of them. */
  lemma {:induction false} TotalDistinct(keys: seq<string>, entries: seq<Entry>)
    requires forall i, j :: 0 <= i < j < |keys| ==> keys[i] != keys[j]
    ensures TotalAlbums(keys, entries) == CountIn(entries, set k | k in keys)
  {
    if |keys| == 0 {
      CountAll([], {});
      assert (set k | k in keys) == {};
      CountNone(entries);
    } else {
      var init := keys[..|keys| - 1];
      var last := keys[|keys| - 1];
      TotalDistinct(init, entries);
      var s := set k | k in keys;
      assert (set k | k in init) == s - {last};
      CountSplit(entries, s, last);
    }
  }

  lemma {:induction false} CountNone(entries: seq<Entry>)
    ensures CountIn(entries, {}) == 0
  {
    if |entries| > 0 {
      CountNone(entries[..|entries| - 1]);
    }
  }

  /** With the artists in first-seen order, every entry gets exactly one album line. */
  lemma TotalIsEntries(entries: seq<Entry>)
    ensures TotalAlbums(Dedup(ArtistsOf(entries)), entries) == |entries|
  {
    var keys := Dedup(ArtistsOf(entries));
    TotalDistinct(keys, entries);
    forall k | 0 <= k < |entries|
      ensures entries[k].0 in (set a | a in keys)
    {
      assert ArtistsOf(entries)[k] in keys;
    }
    CountAll(entries, set a | a in keys);
  }

  /** The output has two lines per artist and one per directory that passed. */
  lemma ReportLength(entries: seq<Entry>)
    ensures |ReportLines(Dedup(ArtistsOf(entries)), entries)| == 2 * |Dedup(ArtistsOf(entries))| + |entries|
  {
    ReportLinesLength(Dedup(ArtistsOf(entries)), entries);
    TotalIsEntries(entries);
  }

  /** The text the output loop builds: the artist blocks, joined by line breaks. */
  function Report(entries: seq<Entry>): string {
    Join(ReportLines(Dedup(ArtistsOf(entries)), entries), "\n")
  }

  /** The output loops: for each artist in insertion order, its header, its album lines and an empty line. */
  method BuildReport(ghost entries: seq<Entry>, g: Grouped) returns (text: string)
    requires GroupedAs(entries, false, g)
    ensures text == Report(entries)
  {
    var lines: seq<string> := [];
    var i := 0;
    while i < |g.keys|
      invariant 0 <= i <= |g.keys|
      invariant lines == ReportLines(g.keys[..i], entries)
    {
      var artist := g.keys[i];
      assert artist in ArtistsOf(entries);
      assert g.lists[artist] == AlbumsOf(entries, artist);
      lines := AppendBlock(lines, artist, g.lists[artist]);
      ReportLinesSnoc(g.keys, i, entries);
      i := i + 1;
    }
    assert g.keys[..|g.keys|] == g.keys;
    text := Join(lines, "\n");
  }

  /** The lines of one artist appended: the header, the inner loop over its albums, the empty line. */
  method AppendBlock(lines: seq<string>, artist: string, albums: seq<(string, string)>) returns (lines': seq<string>)
    ensures lines' == lines + Block(artist, albums)
  {
    lines' := lines + [Header(artist)];
    ghost var head := lines';
    var j := 0;
    while j < |albums|
      invariant 0 <= j <= |albums|
      invariant lines' == head + AlbumLines(albums[..j])
    {
      AlbumLinesSnoc(albums, j);
      lines' := lines' + [AlbumLine(albums[j])];
      j := j + 1;
    }
    assert albums[..|albums|] == albums;
    lines' := lines' + [""];
    BlockAppended(lines, artist, albums);
  }

  lemma BlockAppended(lines: seq<string>, artist: string, albums: seq<(string, string)>)
    ensures lines + [Header(artist)] + AlbumLines(albums) + [""] == lines + Block(artist, albums)
  {
  }

  lemma AlbumLinesSnoc(albums: seq<(string, string)>, j: nat)
    requires j < |albums|
    ensures AlbumLines(albums[..j + 1]) == AlbumLines(albums[..j]) + [AlbumLine(albums[j])]
  {
    assert albums[..j + 1][..j] == albums[..j];
  }

  lemma ReportLinesSnoc(keys: seq<string>, i: nat, entries: seq<Entry>)
    requires i < |keys|
    ensures ReportLines(keys[..i + 1], entries) == ReportLines(keys[..i], entries) + Block(keys[i], AlbumsOf(entries, keys[i]))
  {
    assert keys[..i + 1][..i] == keys[..i];
  }

  function AlbumLines(albums: seq<(string, string)>): (r: seq<string>)
    ensures |r| == |albums|
    ensures forall k :: 0 <= k < |albums| ==> r[k] == AlbumLine(albums[k])
  {
    if |albums| == 0 then [] else AlbumLines(albums[..|albums| - 1]) + [AlbumLine(albums[|albums| - 1])]
  }

  /** The walk loop: each directory with audio files adds its entry or prints its error. */
  method CollectAlbums(walk: Walk, info: (string, string) -> Tagged) returns (errors: seq<string>, g: Grouped)
    ensures errors == ErrorsOf(walk, info)
    ensures GroupedAs(EntriesOf(walk, info), false, g)
  {
    errors := [];
    g := Grouped([], map[]);
    var i := 0;
    while i < |walk|
      invariant 0 <= i <= |walk|
      invariant errors == ErrorsOf(walk[..i], info)
      invariant GroupedAs(EntriesOf(walk[..i], info), false, g)
    {
      errors, g := CollectStep(walk, i, info, errors, g);
      i := i + 1;
    }
    assert walk[..|walk|] == walk;
  }

  /** One directory more of the walk adds its entry or its error, if any. */
  lemma WalkStep(walk: Walk, i: nat, info: (string, string) -> Tagged)
    requires i < |walk|
    ensures var o := DirOutcome(walk[i].0, walk[i].1, info);
      && EntriesOf(walk[..i + 1], info) == EntriesOf(walk[..i], info) + (if o.Some? && o.value.Ok? then [o.value.value] else [])
      && ErrorsOf(walk[..i + 1], info) == ErrorsOf(walk[..i], info) + (if o.Some? && o.value.Err? then [o.value.error] else [])
  {
    assert walk[..i + 1][..i] == walk[..i];
  }

  method CollectStep(walk: Walk, i: nat, info: (string, string) -> Tagged, errors: seq<string>, g: Grouped)
    returns (errors': seq<string>, g': Grouped)
    requires i < |walk|
    requires errors == ErrorsOf(walk[..i], info)
    requires GroupedAs(EntriesOf(walk[..i], info), false, g)
    ensures errors' == ErrorsOf(walk[..i + 1], info)
    ensures GroupedAs(EntriesOf(walk[..i + 1], info), false, g')
  {
    ghost var entries := EntriesOf(walk[..i], info);
    var (root, files) := walk[i];
    WalkStep(walk, i, info);
    var audio := FilterAudio(files);
    errors', g' := errors, g;
    if |audio| > 0 {
      var r := CheckDirectory(root, audio, info);
      match r
      case Err(m) =>
        errors' := errors + [m];
        assert EntriesOf(walk[..i + 1], info) == entries + [];
        assert entries + [] == entries;
      case Ok(e) =>
        g' := AddEntry(entries, false, g, e);
        assert ErrorsOf(walk[..i + 1], info) == errors + [];
        assert errors + [] == errors;
    } else {
      assert EntriesOf(walk[..i + 1], info) == entries + [];
      assert ErrorsOf(walk[..i + 1], info) == errors + [];
      assert entries + [] == entries && errors + [] == errors;
    }
  }

  /** `process_directory`: the errors in walk order, and the text copied to the clipboard. */
  method ProcessDirectory(walk: Walk, read: string -> Reading) returns (errors: seq<string>, text: string)
    ensures errors == ErrorsOf(walk, TagReader(read))
    ensures text == Report(EntriesOf(walk, TagReader(read)))
  {
    var info := TagReader(read);
    var g;
    errors, g := CollectAlbums(walk, info);
    text := BuildReport(EntriesOf(walk, info), g);
  }
}
