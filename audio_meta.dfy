/**
 * Per-file metadata and per-folder analysis of Python/AudioOrganizer.py:
 * the tag normalisation and date parsing of `get_audio_metadata`, and
 * `analyze_album_folder`, which reads every supported audio file of a folder
 * and elects the folder's album and year by majority vote.
 *
 * The tag reader (mutagen) and the cover-art hashing are outside the model:
 * the caller supplies, per file path, what they returned (`Probe`).
 */
module AudioMeta {
  import opened Wrappers
  import opened Text
  import opened Vote

  const AudioExtensions: seq<string> := [".mp3", ".flac", ".m4a", ".ogg"]
  const ImageExtensions: seq<string> := [".jpg", ".jpeg", ".png", ".gif", ".bmp", ".tif", ".tiff"]

  /** The first value of each tag as the reader returned it (`audio.get(key, [None])[0]`). */
  datatype RawTags = RawTags(
    album: Option<string>, artist: Option<string>, albumartist: Option<string>,
    title: Option<string>, date: Option<string>, tracknumber: Option<string>,
    discnumber: Option<string>)

  /** What reading one file gave: a read error, or its tags and its cover-art summary. */
  datatype Probe = Unreadable | Readable(tags: RawTags, coverCount: nat, coverHash: Option<string>)

  /** The metadata record of one audio file; an absent tag is `None`, a present one is never empty. */
  datatype FileMeta = FileMeta(
    filename: string,
    album: Option<string>, artist: Option<string>, albumartist: Option<string>,
    title: Option<string>, track: Option<string>, disc: Option<string>,
    year: Option<string>, invalidYear: Option<string>,
    coverCount: nat, coverHash: Option<string>)

  /** The analysis of one album folder. */
  datatype FolderInfo = FolderInfo(
    path: string, album: string, year: Option<string>,
    files: seq<FileMeta>, hasImages: bool)

  predicate IsAudioName(f: string) { EndsWithAny(Lower(f), AudioExtensions) }

  predicate IsImageName(f: string) { EndsWithAny(Lower(f), ImageExtensions) }

  /** `str(v) if v else None`: an empty value counts as absent. */
  function Truthy(v: Option<string>): (r: Option<string>)
    ensures r.Some? <==> v.Some? && v.value != ""
    ensures r.Some? ==> r == v
  {
    if v.Some? && v.value != "" then v else None
  }

  /** A four-digit year, `re.fullmatch(r'\d{4}', s)`. */
  predicate IsYear(s: string) {
    |s| == 4 && forall k :: 0 <= k < 4 ==> IsDigit(s[k])
  }

  /**
   * The date tag, stripped, is either a year or an invalid-year tag; an
   * absent or empty date gives neither. The invalid tag may still be the
   * empty string (a date made only of whitespace).
   */
  function ParseDate(date: Option<string>): (r: (Option<string>, Option<string>))
    ensures r.0.Some? ==> IsYear(r.0.value)
    ensures !(r.0.Some? && r.1.Some?)
    ensures (r.0.Some? || r.1.Some?) <==> date.Some? && date.value != ""
    ensures r.0.Some? ==> r.0.value == Strip(date.value)
    ensures r.1.Some? ==> r.1.value == Strip(date.value) && !IsYear(r.1.value)
  {
    if date.Some? && date.value != "" then
      var s := Strip(date.value);
      if IsYear(s) then (Some(s), None) else (None, Some(s))
    else (None, None)
  }

  /** No tag of the record is present and empty. */
  predicate NoEmptyTags(md: FileMeta) {
    && (md.album.Some? ==> md.album.value != "")
    && (md.artist.Some? ==> md.artist.value != "")
    && (md.albumartist.Some? ==> md.albumartist.value != "")
    && (md.title.Some? ==> md.title.value != "")
    && (md.track.Some? ==> md.track.value != "")
    && (md.disc.Some? ==> md.disc.value != "")
    && (md.year.Some? ==> IsYear(md.year.value))
  }

  /**
   * The record `get_audio_metadata` and `get_cover_art_info` build for one
   * readable file: every tag is kept exactly when it is present and
   * non-empty, the date becomes a year or an invalid-year tag, and the
   * cover-art count and hash are carried over.
   */
  function ReadFile(filename: string, tags: RawTags, coverCount: nat, coverHash: Option<string>): (md: FileMeta)
    ensures md.filename == filename
    ensures md.album == Truthy(tags.album) && md.artist == Truthy(tags.artist) && md.albumartist == Truthy(tags.albumartist)
    ensures md.title == Truthy(tags.title) && md.track == Truthy(tags.tracknumber) && md.disc == Truthy(tags.discnumber)
    ensures (md.year, md.invalidYear) == ParseDate(tags.date)
    ensures md.coverCount == coverCount && md.coverHash == coverHash
    ensures NoEmptyTags(md)
  {
    var (year, invalid) := ParseDate(tags.date);
    FileMeta(filename, Truthy(tags.album), Truthy(tags.artist), Truthy(tags.albumartist),
             Truthy(tags.title), Truthy(tags.tracknumber), Truthy(tags.discnumber),
             year, invalid, coverCount, coverHash)
  }

  /** The raw tags a record would come from: its tags as they are, its year as the date. */
  function TagsOf(md: FileMeta): RawTags {
    RawTags(md.album, md.artist, md.albumartist, md.title, md.year, md.track, md.disc)
  }

  /** Reading the tags a normalised record shows gives the record back: the normalisation is idempotent. */
  lemma ReadFileRoundTrip(md: FileMeta)
    requires NoEmptyTags(md) && md.invalidYear.None?
    ensures ReadFile(md.filename, TagsOf(md), md.coverCount, md.coverHash) == md
  {
    if md.year.Some? {
      var y := md.year.value;
      assert !IsSpace(y[0]) && !IsSpace(y[3]) by {
        assert IsDigit(y[0]) && IsDigit(y[3]);
      }
      TrimKeeps(y, IsSpace);
    }
  }

  // ---------------------------------------------------------------------
  // The views of a folder's files that the vote uses
  // ---------------------------------------------------------------------

  /** `[f for f in filenames if f.lower().endswith(SUPPORTED_EXTENSIONS)]`. */
  function AudioNames(names: seq<string>): (r: seq<string>)
    ensures |r| <= |names|
    ensures forall f :: f in r <==> f in names && IsAudioName(f)
  {
    if |names| == 0 then []
    else AudioNames(names[..|names| - 1]) + (if IsAudioName(names[|names| - 1]) then [names[|names| - 1]] else [])
  }

  /** The records of the files in `names` that could be read, in order. */
  ghost function Readings(dir: string, names: seq<string>, probe: string -> Probe): seq<FileMeta> {
    if |names| == 0 then []
    else
      var f := names[|names| - 1];
      Readings(dir, names[..|names| - 1], probe)
        + match probe(PathJoin(dir, f))
          case Unreadable => []
          case Readable(t, n, h) => [ReadFile(f, t, n, h)]
  }

  /** `[md['album'] for md in files_metadata if md.get('album')]`. */
  function AlbumTags(files: seq<FileMeta>): (r: seq<string>)
    ensures forall a :: a in r <==> exists k :: 0 <= k < |files| && files[k].album == Some(a)
  {
    if |files| == 0 then []
    else
      var last := files[|files| - 1];
      assert forall k :: 0 <= k < |files| - 1 ==> files[..|files| - 1][k] == files[k];
      AlbumTags(files[..|files| - 1]) + (if last.album.Some? then [last.album.value] else [])
  }

  /** The years of the files whose album tag is `album`. */
  function YearsFor(files: seq<FileMeta>, album: string): (r: seq<string>)
    ensures forall y :: y in r <==> exists k :: 0 <= k < |files| && files[k].album == Some(album) && files[k].year == Some(y)
  {
    if |files| == 0 then []
    else
      var last := files[|files| - 1];
      assert forall k :: 0 <= k < |files| - 1 ==> files[..|files| - 1][k] == files[k];
      YearsFor(files[..|files| - 1], album) + (if last.album == Some(album) && last.year.Some? then [last.year.value] else [])
  }

  /** The album is the first-seen most frequent album tag, or the folder's own name when no file has one. */
  ghost predicate AlbumElected(files: seq<FileMeta>, album: string, dir: string) {
    var tags := AlbumTags(files);
    if |tags| == 0 then album == Basename(dir) else IsFirstMode(tags, album)
  }

  /** The year is the first-seen most frequent year among the files of the elected album; none without album tags. */
  ghost predicate YearElected(files: seq<FileMeta>, album: string, year: Option<string>) {
    var ys := YearsFor(files, album);
    if |AlbumTags(files)| == 0 || |ys| == 0 then year == None
    else year.Some? && IsFirstMode(ys, year.value)
  }

  /** `any(f.lower().endswith(IMAGE_EXTENSIONS) for f in filenames)`. */
  function AnyImage(names: seq<string>): (b: bool)
    ensures b <==> exists f :: f in names && IsImageName(f)
  {
    if |names| == 0 then false
    else IsImageName(names[0]) || AnyImage(names[1..])
  }

  /** Reads every audio file of the folder in order, keeping the records of the readable ones. */
  method ReadAll(dirpath: string, audio: seq<string>, probe: string -> Probe) returns (files: seq<FileMeta>)
    ensures files == Readings(dirpath, audio, probe)
  {
    files := [];
    var i := 0;
    while i < |audio|
      invariant 0 <= i <= |audio|
      invariant files == Readings(dirpath, audio[..i], probe)
    {
      assert audio[..i + 1][..i] == audio[..i];
      var f := audio[i];
      match probe(PathJoin(dirpath, f)) {
        case Unreadable =>
        case Readable(t, n, h) =>
          files := files + [ReadFile(f, t, n, h)];
      }
      i := i + 1;
    }
    assert audio[..i] == audio;
  }

  /** The album and year vote of `analyze_album_folder`. */
  method Elect(files: seq<FileMeta>, dirpath: string) returns (album: string, year: Option<string>)
    ensures AlbumElected(files, album, dirpath)
    ensures YearElected(files, album, year)
  {
    var tags := AlbumTags(files);
    if |tags| > 0 {
      album := MostCommon(tags);
      var ys := YearsFor(files, album);
      if |ys| > 0 {
        var y := MostCommon(ys);
        year := Some(y);
      } else {
        year := None;
      }
    } else {
      album := Basename(dirpath);
      year := None;
    }
  }

  /** `analyze_album_folder(dirpath, filenames)` with the reader's results given by `probe`. */
  method AnalyzeAlbumFolder(dirpath: string, filenames: seq<string>, probe: string -> Probe)
    returns (r: Option<FolderInfo>)
    ensures r.None? <==> Readings(dirpath, AudioNames(filenames), probe) == []
    ensures r.Some? ==> r.value.path == dirpath && r.value.files == Readings(dirpath, AudioNames(filenames), probe)
    ensures r.Some? ==> AlbumElected(r.value.files, r.value.album, dirpath)
    ensures r.Some? ==> YearElected(r.value.files, r.value.album, r.value.year)
    ensures r.Some? ==> (r.value.hasImages <==> exists f :: f in filenames && IsImageName(f))
  {
    var files := ReadAll(dirpath, AudioNames(filenames), probe);
    if |files| == 0 {
      return None;
    }
    var album, year := Elect(files, dirpath);
    r := Some(FolderInfo(dirpath, album, year, files, AnyImage(filenames)));
  }
}
