/**
 * Python/JSONFromFiles.py: one item of a links file for a single artist.
 * Each directory of the walk is summed up by its first audio file; the
 * albums found are grouped by artist without repeats, and when exactly one
 * artist was found the item text is assembled by hand, with the artist and
 * the album titles written as JSON strings.
 */
module JsonFromFiles {
  import opened Wrappers
  import opened Text
  import opened JsonString
  import opened AlbumScan

  // ---------------------------------------------------------------------
  // build_string_manually
  // ---------------------------------------------------------------------

  /** The fixed first link of every item. */
  const FolderLink: string :=
    "      {\n" +
    "        \"title\": \"Folder\",\n" +
    "        \"url\": [],\n" +
    "        \"description\": \"\",\n" +
    "        \"tags\": []\n" +
    "      }"

  /** The link of one (title, format) album. */
  function AlbumLink(album: (string, string)): string {
    "      {\n" +
    "        \"title\": " + Quote(album.0) + ",\n" +
    "        \"url\": [],\n" +
    "        \"description\": \"\",\n" +
    "        \"tags\": [\"" + album.1 + "\"]\n" +
    "      }"
  }

  /** The list of links: Folder first, then one per album in list order. */
  function Links(albums: seq<(string, string)>): (r: seq<string>)
    ensures |r| == |albums| + 1
    ensures r[0] == FolderLink
    ensures forall k :: 0 <= k < |albums| ==> r[k + 1] == AlbumLink(albums[k])
  {
    [FolderLink] + seq(|albums|, k requires 0 <= k < |albums| => AlbumLink(albums[k]))
  }

  /** The item text up to the artist: the opening brace and the category key. */
  const ItemHead: string := "{\n    \"category\": "

  /** The item text between the artist and the first link: the comma and the links key. */
  const LinksHead: string := ",\n    \"links\": [\n"

  /** The item text after the last link, with the trailing comma. */
  const ItemTail: string := "\n    ]\n},"

  /** The item text for one artist and its albums: the category line, then the links joined by ",\n". */
  function BuildString(artist: string, albums: seq<(string, string)>): (r: string)
    ensures StartsWith(r, "{\n")
    ensures EndsWith(r, "},")
  {
    ItemHead + Quote(artist) + LinksHead + Join(Links(albums), ",\n") + ItemTail
  }

  /** Reading an item back: the category, as a JSON string, and the text of its list of links. */
  function ReadItem(item: string): (r: Option<(string, string)>)
  {
    if !StartsWith(item, ItemHead) then None
    else
      match ReadString(item[|ItemHead|..])
      case None => None
      case Some((category, rest)) =>
        if |LinksHead| + |ItemTail| <= |rest| && StartsWith(rest, LinksHead) && EndsWith(rest, ItemTail)
        then Some((category, rest[|LinksHead|..|rest| - |ItemTail|]))
        else None
  }

  /** The item is the artist between the head and the links, then the link block and the tail. */
  lemma BuildStringParts(artist: string, albums: seq<(string, string)>)
    ensures BuildString(artist, albums) == ItemHead + (Quote(artist) + (LinksHead + Join(Links(albums), ",\n") + ItemTail))
  {
  }

  /** Reading a category and a link block back from their pieces. */
  lemma ReadItemOf(category: string, block: string)
    ensures ReadItem(ItemHead + (Quote(category) + (LinksHead + block + ItemTail))) == Some((category, block))
  {
    var rest := LinksHead + block + ItemTail;
    var item := ItemHead + (Quote(category) + rest);
    assert item[..|ItemHead|] == ItemHead;
    assert item[|ItemHead|..] == Quote(category) + rest;
    ReadStringQuote(category, rest);
    assert rest[..|LinksHead|] == LinksHead;
    assert rest[|rest| - |ItemTail|..] == ItemTail;
    assert rest[|LinksHead|..|rest| - |ItemTail|] == block;
  }

  /** The item reads back as its artist and the links of its albums, Folder first. */
  lemma BuildStringReadsBack(artist: string, albums: seq<(string, string)>)
    ensures ReadItem(BuildString(artist, albums)) == Some((artist, Join(Links(albums), ",\n")))
  {
    BuildStringParts(artist, albums);
    ReadItemOf(artist, Join(Links(albums), ",\n"));
  }

  /** Different artists, or different album lists, give different items. */
  lemma BuildStringInjective(artist: string, albums: seq<(string, string)>, artist': string, albums': seq<(string, string)>)
    requires BuildString(artist, albums) == BuildString(artist', albums')
    ensures artist == artist'
    ensures Join(Links(albums), ",\n") == Join(Links(albums'), ",\n")
  {
    BuildStringReadsBack(artist, albums);
    BuildStringReadsBack(artist', albums');
  }

  /** The link block as the loop builds it: each album adds a separator and its link at the end. */
  lemma LinksSnoc(albums: seq<(string, string)>, album: (string, string))
    ensures Join(Links(albums + [album]), ",\n") == Join(Links(albums), ",\n") + ",\n" + AlbumLink(album)
  {
    assert Links(albums + [album]) == Links(albums) + [AlbumLink(album)];
    JoinSnoc(Links(albums), AlbumLink(album), ",\n");
  }

  /** With no album the block is the Folder link alone. */
  lemma LinksEmpty()
    ensures Join(Links([]), ",\n") == FolderLink
  {
  }

  // ---------------------------------------------------------------------
  // process_directory
  // ---------------------------------------------------------------------

  /** The position of the first audio file of a directory, or its length when there is none. */
  function FirstAudio(files: seq<string>): (i: nat)
    ensures i <= |files|
    ensures i < |files| ==> IsAudio(files[i])
    ensures forall k :: 0 <= k < i ==> !IsAudio(files[k])
  {
    FirstWhere(files, IsAudio)
  }

  /** What a directory contributes: its first audio file's album and artist, when both are non-empty. */
  function DirEntry(root: string, files: seq<string>, read: string -> Reading): (e: Option<Entry>)
    ensures e.Some? ==> e.value.0 != "" && e.value.1.0 != ""
    ensures e.Some? ==> e.value.1.1 == "FLAC" || e.value.1.1 == "MP3"
    ensures FirstAudio(files) == |files| ==> e.None?
  {
    var i := FirstAudio(files);
    if i == |files| then None
    else
      var (album, artist) := Metadata(read(PathJoin(root, files[i])));
      if artist != "" && album != "" then Some((artist, (album, FormatOf(files[i])))) else None
  }

  /** Only the first audio file is read: files listed after it change nothing. */
  lemma DirEntryFirstOnly(root: string, files: seq<string>, more: seq<string>, read: string -> Reading)
    requires FirstAudio(files) < |files|
    ensures DirEntry(root, files + more, read) == DirEntry(root, files, read)
  {
    FirstWherePrefix(files, more, IsAudio);
  }

  /** The file loop of one directory, left at the first audio file. */
  method ScanDirectory(root: string, files: seq<string>, read: string -> Reading) returns (e: Option<Entry>)
    ensures e == DirEntry(root, files, read)
  {
    var hasAudio := false;
    var album, artist, format := "", "", "";
    var i := 0;
    while i < |files|
      invariant 0 <= i <= |files|
      invariant forall k :: 0 <= k < i ==> !IsAudio(files[k])
    {
      var f := files[i];
      if IsAudio(f) {
        hasAudio := true;
        var m := Metadata(read(PathJoin(root, f)));
        album, artist := m.0, m.1;
        format := FormatOf(f);
        break;
      }
      i := i + 1;
    }
    assert hasAudio ==> i == FirstAudio(files) by {
      if hasAudio {
        FirstWhereAt(files, i, IsAudio);
      }
    }
    assert !hasAudio ==> FirstAudio(files) == |files|;
    if hasAudio && artist != "" && album != "" {
      e := Some((artist, (album, format)));
    } else {
      e := None;
    }
  }

  /** The entries of a walk, directory by directory. */
  function EntriesOf(walk: Walk, read: string -> Reading): (r: seq<Entry>)
    ensures |r| <= |walk|
    ensures forall k :: 0 <= k < |r| ==> r[k].0 != "" && r[k].1.0 != ""
  {
    if |walk| == 0 then []
    else
      var init := EntriesOf(walk[..|walk| - 1], read);
      var (root, files) := walk[|walk| - 1];
      match DirEntry(root, files, read)
      case Some(e) => init + [e]
      case None => init
  }

  /** One more directory adds its entry, if any, at the end. */
  lemma EntriesSnoc(walk: Walk, i: nat, read: string -> Reading, e: Option<Entry>)
    requires i < |walk| && e == DirEntry(walk[i].0, walk[i].1, read)
    ensures EntriesOf(walk[..i + 1], read) == EntriesOf(walk[..i], read) + (if e.Some? then [e.value] else [])
  {
    assert walk[..i + 1][..i] == walk[..i];
  }

  lemma GroupedSame(entries: seq<Entry>, entries': seq<Entry>, g: Grouped)
    requires entries == entries' && GroupedAs(entries, true, g)
    ensures GroupedAs(entries', true, g)
  {
  }

  /** What the script ends with: nothing found, several artists (listed in first-seen order), or the item. */
  datatype JsonOutcome = NoAlbums | MultipleArtists(artists: seq<string>) | Item(text: string)

  /** The loop over the walk: the dictionary of albums by artist, without repeats. */
  method CollectAlbums(walk: Walk, read: string -> Reading) returns (g: Grouped)
    ensures GroupedAs(EntriesOf(walk, read), true, g)
  {
    g := Grouped([], map[]);
    var i := 0;
    while i < |walk|
      invariant 0 <= i <= |walk|
      invariant GroupedAs(EntriesOf(walk[..i], read), true, g)
    {
      g := CollectStep(walk, i, read, g);
      i := i + 1;
    }
    assert walk[..|walk|] == walk;
  }

  /** One directory of the walk. */
  method CollectStep(walk: Walk, i: nat, read: string -> Reading, g: Grouped) returns (g': Grouped)
    requires i < |walk|
    requires GroupedAs(EntriesOf(walk[..i], read), true, g)
    ensures GroupedAs(EntriesOf(walk[..i + 1], read), true, g')
  {
    ghost var entries := EntriesOf(walk[..i], read);
    var (root, files) := walk[i];
    var e := ScanDirectory(root, files, read);
    EntriesSnoc(walk, i, read, e);
    if e.Some? {
      g' := AddEntry(entries, true, g, e.value);
      GroupedSame(entries + [e.value], EntriesOf(walk[..i + 1], read), g');
    } else {
      g' := g;
      GroupedSame(entries, EntriesOf(walk[..i + 1], read), g');
    }
  }

  /** The outcome the script reaches after `entries`. */
  ghost predicate JsonResult(entries: seq<Entry>, out: JsonOutcome) {
    && (out == NoAlbums <==> |entries| == 0)
    && (out.MultipleArtists? <==> |Dedup(ArtistsOf(entries))| > 1)
    && (out.MultipleArtists? ==> out.artists == Dedup(ArtistsOf(entries)))
    && (out.Item? ==> |Dedup(ArtistsOf(entries))| == 1)
    && (out.Item? ==> |entries| > 0 && out.text == BuildString(entries[0].0, Dedup(AlbumsOf(entries, entries[0].0))))
  }

  /**
   * `process_directory`: no entry gives `NoAlbums`; more than one artist
   * gives `MultipleArtists`; otherwise the item for the one artist and its
   * albums in first-seen order, each (title, format) pair once.
   */
  method ProcessDirectory(walk: Walk, read: string -> Reading) returns (out: JsonOutcome)
    ensures JsonResult(EntriesOf(walk, read), out)
  {
    var g := CollectAlbums(walk, read);
    ghost var entries := EntriesOf(walk, read);
    if |g.keys| == 0 {
      out := NoAlbums;
    } else if |g.keys| > 1 {
      out := MultipleArtists(g.keys);
    } else {
      var artist := g.keys[0];
      SingleArtist(entries);
      out := Item(BuildString(artist, g.lists[artist]));
    }
  }

  /** One artist after deduplication: every entry is filed under it, and it is the first entry's. */
  lemma SingleArtist(entries: seq<Entry>)
    requires |Dedup(ArtistsOf(entries))| == 1
    ensures |entries| > 0 && Dedup(ArtistsOf(entries))[0] == entries[0].0
    ensures forall k :: 0 <= k < |entries| ==> entries[k].0 == entries[0].0
  {
    var artists := Dedup(ArtistsOf(entries));
    forall k | 0 <= k < |entries|
      ensures entries[k].0 == artists[0]
    {
      assert ArtistsOf(entries)[k] in artists;
    }
  }
}
