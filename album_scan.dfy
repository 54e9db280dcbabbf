/**
 * What Python/JSONFromFiles.py and RYMFromFiles.py share: the walk over a
 * music folder, the choice of audio files by extension, `get_metadata`
 * (album and album-artist of one file, as both scripts define it), and the
 * grouping of albums by artist in first-seen order.
 *
 * The tag reader (mutagen) is outside the model: the caller gives, per file
 * path, what it found.
 */
module AlbumScan {
  import opened Wrappers
  import opened Text

  /** One directory of the walk: its path and the names of its files, in listing order. */
  type Walk = seq<(string, seq<string>)>

  /** What the tag reader gave for one file: a read error, or the first album value and the album-artist and artist lists. */
  datatype Reading =
    | TagError
    | Tags(album: Option<string>, albumArtist: Option<seq<string>>, artist: Option<seq<string>>)

  /** `os.path.splitext(f)[1].lower() in {'.flac', '.mp3'}`. */
  predicate IsAudio(f: string) {
    Lower(Ext(f)) == ".flac" || Lower(Ext(f)) == ".mp3"
  }

  /** The position of the first element `keep` accepts, or the length when there is none. */
  function FirstWhere<T>(xs: seq<T>, keep: T -> bool): (i: nat)
    ensures i <= |xs|
    ensures i < |xs| ==> keep(xs[i])
    ensures forall k :: 0 <= k < i ==> !keep(xs[k])
  {
    if |xs| == 0 then 0
    else if keep(xs[0]) then 0
    else 1 + FirstWhere(xs[1..], keep)
  }

  /** Elements after the first accepted one do not move it. */
  lemma {:induction false} FirstWherePrefix<T>(xs: seq<T>, more: seq<T>, keep: T -> bool)
    requires FirstWhere(xs, keep) < |xs|
    ensures FirstWhere(xs + more, keep) == FirstWhere(xs, keep)
  {
    if !keep(xs[0]) {
      assert (xs + more)[1..] == xs[1..] + more;
      FirstWherePrefix(xs[1..], more, keep);
    }
  }

  /** An accepted element with none accepted before it is the first. */
  lemma {:induction false} FirstWhereAt<T>(xs: seq<T>, i: nat, keep: T -> bool)
    requires i < |xs| && keep(xs[i])
    requires forall k :: 0 <= k < i ==> !keep(xs[k])
    ensures FirstWhere(xs, keep) == i
  {
    if i > 0 {
      FirstWhereAt(xs[1..], i - 1, keep);
    }
  }

  /** `ext[1:].upper()`: the format written out, "FLAC" or "MP3". */
  function FormatOf(f: string): (fmt: string)
    requires IsAudio(f)
    ensures fmt == "FLAC" || fmt == "MP3"
  {
    var e := Lower(Ext(f));
    assert e[1..] == if e == ".flac" then "flac" else "mp3";
    Upper(e[1..])
  }

  /**
   * `get_metadata`: the first album value stripped (empty when absent);
   * the album-artist list, or failing that the artist list, and its first
   * value stripped (empty when there is none); `('', '')` on a read error.
   */
  function Metadata(r: Reading): (albumArtist: (string, string))
    ensures r.TagError? ==> albumArtist == ("", "")
    ensures r.Tags? && r.album.None? ==> albumArtist.0 == ""
    ensures r.Tags? && r.album.Some? ==> albumArtist.0 == Strip(r.album.value)
    ensures r.Tags? && r.albumArtist.Some? && |r.albumArtist.value| > 0 ==> albumArtist.1 == Strip(r.albumArtist.value[0])
    ensures r.Tags? && r.albumArtist.None? && r.artist.Some? && |r.artist.value| > 0 ==> albumArtist.1 == Strip(r.artist.value[0])
    // neither list, or an empty chosen list, gives no artist
    ensures (r.Tags? && (r.albumArtist.Some? ==> |r.albumArtist.value| == 0)
             && (r.albumArtist.None? ==> r.artist.None? || |r.artist.value| == 0))
      ==> albumArtist.1 == ""
  {
    match r
    case TagError => ("", "")
    case Tags(album, albumArtist, artist) =>
      var a := if album.Some? then Strip(album.value) else "";
      var tags := if albumArtist.Some? then albumArtist.value else if artist.Some? then artist.value else [""];
      (a, if |tags| > 0 then Strip(tags[0]) else "")
  }

  /** A value `get_metadata` returns never has whitespace at either end. */
  lemma MetadataStripped(r: Reading)
    ensures var (album, artist) := Metadata(r);
      && (|album| > 0 ==> !IsSpace(album[0]) && !IsSpace(album[|album| - 1]))
      && (|artist| > 0 ==> !IsSpace(artist[0]) && !IsSpace(artist[|artist| - 1]))
  {
    match r
    case TagError =>
    case Tags(album, albumArtist, artist) =>
      var tags := if albumArtist.Some? then albumArtist.value else if artist.Some? then artist.value else [""];
      assert Metadata(r).0 == if album.Some? then Strip(album.value) else "";
      assert Metadata(r).1 == if |tags| > 0 then Strip(tags[0]) else "";
  }

  // ---------------------------------------------------------------------
  // First-seen order
  // ---------------------------------------------------------------------

  /** `xs` with repeats removed, each value kept at its first occurrence. */
  function Dedup<T(==,!new)>(xs: seq<T>): (r: seq<T>)
    ensures forall x :: x in r <==> x in xs
    ensures forall i, j :: 0 <= i < j < |r| ==> r[i] != r[j]
  {
    if |xs| == 0 then []
    else
      var init := Dedup(xs[..|xs| - 1]);
      var x := xs[|xs| - 1];
      assert forall y :: y in xs <==> y in xs[..|xs| - 1] || y == x;
      if x in init then init else init + [x]
  }

  /** `x` occurs at `a`, and `y` first occurs at `b`, after `a`. */
  ghost predicate FirstMetBefore<T>(xs: seq<T>, a: int, b: int, x: T, y: T) {
    0 <= a < b < |xs| && xs[a] == x && xs[b] == y && forall k :: 0 <= k < b ==> xs[k] != y
  }

  /** Dedup keeps order: a value first met before another comes before it. */
  lemma {:induction false} DedupOrder<T(!new)>(xs: seq<T>, i: nat, j: nat)
    requires i < j < |Dedup(xs)|
    ensures exists a, b :: FirstMetBefore(xs, a, b, Dedup(xs)[i], Dedup(xs)[j])
  {
    var init := Dedup(xs[..|xs| - 1]);
    var x := xs[|xs| - 1];
    if x !in init && j == |init| {
      assert Dedup(xs)[i] == init[i];
      var p := xs[..|xs| - 1];
      assert init[i] in p;
      var a :| 0 <= a < |p| && p[a] == init[i];
      assert x !in xs[..|xs| - 1];
      assert forall k :: 0 <= k < |xs| - 1 ==> xs[k] == xs[..|xs| - 1][k];
      assert FirstMetBefore(xs, a, |xs| - 1, Dedup(xs)[i], Dedup(xs)[j]);
    } else {
      assert Dedup(xs)[i] == init[i] && Dedup(xs)[j] == init[j];
      DedupOrder(xs[..|xs| - 1], i, j);
      var a, b :| FirstMetBefore(xs[..|xs| - 1], a, b, init[i], init[j]);
      assert forall k :: 0 <= k < b ==> xs[k] == xs[..|xs| - 1][k];
      assert FirstMetBefore(xs, a, b, Dedup(xs)[i], Dedup(xs)[j]);
    }
  }

  /** An album found in one directory: the artist it is filed under, then its (title, format) pair. */
  type Entry = (string, (string, string))

  /** The artists of the entries, in first-seen order: the key order of the scripts' dictionaries. */
  function ArtistsOf(entries: seq<Entry>): (r: seq<string>)
    ensures |r| == |entries|
    ensures forall k :: 0 <= k < |entries| ==> r[k] == entries[k].0
  {
    seq(|entries|, k requires 0 <= k < |entries| => entries[k].0)
  }

  /** The albums filed under `artist`, in order, repeats kept. */
  function AlbumsOf(entries: seq<Entry>, artist: string): (r: seq<(string, string)>)
    ensures |r| <= |entries|
    ensures forall p :: p in r <==> (artist, p) in entries
  {
    if |entries| == 0 then []
    else
      var init := entries[..|entries| - 1];
      var e := entries[|entries| - 1];
      assert forall x :: x in entries <==> x in init || x == e;
      AlbumsOf(init, artist) + (if e.0 == artist then [e.1] else [])
  }

  /** The dictionary of lists both scripts build: its keys in insertion order, and each key's list. */
  datatype Grouped = Grouped(keys: seq<string>, lists: map<string, seq<(string, string)>>)

  /** The grouping after `entries`, when a list keeps repeats (`dedup` false) or skips them (`dedup` true). */
  ghost predicate GroupedAs(entries: seq<Entry>, dedup: bool, g: Grouped) {
    && g.keys == Dedup(ArtistsOf(entries))
    && (forall a :: a in g.lists <==> a in ArtistsOf(entries))
    && (forall a :: a in g.lists ==> g.lists[a] == ListFor(entries, dedup, a))
  }

  /** The list an artist ends up with. */
  ghost function ListFor(entries: seq<Entry>, dedup: bool, a: string): seq<(string, string)> {
    if dedup then Dedup(AlbumsOf(entries, a)) else AlbumsOf(entries, a)
  }

  lemma DedupSnoc<T(!new)>(xs: seq<T>, x: T)
    ensures Dedup(xs + [x]) == if x in Dedup(xs) then Dedup(xs) else Dedup(xs) + [x]
  {
    assert (xs + [x])[..|xs|] == xs;
  }

  lemma AlbumsOfSnoc(entries: seq<Entry>, e: Entry, a: string)
    ensures AlbumsOf(entries + [e], a) == AlbumsOf(entries, a) + (if e.0 == a then [e.1] else [])
  {
    assert (entries + [e])[..|entries|] == entries;
  }

  /** An artist with no entry has no albums. */
  lemma {:induction false} AlbumsOfAbsent(entries: seq<Entry>, a: string)
    requires a !in ArtistsOf(entries)
    ensures AlbumsOf(entries, a) == []
  {
    if |entries| > 0 {
      var init := entries[..|entries| - 1];
      assert ArtistsOf(entries)[|entries| - 1] == entries[|entries| - 1].0;
      assert ArtistsOf(init) == ArtistsOf(entries)[..|entries| - 1];
      AlbumsOfAbsent(init, a);
    }
  }

  /** Adding one entry to the dictionary: a new artist gets an empty list first; the album is appended unless `dedup` finds it there. */
  method AddEntry(ghost entries: seq<Entry>, dedup: bool, g: Grouped, e: Entry) returns (g': Grouped)
    requires GroupedAs(entries, dedup, g)
    ensures GroupedAs(entries + [e], dedup, g')
  {
    var (artist, album) := e;
    var list := if artist in g.lists then g.lists[artist] else [];
    var keys := if artist in g.lists then g.keys else g.keys + [artist];
    var list' := if dedup && album in list then list else list + [album];
    g' := Grouped(keys, g.lists[artist := list']);
    AddEntryGrouped(entries, dedup, g, e, g');
  }

  lemma AddEntryGrouped(entries: seq<Entry>, dedup: bool, g: Grouped, e: Entry, g': Grouped)
    requires GroupedAs(entries, dedup, g)
    requires var list := if e.0 in g.lists then g.lists[e.0] else [];
      && g'.keys == (if e.0 in g.lists then g.keys else g.keys + [e.0])
      && g'.lists == g.lists[e.0 := if dedup && e.1 in list then list else list + [e.1]]
    ensures GroupedAs(entries + [e], dedup, g')
  {
    var all := entries + [e];
    assert ArtistsOf(all) == ArtistsOf(entries) + [e.0];
    assert g'.keys == Dedup(ArtistsOf(all)) by {
      DedupSnoc(ArtistsOf(entries), e.0);
    }
    var list := if e.0 in g.lists then g.lists[e.0] else [];
    assert g'.lists[e.0] == ListFor(all, dedup, e.0) by {
      if e.0 !in g.lists {
        AlbumsOfAbsent(entries, e.0);
      }
      SameArtist(entries, dedup, list, e);
    }
    OtherArtists(entries, dedup, g, e, g');
  }

  /** The lists of every other artist are untouched, as the entries they reflect. */
  lemma OtherArtists(entries: seq<Entry>, dedup: bool, g: Grouped, e: Entry, g': Grouped)
    requires forall a :: a in g.lists ==> g.lists[a] == ListFor(entries, dedup, a)
    requires forall a :: a in g'.lists && a != e.0 ==> a in g.lists && g'.lists[a] == g.lists[a]
    ensures forall a :: a in g'.lists && a != e.0 ==> g'.lists[a] == ListFor(entries + [e], dedup, a)
  {
    forall a | a in g'.lists && a != e.0
      ensures g'.lists[a] == ListFor(entries + [e], dedup, a)
    {
      AlbumsOfSnoc(entries, e, a);
      assert AlbumsOf(entries + [e], a) == AlbumsOf(entries, a);
      assert ListFor(entries + [e], dedup, a) == ListFor(entries, dedup, a);
    }
  }

  /** The list of the entry's own artist after the append. */
  lemma SameArtist(entries: seq<Entry>, dedup: bool, list: seq<(string, string)>, e: Entry)
    requires list == ListFor(entries, dedup, e.0)
    ensures (if dedup && e.1 in list then list else list + [e.1]) == ListFor(entries + [e], dedup, e.0)
  {
    AlbumsOfSnoc(entries, e, e.0);
    DedupSnoc(AlbumsOf(entries, e.0), e.1);
  }
}
