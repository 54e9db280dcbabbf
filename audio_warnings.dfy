/**
 * The warning rules of Python/AudioOrganizer.py: `check_cover_art`,
 * `check_track_gaps`, `check_missing_tags`, `check_inconsistent_album_tags`,
 * `remove_redundant_disc_tags` and the inline rules of the planning loop
 * (zero metadata, invalid year, disc consistency, duplicate tracks). Each
 * check is a loop whose result is characterised, warning by warning, by a
 * condition on the folder's file records.
 */
module AudioWarnings {
  import opened Wrappers
  import opened Text
  import opened AudioMeta

  datatype Warning =
    | NoImage | ZeroMetadata | InvalidYear
    | TrackStart | TrackGap
    | MultipleCovers | InconsistentCovers | MissingCover
    | MissingTitle | MissingArtist | MissingAlbum | MissingAlbumArtist
    | InconsistentAlbum | InconsistentDisc | RedundantDisc | DuplicateTrack

  /** The tag printed for a warning. */
  function Tag(w: Warning): (t: string)
    ensures |t| > 2 && t[0] == '[' && t[|t| - 1] == ']'
  {
    match w
    case NoImage => "[No Image]"
    case ZeroMetadata => "[Zero Metadata]"
    case InvalidYear => "[Invalid Year]"
    case TrackStart => "[Track Numbering Start]"
    case TrackGap => "[Track Gap]"
    case MultipleCovers => "[Multiple Covers]"
    case InconsistentCovers => "[Inconsistent Covers]"
    case MissingCover => "[Missing Cover]"
    case MissingTitle => "[Missing Title]"
    case MissingArtist => "[Missing Artist]"
    case MissingAlbum => "[Missing Album]"
    case MissingAlbumArtist => "[Missing Album Artist]"
    case InconsistentAlbum => "[Inconsistent Album]"
    case InconsistentDisc => "[Inconsistent Disc #]"
    case RedundantDisc => "[Redundant Disc #]"
    case DuplicateTrack => "[Duplicate Track]"
  }

  /** Different warnings print different tags, so the printed set is the warning set. */
  lemma TagInjective(a: Warning, b: Warning)
    requires Tag(a) == Tag(b)
    ensures a == b
  {
    var ta, tb := Tag(a), Tag(b);
    assert |ta| == |tb|;
    assert ta[1] == tb[1] && ta[|ta| - 2] == tb[|tb| - 2];
    if |ta| > 10 {
      assert ta[2] == tb[2] && ta[9] == tb[9] && ta[10] == tb[10];
    }
  }

  // ---------------------------------------------------------------------
  // The conditions the warnings stand for
  // ---------------------------------------------------------------------

  /** `md.get('track') == '0' or md.get('disc') == '0'` for some file. */
  predicate SomeZero(fs: seq<FileMeta>) {
    exists k :: 0 <= k < |fs| && (fs[k].track == Some("0") || fs[k].disc == Some("0"))
  }

  /** Some file has a non-empty invalid-year tag. */
  predicate SomeInvalidYear(fs: seq<FileMeta>) {
    exists k :: 0 <= k < |fs| && fs[k].invalidYear.Some? && fs[k].invalidYear.value != ""
  }

  predicate SomeMultipleCovers(fs: seq<FileMeta>) { exists k :: 0 <= k < |fs| && fs[k].coverCount > 1 }

  predicate SomeLacksTitle(fs: seq<FileMeta>) { exists k :: 0 <= k < |fs| && fs[k].title.None? }

  predicate SomeLacksArtist(fs: seq<FileMeta>) { exists k :: 0 <= k < |fs| && fs[k].artist.None? }

  predicate SomeLacksAlbum(fs: seq<FileMeta>) { exists k :: 0 <= k < |fs| && fs[k].album.None? }

  predicate SomeLacksAlbumArtist(fs: seq<FileMeta>) { exists k :: 0 <= k < |fs| && fs[k].albumartist.None? }

  // ---------------------------------------------------------------------
  // The rule of each check: which of its warnings fire on which records
  // ---------------------------------------------------------------------

  /** The rules written inline in the planning loop. */
  ghost predicate InlineRule(y: Warning, fs: seq<FileMeta>, hasImages: bool) {
    match y
    case NoImage => !hasImages
    case ZeroMetadata => SomeZero(fs)
    case InvalidYear => SomeInvalidYear(fs)
    case _ => false
  }

  /** `check_track_gaps`. */
  ghost predicate GapRule(y: Warning, fs: seq<FileMeta>) {
    match y
    case TrackStart => SomeBadStart(fs)
    case TrackGap => SomeGap(fs)
    case _ => false
  }

  /** `check_cover_art`: a file with several covers, more than one distinct cover, a file without cover. */
  ghost predicate CoverRule(y: Warning, fs: seq<FileMeta>) {
    match y
    case MultipleCovers => SomeMultipleCovers(fs)
    case InconsistentCovers => |Hashes(fs)| > 1
    case MissingCover => WithArt(fs) < |fs|
    case _ => false
  }

  /** `check_missing_tags`. */
  ghost predicate MissingRule(y: Warning, fs: seq<FileMeta>) {
    match y
    case MissingTitle => SomeLacksTitle(fs)
    case MissingArtist => SomeLacksArtist(fs)
    case MissingAlbum => SomeLacksAlbum(fs)
    case MissingAlbumArtist => SomeLacksAlbumArtist(fs)
    case _ => false
  }

  /** `check_inconsistent_album_tags`. */
  ghost predicate AlbumRule(y: Warning, fs: seq<FileMeta>) {
    y == InconsistentAlbum && |AlbumSet(fs)| > 1
  }

  /** Every rule that looks at the records as the analysis produced them. */
  ghost predicate TagRule(y: Warning, info: FolderInfo) {
    InlineRule(y, info.files, info.hasImages) || GapRule(y, info.files) || CoverRule(y, info.files)
      || MissingRule(y, info.files) || AlbumRule(y, info.files)
  }

  /**
   * The disc rules: mixed presence of disc tags; one disc value everywhere,
   * reported in check-only mode; a repeated (track, disc) pair among the
   * records as they are after the disc rule (`after`).
   */
  ghost predicate DiscRule(y: Warning, before: seq<FileMeta>, after: seq<FileMeta>, checkOnly: bool) {
    match y
    case InconsistentDisc => MixedDisc(before)
    case RedundantDisc => checkOnly && UniformDisc(before)
    case DuplicateTrack => DuplicatePair(after)
    case _ => false
  }

  // ---------------------------------------------------------------------
  // check_cover_art
  // ---------------------------------------------------------------------

  /** `if hash_val:`: a present, non-empty hash. */
  predicate HasArt(md: FileMeta) { md.coverHash.Some? && md.coverHash.value != "" }

  /** The distinct cover hashes of the files. */
  ghost function Hashes(files: seq<FileMeta>): set<string> {
    set k | 0 <= k < |files| && HasArt(files[k]) :: files[k].coverHash.value
  }

  /** The number of files that carry cover art. */
  function WithArt(files: seq<FileMeta>): (n: nat)
    ensures n <= |files|
  {
    if |files| == 0 then 0
    else WithArt(files[..|files| - 1]) + (if HasArt(files[|files| - 1]) then 1 else 0)
  }

  /** The count falls short of the number of files exactly when some file has no art. */
  lemma {:induction false} WithArtAll(files: seq<FileMeta>)
    ensures WithArt(files) == |files| <==> forall k :: 0 <= k < |files| ==> HasArt(files[k])
  {
    if |files| > 0 {
      var init := files[..|files| - 1];
      WithArtAll(init);
      assert forall k :: 0 <= k < |init| ==> init[k] == files[k];
    }
  }

  lemma WithArtSnoc(files: seq<FileMeta>, i: nat)
    requires i < |files|
    ensures WithArt(files[..i + 1]) == WithArt(files[..i]) + (if HasArt(files[i]) then 1 else 0)
  {
    assert files[..i + 1][..i] == files[..i];
  }

  lemma HashesSnoc(files: seq<FileMeta>, i: nat)
    requires i < |files|
    ensures Hashes(files[..i + 1]) == Hashes(files[..i]) + (if HasArt(files[i]) then {files[i].coverHash.value} else {})
  {
    var p, q := files[..i + 1], files[..i];
    forall h | h in Hashes(p) ensures h in Hashes(q) || (HasArt(files[i]) && h == files[i].coverHash.value) {
      var k :| 0 <= k < |p| && HasArt(p[k]) && p[k].coverHash.value == h;
      if k < i {
        assert q[k] == p[k];
      }
    }
    forall h | h in Hashes(q) ensures h in Hashes(p) {
      var k :| 0 <= k < |q| && HasArt(q[k]) && q[k].coverHash.value == h;
      assert p[k] == q[k];
    }
    if HasArt(files[i]) {
      assert p[i] == files[i];
    }
  }

  method CheckCoverArt(files: seq<FileMeta>) returns (w: set<Warning>)
    ensures forall y :: y in w <==> CoverRule(y, files)
  {
    w := {};
    var hashes: set<string> := {};
    var withArt: nat := 0;
    var i := 0;
    while i < |files|
      invariant 0 <= i <= |files|
      invariant CoversSoFar(files, i, w, hashes, withArt)
    {
      w, hashes, withArt := CoverStep(files, i, w, hashes, withArt);
      i := i + 1;
    }
    assert files[..i] == files;
    if |hashes| > 1 {
      w := w + {InconsistentCovers};
    }
    if withArt < |files| {
      w := w + {MissingCover};
    }
    CoversDone(files, w, hashes, withArt);
  }

  /** The state of the cover loop after the first `i` files. */
  ghost predicate CoversSoFar(files: seq<FileMeta>, i: nat, w: set<Warning>, hashes: set<string>, withArt: nat)
    requires i <= |files|
  {
    && (MultipleCovers in w <==> exists k :: 0 <= k < i && files[k].coverCount > 1)
    && w <= {MultipleCovers}
    && hashes == Hashes(files[..i])
    && withArt == WithArt(files[..i])
  }

  /** One file of the cover loop. */
  method CoverStep(files: seq<FileMeta>, i: nat, w: set<Warning>, hashes: set<string>, withArt: nat)
    returns (w': set<Warning>, hashes': set<string>, withArt': nat)
    requires i < |files| && CoversSoFar(files, i, w, hashes, withArt)
    ensures CoversSoFar(files, i + 1, w', hashes', withArt')
  {
    var md := files[i];
    w', hashes', withArt' := w, hashes, withArt;
    if md.coverCount > 1 {
      w' := w + {MultipleCovers};
    }
    WithArtSnoc(files, i);
    if HasArt(md) {
      hashes' := hashes + {md.coverHash.value};
      withArt' := withArt + 1;
    }
    HashesSnoc(files, i);
  }

  /** After the loop and the two closing checks, the warnings are the cover rule's. */
  lemma CoversDone(files: seq<FileMeta>, w: set<Warning>, hashes: set<string>, withArt: nat)
    requires MultipleCovers in w <==> exists k :: 0 <= k < |files| && files[k].coverCount > 1
    requires w <= {MultipleCovers, InconsistentCovers, MissingCover}
    requires hashes == Hashes(files) && withArt == WithArt(files)
    requires InconsistentCovers in w <==> |hashes| > 1
    requires MissingCover in w <==> withArt < |files|
    ensures forall y :: y in w <==> CoverRule(y, files)
  {
    assert MultipleCovers in w <==> SomeMultipleCovers(files);
    forall y ensures y in w <==> CoverRule(y, files) {
      if y !in {MultipleCovers, InconsistentCovers, MissingCover} {
        assert y !in w;
      }
    }
  }

  // ---------------------------------------------------------------------
  // check_missing_tags and check_inconsistent_album_tags
  // ---------------------------------------------------------------------

  method CheckMissingTags(files: seq<FileMeta>) returns (w: set<Warning>)
    ensures forall y :: y in w <==> MissingRule(y, files)
  {
    w := {};
    var i := 0;
    while i < |files|
      invariant 0 <= i <= |files|
      invariant MissingSoFar(files, i, w)
    {
      w := MissingStep(files, i, w);
      i := i + 1;
    }
    MissingDone(files, w);
  }

  /** The warnings of the missing-tag loop after the first `i` files. */
  ghost predicate MissingSoFar(files: seq<FileMeta>, i: nat, w: set<Warning>)
    requires i <= |files|
  {
    && (MissingTitle in w <==> exists k :: 0 <= k < i && files[k].title.None?)
    && (MissingArtist in w <==> exists k :: 0 <= k < i && files[k].artist.None?)
    && (MissingAlbum in w <==> exists k :: 0 <= k < i && files[k].album.None?)
    && (MissingAlbumArtist in w <==> exists k :: 0 <= k < i && files[k].albumartist.None?)
    && w <= {MissingTitle, MissingArtist, MissingAlbum, MissingAlbumArtist}
  }

  /** One file of the missing-tag loop. */
  method MissingStep(files: seq<FileMeta>, i: nat, w: set<Warning>) returns (w': set<Warning>)
    requires i < |files| && MissingSoFar(files, i, w)
    ensures MissingSoFar(files, i + 1, w')
  {
    var md := files[i];
    w' := w;
    if md.title.None? { w' := w' + {MissingTitle}; }
    if md.artist.None? { w' := w' + {MissingArtist}; }
    if md.album.None? { w' := w' + {MissingAlbum}; }
    if md.albumartist.None? { w' := w' + {MissingAlbumArtist}; }
  }

  lemma MissingDone(files: seq<FileMeta>, w: set<Warning>)
    requires MissingSoFar(files, |files|, w)
    ensures forall y :: y in w <==> MissingRule(y, files)
  {
    forall y ensures y in w <==> MissingRule(y, files) {
      if y !in {MissingTitle, MissingArtist, MissingAlbum, MissingAlbumArtist} {
        assert y !in w;
      }
    }
  }

  /** The distinct album tags of the files. */
  function AlbumSet(files: seq<FileMeta>): set<string> {
    set k | 0 <= k < |files| && files[k].album.Some? :: files[k].album.value
  }

  function CheckInconsistentAlbumTags(files: seq<FileMeta>): (w: set<Warning>)
    ensures forall y :: y in w <==> AlbumRule(y, files)
  {
    if |AlbumSet(files)| > 1 then {InconsistentAlbum} else {}
  }

  /** A set has more than one element exactly when it holds two different ones. */
  lemma TwoElements<T>(s: set<T>)
    ensures |s| > 1 <==> exists a, b :: a in s && b in s && a != b
  {
    if |s| > 1 {
      var a :| a in s;
      assert |s - {a}| > 0;
      var b :| b in s - {a};
    }
    forall a, b | a in s && b in s && a != b ensures |s| > 1 {
      assert s == {a, b} + (s - {a, b});
    }
  }

  /** Inconsistent Album fires exactly when two files carry different album tags. */
  lemma InconsistentAlbumIff(files: seq<FileMeta>)
    ensures InconsistentAlbum in CheckInconsistentAlbumTags(files)
        <==> exists i, j :: 0 <= i < |files| && 0 <= j < |files| && files[i].album.Some? && files[j].album.Some? && files[i].album != files[j].album
  {
    var s := AlbumSet(files);
    TwoElements(s);
    if exists i, j :: 0 <= i < |files| && 0 <= j < |files| && files[i].album.Some? && files[j].album.Some? && files[i].album != files[j].album {
      var i, j :| 0 <= i < |files| && 0 <= j < |files| && files[i].album.Some? && files[j].album.Some? && files[i].album != files[j].album;
      assert files[i].album.value in s && files[j].album.value in s;
    }
  }

  // ---------------------------------------------------------------------
  // check_track_gaps
  // ---------------------------------------------------------------------

  /** The disc a file counts on: `md.get('disc') or '1'`. */
  function DiscKey(md: FileMeta): string { md.disc.GetOr("1") }

  /** The track as the gap check reads it: the part before the first '/', through `int()`; `None` when absent or not an integer. */
  function TrackNumber(md: FileMeta): Option<int> {
    if md.track.Some? then ParseInt(Split(md.track.value, '/')[0]) else None
  }

  /** The (disc, track) pair a file contributes to the gap check, if its track is an integer. */
  function TrackEntry(md: FileMeta): Option<(string, int)> {
    match TrackNumber(md)
    case None => None
    case Some(n) => Some((DiscKey(md), n))
  }

  /** The present results of `f` over `xs`, in order. */
  function Collect<A, B>(xs: seq<A>, f: A -> Option<B>): (r: seq<B>)
    ensures |r| <= |xs|
  {
    if |xs| == 0 then []
    else Collect(xs[..|xs| - 1], f) + match f(xs[|xs| - 1]) { case None => [] case Some(y) => [y] }
  }

  /** `y` is collected exactly when `f` gives it for some element. */
  lemma {:induction false} CollectMembers<A, B>(xs: seq<A>, f: A -> Option<B>, y: B)
    ensures y in Collect(xs, f) <==> exists k :: 0 <= k < |xs| && f(xs[k]) == Some(y)
  {
    if |xs| > 0 {
      var last := |xs| - 1;
      var init := xs[..last];
      CollectMembers(init, f, y);
      if y in Collect(init, f) {
        var k :| 0 <= k < |init| && f(init[k]) == Some(y);
        assert xs[k] == init[k];
      }
      if exists k :: 0 <= k < |xs| && f(xs[k]) == Some(y) {
        var k :| 0 <= k < |xs| && f(xs[k]) == Some(y);
        if k < last {
          assert init[k] == xs[k];
        }
      }
    }
  }

  /** The (disc, track) pair of every file whose track is an integer, in file order. */
  function Entries(files: seq<FileMeta>): seq<(string, int)> {
    Collect(files, TrackEntry)
  }

  /** A pair is an entry exactly when some file has that disc and that integer track. */
  lemma EntriesMembers(files: seq<FileMeta>, d: string, n: int)
    ensures (d, n) in Entries(files) <==> exists k :: 0 <= k < |files| && DiscKey(files[k]) == d && TrackNumber(files[k]) == Some(n)
  {
    CollectMembers(files, TrackEntry, (d, n));
  }

  /** The distinct track numbers on disc `d`. */
  ghost function Tracks(e: seq<(string, int)>, d: string): set<int> {
    set k | 0 <= k < |e| && e[k].0 == d :: e[k].1
  }

  /** The discs that have at least one numbered track. */
  ghost function Discs(e: seq<(string, int)>): set<string> {
    set k | 0 <= k < |e| :: e[k].0
  }

  /** The smallest track is not 1. */
  ghost predicate BadStart(t: set<int>) {
    !(1 in t && forall n :: n in t ==> n >= 1)
  }

  /** Some number between the smallest and the largest track is missing. */
  ghost predicate HasGap(t: set<int>) {
    exists a, b, n :: a in t && b in t && a < n < b && n !in t
  }

  ghost function Elems(xs: seq<int>): set<int> {
    set n | n in xs
  }

  lemma TracksSnoc(e: seq<(string, int)>, x: (string, int), d: string)
    ensures Tracks(e + [x], d) == Tracks(e, d) + (if x.0 == d then {x.1} else {})
  {
    var p := e + [x];
    forall n | n in Tracks(p, d) ensures n in Tracks(e, d) || (x.0 == d && n == x.1) {
      var k :| 0 <= k < |p| && p[k].0 == d && p[k].1 == n;
      if k < |e| {
        assert e[k] == p[k];
      }
    }
    forall n | n in Tracks(e, d) ensures n in Tracks(p, d) {
      var k :| 0 <= k < |e| && e[k].0 == d && e[k].1 == n;
      assert p[k] == e[k];
    }
    if x.0 == d {
      assert p[|e|] == x;
    }
  }

  lemma DiscsSnoc(e: seq<(string, int)>, x: (string, int))
    ensures Discs(e + [x]) == Discs(e) + {x.0}
  {
    var p := e + [x];
    forall d | d in Discs(p) ensures d in Discs(e) || d == x.0 {
      var k :| 0 <= k < |p| && p[k].0 == d;
      if k < |e| {
        assert e[k] == p[k];
      }
    }
    forall d | d in Discs(e) ensures d in Discs(p) {
      var k :| 0 <= k < |e| && e[k].0 == d;
      assert p[k] == e[k];
    }
    assert p[|e|] == x;
  }

  /** On some disc the smallest distinct track is not 1. */
  ghost predicate SomeBadStart(fs: seq<FileMeta>) {
    exists d :: d in Discs(Entries(fs)) && BadStart(Tracks(Entries(fs), d))
  }

  /** On some disc a track number between the smallest and the largest is missing. */
  ghost predicate SomeGap(fs: seq<FileMeta>) {
    exists d :: d in Discs(Entries(fs)) && HasGap(Tracks(Entries(fs), d))
  }

  method MinMax(xs: seq<int>) returns (lo: int, hi: int)
    requires |xs| > 0
    ensures lo in xs && hi in xs
    ensures forall k :: 0 <= k < |xs| ==> lo <= xs[k] <= hi
  {
    lo, hi := xs[0], xs[0];
    var i := 1;
    while i < |xs|
      invariant 1 <= i <= |xs|
      invariant lo in xs[..i] && hi in xs[..i]
      invariant forall k :: 0 <= k < i ==> lo <= xs[k] <= hi
    {
      if xs[i] < lo { lo := xs[i]; }
      if xs[i] > hi { hi := xs[i]; }
      assert xs[..i + 1] == xs[..i] + [xs[i]];
      i := i + 1;
    }
    assert xs[..i] == xs;
  }

  /** The verdict for one disc: the smallest distinct track is not 1, and the range from smallest to largest has a hole. */
  method DiscVerdict(xs: seq<int>) returns (start: bool, gap: bool)
    requires |xs| > 0
    ensures start <==> BadStart(Elems(xs))
    ensures gap <==> HasGap(Elems(xs))
  {
    var lo, hi := MinMax(xs);
    start := lo != 1;
    if !start {
      assert 1 in Elems(xs);
    }
    if start && 1 in Elems(xs) {
      assert lo < 1;
      assert lo in Elems(xs);
    }
    gap := false;
    var n := lo + 1;
    while n < hi
      invariant lo + 1 <= n <= (if lo < hi then hi else lo + 1)
      invariant gap <==> exists m :: lo < m < n && m !in xs
    {
      if n !in xs {
        gap := true;
      }
      n := n + 1;
    }
    var t := Elems(xs);
    if gap {
      var m :| lo < m < n && m !in xs;
      assert lo in t && hi in t && lo < m < hi && m !in t;
    }
    if HasGap(t) {
      var a, b, m :| a in t && b in t && a < m < b && m !in t;
      assert lo <= a && b <= hi;
      assert m !in xs;
    }
  }

  /** The first loop of `check_track_gaps`, over the files whose track parses: `tracks_by_disc`, every list non-empty and holding the disc's tracks. */
  method GroupByDisc(files: seq<FileMeta>) returns (byDisc: map<string, seq<int>>)
    ensures byDisc.Keys == Discs(Entries(files))
    ensures forall d :: d in byDisc ==> |byDisc[d]| > 0 && Elems(byDisc[d]) == Tracks(Entries(files), d)
  {
    var e := Entries(files);
    byDisc := map[];
    var i := 0;
    while i < |e|
      invariant 0 <= i <= |e|
      invariant byDisc.Keys == Discs(e[..i])
      invariant forall d :: d in byDisc ==> |byDisc[d]| > 0 && Elems(byDisc[d]) == Tracks(e[..i], d)
    {
      assert e[..i + 1] == e[..i] + [e[i]];
      byDisc := AddTrack(byDisc, e[..i], e[i].0, e[i].1);
      i := i + 1;
    }
    assert e[..i] == e;
  }

  /** One step of the grouping: `tracks_by_disc[disc_str].append(track_num)`. */
  method AddTrack(byDisc: map<string, seq<int>>, e: seq<(string, int)>, key: string, n: int)
    returns (r: map<string, seq<int>>)
    requires byDisc.Keys == Discs(e)
    requires forall d :: d in byDisc ==> |byDisc[d]| > 0 && Elems(byDisc[d]) == Tracks(e, d)
    ensures r.Keys == Discs(e + [(key, n)])
    ensures forall d :: d in r ==> |r[d]| > 0 && Elems(r[d]) == Tracks(e + [(key, n)], d)
  {
    DiscsSnoc(e, (key, n));
    forall d ensures Tracks(e + [(key, n)], d) == Tracks(e, d) + (if key == d then {n} else {}) {
      TracksSnoc(e, (key, n), d);
    }
    var old_list := if key in byDisc then byDisc[key] else [];
    assert Elems(old_list + [n]) == Elems(old_list) + {n};
    r := byDisc[key := old_list + [n]];
  }

  /** The second loop of `check_track_gaps`: the verdict of every disc. */
  method JudgeDiscs(byDisc: map<string, seq<int>>) returns (w: set<Warning>)
    requires forall d :: d in byDisc ==> |byDisc[d]| > 0
    ensures TrackStart in w <==> exists d :: d in byDisc && BadStart(Elems(byDisc[d]))
    ensures TrackGap in w <==> exists d :: d in byDisc && HasGap(Elems(byDisc[d]))
    ensures w <= {TrackStart, TrackGap}
  {
    w := {};
    var rest := byDisc.Keys;
    while rest != {}
      invariant rest <= byDisc.Keys
      invariant TrackStart in w <==> exists d :: d in byDisc.Keys - rest && BadStart(Elems(byDisc[d]))
      invariant TrackGap in w <==> exists d :: d in byDisc.Keys - rest && HasGap(Elems(byDisc[d]))
      invariant w <= {TrackStart, TrackGap}
      decreases |rest|
    {
      var d :| d in rest;
      var start, gap := DiscVerdict(byDisc[d]);
      if start { w := w + {TrackStart}; }
      if gap { w := w + {TrackGap}; }
      rest := rest - {d};
    }
  }

  method CheckTrackGaps(files: seq<FileMeta>) returns (w: set<Warning>)
    ensures forall y :: y in w <==> GapRule(y, files)
  {
    var byDisc := GroupByDisc(files);
    w := JudgeDiscs(byDisc);
    VerdictsMatch(byDisc, files, w);
  }

  /** The verdicts over the grouped lists are the verdicts over each disc's track set. */
  lemma VerdictsMatch(byDisc: map<string, seq<int>>, files: seq<FileMeta>, w: set<Warning>)
    requires byDisc.Keys == Discs(Entries(files))
    requires forall d :: d in byDisc ==> Elems(byDisc[d]) == Tracks(Entries(files), d)
    requires TrackStart in w <==> exists d :: d in byDisc && BadStart(Elems(byDisc[d]))
    requires TrackGap in w <==> exists d :: d in byDisc && HasGap(Elems(byDisc[d]))
    requires w <= {TrackStart, TrackGap}
    ensures forall y :: y in w <==> GapRule(y, files)
  {
    StartMatch(byDisc, files);
    GapMatch(byDisc, files);
    forall y ensures y in w <==> GapRule(y, files) {
      if y != TrackStart && y != TrackGap {
        assert y !in w;
      }
    }
  }

  lemma StartMatch(byDisc: map<string, seq<int>>, files: seq<FileMeta>)
    requires byDisc.Keys == Discs(Entries(files))
    requires forall d :: d in byDisc ==> Elems(byDisc[d]) == Tracks(Entries(files), d)
    ensures (exists d :: d in byDisc && BadStart(Elems(byDisc[d]))) <==> SomeBadStart(files)
  {
    SameVerdict(byDisc, Entries(files), BadStart);
  }

  lemma GapMatch(byDisc: map<string, seq<int>>, files: seq<FileMeta>)
    requires byDisc.Keys == Discs(Entries(files))
    requires forall d :: d in byDisc ==> Elems(byDisc[d]) == Tracks(Entries(files), d)
    ensures (exists d :: d in byDisc && HasGap(Elems(byDisc[d]))) <==> SomeGap(files)
  {
    SameVerdict(byDisc, Entries(files), HasGap);
  }

  /** A verdict on some grouped list is the verdict on some disc's track set. */
  lemma SameVerdict(byDisc: map<string, seq<int>>, e: seq<(string, int)>, bad: set<int> -> bool)
    requires byDisc.Keys == Discs(e)
    requires forall d :: d in byDisc ==> Elems(byDisc[d]) == Tracks(e, d)
    ensures (exists d :: d in byDisc && bad(Elems(byDisc[d]))) <==> (exists d :: d in Discs(e) && bad(Tracks(e, d)))
  {
    if exists d :: d in byDisc && bad(Elems(byDisc[d])) {
      var d :| d in byDisc && bad(Elems(byDisc[d]));
      assert d in Discs(e) && bad(Tracks(e, d));
    }
    if exists d :: d in Discs(e) && bad(Tracks(e, d)) {
      var d :| d in Discs(e) && bad(Tracks(e, d));
      assert d in byDisc && bad(Elems(byDisc[d]));
    }
  }

  // ---------------------------------------------------------------------
  // The inline rules of the planning loop
  // ---------------------------------------------------------------------

  /** Some file has disc tags and some has none: `has_disc and has_no_disc`. */
  predicate MixedDisc(files: seq<FileMeta>) {
    (exists k :: 0 <= k < |files| && files[k].disc.Some?) && (exists k :: 0 <= k < |files| && files[k].disc.None?)
  }

  /** Every file carries the same disc tag: `has_disc and not has_no_disc and len(set(all_discs)) == 1`. */
  predicate UniformDisc(files: seq<FileMeta>) {
    |files| > 0 && forall k :: 0 <= k < |files| ==> files[k].disc.Some? && files[k].disc == files[0].disc
  }

  /**
   * `remove_redundant_disc_tags`: every file whose tag could be removed on
   * disk loses its disc value; `fails` names the files where the tag was not
   * there to delete or the save raised an error.
   */
  method StripDiscTags(files: seq<FileMeta>, fails: set<string>) returns (out: seq<FileMeta>)
    ensures |out| == |files|
    ensures forall k :: 0 <= k < |files| ==>
      out[k] == if files[k].filename in fails then files[k] else files[k].(disc := None)
  {
    out := [];
    var i := 0;
    while i < |files|
      invariant 0 <= i <= |files|
      invariant |out| == i
      invariant forall k :: 0 <= k < i ==>
        out[k] == if files[k].filename in fails then files[k] else files[k].(disc := None)
    {
      var md := files[i];
      if md.filename !in fails {
        md := md.(disc := None);
      }
      out := out + [md];
      i := i + 1;
    }
  }

  /** Two files with a track share the same (track, disc) pair. */
  predicate DuplicatePair(files: seq<FileMeta>) {
    exists i, j :: 0 <= i < j < |files| && files[i].track.Some? && files[i].track == files[j].track && files[i].disc == files[j].disc
  }

  /** `any(count > 1 for count in Counter(track_disc_pairs).values())`, as a scan with a set of pairs seen. */
  method HasDuplicateTrack(files: seq<FileMeta>) returns (dup: bool)
    ensures dup <==> DuplicatePair(files)
  {
    var seen: set<(string, Option<string>)> := {};
    dup := false;
    var i := 0;
    while i < |files|
      invariant 0 <= i <= |files|
      invariant forall p :: p in seen <==> exists k :: 0 <= k < i && files[k].track == Some(p.0) && files[k].disc == p.1
      invariant dup <==> exists a, b :: 0 <= a < b < i && files[a].track.Some? && files[a].track == files[b].track && files[a].disc == files[b].disc
    {
      var md := files[i];
      if md.track.Some? {
        var p := (md.track.value, md.disc);
        if p in seen {
          var k :| 0 <= k < i && files[k].track == Some(p.0) && files[k].disc == p.1;
          assert 0 <= k < i && files[k].track.Some? && files[k].track == files[i].track && files[k].disc == files[i].disc;
          dup := true;
        }
        seen := seen + {p};
      }
      i := i + 1;
    }
  }

  /** The three rules written inline in the planning loop: no image file, a zero track or disc, an invalid year tag. */
  method InlineWarnings(info: FolderInfo) returns (w: set<Warning>)
    ensures forall y :: y in w <==> InlineRule(y, info.files, info.hasImages)
  {
    var fs := info.files;
    w := {};
    if !info.hasImages { w := w + {NoImage}; }
    if SomeZero(fs) { w := w + {ZeroMetadata}; }
    if SomeInvalidYear(fs) { w := w + {InvalidYear}; }
  }

  /** The warnings computed from the records before the disc rule. */
  method TagWarnings(info: FolderInfo) returns (w: set<Warning>)
    ensures forall y :: y in w <==> TagRule(y, info)
  {
    var fs := info.files;
    var inline := InlineWarnings(info);
    var gaps := CheckTrackGaps(fs);
    var covers := CheckCoverArt(fs);
    var missing := CheckMissingTags(fs);
    w := inline + gaps + covers + missing + CheckInconsistentAlbumTags(fs);
  }

  /**
   * The disc rules of the planning loop: a mixed folder is flagged; a folder
   * whose files all carry one disc value is flagged in check-only mode and
   * otherwise has the tag stripped; then repeated (track, disc) pairs are
   * looked for in the records as they are after the strip.
   */
  method DiscWarnings(fs: seq<FileMeta>, checkOnly: bool, stripFails: set<string>)
    returns (w: set<Warning>, files: seq<FileMeta>)
    ensures |files| == |fs|
    ensures forall k :: 0 <= k < |files| ==>
      files[k] == (if !checkOnly && UniformDisc(fs) && fs[k].filename !in stripFails then fs[k].(disc := None) else fs[k])
    ensures forall y :: y in w <==> DiscRule(y, fs, files, checkOnly)
  {
    w := {};
    files := fs;
    if MixedDisc(fs) {
      w := w + {InconsistentDisc};
    } else if UniformDisc(fs) {
      if checkOnly {
        w := w + {RedundantDisc};
      } else {
        files := StripDiscTags(fs, stripFails);
      }
    }
    var dup := HasDuplicateTrack(files);
    if dup { w := w + {DuplicateTrack}; }
  }

  /** All warnings of one folder, and its records as the file-rename planner then sees them. */
  method FolderWarnings(info: FolderInfo, checkOnly: bool, stripFails: set<string>)
    returns (w: set<Warning>, files: seq<FileMeta>)
    ensures |files| == |info.files|
    ensures forall k :: 0 <= k < |files| ==>
      files[k] == (if !checkOnly && UniformDisc(info.files) && info.files[k].filename !in stripFails then info.files[k].(disc := None) else info.files[k])
    ensures forall y :: y in w <==> TagRule(y, info) || DiscRule(y, info.files, files, checkOnly)
  {
    var tags := TagWarnings(info);
    var disc;
    disc, files := DiscWarnings(info.files, checkOnly, stripFails);
    w := tags + disc;
  }
}
