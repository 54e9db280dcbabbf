/**
 * `plan_file_renames` of Python/AudioOrganizer.py: every file with a track
 * and a title gets a name built from its disc, track, artist and title,
 * shortened in two steps when the folder-relative path would exceed 230
 * UTF-8 bytes, and made unique within the folder, ignoring ASCII case, by a
 * " (k)" counter. The plan is kept here as pairs of names inside the
 * album folder; `InFolder` turns it into the path pairs the organiser runs.
 */
module AudioFiles {
  import opened Wrappers
  import opened Text
  import opened Suffix
  import opened Sanitize
  import opened AudioMeta
  import AudioWarnings

  const PathLengthLimitBytes: nat := 230

  predicate IsSign(c: char) { c == '+' || c == '-' }

  /** `s.zfill(2)`: padded with '0' to two characters, the zeros going after a leading sign. */
  function ZFill2(s: string): (r: string)
    ensures |r| == if |s| >= 2 then |s| else 2
    ensures |s| >= 2 ==> r == s
    ensures |s| < 2 && !(|s| == 1 && IsSign(s[0])) ==> EndsWith(r, s) && forall k :: 0 <= k < 2 - |s| ==> r[k] == '0'
    ensures |s| == 1 && IsSign(s[0]) ==> r[0] == s[0] && r[1] == '0'
  {
    if |s| >= 2 then s
    else if |s| == 1 && IsSign(s[0]) then [s[0], '0']
    else if |s| == 1 then ['0', s[0]]
    else "00"
  }

  /** A one-digit track is padded to two digits. */
  lemma ZFillDigit(s: string)
    requires |s| == 1 && IsDigit(s[0])
    ensures ZFill2(s) == ['0', s[0]]
  {
  }

  /** A file the planner renames: it has a track and a title tag. */
  predicate Eligible(md: FileMeta) { md.track.Some? && md.title.Some? }

  /** `any(md.get('disc') for md in files)`. */
  predicate HasDisc(files: seq<FileMeta>) { exists k :: 0 <= k < |files| && files[k].disc.Some? }

  /** `f"{disc}-{track}"` when the folder has disc tags, else the padded track alone (`str(None)` for a file without one). */
  function NumberPart(md: FileMeta, hasDisc: bool): string
    requires md.track.Some?
  {
    var t := ZFill2(md.track.value);
    if hasDisc then (if md.disc.Some? then md.disc.value else "None") + "-" + t else t
  }

  /** The joined `final_folder_name/name` fits in 230 UTF-8 bytes. */
  predicate Fits(finalName: string, name: string) {
    Utf8Length(PathJoin(finalName, name)) <= PathLengthLimitBytes
  }

  /**
   * The length cascade: the full name when it fits, else the name without
   * the artist when that fits, else the number alone, whatever its length.
   */
  function ChooseBase(finalName: string, ext: string, full: string, short: string, number: string): (b: string)
    ensures Fits(finalName, full + ext) ==> b == full
    ensures !Fits(finalName, full + ext) && Fits(finalName, short + ext) ==> b == short
    ensures !Fits(finalName, full + ext) && !Fits(finalName, short + ext) ==> b == number
  {
    var b1 := if Fits(finalName, full + ext) then full else short;
    if Fits(finalName, b1 + ext) then b1 else number
  }

  /** The chosen base fits, unless it is the last resort. */
  lemma ChooseBaseFits(finalName: string, ext: string, full: string, short: string, number: string)
    ensures var b := ChooseBase(finalName, ext, full, short, number);
      Fits(finalName, b + ext) || b == number
  {
  }

  /** For a folder name without '/', the measured length is the folder's bytes, one separator and the name's bytes. */
  lemma FitsBytes(finalName: string, name: string)
    requires finalName != "" && '/' !in finalName
    requires !StartsWith(name, "/")
    ensures Fits(finalName, name) <==> Utf8Length(finalName) + 1 + Utf8Length(name) <= PathLengthLimitBytes
  {
    assert !EndsWith(finalName, "/") by {
      assert finalName[|finalName| - 1] in finalName;
    }
    Utf8LengthAppend(finalName, "/");
    Utf8LengthAppend(finalName + "/", name);
  }

  /** The base name `plan_file_renames` settles on for one file before collisions. */
  function PreferredBase(md: FileMeta, hasDisc: bool, finalName: string): string
    requires Eligible(md)
  {
    var title := SanitizeFilename(md.title.value, true);
    var artist := if md.artist.Some? then SanitizeFilename(md.artist.value, true) else "";
    var number := NumberPart(md, hasDisc);
    var short := number + " - " + title;
    var full := if artist != "" then number + " " + artist + " - " + title else short;
    ChooseBase(finalName, Ext(md.filename), full, short, number)
  }

  /**
   * `name` is what the collision loop yields: the plain name when its
   * lower-cased form is not taken, otherwise the first " (c)" variant whose
   * lower-cased form is not taken, every earlier counter being taken.
   */
  ghost predicate FirstFree(name: string, base: string, ext: string, taken: set<string>) {
    && Lower(name) !in taken
    && (|| name == base + ext
        || exists c: nat :: c >= 1 && name == Suffixed(base, c, ext) && Lower(base + ext) in taken
             && forall j :: 1 <= j < c ==> Lower(Suffixed(base, j, ext)) in taken)
  }

  /** The `while new_filename.lower() in proposed_new_filenames` loop. */
  method Disambiguate(base: string, ext: string, taken: set<string>) returns (name: string)
    ensures name == Disambiguated(base, ext, taken)
    ensures FirstFree(name, base, ext, taken)
  {
    name := base + ext;
    var counter: nat := 1;
    if Lower(name) !in taken {
      return;
    }
    name := Suffixed(base, counter, ext);
    counter := counter + 1;
    assert Tried(Lower(base), Lower(ext), 1) == {};
    while Lower(name) in taken
      invariant counter >= 2
      invariant name == Suffixed(base, counter - 1, ext)
      invariant forall j :: 1 <= j < counter - 1 ==> Lower(Suffixed(base, j, ext)) in taken
      invariant Tried(Lower(base), Lower(ext), counter - 1) <= taken
      invariant Disambiguated(base, ext, taken) == FreeFrom(base, ext, taken, counter - 1)
      decreases |taken| + 1 - counter
    {
      LowerSuffixed(base, counter - 1, ext);
      forall x | x in Tried(Lower(base), Lower(ext), counter) ensures x in taken {
        var j :| 1 <= j < counter && x == Suffixed(Lower(base), j, Lower(ext));
        LowerSuffixed(base, j, ext);
      }
      TriesBounded(Lower(base), Lower(ext), counter, taken);
      name := Suffixed(base, counter, ext);
      counter := counter + 1;
    }
  }

  /** An eligible file with the base name and extension the planner starts from. */
  datatype Candidate = Candidate(filename: string, base: string, ext: string)

  /** The candidates of a folder's files, in file order. */
  function Candidates(files: seq<FileMeta>, finalName: string): seq<Candidate> {
    var hasDisc := HasDisc(files);
    AudioWarnings.Collect(files, (md: FileMeta) =>
      if Eligible(md) then Some(Candidate(md.filename, PreferredBase(md, hasDisc, finalName), Ext(md.filename))) else None)
  }

  /** A candidate exactly when some eligible file has that name, preferred base and extension. */
  lemma CandidatesMembers(files: seq<FileMeta>, finalName: string, c: Candidate)
    ensures c in Candidates(files, finalName) <==>
      exists k :: 0 <= k < |files| && Eligible(files[k]) && c.filename == files[k].filename
        && c.base == PreferredBase(files[k], HasDisc(files), finalName) && c.ext == Ext(files[k].filename)
  {
    var hasDisc := HasDisc(files);
    var f := (md: FileMeta) =>
      if Eligible(md) then Some(Candidate(md.filename, PreferredBase(md, hasDisc, finalName), Ext(md.filename))) else None;
    AudioWarnings.CollectMembers(files, f, c);
  }

  /** A name the planner can give to a candidate: its base and extension, possibly with a counter. */
  ghost predicate NameFor(c: Candidate, name: string) {
    name == c.base + c.ext || exists n: nat :: n >= 1 && name == Suffixed(c.base, n, c.ext)
  }

  /** The rename pair `e` comes from a candidate of `cands`. */
  ghost predicate Planned(cands: seq<Candidate>, e: (string, string)) {
    exists k :: 0 <= k < |cands| && e.0 == cands[k].filename && NameFor(cands[k], e.1)
  }

  /** Counters 1 .. c-1 are taken exactly when their lower-cased names are among `taken`. */
  lemma TriedLower(base: string, ext: string, c: nat, taken: set<string>)
    ensures Tried(Lower(base), Lower(ext), c) <= taken <==>
      forall j :: 1 <= j < c ==> Lower(Suffixed(base, j, ext)) in taken
  {
    forall j | 1 <= j < c ensures Lower(Suffixed(base, j, ext)) == Suffixed(Lower(base), j, Lower(ext)) {
      LowerSuffixed(base, j, ext);
    }
    if forall j :: 1 <= j < c ==> Lower(Suffixed(base, j, ext)) in taken {
      forall x | x in Tried(Lower(base), Lower(ext), c) ensures x in taken {
        var j :| 1 <= j < c && x == Suffixed(Lower(base), j, Lower(ext));
      }
    }
  }

  /** The collision loop from counter `c` on, the names of the counters before it being taken. */
  ghost function FreeFrom(base: string, ext: string, taken: set<string>, c: nat): string
    requires c >= 1 && Tried(Lower(base), Lower(ext), c) <= taken
    decreases |taken| + 1 - c
  {
    TriesBounded(Lower(base), Lower(ext), c, taken);
    var name := Suffixed(base, c, ext);
    if Lower(name) !in taken then name
    else
      FreeFromNext(base, ext, taken, c);
      FreeFrom(base, ext, taken, c + 1)
  }

  /** When counter `c` is taken too, the counters up to `c` are. */
  lemma FreeFromNext(base: string, ext: string, taken: set<string>, c: nat)
    requires c >= 1 && Tried(Lower(base), Lower(ext), c) <= taken
    requires Lower(Suffixed(base, c, ext)) in taken
    ensures Tried(Lower(base), Lower(ext), c + 1) <= taken
    ensures c + 1 <= |taken| + 1
  {
    LowerSuffixed(base, c, ext);
    TriedSnoc(Lower(base), Lower(ext), c + 1);
    TriesBounded(Lower(base), Lower(ext), c + 1, taken);
  }

  /** From counter `c` on, the loop ends at a free counter with every counter before it taken. */
  lemma {:induction false} FreeFromFree(base: string, ext: string, taken: set<string>, c: nat)
    requires c >= 1 && Tried(Lower(base), Lower(ext), c) <= taken
    ensures var name := FreeFrom(base, ext, taken, c);
      && Lower(name) !in taken
      && exists k: nat :: k >= c && name == Suffixed(base, k, ext) && Tried(Lower(base), Lower(ext), k) <= taken
    decreases |taken| + 1 - c
  {
    TriesBounded(Lower(base), Lower(ext), c, taken);
    if Lower(Suffixed(base, c, ext)) in taken {
      FreeFromNext(base, ext, taken, c);
      FreeFromFree(base, ext, taken, c + 1);
    }
  }

  /** The name the collision loop settles on for `base + ext` against the lower-cased names in `taken`. */
  ghost function Disambiguated(base: string, ext: string, taken: set<string>): string {
    if Lower(base + ext) !in taken then base + ext
    else
      assert Tried(Lower(base), Lower(ext), 1) == {};
      FreeFrom(base, ext, taken, 1)
  }

  /** The settled name is the first free one. */
  lemma DisambiguatedFirstFree(base: string, ext: string, taken: set<string>)
    ensures FirstFree(Disambiguated(base, ext, taken), base, ext, taken)
  {
    if Lower(base + ext) in taken {
      assert Tried(Lower(base), Lower(ext), 1) == {};
      FreeFromFree(base, ext, taken, 1);
      var name := FreeFrom(base, ext, taken, 1);
      var k: nat :| k >= 1 && name == Suffixed(base, k, ext) && Tried(Lower(base), Lower(ext), k) <= taken;
      TriedLower(base, ext, k, taken);
    }
  }

  /** The loop's outcome is the only name `FirstFree` admits. */
  lemma FirstFreeUnique(a: string, b: string, base: string, ext: string, taken: set<string>)
    requires FirstFree(a, base, ext, taken) && FirstFree(b, base, ext, taken)
    ensures a == b
  {
    if a != base + ext && b != base + ext {
      var i: nat :| i >= 1 && a == Suffixed(base, i, ext) && forall j :: 1 <= j < i ==> Lower(Suffixed(base, j, ext)) in taken;
      var k: nat :| k >= 1 && b == Suffixed(base, k, ext) && forall j :: 1 <= j < k ==> Lower(Suffixed(base, j, ext)) in taken;
      assert !(i < k) && !(k < i);
    }
  }

  /**
   * The names the loop of `plan_file_renames` gives the candidates, in order:
   * each the first free one against `taken` and the names given before it,
   * whether the file is renamed or keeps its name.
   */
  ghost function Chosen(cands: seq<Candidate>, taken: set<string>): (r: seq<string>)
    ensures |r| == |cands|
  {
    if |cands| == 0 then []
    else
      var name := Disambiguated(cands[0].base, cands[0].ext, taken);
      [name] + Chosen(cands[1..], taken + {Lower(name)})
  }

  /** The lower-cased names of `names`. */
  ghost function LowerAll(names: seq<string>): set<string> {
    set i | 0 <= i < |names| :: Lower(names[i])
  }

  /** The rename pairs, in candidate order: a candidate with its new name when that differs from its current one. */
  function Renames(cands: seq<Candidate>, names: seq<string>): (plan: seq<(string, string)>)
    requires |names| == |cands|
  {
    if |cands| == 0 then []
    else (if cands[0].filename != names[0] then [(cands[0].filename, names[0])] else []) + Renames(cands[1..], names[1..])
  }

  /** The plan `plan_file_renames` builds from the candidates. */
  ghost function ResolveSpec(cands: seq<Candidate>): seq<(string, string)> {
    Renames(cands, Chosen(cands, {}))
  }

  lemma LowerAllCons(name: string, names: seq<string>)
    ensures LowerAll([name] + names) == {Lower(name)} + LowerAll(names)
  {
    var s := [name] + names;
    forall x | x in LowerAll(s) ensures x in {Lower(name)} + LowerAll(names) {
      var i :| 0 <= i < |s| && x == Lower(s[i]);
      if i > 0 {
        assert names[i - 1] == s[i];
      }
    }
    forall x | x in LowerAll(names) ensures x in LowerAll(s) {
      var i :| 0 <= i < |names| && x == Lower(names[i]);
      assert s[i + 1] == names[i];
    }
    assert s[0] == name;
  }

  /** Each candidate gets the first free name against `taken` and the lower-cased names given to the candidates before it. */
  lemma {:induction false} ChosenFirstFree(cands: seq<Candidate>, taken: set<string>, k: nat)
    requires k < |cands|
    ensures var names := Chosen(cands, taken);
      FirstFree(names[k], cands[k].base, cands[k].ext, taken + LowerAll(names[..k]))
  {
    var names := Chosen(cands, taken);
    var name := names[0];
    DisambiguatedFirstFree(cands[0].base, cands[0].ext, taken);
    if k > 0 {
      var rest := Chosen(cands[1..], taken + {Lower(name)});
      ChosenFirstFree(cands[1..], taken + {Lower(name)}, k - 1);
      assert names[k] == rest[k - 1];
      assert names[..k] == [name] + rest[..k - 1];
      LowerAllCons(name, rest[..k - 1]);
    } else {
      assert LowerAll(names[..0]) == {};
    }
  }

  /** The names given are distinct ignoring case, and none was taken beforehand. */
  lemma ChosenDistinct(cands: seq<Candidate>, taken: set<string>, i: nat, j: nat)
    requires i < j < |cands|
    ensures var names := Chosen(cands, taken);
      Lower(names[i]) != Lower(names[j]) && Lower(names[i]) !in taken
  {
    var names := Chosen(cands, taken);
    ChosenFirstFree(cands, taken, i);
    ChosenFirstFree(cands, taken, j);
    assert Lower(names[i]) in LowerAll(names[..j]) by {
      assert names[..j][i] == names[i];
    }
  }

  /** A pair is planned exactly when it is some candidate with its new name, and that name differs from the current one. */
  lemma {:induction false} RenamesMembers(cands: seq<Candidate>, names: seq<string>, e: (string, string))
    requires |names| == |cands|
    ensures e in Renames(cands, names) <==>
      exists k :: 0 <= k < |cands| && cands[k].filename != names[k] && e == (cands[k].filename, names[k])
  {
    if |cands| > 0 {
      RenamesMembers(cands[1..], names[1..], e);
      if exists k :: 0 <= k < |cands| && cands[k].filename != names[k] && e == (cands[k].filename, names[k]) {
        var k :| 0 <= k < |cands| && cands[k].filename != names[k] && e == (cands[k].filename, names[k]);
        if k > 0 {
          assert cands[1..][k - 1] == cands[k] && names[1..][k - 1] == names[k];
        }
      }
      if exists k :: 0 <= k < |cands| - 1 && cands[1..][k].filename != names[1..][k] && e == (cands[1..][k].filename, names[1..][k]) {
        var k :| 0 <= k < |cands| - 1 && cands[1..][k].filename != names[1..][k] && e == (cands[1..][k].filename, names[1..][k]);
        assert cands[k + 1] == cands[1..][k] && names[k + 1] == names[1..][k];
      }
    }
  }

  /**
   * No planned new name equals, ignoring case, the name of a candidate
   * that keeps its name: the loop reserves kept names too.
   */
  lemma NoClashWithKept(cands: seq<Candidate>, e: (string, string), k: nat)
    requires k < |cands| && cands[k].filename == Chosen(cands, {})[k]
    requires e in ResolveSpec(cands)
    ensures Lower(e.1) != Lower(cands[k].filename)
  {
    var names := Chosen(cands, {});
    RenamesMembers(cands, names, e);
    var l :| 0 <= l < |cands| && cands[l].filename != names[l] && e == (cands[l].filename, names[l]);
    assert l != k;
    KeptApart(cands, l, k);
  }

  /** Two different candidates get names apart ignoring case. */
  lemma KeptApart(cands: seq<Candidate>, l: nat, k: nat)
    requires l < |cands| && k < |cands| && l != k
    ensures Lower(Chosen(cands, {})[l]) != Lower(Chosen(cands, {})[k])
  {
    if l < k {
      ChosenDistinct(cands, {}, l, k);
    } else {
      ChosenDistinct(cands, {}, k, l);
    }
  }

  /** The new names of a plan are pairwise distinct ignoring case. */
  ghost predicate NewNamesApart(plan: seq<(string, string)>) {
    forall i, j :: 0 <= i < j < |plan| ==> Lower(plan[i].1) != Lower(plan[j].1)
  }

  /** The planned new names are pairwise distinct ignoring case. */
  lemma {:induction false} RenamesDistinct(cands: seq<Candidate>, taken: set<string>)
    ensures NewNamesApart(Renames(cands, Chosen(cands, taken)))
  {
    if |cands| > 0 {
      var names := Chosen(cands, taken);
      var taken' := taken + {Lower(names[0])};
      var rest := Chosen(cands[1..], taken');
      assert names[1..] == rest;
      RenamesDistinct(cands[1..], taken');
      var tail := Renames(cands[1..], rest);
      forall e | e in tail ensures Lower(e.1) != Lower(names[0]) {
        RenamesMembers(cands[1..], rest, e);
        var l :| 0 <= l < |cands| - 1 && e == (cands[1..][l].filename, rest[l]);
        assert rest[l] == names[l + 1];
        ChosenDistinct(cands, taken, 0, l + 1);
      }
      var head := if cands[0].filename != names[0] then [(cands[0].filename, names[0])] else [];
      var plan := head + tail;
      assert Renames(cands, names) == plan;
      forall i, j | 0 <= i < j < |plan| ensures Lower(plan[i].1) != Lower(plan[j].1) {
        if cands[0].filename != names[0] {
          assert plan[j] == tail[j - 1] && tail[j - 1] in tail;
          if i == 0 {
            assert plan[0].1 == names[0];
          } else {
            assert plan[i] == tail[i - 1];
            assert Lower(tail[i - 1].1) != Lower(tail[j - 1].1);
          }
        } else {
          assert plan == tail;
        }
      }
    }
  }

  /** A first free name is one of the candidate's names. */
  lemma FirstFreeNameFor(c: Candidate, name: string, taken: set<string>)
    requires FirstFree(name, c.base, c.ext, taken)
    ensures NameFor(c, name)
  {
  }

  /** Every pair renames a candidate to a name of its own that differs from its current one. */
  lemma RenamesPlanned(cands: seq<Candidate>, i: nat)
    requires i < |ResolveSpec(cands)|
    ensures var e := ResolveSpec(cands)[i]; e.0 != e.1 && Planned(cands, e)
  {
    var names := Chosen(cands, {});
    var e := ResolveSpec(cands)[i];
    assert e in Renames(cands, names);
    RenamesMembers(cands, names, e);
    var l :| 0 <= l < |cands| && cands[l].filename != names[l] && e == (cands[l].filename, names[l]);
    ChosenFirstFree(cands, {}, l);
    FirstFreeNameFor(cands[l], names[l], LowerAll(names[..l]));
  }

  /** A candidate none of whose names is its current one is renamed. */
  lemma RenamesComplete(cands: seq<Candidate>, k: nat)
    requires k < |cands| && !NameFor(cands[k], cands[k].filename)
    ensures exists i :: 0 <= i < |ResolveSpec(cands)| && ResolveSpec(cands)[i].0 == cands[k].filename
  {
    var names := Chosen(cands, {});
    ChosenFirstFree(cands, {}, k);
    FirstFreeNameFor(cands[k], names[k], LowerAll(names[..k]));
    assert cands[k].filename != names[k];
    RenamesMembers(cands, names, (cands[k].filename, names[k]));
    var plan := Renames(cands, names);
    assert (cands[k].filename, names[k]) in plan;
    var i :| 0 <= i < |plan| && plan[i] == (cands[k].filename, names[k]);
    assert plan == ResolveSpec(cands) && plan[i].0 == cands[k].filename;
  }

  /** What the plan of the candidates promises: the facts `PlanFileRenames` states, derived from `ResolveSpec`. */
  lemma ResolveSpecFacts(cands: seq<Candidate>)
    ensures var plan := ResolveSpec(cands);
      && |plan| <= |cands|
      && (forall i :: 0 <= i < |plan| ==> plan[i].0 != plan[i].1)
      && (forall i, j :: 0 <= i < j < |plan| ==> Lower(plan[i].1) != Lower(plan[j].1))
      && (forall i :: 0 <= i < |plan| ==> Planned(cands, plan[i]))
      && (forall k :: 0 <= k < |cands| && !NameFor(cands[k], cands[k].filename) ==>
            exists i :: 0 <= i < |plan| && plan[i].0 == cands[k].filename)
  {
    RenamesLength(cands, Chosen(cands, {}));
    RenamesDistinct(cands, {});
    forall i | 0 <= i < |ResolveSpec(cands)| ensures ResolveSpec(cands)[i].0 != ResolveSpec(cands)[i].1 && Planned(cands, ResolveSpec(cands)[i]) {
      RenamesPlanned(cands, i);
    }
    forall k | 0 <= k < |cands| && !NameFor(cands[k], cands[k].filename)
      ensures exists i :: 0 <= i < |ResolveSpec(cands)| && ResolveSpec(cands)[i].0 == cands[k].filename
    {
      RenamesComplete(cands, k);
    }
  }

  lemma {:induction false} RenamesLength(cands: seq<Candidate>, names: seq<string>)
    requires |names| == |cands|
    ensures |Renames(cands, names)| <= |cands|
  {
    if |cands| > 0 {
      RenamesLength(cands[1..], names[1..]);
    }
  }

  /**
   * The loop of `plan_file_renames` over the candidates: each gets the
   * first free " (k)" variant of its name against the lower-cased names
   * given so far, and is planned when that differs from its current name.
   */
  method Resolve(cands: seq<Candidate>) returns (plan: seq<(string, string)>)
    ensures plan == ResolveSpec(cands)
  {
    plan := [];
    var proposed: set<string> := {};
    var i := 0;
    while i < |cands|
      invariant 0 <= i <= |cands|
      invariant ResolvedSoFar(cands, i, plan, proposed)
    {
      plan, proposed := ResolveTurn(cands, i, plan, proposed);
      i := i + 1;
    }
    assert cands[i..] == [];
  }

  /** After `i` candidates: the plan so far followed by the plan of the rest against the names given is the whole plan. */
  ghost predicate ResolvedSoFar(cands: seq<Candidate>, i: nat, plan: seq<(string, string)>, proposed: set<string>)
    requires i <= |cands|
  {
    ResolveSpec(cands) == plan + Renames(cands[i..], Chosen(cands[i..], proposed))
  }

  /** One turn of `plan_file_renames`'s loop, for candidate `i`: its name is settled and reserved, and the pair is planned when the name changes. */
  method ResolveTurn(cands: seq<Candidate>, i: nat, plan: seq<(string, string)>, proposed: set<string>)
    returns (plan': seq<(string, string)>, proposed': set<string>)
    requires i < |cands| && ResolvedSoFar(cands, i, plan, proposed)
    ensures ResolvedSoFar(cands, i + 1, plan', proposed')
  {
    var c := cands[i];
    var name := Disambiguate(c.base, c.ext, proposed);
    ResolveStep(cands, i, proposed, name);
    proposed' := proposed + {Lower(name)};
    var head := if c.filename != name then [(c.filename, name)] else [];
    plan' := plan + head;
    ghost var rest := Renames(cands[i + 1..], Chosen(cands[i + 1..], proposed'));
    assert plan + (head + rest) == plan' + rest;
  }

  /** One turn of the loop: the next candidate's name and pair come first in the rest of the spec. */
  lemma ResolveStep(cands: seq<Candidate>, i: nat, proposed: set<string>, name: string)
    requires i < |cands| && name == Disambiguated(cands[i].base, cands[i].ext, proposed)
    ensures var c := cands[i];
      Renames(cands[i..], Chosen(cands[i..], proposed)) ==
        (if c.filename != name then [(c.filename, name)] else [])
        + Renames(cands[i + 1..], Chosen(cands[i + 1..], proposed + {Lower(name)}))
  {
    assert cands[i..][1..] == cands[i + 1..];
    var names := Chosen(cands[i..], proposed);
    assert names[1..] == Chosen(cands[i + 1..], proposed + {Lower(name)});
  }

  /**
   * `plan_file_renames(info, final_folder_name)` as (old name, new name)
   * pairs: nothing for a folder mixing files with and without disc tags,
   * otherwise the resolution of its candidates.
   */
  method PlanFileRenames(files: seq<FileMeta>, finalName: string) returns (plan: seq<(string, string)>)
    ensures plan == FilePlan(files, finalName)
    ensures AudioWarnings.MixedDisc(files) ==> plan == []
    ensures |plan| <= |files|
    ensures forall i :: 0 <= i < |plan| ==> plan[i].0 != plan[i].1
    ensures forall i, j :: 0 <= i < j < |plan| ==> Lower(plan[i].1) != Lower(plan[j].1)
    ensures forall i :: 0 <= i < |plan| ==> Planned(Candidates(files, finalName), plan[i])
    ensures !AudioWarnings.MixedDisc(files) ==>
      var cands := Candidates(files, finalName);
      forall k :: 0 <= k < |cands| && !NameFor(cands[k], cands[k].filename) ==>
        exists i :: 0 <= i < |plan| && plan[i].0 == cands[k].filename
  {
    if AudioWarnings.MixedDisc(files) {
      return [];
    }
    plan := Resolve(Candidates(files, finalName));
    ResolveSpecFacts(Candidates(files, finalName));
  }

  /** The plan `plan_file_renames` returns for the records `files` of a folder named `finalName`. */
  ghost function FilePlan(files: seq<FileMeta>, finalName: string): seq<(string, string)> {
    if AudioWarnings.MixedDisc(files) then [] else ResolveSpec(Candidates(files, finalName))
  }

  /** The plan as paths: `(os.path.join(path, old), os.path.join(path, new))`. */
  function InFolder(path: string, plan: seq<(string, string)>): (r: seq<(string, string)>)
    ensures |r| == |plan|
    ensures forall i :: 0 <= i < |r| ==> r[i] == (PathJoin(path, plan[i].0), PathJoin(path, plan[i].1))
  {
    if |plan| == 0 then []
    else [(PathJoin(path, plan[0].0), PathJoin(path, plan[0].1))] + InFolder(path, plan[1..])
  }
}
