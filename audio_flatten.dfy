/**
 * The container-folder step of `organize_music_folders` in
 * Python/AudioOrganizer.py: a folder is a container when one of its
 * subfolders lists a supported audio file; the flatten decision; and
 * `flatten_container_folder`, which moves every entry of every subfolder
 * into the folder, giving an entry whose name is already present the first
 * free " (k)" variant, and then removes the emptied subfolder.
 *
 * The folder's entries are a set of names; each subfolder's listing is the
 * sequence `os.listdir` returned, and a subfolder without a listing is one
 * that could not be listed.
 */
module AudioFlatten {
  import opened Wrappers
  import opened Text
  import opened Suffix
  import opened AudioMeta

  // ---------------------------------------------------------------------
  // Container detection and the decision
  // ---------------------------------------------------------------------

  /** Subfolder `sub` could be listed and lists a supported audio file. */
  predicate HoldsAudio(contents: map<string, seq<string>>, sub: string) {
    sub in contents && exists f :: f in contents[sub] && IsAudioName(f)
  }

  /** `any(f.lower().endswith(SUPPORTED_EXTENSIONS) for f in names)`. */
  function AnyAudio(names: seq<string>): (b: bool)
    ensures b <==> exists f :: f in names && IsAudioName(f)
  {
    if |names| == 0 then false
    else IsAudioName(names[0]) || AnyAudio(names[1..])
  }

  /**
   * The true-container test of `organize_music_folders`: the scan over the subfolders stops at the first that
   * lists an audio file; one that cannot be listed is passed over.
   */
  method IsTrueContainer(subs: seq<string>, contents: map<string, seq<string>>) returns (found: bool)
    ensures found <==> exists k :: 0 <= k < |subs| && HoldsAudio(contents, subs[k])
  {
    found := false;
    var k := 0;
    while k < |subs|
      invariant 0 <= k <= |subs|
      invariant forall j :: 0 <= j < k ==> !HoldsAudio(contents, subs[j])
    {
      if subs[k] in contents && AnyAudio(contents[subs[k]]) {
        found := true;
        return;
      }
      k := k + 1;
    }
  }

  /**
   * The flatten choice of `organize_music_folders` and the prompt after it: "n" under check-only or force-no,
   * "y" under force-yes, otherwise the lower-cased answer, and "n" when
   * the prompt is cancelled (`answer` is None).
   */
  function FlattenChoice(checkOnly: bool, forceYes: bool, forceNo: bool, answer: Option<string>): string {
    if checkOnly || forceNo then "n"
    else if forceYes then "y"
    else if answer.Some? then Lower(answer.value)
    else "n"
  }

  /** A container is flattened exactly when neither check-only nor force-no is set and force-yes is set or the answer is "y" in any case. */
  lemma FlattenIff(checkOnly: bool, forceYes: bool, forceNo: bool, answer: Option<string>)
    ensures FlattenChoice(checkOnly, forceYes, forceNo, answer) == "y" <==>
      !checkOnly && !forceNo && (forceYes || (answer.Some? && Lower(answer.value) == "y"))
  {
  }

  /** What happens to a walked folder. */
  datatype Action = AnalyzeAsIs | FlattenFirst | SkipContainer

  /** The container branch of `organize_music_folders`: a container is flattened on "y" and skipped otherwise; any other folder is analysed as it is. */
  function ContainerAction(isContainer: bool, choice: string): (a: Action)
    ensures a == FlattenFirst <==> isContainer && choice == "y"
    ensures a == SkipContainer <==> isContainer && choice != "y"
  {
    if !isContainer then AnalyzeAsIs
    else if choice == "y" then FlattenFirst
    else SkipContainer
  }

  /** The general warning for a container that is left as it is (the `general_warnings` entry of `organize_music_folders`). */
  function ContainerWarning(parentName: string): (w: string)
    ensures StartsWith(w, "[Container Folder] '") && EndsWith(w, "' was skipped.")
  {
    "[Container Folder] '" + parentName + "' was skipped."
  }

  /** What a walked folder contributes: the listing it is analysed with, if any, and the general warning it raises, if any. */
  datatype Visit = Visit(analyzed: Option<seq<string>>, warning: Option<string>)

  /**
   * One folder of the walk in `organize_music_folders`: a folder that is no container is analysed with its own
   * listing; a flattened one is analysed with its listing after the
   * flatten, or not at all when the flatten failed; a skipped one is not
   * analysed and raises the container warning.
   */
  function VisitFolder(isContainer: bool, choice: string, flattenOk: bool, parentName: string,
                       filenames: seq<string>, afterFlatten: seq<string>): (v: Visit)
    ensures !isContainer ==> v == Visit(Some(filenames), None)
    ensures isContainer && choice == "y" ==> v.warning == None && (v.analyzed.Some? <==> flattenOk)
    ensures isContainer && choice == "y" && flattenOk ==> v.analyzed == Some(afterFlatten)
    ensures isContainer && choice != "y" ==> v == Visit(None, Some(ContainerWarning(parentName)))
  {
    match ContainerAction(isContainer, choice)
    case AnalyzeAsIs => Visit(Some(filenames), None)
    case FlattenFirst => Visit(if flattenOk then Some(afterFlatten) else None, None)
    case SkipContainer => Visit(None, Some(ContainerWarning(parentName)))
  }

  /** In check-only mode nothing a container holds is analysed, and it is reported. */
  lemma CheckOnlyVisit(forceYes: bool, forceNo: bool, answer: Option<string>, flattenOk: bool, parentName: string,
                       filenames: seq<string>, afterFlatten: seq<string>)
    ensures VisitFolder(true, FlattenChoice(true, forceYes, forceNo, answer), flattenOk, parentName, filenames, afterFlatten)
      == Visit(None, Some(ContainerWarning(parentName)))
  {
  }

  // ---------------------------------------------------------------------
  // The collision loop
  // ---------------------------------------------------------------------

  /**
   * `dest` is where `name` goes when `taken` is present: the name itself
   * when it is free, otherwise the first free "stem (k)ext".
   */
  ghost predicate FreeFor(dest: string, name: string, taken: set<string>) {
    var (stem, ext) := SplitExt(name);
    && dest !in taken
    && (|| (name !in taken && dest == name)
        || (name in taken && FirstFreeSuffix(dest, stem, ext, taken)))
  }

  /** `dest` is "stem (k)ext" for a k whose predecessors down to 1 are all taken. */
  ghost predicate FirstFreeSuffix(dest: string, stem: string, ext: string, taken: set<string>) {
    exists k: nat :: k >= 1 && dest == Suffixed(stem, k, ext) && forall j :: 1 <= j < k ==> Suffixed(stem, j, ext) in taken
  }

  /** The `while` loop of `flatten_container_folder`: the free destination of `name`. */
  method FreeName(name: string, taken: set<string>) returns (dest: string)
    ensures FreeFor(dest, name, taken)
  {
    dest := name;
    if dest !in taken {
      return;
    }
    var (stem, ext) := SplitExt(name);
    var counter: nat := 1;
    dest := Suffixed(stem, counter, ext);
    counter := counter + 1;
    while dest in taken
      invariant counter >= 2
      invariant dest == Suffixed(stem, counter - 1, ext)
      invariant Tried(stem, ext, counter - 1) <= taken
      decreases |taken| + 1 - counter
    {
      assert Tried(stem, ext, counter) == Tried(stem, ext, counter - 1) + {dest};
      TriesBounded(stem, ext, counter, taken);
      dest := Suffixed(stem, counter, ext);
      counter := counter + 1;
    }
    assert forall j :: 1 <= j < counter - 1 ==> Suffixed(stem, j, ext) in Tried(stem, ext, counter - 1);
  }

  /** The free name of an entry that is not present is the entry's own name. */
  lemma FreeForFree(dest: string, name: string, taken: set<string>)
    requires FreeFor(dest, name, taken) && name !in taken
    ensures dest == name
  {
  }

  /** The free name of a present entry is a " (k)" variant of it. */
  lemma FreeForTaken(dest: string, name: string, taken: set<string>)
    requires FreeFor(dest, name, taken) && name in taken
    ensures dest != name
    ensures exists k: nat :: k >= 1 && dest == Suffixed(SplitExt(name).0, k, SplitExt(name).1)
  {
  }

  // ---------------------------------------------------------------------
  // Flattening
  // ---------------------------------------------------------------------

  /** One `os.rename(source_path, dest_path)`: entry `name` of subfolder `sub` goes to `dest` in the folder. */
  datatype Move = Move(sub: string, name: string, dest: string)

  /** The source entries in the order the loops visit them: subfolder by subfolder, each in listing order. */
  function Sources(subs: seq<string>, contents: map<string, seq<string>>): seq<(string, string)>
    requires forall k :: 0 <= k < |subs| ==> subs[k] in contents
  {
    if |subs| == 0 then []
    else
      var last := subs[|subs| - 1];
      Sources(subs[..|subs| - 1], contents) + Entries(last, contents[last])
  }

  /** The entries of one subfolder. */
  function Entries(sub: string, names: seq<string>): (r: seq<(string, string)>)
    ensures |r| == |names|
    ensures forall j :: 0 <= j < |names| ==> r[j] == (sub, names[j])
  {
    seq(|names|, j requires 0 <= j < |names| => (sub, names[j]))
  }

  function Origins(moves: seq<Move>): (r: seq<(string, string)>)
    ensures |r| == |moves|
    ensures forall i :: 0 <= i < |moves| ==> r[i] == (moves[i].sub, moves[i].name)
  {
    seq(|moves|, i requires 0 <= i < |moves| => (moves[i].sub, moves[i].name))
  }

  ghost function Dests(moves: seq<Move>): set<string> {
    set i | 0 <= i < |moves| :: moves[i].dest
  }

  ghost function SubSet(subs: seq<string>): set<string> {
    set k | 0 <= k < |subs| :: subs[k]
  }

  /** `os.walk` lists each subfolder once, as an entry of the folder. */
  ghost predicate WalkedSubs(present: set<string>, subs: seq<string>) {
    && (forall k :: 0 <= k < |subs| ==> subs[k] in present)
    && (forall i, j :: 0 <= i < j < |subs| ==> subs[i] != subs[j])
  }

  /** The position of `x` among the subfolders, or their number when it is not one. */
  function SubIndex(subs: seq<string>, x: string): (k: nat)
    ensures k <= |subs|
    ensures k < |subs| ==> subs[k] == x
    ensures forall j :: 0 <= j < k ==> subs[j] != x
  {
    if |subs| == 0 then 0
    else if subs[0] == x then 0
    else 1 + SubIndex(subs[1..], x)
  }

  /** Subfolder `s` is found at position `s`, as `os.walk` lists each once. */
  lemma SubIndexAt(present: set<string>, subs: seq<string>, s: nat)
    requires s < |subs| && WalkedSubs(present, subs)
    ensures SubIndex(subs, subs[s]) == s
  {
  }

  /**
   * The folder as the move of the entry at `moves[i]` finds it: what it
   * listed at the start, less the subfolders removed before that entry's
   * subfolder, plus the destinations of the moves before it.
   */
  ghost function SeenBy(present: set<string>, subs: seq<string>, moves: seq<Move>, i: nat): set<string>
    requires i < |moves|
  {
    (present - SubSet(subs[..SubIndex(subs, moves[i].sub)])) + Dests(moves[..i])
  }

  /** `flatten_container_folder`'s naming for every move: each entry went to its own name if free, else to the first free " (k)" variant, against the folder at that moment. */
  ghost predicate FirstFreeDests(present: set<string>, subs: seq<string>, moves: seq<Move>) {
    forall i :: 0 <= i < |moves| ==> FreeFor(moves[i].dest, moves[i].name, SeenBy(present, subs, moves, i))
  }

  /**
   * The state while subfolder `s` is being emptied: the folder lists what
   * it listed at the start less the subfolders already removed, plus every
   * destination so far; destinations are distinct, and none is an entry
   * that was there at the start and stays, or a subfolder not yet removed.
   */
  ghost predicate FlatState(present: set<string>, subs: seq<string>, s: nat, names: set<string>, moves: seq<Move>)
    requires s <= |subs|
  {
    && names == (present - SubSet(subs[..s])) + Dests(moves)
    && (forall i, l :: 0 <= i < l < |moves| ==> moves[i].dest != moves[l].dest)
    && (forall i :: 0 <= i < |moves| ==> moves[i].dest !in present - SubSet(subs))
    && (forall i :: 0 <= i < |moves| ==> moves[i].dest !in SubSet(subs[s..]))
  }

  /** Moving one entry to its free name keeps the state. */
  method MoveEntry(present: set<string>, subs: seq<string>, s: nat, names: set<string>, moves: seq<Move>, name: string)
    returns (names': set<string>, moves': seq<Move>)
    requires s < |subs| && WalkedSubs(present, subs)
    requires FlatState(present, subs, s, names, moves)
    requires FirstFreeDests(present, subs, moves)
    ensures FlatState(present, subs, s, names', moves')
    ensures FirstFreeDests(present, subs, moves')
    ensures |moves'| == |moves| + 1
    ensures moves' == moves + [Move(subs[s], name, moves'[|moves|].dest)]
    ensures FreeFor(moves'[|moves|].dest, name, names)
  {
    var dest := FreeName(name, names);
    moves' := moves + [Move(subs[s], name, dest)];
    names' := names + {dest};
    FlatStateSnoc(present, subs, s, names, moves, Move(subs[s], name, dest));
    assert moves'[..|moves|] == moves;
    FirstFreeDestsSnoc(present, subs, s, names, moves, moves');
  }

  /** A move to a name the folder does not list keeps the state. */
  lemma FlatStateSnoc(present: set<string>, subs: seq<string>, s: nat, names: set<string>, moves: seq<Move>, m: Move)
    requires s < |subs| && WalkedSubs(present, subs)
    requires FlatState(present, subs, s, names, moves)
    requires m.dest !in names
    ensures FlatState(present, subs, s, names + {m.dest}, moves + [m])
  {
    var moves' := moves + [m];
    assert Dests(moves') == Dests(moves) + {m.dest} by {
      assert forall i :: 0 <= i < |moves| ==> moves'[i] == moves[i];
      assert moves'[|moves|] == m;
    }
    forall i, l | 0 <= i < l < |moves'| ensures moves'[i].dest != moves'[l].dest {
      if l < |moves| {
        assert moves'[i] == moves[i] && moves'[l] == moves[l];
      } else {
        assert moves[i].dest in Dests(moves);
      }
    }
  }

  /** The move added for subfolder `s` finds the folder as `names` lists it, so the earlier moves keep their free names and the new one has its own. */
  lemma FirstFreeDestsSnoc(present: set<string>, subs: seq<string>, s: nat, names: set<string>, moves: seq<Move>, moves': seq<Move>)
    requires s < |subs| && WalkedSubs(present, subs)
    requires FlatState(present, subs, s, names, moves)
    requires FirstFreeDests(present, subs, moves)
    requires |moves'| == |moves| + 1 && moves'[..|moves|] == moves && moves'[|moves|].sub == subs[s]
    requires FreeFor(moves'[|moves|].dest, moves'[|moves|].name, names)
    ensures FirstFreeDests(present, subs, moves')
  {
    forall i | 0 <= i < |moves'|
      ensures FreeFor(moves'[i].dest, moves'[i].name, SeenBy(present, subs, moves', i))
    {
      if i == |moves| {
        SubIndexAt(present, subs, s);
        assert SeenBy(present, subs, moves', i) == names;
      } else {
        assert moves'[i] == moves[i];
        assert moves'[..i] == moves[..i];
        assert SeenBy(present, subs, moves', i) == SeenBy(present, subs, moves, i);
      }
    }
  }

  /** `os.rmdir(subfolder_path)` once subfolder `s` is empty keeps the state for the next subfolder. */
  lemma RemoveSub(present: set<string>, subs: seq<string>, s: nat, names: set<string>, moves: seq<Move>)
    requires s < |subs| && WalkedSubs(present, subs)
    requires FlatState(present, subs, s, names, moves)
    ensures FlatState(present, subs, s + 1, names - {subs[s]}, moves)
  {
    assert SubSet(subs[..s + 1]) == SubSet(subs[..s]) + {subs[s]} by {
      assert subs[..s + 1] == subs[..s] + [subs[s]];
    }
    assert subs[s] in SubSet(subs[s..]) by {
      assert subs[s..][0] == subs[s];
    }
    assert SubSet(subs[s + 1..]) <= SubSet(subs[s..]) by {
      forall x | x in SubSet(subs[s + 1..]) ensures x in SubSet(subs[s..]) {
        var k :| 0 <= k < |subs[s + 1..]| && subs[s + 1..][k] == x;
        assert subs[s..][k + 1] == x;
      }
    }
  }

  /** The outcome of `flatten_container_folder`: whether it completed, the moves made, and the folder's entries afterwards. */
  datatype Flattened = Flattened(ok: bool, moves: seq<Move>, names: set<string>)

  /** No entry of `listing` in subfolder `sub` is one whose `os.rename` raises. */
  predicate MovesSucceed(sub: string, listing: seq<string>, moveFails: set<(string, string)>) {
    forall j :: 0 <= j < |listing| ==> (sub, listing[j]) !in moveFails
  }

  /** Subfolder `sub` can be listed, all its entries move, and its `os.rmdir` succeeds. */
  predicate SubSucceeds(sub: string, contents: map<string, seq<string>>, moveFails: set<(string, string)>, rmdirFails: set<string>) {
    sub in contents && MovesSucceed(sub, contents[sub], moveFails) && sub !in rmdirFails
  }

  /**
   * `flatten_container_folder`'s inner loop for subfolder `s`: every entry is moved to its free name,
   * in listing order, until a rename raises (`ok` false), which ends the
   * loop with the moves made so far.
   */
  method EmptySub(present: set<string>, subs: seq<string>, s: nat, listing: seq<string>,
                  moveFails: set<(string, string)>, names: set<string>, moves: seq<Move>)
    returns (ok: bool, names': set<string>, moves': seq<Move>)
    requires s < |subs| && WalkedSubs(present, subs)
    requires FlatState(present, subs, s, names, moves)
    requires FirstFreeDests(present, subs, moves)
    ensures FlatState(present, subs, s, names', moves')
    ensures FirstFreeDests(present, subs, moves')
    ensures ok <==> MovesSucceed(subs[s], listing, moveFails)
    ensures ok ==> Origins(moves') == Origins(moves) + Entries(subs[s], listing)
    ensures forall i :: |moves| <= i < |moves'| ==> (moves'[i].sub, moves'[i].name) !in moveFails
    ensures |moves| <= |moves'| && moves'[..|moves|] == moves
  {
    names', moves' := names, moves;
    var j := 0;
    assert listing[..0] == [];
    while j < |listing|
      invariant 0 <= j <= |listing|
      invariant EmptiedSoFar(present, subs, s, listing, moveFails, moves, j, names', moves')
    {
      if (subs[s], listing[j]) in moveFails {
        OriginsFrom(moves, moves', subs[s], listing[..j]);
        return false, names', moves';
      }
      names', moves' := EmptyStep(present, subs, s, listing, moveFails, moves, j, names', moves');
      j := j + 1;
    }
    assert listing[..j] == listing;
    OriginsFrom(moves, moves', subs[s], listing);
    ok := true;
  }

  /** The loop of `EmptySub` after the first `j` entries of `listing`: all moved, none failing. */
  ghost predicate EmptiedSoFar(present: set<string>, subs: seq<string>, s: nat, listing: seq<string>,
                               moveFails: set<(string, string)>, moves: seq<Move>, j: nat,
                               names': set<string>, moves': seq<Move>)
    requires s < |subs| && j <= |listing|
  {
    && FlatState(present, subs, s, names', moves')
    && FirstFreeDests(present, subs, moves')
    && Origins(moves') == Origins(moves) + Entries(subs[s], listing[..j])
    && (forall k :: 0 <= k < j ==> (subs[s], listing[k]) !in moveFails)
    && |moves'| == |moves| + j && moves'[..|moves|] == moves
  }

  /** One entry of `EmptySub`'s loop: the `os.rename` of `flatten_container_folder` succeeds. */
  method EmptyStep(present: set<string>, subs: seq<string>, s: nat, listing: seq<string>,
                   moveFails: set<(string, string)>, moves: seq<Move>, j: nat,
                   names': set<string>, moves': seq<Move>)
    returns (names'': set<string>, moves'': seq<Move>)
    requires s < |subs| && WalkedSubs(present, subs) && j < |listing|
    requires EmptiedSoFar(present, subs, s, listing, moveFails, moves, j, names', moves')
    requires (subs[s], listing[j]) !in moveFails
    ensures EmptiedSoFar(present, subs, s, listing, moveFails, moves, j + 1, names'', moves'')
  {
    names'', moves'' := MoveEntry(present, subs, s, names', moves', listing[j]);
    OriginsSnoc(moves, moves', moves'', subs[s], listing, j);
  }

  /** Appending the move of `listing[j]` extends the origins by that entry. */
  lemma OriginsSnoc(moves: seq<Move>, moves': seq<Move>, moves'': seq<Move>, sub: string, listing: seq<string>, j: nat)
    requires j < |listing|
    requires Origins(moves') == Origins(moves) + Entries(sub, listing[..j])
    requires |moves'| == |moves| + j && moves'[..|moves|] == moves
    requires |moves''| == |moves'| + 1 && moves''[..|moves'|] == moves'
    requires moves''[|moves'|].sub == sub && moves''[|moves'|].name == listing[j]
    ensures Origins(moves'') == Origins(moves) + Entries(sub, listing[..j + 1])
    ensures moves''[..|moves|] == moves
  {
    assert moves''[..|moves|] == moves'[..|moves'|][..|moves|];
    forall i | 0 <= i < |moves''| ensures Origins(moves'')[i] == (Origins(moves) + Entries(sub, listing[..j + 1]))[i] {
      if i < |moves'| {
        assert moves''[i] == moves'[i];
        assert Origins(moves')[i] == (Origins(moves) + Entries(sub, listing[..j]))[i];
      }
    }
  }

  /** The moves after `moves` are the entries of `listing`, none of which fails. */
  lemma OriginsFrom(moves: seq<Move>, moves': seq<Move>, sub: string, listing: seq<string>)
    requires Origins(moves') == Origins(moves) + Entries(sub, listing)
    ensures forall i :: |moves| <= i < |moves'| ==> (moves'[i].sub, moves'[i].name) == (sub, listing[i - |moves|])
  {
    forall i | |moves| <= i < |moves'| ensures (moves'[i].sub, moves'[i].name) == (sub, listing[i - |moves|]) {
      assert Origins(moves')[i] == (Origins(moves) + Entries(sub, listing))[i];
    }
  }

  /** What the loop over the subfolders keeps after the first `s`: they all succeeded, and the state and the moves are theirs. */
  ghost predicate FlatSoFar(present: set<string>, subs: seq<string>, contents: map<string, seq<string>>,
                            moveFails: set<(string, string)>, rmdirFails: set<string>, s: nat,
                            names: set<string>, moves: seq<Move>)
    requires s <= |subs|
  {
    && (forall k :: 0 <= k < s ==> SubSucceeds(subs[k], contents, moveFails, rmdirFails))
    && FlatState(present, subs, s, names, moves)
    && Origins(moves) == Sources(subs[..s], contents)
    && NoFailedMove(moves, moveFails)
    && FirstFreeDests(present, subs, moves)
  }

  /** No move made is one whose rename raises. */
  ghost predicate NoFailedMove(moves: seq<Move>, moveFails: set<(string, string)>) {
    forall i :: 0 <= i < |moves| ==> (moves[i].sub, moves[i].name) !in moveFails
  }

  /**
   * `flatten_container_folder` for subfolder `s`: listed, emptied and removed; `ok` is
   * false on the first `OSError`, with the state and moves at that point.
   */
  method FlattenSub(present: set<string>, subs: seq<string>, contents: map<string, seq<string>>,
                    moveFails: set<(string, string)>, rmdirFails: set<string>, s: nat,
                    names: set<string>, moves: seq<Move>)
    returns (ok: bool, names': set<string>, moves': seq<Move>)
    requires s < |subs| && WalkedSubs(present, subs)
    requires FlatSoFar(present, subs, contents, moveFails, rmdirFails, s, names, moves)
    ensures ok <==> SubSucceeds(subs[s], contents, moveFails, rmdirFails)
    ensures ok ==> FlatSoFar(present, subs, contents, moveFails, rmdirFails, s + 1, names', moves')
    ensures !ok ==> FlatState(present, subs, s, names', moves') && NoFailedMove(moves', moveFails)
    ensures !ok ==> FirstFreeDests(present, subs, moves')
  {
    if subs[s] !in contents {
      return false, names, moves;
    }
    ok, names', moves' := EmptySub(present, subs, s, contents[subs[s]], moveFails, names, moves);
    forall i | 0 <= i < |moves| ensures moves'[i] == moves[i] {
      assert moves'[..|moves|][i] == moves'[i];
    }
    if !ok {
      return;
    }
    if subs[s] in rmdirFails {
      return false, names', moves';
    }
    RemoveSub(present, subs, s, names', moves');
    names' := names' - {subs[s]};
    assert subs[..s + 1][..s] == subs[..s];
  }

  /**
   * `flatten_container_folder(dirpath, dirnames)`: every subfolder is
   * listed, its entries are moved in order to destinations that overwrite
   * nothing, and it is removed. It completes exactly when every subfolder
   * can be listed, every rename succeeds and every `os.rmdir` succeeds;
   * the first `OSError` ends it with `False`, keeping the moves already
   * made. On completion the folder lists what it had, less the
   * subfolders, plus the destinations.
   */
  method FlattenContainer(present: set<string>, subs: seq<string>, contents: map<string, seq<string>>,
                          moveFails: set<(string, string)>, rmdirFails: set<string>)
    returns (r: Flattened)
    requires WalkedSubs(present, subs)
    ensures r.ok <==> forall k :: 0 <= k < |subs| ==> SubSucceeds(subs[k], contents, moveFails, rmdirFails)
    ensures r.ok ==> Origins(r.moves) == Sources(subs, contents)
    ensures r.ok ==> r.names == (present - SubSet(subs)) + Dests(r.moves)
    ensures forall i, l :: 0 <= i < l < |r.moves| ==> r.moves[i].dest != r.moves[l].dest
    ensures forall i :: 0 <= i < |r.moves| ==> r.moves[i].dest !in present - SubSet(subs)
    ensures forall i :: 0 <= i < |r.moves| ==> (r.moves[i].sub, r.moves[i].name) !in moveFails
    ensures FirstFreeDests(present, subs, r.moves)
  {
    var names, moves := present, [];
    var s := 0;
    while s < |subs|
      invariant 0 <= s <= |subs|
      invariant FlatSoFar(present, subs, contents, moveFails, rmdirFails, s, names, moves)
    {
      var ok;
      ok, names, moves := FlattenSub(present, subs, contents, moveFails, rmdirFails, s, names, moves);
      if !ok {
        return Flattened(false, moves, names);
      }
      s := s + 1;
    }
    assert subs[..s] == subs;
    r := Flattened(true, moves, names);
  }
}
