/**
 * Python/MoveFilesByList.py: moving the items named in a text list out of a
 * source folder. The simple mode moves each named file (or folder); the
 * selective mode reads the list as folder headers each followed by file
 * lines, and moves a whole subfolder when its regular files are exactly
 * the listed ones, otherwise only the listed files.
 *
 * A folder's entries are a map from name to kind. A move that raises is
 * given by the set of names whose move fails (in the selective mode, the
 * set of (subfolder, file) pairs); the destination is not modelled (what
 * arrives there is the sequence of moved names).
 */
module MoveByList {
  import opened Wrappers
  import opened Text
  import opened Folds

  datatype Kind = File | Folder

  /** The entries of one folder. */
  type Listing = map<string, Kind>

  // ---------------------------------------------------------------------
  // The list
  // ---------------------------------------------------------------------

  /** `[l.strip() for l in lines if l.strip()]`. */
  function StrippedLines(lines: seq<string>): (r: seq<string>)
    ensures |r| <= |lines|
    ensures forall x :: x in r <==> x != "" && exists l :: l in lines && Strip(l) == x
  {
    if |lines| == 0 then []
    else
      var t := Strip(lines[|lines| - 1]);
      assert forall l :: l in lines <==> l in lines[..|lines| - 1] || l == lines[|lines| - 1];
      StrippedLines(lines[..|lines| - 1]) + (if t != "" then [t] else [])
  }

  /** The requested names of `move_items_simple` and `selective_move_logic`: the stripped, non-empty lines of the text. */
  function RequestedNames(text: string): seq<string> {
    StrippedLines(Split(text, '\n'))
  }

  /** A requested name is non-empty and has no whitespace at either end. */
  lemma RequestedNamesStripped(text: string, x: string)
    requires x in RequestedNames(text)
    ensures x != "" && !IsSpace(x[0]) && !IsSpace(x[|x| - 1])
  {
    var l :| l in Split(text, '\n') && Strip(l) == x;
  }

  // ---------------------------------------------------------------------
  // Moving names out of a folder
  // ---------------------------------------------------------------------

  /** The `check_func` and `os.path.isfile` tests before each move: `name` is an entry of the wanted kind. */
  predicate Present(listing: Listing, name: string, kind: Kind) {
    name in listing && listing[name] == kind
  }

  ghost function Names(s: seq<string>): set<string> {
    set i | 0 <= i < |s| :: s[i]
  }

  /**
   * The state after the first names have been dealt with: every name went
   * to exactly one of `moved` and `failed`; what moved was present with the
   * wanted kind, moved once, and left the listing; a present name whose
   * move does not raise has moved.
   */
  ghost predicate MoveState(listing: Listing, names: seq<string>, kind: Kind, fails: set<string>,
                            moved: seq<string>, failed: seq<string>, rest: Listing) {
    && multiset(moved) + multiset(failed) == multiset(names)
    && (forall x :: x in moved ==> Present(listing, x, kind) && x !in fails)
    && (forall i, j :: 0 <= i < j < |moved| ==> moved[i] != moved[j])
    && (forall x :: x in names && Present(listing, x, kind) && x !in fails ==> x in moved)
    && rest == listing - Names(moved)
  }

  /**
   * The moved names, the failed names and the listing left after the names
   * have been taken in turn: a name moves when it is still there with the
   * wanted kind and its move does not raise.
   */
  ghost function Moves(listing: Listing, names: seq<string>, kind: Kind, fails: set<string>): (seq<string>, seq<string>, Listing) {
    if |names| == 0 then ([], [], listing)
    else
      var p := Moves(listing, names[..|names| - 1], kind, fails);
      var x := names[|names| - 1];
      if Present(p.2, x, kind) && x !in fails then (p.0 + [x], p.1, p.2 - {x})
      else (p.0, p.1 + [x], p.2)
  }

  /** Taking one more name extends the moves by that name's turn. */
  lemma MovesNext(listing: Listing, names: seq<string>, kind: Kind, fails: set<string>, i: nat)
    requires i < |names|
    ensures var p := Moves(listing, names[..i], kind, fails);
      Moves(listing, names[..i + 1], kind, fails)
      == if Present(p.2, names[i], kind) && names[i] !in fails then (p.0 + [names[i]], p.1, p.2 - {names[i]})
         else (p.0, p.1 + [names[i]], p.2)
  {
    assert names[..i + 1][..i] == names[..i];
  }

  /** One more name keeps `MoveState`: it moves when it is still there and its move does not raise, and fails otherwise. */
  lemma MoveStateNext(listing: Listing, names: seq<string>, x: string, kind: Kind, fails: set<string>,
                      moved: seq<string>, failed: seq<string>, rest: Listing)
    requires MoveState(listing, names, kind, fails, moved, failed, rest)
    ensures Present(rest, x, kind) && x !in fails ==>
      MoveState(listing, names + [x], kind, fails, moved + [x], failed, rest - {x})
    ensures !(Present(rest, x, kind) && x !in fails) ==>
      MoveState(listing, names + [x], kind, fails, moved, failed + [x], rest)
  {
    if Present(rest, x, kind) && x !in fails {
      assert x !in moved;
      var moved' := moved + [x];
      assert Names(moved') == Names(moved) + {x} by {
        assert moved'[|moved|] == x;
        assert forall i :: 0 <= i < |moved| ==> moved'[i] == moved[i];
      }
    } else {
      assert x in fails || x in moved || !Present(listing, x, kind);
    }
  }

  /** The moves keep the state of `MoveState`: each name went to one side, and what moved was there, moved once and left. */
  lemma {:induction false} MovesKeepState(listing: Listing, names: seq<string>, kind: Kind, fails: set<string>)
    ensures var m := Moves(listing, names, kind, fails); MoveState(listing, names, kind, fails, m.0, m.1, m.2)
    decreases |names|
  {
    if |names| > 0 {
      var pre := names[..|names| - 1];
      var x := names[|names| - 1];
      assert names == pre + [x];
      MovesKeepState(listing, pre, kind, fails);
      var p := Moves(listing, pre, kind, fails);
      MoveStateNext(listing, pre, x, kind, fails, p.0, p.1, p.2);
    } else {
      assert Names([]) == {};
    }
  }

  /** One name: moved when present and its move does not raise, failed otherwise. */
  method MoveOne(listing: Listing, names: seq<string>, kind: Kind, fails: set<string>, i: nat,
                 moved: seq<string>, failed: seq<string>, rest: Listing)
    returns (moved': seq<string>, failed': seq<string>, rest': Listing)
    requires i < |names| && (moved, failed, rest) == Moves(listing, names[..i], kind, fails)
    ensures (moved', failed', rest') == Moves(listing, names[..i + 1], kind, fails)
  {
    var x := names[i];
    MovesNext(listing, names, kind, fails, i);
    if Present(rest, x, kind) && x !in fails {
      moved', failed', rest' := moved + [x], failed, rest - {x};
    } else {
      moved', failed', rest' := moved, failed + [x], rest;
    }
  }

  /**
   * The move loops of `move_items_simple` and of `selective_move_logic`'s partial branch: each name in turn is moved when
   * it is present with the wanted kind (a name listed twice is gone the
   * second time) and otherwise counted as failed.
   */
  method MoveNames(listing: Listing, names: seq<string>, kind: Kind, fails: set<string>)
    returns (moved: seq<string>, failed: seq<string>, rest: Listing)
    ensures |moved| + |failed| == |names|
    ensures MoveState(listing, names, kind, fails, moved, failed, rest)
    ensures (moved, failed, rest) == Moves(listing, names, kind, fails)
  {
    moved, failed, rest := [], [], listing;
    assert names[..0] == [];
    var i := 0;
    while i < |names|
      invariant 0 <= i <= |names|
      invariant (moved, failed, rest) == Moves(listing, names[..i], kind, fails)
    {
      moved, failed, rest := MoveOne(listing, names, kind, fails, i, moved, failed, rest);
      i := i + 1;
    }
    assert names[..i] == names;
    MovesKeepState(listing, names, kind, fails);
    assert |multiset(moved) + multiset(failed)| == |multiset(names)|;
  }

  /** The counts of the summary always add up to the number of requested names. */
  lemma SummaryAddsUp(listing: Listing, names: seq<string>, kind: Kind, fails: set<string>,
                      moved: seq<string>, failed: seq<string>, rest: Listing)
    requires MoveState(listing, names, kind, fails, moved, failed, rest)
    ensures |moved| + |failed| == |names|
  {
    assert |multiset(moved) + multiset(failed)| == |multiset(names)|;
  }

  /** A name that is not present with the wanted kind fails and nothing of that name moves. */
  lemma AbsentFails(listing: Listing, names: seq<string>, kind: Kind, fails: set<string>,
                    moved: seq<string>, failed: seq<string>, rest: Listing, x: string)
    requires MoveState(listing, names, kind, fails, moved, failed, rest)
    requires x in names && !Present(listing, x, kind)
    ensures x in failed && x !in moved
  {
    assert x in multiset(names);
  }

  /** The outcome of `move_items_simple`: the requested names, those moved, those that failed, and the source folder afterwards. */
  datatype SimpleOutcome = SourceMissing | Moved(requested: seq<string>, moved: seq<string>, failed: seq<string>, source: Listing)

  /** `move_items_simple`: nothing happens without a source folder. */
  method MoveItemsSimple(sourceExists: bool, source: Listing, text: string, folderMode: bool, fails: set<string>)
    returns (r: SimpleOutcome)
    ensures !sourceExists <==> r == SourceMissing
    ensures r.Moved? ==> r.requested == RequestedNames(text) && |r.moved| + |r.failed| == |r.requested|
    ensures r.Moved? ==> MoveState(source, r.requested, if folderMode then Folder else File, fails, r.moved, r.failed, r.source)
    ensures r.Moved? ==> (r.moved, r.failed, r.source) == Moves(source, r.requested, if folderMode then Folder else File, fails)
  {
    if !sourceExists {
      return SourceMissing;
    }
    var names := RequestedNames(text);
    var moved, failed, rest := MoveNames(source, names, if folderMode then Folder else File, fails);
    r := Moved(names, moved, failed, rest);
  }

  // ---------------------------------------------------------------------
  // Parsing the selective list
  // ---------------------------------------------------------------------

  /** The header test of `selective_move_logic`'s parsing loop: a line without '.' or with a path separator names a folder. */
  predicate IsHeader(line: string) {
    '.' !in line || '/' in line || '\\' in line
  }

  predicate IsSlash(c: char) { c == '/' || c == '\\' }

  /** `line.strip('/\\')`. */
  function FolderName(line: string): (r: string)
    ensures |r| > 0 ==> !IsSlash(r[0]) && !IsSlash(r[|r| - 1])
  {
    Trim(line, IsSlash)
  }

  datatype Group = Group(folder: string, files: seq<string>)

  /** The parse: the file lines met before any header, and the groups. */
  datatype Parsed = Parsed(dropped: seq<string>, groups: seq<Group>)

  /** The parse of a list, line by line. */
  function Parse(lines: seq<string>): Parsed {
    if |lines| == 0 then Parsed([], [])
    else
      var p := Parse(lines[..|lines| - 1]);
      var l := lines[|lines| - 1];
      if IsHeader(l) then Parsed(p.dropped, p.groups + [Group(FolderName(l), [])])
      else if |p.groups| == 0 then Parsed(p.dropped + [l], [])
      else
        var g := p.groups[|p.groups| - 1];
        Parsed(p.dropped, p.groups[..|p.groups| - 1] + [Group(g.folder, g.files + [l])])
  }

  /** A list without headers is dropped whole. */
  lemma {:induction false} ParseNoHeader(lines: seq<string>)
    requires forall k :: 0 <= k < |lines| ==> !IsHeader(lines[k])
    ensures Parse(lines) == Parsed(lines, [])
  {
    if |lines| > 0 {
      ParseNoHeader(lines[..|lines| - 1]);
      assert lines[..|lines| - 1] + [lines[|lines| - 1]] == lines;
    }
  }

  /** A header followed by file lines adds one group holding exactly those lines, in order; nothing earlier changes. */
  lemma {:induction false} ParseBlock(lines: seq<string>, h: string, fs: seq<string>)
    requires IsHeader(h)
    requires forall k :: 0 <= k < |fs| ==> !IsHeader(fs[k])
    ensures Parse(lines + [h] + fs) == Parsed(Parse(lines).dropped, Parse(lines).groups + [Group(FolderName(h), fs)])
  {
    if |fs| == 0 {
      assert (lines + [h] + fs)[..|lines + [h] + fs| - 1] == lines;
    } else {
      var fs0 := fs[..|fs| - 1];
      ParseBlock(lines, h, fs0);
      var all := lines + [h] + fs;
      assert all[..|all| - 1] == lines + [h] + fs0;
      assert fs0 + [fs[|fs| - 1]] == fs;
    }
  }

  /** Every file line of a group contains '.' and no path separator, so it names an entry of the subfolder itself. */
  lemma {:induction false} GroupFilesAreNames(lines: seq<string>, k: nat, x: string)
    requires k < |Parse(lines).groups| && x in Parse(lines).groups[k].files
    ensures !IsHeader(x)
  {
    var n := |lines|;
    var p := Parse(lines[..n - 1]);
    if !IsHeader(lines[n - 1]) && |p.groups| > 0 && k == |p.groups| - 1 && x == lines[n - 1] {
    } else if k < |p.groups| && x in p.groups[k].files {
      GroupFilesAreNames(lines[..n - 1], k, x);
    }
  }

  /** The parsing loop of `selective_move_logic`: the loop carrying the current folder and its files. */
  method ParseGroups(lines: seq<string>) returns (r: Parsed)
    ensures r == Parse(lines)
  {
    var dropped: seq<string> := [];
    var groups: seq<Group> := [];
    var current: string := "";
    var open := false;
    var files: seq<string> := [];
    var i := 0;
    while i < |lines|
      invariant 0 <= i <= |lines|
      invariant !open ==> groups == [] && Parse(lines[..i]) == Parsed(dropped, [])
      invariant open ==> Parse(lines[..i]) == Parsed(dropped, groups + [Group(current, files)])
    {
      var line := lines[i];
      assert lines[..i + 1][..i] == lines[..i];
      if IsHeader(line) {
        if open {
          groups := groups + [Group(current, files)];
        }
        current, open, files := FolderName(line), true, [];
      } else if open {
        files := files + [line];
        assert (groups + [Group(current, files)])[..|groups|] == groups;
      } else {
        dropped := dropped + [line];
      }
      i := i + 1;
    }
    assert lines[..i] == lines;
    if open {
      groups := groups + [Group(current, files)];
    }
    r := Parsed(dropped, groups);
  }

  // ---------------------------------------------------------------------
  // The per-folder decision
  // ---------------------------------------------------------------------

  /** `actual_files_in_source_folder`: the regular files of a listing; subfolders do not count. */
  function RegularFiles(listing: Listing): (r: set<string>)
    ensures forall f :: f in r <==> Present(listing, f, File)
  {
    set f | f in listing && listing[f] == File
  }

  function ListSet(s: seq<string>): (r: set<string>)
    ensures forall x :: x in r <==> x in s
  {
    set x | x in s
  }

  datatype Decision = WholeFolder | OnlyListed(missing: set<string>, extra: set<string>)

  /**
   * The comparison in `selective_move_logic`: the whole folder moves when every listed file is there
   * and there is no other file; otherwise the missing and extra files are
   * reported.
   */
  function Decide(listed: seq<string>, actual: set<string>): (d: Decision)
    ensures d == WholeFolder <==> ListSet(listed) == actual
    ensures d.OnlyListed? ==> d.missing == ListSet(listed) - actual && d.extra == actual - ListSet(listed)
    ensures d.OnlyListed? ==> d.missing != {} || d.extra != {}
  {
    var required := ListSet(listed);
    var allPresent := required <= actual;
    var extraPresent := actual - required != {};
    if allPresent && !extraPresent then
      assert required == actual by {
        forall f | f in actual ensures f in required {
          assert f !in actual - required;
        }
      }
      WholeFolder
    else
      assert required - actual == {} && actual - required == {} ==> required == actual;
      OnlyListed(required - actual, actual - required)
  }

  /** What became of one group. */
  datatype Report =
    | FolderMissing
    | WholeMoved(ok: bool)
    | FilesMoved(missing: set<string>, extra: set<string>, moved: seq<string>)

  /** The subfolders of the source folder, each with its listing. */
  type Tree = map<string, Listing>

  /** The names in subfolder `folder` whose `shutil.move` raises, from the failing (subfolder, file) pairs. */
  function FailsIn(fileFails: set<(string, string)>, folder: string): (r: set<string>)
    ensures forall x :: x in r <==> (folder, x) in fileFails
  {
    set p | p in fileFails && p.0 == folder :: p.1
  }

  /**
   * `selective_move_logic`'s group loop for one group: a missing subfolder is passed over; a
   * whole-folder move takes the subfolder away unless it raises; otherwise
   * the listed files that are there move out of it, and the extras stay.
   */
  ghost predicate Processed(tree: Tree, g: Group, wholeFails: set<string>, fileFails: set<(string, string)>, rep: Report, tree': Tree) {
    if g.folder !in tree then rep == FolderMissing && tree' == tree
    else
      var d := Decide(g.files, RegularFiles(tree[g.folder]));
      if d == WholeFolder then
        && rep == WholeMoved(g.folder !in wholeFails)
        && tree' == (if g.folder in wholeFails then tree else tree - {g.folder})
      else
        && rep.FilesMoved? && rep.missing == d.missing && rep.extra == d.extra
        && tree'.Keys == tree.Keys && (forall y :: y in tree && y != g.folder ==> tree'[y] == tree[y])
        && (exists failed: seq<string> :: MoveState(tree[g.folder], g.files, File, FailsIn(fileFails, g.folder), rep.moved, failed, tree'[g.folder]))
  }

  /** The report and the subfolders after one group, as `selective_move_logic` computes them. */
  ghost function GroupOutcome(tree: Tree, g: Group, wholeFails: set<string>, fileFails: set<(string, string)>): (Report, Tree) {
    if g.folder !in tree then (FolderMissing, tree)
    else
      var d := Decide(g.files, RegularFiles(tree[g.folder]));
      if d == WholeFolder then
        (WholeMoved(g.folder !in wholeFails), if g.folder in wholeFails then tree else tree - {g.folder})
      else
        var m := Moves(tree[g.folder], g.files, File, FailsIn(fileFails, g.folder));
        (FilesMoved(d.missing, d.extra, m.0), tree[g.folder := m.2])
  }

  /** One group of `selective_move_logic`. */
  method ProcessGroup(tree: Tree, g: Group, wholeFails: set<string>, fileFails: set<(string, string)>)
    returns (rep: Report, tree': Tree)
    ensures (rep, tree') == GroupOutcome(tree, g, wholeFails, fileFails)
    ensures Processed(tree, g, wholeFails, fileFails, rep, tree')
  {
    if g.folder !in tree {
      return FolderMissing, tree;
    }
    var listing := tree[g.folder];
    var d := Decide(g.files, RegularFiles(listing));
    match d {
      case WholeFolder =>
        rep := WholeMoved(g.folder !in wholeFails);
        tree' := if g.folder in wholeFails then tree else tree - {g.folder};
      case OnlyListed(missing, extra) =>
        var moved, failed, rest := MoveNames(listing, g.files, File, FailsIn(fileFails, g.folder));
        rep := FilesMoved(missing, extra, moved);
        tree' := tree[g.folder := rest];
    }
  }

  /** Processing a group never adds a subfolder. */
  lemma ProcessedShrinks(tree: Tree, g: Group, wholeFails: set<string>, fileFails: set<(string, string)>, rep: Report, tree': Tree)
    requires Processed(tree, g, wholeFails, fileFails, rep, tree')
    ensures tree'.Keys <= tree.Keys
    ensures forall y :: y in tree' && y != g.folder ==> tree'[y] == tree[y]
    ensures g.folder !in tree ==> rep == FolderMissing
  {
  }

  /** The reports and the subfolders after the first `n` groups have been processed in turn. */
  ghost function Selected(groups: seq<Group>, n: nat, tree: Tree, wholeFails: set<string>, fileFails: set<(string, string)>): (r: (seq<Report>, Tree))
    requires n <= |groups|
    ensures |r.0| == n
  {
    Run(groups, n, tree, (cur: Tree, g: Group) => GroupOutcome(cur, g, wholeFails, fileFails))
  }

  /** The report of group `k` is what that group gives against the subfolders the groups before it leave. */
  lemma SelectedAt(groups: seq<Group>, k: nat, tree: Tree, wholeFails: set<string>, fileFails: set<(string, string)>)
    requires k < |groups|
    ensures Selected(groups, |groups|, tree, wholeFails, fileFails).0[k]
         == GroupOutcome(Selected(groups, k, tree, wholeFails, fileFails).1, groups[k], wholeFails, fileFails).0
  {
    RunAt(groups, k, |groups|, tree, (cur: Tree, g: Group) => GroupOutcome(cur, g, wholeFails, fileFails));
  }

  /** The outcome of `selective_move_logic`: the parse, and, when the source folder exists, one report per group. */
  datatype SelectiveOutcome = SelectiveOutcome(parsed: Parsed, reports: Option<seq<Report>>, tree: Tree)

  /** Distinct folder names among the groups. */
  predicate DistinctFolders(groups: seq<Group>) {
    forall i, j :: 0 <= i < j < |groups| ==> groups[i].folder != groups[j].folder
  }

  /** The groups after `i` still see the source folder as it was, when folder names do not repeat. */
  ghost predicate Untouched(tree: Tree, cur: Tree, groups: seq<Group>, i: nat)
    requires i <= |groups|
  {
    forall j :: i <= j < |groups| ==>
      (groups[j].folder in cur <==> groups[j].folder in tree)
      && (groups[j].folder in tree ==> cur[groups[j].folder] == tree[groups[j].folder])
  }

  /** What a report says about a group against the folder as it was at the start. */
  ghost predicate Reported(tree: Tree, g: Group, rep: Report) {
    if g.folder !in tree then rep == FolderMissing
    else
      var d := Decide(g.files, RegularFiles(tree[g.folder]));
      if d == WholeFolder then rep.WholeMoved?
      else rep.FilesMoved? && rep.missing == d.missing && rep.extra == d.extra
  }

  /** With distinct folder names, one group reports against the start state and leaves the later groups' subfolders alone. */
  lemma NextUntouched(tree: Tree, cur: Tree, groups: seq<Group>, i: nat, wholeFails: set<string>, fileFails: set<(string, string)>,
                      rep: Report, next: Tree)
    requires i < |groups| && DistinctFolders(groups) && Untouched(tree, cur, groups, i)
    requires Processed(cur, groups[i], wholeFails, fileFails, rep, next)
    ensures Reported(tree, groups[i], rep)
    ensures Untouched(tree, next, groups, i + 1)
  {
    forall j | i + 1 <= j < |groups|
      ensures (groups[j].folder in next <==> groups[j].folder in tree)
      ensures groups[j].folder in tree ==> next[groups[j].folder] == tree[groups[j].folder]
    {
      assert groups[j].folder != groups[i].folder;
    }
  }

  /**
   * `selective_move_logic`: the list is parsed first; then, when the
   * source folder exists, the groups are processed in order. A subfolder
   * that is missing yields no move. When no folder is named twice, every
   * group's decision is taken against the subfolder as it was at the start.
   */
  method SelectiveMove(sourceExists: bool, tree: Tree, text: string, wholeFails: set<string>, fileFails: set<(string, string)>)
    returns (r: SelectiveOutcome)
    ensures r.parsed == Parse(RequestedNames(text))
    ensures !sourceExists <==> r.reports.None?
    ensures !sourceExists ==> r.tree == tree
    ensures r.reports.Some? ==> |r.reports.value| == |r.parsed.groups|
    ensures r.reports.Some? ==> (r.reports.value, r.tree) == Selected(r.parsed.groups, |r.parsed.groups|, tree, wholeFails, fileFails)
    ensures r.reports.Some? ==> forall k :: 0 <= k < |r.parsed.groups| && r.parsed.groups[k].folder !in tree ==>
      r.reports.value[k] == FolderMissing
    ensures r.reports.Some? && DistinctFolders(r.parsed.groups) ==>
      forall k :: 0 <= k < |r.parsed.groups| ==> Reported(tree, r.parsed.groups[k], r.reports.value[k])
    ensures r.tree.Keys <= tree.Keys
  {
    var parsed := ParseGroups(RequestedNames(text));
    if !sourceExists {
      return SelectiveOutcome(parsed, None, tree);
    }
    var groups := parsed.groups;
    var cur := tree;
    var reports: seq<Report> := [];
    var i := 0;
    while i < |groups|
      invariant 0 <= i <= |groups|
      invariant MovedSoFar(tree, cur, groups, i, reports, wholeFails, fileFails)
    {
      cur, reports := MoveStep(tree, cur, groups, i, reports, wholeFails, fileFails);
      i := i + 1;
    }
    r := SelectiveOutcome(parsed, Some(reports), cur);
  }

  /** The state of the group loop after the first `i` groups. */
  ghost predicate MovedSoFar(tree: Tree, cur: Tree, groups: seq<Group>, i: nat, reports: seq<Report>, wholeFails: set<string>, fileFails: set<(string, string)>)
    requires i <= |groups|
  {
    && |reports| == i
    && (reports, cur) == Selected(groups, i, tree, wholeFails, fileFails)
    && cur.Keys <= tree.Keys
    && (forall k :: 0 <= k < i && groups[k].folder !in tree ==> reports[k] == FolderMissing)
    && (DistinctFolders(groups) ==> Untouched(tree, cur, groups, i))
    && (DistinctFolders(groups) ==> forall k :: 0 <= k < i ==> Reported(tree, groups[k], reports[k]))
  }

  /** One group of the loop: its report is added and the tree moves on. */
  method MoveStep(tree: Tree, cur: Tree, groups: seq<Group>, i: nat, reports: seq<Report>, wholeFails: set<string>, fileFails: set<(string, string)>)
    returns (cur': Tree, reports': seq<Report>)
    requires i < |groups| && MovedSoFar(tree, cur, groups, i, reports, wholeFails, fileFails)
    ensures MovedSoFar(tree, cur', groups, i + 1, reports', wholeFails, fileFails)
  {
    var rep, next := ProcessGroup(cur, groups[i], wholeFails, fileFails);
    ProcessedShrinks(cur, groups[i], wholeFails, fileFails, rep, next);
    if DistinctFolders(groups) {
      NextUntouched(tree, cur, groups, i, wholeFails, fileFails, rep, next);
    }
    assert groups[i].folder !in tree ==> rep == FolderMissing;
    reports' := reports + [rep];
    assert forall k :: 0 <= k < i ==> reports'[k] == reports[k];
    cur' := next;
  }
}
