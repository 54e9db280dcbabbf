/**
 * Python/RemoveStringFromFilename.py: every regular file of a folder whose
 * name contains a given string is renamed to the name with each
 * occurrence of that string removed (`str.replace(target, '')`), and the
 * window reports how many renames worked and how many failed.
 *
 * The window, the folder chooser and the file system are outside the
 * model: the folder test, the listing, the regular-file test and the
 * renames that fail are parameters.
 */
module RemoveString {
  import opened Wrappers
  import opened Text

  // ---------------------------------------------------------------------
  // str.replace(target, '')
  // ---------------------------------------------------------------------

  /** `target` starts at position `i` of `s`. */
  predicate OccursAt(s: string, target: string, i: nat) {
    i + |target| <= |s| && s[i..i + |target|] == target
  }

  /** `target in s`. */
  ghost predicate Occurs(s: string, target: string) {
    exists i: nat :: OccursAt(s, target, i)
  }

  /**
   * `s.replace(target, '')` for a non-empty target: scanning from the
   * left, an occurrence is dropped and the scan goes on after it; any
   * other character is kept.
   */
  function RemoveAll(s: string, target: string): (r: string)
    requires |target| > 0
    ensures |r| <= |s|
    decreases |s|
  {
    if |s| < |target| then s
    else if s[..|target|] == target then RemoveAll(s[|target|..], target)
    else [s[0]] + RemoveAll(s[1..], target)
  }

  /** `s.count(target)`: the occurrences the same left-to-right scan meets, none overlapping. */
  function Count(s: string, target: string): nat
    requires |target| > 0
    decreases |s|
  {
    if |s| < |target| then 0
    else if s[..|target|] == target then 1 + Count(s[|target|..], target)
    else Count(s[1..], target)
  }

  /** Each occurrence removed takes the length of the target off the name. */
  lemma {:induction false} RemoveAllLength(s: string, target: string)
    requires |target| > 0
    ensures |RemoveAll(s, target)| == |s| - Count(s, target) * |target|
    decreases |s|
  {
    if |s| >= |target| {
      var m := |target|;
      if s[..m] == target {
        RemoveAllLength(s[m..], target);
        MulSucc(Count(s[m..], target), m);
      } else {
        RemoveAllLength(s[1..], target);
      }
    }
  }

  /** The scan meets an occurrence exactly when the target occurs somewhere in the name. */
  lemma {:induction false} CountPositive(s: string, target: string)
    requires |target| > 0
    ensures Count(s, target) > 0 <==> Occurs(s, target)
    decreases |s|
  {
    if |s| < |target| {
      assert forall i: nat :: !OccursAt(s, target, i);
    } else if s[..|target|] == target {
      assert OccursAt(s, target, 0);
    } else {
      CountPositive(s[1..], target);
      if Occurs(s, target) {
        var i: nat :| OccursAt(s, target, i);
        assert i > 0;
        assert s[1..][i - 1..i - 1 + |target|] == s[i..i + |target|];
        assert OccursAt(s[1..], target, i - 1);
      }
      if Occurs(s[1..], target) {
        var i: nat :| OccursAt(s[1..], target, i);
        assert s[i + 1..i + 1 + |target|] == s[1..][i..i + |target|];
        assert OccursAt(s, target, i + 1);
      }
    }
  }

  /** `new_filename != filename` exactly when the target occurs in the name. */
  lemma RemoveAllChanges(s: string, target: string)
    requires |target| > 0
    ensures RemoveAll(s, target) != s <==> Occurs(s, target)
  {
    RemoveAllLength(s, target);
    CountPositive(s, target);
    if Count(s, target) == 0 {
      RemoveAllAbsent(s, target);
    } else {
      ProductPositive(Count(s, target), |target|);
    }
  }

  lemma MulSucc(c: nat, m: nat)
    ensures (c + 1) * m == c * m + m
  {
  }

  lemma ProductPositive(c: nat, m: nat)
    requires c >= 1 && m >= 1
    ensures c * m >= 1
  {
    assert c * m == (c - 1) * m + m;
  }

  /** A name without the target is kept as it is. */
  lemma {:induction false} RemoveAllAbsent(s: string, target: string)
    requires |target| > 0 && Count(s, target) == 0
    ensures RemoveAll(s, target) == s
    decreases |s|
  {
    if |s| >= |target| {
      RemoveAllAbsent(s[1..], target);
    }
  }

  /** One pass only: removing can join pieces into a new occurrence, so a second pass may change the name again. */
  lemma RemoveAllOnePass()
    ensures RemoveAll("aabb", "ab") == "ab"
  {
    var s := "aabb";
    assert s[..2] == "aa";
    assert s[1..] == "abb" && s[1..][..2] == "ab";
    assert s[1..][2..] == "b";
  }

  // ---------------------------------------------------------------------
  // rename_files
  // ---------------------------------------------------------------------

  /** What the status line shows at the end. */
  datatype Outcome =
    | MissingInput
    | InvalidFolder
    | ListError
    | Complete(renamed: seq<(string, string)>, success: nat, errors: nat)

  /** The status text for an outcome; the text of a listing error is not modelled. */
  function StatusText(o: Outcome): string {
    match o
    case MissingInput => "Please select a folder and enter a string to remove."
    case InvalidFolder => "Invalid folder path."
    case ListError => "An error occurred: "
    case Complete(_, success, errors) =>
      "Operation complete! Successful renames: " + NatToString(success) + ", Errors: " + NatToString(errors)
  }

  /** The regular files among `names` whose name the removal changes, in listing order, with their new names. */
  function Attempts(folder: string, names: seq<string>, target: string, isFile: string -> bool): (r: seq<(string, string)>)
    requires |target| > 0
    ensures forall p :: p in r ==> p.0 in names && isFile(PathJoin(folder, p.0))
    ensures forall p :: p in r ==> p.1 == RemoveAll(p.0, target) && p.1 != p.0
  {
    if |names| == 0 then []
    else
      var init := Attempts(folder, names[..|names| - 1], target, isFile);
      var name := names[|names| - 1];
      var n := RemoveAll(name, target);
      if isFile(PathJoin(folder, name)) && n != name then init + [(name, n)] else init
  }

  /** The attempts whose rename goes through. */
  function Succeeded(folder: string, tries: seq<(string, string)>, fails: (string, string) -> bool): (r: seq<(string, string)>)
    ensures |r| <= |tries|
    ensures forall p :: p in r ==> p in tries
  {
    if |tries| == 0 then []
    else
      var init := Succeeded(folder, tries[..|tries| - 1], fails);
      var (from, to) := tries[|tries| - 1];
      if fails(PathJoin(folder, from), PathJoin(folder, to)) then init else init + [(from, to)]
  }

  /** The counters and the list of renames after the listing entries `names`. */
  ghost predicate Tallied(folder: string, names: seq<string>, target: string, isFile: string -> bool, fails: (string, string) -> bool,
                          renamed: seq<(string, string)>, success: nat, errors: nat)
    requires |target| > 0
  {
    var tries := Attempts(folder, names, target, isFile);
    renamed == Succeeded(folder, tries, fails) && success == |renamed| && success + errors == |tries|
  }

  /** One listing entry: a regular file whose name the removal changes is renamed, and one counter goes up. */
  method Visit(folder: string, names: seq<string>, i: nat, target: string, isFile: string -> bool, fails: (string, string) -> bool,
               renamed: seq<(string, string)>, success: nat, errors: nat)
    returns (renamed': seq<(string, string)>, success': nat, errors': nat)
    requires |target| > 0 && i < |names|
    requires Tallied(folder, names[..i], target, isFile, fails, renamed, success, errors)
    ensures Tallied(folder, names[..i + 1], target, isFile, fails, renamed', success', errors')
  {
    var name := names[i];
    var oldPath := PathJoin(folder, name);
    var newName := RemoveAll(name, target);
    renamed', success', errors' := renamed, success, errors;
    ghost var tries := Attempts(folder, names[..i], target, isFile);
    assert names[..i + 1][..i] == names[..i];
    if isFile(oldPath) && newName != name {
      assert Attempts(folder, names[..i + 1], target, isFile) == tries + [(name, newName)];
      assert (tries + [(name, newName)])[..|tries|] == tries;
      if !fails(oldPath, PathJoin(folder, newName)) {
        renamed' := renamed + [(name, newName)];
        success' := success + 1;
      } else {
        errors' := errors + 1;
      }
    } else {
      assert Attempts(folder, names[..i + 1], target, isFile) == tries;
    }
  }

  /**
   * `rename_files`: the folder and the stripped target must both be
   * given and the folder must exist; then each regular file whose name
   * contains the target is renamed, counting the renames that worked and
   * those that raised.
   */
  method RenameFiles(folder: string, targetText: string, isDir: bool, listing: Option<seq<string>>,
                     isFile: string -> bool, fails: (string, string) -> bool)
    returns (out: Outcome)
    ensures out == Expected(folder, Strip(targetText), isDir, listing, isFile, fails)
  {
    var target := Strip(targetText);
    if folder == "" || target == "" {
      return MissingInput;
    }
    if !isDir {
      return InvalidFolder;
    }
    if listing.None? {
      return ListError;
    }
    out := RenameAll(folder, listing.value, target, isFile, fails);
  }

  /** What `rename_files` ends with, for the stripped target. */
  function Expected(folder: string, target: string, isDir: bool, listing: Option<seq<string>>,
                    isFile: string -> bool, fails: (string, string) -> bool): (o: Outcome)
    ensures folder == "" || target == "" <==> o == MissingInput
    ensures folder != "" && target != "" && !isDir ==> o == InvalidFolder
    ensures folder != "" && target != "" && isDir && listing.None? ==> o == ListError
  {
    if folder == "" || target == "" then MissingInput
    else if !isDir then InvalidFolder
    else if listing.None? then ListError
    else
      var tries := Attempts(folder, listing.value, target, isFile);
      var done := Succeeded(folder, tries, fails);
      Complete(done, |done|, |tries| - |done|)
  }

  /**
   * A completed run: the renames that went through are the attempts that
   * did not fail, in listing order, and `success + errors` is the number
   * of attempts.
   */
  lemma ExpectedComplete(folder: string, target: string, names: seq<string>, isFile: string -> bool, fails: (string, string) -> bool)
    requires folder != "" && |target| > 0
    ensures var o := Expected(folder, target, true, Some(names), isFile, fails);
      var tries := Attempts(folder, names, target, isFile);
      && o.Complete? && o.success == |o.renamed| && o.success + o.errors == |tries|
      && (forall p :: p in o.renamed ==> p in tries && !fails(PathJoin(folder, p.0), PathJoin(folder, p.1)))
  {
    SucceededSound(folder, Attempts(folder, names, target, isFile), fails);
  }

  lemma {:induction false} SucceededSound(folder: string, tries: seq<(string, string)>, fails: (string, string) -> bool)
    ensures forall p :: p in Succeeded(folder, tries, fails) ==> !fails(PathJoin(folder, p.0), PathJoin(folder, p.1))
  {
    if |tries| > 0 {
      SucceededSound(folder, tries[..|tries| - 1], fails);
    }
  }

  /** The loop over the listing. */
  method RenameAll(folder: string, names: seq<string>, target: string, isFile: string -> bool, fails: (string, string) -> bool)
    returns (out: Outcome)
    requires folder != "" && |target| > 0
    ensures out == Expected(folder, target, true, Some(names), isFile, fails)
  {
    var success: nat, errors: nat := 0, 0;
    var renamed: seq<(string, string)> := [];
    for i := 0 to |names|
      invariant Tallied(folder, names[..i], target, isFile, fails, renamed, success, errors)
    {
      renamed, success, errors := Visit(folder, names, i, target, isFile, fails, renamed, success, errors);
    }
    assert names[..|names|] == names;
    out := Complete(renamed, success, errors);
  }

  /** A file is tried exactly when it is a regular file whose name contains the target. */
  lemma {:induction false} AttemptsAreOccurrences(folder: string, names: seq<string>, target: string, isFile: string -> bool, name: string)
    requires |target| > 0
    ensures (name, RemoveAll(name, target)) in Attempts(folder, names, target, isFile)
      <==> name in names && isFile(PathJoin(folder, name)) && Occurs(name, target)
  {
    RemoveAllChanges(name, target);
    if |names| > 0 && name in names && isFile(PathJoin(folder, name)) && Occurs(name, target) {
      var init := names[..|names| - 1];
      if name != names[|names| - 1] {
        assert name in init;
        AttemptsAreOccurrences(folder, init, target, isFile, name);
      }
    }
  }

  /** Every new name is the old one shortened by the removed occurrences. */
  lemma NewNameLength(folder: string, names: seq<string>, target: string, isFile: string -> bool, from: string, to: string)
    requires |target| > 0 && (from, to) in Attempts(folder, names, target, isFile)
    ensures Count(from, target) > 0 && |to| == |from| - Count(from, target) * |target|
  {
    RemoveAllLength(from, target);
    if Count(from, target) == 0 {
      RemoveAllAbsent(from, target);
    }
  }
}
