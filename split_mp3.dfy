/**
 * Python/SplitMP3Renamer.py: files split by a cutter into
 * `name.mp3.001`, `name.mp3.001.002` get their extension moved to the end,
 * `name.001.mp3`, `name.001.002.mp3`, so that players recognise them.
 *
 * The regular expression `^(.*?)\.mp3(?:\.(\d{3}))(?:\.(\d{3}))?$`, applied
 * with `fullmatch` and IGNORECASE, is written out as the search the regex
 * engine performs: base lengths 0, 1, 2, ... are tried in turn (the lazy
 * `.*?`), and `.` does not match a newline. `\d` is restricted to ASCII.
 */
module SplitMp3 {
  import opened Wrappers
  import opened Text

  // ---------------------------------------------------------------------
  // The pattern
  // ---------------------------------------------------------------------

  predicate IsThreeDigits(s: string) {
    |s| == 3 && IsDigit(s[0]) && IsDigit(s[1]) && IsDigit(s[2])
  }

  /**
   * What follows the base, `\.mp3(?:\.(\d{3}))(?:\.(\d{3}))?` up to the end
   * of the name: the captured digit groups that are present, or None when
   * the rest does not match. As the match must reach the end, the two
   * shapes are told apart by length alone.
   */
  function TailGroups(rest: string): (g: Option<seq<string>>)
    ensures g.Some? ==> |rest| == 4 + 4 * |g.value| && (|g.value| == 1 || |g.value| == 2)
    ensures g.Some? ==> IsThreeDigits(rest[|rest| - 3..])
  {
    if |rest| == 8 && Lower(rest[..4]) == ".mp3" && rest[4] == '.' && IsThreeDigits(rest[5..8]) then
      assert rest[|rest| - 3..] == rest[5..8];
      Some([rest[5..8]])
    else if |rest| == 12 && Lower(rest[..4]) == ".mp3" && rest[4] == '.' && IsThreeDigits(rest[5..8])
      && rest[8] == '.' && IsThreeDigits(rest[9..12]) then
      assert rest[|rest| - 3..] == rest[9..12];
      Some([rest[5..8], rest[9..12]])
    else None
  }

  /** A matching rest is the extension in any case, a dot, and the digit groups joined by dots. */
  lemma TailShape(rest: string)
    requires TailGroups(rest).Some?
    ensures Lower(rest[..4]) == ".mp3"
    ensures forall k :: 0 <= k < |TailGroups(rest).value| ==> IsThreeDigits(TailGroups(rest).value[k])
    ensures rest == rest[..4] + "." + Join(TailGroups(rest).value, ".")
  {
    if |rest| == 8 {
      assert rest == rest[..4] + "." + rest[5..8];
    } else {
      assert rest == rest[..4] + "." + rest[5..8] + "." + rest[9..12];
    }
  }

  /** The whole name matches with a base of length `k`: the base has no newline and the rest matches. */
  ghost predicate BaseAt(name: string, k: nat) {
    k <= |name| && (forall i :: 0 <= i < k ==> name[i] != '\n') && TailGroups(name[k..]).Some?
  }

  /** The lazy search, from base length `k` on: base lengths are tried in turn until the rest matches or a newline ends the base. */
  function SearchFrom(name: string, k: nat): (r: Option<(string, seq<string>)>)
    requires k <= |name|
    ensures r.Some? ==> k <= |r.value.0| <= |name|
    decreases |name| - k
  {
    match TailGroups(name[k..])
    case Some(g) => Some((name[..k], g))
    case None => if k < |name| && name[k] != '\n' then SearchFrom(name, k + 1) else None
  }

  /** `pattern.fullmatch(filename)`: the base (`group(1)`) and the digit groups present. */
  function Match(name: string): Option<(string, seq<string>)> {
    SearchFrom(name, 0)
  }

  /**
   * What the regular expression means: a match gives the shortest base
   * with which the whole name matches, and there is no match exactly when
   * no base does.
   */
  ghost predicate ShortestBase(name: string, r: Option<(string, seq<string>)>) {
    && (r.Some? ==>
      && BaseAt(name, |r.value.0|) && name[..|r.value.0|] == r.value.0
      && TailGroups(name[|r.value.0|..]) == Some(r.value.1)
      && forall j :: 0 <= j < |r.value.0| ==> !BaseAt(name, j))
    && (r.None? ==> forall j :: 0 <= j <= |name| ==> !BaseAt(name, j))
  }

  lemma {:induction false} SearchFromShortest(name: string, k: nat)
    requires k <= |name|
    requires forall i :: 0 <= i < k ==> name[i] != '\n'
    requires forall j :: 0 <= j < k ==> !BaseAt(name, j)
    ensures ShortestBase(name, SearchFrom(name, k))
    decreases |name| - k
  {
    if TailGroups(name[k..]).None? {
      if k < |name| && name[k] != '\n' {
        SearchFromShortest(name, k + 1);
      } else {
        forall j | k < j <= |name|
          ensures !BaseAt(name, j)
        {
          assert name[k] == '\n';
        }
      }
    }
  }

  /** `Match` is the regular expression's lazy full match. */
  lemma MatchShortest(name: string)
    ensures ShortestBase(name, Match(name))
  {
    SearchFromShortest(name, 0);
  }

  // ---------------------------------------------------------------------
  // The new name
  // ---------------------------------------------------------------------

  /** `f"{base_name}.{'.'.join(numbers)}.mp3"`. */
  function NewName(base: string, numbers: seq<string>): string {
    base + "." + Join(numbers, ".") + ".mp3"
  }

  /** The new name of a matching file, or None when the pattern does not match. */
  function Rewrite(name: string): Option<string> {
    match Match(name)
    case Some((base, numbers)) => Some(NewName(base, numbers))
    case None => None
  }

  /**
   * A matching name is the base, the extension in any case, and the digit
   * groups; the new name is the same base and groups with a lower-case
   * extension moved to the end. Its length is the old one.
   */
  lemma RewriteMovesExtension(name: string, base: string, numbers: seq<string>)
    requires Match(name) == Some((base, numbers))
    ensures |base| + 8 <= |name| && |numbers| in {1, 2}
    ensures Lower(name[|base|..|base| + 4]) == ".mp3"
    ensures name == base + name[|base|..|base| + 4] + "." + Join(numbers, ".")
    ensures Rewrite(name) == Some(base + "." + Join(numbers, ".") + ".mp3")
    ensures |Rewrite(name).value| == |name|
  {
    MatchParts(name, base, numbers);
  }

  /** The matched name taken apart: the base, the four characters of the extension, a dot and the groups. */
  lemma MatchParts(name: string, base: string, numbers: seq<string>)
    requires Match(name) == Some((base, numbers))
    ensures |base| + 8 <= |name| && |numbers| in {1, 2}
    ensures Lower(name[|base|..|base| + 4]) == ".mp3"
    ensures name == base + name[|base|..|base| + 4] + "." + Join(numbers, ".")
  {
    MatchSplits(name, base, numbers);
    var rest := name[|base|..];
    TailShape(rest);
    assert rest[..4] == name[|base|..|base| + 4];
    assert name == base + rest;
  }

  lemma MatchSplits(name: string, base: string, numbers: seq<string>)
    requires Match(name) == Some((base, numbers))
    ensures |base| <= |name| && name[..|base|] == base && TailGroups(name[|base|..]) == Some(numbers)
  {
    MatchShortest(name);
  }

  /** A name whose last three characters are not all digits never matches. */
  lemma NoDigitEndNoMatch(name: string)
    requires |name| >= 3 && !IsThreeDigits(name[|name| - 3..])
    ensures Match(name).None?
  {
    MatchShortest(name);
    forall j | 0 <= j <= |name|
      ensures !BaseAt(name, j)
    {
      if |name| - j >= 8 {
        assert name[j..][|name| - j - 3..] == name[|name| - 3..];
      }
    }
  }

  /** A rewritten name ends in `.mp3` and is left alone by a second pass. */
  lemma RewriteIdempotent(name: string)
    requires Rewrite(name).Some?
    ensures EndsWith(Rewrite(name).value, ".mp3")
    ensures Rewrite(Rewrite(name).value).None?
  {
    var n := Rewrite(name).value;
    assert n[|n| - 3] == 'm';
    NoDigitEndNoMatch(n);
  }

  /** The pattern ignores case, so two names that differ only there get the same new name. */
  lemma RewriteIgnoresCase()
    ensures Rewrite("a.mp3.001") == Rewrite("a.MP3.001") == Some("a.001.mp3")
  {
    var lower, upper := "a.mp3.001", "a.MP3.001";
    assert lower[1..][..4] == ".mp3" && upper[1..][..4] == ".MP3";
    assert Lower(".MP3") == ".mp3" && Lower(".mp3") == ".mp3";
    assert lower[1..][5..8] == "001" && upper[1..][5..8] == "001";
    assert TailGroups(lower[1..]) == Some(["001"]);
    assert TailGroups(upper[1..]) == Some(["001"]);
    assert lower[..1] == "a" && upper[..1] == "a";
    assert Join(["001"], ".") == "001";
    assert lower[0..] == lower && upper[0..] == upper;
    assert SearchFrom(lower, 0) == SearchFrom(lower, 1) == Some(("a", ["001"]));
    assert SearchFrom(upper, 0) == SearchFrom(upper, 1) == Some(("a", ["001"]));
    assert NewName("a", ["001"]) == "a.001.mp3";
  }

  // ---------------------------------------------------------------------
  // process_files
  // ---------------------------------------------------------------------

  /** A line of the log window. */
  datatype LogLine = Renamed(from: string, to: string) | RenameError(name: string)

  /**
   * How a run ends: no folder entered, the listing failed (the error box),
   * or the log and the count of renamed files.
   */
  datatype Outcome = NoFolder | ListError | Done(log: seq<LogLine>, processed: nat)

  /** The line the loop writes for one name of the listing, if any. */
  function Line(folder: string, name: string, isFile: string -> bool, fails: (string, string) -> bool): (l: Option<LogLine>)
    ensures l.Some? <==> isFile(PathJoin(folder, name)) && Rewrite(name).Some?
    ensures l.Some? ==> l.value == RenameError(name) || l.value == Renamed(name, Rewrite(name).value)
    ensures l.Some? ==> (l.value.Renamed? <==> !fails(PathJoin(folder, name), PathJoin(folder, Rewrite(name).value)))
  {
    var path := PathJoin(folder, name);
    match Rewrite(name)
    case Some(n) =>
      if !isFile(path) then None
      else if fails(path, PathJoin(folder, n)) then Some(RenameError(name))
      else Some(Renamed(name, n))
    case None => None
  }

  /** The log the loop writes for `names`, a prefix of the listing. */
  function LogOf(folder: string, names: seq<string>, isFile: string -> bool, fails: (string, string) -> bool): (log: seq<LogLine>)
    ensures |log| <= |names|
  {
    if |names| == 0 then []
    else
      LogOf(folder, names[..|names| - 1], isFile, fails) + AsSeq(Line(folder, names[|names| - 1], isFile, fails))
  }

  function AsSeq<T>(o: Option<T>): (r: seq<T>)
    ensures |r| <= 1
  {
    if o.Some? then [o.value] else []
  }

  /** The regular files of `names` the pattern matches, in listing order. */
  function Attempted(folder: string, names: seq<string>, isFile: string -> bool): (r: seq<string>)
    ensures forall k :: 0 <= k < |r| ==> r[k] in names && isFile(PathJoin(folder, r[k])) && Rewrite(r[k]).Some?
  {
    if |names| == 0 then []
    else
      var init := Attempted(folder, names[..|names| - 1], isFile);
      var name := names[|names| - 1];
      if isFile(PathJoin(folder, name)) && Rewrite(name).Some? then init + [name] else init
  }

  /** The number of `Renamed` lines. */
  function RenamedCount(log: seq<LogLine>): (n: nat)
    ensures n <= |log|
  {
    if |log| == 0 then 0 else RenamedCount(log[..|log| - 1]) + (if log[|log| - 1].Renamed? then 1 else 0)
  }

  /**
   * Every attempted file gets one line, in order: `Renamed` with its new
   * name, or `RenameError`; other names get none.
   */
  lemma {:induction false} LogFollowsAttempts(folder: string, names: seq<string>, isFile: string -> bool, fails: (string, string) -> bool)
    ensures var log := LogOf(folder, names, isFile, fails);
      var tried := Attempted(folder, names, isFile);
      Follows(log, tried)
  {
    if |names| > 0 {
      var init := names[..|names| - 1];
      var name := names[|names| - 1];
      LogFollowsAttempts(folder, init, isFile, fails);
      var log0, tried0 := LogOf(folder, init, isFile, fails), Attempted(folder, init, isFile);
      var l := Line(folder, name, isFile, fails);
      if l.Some? {
        assert Attempted(folder, names, isFile) == tried0 + [name];
        assert LogOf(folder, names, isFile, fails) == log0 + [l.value];
        FollowsSnoc(log0, tried0, l.value, name);
      } else {
        assert Attempted(folder, names, isFile) == tried0;
        assert LogOf(folder, names, isFile, fails) == log0 + [];
      }
    }
  }

  /** Line `k` of the log is the attempt at file `k`: a failure, or the rename to its new name. */
  ghost predicate Follows(log: seq<LogLine>, tried: seq<string>)
    requires forall k :: 0 <= k < |tried| ==> Rewrite(tried[k]).Some?
  {
    && |log| == |tried|
    && forall k :: 0 <= k < |log| ==>
      (log[k] == RenameError(tried[k]) || log[k] == Renamed(tried[k], Rewrite(tried[k]).value))
  }

  lemma FollowsSnoc(log: seq<LogLine>, tried: seq<string>, l: LogLine, name: string)
    requires forall k :: 0 <= k < |tried| ==> Rewrite(tried[k]).Some?
    requires Rewrite(name).Some?
    requires Follows(log, tried)
    requires l == RenameError(name) || l == Renamed(name, Rewrite(name).value)
    ensures Follows(log + [l], tried + [name])
  {
  }

  /** One name of the listing. */
  method Visit(folder: string, name: string, isFile: string -> bool, fails: (string, string) -> bool)
    returns (line: Option<LogLine>, renamed: bool)
    ensures line == Line(folder, name, isFile, fails)
    ensures renamed <==> line.Some? && line.value.Renamed?
  {
    var path := PathJoin(folder, name);
    line, renamed := None, false;
    if isFile(path) {
      var m := Match(name);
      if m.Some? {
        var newName := NewName(m.value.0, m.value.1);
        assert Rewrite(name) == Some(newName);
        if fails(path, PathJoin(folder, newName)) {
          line := Some(RenameError(name));
        } else {
          line := Some(Renamed(name, newName));
          renamed := true;
        }
      }
    }
  }

  lemma RenamedCountSnoc(log: seq<LogLine>, l: LogLine)
    ensures RenamedCount(log + [l]) == RenamedCount(log) + (if l.Renamed? then 1 else 0)
    ensures ErrorCount(log + [l]) == ErrorCount(log) + (if l.RenameError? then 1 else 0)
  {
    assert (log + [l])[..|log|] == log;
  }

  /**
   * `process_files`: nothing happens without a folder; otherwise each
   * regular file of the listing whose name matches is renamed, the log
   * records each attempt, and the count rises only when a rename succeeds.
   */
  method ProcessFiles(folder: string, listing: Option<seq<string>>, isFile: string -> bool, fails: (string, string) -> bool)
    returns (out: Outcome)
    ensures folder == "" ==> out == NoFolder
    ensures folder != "" && listing.None? ==> out == ListError
    ensures folder != "" && listing.Some? ==> out == Done(LogOf(folder, listing.value, isFile, fails), RenamedCount(LogOf(folder, listing.value, isFile, fails)))
  {
    if folder == "" {
      return NoFolder;
    }
    if listing.None? {
      return ListError;
    }
    var names := listing.value;
    var log: seq<LogLine> := [];
    var processed: nat := 0;
    for i := 0 to |names|
      invariant log == LogOf(folder, names[..i], isFile, fails)
      invariant processed == RenamedCount(log)
    {
      log, processed := ProcessStep(folder, names, i, isFile, fails, log, processed);
    }
    assert names[..|names|] == names;
    out := Done(log, processed);
  }

  /** One name of the listing: its line, if any, is logged, and a rename is counted. */
  method ProcessStep(folder: string, names: seq<string>, i: nat, isFile: string -> bool, fails: (string, string) -> bool,
                     log: seq<LogLine>, processed: nat)
    returns (log': seq<LogLine>, processed': nat)
    requires i < |names|
    requires log == LogOf(folder, names[..i], isFile, fails) && processed == RenamedCount(log)
    ensures log' == LogOf(folder, names[..i + 1], isFile, fails) && processed' == RenamedCount(log')
  {
    var line, renamed := Visit(folder, names[i], isFile, fails);
    LogOfSnoc(folder, names, i, isFile, fails);
    if line.Some? {
      RenamedCountSnoc(log, line.value);
      log' := log + [line.value];
      processed' := if renamed then processed + 1 else processed;
    } else {
      log', processed' := log, processed;
      assert log + AsSeq(line) == log;
    }
  }

  lemma LogOfSnoc(folder: string, names: seq<string>, i: nat, isFile: string -> bool, fails: (string, string) -> bool)
    requires i < |names|
    ensures LogOf(folder, names[..i + 1], isFile, fails) == LogOf(folder, names[..i], isFile, fails) + AsSeq(Line(folder, names[i], isFile, fails))
  {
    assert names[..i + 1][..i] == names[..i];
  }

  /** The number of `RenameError` lines. */
  function ErrorCount(log: seq<LogLine>): (n: nat)
    ensures n <= |log|
  {
    if |log| == 0 then 0 else ErrorCount(log[..|log| - 1]) + (if log[|log| - 1].RenameError? then 1 else 0)
  }

  /** Renamed files and failed renames together are the attempts: `success + errors` is the number of matching regular files. */
  lemma {:induction false} ProcessedCount(folder: string, names: seq<string>, isFile: string -> bool, fails: (string, string) -> bool)
    ensures var log := LogOf(folder, names, isFile, fails);
      RenamedCount(log) + ErrorCount(log) == |Attempted(folder, names, isFile)|
  {
    LogFollowsAttempts(folder, names, isFile, fails);
    RenamedCountSplit(LogOf(folder, names, isFile, fails));
  }

  lemma {:induction false} RenamedCountSplit(log: seq<LogLine>)
    ensures RenamedCount(log) + ErrorCount(log) == |log|
  {
    if |log| > 0 {
      RenamedCountSplit(log[..|log| - 1]);
    }
  }

  /** A second run over the new names renames nothing. */
  lemma {:induction false} SecondRunIdle(folder: string, renamed: seq<string>, isFile: string -> bool)
    requires forall k :: 0 <= k < |renamed| ==> exists name :: Rewrite(name) == Some(renamed[k])
    ensures Attempted(folder, renamed, isFile) == []
  {
    if |renamed| > 0 {
      var last := renamed[|renamed| - 1];
      var name :| Rewrite(name) == Some(last);
      RewriteIdempotent(name);
      SecondRunIdle(folder, renamed[..|renamed| - 1], isFile);
    }
  }
}
