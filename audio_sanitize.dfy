/**
 * `sanitize_filename` of Python/AudioOrganizer.py: path separators are
 * replaced, the characters Windows forbids are deleted, every run of
 * whitespace becomes one blank, and blanks and dots are stripped from both
 * ends. The lemmas show the result is clean and that cleaning is idempotent.
 */
module Sanitize {
  import opened Text

  /** Characters deleted by `re.sub(r'[<>:"|?*]', '', ...)`. */
  predicate IsForbidden(c: char) {
    c == '<' || c == '>' || c == ':' || c == '"' || c == '|' || c == '?' || c == '*'
  }

  predicate IsSeparator(c: char) { c == '/' || c == '\\' }

  predicate IsBlankOrDot(c: char) { c == ' ' || c == '.' }

  /** Every '/' and '\' becomes `repl` (" " for a path component, " - " otherwise). */
  function ReplaceSeparators(s: string, repl: string): (r: string)
    requires forall k :: 0 <= k < |repl| ==> !IsSeparator(repl[k])
    ensures forall k :: 0 <= k < |r| ==> !IsSeparator(r[k])
    ensures (forall k :: 0 <= k < |s| ==> !IsSeparator(s[k])) ==> r == s
  {
    if |s| == 0 then ""
    else (if IsSeparator(s[0]) then repl else [s[0]]) + ReplaceSeparators(s[1..], repl)
  }

  function RemoveForbidden(s: string): (r: string)
    ensures forall k :: 0 <= k < |r| ==> !IsForbidden(r[k])
    ensures forall c :: c in r ==> c in s
    ensures (forall k :: 0 <= k < |s| ==> !IsForbidden(s[k])) ==> r == s
  {
    if |s| == 0 then ""
    else (if IsForbidden(s[0]) then "" else [s[0]]) + RemoveForbidden(s[1..])
  }

  /** `re.sub(r'\s+', ' ', s)`. */
  function CollapseWhitespace(s: string): (r: string)
    ensures forall c :: c in r ==> c in s || c == ' '
    decreases |s|
  {
    if |s| == 0 then ""
    else if IsSpace(s[0]) then " " + CollapseWhitespace(s[LeadCount(s, IsSpace)..])
    else [s[0]] + CollapseWhitespace(s[1..])
  }

  /** `sanitize_filename(name, is_path_component)`. */
  function SanitizeFilename(name: string, isPathComponent: bool): string {
    var replaced := ReplaceSeparators(name, if isPathComponent then " " else " - ");
    Trim(CollapseWhitespace(RemoveForbidden(replaced)), IsBlankOrDot)
  }

  // ---------------------------------------------------------------------
  // What a clean name looks like
  // ---------------------------------------------------------------------

  /** The only whitespace left is single blanks. */
  ghost predicate SingleBlanks(s: string) {
    && (forall k :: 0 <= k < |s| ==> IsSpace(s[k]) ==> s[k] == ' ')
    && (forall k :: 0 <= k < |s| - 1 ==> !(IsSpace(s[k]) && IsSpace(s[k + 1])))
  }

  ghost predicate Clean(s: string) {
    && (forall k :: 0 <= k < |s| ==> !IsForbidden(s[k]) && !IsSeparator(s[k]))
    && SingleBlanks(s)
    && (|s| > 0 ==> !IsBlankOrDot(s[0]) && !IsBlankOrDot(s[|s| - 1]))
  }

  lemma {:induction false} CollapseWhitespaceSingle(s: string)
    ensures SingleBlanks(CollapseWhitespace(s))
    ensures |CollapseWhitespace(s)| > 0 && IsSpace(CollapseWhitespace(s)[0]) ==> |s| > 0 && IsSpace(s[0])
    decreases |s|
  {
    if |s| > 0 {
      if IsSpace(s[0]) {
        var rest := s[LeadCount(s, IsSpace)..];
        CollapseWhitespaceSingle(rest);
        assert |rest| > 0 ==> !IsSpace(rest[0]);
      } else {
        CollapseWhitespaceSingle(s[1..]);
      }
    }
  }

  lemma {:induction false} CollapseKeepsAbsent(s: string, p: char -> bool)
    requires !p(' ')
    requires forall k :: 0 <= k < |s| ==> !p(s[k])
    ensures forall k :: 0 <= k < |CollapseWhitespace(s)| ==> !p(CollapseWhitespace(s)[k])
  {
    var r := CollapseWhitespace(s);
    forall k | 0 <= k < |r| ensures !p(r[k]) {
      assert r[k] in r;
    }
  }

  /** A string with single blanks only is left as it is by the collapse. */
  lemma {:induction false} CollapseNoop(s: string)
    requires SingleBlanks(s)
    ensures CollapseWhitespace(s) == s
    decreases |s|
  {
    if |s| > 0 {
      if IsSpace(s[0]) {
        assert LeadCount(s, IsSpace) == 1 by {
          assert |s| > 1 ==> !IsSpace(s[1]);
        }
        assert SingleBlanks(s[1..]);
        CollapseNoop(s[1..]);
        assert s == " " + s[1..];
      } else {
        assert SingleBlanks(s[1..]);
        CollapseNoop(s[1..]);
        assert s == [s[0]] + s[1..];
      }
    }
  }

  /** Slices of a string with single blanks have single blanks. */
  lemma SliceClean(s: string, a: nat, b: nat)
    requires a <= b <= |s|
    requires SingleBlanks(s)
    ensures SingleBlanks(s[a..b])
  {
    var t := s[a..b];
    forall k | 0 <= k < |t| - 1 ensures !(IsSpace(t[k]) && IsSpace(t[k + 1])) {
      assert t[k] == s[a + k] && t[k + 1] == s[a + k + 1];
    }
  }

  lemma RemoveKeepsAbsent(s: string, p: char -> bool)
    requires forall k :: 0 <= k < |s| ==> !p(s[k])
    ensures forall k :: 0 <= k < |RemoveForbidden(s)| ==> !p(RemoveForbidden(s)[k])
  {
    var r := RemoveForbidden(s);
    forall k | 0 <= k < |r| ensures !p(r[k]) {
      assert r[k] in r;
    }
  }

  /** Stripping blanks and dots from a string without forbidden characters or whitespace runs makes it clean. */
  lemma TrimMakesClean(c: string)
    requires forall k :: 0 <= k < |c| ==> !IsForbidden(c[k]) && !IsSeparator(c[k])
    requires SingleBlanks(c)
    ensures Clean(Trim(c, IsBlankOrDot))
  {
    var r := Trim(c, IsBlankOrDot);
    var lead := LeadCount(c, IsBlankOrDot);
    SliceClean(c, lead, lead + |r|);
    forall k | 0 <= k < |r| ensures !IsForbidden(r[k]) && !IsSeparator(r[k]) {
      assert r[k] == c[lead + k];
    }
  }

  /** The output of `sanitize_filename` is clean: no forbidden character, no separator, no whitespace run, no blank or dot at either end. */
  lemma SanitizeIsClean(name: string, isPathComponent: bool)
    ensures Clean(SanitizeFilename(name, isPathComponent))
  {
    var repl := if isPathComponent then " " else " - ";
    var a := ReplaceSeparators(name, repl);
    var b := RemoveForbidden(a);
    var c := CollapseWhitespace(b);
    RemoveKeepsAbsent(a, IsSeparator);
    CollapseKeepsAbsent(b, IsForbidden);
    CollapseKeepsAbsent(b, IsSeparator);
    CollapseWhitespaceSingle(b);
    TrimMakesClean(c);
  }

  /** A clean name is its own sanitized form. */
  lemma SanitizeClean(s: string, isPathComponent: bool)
    requires Clean(s)
    ensures SanitizeFilename(s, isPathComponent) == s
  {
    var repl := if isPathComponent then " " else " - ";
    assert ReplaceSeparators(s, repl) == s;
    assert RemoveForbidden(s) == s;
    CollapseNoop(s);
    TrimKeeps(s, IsBlankOrDot);
  }

  /** Sanitizing twice is sanitizing once (in either mode). */
  lemma SanitizeIdempotent(name: string, first: bool, second: bool)
    ensures SanitizeFilename(SanitizeFilename(name, first), second) == SanitizeFilename(name, first)
  {
    SanitizeIsClean(name, first);
    SanitizeClean(SanitizeFilename(name, first), second);
  }
}
