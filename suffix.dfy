/**
 * The " (k)" disambiguation suffix that AudioOrganizer puts in front of an
 * extension, both when flattening a container folder and when two planned
 * file names collide, and the facts the collision loops need: different
 * counters give different names (also after ASCII lower-casing), so a loop
 * that tries k = 1, 2, ... against a finite set of taken names stops.
 */
module Suffix {
  import opened Text

  /** `f"{stem} ({k}){ext}"`. */
  function Suffixed(stem: string, k: nat, ext: string): (r: string)
    ensures StartsWith(r, stem + " (") && EndsWith(r, ")" + ext)
  {
    stem + " (" + NatToString(k) + ")" + ext
  }

  lemma {:induction false} SuffixedInjective(stem: string, ext: string, j: nat, k: nat)
    requires Suffixed(stem, j, ext) == Suffixed(stem, k, ext)
    ensures j == k
  {
    var a, b := NatToString(j), NatToString(k);
    var s := Suffixed(stem, j, ext);
    var p := |stem| + 2;
    assert |a| == |b|;
    assert s[p..p + |a|] == a;
    assert Suffixed(stem, k, ext)[p..p + |b|] == b;
    NatToStringInjective(j, k);
  }

  /** Lower-casing leaves the digits, the blank and the parentheses alone. */
  lemma LowerSuffixed(stem: string, k: nat, ext: string)
    ensures Lower(Suffixed(stem, k, ext)) == Suffixed(Lower(stem), k, Lower(ext))
  {
    var d := NatToString(k);
    LowerAppend(stem + " (" + d + ")", ext);
    LowerAppend(stem + " (" + d, ")");
    LowerAppend(stem + " (", d);
    LowerAppend(stem, " (");
    assert Lower(d) == d;
    assert Lower(" (") == " (";
    assert Lower(")") == ")";
  }

  /** The names tried for counters 1 .. c-1. */
  function Tried(stem: string, ext: string, c: nat): set<string> {
    set k | 1 <= k < c :: Suffixed(stem, k, ext)
  }

  lemma {:induction false} TriedCardinality(stem: string, ext: string, c: nat)
    requires c >= 1
    ensures |Tried(stem, ext, c)| == c - 1
  {
    if c > 1 {
      TriedCardinality(stem, ext, c - 1);
      TriedSnoc(stem, ext, c);
      TriedFresh(stem, ext, c);
    } else {
      assert Tried(stem, ext, c) == {};
    }
  }

  lemma TriedSnoc(stem: string, ext: string, c: nat)
    requires c > 1
    ensures Tried(stem, ext, c) == Tried(stem, ext, c - 1) + {Suffixed(stem, c - 1, ext)}
  {
  }

  /** The name for counter c-1 is none of the names tried before it. */
  lemma TriedFresh(stem: string, ext: string, c: nat)
    requires c > 1
    ensures Suffixed(stem, c - 1, ext) !in Tried(stem, ext, c - 1)
  {
    var last := Suffixed(stem, c - 1, ext);
    if last in Tried(stem, ext, c - 1) {
      var k :| 1 <= k < c - 1 && Suffixed(stem, k, ext) == last;
      SuffixedInjective(stem, ext, k, c - 1);
    }
  }

  /** When every tried name is taken, there were at most as many tries as taken names. */
  lemma TriesBounded(stem: string, ext: string, c: nat, taken: set<string>)
    requires c >= 1
    requires Tried(stem, ext, c) <= taken
    ensures c - 1 <= |taken|
  {
    TriedCardinality(stem, ext, c);
    var t := Tried(stem, ext, c);
    assert taken == t + (taken - t);
  }
}
