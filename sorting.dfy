/**
 * The two sorts AudioOrganizer calls: `folder_info.sort(key=path)`, which
 * orders strings the way Python compares them (code point by code point, a
 * proper prefix first), and `folder_rename_plan.sort(key=len, reverse=True)`.
 * Both are insertion sorts here, each proved stable; each result is
 * ordered and is a permutation of its input.
 */
module Sorting {

  /** Python's `a <= b` on strings. */
  predicate StrLe(a: string, b: string) {
    if |a| == 0 then true
    else if |b| == 0 then false
    else if a[0] != b[0] then a[0] < b[0]
    else StrLe(a[1..], b[1..])
  }

  predicate StrLt(a: string, b: string) {
    StrLe(a, b) && a != b
  }

  lemma {:induction false} StrLeTotal(a: string, b: string)
    ensures StrLe(a, b) || StrLe(b, a)
  {
    if |a| > 0 && |b| > 0 && a[0] == b[0] {
      StrLeTotal(a[1..], b[1..]);
    }
  }

  lemma {:induction false} StrLeAntisymmetric(a: string, b: string)
    requires StrLe(a, b) && StrLe(b, a)
    ensures a == b
  {
    if |a| > 0 && |b| > 0 {
      StrLeAntisymmetric(a[1..], b[1..]);
      assert a == [a[0]] + a[1..] && b == [b[0]] + b[1..];
    }
  }

  lemma {:induction false} StrLeTransitive(a: string, b: string, c: string)
    requires StrLe(a, b) && StrLe(b, c)
    ensures StrLe(a, c)
  {
    if |a| > 0 && |b| > 0 && |c| > 0 && a[0] == b[0] && b[0] == c[0] {
      StrLeTransitive(a[1..], b[1..], c[1..]);
    }
  }

  /** When `a < b` fails, `b <= a`. */
  lemma StrNotLt(a: string, b: string)
    requires !StrLt(a, b)
    ensures StrLe(b, a)
  {
    StrLeTotal(a, b);
  }

  // ---------------------------------------------------------------------
  // Ascending by a string key
  // ---------------------------------------------------------------------

  ghost predicate SortedByKey<T>(s: seq<T>, key: T -> string) {
    forall i, j :: 0 <= i < j < |s| ==> StrLe(key(s[i]), key(s[j]))
  }

  /** Inserts `x` after every element whose key is not greater than its own. */
  function InsertByKey<T>(x: T, t: seq<T>, key: T -> string): (r: seq<T>)
    ensures multiset(r) == multiset(t) + multiset{x}
  {
    if |t| == 0 then [x]
    else if StrLt(key(x), key(t[0])) then [x] + t
    else
      assert t == [t[0]] + t[1..];
      [t[0]] + InsertByKey(x, t[1..], key)
  }

  /** Inserting into a sequence ordered by key keeps it ordered. */
  lemma {:induction false} InsertByKeySorted<T>(x: T, t: seq<T>, key: T -> string)
    requires SortedByKey(t, key)
    ensures SortedByKey(InsertByKey(x, t, key), key)
  {
    if |t| > 0 {
      if StrLt(key(x), key(t[0])) {
        InsertFrontSorted(x, t, key);
      } else {
        var rest := InsertByKey(x, t[1..], key);
        InsertByKeySorted(x, t[1..], key);
        StrNotLt(key(x), key(t[0]));
        assert t == [t[0]] + t[1..];
        HeadBeforeAll(t[0], x, t[1..], rest, (a, b) => StrLe(key(a), key(b)));
      }
    }
  }

  /** An element whose key is below the first one's can go in front. */
  lemma InsertFrontSorted<T>(x: T, t: seq<T>, key: T -> string)
    requires SortedByKey(t, key) && |t| > 0 && StrLt(key(x), key(t[0]))
    ensures SortedByKey([x] + t, key)
  {
    assert t == [t[0]] + t[1..];
    forall k | 0 <= k < |t| ensures StrLe(key(x), key(t[k])) {
      if k > 0 {
        StrLeTransitive(key(x), key(t[0]), key(t[k]));
      }
    }
    HeadBeforeAll(x, t[0], t[1..], t, (a, b) => StrLe(key(a), key(b)));
  }

  /**
   * `h` followed by `rest` is ordered by `le` when `rest` is ordered and
   * holds the elements of `t` plus `x`, and `h` comes before `x` and every
   * element of `t`.
   */
  lemma HeadBeforeAll<T>(h: T, x: T, t: seq<T>, rest: seq<T>, le: (T, T) -> bool)
    requires multiset(rest) == multiset(t) + multiset{x}
    requires le(h, x) && forall k :: 0 <= k < |t| ==> le(h, t[k])
    requires forall i, j :: 0 <= i < j < |rest| ==> le(rest[i], rest[j])
    ensures forall i, j :: 0 <= i < j < |[h] + rest| ==> le(([h] + rest)[i], ([h] + rest)[j])
  {
    forall j | 0 <= j < |rest| ensures le(h, rest[j]) {
      assert rest[j] in multiset(rest);
      if rest[j] != x {
        assert rest[j] in multiset(t);
        var k :| 0 <= k < |t| && t[k] == rest[j];
      }
    }
  }

  /** A stable sort by ascending key, as `list.sort(key=...)`. */
  function SortByKey<T>(s: seq<T>, key: T -> string): (r: seq<T>)
    ensures multiset(r) == multiset(s)
    ensures SortedByKey(r, key)
  {
    if |s| == 0 then []
    else
      assert s == s[..|s| - 1] + [s[|s| - 1]];
      var sorted := SortByKey(s[..|s| - 1], key);
      InsertByKeySorted(s[|s| - 1], sorted, key);
      InsertByKey(s[|s| - 1], sorted, key)
  }

  // ---------------------------------------------------------------------
  // Descending by an integer key
  // ---------------------------------------------------------------------

  ghost predicate SortedDescending<T>(s: seq<T>, key: T -> int) {
    forall i, j :: 0 <= i < j < |s| ==> key(s[i]) >= key(s[j])
  }

  /** Inserts `x` after every element whose key is not smaller than its own. */
  function InsertDescending<T>(x: T, t: seq<T>, key: T -> int): (r: seq<T>)
    ensures multiset(r) == multiset(t) + multiset{x}
  {
    if |t| == 0 then [x]
    else if key(x) > key(t[0]) then [x] + t
    else
      assert t == [t[0]] + t[1..];
      [t[0]] + InsertDescending(x, t[1..], key)
  }

  /** Inserting into a descending sequence keeps it descending. */
  lemma {:induction false} InsertDescendingSorted<T>(x: T, t: seq<T>, key: T -> int)
    requires SortedDescending(t, key)
    ensures SortedDescending(InsertDescending(x, t, key), key)
  {
    if |t| > 0 && key(x) <= key(t[0]) {
      var rest := InsertDescending(x, t[1..], key);
      InsertDescendingSorted(x, t[1..], key);
      assert t == [t[0]] + t[1..];
      HeadBeforeAll(t[0], x, t[1..], rest, (a, b) => key(a) >= key(b));
    }
  }

  /** A stable sort by descending key, as `list.sort(key=..., reverse=True)`. */
  function SortDescending<T>(s: seq<T>, key: T -> int): (r: seq<T>)
    ensures multiset(r) == multiset(s)
    ensures SortedDescending(r, key)
  {
    if |s| == 0 then []
    else
      assert s == s[..|s| - 1] + [s[|s| - 1]];
      var sorted := SortDescending(s[..|s| - 1], key);
      InsertDescendingSorted(s[|s| - 1], sorted, key);
      InsertDescending(s[|s| - 1], sorted, key)
  }

  /** The elements of `s` whose key is `v`, in order. */
  function WithKey<T, K(==)>(s: seq<T>, key: T -> K, v: K): seq<T> {
    if |s| == 0 then [] else (if key(s[0]) == v then [s[0]] else []) + WithKey(s[1..], key, v)
  }

  lemma {:induction false} WithKeyAppend<T, K>(a: seq<T>, b: seq<T>, key: T -> K, v: K)
    ensures WithKey(a + b, key, v) == WithKey(a, key, v) + WithKey(b, key, v)
  {
    if |a| > 0 {
      assert (a + b)[1..] == a[1..] + b;
      WithKeyAppend(a[1..], b, key, v);
    } else {
      assert a + b == b;
    }
  }

  lemma {:induction false} WithKeyNone<T>(s: seq<T>, key: T -> int, v: int)
    requires forall j :: 0 <= j < |s| ==> key(s[j]) < v
    ensures WithKey(s, key, v) == []
  {
    if |s| > 0 {
      WithKeyNone(s[1..], key, v);
    }
  }

  /** Inserting into a descending sequence puts `x` after every element of its key. */
  lemma {:induction false} InsertDescendingStable<T>(x: T, t: seq<T>, key: T -> int, v: int)
    requires SortedDescending(t, key)
    ensures WithKey(InsertDescending(x, t, key), key, v) == WithKey(t, key, v) + WithKey([x], key, v)
  {
    if |t| == 0 {
      assert InsertDescending(x, t, key) == [x];
    } else if key(x) > key(t[0]) {
      if key(x) == v {
        WithKeyNone(t, key, v);
      }
      assert InsertDescending(x, t, key) == [x] + t;
      WithKeyAppend([x], t, key, v);
    } else {
      var rest := InsertDescending(x, t[1..], key);
      assert SortedDescending(t[1..], key) by {
        forall i, j | 0 <= i < j < |t| - 1 ensures key(t[1..][i]) >= key(t[1..][j]) {
          assert t[1..][i] == t[i + 1] && t[1..][j] == t[j + 1];
        }
      }
      InsertDescendingStable(x, t[1..], key, v);
      assert InsertDescending(x, t, key) == [t[0]] + rest;
      WithKeyAppend([t[0]], rest, key, v);
      assert t == [t[0]] + t[1..];
      WithKeyAppend([t[0]], t[1..], key, v);
    }
  }

  /** The sort is stable: elements of equal key keep their relative order. */
  lemma {:induction false} SortDescendingStable<T>(s: seq<T>, key: T -> int, v: int)
    ensures WithKey(SortDescending(s, key), key, v) == WithKey(s, key, v)
  {
    if |s| > 0 {
      var init, last := s[..|s| - 1], s[|s| - 1];
      SortDescendingStable(init, key, v);
      InsertDescendingStable(last, SortDescending(init, key), key, v);
      assert s == init + [last];
      WithKeyAppend(init, [last], key, v);
    }
  }

  // ---------------------------------------------------------------------
  // Stability of the ascending sort
  // ---------------------------------------------------------------------

  /** No element of a key-ordered `t` has the key of an `x` that sorts before its head. */
  lemma AboveHead<T>(x: T, t: seq<T>, key: T -> string)
    requires SortedByKey(t, key) && |t| > 0 && StrLt(key(x), key(t[0]))
    ensures WithKey(t, key, key(x)) == []
  {
    forall j | 0 <= j < |t| ensures key(t[j]) != key(x) {
      if key(t[j]) == key(x) && j > 0 {
        StrLeAntisymmetric(key(x), key(t[0]));
      }
    }
    NoneWithKey(t, key, key(x));
  }

  lemma {:induction false} NoneWithKey<T, K>(s: seq<T>, key: T -> K, v: K)
    requires forall j :: 0 <= j < |s| ==> key(s[j]) != v
    ensures WithKey(s, key, v) == []
  {
    if |s| > 0 {
      NoneWithKey(s[1..], key, v);
    }
  }

  /** Inserting into a key-ordered sequence puts `x` after every element of its key. */
  lemma {:induction false} InsertByKeyStable<T>(x: T, t: seq<T>, key: T -> string, v: string)
    requires SortedByKey(t, key)
    ensures WithKey(InsertByKey(x, t, key), key, v) == WithKey(t, key, v) + WithKey([x], key, v)
  {
    if |t| == 0 {
      assert InsertByKey(x, t, key) == [x];
    } else if StrLt(key(x), key(t[0])) {
      if key(x) == v {
        AboveHead(x, t, key);
      }
      assert InsertByKey(x, t, key) == [x] + t;
      WithKeyAppend([x], t, key, v);
    } else {
      var rest := InsertByKey(x, t[1..], key);
      assert SortedByKey(t[1..], key) by {
        forall i, j | 0 <= i < j < |t| - 1 ensures StrLe(key(t[1..][i]), key(t[1..][j])) {
          assert t[1..][i] == t[i + 1] && t[1..][j] == t[j + 1];
        }
      }
      InsertByKeyStable(x, t[1..], key, v);
      assert InsertByKey(x, t, key) == [t[0]] + rest;
      WithKeyAppend([t[0]], rest, key, v);
      assert t == [t[0]] + t[1..];
      WithKeyAppend([t[0]], t[1..], key, v);
    }
  }

  /** The ascending sort is stable: elements of equal key keep their relative order. */
  lemma {:induction false} SortByKeyStable<T>(s: seq<T>, key: T -> string, v: string)
    ensures WithKey(SortByKey(s, key), key, v) == WithKey(s, key, v)
  {
    if |s| > 0 {
      var init, last := s[..|s| - 1], s[|s| - 1];
      SortByKeyStable(init, key, v);
      InsertByKeyStable(last, SortByKey(init, key), key, v);
      assert s == init + [last];
      WithKeyAppend(init, [last], key, v);
    }
  }
}
