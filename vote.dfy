/**
 * Majority vote as `Counter(xs).most_common(1)[0][0]` computes it: the
 * Counter keeps its keys in first-insertion order and `most_common(1)` is
 * `max` over those items by count, so among equally frequent values the one
 * seen first wins.
 */
module Vote {

  /** How often `x` occurs in `xs`. */
  function Count<T(==)>(xs: seq<T>, x: T): nat {
    multiset(xs)[x]
  }

  /** The index of the first occurrence of `x` in `xs`. */
  function FirstIndex<T(==)>(xs: seq<T>, x: T): (r: nat)
    requires x in xs
    ensures r < |xs| && xs[r] == x
    ensures forall j :: 0 <= j < r ==> xs[j] != x
  {
    if xs[0] == x then 0 else 1 + FirstIndex(xs[1..], x)
  }

  /** `m` is a most frequent value of `xs`, and every value first seen before it is strictly less frequent. */
  ghost predicate IsFirstMode<T>(xs: seq<T>, m: T) {
    && m in xs
    && (forall y :: y in xs ==> Count(xs, y) <= Count(xs, m))
    && (forall j :: 0 <= j < FirstIndex(xs, m) ==> Count(xs, xs[j]) < Count(xs, m))
  }

  /** The first-seen mode is unique, so the vote is well defined. */
  lemma FirstModeUnique<T>(xs: seq<T>, a: T, b: T)
    requires IsFirstMode(xs, a) && IsFirstMode(xs, b)
    ensures a == b
  {
  }

  lemma CountSnoc<T>(xs: seq<T>, i: nat, y: T)
    requires i < |xs|
    ensures Count(xs[..i + 1], y) == Count(xs[..i], y) + (if xs[i] == y then 1 else 0)
  {
    assert xs[..i + 1] == xs[..i] + [xs[i]];
  }

  /** `counts` holds exactly the values of `p`, each with its number of occurrences. */
  ghost predicate Counts<T(!new)>(p: seq<T>, counts: map<T, nat>) {
    && (forall x :: x in counts <==> x in p)
    && (forall x :: x in counts ==> counts[x] == Count(p, x))
  }

  /** `keys` lists the values of `counts`, in the order of their first occurrence in `xs`, all within the prefix `p`. */
  ghost predicate KeysInOrder<T(!new)>(xs: seq<T>, p: seq<T>, keys: seq<T>, counts: map<T, nat>) {
    && (forall x :: x in counts <==> x in keys)
    && (forall a :: 0 <= a < |keys| ==> keys[a] in xs && FirstIndex(xs, keys[a]) < |p|)
    && (forall a, b :: 0 <= a < b < |keys| ==> FirstIndex(xs, keys[a]) < FirstIndex(xs, keys[b]))
  }

  /** Counting the i-th value. */
  lemma CountsStep<T(!new)>(xs: seq<T>, i: nat, counts: map<T, nat>)
    requires i < |xs| && Counts(xs[..i], counts)
    ensures var x := xs[i]; Counts(xs[..i + 1], counts[x := (if x in counts then counts[x] else 0) + 1])
  {
    var p, x := xs[..i], xs[i];
    assert xs[..i + 1] == p + [x];
    assert multiset(p + [x]) == multiset(p) + multiset{x};
    assert forall y :: y in p + [x] <==> y in p || y == x;
  }

  /** A value met for the first time at index `i` goes to the end of the keys. */
  lemma KeysStep<T(!new)>(xs: seq<T>, i: nat, keys: seq<T>, counts: map<T, nat>)
    requires i < |xs| && KeysInOrder(xs, xs[..i], keys, counts) && Counts(xs[..i], counts)
    ensures var x := xs[i];
      KeysInOrder(xs, xs[..i + 1], if x in counts then keys else keys + [x], counts[x := (if x in counts then counts[x] else 0) + 1])
  {
    var x := xs[i];
    if x !in counts {
      KeysStepNew(xs, i, keys, counts);
    } else {
      KeysStepOld(xs, i, keys, counts);
    }
  }

  lemma KeysStepOld<T(!new)>(xs: seq<T>, i: nat, keys: seq<T>, counts: map<T, nat>)
    requires i < |xs| && KeysInOrder(xs, xs[..i], keys, counts)
    requires xs[i] in counts
    ensures KeysInOrder(xs, xs[..i + 1], keys, counts[xs[i] := counts[xs[i]] + 1])
  {
    var counts' := counts[xs[i] := counts[xs[i]] + 1];
    assert forall y :: y in counts' <==> y in counts;
  }

  lemma KeysStepNew<T(!new)>(xs: seq<T>, i: nat, keys: seq<T>, counts: map<T, nat>)
    requires i < |xs| && KeysInOrder(xs, xs[..i], keys, counts) && Counts(xs[..i], counts)
    requires xs[i] !in counts
    ensures KeysInOrder(xs, xs[..i + 1], keys + [xs[i]], counts[xs[i] := 1])
  {
    var x := xs[i];
    var keys' := keys + [x];
    assert x !in xs[..i];
    FirstIndexAt(xs, i);
    forall a | 0 <= a < |keys'|
      ensures keys'[a] in xs && FirstIndex(xs, keys'[a]) < i + 1
    {
      if a < |keys| {
        assert keys'[a] == keys[a];
      }
    }
    forall a, b | 0 <= a < b < |keys'|
      ensures FirstIndex(xs, keys'[a]) < FirstIndex(xs, keys'[b])
    {
      assert keys'[a] == keys[a];
      if b < |keys| {
        assert keys'[b] == keys[b];
      }
    }
    assert forall y :: y in counts[x := 1] <==> y in keys';
  }

  /** The value at `i`, absent before it, first occurs at `i`. */
  lemma FirstIndexAt<T>(xs: seq<T>, i: nat)
    requires i < |xs| && xs[i] !in xs[..i]
    ensures FirstIndex(xs, xs[i]) == i
  {
  }

  /** One pass of the counting loop: the i-th value is counted, and becomes a key when it is new. */
  method TallyStep<T(==,!new)>(xs: seq<T>, i: nat, keys: seq<T>, counts: map<T, nat>)
    returns (keys': seq<T>, counts': map<T, nat>)
    requires i < |xs| && Counts(xs[..i], counts) && KeysInOrder(xs, xs[..i], keys, counts)
    ensures Counts(xs[..i + 1], counts') && KeysInOrder(xs, xs[..i + 1], keys', counts')
  {
    var x := xs[i];
    CountsStep(xs, i, counts);
    KeysStep(xs, i, keys, counts);
    keys' := if x in counts then keys else keys + [x];
    counts' := counts[x := (if x in counts then counts[x] else 0) + 1];
  }

  /** `Counter(xs)`: the distinct values in first-insertion order, and their counts. */
  method Tally<T(==,!new)>(xs: seq<T>) returns (keys: seq<T>, counts: map<T, nat>)
    ensures forall x :: x in counts <==> x in xs
    ensures forall x :: x in counts <==> x in keys
    ensures forall a :: 0 <= a < |keys| ==> keys[a] in xs
    ensures forall x :: x in counts ==> counts[x] == Count(xs, x)
    ensures forall a, b :: 0 <= a < b < |keys| ==> FirstIndex(xs, keys[a]) < FirstIndex(xs, keys[b])
  {
    keys, counts := [], map[];
    var i := 0;
    while i < |xs|
      invariant 0 <= i <= |xs|
      invariant Counts(xs[..i], counts) && KeysInOrder(xs, xs[..i], keys, counts)
    {
      keys, counts := TallyStep(xs, i, keys, counts);
      i := i + 1;
    }
    assert xs[..i] == xs;
  }

  /** `max(items, key=count)`: the first key of greatest count. */
  method FirstMax<T(==)>(keys: seq<T>, counts: map<T, nat>) returns (best: nat)
    requires |keys| > 0
    requires forall a :: 0 <= a < |keys| ==> keys[a] in counts
    ensures best < |keys|
    ensures forall a :: 0 <= a < |keys| ==> counts[keys[a]] <= counts[keys[best]]
    ensures forall a :: 0 <= a < best ==> counts[keys[a]] < counts[keys[best]]
  {
    best := 0;
    var j := 1;
    while j < |keys|
      invariant 1 <= j <= |keys| && 0 <= best < j
      invariant forall a :: 0 <= a < j ==> counts[keys[a]] <= counts[keys[best]]
      invariant forall a :: 0 <= a < best ==> counts[keys[a]] < counts[keys[best]]
    {
      if counts[keys[j]] > counts[keys[best]] {
        best := j;
      }
      j := j + 1;
    }
  }

  /** `Counter(xs).most_common(1)[0][0]`, with the Counter as an explicit frequency map. */
  method MostCommon<T(==,!new)>(xs: seq<T>) returns (m: T)
    requires |xs| > 0
    ensures IsFirstMode(xs, m)
  {
    var keys, counts := Tally(xs);
    assert xs[0] in keys;
    var best := FirstMax(keys, counts);
    m := keys[best];
    ModeEarlier(xs, keys, counts, best);
    ModeGreatest(xs, keys, counts, best);
  }

  /** Every value first seen before the chosen key is strictly less frequent. */
  lemma ModeEarlier<T>(xs: seq<T>, keys: seq<T>, counts: map<T, nat>, best: nat)
    requires best < |keys| && keys[best] in xs
    requires forall x :: x in counts <==> x in xs
    requires forall x :: x in counts <==> x in keys
    requires forall x :: x in counts ==> counts[x] == Count(xs, x)
    requires forall a, b :: 0 <= a < b < |keys| ==> FirstIndex(xs, keys[a]) < FirstIndex(xs, keys[b])
    requires forall a :: 0 <= a < best ==> counts[keys[a]] < counts[keys[best]]
    ensures forall k :: 0 <= k < FirstIndex(xs, keys[best]) ==> Count(xs, xs[k]) < Count(xs, keys[best])
  {
    var m := keys[best];
    forall k | 0 <= k < FirstIndex(xs, m) ensures Count(xs, xs[k]) < Count(xs, m) {
      var y := xs[k];
      assert y in keys;
      var a :| 0 <= a < |keys| && keys[a] == y;
      assert FirstIndex(xs, y) <= k;
      OrderedKeys(xs, keys, a, best);
    }
  }

  /** Keys in first-occurrence order: an earlier first occurrence means an earlier key. */
  lemma OrderedKeys<T>(xs: seq<T>, keys: seq<T>, a: nat, b: nat)
    requires a < |keys| && b < |keys|
    requires forall k :: 0 <= k < |keys| ==> keys[k] in xs
    requires forall a, b :: 0 <= a < b < |keys| ==> FirstIndex(xs, keys[a]) < FirstIndex(xs, keys[b])
    requires FirstIndex(xs, keys[a]) < FirstIndex(xs, keys[b])
    ensures a < b
  {
  }

  /** No value is more frequent than the chosen key. */
  lemma ModeGreatest<T>(xs: seq<T>, keys: seq<T>, counts: map<T, nat>, best: nat)
    requires best < |keys| && keys[best] in xs
    requires forall x :: x in counts <==> x in xs
    requires forall x :: x in counts <==> x in keys
    requires forall x :: x in counts ==> counts[x] == Count(xs, x)
    requires forall a :: 0 <= a < |keys| ==> counts[keys[a]] <= counts[keys[best]]
    ensures forall y :: y in xs ==> Count(xs, y) <= Count(xs, keys[best])
  {
    forall y | y in xs ensures Count(xs, y) <= Count(xs, keys[best]) {
      assert y in keys;
    }
  }
}
