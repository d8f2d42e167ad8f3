/**
 * Grouping a sequence by a key in one pass: the semantics of a Python
 * `defaultdict(list)` filled in input order, whose keys iterate in insertion
 * order. `_group_forecasts_by_day` (api/services.py:75-98) is this grouping
 * with the UTC date of a sample as the key.
 *
 * `Keys` and `Group` are the reference definitions; the lemmas state what
 * the grouping promises for every key function: each key once, in order of
 * first appearance, each group in input order, and together a partition.
 */
module Grouping {

  /** The keys of `xs`, each once, in order of first appearance. */
  function Keys<T, K(==)>(xs: seq<T>, key: T -> K): seq<K> {
    if xs == [] then []
    else
      var prefix := Keys(xs[..|xs| - 1], key);
      var k := key(xs[|xs| - 1]);
      if k in prefix then prefix else prefix + [k]
  }

  /** The elements of `xs` whose key is `k`, in input order. */
  function Group<T, K(==)>(xs: seq<T>, key: T -> K, k: K): seq<T> {
    if xs == [] then []
    else Group(xs[..|xs| - 1], key, k) + (if key(xs[|xs| - 1]) == k then [xs[|xs| - 1]] else [])
  }

  ghost predicate NoDuplicates<K>(ks: seq<K>) {
    forall i, j | 0 <= i < j < |ks| :: ks[i] != ks[j]
  }

  /** `Keys` lists each key once, and exactly the keys some element has. */
  lemma {:induction false} KeysFacts<T, K>(xs: seq<T>, key: T -> K)
    ensures NoDuplicates(Keys(xs, key))
    ensures forall i | 0 <= i < |xs| :: key(xs[i]) in Keys(xs, key)
    ensures forall k | k in Keys(xs, key) :: exists i :: 0 <= i < |xs| && key(xs[i]) == k
  {
    if xs != [] {
      var prefix := xs[..|xs| - 1];
      KeysFacts(prefix, key);
      var ks, pk := Keys(xs, key), Keys(prefix, key);
      assert forall i | 0 <= i < |prefix| :: prefix[i] == xs[i];
      assert forall k | k in pk :: k in ks;
      forall k | k in ks ensures exists i :: 0 <= i < |xs| && key(xs[i]) == k {
        if k in pk {
          var i :| 0 <= i < |prefix| && key(prefix[i]) == k;
          assert key(xs[i]) == k;
        } else {
          assert key(xs[|xs| - 1]) == k;
        }
      }
    }
  }

  /** Taking in one more element appends its key when the key is new. */
  lemma KeysSnoc<T, K>(xs: seq<T>, x: T, key: T -> K)
    ensures Keys(xs + [x], key) == if key(x) in Keys(xs, key) then Keys(xs, key) else Keys(xs, key) + [key(x)]
  {
    assert (xs + [x])[..|xs|] == xs;
  }

  /** Taking in one more element adds it to the end of its own key's group and changes no other group. */
  lemma GroupSnoc<T, K>(xs: seq<T>, x: T, key: T -> K)
    ensures forall k :: Group(xs + [x], key, k) == Group(xs, key, k) + (if key(x) == k then [x] else [])
  {
    assert (xs + [x])[..|xs|] == xs;
  }

  /** A key no element has has an empty group. */
  lemma {:induction false} GroupOfAbsentKey<T, K>(xs: seq<T>, key: T -> K, k: K)
    requires k !in Keys(xs, key)
    ensures Group(xs, key, k) == []
  {
    if xs != [] {
      var prefix := xs[..|xs| - 1];
      assert k !in Keys(prefix, key);
      GroupOfAbsentKey(prefix, key, k);
    }
  }

  lemma {:induction false} GroupAppend<T, K>(a: seq<T>, b: seq<T>, key: T -> K, k: K)
    ensures Group(a + b, key, k) == Group(a, key, k) + Group(b, key, k)
    decreases |b|
  {
    if b == [] {
      assert a + b == a;
    } else {
      assert (a + b)[..|a + b| - 1] == a + b[..|b| - 1];
      GroupAppend(a, b[..|b| - 1], key, k);
    }
  }

  /** A group holds elements of the input, all with the group's key. */
  lemma {:induction false} GroupMembers<T, K>(xs: seq<T>, key: T -> K, k: K)
    ensures forall p | 0 <= p < |Group(xs, key, k)| :: key(Group(xs, key, k)[p]) == k
    ensures forall p | 0 <= p < |Group(xs, key, k)| :: Group(xs, key, k)[p] in xs
  {
    if xs != [] {
      var prefix := xs[..|xs| - 1];
      GroupMembers(prefix, key, k);
      assert forall y | y in prefix :: y in xs;
    }
  }

  /**
   * Element `i` sits in the group of its own key, right after the elements of
   * that key that come before it.
   */
  lemma ElementInItsGroup<T, K>(xs: seq<T>, key: T -> K, i: nat)
    requires i < |xs|
    ensures var k := key(xs[i]);
      && |Group(xs[..i], key, k)| < |Group(xs, key, k)|
      && Group(xs, key, k)[|Group(xs[..i], key, k)|] == xs[i]
  {
    var k, x := key(xs[i]), xs[i];
    assert xs == xs[..i] + [x] + xs[i + 1..];
    assert [x][..0] == [];
    GroupAppend(xs[..i], [x], key, k);
    GroupAppend(xs[..i] + [x], xs[i + 1..], key, k);
  }

  /** Two elements with the same key keep their relative order in that key's group. */
  lemma GroupKeepsOrder<T, K>(xs: seq<T>, key: T -> K, i: nat, j: nat)
    requires i < j < |xs| && key(xs[i]) == key(xs[j])
    ensures |Group(xs[..i], key, key(xs[i]))| < |Group(xs[..j], key, key(xs[j]))|
  {
    var k, mid := key(xs[i]), xs[i..j];
    assert xs[..j] == xs[..i] + mid;
    assert mid == [xs[i]] + xs[i + 1..j];
    assert [xs[i]][..0] == [];
    GroupAppend(xs[..i], mid, key, k);
    GroupAppend([xs[i]], xs[i + 1..j], key, k);
  }

  /** The keys of every prefix of the input are a prefix of its keys: keys are only ever appended. */
  lemma {:induction false} KeysOfPrefix<T, K>(xs: seq<T>, key: T -> K, p: nat)
    requires p <= |xs|
    ensures Keys(xs[..p], key) <= Keys(xs, key)
    decreases |xs| - p
  {
    if p < |xs| {
      KeysOfPrefix(xs, key, p + 1);
      var next := xs[..p + 1];
      assert next[..p] == xs[..p];
    } else {
      assert xs[..p] == xs;
    }
  }

  /**
   * Order of first appearance: the key that first occurs at element `p` is
   * listed right after the keys of the elements before `p`.
   */
  lemma FirstOccurrencePosition<T, K>(xs: seq<T>, key: T -> K, p: nat)
    requires p < |xs| && key(xs[p]) !in Keys(xs[..p], key)
    ensures |Keys(xs[..p], key)| < |Keys(xs, key)|
    ensures Keys(xs, key)[|Keys(xs[..p], key)|] == key(xs[p])
  {
    var next := xs[..p + 1];
    assert next[..p] == xs[..p];
    KeysOfPrefix(xs, key, p + 1);
  }

  /** The groups of `ks`, one after the other (the lists of a `defaultdict` read out in the order `ks`). */
  function Concat<T, K(==)>(xs: seq<T>, key: T -> K, ks: seq<K>): seq<T> {
    if ks == [] then [] else Concat(xs, key, ks[..|ks| - 1]) + Group(xs, key, ks[|ks| - 1])
  }

  lemma {:induction false} ConcatOfNothing<T, K>(key: T -> K, ks: seq<K>)
    ensures Concat([], key, ks) == []
  {
    if ks != [] {
      ConcatOfNothing(key, ks[..|ks| - 1]);
    }
  }

  /** One more element adds one occurrence of it to the groups of `ks` (listed once) exactly when its key is among them. */
  lemma {:induction false} ConcatSnoc<T, K>(xs: seq<T>, x: T, key: T -> K, ks: seq<K>)
    requires NoDuplicates(ks)
    ensures multiset(Concat(xs + [x], key, ks))
      == multiset(Concat(xs, key, ks)) + (if key(x) in ks then multiset{x} else multiset{})
  {
    GroupSnoc(xs, x, key);
    if ks != [] {
      var init := ks[..|ks| - 1];
      assert ks == init + [ks[|ks| - 1]];
      ConcatSnoc(xs, x, key, init);
    }
  }

  /** When `ks` lists every key of the input once, the groups of `ks` are a rearrangement of the input. */
  lemma {:induction false} ConcatCoversAll<T, K>(xs: seq<T>, key: T -> K, ks: seq<K>)
    requires NoDuplicates(ks)
    requires forall i | 0 <= i < |xs| :: key(xs[i]) in ks
    ensures multiset(Concat(xs, key, ks)) == multiset(xs)
    decreases |xs|
  {
    if xs == [] {
      ConcatOfNothing(key, ks);
    } else {
      var prefix := xs[..|xs| - 1];
      assert xs == prefix + [xs[|xs| - 1]];
      ConcatCoversAll(prefix, key, ks);
      ConcatSnoc(prefix, xs[|xs| - 1], key, ks);
    }
  }

  /**
   * The groups of the distinct keys partition the input: read out one after
   * the other they are a rearrangement of it, so every element is in exactly
   * one group, once.
   */
  lemma GroupsPartition<T, K>(xs: seq<T>, key: T -> K)
    ensures multiset(Concat(xs, key, Keys(xs, key))) == multiset(xs)
  {
    KeysFacts(xs, key);
    ConcatCoversAll(xs, key, Keys(xs, key));
  }
}
