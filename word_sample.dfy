/**
 * The session sample taken by `TypingHandler.get` in the main plugin file:
 * `words.slice(0, 300).sort(() => 0.5 - Math.random()).slice(0, 5)`.
 * The random comparator makes the sort produce some permutation of the
 * first 300 words; which one is an input here (`order`).
 */
module WordSample {
  import opened WordPool

  /** Only this many words from the front of the list take part. */
  const PoolLimit: nat := 300
  /** Number of words a session gets. */
  const SampleSize: nat := 5

  function Min(a: nat, b: nat): (m: nat)
    ensures m <= a && m <= b && (m == a || m == b)
  {
    if a <= b then a else b
  }

  /** `order` lists each position 0 .. n-1 exactly once. */
  predicate IsPermutation(order: seq<nat>, n: nat) {
    && |order| == n
    && (forall i :: 0 <= i < n ==> order[i] < n)
    && (forall i, j :: 0 <= i < j < n ==> order[i] != order[j])
  }

  /** The elements of `s` at the positions `idx`, in that order. */
  function Pick<T>(s: seq<T>, idx: seq<nat>): (r: seq<T>)
    requires forall i :: 0 <= i < |idx| ==> idx[i] < |s|
    ensures |r| == |idx|
    ensures forall i :: 0 <= i < |idx| ==> r[i] == s[idx[i]]
  {
    seq(|idx|, i requires 0 <= i < |idx| => s[idx[i]])
  }

  /** The sample, for the permutation `order` that the random sort produced. */
  function Sample(words: seq<WordItem>, order: seq<nat>): (r: seq<WordItem>)
    requires IsPermutation(order, Min(PoolLimit, |words|))
    ensures |r| == Min(SampleSize, Min(PoolLimit, |words|))
    ensures forall i :: 0 <= i < |r| ==> order[i] < PoolLimit && r[i] == words[order[i]]
    ensures forall i, j :: 0 <= i < j < |r| ==> order[i] != order[j]
  {
    var head := words[..Min(PoolLimit, |words|)];
    var shuffled := Pick(head, order);
    shuffled[..Min(SampleSize, |shuffled|)]
  }

  lemma PickAppend<T>(s: seq<T>, a: seq<nat>, b: seq<nat>)
    requires forall i :: 0 <= i < |a| ==> a[i] < |s|
    requires forall i :: 0 <= i < |b| ==> b[i] < |s|
    ensures Pick(s, a + b) == Pick(s, a) + Pick(s, b)
  {
  }

  lemma PickFromInit<T>(s: seq<T>, n: nat, idx: seq<nat>)
    requires n <= |s|
    requires forall i :: 0 <= i < |idx| ==> idx[i] < n
    ensures Pick(s, idx) == Pick(s[..n], idx)
  {
  }

  /** Taking out the pick of the last position `n`: what remains picks from `s[..n]`. */
  lemma PickWithoutLast<T>(s: seq<T>, idx: seq<nat>, k: nat)
    requires forall i :: 0 <= i < |idx| ==> idx[i] < |s|
    requires forall i, j :: 0 <= i < j < |idx| ==> idx[i] != idx[j]
    requires k < |idx| && idx[k] == |s| - 1
    ensures var rest := idx[..k] + idx[k + 1..];
      && (forall i :: 0 <= i < |rest| ==> rest[i] < |s| - 1)
      && (forall i, j :: 0 <= i < j < |rest| ==> rest[i] != rest[j])
      && multiset(Pick(s, idx)) == multiset(Pick(s[..|s| - 1], rest)) + multiset{s[|s| - 1]}
  {
    var n := |s| - 1;
    var front, back := idx[..k], idx[k + 1..];
    var rest := front + back;
    forall i | 0 <= i < |rest| ensures rest[i] < n && rest[i] == idx[if i < k then i else i + 1] {
      if i < k { assert rest[i] == idx[i]; } else { assert rest[i] == idx[i + 1]; }
    }
    forall i, j | 0 <= i < j < |rest| ensures rest[i] != rest[j] {
      var i' := if i < k then i else i + 1;
      var j' := if j < k then j else j + 1;
      assert i' < j';
    }
    assert idx == front + ([n] + back);
    PickAppend(s, front, [n] + back);
    PickAppend(s, [n], back);
    PickFromInit(s, n, front);
    PickFromInit(s, n, back);
    PickAppend(s[..n], front, back);
    var a, b := Pick(s[..n], front), Pick(s[..n], back);
    assert Pick(s, [n]) == [s[n]];
    assert Pick(s, idx) == a + ([s[n]] + b);
    assert Pick(s[..n], rest) == a + b;
    assert multiset(a + ([s[n]] + b)) == multiset(a) + multiset{s[n]} + multiset(b);
  }

  /** Picking at pairwise distinct positions takes each element at most once. */
  lemma {:induction false} PickDistinct<T>(s: seq<T>, idx: seq<nat>)
    requires forall i :: 0 <= i < |idx| ==> idx[i] < |s|
    requires forall i, j :: 0 <= i < j < |idx| ==> idx[i] != idx[j]
    ensures multiset(Pick(s, idx)) <= multiset(s)
    decreases |s|
  {
    if s == [] {
    } else {
      var n := |s| - 1;
      assert s == s[..n] + [s[n]];
      if k :| 0 <= k < |idx| && idx[k] == n {
        PickWithoutLast(s, idx, k);
        PickDistinct(s[..n], idx[..k] + idx[k + 1..]);
      } else {
        PickFromInit(s, n, idx);
        PickDistinct(s[..n], idx);
      }
    }
  }

  /**
   * Every sampled word comes from the first 300, and no position is
   * used twice: the sample is a sub-multiset of that prefix.
   */
  lemma SampleFromPrefix(words: seq<WordItem>, order: seq<nat>)
    requires IsPermutation(order, Min(PoolLimit, |words|))
    ensures multiset(Sample(words, order)) <= multiset(words[..Min(PoolLimit, |words|)])
  {
    var head := words[..Min(PoolLimit, |words|)];
    var k := Min(SampleSize, |head|);
    PickDistinct(head, order[..k]);
    assert Sample(words, order) == Pick(head, order[..k]);
  }
}
