/**
 * The list surgery the reducers and pages perform, stated once for any
 * element type and any key: `Array.prototype.findIndex` on a key,
 * replacing the first element with a given key, and `Array.prototype.filter`.
 */
module ListOps {
  import opened Wrappers

  /** `s.findIndex(x => key(x) === k)`: the position of the first element with key `k` (None for -1). */
  function FindIndex<T, K(==)>(s: seq<T>, key: T -> K, k: K): (r: Option<nat>)
    ensures r.Some? ==> r.value < |s| && key(s[r.value]) == k
    ensures r.Some? ==> forall j :: 0 <= j < r.value ==> key(s[j]) != k
    ensures r.None? <==> forall j :: 0 <= j < |s| ==> key(s[j]) != k
  {
    if |s| == 0 then None
    else if key(s[0]) == k then Some(0)
    else match FindIndex(s[1..], key, k)
      case None => None
      case Some(i) => Some(i + 1)
  }

  /** No key occurs at two positions of `s`. */
  predicate UniqueKeys<T, K(==)>(s: seq<T>, key: T -> K) {
    forall i, j :: 0 <= i < j < |s| ==> key(s[i]) != key(s[j])
  }

  /** Some element of `s` has key `k`. */
  predicate HasKey<T, K(==)>(s: seq<T>, key: T -> K, k: K) {
    exists i :: 0 <= i < |s| && key(s[i]) == k
  }

  /**
   * `const i = s.findIndex(y => key(y) === key(x)); if (i !== -1) s[i] = x;`:
   * the first element with the key of `x` becomes `x`; without one the list is unchanged.
   */
  function ReplaceFirst<T, K(==)>(s: seq<T>, key: T -> K, x: T): (r: seq<T>)
  {
    match FindIndex(s, key, key(x))
    case None => s
    case Some(i) => s[i := x]
  }

  /** Replacing keeps the length, writes `x` at the first position with its key, and keeps every other position. */
  lemma ReplaceFirstSpec<T, K>(s: seq<T>, key: T -> K, x: T, i: nat)
    requires i < |s| && key(s[i]) == key(x)
    requires forall j :: 0 <= j < i ==> key(s[j]) != key(x)
    ensures |ReplaceFirst(s, key, x)| == |s|
    ensures ReplaceFirst(s, key, x)[i] == x
    ensures forall j :: 0 <= j < |s| && j != i ==> ReplaceFirst(s, key, x)[j] == s[j]
  {
    var f := FindIndex(s, key, key(x));
    assert f.Some? && f.value == i;
  }

  /** When no element has the key of `x`, replacing leaves the list as it was. */
  lemma ReplaceFirstAbsent<T, K>(s: seq<T>, key: T -> K, x: T)
    requires !HasKey(s, key, key(x))
    ensures ReplaceFirst(s, key, x) == s
  {
  }

  /** Replacing an element by one with the same key keeps the keys unique. */
  lemma ReplaceFirstKeepsUnique<T, K>(s: seq<T>, key: T -> K, x: T)
    requires UniqueKeys(s, key)
    ensures UniqueKeys(ReplaceFirst(s, key, x), key)
  {
    var r := ReplaceFirst(s, key, x);
    match FindIndex(s, key, key(x))
    case None =>
    case Some(i) =>
      forall a, b | 0 <= a < b < |r| ensures key(r[a]) != key(r[b]) {
        assert key(r[a]) == key(s[a]) && key(r[b]) == key(s[b]);
      }
  }

  /** `s.filter(keep)`: the elements satisfying `keep`, in their order. */
  function Filter<T>(s: seq<T>, keep: T -> bool): (r: seq<T>)
    ensures |r| <= |s|
    ensures forall i :: 0 <= i < |r| ==> r[i] in s && keep(r[i])
    ensures forall i :: 0 <= i < |s| && keep(s[i]) ==> s[i] in r
  {
    if |s| == 0 then [] else (if keep(s[0]) then [s[0]] else []) + Filter(s[1..], keep)
  }

  /** Filtering a concatenation filters each part and keeps their order. */
  lemma {:induction false} FilterAppend<T>(a: seq<T>, b: seq<T>, keep: T -> bool)
    ensures Filter(a + b, keep) == Filter(a, keep) + Filter(b, keep)
  {
    if |a| > 0 {
      assert (a + b)[1..] == a[1..] + b;
      FilterAppend(a[1..], b, keep);
    } else {
      assert a + b == b;
    }
  }

  /** A list whose every element is kept is its own filtering. */
  lemma {:induction false} FilterKeepsAll<T>(s: seq<T>, keep: T -> bool)
    requires forall i :: 0 <= i < |s| ==> keep(s[i])
    ensures Filter(s, keep) == s
  {
    if |s| > 0 {
      FilterKeepsAll(s[1..], keep);
      assert s == [s[0]] + s[1..];
    }
  }

  /** Filtering twice with the same predicate is filtering once. */
  lemma FilterIdempotent<T>(s: seq<T>, keep: T -> bool)
    ensures Filter(Filter(s, keep), keep) == Filter(s, keep)
  {
    FilterKeepsAll(Filter(s, keep), keep);
  }

  /** Filtering keeps a subset of the occurrences: it never duplicates an element. */
  lemma {:induction false} FilterSubMultiset<T>(s: seq<T>, keep: T -> bool)
    ensures multiset(Filter(s, keep)) <= multiset(s)
  {
    if |s| > 0 {
      FilterSubMultiset(s[1..], keep);
      assert s == [s[0]] + s[1..];
    }
  }

  /** `s.filter(y => key(y) !== k)`: every element whose key is not `k`, in order. */
  function RemoveKey<T, K(==)>(s: seq<T>, key: T -> K, k: K): (r: seq<T>)
    ensures !HasKey(r, key, k)
    ensures forall i :: 0 <= i < |r| ==> r[i] in s
    ensures forall i :: 0 <= i < |s| && key(s[i]) != k ==> s[i] in r
  {
    Filter(s, (y: T) => key(y) != k)
  }

  /** Removing a key that no element has leaves the list unchanged. */
  lemma RemoveKeyAbsent<T, K>(s: seq<T>, key: T -> K, k: K)
    requires !HasKey(s, key, k)
    ensures RemoveKey(s, key, k) == s
  {
    FilterKeepsAll(s, (y: T) => key(y) != k);
  }

  /** Removal keeps the relative order of the survivors: it distributes over concatenation. */
  lemma RemoveKeyAppend<T, K>(a: seq<T>, b: seq<T>, key: T -> K, k: K)
    ensures RemoveKey(a + b, key, k) == RemoveKey(a, key, k) + RemoveKey(b, key, k)
  {
    FilterAppend(a, b, (y: T) => key(y) != k);
  }

  /** Removal never duplicates an element, so unique keys stay unique. */
  lemma RemoveKeyKeepsUnique<T, K>(s: seq<T>, key: T -> K, k: K)
    requires UniqueKeys(s, key)
    ensures UniqueKeys(RemoveKey(s, key, k), key)
  {
    RemoveKeyKeepsUniqueRec(s, key, k);
  }

  lemma {:induction false} RemoveKeyKeepsUniqueRec<T, K>(s: seq<T>, key: T -> K, k: K)
    requires UniqueKeys(s, key)
    ensures UniqueKeys(Filter(s, (y: T) => key(y) != k), key)
  {
    if |s| > 0 {
      var keep := (y: T) => key(y) != k;
      assert UniqueKeys(s[1..], key);
      RemoveKeyKeepsUniqueRec(s[1..], key, k);
      var tail := Filter(s[1..], keep);
      var head: seq<T> := if keep(s[0]) then [s[0]] else [];
      assert Filter(s, keep) == head + tail;
      forall j | 0 <= j < |tail| ensures key(tail[j]) != key(s[0]) {
        var i :| 0 <= i < |s[1..]| && s[1..][i] == tail[j];
        assert s[i + 1] == tail[j];
      }
      forall a, b | 0 <= a < b < |head + tail| ensures key((head + tail)[a]) != key((head + tail)[b]) {
        if a < |head| {
          assert (head + tail)[a] == s[0] && (head + tail)[b] == tail[b - |head|];
        } else {
          assert (head + tail)[a] == tail[a - |head|] && (head + tail)[b] == tail[b - |head|];
        }
      }
    }
  }

  /** Putting `x` in front of a list without its key keeps the keys unique, and `x` is then the only element with its key. */
  lemma PrependKeepsUnique<T, K>(s: seq<T>, key: T -> K, x: T)
    requires UniqueKeys(s, key) && !HasKey(s, key, key(x))
    ensures UniqueKeys([x] + s, key)
    ensures forall i :: 0 <= i < |[x] + s| && key(([x] + s)[i]) == key(x) ==> i == 0
  {
    forall i | 0 < i < |[x] + s| ensures key(([x] + s)[i]) != key(x) {
      assert ([x] + s)[i] == s[i - 1];
    }
  }

  /** Putting `x` after a list without its key keeps the keys unique, and `x` is then the only element with its key. */
  lemma AppendKeepsUnique<T, K>(s: seq<T>, key: T -> K, x: T)
    requires UniqueKeys(s, key) && !HasKey(s, key, key(x))
    ensures UniqueKeys(s + [x], key)
    ensures forall i :: 0 <= i < |s + [x]| && key((s + [x])[i]) == key(x) ==> i == |s|
  {
    forall i | 0 <= i < |s| ensures key((s + [x])[i]) != key(x) {
      assert (s + [x])[i] == s[i];
    }
  }
}
