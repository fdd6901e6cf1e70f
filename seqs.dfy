/** Keyed operations on ordered tables: the `findIndex` / `find` / `splice` / "replace or push"
    idioms that the task table, the skills index and the knowledge index all share. A table is a
    sequence of records and `key` projects the field the source compares with `===`. */
module Seqs {
  import opened Wrappers

  /** Position of the first record whose key is `k` (JavaScript's `findIndex`, with `None` for -1). */
  function IndexOf<T, K(==)>(xs: seq<T>, key: T -> K, k: K): (r: Option<nat>)
    ensures r.Some? ==> r.value < |xs| && key(xs[r.value]) == k
    ensures r.Some? ==> forall j :: 0 <= j < r.value ==> key(xs[j]) != k
    ensures r.None? <==> forall j :: 0 <= j < |xs| ==> key(xs[j]) != k
  {
    if |xs| == 0 then None
    else if key(xs[0]) == k then Some(0)
    else match IndexOf(xs[1..], key, k)
      case None => None
      case Some(i) => Some(i + 1)
  }

  /** Lookups by key only see the keys: two tables with the same keys position by position
      find every key at the same place. */
  lemma {:induction false} IndexOfSameKeys<T, K>(a: seq<T>, b: seq<T>, key: T -> K, k: K)
    requires |a| == |b| && forall j :: 0 <= j < |a| ==> key(a[j]) == key(b[j])
    ensures IndexOf(a, key, k) == IndexOf(b, key, k)
  {
    if |a| > 0 {
      IndexOfSameKeys(a[1..], b[1..], key, k);
    }
  }

  /** The first record whose key is `k` (JavaScript's `find`). */
  function Find<T, K(==)>(xs: seq<T>, key: T -> K, k: K): (r: Option<T>)
    ensures r.Some? <==> exists j :: 0 <= j < |xs| && key(xs[j]) == k
    ensures r.Some? ==> key(r.value) == k && r.value in xs
    ensures r.Some? ==> exists i :: 0 <= i < |xs| && xs[i] == r.value && forall j :: 0 <= j < i ==> key(xs[j]) != k
  {
    match IndexOf(xs, key, k)
    case None => None
    case Some(i) => Some(xs[i])
  }

  /** True when no two records share a key. */
  ghost predicate KeysUnique<T, K>(xs: seq<T>, key: T -> K) {
    forall i, j :: 0 <= i < j < |xs| ==> key(xs[i]) != key(xs[j])
  }

  /** `xs` with the record at position `i` removed (`splice(i, 1)`). */
  function RemoveAt<T>(xs: seq<T>, i: nat): (r: seq<T>)
    requires i < |xs|
    ensures |r| == |xs| - 1
    ensures forall j :: 0 <= j < i ==> r[j] == xs[j]
    ensures forall j :: i <= j < |r| ==> r[j] == xs[j + 1]
    ensures multiset(r) + multiset{xs[i]} == multiset(xs)
  {
    assert xs == xs[..i] + [xs[i]] + xs[i + 1..];
    xs[..i] + xs[i + 1..]
  }

  /** Replace the first record with the same key as `x` by `x`, or append `x` when there is none:
      the index update of `addSkill` and `learnKnowledge`. */
  function Upsert<T, K(==)>(xs: seq<T>, key: T -> K, x: T): (r: seq<T>)
    ensures IndexOf(xs, key, key(x)).Some? ==> |r| == |xs|
    ensures IndexOf(xs, key, key(x)).None? ==> |r| == |xs| + 1 && r[|xs|] == x
    ensures IndexOf(xs, key, key(x)).Some? ==> r[IndexOf(xs, key, key(x)).value] == x
    ensures forall j :: 0 <= j < |xs| && Some(j) != IndexOf(xs, key, key(x)) ==> r[j] == xs[j]
  {
    match IndexOf(xs, key, key(x))
    case Some(i) => xs[i := x]
    case None => xs + [x]
  }

  /** After an upsert, looking the key up finds exactly the new record, at the old record's
      position or at the end. */
  lemma UpsertThenFind<T, K>(xs: seq<T>, key: T -> K, x: T)
    ensures Find(Upsert(xs, key, x), key, key(x)) == Some(x)
    ensures IndexOf(Upsert(xs, key, x), key, key(x))
         == Some(IndexOf(xs, key, key(x)).GetOr(|xs|))
  {
    var r := Upsert(xs, key, x);
    var p := IndexOf(xs, key, key(x)).GetOr(|xs|);
    assert p < |r| && r[p] == x;
    forall j | 0 <= j < p ensures key(r[j]) != key(x) {
      assert r[j] == xs[j];
    }
    var q := IndexOf(r, key, key(x));
    assert q.Some?;
    assert q.value <= p;
    assert q.value == p;
  }

  /** Upserting keeps keys unique, so the index never grows a duplicate name or topic. */
  lemma UpsertKeepsKeysUnique<T, K>(xs: seq<T>, key: T -> K, x: T)
    requires KeysUnique(xs, key)
    ensures KeysUnique(Upsert(xs, key, x), key)
  {
    var r := Upsert(xs, key, x);
    var o := IndexOf(xs, key, key(x));
    forall i, j | 0 <= i < j < |r| ensures key(r[i]) != key(r[j]) {
      if o.Some? {
        if i == o.value {
          assert r[j] == xs[j];
        } else if j == o.value {
          assert r[i] == xs[i];
        } else {
          assert r[i] == xs[i] && r[j] == xs[j];
        }
      } else if j == |xs| {
        assert r[i] == xs[i];
      } else {
        assert r[i] == xs[i] && r[j] == xs[j];
      }
    }
  }

  /** Removing the first record with key `k` (`findIndex` then `splice`): None when there is
      no such record, otherwise the table without it. */
  function RemoveFirst<T, K(==)>(xs: seq<T>, key: T -> K, k: K): (r: Option<seq<T>>)
    ensures r.None? <==> forall j :: 0 <= j < |xs| ==> key(xs[j]) != k
    ensures r.Some? ==> |r.value| == |xs| - 1
    ensures r.Some? ==>
      exists i :: (0 <= i < |xs| && key(xs[i]) == k
        && (forall j :: 0 <= j < i ==> key(xs[j]) != k && r.value[j] == xs[j])
        && (forall j :: i <= j < |r.value| ==> r.value[j] == xs[j + 1]))
  {
    match IndexOf(xs, key, k)
    case None => None
    case Some(i) => Some(RemoveAt(xs, i))
  }

  /** Removing a record keeps keys unique, and with unique keys nothing with key `k` is left. */
  lemma RemoveFirstUnique<T, K>(xs: seq<T>, key: T -> K, k: K)
    requires KeysUnique(xs, key)
    requires RemoveFirst(xs, key, k).Some?
    ensures KeysUnique(RemoveFirst(xs, key, k).value, key)
    ensures forall j :: 0 <= j < |RemoveFirst(xs, key, k).value| ==> key(RemoveFirst(xs, key, k).value[j]) != k
  {
    var i := IndexOf(xs, key, k).value;
    var r := RemoveAt(xs, i);
    assert RemoveFirst(xs, key, k).value == r;
    forall a, b | 0 <= a < b < |r| ensures key(r[a]) != key(r[b]) {
      var a' := if a < i then a else a + 1;
      var b' := if b < i then b else b + 1;
      assert r[a] == xs[a'] && r[b] == xs[b'] && a' < b';
    }
    forall j | 0 <= j < |r| ensures key(r[j]) != k {
      var j' := if j < i then j else j + 1;
      assert r[j] == xs[j'] && j' != i;
    }
  }
}
