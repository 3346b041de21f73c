/** Model of packages/runtime/src/utils/arrays.js. */
module Arrays {
  import opened Seqs

  /** An array entry that may be `null` or `undefined`. */
  datatype Nullable<T> = Null | Undefined | Defined(value: T)

  /** The test `item != null`, which is false for both `null` and `undefined`. */
  predicate NotNull<T>(item: Nullable<T>)
  {
    item.Defined?
  }

  /** No entry is `null` or `undefined`. */
  predicate NoNulls<T>(arr: seq<Nullable<T>>)
  {
    forall i | 0 <= i < |arr| :: arr[i].Defined?
  }

  /** `withoutNulls(arr)`: `arr.filter((item) => item != null)`. */
  function WithoutNulls<T(!new)>(arr: seq<Nullable<T>>): (r: seq<Nullable<T>>)
    ensures NoNulls(r)
    ensures IsSubsequence(r, arr)
    ensures forall x :: x in r <==> x in arr && x.Defined?
    ensures |r| <= |arr|
  {
    Filter(arr, NotNull)
  }

  /** The length is kept exactly when there was nothing to drop, and then the array is unchanged. */
  lemma WithoutNullsLength<T(!new)>(arr: seq<Nullable<T>>)
    ensures |WithoutNulls(arr)| == |arr| <==> NoNulls(arr)
    ensures NoNulls(arr) ==> WithoutNulls(arr) == arr
  {
    FilterKeepsAll(arr, NotNull);
  }

  /** Dropping nulls twice is dropping them once. */
  lemma WithoutNullsIdempotent<T(!new)>(arr: seq<Nullable<T>>)
    ensures WithoutNulls(WithoutNulls(arr)) == WithoutNulls(arr)
  {
    FilterIdempotent(arr, NotNull);
  }

  /** The number of entries that are neither `null` nor `undefined`. */
  function CountDefined<T>(arr: seq<Nullable<T>>): nat
  {
    if arr == [] then 0 else (if arr[0].Defined? then 1 else 0) + CountDefined(arr[1..])
  }

  /** The result has one entry per defined input entry. */
  lemma {:induction false} WithoutNullsCount<T(!new)>(arr: seq<Nullable<T>>)
    ensures |WithoutNulls(arr)| == CountDefined(arr)
  {
    if arr != [] {
      WithoutNullsCount(arr[1..]);
      assert WithoutNulls(arr) == Filter(arr, NotNull);
    }
  }

  /** `withoutNulls([1, 2, null, 3])` is `[1, 2, 3]`. */
  lemma WithoutNullsExample()
    ensures WithoutNulls([Defined(1), Defined(2), Null, Defined(3)]) == [Defined(1), Defined(2), Defined(3)]
  {
    var a: seq<Nullable<int>> := [Defined(1), Defined(2), Null, Defined(3)];
    assert a[1..][1..][1..][1..] == [];
    assert Filter(a[1..][1..][1..], NotNull) == [Defined(3)];
  }
}
