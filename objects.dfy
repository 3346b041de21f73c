/**
 * Model of packages/runtime/src/utils/objects.js. A JavaScript object is its
 * list of own (key, value) entries in `Object.keys` order.
 */
module Objects {
  import opened Wrappers
  import opened Seqs
  import Values

  type Entries<V> = seq<(string, V)>

  /** `Object.keys(obj)`. */
  function Keys<V>(obj: Entries<V>): (ks: seq<string>)
    ensures |ks| == |obj|
    ensures forall i | 0 <= i < |obj| :: ks[i] == obj[i].0
  {
    seq(|obj|, i requires 0 <= i < |obj| => obj[i].0)
  }

  /** `key in obj`, restricted to own keys. */
  predicate HasKey<V>(obj: Entries<V>, key: string)
  {
    key in Keys(obj)
  }

  /** A JavaScript object never has the same key twice. */
  predicate DistinctKeys<V>(obj: Entries<V>)
  {
    Distinct(Keys(obj))
  }

  /** `obj[key]` for an own key, `None` when the key is absent. */
  function Lookup<V>(obj: Entries<V>, key: string): (r: Option<V>)
    ensures r.Some? <==> HasKey(obj, key)
    ensures r.Some? ==> (key, r.value) in obj
  {
    if obj == [] then None
    else if obj[0].0 == key then Some(obj[0].1)
    else
      assert Keys(obj) == [obj[0].0] + Keys(obj[1..]);
      Lookup(obj[1..], key)
  }

  /** In an object without repeated keys, the looked-up value is the entry's value. */
  lemma {:induction false} LookupEntry<V>(obj: Entries<V>, i: nat)
    requires DistinctKeys(obj) && i < |obj|
    ensures Lookup(obj, obj[i].0) == Some(obj[i].1)
  {
    if i > 0 {
      assert Keys(obj)[0] != Keys(obj)[i];
      assert Distinct(Keys(obj[1..])) by {
        forall a, b | 0 <= a < b < |obj| - 1 ensures Keys(obj[1..])[a] != Keys(obj[1..])[b] {
          assert Keys(obj)[a + 1] != Keys(obj)[b + 1];
        }
      }
      LookupEntry(obj[1..], i - 1);
    }
  }

  /** An entry can head an object without repeated keys exactly when its key is new to the rest. */
  lemma DistinctKeysCons<V>(e: (string, V), rest: Entries<V>)
    ensures DistinctKeys([e] + rest) <==> !HasKey(rest, e.0) && DistinctKeys(rest)
  {
    var ks := Keys([e] + rest);
    assert ks == [e.0] + Keys(rest);
    if DistinctKeys([e] + rest) {
      forall i, j | 0 <= i < j < |rest| ensures Keys(rest)[i] != Keys(rest)[j] {
        assert ks[i + 1] != ks[j + 1];
      }
      forall i | 0 <= i < |rest| ensures Keys(rest)[i] != e.0 {
        assert ks[0] != ks[i + 1];
      }
    }
    if !HasKey(rest, e.0) && DistinctKeys(rest) {
      forall i, j | 0 <= i < j < |ks| ensures ks[i] != ks[j] {
        if i == 0 {
          assert ks[j] == Keys(rest)[j - 1];
        } else {
          assert ks[i] == Keys(rest)[i - 1] && ks[j] == Keys(rest)[j - 1];
        }
      }
    }
  }

  /** Dropping entries keeps the keys distinct. */
  lemma {:induction false} FilterDistinctKeys<V(!new)>(obj: Entries<V>, p: ((string, V)) -> bool)
    requires DistinctKeys(obj)
    ensures DistinctKeys(Filter(obj, p))
  {
    if obj != [] {
      assert obj == [obj[0]] + obj[1..];
      DistinctKeysCons(obj[0], obj[1..]);
      FilterDistinctKeys(obj[1..], p);
      var rest := Filter(obj[1..], p);
      if p(obj[0]) {
        assert !HasKey(rest, obj[0].0) by {
          forall i | 0 <= i < |rest| ensures Keys(rest)[i] != obj[0].0 {
            assert rest[i] in obj[1..];
            var j :| 0 <= j < |obj[1..]| && obj[1..][j] == rest[i];
            assert Keys(obj[1..])[j] == rest[i].0;
          }
        }
        DistinctKeysCons(obj[0], rest);
      }
    }
  }

  datatype Diff = Diff(added: seq<string>, removed: seq<string>, updated: seq<string>)

  /**
   * `objectsDiff(oldObj, newObj)`: the keys added in the new object, the keys
   * removed from the old one, and the keys present in both whose values differ
   * (a shallow comparison, one level deep).
   */
  function ObjectsDiff<V(==)>(oldObj: Entries<V>, newObj: Entries<V>): (d: Diff)
    ensures IsSubsequence(d.added, Keys(newObj))
    ensures forall k :: k in d.added <==> HasKey(newObj, k) && !HasKey(oldObj, k)
    ensures IsSubsequence(d.removed, Keys(oldObj))
    ensures forall k :: k in d.removed <==> HasKey(oldObj, k) && !HasKey(newObj, k)
    ensures IsSubsequence(d.updated, Keys(newObj))
    ensures forall k :: k in d.updated <==>
      HasKey(newObj, k) && HasKey(oldObj, k) && Lookup(oldObj, k) != Lookup(newObj, k)
  {
    var oldKeys := Keys(oldObj);
    var newKeys := Keys(newObj);
    Diff(
      Filter(newKeys, key => !HasKey(oldObj, key)),
      Filter(oldKeys, key => !HasKey(newObj, key)),
      Filter(newKeys, key => HasKey(oldObj, key) && Lookup(oldObj, key) != Lookup(newObj, key)))
  }

  /** The three lists are pairwise disjoint, and added and updated keys are keys of the new object. */
  lemma DiffDisjoint<V>(oldObj: Entries<V>, newObj: Entries<V>)
    ensures var d := ObjectsDiff(oldObj, newObj);
      && (forall k | k in d.added :: k !in d.removed && k !in d.updated)
      && (forall k | k in d.removed :: k !in d.updated)
      && (forall k | k in d.added || k in d.updated :: HasKey(newObj, k))
  {
  }

  /**
   * The contract of ObjectsDiff fixes each list completely: any list that is a
   * subsequence of the keys and has the member set of `added` is `added`.
   */
  lemma AddedIsDetermined<V>(oldObj: Entries<V>, newObj: Entries<V>, other: seq<string>)
    requires DistinctKeys(newObj)
    requires IsSubsequence(other, Keys(newObj))
    requires forall k :: k in other <==> HasKey(newObj, k) && !HasKey(oldObj, k)
    ensures other == ObjectsDiff(oldObj, newObj).added
  {
    SubsequenceDeterminedByMembers(other, ObjectsDiff(oldObj, newObj).added, Keys(newObj));
  }

  /** Diffing an object against itself finds nothing. */
  lemma DiffWithSelf<V>(obj: Entries<V>)
    ensures ObjectsDiff(obj, obj) == Diff([], [], [])
  {
    var ks := Keys(obj);
    FilterNone(ks, key => !HasKey(obj, key));
    FilterNone(ks, key => HasKey(obj, key) && Lookup(obj, key) != Lookup(obj, key));
  }

  /** Diffing two objects with the same entries finds nothing. */
  lemma DiffOfEqualObjects()
    ensures ObjectsDiff([("foo", "bar")], [("foo", "bar")]) == Diff([], [], [])
  {
    DiffWithSelf([("foo", "bar")]);
  }

  /** A new key `color` is reported as added, and only that. */
  lemma DiffAddedKey()
    ensures ObjectsDiff([("foo", "bar")], [("foo", "bar"), ("color", "purple")]) == Diff(["color"], [], [])
  {
  }

  /** A dropped key `foo` is reported as removed, and only that; the number under `test` is unchanged. */
  lemma DiffRemovedKey()
    ensures ObjectsDiff([("foo", Values.Str("bar")), ("test", Values.Num(123))], [("test", Values.Num(123))])
      == Diff([], ["foo"], [])
  {
  }

  /** A changed value of `foo` is reported as updated, and only that. */
  lemma DiffUpdatedKey()
    ensures ObjectsDiff([("foo", "bar")], [("foo", "loo")]) == Diff([], [], ["foo"])
  {
  }
}
