/** The in-memory store (internal/kv/store.go): a map from key to value and
    a secondary index of the keys, kept sorted in Go's string order. */
module KvStore {
  import opened Lex

  /** The index invariant: `keys` is strictly ascending and holds exactly
      the keys of `data`. */
  ghost predicate Indexed(data: map<string, string>, keys: seq<string>)
  {
    StrictlySorted(keys) && forall k :: k in keys <==> k in data
  }

  /** The entries of `data` whose key starts with `prefix`. */
  function Matching(data: map<string, string>, prefix: string): map<string, string>
  {
    map k | k in data && HasPrefix(k, prefix) :: data[k]
  }

  /** `keys` without its first occurrence of `k`. */
  function RemoveFirst(keys: seq<string>, k: string): seq<string>
  {
    if |keys| == 0 then []
    else if keys[0] == k then keys[1..]
    else [keys[0]] + RemoveFirst(keys[1..], k)
  }

  /** The index is a function of the map: two valid indexes of the same map
      are equal. */
  lemma IndexDetermined(data: map<string, string>, keys1: seq<string>, keys2: seq<string>)
    requires Indexed(data, keys1) && Indexed(data, keys2)
    ensures keys1 == keys2
  {
    StrictlySortedUnique(keys1, keys2);
  }

  /** Put keeps the invariant: an existing key leaves the index alone; a new
      key, appended and re-sorted, lands at its sorted position. */
  lemma PutKeepsIndex(data: map<string, string>, keys: seq<string>, key: string, value: string)
    requires Indexed(data, keys)
    ensures Indexed(data[key := value], if key in data then keys else SortStrings(keys + [key]))
    ensures key !in data ==> SortStrings(keys + [key]) == Insert(keys, key)
  {
    if key !in data {
      SortAppendIsInsert(keys, key);
    }
  }

  /** A second Put of the same binding changes nothing: the key is present
      by then, so neither the map nor the index moves. */
  lemma PutTwice(data: map<string, string>, keys: seq<string>, key: string, value: string)
    requires Indexed(data, keys)
    ensures var data1 := data[key := value];
            var keys1 := if key in data then keys else SortStrings(keys + [key]);
            key in data1 && data1[key := value] == data1 && Indexed(data1, keys1)
  {
    PutKeepsIndex(data, keys, key, value);
  }

  /** Splicing out the first occurrence of `k`, found at index `i`. */
  lemma {:induction false} RemoveFirstAt(keys: seq<string>, k: string, i: nat)
    requires i < |keys| && keys[i] == k
    requires forall j :: 0 <= j < i ==> keys[j] != k
    ensures RemoveFirst(keys, k) == keys[..i] + keys[i + 1..]
  {
    if i > 0 {
      RemoveFirstAt(keys[1..], k, i - 1);
      assert keys[1..][..i - 1] == keys[1..i];
      assert keys[1..][i..] == keys[i + 1..];
      assert keys[..i] == [keys[0]] + keys[1..i];
    }
  }

  lemma {:induction false} RemoveFirstAbsent(keys: seq<string>, k: string)
    requires k !in keys
    ensures RemoveFirst(keys, k) == keys
  {
    if |keys| > 0 {
      RemoveFirstAbsent(keys[1..], k);
    }
  }

  /** Removing the first occurrence of `k` from a strictly sorted sequence
      leaves it strictly sorted, with `k` gone and nothing else lost. */
  lemma {:induction false} RemoveFirstSorted(keys: seq<string>, k: string)
    requires StrictlySorted(keys)
    ensures StrictlySorted(RemoveFirst(keys, k))
    ensures forall x :: x in RemoveFirst(keys, k) <==> x in keys && x != k
  {
    if |keys| > 0 {
      assert keys == [keys[0]] + keys[1..];
      assert StrictlySorted(keys[1..]);
      forall x | x in keys[1..] ensures Less(keys[0], x) {
        var j :| 0 <= j < |keys[1..]| && keys[1..][j] == x;
        assert keys[j + 1] == x;
      }
      LessIrreflexive(keys[0]);
      RemoveFirstSorted(keys[1..], k);
      if keys[0] != k {
        ConsStrictlySorted(keys[0], RemoveFirst(keys[1..], k));
      }
    }
  }

  /** Delete keeps the invariant, and for a present key takes exactly one
      element out of the index, keeping the order of the rest. */
  lemma DeleteKeepsIndex(data: map<string, string>, keys: seq<string>, key: string)
    requires Indexed(data, keys)
    ensures Indexed(data - {key}, RemoveFirst(keys, key))
    ensures key in data ==> exists i :: 0 <= i < |keys| && keys[i] == key && RemoveFirst(keys, key) == keys[..i] + keys[i + 1..]
    ensures key !in data ==> RemoveFirst(keys, key) == keys
  {
    RemoveFirstSorted(keys, key);
    if key in data {
      var i :| 0 <= i < |keys| && keys[i] == key;
      assert forall j :: 0 <= j < i ==> keys[j] != key by {
        StrictlySortedDistinct(keys);
      }
      RemoveFirstAt(keys, key, i);
    } else {
      RemoveFirstAbsent(keys, key);
    }
  }

  /** An empty prefix matches every key. */
  lemma EmptyPrefixMatchesAll(data: map<string, string>)
    ensures Matching(data, "") == data
  {
    assert forall k :: HasPrefix(k, "") by {
      forall k ensures HasPrefix(k, "") { assert k[..0] == ""; }
    }
  }

  /** The store as the in-memory authority: `data` and its sorted `keys`. */
  class Store {
    var data: map<string, string>
    var keys: seq<string>

    ghost predicate Valid()
      reads this
    {
      Indexed(data, keys)
    }

    /** NewStore: an empty map and an empty index. */
    constructor ()
      ensures Valid()
      ensures data == map[] && keys == []
    {
      data := map[];
      keys := [];
    }

    /** Stores or overwrites the value of `key`. */
    method Put(key: string, value: string)
      requires Valid()
      modifies this
      ensures Valid()
      ensures data == old(data)[key := value]
      ensures keys == if key in old(data) then old(keys) else SortStrings(old(keys) + [key])
      ensures key !in old(data) ==> keys == Insert(old(keys), key)
    {
      PutKeepsIndex(data, keys, key, value);
      var present := key in data;
      data := data[key := value];
      if !present {
        keys := SortStrings(keys + [key]);
      }
    }

    /** The value of `key` and whether it is present; Go's zero value "" when
      it is not. */
    method Get(key: string) returns (value: string, found: bool)
      ensures found <==> key in data
      ensures found ==> value == data[key]
      ensures !found ==> value == ""
    {
      found := key in data;
      value := if found then data[key] else "";
    }

    /** Removes `key`; reports whether it was present. */
    method Delete(key: string) returns (found: bool)
      requires Valid()
      modifies this
      ensures Valid()
      ensures found <==> key in old(data)
      ensures data == old(data) - {key}
      ensures keys == RemoveFirst(old(keys), key)
      ensures !found ==> keys == old(keys)
    {
      DeleteKeepsIndex(data, keys, key);
      if key !in data {
        return false;
      }
      data := data - {key};
      ghost var at :| 0 <= at < |keys| && keys[at] == key;
      var i := 0;
      while i < |keys|
        invariant 0 <= i <= at
        invariant keys == old(keys)
        invariant forall j :: 0 <= j < i ==> keys[j] != key
      {
        if keys[i] == key {
          RemoveFirstAt(keys, key, i);
          keys := keys[..i] + keys[i + 1..];
          break;
        }
        i := i + 1;
      }
      return true;
    }

    /** The entries whose key starts with `prefix`. The walk over the sorted
      index stops at the first key that is above the prefix without
      starting with it; PastPrefix shows that no later key could match. */
    method PrefixScan(prefix: string) returns (result: map<string, string>)
      requires Valid()
      ensures result == Matching(data, prefix)
    {
      result := map[];
      var i := 0;
      while i < |keys|
        invariant 0 <= i <= |keys|
        invariant forall k :: k in result ==> k in data && HasPrefix(k, prefix) && result[k] == data[k]
        invariant forall j :: 0 <= j < i && HasPrefix(keys[j], prefix) ==> keys[j] in result
      {
        var k := keys[i];
        if HasPrefix(k, prefix) {
          result := result[k := data[k]];
        }
        if Less(prefix, k) && !HasPrefix(k, prefix) {
          forall j | i < j < |keys| ensures !HasPrefix(keys[j], prefix) {
            PastPrefix(prefix, k, keys[j]);
          }
          ScanComplete(result, prefix, i + 1);
          break;
        }
        i := i + 1;
      }
      if i == |keys| {
        ScanComplete(result, prefix, i);
      }
    }

    /** Once no key past position `n` of the index can match, the matches
      among the first `n` keys are all the matches. */
    lemma ScanComplete(result: map<string, string>, prefix: string, n: nat)
      requires Valid() && n <= |keys|
      requires forall k :: k in result ==> k in data && HasPrefix(k, prefix) && result[k] == data[k]
      requires forall j :: 0 <= j < n && HasPrefix(keys[j], prefix) ==> keys[j] in result
      requires forall j :: n <= j < |keys| ==> !HasPrefix(keys[j], prefix)
      ensures result == Matching(data, prefix)
    {
      var m := Matching(data, prefix);
      forall k | k in m ensures k in result {
        var j :| 0 <= j < |keys| && keys[j] == k;
      }
      assert result.Keys == m.Keys;
    }
  }
}
