/** The generic keyed store every repository is built on: upsert, lookup by
    key and predicate scans. A scan's result, an unordered list with one
    element per stored entry, is modelled as the sub-map of matching entries. */
module Repository {

  import opened Common

  function FindById<K, T>(storage: map<K, T>, id: K): (r: Option<T>)
    ensures r.Some? <==> id in storage
    ensures r.Some? ==> r.value == storage[id]
  {
    if id in storage then Some(storage[id]) else None
  }

  /** Upsert: the entity replaces whatever was stored under its key. */
  function Save<K(!new), T>(storage: map<K, T>, id: K, entity: T): (r: map<K, T>)
    ensures FindById(r, id) == Some(entity)
    ensures forall k :: k != id ==> FindById(r, k) == FindById(storage, k)
    ensures r.Keys == storage.Keys + {id}
  {
    storage[id := entity]
  }

  /** The stored entries whose value satisfies `p`. */
  function FindAll<K(!new), T(==,!new)>(storage: map<K, T>, p: T -> bool): (r: map<K, T>)
    ensures forall k :: k in r <==> k in storage && p(storage[k])
    ensures forall k :: k in r ==> r[k] == storage[k]
    ensures forall v :: v in r.Values <==> v in storage.Values && p(v)
  {
    var r := map k | k in storage && p(storage[k]) :: storage[k];
    assert forall v :: v in storage.Values && p(v) ==> v in r.Values by {
      forall v | v in storage.Values && p(v) ensures v in r.Values {
        var k :| k in storage && storage[k] == v;
        assert r[k] == v;
      }
    }
    r
  }

  /** A scan never yields more entries than are stored. */
  lemma FindAllNoLarger<K(!new), T(!new)>(storage: map<K, T>, p: T -> bool)
    ensures |FindAll(storage, p)| <= |storage|
  {
    var found := FindAll(storage, p);
    assert storage.Keys == found.Keys + (storage.Keys - found.Keys);
  }

  /** A scan yields nothing when no stored value satisfies `p`. */
  lemma FindAllEmpty<K(!new), T(!new)>(storage: map<K, T>, p: T -> bool)
    requires forall k :: k in storage ==> !p(storage[k])
    ensures |FindAll(storage, p)| == 0
  {
    var found := FindAll(storage, p);
    assert found.Keys == {};
  }

  /** A scan that yields something yields a stored entry satisfying `p`. */
  lemma FindAllWitness<K(!new), T(!new)>(storage: map<K, T>, p: T -> bool) returns (k: K)
    requires |FindAll(storage, p)| != 0
    ensures k in storage && p(storage[k])
  {
    var found := FindAll(storage, p);
    assert found.Keys != {};
    k :| k in found;
  }

  /** Some stored value satisfying `p`, if there is one; which one is not specified. */
  method FindFirst<K(!new), T(==,!new)>(storage: map<K, T>, p: T -> bool) returns (r: Option<T>)
    ensures r.Some? <==> exists k :: k in storage && p(storage[k])
    ensures r.Some? ==> r.value in storage.Values && p(r.value)
  {
    var found := FindAll(storage, p);
    if found == map[] {
      r := None;
    } else {
      var k :| k in found;
      r := Some(found[k]);
    }
  }

  /** The keys of the entries whose value has `key` equal to `s`. */
  function KeysWith<K, T, S(==)>(storage: map<K, T>, key: T -> S, s: S): set<K> {
    set k | k in storage && key(storage[k]) == s
  }

  /** Groups the stored values by `key` and counts each group; only keys that
      occur appear in the result. */
  function GroupCount<K, T, S(==,!new)>(storage: map<K, T>, key: T -> S): (r: map<S, nat>)
    ensures forall s :: s in r <==> exists k :: k in storage && key(storage[k]) == s
    ensures forall s :: s in r ==> r[s] == |KeysWith(storage, key, s)| && r[s] >= 1
  {
    var r := map s | s in (set k | k in storage :: key(storage[k])) :: |KeysWith(storage, key, s)|;
    assert forall s :: s in r ==> r[s] >= 1 by {
      forall s | s in r ensures r[s] >= 1 {
        var k :| k in storage && key(storage[k]) == s;
        assert k in KeysWith(storage, key, s);
      }
    }
    r
  }

  /** The count for `s`, zero when `s` does not occur. */
  function CountOf<S>(counts: map<S, nat>, s: S): nat {
    if s in counts then counts[s] else 0
  }

  /** Whatever `s`, the group count is the number of entries whose key is `s`. */
  lemma GroupCountAt<K, T, S(!new)>(storage: map<K, T>, key: T -> S, s: S)
    ensures CountOf(GroupCount(storage, key), s) == |KeysWith(storage, key, s)|
  {
    if KeysWith(storage, key, s) != {} {
      var k :| k in KeysWith(storage, key, s);
    }
  }

  function SumOver<S>(counts: map<S, nat>, ss: seq<S>): nat {
    if ss == [] then 0 else CountOf(counts, ss[0]) + SumOver(counts, ss[1..])
  }

  /** Summing the group counts over distinct keys counts every entry whose key
      is among them exactly once. */
  lemma {:induction false} GroupCountSum<K, T, S(!new)>(storage: map<K, T>, key: T -> S, ss: seq<S>)
    requires forall i, j :: 0 <= i < j < |ss| ==> ss[i] != ss[j]
    ensures SumOver(GroupCount(storage, key), ss) == |set k | k in storage && key(storage[k]) in ss|
  {
    if ss == [] {
      assert (set k | k in storage && key(storage[k]) in ss) == {};
    } else {
      var rest := ss[1..];
      GroupCountSum(storage, key, rest);
      GroupCountAt(storage, key, ss[0]);
      var head := KeysWith(storage, key, ss[0]);
      var tail := set k | k in storage && key(storage[k]) in rest;
      assert head !! tail;
      assert (set k | k in storage && key(storage[k]) in ss) == head + tail by {
        forall k | k in storage && key(storage[k]) in ss ensures k in head + tail {
          if key(storage[k]) != ss[0] {
            var j :| 0 <= j < |ss| && ss[j] == key(storage[k]);
            assert rest[j - 1] == ss[j];
          }
        }
      }
    }
  }

  /** When every entry's key is listed, the group counts add up to the number
      of entries. */
  lemma GroupCountTotal<K, T, S(!new)>(storage: map<K, T>, key: T -> S, ss: seq<S>)
    requires forall i, j :: 0 <= i < j < |ss| ==> ss[i] != ss[j]
    requires forall k :: k in storage ==> key(storage[k]) in ss
    ensures SumOver(GroupCount(storage, key), ss) == |storage|
  {
    GroupCountSum(storage, key, ss);
    assert (set k | k in storage && key(storage[k]) in ss) == storage.Keys;
  }
}
