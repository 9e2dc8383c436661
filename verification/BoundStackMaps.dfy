/** The bounded ordered map: new records push the oldest out. */
module BoundStackMaps {
  import opened ByteStrings

  type Key = Bytes

  datatype Item<T> = Item(key: Key, value: T)

  function LastN<T>(xs: seq<T>, n: nat): (r: seq<T>)
    ensures |r| == if |xs| <= n then |xs| else n
  {
    if |xs| <= n then xs else xs[|xs| - n..]
  }

  /** What pushes of fresh keys leave, one after another. */
  function Pushed<T>(xs: seq<T>, n: nat): seq<T>
  {
    if xs == [] then [] else LastN(Pushed(xs[..|xs| - 1], n) + [xs[|xs| - 1]], n)
  }

  /** Dropping early or late makes no difference: a run of pushes leaves the last ones of the whole run. */
  lemma {:induction false} PushedIsLastN<T>(xs: seq<T>, n: nat)
    requires n >= 1
    ensures Pushed(xs, n) == LastN(xs, n)
  {
    if xs != [] {
      PushedIsLastN(xs[..|xs| - 1], n);
      LastNSnoc(xs[..|xs| - 1], xs[|xs| - 1], n);
      assert xs[..|xs| - 1] + [xs[|xs| - 1]] == xs;
    }
  }

  // ---- what Filter keeps ----

  /** After a removal the next item is not tested. */
  function Sieve<T>(items: seq<Item<T>>, f: (Key, T) -> bool): seq<Item<T>>
  {
    if items == [] then []
    else if f(items[0].key, items[0].value) then [items[0]] + Sieve(items[1..], f)
    else if |items| == 1 then []
    else [items[1]] + Sieve(items[2..], f)
  }

  function Passing<T>(items: seq<Item<T>>, f: (Key, T) -> bool): seq<Item<T>>
  {
    if items == [] then []
    else (if f(items[0].key, items[0].value) then [items[0]] else []) + Passing(items[1..], f)
  }

  /** No item that satisfies the predicate is dropped, and their order is kept. */
  lemma {:induction false} SieveDropsNone<T>(items: seq<Item<T>>, f: (Key, T) -> bool)
    ensures Passing(Sieve(items, f), f) == Passing(items, f)
    decreases |items|
  {
    if items != [] {
      var s := Sieve(items, f);
      if f(items[0].key, items[0].value) {
        SieveDropsNone(items[1..], f);
        assert s[1..] == Sieve(items[1..], f);
      } else if |items| > 1 {
        SieveDropsNone(items[2..], f);
        assert s[1..] == Sieve(items[2..], f);
        assert items[1..][1..] == items[2..];
      }
    }
  }

  /** Some failing item directly follows another failing one. */
  predicate AdjacentFailures<T>(items: seq<Item<T>>, f: (Key, T) -> bool)
  {
    exists i :: 0 <= i < |items| - 1 && !f(items[i].key, items[i].value) && !f(items[i + 1].key, items[i + 1].value)
  }

  lemma {:induction false} PassingHold<T>(items: seq<Item<T>>, f: (Key, T) -> bool)
    ensures forall x :: x in Passing(items, f) ==> f(x.key, x.value)
  {
    if items != [] {
      PassingHold(items[1..], f);
    }
  }

  lemma AdjacentTail<T>(items: seq<Item<T>>, f: (Key, T) -> bool, k: nat)
    requires k <= |items| && AdjacentFailures(items[k..], f)
    ensures AdjacentFailures(items, f)
  {
    var t := items[k..];
    var i :| 0 <= i < |t| - 1 && !f(t[i].key, t[i].value) && !f(t[i + 1].key, t[i + 1].value);
    var j := k + i;
    assert t[i] == items[j] && t[i + 1] == items[j + 1];
  }

  lemma AdjacentFromHead<T>(items: seq<Item<T>>, f: (Key, T) -> bool)
    requires items != [] && f(items[0].key, items[0].value)
    ensures AdjacentFailures(items[1..], f) <==> AdjacentFailures(items, f)
  {
    var t := items[1..];
    if AdjacentFailures(t, f) {
      AdjacentTail(items, f, 1);
    }
    if AdjacentFailures(items, f) {
      var i :| 0 <= i < |items| - 1 && !f(items[i].key, items[i].value) && !f(items[i + 1].key, items[i + 1].value);
      var j := i - 1;
      assert t[j] == items[i] && t[j + 1] == items[i + 1];
    }
  }

  lemma AdjacentSkip<T>(items: seq<Item<T>>, f: (Key, T) -> bool)
    requires |items| > 1 && f(items[1].key, items[1].value)
    ensures AdjacentFailures(items[2..], f) <==> AdjacentFailures(items, f)
  {
    var t := items[2..];
    if AdjacentFailures(t, f) {
      AdjacentTail(items, f, 2);
    }
    if AdjacentFailures(items, f) {
      var i :| 0 <= i < |items| - 1 && !f(items[i].key, items[i].value) && !f(items[i + 1].key, items[i + 1].value);
      var j := i - 2;
      assert t[j] == items[i] && t[j + 1] == items[i + 1];
    }
  }

  lemma HeadPasses<T>(items: seq<Item<T>>, f: (Key, T) -> bool)
    requires items != [] && f(items[0].key, items[0].value)
    ensures Sieve(items, f) == Passing(items, f) <==> Sieve(items[1..], f) == Passing(items[1..], f)
  {
    var a, b := Sieve(items[1..], f), Passing(items[1..], f);
    assert ([items[0]] + a)[1..] == a && ([items[0]] + b)[1..] == b;
  }

  lemma HeadFails<T>(items: seq<Item<T>>, f: (Key, T) -> bool)
    requires |items| > 1 && !f(items[0].key, items[0].value) && f(items[1].key, items[1].value)
    ensures Sieve(items, f) == Passing(items, f) <==> Sieve(items[2..], f) == Passing(items[2..], f)
  {
    var t := items[1..];
    assert t[1..] == items[2..];
    var a, b := Sieve(items[2..], f), Passing(items[2..], f);
    assert Passing(items, f) == Passing(t, f) == [items[1]] + b;
    assert ([items[1]] + a)[1..] == a && ([items[1]] + b)[1..] == b;
  }

  lemma BothFail<T>(items: seq<Item<T>>, f: (Key, T) -> bool)
    requires |items| > 1 && !f(items[0].key, items[0].value) && !f(items[1].key, items[1].value)
    ensures Sieve(items, f) != Passing(items, f)
  {
    PassingHold(items, f);
    assert Sieve(items, f)[0] == items[1];
    assert items[1] in Sieve(items, f);
  }

  /** The loop removes exactly the failing items when and only when no two of them are neighbours. */
  lemma {:induction false} SieveIsExactIff<T>(items: seq<Item<T>>, f: (Key, T) -> bool)
    ensures Sieve(items, f) == Passing(items, f) <==> !AdjacentFailures(items, f)
    decreases |items|
  {
    if items != [] {
      if f(items[0].key, items[0].value) {
        SieveIsExactIff(items[1..], f);
        HeadPasses(items, f);
        AdjacentFromHead(items, f);
      } else if |items| > 1 {
        if f(items[1].key, items[1].value) {
          SieveIsExactIff(items[2..], f);
          HeadFails(items, f);
          AdjacentSkip(items, f);
        } else {
          BothFail(items, f);
          var i := 0;
          assert !f(items[i].key, items[i].value) && !f(items[i + 1].key, items[i + 1].value);
        }
      }
    }
  }

  // ---- the key list and the map ----

  predicate Distinct(keys: seq<Key>)
  {
    forall i, j :: 0 <= i < j < |keys| ==> keys[i] != keys[j]
  }

  /** Every key is listed once and the map holds exactly the listed keys. */
  predicate Consistent<T>(keys: seq<Key>, data: map<Key, T>)
  {
    Distinct(keys) && data.Keys == set k | k in keys
  }

  function Items<T>(keys: seq<Key>, data: map<Key, T>): (items: seq<Item<T>>)
    requires Consistent(keys, data)
    ensures |items| == |keys|
  {
    seq(|keys|, i requires 0 <= i < |keys| && Consistent(keys, data) => Item(keys[i], data[keys[i]]))
  }

  lemma RemoveConsistent<T>(keys: seq<Key>, data: map<Key, T>, i: nat)
    requires Consistent(keys, data) && i < |keys|
    ensures Consistent(keys[..i] + keys[i + 1..], data - {keys[i]})
  {
    var keys', data' := keys[..i] + keys[i + 1..], data - {keys[i]};
    forall k ensures k in data' <==> k in keys' {
      if k in keys && k != keys[i] {
        var j :| 0 <= j < |keys| && keys[j] == k;
        assert keys'[if j < i then j else j - 1] == k;
      }
    }
  }

  lemma RemoveAt<T>(keys: seq<Key>, data: map<Key, T>, i: nat)
    requires Consistent(keys, data) && i < |keys|
    ensures Consistent(keys[..i] + keys[i + 1..], data - {keys[i]})
    ensures Items(keys[..i] + keys[i + 1..], data - {keys[i]}) == Items(keys, data)[..i] + Items(keys, data)[i + 1..]
  {
    RemoveConsistent(keys, data, i);
  }

  lemma Append<T>(keys: seq<Key>, data: map<Key, T>, key: Key, value: T)
    requires Consistent(keys, data)
    ensures Consistent(keys + [key], data[key := value]) <==> key !in keys
    ensures key !in keys ==> Items(keys + [key], data[key := value]) == Items(keys, data) + [Item(key, value)]
  {
    if key in keys {
      var i :| 0 <= i < |keys| && keys[i] == key;
      assert (keys + [key])[i] == (keys + [key])[|keys|];
    } else {
      assert forall i :: 0 <= i < |keys| ==> keys[i] in keys;
    }
  }

  // ---- the map ----

  class BoundStackMap<T> {
    const capacity: nat
    var dataMap: map<Key, T>
    var orderedKeys: seq<Key>
    var cc: nat

    /** Key list, map and count agree. */
    ghost predicate Valid()
      reads this
    {
      cc == |orderedKeys| <= capacity && Consistent(orderedKeys, dataMap)
    }

    /** The records, oldest first. */
    ghost function Contents(): seq<Item<T>>
      requires Valid()
      reads this
    {
      Items(orderedKeys, dataMap)
    }

    constructor (size: nat)
      ensures Valid() && Contents() == [] && capacity == size
    {
      capacity := size;
      dataMap := map[];
      orderedKeys := [];
      cc := 0;
    }

    method RemoveIndex(i: nat)
      requires Consistent(orderedKeys, dataMap) && i < |orderedKeys|
      modifies `dataMap, `orderedKeys
      ensures Consistent(orderedKeys, dataMap)
      ensures orderedKeys == old(orderedKeys[..i] + orderedKeys[i + 1..])
      ensures Items(orderedKeys, dataMap)
          == old(Items(orderedKeys, dataMap)[..i] + Items(orderedKeys, dataMap)[i + 1..])
    {
      RemoveAt(orderedKeys, dataMap, i);
      dataMap := dataMap - {orderedKeys[i]};
      orderedKeys := orderedKeys[..i] + orderedKeys[i + 1..];
    }

    /** Room for one more: the oldest record goes when the map is full. */
    method Evict()
      requires Valid() && capacity >= 1
      modifies this
      ensures cc == |orderedKeys| + 1 <= capacity && Consistent(orderedKeys, dataMap)
      ensures orderedKeys == LastN(old(orderedKeys), capacity - 1)
      ensures Items(orderedKeys, dataMap) == LastN(old(Contents()), capacity - 1)
    {
      if cc == capacity {
        RemoveIndex(0);
      } else {
        cc := cc + 1;
      }
    }

    /** A key that is not among the kept ones becomes the newest record; a key that is breaks the key list. */
    method Push(key: Key, item: T)
      requires Valid() && capacity >= 1
      modifies this
      ensures orderedKeys == LastN(old(orderedKeys), capacity - 1) + [key]
      ensures Valid() <==> key !in LastN(old(orderedKeys), capacity - 1)
      ensures Valid() ==> Contents() == LastN(old(Contents()) + [Item(key, item)], capacity)
    {
      ghost var before := Contents();
      Evict();
      Append(orderedKeys, dataMap, key, item);
      orderedKeys := orderedKeys + [key];
      dataMap := dataMap[key := item];
      assert LastN(before, capacity - 1) + [Item(key, item)] == LastN(before + [Item(key, item)], capacity);
    }

    method Get(key: Key) returns (r: Option<T>)
      requires Valid()
      ensures r.Some? <==> exists i :: 0 <= i < |Contents()| && Contents()[i].key == key
      ensures r.Some? ==> Item(key, r.value) in Contents()
    {
      if key in dataMap {
        ghost var i :| 0 <= i < |orderedKeys| && orderedKeys[i] == key;
        assert Contents()[i] == Item(key, dataMap[key]);
        r := Some(dataMap[key]);
      } else {
        assert forall i :: 0 <= i < |orderedKeys| ==> orderedKeys[i] in orderedKeys;
        r := None;
      }
    }

    /** Negative indices count from the newest. */
    method At(index: int) returns (r: Option<T>)
      requires Valid()
      ensures var i := if index < 0 then |Contents()| + index else index;
              r == if 0 <= i < |Contents()| then Some(Contents()[i].value) else None
    {
      var i := index;
      if i < 0 {
        i := cc + i;
      }
      if i < 0 || i > cc - 1 {
        return None;
      }
      r := Some(dataMap[orderedKeys[i]]);
    }

    /** Clearing repairs any state. */
    method Clear()
      modifies this
      ensures Valid() && Contents() == []
    {
      cc := 0;
      dataMap := map[];
      orderedKeys := [];
    }

    /** The loop body of Filter. */
    method TestAt(i: nat, f: (Key, T) -> bool)
      requires Valid() && i < |orderedKeys|
      modifies this
      ensures Valid() && Contents() == Tested(old(Contents()), i, f)
    {
      var key := orderedKeys[i];
      var value := dataMap[key];
      if !f(key, value) {
        RemoveIndex(i);
        cc := cc - 1;
      }
    }

    /** The removal leaves the loop index on the item after the removed one, which the increment then skips. */
    method Filter(f: (Key, T) -> bool)
      requires Valid()
      modifies this
      ensures Valid() && Contents() == Sieve(old(Contents()), f)
    {
      ghost var all := Contents();
      var i := 0;
      while i < |orderedKeys|
        invariant Valid()
        invariant Progress(Contents(), i, f) == Sieve(all, f)
        decreases |orderedKeys| - i
      {
        ghost var before := Contents();
        ProgressStep(before, i, f);
        TestAt(i, f);
        assert |Contents()| == |orderedKeys| && |before| >= |Contents()|;
        i := i + 1;
      }
    }
  }

  /** The items once item i is tested. */
  function Tested<T>(items: seq<Item<T>>, i: nat, f: (Key, T) -> bool): (r: seq<Item<T>>)
    requires i < |items|
    ensures |r| <= |items|
  {
    if f(items[i].key, items[i].value) then items else items[..i] + items[i + 1..]
  }

  /** What Filter ends with from loop index i on. */
  function Progress<T>(items: seq<Item<T>>, i: nat, f: (Key, T) -> bool): seq<Item<T>>
  {
    if i >= |items| then items else items[..i] + Sieve(items[i..], f)
  }

  lemma ProgressStep<T>(items: seq<Item<T>>, i: nat, f: (Key, T) -> bool)
    requires i < |items|
    ensures Progress(items, i, f) == Progress(Tested(items, i, f), i + 1, f)
  {
    if f(items[i].key, items[i].value) {
      ProgressKeep(items, i, f);
    } else {
      ProgressRemove(items, i, f);
    }
  }

  lemma ProgressKeep<T>(items: seq<Item<T>>, i: nat, f: (Key, T) -> bool)
    requires i < |items| && f(items[i].key, items[i].value)
    ensures Progress(items, i, f) == Progress(items, i + 1, f)
  {
    var t := items[i..];
    assert t[1..] == items[i + 1..] && items[..i] + [items[i]] == items[..i + 1];
    assert Sieve([], f) == [];
  }

  lemma ProgressRemove<T>(items: seq<Item<T>>, i: nat, f: (Key, T) -> bool)
    requires i < |items| && !f(items[i].key, items[i].value)
    ensures Progress(items, i, f) == Progress(items[..i] + items[i + 1..], i + 1, f)
  {
    var t, fewer := items[i..], items[..i] + items[i + 1..];
    if |t| > 1 {
      assert fewer[i + 1..] == t[2..] && fewer[..i + 1] == items[..i] + [t[1]];
      assert Sieve([], f) == [];
    }
  }

  // ---- whole runs of pushes ----

  function KeysOf<T>(items: seq<Item<T>>): (keys: seq<Key>)
    ensures |keys| == |items|
  {
    seq(|items|, i requires 0 <= i < |items| => items[i].key)
  }

  /** Every key is fresh when it is pushed: not among those kept beside it. Distinct keys always are. */
  predicate FreshKeys<T>(xs: seq<Item<T>>, n: nat)
    requires n >= 1
  {
    forall i :: 0 <= i < |xs| ==> xs[i].key !in KeysOf(LastN(xs[..i], n - 1))
  }

  lemma DistinctFresh<T>(xs: seq<Item<T>>, n: nat)
    requires n >= 1 && Distinct(KeysOf(xs))
    ensures FreshKeys(xs, n)
  {
    forall i | 0 <= i < |xs| ensures xs[i].key !in KeysOf(LastN(xs[..i], n - 1)) {
      var kept := LastN(xs[..i], n - 1);
      forall k | 0 <= k < |kept| ensures KeysOf(kept)[k] != xs[i].key {
        var j := i - |kept| + k;
        assert kept[k] == xs[j] && KeysOf(xs)[j] != KeysOf(xs)[i];
      }
    }
  }

  lemma KeysOfItems<T>(keys: seq<Key>, data: map<Key, T>)
    requires Consistent(keys, data)
    ensures KeysOf(Items(keys, data)) == keys
  {
  }

  lemma KeysOfLastN<T>(items: seq<Item<T>>, n: nat)
    ensures KeysOf(LastN(items, n)) == LastN(KeysOf(items), n)
  {
  }

  lemma LastNTwice<T>(xs: seq<T>, n: nat, m: nat)
    requires m <= n
    ensures LastN(LastN(xs, n), m) == LastN(xs, m)
  {
  }

  /** The key list of a map that holds the last n of xs, less the one that makes room. */
  lemma KeysKept<T>(keys: seq<Key>, data: map<Key, T>, xs: seq<Item<T>>, n: nat)
    requires n >= 1 && Consistent(keys, data) && Items(keys, data) == LastN(xs, n)
    ensures LastN(keys, n - 1) == KeysOf(LastN(xs, n - 1))
  {
    KeysOfItems(keys, data);
    LastNTwice(xs, n, n - 1);
    KeysOfLastN(LastN(xs, n), n - 1);
  }

  /** One push of a key that is fresh after `pushed`. */
  method PushFresh<T>(bs: BoundStackMap<T>, ghost pushed: seq<Item<T>>, x: Item<T>)
    requires bs.Valid() && bs.capacity >= 1 && bs.Contents() == LastN(pushed, bs.capacity)
    requires x.key !in KeysOf(LastN(pushed, bs.capacity - 1))
    modifies bs
    ensures bs.Valid() && bs.Contents() == LastN(pushed + [x], bs.capacity)
  {
    KeysKept(bs.orderedKeys, bs.dataMap, pushed, bs.capacity);
    bs.Push(x.key, x.value);
    LastNSnoc(pushed, x, bs.capacity);
  }

  /** Pushing fresh keys, one after another, onto a new map leaves exactly the last `capacity` of them. */
  method PushAll<T>(bs: BoundStackMap<T>, xs: seq<Item<T>>)
    requires bs.Valid() && bs.Contents() == [] && bs.capacity >= 1 && FreshKeys(xs, bs.capacity)
    modifies bs
    ensures bs.Valid() && bs.Contents() == LastN(xs, bs.capacity)
  {
    var i := 0;
    while i < |xs|
      invariant 0 <= i <= |xs|
      invariant bs.Valid() && bs.Contents() == LastN(xs[..i], bs.capacity)
    {
      PushFresh(bs, xs[..i], xs[i]);
      assert xs[..i] + [xs[i]] == xs[..i + 1];
      i := i + 1;
    }
    assert xs[..i] == xs;
  }

  lemma LastNSnoc<T>(xs: seq<T>, x: T, n: nat)
    requires n >= 1
    ensures LastN(LastN(xs, n) + [x], n) == LastN(xs + [x], n)
  {
  }
}
