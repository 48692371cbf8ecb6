/** The hash table of avahi-core/hashmap.c: 123 buckets and a list of all slots, which hold the
    same slots and together are one finite map. A list is the sequence of its slots from the head
    on; a slot is shared between its bucket and the list and is rewritten in place. */
module HashMaps {
  import opened Bytes

  const HASH_MAP_SIZE := 123

  datatype Pair<K, V> = Pair(key: K, value: V)

  class Slot<K, V> {
    var key: K
    var value: V

    constructor (key: K, value: V)
      ensures this.key == key && this.value == value
    {
      this.key, this.value := key, value;
    }
  }

  /** What the two callbacks promise: equality is that of the identities of the keys, and equal
      keys have equal hashes. */
  ghost predicate Agree<K(!new), I>(hash: K -> nat, equal: (K, K) -> bool, ident: K -> I) {
    && (forall a, b :: equal(a, b) <==> ident(a) == ident(b))
    && (forall a, b :: ident(a) == ident(b) ==> hash(a) == hash(b))
  }

  class HashMap<K(!new), V, I> {
    const hash: K -> nat
    const equal: (K, K) -> bool
    ghost const ident: K -> I
    const buckets: array<seq<Slot<K, V>>>
    var list: seq<Slot<K, V>>
    ghost var model: map<I, Pair<K, V>>   // what the table stands for

    function Index(k: K): (i: nat)
      ensures i < HASH_MAP_SIZE
    {
      hash(k) % HASH_MAP_SIZE
    }

    /** Every slot is on the list and in the bucket of its key, and nothing else is. */
    ghost predicate Placed()
      reads this, buckets, list
    {
      && buckets.Length == HASH_MAP_SIZE
      && (forall i, s :: 0 <= i < HASH_MAP_SIZE && s in buckets[i] ==> s in list && Index(s.key) == i)
      && (forall s :: s in list ==> s in buckets[Index(s.key)])
      && NoRepeats(list) && (forall i :: 0 <= i < HASH_MAP_SIZE ==> NoRepeats(buckets[i]))
    }

    /** The slots are the pairs of the map, one for each identity. */
    ghost predicate Modelled()
      reads this, list
    {
      && (forall s, t :: s in list && t in list && ident(s.key) == ident(t.key) ==> s == t)
      && (forall s :: s in list ==> ident(s.key) in model && model[ident(s.key)] == Pair(s.key, s.value))
      && (forall i :: i in model ==> exists s :: s in list && ident(s.key) == i)
    }

    ghost predicate Valid()
      reads this, buckets, list
    {
      Agree(hash, equal, ident) && Placed() && Modelled()
    }

    constructor (hash: K -> nat, equal: (K, K) -> bool, ghost ident: K -> I)
      requires Agree(hash, equal, ident)
      ensures Valid() && model == map[] && list == [] && fresh(buckets)
      ensures this.hash == hash && this.equal == equal && this.ident == ident
    {
      this.hash, this.equal, this.ident := hash, equal, ident;
      buckets := new seq<Slot<K, V>>[HASH_MAP_SIZE](_ => []);
      list, model := [], map[];
    }

    /** entry_get. */
    method Get(k: K) returns (s: Slot?<K, V>)
      requires Valid()
      ensures s == null <==> ident(k) !in model
      ensures s != null ==> s in list && ident(s.key) == ident(k) && model[ident(k)] == Pair(s.key, s.value)
    {
      var bucket := buckets[Index(k)];
      var j := 0;
      while j < |bucket|
        invariant 0 <= j <= |bucket|
        invariant forall i :: 0 <= i < j ==> ident(bucket[i].key) != ident(k)
      {
        if equal(k, bucket[j].key) {
          assert bucket[j] in buckets[Index(k)];
          return bucket[j];
        }
        j := j + 1;
      }
      assert forall t :: t in bucket ==> ident(t.key) != ident(k);
      s := null;
    }

    /** avahi_hashmap_lookup. */
    method Lookup(k: K) returns (v: Option<V>)
      requires Valid()
      ensures v == if ident(k) in model then Some(model[ident(k)].value) else None
    {
      var s := Get(k);
      v := if s == null then None else Some(s.value);
    }

    /** The one change is the new slot s at the head of its lists. */
    twostate predicate Headed(new s: Slot<K, V>)
      reads this, buckets, s, list
    {
      && buckets.Length == HASH_MAP_SIZE && s !in old(list) && list == [s] + old(list)
      && (forall t :: t in old(list) ==> t in list && unchanged(t))
      && (forall i :: 0 <= i < HASH_MAP_SIZE ==> buckets[i] == (if i == Index(s.key) then [s] else []) + old(buckets[i]))
      && ident(s.key) !in old(model) && model == old(model)[ident(s.key) := Pair(s.key, s.value)]
    }

    twostate lemma PlacedWith(new s: Slot<K, V>)
      requires old(Placed()) && Headed(s)
      ensures Placed()
    {
      forall i, t | 0 <= i < HASH_MAP_SIZE && t in buckets[i]
        ensures t in list && Index(t.key) == i
      {
        assert t == s || t in old(buckets[i]);
      }
      forall t | t in list
        ensures t in buckets[Index(t.key)]
      {
        assert t == s || t in old(buckets[Index(t.key)]);
      }
    }

    twostate lemma ModelledWith(new s: Slot<K, V>)
      requires old(Modelled()) && Headed(s)
      ensures Modelled()
    {
    }

    /** The part insert and replace share: a new slot at the head of both lists. */
    method Add(k: K, v: V)
      requires Valid() && ident(k) !in model
      modifies this`list, this`model, buckets
      ensures Valid() && model == old(model)[ident(k) := Pair(k, v)]
      ensures fresh(set s | s in list && s !in old(list))
    {
      var s := new Slot(k, v);
      hide Agree, Modelled;
      list := [s] + list;
      buckets[Index(k)] := [s] + buckets[Index(k)];
      model := model[ident(k) := Pair(k, v)];
      assert Headed(s);
      hide Placed, Headed;
      PlacedWith(s);
      ModelledWith(s);
    }

    /** avahi_hashmap_insert: the pair already there wins. */
    method Insert(k: K, v: V) returns (present: bool)
      requires Valid()
      modifies this`list, this`model, buckets
      ensures Valid() && present == (ident(k) in old(model))
      ensures model == if present then old(model) else old(model)[ident(k) := Pair(k, v)]
    {
      var s := Get(k);
      if s != null {
        return true;
      }
      Add(k, v);
      present := false;
    }

    /** The one change is that the slot s was rewritten for an equal key. */
    twostate predicate Rewritten(new s: Slot<K, V>)
      reads this, buckets, s, list
    {
      && buckets.Length == HASH_MAP_SIZE && s in old(list) && list == old(list)
      && (forall t :: t in old(list) && t != s ==> t.key == old(t.key) && t.value == old(t.value))
      && (forall t :: t in old(list) && t == s ==> ident(t.key) == ident(old(t.key)))
      && (forall i :: 0 <= i < HASH_MAP_SIZE ==> buckets[i] == old(buckets[i]))
      && model == old(model)[ident(s.key) := Pair(s.key, s.value)]
    }

    twostate lemma PlacedRewritten(new s: Slot<K, V>)
      requires old(Placed()) && Rewritten(s) && Agree(hash, equal, ident)
      ensures Placed()
    {
      assert forall t :: t in old(list) ==> Index(t.key) == Index(old(t.key));
    }

    twostate lemma ModelledRewritten(new s: Slot<K, V>)
      requires old(Modelled()) && Rewritten(s)
      ensures Modelled()
    {
      assert forall t :: t in old(list) ==> ident(t.key) == ident(old(t.key));
    }

    /** avahi_hashmap_replace: key and value are both the new ones. */
    method Replace(k: K, v: V) returns (present: bool)
      requires Valid()
      modifies this`list, this`model, buckets, list
      ensures Valid() && present == (ident(k) in old(model))
      ensures model == old(model)[ident(k) := Pair(k, v)]
      ensures fresh(set s | s in list && s !in old(list))
    {
      var s := Get(k);
      present := s != null;
      if present {
        Rewrite(s, k, v);
      } else {
        Add(k, v);
      }
    }

    /** The slot of an equal key gets the new key and the new value. */
    method Rewrite(s: Slot<K, V>, k: K, v: V)
      requires Valid() && s in list && ident(s.key) == ident(k)
      modifies this`model, s
      ensures Valid() && model == old(model)[ident(k) := Pair(k, v)]
    {
      hide Agree, Placed, Modelled;
      Sized();
      s.key := k;
      s.value := v;
      model := model[ident(k) := Pair(k, v)];
      assert Rewritten(s);
      hide Rewritten;
      PlacedRewritten(s);
      ModelledRewritten(s);
    }

    /** The one change is that the slot s is gone. */
    twostate predicate Headless(new s: Slot<K, V>)
      reads this, buckets, s, list
    {
      && buckets.Length == HASH_MAP_SIZE && s in old(list) && list == Unlinked(old(list), s)
      && (forall t :: t in old(list) ==> t.key == old(t.key) && t.value == old(t.value))
      && (forall i :: 0 <= i < HASH_MAP_SIZE ==> buckets[i] == if i == Index(s.key) then Unlinked(old(buckets[i]), s) else old(buckets[i]))
      && model == old(model) - {ident(s.key)}
    }

    twostate lemma PlacedWithout(new s: Slot<K, V>)
      requires old(Placed()) && Headless(s)
      ensures Placed()
    {
      UnlinkedNoRepeats(old(list), s);
      UnlinkedNoRepeats(old(buckets[Index(s.key)]), s);
    }

    twostate lemma ModelledWithout(new s: Slot<K, V>)
      requires old(Modelled()) && NoRepeats(old(list)) && Headless(s)
      ensures Modelled()
    {
      UnlinkedNoRepeats(old(list), s);
    }

    lemma Sized()
      requires Placed()
      ensures buckets.Length == HASH_MAP_SIZE
    {
    }

    twostate lemma RemovedSlot(new s: Slot<K, V>)
      requires old(Placed()) && old(Modelled()) && Headless(s)
      ensures Placed() && Modelled()
    {
      PlacedWithout(s);
      ModelledWithout(s);
    }

    /** avahi_hashmap_remove with entry_free. */
    method Remove(k: K)
      requires Valid()
      modifies this`list, this`model, buckets
      ensures Valid() && model == old(model) - {ident(k)}
      ensures forall s :: s in list ==> s in old(list)
      ensures if ident(k) in old(model)
              then exists s :: s in old(list) && ident(s.key) == ident(k) && list == Unlinked(old(list), s)
              else list == old(list)
    {
      hide Agree, Placed, Modelled, NoRepeats;
      var found := Get(k);
      if found == null {
        return;
      }
      var s: Slot<K, V> := found;
      Sized();
      var i := Index(s.key);
      buckets[i] := Unlinked(buckets[i], s);
      list := Unlinked(list, s);
      model := model - {ident(k)};
      RemovedSlot(s);
    }

    /** avahi_hashmap_foreach: every pair of the map is visited exactly once. */
    method Foreach() returns (visited: seq<Pair<K, V>>)
      requires Valid()
      ensures |visited| == |list|
      ensures forall j, k :: 0 <= j < k < |visited| ==> ident(visited[j].key) != ident(visited[k].key)
      ensures forall j :: 0 <= j < |visited| ==> ident(visited[j].key) in model && model[ident(visited[j].key)] == visited[j]
      ensures forall i :: i in model ==> model[i] in visited
    {
      visited := [];
      var j := 0;
      while j < |list|
        invariant 0 <= j == |visited| <= |list|
        invariant forall k :: 0 <= k < j ==> visited[k] == Pair(list[k].key, list[k].value)
      {
        visited := visited + [Pair(list[j].key, list[j].value)];
        j := j + 1;
      }
      forall i | i in model
        ensures model[i] in visited
      {
        var s :| s in list && ident(s.key) == i;
        var k :| 0 <= k < |list| && list[k] == s;
        assert visited[k] == model[i];
      }
    }

    /** What the loop of avahi_hashmap_foreach keeps while its callback removes pairs: front is kept
        and rest is still to be visited. */
    twostate predicate Halfway(new front: seq<Slot<K, V>>, new rest: seq<Slot<K, V>>, gone: (K, V) -> bool)
      reads this, buckets, list, front
    {
      && list == front + rest
      && (forall s :: s in front ==> !gone(s.key, s.value))
      && (forall i :: i in model ==> i in old(model) && model[i] == old(model)[i])
      && (forall i :: i in old(model) && i !in model ==> gone(old(model)[i].key, old(model)[i].value))
    }

    lemma Head(front: seq<Slot<K, V>>, s: Slot<K, V>, rest: seq<Slot<K, V>>)
      requires Valid() && list == front + [s] + rest
      ensures s !in front && ident(s.key) in model && model[ident(s.key)] == Pair(s.key, s.value)
      ensures forall t :: t in list && ident(t.key) == ident(s.key) ==> t == s
    {
      assert list[|front|] == s;
      forall k | 0 <= k < |front| ensures front[k] != s {
        assert list[k] == front[k];
      }
    }

    /** avahi_hashmap_foreach with a callback that removes the pairs it is to remove: exactly those
        leave the map, although the list changes under the loop. */
    method ForeachRemoving(gone: (K, V) -> bool)
      requires Valid()
      modifies this`list, this`model, buckets
      ensures Valid()
      ensures model == map i | i in old(model) && !gone(old(model)[i].key, old(model)[i].value) :: old(model)[i]
    {
      hide Valid;
      ghost var front: seq<Slot<K, V>> := [];
      var rest := list;
      assert list == front + rest;
      while rest != []
        invariant Valid() && Halfway(front, rest, gone)
        decreases |rest|
      {
        var e, next := rest[0], rest[1..];
        assert front + rest == front + [e] + next;
        Head(front, e, next);
        if gone(e.key, e.value) {
          Remove(e.key);
          UnlinkedMiddle(front, e, next);
        } else {
          assert front + [e] + next == (front + [e]) + next;
          front := front + [e];
        }
        rest := next;
      }
      Left(front);
      assert list == front;
    }

    lemma Left(front: seq<Slot<K, V>>)
      requires Valid() && list == front + []
      ensures forall i :: i in model ==> exists s :: s in front && ident(s.key) == i && model[i] == Pair(s.key, s.value)
    {
    }
  }

  /** Unlinking what stands between two lists that do not hold it. */
  lemma {:induction false} UnlinkedMiddle<T>(front: seq<T>, x: T, back: seq<T>)
    requires x !in front
    ensures Unlinked(front + [x] + back, x) == front + back
  {
    if front == [] {
      assert front + [x] + back == [x] + back && ([x] + back)[1..] == back && front + back == back;
    } else {
      var l := front + [x] + back;
      assert l[0] == front[0] && l[1..] == front[1..] + [x] + back;
      UnlinkedMiddle(front[1..], x, back);
      assert [front[0]] + (front[1..] + back) == front + back;
    }
  }

  ghost predicate NoRepeats<T>(l: seq<T>) {
    forall j, k :: 0 <= j < k < |l| ==> l[j] != l[k]
  }

  lemma {:induction false} UnlinkedNoRepeats<T>(l: seq<T>, x: T)
    requires NoRepeats(l)
    ensures NoRepeats(Unlinked(l, x)) && x !in Unlinked(l, x)
  {
    if l != [] && l[0] != x {
      UnlinkedNoRepeats(l[1..], x);
      var r, u := Unlinked(l, x), Unlinked(l[1..], x);
      assert l[0] !in l[1..];
      assert r[0] == l[0] && forall k :: 0 < k < |r| ==> r[k] == u[k - 1];
      assert forall k :: 0 <= k < |u| ==> u[k] in u;
    }
  }

  /** AVAHI_LLIST_REMOVE. */
  function Unlinked<T(==)>(l: seq<T>, x: T): (r: seq<T>)
    ensures forall y :: y in r ==> y in l
    ensures forall y :: y in l && y != x ==> y in r
  {
    if l == [] then []
    else if l[0] == x then l[1..]
    else [l[0]] + Unlinked(l[1..], x)
  }

  lemma {:induction false} UnlinkedAbsent<T>(l: seq<T>, x: T)
    requires x !in l
    ensures Unlinked(l, x) == l
  {
    if l != [] {
      UnlinkedAbsent(l[1..], x);
    }
  }

  lemma UnlinkedCons<T>(y: T, l: seq<T>, x: T)
    requires y != x
    ensures Unlinked([y] + l, x) == [y] + Unlinked(l, x)
  {
    assert ([y] + l)[1..] == l;
  }

  lemma {:induction false} UnlinkedLength<T>(l: seq<T>, x: T)
    requires x in l
    ensures |Unlinked(l, x)| == |l| - 1
  {
    if l[0] != x {
      UnlinkedLength(l[1..], x);
    }
  }
}
