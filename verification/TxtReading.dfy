/** Reading TXT records (bonjour-sdk/dnssd_clientlib.c). The reading functions take any bytes; on
    the bytes of a record that was built they give back what was put in. */
module TxtReading {
  import opened Bytes
  import opened Domain
  import opened TxtRecords

  /** TXTRecordContainsKey. */
  method ContainsKey(data: array<byte>, length: nat, key: Text) returns (contains: bool)
    requires length <= data.Length
    ensures contains <==> Search(data[..length], 0, key).Some?
  {
    var item := InternalSearch(data, length, key);
    contains := item.Some?;
  }

  /** What follows the key and its '='; nothing when the item ends with the key. */
  function ValueAt(data: Text, key: Text): Option<Text> {
    match Search(data, 0, key)
    case None => None
    case Some(p) =>
      var n: nat := data[p];
      if n <= |key| then None else Some(data[p + 2 + |key|..p + 1 + n])
  }

  /** TXTRecordGetValuePtr: where the value is and how long. */
  method GetValue(data: array<byte>, length: nat, key: Text) returns (r: Option<nat>, size: nat)
    requires length <= data.Length
    ensures r == None ==> ValueAt(data[..length], key) == None
    ensures r.Some? ==> r.value + size <= length && ValueAt(data[..length], key) == Some(data[r.value..r.value + size])
  {
    hide Search;
    var item := InternalSearch(data, length, key);
    size := 0;
    if item == None || data[item.value] as nat <= |key| {
      return None, 0;
    }
    var p: nat, n: nat := item.value, data[item.value];
    r, size := Some(p + 1 + |key| + 1), n - (|key| + 1);
    assert data[..length][p + 2 + |key|..p + 1 + n] == data[p + 2 + |key|..p + 1 + n];
  }

  /** The number of items from position p on, if their lengths end exactly with the data. */
  function CountFrom(data: Text, p: nat): (n: Option<nat>)
    requires p <= |data|
    ensures n.Some? ==> n.value <= |data| - p
    decreases |data| - p
  {
    if p == |data| then Some(0) else
    var q: nat := p + 1 + data[p];
    if q > |data| then None else
    match CountFrom(data, q)
    case None => None
    case Some(n) => Some(n + 1)
  }

  /** TXTRecordGetCount; its 16-bit counter does not overflow. */
  method GetCount(data: array<byte>, length: nat) returns (count: nat)
    requires length <= data.Length && length <= 0xFFFF
    ensures count == match CountFrom(data[..length], 0) case None => 0 case Some(n) => n
    ensures count <= 0xFFFF
  {
    ghost var all := data[..length];
    var p, n: nat := 0, 0;
    while p < length
      invariant 0 <= p && n <= p
      invariant p <= length ==>
                  CountFrom(all, 0) == match CountFrom(all, p) case None => None case Some(m) => Some(n + m)
      invariant p > length ==> CountFrom(all, 0) == None
      decreases length - p
    {
      assert data[p] == all[p];
      p := p + 1 + data[p];
      n := n + 1;
    }
    count := if p > length then 0 else n;
  }

  datatype Entry = Entry(key: Text, value: Option<Text>) | KeyTooLong | NoItem

  /** The length of the key of an item: up to the first '=', or all of it. */
  function KeyLength(body: Text): (n: nat)
    ensures n <= |body| && (forall j :: 0 <= j < n ==> body[j] != EQUALS) && (n < |body| ==> body[n] == EQUALS)
  {
    if body == [] || body[0] == EQUALS then 0 else 1 + KeyLength(body[1..])
  }

  function Parts(body: Text, room: nat): Entry {
    var n := KeyLength(body);
    if n >= room then KeyTooLong
    else Entry(body[..n], if n < |body| then Some(body[n + 1..]) else None)
  }

  /** The item number `index` from position p on. */
  function ItemFrom(data: Text, p: nat, index: nat, room: nat): Entry
    requires p <= |data|
    decreases |data| - p
  {
    if p == |data| then NoItem else
    var q: nat := p + 1 + data[p];
    if q > |data| then NoItem
    else if index == 0 then Parts(data[p + 1..q], room)
    else ItemFrom(data, q, index - 1, room)
  }

  /** TXTRecordGetItemAtIndex; `room` is the size of the buffer for the key and its NUL. */
  method GetItemAtIndex(data: array<byte>, length: nat, index: nat, room: nat) returns (r: Entry)
    requires length <= data.Length
    ensures r == ItemFrom(data[..length], 0, index, room)
  {
    ghost var all := data[..length];
    var p, count: nat := 0, 0;
    while p < length && count < index
      invariant 0 <= p && count <= index
      invariant p <= length ==> ItemFrom(all, 0, index, room) == ItemFrom(all, p, index - count, room)
      invariant p > length ==> ItemFrom(all, 0, index, room) == NoItem
      decreases length - p
    {
      assert data[p] == all[p];
      p := p + 1 + data[p];
      count := count + 1;
    }
    if p < length && p + 1 + data[p] as nat <= length {
      var e := p + 1 + data[p] as nat;
      var body := data[p + 1..e];
      assert body == all[p + 1..e];
      var len := 0;
      while len < |body| && body[len] != EQUALS
        invariant 0 <= len <= |body| && KeyLength(body) >= len
      {
        len := len + 1;
      }
      if len >= room {
        return KeyTooLong;
      }
      return Entry(body[..len], if len < |body| then Some(body[len + 1..]) else None);
    }
    return NoItem;
  }

  lemma Sliced(a: Text, i: Item, c: Text)
    requires |Body(i)| <= 255
    ensures var data, p, n := a + Wire(i) + c, |a|, |Body(i)|;
            p + 1 + n <= |data| && data[p] == n && data[p + 1..p + 1 + n] == Body(i)
  {
    hide Body;
  }

  /** The body of the item number k lies where its length byte says. */
  lemma BodyAt(l: seq<Item>, k: nat)
    requires GoodItems(l) && k < |l|
    ensures GoodItems(l[..k])
    ensures var data, p, n := Encode(l), |Encode(l[..k])|, |Body(l[k])|;
            p + 1 + n <= |data| && data[p] == n && data[p + 1..p + 1 + n] == Body(l[k])
  {
    hide *;
    EncodeSplit(l, k);
    PartsGood(l, k);
    Sliced(Encode(l[..k]), l[k], Encode(l[k + 1..]));
  }

  /** What is read under the key is what the map says about it. */
  ghost predicate ReadsAs(l: seq<Item>, key: Text)
    requires GoodItems(l) && Distinct(l)
  {
    && (Search(Encode(l), 0, key).Some? <==> Fold(key) in AsMap(l))
    && ValueAt(Encode(l), key) == if Fold(key) in AsMap(l) then AsMap(l)[Fold(key)] else None
  }

  /** Reading back what was built: a key is contained exactly if the map has it, and the value
      read is the value set. A key without a value is contained but has nothing to read; one with
      an empty value reads as empty. */
  lemma ReadBack(l: seq<Item>, key: Text)
    requires GoodItems(l) && Distinct(l) && !Odd(key)
    ensures ReadsAs(l, key)
  {
    hide Search, Encode, Find, AsMap, Fold, Body, GoodItems, Distinct, Odd;
    FindKey(l, key);
    SearchFinds([], l, key);
    assert [] + Encode(l) == Encode(l);
    var k := Find(l, key);
    if k < |l| {
      BodyAt(l, k);
      ValueOfBody(l[k], key);
      ValueSlice(Encode(l), |Encode(l[..k])|, Body(l[k]), key);
    }
  }

  lemma ValueSlice(data: Text, p: nat, b: Text, key: Text)
    requires p + 1 + |b| <= |data| && data[p + 1..p + 1 + |b|] == b
    ensures |b| > |key| ==> data[p + 2 + |key|..p + 1 + |b|] == b[|key| + 1..]
  {
  }

  lemma ValueOfBody(i: Item, key: Text)
    requires Fold(i.key) == Fold(key)
    ensures if |Body(i)| <= |key| then i.value == None else i.value == Some(Body(i)[|key| + 1..])
  {
    assert |Fold(i.key)| == |Fold(key)|;
    if i.value.Some? {
      assert (i.key + [EQUALS] + i.value.value)[|key| + 1..] == i.value.value;
    }
  }

  lemma CountStep(before: Text, i: Item, rest: Text)
    requires |Body(i)| <= 255
    ensures var data := before + Wire(i) + rest;
            CountFrom(data, |before|) == match CountFrom(data, |before + Wire(i)|) case None => None case Some(n) => Some(n + 1)
  {
    Sliced(before, i, rest);
  }

  lemma CountEmpty(before: Text)
    ensures CountFrom(before + Encode([]), |before|) == Some(0)
  {
    assert before + Encode([]) == before;
  }

  lemma {:induction false} CountAfter(before: Text, l: seq<Item>)
    requires GoodItems(l)
    ensures CountFrom(before + Encode(l), |before|) == Some(|l|)
    decreases |l|
  {
    hide *;
    if l == [] {
      CountEmpty(before);
    } else {
      HeadItem(l);
      CountAfter(before + Wire(l[0]), l[1..]);
      CountStep(before, l[0], Encode(l[1..]));
      EncodeCons(l[0], l[1..]);
      assert before + Wire(l[0]) + Encode(l[1..]) == before + Encode(l);
    }
  }

  /** The items are counted, */
  lemma CountBuilt(l: seq<Item>)
    requires GoodItems(l)
    ensures CountFrom(Encode(l), 0) == Some(|l|)
  {
    CountAfter([], l);
    assert [] + Encode(l) == Encode(l);
  }

  lemma {:induction false} PartsOf(i: Item, room: nat)
    requires GoodItem(i)
    ensures Parts(Body(i), room) == if |i.key| >= room then KeyTooLong else Entry(i.key, i.value)
  {
    var b := Body(i);
    assert forall j :: 0 <= j < |i.key| ==> b[j] == i.key[j] && GoodByte(i.key[j]);
    assert |i.key| < |b| ==> b[|i.key|] == EQUALS;
    assert b[..|i.key|] == i.key;
    assert i.value.Some? ==> b[|i.key| + 1..] == i.value.value;
  }

  lemma ItemStep(before: Text, i: Item, rest: Text, index: nat, room: nat)
    requires |Body(i)| <= 255
    ensures var data := before + Wire(i) + rest;
            ItemFrom(data, |before|, index, room) ==
            if index == 0 then Parts(Body(i), room) else ItemFrom(data, |before + Wire(i)|, index - 1, room)
  {
    Sliced(before, i, rest);
    hide Parts, Body;
  }

  lemma ItemEmpty(before: Text, index: nat, room: nat)
    ensures ItemFrom(before + Encode([]), |before|, index, room) == NoItem
  {
    assert before + Encode([]) == before;
  }

  lemma {:induction false} ItemAfter(before: Text, l: seq<Item>, index: nat, room: nat)
    requires GoodItems(l)
    ensures ItemFrom(before + Encode(l), |before|, index, room) ==
            if index < |l| then Parts(Body(l[index]), room) else NoItem
    decreases |l|
  {
    hide *;
    if l == [] {
      ItemEmpty(before, index, room);
    } else {
      HeadItem(l);
      EncodeCons(l[0], l[1..]);
      ItemStep(before, l[0], Encode(l[1..]), index, room);
      if index > 0 {
        ItemAfter(before + Wire(l[0]), l[1..], index - 1, room);
      }
      assert before + Wire(l[0]) + Encode(l[1..]) == before + Encode(l);
    }
  }

  /** and each of them is read back by its number, if there is room for its key. */
  lemma ItemsReadBack(l: seq<Item>, index: nat, room: nat)
    requires GoodItems(l)
    ensures ItemFrom(Encode(l), 0, index, room) ==
            if index >= |l| then NoItem else if |l[index].key| >= room then KeyTooLong else Entry(l[index].key, l[index].value)
  {
    ItemAfter([], l, index, room);
    assert [] + Encode(l) == Encode(l);
    if index < |l| {
      GoodAt(l, index);
      PartsOf(l[index], room);
    }
  }

  /** Reading agrees with the map on every record that was built exactly if the key is not odd: it
      has no '=' behind a good key, or is longer than any item. */
  lemma SafeKeys(key: Text)
    ensures (forall l :: GoodItems(l) && Distinct(l) ==> ReadsAs(l, key)) <==> !Odd(key)
  {
    hide ReadsAs, GoodItems, Distinct;
    if Odd(key) {
      var n :| 0 <= n < |key| && LooksLikeItem(key, n);
      OddKeyHits(key, n);
    } else {
      forall l | GoodItems(l) && Distinct(l) ensures ReadsAs(l, key) {
        ReadBack(l, key);
      }
    }
  }

  /** Every odd key hits an item that does not have it: the search for "a=b" finds the item that
      sets "a" to "b". */
  lemma OddKeyHits(key: Text, n: nat)
    requires n < |key| <= 254 && LooksLikeItem(key, n)
    ensures var l := [Item(key[..n], Some(key[n + 1..]))];
            && GoodItems(l) && Distinct(l) && Fold(key) !in AsMap(l) && Search(Encode(l), 0, key) == Some(0) && !ReadsAs(l, key)
  {
    var i := Item(key[..n], Some(key[n + 1..]));
    OddItem(key, n);
    hide *;
    assert [i] == [i] + [];
    GoodOne(i);
    NoItems();
    EncodeCons(i, []);
    SearchStep([], i, Encode([]), key);
    assert [] + Wire(i) + Encode([]) == Encode([i]);
    OneItem(i);
    if Fold(key) in AsMap([i]) {
      var k := MapKey([i], Fold(key));
      SameLength(i.key, key);
    }
    ReadsAsIs([i], key);
  }

  lemma OddItem(key: Text, n: nat)
    requires n < |key| <= 254 && LooksLikeItem(key, n)
    ensures var i := Item(key[..n], Some(key[n + 1..])); GoodItem(i) && Answers(Body(i), key) && |i.key| < |key|
  {
    hide Fold;
    var i := Item(key[..n], Some(key[n + 1..]));
    assert Body(i) == key && key[..|key|] == key;
  }

  lemma NoItems()
    ensures GoodItems([]) && Encode([]) == []
  {
  }

  lemma OneItem(i: Item)
    ensures Distinct([i])
  {
  }

  lemma ReadsAsIs(l: seq<Item>, key: Text)
    requires GoodItems(l) && Distinct(l) && Search(Encode(l), 0, key).Some? && Fold(key) !in AsMap(l)
    ensures !ReadsAs(l, key)
  {
    hide Search, Encode, AsMap, Fold;
  }

  // ---------- a record that outgrows 16 bits ----------

  /** One of 256 items of the largest size. */
  function Filler(n: nat): (i: Item)
    requires n < 256
  {
    Item([33 + n / 16, 33 + n % 16], Some(seq(251, _ => 120)))
  }

  function Fillers(n: nat): (l: seq<Item>)
    requires n <= 256
    ensures |l| == n && forall k :: 0 <= k < n ==> l[k] == Filler(k)
  {
    seq(n, k requires 0 <= k < n => Filler(k))
  }

  lemma GoodFiller(n: nat)
    requires n < 256
    ensures GoodItem(Filler(n)) && |Body(Filler(n))| == 254 && |Filler(n).key| == 2
  {
  }

  lemma {:induction false} FillersFill(n: nat)
    requires n <= 256
    ensures GoodItems(Fillers(n)) && |Encode(Fillers(n))| == 255 * n
  {
    hide GoodItem, GoodItems, Encode, Body;
    if n == 0 {
      assert Fillers(0) == [];
      NoItems();
    } else {
      FillersFill(n - 1);
      assert Fillers(n) == Fillers(n - 1) + [Filler(n - 1)];
      GoodFiller(n - 1);
      EncodeLast(Fillers(n - 1), Filler(n - 1));
    }
  }

  lemma FillersDiffer(j: nat, k: nat)
    requires j < k < 256
    ensures Fold(Filler(j).key) != Fold(Filler(k).key)
  {
    var a, b := Filler(j).key, Filler(k).key;
    assert Fold(a)[0] == a[0] && Fold(a)[1] == a[1] && Fold(b)[0] == b[0] && Fold(b)[1] == b[1];
    assert j == 16 * (j / 16) + j % 16 && k == 16 * (k / 16) + k % 16;
  }

  /** The short items "x" and "k". */
  const ITEM_X: Item := Item([120], None)
  const ITEM_K: Item := Item([107], None)

  /** A full record: 256 large items and two short ones, 65284 bytes. */
  function FullRecord(): (l: seq<Item>)
    ensures |l| == 258 && l[..256] == Fillers(256) && l[256] == ITEM_X && l[257] == ITEM_K
  {
    Fillers(256) + [ITEM_X] + [ITEM_K]
  }

  lemma ShortItems()
    ensures GoodItem(ITEM_X) && GoodItem(ITEM_K) && |Body(ITEM_X)| == 1 == |Body(ITEM_K)|
    ensures |ITEM_X.key| == 1 == |ITEM_K.key| && Fold(ITEM_X.key) != Fold(ITEM_K.key)
  {
    assert Fold(ITEM_X.key)[0] == 120 && Fold(ITEM_K.key)[0] == 107;
  }

  lemma FullRecordDistinct()
    ensures Distinct(FullRecord())
  {
    hide Fold, Filler;
    var l := FullRecord();
    ShortItems();
    forall j, k | 0 <= j < k < |l| ensures Fold(l[j].key) != Fold(l[k].key) {
      if k < 256 {
        FillersDiffer(j, k);
        assert l[j] == l[..256][j] && l[k] == l[..256][k];
      } else if j < 256 {
        GoodFiller(j);
        assert l[j] == l[..256][j];
        assert |Fold(l[j].key)| == 2 && |Fold(l[k].key)| == 1;
      }
    }
  }

  lemma FullRecordSize()
    ensures GoodItems(FullRecord()) && |Encode(FullRecord())| == 65284
    ensures GoodItems(Fillers(256) + [ITEM_X]) && |Encode(Fillers(256) + [ITEM_X])| == 65282
  {
    hide *;
    FillersFill(256);
    ShortItems();
    EncodeLast(Fillers(256), ITEM_X);
    EncodeLast(Fillers(256) + [ITEM_X], ITEM_K);
    FullRecordIs();
  }

  lemma FullRecordIs()
    ensures FullRecord() == Fillers(256) + [ITEM_X] + [ITEM_K]
  {
    hide Filler;
  }

  /** In a full record the key "k" cannot be given a value of 252 bytes, and by the time
      TXTRecordSetValue finds that out, the key is gone. */
  lemma FullRecordLoses(value: Text)
    requires |value| == 252
    ensures var l, i := FullRecord(), Item([107], Some(value));
            && GoodItems(l) && Distinct(l) && |Encode(l)| <= 0xFFFF && Fold([107]) in AsMap(l) && GoodItem(i)
            && GoodItems(Dropped(l, i.key)) && |Encode(Dropped(l, i.key))| + 1 + |Body(i)| > 0xFFFF
            && Distinct(Dropped(l, i.key)) && Fold([107]) !in AsMap(Dropped(l, i.key))
  {
    hide *;
    var l, i := FullRecord(), Item([107], Some(value));
    FullRecordDistinct();
    FullRecordSize();
    FullRecordIs();
    LargeItem(value);
    GoodOne(i);
    GoodNotOdd(i.key);
    ShortItems();
    LastDropped(Fillers(256) + [ITEM_X], ITEM_K);
    DroppedMap(l, i.key);
  }

  lemma LargeItem(value: Text)
    requires |value| == 252
    ensures var i := Item([107], Some(value)); GoodItem(i) && |Body(i)| == 254 && ITEM_K.key == [107] == i.key
  {
  }

  lemma OneKey(l: seq<Item>, j: nat, k: nat)
    requires Distinct(l) && j < |l| && k < |l| && Fold(l[j].key) == Fold(l[k].key)
    ensures j == k
  {
    hide Fold;
  }

  /** Dropping the key of the last item leaves the items before it. */
  lemma LastDropped(l: seq<Item>, i: Item)
    requires GoodItems(l + [i]) && Distinct(l + [i]) && GoodItem(i)
    ensures Dropped(l + [i], i.key) == l && Fold(i.key) in AsMap(l + [i])
  {
    var all := l + [i];
    assert all[|l|] == i;
    hide Fold, Answers, Body, GoodItem;
    MapAt(all, |l|);
    GoodOne(i);
    GoodNotOdd(i.key);
    FindKey(all, i.key);
    OneKey(all, Find(all, i.key), |l|);
    assert Without(all, |l|) == l;
  }
}
