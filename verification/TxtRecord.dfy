/** The TXT record buffer of bonjour-sdk/dnssd_clientlib.c as a map from keys to values. Keys are
    compared without regard to letter case. The allocator always succeeds. */
module TxtRecords {
  import opened Bytes
  import opened Domain

  type Text = seq<byte>

  const EQUALS: byte := 61

  /** One item of the record: a key, and perhaps a value, which may be empty. */
  datatype Item = Item(key: Text, value: Option<Text>)

  function Body(i: Item): Text {
    match i.value
    case None => i.key
    case Some(v) => i.key + [EQUALS] + v
  }

  predicate GoodByte(b: byte) {
    0x20 <= b <= 0x7E && b != EQUALS
  }

  predicate GoodKey(k: Text) {
    k != [] && forall i :: 0 <= i < |k| ==> GoodByte(k[i])
  }

  /** A search key that looks like a whole item: a good key, '=' and more. */
  ghost predicate Odd(key: Text) {
    |key| <= 254 && exists n :: 0 <= n < |key| && LooksLikeItem(key, n)
  }

  predicate LooksLikeItem(key: Text, n: nat)
    requires n < |key|
  {
    key[n] == EQUALS && GoodKey(key[..n])
  }

  predicate GoodItem(i: Item) {
    GoodKey(i.key) && |Body(i)| <= 254
  }

  function Wire(i: Item): (w: Text)
    requires |Body(i)| <= 255
    ensures |w| == 1 + |Body(i)|
  {
    [|Body(i)|] + Body(i)
  }

  predicate GoodItems(l: seq<Item>) {
    forall k :: 0 <= k < |l| ==> GoodItem(l[k])
  }

  /** The bytes of a record with the items l: their lengths sum to the length of the data. */
  function Encode(l: seq<Item>): (w: Text)
    requires GoodItems(l)
  {
    if l == [] then [] else Wire(l[0]) + Encode(l[1..])
  }

  /** Does an item with this body answer to the key? */
  predicate Answers(body: Text, key: Text) {
    && |key| <= |body| && Fold(body[..|key|]) == Fold(key)
    && (|key| == |body| || body[|key|] == EQUALS)
  }

  /** InternalTXTRecordSearch from position p on, for any bytes: where the first item that answers
      to the key begins. */
  function Search(data: Text, p: nat, key: Text): (r: Option<nat>)
    requires p <= |data|
    ensures r.Some? ==> r.value < |data| && r.value + 1 + data[r.value] <= |data|
    decreases |data| - p
  {
    if p == |data| then None else
    var q: nat := p + 1 + data[p];
    if q > |data| then None
    else if Answers(data[p + 1..q], key) then Some(p)
    else Search(data, q, key)
  }

  /** strncasecmp on the first n characters: are they the same? */
  method SameFolded(data: array<byte>, at: nat, key: Text) returns (same: bool)
    requires at + |key| <= data.Length
    ensures same <==> Fold(data[at..at + |key|]) == Fold(key)
  {
    var i := 0;
    while i < |key|
      invariant 0 <= i <= |key|
      invariant forall j :: 0 <= j < i ==> Lower(data[at + j]) == Lower(key[j])
    {
      if Lower(data[at + i]) != Lower(key[i]) {
        assert Fold(data[at..at + |key|])[i] != Fold(key)[i];
        return false;
      }
      i := i + 1;
    }
    return true;
  }

  /** InternalTXTRecordSearch on the first `length` bytes of a buffer. */
  method InternalSearch(data: array<byte>, length: nat, key: Text) returns (r: Option<nat>)
    requires length <= data.Length
    ensures r == Search(data[..length], 0, key)
  {
    hide Fold;
    ghost var all := data[..length];
    var p := 0;
    while p < length
      invariant 0 <= p <= length ==> Search(all, 0, key) == Search(all, p, key)
      invariant 0 <= p && (p > length ==> Search(all, 0, key) == None)
      decreases length - p
    {
      var x := p;
      p := p + 1 + data[p];
      if p <= length && |key| <= data[x] {
        assert all[x + 1..p][..|key|] == data[x + 1..x + 1 + |key|];
        var same := SameFolded(data, x + 1, key);
        if same && (|key| == data[x] || data[x + 1 + |key|] == EQUALS) {
          return Some(x);
        }
      }
    }
    r := None;
  }

  /** The position of the first item that answers to the key, or the number of items. */
  function Find(l: seq<Item>, key: Text): (k: nat)
    ensures k <= |l|
    ensures k < |l| ==> Answers(Body(l[k]), key)
    ensures forall j :: 0 <= j < k ==> !Answers(Body(l[j]), key)
  {
    if l == [] then 0 else if Answers(Body(l[0]), key) then 0 else 1 + Find(l[1..], key)
  }

  /** A key is answered exactly by the items that have it, in whatever case, unless it is odd. */
  lemma AnswersKey(i: Item, key: Text)
    requires GoodItem(i) && !Odd(key)
    ensures Answers(Body(i), key) <==> Fold(i.key) == Fold(key)
  {
    hide GoodItem, Fold, Body, Odd;
    BodyOf(i);
    if Fold(i.key) == Fold(key) {
      SameLength(i.key, key);
      assert Body(i)[..|key|] == i.key;
    } else if Answers(Body(i), key) {
      AnsweredPrefix(i, key);
      assert false;
    }
  }

  lemma SameLength(a: Text, b: Text)
    requires Fold(a) == Fold(b)
    ensures |a| == |b|
  {
    assert |Fold(a)| == |Fold(b)|;
  }

  lemma BodyOf(i: Item)
    requires GoodItem(i)
    ensures |i.key| <= |Body(i)| <= 254 && Body(i)[..|i.key|] == i.key && GoodKey(i.key)
    ensures |i.key| < |Body(i)| ==> Body(i)[|i.key|] == EQUALS
  {
  }

  /** When an item answers to a key that it does not have, its own key and '=' are the beginning of
      that key. */
  lemma AnsweredPrefix(i: Item, key: Text)
    requires GoodItem(i) && Answers(Body(i), key) && Fold(i.key) != Fold(key)
    ensures Odd(key)
  {
    hide GoodItem, Body, Fold;
    BodyOf(i);
    var b, n := Body(i), |i.key|;
    KeyReaches(i, key);
    assert Fold(b[..|key|]) == Fold(key);
    if |key| > n {
      FoldParts(b[..|key|], key, n);
      assert b[..|key|][..n] == i.key && b[..|key|][n] == EQUALS;
      assert key[n] == EQUALS;
      GoodFolded(i.key, key[..n]);
      assert LooksLikeItem(key, n);
    }
  }

  /** No item answers to the beginning of its key. */
  lemma KeyReaches(i: Item, key: Text)
    requires GoodItem(i) && Answers(Body(i), key)
    ensures |key| >= |i.key|
  {
    assert forall j :: 0 <= j < |i.key| ==> Body(i)[j] == i.key[j] && GoodByte(i.key[j]);
  }

  lemma FoldParts(a: Text, b: Text, n: nat)
    requires Fold(a) == Fold(b) && n < |a|
    ensures |a| == |b| && Fold(a[..n]) == Fold(b[..n]) && Lower(a[n]) == Lower(b[n])
  {
    SameLength(a, b);
    assert Fold(a)[n] == Lower(a[n]) && Fold(b)[n] == Lower(b[n]);
    forall k | 0 <= k < n ensures Fold(a[..n])[k] == Fold(b[..n])[k] {
      assert Fold(a)[k] == Lower(a[k]) && Fold(b)[k] == Lower(b[k]);
    }
  }

  /** Whether a key is good does not depend on letter case. */
  lemma GoodFolded(a: Text, b: Text)
    requires GoodKey(a) && Fold(a) == Fold(b)
    ensures GoodKey(b)
  {
    SameLength(a, b);
    forall k | 0 <= k < |b| ensures GoodByte(b[k]) {
      assert Fold(a)[k] == Lower(a[k]) && Fold(b)[k] == Lower(b[k]);
      assert GoodByte(a[k]);
    }
  }

  lemma GoodNotOdd(key: Text)
    requires GoodKey(key)
    ensures !Odd(key)
  {
    forall n | 0 <= n < |key| ensures !LooksLikeItem(key, n) {
      assert GoodByte(key[n]);
    }
  }

  lemma SearchStep(before: Text, i: Item, rest: Text, key: Text)
    requires |Body(i)| <= 255
    ensures Search(before + Wire(i) + rest, |before|, key) ==
            if Answers(Body(i), key) then Some(|before|) else Search(before + Wire(i) + rest, |before + Wire(i)|, key)
  {
    hide Answers;
    var data := before + Wire(i) + rest;
    assert data[|before|] == |Body(i)|;
    assert data[|before| + 1..|before| + 1 + |Body(i)|] == Body(i);
  }

  lemma EncodeCons(i: Item, l: seq<Item>)
    requires GoodItem(i) && GoodItems(l)
    ensures GoodItems([i] + l) && Encode([i] + l) == Wire(i) + Encode(l)
  {
    assert ([i] + l)[1..] == l;
  }

  lemma FindCons(i: Item, l: seq<Item>, key: Text)
    ensures Find([i] + l, key) == if Answers(Body(i), key) then 0 else 1 + Find(l, key)
  {
    assert ([i] + l)[1..] == l;
  }

  /** Where the item with the key begins in the bytes of the items. */
  function Place(l: seq<Item>, key: Text): Option<nat>
    requires GoodItems(l)
  {
    var k := Find(l, key);
    if k == |l| then None else Some(|Encode(l[..k])|)
  }

  lemma PlaceCons(i: Item, l: seq<Item>, key: Text)
    requires GoodItem(i) && GoodItems(l)
    ensures GoodItems([i] + l)
    ensures Place([i] + l, key) == if Answers(Body(i), key) then Some(0) else Shift(Place(l, key), |Wire(i)|)
  {
    hide Answers, Wire, Body;
    FindCons(i, l, key);
    var k := Find(l, key);
    assert ([i] + l)[..0] == [];
    assert ([i] + l)[..1 + k] == [i] + l[..k];
    EncodeCons(i, l[..k]);
  }

  function Shift(r: Option<nat>, n: nat): Option<nat> {
    match r
    case None => None
    case Some(p) => Some(p + n)
  }

  lemma SearchNothing(before: Text, key: Text)
    ensures Search(before + Encode([]), |before|, key) == None && Place([], key) == None && Shift(None, |before|) == None
  {
    assert before + Encode([]) == before;
  }

  lemma HeadItem(l: seq<Item>)
    requires GoodItems(l) && l != []
    ensures GoodItem(l[0]) && |Body(l[0])| <= 255 && GoodItems(l[1..]) && l == [l[0]] + l[1..]
  {
  }

  lemma ShiftTwice(r: Option<nat>, m: nat, n: nat)
    ensures Shift(Shift(r, m), n) == Shift(r, n + m) && Shift(Some(0), n) == Some(n)
  {
  }

  /** On a record that was built, the search finds the item with the key. */
  lemma {:induction false} SearchFinds(before: Text, l: seq<Item>, key: Text)
    requires GoodItems(l)
    ensures Search(before + Encode(l), |before|, key) == Shift(Place(l, key), |before|)
    decreases |l|
  {
    hide *;
    if l == [] {
      SearchNothing(before, key);
    } else {
      var i, rest := l[0], l[1..];
      HeadItem(l);
      var w := Wire(i);
      SearchStep(before, i, Encode(rest), key);
      EncodeCons(i, rest);
      PlaceCons(i, rest, key);
      assert before + w + Encode(rest) == before + Encode(l);
      SearchFinds(before + w, rest, key);
      ShiftTwice(Place(rest, key), |w|, |before|);
    }
  }

  lemma {:induction false} EncodeConcat(a: seq<Item>, b: seq<Item>)
    requires GoodItems(a) && GoodItems(b)
    ensures GoodItems(a + b) && Encode(a + b) == Encode(a) + Encode(b)
  {
    hide *;
    if a == [] {
      EncodeNothing();
      assert a + b == b && [] + Encode(b) == Encode(b);
    } else {
      HeadItem(a);
      EncodeConcat(a[1..], b);
      EncodeCons(a[0], a[1..]);
      EncodeCons(a[0], a[1..] + b);
      assert a + b == [a[0]] + (a[1..] + b);
      assert Wire(a[0]) + (Encode(a[1..]) + Encode(b)) == Wire(a[0]) + Encode(a[1..]) + Encode(b);
    }
  }

  lemma EncodeNothing()
    ensures Encode([]) == []
  {
  }

  /** No key occurs twice, in whatever case. */
  predicate Distinct(l: seq<Item>) {
    forall j, k :: 0 <= j < k < |l| ==> Fold(l[j].key) != Fold(l[k].key)
  }

  /** What the items say about each key. */
  ghost function AsMap(l: seq<Item>): (m: map<Text, Option<Text>>)
    requires Distinct(l)
  {
    map k | 0 <= k < |l| :: Fold(l[k].key) := l[k].value
  }

  function Without(l: seq<Item>, k: nat): seq<Item>
    requires k < |l|
  {
    l[..k] + l[k + 1..]
  }

  lemma WithoutDistinct(l: seq<Item>, k: nat)
    requires k < |l| && Distinct(l)
    ensures Distinct(Without(l, k))
  {
    hide Fold;
    var w := Without(l, k);
    assert forall j :: 0 <= j < |w| ==> w[j] == l[if j < k then j else j + 1];
  }

  lemma MapAt(l: seq<Item>, k: nat)
    requires k < |l| && Distinct(l)
    ensures Fold(l[k].key) in AsMap(l) && AsMap(l)[Fold(l[k].key)] == l[k].value
  {
  }

  lemma MapKey(l: seq<Item>, f: Text) returns (k: nat)
    requires Distinct(l) && f in AsMap(l)
    ensures k < |l| && Fold(l[k].key) == f && AsMap(l)[f] == l[k].value
  {
    hide Fold;
    k :| 0 <= k < |l| && Fold(l[k].key) == f;
  }

  lemma WithoutAt(l: seq<Item>, k: nat, j: nat)
    requires k < |l| && j < |l|
    ensures |Without(l, k)| == |l| - 1
    ensures j != k ==> Without(l, k)[if j < k then j else j - 1] == l[j]
    ensures j != k && Distinct(l) ==> Fold(l[j].key) != Fold(l[k].key)
  {
    hide Fold;
  }

  lemma WithoutItem(l: seq<Item>, k: nat)
    requires k < |l| && Distinct(l)
    ensures Distinct(Without(l, k)) && AsMap(Without(l, k)) == AsMap(l) - {Fold(l[k].key)}
  {
    hide *;
    WithoutDistinct(l, k);
    WithoutAt(l, k, k);
    var w := Without(l, k);
    forall f | f in AsMap(w)
      ensures f in AsMap(l) && f != Fold(l[k].key) && AsMap(w)[f] == AsMap(l)[f]
    {
      var j := MapKey(w, f);
      var n := if j < k then j else j + 1;
      WithoutAt(l, k, n);
      MapAt(l, n);
    }
    forall f | f in AsMap(l) && f != Fold(l[k].key)
      ensures f in AsMap(w)
    {
      var j := MapKey(l, f);
      WithoutAt(l, k, j);
      MapAt(w, if j < k then j else j - 1);
    }
  }

  lemma WithItem(l: seq<Item>, i: Item)
    requires Distinct(l) && Fold(i.key) !in AsMap(l)
    ensures Distinct(l + [i]) && AsMap(l + [i]) == AsMap(l)[Fold(i.key) := i.value]
  {
    hide Fold;
    assert forall j :: 0 <= j < |l| ==> (l + [i])[j] == l[j];
    assert (l + [i])[|l|] == i;
  }

  /** A key that is not odd finds the item that has it, and nothing when no item does. */
  lemma FindKey(l: seq<Item>, key: Text)
    requires GoodItems(l) && Distinct(l) && !Odd(key)
    ensures var k := Find(l, key);
            if k < |l| then Fold(l[k].key) == Fold(key) && AsMap(l)[Fold(key)] == l[k].value else Fold(key) !in AsMap(l)
    ensures Find(l, key) < |l| <==> Fold(key) in AsMap(l)
  {
    hide Fold, Answers, Body, Odd;
    forall k | 0 <= k < |l|
      ensures Answers(Body(l[k]), key) <==> Fold(l[k].key) == Fold(key)
    {
      GoodAt(l, k);
      AnswersKey(l[k], key);
    }
  }

  lemma GoodAt(l: seq<Item>, k: nat)
    requires GoodItems(l) && k < |l|
    ensures GoodItem(l[k])
  {
  }

  /** The bytes of the items before, at and after number k. */
  lemma EncodeSplit(l: seq<Item>, k: nat)
    requires GoodItems(l) && k < |l|
    ensures GoodItems(Without(l, k)) && GoodItems(l[..k]) && GoodItems(l[k + 1..])
    ensures Encode(l) == Encode(l[..k]) + Wire(l[k]) + Encode(l[k + 1..])
    ensures Encode(Without(l, k)) == Encode(l[..k]) + Encode(l[k + 1..])
  {
    hide *;
    PartsGood(l, k);
    EncodeConcat(l[..k], l[k + 1..]);
    EncodeCons(l[k], l[k + 1..]);
    EncodeConcat(l[..k], [l[k]] + l[k + 1..]);
    WithoutIs(l, k);
  }

  lemma PartsGood(l: seq<Item>, k: nat)
    requires GoodItems(l) && k < |l|
    ensures GoodItems(l[..k]) && GoodItems(l[k + 1..]) && GoodItem(l[k]) && |Body(l[k])| <= 255
    ensures l == l[..k] + ([l[k]] + l[k + 1..])
  {
    hide Body;
  }

  lemma WithoutIs(l: seq<Item>, k: nat)
    requires k < |l|
    ensures Without(l, k) == l[..k] + l[k + 1..]
  {
  }

  /** The items without the one that answers to the key. */
  function Dropped(l: seq<Item>, key: Text): seq<Item> {
    if Find(l, key) == |l| then l else Without(l, Find(l, key))
  }

  lemma DroppedIs(l: seq<Item>, key: Text)
    ensures Dropped(l, key) == if Find(l, key) == |l| then l else Without(l, Find(l, key))
  {
  }

  lemma FindBound(l: seq<Item>, key: Text)
    ensures Find(l, key) <= |l|
  {
  }

  /** Removing a key that is not odd takes it, in whatever case, out of the map and leaves every
      other key. */
  lemma DroppedMap(l: seq<Item>, key: Text)
    requires GoodItems(l) && Distinct(l) && !Odd(key)
    ensures GoodItems(Dropped(l, key)) && Distinct(Dropped(l, key))
    ensures AsMap(Dropped(l, key)) == AsMap(l) - {Fold(key)}
  {
    hide *;
    FindKey(l, key);
    var k := Find(l, key);
    DroppedIs(l, key);
    FindBound(l, key);
    if k < |l| {
      EncodeSplit(l, k);
      WithoutItem(l, k);
    }
  }

  /** Setting a good key, in whatever case, gives it the new value and leaves every other key. */
  lemma SetMap(l: seq<Item>, i: Item)
    requires GoodItems(l) && Distinct(l) && GoodItem(i)
    ensures GoodItems(Dropped(l, i.key) + [i]) && Distinct(Dropped(l, i.key) + [i])
    ensures AsMap(Dropped(l, i.key) + [i]) == AsMap(l)[Fold(i.key) := i.value]
  {
    hide *;
    GoodOne(i);
    GoodNotOdd(i.key);
    DroppedMap(l, i.key);
    WithItem(Dropped(l, i.key), i);
    EncodeConcat(Dropped(l, i.key), [i]);
  }

  lemma GoodOne(i: Item)
    requires GoodItem(i)
    ensures GoodKey(i.key) && GoodItems([i])
  {
  }

  lemma EncodeLast(l: seq<Item>, i: Item)
    requires GoodItems(l) && GoodItem(i)
    ensures GoodItems(l + [i]) && |Body(i)| <= 254 && Encode(l + [i]) == Encode(l) + ([|Body(i)|] + Body(i))
  {
    assert GoodItems([i]) && Encode([i]) == Wire(i) + Encode([]);
    assert Encode([i]) == Wire(i);
    EncodeConcat(l, [i]);
  }

  datatype Outcome = NoError | NoSuchKey | Invalid

  class TxtRecord {
    var buffer: array<byte>
    var datalen: nat
    ghost var items: seq<Item>

    /** The data are the items, whose keys are all different. */
    ghost predicate Valid()
      reads this, buffer
    {
      && datalen <= buffer.Length <= 0xFFFF
      && GoodItems(items) && Distinct(items) && buffer[..datalen] == Encode(items)
    }

    /** TXTRecordCreate. */
    constructor (buffer: array<byte>)
      requires buffer.Length <= 0xFFFF
      ensures Valid() && items == [] && this.buffer == buffer
    {
      this.buffer := buffer;
      datalen, items := 0, [];
    }

    /** TXTRecordRemoveValue. For a good key it removes the item that has it. */
    method RemoveValue(key: Text) returns (r: Outcome)
      requires Valid()
      modifies this`datalen, this`items, buffer
      ensures Valid()
      ensures r == if Find(old(items), key) == |old(items)| then NoSuchKey else NoError
      ensures items == Dropped(old(items), key)
    {
      DroppedIs(items, key);
      hide *;
      Located(key);
      var item := InternalSearch(buffer, datalen, key);
      if item == None {
        return NoSuchKey;
      }
      ghost var k := Find(items, key);
      EncodeSplit(items, k);
      Removal(k);
      var p := item.value;
      var itemlen: nat := 1 + buffer[p] as int;
      MoveDown(p, itemlen);
      datalen := datalen - itemlen;
      items := Without(items, k);
      ValidAgain();
      return NoError;
    }

    /** memmove: what follows the item moves over it. */
    method MoveDown(p: nat, itemlen: nat)
      requires p + itemlen <= datalen <= buffer.Length
      modifies buffer
      ensures buffer[..datalen - itemlen] == old(buffer[..datalen])[..p] + old(buffer[..datalen])[p + itemlen..]
    {
      forall j | 0 <= j < datalen - (p + itemlen) {
        buffer[p + j] := buffer[p + itemlen + j];
      }
    }

    /** Where the search puts the item. */
    lemma Located(key: Text)
      requires Valid()
      ensures datalen <= buffer.Length && buffer[..datalen] == Encode(items) && GoodItems(items)
      ensures Search(buffer[..datalen], 0, key) ==
              if Find(items, key) == |items| then None else Some(|Encode(items[..Find(items, key)])|)
    {
      hide Search, Find, Encode;
      assert [] + Encode(items) == Encode(items);
      SearchFinds([], items, key);
    }

    lemma Removal(k: nat)
      requires Valid() && k < |items|
      ensures Distinct(Without(items, k)) && datalen <= buffer.Length <= 0xFFFF
      ensures var p, w := |Encode(items[..k])|, |Wire(items[k])|;
              && p + w <= datalen && w == 1 + buffer[p] as int
              && buffer[..datalen][..p] + buffer[..datalen][p + w..] == Encode(Without(items, k))
    {
      EncodeSplit(items, k);
      WithoutDistinct(items, k);
      hide Encode, Distinct, Without, Body, GoodItems;
      var a, b, c := Encode(items[..k]), Wire(items[k]), Encode(items[k + 1..]);
      assert buffer[..datalen] == a + b + c;
      assert buffer[|a|] == (a + b + c)[|a|] == b[0];
      assert (a + b + c)[..|a|] == a && (a + b + c)[|a| + |b|..] == c;
    }

    lemma ValidAgain()
      requires datalen <= buffer.Length <= 0xFFFF
      requires GoodItems(items) && Distinct(items) && buffer[..datalen] == Encode(items)
      ensures Valid()
    {
    }

    /** TXTRecordSetValue. A good pair that fits replaces what the record says about the key and
        leaves the rest. When even a new buffer could not hold it the call fails, and by then the
        old value is gone. */
    method SetValue(key: Text, value: Option<Text>) returns (r: Outcome)
      requires Valid() && (value.Some? ==> |value.value| <= 255)
      modifies this, buffer
      ensures Valid() && (buffer == old(buffer) || fresh(buffer))
      ensures r == NoError || r == Invalid
      ensures !GoodItem(Item(key, value)) ==> r == Invalid && items == old(items)
      ensures GoodItem(Item(key, value)) ==> items == Dropped(old(items), key) + if r == NoError then [Item(key, value)] else []
      ensures GoodItem(Item(key, value)) ==> (r == NoError <==> |Encode(Dropped(old(items), key))| + 1 + |Body(Item(key, value))| <= 0xFFFF)
    {
      var k := 0;
      while k < |key|
        invariant 0 <= k <= |key| && forall j :: 0 <= j < k ==> GoodByte(key[j])
      {
        if key[k] < 0x20 || key[k] > 0x7E || key[k] == EQUALS {
          assert !GoodByte(key[k]);
          return Invalid;
        }
        k := k + 1;
      }
      var size := 1 + |key| + (if value.Some? then 1 + |value.value| else 0);
      if |key| < 1 || size > 255 {
        return Invalid;
      }
      r := Replace(Item(key, value), size);
    }

    /** The part of TXTRecordSetValue that changes the record. */
    method Replace(i: Item, size: nat) returns (r: Outcome)
      requires Valid() && GoodItem(i) && size == 1 + |Body(i)|
      modifies this, buffer
      ensures Valid() && (buffer == old(buffer) || fresh(buffer))
      ensures r == if |Encode(Dropped(old(items), i.key))| + size <= 0xFFFF then NoError else Invalid
      ensures items == Dropped(old(items), i.key) + if r == NoError then [i] else []
    {
      hide *;
      ghost var l := items;
      ItemsAre();
      var removed := RemoveValue(i.key);
      ItemsAre();
      if datalen + size > buffer.Length {
        if datalen + size > 0xFFFF {
          assert items + [] == items;
          return Invalid;
        }
        Grow(datalen + size);
      }
      Append(i, l);
      return NoError;
    }

    lemma ItemsAre()
      requires Valid()
      ensures GoodItems(items) && Distinct(items) && datalen == |Encode(items)| && datalen <= buffer.Length <= 0xFFFF
    {
    }

    /** A larger buffer with the same data. */
    method Grow(n: nat)
      requires Valid() && datalen <= n <= 0xFFFF
      modifies this`buffer
      ensures Valid() && fresh(buffer) && buffer.Length == n
    {
      var larger := new byte[n];
      forall j | 0 <= j < datalen {
        larger[j] := buffer[j];
      }
      assert larger[..datalen] == buffer[..datalen];
      buffer := larger;
    }

    /** The new item behind the others; the key was dropped from the items l. */
    method Append(i: Item, ghost l: seq<Item>)
      requires Valid() && GoodItem(i) && datalen + 1 + |Body(i)| <= buffer.Length
      requires GoodItems(l) && Distinct(l) && items == Dropped(l, i.key)
      modifies this`datalen, this`items, buffer
      ensures Valid() && items == old(items) + [i]
    {
      ItemsAre();
      SetMap(l, i);
      EncodeLast(items, i);
      ghost var was := buffer[..datalen];
      assert was == Encode(items);
      var body := Body(i);
      hide Valid, GoodItem, GoodItems, Distinct, Encode, Dropped, Body;
      forall j | 0 <= j < |body| {
        buffer[datalen + 1 + j] := body[j];
      }
      buffer[datalen] := |body|;
      datalen := datalen + 1 + |body|;
      assert buffer[..datalen] == was + ([|body|] + body);
      items := items + [i];
      ValidAgain();
    }
  }
}
