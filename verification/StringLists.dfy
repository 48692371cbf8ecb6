/** TXT string lists and their wire form (avahi-common/strlst.c). A list is the sequence of
    its strings from the head on. */
module StringLists {
  import opened Bytes
  import opened Labels
  import opened Records
  import opened RecordRoundTrip

  /** An element of a string list in memory. */
  class Node {
    const text: seq<byte>
    var next: Node?

    constructor (text: seq<byte>, next: Node?)
      ensures this.text == text && this.next == next
    {
      this.text, this.next := text, next;
    }
  }

  /** The nodes from the head l on. */
  ghost predicate Chained(l: Node?, nodes: seq<Node>)
    reads nodes
  {
    if nodes == [] then l == null else l == nodes[0] && Chained(nodes[0].next, nodes[1..])
  }

  ghost predicate Different(nodes: seq<Node>) {
    forall i, j :: 0 <= i < j < |nodes| ==> nodes[i] != nodes[j]
  }

  /** avahi_string_list_reverse: the links are turned around one by one. */
  method ReverseNodes(l: Node?, ghost nodes: seq<Node>) returns (r: Node?)
    requires Chained(l, nodes) && Different(nodes)
    modifies nodes`next
    ensures Chained(r, Reverse(nodes)) && Different(Reverse(nodes)) && multiset(Reverse(nodes)) == multiset(nodes)
  {
    r := null;
    var p := l;
    ghost var done: seq<Node>, todo := [], nodes;
    while p != null
      invariant Chained(p, todo) && Chained(r, done) && Different(todo + done)
      invariant (forall n :: n in todo ==> n in nodes) && Reverse(todo) + done == Reverse(nodes) && multiset(todo) + multiset(done) == multiset(nodes)
      decreases |todo|
    {
      var n := p.next;
      TurnStep(todo, done);
      ChainedFrame(p, todo);
      assert p in nodes;
      ghost var front := [todo[0]] + done;
      p.next := r;
      r := p;
      p := n;
      done, todo := front, todo[1..];
    }
    assert todo == [] && [] + done == done;
  }

  /** The first node of one list goes in front of the other. */
  lemma TurnStep(todo: seq<Node>, done: seq<Node>)
    requires todo != [] && Different(todo + done)
    ensures Different(todo[1..] + ([todo[0]] + done))
    ensures Reverse(todo[1..]) + ([todo[0]] + done) == Reverse(todo) + done
    ensures multiset(todo[1..]) + multiset([todo[0]] + done) == multiset(todo) + multiset(done)
    ensures todo[0] !in todo[1..] && todo[0] !in done
  {
    hide Different;
    assert todo == [todo[0]] + todo[1..];
    assert todo + done == [todo[0]] + todo[1..] + done;
    TurnDifferent(todo[0], todo[1..], done);
    assert Reverse(todo[1..]) + ([todo[0]] + done) == Reverse(todo[1..]) + [todo[0]] + done;
  }

  lemma TurnDifferent(x: Node, todo: seq<Node>, done: seq<Node>)
    requires Different([x] + todo + done)
    ensures Different(todo + ([x] + done)) && x !in todo && x !in done
  {
    var all, now := [x] + todo + done, todo + ([x] + done);
    forall k | 0 <= k < |now| ensures now[k] == all[Turned(k, |todo|)] {
    }
    forall i, j | 0 <= i < j < |now| ensures now[i] != now[j] {
      var a, b := Turned(i, |todo|), Turned(j, |todo|);
      assert a != b && now[i] == all[a] && now[j] == all[b];
    }
    forall k | 0 <= k < |todo| ensures todo[k] != x {
      assert todo[k] == all[k + 1] && x == all[0];
    }
    forall k | 0 <= k < |done| ensures done[k] != x {
      assert done[k] == all[|todo| + 1 + k] && x == all[0];
    }
  }

  /** Where the element k comes from when the first of n + 1 has moved behind the others. */
  function Turned(k: nat, n: nat): nat {
    if k < n then k + 1 else if k == n then 0 else k
  }

  lemma {:induction false} ChainedFrame(p: Node, todo: seq<Node>)
    requires todo != [] && Chained(p, todo)
    ensures p == todo[0] && Chained(p.next, todo[1..])
  {
  }

  lemma {:induction false} StringsWireConcat(a: seq<seq<byte>>, b: seq<seq<byte>>)
    ensures StringsWire(a + b) == StringsWire(a) + StringsWire(b)
  {
    hide StringWire;
    if a == [] {
      assert a + b == b;
      assert StringsWire(a + b) == [] + StringsWire(b);
    } else {
      assert (a + b)[1..] == a[1..] + b;
      StringsWireConcat(a[1..], b);
      if a[0] != [] {
        assert StringWire(a[0]) + (StringsWire(a[1..]) + StringsWire(b))
            == StringWire(a[0]) + StringsWire(a[1..]) + StringsWire(b);
      }
    }
  }

  lemma {:induction false} ReversedSize(l: seq<seq<byte>>)
    ensures |StringsWire(Reverse(l))| == |StringsWire(l)|
  {
    hide StringWire;
    if l != [] {
      ReversedSize(l[1..]);
      StringsWireConcat(Reverse(l[1..]), [l[0]]);
      assert StringsWire([l[0]]) == if l[0] == [] then [] else StringWire(l[0]) + [];
    }
  }

  /** Number of bytes of one string on the wire. */
  function Clipped(s: seq<byte>): nat {
    if |s| > 255 then 255 else |s|
  }

  lemma StringsWireStep(l: seq<seq<byte>>, i: nat)
    requires i < |l|
    ensures l[i] == [] ==> StringsWire(l[i..]) == StringsWire(l[i + 1..])
    ensures l[i] != [] ==> StringsWire(l[i..]) == [Clipped(l[i])] + l[i][..Clipped(l[i])] + StringsWire(l[i + 1..])
    ensures |StringsWire(l[i..])| == |StringsWire(l[i + 1..])| + if l[i] == [] then 0 else 1 + Clipped(l[i])
  {
    assert l[i..][1..] == l[i + 1..];
    assert |l[i]| < 255 ==> l[i][..Clipped(l[i])] == l[i];
  }

  /** The first pass of avahi_string_list_serialize: how much room the list takes. */
  method SerializedSize(l: seq<seq<byte>>) returns (used: nat)
    ensures used == |TxtWire(l)|
  {
    hide *;
    used := 0;
    var i := 0;
    SizeBounds(l);
    while i < |l|
      invariant 0 <= i <= |l|
      invariant used + |StringsWire(l[i..])| == |StringsWire(l)|
    {
      StringsWireStep(l, i);
      var k := |l[i]|;
      i := i + 1;
      if k == 0 {
        continue;
      }
      if k > 255 {
        k := 255;
      }
      ClippedIs(l[i - 1]);
      used := used + 1 + k;
    }
    SizeEnd(l, i);
    if used == 0 {
      used := 1;
    }
  }

  lemma SizeBounds(l: seq<seq<byte>>)
    ensures l[0..] == l
  {
  }

  lemma ClippedIs(s: seq<byte>)
    ensures Clipped(s) == if |s| > 255 then 255 else |s|
  {
  }

  lemma SizeEnd(l: seq<seq<byte>>, i: nat)
    requires i == |l|
    ensures StringsWire(l[i..]) == []
    ensures |TxtWire(l)| == if |StringsWire(l)| == 0 then 1 else |StringsWire(l)|
    ensures TxtWire(l) == if StringsWire(Reverse(l)) == [] then [0] else StringsWire(Reverse(l))
    ensures |StringsWire(Reverse(l))| == |StringsWire(l)|
  {
    ReversedSize(l);
  }

  /** One string, not empty, in a room of `left` bytes: at most 255 of it, and what fits. */
  function Piece(s: seq<byte>, left: nat): (p: seq<byte>)
    requires s != [] && left > 1
    ensures 2 <= |p| <= left && |p| <= 256
  {
    var k: nat := if Clipped(s) > left - 1 then left - 1 else Clipped(s);
    [k] + s[..k]
  }

  /** What the second pass writes of the reversed list into `size` bytes. */
  function SerializedFrom(r: seq<seq<byte>>, size: nat): (w: seq<byte>)
    ensures |w| <= size
    ensures w == [] || |w| >= 2
  {
    if size <= 1 || r == [] then []
    else if r[0] == [] then SerializedFrom(r[1..], size)
    else
      Piece(r[0], size) + SerializedFrom(r[1..], size - |Piece(r[0], size)|)
  }

  /** avahi_string_list_serialize into `size` bytes: what does not fit is cut off. */
  function Serialized(l: seq<seq<byte>>, size: nat): (w: seq<byte>)
    ensures |w| <= size
  {
    var w := SerializedFrom(Reverse(l), size);
    if w == [] && size > 0 then [0] else w
  }

  lemma {:induction false} SerializedAll(r: seq<seq<byte>>, size: nat)
    requires size >= |StringsWire(r)|
    ensures SerializedFrom(r, size) == StringsWire(r)
  {
    if r != [] {
      StringsWireStep(r, 0);
      assert r[0..] == r;
      ShortWire(r);
      hide StringWire;
      if r[0] == [] {
        SerializedAll(r[1..], size);
      } else {
        SerializedAll(r[1..], size - 1 - Clipped(r[0]));
      }
    }
  }

  /** The list is written whole exactly if the room is at least what the first pass measures. */
  lemma SerializedWhole(l: seq<seq<byte>>, size: nat)
    ensures Serialized(l, size) == TxtWire(l) <==> size >= |TxtWire(l)|
  {
    SizeEnd(l, |l|);
    hide SerializedFrom, StringsWire;
    if size >= |TxtWire(l)| {
      SerializedAll(Reverse(l), size);
    }
  }

  /** The second pass. The source reverses the list before and after it. */
  method SerializeInto(l: seq<seq<byte>>, data: array<byte>, at: nat, size: nat) returns (used: nat)
    requires at + size <= data.Length
    modifies data
    ensures used == |Serialized(l, size)| && data[..at + used] == old(data[..at]) + Serialized(l, size)
  {
    hide *;
    used := SerializeStrings(Reverse(l), data, at, size);
    SerializedIs(l, size);
    if used == 0 && size > 0 {
      ghost var front := data[..at];
      assert front == old(data[..at]) + [] == old(data[..at]);
      data[at] := 0;
      used := 1;
      assert data[..at + 1] == front + [0];
    }
  }

  /** The loop of the second pass. */
  method SerializeStrings(r: seq<seq<byte>>, data: array<byte>, at: nat, size: nat) returns (used: nat)
    requires at + size <= data.Length
    modifies data
    ensures used == |SerializedFrom(r, size)| && data[..at + used] == old(data[..at]) + SerializedFrom(r, size)
  {
    hide *;
    var left, i := size, 0;
    used := 0;
    ghost var done: seq<byte> := [];
    assert r[0..] == r && [] + SerializedFrom(r, size) == SerializedFrom(r, size);
    assert data[..at] + done == data[..at];
    while left > 1 && i < |r|
      invariant 0 <= i <= |r| && left >= 0 && used + left == size && used == |done|
      invariant data[..at + used] == old(data[..at]) + done
      invariant SerializedFrom(r, size) == done + SerializedFrom(r[i..], left)
    {
      SerializeStep(r, i, left);
      if |r[i]| > 0 {
        Appended(done, Piece(r[i], left), SerializedFrom(r[i + 1..], left - |Piece(r[i], left)|));
        Appended(old(data[..at]), done, Piece(r[i], left));
        var n := WritePiece(r[i], data, at + used, left);
        done := done + Piece(r[i], left);
        used, left := used + n, left - n;
      }
      i := i + 1;
    }
    SerializeEnd(r, i, left);
    EndsWith(done, SerializedFrom(r[i..], left));
  }

  lemma SerializedIs(l: seq<seq<byte>>, size: nat)
    ensures var w := SerializedFrom(Reverse(l), size); Serialized(l, size) == if w == [] && size > 0 then [0] else w
  {
  }

  lemma SerializeStep(r: seq<seq<byte>>, i: nat, left: nat)
    requires i < |r| && left > 1
    ensures SerializedFrom(r[i..], left) ==
            if r[i] == [] then SerializedFrom(r[i + 1..], left)
            else Piece(r[i], left) + SerializedFrom(r[i + 1..], left - |Piece(r[i], left)|)
  {
    assert r[i..][1..] == r[i + 1..] && r[i..][0] == r[i];
  }

  /** A length byte and the text behind it. */
  method WriteString(data: array<byte>, at: nat, text: seq<byte>)
    requires |text| <= 255 && at + 1 + |text| <= data.Length
    modifies data
    ensures data[..at + 1 + |text|] == old(data[..at]) + [|text|] + text
  {
    ghost var done := data[..at];
    data[at] := |text|;
    Put(data, at + 1, text);
    Written(data[..], done, |text|, text);
  }

  lemma Written(all: seq<byte>, done: seq<byte>, k: byte, text: seq<byte>)
    requires |all| >= |done| + 1 + |text| && all[..|done|] == done && all[|done|] == k
    requires all[|done| + 1..|done| + 1 + |text|] == text
    ensures all[..|done| + 1 + |text|] == done + [k] + text
  {
  }

  /** One round of the loop for a string that is not empty. */
  method WritePiece(s: seq<byte>, data: array<byte>, at: nat, left: nat) returns (n: nat)
    requires s != [] && left > 1 && at + left <= data.Length
    modifies data
    ensures n == |Piece(s, left)| && data[..at + n] == old(data[..at]) + Piece(s, left)
  {
    var k := |s|;
    if k > 255 {
      k := 255;
    }
    if k > left - 1 {
      k := left - 1;
    }
    WriteString(data, at, s[..k]);
    assert old(data[..at]) + [k] + s[..k] == old(data[..at]) + ([k] + s[..k]);
    n := 1 + k;
  }

  lemma SerializeEnd(r: seq<seq<byte>>, i: nat, left: nat)
    requires i <= |r| && (left <= 1 || i == |r|)
    ensures SerializedFrom(r[i..], left) == []
  {
  }

  lemma {:induction false} ShortWire(l: seq<seq<byte>>)
    ensures StringsWire(l) == [] || |StringsWire(l)| >= 2
  {
    if l != [] {
      ShortWire(l[1..]);
    }
  }

  lemma EndsWith(a: seq<byte>, b: seq<byte>)
    ensures b == [] ==> a + b == a
  {
  }

  /** avahi_string_list_parse. */
  method ParseList(data: seq<byte>) returns (r: Option<seq<seq<byte>>>)
    ensures r == ParseStrings(data, [])
  {
    var c := 0;
    var list: seq<seq<byte>> := [];
    assert data[0..] == data;
    while c < |data|
      invariant 0 <= c <= |data|
      invariant ParseStrings(data, []) == ParseStrings(data[c..], list)
    {
      var k := data[c];
      if k > |data| - c - 1 {
        return None;
      }
      ParseStep(data, c, list);
      if k > 0 {
        list := [data[c + 1..c + 1 + k]] + list;
      }
      c := c + 1 + k;
    }
    return Some(list);
  }

  lemma ParseStep(data: seq<byte>, c: nat, list: seq<seq<byte>>)
    requires c < |data| && c + 1 + data[c] <= |data|
    ensures ParseStrings(data[c..], list)
         == ParseStrings(data[c + 1 + data[c]..], if data[c] > 0 then [data[c + 1..c + 1 + data[c]]] + list else list)
  {
    var d := data[c..];
    assert d[1 + d[0]..] == data[c + 1 + data[c]..];
    assert d[1..1 + d[0]] == data[c + 1..c + 1 + data[c]];
  }
}
