/** The priority queue of avahi-core/prioq.c: a complete binary heap made of linked nodes. Each
    node carries its tree links, its neighbours in level order and its coordinates: column
    `x` of row `y`. */
module PrioQueues {
  class Node<T> {
    var data: T
    var x: nat
    var y: nat
    var left: Node?<T>
    var right: Node?<T>
    var parent: Node?<T>
    var next: Node?<T>
    var prev: Node?<T>

    constructor (data: T)
      ensures this.data == data
    {
      this.data := data;
      x, y := 0, 0;
      left, right, parent, next, prev := null, null, null, null, null;
    }
  }

  /** Exchanging two nodes, on references. */
  ghost function Swap<T>(a: Node<T>, b: Node<T>, n: Node?<T>): Node?<T> {
    if n == a then b else if n == b then a else n
  }

  /** The tree links of `s` mirror each other. */
  ghost predicate Paired<T>(s: set<Node<T>>)
    reads s`left, s`right, s`parent
  {
    && (forall n :: n in s && n.left != null ==> n.left in s && n.left.parent == n && n.left != n.right && n.left != n)
    && (forall n :: n in s && n.right != null ==> n.right in s && n.right.parent == n && n.right != n)
    && (forall n :: n in s && n.parent != null ==> n.parent in s && (n.parent.left == n || n.parent.right == n))
  }

  /** The level-order links of `s` mirror each other. */
  ghost predicate Chained<T>(s: set<Node<T>>)
    reads s`next, s`prev
  {
    && (forall n :: n in s && n.next != null ==> n.next in s && n.next.prev == n && n.next != n)
    && (forall n :: n in s && n.prev != null ==> n.prev in s && n.prev.next == n && n.prev != n)
  }

  ghost function At<T>(s: seq<Node<T>>, k: nat): Node?<T> {
    if k < |s| then s[k] else null
  }

  function Parent(i: nat): nat
    requires i > 0
  {
    (i - 1) / 2
  }

  ghost predicate TreeAt<T>(s: seq<Node<T>>, i: nat)
    requires i < |s|
    reads {s[i]}`parent, {s[i]}`left, {s[i]}`right
  {
    && s[i].parent == (if i == 0 then null else s[Parent(i)])
    && s[i].left == At(s, 2 * i + 1) && s[i].right == At(s, 2 * i + 2)
  }

  ghost predicate ChainAt<T>(s: seq<Node<T>>, i: nat)
    requires i < |s|
    reads {s[i]}`next, {s[i]}`prev
  {
    s[i].next == At(s, i + 1) && s[i].prev == (if i == 0 then null else s[i - 1])
  }

  function Pow2(n: nat): (p: nat)
    ensures p >= 1
  {
    if n == 0 then 1 else 2 * Pow2(n - 1)
  }

  /** Level-order index of column `x` of row `y`. */
  function Index(x: nat, y: nat): nat {
    Pow2(y) - 1 + x
  }

  ghost predicate PlaceAt<T>(s: seq<Node<T>>, i: nat)
    requires i < |s|
    reads {s[i]}`x, {s[i]}`y
  {
    s[i].x < Pow2(s[i].y) && Index(s[i].x, s[i].y) == i
  }

  ghost predicate Distinct<T>(s: seq<Node<T>>) {
    forall i, j :: 0 <= i < j < |s| ==> s[i] != s[j]
  }

  ghost predicate Tree<T>(s: seq<Node<T>>)
    reads s`parent, s`left, s`right
  {
    forall i :: 0 <= i < |s| ==> TreeAt(s, i)
  }

  /** `s` lists the nodes of a linked complete tree in level order. */
  ghost predicate Linked<T>(s: seq<Node<T>>)
    reads s`parent, s`left, s`right, s`next, s`prev, s`x, s`y
  {
    && Distinct(s)
    && Tree(s)
    && (forall i :: 0 <= i < |s| ==> ChainAt(s, i))
    && (forall i :: 0 <= i < |s| ==> PlaceAt(s, i))
  }

  ghost function Nodes<T>(s: seq<Node<T>>): set<Node<T>> {
    set n | n in s
  }

  /** Exchanging the elements at two positions. */
  function Exchanged<U>(s: seq<U>, i: nat, j: nat): (t: seq<U>)
    requires i < |s| && j < |s|
    ensures |t| == |s|
  {
    s[i := s[j]][j := s[i]]
  }

  lemma LinkedPaired<T>(s: seq<Node<T>>)
    requires Linked(s)
    ensures Paired(Nodes(s)) && Chained(Nodes(s))
  {
    hide PlaceAt;
    var ns := Nodes(s);
    forall n | n in ns
      ensures n.left != null ==> n.left in ns && n.left.parent == n && n.left != n.right && n.left != n
      ensures n.right != null ==> n.right in ns && n.right.parent == n && n.right != n
      ensures n.parent != null ==> n.parent in ns && (n.parent.left == n || n.parent.right == n)
      ensures n.next != null ==> n.next in ns && n.next.prev == n && n.next != n
      ensures n.prev != null ==> n.prev in ns && n.prev.next == n && n.prev != n
    {
      var i :| 0 <= i < |s| && s[i] == n;
      LinkedNode(s, i);
    }
  }

  lemma LinkedNode<T>(s: seq<Node<T>>, i: nat)
    requires Linked(s) && i < |s|
    ensures var n := s[i];
            && (n.left != null ==> n.left in s && n.left.parent == n && n.left != n.right && n.left != n)
            && (n.right != null ==> n.right in s && n.right.parent == n && n.right != n)
            && (n.parent != null ==> n.parent in s && (n.parent.left == n || n.parent.right == n))
            && (n.next != null ==> n.next in s && n.next.prev == n && n.next != n)
            && (n.prev != null ==> n.prev in s && n.prev.next == n && n.prev != n)
  {
    hide PlaceAt;
    assert TreeAt(s, i) && ChainAt(s, i);
    if 2 * i + 1 < |s| {
      assert TreeAt(s, 2 * i + 1);
    }
    if 2 * i + 2 < |s| {
      assert TreeAt(s, 2 * i + 2);
    }
    if i > 0 {
      assert TreeAt(s, Parent(i)) && ChainAt(s, i - 1);
      assert i == 2 * Parent(i) + 1 || i == 2 * Parent(i) + 2;
    }
    if i + 1 < |s| {
      assert ChainAt(s, i + 1);
    }
  }

  /** Only the first node has no parent, only the last one no successor. */
  lemma LinkedEnds<T>(s: seq<Node<T>>, i: nat)
    requires Linked(s) && i < |s|
    ensures s[i].parent == null <==> s[i] == s[0]
    ensures s[i].next == null <==> s[i] == s[|s| - 1]
  {
    assert TreeAt(s, i) && ChainAt(s, i);
  }

  /** Two nodes are not each other's parents, nor each other's successors. */
  lemma NotBoth<T>(s: seq<Node<T>>, i: nat, j: nat)
    requires Linked(s) && i < |s| && j < |s| && i != j
    ensures !(s[i].parent == s[j] && s[j].parent == s[i])
    ensures !(s[i].next == s[j] && s[j].next == s[i])
  {
    assert TreeAt(s, i) && ChainAt(s, i) && TreeAt(s, j) && ChainAt(s, j);
  }

  /** The node at a position after the exchange. */
  lemma SwappedAt<T>(s: seq<Node<T>>, i: nat, j: nat, k: nat)
    requires Distinct(s) && i < |s| && j < |s| && i != j
    ensures At(Exchanged(s, i, j), k) == Swap(s[i], s[j], At(s, k))
    ensures k < |s| ==> Exchanged(s, i, j)[k] == Swap(s[i], s[j], s[k])
  {
  }

  lemma ExchangedDistinct<T>(s: seq<Node<T>>, i: nat, j: nat)
    requires Distinct(s) && i < |s| && j < |s| && i != j
    ensures Distinct(Exchanged(s, i, j))
  {
  }

  /** When two nodes have traded their tree links, the tree is the old one with their two
      positions exchanged; likewise for the level order and the coordinates. */
  twostate lemma TreeTraded<T>(s: seq<Node<T>>, new i: nat, new j: nat)
    requires Distinct(s) && i < |s| && j < |s| && i != j
    requires forall k :: 0 <= k < |s| ==> old(TreeAt(s, k))
    requires forall n :: n in s ==> n.left == Swap(s[i], s[j], old(if n == s[i] then s[j].left else if n == s[j] then s[i].left else n.left))
    requires forall n :: n in s ==> n.right == Swap(s[i], s[j], old(if n == s[i] then s[j].right else if n == s[j] then s[i].right else n.right))
    requires forall n :: n in s ==> n.parent == Swap(s[i], s[j], old(if n == s[i] then s[j].parent else if n == s[j] then s[i].parent else n.parent))
    ensures forall k :: 0 <= k < |s| ==> TreeAt(Exchanged(s, i, j), k)
  {
    var t := Exchanged(s, i, j);
    forall k | 0 <= k < |s| ensures TreeAt(t, k) {
      assert old(TreeAt(s, k));
      SwappedAt(s, i, j, k);
      SwappedAt(s, i, j, 2 * k + 1);
      SwappedAt(s, i, j, 2 * k + 2);
      if k > 0 {
        assert Parent(k) < |s|;
        SwappedAt(s, i, j, Parent(k));
      }
      var n, m := s[k], t[k];
      assert m in s;
      hide Distinct, Exchanged, At, Parent;
      assert m.parent == Swap(s[i], s[j], old(n.parent));
      assert m.left == Swap(s[i], s[j], old(n.left)) && m.right == Swap(s[i], s[j], old(n.right));
    }
  }

  /** Then all links and coordinates are right again. */
  twostate lemma LinksTraded<T>(s: seq<Node<T>>, new i: nat, new j: nat)
    requires old(Linked(s)) && i < |s| && j < |s| && i != j
    requires forall n :: n in s ==> n.left == Swap(s[i], s[j], old(if n == s[i] then s[j].left else if n == s[j] then s[i].left else n.left))
    requires forall n :: n in s ==> n.right == Swap(s[i], s[j], old(if n == s[i] then s[j].right else if n == s[j] then s[i].right else n.right))
    requires forall n :: n in s ==> n.parent == Swap(s[i], s[j], old(if n == s[i] then s[j].parent else if n == s[j] then s[i].parent else n.parent))
    requires forall n :: n in s ==> n.next == Swap(s[i], s[j], old(if n == s[i] then s[j].next else if n == s[j] then s[i].next else n.next))
    requires forall n :: n in s ==> n.prev == Swap(s[i], s[j], old(if n == s[i] then s[j].prev else if n == s[j] then s[i].prev else n.prev))
    requires forall n :: n in s ==> n.x == old(if n == s[i] then s[j].x else if n == s[j] then s[i].x else n.x)
    requires forall n :: n in s ==> n.y == old(if n == s[i] then s[j].y else if n == s[j] then s[i].y else n.y)
    ensures Linked(Exchanged(s, i, j))
  {
    hide Swap, Exchanged, Distinct, TreeAt, ChainAt, PlaceAt;
    ExchangedDistinct(s, i, j);
    TreeTraded(s, i, j);
    OrderTraded(s, i, j);
  }

  lemma NodesOf<T>(s: seq<Node<T>>)
    ensures forall n :: n in s <==> n in Nodes(s)
  {
  }

  twostate lemma OrderTraded<T>(s: seq<Node<T>>, new i: nat, new j: nat)
    requires Distinct(s) && i < |s| && j < |s| && i != j
    requires forall k :: 0 <= k < |s| ==> old(ChainAt(s, k)) && old(PlaceAt(s, k))
    requires forall n :: n in s ==> n.next == Swap(s[i], s[j], old(if n == s[i] then s[j].next else if n == s[j] then s[i].next else n.next))
    requires forall n :: n in s ==> n.prev == Swap(s[i], s[j], old(if n == s[i] then s[j].prev else if n == s[j] then s[i].prev else n.prev))
    requires forall n :: n in s ==> n.x == old(if n == s[i] then s[j].x else if n == s[j] then s[i].x else n.x)
    requires forall n :: n in s ==> n.y == old(if n == s[i] then s[j].y else if n == s[j] then s[i].y else n.y)
    ensures forall k :: 0 <= k < |s| ==> ChainAt(Exchanged(s, i, j), k) && PlaceAt(Exchanged(s, i, j), k)
  {
    var t := Exchanged(s, i, j);
    forall k | 0 <= k < |s| ensures ChainAt(t, k) && PlaceAt(t, k) {
      assert old(ChainAt(s, k)) && old(PlaceAt(s, k));
      SwappedAt(s, i, j, k);
      SwappedAt(s, i, j, k + 1);
      if k > 0 {
        SwappedAt(s, i, j, k - 1);
      }
      var n, m := s[k], t[k];
      assert m in s;
      hide Distinct, Exchanged, At, Index, Pow2;
      assert m.next == Swap(s[i], s[j], old(n.next)) && m.prev == Swap(s[i], s[j], old(n.prev));
      assert m.x == old(n.x) && m.y == old(n.y);
    }
  }

  ghost function Data<T>(s: seq<Node<T>>): (d: seq<T>)
    reads s`data
    ensures |d| == |s| && forall i :: 0 <= i < |s| ==> d[i] == s[i].data
  {
    if s == [] then [] else Data(s[..|s| - 1]) + [s[|s| - 1].data]
  }

  // ---------- the heap order, on the data in level order ----------

  /** `cmp` compares like memcmp does: antisymmetric in sign, and transitive. */
  ghost predicate Order<T(!new)>(cmp: (T, T) -> int) {
    && (forall a, b :: cmp(a, b) <= 0 <==> cmp(b, a) >= 0)
    && (forall a, b, c :: cmp(a, b) <= 0 && cmp(b, c) <= 0 ==> cmp(a, c) <= 0)
  }

  ghost predicate EdgeOk<T>(cmp: (T, T) -> int, ks: seq<T>, c: nat)
    requires 0 < c < |ks|
  {
    cmp(ks[Parent(c)], ks[c]) <= 0
  }

  ghost predicate Heap<T>(cmp: (T, T) -> int, ks: seq<T>) {
    forall c :: 0 < c < |ks| ==> EdgeOk(cmp, ks, c)
  }

  /** A heap but for the edges at `p`, whose children still fit under its parent. */
  ghost predicate Almost<T>(cmp: (T, T) -> int, ks: seq<T>, p: nat)
    requires p < |ks|
  {
    && (forall c :: 0 < c < |ks| && c != p && Parent(c) != p ==> EdgeOk(cmp, ks, c))
    && (p > 0 ==> forall c :: 0 < c < |ks| && Parent(c) == p ==> cmp(ks[Parent(p)], ks[c]) <= 0)
  }

  ghost predicate FitsAbove<T>(cmp: (T, T) -> int, ks: seq<T>, p: nat)
    requires p < |ks|
  {
    p > 0 ==> EdgeOk(cmp, ks, p)
  }

  ghost predicate FitsBelow<T>(cmp: (T, T) -> int, ks: seq<T>, p: nat)
    requires p < |ks|
  {
    forall c :: 0 < c < |ks| && Parent(c) == p ==> EdgeOk(cmp, ks, c)
  }

  /** Whatever the datum at `p` is changed to, only its own edges can break. */
  lemma ChangedDatum<T(!new)>(cmp: (T, T) -> int, ks: seq<T>, p: nat, d: T)
    requires Order(cmp) && Heap(cmp, ks) && p < |ks|
    ensures Almost(cmp, ks[p := d], p)
  {
    var t := ks[p := d];
    forall c | 0 < c < |t| && c != p && Parent(c) != p ensures EdgeOk(cmp, t, c) {
      assert EdgeOk(cmp, ks, c);
    }
    if p > 0 {
      forall c | 0 < c < |t| && Parent(c) == p ensures cmp(t[Parent(p)], t[c]) <= 0 {
        assert EdgeOk(cmp, ks, c) && EdgeOk(cmp, ks, p);
      }
    }
  }

  lemma MoveUp<T(!new)>(cmp: (T, T) -> int, ks: seq<T>, p: nat)
    requires Order(cmp) && 0 < p < |ks| && Almost(cmp, ks, p) && !FitsAbove(cmp, ks, p)
    ensures var q, t := Parent(p), Exchanged(ks, p, Parent(p));
            Almost(cmp, t, q) && FitsBelow(cmp, t, q)
  {
    var q, t := Parent(p), Exchanged(ks, p, Parent(p));
    forall c | 0 < c < |t| && c != q && Parent(c) != q ensures EdgeOk(cmp, t, c) {
      if Parent(c) == p {
        assert cmp(ks[Parent(p)], ks[c]) <= 0;
      } else {
        assert EdgeOk(cmp, ks, c);
      }
    }
    forall c | 0 < c < |t| && Parent(c) == q ensures EdgeOk(cmp, t, c) {
      if c != p {
        assert EdgeOk(cmp, ks, c);
      }
    }
    if q > 0 {
      assert EdgeOk(cmp, ks, q);
      forall c | 0 < c < |t| && Parent(c) == q ensures cmp(t[Parent(q)], t[c]) <= 0 {
        if c != p {
          assert EdgeOk(cmp, ks, c);
        }
      }
    }
  }

  lemma MoveDown<T(!new)>(cmp: (T, T) -> int, ks: seq<T>, p: nat, m: nat)
    requires Order(cmp) && p < |ks| && Almost(cmp, ks, p) && FitsAbove(cmp, ks, p)
    requires 0 < m < |ks| && Parent(m) == p && cmp(ks[p], ks[m]) > 0
    requires forall c :: 0 < c < |ks| && Parent(c) == p ==> cmp(ks[m], ks[c]) <= 0
    ensures Almost(cmp, Exchanged(ks, p, m), m) && FitsAbove(cmp, Exchanged(ks, p, m), m)
  {
    var t := Exchanged(ks, p, m);
    forall c | 0 < c < |t| && c != m && Parent(c) != m ensures EdgeOk(cmp, t, c) {
      if c == p {
        assert cmp(ks[Parent(p)], ks[m]) <= 0;
      } else if Parent(c) == p {
        assert cmp(ks[m], ks[c]) <= 0;
      } else {
        assert EdgeOk(cmp, ks, c);
      }
    }
    forall c | 0 < c < |t| && Parent(c) == m ensures cmp(t[Parent(m)], t[c]) <= 0 {
      assert EdgeOk(cmp, ks, c);
    }
  }

  lemma Settled<T>(cmp: (T, T) -> int, ks: seq<T>, p: nat)
    requires p < |ks| && Almost(cmp, ks, p) && FitsAbove(cmp, ks, p) && FitsBelow(cmp, ks, p)
    ensures Heap(cmp, ks)
  {
  }

  /** In a heap the first datum is a least one. */
  lemma {:induction false} HeapLeast<T(!new)>(cmp: (T, T) -> int, ks: seq<T>, k: nat)
    requires Order(cmp) && Heap(cmp, ks) && k < |ks|
    ensures cmp(ks[0], ks[k]) <= 0
  {
    if k == 0 {
      assert cmp(ks[0], ks[0]) <= 0 <==> cmp(ks[0], ks[0]) >= 0;
    } else {
      HeapLeast(cmp, ks, Parent(k));
      assert EdgeOk(cmp, ks, k);
    }
  }

  /** Quotient and remainder are unique. */
  lemma DivUnique(x: nat, d: nat, q: nat, r: nat)
    requires d > 0 && x == q * d + r && r < d
    ensures x / d == q
  {
    var p := x / d;
    assert x == p * d + x % d;
    assert (q - p) * d == q * d - p * d;
    assert (p - q) * d == p * d - q * d;
    if p < q {
      AtLeastOne(q - p, d);
    } else if p > q {
      AtLeastOne(p - q, d);
    }
  }

  lemma AtLeastOne(n: nat, d: nat)
    requires n >= 1
    ensures n * d >= d
  {
  }

  lemma HalfDiv(x: nat, k: nat)
    requires k > 0
    ensures x / (2 * k) == x / k / 2
  {
    var q, r := x / k, x % k;
    var h, b := q / 2, q % 2;
    calc {
      x;
      q * k + r;
      (2 * h + b) * k + r;
      h * (2 * k) + (b * k + r);
    }
    assert b * k <= k;
    DivUnique(x, 2 * k, h, b * k + r);
  }

  /** Column of the ancestor in row `r` of the node at column `x` of row `y`. */
  function Column(x: nat, y: nat, r: nat): nat
    requires r <= y
  {
    Quotient(x, Pow2(y - r))
  }

  function Quotient(x: nat, d: nat): nat
    requires d > 0
  {
    x / d
  }

  /** One step of the walk: the next bit of the column picks the child. */
  lemma WalkStep(x: nat, y: nat, r: nat)
    requires r < y
    ensures Index(Column(x, y, r + 1), r + 1) == 2 * Index(Column(x, y, r), r) + 1 + Column(x, y, r + 1) % 2
  {
    hide Pow2;
    var k, d, a := Pow2(y - r - 1), Pow2(y - r), Pow2(r);
    DoublePow(y - r - 1);
    DoublePow(r);
    Walk(x, k, d, a, Pow2(r + 1));
  }

  lemma Walk(x: nat, k: nat, d: nat, a: nat, aa: nat)
    requires k > 0 && d == 2 * k && aa == 2 * a
    ensures aa - 1 + x / k == 2 * (a - 1 + x / d) + 1 + x / k % 2
  {
    HalfDiv(x, k);
    Halves(x / k);
  }

  lemma DoublePow(n: nat)
    ensures Pow2(n + 1) == 2 * Pow2(n)
  {
  }

  lemma Halves(c: nat)
    ensures c == 2 * (c / 2) + c % 2
  {
  }

  lemma {:induction false} AncestorWithin(x: nat, y: nat, r: nat)
    requires r <= y
    ensures Index(Column(x, y, r), r) <= Index(x, y)
    decreases y - r
  {
    hide *;
    if r == y {
      LastColumn(x, y);
    } else {
      AncestorWithin(x, y, r + 1);
      WalkStep(x, y, r);
    }
  }

  lemma LastColumn(x: nat, y: nat)
    ensures Column(x, y, y) == x
  {
  }

  lemma FirstColumn(x: nat, y: nat)
    requires x < Pow2(y)
    ensures Index(Column(x, y, 0), 0) == 0
  {
    DivUnique(x, Pow2(y), 0, x);
  }

  /** Where the node behind the last one goes, and who its parent is. */
  lemma NextPlace(x: nat, y: nat)
    requires x < Pow2(y)
    ensures var x', y' := if x + 1 >= Pow2(y) then 0 else x + 1, if x + 1 >= Pow2(y) then y + 1 else y;
            && x' < Pow2(y') && Index(x', y') == Index(x, y) + 1 && y' > 0
            && x' / 2 < Pow2(y' - 1) && Index(x' / 2, y' - 1) == Parent(Index(x', y'))
            && Index(x', y') == 2 * Index(x' / 2, y' - 1) + 1 + x' % 2
  {
    if x + 1 >= Pow2(y) {
      assert Pow2(y + 1) == 2 * Pow2(y);
    } else {
      assert y > 0 && Pow2(y) == 2 * Pow2(y - 1);
    }
  }

  lemma LastPlace<T>(s: seq<Node<T>>)
    requires Linked(s) && s != []
    ensures var l := s[|s| - 1];
            && l.x < Pow2(l.y) && Index(l.x, l.y) == |s| - 1
            && var x', y' := if l.x + 1 >= Pow2(l.y) then 0 else l.x + 1, if l.x + 1 >= Pow2(l.y) then l.y + 1 else l.y;
               && x' < Pow2(y') && Index(x', y') == |s| && y' > 0
               && x' / 2 < Pow2(y' - 1) && Index(x' / 2, y' - 1) == Parent(|s|) && |s| == 2 * Parent(|s|) + 1 + x' % 2
  {
    hide Index, Pow2;
    assert PlaceAt(s, |s| - 1);
    NextPlace(s[|s| - 1].x, s[|s| - 1].y);
  }

  lemma ParentOf<T>(s: seq<Node<T>>, p: nat)
    requires Linked(s) && p < |s|
    ensures s[p].parent == if p == 0 then null else s[Parent(p)]
  {
    assert TreeAt(s, p);
  }

  lemma LinkedTree<T>(s: seq<Node<T>>)
    requires Linked(s)
    ensures Tree(s)
  {
  }

  lemma ChildrenOf<T>(s: seq<Node<T>>, p: nat)
    requires Tree(s) && p < |s|
    ensures s[p].left == if 2 * p + 1 < |s| then s[2 * p + 1] else null
    ensures s[p].right == if 2 * p + 2 < |s| then s[2 * p + 2] else null
  {
    assert TreeAt(s, p);
  }

  lemma LeafSettled<T>(cmp: (T, T) -> int, ks: seq<T>, p: nat)
    requires p < |ks| <= 2 * p + 1 && Almost(cmp, ks, p) && FitsAbove(cmp, ks, p)
    ensures Heap(cmp, ks)
  {
  }

  lemma SameNodes<T>(s: seq<Node<T>>, t: seq<Node<T>>)
    requires multiset(s) == multiset(t)
    ensures |s| == |t| && (forall n :: n in t ==> n in s) && (forall i :: 0 <= i < |t| ==> t[i] in s)
  {
    forall n | n in t ensures n in s {
      assert n in multiset(t);
    }
    assert |multiset(s)| == |multiset(t)|;
  }

  lemma ExchangedData<T>(s: seq<Node<T>>, i: nat, j: nat)
    requires i < |s| && j < |s|
    ensures Data(Exchanged(s, i, j)) == Exchanged(Data(s), i, j)
    ensures multiset(Exchanged(s, i, j)) == multiset(s)
  {
    hide Data;
    assert Data(Exchanged(s, i, j)) == Exchanged(Data(s), i, j);
    ExchangedMultiset(s, i, j);
  }

  lemma ExchangedMultiset<U>(s: seq<U>, i: nat, j: nat)
    requires i < |s| && j < |s|
    ensures multiset(Exchanged(s, i, j)) == multiset(s)
  {
  }

  /** The child the loop picks is no larger than the other. */
  lemma LeastChild<T(!new)>(cmp: (T, T) -> int, ks: seq<T>, p: nat, m: nat)
    requires Order(cmp) && 2 * p + 1 < |ks| && p < m < |ks|
    requires m == if 2 * p + 2 < |ks| && cmp(ks[2 * p + 2], ks[2 * p + 1]) < 0 then 2 * p + 2 else 2 * p + 1
    ensures Parent(m) == p && forall c :: 0 < c < |ks| && Parent(c) == p ==> cmp(ks[m], ks[c]) <= 0
    ensures cmp(ks[p], ks[m]) <= 0 ==> FitsBelow(cmp, ks, p)
  {
    forall c | 0 < c < |ks| && Parent(c) == p ensures cmp(ks[m], ks[c]) <= 0 {
      assert c == 2 * p + 1 || c == 2 * p + 2;
    }
  }

  lemma PutMultiset<T>(s: seq<Node<T>>, n: Node<T>)
    ensures multiset(s + [n]) == multiset(s) + multiset{n}
  {
  }

  /** A new last datum breaks no edge but the one above it. */
  lemma PutAlmost<T>(cmp: (T, T) -> int, s: seq<Node<T>>, n: Node<T>)
    requires Heap(cmp, Data(s))
    ensures Almost(cmp, Data(s + [n]), |s|)
  {
    hide Data;
    var ks, t := Data(s), Data(s + [n]);
    forall c | 0 < c < |t| && c != |s| && Parent(c) != |s| ensures EdgeOk(cmp, t, c) {
      assert EdgeOk(cmp, ks, c);
      assert (s + [n])[c] == s[c] && (s + [n])[Parent(c)] == s[Parent(c)];
    }
  }

  /** Without the last node a heap is still one. */
  lemma HeapPrefix<T>(cmp: (T, T) -> int, s: seq<Node<T>>, at: nat)
    requires s != [] && Heap(cmp, Data(s))
    ensures Heap(cmp, Data(s[..|s| - 1]))
  {
    hide Data;
    var ks, t := Data(s), Data(s[..|s| - 1]);
    forall c | 0 < c < |t| ensures EdgeOk(cmp, t, c) {
      assert EdgeOk(cmp, ks, c);
    }
  }

  /** The last node put in the place of a removed one breaks only edges there. */
  lemma RemoveAlmost<T(!new)>(cmp: (T, T) -> int, s: seq<Node<T>>, at: nat)
    requires Order(cmp) && Heap(cmp, Data(s)) && at < |s| - 1
    ensures var t := Exchanged(s, |s| - 1, at)[..|s| - 1];
            t[at] == s[|s| - 1] && Almost(cmp, Data(t), at)
  {
    hide Data, Order, Heap, Almost;
    var k: nat := |s| - 1;
    var t := Exchanged(s, k, at)[..k];
    HeapPrefix(cmp, s, at);
    ChangedDatum(cmp, Data(s[..k]), at, s[k].data);
    assert Data(t) == Data(s[..k])[at := s[k].data];
  }

  lemma RemoveMultiset<T>(s: seq<Node<T>>, at: nat)
    requires at < |s|
    ensures multiset(Exchanged(s, |s| - 1, at)[..|s| - 1]) == multiset(s) - multiset{s[at]}
    ensures at == |s| - 1 ==> multiset(s[..|s| - 1]) == multiset(s) - multiset{s[at]}
  {
    var k: nat := |s| - 1;
    var e := Exchanged(s, k, at);
    ExchangedMultiset(s, k, at);
    assert e == e[..k] + [e[k]] && e[k] == s[at];
    assert at == k ==> e == s;
  }

  lemma LastLinks<T>(s: seq<Node<T>>)
    requires Linked(s) && s != []
    ensures var k: nat := |s| - 1;
            && s[k].prev == (if k == 0 then null else s[k - 1])
            && s[k].parent == (if k == 0 then null else s[Parent(k)])
            && (k > 0 ==> Parent(k) < k && (s[Parent(k)].left == s[k] <==> k == 2 * Parent(k) + 1))
  {
    var k: nat := |s| - 1;
    assert TreeAt(s, k) && ChainAt(s, k);
    if k > 0 {
      assert TreeAt(s, Parent(k));
    }
  }

  /** Unlinking the last node gives a linked complete tree again. */
  twostate lemma Shortened<T>(s: seq<Node<T>>)
    requires Distinct(s) && s != []
    requires old(Tree(s)) && forall k :: 0 <= k < |s| ==> old(ChainAt(s, k)) && old(PlaceAt(s, k))
    requires forall k :: 0 <= k < |s| - 1 ==>
      && s[k].parent == old(s[k].parent) && s[k].prev == old(s[k].prev)
      && s[k].left == (if |s| - 1 == 2 * k + 1 then null else old(s[k].left))
      && s[k].right == (if |s| - 1 == 2 * k + 2 then null else old(s[k].right))
      && s[k].next == (if k == |s| - 2 then null else old(s[k].next))
      && s[k].x == old(s[k].x) && s[k].y == old(s[k].y)
    ensures Linked(s[..|s| - 1])
  {
    var t := s[..|s| - 1];
    forall k | 0 <= k < |t| ensures TreeAt(t, k) {
      assert old(TreeAt(s, k));
    }
    forall k | 0 <= k < |t| ensures ChainAt(t, k) {
      assert old(ChainAt(s, k));
    }
    forall k | 0 <= k < |t| ensures PlaceAt(t, k) {
      assert old(PlaceAt(s, k));
    }
  }

  /** Hanging `n` behind the last node, on the free side of its parent, gives a linked
      complete tree again. */
  twostate lemma Appended<T>(s: seq<Node<T>>, new n: Node<T>)
    requires Distinct(s) && s != [] && n !in s
    requires old(Tree(s)) && forall k :: 0 <= k < |s| ==> old(ChainAt(s, k)) && old(PlaceAt(s, k))
    requires forall k :: 0 <= k < |s| ==>
      && s[k].parent == old(s[k].parent) && s[k].prev == old(s[k].prev)
      && s[k].left == (if |s| == 2 * k + 1 then n else old(s[k].left))
      && s[k].right == (if |s| == 2 * k + 2 then n else old(s[k].right))
      && s[k].next == (if k == |s| - 1 then n else old(s[k].next))
      && s[k].x == old(s[k].x) && s[k].y == old(s[k].y)
    requires n.parent == s[Parent(|s|)] && n.prev == s[|s| - 1] && n.left == null && n.right == null && n.next == null
    requires n.x < Pow2(n.y) && Index(n.x, n.y) == |s|
    ensures Linked(s + [n])
  {
    var t := s + [n];
    forall k | 0 <= k < |t| ensures TreeAt(t, k) {
      if k < |s| {
        assert old(TreeAt(s, k));
      }
    }
    forall k | 0 <= k < |t| ensures ChainAt(t, k) {
      if k < |s| {
        assert old(ChainAt(s, k));
      }
    }
    forall k | 0 <= k < |t| ensures PlaceAt(t, k) {
      if k < |s| {
        assert old(PlaceAt(s, k));
      }
    }
  }

  class PrioQueue<T(!new)> {
    var root: Node?<T>
    var last: Node?<T>
    var nNodes: nat
    const compare: (T, T) -> int
    ghost var nodes: seq<Node<T>>   // in level order

    constructor (compare: (T, T) -> int)
      requires Order(compare)
      ensures Valid() && nodes == [] && this.compare == compare
    {
      this.compare := compare;
      root, last, nNodes, nodes := null, null, 0, [];
    }

    /** The whole representation: links, coordinates, ends, count and heap order. */
    ghost predicate Valid()
      reads this, nodes
    {
      Linked(nodes) && Ends() && nNodes == |nodes| && Order(compare) && Heap(compare, Data(nodes))
    }

    /** `root` and `last` are the first and the last node in level order. */
    ghost predicate Ends()
      reads this`root, this`last, this`nodes
    {
      root == At(nodes, 0) && last == if nodes == [] then null else nodes[|nodes| - 1]
    }

    method SwapUp(a: Node<T>, b: Node<T>, ghost s: set<Node<T>>)
      requires a in s && b in s && a != b && Paired(s) && a.parent != b && b.parent != a
      requires a.parent == null <==> a == root
      requires b.parent == null <==> b == root
      modifies this`root, s`left, s`right, s`parent
      ensures root == Swap(a, b, old(root))
      ensures a.parent == old(b.parent) && b.parent == old(a.parent)
      ensures forall n :: n in s && n != a && n != b ==> n.parent == old(n.parent)
      ensures forall n :: n in s ==> n.left == Swap(a, b, old(n.left))
      ensures forall n :: n in s ==> n.right == Swap(a, b, old(n.right))
    {
      var ap, bp := a.parent, b.parent;
      var apl, bpl: Node?<T> := null, null;
      if ap != null {
        apl := ap.left;
      }
      if bp != null {
        bpl := bp.left;
      }
      TakePlace(a, bp, bpl == b);
      TakePlace(b, ap, apl == a);
    }

    /** Hang `n` under `p`, on the given side, or make it the root. */
    method TakePlace(n: Node<T>, p: Node?<T>, onLeft: bool)
      requires p != n
      modifies this`root, n`parent, (if p == null then {} else {p})`left, (if p == null then {} else {p})`right
      ensures n.parent == p && root == if p == null then n else old(root)
      ensures p != null && onLeft ==> p.left == n && p.right == old(p.right)
      ensures p != null && !onLeft ==> p.right == n && p.left == old(p.left)
    {
      n.parent := p;
      if p != null {
        if onLeft {
          p.left := n;
        } else {
          p.right := n;
        }
      } else {
        root := n;
      }
    }

    method SwapDown(a: Node<T>, b: Node<T>, ghost s: set<Node<T>>)
      requires a in s && b in s && a != b
      requires forall n :: n in {a.left, a.right, b.left, b.right} ==> n == null || (n in s && n != a && n != b)
      requires a.left != null ==> a.left != a.right && a.left != b.left && a.left != b.right
      requires a.right != null ==> a.right != b.left && a.right != b.right
      requires b.left != null ==> b.left != b.right
      modifies s`left, s`right, s`parent
      ensures a.left == old(b.left) && b.left == old(a.left)
      ensures a.right == old(b.right) && b.right == old(a.right)
      ensures forall n :: n in s && n != a && n != b ==> n.left == old(n.left) && n.right == old(n.right)
      ensures forall n :: n in s ==>
        n.parent == if n == old(b.left) || n == old(b.right) then a
                    else if n == old(a.left) || n == old(a.right) then b else old(n.parent)
    {
      var l, r := a.left, a.right;
      a.left := b.left;
      if a.left != null { a.left.parent := a; }
      b.left := l;
      if b.left != null { b.left.parent := b; }
      a.right := b.right;
      if a.right != null { a.right.parent := a; }
      b.right := r;
      if b.right != null { b.right.parent := b; }
    }

    method ExchangeApart(a: Node<T>, b: Node<T>, ghost s: set<Node<T>>)
      requires a in s && b in s && a != b && Paired(s) && a.parent != b && b.parent != a
      requires a.parent == null <==> a == root
      requires b.parent == null <==> b == root
      modifies this`root, s`left, s`right, s`parent
      ensures root == Swap(a, b, old(root))
      ensures forall n :: n in s ==> n.left == Swap(a, b, old(if n == a then b.left else if n == b then a.left else n.left))
      ensures forall n :: n in s ==> n.right == Swap(a, b, old(if n == a then b.right else if n == b then a.right else n.right))
      ensures forall n :: n in s ==> n.parent == Swap(a, b, old(if n == a then b.parent else if n == b then a.parent else n.parent))
    {
      SwapUp(a, b, s);
      assert a.left == old(a.left) && b.left == old(b.left) && a.right == old(a.right) && b.right == old(b.right);
      SwapDown(a, b, s);
    }

    /** B is the parent of A: A takes B's place under B's parent. */
    method LiftAbove(a: Node<T>, b: Node<T>, ghost s: set<Node<T>>)
      requires a in s && b in s && a != b && Paired(s) && a.parent == b && b.parent != a
      requires b.parent == null <==> b == root
      requires a != root
      modifies this`root, s`left, s`right, s`parent
      ensures root == Swap(a, b, old(root))
      ensures b.parent == a && a.parent == old(b.parent)
      ensures forall n :: n in s && n != a && n != b ==> n.parent == old(n.parent)
      ensures forall n :: n in s && n != b ==> n.left == Swap(a, b, old(n.left)) && n.right == Swap(a, b, old(n.right))
      ensures b.left == old(b.left) && b.right == old(b.right)
    {
      var p := b.parent;
      b.parent := a;
      a.parent := p;
      if p != null {
        if p.left == b {
          p.left := a;
        } else {
          p.right := a;
        }
      } else {
        root := a;
      }
    }

    /** A was the left child of B. */
    method LowerLeft(a: Node<T>, b: Node<T>, ghost s: set<Node<T>>)
      requires a in s && b in s && a != b && b.left == a
      requires forall n :: n in {a.left, a.right, b.right} ==> n == null || (n in s && n != a && n != b)
      requires a.left != null ==> a.left != a.right && a.left != b.right
      requires a.right != null ==> a.right != b.right
      modifies s`left, s`right, s`parent
      ensures b.left == old(a.left) && a.left == b && a.right == old(b.right) && b.right == old(a.right)
      ensures forall n :: n in s && n != a && n != b ==> n.left == old(n.left) && n.right == old(n.right)
      ensures forall n :: n in s ==>
        n.parent == if n == old(a.left) || n == old(a.right) then b else if n == old(b.right) then a else old(n.parent)
    {
      b.left := a.left;
      if b.left != null {
        b.left.parent := b;
      }
      a.left := b;
      var r := a.right;
      a.right := b.right;
      if a.right != null {
        a.right.parent := a;
      }
      b.right := r;
      if b.right != null {
        b.right.parent := b;
      }
    }

    method LowerRight(a: Node<T>, b: Node<T>, ghost s: set<Node<T>>)
      requires a in s && b in s && a != b && b.right == a
      requires forall n :: n in {a.left, a.right, b.left} ==> n == null || (n in s && n != a && n != b)
      requires a.left != null ==> a.left != a.right && a.left != b.left
      requires a.right != null ==> a.right != b.left
      modifies s`left, s`right, s`parent
      ensures b.right == old(a.right) && a.right == b && a.left == old(b.left) && b.left == old(a.left)
      ensures forall n :: n in s && n != a && n != b ==> n.left == old(n.left) && n.right == old(n.right)
      ensures forall n :: n in s ==>
        n.parent == if n == old(a.left) || n == old(a.right) then b else if n == old(b.left) then a else old(n.parent)
    {
      b.right := a.right;
      if b.right != null {
        b.right.parent := b;
      }
      a.right := b;
      var l := a.left;
      a.left := b.left;
      if a.left != null {
        a.left.parent := a;
      }
      b.left := l;
      if b.left != null {
        b.left.parent := b;
      }
    }

    method ExchangeChild(a: Node<T>, b: Node<T>, ghost s: set<Node<T>>)
      requires a in s && b in s && a != b && Paired(s) && a.parent == b && b.parent != a
      requires b.parent == null <==> b == root
      requires a != root
      modifies this`root, s`left, s`right, s`parent
      ensures root == Swap(a, b, old(root))
      ensures forall n :: n in s ==> n.left == Swap(a, b, old(if n == a then b.left else if n == b then a.left else n.left))
      ensures forall n :: n in s ==> n.right == Swap(a, b, old(if n == a then b.right else if n == b then a.right else n.right))
      ensures forall n :: n in s ==> n.parent == Swap(a, b, old(if n == a then b.parent else if n == b then a.parent else n.parent))
    {
      LiftAbove(a, b, s);
      if b.left == a {
        LowerLeft(a, b, s);
      } else {
        LowerRight(a, b, s);
      }
    }

    /** The neighbours in level order trade places. */
    method ExchangeSiblings(a: Node<T>, b: Node<T>, ghost s: set<Node<T>>)
      requires a in s && b in s && a != b && Chained(s) && !(a.next == b && b.next == a)
      requires a.next == null <==> a == last
      requires b.next == null <==> b == last
      modifies this`last, s`next, s`prev
      ensures last == Swap(a, b, old(last))
      ensures forall n :: n in s ==> n.next == Swap(a, b, old(if n == a then b.next else if n == b then a.next else n.next))
      ensures forall n :: n in s ==> n.prev == Swap(a, b, old(if n == a then b.prev else if n == b then a.prev else n.prev))
    {
      var ap, an, bp, bn := a.prev, a.next, b.prev, b.next;
      if a.next == b {
        a.prev := b;
        b.next := a;
        SetNext(a, bn);
        SetPrev(b, ap);
      } else if b.next == a {
        a.next := b;
        b.prev := a;
        SetPrev(a, bp);
        SetNext(b, an);
      } else {
        SetPrev(a, bp);
        SetNext(a, bn);
        SetPrev(b, ap);
        SetNext(b, an);
      }
    }

    method SetNext(n: Node<T>, next: Node?<T>)
      requires next != n
      modifies this`last, n`next, (if next == null then {} else {next})`prev
      ensures n.next == next && (next != null ==> next.prev == n)
      ensures last == if next == null then n else old(last)
    {
      n.next := next;
      if next != null {
        next.prev := n;
      } else {
        last := n;
      }
    }

    method SetPrev(n: Node<T>, prev: Node?<T>)
      requires prev != n
      modifies n`prev, (if prev == null then {} else {prev})`next
      ensures n.prev == prev && (prev != null ==> prev.next == n)
    {
      n.prev := prev;
      if prev != null {
        prev.next := n;
      }
    }

    /** The tree links trade places, whichever node is above the other. */
    method ExchangeTree(a: Node<T>, b: Node<T>, ghost s: set<Node<T>>)
      requires a in s && b in s && a != b && Paired(s) && !(a.parent == b && b.parent == a)
      requires (a.parent == null <==> a == root) && (b.parent == null <==> b == root)
      modifies this`root, s`left, s`right, s`parent
      ensures root == Swap(a, b, old(root))
      ensures forall n :: n in s ==> n.left == Swap(a, b, old(if n == a then b.left else if n == b then a.left else n.left))
      ensures forall n :: n in s ==> n.right == Swap(a, b, old(if n == a then b.right else if n == b then a.right else n.right))
      ensures forall n :: n in s ==> n.parent == Swap(a, b, old(if n == a then b.parent else if n == b then a.parent else n.parent))
    {
      hide Paired;
      if a.parent == b {
        ExchangeChild(a, b, s);
      } else if b.parent == a {
        ExchangeChild(b, a, s);
      } else {
        ExchangeApart(a, b, s);
      }
    }

    /** The body of exchange_nodes: afterwards every link and coordinate of every node is what
        it was, with the two names exchanged throughout. */
    method ExchangeLinks(a: Node<T>, b: Node<T>, ghost s: set<Node<T>>)
      requires a in s && b in s && a != b && Paired(s) && Chained(s)
      requires !(a.parent == b && b.parent == a) && !(a.next == b && b.next == a)
      requires (a.parent == null <==> a == root) && (b.parent == null <==> b == root)
      requires (a.next == null <==> a == last) && (b.next == null <==> b == last)
      modifies this`root, this`last, s`left, s`right, s`parent, s`next, s`prev, s`x, s`y
      ensures root == Swap(a, b, old(root)) && last == Swap(a, b, old(last))
      ensures forall n :: n in s ==> n.left == Swap(a, b, old(if n == a then b.left else if n == b then a.left else n.left))
      ensures forall n :: n in s ==> n.right == Swap(a, b, old(if n == a then b.right else if n == b then a.right else n.right))
      ensures forall n :: n in s ==> n.parent == Swap(a, b, old(if n == a then b.parent else if n == b then a.parent else n.parent))
      ensures forall n :: n in s ==> n.next == Swap(a, b, old(if n == a then b.next else if n == b then a.next else n.next))
      ensures forall n :: n in s ==> n.prev == Swap(a, b, old(if n == a then b.prev else if n == b then a.prev else n.prev))
      ensures forall n :: n in s ==> n.x == old(if n == a then b.x else if n == b then a.x else n.x)
      ensures forall n :: n in s ==> n.y == old(if n == a then b.y else if n == b then a.y else n.y)
    {
      hide *;
      SwapCoordinates(a, b);
      ExchangeTree(a, b, s);
      ExchangeSiblings(a, b, s);
    }

    method SwapCoordinates(a: Node<T>, b: Node<T>)
      modifies a`x, a`y, b`x, b`y
      ensures a.x == old(b.x) && a.y == old(b.y) && b.x == old(a.x) && b.y == old(a.y)
    {
      var t := a.x;
      a.x := b.x;
      b.x := t;
      t := a.y;
      a.y := b.y;
      b.y := t;
    }

    /** exchange_nodes: two nodes trade places, whatever their places are. */
    method ExchangeNodes(a: Node<T>, b: Node<T>, ghost i: nat, ghost j: nat)
      requires Linked(nodes) && Ends() && i < |nodes| && j < |nodes| && i != j && nodes[i] == a && nodes[j] == b
      modifies this`root, this`last, this`nodes
      modifies nodes`left, nodes`right, nodes`parent, nodes`next, nodes`prev, nodes`x, nodes`y
      ensures nodes == Exchanged(old(nodes), i, j)
      ensures Linked(nodes) && Ends()
    {
      hide *;
      ghost var s := nodes;
      Tradable(i, j);
      NodesOf(s);
      ExchangeLinks(a, b, Nodes(s));
      nodes := Exchanged(s, i, j);
      EndsTraded(s, i, j);
      LinksTraded(s, i, j);
    }

    /** What exchange_nodes asks of two nodes of the queue. */
    lemma Tradable(i: nat, j: nat)
      requires Linked(nodes) && Ends() && i < |nodes| && j < |nodes| && i != j
      ensures var a, b := nodes[i], nodes[j];
              && a in Nodes(nodes) && b in Nodes(nodes) && a != b && Paired(Nodes(nodes)) && Chained(Nodes(nodes))
              && !(a.parent == b && b.parent == a) && !(a.next == b && b.next == a)
              && (a.parent == null <==> a == root) && (b.parent == null <==> b == root)
              && (a.next == null <==> a == last) && (b.next == null <==> b == last)
      ensures Distinct(nodes) && root == At(nodes, 0) && last == nodes[|nodes| - 1]
    {
      hide Paired, Chained;
      LinkedPaired(nodes);
      LinkedEnds(nodes, i);
      LinkedEnds(nodes, j);
      NotBoth(nodes, i, j);
    }

    lemma EndsTraded(s: seq<Node<T>>, i: nat, j: nat)
      requires Distinct(s) && i < |s| && j < |s| && i != j && nodes == Exchanged(s, i, j)
      requires root == Swap(s[i], s[j], At(s, 0)) && last == Swap(s[i], s[j], s[|s| - 1])
      ensures Ends()
    {
      hide Distinct, Swap;
      SwappedAt(s, i, j, 0);
      SwappedAt(s, i, j, |s| - 1);
    }

    /** avahi_prio_queue_shuffle: move a node whose datum changed to where it belongs. */
    method Shuffle(n: Node<T>, ghost at: nat)
      requires Linked(nodes) && Ends() && Order(compare)
      requires at < |nodes| && nodes[at] == n && Almost(compare, Data(nodes), at)
      modifies this`root, this`last, this`nodes
      modifies nodes`left, nodes`right, nodes`parent, nodes`next, nodes`prev, nodes`x, nodes`y
      ensures Linked(nodes) && Ends() && Heap(compare, Data(nodes))
      ensures multiset(nodes) == multiset(old(nodes))
    {
      ghost var p := SiftUp(n, at);
      SameNodes(old(nodes), nodes);
      SiftDown(n, p);
    }

    /** The first loop: up while the parent is larger. */
    method SiftUp(n: Node<T>, ghost at: nat) returns (ghost p: nat)
      requires Linked(nodes) && Ends() && Order(compare)
      requires at < |nodes| && nodes[at] == n && Almost(compare, Data(nodes), at)
      modifies this`root, this`last, this`nodes
      modifies nodes`left, nodes`right, nodes`parent, nodes`next, nodes`prev, nodes`x, nodes`y
      ensures Linked(nodes) && Ends() && multiset(nodes) == multiset(old(nodes))
      ensures p < |nodes| && nodes[p] == n && Almost(compare, Data(nodes), p) && FitsAbove(compare, Data(nodes), p)
    {
      hide Linked, Ends, Almost, Order, Data, Swap, At;
      p := at;
      ParentOf(nodes, p);
      while n.parent != null && compare(n.parent.data, n.data) > 0
        invariant Linked(nodes) && Ends() && multiset(nodes) == multiset(old(nodes))
        invariant p < |nodes| && nodes[p] == n && Almost(compare, Data(nodes), p)
        invariant n.parent == if p == 0 then null else nodes[Parent(p)]
        decreases p
      {
        SameNodes(old(nodes), nodes);
        StepUp(n, n.parent, p);
        p := Parent(p);
        ParentOf(nodes, p);
      }
    }

    method StepUp(n: Node<T>, parent: Node<T>, ghost p: nat)
      requires Linked(nodes) && Ends() && Order(compare)
      requires 0 < p < |nodes| && nodes[p] == n && nodes[Parent(p)] == parent
      requires Almost(compare, Data(nodes), p) && compare(parent.data, n.data) > 0
      modifies this`root, this`last, this`nodes
      modifies nodes`left, nodes`right, nodes`parent, nodes`next, nodes`prev, nodes`x, nodes`y
      ensures Linked(nodes) && Ends() && multiset(nodes) == multiset(old(nodes)) && |nodes| == |old(nodes)|
      ensures Parent(p) < p && nodes[Parent(p)] == n && Almost(compare, Data(nodes), Parent(p))
    {
      hide Linked, Ends, Almost, Data, Order;
      MoveUp(compare, Data(nodes), p);
      ExchangedData(nodes, p, Parent(p));
      ExchangeNodes(n, parent, p, Parent(p));
    }

    /** The second loop: down while a child is smaller, towards the smaller child. */
    method SiftDown(n: Node<T>, ghost at: nat)
      requires Linked(nodes) && Ends() && Order(compare)
      requires at < |nodes| && nodes[at] == n && Almost(compare, Data(nodes), at) && FitsAbove(compare, Data(nodes), at)
      modifies this`root, this`last, this`nodes
      modifies nodes`left, nodes`right, nodes`parent, nodes`next, nodes`prev, nodes`x, nodes`y
      ensures Linked(nodes) && Ends() && Heap(compare, Data(nodes))
      ensures multiset(nodes) == multiset(old(nodes))
    {
      hide *;
      ghost var p: nat := at;
      while true
        invariant Linked(nodes) && Ends() && multiset(nodes) == multiset(old(nodes))
        invariant p < |nodes| && nodes[p] == n && Almost(compare, Data(nodes), p) && FitsAbove(compare, Data(nodes), p)
        decreases |nodes| - p
      {
        LinkedTree(nodes);
        ChildrenOf(nodes, p);
        var min := n.left;
        if min == null {
          LeafSettled(compare, Data(nodes), p);
          break;
        }
        ghost var m: nat := 2 * p + 1;
        if n.right != null && compare(n.right.data, min.data) < 0 {
          min := n.right;
          m := 2 * p + 2;
        }
        LeastChild(compare, Data(nodes), p, m);
        if compare(n.data, min.data) <= 0 {
          Settled(compare, Data(nodes), p);
          break;
        }
        SameNodes(old(nodes), nodes);
        StepDown(n, min, p, m);
        p := m;
      }
    }

    method StepDown(n: Node<T>, min: Node<T>, ghost p: nat, ghost m: nat)
      requires Linked(nodes) && Ends() && Order(compare)
      requires p < m < |nodes| && nodes[p] == n && nodes[m] == min && Parent(m) == p
      requires Almost(compare, Data(nodes), p) && FitsAbove(compare, Data(nodes), p) && compare(n.data, min.data) > 0
      requires forall c :: 0 < c < |nodes| && Parent(c) == p ==> compare(min.data, nodes[c].data) <= 0
      modifies this`root, this`last, this`nodes
      modifies nodes`left, nodes`right, nodes`parent, nodes`next, nodes`prev, nodes`x, nodes`y
      ensures Linked(nodes) && Ends() && multiset(nodes) == multiset(old(nodes)) && |nodes| == |old(nodes)|
      ensures nodes[m] == n && Almost(compare, Data(nodes), m) && FitsAbove(compare, Data(nodes), m)
    {
      hide Linked, Ends, Almost, Data, Order, FitsAbove;
      MoveDown(compare, Data(nodes), p, m);
      ExchangedData(nodes, p, m);
      ExchangeNodes(n, min, p, m);
    }

    /** get_node_at_xy: walk down from the root, steered by the bits of the column. */
    method GetNodeAtXy(x: nat, y: nat) returns (n: Node<T>)
      requires Tree(nodes) && root == At(nodes, 0) && x < Pow2(y) && Index(x, y) < |nodes|
      ensures n == nodes[Index(x, y)]
    {
      hide Tree, Index, Pow2, Column;
      n := root;
      AncestorWithin(x, y, 0);
      FirstColumn(x, y);
      for r := 0 to y
        invariant Index(Column(x, y, r), r) < |nodes| && n == nodes[Index(Column(x, y, r), r)]
      {
        AncestorWithin(x, y, r + 1);
        WalkStep(x, y, r);
        ChildrenOf(nodes, Index(Column(x, y, r), r));
        if Column(x, y, r + 1) % 2 == 1 {
          n := n.right;
        } else {
          n := n.left;
        }
      }
      LastColumn(x, y);
    }

    /** Coordinates behind those of the last node. */
    method PlaceBehind(n: Node<T>, l: Node<T>)
      requires Linked(nodes) && nodes != [] && l == nodes[|nodes| - 1] && n !in nodes
      modifies n`x, n`y
      ensures n.x < Pow2(n.y) && Index(n.x, n.y) == |nodes| && n.y > 0
      ensures n.x / 2 < Pow2(n.y - 1) && Index(n.x / 2, n.y - 1) == Parent(|nodes|)
      ensures |nodes| == 2 * Parent(|nodes|) + 1 + n.x % 2
    {
      hide Index;
      LastPlace(nodes);
      n.y := l.y;
      n.x := l.x + 1;
      if n.x >= Pow2(n.y) {
        n.x := 0;
        n.y := n.y + 1;
      }
    }

    /** Tie a placed node to its predecessor and to its parent. */
    method LinkBehind(n: Node<T>, l: Node<T>)
      requires Tree(nodes) && root == At(nodes, 0) && Distinct(nodes) && n !in nodes
      requires nodes != [] && l == nodes[|nodes| - 1]
      requires n.y > 0 && n.x / 2 < Pow2(n.y - 1) && Index(n.x / 2, n.y - 1) == Parent(|nodes|)
      requires |nodes| == 2 * Parent(|nodes|) + 1 + n.x % 2
      modifies n`left, n`right, n`parent, n`next, n`prev, nodes`left, nodes`right, nodes`next
      ensures forall k :: 0 <= k < |nodes| ==>
        && nodes[k].left == (if |nodes| == 2 * k + 1 then n else old(nodes[k].left))
        && nodes[k].right == (if |nodes| == 2 * k + 2 then n else old(nodes[k].right))
        && nodes[k].next == (if k == |nodes| - 1 then n else old(nodes[k].next))
      ensures n.parent == nodes[Parent(|nodes|)] && n.prev == l && n.left == null && n.right == null && n.next == null
    {
      hide Index, Pow2;
      l.next := n;
      n.prev := l;
      n.parent := GetNodeAtXy(n.x / 2, n.y - 1);
      if n.x % 2 == 1 {
        n.parent.right := n;
      } else {
        n.parent.left := n;
      }
      n.next, n.left, n.right := null, null, null;
    }

    /** Hang a new last node behind the others. */
    method Append(n: Node<T>)
      requires Linked(nodes) && Ends() && nNodes == |nodes| && n !in nodes
      modifies this`root, this`last, this`nNodes, this`nodes, n`x, n`y, n`left, n`right, n`parent, n`next, n`prev
      modifies nodes`left, nodes`right, nodes`next
      ensures nodes == old(nodes) + [n] && Linked(nodes) && Ends() && nNodes == |nodes|
    {
      if last != null {
        AppendBehind(n, last);
      } else {
        n.x, n.y := 0, 0;
        root := n;
        n.prev, n.parent, n.next, n.left, n.right := null, null, null, null, null;
        nodes := nodes + [n];
      }
      last := n;
      nNodes := nNodes + 1;
    }

    method AppendBehind(n: Node<T>, l: Node<T>)
      requires Linked(nodes) && root == At(nodes, 0) && n !in nodes && nodes != [] && l == nodes[|nodes| - 1]
      modifies this`nodes, n`x, n`y, n`left, n`right, n`parent, n`next, n`prev, nodes`left, nodes`right, nodes`next
      ensures nodes == old(nodes) + [n] && Linked(nodes)
    {
      ghost var s := nodes;
      PlaceBehind(n, l);
      LinkBehind(n, l);
      nodes := s + [n];
      hide Index, Pow2, At, TreeAt, ChainAt, PlaceAt;
      Appended(s, n);
    }

    /** avahi_prio_queue_put. */
    method Put(d: T) returns (n: Node<T>)
      requires Valid()
      modifies this`root, this`last, this`nNodes, this`nodes
      modifies nodes`left, nodes`right, nodes`parent, nodes`next, nodes`prev, nodes`x, nodes`y
      ensures Valid() && fresh(n) && n.data == d
      ensures multiset(nodes) == multiset(old(nodes)) + multiset{n}
    {
      hide Linked, Ends, Order, Heap, Almost, Data;
      n := new Node(d);
      ghost var s := nodes;
      Append(n);
      PutAlmost(compare, s, n);
      Shuffle(n, |s|);
      SameNodes(s + [n], nodes);
      PutMultiset(s, n);
    }

    /** The tail of avahi_prio_queue_remove: unlink the last node. */
    method RemoveLast(n: Node<T>)
      requires Linked(nodes) && Ends() && nNodes == |nodes| && n == last
      modifies this`root, this`last, this`nNodes, this`nodes, nodes`left, nodes`right, nodes`next
      ensures Linked(nodes) && Ends() && nNodes == |nodes|
      ensures nodes == old(nodes)[..|old(nodes)| - 1]
    {
      ghost var s := nodes;
      ghost var k: nat := |s| - 1;
      LastLinks(s);
      last := n.prev;
      if n.prev != null {
        n.prev.next := null;
      }
      if n.parent != null {
        if n.parent.left == n {
          n.parent.left := null;
        } else {
          n.parent.right := null;
        }
      } else {
        root := null;
      }
      nNodes := nNodes - 1;
      nodes := s[..k];
      Shortened(s);
    }

    /** avahi_prio_queue_remove: a node that is not the last one trades places with the last
        one, which is then moved to where it belongs. */
    method Remove(n: Node<T>, ghost at: nat)
      requires Valid() && at < |nodes| && nodes[at] == n
      modifies this`root, this`last, this`nNodes, this`nodes
      modifies nodes`left, nodes`right, nodes`parent, nodes`next, nodes`prev, nodes`x, nodes`y
      ensures Valid()
      ensures multiset(nodes) == multiset(old(nodes)) - multiset{n}
    {
      if n != last {
        RemoveInner(n, at);
      } else {
        hide Linked, Order, Heap, Almost, Data;
        ghost var s := nodes;
        RemoveLast(n);
        RemoveMultiset(s, at);
        HeapPrefix(compare, s, at);
      }
    }

    /** The branch for a node that is not the last one. */
    method RemoveInner(n: Node<T>, ghost at: nat)
      requires Valid() && at < |nodes| && nodes[at] == n && n != last
      modifies this`root, this`last, this`nNodes, this`nodes
      modifies nodes`left, nodes`right, nodes`parent, nodes`next, nodes`prev, nodes`x, nodes`y
      ensures Valid()
      ensures multiset(nodes) == multiset(old(nodes)) - multiset{n}
    {
      hide Linked, Order, Heap, Almost, Data;
      ghost var s := nodes;
      ghost var k: nat := |s| - 1;
      var replacement := last;
      ExchangeNodes(replacement, n, k, at);
      RemoveLast(n);
      RemoveAlmost(compare, s, at);
      RemoveMultiset(s, at);
      ghost var t := nodes;
      Shuffle(replacement, at);
      SameNodes(t, nodes);
    }
  }
}
