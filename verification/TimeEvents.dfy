/** The timer queue of avahi-core/timeeventq.c, on top of the priority queue. */
module TimeEvents {
  import opened Bytes
  import opened Timeval
  import opened PrioQueues

  /** The part of an event the queue orders by. */
  datatype Timed = Timed(expiry: Time, lastRun: Time)

  /** compare: by expiry, and among equals the one that ran longest ago first. */
  function CompareTimed(a: Timed, b: Timed): int {
    var r := Compare(a.expiry, b.expiry);
    if r != 0 then r else Compare(a.lastRun, b.lastRun)
  }

  lemma TimedOrder()
    ensures Order(CompareTimed)
  {
  }

  class TimeEventQueue {
    const prioq: PrioQueue<Timed>
    var timeout: Option<Time>   // what the poll loop's timeout is armed at

    /** The queue is in order. While a callback runs nothing more is known. */
    ghost predicate Ordered()
      reads this, prioq, prioq.nodes
    {
      prioq.Valid() && prioq.compare == CompareTimed
    }

    /** Between calls the timeout is armed at the expiry of the root, or off without events. */
    ghost predicate Valid()
      reads this, prioq, prioq.nodes
    {
      && Ordered()
      && timeout == if prioq.nodes == [] then None else Some(prioq.nodes[0].data.expiry)
    }

    /** The queued events and their data. */
    ghost function View(): map<Node<Timed>, Timed>
      reads prioq, prioq.nodes
    {
      map n | n in prioq.nodes :: n.data
    }

    /** The root's expiry is the least one: arming at it misses no event. */
    lemma ArmedAtLeast(n: Node<Timed>)
      requires Valid() && n in prioq.nodes
      ensures timeout.Some? && Compare(timeout.value, n.data.expiry) <= 0
    {
      hide Linked, Order, Heap;
      var k :| 0 <= k < |prioq.nodes| && prioq.nodes[k] == n;
      HeapLeast(prioq.compare, Data(prioq.nodes), k);
    }

    constructor ()
      ensures Valid() && fresh(prioq) && prioq.nodes == [] && timeout == None
    {
      TimedOrder();
      prioq := new PrioQueue(CompareTimed);
      timeout := None;
    }

    /** update_timeout. */
    method UpdateTimeout()
      requires Ordered()
      modifies this`timeout
      ensures Valid()
    {
      timeout := if prioq.root != null then Some(prioq.root.data.expiry) else None;
    }

    /** avahi_time_event_new; a missing time means the epoch. */
    method New(tv: Option<Time>) returns (e: Node<Timed>)
      requires Ordered()
      modifies this`timeout, prioq`root, prioq`last, prioq`nNodes, prioq`nodes
      modifies prioq.nodes`left, prioq.nodes`right, prioq.nodes`parent, prioq.nodes`next, prioq.nodes`prev
      modifies prioq.nodes`x, prioq.nodes`y
      ensures Valid() && fresh(e) && multiset(prioq.nodes) == multiset(old(prioq.nodes)) + multiset{e}
      ensures e.data == Timed(if tv.Some? then tv.value else ZERO, ZERO)
      ensures e !in old(View()) && View() == old(View())[e := e.data]
    {
      hide Linked, Order, Heap, Data;
      ghost var was := prioq.nodes;
      e := prioq.Put(Timed(if tv.Some? then tv.value else ZERO, ZERO));
      MoreNodes(was, prioq.nodes, e);
      ViewWith(e, e.data);
      hide View;
      UpdateTimeout();
    }

    /** avahi_time_event_free. */
    method Free(e: Node<Timed>)
      requires Ordered() && e in prioq.nodes
      modifies this`timeout, prioq`root, prioq`last, prioq`nNodes, prioq`nodes
      modifies prioq.nodes`left, prioq.nodes`right, prioq.nodes`parent, prioq.nodes`next, prioq.nodes`prev
      modifies prioq.nodes`x, prioq.nodes`y
      ensures Valid() && multiset(prioq.nodes) == multiset(old(prioq.nodes)) - multiset{e}
      ensures View() == old(View()) - {e}
    {
      hide Linked, Order, Heap, Data;
      ghost var was := prioq.nodes;
      NodesDiffer();
      ghost var at: nat :| at < |prioq.nodes| && prioq.nodes[at] == e;
      prioq.Remove(e, at);
      LessNodes(was, prioq.nodes, e);
      ViewWithout(e);
      hide View;
      UpdateTimeout();
    }

    twostate lemma ViewWithout(new e: Node<Timed>)
      requires forall n :: n in prioq.nodes <==> n in old(prioq.nodes) && n != e
      requires forall n :: n in old(prioq.nodes) ==> n.data == old(n.data)
      ensures View() == old(View()) - {e}
    {
    }

    twostate lemma ViewWith(new e: Node<Timed>, new d: Timed)
      requires e.data == d && forall n :: n in prioq.nodes <==> n in old(prioq.nodes) || n == e
      requires forall n :: n in old(prioq.nodes) && n != e ==> n.data == old(n.data)
      ensures View() == old(View())[e := d]
    {
    }

    lemma NodesDiffer()
      requires Ordered()
      ensures forall i, j :: 0 <= i < j < |prioq.nodes| ==> prioq.nodes[i] != prioq.nodes[j]
    {
      hide Linked, Order, Heap;
      DistinctNodes(prioq.nodes);
    }

    /** Give a queued event new data and move it to where it belongs. */
    method Rekey(e: Node<Timed>, d: Timed)
      requires Ordered() && e in prioq.nodes
      modifies prioq`root, prioq`last, prioq`nodes, e`data
      modifies prioq.nodes`left, prioq.nodes`right, prioq.nodes`parent, prioq.nodes`next, prioq.nodes`prev
      modifies prioq.nodes`x, prioq.nodes`y
      ensures Ordered() && multiset(prioq.nodes) == multiset(old(prioq.nodes)) && e.data == d
      ensures View() == old(View())[e := d]
    {
      hide Linked, Order, Heap, Almost, Data, Distinct;
      ghost var at: nat :| at < |prioq.nodes| && prioq.nodes[at] == e;
      ChangedDatum(CompareTimed, Data(prioq.nodes), at, d);
      ghost var ks, s := Data(prioq.nodes), prioq.nodes;
      DistinctNodes(s);
      e.data := d;
      assert Data(s) == ks[at := d];
      prioq.Shuffle(e, at);
      SameNodes(s, prioq.nodes);
      MultisetNodes(s, prioq.nodes);
      ViewWith(e, d);
      hide View;
    }

    lemma DistinctNodes(s: seq<Node<Timed>>)
      requires Linked(s)
      ensures forall i, j :: 0 <= i < j < |s| ==> s[i] != s[j]
    {
    }

    /** avahi_time_event_update. */
    method Update(e: Node<Timed>, tv: Time)
      requires Ordered() && e in prioq.nodes
      modifies this`timeout, prioq`root, prioq`last, prioq`nodes, e`data
      modifies prioq.nodes`left, prioq.nodes`right, prioq.nodes`parent, prioq.nodes`next, prioq.nodes`prev
      modifies prioq.nodes`x, prioq.nodes`y
      ensures Valid() && multiset(prioq.nodes) == multiset(old(prioq.nodes))
      ensures e.data == Timed(tv, old(e.data.lastRun)) && View() == old(View())[e := e.data]
    {
      Rekey(e, Timed(tv, e.data.lastRun));
      UpdateTimeout();
    }

    /** expiration_event up to its callback: the event whose callback runs, if there is one, is a
        least one and due, and it alone changes. */
    method Dispatch(now: Time) returns (ran: Node?<Timed>)
      requires Valid()
      modifies prioq`root, prioq`last, prioq`nodes, prioq.nodes`data
      modifies prioq.nodes`left, prioq.nodes`right, prioq.nodes`parent, prioq.nodes`next, prioq.nodes`prev
      modifies prioq.nodes`x, prioq.nodes`y
      ensures Ordered() && multiset(prioq.nodes) == multiset(old(prioq.nodes))
      ensures ran == null <==> forall n :: n in old(prioq.nodes) ==> Compare(now, old(n.data.expiry)) < 0
      ensures forall n :: n in old(prioq.nodes) && n != ran ==> n.data == old(n.data)
      ensures ran == null ==> View() == old(View())
      ensures ran != null ==>
                && ran in old(prioq.nodes) && ran.data == Timed(old(ran.data.expiry), now)
                && View() == old(View())[ran := ran.data]
                && Compare(now, old(ran.data.expiry)) >= 0
                && forall n :: n in old(prioq.nodes) ==> CompareTimed(old(ran.data), old(n.data)) <= 0
    {
      hide Linked, Order, Heap, Almost, Data;
      ran := null;
      AllAbove();
      if prioq.root != null {
        var e := prioq.root;
        if Compare(now, e.data.expiry) >= 0 {
          Rekey(e, Timed(e.data.expiry, now));
          ran := e;
        }
      }
    }

    lemma AllAbove()
      requires Valid()
      ensures forall n :: n in prioq.nodes ==>
                && CompareTimed(prioq.nodes[0].data, n.data) <= 0
                && Compare(prioq.nodes[0].data.expiry, n.data.expiry) <= 0
      ensures prioq.root == if prioq.nodes == [] then null else prioq.nodes[0]
    {
      hide Linked, Order, Heap;
      forall n | n in prioq.nodes
        ensures CompareTimed(prioq.nodes[0].data, n.data) <= 0
        ensures Compare(prioq.nodes[0].data.expiry, n.data.expiry) <= 0
      {
        var k :| 0 <= k < |prioq.nodes| && prioq.nodes[k] == n;
        HeapLeast(prioq.compare, Data(prioq.nodes), k);
      }
    }
  }

  lemma MultisetNodes(was: seq<Node<Timed>>, now: seq<Node<Timed>>)
    requires multiset(now) == multiset(was)
    ensures forall n :: n in now <==> n in was
  {
    assert forall n :: n in now <==> n in multiset(now);
  }

  lemma MoreNodes(was: seq<Node<Timed>>, now: seq<Node<Timed>>, e: Node<Timed>)
    requires multiset(now) == multiset(was) + multiset{e}
    ensures forall n :: n in now <==> n in was || n == e
  {
    assert forall n :: n in now <==> n in multiset(now);
  }

  lemma LessNodes(was: seq<Node<Timed>>, now: seq<Node<Timed>>, e: Node<Timed>)
    requires multiset(now) == multiset(was) - multiset{e} && forall i, j :: 0 <= i < j < |was| ==> was[i] != was[j]
    ensures forall n :: n in now <==> n in was && n != e
  {
    assert forall n :: n in now <==> n in multiset(now);
    Once(was, e);
  }

  lemma {:induction false} Once(l: seq<Node<Timed>>, e: Node<Timed>)
    requires forall i, j :: 0 <= i < j < |l| ==> l[i] != l[j]
    ensures multiset(l)[e] <= 1
  {
    if l != [] {
      Once(l[1..], e);
      assert l == [l[0]] + l[1..];
      assert l[0] !in l[1..];
    }
  }
}
