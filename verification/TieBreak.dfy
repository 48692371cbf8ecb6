/** Simultaneous probes (incoming_probe and withdraw_rrset in avahi-core/server.c, section 8.2.1 of
    RFC 6762): which of two hosts that probe for the same key gives way. */
module TieBreak {
  import opened Bytes
  import opened Records
  import opened RecordOrder

  /** An entry of the host under the key in question. */
  datatype Own = Own(record: Record, dead: bool, probing: bool)

  predicate Sensible(chain: seq<Own>) {
    forall k :: 0 <= k < |chain| ==> Comparable(chain[k].record)
  }

  predicate Equals(e: Own, r: Record) {
    !e.dead && Compare(e.record, r) == 0
  }

  predicate Beats(e: Own, r: Record) {
    !e.dead && e.probing && Compare(e.record, r) > 0
  }

  predicate Yields(e: Own, r: Record) {
    !e.dead && e.probing && Compare(e.record, r) < 0
  }

  /** A probe for r makes the host give way: r is not one of its own records, beats a record it
      probes for, and is beaten by none. */
  predicate Loses(chain: seq<Own>, r: Record) {
    && (forall k :: 0 <= k < |chain| ==> !Equals(chain[k], r))
    && (forall k :: 0 <= k < |chain| ==> !Beats(chain[k], r))
    && (exists k :: 0 <= k < |chain| && Yields(chain[k], r))
  }

  function Withdrawn(chain: seq<Own>): (w: seq<Own>)
    ensures |w| == |chain| && forall k :: 0 <= k < |w| ==> w[k] == chain[k].(dead := true, probing := false)
  {
    seq(|chain|, k requires 0 <= k < |chain| => chain[k].(dead := true, probing := false))
  }

  function AfterProbe(chain: seq<Own>, r: Record): seq<Own> {
    if Loses(chain, r) then Withdrawn(chain) else chain
  }

  function AfterProbes(chain: seq<Own>, rs: seq<Record>): seq<Own>
    decreases |rs|
  {
    if rs == [] then chain else AfterProbes(AfterProbe(chain, rs[0]), rs[1..])
  }

  class Host {
    var chain: seq<Own>

    constructor (chain: seq<Own>)
      ensures this.chain == chain
    {
      this.chain := chain;
    }

    /** incoming_probe. */
    method IncomingProbe(r: Record)
      modifies this
      ensures chain == AfterProbe(old(chain), r)
    {
      hide Compare;
      var ours, won, lost := false, false, false;
      var k := 0;
      while k < |chain| && !ours
        invariant 0 <= k <= |chain| && chain == old(chain)
        invariant ours <==> exists j :: 0 <= j < k && Equals(chain[j], r)
        invariant won <==> exists j :: 0 <= j < k && Beats(chain[j], r)
        invariant lost <==> exists j :: 0 <= j < k && Yields(chain[j], r)
        decreases |chain| - k
      {
        var e := chain[k];
        if !e.dead {
          var cmp := Compare(e.record, r);
          if cmp == 0 {
            ours := true;
          } else if e.probing {
            if cmp > 0 {
              won := true;
            } else {
              lost := true;
            }
          }
        }
        k := k + 1;
      }
      if !ours && !won && lost {
        WithdrawRrset();
      }
    }

    /** withdraw_rrset, for the entries under the key. */
    method WithdrawRrset()
      modifies this
      ensures chain == Withdrawn(old(chain))
    {
      var k := 0;
      while k < |chain|
        invariant 0 <= k <= |chain| == |old(chain)|
        invariant forall j :: 0 <= j < k ==> chain[j] == old(chain)[j].(dead := true, probing := false)
        invariant forall j :: k <= j < |chain| ==> chain[j] == old(chain)[j]
      {
        chain := chain[k := chain[k].(dead := true, probing := false)];
        k := k + 1;
      }
    }

    /** The loop over the authority section of a query. */
    method HearProbes(rs: seq<Record>)
      modifies this
      ensures chain == AfterProbes(old(chain), rs)
    {
      hide AfterProbe;
      var k := 0;
      assert rs[0..] == rs;
      while k < |rs|
        invariant 0 <= k <= |rs|
        invariant AfterProbes(old(chain), rs) == AfterProbes(chain, rs[k..])
      {
        assert rs[k..][1..] == rs[k + 1..];
        IncomingProbe(rs[k]);
        k := k + 1;
      }
    }
  }

  /** A rival's probe, and what a host probes for: every record live and still probing. */
  predicate Probes(chain: seq<Own>) {
    Sensible(chain) && chain != [] && forall k :: 0 <= k < |chain| ==> !chain[k].dead && chain[k].probing
  }

  function RecordsOf(chain: seq<Own>): (rs: seq<Record>)
    ensures |rs| == |chain| && forall k :: 0 <= k < |rs| ==> rs[k] == chain[k].record
  {
    seq(|chain|, k requires 0 <= k < |chain| => chain[k].record)
  }

  predicate Dead(chain: seq<Own>) {
    forall k :: 0 <= k < |chain| ==> chain[k].dead
  }

  /** m is one of the records, and none is greater. */
  predicate Maximum(m: Record, rs: seq<Record>) {
    m in rs && forall k :: 0 <= k < |rs| ==> Compare(rs[k], m) <= 0
  }

  /** Every set of records has one, because the comparison is a total order. */
  lemma {:induction false} MaximumExists(rs: seq<Record>) returns (m: Record)
    requires rs != [] && forall k :: 0 <= k < |rs| ==> Comparable(rs[k])
    ensures Maximum(m, rs)
  {
    hide Compare, Comparable;
    if |rs| == 1 {
      m := rs[0];
      CompareOrder(m, m, m);
    } else {
      var n := MaximumExists(rs[1..]);
      var x := rs[0];
      CompareOrder(x, n, n);
      m := if Compare(x, n) <= 0 then n else x;
      forall k | 0 <= k < |rs|
        ensures Compare(rs[k], m) <= 0
      {
        if k > 0 {
          assert rs[k] == rs[1..][k - 1];
          CompareOrder(rs[k], n, x);
        } else {
          CompareOrder(x, x, x);
        }
      }
    }
  }

  /** A host whose records are all being probed for gives way exactly to records above its maximum. */
  lemma LosesToGreater(chain: seq<Own>, m: Record, r: Record)
    requires Probes(chain) && Maximum(m, RecordsOf(chain)) && Comparable(r)
    ensures Loses(chain, r) <==> Compare(r, m) > 0
  {
    hide Compare, Comparable;
    var rs := RecordsOf(chain);
    var j :| 0 <= j < |rs| && rs[j] == m;
    CompareOrder(r, m, m);
    if Compare(r, m) > 0 {
      forall k | 0 <= k < |chain|
        ensures Yields(chain[k], r)
      {
        assert Compare(rs[k], m) <= 0;
        CompareOrder(chain[k].record, m, r);
      }
    } else {
      assert Equals(chain[j], r) || Beats(chain[j], r);
    }
  }

  /** Once withdrawn, nothing brings the records back. */
  lemma {:induction false} DeadStays(chain: seq<Own>, rs: seq<Record>)
    requires Dead(chain)
    ensures AfterProbes(chain, rs) == chain
    decreases |rs|
  {
    if rs != [] {
      assert !Loses(chain, rs[0]);
      DeadStays(chain, rs[1..]);
    }
  }

  /** Hearing a rival's records, the host withdraws exactly if one of them is above its maximum. */
  lemma {:induction false} WithdrawsToGreater(chain: seq<Own>, m: Record, rs: seq<Record>)
    requires Probes(chain) && Maximum(m, RecordsOf(chain))
    requires forall k :: 0 <= k < |rs| ==> Comparable(rs[k])
    ensures AfterProbes(chain, rs) == if exists k :: 0 <= k < |rs| && Compare(rs[k], m) > 0 then Withdrawn(chain) else chain
    decreases |rs|
  {
    hide Compare, Comparable, Loses;
    if rs != [] {
      LosesToGreater(chain, m, rs[0]);
      if Loses(chain, rs[0]) {
        DeadStays(Withdrawn(chain), rs[1..]);
      } else {
        WithdrawsToGreater(chain, m, rs[1..]);
        assert forall k :: 1 <= k < |rs| ==> rs[k] == rs[1..][k - 1];
        assert forall k :: 0 <= k < |rs| - 1 ==> rs[1..][k] == rs[k + 1];
      }
    }
  }

  /** Two hosts probe for one key at once and each hears the other's records. The one with the
      smaller maximum withdraws all of them and the other keeps all of them; with equal maxima
      both keep them. */
  lemma ExactlyOneWithdraws(ours: seq<Own>, theirs: seq<Own>, a: Record, b: Record)
    requires Probes(ours) && Probes(theirs)
    requires Maximum(a, RecordsOf(ours)) && Maximum(b, RecordsOf(theirs))
    ensures AfterProbes(ours, RecordsOf(theirs)) == if Compare(a, b) < 0 then Withdrawn(ours) else ours
    ensures AfterProbes(theirs, RecordsOf(ours)) == if Compare(b, a) < 0 then Withdrawn(theirs) else theirs
    ensures Compare(a, b) != 0 ==> (Compare(a, b) < 0) != (Compare(b, a) < 0)
  {
    hide Compare, Comparable, AfterProbes;
    MaximumDecides(ours, theirs, a, b);
    MaximumDecides(theirs, ours, b, a);
    MaximumComparable(ours, a);
    MaximumComparable(theirs, b);
    CompareOrder(a, b, a);
  }

  lemma MaximumComparable(chain: seq<Own>, m: Record)
    requires Probes(chain) && Maximum(m, RecordsOf(chain))
    ensures Comparable(m)
  {
    hide Comparable, Compare;
    var k :| 0 <= k < |RecordsOf(chain)| && RecordsOf(chain)[k] == m;
  }

  lemma MaximumDecides(chain: seq<Own>, rival: seq<Own>, m: Record, n: Record)
    requires Probes(chain) && Probes(rival)
    requires Maximum(m, RecordsOf(chain)) && Maximum(n, RecordsOf(rival))
    ensures AfterProbes(chain, RecordsOf(rival)) == if Compare(m, n) < 0 then Withdrawn(chain) else chain
  {
    hide Compare, Comparable, AfterProbes;
    var rs := RecordsOf(rival);
    assert forall k :: 0 <= k < |rs| ==> rs[k] == rival[k].record;
    WithdrawsToGreater(chain, m, rs);
    var j :| 0 <= j < |rs| && rs[j] == n;
    MaximumComparable(chain, m);
    CompareOrder(m, n, n);
    if k :| 0 <= k < |rs| && Compare(rs[k], m) > 0 {
      CompareOrder(m, rs[k], n);
      CompareOrder(rs[k], n, m);
      CompareOrder(rs[k], m, n);
    }
  }
}
