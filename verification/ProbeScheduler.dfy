/** Sending the probes that are due (elapse_callback and packet_add_probe_query in
    avahi-core/probe-sched.c) over the job lists of a scheduler. */
module ProbeScheduler {
  import opened Bytes
  import opened Labels
  import opened NameCodec
  import opened Domain
  import opened Records
  import opened RecordIdent
  import opened RecordSession
  import opened KnownAnswers
  import opened ResponseSpec
  import opened QueryScheduler
  import opened ProbePackets
  import JL = JobLists

  const PROBE_SPAN: nat := 150_000
  const PROBE_DEFER: nat := 50_000

  type ProbeJobs = JL.Scheduler<Record, Ident>

  /** A scheduler of probes in any state it can get into. */
  ghost predicate Probing(s: ProbeJobs)
    reads s
  {
    s.Valid() && s.ident == IdentOf && s.span == PROBE_SPAN && s.defer == PROBE_DEFER
  }

  /** avahi_probe_scheduler_new. */
  method NewProbeScheduler() returns (s: ProbeJobs)
    ensures fresh(s) && Probing(s) && s.jobs == [] && s.history == [] && s.log == []
  {
    s := new JL.Scheduler(PROBE_SPAN, PROBE_DEFER, IdentOf);
  }

  /** A record is probed for at least 150 ms after it was last probed for or given up. */
  ghost predicate ProbesApart(log: seq<JL.Event<Ident>>) {
    forall i, j :: 0 <= i < j < |log| && log[i].key == log[j].key && log[j].Sent? ==> log[j].at - log[i].at >= 150_000
  }

  lemma ProbesSpaced(s: ProbeJobs)
    requires Probing(s)
    ensures ProbesApart(s.log)
  {
  }

  lemma ProbeParts(s: ProbeJobs)
    ensures Probing(s) <==> s.Valid() && s.ident == IdentOf && s.span == PROBE_SPAN && s.defer == PROBE_DEFER
  {
  }

  /** packet_add_probe_query: the question for the job at `at`, and the choice of that job and of
      the others it asks for. The source asserts that the question fits. */
  method AddProbeQuery(jobs: seq<ProbeJob>, c0: Choice, at: nat, limit: nat) returns (ok: bool, c: Choice)
    requires |jobs| == |c0.chosen| && at < |jobs| && !c0.chosen[at] && Writable(jobs[at].item.key.name)
    ensures |c.chosen| == |jobs| && ok == HasRoom(jobs[at].item, c0.d, limit)
    ensures c == if ok then AddQuery(jobs, c0, at, limit) else c0
  {
    hide EstimateSize, Ask, FoldName, QuestionFits, Writable, Chose;
    var d, chosen := c0.d, c0.chosen;
    var r := jobs[at].item;
    var size := KeyEstimate(r.key) + EstimateSize(r);
    if size > limit - |d.p.data| - d.reserved {
      return false, c0;
    }
    var k := ProbeKey(r);
    AddQueryIs(jobs, c0, at, limit);
    assert QuestionFits(d.p, k, limit);
    d := d.(p := Ask(d.p, k, limit));
    d := Reserve(d, EstimateSize(r), limit);
    chosen := chosen[at := true];
    var j := 0;
    while j < |jobs|
      invariant 0 <= j <= |jobs| == |chosen|
      invariant ChooseFrom(jobs, Choice(d, chosen), k, j, limit) == AddQuery(jobs, c0, at, limit)
    {
      var s := jobs[j].item;
      if !chosen[j] && k.clazz == s.key.clazz && FoldName(k.name) == FoldName(s.key.name) {
        if EstimateSize(s) > limit - |d.p.data| - d.reserved {
          break;
        }
        d := Reserve(d, EstimateSize(s), limit);
        chosen := chosen[j := true];
      }
      j := j + 1;
    }
    return true, Choice(d, chosen);
  }

  /** The second loop of elapse_callback: more questions while they fit. */
  method AskTheRest(jobs: seq<ProbeJob>, c0: Choice, limit: nat, ghost qs0: seq<Key>)
    returns (c: Choice, n: nat, ghost qs: seq<Key>)
    requires |jobs| == |c0.chosen| && AllWritable(jobs)
    ensures var r := AskMore(jobs, Asking(c0, qs0), 0, limit);
            c == r.c && qs == r.qs && n == |r.qs| - |qs0|
  {
    hide AddQuery, HasRoom, Writable;
    c, n, qs := c0, 0, qs0;
    var j := 0;
    while j < |jobs|
      invariant 0 <= j <= |jobs| == |c.chosen| && n == |qs| - |qs0|
      invariant AskMore(jobs, Asking(c, qs), j, limit) == AskMore(jobs, Asking(c0, qs0), 0, limit)
    {
      if !c.chosen[j] {
        var ok;
        ok, c := AddProbeQuery(jobs, c, j, limit);
        if !ok {
          break;
        }
        qs := qs + [ProbeKey(jobs[j].item)];
        n := n + 1;
      }
      j := j + 1;
    }
  }

  /** The sends of the records of jobs, and what the history then begins with. */
  ghost function SendsOf(js: seq<ProbeJob>, now: int): (es: seq<JL.Event<Ident>>)
    ensures |es| == |js| && forall i :: 0 <= i < |js| ==> es[i] == JL.Sent(IdentOf(js[i].item), now)
  {
    seq(|js|, i requires 0 <= i < |js| => JL.Sent(IdentOf(js[i].item), now))
  }

  function AllFinished(js: seq<ProbeJob>, now: int): seq<ProbeJob> {
    if js == [] then [] else [JL.Finished(js[|js| - 1], now, PROBE_SPAN)] + AllFinished(js[..|js| - 1], now)
  }

  lemma Snoc(js: seq<ProbeJob>, j: ProbeJob, now: int)
    ensures SendsOf(js + [j], now) == SendsOf(js, now) + [JL.Sent(IdentOf(j.item), now)]
    ensures AllFinished(js + [j], now) == [JL.Finished(j, now, PROBE_SPAN)] + AllFinished(js, now)
  {
    hide IdentOf;
    assert (js + [j])[..|js|] == js;
  }

  lemma NoSends(log: seq<JL.Event<Ident>>, history: seq<ProbeJob>, now: int)
    ensures log == log + SendsOf([], now) && history == AllFinished([], now) + history
  {
  }

  lemma ProbeKeyOf(s: ProbeJobs, i: nat)
    requires s.Valid() && s.ident == IdentOf && i < |s.jobs|
    ensures s.jobs[i].key == IdentOf(s.jobs[i].item)
  {
  }

  /** What the third loop comes to from a place in the middle. */
  function TakeFrom(front: seq<ProbeJob>, done: seq<ProbeJob>, t: Taken): Taken {
    Taken(t.p, done + t.done, front + t.left)
  }

  lemma TakeStep(jobs: seq<ProbeJob>, chosen: seq<bool>, j: nat, done: seq<ProbeJob>, p: Session, limit: nat)
    requires |jobs| == |chosen| && j < |jobs|
    ensures var t := TakeFrom(jobs[..j], done, Take(jobs[j..], chosen[j..], p, limit));
            && (!chosen[j] ==> t == TakeFrom(jobs[..j + 1], done, Take(jobs[j + 1..], chosen[j + 1..], p, limit)))
            && (chosen[j] && !RecordFits(p, jobs[j].item, limit) ==> t == Taken(p, done, jobs))
            && (chosen[j] && RecordFits(p, jobs[j].item, limit) ==>
                  t == TakeFrom(JL.Drop(jobs, j)[..j], done + [jobs[j]],
                                Take(JL.Drop(jobs, j)[j..], JL.Drop(chosen, j)[j..], AddRecord(p, jobs[j].item, limit), limit)))
  {
    hide RecordFits, AddRecord;
    Tails(jobs, chosen, j);
    var t, more := Take(jobs[j + 1..], chosen[j + 1..], p, limit),
                   Take(jobs[j + 1..], chosen[j + 1..], AddRecord(p, jobs[j].item, limit), limit);
    assert jobs[..j] + ([jobs[j]] + t.left) == jobs[..j + 1] + t.left;
    assert done + ([jobs[j]] + more.done) == done + [jobs[j]] + more.done;
    assert jobs[..j] + jobs[j..] == jobs && done + [] == done;
  }

  lemma Tails(jobs: seq<ProbeJob>, chosen: seq<bool>, j: nat)
    requires |jobs| == |chosen| && j < |jobs|
    ensures jobs[j..] != [] && jobs[j..][0] == jobs[j] && jobs[j..][1..] == jobs[j + 1..]
    ensures chosen[j..][0] == chosen[j] && chosen[j..][1..] == chosen[j + 1..]
    ensures JL.Drop(jobs, j)[..j] == jobs[..j] && JL.Drop(jobs, j)[j..] == jobs[j + 1..] && JL.Drop(chosen, j)[j..] == chosen[j + 1..]
  {
  }

  lemma TakeBegins(jobs: seq<ProbeJob>, chosen: seq<bool>, p: Session, limit: nat)
    requires |jobs| == |chosen|
    ensures Take(jobs, chosen, p, limit) == TakeFrom(jobs[..0], [], Take(jobs[0..], chosen[0..], p, limit))
  {
    hide Take;
    assert jobs[0..] == jobs && chosen[0..] == chosen;
    var t := Take(jobs, chosen, p, limit);
    assert [] + t.done == t.done && jobs[..0] + t.left == t.left;
  }

  lemma TakeEnds(jobs: seq<ProbeJob>, chosen: seq<bool>, done: seq<ProbeJob>, p: Session, limit: nat)
    requires |jobs| == |chosen|
    ensures TakeFrom(jobs[..|jobs|], done, Take(jobs[|jobs|..], chosen[|jobs|..], p, limit)) == Taken(p, done, jobs)
  {
    assert jobs[|jobs|..] == [] && jobs[..|jobs|] + [] == jobs && done + [] == done;
  }

  /** The third loop: the chosen records in list order, up to the first that does not fit. No job
      that stays scheduled remains marked as chosen. */
  method AddRecords(s: ProbeJobs, chosen0: seq<bool>, p0: Session, limit: nat, now: int)
    returns (p: Session, chosen: seq<bool>, n: nat, ghost done: seq<ProbeJob>)
    requires Probing(s) && now >= s.clock && |chosen0| == |s.jobs|
    modifies s`jobs, s`history, s`log, s`clock
    ensures Probing(s) && |chosen| == |s.jobs| && forall i :: 0 <= i < |chosen| ==> !chosen[i]
    ensures Take(old(s.jobs), chosen0, p0, limit) == Taken(p, done, s.jobs) && n == |done|
    ensures s.log == old(s.log) + SendsOf(done, now) && s.history == AllFinished(done, now) + old(s.history)
  {
    hide *;
    ProbeParts(s);
    p, chosen, n, done := p0, chosen0, 0, [];
    var j := 0;
    NoSends(s.log, s.history, now);
    TakeBegins(s.jobs, chosen, p, limit);
    while j < |s.jobs|
      invariant 0 <= j <= |s.jobs| == |chosen| && s.Valid() && now >= s.clock && n == |done|
      invariant forall i :: 0 <= i < j ==> !chosen[i]
      invariant Take(old(s.jobs), chosen0, p0, limit) == TakeFrom(s.jobs[..j], done, Take(s.jobs[j..], chosen[j..], p, limit))
      invariant s.log == old(s.log) + SendsOf(done, now) && s.history == AllFinished(done, now) + old(s.history)
      decreases |s.jobs| - j
    {
      TakeStep(s.jobs, chosen, j, done, p, limit);
      if !chosen[j] {
        j := j + 1;
        continue;
      }
      var pj := s.jobs[j];
      if !RecordFits(p, pj.item, limit) {
        chosen := chosen[..j] + seq(|chosen| - j, _ => false);
        ProbeParts(s);
        return;
      }
      ProbeKeyOf(s, j);
      Snoc(done, pj, now);
      p := AddRecord(p, pj.item, limit);
      s.JobMarkDone(j, JL.Sent(pj.key, now), now);
      chosen := JL.Drop(chosen, j);
      done := done + [pj];
      n := n + 1;
    }
    assert j == |s.jobs|;
    TakeEnds(s.jobs, chosen, done, p, limit);
    ProbeParts(s);
  }

  /** The branch for a probe too large for an ordinary packet. */
  method ProbeAlone(s: ProbeJobs, i: nat, now: int) returns (p: Option<Session>)
    requires Probing(s) && now >= s.clock && i < |s.jobs|
    modifies s`jobs, s`history, s`log, s`clock
    ensures Probing(s) && s.jobs == JL.Drop(old(s.jobs), i) && p == Alone(old(s.jobs)[i].item)
    ensures s.history == [JL.Finished(old(s.jobs)[i], now, PROBE_SPAN)] + old(s.history)
    ensures var id := IdentOf(old(s.jobs)[i].item);
            s.log == old(s.log) + [if p.Some? then JL.Sent(id, now) else JL.Heard(id, now)]
  {
    hide *;
    ProbeParts(s);
    var r := s.jobs[i].item;
    ProbeKeyOf(s, i);
    AloneIs(r);
    var size := KeyEstimate(r.key) + EstimateSize(r) + HEADER_SIZE;
    p := None;
    if QuestionFits(FreshSession(), ProbeKey(r), size) {
      var q := Ask(FreshSession(), ProbeKey(r), size);
      if RecordFits(q, r, size) {
        p := Some(AddRecord(q, r, size));
      }
    }
    if p.Some? {
      s.JobMarkDone(i, JL.Sent(s.jobs[i].key, now), now);
    } else {
      s.JobMarkDone(i, JL.Heard(s.jobs[i].key, now), now);
    }
    ProbeParts(s);
  }

  lemma AloneIs(r: Record)
    ensures var k, limit := ProbeKey(r), KeyEstimate(r.key) + EstimateSize(r) + HEADER_SIZE;
            Alone(r) == if !QuestionFits(FreshSession(), k, limit) then None
                        else if RecordFits(Ask(FreshSession(), k, limit), r, limit)
                        then Some(AddRecord(Ask(FreshSession(), k, limit), r, limit)) else None
  {
    hide QuestionFits, RecordFits, AddRecord, Ask, EstimateSize;
  }

  /** elapse_callback for a scheduled probe: an ordinary packet with QDCOUNT and NSCOUNT, or one for
      this probe alone, or none when it does not fit that either. */
  method ProbeElapsed(s: ProbeJobs, i: nat, limit: nat, now: int)
    returns (ordinary: bool, p: Option<Session>, questions: nat, records: nat)
    requires Probing(s) && now >= s.clock && i < |s.jobs| && limit >= HEADER_SIZE && AllWritable(s.jobs)
    modifies s`jobs, s`history, s`log, s`clock
    ensures Probing(s) && ProbesApart(s.log)
    ensures ordinary == HasRoom(old(s.jobs)[i].item, Draft(FreshSession(), 0), limit)
    ensures ordinary ==>
              var t := ProbePacket(old(s.jobs), i, limit);
              && p == Some(t.p) && questions == |Assembled(old(s.jobs), i, limit).qs| && records == |t.done|
              && s.jobs == t.left && s.history == AllFinished(t.done, now) + old(s.history)
              && s.log == old(s.log) + SendsOf(t.done, now)
    ensures !ordinary ==>
              var j := old(s.jobs)[i];
              && p == Alone(j.item) && (p.Some? ==> questions == records == 1)
              && s.jobs == JL.Drop(old(s.jobs), i) && s.history == [JL.Finished(j, now, PROBE_SPAN)] + old(s.history)
              && s.log == old(s.log) + [if p.Some? then JL.Sent(IdentOf(j.item), now) else JL.Heard(IdentOf(j.item), now)]
  {
    hide *;
    var blank := Choice(Draft(FreshSession(), 0), seq(|s.jobs|, _ => false));
    var c;
    BlankJob(s.jobs, i);
    ordinary, c := AddProbeQuery(s.jobs, blank, i, limit);
    questions, records := 1, 1;
    if !ordinary {
      p := ProbeAlone(s, i, now);
      ProbesSpaced(s);
      return;
    }
    ghost var qs;
    AssembledFrom(s.jobs, i, limit);
    c, questions, qs := AskTheRest(s.jobs, c, limit, [ProbeKey(s.jobs[i].item)]);
    questions := questions + 1;
    ProbePacketIs(s.jobs, i, limit);
    var chosen, q;
    ghost var done;
    q, chosen, records, done := AddRecords(s, c.chosen, c.d.p, limit, now);
    p := Some(q);
    ProbesSpaced(s);
  }

  lemma BlankJob(jobs: seq<ProbeJob>, i: nat)
    requires i < |jobs| && AllWritable(jobs)
    ensures Blank(jobs).c == Choice(Draft(FreshSession(), 0), seq(|jobs|, _ => false)) && Writable(jobs[i].item.key.name)
  {
    hide Writable;
  }

  lemma AssembledFrom(jobs: seq<ProbeJob>, i: nat, limit: nat)
    requires i < |jobs|
    ensures Assembled(jobs, i, limit)
         == AskMore(jobs, Asking(AddQuery(jobs, Blank(jobs).c, i, limit), [ProbeKey(jobs[i].item)]), 0, limit)
  {
    hide AddQuery, AskMore;
    assert [] + [ProbeKey(jobs[i].item)] == [ProbeKey(jobs[i].item)];
  }

  /** What the packet of an ordinary probe is: the due job's question comes first; the questions
      are followed by the records, each asked for by one of them, that were chosen, in list order
      up to the first that does not fit; no job is lost. */
  lemma ProbePacketSound(jobs: seq<ProbeJob>, i: nat, limit: nat)
    requires i < |jobs| && limit >= HEADER_SIZE && AllWritable(jobs) && HasRoom(jobs[i].item, Draft(FreshSession(), 0), limit)
    ensures var a, t := Assembled(jobs, i, limit), ProbePacket(jobs, i, limit);
            && a.qs != [] && a.qs[0] == ProbeKey(jobs[i].item) && a.c.chosen[i] && FullUp(jobs, a.c, limit)
            && t.p == Run(AskAll(FreshSession(), a.qs, limit), Probes(RecordsOf(t.done)), limit)
            && |t.p.accepted| == |t.done| && Covered(a.qs, t.done)
            && t.done <= Picked(jobs, a.c.chosen) && multiset(t.done) + multiset(t.left) == multiset(jobs)
            && (t.done != Picked(jobs, a.c.chosen) ==> !RecordFits(t.p, Picked(jobs, a.c.chosen)[|t.done|].item, limit))
  {
    hide *;
    AssembledIs(jobs, i, limit);
    var a := Assembled(jobs, i, limit);
    ProbePacketIs(jobs, i, limit);
    AssemblingHolds(jobs, a, limit);
    TakeIs(jobs, a.c.chosen, a.c.d.p, limit);
    TakeConserves(jobs, a.c.chosen, a.c.d.p, limit);
    PickedCovered(jobs, a.c.chosen, a.qs);
    CoveredPrefix(a.qs, ProbePacket(jobs, i, limit).done, Picked(jobs, a.c.chosen));
  }

  lemma AssemblingHolds(jobs: seq<ProbeJob>, a: Asking, limit: nat)
    requires |a.c.chosen| == |jobs| && Assembling(jobs, a, limit)
    ensures AllAsked(jobs, a.c.chosen, a.qs) && a.c.d.p == AskAll(FreshSession(), a.qs, limit) && a.c.d.p.accepted == []
  {
    hide AllAsked, Budget, AskAll;
    AskKeeps(FreshSession(), a.qs, limit);
  }

  lemma {:induction false} AskKeeps(p: Session, ks: seq<Key>, limit: nat)
    ensures AskAll(p, ks, limit).accepted == p.accepted
    decreases |ks|
  {
    hide AppendKey;
    if ks != [] {
      AskKeeps(p, ks[..|ks| - 1], limit);
    }
  }
}
