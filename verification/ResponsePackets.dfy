/** What the packets of the response scheduler hold: the records sent, as many as ANCOUNT says, and
    a receiver can read them back. */
module ResponsePackets {
  import opened Bytes
  import opened NameCodec
  import opened Domain
  import opened Records
  import opened RecordIdent
  import opened RecordRoundTrip
  import opened RecordSession
  import opened ResponseSpec

  function Attempts(sent: seq<Job>): (ts: seq<Attempt>)
    ensures |ts| == |sent| && forall i :: 0 <= i < |sent| ==> ts[i] == Attempt(sent[i].record, sent[i].flush, 0)
  {
    seq(|sent|, i requires 0 <= i < |sent| => Attempt(sent[i].record, sent[i].flush, 0))
  }

  function Fresh(): Session {
    Session(seq(HEADER_SIZE, _ => 0), map[], [])
  }

  /** The packet holds the records of the jobs, one behind the other. */
  ghost predicate Holds(p: Pack, sent: seq<Job>) {
    var e := Run(Fresh(), Attempts(sent), p.limit);
    e.data == p.data && e.table == p.table && |e.accepted| == |sent|
  }

  /** The sends in a log. */
  function SendsIn(log: seq<Event>): seq<Ident> {
    if log == [] then []
    else SendsIn(log[..|log| - 1]) + if log[|log| - 1].Sent? then [log[|log| - 1].id] else []
  }

  function Ids(sent: seq<Job>): (ids: seq<Ident>)
    ensures |ids| == |sent| && forall i :: 0 <= i < |sent| ==> ids[i] == Id(sent[i])
  {
    seq(|sent|, i requires 0 <= i < |sent| => Id(sent[i]))
  }

  lemma {:induction false} RunMore(s: Session, ts: seq<Attempt>, t: Attempt, limit: nat)
    ensures Run(s, ts + [t], limit) == Step(Run(s, ts, limit), t, limit)
    decreases |ts|
  {
    hide Step;
    if ts == [] {
      assert ts + [t] == [t] && [t][1..] == [];
      assert Run(Step(s, t, limit), [], limit) == Step(s, t, limit);
    } else {
      assert (ts + [t])[1..] == ts[1..] + [t] && (ts + [t])[0] == ts[0];
      RunMore(Step(s, ts[0], limit), ts[1..], t, limit);
    }
  }

  /** Posting sends nothing. */
  lemma PostSendsNothing(s: State, record: Record, flush: bool, querier: Option<Address>, delay: int, now: int)
    ensures SendsIn(Post(s, record, flush, querier, delay, now).state.log) == SendsIn(s.log)
  {
    hide Post;
    PostLogs(s, record, flush, querier, delay, now);
    var t := Post(s, record, flush, querier, delay, now).state;
    if t.log != s.log {
      assert SendsIn(s.log) + [] == SendsIn(s.log);
    }
  }

  /** A post adds an excuse to the log, or nothing. */
  lemma PostLogs(s: State, record: Record, flush: bool, querier: Option<Address>, delay: int, now: int)
    ensures var log := Post(s, record, flush, querier, delay, now).state.log;
            log == s.log || (|log| == |s.log| + 1 && log[..|s.log|] == s.log && log[|s.log|].Excused?)
  {
    hide IdentOf, Covers, Find, FindFor, Drop;
  }

  lemma {:induction false} PostAllSendsNothing(s: State, aux: seq<Aux>, querier: Option<Address>, now: int)
    ensures SendsIn(PostAll(s, aux, querier, now).log) == SendsIn(s.log)
    decreases |aux|
  {
    hide Post, SendsIn;
    if aux != [] {
      PostSendsNothing(s, aux[0].record, aux[0].flush, querier, aux[0].delay, now);
      PostAllSendsNothing(Post(s, aux[0].record, aux[0].flush, querier, aux[0].delay, now).state, aux[1..], querier, now);
    }
  }

  lemma SendsSnoc(log: seq<Event>, id: Ident, at: int)
    ensures SendsIn(log + [Event.Sent(id, at)]) == SendsIn(log) + [id]
  {
    assert (log + [Event.Sent(id, at)])[..|log|] == log;
  }

  /** One record more in the packet, and one send more in the log. */
  lemma AddJobHolds(s: State, i: nat, p: Pack, sent: seq<Job>, aux: Record -> seq<Aux>, now: int)
    requires i < |s.jobs| && Holds(p, sent) && AddJob(s, i, p, aux, now).Added?
    ensures Holds(AddJob(s, i, p, aux, now).pack, sent + [s.jobs[i]])
    ensures SendsIn(AddJob(s, i, p, aux, now).state.log) == SendsIn(s.log) + [Id(s.jobs[i])]
  {
    hide AppendRecord, PostAll, SendsIn, Id, Find, Fresh;
    var j := s.jobs[i];
    var list := aux(j.record);
    assert Attempts(sent + [j]) == Attempts(sent) + [Attempt(j.record, j.flush, 0)];
    RunMore(Fresh(), Attempts(sent), Attempt(j.record, j.flush, 0), p.limit);
    PostAllSendsNothing(s, list, j.querier, now);
    PostAllKeeps(s, list, j.querier, now, Id(j));
    HasFind(PostAll(s, list, j.querier, now).jobs, Id(j));
    SendsSnoc(PostAll(s, list, j.querier, now).log, Id(j), now);
  }

  lemma EmptyHolds(limit: nat)
    requires limit >= HEADER_SIZE
    ensures Holds(Empty(limit), [])
  {
  }

  lemma IdsSnoc(ids: seq<Ident>, sent: seq<Job>, j: Job)
    ensures ids + Ids(sent + [j]) == ids + Ids(sent) + [Id(j)]
  {
    hide Id;
    assert Ids(sent + [j]) == Ids(sent) + [Id(j)];
  }

  lemma {:induction false} FillHolds(s: State, p: Pack, sent: seq<Job>, aux: Record -> seq<Aux>, now: int, before: seq<Ident>)
    requires |p.data| <= p.limit && Holds(p, sent) && SendsIn(s.log) == before + Ids(sent)
    ensures var r := Fill(s, p, sent, aux, now);
            && r.packet.Some? && Holds(r.packet.value, r.sent) && sent <= r.sent
            && SendsIn(r.state.log) == before + Ids(r.sent)
    decreases p.limit - |p.data|
  {
    hide AddJob, Holds, SendsIn, Ids;
    if s.jobs != [] && AddJob(s, 0, p, aux, now).Added? {
      AddJobHolds(s, 0, p, sent, aux, now);
      AddJobGrows(s, 0, p, aux, now);
      IdsSnoc(before, sent, s.jobs[0]);
      var a := AddJob(s, 0, p, aux, now);
      FillHolds(a.state, a.pack, sent + [s.jobs[0]], aux, now, before);
    }
  }

  /** The packet that is sent, if any, holds exactly the records that the log says were sent, the due
      one first; ANCOUNT, which is their number, is the number of records in it. */
  lemma SendHolds(s: State, i: nat, limit: nat, aux: Record -> seq<Aux>, now: int)
    requires i < |s.jobs| && limit >= HEADER_SIZE
    ensures var r := Send(s, i, limit, aux, now);
            && (r.packet.Some? ==> Holds(r.packet.value, r.sent) && r.sent != [] && r.sent[0] == s.jobs[i])
            && (r.packet.None? <==> r.sent == [])
            && SendsIn(r.state.log) == SendsIn(s.log) + Ids(r.sent)
  {
    hide AddJob, Holds, SendsIn, Ids, Fill, EstimateSize, Empty;
    var j, before := s.jobs[i], SendsIn(s.log);
    var large := HEADER_SIZE + EstimateSize(j.record);
    NoIds(before);
    IdsSnoc(before, [], j);
    assert [] + [j] == [j];
    EmptyHolds(limit);
    EmptyHolds(large);
    var a := AddJob(s, i, Empty(limit), aux, now);
    if a.Added? {
      AddJobHolds(s, i, Empty(limit), [], aux, now);
      AddJobGrows(s, i, Empty(limit), aux, now);
      FillHolds(a.state, a.pack, [j], aux, now, before);
    } else if AddJob(s, i, Empty(large), aux, now).Added? {
      AddJobHolds(s, i, Empty(large), [], aux, now);
    }
  }

  lemma NoIds(ids: seq<Ident>)
    ensures ids + Ids([]) == ids
  {
  }

  /** A receiver reads back exactly the records sent. */
  lemma ResponseReadable(p: Pack, sent: seq<Job>)
    requires Holds(p, sent) && forall i :: 0 <= i < |sent| ==> PortableRecord(sent[i].record)
    ensures var cs := ConsumeAll(p.data, HEADER_SIZE, |sent|);
            && cs.Some? && |cs.value| == |sent| && SoundTable(p.data, p.table)
            && forall i :: 0 <= i < |sent| ==> cs.value[i].record == Received(sent[i].record, 0) && cs.value[i].flush == sent[i].flush
  {
    hide PortableRecord, Step, ConsumeAll, SoundTable, Received;
    RunAccepts(Fresh(), Attempts(sent), p.limit);
    FreshReadable();
    RunReadable(Fresh(), Attempts(sent), p.limit, HEADER_SIZE);
    var e := Run(Fresh(), Attempts(sent), p.limit);
    assert e.data + [] == e.data;
  }
}
