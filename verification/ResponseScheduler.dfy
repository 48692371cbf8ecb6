/** The response scheduler of avahi-core/response-sched.c with its three lists. Timers, records
    and the packet are values; a list is the sequence of its jobs from the head on. */
module ResponseScheduler {
  import opened Bytes
  import opened NameCodec
  import opened Records
  import opened RecordIdent
  import opened ResponseSpec

  class Scheduler {
    var jobs: seq<Job>
    var history: seq<Job>
    var suppressed: seq<Job>
    ghost var log: seq<Event>

    ghost function View(): State
      reads this
    {
      State(jobs, history, suppressed, log)
    }

    constructor ()
      ensures View() == State([], [], [], [])
    {
      jobs, history, suppressed, log := [], [], [], [];
    }

    /** find_scheduled_job. */
    method FindScheduledJob(record: Record) returns (i: nat)
      ensures i == Find(jobs, IdentOf(record))
    {
      hide IdentOf, Id;
      i := 0;
      while i < |jobs|
        invariant 0 <= i <= |jobs|
        invariant forall k :: 0 <= k < i ==> Id(jobs[k]) != IdentOf(record)
      {
        if Id(jobs[i]) == IdentOf(record) {
          return;
        }
        i := i + 1;
      }
    }

    /** find_history_job: an outdated job is freed and NULL returned. */
    method FindHistoryJob(record: Record, now: int) returns (i: nat)
      modifies this`history
      ensures View() == FreshHistory(old(View()), IdentOf(record), now)
      ensures i == HistoryAt(old(View()), IdentOf(record), now)
    {
      hide IdentOf, Id;
      i := 0;
      while i < |history|
        invariant 0 <= i <= |history| && history == old(history)
        invariant forall k :: 0 <= k < i ==> Id(history[k]) != IdentOf(record)
      {
        if Id(history[i]) == IdentOf(record) {
          assert i == Find(history, IdentOf(record));
          if (now - history[i].delivery) / 1000 > HISTORY / 1000 {
            history := Drop(history, i);
            i := |history|;
          }
          return;
        }
        i := i + 1;
      }
      assert i == Find(history, IdentOf(record));
    }

    /** find_suppressed_job. */
    method FindSuppressedJob(record: Record, querier: Address, now: int) returns (i: nat)
      modifies this`suppressed
      ensures View() == FreshSuppressed(old(View()), IdentOf(record), querier, now)
      ensures i == SuppressedAt(old(View()), IdentOf(record), querier, now)
    {
      hide IdentOf, Id;
      i := 0;
      while i < |suppressed|
        invariant 0 <= i <= |suppressed| && suppressed == old(suppressed)
        invariant forall k :: 0 <= k < i ==> !(Id(suppressed[k]) == IdentOf(record) && suppressed[k].querier == Some(querier))
      {
        if Id(suppressed[i]) == IdentOf(record) && suppressed[i].querier == Some(querier) {
          assert i == FindFor(suppressed, IdentOf(record), querier);
          if now - suppressed[i].delivery > SUPPRESS {
            suppressed := Drop(suppressed, i);
            i := |suppressed|;
          }
          return;
        }
        i := i + 1;
      }
      assert i == FindFor(suppressed, IdentOf(record), querier);
    }

    /** job_mark_done. */
    method JobMarkDone(i: nat, now: int)
      requires i < |jobs|
      modifies this`jobs, this`history
      ensures View() == MarkDone(old(View()), i, now)
    {
      var rj := jobs[i];
      jobs := Drop(jobs, i);
      history := [rj.(state := JobState.Done, delivery := now, due := now + HISTORY)] + history;
    }

    /** avahi_response_scheduler_post. */
    method PostJob(record: Record, flush: bool, querier: Option<Address>, delay: int, now: int) returns (accepted: bool)
      modifies this
      ensures Posted(View(), accepted) == Post(old(View()), record, flush, querier, delay, now)
    {
      hide IdentOf, Id, Covers, FreshHistory, FreshSuppressed, HistoryAt, SuppressedAt, Find, Drop, Schedule;
      if querier.Some? {
        var k := FindSuppressedJob(record, querier.value, now);
        if k < |suppressed| && Covers(suppressed[k], record) {
          return false;
        }
      }
      var i := FindHistoryJob(record, now);
      if i < |history| {
        if Covers(history[i], record) && (history[i].flush || !flush) {
          return false;
        }
        var rj := history[i];
        history := Drop(history, i);
        log := log + [Excused(IdentOf(record), now, record, flush, rj)];
      }
      ScheduleJob(record, flush, querier, now + delay);
      accepted := true;
    }

    /** The last part of post: bring the scheduled job up to date, or create one. */
    method ScheduleJob(record: Record, flush: bool, querier: Option<Address>, tv: int)
      modifies this`jobs
      ensures View() == Schedule(old(View()), record, flush, querier, tv)
    {
      hide IdentOf, Id, Find;
      var i := FindScheduledJob(record);
      if i < |jobs| {
        var rj := jobs[i];
        if tv < rj.delivery {
          rj := rj.(delivery := tv, due := tv);
        }
        if flush {
          rj := rj.(flush := true);
        }
        if querier.None? || (rj.querier.Some? && querier != rj.querier) {
          rj := rj.(querier := None);
        }
        jobs := jobs[i := rj.(record := record)];
      } else {
        jobs := [Job(Scheduled, record, flush, tv, tv, querier)] + jobs;
      }
    }

    /** avahi_response_scheduler_incoming. */
    method IncomingRecord(record: Record, flush: bool, now: int)
      modifies this
      ensures View() == Incoming(old(View()), record, flush, now)
    {
      hide IdentOf, Id, FreshHistory, HistoryAt, Find, MarkDone;
      var i := FindScheduledJob(record);
      if i < |jobs| {
        if (!jobs[i].flush || flush) && Goodbye(record) == Goodbye(jobs[i].record) && record.ttl >= jobs[i].record.ttl / 2 {
          JobMarkDone(i, now);
        }
        return;
      }
      var k := FindHistoryJob(record, now);
      if k < |history| {
        history := history[k := Job(history[k].state, record, flush, now, now + HISTORY, None)];
      } else {
        history := [Job(JobState.Done, record, flush, now, now + HISTORY, None)] + history;
      }
    }

    /** avahi_response_scheduler_suppress. */
    method SuppressRecord(record: Record, querier: Address, now: int)
      modifies this
      ensures View() == Suppress(old(View()), record, querier, now)
    {
      hide IdentOf, Id, FreshSuppressed, SuppressedAt, Find, Drop;
      var i := FindScheduledJob(record);
      if i < |jobs| {
        if jobs[i].querier == Some(querier) && Goodbye(record) == Goodbye(jobs[i].record)
           && record.ttl >= jobs[i].record.ttl / 2 {
          jobs := Drop(jobs, i);
        }
      }
      var k := FindSuppressedJob(record, querier, now);
      if k < |suppressed| {
        suppressed := suppressed[k := suppressed[k].(record := record, delivery := now, due := now + SUPPRESS)];
      } else {
        suppressed := [Job(Suppressed, record, false, now, now + SUPPRESS, Some(querier))] + suppressed;
      }
    }

    /** packet_add_response_job; `aux` are the records the server sends along. */
    method PacketAddResponseJob(p: Pack, i: nat, aux: Record -> seq<Aux>, now: int) returns (r: Option<Pack>)
      requires i < |jobs|
      modifies this
      ensures AddJob(old(View()), i, p, aux, now) == if r.Some? then Added(View(), r.value) else Refused
      ensures r.None? ==> View() == old(View())
    {
      hide IdentOf, Id, AppendRecord, Post, MarkDone, Find, Has;
      var rj := jobs[i];
      var a := AppendRecord(rj.record, rj.flush, 0, p.table, |p.data|, p.limit);
      if !a.Done? {
        return None;
      }
      ghost var s := View();
      AppendKeeps(s, i, aux(rj.record), now);
      var list := aux(rj.record);
      var k := 0;
      while k < |list|
        invariant 0 <= k <= |list|
        invariant PostAll(s, list, rj.querier, now) == PostAll(View(), list[k..], rj.querier, now)
      {
        assert list[k..][1..] == list[k + 1..];
        var accepted := PostJob(list[k].record, list[k].flush, rj.querier, list[k].delay, now);
        k := k + 1;
      }
      assert View() == PostAll(s, list, rj.querier, now);
      var at := FindScheduledJob(rj.record);
      JobMarkDone(at, now);
      log := log + [Sent(Id(rj), now)];
      r := Some(Pack(p.data + a.bytes, a.table, p.limit));
    }

    /** Posting the additional records leaves the job itself scheduled. */
    lemma AppendKeeps(s: State, i: nat, aux: seq<Aux>, now: int)
      requires i < |s.jobs|
      ensures var s1 := PostAll(s, aux, s.jobs[i].querier, now);
              && Find(s1.jobs, Id(s.jobs[i])) < |s1.jobs| && Id(s.jobs[i]) == IdentOf(s.jobs[i].record)
    {
      assert Has(s.jobs, Id(s.jobs[i]));
      hide IdentOf, Post;
      PostAllKeeps(s, aux, s.jobs[i].querier, now, Id(s.jobs[i]));
      HasFind(PostAll(s, aux, s.jobs[i].querier, now).jobs, Id(s.jobs[i]));
    }

    /** send_response_packet: the packet handed to the interface, if there is one, and its ANCOUNT. */
    method SendResponsePacket(i: nat, limit: nat, aux: Record -> seq<Aux>, now: int)
      returns (packet: Option<Pack>, n: nat, ghost sent: seq<Job>)
      requires i < |jobs| && limit >= HEADER_SIZE
      modifies this
      ensures Sending(View(), packet, sent) == Send(old(View()), i, limit, aux, now)
      ensures n == |sent|
    {
      hide IdentOf, Id, AppendRecord, AddJob, MarkDone, Empty, EstimateSize;
      var rj := jobs[i];
      n, sent := 1, [rj];
      packet := PacketAddResponseJob(Empty(limit), i, aux, now);
      if packet.Some? {
        AddJobGrows(old(View()), i, Empty(limit), aux, now);
        while |jobs| > 0
          invariant packet.Some? && |packet.value.data| <= packet.value.limit && n == |sent|
          invariant Fill(View(), packet.value, sent, aux, now) == Send(old(View()), i, limit, aux, now)
          decreases packet.value.limit - |packet.value.data|
        {
          ghost var before := View();
          var q := PacketAddResponseJob(packet.value, 0, aux, now);
          if q.None? {
            break;
          }
          AddJobGrows(before, 0, packet.value, aux, now);
          n, sent := n + 1, sent + [before.jobs[0]];
          packet := q;
        }
      } else {
        packet := PacketAddResponseJob(Empty(HEADER_SIZE + EstimateSize(rj.record)), i, aux, now);
        if packet.None? {
          JobMarkDone(i, now);
          n, sent := 0, [];
        }
      }
    }
  }
}
