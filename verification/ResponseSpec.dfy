/** What the response scheduler of avahi-core/response-sched.c does to its three job lists, as
    functions of the state. Times are microseconds. */
module ResponseSpec {
  import opened Bytes
  import opened NameCodec
  import opened Records
  import opened RecordIdent

  const HISTORY: int := 500_000
  const SUPPRESS: int := 700_000

  type Address = nat

  datatype JobState = Scheduled | Done | Suppressed

  /** `due` is when the job's timer elapses; `querier` is the querier field when it is valid. */
  datatype Job = Job(state: JobState, record: Record, flush: bool, delivery: int, due: int, querier: Option<Address>)

  /** Local sends, and posts that replaced the history job `had` because they ask for more. */
  datatype Event = Sent(id: Ident, at: int) | Excused(id: Ident, at: int, asked: Record, flush: bool, had: Job)

  datatype State = State(jobs: seq<Job>, history: seq<Job>, suppressed: seq<Job>, log: seq<Event>)

  function Id(j: Job): Ident {
    IdentOf(j.record)
  }

  /** The position of the first job for `id`, or the length of the list. */
  function Find(list: seq<Job>, id: Ident): (i: nat)
    ensures i <= |list|
    ensures i < |list| ==> Id(list[i]) == id
    ensures forall k :: 0 <= k < i ==> Id(list[k]) != id
  {
    hide *;
    if list == [] || Id(list[0]) == id then 0 else 1 + Find(list[1..], id)
  }

  function FindFor(list: seq<Job>, id: Ident, querier: Address): (i: nat)
    ensures i <= |list|
    ensures i < |list| ==> Id(list[i]) == id && list[i].querier == Some(querier)
    ensures forall k :: 0 <= k < i ==> !(Id(list[k]) == id && list[k].querier == Some(querier))
  {
    hide *;
    if list == [] || (Id(list[0]) == id && list[0].querier == Some(querier)) then 0
    else 1 + FindFor(list[1..], id, querier)
  }

  function Drop(list: seq<Job>, i: nat): seq<Job>
    requires i < |list|
  {
    list[..i] + list[i + 1..]
  }

  predicate Goodbye(r: Record) {
    r.ttl == 0
  }

  /** find_history_job: an outdated job is dropped and counts as not found. Ages are compared in
      whole milliseconds. */
  function FreshHistory(s: State, id: Ident, now: int): State {
    var i := Find(s.history, id);
    if i < |s.history| && (now - s.history[i].delivery) / 1000 > HISTORY / 1000
    then s.(history := Drop(s.history, i)) else s
  }

  /** The position find_history_job returns, the length of the list when it returns NULL. */
  function HistoryAt(s: State, id: Ident, now: int): (i: nat)
    ensures i <= |FreshHistory(s, id, now).history|
  {
    if FreshHistory(s, id, now) == s then Find(s.history, id) else |FreshHistory(s, id, now).history|
  }

  /** find_suppressed_job. */
  function FreshSuppressed(s: State, id: Ident, querier: Address, now: int): State {
    var i := FindFor(s.suppressed, id, querier);
    if i < |s.suppressed| && now - s.suppressed[i].delivery > SUPPRESS
    then s.(suppressed := Drop(s.suppressed, i)) else s
  }

  function SuppressedAt(s: State, id: Ident, querier: Address, now: int): (i: nat)
    ensures i <= |FreshSuppressed(s, id, querier, now).suppressed|
  {
    if FreshSuppressed(s, id, querier, now) == s then FindFor(s.suppressed, id, querier)
    else |FreshSuppressed(s, id, querier, now).suppressed|
  }

  /** A job that answers for `record`: same goodbye status, and a TTL of at least half. */
  predicate Covers(j: Job, record: Record) {
    Goodbye(record) == Goodbye(j.record) && j.record.ttl >= record.ttl / 2
  }

  datatype Posted = Posted(state: State, accepted: bool)

  /** The last part of post: update the scheduled job, or schedule a new one. */
  function Schedule(s: State, record: Record, flush: bool, querier: Option<Address>, tv: int): State {
    var i := Find(s.jobs, IdentOf(record));
    if i < |s.jobs| then
      var j := s.jobs[i];
      var sooner := tv < j.delivery;
      var keep := querier.Some? && !(j.querier.Some? && querier != j.querier);
      s.(jobs := s.jobs[i := Job(j.state, record, flush || j.flush,
                                 if sooner then tv else j.delivery, if sooner then tv else j.due,
                                 if keep then j.querier else None)])
    else
      s.(jobs := [Job(Scheduled, record, flush, tv, tv, querier)] + s.jobs)
  }

  /** avahi_response_scheduler_post; `delay` is the time avahi_elapse_time adds. */
  function Post(s: State, record: Record, flush: bool, querier: Option<Address>, delay: int, now: int): Posted {
    var id := IdentOf(record);
    var s1 := if querier.Some? then FreshSuppressed(s, id, querier.value, now) else s;
    if querier.Some? && SuppressedAt(s, id, querier.value, now) < |s1.suppressed|
       && Covers(s1.suppressed[SuppressedAt(s, id, querier.value, now)], record) then
      Posted(s1, false)
    else
      var s2 := FreshHistory(s1, id, now);
      var i := HistoryAt(s1, id, now);
      if i == |s2.history| then
        Posted(Schedule(s2, record, flush, querier, now + delay), true)
      else if Covers(s2.history[i], record) && (s2.history[i].flush || !flush) then
        Posted(s2, false)
      else
        var s3 := s2.(history := Drop(s2.history, i), log := s2.log + [Excused(id, now, record, flush, s2.history[i])]);
        Posted(Schedule(s3, record, flush, querier, now + delay), true)
  }

  /** job_mark_done. */
  function MarkDone(s: State, i: nat, now: int): State
    requires i < |s.jobs|
  {
    s.(jobs := Drop(s.jobs, i),
       history := [s.jobs[i].(state := JobState.Done, delivery := now, due := now + HISTORY)] + s.history)
  }

  /** avahi_response_scheduler_incoming. */
  function Incoming(s: State, record: Record, flush: bool, now: int): State {
    var id := IdentOf(record);
    var i := Find(s.jobs, id);
    if i < |s.jobs| then
      var j := s.jobs[i];
      if (!j.flush || flush) && Goodbye(record) == Goodbye(j.record) && record.ttl >= j.record.ttl / 2
      then MarkDone(s, i, now) else s
    else
      var s1 := FreshHistory(s, id, now);
      var k := HistoryAt(s, id, now);
      if k < |s1.history| then
        s1.(history := s1.history[k := Job(s1.history[k].state, record, flush, now, now + HISTORY, None)])
      else
        s1.(history := [Job(JobState.Done, record, flush, now, now + HISTORY, None)] + s1.history)
  }

  /** avahi_response_scheduler_suppress. */
  function Suppress(s: State, record: Record, querier: Address, now: int): State {
    var id := IdentOf(record);
    var i := Find(s.jobs, id);
    var s1 := if i < |s.jobs| && s.jobs[i].querier == Some(querier) && Goodbye(record) == Goodbye(s.jobs[i].record)
                 && record.ttl >= s.jobs[i].record.ttl / 2
              then s.(jobs := Drop(s.jobs, i)) else s;
    var s2 := FreshSuppressed(s1, id, querier, now);
    var k := SuppressedAt(s1, id, querier, now);
    if k < |s2.suppressed| then
      s2.(suppressed := s2.suppressed[k := s2.suppressed[k].(record := record, delivery := now, due := now + SUPPRESS)])
    else
      s2.(suppressed := [Job(Suppressed, record, false, now, now + SUPPRESS, Some(querier))] + s2.suppressed)
  }

  /** elapse_callback of a job that is done or suppressed. */
  function DropHistory(s: State, i: nat): State
    requires i < |s.history|
  {
    s.(history := Drop(s.history, i))
  }

  function DropSuppressed(s: State, i: nat): State
    requires i < |s.suppressed|
  {
    s.(suppressed := Drop(s.suppressed, i))
  }

  /** Some job of the list is for `id`. */
  predicate Has(list: seq<Job>, id: Ident) {
    exists k :: 0 <= k < |list| && Id(list[k]) == id
  }

  lemma HasFind(list: seq<Job>, id: Ident)
    ensures Has(list, id) <==> Find(list, id) < |list|
  {
    hide Id;
  }

  /** Posting never drops a scheduled job. */
  lemma PostKeeps(s: State, record: Record, flush: bool, querier: Option<Address>, delay: int, now: int, id: Ident)
    requires Has(s.jobs, id)
    ensures Has(Post(s, record, flush, querier, delay, now).state.jobs, id)
  {
    hide IdentOf, Covers, Schedule, Has, Find, FindFor, Drop;
    ScheduleKeeps(s, record, flush, querier, now + delay, id);
  }

  lemma ScheduleKeeps(s: State, record: Record, flush: bool, querier: Option<Address>, tv: int, id: Ident)
    requires Has(s.jobs, id)
    ensures forall t: State :: t.jobs == s.jobs ==> Has(Schedule(t, record, flush, querier, tv).jobs, id)
  {
    hide IdentOf;
    var k :| 0 <= k < |s.jobs| && Id(s.jobs[k]) == id;
    forall t: State | t.jobs == s.jobs ensures Has(Schedule(t, record, flush, querier, tv).jobs, id) {
      var js := Schedule(t, record, flush, querier, tv).jobs;
      var i := Find(s.jobs, IdentOf(record));
      if i < |s.jobs| {
        assert Id(js[k]) == id;
      } else {
        assert js[k + 1] == s.jobs[k];
      }
    }
  }

  /** A record the server sends along with another one, its cache-flush bit, and the time
      avahi_elapse_time adds when it is posted. */
  datatype Aux = Aux(record: Record, flush: bool, delay: int)

  /** enumerate_aux_records_callback for each of them. */
  function PostAll(s: State, aux: seq<Aux>, querier: Option<Address>, now: int): State
    decreases |aux|
  {
    if aux == [] then s
    else PostAll(Post(s, aux[0].record, aux[0].flush, querier, aux[0].delay, now).state, aux[1..], querier, now)
  }

  lemma {:induction false} PostAllKeeps(s: State, aux: seq<Aux>, querier: Option<Address>, now: int, id: Ident)
    requires Has(s.jobs, id)
    ensures Has(PostAll(s, aux, querier, now).jobs, id)
    decreases |aux|
  {
    hide Post, Has;
    if aux != [] {
      PostKeeps(s, aux[0].record, aux[0].flush, querier, aux[0].delay, now, id);
      PostAllKeeps(Post(s, aux[0].record, aux[0].flush, querier, aux[0].delay, now).state, aux[1..], querier, now, id);
    }
  }

  /** The packet being filled: its bytes, its name table and its limit. */
  datatype Pack = Pack(data: seq<byte>, table: NameTable, limit: nat)

  datatype Added = Refused | Added(state: State, pack: Pack)

  /** The job at `i` was appended: its additional records are posted, and it is done. */
  function AfterAppend(s: State, i: nat, aux: seq<Aux>, now: int): State
    requires i < |s.jobs|
  {
    var j := s.jobs[i];
    var s1 := PostAll(s, aux, j.querier, now);
    PostAllKeeps(s, aux, j.querier, now, Id(j));
    HasFind(s1.jobs, Id(j));
    var s2 := MarkDone(s1, Find(s1.jobs, Id(j)), now);
    s2.(log := s2.log + [Sent(Id(j), now)])
  }

  /** packet_add_response_job for the job at `i`. */
  function AddJob(s: State, i: nat, p: Pack, aux: Record -> seq<Aux>, now: int): Added
    requires i < |s.jobs|
  {
    var j := s.jobs[i];
    match AppendRecord(j.record, j.flush, 0, p.table, |p.data|, p.limit)
    case Done(bytes, table) =>
      Added(AfterAppend(s, i, aux(j.record), now), Pack(p.data + bytes, table, p.limit))
    case _ => Refused
  }

  lemma AddJobGrows(s: State, i: nat, p: Pack, aux: Record -> seq<Aux>, now: int)
    requires i < |s.jobs| && AddJob(s, i, p, aux, now).Added?
    ensures var p' := AddJob(s, i, p, aux, now).pack; |p.data| < |p'.data| <= p'.limit == p.limit
  {
    hide AppendRecord, AfterAppend;
    AppendRecordWithin(s.jobs[i].record, s.jobs[i].flush, 0, p.table, |p.data|, p.limit);
  }

  /** What became of a response: the new state, the packet handed to the interface, and the jobs
      whose records it holds. */
  datatype Sending = Sending(state: State, packet: Option<Pack>, sent: seq<Job>)

  /** The loop of send_response_packet: the head of the list, as long as it fits. */
  function Fill(s: State, p: Pack, sent: seq<Job>, aux: Record -> seq<Aux>, now: int): Sending
    requires |p.data| <= p.limit
    decreases p.limit - |p.data|
  {
    if s.jobs == [] then Sending(s, Some(p), sent) else
    match AddJob(s, 0, p, aux, now)
    case Refused => Sending(s, Some(p), sent)
    case Added(s', p') =>
      AddJobGrows(s, 0, p, aux, now);
      Fill(s', p', sent + [s.jobs[0]], aux, now)
  }

  /** avahi_record_get_estimate_size. */
  function EstimateSize(r: Record): nat {
    |r.key.name| + 1 + 4 + 4 + 2 + DataEstimate(r.data)
  }

  function DataEstimate(d: RData): nat {
    match d
    case NameData(target) => |target| + 1
    case Srv(_, _, _, target) => 6 + |target| + 1
    case Hinfo(cpu, os) => |os| + 1 + |cpu| + 1
    case Txt(strings) => |TxtWire(strings)|
    case Address4(_) => 4
    case Address6(_) => 16
    case Generic(bytes) => |bytes|
  }

  function Empty(limit: nat): (p: Pack)
    requires limit >= HEADER_SIZE
    ensures |p.data| == HEADER_SIZE && p.limit == limit
  {
    Pack(seq(HEADER_SIZE, _ => 0), map[], limit)
  }

  /** send_response_packet for the job at `i`: with the other jobs that fit, or alone in a larger
      packet, or marked done without being sent. */
  function Send(s: State, i: nat, limit: nat, aux: Record -> seq<Aux>, now: int): Sending
    requires i < |s.jobs| && limit >= HEADER_SIZE
  {
    match AddJob(s, i, Empty(limit), aux, now)
    case Added(s', p) =>
      AddJobGrows(s, i, Empty(limit), aux, now);
      Fill(s', p, [s.jobs[i]], aux, now)
    case Refused =>
      match AddJob(s, i, Empty(HEADER_SIZE + EstimateSize(s.jobs[i].record)), aux, now)
      case Added(s', p) => Sending(s', Some(p), [s.jobs[i]])
      case Refused => Sending(MarkDone(s, i, now), None, [])
  }
}
