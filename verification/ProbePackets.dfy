/** What a packet of probes holds (packet_add_probe_query and elapse_callback in
    avahi-core/probe-sched.c): questions first, with room kept for the records, then the records
    that were chosen. */
module ProbePackets {
  import opened Bytes
  import opened Labels
  import opened NameCodec
  import opened NameDecoder
  import opened NameRollback
  import opened Domain
  import opened Records
  import opened RecordIdent
  import opened RecordSession
  import opened KnownAnswers
  import opened ResponseSpec
  import opened QueryScheduler
  import JL = JobLists

  type ProbeJob = JL.Job<Record, Ident>

  /** avahi_key_get_estimate_size; a byte short for a name that is not compressed. */
  function KeyEstimate(k: Key): nat {
    |k.name| + 1 + 4
  }

  /** The question that asks for everything with the name of the record. */
  function ProbeKey(r: Record): Key {
    Key(r.key.name, r.key.clazz, TYPE_ANY)
  }

  predicate Asked(q: Key, r: Record) {
    q.kind == TYPE_ANY && q.clazz == r.key.clazz && FoldName(q.name) == FoldName(r.key.name)
  }

  /** Names as they are in records: every label unescapes and none is empty. */
  predicate Writable(name: seq<byte>) {
    LabelsOf(name).Some? && NoEmpty(LabelsOf(name).value)
  }

  // ---------- the packet while it is filled ----------

  /** What is in the packet, and the room kept for records to come. */
  datatype Draft = Draft(p: Session, reserved: nat)

  /** avahi_dns_packet_reserved_space. */
  function Space(d: Draft, limit: nat): int {
    limit - |d.p.data| - d.reserved
  }

  /** avahi_dns_packet_reserve_size, which reserves nothing when there is not that much room. */
  function Reserve(d: Draft, n: nat, limit: nat): Draft {
    if |d.p.data| + d.reserved + n <= limit then d.(reserved := d.reserved + n) else d
  }

  /** The packet, and the jobs whose records are to go into it. */
  datatype Choice = Choice(d: Draft, chosen: seq<bool>)

  /** The first test of packet_add_probe_query. */
  predicate HasRoom(r: Record, d: Draft, limit: nat) {
    KeyEstimate(r.key) + EstimateSize(r) <= Space(d, limit)
  }

  /** The loop of packet_add_probe_query from job j on: the jobs the question asks for, up to the
      first that no room can be kept for. */
  function ChooseFrom(jobs: seq<ProbeJob>, c: Choice, k: Key, j: nat, limit: nat): (r: Choice)
    requires |c.chosen| == |jobs| && j <= |jobs|
    ensures |r.chosen| == |jobs|
    decreases |jobs| - j
  {
    if j == |jobs| then c
    else if c.chosen[j] || !Asked(k, jobs[j].item) then ChooseFrom(jobs, c, k, j + 1, limit)
    else if EstimateSize(jobs[j].item) > Space(c.d, limit) then c
    else ChooseFrom(jobs, Mark(jobs, c, j, limit), k, j + 1, limit)
  }

  /** Job j is chosen, and room is kept for its record. */
  function Mark(jobs: seq<ProbeJob>, c: Choice, j: nat, limit: nat): (r: Choice)
    requires |c.chosen| == |jobs| && j < |jobs|
    ensures |r.chosen| == |jobs|
  {
    Choice(Reserve(c.d, EstimateSize(jobs[j].item), limit), c.chosen[j := true])
  }

  /** packet_add_probe_query for a job there is room for. */
  function AddQuery(jobs: seq<ProbeJob>, c: Choice, at: nat, limit: nat): (r: Choice)
    requires |c.chosen| == |jobs| && at < |jobs|
    ensures |r.chosen| == |jobs|
  {
    var k := ProbeKey(jobs[at].item);
    ChooseFrom(jobs, Mark(jobs, Ask1(c, k, limit), at, limit), k, 0, limit)
  }

  function Ask1(c: Choice, k: Key, limit: nat): Choice {
    c.(d := c.d.(p := Ask(c.d.p, k, limit)))
  }

  datatype Asking = Asking(c: Choice, qs: seq<Key>)

  /** The second loop of elapse_callback from job j on: more questions while there is room. */
  function AskMore(jobs: seq<ProbeJob>, a: Asking, j: nat, limit: nat): (r: Asking)
    requires |a.c.chosen| == |jobs| && j <= |jobs|
    ensures |r.c.chosen| == |jobs|
    decreases |jobs| - j
  {
    if j == |jobs| then a
    else if a.c.chosen[j] then AskMore(jobs, a, j + 1, limit)
    else if !HasRoom(jobs[j].item, a.c.d, limit) then a
    else AskMore(jobs, AskOne(jobs, a, j, limit), j + 1, limit)
  }

  function AskOne(jobs: seq<ProbeJob>, a: Asking, j: nat, limit: nat): (r: Asking)
    requires |a.c.chosen| == |jobs| && j < |jobs|
    ensures |r.c.chosen| == |jobs|
  {
    Asking(AddQuery(jobs, a.c, j, limit), a.qs + [ProbeKey(jobs[j].item)])
  }

  function Blank(jobs: seq<ProbeJob>): (a: Asking)
    ensures |a.c.chosen| == |jobs|
  {
    Asking(Choice(Draft(FreshSession(), 0), seq(|jobs|, _ => false)), [])
  }

  /** The questions of the packet for the due job i, and the choice that comes with them. */
  function Assembled(jobs: seq<ProbeJob>, i: nat, limit: nat): (a: Asking)
    requires i < |jobs|
    ensures |a.c.chosen| == |jobs|
  {
    AskMore(jobs, AskOne(jobs, Blank(jobs), i, limit), 0, limit)
  }

  /** The packet with its records, the jobs they belong to, and the jobs left. */
  datatype Taken = Taken(p: Session, done: seq<ProbeJob>, left: seq<ProbeJob>)

  predicate RecordFits(p: Session, r: Record, limit: nat) {
    AppendRecord(r, false, 0, p.table, |p.data|, limit).Done?
  }

  function AddRecord(p: Session, r: Record, limit: nat): Session {
    Step(p, Attempt(r, false, 0), limit)
  }

  /** The third loop: the chosen records in list order, up to the first that does not fit. */
  function Take(jobs: seq<ProbeJob>, chosen: seq<bool>, p: Session, limit: nat): Taken
    requires |jobs| == |chosen|
  {
    if jobs == [] then Taken(p, [], [])
    else if !chosen[0] then Skipped(jobs[0], Take(jobs[1..], chosen[1..], p, limit))
    else if !RecordFits(p, jobs[0].item, limit) then Taken(p, [], jobs)
    else Sent(jobs[0], Take(jobs[1..], chosen[1..], AddRecord(p, jobs[0].item, limit), limit))
  }

  function Skipped(j: ProbeJob, t: Taken): Taken {
    t.(left := [j] + t.left)
  }

  function Sent(j: ProbeJob, t: Taken): Taken {
    t.(done := [j] + t.done)
  }

  /** The packet for the due job i. */
  function ProbePacket(jobs: seq<ProbeJob>, i: nat, limit: nat): Taken
    requires i < |jobs|
  {
    var a := Assembled(jobs, i, limit);
    Take(jobs, a.c.chosen, a.c.d.p, limit)
  }

  /** The records of jobs. */
  function RecordsOf(jobs: seq<ProbeJob>): (rs: seq<Record>)
    ensures |rs| == |jobs| && forall i :: 0 <= i < |jobs| ==> rs[i] == jobs[i].item
  {
    seq(|jobs|, i requires 0 <= i < |jobs| => jobs[i].item)
  }

  // ---------- what is asked and chosen ----------

  /** Every chosen record is asked for by one of the questions. */
  ghost predicate AllAsked(jobs: seq<ProbeJob>, chosen: seq<bool>, qs: seq<Key>)
    requires |jobs| == |chosen|
  {
    forall i :: 0 <= i < |jobs| && chosen[i] ==> AskedBy(qs, jobs[i].item)
  }

  ghost predicate AskedBy(qs: seq<Key>, r: Record) {
    exists q :: 0 <= q < |qs| && Asked(qs[q], r)
  }

  /** The room the chosen records need by their estimates. */
  function Budget(jobs: seq<ProbeJob>, chosen: seq<bool>): nat
    requires |jobs| == |chosen|
  {
    if jobs == [] then 0 else (if chosen[0] then EstimateSize(jobs[0].item) else 0) + Budget(jobs[1..], chosen[1..])
  }

  lemma {:induction false} BudgetMark(jobs: seq<ProbeJob>, chosen: seq<bool>, j: nat)
    requires |jobs| == |chosen| && j < |jobs| && !chosen[j]
    ensures Budget(jobs, chosen[j := true]) == Budget(jobs, chosen) + EstimateSize(jobs[j].item)
    decreases j
  {
    hide EstimateSize;
    var now := chosen[j := true];
    if j == 0 {
      assert now[1..] == chosen[1..];
    } else {
      assert now[1..] == chosen[1..][j - 1 := true];
      BudgetMark(jobs[1..], chosen[1..], j - 1);
    }
  }

  /** The loop chooses only jobs that are asked for, keeps room for each, and stops early only at
      a job that no room can be kept for. */
  ghost predicate Chose(jobs: seq<ProbeJob>, c: Choice, k: Key, j: nat, limit: nat, r: Choice)
    requires |c.chosen| == |jobs| == |r.chosen|
  {
    && r.d.p == c.d.p && Space(r.d, limit) >= 0
    && r.d.reserved - Budget(jobs, r.chosen) == c.d.reserved - Budget(jobs, c.chosen)
    && (forall i :: 0 <= i < |jobs| && c.chosen[i] ==> r.chosen[i])
    && (forall i :: 0 <= i < |jobs| && r.chosen[i] && !c.chosen[i] ==> i >= j && Asked(k, jobs[i].item))
    && Stops(jobs, k, j, limit, r)
  }

  ghost predicate Stops(jobs: seq<ProbeJob>, k: Key, j: nat, limit: nat, r: Choice)
    requires |r.chosen| == |jobs|
  {
    exists stop: nat :: StopsAt(jobs, k, j, limit, r, stop)
  }

  ghost predicate StopsAt(jobs: seq<ProbeJob>, k: Key, j: nat, limit: nat, r: Choice, stop: nat)
    requires |r.chosen| == |jobs|
  {
    && stop <= |jobs| && (forall i :: j <= i < stop && Asked(k, jobs[i].item) ==> r.chosen[i])
    && (stop < |jobs| ==> !r.chosen[stop] && Asked(k, jobs[stop].item) && EstimateSize(jobs[stop].item) > Space(r.d, limit))
  }

  lemma {:induction false} ChooseFromIs(jobs: seq<ProbeJob>, c: Choice, k: Key, j: nat, limit: nat)
    requires |c.chosen| == |jobs| && j <= |jobs| && Space(c.d, limit) >= 0
    ensures Chose(jobs, c, k, j, limit, ChooseFrom(jobs, c, k, j, limit))
    decreases |jobs| - j
  {
    hide EstimateSize, Asked, Budget;
    var r := ChooseFrom(jobs, c, k, j, limit);
    if j == |jobs| {
      assert StopsAt(jobs, k, j, limit, r, j);
    } else if c.chosen[j] || !Asked(k, jobs[j].item) {
      ChooseFromIs(jobs, c, k, j + 1, limit);
      StopsEarlier(jobs, k, j, limit, r);
    } else if EstimateSize(jobs[j].item) > Space(c.d, limit) {
      assert StopsAt(jobs, k, j, limit, r, j);
    } else {
      BudgetMark(jobs, c.chosen, j);
      ChooseFromIs(jobs, Mark(jobs, c, j, limit), k, j + 1, limit);
      StopsEarlier(jobs, k, j, limit, r);
    }
  }

  lemma StopsEarlier(jobs: seq<ProbeJob>, k: Key, j: nat, limit: nat, r: Choice)
    requires |r.chosen| == |jobs| && j < |jobs| && (Asked(k, jobs[j].item) ==> r.chosen[j])
    requires Stops(jobs, k, j + 1, limit, r)
    ensures Stops(jobs, k, j, limit, r)
  {
    hide EstimateSize, Asked, Space;
    var stop: nat :| StopsAt(jobs, k, j + 1, limit, r, stop);
    assert StopsAt(jobs, k, j, limit, r, stop);
  }

  /** A name takes at most two bytes more on the wire than as text. */
  lemma {:induction false} NameFits(name: seq<byte>, table: NameTable, size: nat, limit: nat)
    requires Writable(name) && size + |name| + (if name == [] then 1 else 2) <= limit
    ensures Append(name, table, size, limit).Done?
    ensures |Append(name, table, size, limit).bytes| <= |name| + if name == [] then 1 else 2
    decreases |name|
  {
    hide Unescape, LabelsOf, NoEmpty, Writable, Remember;
    if name != [] && !Compresses(name, table) {
      var u := Unescape(name, LABEL_MAX);
      Shorter(name);
      NameFits(u.rest, Remember(table, name, size), size + |u.head| + 1, limit);
    }
  }

  /** What is left of a name behind its first label is shorter by that label and a dot. */
  lemma Shorter(name: seq<byte>)
    requires name != [] && Writable(name)
    ensures var u := Unescape(name, LABEL_MAX);
            u.Split? && Writable(u.rest) && |u.head| + |u.rest| + (if u.rest == [] then 0 else 1) <= |name|
  {
    var u := Unescape(name, LABEL_MAX);
    ScanShrinks(name, LABEL_MAX);
    hide Unescape, Scan;
    var ls := LabelsOf(name).value;
    assert ls == [u.head] + LabelsOf(u.rest).value;
    assert ls[1..] == LabelsOf(u.rest).value;
    assert forall i :: 0 <= i < |ls| - 1 ==> ls[1..][i] == ls[i + 1];
  }

  lemma {:induction false} ScanShrinks(s: seq<byte>, room: nat)
    requires Scan(s, room).Split?
    ensures |Scan(s, room).head| + |Scan(s, room).rest| + (if Scan(s, room).rest == [] then 0 else 1) <= |s|
    decreases room
  {
    match Next(s) {
      case Byte(b, n) => ScanShrinks(s[n..], room - 1);
      case _ =>
    }
  }

  /** The estimates fill the packet to the last byte, and the question takes the byte more that its
      estimate does not count. */
  predicate Brimful(r: Record, d: Draft, limit: nat) {
    && Space(d, limit) == KeyEstimate(r.key) + EstimateSize(r)
    && |Ask(d.p, ProbeKey(r), limit).data| - |d.p.data| == KeyEstimate(r.key) + 1
  }

  /** The assertion of packet_add_probe_query: where the estimates find room, the question fits.
      Room for the record is then kept exactly if the packet was not brimful. */
  lemma QuestionHasRoom(d: Draft, r: Record, limit: nat)
    requires Writable(r.key.name) && HasRoom(r, d, limit)
    ensures QuestionFits(d.p, ProbeKey(r), limit)
    ensures var q := d.(p := Ask(d.p, ProbeKey(r), limit));
            && Space(q, limit) >= 0 && |q.p.data| - |d.p.data| <= KeyEstimate(r.key) + 1
            && Reserve(q, EstimateSize(r), limit).reserved == d.reserved + if Brimful(r, d, limit) then 0 else EstimateSize(r)
  {
    hide LabelsOf, Append;
    NameFits(r.key.name, d.p.table, |d.p.data|, limit);
    EstimateAtLeast(r);
  }

  lemma EstimateAtLeast(r: Record)
    ensures EstimateSize(r) >= |r.key.name| + 11
  {
  }

  /** One question: the due or another unchosen job is chosen, and others with it. */
  lemma AddQueryIs(jobs: seq<ProbeJob>, c: Choice, at: nat, limit: nat)
    requires |c.chosen| == |jobs| && at < |jobs| && !c.chosen[at]
    requires Writable(jobs[at].item.key.name) && HasRoom(jobs[at].item, c.d, limit)
    ensures var k, r := ProbeKey(jobs[at].item), AddQuery(jobs, c, at, limit);
            && Chose(jobs, Mark(jobs, Ask1(c, k, limit), at, limit), k, 0, limit, r)
            && QuestionFits(c.d.p, k, limit) && Space(r.d, limit) >= 0 && r.d.p == Ask(c.d.p, k, limit) && r.chosen[at]
            && (forall i :: 0 <= i < |jobs| && c.chosen[i] ==> r.chosen[i])
            && (forall i :: 0 <= i < |jobs| && r.chosen[i] && !c.chosen[i] ==> Asked(k, jobs[i].item))
            && r.d.reserved - Budget(jobs, r.chosen) <= c.d.reserved - Budget(jobs, c.chosen)
  {
    var k := ProbeKey(jobs[at].item);
    QuestionHasRoom(c.d, jobs[at].item, limit);
    BudgetMark(jobs, c.chosen, at);
    var m := Mark(jobs, Ask1(c, k, limit), at, limit);
    hide EstimateSize, FoldName, Ask, QuestionFits, Writable, Budget, ChooseFrom, Stops;
    ChooseFromIs(jobs, m, k, 0, limit);
  }

  /** No room is left for another question: every job before some place is chosen, and the job at
      that place, if there is one, is too large. */
  ghost predicate FullUp(jobs: seq<ProbeJob>, c: Choice, limit: nat)
    requires |c.chosen| == |jobs|
  {
    exists stop: nat :: FullAt(jobs, c, limit, stop)
  }

  ghost predicate FullAt(jobs: seq<ProbeJob>, c: Choice, limit: nat, stop: nat)
    requires |c.chosen| == |jobs|
  {
    && stop <= |jobs| && (forall i :: 0 <= i < stop ==> c.chosen[i])
    && (stop < |jobs| ==> !c.chosen[stop] && !HasRoom(jobs[stop].item, c.d, limit))
  }

  /** The packet holds the questions and no record yet, the room kept is not more than the chosen
      records may need, and each of them is asked for. */
  ghost predicate Assembling(jobs: seq<ProbeJob>, a: Asking, limit: nat)
    requires |a.c.chosen| == |jobs|
  {
    && a.c.d.p == AskAll(FreshSession(), a.qs, limit) && Space(a.c.d, limit) >= 0
    && AllAsked(jobs, a.c.chosen, a.qs) && a.c.d.reserved <= Budget(jobs, a.c.chosen)
  }

  ghost predicate AllWritable(jobs: seq<ProbeJob>) {
    forall i :: 0 <= i < |jobs| ==> Writable(jobs[i].item.key.name)
  }

  lemma AskedToo(jobs: seq<ProbeJob>, chosen: seq<bool>, now: seq<bool>, qs: seq<Key>, k: Key)
    requires |jobs| == |chosen| == |now| && AllAsked(jobs, chosen, qs)
    requires forall i :: 0 <= i < |jobs| && now[i] && !chosen[i] ==> Asked(k, jobs[i].item)
    ensures AllAsked(jobs, now, qs + [k])
  {
    hide Asked;
    var all := qs + [k];
    assert all[|qs|] == k;
    forall i | 0 <= i < |jobs| && now[i] ensures AskedBy(all, jobs[i].item) {
      if chosen[i] {
        var q :| 0 <= q < |qs| && Asked(qs[q], jobs[i].item);
        assert all[q] == qs[q];
      }
    }
  }

  lemma AskOneIs(jobs: seq<ProbeJob>, a: Asking, j: nat, limit: nat)
    requires |a.c.chosen| == |jobs| && j < |jobs| && !a.c.chosen[j] && AllWritable(jobs)
    requires Assembling(jobs, a, limit) && HasRoom(jobs[j].item, a.c.d, limit)
    ensures var r := AskOne(jobs, a, j, limit);
            && Assembling(jobs, r, limit) && r.c.chosen[j] && a.qs <= r.qs && QuestionFits(a.c.d.p, ProbeKey(jobs[j].item), limit)
            && (forall i :: 0 <= i < |jobs| && a.c.chosen[i] ==> r.c.chosen[i])
  {
    hide Chose, FoldName, Ask, QuestionFits, AllAsked, Budget, Asked, FreshSession, Writable, AddQuery, AskAll;
    AddQueryIs(jobs, a.c, j, limit);
    AskSnoc(FreshSession(), a.qs, ProbeKey(jobs[j].item), _ => [], limit);
    AskedToo(jobs, a.c.chosen, AskOne(jobs, a, j, limit).c.chosen, a.qs, ProbeKey(jobs[j].item));
  }

  lemma {:induction false} AskMoreIs(jobs: seq<ProbeJob>, a: Asking, j: nat, limit: nat)
    requires |a.c.chosen| == |jobs| && j <= |jobs| && AllWritable(jobs) && Assembling(jobs, a, limit)
    requires forall i :: 0 <= i < j ==> a.c.chosen[i]
    ensures var r := AskMore(jobs, a, j, limit);
            && Assembling(jobs, r, limit) && a.qs <= r.qs && FullUp(jobs, r.c, limit)
            && (forall i :: 0 <= i < |jobs| && a.c.chosen[i] ==> r.c.chosen[i])
    decreases |jobs| - j
  {
    hide Assembling, AllWritable, HasRoom, AskOne, FullUp;
    var r := AskMore(jobs, a, j, limit);
    if j == |jobs| || (!a.c.chosen[j] && !HasRoom(jobs[j].item, a.c.d, limit)) {
      FullHere(jobs, r.c, limit, j);
    } else if a.c.chosen[j] {
      AskMoreIs(jobs, a, j + 1, limit);
    } else {
      AskOneIs(jobs, a, j, limit);
      AskMoreIs(jobs, AskOne(jobs, a, j, limit), j + 1, limit);
    }
  }

  lemma FullHere(jobs: seq<ProbeJob>, c: Choice, limit: nat, j: nat)
    requires |c.chosen| == |jobs| && j <= |jobs| && (forall i :: 0 <= i < j ==> c.chosen[i])
    requires j < |jobs| ==> !c.chosen[j] && !HasRoom(jobs[j].item, c.d, limit)
    ensures FullUp(jobs, c, limit)
  {
    hide HasRoom;
    assert FullAt(jobs, c, limit, j);
  }

  /** The packet for a due job that there is room for asks for it first; every chosen record is
      asked for; and asking stops only when there is no room for the next question. */
  lemma AssembledIs(jobs: seq<ProbeJob>, i: nat, limit: nat)
    requires i < |jobs| && limit >= HEADER_SIZE && AllWritable(jobs) && HasRoom(jobs[i].item, Draft(FreshSession(), 0), limit)
    ensures var a := Assembled(jobs, i, limit);
            && a.qs != [] && a.qs[0] == ProbeKey(jobs[i].item) && a.c.chosen[i]
            && Assembling(jobs, a, limit) && FullUp(jobs, a.c, limit)
  {
    hide Assembling, HasRoom, AllWritable, FullUp, AskOne;
    BlankIs(jobs, limit);
    AskOneIs(jobs, Blank(jobs), i, limit);
    AskMoreIs(jobs, AskOne(jobs, Blank(jobs), i, limit), 0, limit);
    OneQuestion(jobs, i, limit);
  }

  lemma OneQuestion(jobs: seq<ProbeJob>, i: nat, limit: nat)
    requires i < |jobs|
    ensures AskOne(jobs, Blank(jobs), i, limit).qs == [ProbeKey(jobs[i].item)]
  {
    hide AddQuery;
    assert [] + [ProbeKey(jobs[i].item)] == [ProbeKey(jobs[i].item)];
  }

  lemma BlankIs(jobs: seq<ProbeJob>, limit: nat)
    requires limit >= HEADER_SIZE
    ensures Assembling(jobs, Blank(jobs), limit) && Blank(jobs).c.d == Draft(FreshSession(), 0)
    ensures forall i :: 0 <= i < |jobs| ==> !Blank(jobs).c.chosen[i]
  {
  }

  // ---------- what is sent ----------

  /** The chosen jobs in list order. */
  function Picked(jobs: seq<ProbeJob>, chosen: seq<bool>): (js: seq<ProbeJob>)
    requires |jobs| == |chosen|
    ensures |js| <= |jobs|
  {
    if jobs == [] then [] else (if chosen[0] then [jobs[0]] else []) + Picked(jobs[1..], chosen[1..])
  }

  /** The jobs without the first n chosen ones. */
  function Without(jobs: seq<ProbeJob>, chosen: seq<bool>, n: nat): seq<ProbeJob>
    requires |jobs| == |chosen|
  {
    if n == 0 || jobs == [] then jobs
    else if chosen[0] then Without(jobs[1..], chosen[1..], n - 1)
    else [jobs[0]] + Without(jobs[1..], chosen[1..], n)
  }

  function Probes(rs: seq<Record>): (ts: seq<Attempt>)
    ensures |ts| == |rs|
  {
    seq(|rs|, i requires 0 <= i < |rs| => Attempt(rs[i], false, 0))
  }

  /** The chosen records go out in list order, up to the first that does not fit behind the
      others; exactly their jobs leave the list. */
  lemma {:induction false} TakeIs(jobs: seq<ProbeJob>, chosen: seq<bool>, p: Session, limit: nat)
    requires |jobs| == |chosen|
    ensures var t, js := Take(jobs, chosen, p, limit), Picked(jobs, chosen);
            && t.done <= js && t.left == Without(jobs, chosen, |t.done|)
            && t.p == Run(p, Probes(RecordsOf(t.done)), limit) && |t.p.accepted| == |p.accepted| + |t.done|
            && (|t.done| < |js| ==> !RecordFits(t.p, js[|t.done|].item, limit))
  {
    hide AppendRecord;
    if jobs != [] {
      var next := if chosen[0] then AddRecord(p, jobs[0].item, limit) else p;
      var js := Picked(jobs[1..], chosen[1..]);
      TakeIs(jobs[1..], chosen[1..], next, limit);
      NoProbes(p, limit);
      if !chosen[0] {
        assert [] + js == js;
        WithoutNone(jobs, chosen);
      } else if RecordFits(p, jobs[0].item, limit) {
        ProbesCons(jobs[0], Take(jobs[1..], chosen[1..], next, limit).done, p, limit);
        assert ([jobs[0]] + js)[1..] == js;
      }
    }
  }

  lemma NoProbes(p: Session, limit: nat)
    ensures Run(p, Probes(RecordsOf([])), limit) == p
  {
  }

  lemma WithoutNone(jobs: seq<ProbeJob>, chosen: seq<bool>)
    requires |jobs| == |chosen| && jobs != []
    ensures Without(jobs, chosen, 0) == [jobs[0]] + Without(jobs[1..], chosen[1..], 0)
  {
  }

  lemma ProbesCons(j: ProbeJob, done: seq<ProbeJob>, p: Session, limit: nat)
    ensures Run(p, Probes(RecordsOf([j] + done)), limit) == Run(AddRecord(p, j.item, limit), Probes(RecordsOf(done)), limit)
  {
    hide Step;
    var ts := Probes(RecordsOf([j] + done));
    assert ts[0] == Attempt(j.item, false, 0) && ts[1..] == Probes(RecordsOf(done));
  }

  lemma {:induction false} PickedChosen(jobs: seq<ProbeJob>, chosen: seq<bool>, i: nat)
    requires |jobs| == |chosen| && i < |jobs|
    ensures chosen[i] ==> jobs[i] in Picked(jobs, chosen)
  {
    if i > 0 {
      PickedChosen(jobs[1..], chosen[1..], i - 1);
    }
  }

  lemma {:induction false} PickedFrom(jobs: seq<ProbeJob>, chosen: seq<bool>, j: ProbeJob)
    requires |jobs| == |chosen| && j in Picked(jobs, chosen)
    ensures exists i :: 0 <= i < |jobs| && chosen[i] && jobs[i] == j
  {
    if !(chosen[0] && j == jobs[0]) {
      PickedFrom(jobs[1..], chosen[1..], j);
      var i :| 0 <= i < |jobs| - 1 && chosen[1..][i] && jobs[1..][i] == j;
      assert chosen[i + 1] && jobs[i + 1] == j;
    }
  }

  /** No job is lost and none is added. */
  lemma {:induction false} TakeConserves(jobs: seq<ProbeJob>, chosen: seq<bool>, p: Session, limit: nat)
    requires |jobs| == |chosen|
    ensures var t := Take(jobs, chosen, p, limit); multiset(t.done) + multiset(t.left) == multiset(jobs)
  {
    hide AppendRecord, Step;
    if jobs != [] {
      TakeConserves(jobs[1..], chosen[1..], p, limit);
      TakeConserves(jobs[1..], chosen[1..], AddRecord(p, jobs[0].item, limit), limit);
      assert [jobs[0]] + jobs[1..] == jobs;
    }
  }

  /** Every record sent is asked for by one of the questions. */
  ghost predicate Covered(qs: seq<Key>, js: seq<ProbeJob>) {
    forall i :: 0 <= i < |js| ==> AskedBy(qs, js[i].item)
  }

  lemma CoveredPrefix(qs: seq<Key>, js: seq<ProbeJob>, all: seq<ProbeJob>)
    requires js <= all && Covered(qs, all)
    ensures Covered(qs, js)
    ensures js != all ==> |js| < |all|
  {
    hide AskedBy;
    assert forall n :: 0 <= n < |js| ==> js[n] == all[n];
  }

  lemma PickedCovered(jobs: seq<ProbeJob>, chosen: seq<bool>, qs: seq<Key>)
    requires |jobs| == |chosen| && AllAsked(jobs, chosen, qs)
    ensures Covered(qs, Picked(jobs, chosen))
  {
    hide AskedBy;
    var js := Picked(jobs, chosen);
    forall n | 0 <= n < |js| ensures AskedBy(qs, js[n].item) {
      PickedFrom(jobs, chosen, js[n]);
    }
  }

  // ---------- when everything chosen is sent ----------

  ghost predicate Below(table: NameTable) {
    forall n :: n in table ==> table[n] < OFFSET_LIMIT
  }

  ghost predicate Extends(table: NameTable, now: NameTable) {
    forall n :: n in table ==> n in now && now[n] == table[n]
  }

  /** While offsets stay below 0x4000, a name that was appended can be pointed at. */
  lemma {:induction false} AppendKnows(name: seq<byte>, table: NameTable, size: nat, limit: nat)
    requires Append(name, table, size, limit).Done? && limit <= OFFSET_LIMIT && Below(table)
    ensures var now := Append(name, table, size, limit).table;
            Below(now) && Extends(table, now) && (name != [] ==> Compresses(name, now))
    decreases |name|
  {
    hide Unescape;
    if name != [] && !Compresses(name, table) {
      var u := Unescape(name, LABEL_MAX);
      AppendKnows(u.rest, Remember(table, name, size), size + |u.head| + 1, limit);
    }
  }

  lemma DataKnows(d: RData, table: NameTable, size: nat, limit: nat)
    requires AppendData(d, table, size, limit).Done? && limit <= OFFSET_LIMIT && Below(table)
    ensures var now := AppendData(d, table, size, limit).table; Below(now) && Extends(table, now)
  {
    hide Append, Below, Extends, StringWire, TxtWire;
    KnowsItself(table);
    match d {
      case NameData(target) => AppendKnows(target, table, size, limit);
      case Srv(_, _, _, target) => AppendKnows(target, table, size + 6, limit);
      case _ =>
    }
  }

  lemma KnowsItself(table: NameTable)
    ensures Extends(table, table)
  {
  }

  lemma ExtendsTrans(a: NameTable, b: NameTable, c: NameTable)
    requires Extends(a, b) && Extends(b, c)
    ensures Extends(a, c)
  {
  }

  lemma RecordKnows(r: Record, table: NameTable, size: nat, limit: nat)
    requires AppendRecord(r, false, 0, table, size, limit).Done? && limit <= OFFSET_LIMIT && Below(table)
    ensures var now := AppendRecord(r, false, 0, table, size, limit).table; Below(now) && Extends(table, now)
  {
    hide Append, AppendData, Below, Extends, Fields;
    var n := Append(r.key.name, table, size, limit);
    AppendKnows(r.key.name, table, size, limit);
    DataKnows(r.data, n.table, size + |n.bytes| + 10, limit);
    ExtendsTrans(table, n.table, AppendRecord(r, false, 0, table, size, limit).table);
  }

  /** A record whose estimate makes up for what it leaves out: a name in its data may take one
      byte more than estimated, and the pointer to its own name saves as much when that name has
      two characters at least. */
  predicate Roomy(r: Record) {
    Writable(r.key.name) && (r.data.NameData? || r.data.Srv? ==> Writable(r.data.target) && |r.key.name| >= 2)
  }

  predicate Pointed(r: Record, table: NameTable) {
    r.key.name == [] || Compresses(r.key.name, table)
  }

  lemma DataFits(r: Record, table: NameTable, size: nat, limit: nat)
    requires Typed(r.key.kind, r.data) && (r.data.NameData? || r.data.Srv? ==> Writable(r.data.target))
    requires size + DataEstimate(r.data) + (if r.data.NameData? || r.data.Srv? then 1 else 0) <= limit
    ensures AppendData(r.data, table, size, limit).Done?
    ensures |AppendData(r.data, table, size, limit).bytes|
         <= DataEstimate(r.data) + if r.data.NameData? || r.data.Srv? then 1 else 0
  {
    hide Append, TxtWire, LabelsOf, NoEmpty, Writable;
    match r.data {
      case NameData(target) => NameFits(target, table, size, limit);
      case Srv(p, w, q, target) =>
        NameFits(target, table, size + 6, limit);
        SixLong(p, w, q);
      case _ =>
    }
  }

  lemma SixLong(p: uint16, w: uint16, q: uint16)
    ensures |Be16(p) + Be16(w) + Be16(q)| == 6
  {
  }

  /** What a record takes at most when its name can be pointed at. */
  function PointedNeed(r: Record): nat {
    (if r.key.name == [] then 11 else 12) + DataEstimate(r.data) + if r.data.NameData? || r.data.Srv? then 1 else 0
  }

  lemma PointedFits(r: Record, table: NameTable, size: nat, limit: nat)
    requires Pointed(r, table) && Typed(r.key.kind, r.data) && size + PointedNeed(r) <= limit
    requires r.data.NameData? || r.data.Srv? ==> Writable(r.data.target)
    ensures AppendRecord(r, false, 0, table, size, limit).Done?
    ensures |AppendRecord(r, false, 0, table, size, limit).bytes| <= PointedNeed(r)
  {
    hide Append, AppendData, DataEstimate, Typed, Writable, Pointed, Fields, Compresses;
    PointedName(r, table, size, limit);
    var n := Append(r.key.name, table, size, limit);
    DataFits(r, n.table, size + |n.bytes| + 10, limit);
  }

  lemma RoomyNeed(r: Record)
    requires Roomy(r)
    ensures PointedNeed(r) <= EstimateSize(r)
    ensures r.data.NameData? || r.data.Srv? ==> Writable(r.data.target)
  {
    hide DataEstimate, Writable;
  }

  lemma PointedName(r: Record, table: NameTable, size: nat, limit: nat)
    requires Pointed(r, table) && size + 2 <= limit
    ensures var n := Append(r.key.name, table, size, limit);
            n.Done? && |n.bytes| == (if r.key.name == [] then 1 else 2)
  {
  }

  ghost predicate Fitting(jobs: seq<ProbeJob>, chosen: seq<bool>, table: NameTable)
    requires |jobs| == |chosen|
  {
    forall i :: 0 <= i < |jobs| && chosen[i] ==>
      Roomy(jobs[i].item) && Typed(jobs[i].item.key.kind, jobs[i].item.data) && Pointed(jobs[i].item, table)
  }

  lemma FittingLater(jobs: seq<ProbeJob>, chosen: seq<bool>, table: NameTable, now: NameTable)
    requires |jobs| == |chosen| && jobs != [] && Fitting(jobs, chosen, table) && Extends(table, now)
    ensures Fitting(jobs[1..], chosen[1..], now)
  {
    hide Roomy, Typed;
  }

  /** Where the room kept covers the estimates, all chosen records go out. */
  lemma {:induction false} TakesAll(jobs: seq<ProbeJob>, chosen: seq<bool>, p: Session, limit: nat)
    requires |jobs| == |chosen| && |p.data| + Budget(jobs, chosen) <= limit <= OFFSET_LIMIT
    requires Below(p.table) && Fitting(jobs, chosen, p.table)
    ensures Take(jobs, chosen, p, limit).done == Picked(jobs, chosen)
  {
    hide EstimateSize, AppendRecord, Below, Extends, Fitting;
    if jobs != [] {
      KnowsItself(p.table);
      var r := jobs[0].item;
      if chosen[0] {
        FirstFits(jobs, chosen, p, limit);
        RecordKnows(r, p.table, |p.data|, limit);
        FittingLater(jobs, chosen, p.table, AddRecord(p, r, limit).table);
        TakesAll(jobs[1..], chosen[1..], AddRecord(p, r, limit), limit);
      } else {
        FittingLater(jobs, chosen, p.table, p.table);
        TakesAll(jobs[1..], chosen[1..], p, limit);
      }
    }
  }

  lemma FirstFits(jobs: seq<ProbeJob>, chosen: seq<bool>, p: Session, limit: nat)
    requires |jobs| == |chosen| && jobs != [] && chosen[0] && |p.data| + Budget(jobs, chosen) <= limit
    requires Fitting(jobs, chosen, p.table)
    ensures var r := jobs[0].item;
            && RecordFits(p, r, limit) && |AddRecord(p, r, limit).data| + Budget(jobs[1..], chosen[1..]) <= limit
            && AddRecord(p, r, limit).table == AppendRecord(r, false, 0, p.table, |p.data|, limit).table
  {
    hide EstimateSize, AppendRecord, Roomy, Typed, PointedNeed, Writable;
    RoomyNeed(jobs[0].item);
    PointedFits(jobs[0].item, p.table, |p.data|, limit);
  }

  /** Every question is the question for some job, and the packet knows its name. */
  ghost predicate Knowing(jobs: seq<ProbeJob>, a: Asking) {
    && Below(a.c.d.p.table)
    && forall n :: 0 <= n < |a.qs| ==> OfJob(jobs, a.qs[n]) && (a.qs[n].name == [] || Compresses(a.qs[n].name, a.c.d.p.table))
  }

  ghost predicate OfJob(jobs: seq<ProbeJob>, q: Key) {
    exists j :: 0 <= j < |jobs| && q == ProbeKey(jobs[j].item)
  }

  lemma AskKnows(p: Session, k: Key, limit: nat)
    requires QuestionFits(p, k, limit) && limit <= OFFSET_LIMIT && Below(p.table)
    ensures var now := Ask(p, k, limit).table; Below(now) && Extends(p.table, now) && (k.name == [] || Compresses(k.name, now))
  {
    hide Append;
    AppendKnows(k.name, p.table, |p.data|, limit);
  }

  lemma AskOneKnows(jobs: seq<ProbeJob>, a: Asking, j: nat, limit: nat)
    requires |a.c.chosen| == |jobs| && j < |jobs| && !a.c.chosen[j] && AllWritable(jobs) && limit <= OFFSET_LIMIT
    requires Assembling(jobs, a, limit) && HasRoom(jobs[j].item, a.c.d, limit) && Knowing(jobs, a)
    ensures Knowing(jobs, AskOne(jobs, a, j, limit))
  {
    hide Chose, Ask, QuestionFits, AllAsked, Budget, Asked, FreshSession, Writable, AddQuery, AskAll, Below;
    var k, r := ProbeKey(jobs[j].item), AskOne(jobs, a, j, limit);
    AddQueryIs(jobs, a.c, j, limit);
    AskKnows(a.c.d.p, k, limit);
    forall n | 0 <= n < |r.qs| ensures OfJob(jobs, r.qs[n]) && (r.qs[n].name == [] || Compresses(r.qs[n].name, r.c.d.p.table)) {
      if n < |a.qs| {
        assert r.qs[n] == a.qs[n];
      } else {
        assert r.qs[n] == k;
      }
    }
  }

  lemma {:induction false} AskMoreKnows(jobs: seq<ProbeJob>, a: Asking, j: nat, limit: nat)
    requires |a.c.chosen| == |jobs| && j <= |jobs| && AllWritable(jobs) && Assembling(jobs, a, limit)
    requires Knowing(jobs, a) && limit <= OFFSET_LIMIT
    ensures Knowing(jobs, AskMore(jobs, a, j, limit))
    decreases |jobs| - j
  {
    hide Assembling, AllWritable, HasRoom, Knowing;
    if j < |jobs| {
      if a.c.chosen[j] {
        AskMoreKnows(jobs, a, j + 1, limit);
      } else if HasRoom(jobs[j].item, a.c.d, limit) {
        AskOneIs(jobs, a, j, limit);
        AskOneKnows(jobs, a, j, limit);
        AskMoreKnows(jobs, AskOne(jobs, a, j, limit), j + 1, limit);
      }
    }
  }

  /** Names that are equal up to letter case are spelled alike. */
  ghost predicate Alike(jobs: seq<ProbeJob>) {
    forall i, j :: 0 <= i < |jobs| && 0 <= j < |jobs| && FoldName(jobs[i].item.key.name) == FoldName(jobs[j].item.key.name) ==>
      jobs[i].item.key.name == jobs[j].item.key.name
  }

  ghost predicate AllRoomy(jobs: seq<ProbeJob>) {
    forall i :: 0 <= i < |jobs| ==> Roomy(jobs[i].item) && Typed(jobs[i].item.key.kind, jobs[i].item.data)
  }

  lemma ChosenFitting(jobs: seq<ProbeJob>, a: Asking)
    requires |a.c.chosen| == |jobs| && Alike(jobs) && AllRoomy(jobs) && AllAsked(jobs, a.c.chosen, a.qs) && Knowing(jobs, a)
    ensures Fitting(jobs, a.c.chosen, a.c.d.p.table)
  {
    hide Roomy, Typed, FoldName, Below;
    forall i | 0 <= i < |jobs| && a.c.chosen[i] ensures Pointed(jobs[i].item, a.c.d.p.table) {
      var q :| 0 <= q < |a.qs| && Asked(a.qs[q], jobs[i].item);
      assert OfJob(jobs, a.qs[q]);
      var j :| 0 <= j < |jobs| && a.qs[q] == ProbeKey(jobs[j].item);
      assert jobs[i].item.key.name == a.qs[q].name;
    }
  }

  /** What is kept for the chosen records beyond what they may need; never more than nothing. */
  function Surplus(jobs: seq<ProbeJob>, c: Choice): int
    requires |c.chosen| == |jobs|
  {
    c.d.reserved - Budget(jobs, c.chosen)
  }

  /** A question in a brimful packet leaves its record without room; any other keeps the balance. */
  lemma AddQueryKeeps(jobs: seq<ProbeJob>, c: Choice, at: nat, limit: nat)
    requires |c.chosen| == |jobs| && at < |jobs| && !c.chosen[at]
    requires Writable(jobs[at].item.key.name) && HasRoom(jobs[at].item, c.d, limit)
    ensures var r := jobs[at].item;
            Surplus(jobs, AddQuery(jobs, c, at, limit)) == Surplus(jobs, c) - if Brimful(r, c.d, limit) then EstimateSize(r) else 0
  {
    var k := ProbeKey(jobs[at].item);
    QuestionHasRoom(c.d, jobs[at].item, limit);
    BudgetMark(jobs, c.chosen, at);
    hide EstimateSize, FoldName, Ask, QuestionFits, Writable, Budget, ChooseFrom, Stops, Brimful;
    ChooseFromIs(jobs, Mark(jobs, Ask1(c, k, limit), at, limit), k, 0, limit);
  }

  /** No question of the second loop, from job j on, is asked in a brimful packet. */
  predicate KeepsRoom(jobs: seq<ProbeJob>, a: Asking, j: nat, limit: nat)
    requires |a.c.chosen| == |jobs| && j <= |jobs|
    decreases |jobs| - j
  {
    if j == |jobs| then true
    else if a.c.chosen[j] then KeepsRoom(jobs, a, j + 1, limit)
    else HasRoom(jobs[j].item, a.c.d, limit) ==>
      !Brimful(jobs[j].item, a.c.d, limit) && KeepsRoom(jobs, AskOne(jobs, a, j, limit), j + 1, limit)
  }

  lemma {:induction false} AskMoreKeeps(jobs: seq<ProbeJob>, a: Asking, j: nat, limit: nat)
    requires |a.c.chosen| == |jobs| && j <= |jobs| && AllWritable(jobs)
    ensures var r := AskMore(jobs, a, j, limit);
            && Surplus(jobs, r.c) <= Surplus(jobs, a.c)
            && (Surplus(jobs, r.c) == Surplus(jobs, a.c) <==> KeepsRoom(jobs, a, j, limit))
    decreases |jobs| - j
  {
    hide HasRoom, Surplus, Brimful, AddQuery, EstimateSize, Writable;
    if j == |jobs| || (!a.c.chosen[j] && !HasRoom(jobs[j].item, a.c.d, limit)) {
    } else if a.c.chosen[j] {
      AskMoreKeeps(jobs, a, j + 1, limit);
    } else {
      AddQueryKeeps(jobs, a.c, j, limit);
      EstimateAtLeast(jobs[j].item);
      AskMoreKeeps(jobs, AskOne(jobs, a, j, limit), j + 1, limit);
    }
  }

  /** No question of the packet for the due job i is asked in a brimful packet. */
  predicate NeverBrimful(jobs: seq<ProbeJob>, i: nat, limit: nat)
    requires i < |jobs|
  {
    && !Brimful(jobs[i].item, Draft(FreshSession(), 0), limit)
    && KeepsRoom(jobs, AskOne(jobs, Blank(jobs), i, limit), 0, limit)
  }

  /** Each chosen record has its estimate reserved exactly if no question found the packet brimful. */
  lemma RoomKept(jobs: seq<ProbeJob>, i: nat, limit: nat)
    requires i < |jobs| && limit >= HEADER_SIZE && AllWritable(jobs) && HasRoom(jobs[i].item, Draft(FreshSession(), 0), limit)
    ensures Surplus(jobs, Assembled(jobs, i, limit).c) == 0 <==> NeverBrimful(jobs, i, limit)
  {
    var b := Blank(jobs).c;
    BlankKept(jobs);
    hide HasRoom, Surplus, Brimful, AddQuery, AskMore, KeepsRoom, EstimateSize, Writable;
    AddQueryKeeps(jobs, b, i, limit);
    EstimateAtLeast(jobs[i].item);
    AskMoreKeeps(jobs, AskOne(jobs, Blank(jobs), i, limit), 0, limit);
  }

  lemma {:induction false} BlankKept(jobs: seq<ProbeJob>)
    ensures Surplus(jobs, Blank(jobs).c) == 0
  {
    if jobs != [] {
      BlankKept(jobs[1..]);
      assert Blank(jobs).c.chosen[1..] == Blank(jobs[1..]).c.chosen;
    }
  }

  /** The room that was kept is enough: in a packet below 0x4000 bytes, when no question
      found it brimful, every chosen record goes out, the due one among them. */
  lemma AllChosenSent(jobs: seq<ProbeJob>, i: nat, limit: nat)
    requires i < |jobs| && HEADER_SIZE <= limit <= OFFSET_LIMIT && HasRoom(jobs[i].item, Draft(FreshSession(), 0), limit)
    requires AllRoomy(jobs) && Alike(jobs)
    requires NeverBrimful(jobs, i, limit)
    ensures var a, t := Assembled(jobs, i, limit), ProbePacket(jobs, i, limit);
            t.done == Picked(jobs, a.c.chosen) && jobs[i] in t.done
  {
    hide *;
    RoomyWritable(jobs);
    AssembledIs(jobs, i, limit);
    AssembledKnows(jobs, i, limit);
    RoomKept(jobs, i, limit);
    var a := Assembled(jobs, i, limit);
    KeptIs(jobs, a.c);
    AssemblingParts(jobs, a, limit);
    ChosenFitting(jobs, a);
    TakesAll(jobs, a.c.chosen, a.c.d.p, limit);
    PickedChosen(jobs, a.c.chosen, i);
    ProbePacketIs(jobs, i, limit);
  }

  lemma KeptIs(jobs: seq<ProbeJob>, c: Choice)
    requires |c.chosen| == |jobs|
    ensures Surplus(jobs, c) == c.d.reserved - Budget(jobs, c.chosen)
  {
  }

  lemma ProbePacketIs(jobs: seq<ProbeJob>, i: nat, limit: nat)
    requires i < |jobs|
    ensures var a := Assembled(jobs, i, limit); ProbePacket(jobs, i, limit) == Take(jobs, a.c.chosen, a.c.d.p, limit)
  {
    hide Assembled, Take;
  }

  lemma RoomyWritable(jobs: seq<ProbeJob>)
    requires AllRoomy(jobs)
    ensures AllWritable(jobs)
  {
    hide Writable, Typed;
  }

  lemma AssemblingParts(jobs: seq<ProbeJob>, a: Asking, limit: nat)
    requires |a.c.chosen| == |jobs| && Assembling(jobs, a, limit) && Knowing(jobs, a)
    ensures AllAsked(jobs, a.c.chosen, a.qs) && Below(a.c.d.p.table) && |a.c.d.p.data| + a.c.d.reserved <= limit
  {
    hide AllAsked, Below, Budget, AskAll;
  }

  lemma AssembledKnows(jobs: seq<ProbeJob>, i: nat, limit: nat)
    requires i < |jobs| && HEADER_SIZE <= limit <= OFFSET_LIMIT && HasRoom(jobs[i].item, Draft(FreshSession(), 0), limit)
    requires AllWritable(jobs)
    ensures Knowing(jobs, Assembled(jobs, i, limit))
  {
    BlankKnows(jobs);
    hide Assembling, HasRoom, AllWritable, Knowing, AskOne, AskMore;
    BlankIs(jobs, limit);
    AskOneIs(jobs, Blank(jobs), i, limit);
    AskOneKnows(jobs, Blank(jobs), i, limit);
    AskMoreKnows(jobs, AskOne(jobs, Blank(jobs), i, limit), 0, limit);
  }

  lemma BlankKnows(jobs: seq<ProbeJob>)
    ensures Knowing(jobs, Blank(jobs))
  {
  }

  // ---------- when the room kept is not enough ----------

  /** A job for a record, as it is in the list. */
  function JobFor(r: Record): ProbeJob {
    JL.Job(r, IdentOf(r), 0, 1, 0, 0, false)
  }

  /** A host record and a record of m bytes that share a name of one label. */
  function HostRecord(l: Label): Record {
    Record(Key(Escape(l), CLASS_IN, TYPE_A), 0, Address4([0, 0, 0, 0]))
  }

  function DueRecord(l: Label, bytes: seq<byte>): Record {
    Record(Key(Escape(l), CLASS_IN, 0), 0, Generic(bytes))
  }

  /** The limit the estimates for the due record fill to the last byte. */
  function ExactLimit(l: Label, bytes: seq<byte>): nat {
    HEADER_SIZE + KeyEstimate(DueRecord(l, bytes).key) + EstimateSize(DueRecord(l, bytes))
  }

  /** A name of one label that is its own escape takes two bytes more on the wire. */
  lemma OneLabelSize(l: Label, size: nat, limit: nat)
    requires GoodLabel(l) && |Escape(l)| == |l| && size + |l| + 2 <= limit
    ensures var a := Append(Escape(l), map[], size, limit); a.Done? && |a.bytes| == |l| + 2
  {
    hide Escape, GoodLabel;
    var ls := [l];
    assert Join(ls) == Escape(l);
    assert ls[1..] == [] && ls[..1] == ls;
    assert FirstKnown([], map[]) == 0 && WireSize([]) == 0;
    assert FirstKnown(ls, map[]) == 1 && WireSize(ls) == |l| + 1;
    AppendShape(ls, map[], size, limit);
  }

  /** Without a name in its data, a record whose name can be pointed at takes twelve bytes and its
      data, and fits exactly where these fit. */
  lemma PointedSize(p: Session, r: Record, limit: nat)
    requires Compresses(r.key.name, p.table) && r.key.name != [] && Typed(r.key.kind, r.data)
    requires !r.data.NameData? && !r.data.Srv? && !r.data.Hinfo?
    ensures RecordFits(p, r, limit) <==> |p.data| + 12 + DataEstimate(r.data) <= limit
    ensures RecordFits(p, r, limit) ==> |AddRecord(p, r, limit).data| == |p.data| + 12 + DataEstimate(r.data)
    ensures RecordFits(p, r, limit) ==> AddRecord(p, r, limit).table == p.table
  {
    hide TxtWire;
  }

  /** The jobs of the example, the due one behind the other. */
  function Crowd(l: Label, bytes: seq<byte>): (jobs: seq<ProbeJob>)
    ensures |jobs| == 2
  {
    [JobFor(HostRecord(l)), JobFor(DueRecord(l, bytes))]
  }

  lemma CrowdSizes(l: Label, bytes: seq<byte>)
    requires |Escape(l)| == |l|
    ensures EstimateSize(HostRecord(l)) == |l| + 15 && EstimateSize(DueRecord(l, bytes)) == |l| + 11 + |bytes|
    ensures ExactLimit(l, bytes) == 2 * |l| + 28 + |bytes| && KeyEstimate(DueRecord(l, bytes).key) == |l| + 5
  {
    hide Escape;
  }

  lemma CrowdQuestion(l: Label, bytes: seq<byte>) returns (p: Session)
    requires GoodLabel(l) && |Escape(l)| == |l| && ExactLimit(l, bytes) <= OFFSET_LIMIT
    ensures p == Ask(FreshSession(), ProbeKey(DueRecord(l, bytes)), ExactLimit(l, bytes))
    ensures |p.data| == |l| + 18 && Compresses(Escape(l), p.table) && Escape(l) != []
  {
    CrowdSizes(l, bytes);
    GoodLabelSize(l);
    hide Escape, GoodLabel, ExactLimit, EstimateSize, Append, Compresses;
    var limit := ExactLimit(l, bytes);
    var k := ProbeKey(DueRecord(l, bytes));
    p := Ask(FreshSession(), k, limit);
    OneLabelSize(l, HEADER_SIZE, limit);
    AppendKnows(Escape(l), map[], HEADER_SIZE, limit);
  }

  /** Both jobs are chosen, and room is kept for the other record alone. */
  lemma CrowdChosen(l: Label, bytes: seq<byte>, p: Session)
    requires |Escape(l)| == |l| && |bytes| >= 5 && |p.data| == |l| + 18
    requires p == Ask(FreshSession(), ProbeKey(DueRecord(l, bytes)), ExactLimit(l, bytes))
    ensures Assembled(Crowd(l, bytes), 1, ExactLimit(l, bytes)).c == Choice(Draft(p, |l| + 15), [true, true])
    ensures HasRoom(DueRecord(l, bytes), Draft(FreshSession(), 0), ExactLimit(l, bytes))
  {
    CrowdSizes(l, bytes);
    CrowdAsked(l, bytes);
    hide Escape, ExactLimit, EstimateSize, Ask, Asked, KeyEstimate;
    var jobs, limit, k := Crowd(l, bytes), ExactLimit(l, bytes), ProbeKey(DueRecord(l, bytes));
    var c0 := Mark(jobs, Ask1(Blank(jobs).c, k, limit), 1, limit);
    assert c0 == Choice(Draft(p, 0), [false, true]);
    var c1 := Mark(jobs, c0, 0, limit);
    assert c1 == Choice(Draft(p, |l| + 15), [true, true]);
    assert ChooseFrom(jobs, c1, k, 2, limit) == c1;
    assert ChooseFrom(jobs, c1, k, 1, limit) == c1;
    assert ChooseFrom(jobs, c0, k, 0, limit) == c1;
    var a := AskOne(jobs, Blank(jobs), 1, limit);
    assert a.c == c1;
    assert AskMore(jobs, a, 2, limit) == a;
    assert AskMore(jobs, a, 1, limit) == a;
  }

  lemma CrowdAsked(l: Label, bytes: seq<byte>)
    ensures var jobs := Crowd(l, bytes);
            && jobs[0].item == HostRecord(l) && jobs[1].item == DueRecord(l, bytes)
            && Asked(ProbeKey(jobs[1].item), jobs[0].item)
  {
    hide Escape, FoldName;
  }

  /** Estimates that fill the packet to the last byte: no room is kept for the due record, another
      record with its name takes it, and the probe that is due goes out without its record,
      unless the name has 18 characters and the pointers to it save what is missing. */
  lemma DueCrowdedOut(l: Label, bytes: seq<byte>)
    requires GoodLabel(l) && |Escape(l)| == |l| && 5 <= |bytes| < 0x1_0000 && ExactLimit(l, bytes) <= OFFSET_LIMIT
    ensures var jobs, limit := Crowd(l, bytes), ExactLimit(l, bytes);
            && HasRoom(jobs[1].item, Draft(FreshSession(), 0), limit)
            && (jobs[1] in ProbePacket(jobs, 1, limit).done <==> |l| >= 18)
  {
    var p := CrowdQuestion(l, bytes);
    CrowdChosen(l, bytes, p);
    CrowdSizes(l, bytes);
    CrowdAsked(l, bytes);
    CrowdData(l, bytes);
    hide Escape, GoodLabel, ExactLimit, EstimateSize, Compresses, Asked, Ask, Assembled, DataEstimate, HasRoom, AddRecord, RecordFits;
    var jobs, limit := Crowd(l, bytes), ExactLimit(l, bytes);
    var chosen := [true, true];
    PointedSize(p, HostRecord(l), limit);
    var q := AddRecord(p, HostRecord(l), limit);
    PointedSize(q, DueRecord(l, bytes), limit);
    assert chosen[1..] == [true] && jobs[1..] == [jobs[1]] && chosen[1..][1..] == [] && jobs[1..][1..] == [];
    assert jobs[0] != jobs[1];
    TakeTwo(jobs, p, limit);
  }

  lemma CrowdData(l: Label, bytes: seq<byte>)
    requires |bytes| < 0x1_0000
    ensures DataEstimate(HostRecord(l).data) == 4 && DataEstimate(DueRecord(l, bytes).data) == |bytes|
    ensures Typed(HostRecord(l).key.kind, HostRecord(l).data) && Typed(DueRecord(l, bytes).key.kind, DueRecord(l, bytes).data)
    ensures HostRecord(l).key.name == Escape(l) == DueRecord(l, bytes).key.name
    ensures Crowd(l, bytes)[0] != Crowd(l, bytes)[1]
  {
    hide Escape;
    assert HostRecord(l).data != DueRecord(l, bytes).data;
  }

  lemma TakeTwo(jobs: seq<ProbeJob>, p: Session, limit: nat)
    requires |jobs| == 2 && RecordFits(p, jobs[0].item, limit)
    ensures var q, t := AddRecord(p, jobs[0].item, limit), Take(jobs, [true, true], p, limit);
            t.done == if RecordFits(q, jobs[1].item, limit) then [jobs[0], jobs[1]] else [jobs[0]]
  {
    hide AddRecord, RecordFits;
    var chosen := [true, true];
    var q := AddRecord(p, jobs[0].item, limit);
    assert chosen[1..] == [true] && [true][1..] == [];
    assert jobs[1..] == [jobs[1]] && [jobs[1]][1..] == [];
    var r := Take([], [], AddRecord(q, jobs[1].item, limit), limit);
    assert [jobs[1]] + r.done == [jobs[1]] && [jobs[0]] + [jobs[1]] == [jobs[0], jobs[1]];
    assert Take([jobs[1]], [true], q, limit).done == if RecordFits(q, jobs[1].item, limit) then [jobs[1]] else [];
  }

  // ---------- a probe on its own ----------

  /** The size of the packet made for one probe that an ordinary packet has no room for. */
  function AloneSize(r: Record): nat {
    KeyEstimate(r.key) + EstimateSize(r) + HEADER_SIZE
  }

  /** That packet, if the probe fits it. */
  function Alone(r: Record): Option<Session> {
    var k, limit := ProbeKey(r), AloneSize(r);
    if !QuestionFits(FreshSession(), k, limit) then None else
    var p := Ask(FreshSession(), k, limit);
    if RecordFits(p, r, limit) then Some(AddRecord(p, r, limit)) else None
  }

  lemma AloneQuestion(r: Record)
    requires Writable(r.key.name) && AloneSize(r) <= OFFSET_LIMIT
    ensures var k, limit := ProbeKey(r), AloneSize(r);
            && QuestionFits(FreshSession(), k, limit)
            && var p := Ask(FreshSession(), k, limit);
               && HEADER_SIZE + 5 <= |p.data| <= HEADER_SIZE + |r.key.name| + (if r.key.name == [] then 5 else 6)
               && Pointed(r, p.table)
  {
    hide LabelsOf, NoEmpty, Writable, EstimateSize, Append, Compresses;
    EstimateAtLeast(r);
    var limit := AloneSize(r);
    NameFits(r.key.name, map[], HEADER_SIZE, limit);
    AppendKnows(r.key.name, map[], HEADER_SIZE, limit);
    NotEmpty(r.key.name, map[], HEADER_SIZE, limit);
  }

  lemma NotEmpty(name: seq<byte>, table: NameTable, size: nat, limit: nat)
    ensures Append(name, table, size, limit).Done? ==> Append(name, table, size, limit).bytes != []
  {
    hide Unescape;
  }

  /** A probe that is too large for an ordinary packet is sent on its own whenever its name has
      three characters at least. */
  lemma AloneSent(r: Record)
    requires Roomy(r) && Typed(r.key.kind, r.data) && AloneSize(r) <= OFFSET_LIMIT && |r.key.name| >= 3
    ensures Alone(r).Some?
  {
    AloneQuestion(r);
    hide Writable, Ask, AppendRecord, QuestionFits, DataEstimate, Typed;
    var p := Ask(FreshSession(), ProbeKey(r), AloneSize(r));
    PointedFits(r, p.table, |p.data|, AloneSize(r));
  }

  /** Without a name in its data it is sent exactly unless its name is a single character: then the
      estimates are a byte short, and it is given up as too large. */
  lemma AloneExactly(r: Record)
    requires Normal(r.key.name) && Typed(r.key.kind, r.data) && AloneSize(r) <= OFFSET_LIMIT
    requires !r.data.NameData? && !r.data.Srv? && !r.data.Hinfo?
    ensures Alone(r).Some? <==> |r.key.name| != 1
  {
    NormalWritable(r.key.name);
    AloneQuestion(r);
    var limit := AloneSize(r);
    var p := Ask(FreshSession(), ProbeKey(r), limit);
    if |r.key.name| == 1 {
      OneCharacter(r.key.name, limit);
      hide Writable, AppendRecord, DataEstimate, Typed, Append, Normal;
      PointedSize(p, r, limit);
    } else {
      hide Writable, Ask, AppendRecord, QuestionFits, DataEstimate, Typed, Normal;
      PointedFits(r, p.table, |p.data|, limit);
    }
  }

  lemma NormalWritable(name: seq<byte>)
    requires Normal(name)
    ensures Writable(name)
  {
    hide LabelsOf, Join;
    NormalNoEmpty(name);
  }

  lemma OneCharacter(name: seq<byte>, limit: nat)
    requires Normal(name) && |name| == 1 && HEADER_SIZE + 3 <= limit
    ensures var a := Append(name, map[], HEADER_SIZE, limit); a.Done? && |a.bytes| == 3
  {
    var ls := LabelsOf(name).value;
    hide LabelsOf, GoodLabel, Escape;
    assert Join(ls) == name;
    assert ls != [] && |ls| == 1 && Escape(ls[0]) == name;
    GoodLabelSize(ls[0]);
    assert |Escape(ls[0])| == |ls[0]|;
    OneLabelSize(ls[0], HEADER_SIZE, limit);
  }
}
