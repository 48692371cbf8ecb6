/** Sending the queries that are due (elapse_callback and packet_add_query_job in
    avahi-core/query-sched.c): one packet takes the due question and as many more as fit, and the
    known answers follow. */
module QueryScheduler {
  import opened Bytes
  import opened NameCodec
  import opened Domain
  import opened Records
  import opened RecordIdent
  import opened RecordRoundTrip
  import opened RecordSession
  import opened KnownAnswers
  import opened JobLists

  const QUERY_SPAN: nat := 100_000
  const QUERY_DEFER: nat := 100_000

  type QueryJobs = Scheduler<Key, KeyIdent>

  /** A scheduler of questions in any state it can get into. */
  ghost predicate Querying(s: QueryJobs)
    reads s
  {
    s.Valid() && s.ident == IdentOfKey && s.span == QUERY_SPAN && s.defer == QUERY_DEFER
  }

  /** avahi_query_scheduler_new. */
  method NewQueryScheduler() returns (s: QueryJobs)
    ensures fresh(s) && Querying(s) && s.jobs == [] && s.history == [] && s.log == []
  {
    s := new Scheduler(QUERY_SPAN, QUERY_DEFER, IdentOfKey);
  }

  /** A question is sent at least 100 ms after it was last sent or heard. */
  ghost predicate QueriesApart(log: seq<Event<KeyIdent>>) {
    forall i, j :: 0 <= i < j < |log| && log[i].key == log[j].key && log[j].Sent? ==> log[j].at - log[i].at >= 100_000
  }

  lemma QueriesSpaced(s: QueryJobs)
    requires Querying(s)
    ensures QueriesApart(s.log)
  {
  }

  predicate QuestionFits(p: Session, k: Key, limit: nat) {
    AppendKey(k, false, p.table, |p.data|, limit).Done?
  }

  /** A question behind the others. */
  function Ask(p: Session, k: Key, limit: nat): Session {
    match AppendKey(k, false, p.table, |p.data|, limit)
    case Done(bytes, table) => Session(p.data + bytes, table, p.accepted)
    case _ => p
  }

  function AskAll(p: Session, ks: seq<Key>, limit: nat): Session
    decreases |ks|
  {
    if ks == [] then p else Ask(AskAll(p, ks[..|ks| - 1], limit), ks[|ks| - 1], limit)
  }

  /** The known answers, each walk over the cache putting what it finds at the front. */
  function Collected(known: Key -> seq<Record>, ks: seq<Key>): seq<Record>
    decreases |ks|
  {
    if ks == [] then [] else Reverse(known(ks[|ks| - 1])) + Collected(known, ks[..|ks| - 1])
  }

  ghost function Items(jobs: seq<Job<Key, KeyIdent>>): (ks: seq<Key>)
    ensures |ks| == |jobs| && forall i :: 0 <= i < |jobs| ==> ks[i] == jobs[i].item
  {
    seq(|jobs|, i requires 0 <= i < |jobs| => jobs[i].item)
  }

  /** The sends of the questions ks at the time now. */
  ghost function Sends(ks: seq<Key>, now: int): (es: seq<Event<KeyIdent>>)
    ensures |es| == |ks| && forall i :: 0 <= i < |ks| ==> es[i] == Sent(IdentOfKey(ks[i]), now)
  {
    seq(|ks|, i requires 0 <= i < |ks| => Sent(IdentOfKey(ks[i]), now))
  }

  lemma SendsSnoc(ks: seq<Key>, k: Key, now: int)
    ensures Sends(ks + [k], now) == Sends(ks, now) + [Sent(IdentOfKey(k), now)]
  {
    hide IdentOfKey;
  }

  lemma AskSnoc(p: Session, ks: seq<Key>, k: Key, known: Key -> seq<Record>, limit: nat)
    ensures AskAll(p, ks + [k], limit) == Ask(AskAll(p, ks, limit), k, limit)
    ensures Collected(known, ks + [k]) == Reverse(known(k)) + Collected(known, ks)
  {
    assert (ks + [k])[..|ks|] == ks;
  }

  /** What is asked with job i: it, and then the other jobs from the head while their questions
      fit. */
  ghost predicate AskedFor(jobs: seq<Job<Key, KeyIdent>>, i: nat, asked: seq<Key>, left: seq<Job<Key, KeyIdent>>, limit: nat)
    requires i < |jobs|
  {
    var rest := Drop(jobs, i);
    && 1 <= |asked| <= |jobs| && |left| == |jobs| - |asked|
    && asked == [jobs[i].item] + Items(rest[..|asked| - 1]) && left == rest[|asked| - 1..]
    && (left != [] ==> !QuestionFits(AskAll(FreshSession(), asked, limit), left[0].item, limit))
  }

  /** elapse_callback for a scheduled job. The source asserts that the first question fits. */
  method QueryElapsed(s: QueryJobs, i: nat, known: Key -> seq<Record>, limit: nat, now: int)
    returns (packets: seq<Query>, questions: nat, ghost asked: seq<Key>)
    requires Querying(s) && now >= s.clock && i < |s.jobs|
    requires QuestionFits(FreshSession(), s.jobs[i].item, limit)
    modifies s`jobs, s`history, s`log, s`clock
    ensures Querying(s) && AskedFor(old(s.jobs), i, asked, s.jobs, limit) && questions == |asked|
    ensures s.log == old(s.log) + Sends(asked, now) && QueriesApart(s.log)
    ensures var p := AskAll(FreshSession(), asked, limit);
            packets == SendAll(p, |p.data|, 0, Collected(known, asked), limit)
  {
    hide *;
    QueryParts(s);
    ghost var jobs := s.jobs;
    ghost var rest := Drop(jobs, i);
    var k := s.jobs[i].item;
    KeyOf(s, i);
    var p, answers := Ask(FreshSession(), k, limit), Reverse(known(k));
    FirstQuestion(FreshSession(), k, known, limit, now);
    asked := [k];
    s.JobMarkDone(i, Sent(s.jobs[i].key, now), now);
    questions := 1;
    ghost var m := 0;
    NoItems(rest, k);
    while |s.jobs| > 0
      invariant s.Valid() && s.clock == now && m <= |rest| && s.jobs == rest[m..] && questions == |asked| == 1 + m
      invariant asked == [k] + Items(rest[..m]) && s.log == old(s.log) + Sends(asked, now)
      invariant p == AskAll(FreshSession(), asked, limit) && answers == Collected(known, asked)
      decreases |s.jobs|
    {
      if !QuestionFits(p, s.jobs[0].item, limit) {
        break;
      }
      var next := s.jobs[0].item;
      KeyOf(s, 0);
      AskSnoc(FreshSession(), asked, next, known, limit);
      SendsSnoc(asked, next, now);
      p, answers := Ask(p, next, limit), Reverse(known(next)) + answers;
      s.JobMarkDone(0, Sent(s.jobs[0].key, now), now);
      ItemsSnoc(rest, m);
      asked := asked + [next];
      questions, m := questions + 1, m + 1;
    }
    AskedIs(jobs, i, asked, s.jobs, m, limit);
    QueryAgain(s);
    QueriesSpaced(s);
    packets := AppendKnownAnswersAndSend(p, |p.data|, answers, limit);
  }

  lemma QueryParts(s: QueryJobs)
    requires Querying(s)
    ensures s.Valid() && s.ident == IdentOfKey && s.span == QUERY_SPAN && s.defer == QUERY_DEFER
  {
  }

  lemma QueryAgain(s: QueryJobs)
    requires s.Valid() && s.ident == IdentOfKey && s.span == QUERY_SPAN && s.defer == QUERY_DEFER
    ensures Querying(s)
  {
  }

  lemma KeyOf(s: QueryJobs, i: nat)
    requires s.Valid() && s.ident == IdentOfKey && i < |s.jobs|
    ensures s.jobs[i].key == IdentOfKey(s.jobs[i].item)
  {
  }

  lemma FirstQuestion(p: Session, k: Key, known: Key -> seq<Record>, limit: nat, now: int)
    ensures AskAll(p, [k], limit) == Ask(p, k, limit) && Collected(known, [k]) == Reverse(known(k))
    ensures Sends([k], now) == [Sent(IdentOfKey(k), now)]
  {
    AskSnoc(p, [], k, known, limit);
    assert [] + [k] == [k];
    assert Reverse(known(k)) + [] == Reverse(known(k));
  }

  lemma NoItems(rest: seq<Job<Key, KeyIdent>>, k: Key)
    ensures rest[0..] == rest && [k] == [k] + Items(rest[..0])
  {
  }

  lemma ItemsSnoc(rest: seq<Job<Key, KeyIdent>>, m: nat)
    requires m < |rest|
    ensures Items(rest[..m + 1]) == Items(rest[..m]) + [rest[m].item] && rest[m..][0] == rest[m]
    ensures Drop(rest[m..], 0) == rest[m + 1..]
  {
  }

  lemma AskedIs(jobs: seq<Job<Key, KeyIdent>>, i: nat, asked: seq<Key>, left: seq<Job<Key, KeyIdent>>, m: nat, limit: nat)
    requires i < |jobs| && m < |jobs| && |asked| == 1 + m
    requires asked == [jobs[i].item] + Items(Drop(jobs, i)[..m]) && left == Drop(jobs, i)[m..]
    requires left != [] ==> !QuestionFits(AskAll(FreshSession(), asked, limit), left[0].item, limit)
    ensures AskedFor(jobs, i, asked, left, limit)
  {
    hide QuestionFits, AskAll;
  }

  /** Reading n questions one behind the other. */
  function ConsumeKeys(data: seq<byte>, at: nat, n: nat): Option<seq<ConsumedKey>> {
    if n == 0 then Some([]) else
    match ConsumeKeys(data, at, n - 1)
    case None => None
    case Some(ks) =>
      match ConsumeKey(data, if ks == [] then at else ks[|ks| - 1].end)
      case None => None
      case Some(k) => Some(ks + [k])
  }

  /** The packet is sound and its questions are ks, whatever follows them. */
  ghost predicate Asks(p: Session, ks: seq<Key>) {
    && HEADER_SIZE <= |p.data| && SoundTable(p.data, p.table)
    && forall later: seq<byte> {:trigger p.data + later} :: Questions(p.data + later, ks, |p.data|)
  }

  ghost predicate Questions(data: seq<byte>, ks: seq<Key>, end: nat) {
    var r := ConsumeKeys(data, HEADER_SIZE, |ks|);
    && r.Some? && |r.value| == |ks|
    && (forall i :: 0 <= i < |ks| ==> r.value[i].key == ks[i] && !r.value[i].unicast)
    && end == if ks == [] then HEADER_SIZE else r.value[|ks| - 1].end
  }

  predicate PortableKey(k: Key) {
    Portable(k.name) && k.clazz < TOP_BIT && |k.name| < 256
  }

  lemma AskReadable(p: Session, ks: seq<Key>, k: Key, limit: nat)
    requires Asks(p, ks) && PortableKey(k) && QuestionFits(p, k, limit)
    ensures Asks(Ask(p, k, limit), ks + [k])
  {
    hide AppendKey, ConsumeKey, SoundTable, Portable;
    var a := AppendKey(k, false, p.table, |p.data|, limit);
    var q := Ask(p, k, limit);
    KeyComesBack(k, false, p.data, p.table, limit, []);
    forall later: seq<byte>
      ensures Questions(q.data + later, ks + [k], |q.data|)
    {
      KeyComesBack(k, false, p.data, p.table, limit, later);
      assert p.data + a.bytes + later == p.data + (a.bytes + later);
      assert Questions(p.data + (a.bytes + later), ks, |p.data|);
    }
  }

  /** Every packet of questions can be read back: a receiver finds exactly the questions asked, in
      order, and the answers may begin where the last one ends. */
  lemma {:induction false} AskAllReadable(p: Session, ks: seq<Key>, limit: nat)
    requires Asks(p, []) && forall i :: 0 <= i < |ks| ==> PortableKey(ks[i])
    requires forall i :: 0 <= i < |ks| ==> QuestionFits(AskAll(p, ks[..i], limit), ks[i], limit)
    ensures Asks(AskAll(p, ks, limit), ks)
    decreases |ks|
  {
    hide Asks, QuestionFits, PortableKey, Ask;
    if ks != [] {
      var n := |ks| - 1;
      var front := ks[..n];
      assert forall i :: 0 <= i < n ==> front[..i] == ks[..i];
      AskAllReadable(p, front, limit);
      assert front + [ks[n]] == ks;
      AskReadable(AskAll(p, front, limit), front, ks[n], limit);
    }
  }
}
