/** Splitting known answers over query packets (append_known_answers_and_send in
    avahi-core/query-sched.c, section 7.2 of RFC 6762). */
module KnownAnswers {
  import opened Bytes
  import opened NameCodec
  import opened Domain
  import opened Records
  import opened RecordRoundTrip
  import opened RecordSession

  /** A query packet as it is sent: its bytes with the answers in them, where those start, its
      TC flag and its ANCOUNT field. */
  datatype Query = Query(content: Session, start: nat, tc: bool, ancount: nat)

  function FreshSession(): Session {
    Session(seq(HEADER_SIZE, _ => 0), map[], [])
  }

  predicate Fits(p: Session, r: Record, limit: nat) {
    AppendRecord(r, false, 0, p.table, |p.data|, limit).Done?
  }

  function Put(p: Session, r: Record, limit: nat): Session {
    Step(p, Attempt(r, false, 0), limit)
  }

  /** The packets sent for `answers` when `p` with `n` answers is being filled. */
  function SendAll(p: Session, start: nat, n: nat, answers: seq<Record>, limit: nat): (sent: seq<Query>)
    ensures sent != []
    decreases |answers|
  {
    if answers == [] then [Query(p, start, false, n)] else
    var r, rest := answers[0], answers[1..];
    if Fits(p, r, limit) then SendAll(Put(p, r, limit), start, n + 1, rest, limit)
    else if |p.data| <= HEADER_SIZE then SendAll(p, start, n, rest, limit)
    else
      var e := FreshSession();
      [Query(p, start, true, n)] +
      (if Fits(e, r, limit) then SendAll(Put(e, r, limit), HEADER_SIZE, 1, rest, limit)
       else SendAll(e, HEADER_SIZE, 0, rest, limit))
  }

  /** append_known_answers_and_send: the list is emptied from the head; `sent` are the packets
      handed to the interface. */
  method AppendKnownAnswersAndSend(p0: Session, start0: nat, answers: seq<Record>, limit: nat) returns (sent: seq<Query>)
    ensures sent == SendAll(p0, start0, 0, answers, limit)
  {
    hide Step, AppendRecord, FreshSession;
    var p, start, n, tc := p0, start0, 0, false;
    var list := answers;
    sent := [];
    assert [] + SendAll(p0, start0, 0, answers, limit) == SendAll(p0, start0, 0, answers, limit);
    while list != []
      invariant SendAll(p0, start0, 0, answers, limit) == sent + SendAll(p, start, n, list, limit)
      decreases |list|
    {
      var ka, tooLarge := list[0], false;
      ghost var sent1, p1, start1, n1 := sent, p, start, n;
      while !Fits(p, ka, limit)
        invariant !tooLarge
        invariant
          (sent == sent1 && p == p1 && start == start1 && n == n1) ||
          (!Fits(p1, ka, limit) && |p1.data| > HEADER_SIZE && sent == sent1 + [Query(p1, start1, true, n1)]
           && p == FreshSession() && start == HEADER_SIZE && n == 0)
        decreases |p.data| > HEADER_SIZE
      {
        if |p.data| <= HEADER_SIZE {
          tooLarge := true;
          break;
        }
        sent := sent + [Query(p, start, true, n)];
        FreshSize();
        p, start, n := FreshSession(), HEADER_SIZE, 0;
      }
      FreshSize();
      list := list[1..];
      if !tooLarge {
        p, n := Put(p, ka, limit), n + 1;
      }
      Regroup(sent1, Query(p1, start1, true, n1), SendAll(p, start, n, list, limit));
    }
    sent := sent + [Query(p, start, false, n)];
  }

  lemma FreshSize()
    ensures |FreshSession().data| == HEADER_SIZE
  {
  }

  lemma Regroup<T>(a: seq<T>, b: T, c: seq<T>)
    ensures a + ([b] + c) == a + [b] + c
  {
  }

  /** Which of the answers are sent. */
  function Kept(p: Session, answers: seq<Record>, limit: nat): (mask: seq<bool>)
    ensures |mask| == |answers|
    decreases |answers|
  {
    if answers == [] then [] else
    var r, rest, e := answers[0], answers[1..], FreshSession();
    if Fits(p, r, limit) then [true] + Kept(Put(p, r, limit), rest, limit)
    else if |p.data| <= HEADER_SIZE then [false] + Kept(p, rest, limit)
    else if Fits(e, r, limit) then [true] + Kept(Put(e, r, limit), rest, limit)
    else [false] + Kept(e, rest, limit)
  }

  function Selected(answers: seq<Record>, mask: seq<bool>): seq<Record>
    requires |answers| == |mask|
  {
    if answers == [] then [] else (if mask[0] then [answers[0]] else []) + Selected(answers[1..], mask[1..])
  }

  /** The records in the packets, packet by packet, as a receiver sees them. */
  function Contents(sent: seq<Query>): seq<Record> {
    if sent == [] then [] else Recorded(sent[0].content.accepted) + Contents(sent[1..])
  }

  function Recorded(cs: seq<Consumed>): seq<Record> {
    if cs == [] then [] else [cs[0].record] + Recorded(cs[1..])
  }

  function AllReceived(rs: seq<Record>): seq<Record> {
    if rs == [] then [] else [Received(rs[0], 0)] + AllReceived(rs[1..])
  }

  /** A packet that is empty is as good as a new one. */
  predicate Plain(p: Session) {
    |p.data| <= HEADER_SIZE ==> |p.data| == HEADER_SIZE && p.table == map[]
  }

  lemma PutFacts(p: Session, r: Record, limit: nat)
    requires Fits(p, r, limit) && Plain(p)
    ensures var q := Put(p, r, limit);
            && |q.accepted| == |p.accepted| + 1 && |q.data| > |p.data|
            && Recorded(q.accepted) == Recorded(p.accepted) + [Received(r, 0)]
            && (|p.data| >= HEADER_SIZE ==> Plain(q))
  {
    hide AppendRecord, Received;
    AppendRecordWithin(r, false, 0, p.table, |p.data|, limit);
    RecordedSnoc(p.accepted, Put(p, r, limit).accepted[|p.accepted|]);
  }

  lemma {:induction false} RecordedSnoc(cs: seq<Consumed>, c: Consumed)
    ensures Recorded(cs + [c]) == Recorded(cs) + [c.record]
  {
    if cs == [] {
      assert cs + [c] == [c];
    } else {
      assert (cs + [c])[1..] == cs[1..] + [c];
      RecordedSnoc(cs[1..], c);
    }
  }

  /** Every answer that fits an empty packet is sent. */
  lemma {:induction false} FittingKept(p: Session, answers: seq<Record>, limit: nat, i: nat)
    requires Plain(p) && |p.data| >= HEADER_SIZE && i < |answers| && Fits(FreshSession(), answers[i], limit)
    ensures Kept(p, answers, limit)[i]
    decreases |answers|
  {
    hide Step, AppendRecord, Recorded, Received;
    var r, rest, e := answers[0], answers[1..], FreshSession();
    FreshSize();
    FreshPlain(p, r, limit);
    if Fits(p, r, limit) {
      PutFacts(p, r, limit);
    }
    if Fits(e, r, limit) {
      PutFacts(e, r, limit);
    }
    if i > 0 {
      var next := if Fits(p, r, limit) then Put(p, r, limit) else if |p.data| <= HEADER_SIZE then p
                  else if Fits(e, r, limit) then Put(e, r, limit) else e;
      FittingKept(next, rest, limit, i - 1);
    }
  }

  lemma FreshPlain(p: Session, r: Record, limit: nat)
    requires Plain(p)
    ensures Plain(FreshSession())
    ensures |p.data| <= HEADER_SIZE ==> Fits(p, r, limit) == Fits(FreshSession(), r, limit)
  {
    hide AppendRecord;
  }

  /** The answers sent are the kept ones, each once and in list order; every packet's ANCOUNT is
      the number of answers in it; TC is set on every packet but the last. */
  lemma {:induction false} SendAllCorrect(p: Session, start: nat, n: nat, answers: seq<Record>, limit: nat)
    requires Plain(p) && |p.data| >= HEADER_SIZE && n == |p.accepted|
    ensures var sent := SendAll(p, start, n, answers, limit);
            && Contents(sent) == Recorded(p.accepted) + AllReceived(Selected(answers, Kept(p, answers, limit)))
            && (forall i :: 0 <= i < |sent| ==> sent[i].ancount == |sent[i].content.accepted|)
            && (forall i :: 0 <= i < |sent| ==> (sent[i].tc <==> i < |sent| - 1))
    decreases |answers|
  {
    hide Step, AppendRecord, Received, Plain;
    if answers == [] {
      assert Contents([Query(p, start, false, n)]) == Recorded(p.accepted) + [];
    } else {
      var r, rest, e := answers[0], answers[1..], FreshSession();
      FreshSize();
      FreshPlain(p, r, limit);
      if Fits(p, r, limit) {
        PutFacts(p, r, limit);
        SendAllCorrect(Put(p, r, limit), start, n + 1, rest, limit);
        KeptFirst(p, r, answers, limit, Kept(Put(p, r, limit), rest, limit), Recorded(p.accepted));
      } else if |p.data| <= HEADER_SIZE {
        SendAllCorrect(p, start, n, rest, limit);
        SkippedFirst(answers, Kept(p, rest, limit));
      } else {
        var more := if Fits(e, r, limit) then SendAll(Put(e, r, limit), HEADER_SIZE, 1, rest, limit)
                    else SendAll(e, HEADER_SIZE, 0, rest, limit);
        var sent := [Query(p, start, true, n)] + more;
        assert sent[1..] == more;
        EmptyFresh();
        if Fits(e, r, limit) {
          PutFacts(e, r, limit);
          SendAllCorrect(Put(e, r, limit), HEADER_SIZE, 1, rest, limit);
          KeptFirst(e, r, answers, limit, Kept(Put(e, r, limit), rest, limit), []);
        } else {
          SendAllCorrect(e, HEADER_SIZE, 0, rest, limit);
          SkippedFirst(answers, Kept(e, rest, limit));
        }
        assert forall i :: 0 <= i < |sent| ==> sent[i] == if i == 0 then Query(p, start, true, n) else more[i - 1];
      }
    }
  }

  lemma EmptyFresh()
    ensures FreshSession().accepted == [] && Recorded([]) == []
    ensures forall s: seq<Record> :: [] + s == s
  {
  }

  lemma KeptFirst(p: Session, r: Record, answers: seq<Record>, limit: nat, mask: seq<bool>, before: seq<Record>)
    requires answers != [] && r == answers[0] && |mask| == |answers| - 1
    ensures before + [Received(r, 0)] + AllReceived(Selected(answers[1..], mask))
         == before + AllReceived(Selected(answers, [true] + mask))
  {
    hide Received;
    assert ([true] + mask)[1..] == mask;
    var rest := Selected(answers[1..], mask);
    assert ([r] + rest)[1..] == rest;
  }

  lemma SkippedFirst(answers: seq<Record>, mask: seq<bool>)
    requires answers != [] && |mask| == |answers| - 1
    ensures Selected(answers, [false] + mask) == Selected(answers[1..], mask)
  {
    assert ([false] + mask)[1..] == mask;
    assert [] + Selected(answers[1..], mask) == Selected(answers[1..], mask);
  }

  /** Every packet sent can be read: from where its answers start, a receiver consumes exactly
      ANCOUNT records, the answers the packet holds. */
  lemma {:induction false} SentReadable(p: Session, start: nat, n: nat, answers: seq<Record>, limit: nat)
    requires Readable(p, start) && forall i :: 0 <= i < |answers| ==> PortableRecord(answers[i])
    ensures forall q :: q in SendAll(p, start, n, answers, limit) ==> Readable(q.content, q.start)
    decreases |answers|
  {
    hide Step, AppendRecord, PortableRecord, Readable;
    if answers != [] {
      var r, rest, e := answers[0], answers[1..], FreshSession();
      FreshIsReadable();
      StepReadable(p, Attempt(r, false, 0), limit, start);
      StepReadable(e, Attempt(r, false, 0), limit, HEADER_SIZE);
      SentReadable(Put(p, r, limit), start, n + 1, rest, limit);
      SentReadable(p, start, n, rest, limit);
      SentReadable(Put(e, r, limit), HEADER_SIZE, 1, rest, limit);
      SentReadable(e, HEADER_SIZE, 0, rest, limit);
    }
  }

  lemma FreshIsReadable()
    ensures Readable(FreshSession(), HEADER_SIZE)
  {
    hide Readable;
    FreshReadable();
  }
}
