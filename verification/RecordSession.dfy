/** Whole runs: any sequence of attempts to append records, some accepted and some refused,
    leaves a packet from which exactly the accepted records are consumed, in order. */
module RecordSession {
  import opened Bytes
  import opened NameCodec
  import opened Domain
  import opened Records
  import opened RecordRoundTrip

  datatype Attempt = Attempt(record: Record, flush: bool, maxTtl: uint32)

  /** A packet's bytes and table, and what a reader of the accepted records will see. */
  datatype Session = Session(data: seq<byte>, table: NameTable, accepted: seq<Consumed>)

  /** One call of avahi_dns_packet_append_record; a refused record changes nothing. */
  function Step(s: Session, t: Attempt, limit: nat): Session {
    match AppendRecord(t.record, t.flush, t.maxTtl, s.table, |s.data|, limit)
    case Done(bytes, table) =>
      Session(s.data + bytes, table,
              s.accepted + [Consumed(Received(t.record, t.maxTtl), t.flush, |s.data| + |bytes|)])
    case _ => s
  }

  function Run(s: Session, attempts: seq<Attempt>, limit: nat): Session
    decreases |attempts|
  {
    if attempts == [] then s else Run(Step(s, attempts[0], limit), attempts[1..], limit)
  }

  /** Consuming `n` records one behind the other. */
  function ConsumeAll(data: seq<byte>, at: nat, n: nat): Option<seq<Consumed>>
    decreases n
  {
    if n == 0 then Some([]) else
    match ConsumeRecord(data, at)
    case None => None
    case Some(c) =>
      match ConsumeAll(data, c.end, n - 1)
      case None => None
      case Some(more) => Some([c] + more)
  }

  /** The packet is sound, and reading from `start` gives what was accepted, ending at its end,
      whatever is appended later. */
  ghost predicate Readable(s: Session, start: nat) {
    && HEADER_SIZE <= |s.data| && SoundTable(s.data, s.table)
    && |s.data| == (if s.accepted == [] then start else s.accepted[|s.accepted| - 1].end)
    && forall later: seq<byte> :: ConsumeAll(s.data + later, start, |s.accepted|) == Some(s.accepted)
  }

  lemma {:induction false} ConsumeAllSnoc(data: seq<byte>, at: nat, cs: seq<Consumed>, c: Consumed)
    requires ConsumeAll(data, at, |cs|) == Some(cs)
    requires ConsumeRecord(data, if cs == [] then at else cs[|cs| - 1].end) == Some(c)
    ensures ConsumeAll(data, at, |cs| + 1) == Some(cs + [c])
    decreases |cs|
  {
    hide ConsumeRecord;
    if cs == [] {
      assert ConsumeAll(data, c.end, 0) == Some([]);
      assert [c] + [] == cs + [c];
    } else {
      var first := ConsumeRecord(data, at).value;
      var rest := ConsumeAll(data, first.end, |cs| - 1).value;
      assert cs == [first] + rest;
      assert cs[1..] == rest;
      ConsumeAllSnoc(data, first.end, cs[1..], c);
      assert [cs[0]] + (cs[1..] + [c]) == cs + [c];
    }
  }

  lemma StepReadable(s: Session, t: Attempt, limit: nat, start: nat)
    requires Readable(s, start) && PortableRecord(t.record)
    ensures Readable(Step(s, t, limit), start)
  {
    hide AppendRecord, ConsumeRecord, ConsumeAll, SoundTable, PortableRecord, Received;
    var a := AppendRecord(t.record, t.flush, t.maxTtl, s.table, |s.data|, limit);
    if a.Done? {
      var now := Step(s, t, limit);
      RecordComesBack(t.record, t.flush, t.maxTtl, s.data, s.table, limit, []);
      forall later: seq<byte>
        ensures ConsumeAll(now.data + later, start, |now.accepted|) == Some(now.accepted)
      {
        RecordComesBack(t.record, t.flush, t.maxTtl, s.data, s.table, limit, later);
        assert s.data + a.bytes + later == s.data + (a.bytes + later);
        ConsumeAllSnoc(now.data + later, start, s.accepted, now.accepted[|s.accepted|]);
      }
    }
  }

  /** Over every run of appends to a sound packet, a reader that starts where the run started
      consumes exactly the accepted records, each with its key, capped TTL, flush bit and
      rdata, and ends at the end of the packet. */
  lemma {:induction false} RunReadable(s: Session, attempts: seq<Attempt>, limit: nat, start: nat)
    requires Readable(s, start)
    requires forall i :: 0 <= i < |attempts| ==> PortableRecord(attempts[i].record)
    ensures Readable(Run(s, attempts, limit), start)
    decreases |attempts|
  {
    hide Readable, Step, PortableRecord;
    if attempts != [] {
      StepReadable(s, attempts[0], limit, start);
      RunReadable(Step(s, attempts[0], limit), attempts[1..], limit, start);
    }
  }

  /** When nothing is refused, what is accepted is what was attempted, in order. */
  lemma {:induction false} RunAccepts(s: Session, attempts: seq<Attempt>, limit: nat)
    ensures var t, n := Run(s, attempts, limit), |s.accepted|;
            && n <= |t.accepted| <= n + |attempts| && s.accepted <= t.accepted
            && (|t.accepted| == n + |attempts| ==> forall i :: 0 <= i < |attempts| ==>
                  && t.accepted[n + i].record == Received(attempts[i].record, attempts[i].maxTtl)
                  && t.accepted[n + i].flush == attempts[i].flush)
    decreases |attempts|
  {
    hide AppendRecord, Received;
    if attempts != [] {
      var a := attempts[0];
      var now := Step(s, a, limit);
      RunAccepts(now, attempts[1..], limit);
      var t, n := Run(s, attempts, limit), |s.accepted|;
      if |t.accepted| == n + |attempts| {
        assert t.accepted[n] == now.accepted[n];
        forall i | 0 <= i < |attempts|
          ensures t.accepted[n + i].record == Received(attempts[i].record, attempts[i].maxTtl) && t.accepted[n + i].flush == attempts[i].flush
        {
          if i > 0 {
            assert t.accepted[n + i] == t.accepted[n + 1 + (i - 1)] && attempts[i] == attempts[1..][i - 1];
          }
        }
      }
    }
  }

  /** A new packet is where such a run may start. */
  lemma FreshReadable()
    ensures Readable(Session(seq(HEADER_SIZE, _ => 0), map[], []), HEADER_SIZE)
  {
  }
}
