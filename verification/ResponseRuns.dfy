/** What every step of the response scheduler keeps, and how far apart it makes two local sends
    of one record. */
module ResponseRuns {
  import opened Bytes
  import opened NameCodec
  import opened Records
  import opened RecordIdent
  import opened ResponseSpec

  ghost predicate NoDup(list: seq<Job>) {
    forall i, j :: 0 <= i < j < |list| ==> Id(list[i]) != Id(list[j])
  }

  /** No record has a job in both lists. */
  ghost predicate Disjoint(a: seq<Job>, b: seq<Job>) {
    forall i, j :: 0 <= i < |a| && 0 <= j < |b| ==> Id(a[i]) != Id(b[j])
  }

  ghost predicate NoDupFor(list: seq<Job>) {
    forall i, j :: 0 <= i < j < |list| ==> Id(list[i]) != Id(list[j]) || list[i].querier != list[j].querier
  }

  /** The state flag of every job names the list it is in. */
  ghost predicate Flagged(list: seq<Job>, state: JobState) {
    forall i :: 0 <= i < |list| ==> list[i].state == state && (state == Suppressed ==> list[i].querier.Some?)
  }

  /** At most one job per record among the scheduled and done ones, at most one suppressed job per
      record and querier, and every flag right. */
  ghost predicate Sane(s: State) {
    && NoDup(s.jobs) && NoDup(s.history) && Disjoint(s.jobs, s.history) && NoDupFor(s.suppressed)
    && Flagged(s.jobs, Scheduled) && Flagged(s.history, JobState.Done) && Flagged(s.suppressed, Suppressed)
  }

  /** No post excused the record between the two places of the log. */
  ghost predicate Clean(log: seq<Event>, id: Ident, from: nat, to: nat)
    requires to <= |log|
  {
    forall m :: from < m < to && log[m].Excused? ==> log[m].id != id
  }

  /** A history job that still keeps a send at `t` from being repeated. */
  predicate Protects(h: Job, id: Ident, t: int) {
    Id(h) == id && h.delivery >= t && h.due >= t + HISTORY
  }

  ghost predicate Protected(history: seq<Job>, id: Ident, t: int) {
    exists k :: 0 <= k < |history| && Protects(history[k], id, t)
  }

  /** Every unexcused send is either long ago or still in the history. */
  ghost predicate Remembered(s: State, now: int) {
    forall i :: 0 <= i < |s.log| && s.log[i].Sent? && Clean(s.log, s.log[i].id, i, |s.log|) ==>
      s.log[i].at <= now && (now >= s.log[i].at + HISTORY || Protected(s.history, s.log[i].id, s.log[i].at))
  }

  /** Two local sends of one record without an excuse between them are at least 500 ms apart. */
  ghost predicate Spaced(log: seq<Event>) {
    forall i, k :: 0 <= i < k < |log| && log[i].Sent? && log[k].Sent? && log[i].id == log[k].id && Clean(log, log[i].id, i, k) ==>
      log[k].at >= log[i].at + HISTORY
  }

  /** A post asks for more than a history job gave: the goodbye status differs, the TTL is more than
      twice the stored one, or the flush bit is wanted and not there. */
  predicate AsksForMore(record: Record, flush: bool, had: Job) {
    Goodbye(record) != Goodbye(had.record) || record.ttl / 2 > had.record.ttl || (flush && !had.flush)
  }

  /** An excuse is a post for its record that asks for more than a history job for that record,
      not yet outdated, gave. */
  ghost predicate Justified(e: Event) {
    e.Excused? ==>
      && e.id == IdentOf(e.asked) == Id(e.had) && (e.at - e.had.delivery) / 1000 <= HISTORY / 1000
      && AsksForMore(e.asked, e.flush, e.had)
  }

  ghost predicate AllJustified(log: seq<Event>) {
    forall m :: 0 <= m < |log| ==> Justified(log[m])
  }

  ghost predicate Inv(s: State, now: int) {
    Sane(s) && Remembered(s, now) && Spaced(s.log) && AllJustified(s.log)
  }

  // ---------- the elementary changes ----------

  lemma Later(s: State, now: int, then_: int)
    requires Inv(s, now) && now <= then_
    ensures Inv(s, then_)
  {
  }

  /** A history job goes when it can no longer protect anything. */
  lemma DropOld(s: State, k: nat, now: int)
    requires Inv(s, now) && k < |s.history|
    requires now >= s.history[k].due || now >= s.history[k].delivery + HISTORY
    ensures Inv(s.(history := Drop(s.history, k)), now)
  {
    hide Id, Clean;
    var s' := s.(history := Drop(s.history, k));
    DropSane(s.history, k);
    forall i | 0 <= i < |s.log| && s.log[i].Sent? && Clean(s.log, s.log[i].id, i, |s.log|) && now < s.log[i].at + HISTORY
      ensures Protected(s'.history, s.log[i].id, s.log[i].at)
    {
      DropProtected(s.history, k, s.log[i].id, s.log[i].at);
    }
  }

  lemma DropSane(list: seq<Job>, k: nat)
    requires k < |list|
    ensures NoDup(list) ==> NoDup(Drop(list, k))
    ensures NoDupFor(list) ==> NoDupFor(Drop(list, k))
    ensures forall st :: Flagged(list, st) ==> Flagged(Drop(list, k), st)
    ensures forall other :: (Disjoint(list, other) ==> Disjoint(Drop(list, k), other))
                         && (Disjoint(other, list) ==> Disjoint(other, Drop(list, k)))
    ensures NoDup(list) ==> forall i :: 0 <= i < |list| - 1 ==> Id(Drop(list, k)[i]) != Id(list[k])
  {
    hide Id;
    var d := Drop(list, k);
    assert forall i :: 0 <= i < |d| ==> d[i] == if i < k then list[i] else list[i + 1];
  }

  lemma DropProtected(history: seq<Job>, k: nat, id: Ident, t: int)
    requires k < |history| && Protected(history, id, t) && !Protects(history[k], id, t)
    ensures Protected(Drop(history, k), id, t)
  {
    hide Protects;
    var m :| 0 <= m < |history| && Protects(history[m], id, t);
    assert Drop(history, k)[if m < k then m else m - 1] == history[m];
  }

  /** A post that asks for more than the history job gave drops it and says so. */
  lemma Excuse(s: State, k: nat, now: int, e: Event)
    requires Inv(s, now) && k < |s.history| && e.Excused? && Id(s.history[k]) == e.id && Justified(e)
    ensures Inv(s.(history := Drop(s.history, k), log := s.log + [e]), now)
  {
    hide Id, Justified;
    var log := s.log + [e];
    DropSane(s.history, k);
    forall i | 0 <= i < |log| && log[i].Sent? && Clean(log, log[i].id, i, |log|) && now < log[i].at + HISTORY
      ensures Protected(Drop(s.history, k), log[i].id, log[i].at)
    {
      assert log[|s.log|] == e;
      CleanPrefix(s.log, e, log[i].id, i);
      DropProtected(s.history, k, log[i].id, log[i].at);
    }
    SpacedExcuse(s.log, e);
    SentBefore(s, now, log);
  }

  lemma SentBefore(s: State, now: int, log: seq<Event>)
    requires Remembered(s, now) && |log| == |s.log| + 1 && log[..|s.log|] == s.log && log[|s.log|].Excused?
    ensures forall i :: 0 <= i < |log| && log[i].Sent? && Clean(log, log[i].id, i, |log|) ==> log[i].at <= now
  {
    forall i | 0 <= i < |log| && log[i].Sent? && Clean(log, log[i].id, i, |log|) ensures log[i].at <= now {
      assert log[i] == s.log[i];
      assert Clean(s.log, s.log[i].id, i, |s.log|) by {
        assert forall m :: 0 <= m < |s.log| ==> s.log[m] == log[m];
      }
    }
  }

  lemma CleanPrefix(log: seq<Event>, e: Event, id: Ident, i: nat)
    requires i < |log|
    ensures Clean(log + [e], id, i, |log| + 1) ==> Clean(log, id, i, |log|) && (e.Excused? ==> e.id != id)
  {
    var l := log + [e];
    assert l[|log|] == e;
    assert forall m :: 0 <= m < |log| ==> l[m] == log[m];
  }

  lemma SpacedExcuse(log: seq<Event>, e: Event)
    requires Spaced(log) && e.Excused?
    ensures Spaced(log + [e])
  {
    var l := log + [e];
    forall i, k | 0 <= i < k < |l| && l[i].Sent? && l[k].Sent? && l[i].id == l[k].id && Clean(l, l[i].id, i, k)
      ensures l[k].at >= l[i].at + HISTORY
    {
      assert k < |log|;
      assert Clean(log, log[i].id, i, k) by {
        assert forall m :: 0 <= m < |log| ==> log[m] == l[m];
      }
    }
  }

  /** Scheduling for a record that has no history job. */
  lemma ScheduleInv(s: State, record: Record, flush: bool, querier: Option<Address>, tv: int, now: int)
    requires Inv(s, now) && Find(s.history, IdentOf(record)) == |s.history|
    ensures Inv(Schedule(s, record, flush, querier, tv), now)
  {
    hide IdentOf, Remembered, Spaced;
    var s' := Schedule(s, record, flush, querier, tv);
    assert Sane(s');
    assert Remembered(s', now) by {
      SameLogHistory(s, s', now);
    }
  }

  lemma SameLogHistory(s: State, s': State, now: int)
    requires Remembered(s, now) && s'.log == s.log && s'.history == s.history
    ensures Remembered(s', now)
  {
  }

  /** A scheduled job goes without being sent. */
  lemma DropJob(s: State, i: nat, now: int)
    requires Inv(s, now) && i < |s.jobs|
    ensures Inv(s.(jobs := Drop(s.jobs, i)), now)
  {
    hide Id, Remembered;
    DropSane(s.jobs, i);
    SameLogHistory(s, s.(jobs := Drop(s.jobs, i)), now);
  }

  /** The suppressed list does not matter to the others. */
  lemma ChangeSuppressed(s: State, suppressed: seq<Job>, now: int)
    requires Inv(s, now) && NoDupFor(suppressed) && Flagged(suppressed, Suppressed)
    ensures Inv(s.(suppressed := suppressed), now)
  {
    hide Id, Remembered;
    SameLogHistory(s, s.(suppressed := suppressed), now);
  }

  /** A job that becomes done takes the place a history job would have. */
  lemma MarkDoneInv(s: State, i: nat, now: int)
    requires Inv(s, now) && i < |s.jobs|
    ensures Inv(MarkDone(s, i, now), now)
  {
    hide Id, Remembered, Spaced;
    MarkDoneSane(s, i, now);
    MarkDoneRemembers(s, i, now);
  }

  lemma MarkDoneSane(s: State, i: nat, now: int)
    requires Sane(s) && i < |s.jobs|
    ensures Sane(MarkDone(s, i, now))
  {
    hide Id, NoDupFor;
    var h := s.jobs[i].(state := JobState.Done, delivery := now, due := now + HISTORY);
    assert Id(h) == Id(s.jobs[i]) by {
      SameId(s.jobs[i], h);
    }
    DropSane(s.jobs, i);
    PrependSane(h, s.history, Drop(s.jobs, i));
  }

  lemma SameId(a: Job, b: Job)
    requires a.record == b.record
    ensures Id(a) == Id(b)
  {
  }

  lemma PrependSane(h: Job, history: seq<Job>, jobs: seq<Job>)
    requires NoDup(history) && Flagged(history, JobState.Done) && Disjoint(jobs, history) && h.state == JobState.Done
    requires forall k :: 0 <= k < |history| ==> Id(history[k]) != Id(h)
    requires forall k :: 0 <= k < |jobs| ==> Id(jobs[k]) != Id(h)
    ensures NoDup([h] + history) && Flagged([h] + history, JobState.Done) && Disjoint(jobs, [h] + history)
  {
    hide Id;
    var l := [h] + history;
    assert forall k :: 0 <= k < |l| ==> l[k] == if k == 0 then h else history[k - 1];
  }

  lemma ReplaceSane(h: Job, history: seq<Job>, jobs: seq<Job>, k: nat)
    requires NoDup(history) && Flagged(history, JobState.Done) && Disjoint(jobs, history) && h.state == JobState.Done
    requires k < |history| && Id(history[k]) == Id(h)
    ensures var l := history[k := h]; NoDup(l) && Flagged(l, JobState.Done) && Disjoint(jobs, l)
  {
    hide Id;
    var l := history[k := h];
    assert forall m :: 0 <= m < |l| ==> Id(l[m]) == Id(history[m]);
  }

  lemma MarkDoneRemembers(s: State, i: nat, now: int)
    requires Remembered(s, now) && i < |s.jobs|
    ensures Remembered(MarkDone(s, i, now), now)
  {
    hide Id, Clean;
    var s' := MarkDone(s, i, now);
    forall m | 0 <= m < |s.log| && s.log[m].Sent? && Clean(s.log, s.log[m].id, m, |s.log|) && now < s.log[m].at + HISTORY
      ensures Protected(s'.history, s.log[m].id, s.log[m].at)
    {
      PrependProtected(s'.history[0], s.history, s.log[m].id, s.log[m].at);
    }
  }

  lemma PrependProtected(h: Job, history: seq<Job>, id: Ident, t: int)
    requires Protected(history, id, t) || Protects(h, id, t)
    ensures Protected([h] + history, id, t)
  {
    hide Protects;
    var l := [h] + history;
    if Protects(h, id, t) {
      assert l[0] == h;
    } else {
      var k :| 0 <= k < |history| && Protects(history[k], id, t);
      assert l[k + 1] == history[k];
    }
  }

  /** A local send: the job was scheduled, so no history job for its record was left, so every
      unexcused earlier send of it is long ago. */
  lemma SendInv(s: State, i: nat, now: int)
    requires Inv(s, now) && i < |s.jobs|
    ensures var s' := MarkDone(s, i, now); Inv(s'.(log := s.log + [Sent(Id(s.jobs[i]), now)]), now)
  {
    var id := Id(s.jobs[i]);
    var log := s.log + [Sent(id, now)];
    var s' := MarkDone(s, i, now).(log := log);
    MarkDoneSane(s, i, now);
    assert Protects(s'.history[0], id, now);
    forall m | 0 <= m < |s.log| && s.log[m].Sent? && s.log[m].id == id && Clean(s.log, id, m, |s.log|)
      ensures now >= s.log[m].at + HISTORY
    {
      NotProtected(s, i, s.log[m].at);
    }
    SendRemembers(s, s', id, now);
    SendSpaced(s.log, id, now);
  }

  lemma NotProtected(s: State, i: nat, t: int)
    requires Sane(s) && i < |s.jobs|
    ensures !Protected(s.history, Id(s.jobs[i]), t)
  {
    hide Id;
  }

  lemma SendRemembers(s: State, s': State, id: Ident, now: int)
    requires Remembered(s, now) && |s'.history| == |s.history| + 1 && s'.history[1..] == s.history
    requires s'.log == s.log + [Sent(id, now)] && Protects(s'.history[0], id, now)
    ensures Remembered(s', now)
  {
    hide Clean, Protects;
    forall m | 0 <= m < |s'.log| && s'.log[m].Sent? && Clean(s'.log, s'.log[m].id, m, |s'.log|)
      ensures s'.log[m].at <= now
      ensures now >= s'.log[m].at + HISTORY || Protected(s'.history, s'.log[m].id, s'.log[m].at)
    {
      assert s'.history == [s'.history[0]] + s.history;
      if m < |s.log| {
        CleanPrefix(s.log, Sent(id, now), s.log[m].id, m);
        if now < s.log[m].at + HISTORY {
          PrependProtected(s'.history[0], s.history, s.log[m].id, s.log[m].at);
        }
      } else {
        PrependProtected(s'.history[0], s.history, id, now);
      }
    }
  }

  lemma SendSpaced(log: seq<Event>, id: Ident, now: int)
    requires Spaced(log)
    requires forall m :: 0 <= m < |log| && log[m].Sent? && log[m].id == id && Clean(log, id, m, |log|) ==> now >= log[m].at + HISTORY
    ensures Spaced(log + [Sent(id, now)])
  {
    var l := log + [Sent(id, now)];
    forall i, k | 0 <= i < k < |l| && l[i].Sent? && l[k].Sent? && l[i].id == l[k].id && Clean(l, l[i].id, i, k)
      ensures l[k].at >= l[i].at + HISTORY
    {
      assert Clean(log, log[i].id, i, k) by {
        assert forall m :: 0 <= m < |log| ==> log[m] == l[m];
      }
    }
  }

  /** A received record takes the place of the history job for it, or of none. */
  lemma ReceiveInv(s: State, k: nat, h: Job, now: int)
    requires Inv(s, now) && k <= |s.history| && Find(s.jobs, Id(h)) == |s.jobs|
    requires if k < |s.history| then Id(s.history[k]) == Id(h) else Find(s.history, Id(h)) == |s.history|
    requires h.state == JobState.Done && h.delivery == now && h.due == now + HISTORY
    ensures Inv(s.(history := if k < |s.history| then s.history[k := h] else [h] + s.history), now)
  {
    var s' := s.(history := if k < |s.history| then s.history[k := h] else [h] + s.history);
    hide Id, Clean;
    if k < |s.history| {
      ReplaceSane(h, s.history, s.jobs, k);
    } else {
      PrependSane(h, s.history, s.jobs);
    }
    hide Sane;
    ReceiveRemembers(s, k, h, now);
  }

  lemma ReceiveRemembers(s: State, k: nat, h: Job, now: int)
    requires Remembered(s, now) && k <= |s.history| && (k < |s.history| ==> Id(s.history[k]) == Id(h))
    requires h.delivery == now && h.due == now + HISTORY
    ensures Remembered(s.(history := if k < |s.history| then s.history[k := h] else [h] + s.history), now)
  {
    hide Id, Clean;
    var s' := s.(history := if k < |s.history| then s.history[k := h] else [h] + s.history);
    forall m | 0 <= m < |s.log| && s.log[m].Sent? && Clean(s.log, s.log[m].id, m, |s.log|) && now < s.log[m].at + HISTORY
      ensures Protected(s'.history, s.log[m].id, s.log[m].at)
    {
      ReplaceProtected(s.history, k, h, s.log[m].id, s.log[m].at, now);
    }
  }

  lemma ReplaceProtected(history: seq<Job>, k: nat, h: Job, id: Ident, t: int, now: int)
    requires k <= |history| && Protected(history, id, t) && t <= now
    requires k < |history| ==> Id(history[k]) == Id(h)
    requires h.delivery == now && h.due == now + HISTORY
    ensures Protected(if k < |history| then history[k := h] else [h] + history, id, t)
  {
    hide Id;
    var m :| 0 <= m < |history| && Protects(history[m], id, t);
    var l := if k < |history| then history[k := h] else [h] + history;
    if k < |history| {
      assert Protects(l[m], id, t);
    } else {
      assert l[m + 1] == history[m];
    }
  }

  // ---------- the operations ----------

  lemma FreshInv(s: State, id: Ident, now: int)
    requires Inv(s, now)
    ensures var s' := FreshHistory(s, id, now);
            && Inv(s', now) && s'.jobs == s.jobs && s'.suppressed == s.suppressed && s'.log == s.log
            && var i := HistoryAt(s, id, now);
               if i < |s'.history| then Id(s'.history[i]) == id else Find(s'.history, id) == |s'.history|
  {
    hide Id, Inv;
    var i := Find(s.history, id);
    if i < |s.history| && (now - s.history[i].delivery) / 1000 > HISTORY / 1000 {
      DropOld(s, i, now);
      InvSane(s, now);
      DropSane(s.history, i);
      DropFind(s.history, i, id);
    }
  }

  lemma InvSane(s: State, now: int)
    requires Inv(s, now)
    ensures Sane(s) && NoDup(s.history) && NoDupFor(s.suppressed) && Flagged(s.suppressed, Suppressed) && Flagged(s.history, JobState.Done)
  {
  }

  lemma DropFind(list: seq<Job>, i: nat, id: Ident)
    requires i < |list| && Id(list[i]) == id
    requires forall k :: 0 <= k < |list| - 1 ==> Id(Drop(list, i)[k]) != id
    ensures Find(Drop(list, i), id) == |Drop(list, i)| < |list|
  {
    hide Id;
  }

  lemma FreshSuppressedInv(s: State, id: Ident, querier: Address, now: int)
    requires Inv(s, now)
    ensures var s' := FreshSuppressed(s, id, querier, now);
            && Inv(s', now) && s'.jobs == s.jobs && s'.history == s.history && s'.log == s.log
            && var i := SuppressedAt(s, id, querier, now);
               if i < |s'.suppressed| then Id(s'.suppressed[i]) == id && s'.suppressed[i].querier == Some(querier)
               else FindFor(s'.suppressed, id, querier) == |s'.suppressed|
  {
    hide Id, Inv;
    InvSane(s, now);
    var i := FindFor(s.suppressed, id, querier);
    if i < |s.suppressed| && now - s.suppressed[i].delivery > SUPPRESS {
      DropSane(s.suppressed, i);
      ChangeSuppressed(s, Drop(s.suppressed, i), now);
      DropFindFor(s.suppressed, i, id, querier);
    }
  }

  lemma DropFindFor(list: seq<Job>, i: nat, id: Ident, querier: Address)
    requires NoDupFor(list) && i < |list| && Id(list[i]) == id && list[i].querier == Some(querier)
    ensures FindFor(Drop(list, i), id, querier) == |Drop(list, i)| < |list|
  {
    hide Id;
    var d := Drop(list, i);
    forall k | 0 <= k < |d| ensures !(Id(d[k]) == id && d[k].querier == Some(querier)) {
      assert d[k] == if k < i then list[k] else list[k + 1];
    }
  }

  lemma PostInv(s: State, record: Record, flush: bool, querier: Option<Address>, delay: int, now: int)
    requires Inv(s, now)
    ensures Inv(Post(s, record, flush, querier, delay, now).state, now)
  {
    hide IdentOf, Inv, Covers, Schedule, Find, FindFor, FreshHistory, FreshSuppressed, HistoryAt, SuppressedAt, Drop, Justified;
    var id := IdentOf(record);
    var s1 := if querier.Some? then FreshSuppressed(s, id, querier.value, now) else s;
    if querier.Some? {
      FreshSuppressedInv(s, id, querier.value, now);
    }
    var s2, i := FreshHistory(s1, id, now), HistoryAt(s1, id, now);
    FreshInv(s1, id, now);
    if i == |s2.history| {
      ScheduleInv(s2, record, flush, querier, now + delay, now);
    } else if !(Covers(s2.history[i], record) && (s2.history[i].flush || !flush)) {
      var e := Excused(id, now, record, flush, s2.history[i]);
      HistoryYoung(s1, id, now);
      IsJustified(record, flush, s2.history[i], now);
      Excuse(s2, i, now, e);
      var s3 := s2.(history := Drop(s2.history, i), log := s2.log + [e]);
      InvSane(s2, now);
      DropSane(s2.history, i);
      DropFind(s2.history, i, id);
      ScheduleInv(s3, record, flush, querier, now + delay, now);
    }
  }

  /** What find_history_job returns is not outdated. */
  lemma HistoryYoung(s: State, id: Ident, now: int)
    ensures var t, i := FreshHistory(s, id, now), HistoryAt(s, id, now);
            i < |t.history| ==> Id(t.history[i]) == id && (now - t.history[i].delivery) / 1000 <= HISTORY / 1000
    ensures var i := Find(s.history, id);
            HistoryAt(s, id, now) < |FreshHistory(s, id, now).history|
            <==> i < |s.history| && (now - s.history[i].delivery) / 1000 <= HISTORY / 1000
    ensures var t, i := FreshHistory(s, id, now), HistoryAt(s, id, now);
            i < |t.history| ==> t == s && i == Find(s.history, id)
  {
    hide Id;
    var i := Find(s.history, id);
    if i < |s.history| && (now - s.history[i].delivery) / 1000 > HISTORY / 1000 {
      assert |Drop(s.history, i)| < |s.history|;
    }
  }

  lemma IsJustified(record: Record, flush: bool, had: Job, now: int)
    requires !(Covers(had, record) && (had.flush || !flush))
    requires Id(had) == IdentOf(record) && (now - had.delivery) / 1000 <= HISTORY / 1000
    ensures Justified(Excused(IdentOf(record), now, record, flush, had))
  {
    hide Id, IdentOf, Goodbye;
  }

  /** A suppressed job that still keeps a record from being sent to the one who knows it. */
  ghost predicate KnownTo(s: State, record: Record, querier: Address, now: int) {
    exists q :: q in s.suppressed && Id(q) == IdentOf(record) && q.querier == Some(querier)
                && now - q.delivery <= SUPPRESS && Covers(q, record)
  }

  /** A history job that is not outdated answers for less than is asked. */
  ghost predicate AnsweredForLess(s: State, record: Record, flush: bool, now: int) {
    exists h :: h in s.history && Id(h) == IdentOf(record) && (now - h.delivery) / 1000 <= HISTORY / 1000
                && AsksForMore(record, flush, h)
  }

  /** A post, for whatever querier, is excused exactly when the querier does not know the record
      and a history job that is not outdated answers for less. */
  lemma PostExcused(s: State, record: Record, flush: bool, querier: Option<Address>, delay: int, now: int)
    requires Inv(s, now)
    ensures Post(s, record, flush, querier, delay, now).state.log != s.log <==>
              !(querier.Some? && KnownTo(s, record, querier.value, now)) && AnsweredForLess(s, record, flush, now)
  {
    hide *;
    InvSane(s, now);
    var id := IdentOf(record);
    var s1 := if querier.Some? then FreshSuppressed(s, id, querier.value, now) else s;
    if querier.Some? {
      KnownToIs(s, record, querier.value, now);
      FreshSuppressedIs(s, id, querier.value, now);
    }
    AnsweredIs(s, s1, record, flush, now);
    HistoryYoung(s1, id, now);
    PostLog(s, record, flush, querier, delay, now);
  }

  lemma FreshSuppressedIs(s: State, id: Ident, querier: Address, now: int)
    ensures var s1 := FreshSuppressed(s, id, querier, now); s1.history == s.history && s1.log == s.log
  {
  }

  /** The log of a post, by the two searches it makes. */
  lemma PostLog(s: State, record: Record, flush: bool, querier: Option<Address>, delay: int, now: int)
    ensures var id := IdentOf(record);
            var s1 := if querier.Some? then FreshSuppressed(s, id, querier.value, now) else s;
            var s2, i := FreshHistory(s1, id, now), HistoryAt(s1, id, now);
            Post(s, record, flush, querier, delay, now).state.log != s.log <==>
              && !(querier.Some? && SuppressedAt(s, id, querier.value, now) < |s1.suppressed|
                   && Covers(s1.suppressed[SuppressedAt(s, id, querier.value, now)], record))
              && i < |s2.history| && !(Covers(s2.history[i], record) && (s2.history[i].flush || !flush))
  {
    hide IdentOf, Id, Covers, Find, FindFor, Drop;
    Longer(s.log);
  }

  lemma Longer(log: seq<Event>)
    ensures forall e: Event {:trigger log + [e]} :: log + [e] != log
  {
    forall e: Event ensures log + [e] != log {
      assert |log + [e]| == |log| + 1;
    }
  }

  lemma KnownToIs(s: State, record: Record, querier: Address, now: int)
    requires NoDupFor(s.suppressed)
    ensures var id := IdentOf(record);
            var s1, k := FreshSuppressed(s, id, querier, now), SuppressedAt(s, id, querier, now);
            KnownTo(s, record, querier, now) <==> k < |s1.suppressed| && Covers(s1.suppressed[k], record)
  {
    hide IdentOf, Id, Covers;
    var k := FindFor(s.suppressed, IdentOf(record), querier);
    if k < |s.suppressed| {
      assert s.suppressed[k] in s.suppressed;
      assert |Drop(s.suppressed, k)| < |s.suppressed|;
    }
  }

  lemma AnsweredIs(s: State, s1: State, record: Record, flush: bool, now: int)
    requires NoDup(s.history) && s1.history == s.history
    ensures var i := Find(s1.history, IdentOf(record));
            AnsweredForLess(s, record, flush, now) <==>
              && i < |s1.history| && (now - s1.history[i].delivery) / 1000 <= HISTORY / 1000
              && !(Covers(s1.history[i], record) && (s1.history[i].flush || !flush))
  {
    hide IdentOf, Id, Goodbye;
    var i := Find(s.history, IdentOf(record));
    if i < |s.history| {
      assert s.history[i] in s.history;
    }
  }

  lemma {:induction false} PostAllInv(s: State, aux: seq<Aux>, querier: Option<Address>, now: int)
    requires Inv(s, now)
    ensures Inv(PostAll(s, aux, querier, now), now)
    decreases |aux|
  {
    hide Inv, Post;
    if aux != [] {
      PostInv(s, aux[0].record, aux[0].flush, querier, aux[0].delay, now);
      PostAllInv(Post(s, aux[0].record, aux[0].flush, querier, aux[0].delay, now).state, aux[1..], querier, now);
    }
  }

  lemma IncomingInv(s: State, record: Record, flush: bool, now: int)
    requires Inv(s, now)
    ensures Inv(Incoming(s, record, flush, now), now)
  {
    hide Inv, Find, FreshHistory, HistoryAt, MarkDone, Goodbye;
    var id := IdentOf(record);
    var i := Find(s.jobs, id);
    if i < |s.jobs| {
      MarkDoneInv(s, i, now);
    } else {
      var s1, k := FreshHistory(s, id, now), HistoryAt(s, id, now);
      FreshInv(s, id, now);
      InvSane(s1, now);
      var h := Job(JobState.Done, record, flush, now, now + HISTORY, None);
      assert Id(h) == id;
      ReceiveInv(s1, k, h, now);
    }
  }

  lemma SuppressInv(s: State, record: Record, querier: Address, now: int)
    requires Inv(s, now)
    ensures Inv(Suppress(s, record, querier, now), now)
  {
    hide Inv, Find, FindFor, FreshSuppressed, SuppressedAt, Goodbye, Drop;
    var id := IdentOf(record);
    var i := Find(s.jobs, id);
    var s1 := if i < |s.jobs| && s.jobs[i].querier == Some(querier) && Goodbye(record) == Goodbye(s.jobs[i].record)
                 && record.ttl >= s.jobs[i].record.ttl / 2
              then s.(jobs := Drop(s.jobs, i)) else s;
    if i < |s.jobs| {
      DropJob(s, i, now);
    }
    FreshSuppressedInv(s1, id, querier, now);
    var s2, k := FreshSuppressed(s1, id, querier, now), SuppressedAt(s1, id, querier, now);
    InvSane(s2, now);
    SuppressedSane(s2.suppressed, k, record, querier, now);
    ChangeSuppressed(s2, Noted(s2.suppressed, k, record, querier, now), now);
  }

  /** The suppressed list with the job for a record and a querier brought up to date, or a new one. */
  function Noted(list: seq<Job>, k: nat, record: Record, querier: Address, now: int): seq<Job> {
    if k < |list| then list[k := list[k].(record := record, delivery := now, due := now + SUPPRESS)]
    else [Job(Suppressed, record, false, now, now + SUPPRESS, Some(querier))] + list
  }

  lemma SuppressedSane(list: seq<Job>, k: nat, record: Record, querier: Address, now: int)
    requires NoDupFor(list) && Flagged(list, Suppressed)
    requires if k < |list| then Id(list[k]) == IdentOf(record) && list[k].querier == Some(querier)
             else FindFor(list, IdentOf(record), querier) == |list|
    ensures NoDupFor(Noted(list, k, record, querier, now)) && Flagged(Noted(list, k, record, querier, now), Suppressed)
  {
    var l := Noted(list, k, record, querier, now);
    assert k < |list| ==> Id(l[k]) == Id(list[k]);
    assert k >= |list| ==> Id(l[0]) == IdentOf(record);
    hide Id, IdentOf, FindFor;
    if k < |list| {
      assert forall m :: 0 <= m < |l| ==> Id(l[m]) == Id(list[m]) && l[m].querier == list[m].querier;
    } else {
      assert forall m :: 1 <= m < |l| ==> l[m] == list[m - 1];
    }
  }

  lemma AfterAppendInv(s: State, i: nat, aux: seq<Aux>, now: int)
    requires Inv(s, now) && i < |s.jobs|
    ensures Inv(AfterAppend(s, i, aux, now), now)
  {
    assert Has(s.jobs, Id(s.jobs[i]));
    hide Inv, PostAll, MarkDone, Has, Id;
    var s1 := PostAll(s, aux, s.jobs[i].querier, now);
    PostAllInv(s, aux, s.jobs[i].querier, now);
    PostAllKeeps(s, aux, s.jobs[i].querier, now, Id(s.jobs[i]));
    HasFind(s1.jobs, Id(s.jobs[i]));
    SendInv(s1, Find(s1.jobs, Id(s.jobs[i])), now);
  }

  lemma {:induction false} FillInv(s: State, p: Pack, sent: seq<Job>, aux: Record -> seq<Aux>, now: int)
    requires Inv(s, now) && |p.data| <= p.limit
    ensures Inv(Fill(s, p, sent, aux, now).state, now)
    decreases p.limit - |p.data|
  {
    hide Inv, AfterAppend, AppendRecord;
    if s.jobs != [] && AddJob(s, 0, p, aux, now).Added? {
      AfterAppendInv(s, 0, aux(s.jobs[0].record), now);
      AddJobGrows(s, 0, p, aux, now);
      var a := AddJob(s, 0, p, aux, now);
      FillInv(a.state, a.pack, sent + [s.jobs[0]], aux, now);
    }
  }

  lemma SendStepInv(s: State, i: nat, limit: nat, aux: Record -> seq<Aux>, now: int)
    requires Inv(s, now) && i < |s.jobs| && limit >= HEADER_SIZE
    ensures Inv(Send(s, i, limit, aux, now).state, now)
  {
    hide Inv, AfterAppend, AppendRecord, Fill, MarkDone, EstimateSize;
    AfterAppendInv(s, i, aux(s.jobs[i].record), now);
    MarkDoneInv(s, i, now);
    var a := AddJob(s, i, Empty(limit), aux, now);
    if a.Added? {
      AddJobGrows(s, i, Empty(limit), aux, now);
      FillInv(a.state, a.pack, [s.jobs[i]], aux, now);
    }
  }

  // ---------- whole runs ----------

  datatype Step =
    | Posting(record: Record, flush: bool, querier: Option<Address>, delay: int)
    | Receiving(record: Record, flush: bool)
    | KnownAnswer(record: Record, from: Address)
    | HistoryTimer(i: nat)
    | SuppressedTimer(i: nat)
    | SendTimer(i: nat, limit: nat, aux: Record -> seq<Aux>)

  /** One call into the scheduler at time `now`. A history timer fires only when it is due. The size
      of packets and the records that go along with others may differ from send to send. */
  ghost predicate Next(s: State, t: Step, now: int, s': State) {
    match t
    case Posting(record, flush, querier, delay) => s' == Post(s, record, flush, querier, delay, now).state
    case Receiving(record, flush) => s' == Incoming(s, record, flush, now)
    case KnownAnswer(record, querier) => s' == Suppress(s, record, querier, now)
    case HistoryTimer(i) => i < |s.history| && now >= s.history[i].due && s' == DropHistory(s, i)
    case SuppressedTimer(i) => i < |s.suppressed| && s' == DropSuppressed(s, i)
    case SendTimer(i, limit, aux) => i < |s.jobs| && limit >= HEADER_SIZE && s' == Send(s, i, limit, aux, now).state
  }

  lemma NextInv(s: State, t: Step, now: int, s': State)
    requires Inv(s, now) && Next(s, t, now, s')
    ensures Inv(s', now)
  {
    hide Inv, Post, Incoming, Suppress, Send;
    match t {
      case Posting(record, flush, querier, delay) => PostInv(s, record, flush, querier, delay, now);
      case Receiving(record, flush) => IncomingInv(s, record, flush, now);
      case KnownAnswer(record, querier) => SuppressInv(s, record, querier, now);
      case HistoryTimer(i) => DropOld(s, i, now);
      case SuppressedTimer(i) =>
        InvSane(s, now);
        DropSane(s.suppressed, i);
        ChangeSuppressed(s, Drop(s.suppressed, i), now);
      case SendTimer(i, limit, aux) => SendStepInv(s, i, limit, aux, now);
    }
  }

  /** A run from an empty scheduler, with a clock that does not go back. */
  ghost predicate Run(states: seq<State>, steps: seq<Step>, clock: seq<int>) {
    && |states| == |steps| + 1 == |clock|
    && states[0] == State([], [], [], [])
    && forall i :: 0 <= i < |steps| ==> clock[i] <= clock[i + 1] && Next(states[i], steps[i], clock[i + 1], states[i + 1])
  }

  lemma {:induction false} RunInv(states: seq<State>, steps: seq<Step>, clock: seq<int>, i: nat)
    requires Run(states, steps, clock) && i < |states|
    ensures |clock| == |states| && Inv(states[i], clock[i])
  {
    hide *;
    if i == 0 {
      RunStarts(states, steps, clock);
    } else {
      RunInv(states, steps, clock, i - 1);
      RunStep(states, steps, clock, i - 1);
      Later(states[i - 1], clock[i - 1], clock[i]);
      NextInv(states[i - 1], steps[i - 1], clock[i], states[i]);
    }
  }

  lemma RunStarts(states: seq<State>, steps: seq<Step>, clock: seq<int>)
    requires Run(states, steps, clock)
    ensures |states| == |steps| + 1 == |clock| && Inv(states[0], clock[0])
  {
    hide Next;
  }

  lemma RunStep(states: seq<State>, steps: seq<Step>, clock: seq<int>, i: nat)
    requires Run(states, steps, clock) && i < |states| - 1
    ensures |states| == |steps| + 1 == |clock|
    ensures clock[i] <= clock[i + 1] && Next(states[i], steps[i], clock[i + 1], states[i + 1])
  {
    hide Next;
  }

  /** Over every run, every reachable state has its jobs in order, and any two local sends of one
      record are at least half a second apart, unless in between some post for the record asked
      for more than a history job for it gave that was not yet outdated. */
  lemma LocalSendsSpaced(states: seq<State>, steps: seq<Step>, clock: seq<int>, n: nat, i: nat, k: nat)
    requires Run(states, steps, clock) && n < |states| && i < k < |states[n].log|
    ensures Sane(states[n])
    ensures var log := states[n].log;
            log[i].Sent? && log[k].Sent? && log[i].id == log[k].id ==>
              log[k].at - log[i].at >= HISTORY || exists m :: i < m < k && Excuses(log[m], log[i].id)
  {
    hide Run;
    RunInv(states, steps, clock, n);
    var log := states[n].log;
    if log[i].Sent? && log[k].Sent? && log[i].id == log[k].id && !Clean(log, log[i].id, i, k) {
      var m :| i < m < k && log[m].Excused? && log[m].id == log[i].id;
      assert Justified(log[m]);
      assert Excuses(log[m], log[i].id);
    }
  }

  /** A post for the record `id` that asks for more than the job `e.had` gave. */
  ghost predicate Excuses(e: Event, id: Ident) {
    && e.Excused? && IdentOf(e.asked) == id == Id(e.had)
    && (e.at - e.had.delivery) / 1000 <= HISTORY / 1000 && AsksForMore(e.asked, e.flush, e.had)
  }
}
