/** The two job lists that the query and the probe scheduler of avahi-core keep alike
    (query-sched.c, probe-sched.c): jobs scheduled, and a history of the jobs done, which holds a
    job back for `span` microseconds after it was sent or heard. */
module JobLists {
  import opened Bytes

  /** A job for an item; two jobs are for the same thing when their keys are equal. Its timer
      fires at `due`, and `done` is the flag by which it is unlinked. */
  datatype Job<T, K> = Job(item: T, key: K, id: nat, posted: nat, delivery: int, due: int, done: bool)

  /** The item was sent by this host; or it was seen from another one, or given up as too large. */
  datatype Event<K> = Sent(key: K, at: int) | Heard(key: K, at: int)

  datatype State<T, K> = State(jobs: seq<Job<T, K>>, history: seq<Job<T, K>>, log: seq<Event<K>>)

  function Find<T, K(==)>(list: seq<Job<T, K>>, key: K): (i: nat)
    ensures i <= |list|
    ensures i < |list| ==> list[i].key == key
    ensures forall k :: 0 <= k < i ==> list[k].key != key
  {
    if list == [] || list[0].key == key then 0 else 1 + Find(list[1..], key)
  }

  function Drop<T>(list: seq<T>, i: nat): (l: seq<T>)
    requires i < |list|
    ensures |l| == |list| - 1
    ensures forall k :: 0 <= k < |l| ==> l[k] == list[if k < i then k else k + 1]
  {
    list[..i] + list[i + 1..]
  }

  /** What find_history_job leaves of the history: without the job for `key` if that is too old. */
  function Fresh<T, K(==)>(history: seq<Job<T, K>>, key: K, span: int, now: int): seq<Job<T, K>> {
    var h := Find(history, key);
    if h < |history| && now - history[h].delivery > span then Drop(history, h) else history
  }

  ghost predicate Unique<T, K>(l: seq<Job<T, K>>) {
    forall i, j :: 0 <= i < j < |l| ==> l[i].key != l[j].key
  }

  ghost predicate Has<T, K>(l: seq<Job<T, K>>, key: K) {
    exists i :: 0 <= i < |l| && l[i].key == key
  }

  /** The flag of every job names the list it is on. */
  ghost predicate Flagged<T, K>(l: seq<Job<T, K>>, done: bool) {
    forall i :: 0 <= i < |l| ==> l[i].done == done
  }

  /** At most one job for a thing on both lists together, and every flag right. */
  ghost predicate OneEach<T(!new), K(!new)>(s: State<T, K>) {
    && Unique(s.jobs) && Unique(s.history) && Flagged(s.jobs, false) && Flagged(s.history, true)
    && (forall i, j :: 0 <= i < |s.jobs| && 0 <= j < |s.history| ==> s.jobs[i].key != s.history[j].key)
  }

  /** Sends come at least the span after whatever was sent or heard before. */
  ghost predicate Spaced<K>(log: seq<Event<K>>, span: int) {
    forall i, j :: 0 <= i < j < |log| && log[i].key == log[j].key && log[j].Sent? ==> log[j].at - log[i].at >= span
  }

  /** A history job that keeps the thing of the event back for as long as it has to be. */
  ghost predicate Holds<T, K>(j: Job<T, K>, e: Event<K>, span: int) {
    j.key == e.key && j.delivery >= e.at && j.due >= e.at + span
  }

  /** The event is over, or a history job holds its thing back. */
  ghost predicate Covered<T, K>(e: Event<K>, history: seq<Job<T, K>>, span: int, clock: int) {
    clock - e.at >= span || exists h :: 0 <= h < |history| && Holds(history[h], e, span)
  }

  ghost predicate Over<T, K>(e: Event<K>, jobs: seq<Job<T, K>>, span: int, clock: int) {
    Has(jobs, e.key) ==> clock - e.at >= span
  }

  ghost predicate Remembered<T, K>(s: State<T, K>, span: int, clock: int) {
    forall k :: 0 <= k < |s.log| ==> Covered(s.log[k], s.history, span, clock) && Over(s.log[k], s.jobs, span, clock)
  }

  ghost predicate Past<T, K>(s: State<T, K>, clock: int) {
    && (forall k :: 0 <= k < |s.log| ==> s.log[k].at <= clock)
    && (forall k :: 0 <= k < |s.history| ==> s.history[k].delivery <= clock)
  }

  /** What every step keeps. */
  ghost predicate Inv<T(!new), K(!new)>(s: State<T, K>, span: int, clock: int) {
    OneEach(s) && Spaced(s.log, span) && Remembered(s, span, clock) && Past(s, clock)
  }

  lemma Later<T(!new), K(!new)>(s: State<T, K>, span: int, clock: int, now: int)
    requires Inv(s, span, clock) && now >= clock
    ensures Inv(s, span, now)
  {
    hide OneEach, Spaced;
    forall k | 0 <= k < |s.log|
      ensures Covered(s.log[k], s.history, span, now) && Over(s.log[k], s.jobs, span, now)
    {
      assert Covered(s.log[k], s.history, span, clock) && Over(s.log[k], s.jobs, span, clock);
    }
  }

  /** A history job whose time is up goes. */
  function Forget<T, K>(s: State<T, K>, i: nat): State<T, K>
    requires i < |s.history|
  {
    s.(history := Drop(s.history, i))
  }

  /** It may go when its timer fires, and when it is found to be too old. */
  lemma ForgetKeeps<T(!new), K(!new)>(s: State<T, K>, i: nat, span: int, now: int)
    requires Inv(s, span, now) && i < |s.history| && (now >= s.history[i].due || now - s.history[i].delivery >= span)
    ensures Inv(Forget(s, i), span, now)
    ensures !Has(Forget(s, i).history, s.history[i].key)
  {
    var t := Forget(s, i);
    forall k | 0 <= k < |t.log|
      ensures Covered(t.log[k], t.history, span, now) && Over(t.log[k], t.jobs, span, now)
    {
      assert Covered(s.log[k], s.history, span, now) && Over(s.log[k], s.jobs, span, now);
      if h :| 0 <= h < |s.history| && Holds(s.history[h], s.log[k], span) {
        if h != i {
          assert t.history[if h < i then h else h - 1] == s.history[h];
        }
      }
    }
  }

  /** A new job for a thing that is on neither list. */
  function Schedule<T, K>(s: State<T, K>, j: Job<T, K>): State<T, K> {
    s.(jobs := [j] + s.jobs)
  }

  lemma ScheduleKeeps<T(!new), K(!new)>(s: State<T, K>, j: Job<T, K>, span: int, now: int)
    requires Inv(s, span, now) && !Has(s.jobs, j.key) && !Has(s.history, j.key) && !j.done
    ensures Inv(Schedule(s, j), span, now)
  {
    var t := Schedule(s, j);
    assert forall k :: 0 <= k < |s.jobs| ==> t.jobs[k + 1] == s.jobs[k];
    forall k | 0 <= k < |t.log|
      ensures Covered(t.log[k], t.history, span, now) && Over(t.log[k], t.jobs, span, now)
    {
      assert Covered(s.log[k], s.history, span, now) && Over(s.log[k], s.jobs, span, now);
    }
  }

  /** A job posted once more: due at the earlier of the two times. */
  function Reposted<T, K>(j: Job<T, K>, tv: int): Job<T, K> {
    j.(delivery := if tv < j.delivery then tv else j.delivery, due := if tv < j.delivery then tv else j.due, posted := j.posted + 1)
  }

  /** A scheduled job changes, but not what it is for. */
  function Amend<T, K>(s: State<T, K>, i: nat, j: Job<T, K>): State<T, K>
    requires i < |s.jobs|
  {
    s.(jobs := s.jobs[i := j])
  }

  lemma AmendKeeps<T(!new), K(!new)>(s: State<T, K>, i: nat, j: Job<T, K>, span: int, now: int)
    requires Inv(s, span, now) && i < |s.jobs| && j.key == s.jobs[i].key && !j.done
    ensures Inv(Amend(s, i, j), span, now)
  {
    var t := Amend(s, i, j);
    forall k | 0 <= k < |t.log|
      ensures Covered(t.log[k], t.history, span, now) && Over(t.log[k], t.jobs, span, now)
    {
      assert Covered(s.log[k], s.history, span, now) && Over(s.log[k], s.jobs, span, now);
      if n :| 0 <= n < |t.jobs| && t.jobs[n].key == t.log[k].key {
        assert s.jobs[n].key == t.jobs[n].key;
      }
    }
  }

  /** A scheduled job is withdrawn. */
  function Withdraw<T, K>(s: State<T, K>, i: nat): State<T, K>
    requires i < |s.jobs|
  {
    s.(jobs := Drop(s.jobs, i))
  }

  lemma WithdrawKeeps<T(!new), K(!new)>(s: State<T, K>, i: nat, span: int, now: int)
    requires Inv(s, span, now) && i < |s.jobs|
    ensures Inv(Withdraw(s, i), span, now)
  {
    var t := Withdraw(s, i);
    forall k | 0 <= k < |t.log|
      ensures Covered(t.log[k], t.history, span, now) && Over(t.log[k], t.jobs, span, now)
    {
      assert Covered(s.log[k], s.history, span, now) && Over(s.log[k], s.jobs, span, now);
      if n :| 0 <= n < |t.jobs| && t.jobs[n].key == t.log[k].key {
        assert s.jobs[if n < i then n else n + 1] == t.jobs[n];
      }
    }
  }

  /** job_mark_done: to the history, as of now, because of the event e. */
  function MarkDone<T, K>(s: State<T, K>, i: nat, e: Event<K>, span: int): State<T, K>
    requires i < |s.jobs|
  {
    State(Drop(s.jobs, i), [Finished(s.jobs[i], e.at, span)] + s.history, s.log + [e])
  }

  function Finished<T, K>(j: Job<T, K>, now: int, span: int): Job<T, K> {
    j.(delivery := now, due := now + span, done := true)
  }

  lemma MarkDoneKeeps<T(!new), K(!new)>(s: State<T, K>, i: nat, e: Event<K>, span: int, now: int)
    requires Inv(s, span, now) && i < |s.jobs| && e.key == s.jobs[i].key && e.at == now && span >= 0
    ensures Inv(MarkDone(s, i, e, span), span, now)
  {
    MarkDoneOneEach(s, i, e, span);
    MarkDoneSpaced(s, i, e, span, now);
    MarkDoneRemembered(s, i, e, span, now);
  }

  lemma MarkDoneOneEach<T(!new), K(!new)>(s: State<T, K>, i: nat, e: Event<K>, span: int)
    requires OneEach(s) && i < |s.jobs|
    ensures OneEach(MarkDone(s, i, e, span))
  {
    var t := MarkDone(s, i, e, span);
    assert forall k :: 1 <= k < |t.history| ==> t.history[k] == s.history[k - 1];
    assert t.history[0].key == s.jobs[i].key;
  }

  lemma MarkDoneSpaced<T(!new), K(!new)>(s: State<T, K>, i: nat, e: Event<K>, span: int, now: int)
    requires Spaced(s.log, span) && Remembered(s, span, now) && i < |s.jobs| && e.key == s.jobs[i].key && e.at == now
    ensures Spaced(s.log + [e], span)
  {
    forall k | 0 <= k < |s.log| && s.log[k].key == e.key
      ensures e.at - s.log[k].at >= span
    {
      assert Over(s.log[k], s.jobs, span, now);
    }
  }

  lemma MarkDoneRemembered<T(!new), K(!new)>(s: State<T, K>, i: nat, e: Event<K>, span: int, now: int)
    requires OneEach(s) && Remembered(s, span, now) && i < |s.jobs| && e.key == s.jobs[i].key && e.at == now
    ensures Remembered(MarkDone(s, i, e, span), span, now)
  {
    var t := MarkDone(s, i, e, span);
    assert t.history[0].key == e.key && t.history[0].delivery == e.at && t.history[0].due == now + span;
    assert e == t.log[|s.log|] && Holds(t.history[0], e, span);
    assert !Has(t.jobs, e.key);
    forall k | 0 <= k < |t.log|
      ensures Covered(t.log[k], t.history, span, now) && Over(t.log[k], t.jobs, span, now)
    {
      if k < |s.log| {
        assert Covered(s.log[k], s.history, span, now) && Over(s.log[k], s.jobs, span, now);
        if h :| 0 <= h < |s.history| && Holds(s.history[h], s.log[k], span) {
          assert t.history[h + 1] == s.history[h];
        }
        if n :| 0 <= n < |t.jobs| && t.jobs[n].key == t.log[k].key {
          assert s.jobs[if n < i then n else n + 1] == t.jobs[n];
        }
      }
    }
  }

  /** Heard again: the history job counts from now on. */
  function Renew<T, K>(s: State<T, K>, i: nat, now: int, span: int): State<T, K>
    requires i < |s.history|
  {
    s.(history := s.history[i := s.history[i].(delivery := now, due := now + span)], log := s.log + [Heard(s.history[i].key, now)])
  }

  lemma RenewKeeps<T(!new), K(!new)>(s: State<T, K>, i: nat, span: int, now: int)
    requires Inv(s, span, now) && i < |s.history|
    ensures Inv(Renew(s, i, now, span), span, now)
  {
    var t := Renew(s, i, now, span);
    assert Holds(t.history[i], t.log[|s.log|], span);
    forall k | 0 <= k < |t.log|
      ensures Covered(t.log[k], t.history, span, now) && Over(t.log[k], t.jobs, span, now)
    {
      if k < |s.log| {
        assert Covered(s.log[k], s.history, span, now) && Over(s.log[k], s.jobs, span, now);
        if h :| 0 <= h < |s.history| && Holds(s.history[h], s.log[k], span) {
          assert Holds(t.history[h], s.log[k], span);
        }
      }
    }
  }

  /** Heard, and on neither list: a job that is done from the start. */
  function Note<T, K>(s: State<T, K>, j: Job<T, K>, now: int, span: int): State<T, K> {
    s.(history := [Finished(j, now, span)] + s.history, log := s.log + [Heard(j.key, now)])
  }

  lemma NoteKeeps<T(!new), K(!new)>(s: State<T, K>, j: Job<T, K>, span: int, now: int)
    requires Inv(s, span, now) && !Has(s.jobs, j.key) && !Has(s.history, j.key)
    ensures Inv(Note(s, j, now, span), span, now)
  {
    var t := Note(s, j, now, span);
    assert forall k :: 0 <= k < |s.history| ==> t.history[k + 1] == s.history[k];
    assert Holds(t.history[0], t.log[|s.log|], span);
    forall k | 0 <= k < |t.log|
      ensures Covered(t.log[k], t.history, span, now) && Over(t.log[k], t.jobs, span, now)
    {
      if k < |s.log| {
        assert Covered(s.log[k], s.history, span, now) && Over(s.log[k], s.jobs, span, now);
        if h :| 0 <= h < |s.history| && Holds(s.history[h], s.log[k], span) {
          assert t.history[h + 1] == s.history[h];
        }
      }
    }
  }

  /** The part of a scheduler that is the same for queries and probes. */
  class Scheduler<T(!new), K(==,!new)> {
    const span: nat
    const defer: nat
    const ident: T -> K
    var jobs: seq<Job<T, K>>
    var history: seq<Job<T, K>>
    var nextId: nat
    ghost var log: seq<Event<K>>
    ghost var clock: int              // the last time seen; the clock does not go back

    constructor (span: nat, defer: nat, ident: T -> K)
      ensures Valid() && jobs == [] && history == [] && log == [] && clock == 0
      ensures this.span == span && this.defer == defer && this.ident == ident
    {
      this.span, this.defer, this.ident := span, defer, ident;
      jobs, history, nextId, log, clock := [], [], 0, [], 0;
    }

    ghost function View(): State<T, K>
      reads this
    {
      State(jobs, history, log)
    }

    /** Every scheduled job has its own id, at least one poster, and the key of its item. */
    ghost predicate Proper()
      reads this
    {
      && (forall i :: 0 <= i < |jobs| ==> jobs[i].id < nextId && jobs[i].posted >= 1 && jobs[i].key == ident(jobs[i].item))
      && (forall i, j :: 0 <= i < j < |jobs| ==> jobs[i].id != jobs[j].id)
    }

    ghost predicate Valid()
      reads this
    {
      Inv(View(), span, clock) && Proper()
    }

    /** The history once the item was heard: the job for it, scheduled, in the history or new, is
        done as of now. */
    ghost function Heeded(jobs: seq<Job<T, K>>, history: seq<Job<T, K>>, item: T, newId: nat, now: int): seq<Job<T, K>> {
      var i, kept := Find(jobs, ident(item)), Fresh(history, ident(item), span, now);
      var h := Find(kept, ident(item));
      if i < |jobs| then [Finished(jobs[i], now, span)] + history
      else if h < |kept| then kept[h := kept[h].(delivery := now, due := now + span)]
      else [Job(item, ident(item), newId, 1, now, now + span, true)] + kept
    }

    /** find_scheduled_job. */
    method FindScheduledJob(key: K) returns (i: nat)
      ensures i == Find(jobs, key)
    {
      i := 0;
      while i < |jobs|
        invariant 0 <= i <= |jobs| && forall k :: 0 <= k < i ==> jobs[k].key != key
      {
        if jobs[i].key == key {
          return;
        }
        i := i + 1;
      }
    }

    /** job_free: the flag of the job says which list it is unlinked from. */
    method JobFree(qj: Job<T, K>, i: nat)
      requires var l := if qj.done then history else jobs; i < |l| && l[i] == qj
      modifies this`jobs, this`history
      ensures jobs == (if qj.done then old(jobs) else Drop(old(jobs), i))
      ensures history == (if qj.done then Drop(old(history), i) else old(history))
    {
      if qj.done {
        history := Drop(history, i);
      } else {
        jobs := Drop(jobs, i);
      }
    }

    /** find_history_job: a job that is too old is freed, and counts as not found. */
    method FindHistoryJob(key: K, now: int) returns (i: nat)
      requires Valid() && now >= clock
      modifies this`jobs, this`history, this`clock
      ensures Valid() && jobs == old(jobs) && clock == now && i == Find(history, key)
      ensures history == Fresh(old(history), key, span, now)
      ensures i < |history| <==> old(Find(history, key) < |history| && now - history[Find(history, key)].delivery <= span)
    {
      hide Inv;
      Later(View(), span, clock, now);
      clock := now;
      i := 0;
      while i < |history|
        invariant 0 <= i <= |history| && history == old(history) && jobs == old(jobs) && forall k :: 0 <= k < i ==> history[k].key != key
      {
        if history[i].key == key {
          FirstAt(history, key, i);
          if now - history[i].delivery > span {
            ForgetKeeps(View(), i, span, now);
            FlagOf(View(), i, span, now);
            JobFree(history[i], i);
            i := |history|;
            NotFound(history, key);
          }
          return;
        }
        i := i + 1;
      }
    }

    /** avahi_query_scheduler_post, avahi_probe_scheduler_post: refused while the same thing was
        sent or heard within the span; otherwise it is scheduled, once, and no later than asked. */
    method Post(item: T, immediately: bool, now: int) returns (accepted: bool, id: nat)
      requires Valid() && now >= clock
      modifies this`jobs, this`history, this`nextId, this`clock
      ensures Valid() && clock == now
      ensures accepted <==> !old(Find(history, ident(item)) < |history| && now - history[Find(history, ident(item))].delivery <= span)
      ensures history == Fresh(old(history), ident(item), span, now)
      ensures !accepted ==> jobs == old(jobs)
      ensures accepted ==>
                var i, tv := Find(old(jobs), ident(item)), now + if immediately then 0 else defer;
                if i < |old(jobs)| then jobs == old(jobs)[i := Reposted(old(jobs)[i], tv)] && id == old(jobs)[i].id
                else jobs == [Job(item, ident(item), id, 1, tv, tv, false)] + old(jobs)
    {
      hide Inv;
      var key := ident(item);
      var h := FindHistoryJob(key, now);
      if h < |history| {
        return false, 0;
      }
      NotFound(history, key);
      var tv := now + if immediately then 0 else defer;
      var i := FindScheduledJob(key);
      if i < |jobs| {
        id := Repost(i, tv);
      } else {
        NotFound(jobs, key);
        id := Create(item, tv);
      }
      accepted := true;
    }

    /** Posted again: one more poster, and no later than asked now. */
    method Repost(i: nat, tv: int) returns (id: nat)
      requires Valid() && i < |jobs| && i == Find(jobs, jobs[i].key)
      modifies this`jobs
      ensures Valid() && jobs == old(jobs)[i := Reposted(old(jobs)[i], tv)] && id == old(jobs)[i].id
    {
      hide Inv;
      var qj := Reposted(jobs[i], tv);
      FlagOf(View(), i, span, clock);
      AmendKeeps(View(), i, qj, span, clock);
      jobs := jobs[i := qj];
      id := qj.id;
    }

    /** A new job for a thing that is on neither list. */
    method Create(item: T, tv: int) returns (id: nat)
      requires Valid() && !Has(jobs, ident(item)) && !Has(history, ident(item))
      modifies this`jobs, this`nextId
      ensures Valid() && jobs == [Job(item, ident(item), id, 1, tv, tv, false)] + old(jobs)
    {
      hide Inv;
      var qj := Job(item, ident(item), nextId, 1, tv, tv, false);
      ScheduleKeeps(View(), qj, span, clock);
      id := nextId;
      nextId := nextId + 1;
      jobs := [qj] + jobs;
    }

    /** job_mark_done, as the event e happens. */
    method JobMarkDone(i: nat, ghost e: Event<K>, now: int)
      requires Valid() && now >= clock && i < |jobs| && e.key == jobs[i].key && e.at == now
      modifies this`jobs, this`history, this`log, this`clock
      ensures Valid() && clock == now && jobs == Drop(old(jobs), i)
      ensures history == [Finished(old(jobs)[i], now, span)] + old(history) && log == old(log) + [e]
    {
      hide Inv;
      Later(View(), span, clock, now);
      MarkDoneKeeps(View(), i, e, span, now);
      clock := now;
      history := [Finished(jobs[i], now, span)] + history;
      jobs := Drop(jobs, i);
      log := log + [e];
    }

    /** elapse_callback for a job that is done, when its timer fires. */
    method HistoryElapsed(i: nat, now: int)
      requires Valid() && now >= clock && i < |history| && now >= history[i].due
      modifies this`jobs, this`history, this`clock
      ensures Valid() && clock == now && history == Drop(old(history), i) && jobs == old(jobs)
    {
      hide Inv;
      Later(View(), span, clock, now);
      ForgetKeeps(View(), i, span, now);
      FlagOf(View(), i, span, now);
      clock := now;
      JobFree(history[i], i);
    }

    /** avahi_query_scheduler_incoming: what was heard is not sent, and not for a while. */
    method Incoming(item: T, now: int)
      requires Valid() && now >= clock
      modifies this`jobs, this`history, this`nextId, this`log, this`clock
      ensures Valid() && clock == now && log == old(log) + [Heard(ident(item), now)]
      ensures jobs == var i := Find(old(jobs), ident(item)); if i < |old(jobs)| then Drop(old(jobs), i) else old(jobs)
      ensures !Has(jobs, ident(item))
      ensures history == Heeded(old(jobs), old(history), item, old(nextId), now)
    {
      hide Inv;
      var key := ident(item);
      var i := FindScheduledJob(key);
      if i < |jobs| {
        OnlyOne(View(), i, span, clock);
        JobMarkDone(i, Heard(key, now), now);
        return;
      }
      NotFound(jobs, key);
      var h := FindHistoryJob(key, now);
      if h < |history| {
        RenewJob(h, now);
      } else {
        NotFound(history, key);
        NoteJob(item, now);
      }
    }

    /** Heard again: the history job starts afresh. */
    method RenewJob(h: nat, now: int)
      requires Valid() && clock == now && h < |history| && h == Find(history, history[h].key)
      modifies this`history, this`log
      ensures Valid() && log == old(log) + [Heard(old(history)[h].key, now)]
      ensures history == old(history)[h := old(history)[h].(delivery := now, due := now + span)]
    {
      hide Inv;
      RenewKeeps(View(), h, span, now);
      log := log + [Heard(history[h].key, now)];
      history := history[h := history[h].(delivery := now, due := now + span)];
    }

    /** Heard, and on neither list. */
    method NoteJob(item: T, now: int)
      requires Valid() && clock == now && !Has(jobs, ident(item)) && !Has(history, ident(item))
      modifies this`history, this`log, this`nextId
      ensures Valid() && log == old(log) + [Heard(ident(item), now)]
      ensures history == [Job(item, ident(item), old(nextId), 1, now, now + span, true)] + old(history)
    {
      hide Inv;
      var qj := Job(item, ident(item), nextId, 1, now, now + span, true);
      NoteKeeps(View(), qj, span, now);
      nextId := nextId + 1;
      history := [qj] + history;
      log := log + [Heard(ident(item), now)];
    }

    /** One poster less; without any the job goes. */
    method Unpost(i: nat) returns (gone: bool)
      requires Valid() && i < |jobs|
      modifies this`jobs, this`history
      ensures Valid() && history == old(history) && gone == (old(jobs)[i].posted == 1)
      ensures jobs == if gone then Drop(old(jobs), i) else old(jobs)[i := old(jobs)[i].(posted := old(jobs)[i].posted - 1)]
    {
      hide Inv;
      gone := jobs[i].posted <= 1;
      FlagOf(View(), i, span, clock);
      if gone {
        WithdrawKeeps(View(), i, span, clock);
        JobFree(jobs[i], i);
      } else {
        var qj := jobs[i].(posted := jobs[i].posted - 1);
        AmendKeeps(View(), i, qj, span, clock);
        jobs := jobs[i := qj];
      }
    }

    lemma OwnIds()
      requires Valid()
      ensures forall i, j :: 0 <= i < j < |jobs| ==> jobs[i].id != jobs[j].id
      ensures forall i :: 0 <= i < |jobs| ==> jobs[i].posted >= 1
    {
    }

    /** avahi_query_scheduler_withdraw_by_id: the job goes when its last poster withdraws it. */
    method WithdrawById(id: nat) returns (removed: bool)
      requires Valid()
      modifies this`jobs, this`history
      ensures Valid() && history == old(history)
      ensures removed <==> exists i :: 0 <= i < |old(jobs)| && old(jobs)[i].id == id && old(jobs)[i].posted == 1
      ensures forall i :: 0 <= i < |old(jobs)| && old(jobs)[i].id == id ==>
                jobs == if removed then Drop(old(jobs), i) else old(jobs)[i := old(jobs)[i].(posted := old(jobs)[i].posted - 1)]
      ensures (forall i :: 0 <= i < |old(jobs)| ==> old(jobs)[i].id != id) ==> jobs == old(jobs)
    {
      hide *;
      OwnIds();
      var i := 0;
      ghost var was := jobs;
      while i < |jobs|
        invariant 0 <= i <= |jobs| == |was| && Valid() && history == old(history)
        invariant forall k :: 0 <= k < i && was[k].id == id ==> was[k].posted > 1 && jobs == was[k := was[k].(posted := was[k].posted - 1)]
        invariant (forall k :: 0 <= k < i ==> was[k].id != id) ==> jobs == was
        invariant forall k :: i <= k < |was| ==> jobs[k] == was[k]
      {
        if jobs[i].id == id {
          assert forall k :: 0 <= k < i ==> was[k].id != id;
          removed := Unpost(i);
          if removed {
            return;
          }
        }
        i := i + 1;
      }
      removed := false;
    }
  }

  lemma NotFound<T, K>(l: seq<Job<T, K>>, key: K)
    ensures Find(l, key) == |l| <==> !Has(l, key)
  {
  }

  lemma FirstAt<T, K>(l: seq<Job<T, K>>, key: K, i: nat)
    requires i < |l| && l[i].key == key && forall k :: 0 <= k < i ==> l[k].key != key
    ensures Find(l, key) == i
  {
  }

  lemma FlagOf<T(!new), K(!new)>(s: State<T, K>, i: nat, span: int, clock: int)
    requires Inv(s, span, clock)
    ensures i < |s.history| ==> s.history[i].done
    ensures i < |s.jobs| ==> !s.jobs[i].done
  {
  }

  /** A scheduled job is the only job for its thing. */
  lemma OnlyOne<T(!new), K(!new)>(s: State<T, K>, i: nat, span: int, clock: int)
    requires Inv(s, span, clock) && i < |s.jobs|
    ensures !Has(Drop(s.jobs, i), s.jobs[i].key) && !Has(s.history, s.jobs[i].key)
  {
  }
}
