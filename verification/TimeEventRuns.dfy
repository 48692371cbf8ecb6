/** Whole runs of the timer queue: events that share an expiry are served in turn. The steps are
    the calls of TimeEvents, on the data of the queued events; class History ties them to the
    methods. */
module TimeEventRuns {
  import opened Bytes
  import opened Timeval
  import opened PrioQueues
  import opened TimeEvents

  /** The queued events, and the last time an event ran. */
  datatype State = State(events: map<Event, Timed>, clock: Time)

  type Event = Node<Timed>

  datatype Step =
    | Ran(id: Event, now: Time)            // expiration_event found a least event due
    | Added(id: Event, expiry: Time)       // avahi_time_event_new
    | Moved(id: Event, expiry: Time)       // avahi_time_event_update
    | Freed(id: Event)                     // avahi_time_event_free

  /** One step, with a clock that strictly increases from one run of an event to the next. */
  ghost predicate Next(s: State, t: Step, s': State) {
    match t
    case Ran(id, now) =>
      && id in s.events && Compare(now, s.clock) > 0 && Compare(now, s.events[id].expiry) >= 0
      && (forall j :: j in s.events ==> CompareTimed(s.events[id], s.events[j]) <= 0)
      && s' == State(s.events[id := s.events[id].(lastRun := now)], now)
    case Added(id, expiry) =>
      id !in s.events && s' == s.(events := s.events[id := Timed(expiry, ZERO)])
    case Moved(id, expiry) =>
      id in s.events && s' == s.(events := s.events[id := s.events[id].(expiry := expiry)])
    case Freed(id) =>
      id in s.events && s' == s.(events := s.events - {id})
  }

  /** A run: consecutive states are related by the steps, from an empty queue. */
  ghost predicate Run(states: seq<State>, steps: seq<Step>) {
    && |states| == |steps| + 1
    && states[0].events == map[] && Compare(ZERO, states[0].clock) <= 0
    && forall i :: 0 <= i < |steps| ==> Next(states[i], steps[i], states[i + 1])
  }

  /** No event ran later than the clock. */
  ghost predicate Past(s: State) {
    && Compare(ZERO, s.clock) <= 0
    && forall j :: j in s.events ==> Compare(s.events[j].lastRun, s.clock) <= 0
  }

  lemma {:induction false} RunPast(states: seq<State>, steps: seq<Step>, i: nat)
    requires Run(states, steps) && i < |states|
    ensures Past(states[i])
  {
    if i > 0 {
      RunPast(states, steps, i - 1);
      assert Next(states[i - 1], steps[i - 1], states[i]);
    }
  }

  lemma {:induction false} ClockGrows(states: seq<State>, steps: seq<Step>, i: nat, k: nat)
    requires Run(states, steps) && i <= k < |states|
    ensures Compare(states[i].clock, states[k].clock) <= 0
    decreases k
  {
    if i < k {
      ClockGrows(states, steps, i, k - 1);
      assert Next(states[k - 1], steps[k - 1], states[k]);
    }
  }

  /** `id` stays queued and its expiry is not changed from state `i` to state `k`. */
  ghost predicate Stays(states: seq<State>, steps: seq<Step>, id: Event, i: nat, k: nat)
    requires i <= k < |states| && |states| == |steps| + 1
  {
    && id in states[i].events
    && (forall m :: i <= m <= k ==> id in states[m].events && states[m].events[id].expiry == states[i].events[id].expiry)
    && (forall m :: i <= m < k ==> steps[m].Ran? || steps[m].id != id)
  }

  /** An event that is not served keeps the time it last ran. */
  lemma {:induction false} Unserved(states: seq<State>, steps: seq<Step>, id: Event, i: nat, k: nat)
    requires Run(states, steps) && i <= k < |states| && Stays(states, steps, id, i, k)
    requires forall m :: i <= m < k ==> !(steps[m].Ran? && steps[m].id == id)
    ensures states[k].events[id] == states[i].events[id]
    decreases k
  {
    if i < k {
      Unserved(states, steps, id, i, k - 1);
      assert Next(states[k - 1], steps[k - 1], states[k]);
    }
  }

  /** An event served at `i` carries a time no earlier than that from then on. */
  lemma {:induction false} ServedSince(states: seq<State>, steps: seq<Step>, id: Event, i: nat, k: nat)
    requires Run(states, steps) && i < k < |states| && Stays(states, steps, id, i, k)
    requires steps[i].Ran? && steps[i].id == id
    ensures Compare(states[k].events[id].lastRun, steps[i].now) >= 0
    decreases k
  {
    assert Next(states[i], steps[i], states[i + 1]);
    if i + 1 < k {
      ServedSince(states, steps, id, i, k - 1);
      assert Next(states[k - 1], steps[k - 1], states[k]);
      ClockGrows(states, steps, i + 1, k - 1);
    }
  }

  /** Round robin: of two events that stay queued with one common expiry, neither is served
      twice without the other being served in between. */
  lemma RoundRobin(states: seq<State>, steps: seq<Step>, a: Event, b: Event, i: nat, k: nat)
    requires Run(states, steps) && a != b && i < k < |steps|
    requires steps[i].Ran? && steps[i].id == a && steps[k].Ran? && steps[k].id == a
    requires Stays(states, steps, a, i, k) && Stays(states, steps, b, i, k)
    requires states[i].events[a].expiry == states[i].events[b].expiry
    ensures exists j :: i < j < k && steps[j].Ran? && steps[j].id == b
  {
    if !exists j :: i < j < k && steps[j].Ran? && steps[j].id == b {
      RunPast(states, steps, i);
      assert Next(states[i], steps[i], states[i + 1]) && Next(states[k], steps[k], states[k + 1]);
      Unserved(states, steps, b, i, k);
      ServedSince(states, steps, a, i, k);
    }
  }

  lemma RunOn(states: seq<State>, steps: seq<Step>, t: Step, s: State)
    requires Run(states, steps) && Next(states[|steps|], t, s)
    ensures Run(states + [s], steps + [t])
  {
    hide Next;
    var ss, ts := states + [s], steps + [t];
    forall i | 0 <= i < |ts| ensures Next(ss[i], ts[i], ss[i + 1]) {
      if i < |steps| {
        assert ss[i] == states[i] && ss[i + 1] == states[i + 1] && ts[i] == steps[i];
      }
    }
  }

  /** A timer queue and the run that the calls so far make up. Callbacks are further calls between
      Dispatch and Rearm. */
  class History {
    const q: TimeEventQueue
    ghost var states: seq<State>
    ghost var steps: seq<Step>
    ghost var clock: Time

    /** The calls so far are a run, and it ends with the events in the queue. */
    ghost predicate Recorded()
      reads this, q, q.prioq, q.prioq.nodes
    {
      q.Ordered() && Run(states, steps) && states[|steps|] == State(q.View(), clock)
    }

    constructor ()
      ensures Recorded() && q.Valid() && fresh(q) && fresh(q.prioq) && q.prioq.nodes == []
    {
      q := new TimeEventQueue();
      states, steps, clock := [State(map[], ZERO)], [], ZERO;
    }

    /** One call more. */
    ghost method Record(t: Step, now: Time)
      requires q.Ordered() && Run(states, steps) && Next(states[|steps|], t, State(q.View(), now))
      modifies this
      ensures Recorded() && steps == old(steps) + [t] && clock == now
    {
      RunOn(states, steps, t, State(q.View(), now));
      states, steps, clock := states + [State(q.View(), now)], steps + [t], now;
    }

    method New(tv: Option<Time>) returns (e: Event)
      requires Recorded()
      modifies this, q`timeout, q.prioq`root, q.prioq`last, q.prioq`nNodes, q.prioq`nodes
      modifies q.prioq.nodes`left, q.prioq.nodes`right, q.prioq.nodes`parent, q.prioq.nodes`next, q.prioq.nodes`prev
      modifies q.prioq.nodes`x, q.prioq.nodes`y
      ensures Recorded() && q.Valid() && steps == old(steps) + [Added(e, if tv.Some? then tv.value else ZERO)]
    {
      hide Run;
      e := q.New(tv);
      Record(Added(e, if tv.Some? then tv.value else ZERO), clock);
    }

    method Free(e: Event)
      requires Recorded() && e in q.prioq.nodes
      modifies this, q`timeout, q.prioq`root, q.prioq`last, q.prioq`nNodes, q.prioq`nodes
      modifies q.prioq.nodes`left, q.prioq.nodes`right, q.prioq.nodes`parent, q.prioq.nodes`next, q.prioq.nodes`prev
      modifies q.prioq.nodes`x, q.prioq.nodes`y
      ensures Recorded() && q.Valid() && steps == old(steps) + [Freed(e)]
    {
      hide Run;
      q.Free(e);
      Record(Freed(e), clock);
    }

    method Update(e: Event, tv: Time)
      requires Recorded() && e in q.prioq.nodes
      modifies this, q`timeout, q.prioq`root, q.prioq`last, q.prioq`nodes, e`data
      modifies q.prioq.nodes`left, q.prioq.nodes`right, q.prioq.nodes`parent, q.prioq.nodes`next, q.prioq.nodes`prev
      modifies q.prioq.nodes`x, q.prioq.nodes`y
      ensures Recorded() && q.Valid() && steps == old(steps) + [Moved(e, tv)]
    {
      hide Run;
      q.Update(e, tv);
      Record(Moved(e, tv), clock);
    }

    /** expiration_event up to the callback of the event that ran, at a later time than any before. */
    method Dispatch(now: Time) returns (ran: Node?<Timed>)
      requires Recorded() && q.Valid() && Compare(now, clock) > 0
      modifies this, q.prioq`root, q.prioq`last, q.prioq`nodes, q.prioq.nodes`data
      modifies q.prioq.nodes`left, q.prioq.nodes`right, q.prioq.nodes`parent, q.prioq.nodes`next, q.prioq.nodes`prev
      modifies q.prioq.nodes`x, q.prioq.nodes`y
      ensures Recorded() && (ran != null ==> steps == old(steps) + [Ran(ran, now)]) && (ran == null ==> steps == old(steps))
    {
      hide Run;
      ran := q.Dispatch(now);
      if ran != null {
        Record(Ran(ran, now), now);
      }
    }

    /** expiration_event after the callback. */
    method Rearm()
      requires Recorded()
      modifies q`timeout
      ensures Recorded() && q.Valid()
    {
      q.UpdateTimeout();
    }
  }
}
