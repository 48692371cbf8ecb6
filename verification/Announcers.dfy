/** Announcers, the entries they announce and the groups the entries belong to
    (avahi-core/announce.c, the group states of avahi-core/entry.c, withdrawal in
    avahi-core/server.c). The clock is a parameter, in microseconds; a timer that is asked for is
    the delay given to it; posting a probe or a response is a step in the ghost trace. */
module Announcers {
  import opened Bytes
  import opened AnnounceTrace

  const ANNOUNCEMENT_JITTER := 250
  const PROBE_JITTER := 250
  const PROBE_INTERVAL := 250
  const HOLDOFF := 1000
  const HOLDOFF_RATE_LIMIT := 20000
  const RATE_LIMIT_COUNT := 15

  datatype Outcome = Committed | BadState | IsEmptyGroup

  datatype Flags = Flags(unique: bool, noProbe: bool, noAnnounce: bool)

  datatype Interface = Interface(index: nat, protocol: nat)

  datatype Link = Link(id: Interface, announcing: bool)

  datatype Delay = Delay(msec: nat, jitter: nat)

  predicate MustProbe(f: Flags) {
    f.unique && !f.noProbe
  }

  /** Where go_to_initial_state puts an announcer; no group state stands for no group. */
  function Initial(f: Flags, g: Option<GroupState>): Phase {
    if MustProbe(f) then Probing
    else if f.noAnnounce then Settled
    else if g == None || g == Some(Established) then Announcing
    else Waiting
  }

  /** Where reannounce puts one that was in phase p. */
  function Restart(p: Phase, f: Flags): Phase {
    if p == Probing || (p == Waiting && MustProbe(f)) then Probing
    else if p == Waiting then Waiting
    else if f.noAnnounce then Settled
    else Announcing
  }

  /** What set_timeout is asked for when a phase starts. */
  function StartDelay(p: Phase): Option<Delay> {
    match p
    case Probing => Some(Delay(0, PROBE_JITTER))
    case Announcing => Some(Delay(0, ANNOUNCEMENT_JITTER))
    case _ => None
  }

  /** Announced only while the group was established, or without a group. */
  predicate Timely(t: seq<Step>) {
    forall k {:trigger t[k]} :: 0 <= k < |t| && t[k].Announced? ==> t[k].group == None || t[k].group == Some(Established)
  }

  lemma TimelySnoc(t: seq<Step>, s: Step)
    ensures Timely(t) && (s.Announced? ==> s.group == None || s.group == Some(Established)) ==> Timely(t + [s])
  {
  }

  /** The phase p fits an entry with flags f in a group that is in state g. */
  predicate Suits(p: Phase, f: Flags, updated: bool, g: Option<GroupState>) {
    && (p == Waiting ==> g == Some(Registering))
    && (!updated && g == Some(Registering) ==> p != Announcing && (p == Settled ==> f.noAnnounce && !MustProbe(f)))
  }

  function Without<T>(l: seq<T>, k: nat): seq<T>
    requires k < |l|
  {
    l[..k] + l[k + 1..]
  }

  ghost predicate Distinct(l: seq<Announcer>) {
    forall i, j :: 0 <= i < j < |l| ==> l[i].interface != l[j].interface
  }

  lemma WithoutKeeps(l: seq<Announcer>, k: nat)
    requires k < |l| && Distinct(l)
    ensures Distinct(Without(l, k))
    ensures forall a :: a in Without(l, k) <==> a in l && a != l[k]
  {
    var w := Without(l, k);
    forall a | a in l && a != l[k]
      ensures a in w
    {
      var i :| 0 <= i < |l| && l[i] == a;
      assert if i < k then w[i] == a else w[i - 1] == a;
    }
  }

  class Announcer {
    const entry: Entry
    const interface: Interface
    var state: Phase
    var nIteration: nat
    var secDelay: nat
    var timeout: Option<Delay>
    ghost var trace: seq<Step>

    constructor (entry: Entry, interface: Interface)
      ensures this.entry == entry && this.interface == interface && trace == []
    {
      this.entry, this.interface := entry, interface;
      state, nIteration, secDelay, timeout, trace := Settled, 0, 1, None, [];
    }

    /** The counters agree with the steps taken, which keep the law. */
    ghost predicate Poised()
      reads this
    {
      var c := Track(trace);
      match state
      case Probing => 1 <= nIteration <= 4 && secDelay == 1 && c == InProbing(nIteration - 1)
      case Waiting => secDelay == 1 && c == InWaiting
      case Announcing =>
        && c.InAnnouncing? && c.sent < c.plan && c.sent + 4 == nIteration + c.plan
        && secDelay == Pow2(c.sent)
      case Settled => c == AtRest
    }

    /** Between calls a timer runs exactly while there is something to send. */
    ghost predicate Ok()
      reads this
    {
      Poised() && (timeout.Some? <==> (state == Probing || state == Announcing))
    }

    ghost function Owner(): set<Group>
    {
      if entry.group == null then {} else {entry.group}
    }

    /** go_to_initial_state. The caller has taken a probing announcer out of the count. */
    method GoToInitialState()
      requires Lawful(trace)
      modifies this, Owner()`nProbing, Owner()`probing
      ensures state == Initial(entry.flags, old(entry.GroupState()))
      ensures Ok() && trace == old(trace) + [Started(state)]
      ensures entry.group != null ==> Counted(old(entry.group.nProbing), old(entry.group.probing))
    {
      state := InitialPhase();
      StartPhase();
    }

    method InitialPhase() returns (p: Phase)
      ensures p == Initial(entry.flags, entry.GroupState())
    {
      var e := entry;
      if e.flags.unique && !e.flags.noProbe {
        p := Probing;
      } else if !e.flags.noAnnounce {
        if e.group == null || e.group.state == Established {
          p := Announcing;
        } else {
          p := Waiting;
        }
      } else {
        p := Settled;
      }
    }

    /** The end that go_to_initial_state and reannounce share. */
    method StartPhase()
      requires Lawful(trace)
      modifies this, Owner()`nProbing, Owner()`probing
      ensures state == old(state)
      ensures Ok() && trace == old(trace) + [Started(state)]
      ensures timeout == StartDelay(state)
      ensures entry.group != null ==> Counted(old(entry.group.nProbing), old(entry.group.probing))
    {
      nIteration := 1;
      secDelay := 1;
      if state == Probing && entry.group != null {
        entry.group.nProbing := entry.group.nProbing + 1;
        entry.group.probing := entry.group.probing + {this};
      }
      if state == Probing {
        timeout := Some(Delay(0, PROBE_JITTER));
      } else if state == Announcing {
        timeout := Some(Delay(0, ANNOUNCEMENT_JITTER));
      } else {
        timeout := None;
      }
      TrackSnoc(trace, Started(state));
      trace := trace + [Started(state)];
    }

    /** The group's counter after this announcer entered its phase. */
    ghost predicate Counted(n: int, s: set<Announcer>)
      requires entry.group != null
      reads this, entry.group
    {
      && entry.group.nProbing == n + (if state == Probing then 1 else 0)
      && entry.group.probing == s + (if state == Probing then {this} else {})
    }

    /** The announcing branch of next_state. */
    method Announce() returns (ghost s: Step)
      requires state == Announcing && Poised()
      modifies this
      ensures Ok() && (state == Announcing || state == Settled)
      ensures trace == old(trace) + [s] && s.Announced? && s.group == entry.GroupState()
    {
      nIteration := nIteration + 1;
      if nIteration >= 4 {
        s := Announced(entry.GroupState(), None);
        state := Settled;
        timeout := None;
      } else {
        s := Announced(entry.GroupState(), Some(secDelay * 1000));
        timeout := Some(Delay(secDelay * 1000, ANNOUNCEMENT_JITTER));
        if nIteration < 10 {
          secDelay := secDelay * 2;
        }
      }
      TrackSnoc(trace, s);
      trace := trace + [s];
    }

    /** What check_probed makes of an announcer that waited, with the steps t behind it. */
    ghost predicate Freed(t: seq<Step>, immediately: bool)
      reads this
    {
      && state != Waiting && state != Probing && Ok()
      && |trace| > |t| && trace[..|t| + 1] == t + [Released(immediately)]
      && (forall k :: |t| < k < |trace| ==> trace[k].Announced? && trace[k].group == Some(Established))
    }

    /** What check_probed does to an announcer that waits. */
    method Release(immediately: bool)
      requires state == Waiting && Ok() && entry.GroupState() == Some(Established)
      modifies this
      ensures Freed(old(trace), immediately)
    {
      state := Announcing;
      TrackSnoc(trace, Released(immediately));
      trace := trace + [Released(immediately)];
      if immediately {
        nIteration := 1;
        ghost var s := Announce();
      } else {
        nIteration := 0;
        timeout := Some(Delay(0, ANNOUNCEMENT_JITTER));
      }
    }

    ghost function Peers(): set<Announcer>
      reads entry.group
    {
      if entry.group == null then {} else entry.group.members
    }

    ghost function Siblings(): seq<Entry>
      reads entry.group
    {
      if entry.group == null then [] else entry.group.entries
    }

    /** What holds between calls for the group of this announcer, or for it alone. */
    ghost predicate Home()
      reads this, entry, Owner(), Siblings(), Peers()
    {
      if entry.group == null then Ok() && state != Waiting && Timely(trace)
      else entry.group.Valid() && this in entry.group.members
    }

    /** The probing branch of next_state while probes are left to send. */
    method Probe()
      requires Home() && state == Probing && nIteration < 4
      modifies this
      ensures Home() && state == Probing && trace == old(trace) + [Probed]
    {
      hide Home, Timely, Group.Valid, Group.Shape, Group.Counts, Track;
      Unfolded();
      TrackSnoc(trace, Probed);
      TimelySnoc(trace, Probed);
      timeout := Some(Delay(PROBE_INTERVAL, 0));
      nIteration := nIteration + 1;
      trace := trace + [Probed];
      HomeAgain();
    }

    /** The announcing branch of next_state, outside of check_probed. */
    method AnnounceAgain() returns (ghost s: Step)
      requires Home() && state == Announcing
      modifies this
      ensures Home() && (state == Announcing || state == Settled)
      ensures trace == old(trace) + [s] && s.Announced? && s.group == entry.GroupState()
    {
      hide Home, Timely, Group.Valid, Group.Shape, Group.Counts, Track, Poised;
      Unfolded();
      s := Announce();
      TimelySnoc(old(trace), s);
      HomeAgain();
    }

    /** What the group knows of its announcer. */
    lemma Unfolded()
      requires Home()
      ensures Ok() && Lawful(trace)
      ensures entry.group == null ==> state != Waiting && Timely(trace)
      ensures entry.group != null ==>
                && this in entry.group.members && entry.group.Fits(this) && (state == Probing <==> this in entry.group.probing)
                && (entry.group.state == Registering || entry.group.state == Established)
                && |entry.group.probing| <= entry.group.nProbing
    {
    }

    /** The probing branch of next_state once all probes are sent. */
    method FinishProbing() returns (ghost s: Step)
      requires Home() && state == Probing && nIteration >= 4
      modifies this, Owner()`nProbing, Owner()`probing
      ensures Home()
      ensures state == Waiting <==> entry.GroupState() == Some(Registering)
      ensures state != Waiting ==> (state == Announcing || state == Settled) && s.Announced? && s.group == entry.GroupState()
      ensures trace == old(trace) + if state == Waiting then [ProbesDone(Waiting)] else [ProbesDone(Announcing), s]
      ensures entry.group != null ==> entry.group.nProbing == old(entry.group.nProbing) - 1
    {
      hide Home, Timely, Group.Valid, Group.Shape, Group.Counts, Poised, Track;
      Unfolded();
      if entry.group != null {
        entry.group.nProbing := entry.group.nProbing - 1;
        entry.group.probing := entry.group.probing - {this};
      }
      s := ProbesDone(Waiting);
      if entry.group != null && entry.group.state == Registering {
        Leave(Waiting);
      } else {
        Leave(Announcing);
        s := Announce();
        TimelySnoc(old(trace) + [ProbesDone(Announcing)], s);
      }
      HomeAgain();
    }

    /** All probes are sent: on to the next phase. */
    method Leave(next: Phase)
      requires Poised() && state == Probing && nIteration >= 4 && (next == Waiting || next == Announcing)
      modifies this
      ensures Poised() && state == next && timeout == None
      ensures trace == old(trace) + [ProbesDone(next)]
      ensures Timely(old(trace)) ==> Timely(trace)
    {
      TrackSnoc(trace, ProbesDone(next));
      TimelySnoc(trace, ProbesDone(next));
      state := next;
      if next == Announcing {
        nIteration := 1;
      }
      timeout := None;
      trace := trace + [ProbesDone(next)];
    }

    twostate lemma HomeAgain()
      requires old(Home()) && unchanged(entry)
      requires if entry.group == null then Ok() && state != Waiting && Timely(trace) else entry.group.Moved(this) && entry.group.Fits(this)
      ensures Home()
    {
      if entry.group != null {
        entry.group.ValidAgain(this);
      }
    }

    /** The probing branch of next_state once all probes are sent, with the inner call. */
    method PassOn(now: int)
      requires Home() && state == Probing && nIteration >= 4
      modifies this, Owner()`state, Owner()`tries, Owner()`pending, Owner()`establishedAt
      modifies Owner()`nProbing, Owner()`probing, Peers()
      ensures Home() && state != Probing && |trace| > |old(trace)|
      ensures trace[..|old(trace)| + 1] == old(trace) + [ProbesDone(if old(entry.GroupState()) == Some(Registering) then Waiting else Announcing)]
      ensures entry.group != null ==> entry.group.nProbing == old(entry.group.nProbing) - 1
      ensures entry.group != null ==> (entry.group.state == Registering ==> entry.group.nProbing > 0)
      ensures entry.group != null && entry.group.state != old(entry.group.state) ==> entry.group.JustEstablished(old(entry.group.state))
    {
      hide Home, Ok, Poised, Timely, Group.Valid, Group.Shape, Group.Counts;
      ghost var s := FinishProbing();
      if state == Waiting {
        Residence();
        ghost var t := trace;
        entry.group.CheckProbed(true, now);
        Residence();
        assert trace[..|t|] == t;
      }
    }

    lemma Residence()
      requires if entry.group == null then Home() else Home() || (entry.group.Valid() && this in entry.group.members)
      ensures Home()
      ensures entry.group != null ==> entry.group.Valid() && this in entry.group.members
    {
    }

    /** next_state: what the timer of the announcer runs. The group leaves its state only from
        registering to established, and then no announcer of it is probing, nor was one taken
        away while it probed. */
    method NextState(now: int)
      requires Home()
      modifies this, Owner()`state, Owner()`tries, Owner()`pending, Owner()`establishedAt
      modifies Owner()`nProbing, Owner()`probing, Peers()
      ensures Home()
      ensures old(state) == Probing && old(nIteration) < 4 ==> trace == old(trace) + [Probed] && state == Probing
      ensures old(state) == Probing && old(nIteration) >= 4 ==> state != Probing
      ensures old(state) == Settled ==> unchanged(this)
      ensures old(state) == Announcing ==>
                && |trace| == |old(trace)| + 1 && trace[..|old(trace)|] == old(trace)
                && trace[|old(trace)|].Announced? && trace[|old(trace)|].group == entry.GroupState()
      ensures old(state) == Probing && old(nIteration) >= 4 ==>
                && |trace| > |old(trace)|
                && trace[..|old(trace)| + 1] == old(trace) + [ProbesDone(if old(entry.GroupState()) == Some(Registering) then Waiting else Announcing)]
      ensures entry.group != null ==>
                entry.group.nProbing == old(entry.group.nProbing - if state == Probing && nIteration >= 4 then 1 else 0)
      ensures entry.group != null && (old(state) == Waiting || (old(state) == Probing && old(nIteration) >= 4)) ==>
                (entry.group.state == Registering ==> entry.group.nProbing > 0)
      ensures entry.group != null && entry.group.state != old(entry.group.state) ==> entry.group.JustEstablished(old(entry.group.state))
      ensures entry.group != null && old(entry.group.Progress()) ==> entry.group.Progress()
    {
      if state == Waiting {
        entry.group.CheckProbed(true, now);
      } else if state == Probing {
        if nIteration >= 4 {
          PassOn(now);
        } else {
          Probe();
        }
      } else if state == Announcing {
        ghost var s := AnnounceAgain();
      }
    }

    /** Out of the count, into another phase, and into the count again. */
    method Enter(next: Phase)
      requires Home() && Suits(next, entry.flags, entry.updated, entry.GroupState())
      modifies this, Owner()`nProbing, Owner()`probing
      ensures Home() && state == next && trace == old(trace) + [Started(next)]
      ensures entry.group != null ==>
                entry.group.nProbing == old(entry.group.nProbing - if state == Probing then 1 else 0) + if next == Probing then 1 else 0
    {
      Unfolded();
      if entry.group == null {
        state := next;
        TimelySnoc(trace, Started(next));
        StartPhase();
      } else {
        entry.group.EnterMember(this, next);
      }
    }

    /** reannounce. */
    method Reannounce()
      requires Home()
      modifies this, Owner()`nProbing, Owner()`probing
      ensures Home() && trace == old(trace) + [Started(state)]
      ensures state == Restart(old(state), entry.flags)
      ensures entry.group != null && old(entry.group.Progress()) ==> entry.group.Progress()
    {
      Unfolded();
      hide Group.Valid, Group.Shape, Group.Counts, Poised, Track;
      if entry.group != null && (entry.group.state == Uncommitted || entry.group.state == Collision) {
        return;
      }
      if state == Probing || (state == Waiting && entry.flags.unique && !entry.flags.noProbe) {
        // probing, or waiting after it: probe from the beginning
        Enter(Probing);
      } else if state == Waiting {
        // waiting without having probed: go on waiting
        Enter(Waiting);
      } else if entry.flags.noAnnounce {
        Enter(Settled);
      } else {
        Enter(Announcing);
      }
    }

    /** avahi_entry_return_to_initial_state. Progress can only be lost when the flags no longer ask
        for the probing that was going on. */
    method ReturnToInitialState()
      requires Home()
      modifies this, Owner()`nProbing, Owner()`probing
      ensures Home() && trace == old(trace) + [Started(state)]
      ensures state == Initial(entry.flags, entry.GroupState())
      ensures entry.group != null && old(entry.group.Progress()) && (old(state) == Probing ==> MustProbe(entry.flags)) ==> entry.group.Progress()
    {
      Unfolded();
      hide Group.Valid, Group.Shape, Group.Counts, Poised, Track;
      var next := InitialPhase();
      Enter(next);
    }
  }

  class Entry {
    const group: Group?
    const index: Option<nat>      // AVAHI_IF_UNSPEC is None
    const protocol: Option<nat>
    var flags: Flags
    var dead: bool
    var announcers: seq<Announcer>
    ghost var updated: bool       // the flags have been changed since the entry was added

    constructor (group: Group?, index: Option<nat>, protocol: Option<nat>, flags: Flags)
      ensures this.group == group && this.index == index && this.protocol == protocol
      ensures this.flags == flags && !dead && announcers == [] && !updated
    {
      this.group, this.index, this.protocol, this.flags := group, index, protocol, flags;
      dead, announcers, updated := false, [], false;
    }

    function GroupState(): Option<GroupState>
      reads if group == null then {} else {group}`state
    {
      if group == null then None else Some(group.state)
    }

    ghost function Owner(): set<Group>
    {
      if group == null then {} else {group}
    }

    ghost function Peers(): set<Announcer>
      reads Owner()
    {
      if group == null then {} else group.members
    }

    ghost function Siblings(): seq<Entry>
      reads Owner()
    {
      if group == null then [] else group.entries
    }

    ghost predicate Alone()
      reads this, announcers
    {
      && (dead ==> announcers == [])
      && (forall a :: a in announcers ==> a.entry == this && a.Ok() && a.state != Waiting && Timely(a.trace))
      && Distinct(announcers)
    }

    /** What holds between calls for the group of this entry, or for it alone. */
    ghost predicate Home()
      reads this, announcers, Owner(), Siblings(), Peers()
    {
      if group == null then Alone() else group.Valid() && this in group.entries
    }

    ghost predicate Has(i: Interface)
      reads this
    {
      exists a :: a in announcers && a.interface == i
    }

    ghost predicate Free(i: Interface, l: seq<Announcer>)
    {
      forall a :: a in l ==> a.interface != i
    }

    /** get_announcer. */
    method GetAnnouncer(i: Interface) returns (a: Announcer?)
      ensures a == null ==> !Has(i)
      ensures a != null ==> a in announcers && a.interface == i
    {
      var k := 0;
      while k < |announcers|
        invariant 0 <= k <= |announcers|
        invariant forall j :: 0 <= j < k ==> announcers[j].interface != i
      {
        if announcers[k].interface == i {
          return announcers[k];
        }
        k := k + 1;
      }
      a := null;
    }

    /** avahi_interface_match. */
    predicate Matches(i: Interface) {
      (index == None || index == Some(i.index)) && (protocol == None || protocol == Some(i.protocol))
    }

    /** avahi_entry_is_commited. */
    predicate IsCommitted()
      reads Owner()
    {
      group == null || group.state == Registering || group.state == Established
    }

    /** new_announcer, on an interface that announces or not. */
    method NewAnnouncer(i: Interface, announcing: bool)
      requires Home() && !dead
      modifies this`announcers, Owner()`members, Owner()`nProbing, Owner()`probing
      ensures Home()
      ensures Matches(i) && announcing && IsCommitted() ==> Has(i)
      ensures !IsCommitted() ==> announcers == old(announcers)
      ensures announcers == old(announcers) || (|announcers| > 0 && Newcomer(announcers[0], old(announcers), i))
      ensures group != null && old(group.Progress()) ==> group.Progress()
      ensures group != null ==> fresh(group.members - old(group.members))
    {
      if !Matches(i) || !announcing || !IsCommitted() {
        return;
      }
      var was := GetAnnouncer(i);
      if was != null {
        return;
      }
      var a := new Announcer(this, i);
      if group == null {
        announcers := [a] + announcers;
        a.GoToInitialState();
        AloneWith(a);
      } else {
        group.AddMember(a);
      }
    }

    /** announce_walk_callback over the interfaces of the monitor. */
    method AnnounceOn(links: seq<Link>)
      requires Home() && !dead
      modifies this`announcers, Owner()`members, Owner()`nProbing, Owner()`probing
      ensures Home()
      ensures IsCommitted() ==> Covers(links)
      ensures !IsCommitted() ==> announcers == old(announcers)
      ensures forall a :: a in old(announcers) ==> a in announcers
      ensures group != null && old(group.Progress()) ==> group.Progress()
      ensures group != null ==> fresh(group.members - old(group.members))
    {
      hide Home;
      var k := 0;
      while k < |links|
        invariant 0 <= k <= |links|
        invariant Home()
        invariant IsCommitted() ==> Covers(links[..k])
        invariant !IsCommitted() ==> announcers == old(announcers)
        invariant forall a :: a in old(announcers) ==> a in announcers
        invariant group != null && old(group.Progress()) ==> group.Progress()
        invariant group != null ==> fresh(group.members - old(group.members))
      {
        NewAnnouncer(links[k].id, links[k].announcing);
        k := k + 1;
      }
      assert links[..|links|] == links;
    }

    /** There is an announcer on every announcing interface that matches. */
    ghost predicate Covers(links: seq<Link>)
      reads this
    {
      forall l :: l in links && l.announcing && Matches(l.id) ==> Has(l.id)
    }

    ghost predicate Newcomer(a: Announcer, before: seq<Announcer>, i: Interface)
      reads this, a, Owner()
    {
      && announcers == [a] + before && a !in before && a.interface == i
      && a.state == Initial(flags, GroupState()) && a.trace == [Started(a.state)]
    }

    twostate lemma AloneWith(new a: Announcer)
      requires group == null && old(Alone()) && announcers == [a] + old(announcers) && !dead
      requires forall b :: b in old(announcers) ==> b.interface != a.interface && unchanged(b)
      requires a.entry == this && a.Ok() && a.state != Waiting && a.trace == [Started(a.state)]
      ensures Alone()
    {
    }

    /** remove_announcer. The group goes on counting the announcer if it was probing. */
    method RemoveAnnouncer(k: nat)
      requires Home() && k < |announcers|
      modifies this`announcers, Owner()`members, Owner()`probing, Owner()`leaked
      ensures Home() && announcers == Without(old(announcers), k)
      ensures group != null ==> group.members == old(group.members - {announcers[k]})
      ensures group != null ==> group.leaked == old(group.leaked + if announcers[k].state == Probing then 1 else 0)
    {
      if group == null {
        WithoutKeeps(announcers, k);
        announcers := Without(announcers, k);
      } else {
        group.RemoveMember(announcers[k], k);
      }
    }

    /** avahi_goodbye_entry, the removing part. */
    method RemoveAll()
      requires Home()
      modifies this`announcers, Owner()`members, Owner()`probing, Owner()`leaked
      ensures Home() && announcers == []
      ensures group != null ==> group.members <= old(group.members) && group.leaked >= old(group.leaked)
    {
      while announcers != []
        invariant Home()
        invariant group != null ==> group.members <= old(group.members) && group.leaked >= old(group.leaked)
        decreases |announcers|
      {
        RemoveAnnouncer(0);
      }
    }

    /** avahi_goodbye_interface, as far as this entry goes. */
    method Leave(i: Interface)
      requires Home()
      modifies this`announcers, Owner()`members, Owner()`probing, Owner()`leaked
      ensures Home() && !Has(i) && forall a :: a in old(announcers) && a.interface != i ==> a in announcers
      ensures forall a :: a in announcers ==> a in old(announcers)
      ensures group != null ==> group.members <= old(group.members) && group.leaked >= old(group.leaked)
    {
      var k := 0;
      while k < |announcers|
        invariant 0 <= k <= |announcers|
        invariant forall j :: 0 <= j < k ==> announcers[j].interface != i
      {
        if announcers[k].interface == i {
          OneEach(k);
          RemoveAnnouncer(k);
          return;
        }
        k := k + 1;
      }
    }

    lemma OneEach(k: nat)
      requires Home() && k < |announcers|
      ensures forall a :: a in Without(announcers, k) ==> a in announcers && a.interface != announcers[k].interface
      ensures forall a :: a in announcers && a.interface != announcers[k].interface ==> a in Without(announcers, k)
    {
      WithoutKeeps(announcers, k);
      assert forall j :: 0 <= j < |announcers| && j != k ==> announcers[j].interface != announcers[k].interface;
    }

    /** server_add_internal with the update flag: the new flags, and the entry announced again if
        its record changed. */
    method Update(flags: Flags, same: bool, walked: seq<Interface>)
      requires Home() && !dead
      modifies this`flags, this`updated, announcers, Owner()`nProbing, Owner()`probing
      ensures Home() && this.flags == flags && announcers == old(announcers)
      ensures forall a :: a in announcers ==>
                if !same && a.interface in walked && GroupState() != Some(Uncommitted)
                then a.state == Restart(old(a.state), flags) && |a.trace| > |old(a.trace)| else unchanged(a)
      ensures group != null && old(group.Progress()) ==> group.Progress()
    {
      SetFlags(flags);
      if same || GroupState() == Some(Uncommitted) {
        return;
      }
      ReannounceOn(walked);
    }

    method SetFlags(flags: Flags)
      requires Home() && !dead
      modifies this`flags, this`updated
      ensures Home() && this.flags == flags
      ensures GroupState() == Some(Uncommitted) ==> announcers == []
    {
      Unregistered();
      updated := updated || this.flags != flags;
      this.flags := flags;
      if group != null {
        group.FlagsChanged(this);
      }
    }

    lemma Unregistered()
      requires Home()
      ensures GroupState() == Some(Uncommitted) ==> announcers == []
    {
      assert group != null && announcers != [] ==> announcers[0] in group.members;
    }

    /** avahi_reannounce_entry. */
    method ReannounceOn(walked: seq<Interface>)
      requires Home()
      modifies announcers, Owner()`nProbing, Owner()`probing
      ensures Home()
      ensures forall a :: a in announcers ==>
                if a.interface in walked then a.state == Restart(old(a.state), flags) && |a.trace| > |old(a.trace)| else unchanged(a)
      ensures group != null && old(group.Progress()) ==> group.Progress()
    {
      hide Home;
      var k := 0;
      while k < |walked|
        invariant 0 <= k <= |walked|
        invariant Home()
        invariant forall a :: a in announcers ==>
                    if a.interface in walked[..k] then a.state == Restart(old(a.state), flags) && |a.trace| > |old(a.trace)| else unchanged(a)
        invariant group != null && old(group.Progress()) ==> group.Progress()
      {
        ReannounceOne(walked[k]);
        assert walked[..k + 1] == walked[..k] + [walked[k]];
        k := k + 1;
      }
      assert walked[..|walked|] == walked;
    }

    /** reannounce_walk_callback. */
    method ReannounceOne(i: Interface)
      requires Home()
      modifies announcers, Owner()`nProbing, Owner()`probing
      ensures Home()
      ensures forall a :: a in announcers ==>
                if a.interface == i then a.state == Restart(old(a.state), flags) && |a.trace| > |old(a.trace)| else unchanged(a)
      ensures group != null && old(group.Progress()) ==> group.Progress()
    {
      var a := GetAnnouncer(i);
      if a != null {
        AtHome(a);
        a.Reannounce();
      }
    }

    /** withdraw_entry: the whole group goes down with its entry. */
    method Withdraw(now: int)
      requires Home()
      modifies this`announcers, this`dead, Owner(), Siblings()`announcers, Siblings()`dead
      ensures Home() && dead && announcers == []
      ensures group != null && !old(dead) ==> forall e :: e in group.entries ==> e.dead
      ensures group != null && !old(dead) ==> group.state == Collision && group.members == {} && group.nProbing == 0
    {
      if dead {
        return;
      }
      if group != null {
        group.Withdraw(now);
      } else {
        RemoveAll();
        dead := true;
      }
    }

    lemma AtHome(a: Announcer)
      requires Home() && a in announcers
      ensures a.Home() && a.entry == this
      ensures forall b :: b in announcers && b.interface == a.interface ==> b == a
    {
    }

    /** The inner loop of check_probed. */
    method ReleaseWaiting(immediately: bool)
      requires GroupState() == Some(Established)
      requires forall a :: a in announcers ==> a.entry == this && a.Ok()
      modifies announcers
      ensures forall a :: a in announcers ==> a.state != Waiting && a.Ok()
      ensures forall a :: a in announcers ==> unchanged(a) || (old(a.state) == Waiting && a.Freed(old(a.trace), immediately))
    {
      var j := 0;
      while j < |announcers|
        invariant 0 <= j <= |announcers|
        invariant forall a :: a in announcers ==> a.Ok()
        invariant forall k :: 0 <= k < j ==> announcers[k].state != Waiting
        invariant forall a :: a in announcers ==> unchanged(a) || (old(a.state) == Waiting && a.Freed(old(a.trace), immediately))
      {
        var a := announcers[j];
        if a.state == Waiting {
          a.Release(immediately);
        }
        j := j + 1;
      }
    }
  }

  class Group {
    var state: GroupState
    var nProbing: nat
    var entries: seq<Entry>
    var tries: nat
    var registerTime: int
    var pending: bool                    // register_time_event exists, due at registerTime
    var establishedAt: int
    ghost var members: set<Announcer>    // the announcers of all entries
    ghost var probing: set<Announcer>
    ghost var leaked: nat                // probing announcers that remove_announcer took away

    constructor ()
      ensures Valid() && state == Uncommitted && entries == [] && tries == 0
    {
      state, nProbing, entries, tries, registerTime, pending, establishedAt := Uncommitted, 0, [], 0, 0, false, 0;
      members, probing, leaked := {}, {}, 0;
    }

    /** The lists of announcers, one per interface, and the entries own each other. */
    ghost predicate Shape()
      reads this, entries
    {
      && (forall e :: e in entries ==> e.group == this && (e.dead ==> e.announcers == []))
      && (forall e, a :: e in entries && a in e.announcers ==> a in members && a.entry == e)
      && (forall a :: a in members ==> a.entry in entries && a in a.entry.announcers)
      && (forall e :: e in entries ==> Distinct(e.announcers))
    }

    /** n_probing counts the probing announcers, and those that were taken away while probing. */
    ghost predicate Counts()
      reads this, members
    {
      && probing <= members
      && (forall a :: a in members ==> (a.state == Probing <==> a in probing))
      && nProbing == |probing| + leaked
    }

    /** An announcer waits only for a group being registered. While the flags of its entry stay,
        it announces only for an established one. */
    ghost predicate Fits(a: Announcer)
      reads this, a, a.entry
    {
      && a.Ok()
      && Suits(a.state, a.entry.flags, a.entry.updated, Some(state))
      && (!a.entry.updated ==> Timely(a.trace))
    }

    ghost predicate Valid()
      reads this, entries, members
    {
      && Shape() && Counts()
      && (forall a :: a in members ==> Fits(a))
      && (state == Uncommitted || state == Collision ==> members == {} && leaked == 0)
      && (pending ==> state == Registering)
    }

    /** The one change is the announcer a, and its part in the count. */
    twostate predicate Moved(new a: Announcer)
      reads this, entries, members, a
    {
      && a in members && state == old(state) && entries == old(entries) && members == old(members)
      && leaked == old(leaked) && pending == old(pending)
      && nProbing == old(nProbing) - (if a in old(probing) then 1 else 0) + (if a.state == Probing then 1 else 0)
      && probing == old(probing) - {a} + (if a.state == Probing then {a} else {})
      && (forall e :: e in old(entries) ==> unchanged(e))
      && (forall b :: b in old(members) && b != a ==> unchanged(b))
    }

    twostate lemma ShapeKept()
      requires old(Shape()) && entries == old(entries) && members == old(members)
      requires forall e :: e in entries ==> unchanged(e)
      ensures Shape()
    {
    }

    twostate lemma CountsKept(new a: Announcer)
      requires old(Counts()) && Moved(a)
      ensures Counts()
    {
      hide Shape, Fits, Timely, Announcer.Ok, Announcer.Poised;
      Recount(old(probing), a, a.state == Probing);
      forall b | b in members
        ensures b.state == Probing <==> b in probing
      {
        assert b != a ==> unchanged(b);
      }
    }

    lemma Recount(s: set<Announcer>, a: Announcer, stays: bool)
      ensures |s - {a} + if stays then {a} else {}| == |s| - (if a in s then 1 else 0) + (if stays then 1 else 0)
    {
    }

    twostate lemma OthersFit(new a: Announcer)
      requires old(Shape()) && (forall b :: b in old(members) && b != a ==> old(Fits(b))) && Moved(a)
      ensures forall b :: b in members && b != a ==> Fits(b)
    {
      hide Timely, Announcer.Ok;
      forall b | b in members && b != a
        ensures Fits(b)
      {
        assert unchanged(b) && unchanged(b.entry);
      }
    }

    /** The group is in order again once one announcer of it moved on and was counted. */
    twostate lemma ValidAgain(new a: Announcer)
      requires old(Valid()) && Moved(a) && Fits(a)
      ensures Valid()
    {
      hide Fits;
      ShapeKept();
      CountsKept(a);
      OthersFit(a);
    }

    /** Once the group is registering and its holdoff is over, an announcer of it still probes (or
        was taken away while it did): the group cannot wait for nothing. */
    ghost predicate Progress()
      reads this
    {
      state == Registering && !pending ==> nProbing > 0
    }

    ghost predicate JustEstablished(was: GroupState)
      reads this
    {
      was == Registering && state == Established && probing == {} && leaked == 0
    }

    /** The one change is that the announcer a, number k of its entry, was taken away. */
    twostate predicate Parted(new a: Announcer, k: nat)
      reads this, entries, members, a
    {
      && a in old(members) && members == old(members) - {a}
      && state == old(state) && entries == old(entries) && pending == old(pending)
      && nProbing == old(nProbing) && probing == old(probing) - {a}
      && leaked == old(leaked) + (if a in old(probing) then 1 else 0)
      && (forall e :: e in old(entries) ==> unchanged(e`dead, e`flags, e`updated) && (e == a.entry || unchanged(e`announcers)))
      && (forall e :: e in old(entries) && e == a.entry ==>
            k < |old(e.announcers)| && old(e.announcers)[k] == a && e.announcers == Without(old(e.announcers), k))
      && (forall b :: b in old(members) ==> unchanged(b))
    }

    twostate lemma ShapeWithout(new a: Announcer, k: nat)
      requires old(Shape()) && Parted(a, k)
      ensures Shape()
    {
      forall e | e in old(entries) && e == a.entry
        ensures Distinct(e.announcers)
        ensures forall b :: b in e.announcers <==> b in old(e.announcers) && b != a
      {
        WithoutKeeps(old(e.announcers), k);
      }
    }

    twostate lemma CountsWithout(new a: Announcer, k: nat)
      requires old(Counts()) && Parted(a, k)
      ensures Counts()
    {
      Recount(old(probing), a, false);
    }

    twostate lemma ValidWithout(new a: Announcer, k: nat)
      requires old(Valid()) && Parted(a, k)
      ensures Valid()
    {
      ShapeWithout(a, k);
      CountsWithout(a, k);
      hide Timely, Announcer.Ok;
      forall b | b in members
        ensures Fits(b)
      {
        assert b.entry in entries;
      }
    }

    method RemoveMember(a: Announcer, k: nat)
      requires Valid() && a in members && a.entry in entries && k < |a.entry.announcers| && a.entry.announcers[k] == a
      modifies a.entry`announcers, this`members, this`probing, this`leaked
      ensures Valid() && members == old(members) - {a}
      ensures a.entry.announcers == Without(old(a.entry.announcers), k)
      ensures leaked == old(leaked) + if a.state == Probing then 1 else 0
    {
      hide Valid, Shape, Counts, Fits, Announcer.Ok, Announcer.Home;
      Knows(a);
      a.entry.announcers := a.entry.announcers[..k] + a.entry.announcers[k + 1..];
      leaked := leaked + if a in probing then 1 else 0;
      probing := probing - {a};
      members := members - {a};
      ValidWithout(a, k);
    }

    /** The end of new_announcer for the entry of a group. */
    method AddMember(a: Announcer)
      requires Valid() && (state == Registering || state == Established)
      requires a.entry in entries && !a.entry.dead && a.trace == []
      requires a !in members && a.entry.Free(a.interface, a.entry.announcers)
      modifies a, a.entry`announcers, this`members, this`nProbing, this`probing
      ensures Valid() && members == old(members) + {a}
      ensures a.entry.announcers == [a] + old(a.entry.announcers)
      ensures a.state == Initial(a.entry.flags, Some(state)) && a.trace == [Started(a.state)]
      ensures nProbing >= old(nProbing)
    {
      hide *;
      KnowsEntry(a);
      a.entry.announcers := [a] + a.entry.announcers;
      members := members + {a};
      a.GoToInitialState();
      InitialSuits(a);
      FitsAnew(a, []);
      JoinedOn(a);
      ValidWith(a);
    }

    lemma KnowsEntry(a: Announcer)
      requires Valid() && a.entry in entries && a.trace == []
      ensures a.entry.group == this && a.Owner() == {this} && Lawful(a.trace) && Timely([])
    {
    }

    lemma InitialSuits(a: Announcer)
      requires a.entry.group == this && (state == Registering || state == Established)
      ensures Suits(Initial(a.entry.flags, Some(state)), a.entry.flags, a.entry.updated, Some(state))
      ensures a.entry.GroupState() == Some(state)
    {
    }

    twostate lemma JoinedOn(new a: Announcer)
      requires a.entry.group == this && a.entry in old(entries) && !a.entry.dead
      requires state == old(state) && entries == old(entries) && leaked == old(leaked) && pending == old(pending)
      requires a !in old(members) && members == old(members) + {a}
      requires a.Counted(old(nProbing), old(probing))
      requires forall e :: e in old(entries) ==> unchanged(e`dead, e`flags, e`updated) && (e == a.entry || unchanged(e`announcers))
      requires forall e :: e in old(entries) && e == a.entry ==>
                 e.announcers == [a] + old(e.announcers) && e.Free(a.interface, old(e.announcers))
      requires forall b :: b in old(members) ==> unchanged(b)
      ensures Joined(a)
    {
    }

    /** The one change is that the announcer a was added to its entry. */
    twostate predicate Joined(new a: Announcer)
      reads this, entries, members, a, a.entry
    {
      && a !in old(members) && members == old(members) + {a} && a.entry in old(entries) && !a.entry.dead
      && state == old(state) && entries == old(entries)
      && leaked == old(leaked) && pending == old(pending)
      && nProbing == old(nProbing) + (if a.state == Probing then 1 else 0)
      && probing == old(probing) + (if a.state == Probing then {a} else {})
      && (forall e :: e in old(entries) ==> unchanged(e`dead, e`flags, e`updated) && (e == a.entry || unchanged(e`announcers)))
      && (forall e :: e in old(entries) && e == a.entry ==> e.announcers == [a] + old(e.announcers) && e.Free(a.interface, old(e.announcers)))
      && (forall b :: b in old(members) ==> unchanged(b))
    }

    twostate lemma ShapeWith(new a: Announcer)
      requires old(Shape()) && Joined(a)
      ensures Shape()
    {
    }

    twostate lemma CountsWith(new a: Announcer)
      requires old(Counts()) && Joined(a)
      ensures Counts()
    {
    }

    twostate lemma ValidWith(new a: Announcer)
      requires old(Valid()) && Joined(a) && Fits(a) && (state == Registering || state == Established)
      ensures Valid()
    {
      ShapeWith(a);
      CountsWith(a);
    }

    method EnterMember(a: Announcer, next: Phase)
      requires Valid() && a in members && Suits(next, a.entry.flags, a.entry.updated, Some(state))
      modifies a, this`nProbing, this`probing
      ensures Valid() && a.state == next && a.trace == old(a.trace) + [Started(next)]
      ensures nProbing == old(nProbing - if a.state == Probing then 1 else 0) + if next == Probing then 1 else 0
    {
      hide *;
      Knows(a);
      Restart(a, next);
      FitsAnew(a, old(a.trace));
      MovedOn(a, old(nProbing - if a in probing then 1 else 0), old(probing - {a}));
      ValidAgain(a);
    }

    /** The announcer is no longer counted for its old phase, and starts the new one. */
    method Restart(a: Announcer, next: Phase)
      requires a.entry.group == this && a.Owner() == {this} && Lawful(a.trace)
      requires a in probing <==> a.state == Probing
      requires a in probing ==> nProbing > 0
      modifies a, this`nProbing, this`probing
      ensures a.state == next && a.Ok() && a.trace == old(a.trace) + [Started(next)]
      ensures a.Counted(old(nProbing - if a in probing then 1 else 0), old(probing - {a}))
    {
      hide *;
      if a.state == Probing {
        nProbing := nProbing - 1;
      }
      probing := probing - {a};
      a.state := next;
      a.StartPhase();
    }

    /** What the group knows of its announcers. */
    lemma Knows(a: Announcer)
      requires Valid() && a in members
      ensures a.entry in entries && a.entry.group == this && a.Owner() == {this}
      ensures a.Ok() && Lawful(a.trace) && (!a.entry.updated ==> Timely(a.trace))
      ensures a in probing <==> a.state == Probing
      ensures |probing| <= nProbing && (a in probing ==> nProbing > 0)
      ensures state == Registering || state == Established
    {
    }

    twostate lemma MovedOn(new a: Announcer, n: int, new s: set<Announcer>)
      requires a.entry.group == this && a in members && state == old(state) && entries == old(entries) && members == old(members)
      requires leaked == old(leaked) && pending == old(pending)
      requires n == old(nProbing) - if a in old(probing) then 1 else 0
      requires s == old(probing) - {a}
      requires a.Counted(n, s)
      requires (forall e :: e in old(entries) ==> unchanged(e))
      requires (forall b :: b in old(members) && b != a ==> unchanged(b))
      ensures Moved(a)
    {
    }

    lemma FitsAnew(a: Announcer, t: seq<Step>)
      requires a.entry.group == this && a.Ok() && Suits(a.state, a.entry.flags, a.entry.updated, Some(state)) && a.trace == t + [Started(a.state)]
      requires !a.entry.updated ==> Timely(t)
      ensures Fits(a)
    {
      TimelySnoc(t, Started(a.state));
    }

    /** avahi_s_entry_group_change_state, without the user's callback. */
    method ChangeState(next: GroupState, now: int)
      modifies this`state, this`tries, this`pending, this`establishedAt
      ensures state == next
      ensures old(state) == next ==> unchanged(this)
      ensures old(state) != next ==> pending == (old(pending) && old(state) != Registering)
    {
      if state == next {
        return;
      }
      if state == Established {
        if now - establishedAt > 5000000 {
          tries := 0;
        }
      } else if state == Registering {
        pending := false;
      }
      if next == Established {
        establishedAt := now;
      }
      state := next;
    }

    /** avahi_s_entry_group_check_probed. */
    method CheckProbed(immediately: bool, now: int)
      requires Valid()
      modifies this`state, this`tries, this`pending, this`establishedAt, members
      ensures Valid()
      ensures state == if old(state) == Registering && nProbing == 0 then Established else old(state)
      ensures forall a :: a in members && old(a.state) != Waiting ==> unchanged(a)
      ensures forall a :: a in members && old(a.state) == Waiting && state == Established ==> a.Freed(old(a.trace), immediately)
      ensures state == Registering ==> nProbing > 0 && forall a :: a in members ==> unchanged(a)
      ensures state != old(state) ==> JustEstablished(old(state))
      ensures pending ==> old(pending)
    {
      if state != Registering || nProbing > 0 {
        return;
      }
      ghost var group := this;
      ChangeState(Established, now);
      ReleaseAll(immediately);
      forall a | a in members
        ensures Fits(a)
      {
        if !unchanged(a) {
          Released(a, old(a.trace), immediately);
        }
      }
    }

    lemma Released(a: Announcer, t: seq<Step>, immediately: bool)
      requires state == Established && (!a.entry.updated ==> Timely(t)) && a.Freed(t, immediately)
      ensures Fits(a)
    {
      assert a.trace[..|t|] == t;
    }

    /** The outer loop of check_probed. */
    method ReleaseAll(immediately: bool)
      requires Shape() && state == Established && forall a :: a in members ==> a.Ok()
      modifies members
      ensures Shape()
      ensures forall a :: a in members ==> unchanged(a) || (old(a.state) == Waiting && a.Freed(old(a.trace), immediately))
      ensures forall a :: a in members ==> a.state != Waiting
    {
      hide Announcer.Ok, Announcer.Freed;
      var i := 0;
      while i < |entries|
        invariant 0 <= i <= |entries|
        invariant forall a :: a in members ==> a.Ok()
        invariant forall a :: a in members ==> unchanged(a) || (old(a.state) == Waiting && a.state != Waiting && a.Freed(old(a.trace), immediately))
        invariant forall k, a :: 0 <= k < i && a in entries[k].announcers ==> a.state != Waiting
      {
        entries[i].ReleaseWaiting(immediately);
        i := i + 1;
      }
    }

    /** avahi_announce_group. */
    method AnnounceGroup(links: seq<Link>)
      requires Valid() && (state == Registering || state == Established)
      modifies this`members, this`nProbing, this`probing, entries`announcers
      ensures Valid()
      ensures forall e :: e in entries && !e.dead ==> e.Covers(links)
      ensures old(Progress()) ==> Progress()
      ensures fresh(members - old(members))
    {
      hide Valid, Entry.Covers;
      var k := 0;
      while k < |entries|
        invariant 0 <= k <= |entries|
        invariant Valid()
        invariant forall j :: 0 <= j < k && !entries[j].dead ==> entries[j].Covers(links)
        invariant old(Progress()) ==> Progress()
        invariant fresh(members - old(members))
      {
        MyEntry(entries[k]);
        if !entries[k].dead {
          entries[k].AnnounceOn(links);
        }
        k := k + 1;
      }
    }

    lemma MyEntry(e: Entry)
      requires Valid() && e in entries
      ensures e.group == this && e.Home()
    {
    }

    /** entry_group_commit_real. */
    method CommitReal(links: seq<Link>, now: int)
      requires Valid() && state != Established && !pending
      modifies this, entries`announcers, members
      ensures Valid() && Progress() && registerTime == now && entries == old(entries)
      ensures state == (if nProbing > 0 then Registering else Established) && !pending
      ensures forall e :: e in entries && !e.dead ==> e.Covers(links)
    {
      hide *;
      registerTime := now;
      ChangeState(Registering, now);
      Begun();
      AnnounceGroup(links);
      CheckProbed(false, now);
      ProgressIs();
    }

    lemma ProgressIs()
      ensures Progress() <==> (state == Registering && !pending ==> nProbing > 0)
    {
    }

    twostate lemma Begun()
      requires old(Valid()) && old(state) != Established
      requires state == Registering && entries == old(entries) && members == old(members) && probing == old(probing)
      requires nProbing == old(nProbing) && leaked == old(leaked)
      requires forall e :: e in old(entries) ==> unchanged(e)
      requires forall a :: a in old(members) ==> unchanged(a)
      ensures Valid()
    {
    }

    lemma Idle()
      requires Valid()
      ensures state == Uncommitted || state == Collision ==> !pending
    {
    }

    /** avahi_s_entry_group_is_empty. */
    method IsEmpty() returns (empty: bool)
      ensures empty <==> forall e :: e in entries ==> e.dead
    {
      var k := 0;
      while k < |entries|
        invariant 0 <= k <= |entries|
        invariant forall j :: 0 <= j < k ==> entries[j].dead
      {
        if !entries[k].dead {
          return false;
        }
        k := k + 1;
      }
      return true;
    }

    /** avahi_s_entry_group_commit: registration starts at once when the last one is long enough
        ago, and is put off to that time otherwise. */
    method Commit(links: seq<Link>, now: int) returns (r: Outcome)
      requires Valid()
      modifies this, entries`announcers, members
      ensures Valid() && entries == old(entries)
      ensures r == BadState <==> old(state) == Registering || old(state) == Established
      ensures r == IsEmptyGroup <==> r != BadState && forall e :: e in entries ==> e.dead
      ensures r != Committed ==> unchanged(this)
      ensures r == Committed ==> (state == Registering || state == Established) && Progress()
      ensures r == Committed ==> Due(old(registerTime), old(tries) + 1, now)
    {
      Idle();
      hide Valid;
      if state != Uncommitted && state != Collision {
        return BadState;
      }
      var empty := IsEmpty();
      if empty {
        return IsEmptyGroup;
      }
      tries := tries + 1;
      registerTime := registerTime + 1000 * if tries >= RATE_LIMIT_COUNT then HOLDOFF_RATE_LIMIT else HOLDOFF;
      Start(links, now);
      return Committed;
    }

    /** The end of commit: start now or put it off. */
    method Start(links: seq<Link>, now: int)
      requires Valid() && state != Established && !pending
      modifies this, entries`announcers, members
      ensures Valid() && entries == old(entries) && (state == Registering || state == Established) && Progress()
      ensures if old(registerTime) <= now then registerTime == now && !pending
              else registerTime == old(registerTime) && pending && state == Registering
    {
      hide Valid;
      if registerTime <= now {
        CommitReal(links, now);
      } else {
        ChangeState(Registering, now);
        pending := true;
        Begun();
      }
    }

    /** Registration started at the time of the clock or is set for later, a holdoff after the last. */
    ghost predicate Due(last: int, attempt: nat, now: int)
      reads this
    {
      var next := last + if attempt >= 15 then 20_000_000 else 1_000_000;
      if next <= now then registerTime == now && !pending else registerTime == next && pending && state == Registering
    }

    /** entry_group_register_time_event_callback. */
    method HoldoffOver(links: seq<Link>, now: int)
      requires Valid() && pending
      modifies this, entries`announcers, members
      ensures Valid() && Progress() && registerTime == now && !pending
      ensures forall e :: e in entries && !e.dead ==> e.Covers(links)
    {
      pending := false;
      CommitReal(links, now);
    }

    /** The loop of withdraw_entry and of avahi_s_entry_group_reset. */
    method RetireAll()
      requires Valid()
      modifies this`members, this`probing, this`leaked, entries`announcers, entries`dead
      ensures Valid() && members == {} && forall e :: e in entries ==> e.dead
    {
      hide Valid;
      var k := 0;
      while k < |entries|
        invariant 0 <= k <= |entries|
        invariant Valid()
        invariant forall j :: 0 <= j < k ==> entries[j].dead
      {
        var e := entries[k];
        MyEntry(e);
        if !e.dead {
          e.RemoveAll();
          label removed:
          e.dead := true;
          StillValid@removed(e);
        }
        k := k + 1;
      }
      NoneLeft();
    }

    twostate lemma StillValid(new e: Entry)
      requires old(Valid()) && unchanged(this) && e in old(entries) && e.announcers == []
      requires forall f :: f in old(entries) ==> unchanged(f`announcers, f`flags, f`updated) && (f == e || unchanged(f`dead))
      requires forall a :: a in old(members) ==> unchanged(a)
      ensures Valid()
    {
    }

    twostate lemma FlagsChanged(new e: Entry)
      requires old(Valid()) && unchanged(this) && e in old(entries)
      requires forall f :: f in old(entries) ==> unchanged(f`announcers, f`dead) && (f == e || unchanged(f`flags, f`updated))
      requires forall f :: f in old(entries) && f == e ==> e.updated || (!old(f.updated) && e.flags == old(f.flags))
      requires forall a :: a in old(members) ==> unchanged(a)
      ensures Valid()
    {
    }

    lemma NoneLeft()
      requires Valid() && forall e :: e in entries ==> e.dead
      ensures members == {}
    {
      assert forall a :: a in members ==> a.entry in entries && a in a.entry.announcers;
    }

    /** withdraw_entry for an entry that is in a group. */
    method Withdraw(now: int)
      requires Valid()
      modifies this, entries`announcers, entries`dead
      ensures Valid() && state == Collision && members == {} && nProbing == 0 && entries == old(entries)
      ensures forall e :: e in entries ==> e.dead
    {
      RetireAll();
      Retired(Collision, now);
    }

    /** avahi_s_entry_group_reset. */
    method Reset(now: int)
      requires Valid()
      modifies this, entries`announcers, entries`dead
      ensures Valid() && state == Uncommitted && members == {} && nProbing == 0 && entries == old(entries)
      ensures forall e :: e in entries ==> e.dead
    {
      RetireAll();
      Retired(Uncommitted, now);
    }

    /** The counter starts again, and the group is out of business. */
    method Retired(next: GroupState, now: int)
      requires Valid() && members == {} && (next == Uncommitted || next == Collision)
      modifies this
      ensures Valid() && state == next && members == {} && nProbing == 0 && entries == old(entries)
    {
      nProbing := 0;
      leaked := 0;
      ChangeState(next, now);
    }

    /** server_add_internal for a new entry of a group: refused once the group is registering or
        established. */
    method AddEntry(index: Option<nat>, protocol: Option<nat>, flags: Flags) returns (e: Entry?)
      requires Valid()
      modifies this`entries
      ensures Valid() && (e == null <==> old(state) == Registering || old(state) == Established)
      ensures entries == if e == null then old(entries) else [e] + old(entries)
      ensures e != null ==> fresh(e) && e.group == this && !e.dead && e.flags == flags && e.announcers == []
    {
      if state == Registering || state == Established {
        return null;
      }
      e := new Entry(this, index, protocol, flags);
      entries := [e] + entries;
    }
  }
}
