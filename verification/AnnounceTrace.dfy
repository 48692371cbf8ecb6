/** What one announcer does over its life, as the sequence of its steps, and the law every such
    sequence keeps (next_state, go_to_initial_state, reannounce in avahi-core/announce.c). */
module AnnounceTrace {
  import opened Bytes

  datatype Phase = Probing | Waiting | Announcing | Settled

  datatype GroupState = Uncommitted | Registering | Established | Collision

  datatype Step =
    | Started(phase: Phase)          // a fresh start, or a restart
    | Probed                         // a probe was posted
    | ProbesDone(phase: Phase)       // probing ended: wait for the group, or announce
    | Released(immediately: bool)    // the group became established
    | Announced(group: Option<GroupState>, next: Option<nat>)   // next: milliseconds to the next one

  /** Where an announcer is after its steps so far. */
  datatype Cursor =
    | Fresh
    | InProbing(sent: nat)
    | InWaiting
    | InAnnouncing(sent: nat, plan: nat)
    | AtRest
    | Broken

  function Pow2(n: nat): (p: nat)
    ensures p > 0
  {
    if n == 0 then 1 else 2 * Pow2(n - 1)
  }

  function Begin(p: Phase): Cursor {
    match p
    case Probing => InProbing(0)
    case Waiting => InWaiting
    case Announcing => InAnnouncing(0, 3)
    case Settled => AtRest
  }

  /** The law: three probes, then on; three announcements, or four when the group was established
      without the shortcut, the delay doubling from one second. */
  function Advance(c: Cursor, s: Step): Cursor {
    match s
    case Started(p) => if c == Broken then Broken else Begin(p)
    case Probed => if c.InProbing? && c.sent < 3 then InProbing(c.sent + 1) else Broken
    case ProbesDone(p) =>
      if c == InProbing(3) && (p == Waiting || p == Announcing) then Begin(p) else Broken
    case Released(immediately) =>
      if c == InWaiting then InAnnouncing(0, if immediately then 3 else 4) else Broken
    case Announced(_, next) =>
      if !c.InAnnouncing? || c.sent >= c.plan then Broken
      else if c.sent + 1 == c.plan then (if next == None then AtRest else Broken)
      else if next == Some(1000 * Pow2(c.sent)) then InAnnouncing(c.sent + 1, c.plan)
      else Broken
  }

  function Track(t: seq<Step>): Cursor {
    if t == [] then Fresh else Advance(Track(t[..|t| - 1]), t[|t| - 1])
  }

  predicate Lawful(t: seq<Step>) {
    Track(t) != Broken
  }

  /** No restart strictly between the steps i and j. */
  predicate Uninterrupted(t: seq<Step>, i: nat, j: nat) {
    forall k {:trigger t[k]} :: i < k < j && k < |t| ==> !t[k].Started?
  }

  lemma TrackSnoc(t: seq<Step>, s: Step)
    ensures Track(t + [s]) == Advance(Track(t), s)
  {
    assert (t + [s])[..|t|] == t;
  }

  /** One step of the law, by position. */
  lemma TrackAt(t: seq<Step>, k: nat)
    requires k < |t|
    ensures Track(t[..k + 1]) == Advance(Track(t[..k]), t[k])
  {
    assert t[..k + 1][..k] == t[..k];
  }

  lemma {:induction false} LawfulPrefix(t: seq<Step>, k: nat)
    requires Lawful(t) && k <= |t|
    ensures Lawful(t[..k])
    decreases |t| - k
  {
    if k == |t| {
      assert t[..k] == t;
    } else {
      LawfulPrefix(t, k + 1);
      TrackAt(t, k);
    }
  }

  /** Without a restart, probing is never entered again. */
  lemma {:induction false} ProbingOnce(t: seq<Step>, i: nat, j: nat)
    requires Lawful(t) && 0 < i <= j <= |t|
    requires !Track(t[..i]).InProbing?
    requires Uninterrupted(t, i - 1, j)
    ensures !Track(t[..j]).InProbing?
  {
    if i < j {
      ProbingOnce(t, i, j - 1);
      TrackAt(t, j - 1);
    }
  }

  /** The steps after a start of probing are forced. */
  lemma {:induction false} ProbingForced(t: seq<Step>, i: nat, m: nat)
    requires Lawful(t) && m < 4 && i + m < |t|
    requires t[i] == Started(Probing) && Uninterrupted(t, i, i + m + 1)
    ensures Track(t[..i + m + 1]) == InProbing(m)
    ensures m > 0 ==> t[i + m] == Probed
  {
    hide Track;
    LawfulPrefix(t, i);
    LawfulPrefix(t, i + m + 1);
    TrackAt(t, i + m);
    if m > 0 {
      ProbingForced(t, i, m - 1);
    }
  }

  /** And so is what ends the phase. */
  lemma AfterProbes(t: seq<Step>, i: nat, m: nat)
    requires Lawful(t) && m < 4 && i + m + 1 < |t| && !t[i + m + 1].Started?
    requires t[i] == Started(Probing) && Uninterrupted(t, i, i + m + 1)
    ensures t[i + m + 1] == Probed || (m == 3 && t[i + 4].ProbesDone?)
  {
    ProbingForced(t, i, m);
    LawfulPrefix(t, i + m + 2);
    TrackAt(t, i + m + 1);
  }

  /** An uninterrupted probing phase posts exactly three probes. */
  lemma ThreeProbes(t: seq<Step>, i: nat, j: nat)
    requires Lawful(t) && i < j < |t| && Uninterrupted(t, i, j)
    requires t[i] == Started(Probing) && t[j].ProbesDone?
    ensures j == i + 4 && t[i + 1..j] == [Probed, Probed, Probed]
  {
    ProbesFirst(t, i, j);
    if j > i + 4 {
      LawfulPrefix(t, i + 5);
      TrackAt(t, i + 4);
      ProbingOnce(t, i + 5, j);
      TrackAt(t, j);
      LawfulPrefix(t, j + 1);
    }
  }

  /** Whatever ends or follows an uninterrupted probing phase comes after its three probes: nothing
      is announced that still has probes to send. */
  lemma ProbesFirst(t: seq<Step>, i: nat, j: nat)
    requires Lawful(t) && i < j < |t| && Uninterrupted(t, i, j)
    requires t[i] == Started(Probing) && (t[j].ProbesDone? || t[j].Announced?)
    ensures j >= i + 4 && t[i + 1..i + 4] == [Probed, Probed, Probed] && t[i + 4].ProbesDone?
  {
    AfterProbes(t, i, 0);
    if j >= i + 2 {
      AfterProbes(t, i, 1);
    }
    if j >= i + 3 {
      AfterProbes(t, i, 2);
    }
    if j >= i + 4 {
      AfterProbes(t, i, 3);
      ProbingForced(t, i, 3);
      TrackAt(t, i + 4);
      LawfulPrefix(t, i + 5);
    }
  }

  /** The number of announcements the step that starts the announcing phase plans. */
  function Planned(s: Step): nat {
    if s == Released(false) then 4
    else if s == Released(true) || s == Started(Announcing) || s == ProbesDone(Announcing) then 3
    else 0
  }

  lemma {:induction false} AnnouncingForced(t: seq<Step>, i: nat, m: nat)
    requires Lawful(t) && i + m < |t| && m < Planned(t[i])
    requires Uninterrupted(t, i, i + m + 1)
    ensures Track(t[..i + m + 1]) == InAnnouncing(m, Planned(t[i]))
    ensures m > 0 ==> t[i + m].Announced? && t[i + m].next == Some(1000 * Pow2(m - 1))
  {
    hide Track;
    LawfulPrefix(t, i);
    LawfulPrefix(t, i + m + 1);
    TrackAt(t, i + m);
    if m > 0 {
      AnnouncingForced(t, i, m - 1);
    }
  }

  /** The step m after the start of an announcing phase asks for a delay of 2^(m-1) seconds. */
  predicate Delayed(t: seq<Step>, i: nat, m: nat) {
    i + m < |t| && t[i + m].Announced? && (m > 0 ==> t[i + m].next == Some(1000 * Pow2(m - 1)))
  }

  /** An uninterrupted announcing phase sends exactly the announcements planned, with delays of
      one second, two seconds and, when four are planned, four. */
  lemma AllAnnounced(t: seq<Step>, i: nat, j: nat)
    requires Lawful(t) && i < j < |t| && Uninterrupted(t, i, j)
    requires Planned(t[i]) > 0 && t[j].Announced? && t[j].next == None
    ensures j == i + Planned(t[i])
    ensures forall m :: 0 < m < Planned(t[i]) ==> Delayed(t, i, m)
  {
    var p := Planned(t[i]);
    if j < i + p {
      AnnouncingForced(t, i, j - i);
    } else {
      forall m | 0 < m < p
        ensures Delayed(t, i, m)
      {
        AnnouncingForced(t, i, m);
      }
      LastAnnouncement(t, i, j);
    }
  }

  lemma LastAnnouncement(t: seq<Step>, i: nat, j: nat)
    requires Lawful(t) && i < j < |t| && Uninterrupted(t, i, j) && !t[j].Started?
    requires Planned(t[i]) > 0 && j >= i + Planned(t[i])
    ensures j == i + Planned(t[i])
  {
    hide *;
    var p := Planned(t[i]);
    PlannedSome(t[i]);
    Shorter(t, i, j, i + p);
    AnnouncingForced(t, i, p - 1);
    NotStarted(t, i, j, i + p);
    PlanEnds(t, i + p, p);
    if j > i + p {
      NotStarted(t, i, j, i + p + 1);
      NothingAtRest(t, i + p + 1);
    }
  }

  lemma PlannedSome(s: Step)
    ensures Planned(s) <= 4
  {
  }

  lemma Shorter(t: seq<Step>, i: nat, j: nat, k: nat)
    requires Uninterrupted(t, i, j) && k <= j
    ensures Uninterrupted(t, i, k)
  {
  }

  /** Only a restart or the last announcement follows the one before the last. */
  lemma PlanEnds(t: seq<Step>, k: nat, p: nat)
    requires Lawful(t) && k < |t| && !t[k].Started? && 0 < p
    requires Track(t[..k]) == InAnnouncing(p - 1, p)
    ensures Track(t[..k + 1]) == AtRest
  {
    hide Track;
    TrackAt(t, k);
    LawfulPrefix(t, k + 1);
  }

  /** Only a restart follows the last announcement. */
  lemma NothingAtRest(t: seq<Step>, k: nat)
    requires Lawful(t) && k < |t| && Track(t[..k]) == AtRest
    ensures t[k].Started?
  {
    hide Track;
    TrackAt(t, k);
    LawfulPrefix(t, k + 1);
  }

  lemma NotStarted(t: seq<Step>, i: nat, j: nat, k: nat)
    requires Uninterrupted(t, i, j) && i < k <= j < |t| && !t[j].Started?
    ensures !t[k].Started?
  {
  }
}
