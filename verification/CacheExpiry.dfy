/** When a cache entry is refreshed and when it goes (next_expiry and elapse_func in
    avahi-core/cache.c, section 5.2 of RFC 6762). Times are in microseconds; the jitter is a number
    of [0, 1) in real arithmetic. */
module CacheExpiry {
  import opened Bytes

  datatype EntryState =
    | Valid | Expiry1 | Expiry2 | Expiry3 | ExpiryFinal
    | Poof | PoofFinal | GoodbyeFinal | ReplaceFinal

  /** What an elapsed timer makes of an entry. */
  datatype Elapsed = Removed | Again(state: EntryState, percent: nat)

  function Elapse(s: EntryState): Elapsed {
    match s
    case Valid => Again(Expiry1, 85)
    case Poof => Again(Expiry1, 85)
    case Expiry1 => Again(Expiry2, 90)
    case Expiry2 => Again(Expiry3, 95)
    case Expiry3 => Again(ExpiryFinal, 100)
    case _ => Removed
  }

  predicate Jitter(j: real) {
    0.0 <= j < 1.0
  }

  /** next_expiry: a percentage of the TTL after the timestamp, and up to two percent more. */
  function ExpiryAt(timestamp: int, ttl: uint32, percent: nat, j: real): int {
    var usec: int := ttl as int * 10000;
    var left, right := usec * percent, usec * (percent + 2);
    timestamp + left + ((right - left) as real * j).Floor
  }

  /** One percent of the TTL, in microseconds. */
  function Percent(ttl: uint32): int {
    ttl as int * 10000
  }

  lemma Scaled(u: int, j: real)
    requires u > 0 && Jitter(j)
    ensures 0 <= (u as real * j).Floor < u
  {
    assert 0.0 <= u as real * j < u as real;
  }

  lemma Band(timestamp: int, ttl: uint32, percent: nat, j: real)
    requires ttl > 0 && Jitter(j)
    ensures percent * Percent(ttl) <= ExpiryAt(timestamp, ttl, percent, j) - timestamp < (percent + 2) * Percent(ttl)
  {
    var u := Percent(ttl);
    Distribute(u, percent);
    Scaled(2 * u, j);
  }

  lemma Distribute(u: int, p: int)
    ensures u * (p + 2) - u * p == 2 * u
  {
  }

  /** The states and expiry times of an entry that only its own timer touches, from an update on:
      one element for each timer set, with the jitters js. */
  datatype Stage = Stage(state: EntryState, expiry: int)

  function Life(timestamp: int, ttl: uint32, state: EntryState, percent: nat, js: seq<real>): (l: seq<Stage>)
    ensures |l| <= |js|
    decreases |js|
  {
    if js == [] then [] else
    [Stage(state, ExpiryAt(timestamp, ttl, percent, js[0]))] +
    match Elapse(state)
    case Removed => []
    case Again(next, p) => Life(timestamp, ttl, next, p, js[1..])
  }

  const PERCENTS: seq<nat> := [80, 85, 90, 95, 100]
  const STATES: seq<EntryState> := [Valid, Expiry1, Expiry2, Expiry3, ExpiryFinal]

  predicate InBand(s: Stage, timestamp: int, ttl: uint32, percent: nat) {
    percent * Percent(ttl) <= s.expiry - timestamp < (percent + 2) * Percent(ttl)
  }

  /** An undisturbed entry gets exactly four refresh chances, in bands of their own and in order,
      and is then due for removal between its TTL and 1.02 times its TTL. */
  lemma FourRefreshes(timestamp: int, ttl: uint32, js: seq<real>)
    requires ttl > 0 && |js| >= 5 && forall k :: 0 <= k < |js| ==> Jitter(js[k])
    ensures var l := Life(timestamp, ttl, Valid, 80, js);
            && |l| == 5
            && (forall k :: 0 <= k < 5 ==> l[k].state == STATES[k] && InBand(l[k], timestamp, ttl, PERCENTS[k]))
            && (forall k :: 0 <= k < 4 ==> l[k].expiry < l[k + 1].expiry)
            && Elapse(l[4].state) == Removed
            && ttl as int * 1000000 <= l[4].expiry - timestamp < ttl as int * 1020000
  {
    LifeAt(timestamp, ttl, js, 0);
    LifeAt(timestamp, ttl, js, 1);
    LifeAt(timestamp, ttl, js, 2);
    LifeAt(timestamp, ttl, js, 3);
    LifeAt(timestamp, ttl, js, 4);
    hide ExpiryAt;
    var l0 := Life(timestamp, ttl, Valid, 80, js);
    assert js[1..][1..] == js[2..] && js[2..][1..] == js[3..] && js[3..][1..] == js[4..];
    var l4 := Life(timestamp, ttl, ExpiryFinal, 100, js[4..]);
    var l3 := Life(timestamp, ttl, Expiry3, 95, js[3..]);
    var l2 := Life(timestamp, ttl, Expiry2, 90, js[2..]);
    var l1 := Life(timestamp, ttl, Expiry1, 85, js[1..]);
    assert l0 == [l0[0]] + l1 && l1 == [l1[0]] + l2 && l2 == [l2[0]] + l3 && l3 == [l3[0]] + l4;
    assert l0 == [l0[0], l1[0], l2[0], l3[0], l4[0]];
  }

  lemma LifeAt(timestamp: int, ttl: uint32, js: seq<real>, k: nat)
    requires ttl > 0 && k < 5 && |js| >= 5 && forall i :: 0 <= i < |js| ==> Jitter(js[i])
    ensures Life(timestamp, ttl, STATES[k], PERCENTS[k], js[k..]) != []
    ensures var s := Life(timestamp, ttl, STATES[k], PERCENTS[k], js[k..])[0];
            s.state == STATES[k] && InBand(s, timestamp, ttl, PERCENTS[k])
  {
    assert js[k..][0] == js[k];
    Band(timestamp, ttl, PERCENTS[k], js[k]);
  }

  /** Passive observation of failure: queries for an entry, seen while no answer came. */
  datatype Watch = Watch(state: EntryState, since: int, num: nat)

  function Observed(w: Watch, now: int): Watch {
    match w.state
    case Valid => Watch(Poof, now, 0)
    case Poof =>
      if now - w.since < 1000000 then w
      else Watch(if w.num + 1 > 3 then PoofFinal else Poof, now, w.num + 1)
    case _ => w
  }

  /** Does the observation count? */
  predicate Counts(w: Watch, now: int) {
    w.state == Valid || (w.state == Poof && now - w.since >= 1000000)
  }

  predicate Final(w: Watch) {
    w.state == PoofFinal
  }

  function ObservedAll(w: Watch, times: seq<int>): Watch
    decreases |times|
  {
    if times == [] then w else ObservedAll(Observed(w, times[0]), times[1..])
  }

  /** Every further observation that counts is a second after the one before it. */
  lemma {:induction false} PoofSpan(w: Watch, times: seq<int>, start: int, seen: nat)
    requires w.state == Poof && w.since >= start + w.num * 1000000 && seen > w.num
    ensures var e := ObservedAll(w, times);
            && (e.state == Poof || e.state == PoofFinal)
            && e.since >= start + e.num * 1000000 && seen + |times| > e.num
            && (e.state == PoofFinal ==> e.num == 4) && (e.state == Poof && w.num <= 3 ==> e.num <= 3)
    requires w.num <= 3
    decreases |times|
  {
    if times != [] {
      var v := Observed(w, times[0]);
      if v.state == Poof {
        PoofSpan(v, times[1..], start, seen + 1);
      } else {
        FinalStays(v, times[1..]);
      }
    }
  }

  lemma {:induction false} FinalStays(w: Watch, times: seq<int>)
    requires w.state == PoofFinal
    ensures ObservedAll(w, times) == w
    decreases |times|
  {
    if times != [] {
      FinalStays(w, times[1..]);
    }
  }

  /** A valid entry is given up only after five queries, the last at least four seconds after the
      first. */
  lemma GivenUpLate(w: Watch, times: seq<int>)
    requires w.state == Valid && times != [] && ObservedAll(w, times).state == PoofFinal
    ensures |times| >= 5 && ObservedAll(w, times).since - times[0] >= 4000000
  {
    PoofSpan(Observed(w, times[0]), times[1..], times[0], 1);
  }
}
