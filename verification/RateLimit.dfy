/**
  The in-memory rate limiter: per key a bounded queue of the times of accepted
  requests, oldest first, and a background task that evicts idle keys.

  The reference limiter keeps the full log of accepted requests and accepts
  exactly when fewer than the allowed number are younger than `duration`.
*/
module RateLimit {

  type Key = string
  type Queues = map<Key, seq<int>>

  /** What the caller of `Request` passes for a key; a negative capacity panics in `make`. */
  datatype Limit = Limit(max: nat, duration: int)

  // ---- The limiter ---------------------------------------------------------

  /** The queues after one request at time `now`, and the answer. */
  function Admit(store: Queues, key: Key, limit: Limit, now: int): (Queues, bool)
    requires key in store ==> store[key] != []
  {
    if key !in store then (store[key := [now]], true)
    else if |store[key]| < limit.max then (store[key := store[key] + [now]], true)
    else if now - store[key][0] >= limit.duration then (store[key := store[key][1..] + [now]], true)
    else (store, false)
  }

  predicate Expired(queue: seq<int>, expiration: nat, now: int) {
    |queue| == 0 || now - queue[|queue| - 1] > expiration
  }

  /** The queues after one sweep of the background task. */
  function Sweep(store: Queues, expiration: nat, now: int): Queues {
    map key | key in store && !Expired(store[key], expiration, now) :: store[key]
  }

  class InMemoryRateLimiter {
    var store: Queues
    const expiration: nat

    ghost predicate Valid()
      reads this
    {
      forall key | key in store :: store[key] != []
    }

    constructor (expiration: nat)
      ensures Valid() && store == map[] && this.expiration == expiration
    {
      store := map[];
      this.expiration := expiration;
    }

    method Request(key: Key, maxRequestNum: nat, duration: int, now: int) returns (accepted: bool)
      requires Valid()
      modifies this`store
      ensures Valid()
      ensures (store, accepted) == Admit(old(store), key, Limit(maxRequestNum, duration), now)
    {
      if key in store {
        var queue := store[key];
        if |queue| < maxRequestNum {
          store := store[key := queue + [now]];
          return true;
        } else if now - queue[0] >= duration {
          queue := queue[1..];
          store := store[key := queue + [now]];
          return true;
        } else {
          return false;
        }
      } else {
        store := store[key := []];
        store := store[key := store[key] + [now]];
        assert store[key] == [now];
        assert store == old(store)[key := [now]];
      }
      return true;
    }

    /** One round of the eviction loop; the order in which keys are visited is arbitrary. */
    method ClearExpiredItems(now: int)
      requires Valid()
      modifies this`store
      ensures Valid()
      ensures store == Sweep(old(store), expiration, now)
      ensures forall key :: key in store <==>
                              && key in old(store) && |old(store)[key]| > 0
                              && now - old(store)[key][|old(store)[key]| - 1] <= expiration
      ensures forall key | key in store :: store[key] == old(store)[key]
    {
      var keys := store.Keys;
      while keys != {}
        invariant keys <= old(store).Keys
        invariant store == map key | key in old(store) && (key in keys || !Expired(old(store)[key], expiration, now)) :: old(store)[key]
        decreases keys
      {
        var key :| key in keys;
        var queue := store[key];
        var size := |queue|;
        if size == 0 || now - queue[size - 1] > expiration {
          store := store - {key};
        }
        keys := keys - {key};
      }
    }
  }

  // ---- Runs ----------------------------------------------------------------

  datatype Event = Arrive(key: Key, now: int) | Clear(now: int)

  /** Each key is always used with the same limit. */
  type Limits = Key -> Limit

  predicate QueuesNonEmpty(store: Queues) {
    forall key | key in store :: store[key] != []
  }

  lemma AdmitKeepsNonEmpty(store: Queues, key: Key, limit: Limit, now: int)
    requires QueuesNonEmpty(store)
    ensures QueuesNonEmpty(Admit(store, key, limit, now).0)
  {
  }

  /** The queues after one event. */
  function ServeEvent(store: Queues, limits: Limits, expiration: nat, event: Event): Queues
    requires QueuesNonEmpty(store)
    ensures QueuesNonEmpty(ServeEvent(store, limits, expiration, event))
  {
    match event
    case Arrive(key, now) => AdmitKeepsNonEmpty(store, key, limits(key), now); Admit(store, key, limits(key), now).0
    case Clear(now) => Sweep(store, expiration, now)
  }

  /** The limiter's queues and its answers, newest last, after a run of events. */
  function Serve(limits: Limits, expiration: nat, events: seq<Event>): (r: (Queues, seq<bool>))
    ensures QueuesNonEmpty(r.0)
  {
    if events == [] then (map[], [])
    else
      var (store, answers) := Serve(limits, expiration, events[..|events| - 1]);
      var event := events[|events| - 1];
      (ServeEvent(store, limits, expiration, event),
       if event.Arrive? then answers + [Admit(store, event.key, limits(event.key), event.now).1] else answers)
  }

  // ---- The reference -------------------------------------------------------

  /** How many of the logged times lie in the half-open interval `[from, to)`. */
  function CountIn(log: seq<int>, from: int, to: int): nat {
    if log == [] then 0
    else CountIn(log[..|log| - 1], from, to) + if from <= log[|log| - 1] < to then 1 else 0
  }

  /** How many of the logged times are less than `duration` old at `now`. */
  function Young(log: seq<int>, duration: int, now: int): nat {
    if log == [] then 0
    else Young(log[..|log| - 1], duration, now) + if now - log[|log| - 1] < duration then 1 else 0
  }

  /** The limit actually enforced: the first request of a key is always accepted, so zero acts as one. */
  function Allowance(limit: Limit): nat {
    if limit.max == 0 then 1 else limit.max
  }

  function LogOf(log: Queues, key: Key): seq<int> {
    if key in log then log[key] else []
  }

  /** The log after a request, given the answer. */
  function Logged(log: Queues, key: Key, accepted: bool, now: int): Queues {
    if accepted then log[key := LogOf(log, key) + [now]] else log
  }

  /** Whether the reference accepts a request. */
  predicate Accepts(log: Queues, key: Key, limit: Limit, now: int) {
    Young(LogOf(log, key), limit.duration, now) < Allowance(limit)
  }

  /** The logs after one event. */
  function LogEvent(log: Queues, limits: Limits, event: Event): Queues {
    match event
    case Arrive(key, now) =>
      Logged(log, key, Accepts(log, key, limits(key), now), now)
    case Clear(_) => log
  }

  /** The full log and the answers of the reference limiter; eviction does not exist there. */
  function Reference(limits: Limits, events: seq<Event>): (Queues, seq<bool>) {
    if events == [] then (map[], [])
    else
      var (log, answers) := Reference(limits, events[..|events| - 1]);
      var event := events[|events| - 1];
      (LogEvent(log, limits, event),
       if event.Arrive? then answers + [Accepts(log, event.key, limits(event.key), event.now)] else answers)
  }

  /** The clock does not run backwards. */
  predicate Timed(events: seq<Event>) {
    forall i, j | 0 <= i < j < |events| :: events[i].now <= events[j].now
  }

  // ---- Agreement -----------------------------------------------------------

  predicate Sorted(log: seq<int>) {
    forall i, j | 0 <= i < j < |log| :: log[i] <= log[j]
  }

  lemma {:induction false} YoungSplit(a: seq<int>, b: seq<int>, duration: int, now: int)
    ensures Young(a + b, duration, now) == Young(a, duration, now) + Young(b, duration, now)
  {
    if b == [] {
      assert a + b == a;
    } else {
      YoungSplit(a, b[..|b| - 1], duration, now);
      assert (a + b)[..|a + b| - 1] == a + b[..|b| - 1];
    }
  }

  lemma {:induction false} YoungAllOrNothing(log: seq<int>, duration: int, now: int)
    ensures Young(log, duration, now) <= |log|
    ensures (forall i | 0 <= i < |log| :: now - log[i] < duration) ==> Young(log, duration, now) == |log|
    ensures (forall i | 0 <= i < |log| :: now - log[i] >= duration) ==> Young(log, duration, now) == 0
  {
    if log != [] {
      YoungAllOrNothing(log[..|log| - 1], duration, now);
    }
  }

  /**
    What a key's queue remembers of its log: a suffix, and anything it forgot is
    either beyond a full queue or older than the expiration.
   */
  ghost predicate Remembers(queue: seq<int>, log: seq<int>, limit: Limit, expiration: nat, now: int) {
    && Sorted(log) && (forall i | 0 <= i < |log| :: log[i] <= now)
    && |queue| <= |log| && queue == log[|log| - |queue|..] && |queue| <= Allowance(limit)
    && (|queue| < Allowance(limit) ==> forall i | 0 <= i < |log| - |queue| :: now - log[i] > expiration)
  }

  /** What a request does to one key's queue. */
  function AdmitQueue(queue: seq<int>, limit: Limit, now: int): (seq<int>, bool) {
    if queue == [] || |queue| < limit.max then (queue + [now], true)
    else if now - queue[0] >= limit.duration then (queue[1..] + [now], true)
    else (queue, false)
  }

  lemma AdmitIsPerKey(store: Queues, key: Key, limit: Limit, now: int, other: Key)
    requires QueuesNonEmpty(store)
    ensures var (store', accepted) := Admit(store, key, limit, now);
            && (LogOf(store', key), accepted) == AdmitQueue(LogOf(store, key), limit, now)
            && (other != key ==> LogOf(store', other) == LogOf(store, other))
  {
    assert [] + [now] == [now];
  }

  /** If everything before the queue is old, only the queue can be young. */
  lemma ForgottenAreOld(q: seq<int>, l: seq<int>, duration: int, now: int)
    requires |q| <= |l| && q == l[|l| - |q|..]
    requires forall i | 0 <= i < |l| - |q| :: now - l[i] >= duration
    ensures Young(l, duration, now) <= |q|
  {
    var forgotten := l[..|l| - |q|];
    assert l == forgotten + q;
    YoungSplit(forgotten, q, duration, now);
    YoungAllOrNothing(q, duration, now);
    YoungAllOrNothing(forgotten, duration, now);
  }

  /** If the head of the queue is old, so is everything before it. */
  lemma OldHead(q: seq<int>, l: seq<int>, duration: int, now: int)
    requires Sorted(l) && 0 < |q| <= |l| && q == l[|l| - |q|..] && now - q[0] >= duration
    ensures Young(l, duration, now) < |q|
  {
    var k := |l| - |q|;
    assert q[0] == l[k] && q[1..] == l[k + 1..];
    assert forall i | 0 <= i < k :: l[i] <= l[k];
    ForgottenAreOld(q[1..], l, duration, now);
  }

  /** If the head of the queue is young, so is the whole queue. */
  lemma YoungHead(q: seq<int>, l: seq<int>, duration: int, now: int)
    requires Sorted(l) && 0 < |q| <= |l| && q == l[|l| - |q|..] && now - q[0] < duration
    ensures Young(l, duration, now) >= |q|
  {
    var k := |l| - |q|;
    assert l == l[..k] + q;
    YoungSplit(l[..k], q, duration, now);
    forall i | 0 <= i < |q| ensures now - q[i] < duration {
      assert q[i] == l[k + i] && q[0] == l[k];
    }
    YoungAllOrNothing(q, duration, now);
  }

  /** A queue that remembers its log answers as the log does. */
  lemma AnswerAgrees(q: seq<int>, l: seq<int>, limit: Limit, expiration: nat, last: int, now: int)
    requires last <= now && limit.duration <= expiration + 1
    requires Remembers(q, l, limit, expiration, last)
    ensures AdmitQueue(q, limit, now).1 == (Young(l, limit.duration, now) < Allowance(limit))
  {
    if |q| < Allowance(limit) {
      ForgottenAreOld(q, l, limit.duration, now);
    } else if now - q[0] >= limit.duration {
      OldHead(q, l, limit.duration, now);
    } else {
      YoungHead(q, l, limit.duration, now);
    }
  }

  lemma SuffixGrows(q: seq<int>, l: seq<int>, now: int)
    requires |q| <= |l| && q == l[|l| - |q|..]
    ensures q + [now] == (l + [now])[|l| - |q|..]
    ensures q != [] ==> q[1..] + [now] == (l + [now])[|l| - |q| + 1..]
  {
  }

  /** The log that one more time makes; nothing before it changes. */
  lemma LogGrows(l: seq<int>, l': seq<int>, now: int)
    requires Sorted(l) && (forall i | 0 <= i < |l| :: l[i] <= now) && l' == l + [now]
    ensures Sorted(l') && (forall i | 0 <= i < |l'| :: l'[i] <= now) && forall i | 0 <= i < |l| :: l'[i] == l[i]
  {
  }

  /** A queue that has room takes the time in. */
  lemma RoomRemembers(q: seq<int>, l: seq<int>, l': seq<int>, limit: Limit, expiration: nat, last: int, now: int)
    requires last <= now && Remembers(q, l, limit, expiration, last) && |q| < Allowance(limit) && l' == l + [now]
    ensures Remembers(q + [now], l', limit, expiration, now)
  {
    SuffixGrows(q, l, now);
    LogGrows(l, l', now);
  }

  /** A full queue drops its head for it. */
  lemma FullRemembers(q: seq<int>, l: seq<int>, l': seq<int>, limit: Limit, expiration: nat, last: int, now: int)
    requires last <= now && Remembers(q, l, limit, expiration, last) && |q| == Allowance(limit) > 0 && l' == l + [now]
    ensures Remembers(q[1..] + [now], l', limit, expiration, now)
  {
    SuffixGrows(q, l, now);
    LogGrows(l, l', now);
  }

  /** ... and goes on remembering it. */
  lemma RequestRemembers(q: seq<int>, l: seq<int>, limit: Limit, expiration: nat, last: int, now: int)
    requires last <= now
    requires Remembers(q, l, limit, expiration, last)
    ensures var (q', accepted) := AdmitQueue(q, limit, now);
            Remembers(q', if accepted then l + [now] else l, limit, expiration, now)
  {
    if |q| < Allowance(limit) {
      RoomRemembers(q, l, l + [now], limit, expiration, last, now);
    } else if now - q[0] >= limit.duration {
      FullRemembers(q, l, l + [now], limit, expiration, last, now);
    } else {
      RemembersLater(q, l, limit, expiration, last, now);
    }
  }

  lemma SweepRemembers(store: Queues, log: Queues, key: Key, limit: Limit, expiration: nat, last: int, now: int)
    requires QueuesNonEmpty(store) && last <= now
    requires Remembers(LogOf(store, key), LogOf(log, key), limit, expiration, last)
    ensures Remembers(LogOf(Sweep(store, expiration, now), key), LogOf(log, key), limit, expiration, now)
  {
    var q, l := LogOf(store, key), LogOf(log, key);
    if key in store && Expired(store[key], expiration, now) {
      assert forall i | 0 <= i < |l| :: l[i] <= l[|l| - 1] == q[|q| - 1];
    }
  }

  /** The count is the number of times from `from` on and before `to`. */
  lemma {:induction false} CountInExactly(log: seq<int>, from: int, to: int)
    ensures CountIn(log, from, to) == |set i | 0 <= i < |log| && from <= log[i] < to|
  {
    if log != [] {
      var n := |log| - 1;
      CountInExactly(log[..n], from, to);
      var before, all := set i | 0 <= i < n && from <= log[..n][i] < to, set i | 0 <= i < |log| && from <= log[i] < to;
      assert all == before + if from <= log[n] < to then {n} else {};
    }
  }

  function Clock(events: seq<Event>): int {
    if events == [] then 0 else events[|events| - 1].now
  }

  lemma RemembersLater(q: seq<int>, l: seq<int>, limit: Limit, expiration: nat, last: int, now: int)
    requires last <= now && Remembers(q, l, limit, expiration, last)
    ensures Remembers(q, l, limit, expiration, now)
  {
  }

  /** Throughout a run, a key's queue remembers the log the reference keeps for that key. */
  lemma {:induction false} KeyRemembered(limits: Limits, expiration: nat, events: seq<Event>, key: Key)
    requires Timed(events) && limits(key).duration <= expiration + 1
    ensures Remembers(LogOf(Serve(limits, expiration, events).0, key), LogOf(Reference(limits, events).0, key),
                      limits(key), expiration, Clock(events))
  {
    if events != [] {
      var before, event := events[..|events| - 1], events[|events| - 1];
      KeyRemembered(limits, expiration, before, key);
      var last := if before == [] then event.now else Clock(before);
      EventRemembered(Serve(limits, expiration, before).0, Reference(limits, before).0, limits, expiration, event, key, last);
    }
  }

  lemma OwnRequestRemembered(store: Queues, log: Queues, key: Key, limit: Limit, expiration: nat, last: int, now: int)
    requires QueuesNonEmpty(store) && last <= now && limit.duration <= expiration + 1
    requires Remembers(LogOf(store, key), LogOf(log, key), limit, expiration, last)
    ensures Admit(store, key, limit, now).1 == Accepts(log, key, limit, now)
    ensures Remembers(LogOf(Admit(store, key, limit, now).0, key),
                      LogOf(Logged(log, key, Accepts(log, key, limit, now), now), key), limit, expiration, now)
  {
    AdmitIsPerKey(store, key, limit, now, key);
    AnswerAgrees(LogOf(store, key), LogOf(log, key), limit, expiration, last, now);
    RequestRemembers(LogOf(store, key), LogOf(log, key), limit, expiration, last, now);
  }

  lemma EventRemembered(store: Queues, log: Queues, limits: Limits, expiration: nat, event: Event, key: Key, last: int)
    requires QueuesNonEmpty(store) && last <= event.now && limits(key).duration <= expiration + 1
    requires Remembers(LogOf(store, key), LogOf(log, key), limits(key), expiration, last)
    ensures Remembers(LogOf(ServeEvent(store, limits, expiration, event), key), LogOf(LogEvent(log, limits, event), key),
                      limits(key), expiration, event.now)
  {
    if event.Clear? {
      SweepRemembers(store, log, key, limits(key), expiration, last, event.now);
    } else if event.key == key {
      OwnRequestRemembered(store, log, key, limits(key), expiration, last, event.now);
    } else {
      AdmitIsPerKey(store, event.key, limits(event.key), event.now, key);
      RemembersLater(LogOf(store, key), LogOf(log, key), limits(key), expiration, last, event.now);
    }
  }

  lemma {:induction false} RunAgrees(limits: Limits, expiration: nat, events: seq<Event>)
    requires Timed(events)
    requires forall key :: limits(key).duration <= expiration + 1
    ensures Serve(limits, expiration, events).1 == Reference(limits, events).1
  {
    if events != [] {
      var before, event := events[..|events| - 1], events[|events| - 1];
      RunAgrees(limits, expiration, before);
      if event.Arrive? {
        NextAnswerAgrees(limits, expiration, before, event.key, event.now);
      }
    }
  }

  /** After any run, the next request is answered as the reference would answer it. */
  lemma NextAnswerAgrees(limits: Limits, expiration: nat, before: seq<Event>, key: Key, now: int)
    requires Timed(before) && (before == [] || Clock(before) <= now) && limits(key).duration <= expiration + 1
    ensures Admit(Serve(limits, expiration, before).0, key, limits(key), now).1
            == Accepts(Reference(limits, before).0, key, limits(key), now)
  {
    KeyRemembered(limits, expiration, before, key);
    OwnRequestRemembered(Serve(limits, expiration, before).0, Reference(limits, before).0, key, limits(key), expiration,
                         if before == [] then now else Clock(before), now);
  }

  // ---- The rate is respected -----------------------------------------------

  /** The times at which the limiter accepted a request for `key` in a run. */
  function AcceptedTimes(limits: Limits, expiration: nat, events: seq<Event>, key: Key): seq<int> {
    if events == [] then []
    else
      var before := AcceptedTimes(limits, expiration, events[..|events| - 1], key);
      var last := events[|events| - 1];
      if last.Arrive? && last.key == key && Admit(Serve(limits, expiration, events[..|events| - 1]).0, key, limits(key), last.now).1
      then before + [last.now] else before
  }

  lemma {:induction false} AcceptedTimesAreTheLog(limits: Limits, expiration: nat, events: seq<Event>, key: Key)
    requires Timed(events) && limits(key).duration <= expiration + 1
    ensures AcceptedTimes(limits, expiration, events, key) == LogOf(Reference(limits, events).0, key)
  {
    if events != [] {
      var before, event := events[..|events| - 1], events[|events| - 1];
      AcceptedTimesAreTheLog(limits, expiration, before, key);
      if event.Arrive? && event.key == key {
        NextAnswerAgrees(limits, expiration, before, key, event.now);
      }
    }
  }

  /** An interval no longer than `duration` that reaches `now` holds only young requests. */
  lemma {:induction false} WindowIsYoung(log: seq<int>, from: int, duration: int, now: int)
    requires from <= now < from + duration
    ensures CountIn(log, from, from + duration) <= Young(log, duration, now)
  {
    if log != [] {
      WindowIsYoung(log[..|log| - 1], from, duration, now);
    }
  }

  lemma {:induction false} LogRespectsRate(limits: Limits, events: seq<Event>, key: Key, from: int)
    ensures CountIn(LogOf(Reference(limits, events).0, key), from, from + limits(key).duration) <= Allowance(limits(key))
  {
    if events != [] {
      var before := events[..|events| - 1];
      LogRespectsRate(limits, before, key, from);
      var last, log := events[|events| - 1], LogOf(Reference(limits, before).0, key);
      if last.Arrive? && last.key == key {
        if from <= last.now < from + limits(key).duration {
          WindowIsYoung(log, from, limits(key).duration, last.now);
        }
        assert (log + [last.now])[..|log|] == log;
      }
    }
  }

  /** No half-open interval of length `duration`, wherever it starts, holds more accepted requests than allowed. */
  lemma EveryWindowIsBounded(limits: Limits, expiration: nat, events: seq<Event>, key: Key, from: int)
    requires Timed(events) && limits(key).duration <= expiration + 1
    ensures CountIn(AcceptedTimes(limits, expiration, events, key), from, from + limits(key).duration) <= Allowance(limits(key))
  {
    AcceptedTimesAreTheLog(limits, expiration, events, key);
    LogRespectsRate(limits, events, key, from);
  }

  // ---- Exactly when eviction is invisible ----------------------------------

  /** `n` requests for `key`, all at time zero. */
  function Burst(key: Key, n: nat): seq<Event> {
    seq(n, _ => Arrive(key, 0))
  }

  function Zeros(n: nat): seq<int> {
    seq(n, _ => 0)
  }

  function AllZero(key: Key, n: nat): Queues {
    if n == 0 then map[] else map[key := Zeros(n)]
  }

  /** Both limiters accept one more request of the burst. */
  lemma BurstStep(key: Key, limit: Limit, n: nat)
    requires n < Allowance(limit) && limit.duration > 0
    ensures Admit(AllZero(key, n), key, limit, 0) == (AllZero(key, n + 1), true)
    ensures Young(LogOf(AllZero(key, n), key), limit.duration, 0) < Allowance(limit)
    ensures Logged(AllZero(key, n), key, true, 0) == AllZero(key, n + 1)
  {
    assert Zeros(n) + [0] == Zeros(n + 1);
    assert n == 0 ==> Zeros(n + 1) == [0];
    assert AllZero(key, n)[key := Zeros(n + 1)] == AllZero(key, n + 1);
    assert LogOf(AllZero(key, n), key) == Zeros(n);
    YoungAllOrNothing(Zeros(n), limit.duration, 0);
  }

  lemma {:induction false} BurstIsAccepted(limits: Limits, expiration: nat, key: Key, n: nat)
    requires n <= Allowance(limits(key)) && limits(key).duration > 0
    ensures Serve(limits, expiration, Burst(key, n)).0 == AllZero(key, n) == Reference(limits, Burst(key, n)).0
    ensures Serve(limits, expiration, Burst(key, n)).1 == Reference(limits, Burst(key, n)).1
  {
    if n > 0 {
      BurstIsAccepted(limits, expiration, key, n - 1);
      assert Burst(key, n)[..n - 1] == Burst(key, n - 1);
      BurstStep(key, limits(key), n - 1);
    }
  }

  /** Filling the allowance, letting the key expire, and asking again. */
  function EvictionProbe(key: Key, n: nat, expiration: nat): seq<Event> {
    Burst(key, n) + [Clear(expiration + 1)] + [Arrive(key, expiration + 1)]
  }

  lemma ProbeStates(limits: Limits, expiration: nat, key: Key)
    requires limits(key).duration > expiration + 1
    ensures var swept := Burst(key, Allowance(limits(key))) + [Clear(expiration + 1)];
            && Serve(limits, expiration, swept).0 == map[]
            && Reference(limits, swept).0 == AllZero(key, Allowance(limits(key)))
            && Serve(limits, expiration, swept).1 == Reference(limits, swept).1
  {
    var n := Allowance(limits(key));
    var swept := Burst(key, n) + [Clear(expiration + 1)];
    assert swept[..|swept| - 1] == Burst(key, n);
    BurstIsAccepted(limits, expiration, key, n);
  }

  /** A duration above the expiration is visibly not enforced: the evicted key is accepted again too early. */
  lemma EvictionShows(limits: Limits, expiration: nat, key: Key)
    requires limits(key).duration > expiration + 1
    ensures var events := EvictionProbe(key, Allowance(limits(key)), expiration);
            Timed(events) && Serve(limits, expiration, events).1 != Reference(limits, events).1
  {
    var n, now := Allowance(limits(key)), expiration + 1;
    var swept := Burst(key, n) + [Clear(now)];
    var events := EvictionProbe(key, n, expiration);
    assert events[..|events| - 1] == swept;
    ProbeStates(limits, expiration, key);
    assert LogOf(AllZero(key, n), key) == Zeros(n);
    YoungAllOrNothing(Zeros(n), limits(key).duration, now);
    var answers := Serve(limits, expiration, swept).1;
    assert (answers + [true])[|answers|] != (answers + [false])[|answers|];
  }

  /**
    Over every run of requests and sweeps the limiter answers as the reference
    does, if and only if no key's duration exceeds the expiration by more than
    one second.
   */
  lemma AgreesExactlyWhenDurationsFit(limits: Limits, expiration: nat)
    ensures (forall events | Timed(events) :: Serve(limits, expiration, events).1 == Reference(limits, events).1)
            <==> forall key :: limits(key).duration <= expiration + 1
  {
    if forall key :: limits(key).duration <= expiration + 1 {
      forall events | Timed(events) {
        RunAgrees(limits, expiration, events);
      }
    } else {
      var key :| limits(key).duration > expiration + 1;
      EvictionShows(limits, expiration, key);
    }
  }
}
