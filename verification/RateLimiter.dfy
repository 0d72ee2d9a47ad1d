/**
 The in-memory sliding-window rate limiter: one bounded queue of admission times
 per key, and a cleaner that drops whole queues in the background.  It is compared
 with a limiter that keeps the complete admission history of every key for ever.
 Times are seconds; a caller passes the limit that belongs to its key.
 */
module RateLimiter {

  type Key = string
  type Store = map<Key, seq<int>>

  datatype Limit = Limit(max: nat, duration: int)

  /** Queues are never stored empty. */
  predicate Stocked(store: Store) {
    forall k | k in store :: store[k] != []
  }

  /** One request against the stored queues: the new queues and the answer. */
  function Admit(store: Store, key: Key, limit: Limit, now: int): (Store, bool)
    requires Stocked(store)
  {
    if key !in store then (store[key := [now]], true)
    else
      var queue := store[key];
      if |queue| < limit.max then (store[key := queue + [now]], true)
      else if now - queue[0] >= limit.duration then (store[key := queue[1..] + [now]], true)
      else (store, false)
  }

  predicate Expired(queue: seq<int>, expiration: nat, now: int) {
    queue == [] || now - queue[|queue| - 1] > expiration
  }

  /** One pass of the cleaner. */
  function Cleaned(store: Store, expiration: nat, now: int): Store {
    map k | k in store && !Expired(store[k], expiration, now) :: store[k]
  }

  class InMemoryRateLimiter {
    var store: Store
    const expiration: nat

    constructor (expiration: nat)
      ensures store == map[] && this.expiration == expiration
    {
      this.expiration := expiration;
      store := map[];
    }

    method Request(key: Key, limit: Limit, now: int) returns (admitted: bool)
      requires Stocked(store)
      modifies this
      ensures (store, admitted) == Admit(old(store), key, limit, now)
      ensures Stocked(store)
    {
      if key in store {
        var queue := store[key];
        if |queue| < limit.max {
          store := store[key := queue + [now]];
          return true;
        } else {
          if now - queue[0] >= limit.duration {
            store := store[key := queue[1..] + [now]];
            return true;
          } else {
            return false;
          }
        }
      } else {
        store := store[key := [now]];
      }
      return true;
    }

    /** The cleaner visits the keys in whatever order the map yields them. */
    method ClearExpiredItems(now: int)
      requires Stocked(store)
      modifies this
      ensures store == Cleaned(old(store), expiration, now)
      ensures Stocked(store)
    {
      var todo := store.Keys;
      while todo != {}
        invariant todo <= store.Keys <= old(store).Keys
        invariant forall k | k in store :: store[k] == old(store)[k]
        invariant forall k | k in old(store) && k !in todo :: k in store <==> !Expired(old(store)[k], expiration, now)
        decreases |todo|
      {
        var key :| key in todo;
        todo := todo - {key};
        var queue := store[key];
        if |queue| == 0 || now - queue[|queue| - 1] > expiration {
          store := store - {key};
        }
      }
    }
  }

  // ------------------------------------------------- the full-history limiter

  type Log = map<Key, seq<int>>

  function History(log: Log, key: Key): seq<int> {
    if key in log then log[key] else []
  }

  /** How many admissions in `times` are younger than `duration` at `now`. */
  function Young(times: seq<int>, duration: int, now: int): nat {
    if times == [] then 0
    else Young(times[..|times| - 1], duration, now) + if now - times[|times| - 1] < duration then 1 else 0
  }

  predicate MayAdmit(times: seq<int>, limit: Limit, now: int) {
    Young(times, limit.duration, now) < limit.max
  }

  datatype Event = Request(key: Key, at: int) | Clean(at: int)

  /** The clock never runs backwards. */
  predicate Ordered(clock: int, events: seq<Event>) {
    && (forall i | 0 <= i < |events| :: clock <= events[i].at)
    && (forall i, j | 0 <= i < j < |events| :: events[i].at <= events[j].at)
  }

  lemma OrderedTail(clock: int, events: seq<Event>)
    requires Ordered(clock, events) && events != []
    ensures clock <= events[0].at && Ordered(events[0].at, events[1..])
  {
  }

  type Limits = Key -> Limit

  /** The answers of the limiter, request by request. */
  function Answers(limits: Limits, expiration: nat, store: Store, events: seq<Event>): seq<bool>
    requires Stocked(store)
    decreases |events|
  {
    if events == [] then []
    else match events[0]
      case Request(key, now) =>
        var (store', admitted) := Admit(store, key, limits(key), now);
        [admitted] + Answers(limits, expiration, store', events[1..])
      case Clean(now) => Answers(limits, expiration, Cleaned(store, expiration, now), events[1..])
  }

  /** The complete history after one answer. */
  function Logged(log: Log, key: Key, now: int, admitted: bool): Log {
    if admitted then log[key := History(log, key) + [now]] else log
  }

  /** The answers of the limiter that forgets nothing. */
  function Ideal(limits: Limits, log: Log, events: seq<Event>): seq<bool>
    decreases |events|
  {
    if events == [] then []
    else match events[0]
      case Request(key, now) =>
        var ok := MayAdmit(History(log, key), limits(key), now);
        [ok] + Ideal(limits, Logged(log, key, now, ok), events[1..])
      case Clean(_) => Ideal(limits, log, events[1..])
  }

  // ------------------------------------------------- how the two are related

  predicate Sorted(times: seq<int>) {
    forall i, j | 0 <= i < j < |times| :: times[i] <= times[j]
  }

  /** Everything in `times` is past the cleaner's horizon. */
  predicate AllStale(times: seq<int>, expiration: nat, clock: int) {
    forall i | 0 <= i < |times| :: clock - times[i] > expiration
  }

  /** Admissions `max` places apart are at least `duration` apart. */
  predicate Spaced(times: seq<int>, limit: Limit) {
    forall i | 0 <= i && i + limit.max < |times| :: times[i + limit.max] - times[i] >= limit.duration
  }

  /** A stored queue is the end of the history; what it lacks is stale, unless the queue is full. */
  predicate EndsWith(times: seq<int>, queue: seq<int>, max: nat, expiration: nat, clock: int) {
    && 1 <= |queue| <= max && |queue| <= |times|
    && queue == times[|times| - |queue|..]
    && (|queue| < max ==> AllStale(times[..|times| - |queue|], expiration, clock))
  }

  predicate WellSpaced(times: seq<int>, limit: Limit, clock: int) {
    Sorted(times) && Spaced(times, limit) && forall i | 0 <= i < |times| :: times[i] <= clock
  }

  /** The queue of a key against its history; an absent queue means the whole history is stale. */
  predicate Tracks(store: Store, key: Key, times: seq<int>, limit: Limit, expiration: nat, clock: int) {
    && WellSpaced(times, limit, clock)
    && if key in store then EndsWith(times, store[key], limit.max, expiration, clock) else AllStale(times, expiration, clock)
  }

  lemma {:induction false} YoungBounds(times: seq<int>, duration: int, now: int, k: nat)
    requires Sorted(times) && k < |times|
    ensures now - times[k] >= duration ==> Young(times, duration, now) <= |times| - 1 - k
    ensures now - times[k] < duration ==> Young(times, duration, now) >= |times| - k
    decreases times
  {
    var front := times[..|times| - 1];
    if k < |front| {
      YoungBounds(front, duration, now, k);
      assert times[k] <= times[|times| - 1];
    } else if now - times[k] >= duration {
      AllOld(times, duration, now);
    }
  }

  lemma {:induction false} AllOld(times: seq<int>, duration: int, now: int)
    requires forall i | 0 <= i < |times| :: now - times[i] >= duration
    ensures Young(times, duration, now) == 0
    decreases times
  {
    if times != [] {
      AllOld(times[..|times| - 1], duration, now);
    }
  }

  lemma {:induction false} YoungAtMost(times: seq<int>, duration: int, now: int)
    ensures Young(times, duration, now) <= |times|
    decreases times
  {
    if times != [] {
      YoungAtMost(times[..|times| - 1], duration, now);
    }
  }

  /** The bounded, evicted queue answers as the complete history would. */
  lemma QueueDecides(store: Store, key: Key, times: seq<int>, limit: Limit, expiration: nat, clock: int, now: int)
    requires Stocked(store) && Tracks(store, key, times, limit, expiration, clock)
    requires clock <= now && limit.max >= 1 && limit.duration <= expiration + 1
    ensures Admit(store, key, limit, now).1 <==> MayAdmit(times, limit, now)
  {
    if key !in store {
      AllOld(times, limit.duration, now);
    } else {
      var cut := |times| - |store[key]|;
      assert times[cut] == store[key][0];
      if |store[key]| == limit.max {
        YoungBounds(times, limit.duration, now, cut);
      } else if cut == 0 {
        YoungAtMost(times, limit.duration, now);
      } else {
        assert times[..cut][cut - 1] == times[cut - 1];
        YoungBounds(times, limit.duration, now, cut - 1);
      }
    }
  }

  lemma AppendSpaced(times: seq<int>, limit: Limit, clock: int, now: int)
    requires WellSpaced(times, limit, clock) && clock <= now && limit.max >= 1
    requires |times| >= limit.max ==> now - times[|times| - limit.max] >= limit.duration
    ensures WellSpaced(times + [now], limit, now)
  {
  }

  lemma AppendEnds(times: seq<int>, queue: seq<int>, max: nat, expiration: nat, clock: int, now: int)
    requires EndsWith(times, queue, max, expiration, clock) && clock <= now
    ensures |queue| < max ==> EndsWith(times + [now], queue + [now], max, expiration, now)
    ensures |queue| == max ==> EndsWith(times + [now], queue[1..] + [now], max, expiration, now)
  {
    var times' := times + [now];
    if |queue| < max {
      assert queue + [now] == times'[|times'| - |queue| - 1..];
      assert times'[..|times'| - |queue| - 1] == times[..|times| - |queue|];
    } else {
      assert queue[1..] + [now] == times'[|times'| - |queue|..];
    }
  }

  lemma AdmitTracks(store: Store, key: Key, times: seq<int>, limit: Limit, expiration: nat, clock: int, now: int)
    requires Stocked(store) && Tracks(store, key, times, limit, expiration, clock)
    requires clock <= now && limit.max >= 1 && limit.duration <= expiration + 1
    ensures var (store', admitted) := Admit(store, key, limit, now);
            && Stocked(store')
            && Tracks(store', key, if admitted then times + [now] else times, limit, expiration, now)
  {
    if key !in store {
      AppendSpaced(times, limit, clock, now);
      assert [now] == (times + [now])[|times|..] && (times + [now])[..|times|] == times;
    } else {
      var cut := |times| - |store[key]|;
      assert times[cut] == store[key][0];
      if |times| >= limit.max && |store[key]| < limit.max {
        assert times[..cut][|times| - limit.max] == times[|times| - limit.max];
      }
      AppendEnds(times, store[key], limit.max, expiration, clock, now);
      if Admit(store, key, limit, now).1 {
        AppendSpaced(times, limit, clock, now);
      }
    }
  }

  lemma CleanTracks(store: Store, key: Key, times: seq<int>, limit: Limit, expiration: nat, clock: int, now: int)
    requires Stocked(store) && Tracks(store, key, times, limit, expiration, clock) && clock <= now
    ensures Stocked(Cleaned(store, expiration, now))
    ensures Tracks(Cleaned(store, expiration, now), key, times, limit, expiration, now)
  {
    if key in store && key !in Cleaned(store, expiration, now) {
      var queue := store[key];
      assert queue[|queue| - 1] == times[|times| - 1];
    }
  }

  // ------------------------------------------------------------- whole runs

  ghost predicate TracksAll(limits: Limits, expiration: nat, store: Store, log: Log, clock: int) {
    Stocked(store) && forall k :: Tracks(store, k, History(log, k), limits(k), expiration, clock)
  }

  /** A limit the limiter can honour: at least one request, and a window no longer
      than one second past the cleaner's horizon. */
  predicate Keepable(limit: Limit, expiration: nat) {
    limit.max >= 1 && limit.duration <= expiration + 1
  }

  ghost predicate Honourable(limits: Limits, expiration: nat) {
    forall k :: Keepable(limits(k), expiration)
  }

  /** A request keeps any one key's queue and history related, if that key's limit can be kept. */
  lemma RequestTracksOne(store: Store, log: Log, key: Key, limit: Limit, k: Key, limitK: Limit, expiration: nat, clock: int, now: int)
    requires Stocked(store) && Tracks(store, k, History(log, k), limitK, expiration, clock) && (k == key ==> limitK == limit)
    requires clock <= now && Keepable(limitK, expiration)
    ensures var (store', admitted) := Admit(store, key, limit, now);
            Stocked(store') && Tracks(store', k, History(Logged(log, key, now, admitted), k), limitK, expiration, now)
  {
    var (store', admitted) := Admit(store, key, limit, now);
    if k == key {
      AdmitTracks(store, key, History(log, key), limit, expiration, clock, now);
    } else {
      TracksLater(store, store', k, History(log, k), limitK, expiration, clock, now);
    }
  }

  lemma RequestTracksAll(limits: Limits, expiration: nat, store: Store, log: Log, clock: int, key: Key, now: int)
    requires Honourable(limits, expiration) && TracksAll(limits, expiration, store, log, clock) && clock <= now
    ensures var (store', admitted) := Admit(store, key, limits(key), now);
            && admitted == MayAdmit(History(log, key), limits(key), now)
            && TracksAll(limits, expiration, store', Logged(log, key, now, admitted), now)
  {
    QueueDecides(store, key, History(log, key), limits(key), expiration, clock, now);
    var (store', admitted) := Admit(store, key, limits(key), now);
    forall k ensures Stocked(store') && Tracks(store', k, History(Logged(log, key, now, admitted), k), limits(k), expiration, now) {
      RequestTracksOne(store, log, key, limits(key), k, limits(k), expiration, clock, now);
    }
  }

  lemma TracksLater(store: Store, store': Store, k: Key, times: seq<int>, limit: Limit, expiration: nat, clock: int, now: int)
    requires Tracks(store, k, times, limit, expiration, clock) && clock <= now
    requires if k in store then k in store' && store'[k] == store[k] else k !in store'
    ensures Tracks(store', k, times, limit, expiration, now)
  {
  }

  lemma CleanTracksAll(limits: Limits, expiration: nat, store: Store, log: Log, clock: int, now: int)
    requires TracksAll(limits, expiration, store, log, clock) && clock <= now
    ensures TracksAll(limits, expiration, Cleaned(store, expiration, now), log, now)
  {
    forall k ensures Tracks(Cleaned(store, expiration, now), k, History(log, k), limits(k), expiration, now) {
      CleanTracks(store, k, History(log, k), limits(k), expiration, clock, now);
    }
  }

  lemma {:induction false} RunAgrees(limits: Limits, expiration: nat, store: Store, log: Log, clock: int, events: seq<Event>)
    requires Honourable(limits, expiration) && TracksAll(limits, expiration, store, log, clock) && Ordered(clock, events)
    ensures Answers(limits, expiration, store, events) == Ideal(limits, log, events)
    decreases |events|
  {
    if events != [] {
      var now := events[0].at;
      match events[0]
      case Request(key, _) =>
        RequestTracksAll(limits, expiration, store, log, clock, key, now);
        var (store', admitted) := Admit(store, key, limits(key), now);
        RunAgrees(limits, expiration, store', Logged(log, key, now, admitted), now, events[1..]);
      case Clean(_) =>
        CleanTracksAll(limits, expiration, store, log, clock, now);
        RunAgrees(limits, expiration, Cleaned(store, expiration, now), log, now, events[1..]);
    }
  }

  /** On every run from an empty store, under any interleaving with the cleaner,
      the limiter answers as if nothing were ever evicted. */
  ghost predicate RefinesHistory(limits: Limits, expiration: nat) {
    forall events, clock | Ordered(clock, events) ::
      Answers(limits, expiration, map[], events) == Ideal(limits, map[], events)
  }

  /** `n` requests for a key at time zero, then `rest`. */
  function Burst(key: Key, n: nat, rest: seq<Event>): seq<Event> {
    if n == 0 then rest else [Request(key, 0)] + Burst(key, n - 1, rest)
  }

  /** `n` positive answers, then `rest`. */
  function Granted(n: nat, rest: seq<bool>): seq<bool> {
    if n == 0 then rest else [true] + Granted(n - 1, rest)
  }

  function Zeros(n: nat): seq<int> {
    seq(n, _ => 0)
  }

  /** The queue, or the history, of a key after `n` admissions at time zero. */
  function After(key: Key, n: nat): (store: map<Key, seq<int>>)
    ensures Stocked(store)
  {
    if n == 0 then map[] else assert Zeros(n)[0] == 0; map[key := Zeros(n)]
  }

  lemma {:induction false} YoungZeros(n: nat, duration: int, now: int)
    requires now < duration
    ensures Young(Zeros(n), duration, now) == n
    decreases n
  {
    if n > 0 {
      assert Zeros(n)[..n - 1] == Zeros(n - 1);
      YoungZeros(n - 1, duration, now);
    }
  }

  lemma AfterOneMore(key: Key, k: nat)
    ensures History(After(key, k), key) == Zeros(k)
    ensures After(key, k)[key := Zeros(k) + [0]] == After(key, k + 1)
    ensures k == 0 ==> Zeros(k) + [0] == [0]
  {
    assert Zeros(k) + [0] == Zeros(k + 1);
    if k == 0 {
      assert Zeros(k) == [];
    }
  }

  lemma AnswersOfRequest(limits: Limits, expiration: nat, store: Store, key: Key, now: int, rest: seq<Event>)
    requires Stocked(store)
    ensures var (store', admitted) := Admit(store, key, limits(key), now);
            Answers(limits, expiration, store, [Request(key, now)] + rest) == [admitted] + Answers(limits, expiration, store', rest)
  {
    assert ([Request(key, now)] + rest)[1..] == rest;
  }

  lemma IdealOfRequest(limits: Limits, log: Log, key: Key, now: int, rest: seq<Event>)
    ensures var ok := MayAdmit(History(log, key), limits(key), now);
            Ideal(limits, log, [Request(key, now)] + rest)
            == [ok] + Ideal(limits, if ok then log[key := History(log, key) + [now]] else log, rest)
  {
    assert ([Request(key, now)] + rest)[1..] == rest;
  }

  lemma AdmitOneMore(key: Key, k: nat, limit: Limit)
    requires k < limit.max
    ensures Admit(After(key, k), key, limit, 0) == (After(key, k + 1), true)
  {
    AfterOneMore(key, k);
  }

  lemma FirstIsGranted(limits: Limits, expiration: nat, key: Key, k: nat, events: seq<Event>)
    requires k < limits(key).max
    ensures Answers(limits, expiration, After(key, k), [Request(key, 0)] + events)
            == [true] + Answers(limits, expiration, After(key, k + 1), events)
  {
    AdmitOneMore(key, k, limits(key));
    AnswersOfRequest(limits, expiration, After(key, k), key, 0, events);
  }

  lemma BurstStarts(limits: Limits, expiration: nat, key: Key, k: nat, n: nat, rest: seq<Event>, answers: seq<bool>)
    requires k < limits(key).max && n > 0
    requires Answers(limits, expiration, After(key, k + 1), Burst(key, n - 1, rest)) == Granted(n - 1, answers)
    ensures Answers(limits, expiration, After(key, k), Burst(key, n, rest)) == Granted(n, answers)
  {
    FirstIsGranted(limits, expiration, key, k, Burst(key, n - 1, rest));
  }

  lemma {:induction false} BurstIsGranted(limits: Limits, expiration: nat, key: Key, k: nat, n: nat, rest: seq<Event>)
    requires k + n <= limits(key).max
    ensures Answers(limits, expiration, After(key, k), Burst(key, n, rest))
            == Granted(n, Answers(limits, expiration, After(key, k + n), rest))
    decreases n
  {
    if n > 0 {
      BurstIsGranted(limits, expiration, key, k + 1, n - 1, rest);
      assert (k + 1) + (n - 1) == k + n;
      BurstStarts(limits, expiration, key, k, n, rest, Answers(limits, expiration, After(key, k + n), rest));
    }
  }

  lemma IdealStarts(limits: Limits, key: Key, k: nat, n: nat, rest: seq<Event>, answers: seq<bool>)
    requires k < limits(key).max && limits(key).duration > 0 && n > 0
    requires Ideal(limits, After(key, k + 1), Burst(key, n - 1, rest)) == Granted(n - 1, answers)
    ensures Ideal(limits, After(key, k), Burst(key, n, rest)) == Granted(n, answers)
  {
    AfterOneMore(key, k);
    YoungZeros(k, limits(key).duration, 0);
    IdealOfRequest(limits, After(key, k), key, 0, Burst(key, n - 1, rest));
  }

  lemma {:induction false} BurstIsIdeal(limits: Limits, key: Key, k: nat, n: nat, rest: seq<Event>)
    requires k + n <= limits(key).max && limits(key).duration > 0
    ensures Ideal(limits, After(key, k), Burst(key, n, rest)) == Granted(n, Ideal(limits, After(key, k + n), rest))
    decreases n
  {
    if n > 0 {
      BurstIsIdeal(limits, key, k + 1, n - 1, rest);
      assert (k + 1) + (n - 1) == k + n;
      IdealStarts(limits, key, k, n, rest, Ideal(limits, After(key, k + n), rest));
    }
  }

  lemma {:induction false} BurstTimes(key: Key, n: nat, rest: seq<Event>)
    requires Ordered(0, rest)
    ensures Ordered(0, Burst(key, n, rest))
    decreases n
  {
    if n > 0 {
      BurstTimes(key, n - 1, rest);
    }
  }

  lemma {:induction false} GrantedDiffer(n: nat, a: seq<bool>, b: seq<bool>)
    requires a != b
    ensures Granted(n, a) != Granted(n, b)
    decreases n
  {
    if n > 0 {
      GrantedDiffer(n - 1, a, b);
      assert Granted(n, a)[1..] == Granted(n - 1, a);
      assert Granted(n, b)[1..] == Granted(n - 1, b);
    }
  }

  /** A window the cleaner does not respect: fill the queue, let the cleaner drop
      it, and ask again while every admission still counts. */
  lemma LongWindowLeaks(limits: Limits, expiration: nat, key: Key)
    requires limits(key).max >= 1 && limits(key).duration > expiration + 1
    ensures !RefinesHistory(limits, expiration)
  {
    var max, late := limits(key).max, expiration + 1;
    var rest := [Clean(late), Request(key, late)];
    var events := Burst(key, max, rest);
    BurstTimes(key, max, rest);
    BurstIsGranted(limits, expiration, key, 0, max, rest);
    BurstIsIdeal(limits, key, 0, max, rest);
    var store := After(key, max);
    YoungZeros(max, limits(key).duration, late);
    assert Cleaned(store, expiration, late) == map[];
    assert rest[1..] == [Request(key, late)] && rest[1..][1..] == [];
    assert Answers(limits, expiration, map[], [Request(key, late)])[0];
    assert !Ideal(limits, store, [Request(key, late)])[0];
    GrantedDiffer(max, Answers(limits, expiration, store, rest), Ideal(limits, store, rest));
    assert Ordered(0, events);
  }

  /** A limit of zero still lets the first request of a key through. */
  lemma ZeroLimitLeaks(limits: Limits, expiration: nat, key: Key)
    requires limits(key).max == 0
    ensures !RefinesHistory(limits, expiration)
  {
    var events := [Request(key, 0)];
    assert Ordered(0, events);
    assert Answers(limits, expiration, map[], events)[0];
    assert !Ideal(limits, map[], events)[0];
  }

  /** The limiter agrees with the complete history on every run exactly when each
      limit allows at least one request and its window ends no later than one
      second after the cleaner's horizon. */
  lemma RefinesHistoryIff(limits: Limits, expiration: nat)
    ensures RefinesHistory(limits, expiration) <==> Honourable(limits, expiration)
  {
    if Honourable(limits, expiration) {
      forall events, clock | Ordered(clock, events)
        ensures Answers(limits, expiration, map[], events) == Ideal(limits, map[], events)
      {
        RunAgrees(limits, expiration, map[], map[], clock, events);
      }
    } else {
      var key :| limits(key).max < 1 || limits(key).duration > expiration + 1;
      if limits(key).max == 0 {
        ZeroLimitLeaks(limits, expiration, key);
      } else {
        LongWindowLeaks(limits, expiration, key);
      }
    }
  }

  // ------------------------------------------------------- the window bound

  /** The times at which a run admitted `key`. */
  function Admissions(limits: Limits, expiration: nat, store: Store, key: Key, events: seq<Event>): seq<int>
    requires Stocked(store)
    decreases |events|
  {
    if events == [] then []
    else match events[0]
      case Request(k, now) =>
        var (store', admitted) := Admit(store, k, limits(k), now);
        (if admitted && k == key then [now] else []) + Admissions(limits, expiration, store', key, events[1..])
      case Clean(now) => Admissions(limits, expiration, Cleaned(store, expiration, now), key, events[1..])
  }

  /** Queues, complete history and clock along a run. */
  datatype World = World(store: Store, log: Log, clock: int)

  function Step(limits: Limits, expiration: nat, w: World, e: Event): World
    requires Stocked(w.store)
  {
    match e
    case Request(key, now) =>
      var (store', admitted) := Admit(w.store, key, limits(key), now);
      World(store', Logged(w.log, key, now, admitted), now)
    case Clean(now) => World(Cleaned(w.store, expiration, now), w.log, now)
  }

  /** The queue of `key` tracks its history. */
  predicate Sound(limits: Limits, expiration: nat, w: World, key: Key) {
    Stocked(w.store) && Tracks(w.store, key, History(w.log, key), limits(key), expiration, w.clock)
  }

  lemma StepIsSound(limits: Limits, expiration: nat, w: World, key: Key, e: Event)
    requires Keepable(limits(key), expiration) && Sound(limits, expiration, w, key) && w.clock <= e.at
    ensures Sound(limits, expiration, Step(limits, expiration, w, e), key) && Step(limits, expiration, w, e).clock == e.at
  {
    match e
    case Request(k, now) => RequestTracksOne(w.store, w.log, k, limits(k), key, limits(key), expiration, w.clock, now);
    case Clean(now) => CleanTracks(w.store, key, History(w.log, key), limits(key), expiration, w.clock, now);
  }

  /** One step appends to a key's history exactly what it admits. */
  lemma StepHistory(limits: Limits, expiration: nat, w: World, e: Event, rest: seq<Event>, key: Key)
    requires Stocked(w.store)
    ensures var w' := Step(limits, expiration, w, e);
            && Stocked(w'.store)
            && History(w.log, key) + Admissions(limits, expiration, w.store, key, [e] + rest)
               == History(w'.log, key) + Admissions(limits, expiration, w'.store, key, rest)
  {
    assert ([e] + rest)[1..] == rest;
    var w' := Step(limits, expiration, w, e);
    var times, later := History(w.log, key), Admissions(limits, expiration, w'.store, key, rest);
    assert times + ([e.at] + later) == (times + [e.at]) + later && [] + later == later;
  }

  /** The world at the end of a run. */
  function Final(limits: Limits, expiration: nat, w: World, events: seq<Event>): (w': World)
    requires Stocked(w.store)
    ensures Stocked(w'.store)
    decreases |events|
  {
    if events == [] then w
    else
      StepHistory(limits, expiration, w, events[0], events[1..], "");
      Final(limits, expiration, Step(limits, expiration, w, events[0]), events[1..])
  }

  lemma {:induction false} RunIsSound(limits: Limits, expiration: nat, w: World, key: Key, events: seq<Event>)
    requires Keepable(limits(key), expiration) && Sound(limits, expiration, w, key) && Ordered(w.clock, events)
    ensures Sound(limits, expiration, Final(limits, expiration, w, events), key)
    decreases |events|
  {
    if events != [] {
      OrderedTail(w.clock, events);
      StepIsSound(limits, expiration, w, key, events[0]);
      RunIsSound(limits, expiration, Step(limits, expiration, w, events[0]), key, events[1..]);
    }
  }

  lemma {:induction false} RunHistory(limits: Limits, expiration: nat, w: World, key: Key, events: seq<Event>)
    requires Stocked(w.store)
    ensures History(w.log, key) + Admissions(limits, expiration, w.store, key, events)
            == History(Final(limits, expiration, w, events).log, key)
    decreases |events|
  {
    if events == [] {
      assert History(w.log, key) + [] == History(w.log, key);
    } else {
      assert events == [events[0]] + events[1..];
      StepHistory(limits, expiration, w, events[0], events[1..], key);
      RunHistory(limits, expiration, Step(limits, expiration, w, events[0]), key, events[1..]);
    }
  }

  /** Whatever the limits of the other keys are, the admissions of a key whose limit can be
      kept are sorted, and `max` places apart they are `duration` apart. */
  lemma RunIsSpaced(limits: Limits, expiration: nat, w: World, key: Key, events: seq<Event>)
    requires Keepable(limits(key), expiration) && Sound(limits, expiration, w, key) && Ordered(w.clock, events)
    ensures var times := History(w.log, key) + Admissions(limits, expiration, w.store, key, events);
            Sorted(times) && Spaced(times, limits(key))
  {
    RunHistory(limits, expiration, w, key, events);
    RunIsSound(limits, expiration, w, key, events);
  }

  function InWindow(times: seq<int>, start: int, duration: int): set<nat> {
    set i: nat | i < |times| && start <= times[i] < start + duration
  }

  lemma {:induction false} IntervalSize(s: set<nat>, lo: nat, n: nat)
    requires forall i | i in s :: lo <= i < lo + n
    ensures |s| <= n
    decreases n
  {
    if n == 0 {
      assert s == {};
    } else {
      IntervalSize(s - {lo + n - 1}, lo, n - 1);
    }
  }

  lemma WindowOfSpaced(times: seq<int>, limit: Limit, start: int)
    requires Sorted(times) && Spaced(times, limit) && limit.max >= 1
    ensures |InWindow(times, start, limit.duration)| <= limit.max
  {
    var s := InWindow(times, start, limit.duration);
    if s != {} {
      var lo := FirstOf(s);
      assert lo + limit.max < |times| ==> times[lo + limit.max] - times[lo] >= limit.duration;
      assert forall i | i in s :: lo <= i < lo + limit.max;
      IntervalSize(s, lo, limit.max);
    }
  }

  lemma {:induction false} FirstOf(s: set<nat>) returns (lo: nat)
    requires s != {}
    ensures lo in s && forall i | i in s :: lo <= i
    decreases s
  {
    var some :| some in s;
    lo := some;
    if s - {some} != {} {
      var other := FirstOf(s - {some});
      if other < some {
        lo := other;
      }
    }
    assert forall i | i in s :: i in s - {some} || i == some;
  }

  /** Over every run, evictions included, any window of `duration` seconds contains
      at most `max` admitted requests of a key. */
  ghost predicate WindowBound(limits: Limits, expiration: nat, key: Key) {
    forall events, clock, start | Ordered(clock, events) ::
      |InWindow(Admissions(limits, expiration, map[], key, events), start, limits(key).duration)| <= limits(key).max
  }

  lemma SlidingWindowBound(limits: Limits, expiration: nat, clock: int, events: seq<Event>, key: Key, start: int)
    requires Keepable(limits(key), expiration) && Ordered(clock, events)
    ensures |InWindow(Admissions(limits, expiration, map[], key, events), start, limits(key).duration)| <= limits(key).max
  {
    var times := Admissions(limits, expiration, map[], key, events);
    RunIsSpaced(limits, expiration, World(map[], map[], clock), key, events);
    assert [] + times == times;
    WindowOfSpaced(times, limits(key), start);
  }

  /** The bound holds for a key exactly when its window is empty, or its limit allows at least
      one request and its window ends no later than one second after the cleaner's horizon. */
  lemma SlidingWindowBoundIff(limits: Limits, expiration: nat, key: Key)
    ensures WindowBound(limits, expiration, key) <==> limits(key).duration <= 0 || Keepable(limits(key), expiration)
  {
    if Keepable(limits(key), expiration) {
      forall events, clock, start | Ordered(clock, events)
        ensures |InWindow(Admissions(limits, expiration, map[], key, events), start, limits(key).duration)| <= limits(key).max
      {
        SlidingWindowBound(limits, expiration, clock, events, key, start);
      }
    } else if limits(key).duration > 0 {
      if limits(key).max == 0 {
        FirstExceeds(limits, expiration, key);
      } else {
        EvictionExceeds(limits, expiration, key);
      }
    }
  }

  lemma {:induction false} FullWindow(times: seq<int>, duration: int)
    requires forall i | 0 <= i < |times| :: 0 <= times[i] < duration
    ensures |InWindow(times, 0, duration)| == |times|
    decreases times
  {
    if times != [] {
      var front := times[..|times| - 1];
      FullWindow(front, duration);
      assert InWindow(times, 0, duration) == InWindow(front, 0, duration) + {|times| - 1};
    }
  }

  /** A limit of zero admits the first request. */
  lemma FirstExceeds(limits: Limits, expiration: nat, key: Key)
    requires limits(key).max == 0 && limits(key).duration > 0
    ensures !WindowBound(limits, expiration, key)
  {
    var events := [Request(key, 0)];
    assert Ordered(0, events) && events[1..] == [];
    assert Admissions(limits, expiration, map[], key, events) == [0];
    FullWindow([0], limits(key).duration);
  }

  /** `n` admissions at time zero, then `later`. */
  function Admitted(n: nat, later: seq<int>): seq<int> {
    if n == 0 then later else [0] + Admitted(n - 1, later)
  }

  lemma {:induction false} AdmittedFacts(n: nat, later: seq<int>, bound: int)
    requires bound > 0 && forall i | 0 <= i < |later| :: 0 <= later[i] < bound
    ensures |Admitted(n, later)| == n + |later|
    ensures forall i | 0 <= i < |Admitted(n, later)| :: 0 <= Admitted(n, later)[i] < bound
    decreases n
  {
    if n > 0 {
      AdmittedFacts(n - 1, later, bound);
    }
  }

  lemma {:induction false} BurstAdmits(limits: Limits, expiration: nat, key: Key, k: nat, n: nat, rest: seq<Event>, later: seq<int>)
    requires k + n <= limits(key).max && Admissions(limits, expiration, After(key, k + n), key, rest) == later
    ensures Admissions(limits, expiration, After(key, k), key, Burst(key, n, rest)) == Admitted(n, later)
    decreases n
  {
    if n > 0 {
      assert (k + 1) + (n - 1) == k + n;
      BurstAdmits(limits, expiration, key, k + 1, n - 1, rest, later);
      FirstAdmits(limits, expiration, key, k, Burst(key, n - 1, rest));
    }
  }

  lemma FirstAdmits(limits: Limits, expiration: nat, key: Key, k: nat, events: seq<Event>)
    requires k < limits(key).max
    ensures Admissions(limits, expiration, After(key, k), key, [Request(key, 0)] + events)
            == [0] + Admissions(limits, expiration, After(key, k + 1), key, events)
  {
    AdmitOneMore(key, k, limits(key));
    assert ([Request(key, 0)] + events)[1..] == events;
  }

  /** A full queue is evicted while its entries are still in the window. */
  lemma EvictionExceeds(limits: Limits, expiration: nat, key: Key)
    requires limits(key).max >= 1 && limits(key).duration > expiration + 1
    ensures !WindowBound(limits, expiration, key)
  {
    var max, late := limits(key).max, expiration + 1;
    var last := [Request(key, late)];
    var rest := [Clean(late)] + last;
    BurstTimes(key, max, rest);
    assert Cleaned(After(key, max), expiration, late) == map[];
    assert rest[1..] == last && last[1..] == [];
    assert Admissions(limits, expiration, map[], key, last) == [late];
    BurstAdmits(limits, expiration, key, 0, max, rest, [late]);
    AdmittedFacts(max, [late], limits(key).duration);
    FullWindow(Admitted(max, [late]), limits(key).duration);
  }
}
