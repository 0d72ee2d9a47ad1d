/**
 One-time codes for e-mail verification and password reset.  The store keeps one
 code per purpose and key, drops expired codes only when it grows past a size, and
 must behave as if it never dropped any.  Times are nanoseconds.
 */
module VerificationCodes {
  import opened Basics

  datatype Purpose = EmailVerification | PasswordReset

  function Prefix(purpose: Purpose): string {
    match purpose
    case EmailVerification => "v"
    case PasswordReset => "r"
  }

  /** Purpose and key share one map key. */
  function Slot(purpose: Purpose, key: string): string {
    Prefix(purpose) + key
  }

  /** The two purposes never collide, whatever the keys are. */
  lemma SlotsNeverCollide(p: Purpose, k: string, q: Purpose, l: string)
    ensures Slot(p, k) == Slot(q, l) <==> p == q && k == l
  {
    assert Slot(p, k)[0] == Prefix(p)[0] && Slot(q, l)[0] == Prefix(q)[0];
    assert Slot(p, k)[1..] == k && Slot(q, l)[1..] == l;
  }

  datatype Value = Value(code: string, time: int)

  const MAX_SIZE := 10
  const SECOND := 1_000_000_000

  /** `int(d.Seconds())`: whole seconds, truncated toward zero. */
  function WholeSeconds(d: int): int {
    if d >= 0 then d / SECOND else -((-d) / SECOND)
  }

  predicate Expired(time: int, now: int, validMinutes: int) {
    WholeSeconds(now - time) >= validMinutes * 60
  }

  type Codes = map<string, Value>

  function Unexpired(codes: Codes, now: int, validMinutes: int): Codes {
    map k | k in codes && !Expired(codes[k].time, now, validMinutes) :: codes[k]
  }

  /** Registration at `now`; when it overflows the size, eviction at `later`. */
  function Registered(codes: Codes, purpose: Purpose, key: string, code: string, now: int, later: int, validMinutes: int): Codes {
    var codes' := codes[Slot(purpose, key) := Value(code, now)];
    if |codes'| > MAX_SIZE then Unexpired(codes', later, validMinutes) else codes'
  }

  predicate Accepts(codes: Codes, purpose: Purpose, key: string, code: string, now: int, validMinutes: int) {
    var slot := Slot(purpose, key);
    slot in codes && !Expired(codes[slot].time, now, validMinutes) && code == codes[slot].code
  }

  class VerificationStore {
    var codes: Codes
    const validMinutes: int

    constructor (validMinutes: int)
      ensures codes == map[] && this.validMinutes == validMinutes
    {
      this.validMinutes := validMinutes;
      codes := map[];
    }

    method RegisterVerificationCodeWithKey(key: string, code: string, purpose: Purpose, now: int, later: int)
      modifies this
      ensures codes == Registered(old(codes), purpose, key, code, now, later, validMinutes)
    {
      codes := codes[Slot(purpose, key) := Value(code, now)];
      if |codes| > MAX_SIZE {
        RemoveExpiredPairs(later);
      }
    }

    method VerifyCodeWithKey(key: string, code: string, purpose: Purpose, now: int) returns (ok: bool)
      ensures ok == Accepts(codes, purpose, key, code, now, validMinutes)
    {
      var slot := Slot(purpose, key);
      if slot !in codes || WholeSeconds(now - codes[slot].time) >= validMinutes * 60 {
        return false;
      }
      return code == codes[slot].code;
    }

    method DeleteKey(key: string, purpose: Purpose)
      modifies this
      ensures codes == old(codes) - {Slot(purpose, key)}
    {
      codes := codes - {Slot(purpose, key)};
    }

    method RemoveExpiredPairs(now: int)
      modifies this
      ensures codes == Unexpired(old(codes), now, validMinutes)
    {
      var todo := codes.Keys;
      while todo != {}
        invariant todo <= codes.Keys <= old(codes).Keys
        invariant forall k | k in codes :: codes[k] == old(codes)[k]
        invariant forall k | k in old(codes) && k !in todo :: k in codes <==> !Expired(old(codes)[k].time, now, validMinutes)
        decreases |todo|
      {
        var key :| key in todo;
        todo := todo - {key};
        if WholeSeconds(now - codes[key].time) >= validMinutes * 60 {
          codes := codes - {key};
        }
      }
    }
  }

  // ------------------------------------------------------ runs and their history

  /** `later` is when the eviction inside a registration reads the clock;
      `Evict` is an eviction at any other moment. */
  datatype Event =
    | Register(purpose: Purpose, key: string, code: string, at: int, later: int)
    | Delete(purpose: Purpose, key: string, at: int)
    | Verify(purpose: Purpose, key: string, code: string, at: int)
    | Evict(at: int)

  function Finish(e: Event): int {
    if e.Register? then e.later else e.at
  }

  /** The clock never runs backwards. */
  predicate Ordered(clock: int, events: seq<Event>)
    decreases |events|
  {
    events == [] || (clock <= events[0].at <= Finish(events[0]) && Ordered(Finish(events[0]), events[1..]))
  }

  function Step(codes: Codes, e: Event, validMinutes: int): Codes {
    match e
    case Register(p, k, code, at, later) => Registered(codes, p, k, code, at, later, validMinutes)
    case Delete(p, k, _) => codes - {Slot(p, k)}
    case Verify(_, _, _, _) => codes
    case Evict(at) => Unexpired(codes, at, validMinutes)
  }

  /** The answers of the store to the `Verify` events of a run. */
  function Answers(codes: Codes, events: seq<Event>, validMinutes: int): seq<bool>
    decreases |events|
  {
    if events == [] then []
    else
      var e := events[0];
      (if e.Verify? then [Accepts(codes, e.purpose, e.key, e.code, e.at, validMinutes)] else [])
      + Answers(Step(codes, e, validMinutes), events[1..], validMinutes)
  }

  /** The code set by the latest registration or deletion for a purpose and key. */
  function Latest(history: seq<Event>, purpose: Purpose, key: string): Option<Value> {
    if history == [] then None
    else
      var e := history[|history| - 1];
      if e.Register? && e.purpose == purpose && e.key == key then Some(Value(e.code, e.at))
      else if e.Delete? && e.purpose == purpose && e.key == key then None
      else Latest(history[..|history| - 1], purpose, key)
  }

  /** What a user is promised: the latest code, within its validity period (in nanoseconds). */
  predicate Promised(history: seq<Event>, purpose: Purpose, key: string, code: string, now: int, validMinutes: int) {
    var latest := Latest(history, purpose, key);
    latest.Some? && latest.value.code == code && now - latest.value.time < validMinutes * 60_000_000_000
  }

  function PromisedAnswers(history: seq<Event>, events: seq<Event>, validMinutes: int): seq<bool>
    decreases |events|
  {
    if events == [] then []
    else
      var e := events[0];
      (if e.Verify? then [Promised(history, e.purpose, e.key, e.code, e.at, validMinutes)] else [])
      + PromisedAnswers(history + [e], events[1..], validMinutes)
  }

  // -------------------------------------------------- eviction is unobservable

  /** The map holds the latest value of a slot, unless that value has expired. */
  predicate Agrees(codes: Codes, history: seq<Event>, purpose: Purpose, key: string, clock: int, validMinutes: int) {
    var latest := Latest(history, purpose, key);
    && (latest.Some? ==> latest.value.time <= clock)
    && (Slot(purpose, key) in codes ==> latest == Some(codes[Slot(purpose, key)]))
    && (Slot(purpose, key) !in codes && latest.Some? ==> Expired(latest.value.time, clock, validMinutes))
  }

  ghost predicate AgreesAll(codes: Codes, history: seq<Event>, clock: int, validMinutes: int) {
    forall p, k :: Agrees(codes, history, p, k, clock, validMinutes)
  }

  /** Truncated seconds reach a whole number of minutes exactly when the nanoseconds do. */
  lemma ExpiredIff(time: int, now: int, validMinutes: int)
    requires time <= now
    ensures Expired(time, now, validMinutes) <==> now - time >= validMinutes * 60_000_000_000
  {
    var d := now - time;
    assert d == d / SECOND * SECOND + d % SECOND;
  }

  /** Time before and after an instant is cut to seconds alike. */
  lemma SecondsAreCut(d: int)
    ensures WholeSeconds(-d) == -WholeSeconds(d)
    ensures d >= 0 ==> WholeSeconds(d) * SECOND <= d < WholeSeconds(d) * SECOND + SECOND
  {
    assert d == d / SECOND * SECOND + d % SECOND;
  }

  /** Nothing is lost while the store is small.  Beyond ten codes a registration drops the
      codes that have expired and no other, so more than ten are left only if all are valid. */
  lemma RegisterKeeps(codes: Codes, p: Purpose, k: string, code: string, now: int, later: int, validMinutes: int)
    ensures var all, r := codes[Slot(p, k) := Value(code, now)], Registered(codes, p, k, code, now, later, validMinutes);
            && r.Keys <= all.Keys && (forall slot | slot in r :: r[slot] == all[slot])
            && (|all| <= 10 ==> r == all)
            && (forall slot | slot in all && slot !in r :: Expired(all[slot].time, later, validMinutes))
            && (|r| > 10 ==> forall slot | slot in r :: !Expired(r[slot].time, later, validMinutes))
  {
    var all := codes[Slot(p, k) := Value(code, now)];
    if |all| > 10 {
      assert Registered(codes, p, k, code, now, later, validMinutes) == Unexpired(all, later, validMinutes);
    }
  }

  lemma StaysExpired(time: int, now: int, later: int, validMinutes: int)
    requires time <= now <= later && Expired(time, now, validMinutes)
    ensures Expired(time, later, validMinutes)
  {
    ExpiredIff(time, now, validMinutes);
    ExpiredIff(time, later, validMinutes);
  }

  lemma EvictAgrees(codes: Codes, history: seq<Event>, p: Purpose, k: string, clock: int, now: int, validMinutes: int)
    requires Agrees(codes, history, p, k, clock, validMinutes) && clock <= now
    ensures Agrees(Unexpired(codes, now, validMinutes), history, p, k, now, validMinutes)
    ensures Agrees(codes, history, p, k, now, validMinutes)
  {
    var latest := Latest(history, p, k);
    if latest.Some? && Expired(latest.value.time, clock, validMinutes) {
      StaysExpired(latest.value.time, clock, now, validMinutes);
    }
  }

  lemma StepAgrees(codes: Codes, history: seq<Event>, e: Event, p: Purpose, k: string, clock: int, validMinutes: int)
    requires Agrees(codes, history, p, k, clock, validMinutes) && clock <= e.at <= Finish(e)
    ensures Agrees(Step(codes, e, validMinutes), history + [e], p, k, Finish(e), validMinutes)
  {
    assert (history + [e])[..|history|] == history;
    EvictAgrees(codes, history, p, k, clock, e.at, validMinutes);
    match e
    case Register(q, l, code, at, later) =>
      SlotsNeverCollide(p, k, q, l);
      var codes' := codes[Slot(q, l) := Value(code, at)];
      assert Agrees(codes', history + [e], p, k, at, validMinutes);
      EvictAgrees(codes', history + [e], p, k, at, later, validMinutes);
    case Delete(q, l, _) => SlotsNeverCollide(p, k, q, l);
    case Verify(_, _, _, _) =>
    case Evict(_) =>
  }

  lemma VerifyAgrees(codes: Codes, history: seq<Event>, e: Event, clock: int, validMinutes: int)
    requires e.Verify? && clock <= e.at && Agrees(codes, history, e.purpose, e.key, clock, validMinutes)
    ensures Accepts(codes, e.purpose, e.key, e.code, e.at, validMinutes)
            == Promised(history, e.purpose, e.key, e.code, e.at, validMinutes)
  {
    EvictAgrees(codes, history, e.purpose, e.key, clock, e.at, validMinutes);
    var latest := Latest(history, e.purpose, e.key);
    if latest.Some? {
      ExpiredIff(latest.value.time, e.at, validMinutes);
    }
  }

  lemma {:induction false} RunAgrees(codes: Codes, history: seq<Event>, events: seq<Event>, clock: int, validMinutes: int)
    requires AgreesAll(codes, history, clock, validMinutes) && Ordered(clock, events)
    ensures Answers(codes, events, validMinutes) == PromisedAnswers(history, events, validMinutes)
    decreases |events|
  {
    if events != [] {
      var e := events[0];
      if e.Verify? {
        assert Agrees(codes, history, e.purpose, e.key, clock, validMinutes);
        VerifyAgrees(codes, history, e, clock, validMinutes);
      }
      forall p, k ensures Agrees(Step(codes, e, validMinutes), history + [e], p, k, Finish(e), validMinutes) {
        StepAgrees(codes, history, e, p, k, clock, validMinutes);
      }
      RunAgrees(Step(codes, e, validMinutes), history + [e], events[1..], Finish(e), validMinutes);
    }
  }

  /** In every run, whenever evictions happen, a code is accepted exactly when the
      latest registration or deletion for that purpose and key registered it less
      than the validity period ago. */
  lemma EvictionIsUnobservable(events: seq<Event>, clock: int, validMinutes: int)
    requires Ordered(clock, events)
    ensures Answers(map[], events, validMinutes) == PromisedAnswers([], events, validMinutes)
  {
    RunAgrees(map[], [], events, clock, validMinutes);
  }
}
