/**
 The usage counters under concurrency.  A storage goes to disk after a check of the
 byte counter; its file is written, then two atomic counters are raised one after the
 other, and closing lowers them in the same way.  Any number of storages are created
 and closed at once.  Each step here is one atomic action.
 */
module UsageAccounting {
  import opened Basics
  import DiskCache

  type Id = nat

  /** A body in a file, a cached file of the file service, or a body in memory.  The
      first two share the disk counters. */
  datatype Kind = BodyFile | CachedFile | Buffer

  predicate OnDisk(kind: Kind) {
    !kind.Buffer?
  }

  /** Where a storage is in its life.  `Admitted` has passed the check and is not counted
      yet.  The clamp phases are the two places where `DecrementDiskFiles` would reset a
      counter that went negative.  `Left` is a cached file that could not be removed. */
  datatype Phase = Admitted | Counting | Open | Closing | ClampFiles | Uncounting | ClampBytes | Closed | Left

  datatype Item = Item(kind: Kind, size: nat, phase: Phase)

  datatype Counter = Counter(files: int, bytes: int)

  /** `threshold` and `limit` are the configured sizes. */
  datatype State = State(threshold: int, limit: int, items: map<Id, Item>, disk: Counter, memory: Counter, clamps: nat)

  /** `Create` is the check, on a declared length; memory takes what fails it.  `Fail` gives up before counting.
      `Close` may be repeated: only the first one counts, and a cached file stays counted
      when it could not be `removed`.  `Advance` runs a storage's next atomic action. */
  datatype Event =
    | Create(id: Id, kind: Kind, declared: nat, size: nat)
    | Fail(id: Id)
    | Close(id: Id, removed: bool)
    | Advance(id: Id)

  function CounterOf(s: State, onDisk: bool): Counter {
    if onDisk then s.disk else s.memory
  }

  function Init(threshold: int, limit: int): State {
    State(threshold, limit, map[], Counter(0, 0), Counter(0, 0), 0)
  }

  predicate Enabled(s: State, e: Event) {
    match e
    case Create(id, kind, declared, _) =>
      id !in s.items && declared <= MAX_INT64
      && (OnDisk(kind) ==> s.threshold <= declared && Wrap(s.disk.bytes + declared) <= s.limit)
    case Fail(id) => id in s.items && s.items[id].phase.Admitted?
    case Close(id, _) => id in s.items && !s.items[id].phase.Admitted? && !s.items[id].phase.Counting?
    case Advance(id) =>
      id in s.items && !s.items[id].phase.Open? && !s.items[id].phase.Closed? && !s.items[id].phase.Left?
  }

  function Move(s: State, id: Id, phase: Phase): State
    requires id in s.items
  {
    s.(items := s.items[id := s.items[id].(phase := phase)])
  }

  function SetCounter(s: State, onDisk: bool, c: Counter): State {
    if onDisk then s.(disk := c) else s.(memory := c)
  }

  function Next(s: State, e: Event): State
    requires Enabled(s, e)
  {
    match e
    case Create(id, kind, _, size) => s.(items := s.items[id := Item(kind, size, Admitted)])
    case Fail(id) => Move(s, id, Closed)
    case Close(id, removed) =>
      if !s.items[id].phase.Open? then s
      else Move(s, id, if s.items[id].kind.CachedFile? && !removed then Left else Closing)
    case Advance(id) => Advanced(s, id)
  }

  function Advanced(s: State, id: Id): State
    requires Enabled(s, Advance(id))
  {
    var Item(kind, size, phase) := s.items[id];
    var d := OnDisk(kind);
    var c := CounterOf(s, d);
    match phase
    case Admitted => SetCounter(Move(s, id, Counting), d, c.(files := c.files + 1))
    case Counting => SetCounter(Move(s, id, Open), d, c.(bytes := c.bytes + size))
    case Closing => SetCounter(Move(s, id, if d && c.files - 1 < 0 then ClampFiles else Uncounting), d, c.(files := c.files - 1))
    case ClampFiles => SetCounter(Move(s, id, Uncounting), d, c.(files := 0)).(clamps := s.clamps + 1)
    case Uncounting => SetCounter(Move(s, id, if d && c.bytes - size < 0 then ClampBytes else Closed), d, c.(bytes := c.bytes - size))
    case ClampBytes => SetCounter(Move(s, id, Closed), d, c.(bytes := 0)).(clamps := s.clamps + 1)
  }

  ghost predicate Run(s: State, events: seq<Event>, s': State)
    decreases |events|
  {
    if events == [] then s == s'
    else Enabled(s, events[0]) && Run(Next(s, events[0]), events[1..], s')
  }

  // --------------------------------------------------- one storage by itself

  /** What is left to do of a creation or a closing. */
  function Remaining(phase: Phase): nat {
    match phase
    case Closing => 4
    case ClampFiles => 3
    case Admitted | Uncounting => 2
    case Counting | ClampBytes => 1
    case Open | Closed | Left => 0
  }

  /** A storage's remaining atomic actions, without interruption. */
  function Settled(s: State, id: Id): State
    requires id in s.items
    decreases Remaining(s.items[id].phase)
  {
    if Remaining(s.items[id].phase) == 0 then s else Settled(Next(s, Advance(id)), id)
  }

  /** The counters as the sequential model has them. */
  function Tally(s: State): DiskCache.Counts {
    DiskCache.Counts(s.disk.files, s.disk.bytes, s.memory.files, s.memory.bytes, 0, 0)
  }

  predicate Settles(s: State, id: Id, phase: Phase, tally: DiskCache.Counts, clamps: nat)
    requires id in s.items
  {
    var r := Settled(s, id);
    r.items == s.items[id := s.items[id].(phase := phase)] && Tally(r) == tally && r.clamps == clamps
  }

  lemma SettlesOn(s: State, id: Id)
    requires id in s.items && Remaining(s.items[id].phase) != 0
    ensures Settled(s, id) == Settled(Next(s, Advance(id)), id)
  {
  }

  ghost function SizeSum(items: map<Id, Item>, ids: set<Id>): nat
    requires ids <= items.Keys
  {
    if ids == {} then 0
    else
      var id :| id in ids;
      items[id].size + SizeSum(items, ids - {id})
  }

  lemma {:induction false} SizeSumSplit(items: map<Id, Item>, ids: set<Id>, id: Id)
    requires ids <= items.Keys && id in ids
    ensures SizeSum(items, ids) == items[id].size + SizeSum(items, ids - {id})
    decreases ids
  {
    var k :| k in ids && SizeSum(items, ids) == items[k].size + SizeSum(items, ids - {k});
    if k != id {
      SizeSumSplit(items, ids - {k}, id);
      SizeSumSplit(items, ids - {id}, k);
      assert ids - {k} - {id} == ids - {id} - {k};
    }
  }

  lemma {:induction false} SizeSumSame(items: map<Id, Item>, items': map<Id, Item>, ids: set<Id>)
    requires ids <= items.Keys && ids <= items'.Keys && forall id | id in ids :: items'[id].size == items[id].size
    ensures SizeSum(items', ids) == SizeSum(items, ids)
    decreases ids
  {
    if ids != {} {
      var id :| id in ids;
      SizeSumSplit(items, ids, id);
      SizeSumSplit(items', ids, id);
      SizeSumSame(items, items', ids - {id});
    }
  }

  /** The sum over a selection when one item changes and possibly enters or leaves it. */
  lemma SumChanges(items: map<Id, Item>, id: Id, item: Item, before: set<Id>, after: set<Id>)
    requires before <= items.Keys && after <= items[id := item].Keys && before - {id} == after - {id}
    requires id in items ==> items[id].size == item.size
    ensures SizeSum(items[id := item], after)
            == SizeSum(items, before) + (if id in after then item.size else 0) - (if id in before then item.size else 0)
  {
    var items', rest := items[id := item], before - {id};
    SizeSumSame(items, items', rest);
    if id in before {
      SizeSumSplit(items, before, id);
    } else {
      assert before == rest;
    }
    if id in after {
      SizeSumSplit(items', after, id);
    } else {
      assert after == rest;
    }
  }

  lemma BytesUncounted(s: State, id: Id)
    requires id in s.items && s.items[id].phase.Uncounting?
    ensures var size := s.items[id].size;
            if OnDisk(s.items[id].kind)
            then Settles(s, id, Closed, Tally(s).(diskBytes := DiskCache.Clamped(s.disk.bytes - size)), s.clamps + (if s.disk.bytes < size then 1 else 0))
            else Settles(s, id, Closed, Tally(s).(memoryBytes := s.memory.bytes - size), s.clamps)
  {
    var s1 := Next(s, Advance(id));
    SettlesOn(s, id);
    if s1.items[id].phase.ClampBytes? {
      SettlesOn(s1, id);
    }
  }

  lemma FilesUncounted(s: State, id: Id)
    requires id in s.items && s.items[id].phase.Closing?
    ensures var Item(kind, size, _) := s.items[id];
            Settles(s, id, Closed, DiskCache.Uncounted(Tally(s), OnDisk(kind), size),
                    s.clamps + (if OnDisk(kind) && s.disk.files <= 0 then 1 else 0)
                             + (if OnDisk(kind) && s.disk.bytes < size then 1 else 0))
  {
    var s1 := Next(s, Advance(id));
    SettlesOn(s, id);
    if s1.items[id].phase.ClampFiles? {
      SettlesOn(s1, id);
      BytesUncounted(Next(s1, Advance(id)), id);
    } else {
      BytesUncounted(s1, id);
    }
  }

  /** Without interruption the atomic actions of a creation amount to counting it once. */
  lemma CreatingCounts(s: State, id: Id, kind: Kind, declared: nat, size: nat)
    requires Enabled(s, Create(id, kind, declared, size))
    ensures var s1 := Next(s, Create(id, kind, declared, size));
            s1.items == s.items[id := Item(kind, size, Admitted)]
            && Settles(s1, id, Open, DiskCache.Counted(Tally(s), OnDisk(kind), size), s.clamps)
  {
    var s1 := Next(s, Create(id, kind, declared, size));
    var s2 := Next(s1, Advance(id));
    SettlesOn(s1, id);
    SettlesOn(s2, id);
  }

  /** And those of the first closing to uncounting it once, with the resets to zero; a cached
      file that stays behind stays counted. */
  lemma ClosingUncounts(s: State, id: Id, removed: bool)
    requires id in s.items && s.items[id].phase.Open?
    ensures var Item(kind, size, _) := s.items[id];
            var s1 := Next(s, Close(id, removed));
            if kind.CachedFile? && !removed then Settles(s1, id, Left, Tally(s), s.clamps)
            else Settles(s1, id, Closed, DiskCache.Uncounted(Tally(s), OnDisk(kind), size),
                         s.clamps + (if OnDisk(kind) && s.disk.files <= 0 then 1 else 0)
                                  + (if OnDisk(kind) && s.disk.bytes < size then 1 else 0))
  {
    var s1 := Next(s, Close(id, removed));
    if s1.items[id].phase.Closing? {
      FilesUncounted(s1, id);
    }
  }

  /** A storage that was closed or left behind ignores further closings. */
  lemma ClosingAgain(s: State, id: Id, removed: bool)
    requires Enabled(s, Close(id, removed)) && !s.items[id].phase.Open?
    ensures Next(s, Close(id, removed)) == s
  {
  }

  // ------------------------------------------------------------ exact counters

  predicate InFiles(phase: Phase) {
    phase.Counting? || phase.Open? || phase.Closing? || phase.Left?
  }

  predicate InBytes(phase: Phase) {
    phase.Open? || phase.Closing? || phase.Uncounting? || phase.Left?
  }

  function CountedFiles(items: map<Id, Item>, onDisk: bool): set<Id> {
    set id | id in items && OnDisk(items[id].kind) == onDisk && InFiles(items[id].phase)
  }

  function CountedBytes(items: map<Id, Item>, onDisk: bool): set<Id> {
    set id | id in items && OnDisk(items[id].kind) == onDisk && InBytes(items[id].phase)
  }

  /** The storages that exist: open ones, and files that could not be removed. */
  function Present(items: map<Id, Item>, onDisk: bool): set<Id> {
    set id | id in items && OnDisk(items[id].kind) == onDisk && (items[id].phase.Open? || items[id].phase.Left?)
  }

  ghost predicate Exact(s: State, onDisk: bool) {
    && CounterOf(s, onDisk).files == |CountedFiles(s.items, onDisk)|
    && CounterOf(s, onDisk).bytes == SizeSum(s.items, CountedBytes(s.items, onDisk))
  }

  ghost predicate Inv(s: State) {
    && Exact(s, true) && Exact(s, false)
    && s.clamps == 0
    && forall id | id in s.items :: !s.items[id].phase.ClampFiles? && !s.items[id].phase.ClampBytes?
  }

  predicate Fits(items: map<Id, Item>, id: Id, item: Item) {
    id in items ==> items[id].kind == item.kind && items[id].size == item.size
  }

  lemma BytesChange(items: map<Id, Item>, id: Id, item: Item, onDisk: bool)
    requires Fits(items, id, item)
    ensures var now := OnDisk(item.kind) == onDisk && InBytes(item.phase);
            SizeSum(items[id := item], CountedBytes(items[id := item], onDisk))
            == SizeSum(items, CountedBytes(items, onDisk)) + (if now then item.size else 0)
               - (if id in CountedBytes(items, onDisk) then item.size else 0)
  {
    SumChanges(items, id, item, CountedBytes(items, onDisk), CountedBytes(items[id := item], onDisk));
  }

  lemma FilesChange(items: map<Id, Item>, id: Id, item: Item, onDisk: bool)
    requires Fits(items, id, item)
    ensures var now := OnDisk(item.kind) == onDisk && InFiles(item.phase);
            |CountedFiles(items[id := item], onDisk)|
            == |CountedFiles(items, onDisk)| + (if now then 1 else 0) - (if id in CountedFiles(items, onDisk) then 1 else 0)
  {
    var before, after := CountedFiles(items, onDisk), CountedFiles(items[id := item], onDisk);
    var rest := before - {id};
    assert before == if id in before then rest + {id} else rest;
    assert after == if id in after then rest + {id} else rest;
  }

  /** A step changes one item and, with it, only the counters it belongs to. */
  lemma StepKeepsExact(s: State, e: Event, onDisk: bool)
    requires Inv(s) && Enabled(s, e)
    ensures Exact(Next(s, e), onDisk)
  {
    var s' := Next(s, e);
    if s' != s {
      assert s'.items == s.items[e.id := s'.items[e.id]];
      FilesChange(s.items, e.id, s'.items[e.id], onDisk);
      BytesChange(s.items, e.id, s'.items[e.id], onDisk);
      if e.Advance? {
        CountedIsPositive(s, e.id);
        AdvanceKeepsFiles(s, e.id, onDisk);
        AdvanceKeepsBytes(s, e.id, onDisk);
      }
    }
  }

  lemma AdvanceKeepsFiles(s: State, id: Id, onDisk: bool)
    requires Enabled(s, Advance(id)) && !s.items[id].phase.ClampFiles? && !s.items[id].phase.ClampBytes?
    requires InFiles(s.items[id].phase) ==> CounterOf(s, OnDisk(s.items[id].kind)).files >= 1
    ensures var here, item := OnDisk(s.items[id].kind) == onDisk, Advanced(s, id).items[id];
            CounterOf(Advanced(s, id), onDisk).files
            == CounterOf(s, onDisk).files + (if here && InFiles(item.phase) then 1 else 0)
               - (if here && InFiles(s.items[id].phase) then 1 else 0)
  {
  }

  lemma AdvanceKeepsBytes(s: State, id: Id, onDisk: bool)
    requires Enabled(s, Advance(id)) && !s.items[id].phase.ClampFiles? && !s.items[id].phase.ClampBytes?
    requires InFiles(s.items[id].phase) ==> CounterOf(s, OnDisk(s.items[id].kind)).files >= 1
    requires InBytes(s.items[id].phase) ==> CounterOf(s, OnDisk(s.items[id].kind)).bytes >= s.items[id].size
    ensures var here, item := OnDisk(s.items[id].kind) == onDisk, Advanced(s, id).items[id];
            CounterOf(Advanced(s, id), onDisk).bytes
            == CounterOf(s, onDisk).bytes + (if here && InBytes(item.phase) then item.size else 0)
               - (if here && InBytes(s.items[id].phase) then item.size else 0)
  {
  }

  lemma CountedIsPositive(s: State, id: Id)
    requires Inv(s) && id in s.items
    ensures InFiles(s.items[id].phase) ==> CounterOf(s, OnDisk(s.items[id].kind)).files >= 1
    ensures InBytes(s.items[id].phase) ==> CounterOf(s, OnDisk(s.items[id].kind)).bytes >= s.items[id].size
  {
    var d := OnDisk(s.items[id].kind);
    assert Exact(s, d);
    if InFiles(s.items[id].phase) {
      assert id in CountedFiles(s.items, d);
    }
    if InBytes(s.items[id].phase) {
      SizeSumSplit(s.items, CountedBytes(s.items, d), id);
    }
  }

  lemma StepKeepsInv(s: State, e: Event)
    requires Inv(s) && Enabled(s, e)
    ensures Inv(Next(s, e))
  {
    StepKeepsExact(s, e, true);
    StepKeepsExact(s, e, false);
    if e.Advance? {
      CountedIsPositive(s, e.id);
    }
  }

  lemma {:induction false} RunKeepsInv(s: State, events: seq<Event>, s': State)
    requires Inv(s) && Run(s, events, s')
    ensures Inv(s')
    decreases |events|
  {
    if events != [] {
      StepKeepsInv(s, events[0]);
      RunKeepsInv(Next(s, events[0]), events[1..], s');
    }
  }

  /** In every interleaving no counter is ever negative and the zero-clamp never fires;
      whenever no storage is in between, the counters are exactly the number and the
      total size of the storages present, on disk and in memory. */
  lemma CountersAreExact(threshold: int, limit: int, events: seq<Event>, s: State)
    requires Run(Init(threshold, limit), events, s)
    ensures s.clamps == 0
    ensures forall d :: CounterOf(s, d).files >= 0 && CounterOf(s, d).bytes >= 0
    ensures (forall id | id in s.items :: s.items[id].phase.Open? || s.items[id].phase.Closed? || s.items[id].phase.Left?) ==>
              forall d :: CounterOf(s, d) == Counter(|Present(s.items, d)|, SizeSum(s.items, Present(s.items, d)))
  {
    RunKeepsInv(Init(threshold, limit), events, s);
    forall d ensures Exact(s, d) {
      assert d == true || d == false;
    }
    if forall id | id in s.items :: s.items[id].phase.Open? || s.items[id].phase.Closed? || s.items[id].phase.Left? {
      forall d ensures CounterOf(s, d) == Counter(|Present(s.items, d)|, SizeSum(s.items, Present(s.items, d))) {
        assert CountedFiles(s.items, d) == Present(s.items, d) == CountedBytes(s.items, d);
      }
    }
  }

  // -------------------------------------------------------------- the limit

  /** Storages that have passed the check and are not in the byte counter yet. */
  function InFlight(items: map<Id, Item>): set<Id> {
    set id | id in items && OnDisk(items[id].kind) && (items[id].phase.Admitted? || items[id].phase.Counting?)
  }

  /** The byte counter once everything in flight has landed. */
  ghost function Total(s: State): int {
    s.disk.bytes + SizeSum(s.items, InFlight(s.items))
  }

  lemma TotalGrowsByAdmission(s: State, e: Event)
    requires Inv(s) && Enabled(s, e)
    ensures Next(s, e).limit == s.limit && Next(s, e).threshold == s.threshold
    ensures if e.Create? && OnDisk(e.kind) then Total(Next(s, e)) == Total(s) + e.size else Total(Next(s, e)) <= Total(s)
  {
    var s' := Next(s, e);
    if s' != s {
      assert s'.items == s.items[e.id := s'.items[e.id]];
      SumChanges(s.items, e.id, s'.items[e.id], InFlight(s.items), InFlight(s'.items));
    }
  }

  predicate IsAdmission(e: Event) {
    e.Create? && OnDisk(e.kind)
  }

  /** What a run may be relied on: lengths are not understated, checked sums do not
      overflow, and at most so many bytes are in flight when another storage is admitted. */
  datatype Discipline = Discipline(honest: bool, fits: bool, overlap: Option<nat>)

  ghost predicate Obeys(d: Discipline, s: State, e: Event) {
    IsAdmission(e) ==>
      && (d.honest ==> e.size <= e.declared)
      && (d.fits ==> s.disk.bytes + e.declared <= MAX_INT64)
      && (d.overlap.Some? ==> SizeSum(s.items, InFlight(s.items)) <= d.overlap.value)
  }

  ghost predicate Disciplined(d: Discipline, s: State, events: seq<Event>)
    decreases |events|
  {
    events != [] && Enabled(s, events[0]) ==> Obeys(d, s, events[0]) && Disciplined(d, Next(s, events[0]), events[1..])
  }

  lemma AdmissionIsBounded(s: State, e: Event, w: nat)
    requires Inv(s) && Enabled(s, e) && IsAdmission(e) && Obeys(Discipline(true, true, Some(w)), s, e)
    ensures Total(s) + e.size <= s.limit + w
  {
    WrapFacts(s.disk.bytes + e.declared);
    assert s.disk.bytes >= 0;
  }

  lemma {:induction false} TotalIsBounded(s: State, events: seq<Event>, s': State, w: nat)
    requires Inv(s) && Run(s, events, s') && Disciplined(Discipline(true, true, Some(w)), s, events) && Total(s) <= s.limit + w
    ensures Inv(s') && s'.limit == s.limit && Total(s') <= s.limit + w
    decreases |events|
  {
    if events != [] {
      StepKeepsInv(s, events[0]);
      TotalGrowsByAdmission(s, events[0]);
      if IsAdmission(events[0]) {
        AdmissionIsBounded(s, events[0], w);
      }
      TotalIsBounded(Next(s, events[0]), events[1..], s', w);
    }
  }

  /** The limit can be exceeded by no more than what is in flight at an admission. */
  lemma UsageIsBounded(threshold: int, limit: nat, events: seq<Event>, s: State, w: nat)
    requires Run(Init(threshold, limit), events, s) && Disciplined(Discipline(true, true, Some(w)), Init(threshold, limit), events)
    ensures s.disk.bytes <= limit + w
  {
    TotalIsBounded(Init(threshold, limit), events, s, w);
  }

  lemma {:induction false} NothingGoesToDisk(s: State, events: seq<Event>, s': State)
    requires s.limit < s.threshold && s.disk.bytes == 0 && (forall id | id in s.items :: s.items[id].kind.Buffer?)
    requires Run(s, events, s')
    ensures s'.disk.bytes == 0
    decreases |events|
  {
    if events != [] {
      if events[0].Create? {
        WrapFacts(events[0].declared);
      }
      NothingGoesToDisk(Next(s, events[0]), events[1..], s');
    }
  }

  function Least(threshold: int, size: nat): nat {
    if threshold > size then threshold else size
  }

  ghost predicate LimitKept(threshold: int, limit: nat, d: Discipline) {
    forall events, s | Run(Init(threshold, limit), events, s) && Disciplined(d, Init(threshold, limit), events) :: s.disk.bytes <= limit
  }

  /** The limit is kept in every interleaving exactly when lengths are not understated, sums
      do not overflow and admissions do not overlap: drop any one of these and some run
      exceeds it.  A limit of zero is kept by honest lengths alone, as only empty storages
      are admitted, and a threshold above the limit keeps it by itself, as nothing then goes
      to disk.  (A limit is a whole number of megabytes, so below the largest integer.) */
  lemma LimitKeptIff(threshold: int, limit: nat, d: Discipline)
    requires limit < MAX_INT64
    ensures LimitKept(threshold, limit, d) <==>
            || threshold > limit
            || (limit == 0 && d.honest)
            || d == Discipline(true, true, Some(0))
  {
    var s0 := Init(threshold, limit);
    if threshold > limit {
      forall events, s | Run(s0, events, s) && Disciplined(d, s0, events) ensures s.disk.bytes <= limit {
        NothingGoesToDisk(s0, events, s);
      }
    } else if limit == 0 && d.honest {
      forall events, s | Run(s0, events, s) && Disciplined(d, s0, events) ensures s.disk.bytes <= limit {
        OnlyEmptyOnes(s0, events, s, d);
      }
    } else if d == Discipline(true, true, Some(0)) {
      forall events, s | Run(s0, events, s) && Disciplined(d, s0, events) ensures s.disk.bytes <= limit {
        UsageIsBounded(threshold, limit, events, s, 0);
      }
    } else if !d.honest {
      UnderstatedExceeds(threshold, limit, d);
    } else if !d.fits {
      OverflowExceeds(threshold, limit, d);
    } else {
      var events, s := OverlapReaches(threshold, limit, 1, d);
    }
  }

  /** Under a limit of zero honest lengths admit only empty storages. */
  lemma {:induction false} OnlyEmptyOnes(s: State, events: seq<Event>, s': State, d: Discipline)
    requires s.limit == 0 && s.disk.bytes == 0 && (forall id | id in s.items && OnDisk(s.items[id].kind) :: s.items[id].size == 0)
    requires d.honest && Run(s, events, s') && Disciplined(d, s, events)
    ensures s'.disk.bytes == 0
    decreases |events|
  {
    if events != [] {
      if events[0].Create? {
        WrapFacts(events[0].declared);
      }
      OnlyEmptyOnes(Next(s, events[0]), events[1..], s', d);
    }
  }

  // ------------------------------------------------------------- the witnesses

  lemma RunCons(s: State, e: Event, events: seq<Event>, s': State, d: Discipline)
    requires Enabled(s, e) && Obeys(d, s, e) && Run(Next(s, e), events, s') && Disciplined(d, Next(s, e), events)
    ensures Run(s, [e] + events, s') && Disciplined(d, s, [e] + events)
  {
    assert ([e] + events)[1..] == events;
  }

  /** A storage that was just admitted lands. */
  lemma Landing(s: State, id: Id, events: seq<Event>, s': State, d: Discipline)
    requires id in s.items && OnDisk(s.items[id].kind) && s.items[id].phase.Admitted?
    requires Run(Landed(s, id), events, s') && Disciplined(d, Landed(s, id), events)
    ensures Run(s, [Advance(id)] + ([Advance(id)] + events), s') && Disciplined(d, s, [Advance(id)] + ([Advance(id)] + events))
  {
    var s1 := Next(s, Advance(id));
    assert Next(s1, Advance(id)) == Landed(s, id);
    RunCons(s1, Advance(id), events, s', d);
    RunCons(s, Advance(id), [Advance(id)] + events, s', d);
  }

  function Landed(s: State, id: Id): State
    requires id in s.items
  {
    s.(items := s.items[id := s.items[id].(phase := Open)],
       disk := Counter(s.disk.files + 1, s.disk.bytes + s.items[id].size))
  }

  /** One body, larger than it said. */
  lemma UnderstatedExceeds(threshold: int, limit: nat, d: Discipline)
    requires threshold <= limit < MAX_INT64 && !d.honest
    ensures !LimitKept(threshold, limit, d)
  {
    var e := Create(0, BodyFile, Least(threshold, 0), limit + 1);
    WrapFacts(e.declared);
    assert InFlight(Init(threshold, limit).items) == {};
    var s1 := Next(Init(threshold, limit), e);
    var s2 := Landed(s1, 0);
    Landing(s1, 0, [], s2, d);
    RunCons(Init(threshold, limit), e, [Advance(0)] + ([Advance(0)] + []), s2, d);
    assert s2.disk.bytes == limit + 1;
  }

  /** A byte is stored; then a declared length makes the checked sum overflow. */
  lemma OverflowExceeds(threshold: int, limit: nat, d: Discipline)
    requires threshold <= limit && 0 < limit < MAX_INT64 && !d.fits
    ensures !LimitKept(threshold, limit, d)
  {
    var s0 := Init(threshold, limit);
    var e, f := Create(0, BodyFile, Least(threshold, 1), 1), Create(1, BodyFile, MAX_INT64, limit);
    WrapFacts(e.declared);
    WrapFacts(1 + MAX_INT64);
    var s1 := Next(s0, e);
    var s2 := Landed(s1, 0);
    assert InFlight(s0.items) == {} && InFlight(s2.items) == {};
    var s3 := Next(s2, f);
    var s4 := Landed(s3, 1);
    Landing(s3, 1, [], s4, d);
    var tail := [Advance(1)] + ([Advance(1)] + []);
    RunCons(s2, f, tail, s4, d);
    Landing(s1, 0, [f] + tail, s4, d);
    RunCons(s0, e, [Advance(0)] + ([Advance(0)] + ([f] + tail)), s4, d);
    assert s4.disk.bytes == limit + 1;
  }

  /** Two bodies are checked before either is counted: the bound is reached. */
  lemma OverlapReaches(threshold: int, limit: nat, w: nat, d: Discipline) returns (events: seq<Event>, s: State)
    requires threshold <= limit && 0 < w <= limit < MAX_INT64 && (d.overlap.Some? ==> w <= d.overlap.value)
    ensures Run(Init(threshold, limit), events, s) && Disciplined(d, Init(threshold, limit), events) && s.disk.bytes == limit + w
  {
    var s0 := Init(threshold, limit);
    var e, f := Create(0, BodyFile, Least(threshold, w), w), Create(1, BodyFile, limit, limit);
    WrapFacts(e.declared);
    WrapFacts(limit);
    assert InFlight(s0.items) == {};
    var s1 := Next(s0, e);
    OneInFlight(s1, w);
    var s2 := Next(s1, f);
    var s3 := Landed(s2, 0);
    s := Landed(s3, 1);
    Landing(s3, 1, [], s, d);
    var tail := [Advance(1)] + ([Advance(1)] + []);
    Landing(s2, 0, tail, s, d);
    var rest := [Advance(0)] + ([Advance(0)] + tail);
    RunCons(s1, f, rest, s, d);
    events := [e] + ([f] + rest);
    RunCons(s0, e, [f] + rest, s, d);
  }

  lemma OneInFlight(s: State, w: nat)
    requires s.items == map[0 := Item(BodyFile, w, Admitted)]
    ensures SizeSum(s.items, InFlight(s.items)) == w
  {
    assert InFlight(s.items) == {0};
    SizeSumSplit(s.items, {0}, 0);
    assert {0} - {0} == {};
  }
}
