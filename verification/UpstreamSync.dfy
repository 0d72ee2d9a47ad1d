/**
 Reconciliation of a channel's model list with what its upstream offers.

 A channel row stores its models as comma-joined text and, in its settings, the
 ignored, detected (pending add) and removed (pending remove) lists.  `Check`
 compares the row with the upstream and records the pending changes, or applies
 the additions at once when automatic sync is on.  `Apply` executes the changes
 an operator selected.
 */
module UpstreamSync {
  import opened Basics
  import opened Text

  /** Whether a pattern matches a name; a pattern that does not compile matches nothing. */
  type Regex = (string, string) -> bool

  const REGEX_PREFIX := "regex:"

  // ------------------------------------------------------ lists of model names

  /** Trimmed and not empty. */
  predicate IsName(x: string) {
    x != "" && Bare(x, IsSpace)
  }

  predicate Normal(l: seq<string>) {
    NoDup(l) && forall x | x in l :: IsName(x)
  }

  function Clean(models: seq<string>): seq<string> {
    if models == [] then []
    else
      var rest := Clean(models[..|models| - 1]);
      var trimmed := TrimSpace(models[|models| - 1]);
      if trimmed == "" then rest else rest + [trimmed]
  }

  function Normalize(models: seq<string>): seq<string> {
    Uniq(Clean(models))
  }

  /** The distinct names a raw list denotes. */
  function Names(models: seq<string>): set<string> {
    set m | m in models && TrimSpace(m) != "" :: TrimSpace(m)
  }

  lemma {:induction false} CleanFacts(models: seq<string>)
    ensures Elems(Clean(models)) == Names(models)
    ensures forall x | x in Clean(models) :: IsName(x)
    ensures (forall x | x in models :: IsName(x)) ==> Clean(models) == models
    decreases models
  {
    if models != [] {
      var front, last := models[..|models| - 1], models[|models| - 1];
      CleanFacts(front);
      ElemsSnoc(models);
      ElemsAppend(Clean(front), [TrimSpace(last)]);
      TrimFacts(last, IsSpace);
      assert forall x :: x in models <==> x in front || x == last;
      assert Names(models) == Names(front) + (if TrimSpace(last) == "" then {} else {TrimSpace(last)});
    }
  }

  /** Normalising yields trimmed, distinct names, loses none, and is idempotent. */
  lemma NormalizeFacts(models: seq<string>)
    ensures Normal(Normalize(models))
    ensures Elems(Normalize(models)) == Names(models)
    ensures Normal(models) ==> Normalize(models) == models && Names(models) == Elems(models)
  {
    CleanFacts(models);
    UniqFacts(Clean(models));
    forall x | x in Normalize(models) ensures IsName(x) {
      assert x in Elems(Normalize(models));
    }
  }

  function Merge(base: seq<string>, appended: seq<string>): seq<string> {
    var merged := Normalize(base);
    merged + Keep(Normalize(appended), Names(appended) - Names(base))
  }

  function Subtract(base: seq<string>, removed: seq<string>): seq<string> {
    Keep(Normalize(base), Names(base) - Names(removed))
  }

  function Intersect(base: seq<string>, allowed: seq<string>): seq<string> {
    Keep(Normalize(base), Names(allowed))
  }

  lemma KeepNormal(l: seq<string>, s: set<string>)
    requires Normal(l)
    ensures Normal(Keep(l, s))
  {
    KeepFacts(l, s);
    forall x | x in Keep(l, s) ensures IsName(x) {
      assert x in Elems(Keep(l, s));
    }
  }

  lemma NormalAppend(a: seq<string>, b: seq<string>)
    requires Normal(a) && Normal(b) && Elems(a) !! Elems(b)
    ensures Normal(a + b) && Elems(a + b) == Elems(a) + Elems(b)
  {
    NoDupAppend(a, b);
    ElemsAppend(a, b);
  }

  /** Merging keeps the base in front, adds exactly the new names, and repeats none. */
  lemma MergeFacts(base: seq<string>, appended: seq<string>)
    ensures Normal(Merge(base, appended))
    ensures Elems(Merge(base, appended)) == Names(base) + Names(appended)
    ensures Normalize(base) <= Merge(base, appended)
    ensures |Merge(base, appended)| == |Normalize(base)| + |Names(appended) - Names(base)|
  {
    NormalizeFacts(base);
    NormalizeFacts(appended);
    MergeNormal(Normalize(base), Normalize(appended), Names(appended) - Names(base));
  }

  lemma MergeNormal(b: seq<string>, a: seq<string>, novel: set<string>)
    requires Normal(a) && Normal(b) && novel == Elems(a) - Elems(b)
    ensures Normal(b + Keep(a, novel))
    ensures Elems(b + Keep(a, novel)) == Elems(b) + Elems(a)
    ensures |b + Keep(a, novel)| == |b| + |novel|
  {
    KeepFacts(a, novel);
    KeepNormal(a, novel);
    assert Elems(a) * novel == novel;
    NormalAppend(b, Keep(a, novel));
    NoDupLength(Keep(a, novel));
  }

  lemma {:induction false} NoDupLength(l: seq<string>)
    requires NoDup(l)
    ensures |Elems(l)| == |l|
    decreases l
  {
    if l != [] {
      NoDupLength(l[..|l| - 1]);
      ElemsSnoc(l);
      assert l[|l| - 1] !in Elems(l[..|l| - 1]);
    }
  }

  lemma SubtractFacts(base: seq<string>, removed: seq<string>)
    ensures Normal(Subtract(base, removed))
    ensures Elems(Subtract(base, removed)) == Names(base) - Names(removed)
    ensures Names(base) !! Names(removed) ==> Subtract(base, removed) == Normalize(base)
  {
    NormalizeFacts(base);
    KeepFacts(Normalize(base), Names(base) - Names(removed));
    KeepNormal(Normalize(base), Names(base) - Names(removed));
  }

  lemma IntersectFacts(base: seq<string>, allowed: seq<string>)
    ensures Normal(Intersect(base, allowed))
    ensures Elems(Intersect(base, allowed)) == Names(base) * Names(allowed)
    ensures Names(base) <= Names(allowed) ==> Intersect(base, allowed) == Normalize(base)
  {
    NormalizeFacts(base);
    KeepFacts(Normalize(base), Names(allowed));
    KeepNormal(Normalize(base), Names(allowed));
  }

  /** `names` appended one by one, each only if it is not there yet. */
  function Grown(base: seq<string>, names: seq<string>): seq<string> {
    if names == [] then base
    else
      var merged, name := Grown(base, names[..|names| - 1]), names[|names| - 1];
      if name in merged then merged else merged + [name]
  }

  lemma {:induction false} GrownIs(base: seq<string>, names: seq<string>, novel: set<string>)
    requires NoDup(names) && forall x | x in names :: x in novel <==> x !in base
    ensures Grown(base, names) == base + Keep(names, novel)
    ensures Elems(Grown(base, names)) == Elems(base) + Elems(names)
    decreases names
  {
    if names != [] {
      var front, name := names[..|names| - 1], names[|names| - 1];
      ElemsSnoc(names);
      GrownIs(base, front, novel);
      assert name in Grown(base, front) <==> name in Elems(Grown(base, front));
      ElemsAppend(Grown(base, front), [name]);
    }
  }

  /** The loop of `mergeModelNames`, growing `seen` and `merged` together. */
  method AppendNames(base: seq<string>, names: seq<string>) returns (merged: seq<string>)
    ensures merged == Grown(base, names)
  {
    merged := base;
    var seen := set m | m in merged;
    ghost var done: seq<string> := [];
    for i := 0 to |names|
      invariant done == names[..i] && merged == Grown(base, done)
      invariant forall m :: m in seen <==> m in merged
    {
      var name := names[i];
      assert (done + [name])[..|done|] == done;
      if name !in seen {
        seen := seen + {name};
        merged := merged + [name];
      }
      done := done + [name];
    }
    assert done == names;
  }

  lemma MergeIsGrown(base: seq<string>, appended: seq<string>)
    ensures Grown(Normalize(base), Normalize(appended)) == Merge(base, appended)
  {
    NormalizeFacts(base);
    NormalizeFacts(appended);
    forall x | x in Normalize(appended) ensures x in Names(appended) - Names(base) <==> x !in Normalize(base) {
      assert x in Elems(Normalize(appended));
      assert x in Normalize(base) <==> x in Elems(Normalize(base));
    }
    GrownIs(Normalize(base), Normalize(appended), Names(appended) - Names(base));
  }

  lemma {:induction false} CleanAppend(a: seq<string>, b: seq<string>)
    ensures Clean(a + b) == Clean(a) + Clean(b)
    decreases b
  {
    if b == [] {
      assert a + b == a;
    } else {
      assert (a + b)[..|a + b| - 1] == a + b[..|b| - 1];
      CleanAppend(a, b[..|b| - 1]);
    }
  }

  /** Merging two lists is normalising one after the other: names stand in the order in
      which they first occur. */
  lemma MergeIsNormalize(a: seq<string>, b: seq<string>)
    ensures Merge(a, b) == Normalize(a + b)
  {
    CleanAppend(a, b);
    CleanFacts(a);
    CleanFacts(b);
    UniqAppend(Clean(a), Clean(b));
  }

  method MergeModelNames(base: seq<string>, appended: seq<string>) returns (merged: seq<string>)
    ensures merged == Merge(base, appended)
  {
    merged := AppendNames(Normalize(base), Normalize(appended));
    MergeIsGrown(base, appended);
  }

  /** Additions win over removals of the same name. */
  function ApplySelected(origin: seq<string>, add: seq<string>, remove: seq<string>): seq<string> {
    var normalizedAdd := Normalize(add);
    var normalizedRemove := Subtract(Normalize(remove), normalizedAdd);
    Subtract(Merge(origin, normalizedAdd), normalizedRemove)
  }

  /** The results are normal already, so reading them as raw lists changes nothing. */
  lemma NamesOfResults(a: seq<string>, b: seq<string>)
    ensures Names(Normalize(a)) == Names(a)
    ensures Names(Subtract(a, b)) == Names(a) - Names(b)
    ensures Names(Merge(a, b)) == Names(a) + Names(b)
    ensures Normalize(Merge(a, b)) == Merge(a, b)
  {
    NormalizeFacts(a);
    NormalizeFacts(Normalize(a));
    SubtractFacts(a, b);
    NormalizeFacts(Subtract(a, b));
    MergeFacts(a, b);
    NormalizeFacts(Merge(a, b));
  }

  lemma ApplySelectedFacts(origin: seq<string>, add: seq<string>, remove: seq<string>)
    ensures Normal(ApplySelected(origin, add, remove))
    ensures Elems(ApplySelected(origin, add, remove)) == Names(origin) - (Names(remove) - Names(add)) + Names(add)
    ensures Names(remove) <= Names(add) ==> ApplySelected(origin, add, remove) == Merge(origin, Normalize(add))
  {
    var normalizedAdd := Normalize(add);
    var normalizedRemove := Subtract(Normalize(remove), normalizedAdd);
    NamesOfResults(add, []);
    NamesOfResults(remove, []);
    NamesOfResults(Normalize(remove), normalizedAdd);
    NamesOfResults(origin, normalizedAdd);
    SubtractFacts(Merge(origin, normalizedAdd), normalizedRemove);
  }

  // ---------------------------------------------------------- pending changes

  predicate IsPattern(entry: string) {
    REGEX_PREFIX <= entry
  }

  /** One ignore entry against one name: a pattern, or an exact name. */
  predicate Ignores(entry: string, name: string, re: Regex) {
    if IsPattern(entry) then re(TrimSpace(entry[|REGEX_PREFIX|..]), name) else entry == name
  }

  /** `regex:` makes any entry a pattern, even an empty one; without it only the name itself is meant. */
  lemma IgnoresIff(entry: string, name: string, re: Regex)
    ensures Ignores("regex:" + entry, name, re) <==> re(TrimSpace(entry), name)
    ensures !("regex:" <= entry) ==> (Ignores(entry, name, re) <==> entry == name)
  {
    assert ("regex:" + entry)[6..] == entry;
  }

  predicate IsIgnored(ignored: seq<string>, name: string, re: Regex) {
    exists entry | entry in Names(ignored) :: Ignores(entry, name, re)
  }

  /** What the channel and the process configuration contribute: the redirect
      mapping from alias to upstream name, and the regular expression engine. */
  datatype Context = Context(mapping: map<string, string>, re: Regex)

  function Addable(ctx: Context, local: seq<string>, upstream: seq<string>, ignored: seq<string>): set<string> {
    set x | x in Names(upstream) && x !in Names(local) && x !in ctx.mapping.Values && !IsIgnored(ignored, x, ctx.re)
  }

  function Removable(ctx: Context, local: seq<string>, upstream: seq<string>): set<string> {
    set x | x in Names(local) && x !in ctx.mapping && x !in Names(upstream)
  }

  function PendingAdd(ctx: Context, local: seq<string>, upstream: seq<string>, ignored: seq<string>): seq<string> {
    Normalize(Keep(Normalize(upstream), Addable(ctx, local, upstream, ignored)))
  }

  function PendingRemove(ctx: Context, local: seq<string>, upstream: seq<string>): seq<string> {
    Normalize(Keep(Normalize(local), Removable(ctx, local, upstream)))
  }

  lemma SelectionFacts(l: seq<string>, s: set<string>)
    requires s <= Names(l)
    ensures Normal(Normalize(Keep(Normalize(l), s))) && Elems(Normalize(Keep(Normalize(l), s))) == s
  {
    NormalizeFacts(l);
    KeepFacts(Normalize(l), s);
    KeepNormal(Normalize(l), s);
    NormalizeFacts(Keep(Normalize(l), s));
  }

  lemma PendingFacts(ctx: Context, local: seq<string>, upstream: seq<string>, ignored: seq<string>)
    ensures Normal(PendingAdd(ctx, local, upstream, ignored))
    ensures Normal(PendingRemove(ctx, local, upstream))
    ensures Elems(PendingAdd(ctx, local, upstream, ignored)) == Addable(ctx, local, upstream, ignored)
    ensures Elems(PendingRemove(ctx, local, upstream)) == Removable(ctx, local, upstream)
  {
    SelectionFacts(upstream, Addable(ctx, local, upstream, ignored));
    SelectionFacts(local, Removable(ctx, local, upstream));
  }

  // -------------------------------------------------------------- stored rows

  /** The columns of a channel row that reconciliation reads and writes. */
  datatype Row = Row(models: string, ignored: seq<string>, detected: seq<string>, removed: seq<string>, lastCheck: int)

  function Local(row: Row): seq<string> {
    ReadList(row.models, ',')
  }

  function Detect(ctx: Context, row: Row, upstream: seq<string>, now: int): Row {
    row.(detected := PendingAdd(ctx, Local(row), upstream, row.ignored),
         removed := PendingRemove(ctx, Local(row), upstream),
         lastCheck := now)
  }

  /** Detection with the additions applied at once; `added` counts them. */
  datatype Synced = Synced(row: Row, changed: bool, added: nat)

  function AutoSync(ctx: Context, row: Row, upstream: seq<string>, now: int): Synced {
    var add := PendingAdd(ctx, Local(row), upstream, row.ignored);
    var remove := PendingRemove(ctx, Local(row), upstream);
    if add == [] then Synced(Detect(ctx, row, upstream, now), false, 0)
    else
      var origin := Normalize(Local(row));
      var merged := Merge(origin, add);
      var row' := row.(detected := [], removed := remove, lastCheck := now);
      if |merged| > |origin| then Synced(row'.(models := Join(merged, ',')), true, |merged| - |origin|)
      else Synced(row', false, 0)
  }

  datatype Applied = Applied(
    row: Row, added: seq<string>, dropped: seq<string>, ignored: seq<string>,
    remaining: seq<string>, remainingRemove: seq<string>, changed: bool)

  function Apply(row: Row, addInput: seq<string>, ignoreInput: seq<string>, removeInput: seq<string>, now: int): Applied {
    var pendingAdd := Normalize(row.detected);
    var pendingRemove := Normalize(row.removed);
    var add := Intersect(addInput, pendingAdd);
    var ignore := Intersect(ignoreInput, pendingAdd);
    var remove := Subtract(Intersect(removeInput, pendingRemove), add);
    var next := NextModels(row.models, add, remove);
    var remaining := Subtract(pendingAdd, add + ignore);
    var remainingRemove := Subtract(pendingRemove, remove);
    Applied(
      Row(next.0, NextIgnored(row.ignored, add, ignore), remaining, remainingRemove, now),
      add, remove, ignore, remaining, remainingRemove, next.1)
  }

  /** The stored model text after a selection, and whether it changed. */
  function NextModels(models: string, add: seq<string>, remove: seq<string>): (string, bool) {
    var origin := Normalize(ReadList(models, ','));
    var next := ApplySelected(origin, add, remove);
    if origin == next then (models, false) else (Join(next, ','), true)
  }

  function NextIgnored(ignored: seq<string>, add: seq<string>, ignore: seq<string>): seq<string> {
    var merged := Merge(ignored, ignore);
    if add == [] then merged else Subtract(merged, add)
  }

  method IgnoreModels(ignored: seq<string>, add: seq<string>, ignore: seq<string>) returns (next: seq<string>)
    ensures next == NextIgnored(ignored, add, ignore)
  {
    next := MergeModelNames(ignored, ignore);
    if |add| > 0 {
      next := Subtract(next, add);
    }
  }

  // ------------------------------------------- the channel object and its row

  /** A channel loaded from the database, edited in place and written back.
      `stored` is the database row, `models` and `settings` the loaded copy. */
  class Channel {
    var models: string
    var ignored: seq<string>
    var detected: seq<string>
    var removed: seq<string>
    var lastCheck: int
    var stored: Row

    ghost predicate Loaded()
      reads this
    {
      stored == Row(models, ignored, detected, removed, lastCheck)
    }

    constructor (row: Row)
      ensures Loaded() && stored == row
    {
      models, ignored, detected, removed, lastCheck := row.models, row.ignored, row.detected, row.removed, row.lastCheck;
      stored := row;
    }

    /** Writes the settings, and the models when they changed; `works` is the database's answer. */
    method Save(updateModels: bool, works: bool)
      modifies this`stored
      ensures stored == if works
                        then Row(if updateModels then models else old(stored).models, ignored, detected, removed, lastCheck)
                        else old(stored)
    {
      if works {
        stored := Row(if updateModels then models else stored.models, ignored, detected, removed, lastCheck);
      }
    }

    /** `refreshed` says whether the abilities of changed models could be refreshed. */
    method CheckAndPersist(ctx: Context, fetched: Option<seq<string>>, now: int, force: bool, minInterval: int,
                           autoApply: bool, works: bool, refreshed: bool)
      returns (modelsChanged: bool, autoAdded: nat, ok: bool)
      requires Loaded()
      modifies this
      ensures stored == CheckRow(ctx, old(stored), fetched, now, force, minInterval, autoApply, works)
      ensures works ==> Loaded()
      ensures ok == (!Due(old(stored), now, force, minInterval) || (fetched.Some? && works && (modelsChanged ==> refreshed)))
      ensures if autoApply && fetched.Some? && Due(old(stored), now, force, minInterval)
              then var auto := AutoSync(ctx, old(stored), fetched.value, now);
                   autoAdded == auto.added && modelsChanged == (works && auto.changed)
              else autoAdded == 0 && !modelsChanged
    {
      if !force && lastCheck > 0 && now - lastCheck < minInterval {
        return false, 0, true;
      }
      lastCheck := now;
      if fetched.None? {
        Save(false, works);
        return false, 0, false;
      }
      var local := ReadList(models, ',');
      var pendingAdd := PendingAdd(ctx, local, fetched.value, ignored);
      var pendingRemove := PendingRemove(ctx, local, fetched.value);
      modelsChanged, autoAdded := false, 0;
      if autoApply && |pendingAdd| > 0 {
        var origin := Normalize(local);
        var merged := MergeModelNames(origin, pendingAdd);
        if |merged| > |origin| {
          models := Join(merged, ',');
          autoAdded := |merged| - |origin|;
          modelsChanged := true;
        }
        detected := [];
      } else {
        detected := pendingAdd;
      }
      removed := pendingRemove;
      Save(modelsChanged, works);
      if !works {
        return false, autoAdded, false;
      }
      if modelsChanged && !refreshed {
        return true, autoAdded, false;
      }
      ok := true;
    }

    method ApplyUpdates(addInput: seq<string>, ignoreInput: seq<string>, removeInput: seq<string>, now: int, works: bool, refreshed: bool)
      returns (added: seq<string>, dropped: seq<string>, remaining: seq<string>, remainingRemove: seq<string>,
               modelsChanged: bool, ok: bool)
      requires Loaded()
      modifies this
      ensures var r := Apply(old(stored), addInput, ignoreInput, removeInput, now);
              && stored == (if works then r.row else old(stored))
              && (works ==> Loaded() && added == r.added && dropped == r.dropped && remaining == r.remaining
                            && remainingRemove == r.remainingRemove && modelsChanged == r.changed)
              && (!works ==> added == dropped == remaining == remainingRemove == [] && !modelsChanged)
              && ok == (works && (modelsChanged ==> refreshed))
    {
      ghost var r := Apply(stored, addInput, ignoreInput, removeInput, now);
      var pendingAdd := Normalize(detected);
      var pendingRemove := Normalize(removed);
      var add := Intersect(addInput, pendingAdd);
      var ignore := Intersect(ignoreInput, pendingAdd);
      var remove := Subtract(Intersect(removeInput, pendingRemove), add);

      var next := NextModels(models, add, remove);
      models, modelsChanged := next.0, next.1;
      ignored := IgnoreModels(ignored, add, ignore);
      remaining := Subtract(pendingAdd, add + ignore);
      remainingRemove := Subtract(pendingRemove, remove);
      detected, removed, lastCheck := remaining, remainingRemove, now;
      assert r.row == Row(models, ignored, detected, removed, lastCheck);
      Save(modelsChanged, works);
      if !works {
        return [], [], [], [], false, false;
      }
      added, dropped := add, remove;
      ok := !modelsChanged || refreshed;
    }
  }

  /** A check runs unless the row was checked too recently. */
  predicate Due(row: Row, now: int, force: bool, minInterval: int) {
    force || !(row.lastCheck > 0 && now - row.lastCheck < minInterval)
  }

  /** The database row after one check, including the early exits and failures. */
  function CheckRow(ctx: Context, row: Row, fetched: Option<seq<string>>, now: int, force: bool, minInterval: int,
                    autoApply: bool, works: bool): Row
  {
    if !works || !Due(row, now, force, minInterval) then row
    else match fetched
      case None => row.(lastCheck := now)
      case Some(upstream) => if autoApply then AutoSync(ctx, row, upstream, now).row else Detect(ctx, row, upstream, now)
  }
}
