/**
 What reconciliation promises: it converges, its pending lists stay consistent
 over whole runs, and automatic sync is detection followed by applying the additions.
 */
module UpstreamSyncTheorems {
  import opened Basics
  import opened Text
  import opened UpstreamSync

  predicate NoComma(names: set<string>) {
    forall x | x in names :: ',' !in x
  }

  /** Names read from a stored row never contain the separator. */
  lemma LocalHasNoComma(row: Row)
    ensures NoComma(Names(Local(row)))
  {
    if row.models != "" {
      PiecesHaveNoSeparator(Trim(row.models, ','), ',');
    }
    forall m | m in Local(row) ensures ',' !in TrimSpace(m) {
      TrimFacts(m, IsSpace);
    }
  }

  /** A normal list without commas survives being stored as text. */
  lemma StoredModels(l: seq<string>)
    requires Normal(l) && NoComma(Elems(l))
    ensures Normalize(ReadList(Join(l, ','), ',')) == l && Names(ReadList(Join(l, ','), ',')) == Elems(l)
  {
    forall x | x in l ensures x != "" && ',' !in x {
      assert x in Elems(l);
    }
    ReadOfJoin(l, ',');
    NormalizeFacts(l);
  }

  lemma NormalNames(l: seq<string>)
    requires Normal(l)
    ensures Names(l) == Elems(l) && Normalize(l) == l
  {
    NormalizeFacts(l);
  }

  /** Each apply in terms of sets: the selection is confined to what is pending,
      and the pending lists lose exactly what was selected. */
  lemma ApplySelections(row: Row, add: seq<string>, ignore: seq<string>, remove: seq<string>, now: int)
    ensures var r := Apply(row, add, ignore, remove, now);
            && Names(r.added) == Names(add) * Names(row.detected)
            && Names(r.ignored) == Names(ignore) * Names(row.detected)
            && Names(r.dropped) == Names(remove) * Names(row.removed) - Names(r.added)
            && Normal(r.added) && Normal(r.ignored) && Normal(r.dropped)
  {
    var r := Apply(row, add, ignore, remove, now);
    NamesOfResults(row.detected, []);
    NamesOfResults(row.removed, []);
    IntersectFacts(add, Normalize(row.detected));
    NormalNames(r.added);
    IntersectFacts(ignore, Normalize(row.detected));
    NormalNames(r.ignored);
    var selected := Intersect(remove, Normalize(row.removed));
    IntersectFacts(remove, Normalize(row.removed));
    NormalNames(selected);
    SubtractFacts(selected, r.added);
    NormalNames(r.dropped);
  }

  /** Additions and removals come in the order in which they were selected. */
  lemma SelectionsInOrder(row: Row, add: seq<string>, ignore: seq<string>, remove: seq<string>, now: int)
    ensures var r := Apply(row, add, ignore, remove, now);
            && r.added == Keep(Normalize(add), Names(row.detected))
            && r.dropped == Keep(Normalize(remove), Names(row.removed) - Names(r.added))
  {
    var r := Apply(row, add, ignore, remove, now);
    var selected := Intersect(remove, Normalize(row.removed));
    NamesOfResults(row.detected, []);
    NamesOfResults(row.removed, []);
    IntersectFacts(remove, Normalize(row.removed));
    NormalNames(selected);
    KeptOfSelected(Normalize(remove), Names(row.removed), Names(r.added), selected);
  }

  /** The ignore list grows at its end and keeps its order. */
  lemma IgnoredInOrder(row: Row, add: seq<string>, ignore: seq<string>, remove: seq<string>, now: int)
    ensures var r := Apply(row, add, ignore, remove, now);
            var all := Normalize(row.ignored + r.ignored);
            r.row.ignored == Keep(all, Elems(all) - Names(r.added))
  {
    var r := Apply(row, add, ignore, remove, now);
    var all := Merge(row.ignored, r.ignored);
    MergeIsNormalize(row.ignored, r.ignored);
    MergeFacts(row.ignored, r.ignored);
    NormalNames(all);
    if r.added == [] {
      KeepElems(all, Elems(all) - Names(r.added));
    }
  }

  lemma KeptOfSelected(l: seq<string>, s: set<string>, gone: set<string>, selected: seq<string>)
    requires selected == Keep(l, s)
    ensures Keep(selected, Elems(selected) - gone) == Keep(l, s - gone)
  {
    KeepElems(l, s);
    KeepTwice(l, s, Elems(selected) - gone);
    KeepSame(l, s * (Elems(selected) - gone), s - gone);
  }

  lemma NamesOfAppend(a: seq<string>, b: seq<string>)
    ensures Names(a + b) == Names(a) + Names(b)
  {
    assert forall m | m in a :: m in a + b;
    assert forall m | m in b :: m in a + b;
    assert forall m | m in a + b :: m in a || m in b;
  }

  lemma SetSplit(all: set<string>, part: set<string>, rest: set<string>)
    requires part <= all && rest == all - part
    ensures rest !! part && all == rest + part
  {
  }

  lemma NamesOfSubtract(base: seq<string>, removed: seq<string>)
    ensures Names(Subtract(Normalize(base), removed)) == Names(base) - Names(removed)
    ensures Normal(Subtract(Normalize(base), removed))
  {
    NamesOfResults(base, []);
    SubtractFacts(Normalize(base), removed);
    NormalNames(Subtract(Normalize(base), removed));
  }

  /** The pending additions split exactly into what was added or ignored and what remains. */
  lemma ApplySplitsPendingAdds(row: Row, add: seq<string>, ignore: seq<string>, remove: seq<string>, now: int)
    ensures var r := Apply(row, add, ignore, remove, now);
            && Names(r.row.detected) !! Names(r.added) + Names(r.ignored)
            && Names(row.detected) == Names(r.row.detected) + (Names(r.added) + Names(r.ignored))
            && Normal(r.row.detected) && r.remaining == r.row.detected
  {
    var r := Apply(row, add, ignore, remove, now);
    ApplySelections(row, add, ignore, remove, now);
    NamesOfAppend(r.added, r.ignored);
    NamesOfSubtract(row.detected, r.added + r.ignored);
    SetSplit(Names(row.detected), Names(r.added) + Names(r.ignored), Names(r.row.detected));
  }

  lemma ApplySplitsPendingRemoves(row: Row, add: seq<string>, ignore: seq<string>, remove: seq<string>, now: int)
    ensures var r := Apply(row, add, ignore, remove, now);
            && Names(r.row.removed) !! Names(r.dropped)
            && Names(row.removed) == Names(r.row.removed) + Names(r.dropped)
            && Normal(r.row.removed) && r.remainingRemove == r.row.removed
  {
    var r := Apply(row, add, ignore, remove, now);
    ApplySelections(row, add, ignore, remove, now);
    NamesOfSubtract(row.removed, r.dropped);
    SetSplit(Names(row.removed), Names(r.dropped), Names(r.row.removed));
  }

  lemma ApplyIgnored(row: Row, add: seq<string>, ignore: seq<string>, remove: seq<string>, now: int)
    ensures var r := Apply(row, add, ignore, remove, now);
            && Normal(r.row.ignored)
            && Names(r.row.ignored) == Names(row.ignored) + Names(r.ignored) - Names(r.added)
  {
    var r := Apply(row, add, ignore, remove, now);
    MergeFacts(row.ignored, r.ignored);
    NormalNames(Merge(row.ignored, r.ignored));
    SubtractFacts(Merge(row.ignored, r.ignored), r.added);
    NormalNames(r.row.ignored);
  }

  /** An apply keeps every ignore entry exactly when it adds none of them as a model. */
  lemma IgnoresKeptIff(row: Row, add: seq<string>, ignore: seq<string>, remove: seq<string>, now: int)
    ensures Names(row.ignored) <= Names(Apply(row, add, ignore, remove, now).row.ignored)
            <==> Names(add) * Names(row.detected) !! Names(row.ignored)
  {
    ApplyIgnored(row, add, ignore, remove, now);
    ApplySelections(row, add, ignore, remove, now);
    KeptIff(Names(row.ignored), Names(Apply(row, add, ignore, remove, now).ignored), Names(add) * Names(row.detected));
  }

  lemma KeptIff(had: set<string>, more: set<string>, gone: set<string>)
    ensures had <= had + more - gone <==> gone !! had
  {
  }

  /** The model list after an apply whose additions can be stored. */
  lemma ApplyModels(row: Row, add: seq<string>, ignore: seq<string>, remove: seq<string>, now: int)
    requires NoComma(Names(Apply(row, add, ignore, remove, now).added))
    ensures var r := Apply(row, add, ignore, remove, now);
            && Normalize(Local(r.row)) == ApplySelected(Normalize(Local(row)), r.added, r.dropped)
            && Names(Local(r.row)) == Names(Local(row)) - Names(r.dropped) + Names(r.added)
  {
    var r := Apply(row, add, ignore, remove, now);
    var origin := Normalize(Local(row));
    var next := ApplySelected(origin, r.added, r.dropped);
    ApplySelections(row, add, ignore, remove, now);
    NamesOfResults(Local(row), []);
    ApplySelectedFacts(origin, r.added, r.dropped);
    LocalHasNoComma(row);
    if origin != next {
      StoredModels(next);
    } else {
      NormalizeFacts(Local(row));
    }
  }

  // ------------------------------------------------------------- convergence

  /** An upstream name that is ignored now, but only by entries that are
      themselves about to be added as models (and so leave the ignore list). */
  predicate Stranded(ctx: Context, row: Row, upstream: seq<string>, x: string) {
    && x in Names(upstream) && x !in Names(Local(row)) && x !in ctx.mapping.Values
    && IsIgnored(row.ignored, x, ctx.re)
    && forall entry | entry in Names(row.ignored) && Ignores(entry, x, ctx.re) ::
         entry in Addable(ctx, Local(row), upstream, row.ignored)
  }

  /** Detect, apply everything pending, and detect again against the same upstream. */
  function AppliedAll(ctx: Context, row: Row, upstream: seq<string>, t1: int, t2: int): Applied {
    var r1 := Detect(ctx, row, upstream, t1);
    Apply(r1, r1.detected, [], r1.removed, t2)
  }

  lemma DetectNames(ctx: Context, row: Row, upstream: seq<string>, now: int)
    ensures var r := Detect(ctx, row, upstream, now);
            && Names(r.detected) == Addable(ctx, Local(row), upstream, row.ignored)
            && Names(r.removed) == Removable(ctx, Local(row), upstream)
            && Normal(r.detected) && Normal(r.removed)
  {
    PendingFacts(ctx, Local(row), upstream, row.ignored);
    NormalNames(Detect(ctx, row, upstream, now).detected);
    NormalNames(Detect(ctx, row, upstream, now).removed);
  }

  /** Applying everything pending, in terms of sets. */
  lemma ApplyPending(row: Row, now: int)
    requires Names(row.detected) !! Names(row.removed)
    ensures var r := Apply(row, row.detected, [], row.removed, now);
            && Names(r.added) == Names(row.detected)
            && Names(r.dropped) == Names(row.removed)
            && Names(r.row.ignored) == Names(row.ignored) - Names(row.detected)
            && (NoComma(Names(row.detected)) ==>
                  Names(Local(r.row)) == Names(Local(row)) - Names(row.removed) + Names(row.detected))
  {
    ApplySelections(row, row.detected, [], row.removed, now);
    ApplyIgnored(row, row.detected, [], row.removed, now);
    if NoComma(Names(row.detected)) {
      ApplyModels(row, row.detected, [], row.removed, now);
    }
  }

  lemma AppliedAllFacts(ctx: Context, row: Row, upstream: seq<string>, t1: int, t2: int)
    ensures var r := AppliedAll(ctx, row, upstream, t1, t2).row;
            var add := Addable(ctx, Local(row), upstream, row.ignored);
            && Names(r.ignored) == Names(row.ignored) - add
            && (NoComma(add) ==> Names(Local(r)) == Names(Local(row)) - Removable(ctx, Local(row), upstream) + add)
  {
    DetectNames(ctx, row, upstream, t1);
    ApplyPending(Detect(ctx, row, upstream, t1), t2);
  }

  /** Upstream sync converges exactly when every pending addition can be stored
      (it has no comma) and no ignored name is stranded. */
  lemma SyncConvergesIff(ctx: Context, row: Row, upstream: seq<string>, t1: int, t2: int, t3: int)
    ensures var again := Detect(ctx, AppliedAll(ctx, row, upstream, t1, t2).row, upstream, t3);
            again.detected == [] && again.removed == []
            <==>
            && NoComma(Addable(ctx, Local(row), upstream, row.ignored))
            && forall x | x in Names(upstream) :: !Stranded(ctx, row, upstream, x)
  {
    var add := Addable(ctx, Local(row), upstream, row.ignored);
    var r := AppliedAll(ctx, row, upstream, t1, t2).row;
    var again := Detect(ctx, r, upstream, t3);
    AppliedAllFacts(ctx, row, upstream, t1, t2);
    PendingFacts(ctx, Local(r), upstream, r.ignored);
    assert again.detected == [] <==> Addable(ctx, Local(r), upstream, r.ignored) == {} by { EmptyByElems(again.detected); }
    assert again.removed == [] <==> Removable(ctx, Local(r), upstream) == {} by { EmptyByElems(again.removed); }
    if NoComma(add) {
      assert Removable(ctx, Local(r), upstream) == {};
      forall x | x in Names(upstream)
        ensures x in Addable(ctx, Local(r), upstream, r.ignored) <==> Stranded(ctx, row, upstream, x)
      {
        AddableAgain(ctx, row, r, upstream, x);
      }
    } else {
      var x :| x in add && ',' in x;
      LocalHasNoComma(r);
      assert x in Addable(ctx, Local(r), upstream, r.ignored);
    }
  }

  lemma EmptyByElems(l: seq<string>)
    ensures l == [] <==> Elems(l) == {}
  {
    if l != [] {
      assert l[0] in Elems(l);
    }
  }

  lemma AddableAgain(ctx: Context, row: Row, r: Row, upstream: seq<string>, x: string)
    requires var add := Addable(ctx, Local(row), upstream, row.ignored);
             && Names(r.ignored) == Names(row.ignored) - add
             && Names(Local(r)) == Names(Local(row)) - Removable(ctx, Local(row), upstream) + add
    requires x in Names(upstream)
    ensures x in Addable(ctx, Local(r), upstream, r.ignored) <==> Stranded(ctx, row, upstream, x)
  {
  }

  /** The intended setting: upstream names are comma-free and are not patterns. */
  lemma SyncConverges(ctx: Context, row: Row, upstream: seq<string>, t1: int, t2: int, t3: int)
    requires NoComma(Names(upstream))
    requires forall x | x in Names(upstream) :: !IsPattern(x)
    ensures var again := Detect(ctx, AppliedAll(ctx, row, upstream, t1, t2).row, upstream, t3);
            again.detected == [] && again.removed == []
  {
    SyncConvergesIff(ctx, row, upstream, t1, t2, t3);
    forall x | x in Names(upstream) ensures !Stranded(ctx, row, upstream, x) {
      if IsIgnored(row.ignored, x, ctx.re) {
        var entry :| entry in Names(row.ignored) && Ignores(entry, x, ctx.re);
        assert entry !in Addable(ctx, Local(row), upstream, row.ignored);
      }
    }
  }

  /** A pending addition with a comma never settles: it is stored as two names. */
  lemma CommaNeverSettles(re: Regex, t1: int, t2: int, t3: int)
    ensures var ctx := Context(map[], re);
            var row := Row("", [], [], [], 0);
            Detect(ctx, AppliedAll(ctx, row, ["a,b"], t1, t2).row, ["a,b"], t3).detected != []
  {
    var ctx := Context(map[], re);
    var row := Row("", [], [], [], 0);
    var r := AppliedAll(ctx, row, ["a,b"], t1, t2).row;
    TrimFacts("a,b", IsSpace);
    assert "a,b"[1] == ',';
    assert "a,b" in Names(["a,b"]);
    assert "a,b" in Addable(ctx, Local(row), ["a,b"], row.ignored);
    AppliedAllFacts(ctx, row, ["a,b"], t1, t2);
    LocalHasNoComma(r);
    assert "a,b" in Addable(ctx, Local(r), ["a,b"], r.ignored);
    DetectNames(ctx, r, ["a,b"], t3);
  }

  /** Likewise an upstream name `p` that is itself an ignore pattern: adding it
      drops the pattern, and a name only `p` ignored turns up as pending. */
  lemma PatternNameNeverSettles(p: string, x: string, re: Regex, t1: int, t2: int, t3: int)
    requires IsName(p) && IsPattern(p) && IsName(x) && x != p
    requires Ignores(p, x, re) && !Ignores(p, p, re)
    ensures var ctx := Context(map[], re);
            var row := Row("", [p], [], [], 0);
            var again := Detect(ctx, AppliedAll(ctx, row, [x, p], t1, t2).row, [x, p], t3);
            !(again.detected == [] && again.removed == [])
  {
    var ctx := Context(map[], re);
    var row := Row("", [p], [], [], 0);
    NamesOfTwo(x, p);
    assert Stranded(ctx, row, [x, p], x) by {
      assert Names(Local(row)) == {};
      assert p in Addable(ctx, Local(row), [x, p], [p]);
    }
    SyncConvergesIff(ctx, row, [x, p], t1, t2, t3);
  }

  /** And so the ignore list can lose an entry: a pattern that upstream offers as a name. */
  lemma AddedPatternIsForgotten(p: string, re: Regex, t1: int, t2: int)
    requires IsName(p) && IsPattern(p) && !Ignores(p, p, re)
    ensures var row := Row("", [p], [], [], 0);
            p in Names(row.ignored) && p !in Names(AppliedAll(Context(map[], re), row, [p], t1, t2).row.ignored)
  {
    var ctx, row := Context(map[], re), Row("", [p], [], [], 0);
    NamesOfOne(p);
    PatternIsOffered(ctx, row, p);
    AppliedAllFacts(ctx, row, [p], t1, t2);
  }

  lemma PatternIsOffered(ctx: Context, row: Row, p: string)
    requires Names(row.ignored) == {p} == Names([p]) && row.models == "" && ctx.mapping == map[] && !Ignores(p, p, ctx.re)
    ensures p in Addable(ctx, Local(row), [p], row.ignored)
  {
    assert Names(Local(row)) == {};
  }

  lemma NamesOfTwo(x: string, y: string)
    requires IsName(x) && IsName(y)
    ensures Names([x]) == {x} && Names([y]) == {y} && Names([x, y]) == {x, y}
  {
    NamesOfOne(x);
    NamesOfOne(y);
    assert [x, y] == [x] + [y];
    NamesOfAppend([x], [y]);
  }

  lemma NamesOfOne(x: string)
    requires IsName(x)
    ensures Names([x]) == {x}
  {
    TrimFacts(x, IsSpace);
    assert TrimSpace(x) == x && x in [x];
    assert x in Names([x]);
    assert forall m | m in [x] :: m == x;
  }

  // ------------------------------------------- automatic sync and plain detection

  lemma MergeOfFresh(origin: seq<string>, add: seq<string>)
    requires Normal(origin) && Normal(add) && Elems(origin) !! Elems(add)
    ensures Merge(origin, add) == origin + add
  {
    NormalNames(origin);
    NormalNames(add);
    KeepFacts(add, Names(add) - Names(origin));
  }

  /** Adding fresh names through a selection or by a plain merge stores the same text. */
  lemma SelectingIsMerging(models: string, add: seq<string>)
    requires Normal(add) && Elems(add) !! Names(ReadList(models, ','))
    ensures var origin := Normalize(ReadList(models, ','));
            && Merge(origin, add) == origin + add
            && NextModels(models, add, []) == if add == [] then (models, false) else (Join(origin + add, ','), true)
  {
    var origin := Normalize(ReadList(models, ','));
    NormalizeFacts(ReadList(models, ','));
    NormalNames(add);
    MergeOfFresh(origin, add);
    ApplySelectedFacts(origin, add, []);
    assert |origin + add| == |origin| + |add|;
  }

  /** Selecting every pending addition and nothing else. */
  lemma SelectAllAdds(row: Row, now: int)
    requires Normal(row.detected) && Normal(row.removed)
    ensures var r := Apply(row, row.detected, [], [], now);
            && r.added == row.detected && r.dropped == [] && r.ignored == []
            && r.row.detected == [] && r.row.removed == row.removed
            && r.row.lastCheck == now
  {
    var r := Apply(row, row.detected, [], [], now);
    NormalNames(row.detected);
    NormalNames(row.removed);
    IntersectFacts(row.detected, row.detected);
    ApplySelections(row, row.detected, [], [], now);
    NormalNames(r.ignored);
    EmptyByElems(r.ignored);
    NormalNames(r.dropped);
    EmptyByElems(r.dropped);
    ApplySplitsPendingAdds(row, row.detected, [], [], now);
    NormalNames(r.row.detected);
    EmptyByElems(r.row.detected);
    SubtractFacts(row.removed, r.dropped);
  }

  /** Automatic sync does what detection followed by applying all additions does:
      same model text, same pending lists, and `added` counts the pending additions.
      The ignore lists agree exactly when no addition is also an ignore entry. */
  lemma AutoSyncCommutes(ctx: Context, row: Row, upstream: seq<string>, now: int)
    ensures var auto := AutoSync(ctx, row, upstream, now);
            var plain := Detect(ctx, row, upstream, now);
            var applied := Apply(plain, plain.detected, [], [], now);
            && auto.row.models == applied.row.models && auto.changed == applied.changed
            && auto.row.detected == applied.row.detected == []
            && auto.row.removed == applied.row.removed
            && auto.row.lastCheck == applied.row.lastCheck
            && auto.added == |plain.detected|
            && (Names(auto.row.ignored) == Names(applied.row.ignored)
                <==> Addable(ctx, Local(row), upstream, row.ignored) !! Names(row.ignored))
  {
    var plain := Detect(ctx, row, upstream, now);
    DetectNames(ctx, row, upstream, now);
    NormalNames(plain.detected);
    SelectAllAdds(plain, now);
    SelectingIsMerging(row.models, plain.detected);
    ApplyIgnored(plain, plain.detected, [], [], now);
  }

  /** With upstream names that are not patterns, automatic sync loses no ignore entry. */
  lemma AutoSyncKeepsIgnored(ctx: Context, row: Row, upstream: seq<string>, now: int)
    requires forall x | x in Names(upstream) :: !IsPattern(x)
    ensures var plain := Detect(ctx, row, upstream, now);
            Names(AutoSync(ctx, row, upstream, now).row.ignored)
            == Names(Apply(plain, plain.detected, [], [], now).row.ignored)
  {
    AutoSyncCommutes(ctx, row, upstream, now);
    forall x | x in Addable(ctx, Local(row), upstream, row.ignored) ensures x !in Names(row.ignored) {
      assert x in Names(row.ignored) ==> Ignores(x, x, ctx.re);
    }
  }

  // ------------------------------------------------------- runs of many steps

  /** A check by the background task or an operator, or an operator's selection.
      `works` is whether the database accepted the write. */
  datatype Step =
    | Check(fetched: Option<seq<string>>, now: int, force: bool, minInterval: int, autoApply: bool, works: bool)
    | Select(add: seq<string>, ignore: seq<string>, remove: seq<string>, now: int, works: bool)

  function StepRow(ctx: Context, row: Row, step: Step): Row {
    match step
    case Check(fetched, now, force, minInterval, autoApply, works) =>
      CheckRow(ctx, row, fetched, now, force, minInterval, autoApply, works)
    case Select(add, ignore, remove, now, works) =>
      if works then Apply(row, add, ignore, remove, now).row else row
  }

  function RunRow(ctx: Context, row: Row, steps: seq<Step>): Row
    decreases |steps|
  {
    if steps == [] then row else RunRow(ctx, StepRow(ctx, row, steps[0]), steps[1..])
  }

  function Fetched(step: Step): set<string> {
    if step.Check? && step.fetched.Some? then Names(step.fetched.value) else {}
  }

  /** A check is skipped, leaving the row alone, exactly when it is not forced and the last
      one is known and too recent; otherwise its time is recorded, and a failed fetch changes
      nothing else. */
  lemma CheckIsSkippedIff(ctx: Context, row: Row, fetched: Option<seq<string>>, now: int, force: bool, minInterval: int,
                          autoApply: bool)
    requires row.lastCheck != now
    ensures var r := CheckRow(ctx, row, fetched, now, force, minInterval, autoApply, true);
            && (r == row <==> !force && row.lastCheck > 0 && now < row.lastCheck + minInterval)
            && (r != row ==> r.lastCheck == now)
            && (fetched.None? ==> r.(lastCheck := row.lastCheck) == row)
    ensures CheckRow(ctx, row, fetched, now, force, minInterval, autoApply, false) == row
  {
  }

  // ---- what commas in names do to a stored list

  /** The names that `names` are read back as once they have been stored. */
  function Parts(names: set<string>): set<string> {
    set x, p | x in names && p in Split(x, ',') && TrimSpace(p) != "" :: TrimSpace(p)
  }

  lemma PartsOfOne(x: string)
    ensures Parts({x}) == Names(Split(x, ','))
  {
  }

  lemma PartsOfUnion(a: set<string>, b: set<string>)
    ensures Parts(a + b) == Parts(a) + Parts(b)
  {
  }

  lemma PartsOfPlain(names: set<string>)
    requires NoComma(names) && forall x | x in names :: IsName(x)
    ensures Parts(names) == names
  {
    forall x | x in names ensures Split(x, ',') == [x] && TrimSpace(x) == x && x in Parts(names) {
      SplitPrefix(x, "", ',');
      TrimFacts(x, IsSpace);
      assert x in Split(x, ',');
    }
  }

  lemma {:induction false} NamesOfJoined(l: seq<string>)
    ensures Names(Split(Join(l, ','), ',')) == Parts(Elems(l))
    decreases l
  {
    if l == [] {
      assert Names([""]) == {} by {
        TrimToNothing("", IsSpace);
      }
    } else if |l| == 1 {
      assert Elems(l) == {l[0]};
      PartsOfOne(l[0]);
    } else {
      NamesOfJoined(l[1..]);
      SplitOfConcat(l[0], Join(l[1..], ','), ',');
      NamesOfAppend(Split(l[0], ','), Split(Join(l[1..], ','), ','));
      PartsOfOne(l[0]);
      PartsOfUnion({l[0]}, Elems(l[1..]));
      assert l == [l[0]] + l[1..];
      ElemsAppend([l[0]], l[1..]);
    }
  }

  lemma BlankName()
    ensures Names([""]) == {}
  {
    TrimToNothing("", IsSpace);
  }

  lemma {:induction false} NamesAfterTrimLeft(s: string)
    ensures Names(Split(TrimLeft(s, c => c == ','), ',')) == Names(Split(s, ','))
    decreases s
  {
    if s != "" && s[0] == ',' {
      NamesAfterTrimLeft(s[1..]);
      NamesOfAppend([""], Split(s[1..], ','));
      BlankName();
    }
  }

  lemma {:induction false} NamesAfterTrimRight(s: string)
    ensures Names(Split(TrimRight(s, c => c == ','), ',')) == Names(Split(s, ','))
    decreases s
  {
    if s != "" && s[|s| - 1] == ',' {
      var front := s[..|s| - 1];
      NamesAfterTrimRight(front);
      assert s == front + [','] + "";
      SplitOfConcat(front, "", ',');
      NamesOfAppend(Split(front, ','), [""]);
      BlankName();
    }
  }

  /** Whatever is stored, its parts are read back. */
  lemma ReadBack(l: seq<string>)
    ensures Names(ReadList(Join(l, ','), ',')) == Parts(Elems(l))
  {
    var s := Join(l, ',');
    NamesOfJoined(l);
    if s == "" {
      BlankName();
    } else {
      NamesAfterTrimLeft(s);
      NamesAfterTrimRight(TrimLeft(s, c => c == ','));
    }
  }

  lemma NamesAreNames(l: seq<string>)
    ensures forall x | x in Names(l) :: IsName(x)
  {
    forall m | m in l ensures TrimSpace(m) != "" ==> IsName(TrimSpace(m)) {
      TrimFacts(m, IsSpace);
    }
  }

  /** The names read back after storing the old ones without `gone` and with `more`. */
  lemma StoredParts(row: Row, next: seq<string>, gone: set<string>, more: set<string>)
    requires Elems(next) == Names(Local(row)) - gone + more
    ensures Names(ReadList(Join(next, ','), ',')) == Names(Local(row)) - gone + Parts(more)
  {
    var kept := Names(Local(row)) - gone;
    ReadBack(next);
    LocalHasNoComma(row);
    NamesAreNames(Local(row));
    PartsOfUnion(kept, more);
    PartsOfPlain(kept);
  }

  /** The model names after any apply, commas or not. */
  lemma ApplyParts(row: Row, add: seq<string>, ignore: seq<string>, remove: seq<string>, now: int)
    ensures var r := Apply(row, add, ignore, remove, now);
            Names(Local(r.row)) == Names(Local(row)) - Names(r.dropped) + Parts(Names(r.added))
  {
    var r := Apply(row, add, ignore, remove, now);
    var origin := Normalize(Local(row));
    var next := ApplySelected(origin, r.added, r.dropped);
    ApplySelections(row, add, ignore, remove, now);
    NamesOfResults(Local(row), []);
    ApplySelectedFacts(origin, r.added, r.dropped);
    assert Elems(next) == Names(Local(row)) - Names(r.dropped) + Names(r.added);
    if origin == next {
      NormalizeFacts(Local(row));
      LocalHasNoComma(row);
      NamesAreNames(Local(row));
      PartsOfPlain(Names(r.added));
    } else {
      StoredParts(row, next, Names(r.dropped), Names(r.added));
    }
  }

  // ---- which models a channel ends up with

  /** An upstream name that detection offers: it is new, no alias points to it, and no
      ignore entry covers it. */
  predicate Offered(ctx: Context, row: Row, upstream: seq<string>, x: string) {
    && x in Names(upstream) && x !in Names(Local(row))
    && (forall alias | alias in ctx.mapping :: ctx.mapping[alias] != x)
    && (forall entry | entry in Names(row.ignored) :: !Ignores(entry, x, ctx.re))
  }

  lemma OfferedIsAddable(ctx: Context, row: Row, upstream: seq<string>, x: string)
    ensures Offered(ctx, row, upstream, x) <==> x in Addable(ctx, Local(row), upstream, row.ignored)
  {
    assert x in ctx.mapping.Values <==> exists alias | alias in ctx.mapping :: ctx.mapping[alias] == x;
  }

  /** The models after a detection and applying all it found: those that upstream still
      lists or that are aliases, and the parts of the names that were offered. */
  lemma ModelsAfterSync(ctx: Context, row: Row, upstream: seq<string>, t1: int, t2: int, x: string)
    ensures x in Names(Local(AppliedAll(ctx, row, upstream, t1, t2).row)) <==>
            || (x in Names(Local(row)) && (x in Names(upstream) || x in ctx.mapping))
            || (exists y | y in Names(upstream) :: Offered(ctx, row, upstream, y) && x in Parts({y}))
  {
    var add := Addable(ctx, Local(row), upstream, row.ignored);
    AppliedAllParts(ctx, row, upstream, t1, t2);
    forall y | y in Names(upstream) ensures Offered(ctx, row, upstream, y) <==> y in add {
      OfferedIsAddable(ctx, row, upstream, y);
    }
    InParts(add, x);
  }

  lemma InParts(names: set<string>, x: string)
    ensures x in Parts(names) <==> exists y | y in names :: x in Parts({y})
  {
  }

  lemma AppliedAllParts(ctx: Context, row: Row, upstream: seq<string>, t1: int, t2: int)
    ensures Names(Local(AppliedAll(ctx, row, upstream, t1, t2).row))
            == Names(Local(row)) - Removable(ctx, Local(row), upstream) + Parts(Addable(ctx, Local(row), upstream, row.ignored))
  {
    var r := Detect(ctx, row, upstream, t1);
    DetectNames(ctx, row, upstream, t1);
    ApplyPending(r, t2);
    ApplyParts(r, r.detected, [], r.removed, t2);
  }

  /** A check that reads the upstream list: without automatic sync the models stay and what is
      offered becomes pending; with it nothing is pending and the offered names are models. */
  lemma CheckDetectsOrAdds(ctx: Context, row: Row, upstream: seq<string>, now: int, force: bool, minInterval: int, autoApply: bool)
    requires force || row.lastCheck <= 0 || now - row.lastCheck >= minInterval
    ensures var r := CheckRow(ctx, row, Some(upstream), now, force, minInterval, autoApply, true);
            && r.ignored == row.ignored && r.lastCheck == now
            && Names(r.removed) == Removable(ctx, Local(row), upstream)
            && (!autoApply ==> r.models == row.models && Names(r.detected) == Addable(ctx, Local(row), upstream, row.ignored))
            && (autoApply ==> r.detected == []
                              && Names(Local(r)) == Names(Local(row)) + Parts(Addable(ctx, Local(row), upstream, row.ignored)))
  {
    DetectNames(ctx, row, upstream, now);
    if autoApply {
      AutoSyncAdds(ctx, row, upstream, now);
    }
  }

  // ---- what every run keeps

  /** No list repeats a name, pending removals are present, and a pending addition is
      ignored at most by being a pattern itself. */
  predicate Orderly(row: Row) {
    && Normal(row.detected) && Normal(row.removed) && Normal(row.ignored)
    && Names(row.removed) <= Names(Local(row))
    && (forall x | x in Names(row.detected) && x in Names(row.ignored) :: IsPattern(x))
  }

  /** Pending additions are new. */
  predicate Fresh(row: Row) {
    Names(row.detected) !! Names(Local(row))
  }

  /** Detection establishes both whatever the pending lists were before. */
  lemma DetectIsFresh(ctx: Context, row: Row, upstream: seq<string>, now: int)
    requires Normal(row.ignored)
    ensures Orderly(Detect(ctx, row, upstream, now)) && Fresh(Detect(ctx, row, upstream, now))
  {
    DetectNames(ctx, row, upstream, now);
    forall x | x in Addable(ctx, Local(row), upstream, row.ignored) && x in Names(row.ignored) ensures IsPattern(x) {
      assert !IsPattern(x) ==> Ignores(x, x, ctx.re);
    }
  }

  lemma AutoSyncAdds(ctx: Context, row: Row, upstream: seq<string>, now: int)
    ensures var auto := AutoSync(ctx, row, upstream, now).row;
            && auto.detected == [] && auto.removed == PendingRemove(ctx, Local(row), upstream)
            && auto.ignored == row.ignored && auto.lastCheck == now
            && Names(Local(auto)) == Names(Local(row)) + Parts(Addable(ctx, Local(row), upstream, row.ignored))
  {
    var plain := Detect(ctx, row, upstream, now);
    DetectNames(ctx, row, upstream, now);
    AutoSyncCommutes(ctx, row, upstream, now);
    SelectAllAdds(plain, now);
    ApplyParts(plain, plain.detected, [], [], now);
    assert Names([]) == {};
  }

  lemma AutoSyncIsFresh(ctx: Context, row: Row, upstream: seq<string>, now: int)
    requires Normal(row.ignored)
    ensures Orderly(AutoSync(ctx, row, upstream, now).row) && Fresh(AutoSync(ctx, row, upstream, now).row)
  {
    DetectIsFresh(ctx, row, upstream, now);
    AutoSyncAdds(ctx, row, upstream, now);
    assert Names([]) == {};
  }

  /** A selection keeps a row orderly, and loses an ignore entry only if it is a pattern that
      was also a pending name.  It keeps pending additions new exactly when none of those
      that remain is a part of a name just added. */
  lemma SelectKeeps(row: Row, add: seq<string>, ignore: seq<string>, remove: seq<string>, now: int)
    requires Orderly(row)
    ensures var r := Apply(row, add, ignore, remove, now);
            && Orderly(r.row) && Names(r.row.detected) <= Names(row.detected)
            && (forall x | x in Names(row.ignored) && x !in Names(r.row.ignored) :: IsPattern(x) && x in Names(row.detected))
            && (Fresh(row) ==> (Fresh(r.row) <==> Parts(Names(r.added)) !! Names(r.row.detected)))
  {
    ApplySelections(row, add, ignore, remove, now);
    ApplySplitsPendingAdds(row, add, ignore, remove, now);
    ApplySplitsPendingRemoves(row, add, ignore, remove, now);
    ApplyIgnored(row, add, ignore, remove, now);
    ApplyParts(row, add, ignore, remove, now);
  }

  /** A step after which the pending additions are still new. */
  predicate Harmless(row: Row, step: Step) {
    step.Select? && step.works ==>
      var r := Apply(row, step.add, step.ignore, step.remove, step.now);
      Parts(Names(r.added)) !! Names(r.row.detected)
  }

  lemma StepKeeps(ctx: Context, row: Row, step: Step)
    requires Orderly(row)
    ensures Orderly(StepRow(ctx, row, step))
    ensures forall x | x in Names(row.ignored) && x !in Names(StepRow(ctx, row, step).ignored) ::
              IsPattern(x) && x in Names(row.detected)
    ensures Names(StepRow(ctx, row, step).detected) <= Names(row.detected) + Fetched(step)
    ensures Fresh(row) ==> (Fresh(StepRow(ctx, row, step)) <==> Harmless(row, step))
  {
    match step
    case Check(fetched, now, force, minInterval, autoApply, works) =>
      if works && Due(row, now, force, minInterval) && fetched.Some? {
        DetectIsFresh(ctx, row, fetched.value, now);
        DetectNames(ctx, row, fetched.value, now);
        AutoSyncIsFresh(ctx, row, fetched.value, now);
        AutoSyncCommutes(ctx, row, fetched.value, now);
      }
    case Select(add, ignore, remove, now, works) =>
      SelectKeeps(row, add, ignore, remove, now);
  }

  /** Over every run, whatever upstream offers, an orderly row stays orderly and no
      exact-name ignore entry is lost. */
  lemma {:induction false} RunStaysOrderly(ctx: Context, row: Row, steps: seq<Step>)
    requires Orderly(row)
    ensures Orderly(RunRow(ctx, row, steps))
    ensures forall x | x in Names(row.ignored) :: IsPattern(x) || x in Names(RunRow(ctx, row, steps).ignored)
    decreases |steps|
  {
    if steps != [] {
      StepKeeps(ctx, row, steps[0]);
      RunStaysOrderly(ctx, StepRow(ctx, row, steps[0]), steps[1..]);
    }
  }

  predicate AlwaysFresh(ctx: Context, row: Row, steps: seq<Step>)
    decreases |steps|
  {
    Fresh(row) && (steps != [] ==> AlwaysFresh(ctx, StepRow(ctx, row, steps[0]), steps[1..]))
  }

  predicate AllHarmless(ctx: Context, row: Row, steps: seq<Step>)
    decreases |steps|
  {
    steps != [] ==> Harmless(row, steps[0]) && AllHarmless(ctx, StepRow(ctx, row, steps[0]), steps[1..])
  }

  /** Pending additions stay new all along a run exactly when every selection is harmless. */
  lemma {:induction false} RunStaysFreshIff(ctx: Context, row: Row, steps: seq<Step>)
    requires Orderly(row) && Fresh(row)
    ensures AlwaysFresh(ctx, row, steps) <==> AllHarmless(ctx, row, steps)
    decreases |steps|
  {
    if steps != [] {
      StepKeeps(ctx, row, steps[0]);
      if Harmless(row, steps[0]) {
        RunStaysFreshIff(ctx, StepRow(ctx, row, steps[0]), steps[1..]);
      }
    }
  }

  lemma CommaFreeIsHarmless(row: Row, step: Step)
    requires NoComma(Names(row.detected))
    ensures Harmless(row, step)
  {
    if step.Select? && step.works {
      var r := Apply(row, step.add, step.ignore, step.remove, step.now);
      ApplySelections(row, step.add, step.ignore, step.remove, step.now);
      ApplySplitsPendingAdds(row, step.add, step.ignore, step.remove, step.now);
      NamesAreNames(r.added);
      PartsOfPlain(Names(r.added));
    }
  }

  /** So over every run whose fetched names are free of commas the row stays consistent. */
  lemma {:induction false} RunStaysConsistent(ctx: Context, row: Row, steps: seq<Step>)
    requires Orderly(row) && Fresh(row) && NoComma(Names(row.detected))
    requires forall i | 0 <= i < |steps| :: NoComma(Fetched(steps[i]))
    ensures Orderly(RunRow(ctx, row, steps)) && Fresh(RunRow(ctx, row, steps)) && AlwaysFresh(ctx, row, steps)
    decreases |steps|
  {
    if steps != [] {
      CommaFreeIsHarmless(row, steps[0]);
      StepKeeps(ctx, row, steps[0]);
      RunStaysConsistent(ctx, StepRow(ctx, row, steps[0]), steps[1..]);
    }
  }

  /** A selection that is not: adding a name while a part of it is pending makes that part
      a model that is still pending. */
  lemma PartCollides(row: Row, x: string, y: string, now: int)
    requires Orderly(row) && Fresh(row) && {x, y} <= Names(row.detected) && x != y && Names([x]) == {x} && y in Parts({x})
    ensures !Fresh(Apply(row, [x], [], [], now).row)
  {
    ApplySelections(row, [x], [], [], now);
    ApplySplitsPendingAdds(row, [x], [], [], now);
    SelectKeeps(row, [x], [], [], now);
    assert Names([]) == {};
    assert {x} * Names(row.detected) == {x};
  }

  lemma NothingYet(row: Row)
    requires row.models == "" && row.removed == [] && row.ignored == [] && Normal(row.detected)
    ensures Orderly(row) && Fresh(row)
  {
  }

  lemma PartOfPair()
    ensures Parts({"a,b"}) == {"a", "b"}
  {
    assert ["a", "b"][1..] == ["b"];
    assert Join(["a", "b"], ',') == "a,b";
    SplitOfJoin(["a", "b"], ',');
    PartsOfOne("a,b");
    NamesOfTwo("a", "b");
  }

  lemma CommaCollides(now: int)
    ensures var row := Row("", [], ["a,b", "a"], [], 0);
            Orderly(row) && Fresh(row) && !Fresh(Apply(row, ["a,b"], [], [], now).row)
  {
    var row := Row("", [], ["a,b", "a"], [], 0);
    PartOfPair();
    NamesOfTwo("a,b", "a");
    NothingYet(row);
    PartCollides(row, "a,b", "a", now);
  }

  /** When upstream names are never patterns, the whole ignore list only grows. */
  lemma {:induction false} RunOnlyIgnoresMore(ctx: Context, row: Row, steps: seq<Step>)
    requires Orderly(row)
    requires forall x | x in Names(row.detected) :: !IsPattern(x)
    requires forall i, x | 0 <= i < |steps| && x in Fetched(steps[i]) :: !IsPattern(x)
    ensures Names(row.ignored) <= Names(RunRow(ctx, row, steps).ignored)
    decreases |steps|
  {
    if steps != [] {
      StepKeeps(ctx, row, steps[0]);
      assert forall x | x in Fetched(steps[0]) :: !IsPattern(x);
      RunOnlyIgnoresMore(ctx, StepRow(ctx, row, steps[0]), steps[1..]);
    }
  }
}
