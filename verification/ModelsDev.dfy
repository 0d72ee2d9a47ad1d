/**
 Selecting one price per model from the models.dev table, where many providers
 list the same model.  The policy is "cheapest non-zero input price", decided by a
 fold that compares prices up to an epsilon and so is sensitive to order.
 Prices are reals.
 */
module ModelsDev {
  import opened Basics

  const EPSILON := 0.000000001

  datatype Cost = Cost(input: Option<real>, output: Option<real>, cacheRead: Option<real>)

  datatype Candidate = Candidate(provider: string, input: real, output: Option<real>, cacheRead: Option<real>)

  /** Provider, then model, then price. */
  type Table = map<string, map<string, Cost>>

  predicate NearlyEqual(a: real, b: real) {
    if a > b then a - b < EPSILON else b - a < EPSILON
  }

  predicate Negative(price: Option<real>) {
    price.Some? && price.value < 0.0
  }

  /** A price is usable with a non-negative input price, no negative output price, and
      no output price on top of a free input. */
  function BuildCandidate(provider: string, cost: Cost): Option<Candidate> {
    if cost.input.None? || Negative(cost.input) || Negative(cost.output) then None
    else if cost.input.value == 0.0 && cost.output.Some? && cost.output.value > 0.0 then None
    else Some(Candidate(provider, cost.input.value, cost.output, if Negative(cost.cacheRead) then None else cost.cacheRead))
  }

  /** What becomes of a price: it is usable if and only if the local ratios can express it,
      and then nothing is lost but a negative cache price. */
  lemma CandidateIff(provider: string, cost: Cost)
    ensures BuildCandidate(provider, cost).Some? <==>
            && cost.input.Some? && cost.input.value >= 0.0
            && (cost.output.Some? ==> cost.output.value >= 0.0 && (cost.output.value > 0.0 ==> cost.input.value > 0.0))
    ensures forall c | BuildCandidate(provider, cost) == Some(c) ::
              && c.provider == provider && Some(c.input) == cost.input && c.output == cost.output
              && (c.cacheRead == cost.cacheRead <==> !Negative(cost.cacheRead)) && !Negative(c.cacheRead)
  {
  }

  /** Byte order of strings. */
  predicate Less(a: string, b: string) {
    b != "" && (a == "" || a[0] < b[0] || (a[0] == b[0] && Less(a[1..], b[1..])))
  }

  predicate ShouldReplace(current: Candidate, next: Candidate) {
    if (current.input > 0.0) != (next.input > 0.0) then next.input > 0.0
    else if next.input > 0.0 && !NearlyEqual(next.input, current.input) then next.input < current.input
    else Less(next.provider, current.provider)
  }

  /** When an offer replaces another, whichever was met first: a paid one replaces a free one,
      and a cheaper paid one a dearer, by at least epsilon; otherwise the first provider wins. */
  lemma ReplacesIff(current: Candidate, next: Candidate)
    requires current.input >= 0.0 && next.input >= 0.0
    ensures ShouldReplace(current, next) <==>
            || (current.input == 0.0 && next.input > 0.0)
            || (next.input > 0.0 && current.input - next.input >= EPSILON)
            || ((current.input == 0.0 <==> next.input == 0.0) && current.input - EPSILON < next.input < current.input + EPSILON
                && Less(next.provider, current.provider))
  {
  }

  /** The fold over candidates in the order they are met. */
  function Select(candidates: seq<Candidate>): Candidate
    requires candidates != []
  {
    var last := candidates[|candidates| - 1];
    if |candidates| == 1 then last
    else
      var current := Select(candidates[..|candidates| - 1]);
      if ShouldReplace(current, last) then last else current
  }

  /** The usable candidates for a model, provider by provider. */
  function CandidatesFor(table: Table, order: seq<string>, model: string): seq<Candidate>
    requires forall p | p in order :: p in table
  {
    if order == [] then []
    else
      var front, p := order[..|order| - 1], order[|order| - 1];
      CandidatesFor(table, front, model) + Offer(table, p, model)
  }

  function Offer(table: Table, p: string, model: string): seq<Candidate>
    requires p in table
  {
    if model !in table[p] then []
    else match BuildCandidate(p, table[p][model]) case None => [] case Some(c) => [c]
  }

  // ------------------------------------------------------------------ sorting

  predicate Ascending(l: seq<string>) {
    forall i, j | 0 <= i < j < |l| :: Less(l[i], l[j])
  }

  lemma {:induction false} LessIsTotal(a: string, b: string)
    ensures a == b || Less(a, b) || Less(b, a)
    ensures !(Less(a, b) && Less(b, a)) && !Less(a, a)
    decreases a
  {
    if a != "" {
      LessIsTotal(a[1..], a[1..]);
      if b != "" {
        LessIsTotal(a[1..], b[1..]);
        assert a == [a[0]] + a[1..] && b == [b[0]] + b[1..];
      }
    }
  }

  lemma {:induction false} LessIsTransitive(a: string, b: string, c: string)
    requires Less(a, b) && Less(b, c)
    ensures Less(a, c)
    decreases a
  {
    if a != "" && a[0] == b[0] == c[0] {
      LessIsTransitive(a[1..], b[1..], c[1..]);
    }
  }

  method Least(keys: set<string>) returns (least: string)
    requires keys != {}
    ensures least in keys && forall k | k in keys && k != least :: Less(least, k)
  {
    least :| least in keys;
    var todo := keys - {least};
    while todo != {}
      invariant todo <= keys && least in keys && least !in todo
      invariant forall k | k in keys && k !in todo && k != least :: Less(least, k)
      decreases |todo|
    {
      var k :| k in todo;
      todo := todo - {k};
      LessIsTotal(k, least);
      if Less(k, least) {
        forall j | j in keys && j !in todo && j != k ensures Less(k, j) {
          if j != least {
            LessIsTransitive(k, least, j);
          }
        }
        least := k;
      }
    }
  }

  /** `sort.Strings` of the keys of a map. */
  method SortedKeys(keys: set<string>) returns (sorted: seq<string>)
    ensures Ascending(sorted) && forall k :: k in sorted <==> k in keys
  {
    sorted := [];
    var rest := keys;
    while rest != {}
      invariant rest <= keys && Ascending(sorted)
      invariant forall k :: k in keys <==> k in sorted || k in rest
      invariant forall i, k | 0 <= i < |sorted| && k in rest :: Less(sorted[i], k)
      decreases |rest|
    {
      var least := Least(rest);
      sorted := sorted + [least];
      rest := rest - {least};
    }
  }

  // ------------------------------------------------------- the selection loop

  /** `selected` holds what the fold over `candidates` gives for `model`. */
  ghost predicate Folded(selected: map<string, Candidate>, model: string, candidates: seq<Candidate>) {
    if candidates == [] then model !in selected else model in selected && selected[model] == Select(candidates)
  }

  method SelectCandidates(table: Table) returns (selected: map<string, Candidate>, providers: seq<string>)
    ensures Ascending(providers) && forall p :: p in providers <==> p in table
    ensures forall model :: Folded(selected, model, CandidatesFor(table, providers, model))
  {
    providers := SortedKeys(table.Keys);
    selected := map[];
    ghost var done: seq<string> := [];
    for i := 0 to |providers|
      invariant done == providers[..i]
      invariant forall model :: Folded(selected, model, CandidatesFor(table, done, model))
    {
      selected := MergeProvider(table, done, providers[i], selected);
      done := done + [providers[i]];
    }
    assert done == providers;
  }

  /** What a model is offered by `front`, and by `provider` if its turn has come. */
  ghost function Offered(table: Table, front: seq<string>, provider: string, done: seq<string>, model: string): seq<Candidate>
    requires provider in table && forall p | p in front :: p in table
  {
    CandidatesFor(table, front, model) + if model in done then Offer(table, provider, model) else []
  }

  lemma OfferedInTheEnd(table: Table, front: seq<string>, provider: string, models: seq<string>, model: string)
    requires provider in table && forall p | p in front :: p in table
    requires forall k :: k in models <==> k in table[provider]
    ensures Offered(table, front, provider, models, model) == CandidatesFor(table, front + [provider], model)
    ensures Offered(table, front, provider, [], model) == CandidatesFor(table, front, model)
  {
    assert (front + [provider])[..|front|] == front;
    assert CandidatesFor(table, front, model) + [] == CandidatesFor(table, front, model);
  }

  /** The inner loop: the models of one provider, in sorted order. */
  method MergeProvider(table: Table, ghost front: seq<string>, provider: string, before: map<string, Candidate>)
    returns (selected: map<string, Candidate>)
    requires provider in table && forall p | p in front :: p in table
    requires forall model :: Folded(before, model, CandidatesFor(table, front, model))
    ensures forall model :: Folded(selected, model, CandidatesFor(table, front + [provider], model))
  {
    var models := SortedKeys(table[provider].Keys);
    selected := before;
    ghost var done: seq<string> := [];
    forall model ensures Folded(selected, model, Offered(table, front, provider, done, model)) {
      OfferedInTheEnd(table, front, provider, models, model);
    }
    for i := 0 to |models|
      invariant done == models[..i]
      invariant forall model :: Folded(selected, model, Offered(table, front, provider, done, model))
    {
      var model := models[i];
      NotYet(models, i);
      ghost var was := selected;
      selected := Consider(selected, provider, model, table[provider][model], Offered(table, front, provider, done, model));
      forall m ensures Folded(selected, m, Offered(table, front, provider, done + [model], m)) {
        assert Folded(was, m, Offered(table, front, provider, done, m));
        if m == model {
          assert CandidatesFor(table, front, m) + [] == CandidatesFor(table, front, m);
        }
      }
      done := done + [model];
    }
    assert done == models;
    forall model ensures Folded(selected, model, CandidatesFor(table, front + [provider], model)) {
      OfferedInTheEnd(table, front, provider, models, model);
    }
  }

  /** One offer: kept if it is the first, or if it should replace the current one. */
  method Consider(before: map<string, Candidate>, provider: string, model: string, cost: Cost, ghost earlier: seq<Candidate>)
    returns (selected: map<string, Candidate>)
    requires Folded(before, model, earlier)
    ensures Folded(selected, model, earlier + match BuildCandidate(provider, cost) case None => [] case Some(c) => [c])
    ensures forall m, l | m != model :: Folded(selected, m, l) <==> Folded(before, m, l)
  {
    selected := before;
    assert earlier + [] == earlier;
    var candidate := BuildCandidate(provider, cost);
    if candidate.None? {
      return;
    }
    assert (earlier + [candidate.value])[..|earlier|] == earlier;
    if model !in selected || ShouldReplace(selected[model], candidate.value) {
      selected := selected[model := candidate.value];
    }
  }

  lemma NotYet(models: seq<string>, i: nat)
    requires Ascending(models) && i < |models|
    ensures models[i] !in models[..i]
  {
    LessIsTotal(models[i], models[i]);
  }

  // -------------------------------------------------- what the fold guarantees

  /** Candidates come with strictly ascending providers. */
  predicate InOrder(candidates: seq<Candidate>) {
    forall i, j | 0 <= i < j < |candidates| :: Less(candidates[i].provider, candidates[j].provider)
  }

  /** The chosen price is free only if all are; otherwise it is below every paid price
      plus epsilon. */
  ghost predicate Cheapest(winner: Candidate, candidates: seq<Candidate>) {
    && (winner.input <= 0.0 ==> forall c | c in candidates :: c.input <= 0.0)
    && (winner.input > 0.0 ==> forall c | c in candidates && c.input > 0.0 :: winner.input < c.input + EPSILON)
  }

  /** One step of the fold, whose next candidate has the later provider. */
  lemma StepIsCheapest(current: Candidate, next: Candidate, candidates: seq<Candidate>)
    requires Cheapest(current, candidates) && !Less(next.provider, current.provider)
    ensures Cheapest(if ShouldReplace(current, next) then next else current, candidates + [next])
  {
    assert forall c | c in candidates + [next] :: c in candidates || c == next;
  }

  lemma {:induction false} SelectIsCheapest(candidates: seq<Candidate>)
    requires candidates != [] && InOrder(candidates)
    ensures Select(candidates) in candidates
    ensures Cheapest(Select(candidates), candidates)
    decreases candidates
  {
    var front, last := candidates[..|candidates| - 1], candidates[|candidates| - 1];
    assert candidates == front + [last];
    if front != [] {
      SelectIsCheapest(front);
      var current := Select(front);
      var i :| 0 <= i < |front| && front[i] == current;
      assert Less(candidates[i].provider, last.provider);
      LessIsTotal(current.provider, last.provider);
      StepIsCheapest(current, last, front);
    } else {
      assert candidates == [last];
    }
  }

  /** Of several offers at the chosen price the one of the first provider is taken. */
  ghost predicate FirstAtItsPrice(winner: Candidate, candidates: seq<Candidate>) {
    forall c | c in candidates && c.input == winner.input :: c == winner || Less(winner.provider, c.provider)
  }

  lemma StepIsFirst(current: Candidate, next: Candidate, candidates: seq<Candidate>)
    requires Cheapest(current, candidates) && FirstAtItsPrice(current, candidates)
    requires Less(current.provider, next.provider) && !Less(next.provider, current.provider)
    requires current.input >= 0.0 && next.input >= 0.0 && forall c | c in candidates :: c.input >= 0.0
    ensures FirstAtItsPrice(if ShouldReplace(current, next) then next else current, candidates + [next])
  {
    assert forall c | c in candidates + [next] :: c in candidates || c == next;
  }

  lemma {:induction false} SelectIsFirst(candidates: seq<Candidate>)
    requires candidates != [] && InOrder(candidates) && forall c | c in candidates :: c.input >= 0.0
    ensures FirstAtItsPrice(Select(candidates), candidates)
    decreases candidates
  {
    var front, last := candidates[..|candidates| - 1], candidates[|candidates| - 1];
    assert candidates == front + [last];
    if front != [] {
      SelectIsFirst(front);
      SelectIsCheapest(front);
      var current := Select(front);
      var i :| 0 <= i < |front| && front[i] == current;
      assert Less(candidates[i].provider, last.provider);
      LessIsTotal(current.provider, last.provider);
      StepIsFirst(current, last, front);
    } else {
      assert candidates == [last];
    }
  }

  lemma {:induction false} CandidatesAreOffers(table: Table, order: seq<string>, model: string)
    requires Ascending(order) && forall p | p in order :: p in table
    ensures InOrder(CandidatesFor(table, order, model))
    ensures forall c | c in CandidatesFor(table, order, model) :: c.provider in order && Offer(table, c.provider, model) == [c]
    ensures forall p | p in order && Offer(table, p, model) != [] :: Offer(table, p, model)[0] in CandidatesFor(table, order, model)
    decreases order
  {
    if order != [] {
      var front, p := order[..|order| - 1], order[|order| - 1];
      assert order == front + [p];
      assert forall q | q in front :: q in order;
      CandidatesAreOffers(table, front, model);
      forall q | q in front ensures Less(q, p) {
        var i :| 0 <= i < |front| && front[i] == q;
        assert order[i] == q;
      }
    }
  }

  /** For every table the price chosen for a model is one of its usable prices, is free
      only if all of them are, and otherwise undercuts every paid one up to epsilon; among
      equal prices it is that of the first provider by name. */
  lemma SelectionIsCheapestNonZero(table: Table, providers: seq<string>, model: string, p: string, c: Candidate)
    requires Ascending(providers) && forall q :: q in providers <==> q in table
    requires p in table && model in table[p] && BuildCandidate(p, table[p][model]) == Some(c)
    ensures CandidatesFor(table, providers, model) != []
    ensures var winner := Select(CandidatesFor(table, providers, model));
            && winner.provider in table && model in table[winner.provider]
            && BuildCandidate(winner.provider, table[winner.provider][model]) == Some(winner)
            && (winner.input == 0.0 ==> c.input == 0.0)
            && (c.input > 0.0 ==> 0.0 < winner.input < c.input + EPSILON)
            && (c.input == winner.input ==> c == winner || Less(winner.provider, c.provider))
  {
    CandidatesAreOffers(table, providers, model);
    var candidates := CandidatesFor(table, providers, model);
    assert Offer(table, p, model)[0] == c && c in candidates;
    SelectIsCheapest(candidates);
    forall d | d in candidates ensures d.input >= 0.0 {
      assert Offer(table, d.provider, model) == [d];
    }
    SelectIsFirst(candidates);
    var winner := Select(candidates);
    assert Offer(table, winner.provider, model) == [winner];
  }

  /** Nearly equal is not transitive, and without the sorting the fold would drift:
      each replacement by provider name may climb by almost epsilon. */
  lemma UnsortedFoldDrifts()
    ensures var a, b, c := Candidate("a", 1.0000000018, None, None), Candidate("b", 1.0000000009, None, None), Candidate("c", 1.0, None, None);
            && NearlyEqual(a.input, b.input) && NearlyEqual(b.input, c.input) && !NearlyEqual(a.input, c.input)
            && Select([c, b, a]) == a && !(a.input < c.input + EPSILON)
            && Select([a, b, c]) == c
  {
    var a, b, c := Candidate("a", 1.0000000018, None, None), Candidate("b", 1.0000000009, None, None), Candidate("c", 1.0, None, None);
    assert Less("a", "b") && Less("b", "c") && !Less("b", "a") && !Less("c", "b") && Less("a", "c") && !Less("c", "a");
    assert [c, b, a][..2] == [c, b] && [c, b][..1] == [c];
    assert [a, b, c][..2] == [a, b] && [a, b][..1] == [a];
    assert Select([c, b]) == b && Select([a, b]) == a;
  }
}
