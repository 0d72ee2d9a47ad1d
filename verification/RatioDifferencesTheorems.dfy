/**
 What the difference engine reports: an entry survives exactly where something
 differs, it mentions exactly the channels that differ somewhere, and the order in
 which channels answered does not matter.
 */
module RatioDifferencesTheorems {
  import opened Basics
  import opened RatioDifferences

  predicate UniqueNames(channels: seq<Channel>) {
    forall a, b | a in channels && b in channels && a.name == b.name :: a == b
  }

  /** The channel shows a difference somewhere. */
  ghost predicate Speaker(local: Sheet, ch: Channel) {
    exists m, f :: ShowsAt(local, ch, m, f)
  }

  ghost predicate Reported(d: Differences, m: Name, f: Field) {
    m in d && f in d[m]
  }

  lemma ChannelsSplit(channels: seq<Channel>)
    requires channels != []
    ensures forall ch :: ch in channels <==> ch in channels[..|channels| - 1] || ch == channels[|channels| - 1]
  {
    assert channels == channels[..|channels| - 1] + [channels[|channels| - 1]];
  }

  lemma {:induction false} UpstreamsAre(local: Sheet, channels: seq<Channel>, m: Name, f: Field)
    requires UniqueNames(channels)
    ensures Upstreams(local, channels, m, f).Keys == NamesOf(channels)
    ensures forall ch | ch in channels :: Upstreams(local, channels, m, f)[ch.name] == CellOf(local, ch, m, f)
    decreases channels
  {
    if channels != [] {
      ChannelsSplit(channels);
      UpstreamsAre(local, channels[..|channels| - 1], m, f);
    }
  }

  lemma {:induction false} ConfidencesAre(channels: seq<Channel>, m: Name)
    requires UniqueNames(channels)
    ensures Confidences(channels, m).Keys == NamesOf(channels)
    ensures forall ch | ch in channels :: Confidences(channels, m)[ch.name] == Trusted(ch, m)
    decreases channels
  {
    if channels != [] {
      ChannelsSplit(channels);
      ConfidencesAre(channels[..|channels| - 1], m);
    }
  }

  lemma {:induction false} AnyMeans(local: Sheet, channels: seq<Channel>, m: Name, f: Field)
    ensures AnyDiffers(local, channels, m, f) <==> exists ch | ch in channels :: DiffersAt(local, ch, m, f)
    ensures AnyLists(channels, m, f) <==> exists ch | ch in channels :: ListsAt(ch, m, f)
    decreases channels
  {
    if channels != [] {
      ChannelsSplit(channels);
      AnyMeans(local, channels[..|channels| - 1], m, f);
    }
  }

  /** The number a value stands for, if any. */
  function NumberOf(v: Value): Option<real> {
    match v case Num(x) => Some(x) case Int(n) => Some(n as real) case _ => None
  }

  predicate Has(sheet: Sheet, f: Field, m: Name) {
    f in sheet && m in sheet[f]
  }

  predicate Close(a: real, b: real) {
    -0.000000001 < a - b < 0.000000001
  }

  /** When two listed prices differ.  In all fields but the two of billing, numbers differ by
      at least epsilon, whether integers or not; everything else differs unless it is the same. */
  lemma PricesDifferIff(local: Sheet, ch: Channel, m: Name, f: Field, u: Value, v: Value)
    requires Has(local, f, m) && local[f][m] == u && Has(ch.data, f, m) && ch.data[f][m] == v
    ensures DiffersAt(local, ch, m, f) <==>
            if !f.BillingMode? && !f.BillingExpr? && NumberOf(u).Some? && NumberOf(v).Some?
            then !Close(NumberOf(u).value, NumberOf(v).value)
            else if u.Num? && v.Num? then !Close(u.x, v.x)
            else u != v
  {
  }

  /** A price that only one side lists: a channel that does not list the model never differs,
      one that does differs from a missing local price unless it lists null. */
  lemma OneSidedDiffersIff(local: Sheet, ch: Channel, m: Name, f: Field)
    requires !(Has(local, f, m) && Has(ch.data, f, m))
    ensures DiffersAt(local, ch, m, f) <==> Has(ch.data, f, m) && ch.data[f][m] != Null
  {
  }

  /** A channel is not trusted about a model exactly when it lists the placeholder pair. */
  lemma UntrustedIff(ch: Channel, m: Name)
    ensures !Trusted(ch, m) <==>
            && Has(ch.data, ModelRatio, m) && Has(ch.data, CompletionRatio, m)
            && NumberOf(ch.data[ModelRatio][m]).Some? && Close(NumberOf(ch.data[ModelRatio][m]).value, 37.5)
            && NumberOf(ch.data[CompletionRatio][m]).Some? && Close(NumberOf(ch.data[CompletionRatio][m]).value, 1.0)
  {
  }

  lemma {:induction false} RowHas(local: Sheet, channels: seq<Channel>, m: Name, fields: seq<Field>, f: Field)
    ensures f in RowFor(local, channels, m, fields) <==> f in fields && Included(local, channels, m, f)
    ensures f in RowFor(local, channels, m, fields) ==> RowFor(local, channels, m, fields)[f] == EntryFor(local, channels, m, f)
    decreases fields
  {
    if fields != [] {
      assert fields == fields[..|fields| - 1] + [fields[|fields| - 1]];
      RowHas(local, channels, m, fields[..|fields| - 1], f);
    }
  }

  lemma FieldsAreAll(f: Field)
    ensures f in FIELDS
  {
    assert FIELDS[0].ModelRatio? && FIELDS[1].CompletionRatio? && FIELDS[2].CacheRatio? && FIELDS[3].CreateCacheRatio?
           && FIELDS[4].ImageRatio? && FIELDS[5].AudioRatio? && FIELDS[6].AudioCompletionRatio? && FIELDS[7].ModelPrice?
           && FIELDS[8].BillingMode? && FIELDS[9].BillingExpr?;
  }

  lemma {:induction false} ListedModelsAreSeen(local: Sheet, channels: seq<Channel>, ch: Channel, m: Name, f: Field)
    requires ch in channels && ListsAt(ch, m, f)
    ensures m in AllModels(local, channels)
    decreases channels
  {
    ChannelsSplit(channels);
    if ch == channels[|channels| - 1] {
      FieldsAreAll(f);
      assert m in ModelsIn(ch.data);
    } else {
      ListedModelsAreSeen(local, channels[..|channels| - 1], ch, m, f);
    }
  }

  lemma IncludedIsSeen(local: Sheet, channels: seq<Channel>, m: Name, f: Field)
    requires Included(local, channels, m, f)
    ensures m in AllModels(local, channels)
  {
    AnyMeans(local, channels, m, f);
    var ch :| ch in channels && ListsAt(ch, m, f);
    ListedModelsAreSeen(local, channels, ch, m, f);
  }

  /** Every included entry is built, under its model. */
  lemma BuiltHas(local: Sheet, channels: seq<Channel>, m: Name, f: Field)
    ensures Reported(Built(local, channels), m, f) <==> Included(local, channels, m, f)
    ensures Included(local, channels, m, f) ==> Built(local, channels)[m][f] == EntryFor(local, channels, m, f)
  {
    RowHas(local, channels, m, FIELDS, f);
    FieldsAreAll(f);
    if Included(local, channels, m, f) {
      IncludedIsSeen(local, channels, m, f);
    }
  }

  lemma ShownIsIncluded(local: Sheet, channels: seq<Channel>, ch: Channel, m: Name, f: Field)
    requires ch in channels && ShowsAt(local, ch, m, f)
    ensures Included(local, channels, m, f)
  {
    AnyMeans(local, channels, m, f);
    assert DiffersAt(local, ch, m, f) && ListsAt(ch, m, f);
  }

  /** The channels that pruning keeps are those that show a difference somewhere. */
  lemma HasDiffIs(local: Sheet, channels: seq<Channel>, ch: Channel)
    requires UniqueNames(channels) && ch in channels
    ensures ch.name in HasDiff(Built(local, channels)) <==> Speaker(local, ch)
  {
    var d := Built(local, channels);
    if Speaker(local, ch) {
      var m, f :| ShowsAt(local, ch, m, f);
      ShownIsIncluded(local, channels, ch, m, f);
      BuiltHas(local, channels, m, f);
      UpstreamsAre(local, channels, m, f);
      CellMeaning(Local(local, m, f), Listed(ch.data, m, f));
      assert Speaks(d[m][f], ch.name) && ch.name in Speakers(d[m]);
    }
    if ch.name in HasDiff(d) {
      var m :| m in d && ch.name in Speakers(d[m]);
      var f :| f in d[m] && Speaks(d[m][f], ch.name);
      BuiltHas(local, channels, m, f);
      UpstreamsAre(local, channels, m, f);
      CellMeaning(Local(local, m, f), Listed(ch.data, m, f));
      assert ShowsAt(local, ch, m, f);
    }
  }

  lemma PrunedHas(d: Differences, keep: set<Name>, m: Name, f: Field)
    ensures Reported(Pruned(d, keep), m, f) <==> Reported(d, m, f) && Worth(Trim(d[m][f], keep))
    ensures Reported(Pruned(d, keep), m, f) ==> Pruned(d, keep)[m][f] == Trim(d[m][f], keep)
  {
    if Reported(d, m, f) && Worth(Trim(d[m][f], keep)) {
      assert f in TrimRow(d[m], keep);
    }
  }

  /** Pruning, entry by entry. */
  lemma SpecHas(local: Sheet, channels: seq<Channel>, m: Name, f: Field)
    ensures var keep := HasDiff(Built(local, channels));
            var item := Trim(EntryFor(local, channels, m, f), keep);
            && (Reported(Spec(local, channels), m, f) <==> Included(local, channels, m, f) && Worth(item))
            && (Reported(Spec(local, channels), m, f) ==> Spec(local, channels)[m][f] == item)
  {
    BuiltHas(local, channels, m, f);
    PrunedHas(Built(local, channels), HasDiff(Built(local, channels)), m, f);
  }

  /** What a surviving entry contains: the local price, and for exactly the channels that
      show a difference somewhere, their cell and their confidence. */
  lemma EntryContents(local: Sheet, channels: seq<Channel>, m: Name, f: Field)
    requires UniqueNames(channels)
    ensures Reported(Spec(local, channels), m, f) ==>
            var item := Spec(local, channels)[m][f];
            && item.current == Local(local, m, f)
            && (forall n :: n in item.upstreams <==> n in item.confidence)
            && (forall n | n in item.upstreams :: exists ch | ch in channels :: ch.name == n)
            && (forall ch | ch in channels :: ch.name in item.upstreams <==> Speaker(local, ch))
            && (forall ch | ch in channels && Speaker(local, ch) ::
                  item.upstreams[ch.name] == CellOf(local, ch, m, f) && item.confidence[ch.name] == Trusted(ch, m))
  {
    SpecHas(local, channels, m, f);
    UpstreamsAre(local, channels, m, f);
    ConfidencesAre(channels, m);
    forall ch | ch in channels ensures ch.name in HasDiff(Built(local, channels)) <==> Speaker(local, ch) {
      HasDiffIs(local, channels, ch);
    }
  }

  /** Exactly when an entry survives, for every input with distinct channel names: a
      channel shows a difference there, or a hidden difference built the entry and a
      channel that differs elsewhere does not list the price. */
  lemma SurvivesIff(local: Sheet, channels: seq<Channel>, m: Name, f: Field)
    requires UniqueNames(channels)
    ensures Reported(Spec(local, channels), m, f) <==>
            || (exists ch | ch in channels :: ShowsAt(local, ch, m, f))
            || (&& (exists ch | ch in channels :: DiffersAt(local, ch, m, f))
                && (exists ch | ch in channels :: Speaker(local, ch) && CellOf(local, ch, m, f) == Null))
  {
    SpecHas(local, channels, m, f);
    WorthIff(local, channels, m, f);
    AnyMeans(local, channels, m, f);
    forall ch | ch in channels ensures CellOf(local, ch, m, f) == Null ==> Local(local, m, f) != Null {
      CellMeaning(Local(local, m, f), Listed(ch.data, m, f));
    }
    if ch :| ch in channels && ShowsAt(local, ch, m, f) {
      ShownIsIncluded(local, channels, ch, m, f);
    }
  }

  lemma WorthIff(local: Sheet, channels: seq<Channel>, m: Name, f: Field)
    requires UniqueNames(channels)
    ensures Worth(Trim(EntryFor(local, channels, m, f), HasDiff(Built(local, channels)))) <==>
            || (exists ch | ch in channels :: ShowsAt(local, ch, m, f))
            || (exists ch | ch in channels :: Speaker(local, ch) && CellOf(local, ch, m, f) == Null)
  {
    var item := Trim(EntryFor(local, channels, m, f), HasDiff(Built(local, channels)));
    UpstreamsAre(local, channels, m, f);
    forall ch | ch in channels
      ensures (ch.name in item.upstreams && item.upstreams[ch.name] != SAME)
              <==> ShowsAt(local, ch, m, f) || (Speaker(local, ch) && CellOf(local, ch, m, f) == Null)
    {
      KeptCell(local, channels, ch, m, f);
    }
    if Worth(item) {
      var n :| n in item.upstreams && item.upstreams[n] != SAME;
      var ch :| ch in channels && ch.name == n;
    }
  }

  /** What pruning leaves of one channel in one entry. */
  lemma KeptCell(local: Sheet, channels: seq<Channel>, ch: Channel, m: Name, f: Field)
    requires UniqueNames(channels) && ch in channels
    ensures var item := Trim(EntryFor(local, channels, m, f), HasDiff(Built(local, channels)));
            (ch.name in item.upstreams && item.upstreams[ch.name] != SAME)
            <==> ShowsAt(local, ch, m, f) || (Speaker(local, ch) && CellOf(local, ch, m, f) == Null)
  {
    UpstreamsAre(local, channels, m, f);
    HasDiffIs(local, channels, ch);
    CellMeaning(Local(local, m, f), Listed(ch.data, m, f));
  }

  // --------------------------------------------------- the intended setting

  /** No channel lists a null or the text `same`. */
  ghost predicate Plain(channels: seq<Channel>) {
    forall ch, m, f | ch in channels && ListsAt(ch, m, f) :: Listed(ch.data, m, f).value != Null && Listed(ch.data, m, f).value != SAME
  }

  /** With plain prices an entry is reported exactly where some channel's price differs
      from the local one, and it names exactly the channels that differ somewhere. */
  lemma ReportedIffDiffers(local: Sheet, channels: seq<Channel>, m: Name, f: Field)
    requires UniqueNames(channels) && Plain(channels)
    ensures Reported(Spec(local, channels), m, f) <==> exists ch | ch in channels :: DiffersAt(local, ch, m, f)
    ensures Reported(Spec(local, channels), m, f) ==>
              forall ch | ch in channels ::
                ch.name in Spec(local, channels)[m][f].upstreams <==> exists n, g :: DiffersAt(local, ch, n, g)
  {
    SurvivesIff(local, channels, m, f);
    AnyMeans(local, channels, m, f);
    forall ch, n, g | ch in channels ensures DiffersAt(local, ch, n, g) <==> ShowsAt(local, ch, n, g) {
      assert DiffersAt(local, ch, n, g) ==> ListsAt(ch, n, g);
    }
    forall ch | ch in channels ensures CellOf(local, ch, m, f) == Null ==> Local(local, m, f) != Null {
      CellMeaning(Local(local, m, f), Listed(ch.data, m, f));
    }
    if Reported(Spec(local, channels), m, f) {
      EntryContents(local, channels, m, f);
    }
  }

  /** The sentinels hide differences: a channel that lists only the text `same` differs
      from every other local price, yet nothing is reported. */
  lemma SameTextIsHidden(local: Sheet, ch: Channel, m: Name, f: Field)
    requires forall n, g | ListsAt(ch, n, g) :: Listed(ch.data, n, g).value == SAME
    requires ListsAt(ch, m, f) && Local(local, m, f) != SAME
    ensures DiffersAt(local, ch, m, f) && !Reported(Spec(local, [ch]), m, f)
  {
    assert forall n, g :: !ShowsAt(local, ch, n, g);
    assert !Speaker(local, ch);
    OnlyOne(ch);
    SurvivesIff(local, [ch], m, f);
  }

  lemma OnlyOne(ch: Channel)
    ensures UniqueNames([ch]) && forall c :: c in [ch] <==> c == ch
  {
  }

  // ------------------------------------------------------ order is irrelevant

  ghost predicate SameChannels(a: seq<Channel>, b: seq<Channel>) {
    forall ch :: ch in a <==> ch in b
  }

  lemma SameEntry(local: Sheet, a: seq<Channel>, b: seq<Channel>, m: Name, f: Field)
    requires UniqueNames(a) && SameChannels(a, b)
    ensures Included(local, a, m, f) == Included(local, b, m, f)
    ensures EntryFor(local, a, m, f) == EntryFor(local, b, m, f)
  {
    SameIncluded(local, a, b, m, f);
    SameUpstreams(local, a, b, m, f);
    SameConfidences(a, b, m);
  }

  lemma SameIncluded(local: Sheet, a: seq<Channel>, b: seq<Channel>, m: Name, f: Field)
    requires SameChannels(a, b)
    ensures Included(local, a, m, f) == Included(local, b, m, f)
  {
    AnyMeans(local, a, m, f);
    AnyMeans(local, b, m, f);
  }

  lemma SameUpstreams(local: Sheet, a: seq<Channel>, b: seq<Channel>, m: Name, f: Field)
    requires UniqueNames(a) && SameChannels(a, b)
    ensures Upstreams(local, a, m, f) == Upstreams(local, b, m, f)
  {
    SameNames(a, b);
    UpstreamsAre(local, a, m, f);
    UpstreamsAre(local, b, m, f);
    SameMaps(a, Upstreams(local, a, m, f), Upstreams(local, b, m, f));
  }

  lemma SameConfidences(a: seq<Channel>, b: seq<Channel>, m: Name)
    requires UniqueNames(a) && SameChannels(a, b)
    ensures Confidences(a, m) == Confidences(b, m)
  {
    SameNames(a, b);
    ConfidencesAre(a, m);
    ConfidencesAre(b, m);
    SameMaps(a, Confidences(a, m), Confidences(b, m));
  }

  lemma SameNames(a: seq<Channel>, b: seq<Channel>)
    requires SameChannels(a, b)
    ensures NamesOf(a) == NamesOf(b)
  {
  }

  lemma SameMaps<T>(channels: seq<Channel>, x: map<Name, T>, y: map<Name, T>)
    requires x.Keys == y.Keys == NamesOf(channels) && forall ch | ch in channels :: x[ch.name] == y[ch.name]
    ensures x == y
  {
    forall n | n in x ensures x[n] == y[n] {
      var ch :| ch in channels && ch.name == n;
    }
  }

  lemma {:induction false} SameRow(local: Sheet, a: seq<Channel>, b: seq<Channel>, m: Name, fields: seq<Field>)
    requires UniqueNames(a) && SameChannels(a, b)
    ensures RowFor(local, a, m, fields) == RowFor(local, b, m, fields)
    decreases fields
  {
    if fields != [] {
      SameRow(local, a, b, m, fields[..|fields| - 1]);
      SameEntry(local, a, b, m, fields[|fields| - 1]);
    }
  }

  lemma {:induction false} AllModelsMeans(local: Sheet, channels: seq<Channel>, m: Name)
    ensures m in AllModels(local, channels) <==> m in ModelsIn(local) || exists ch | ch in channels :: m in ModelsIn(ch.data)
    decreases channels
  {
    if channels != [] {
      ChannelsSplit(channels);
      AllModelsMeans(local, channels[..|channels| - 1], m);
    }
  }

  /** The channels answer concurrently; the report does not depend on who was first. */
  lemma ChannelOrderIsIrrelevant(local: Sheet, a: seq<Channel>, b: seq<Channel>)
    requires UniqueNames(a) && SameChannels(a, b)
    ensures Spec(local, a) == Spec(local, b)
  {
    forall m ensures m in AllModels(local, a) <==> m in AllModels(local, b) {
      AllModelsMeans(local, a, m);
      AllModelsMeans(local, b, m);
    }
    assert AllModels(local, a) == AllModels(local, b);
    forall m ensures RowFor(local, a, m, FIELDS) == RowFor(local, b, m, FIELDS) {
      SameRow(local, a, b, m, FIELDS);
    }
    assert Built(local, a) == Built(local, b);
  }
}
