/**
 Comparing local prices with those of other channels.  For every model and price
 field the engine collects what each channel says, keeps the entries where something
 differs, and then prunes channels that differ nowhere.  Numbers are reals.
 */
module RatioDifferences {
  import opened Basics
  import opened ModelsDev

  datatype Field =
    | ModelRatio | CompletionRatio | CacheRatio | CreateCacheRatio | ImageRatio | AudioRatio
    | AudioCompletionRatio | ModelPrice | BillingMode | BillingExpr

  const FIELDS := [ModelRatio, CompletionRatio, CacheRatio, CreateCacheRatio, ImageRatio, AudioRatio,
                   AudioCompletionRatio, ModelPrice, BillingMode, BillingExpr]

  predicate Numeric(f: Field) {
    !f.BillingMode? && !f.BillingExpr?
  }

  /** A decoded value; `Other` stands for anything not compared by content. */
  datatype Value = Null | Num(x: real) | Int(n: int) | Text(s: string) | Other(id: nat)

  const SAME := Text("same")

  type Name = string
  type Sheet = map<Field, map<Name, Value>>

  datatype Channel = Channel(name: Name, data: Sheet)

  function Prices(sheet: Sheet, f: Field): map<Name, Value> {
    if f in sheet then sheet[f] else map[]
  }

  function Normalized(f: Field, v: Value): Value {
    if Numeric(f) && v.Int? then Num(v.n as real) else v
  }

  predicate ValuesEqual(a: Value, b: Value) {
    if a.Num? && b.Num? then NearlyEqual(a.x, b.x) else a == b
  }

  /** The price a sheet gives, if it lists the model at all. */
  function Listed(sheet: Sheet, m: Name, f: Field): Option<Value> {
    if m in Prices(sheet, f) then Some(Normalized(f, Prices(sheet, f)[m])) else None
  }

  /** A missing local price and a null one are the same. */
  function Local(sheet: Sheet, m: Name, f: Field): Value {
    match Listed(sheet, m, f) case None => Null case Some(v) => v
  }

  // -------------------------------------------------------------- one entry

  /** What the entry shows for a channel: its price, `same`, or null for "not listed". */
  function Cell(local: Value, listed: Option<Value>): Value {
    var v := match listed
      case None => Null
      case Some(u) => if local != Null && !ValuesEqual(local, u) then u else if ValuesEqual(local, u) then SAME else u;
    if v == Null && local == Null then SAME else v
  }

  predicate Differs(local: Value, listed: Option<Value>) {
    listed.Some? && !ValuesEqual(local, listed.value)
  }

  /** A difference the engine can represent: not hidden by a null or by the text `same`. */
  predicate ShowsDifference(local: Value, listed: Option<Value>) {
    Differs(local, listed) && listed.value != Null && listed.value != SAME
  }

  lemma CellMeaning(local: Value, listed: Option<Value>)
    ensures (Cell(local, listed) != Null && Cell(local, listed) != SAME) <==> ShowsDifference(local, listed)
    ensures ShowsDifference(local, listed) ==> Cell(local, listed) == listed.value
    ensures Cell(local, listed) == Null <==> local != Null && (listed.None? || listed.value == Null)
    ensures listed.Some? && !Differs(local, listed) ==> Cell(local, listed) == SAME
  {
  }

  /** The placeholder pair that a pricing endpoint reports for unknown models. */
  predicate Trusted(ch: Channel, m: Name) {
    var ratio, completion := Prices(ch.data, ModelRatio), Prices(ch.data, CompletionRatio);
    !(m in ratio && m in completion && IsNear(ratio[m], 37.5) && IsNear(completion[m], 1.0))
  }

  predicate IsNear(v: Value, x: real) {
    (v.Num? && NearlyEqual(v.x, x)) || (v.Int? && NearlyEqual(v.n as real, x))
  }

  datatype Item = Item(current: Value, upstreams: map<Name, Value>, confidence: map<Name, bool>)

  function CellOf(local: Sheet, ch: Channel, m: Name, f: Field): Value {
    Cell(Local(local, m, f), Listed(ch.data, m, f))
  }

  function Upstreams(local: Sheet, channels: seq<Channel>, m: Name, f: Field): map<Name, Value> {
    if channels == [] then map[]
    else
      var ch := channels[|channels| - 1];
      Upstreams(local, channels[..|channels| - 1], m, f)[ch.name := CellOf(local, ch, m, f)]
  }

  function Confidences(channels: seq<Channel>, m: Name): map<Name, bool> {
    if channels == [] then map[]
    else
      var ch := channels[|channels| - 1];
      Confidences(channels[..|channels| - 1], m)[ch.name := Trusted(ch, m)]
  }

  predicate DiffersAt(local: Sheet, ch: Channel, m: Name, f: Field) {
    Differs(Local(local, m, f), Listed(ch.data, m, f))
  }

  predicate ShowsAt(local: Sheet, ch: Channel, m: Name, f: Field) {
    ShowsDifference(Local(local, m, f), Listed(ch.data, m, f))
  }

  predicate ListsAt(ch: Channel, m: Name, f: Field) {
    Listed(ch.data, m, f).Some?
  }

  predicate AnyDiffers(local: Sheet, channels: seq<Channel>, m: Name, f: Field) {
    channels != [] &&
    (AnyDiffers(local, channels[..|channels| - 1], m, f) || DiffersAt(local, channels[|channels| - 1], m, f))
  }

  predicate AnyLists(channels: seq<Channel>, m: Name, f: Field) {
    channels != [] && (AnyLists(channels[..|channels| - 1], m, f) || ListsAt(channels[|channels| - 1], m, f))
  }

  /** Whether an entry is built: a local price must differ somewhere, a missing one must be listed somewhere. */
  predicate Included(local: Sheet, channels: seq<Channel>, m: Name, f: Field) {
    if Local(local, m, f) != Null then AnyDiffers(local, channels, m, f) else AnyLists(channels, m, f)
  }

  function EntryFor(local: Sheet, channels: seq<Channel>, m: Name, f: Field): Item {
    Item(Local(local, m, f), Upstreams(local, channels, m, f), Confidences(channels, m))
  }

  /** The entries of one model for a list of fields. */
  function RowFor(local: Sheet, channels: seq<Channel>, m: Name, fields: seq<Field>): map<Field, Item> {
    if fields == [] then map[]
    else
      var row, f := RowFor(local, channels, m, fields[..|fields| - 1]), fields[|fields| - 1];
      if Included(local, channels, m, f) then row[f := EntryFor(local, channels, m, f)] else row
  }

  function ModelsIn(sheet: Sheet): set<Name> {
    set f, m | f in FIELDS && m in Prices(sheet, f) :: m
  }

  function AllModels(local: Sheet, channels: seq<Channel>): set<Name> {
    if channels == [] then ModelsIn(local)
    else AllModels(local, channels[..|channels| - 1]) + ModelsIn(channels[|channels| - 1].data)
  }

  type Differences = map<Name, map<Field, Item>>

  /** The entries before pruning. */
  function Built(local: Sheet, channels: seq<Channel>): Differences {
    map m | m in AllModels(local, channels) && RowFor(local, channels, m, FIELDS) != map[] :: RowFor(local, channels, m, FIELDS)
  }

  // ---------------------------------------------------------------- pruning

  predicate Speaks(item: Item, name: Name) {
    name in item.upstreams && item.upstreams[name] != Null && item.upstreams[name] != SAME
  }

  function Speakers(row: map<Field, Item>): set<Name> {
    set f, name | f in row && name in row[f].upstreams && Speaks(row[f], name) :: name
  }

  /** The channels that show a difference in some entry. */
  function HasDiff(d: Differences): set<Name> {
    set m, name | m in d && name in Speakers(d[m]) :: name
  }

  /** An entry without the channels outside `keep`. */
  function Trim(item: Item, keep: set<Name>): Item {
    Without(item, item.upstreams.Keys - keep)
  }

  function Without(item: Item, drop: set<Name>): Item {
    item.(upstreams := item.upstreams - drop, confidence := item.confidence - drop)
  }

  /** Not empty and not all `same`. */
  predicate Worth(item: Item) {
    exists n | n in item.upstreams :: item.upstreams[n] != SAME
  }

  function TrimRow(row: map<Field, Item>, keep: set<Name>): map<Field, Item> {
    map f | f in row && Worth(Trim(row[f], keep)) :: Trim(row[f], keep)
  }

  function Pruned(d: Differences, keep: set<Name>): Differences {
    map m | m in d && TrimRow(d[m], keep) != map[] :: TrimRow(d[m], keep)
  }

  function Spec(local: Sheet, channels: seq<Channel>): Differences {
    Pruned(Built(local, channels), HasDiff(Built(local, channels)))
  }

  // --------------------------------------------------------------- the loops

  method CollectModels(local: Sheet, channels: seq<Channel>) returns (all: set<Name>)
    ensures all == AllModels(local, channels)
  {
    all := ModelsOf(local);
    for i := 0 to |channels|
      invariant all == AllModels(local, channels[..i])
    {
      assert channels[..i + 1][..i] == channels[..i];
      var more := ModelsOf(channels[i].data);
      all := all + more;
    }
    assert channels[..|channels|] == channels;
  }

  method ModelsOf(sheet: Sheet) returns (models: set<Name>)
    ensures models == ModelsIn(sheet)
  {
    models := {};
    for i := 0 to |FIELDS|
      invariant models == set f, m | f in FIELDS[..i] && m in Prices(sheet, f) :: m
    {
      ghost var before := models;
      models := models + Prices(sheet, FIELDS[i]).Keys;
      assert FIELDS[..i + 1] == FIELDS[..i] + [FIELDS[i]];
      assert FIELDS[i] in FIELDS[..i + 1];
      assert forall f | f in FIELDS[..i] :: f in FIELDS[..i + 1];
    }
    assert FIELDS[..|FIELDS|] == FIELDS;
  }

  /** The confidence of one channel in every model, visited in any order. */
  method TrustModels(ch: Channel, all: set<Name>) returns (trust: map<Name, bool>)
    ensures trust == map m | m in all :: Trusted(ch, m)
  {
    trust := map[];
    var todo := all;
    while todo != {}
      invariant todo <= all && trust == map m | m in all - todo :: Trusted(ch, m)
      decreases |todo|
    {
      var m :| m in todo;
      var trusted := TrustOne(ch, m);
      trust := trust[m := trusted];
      assert all - (todo - {m}) == (all - todo) + {m};
      todo := todo - {m};
    }
    assert all - todo == all;
  }

  method TrustOne(ch: Channel, m: Name) returns (trusted: bool)
    ensures trusted == Trusted(ch, m)
  {
    var ratios, completions := Prices(ch.data, ModelRatio), Prices(ch.data, CompletionRatio);
    trusted := true;
    if |ratios| > 0 && |completions| > 0 {
      if m in ratios && m in completions && IsNear(ratios[m], 37.5) && IsNear(completions[m], 1.0) {
        trusted := false;
      }
    }
  }

  function TrustTable(channels: seq<Channel>, all: set<Name>): map<Name, map<Name, bool>> {
    if channels == [] then map[]
    else
      var ch := channels[|channels| - 1];
      TrustTable(channels[..|channels| - 1], all)[ch.name := map m | m in all :: Trusted(ch, m)]
  }

  method TrustAll(channels: seq<Channel>, all: set<Name>) returns (table: map<Name, map<Name, bool>>)
    ensures table == TrustTable(channels, all)
  {
    table := map[];
    for i := 0 to |channels|
      invariant table == TrustTable(channels[..i], all)
    {
      assert channels[..i + 1][..i] == channels[..i];
      var trust := TrustModels(channels[i], all);
      table := table[channels[i].name := trust];
    }
    assert channels[..|channels|] == channels;
  }

  lemma {:induction false} TrustTableHas(channels: seq<Channel>, all: set<Name>)
    ensures TrustTable(channels, all).Keys == set ch | ch in channels :: ch.name
    ensures forall n | n in TrustTable(channels, all) :: TrustTable(channels, all)[n].Keys == all
    decreases channels
  {
    if channels != [] {
      TrustTableHas(channels[..|channels| - 1], all);
      assert channels == channels[..|channels| - 1] + [channels[|channels| - 1]];
    }
  }

  function NamesOf(channels: seq<Channel>): set<Name> {
    set ch | ch in channels :: ch.name
  }

  /** One name's confidence is that of the last channel bearing it. */
  lemma {:induction false} ConfidencesHave(channels: seq<Channel>, m: Name, all: set<Name>)
    requires m in all
    ensures Confidences(channels, m).Keys == TrustTable(channels, all).Keys
    ensures forall n | n in TrustTable(channels, all) ::
              m in TrustTable(channels, all)[n] && Confidences(channels, m)[n] == TrustTable(channels, all)[n][m]
    decreases channels
  {
    if channels != [] {
      ConfidencesHave(channels[..|channels| - 1], m, all);
    }
  }

  /** The branches for one channel: what the entry shows, and whether it differs. */
  method ShowCell(localValue: Value, listed: Option<Value>) returns (upstreamValue: Value, hasDifference: bool)
    ensures upstreamValue == Cell(localValue, listed)
    ensures localValue != Null ==> (hasDifference <==> Differs(localValue, listed))
    ensures localValue == Null ==> (hasDifference <==> ShowsDifference(localValue, listed))
  {
    upstreamValue, hasDifference := Null, false;
    if listed.Some? {
      upstreamValue := listed.value;
      if localValue != Null && !ValuesEqual(localValue, upstreamValue) {
        hasDifference := true;
      } else if ValuesEqual(localValue, upstreamValue) {
        upstreamValue := SAME;
      }
    }
    if upstreamValue == Null && localValue == Null {
      upstreamValue := SAME;
    }
    if localValue == Null && upstreamValue != Null && upstreamValue != SAME {
      hasDifference := true;
    }
  }

  /** The confidence column read off the table, channel by channel. */
  function ConfidencesFrom(channels: seq<Channel>, table: map<Name, map<Name, bool>>, m: Name): map<Name, bool>
    requires forall ch | ch in channels :: ch.name in table && m in table[ch.name]
  {
    if channels == [] then map[]
    else
      var front, ch := channels[..|channels| - 1], channels[|channels| - 1];
      assert ch in channels;
      assert forall c | c in front :: c in channels;
      ConfidencesFrom(front, table, m)[ch.name := table[ch.name][m]]
  }

  lemma {:induction false} ConfidencesFromHas(channels: seq<Channel>, table: map<Name, map<Name, bool>>, m: Name)
    requires forall ch | ch in channels :: ch.name in table && m in table[ch.name]
    ensures ConfidencesFrom(channels, table, m).Keys == NamesOf(channels)
    ensures forall n | n in ConfidencesFrom(channels, table, m) ::
              n in table && m in table[n] && ConfidencesFrom(channels, table, m)[n] == table[n][m]
    decreases channels
  {
    if channels != [] {
      var front, ch := channels[..|channels| - 1], channels[|channels| - 1];
      assert channels == front + [ch];
      ConfidencesFromHas(front, table, m);
    }
  }

  lemma ConfidencesAgree(channels: seq<Channel>, all: set<Name>, m: Name)
    requires m in all
    ensures forall ch | ch in channels :: ch.name in TrustTable(channels, all) && m in TrustTable(channels, all)[ch.name]
    ensures ConfidencesFrom(channels, TrustTable(channels, all), m) == Confidences(channels, m)
  {
    TrustTableHas(channels, all);
    ConfidencesHave(channels, m, all);
    ConfidencesFromHas(channels, TrustTable(channels, all), m);
  }

  /** The channel loop for one model and field. */
  method BuildEntry(local: Sheet, channels: seq<Channel>, table: map<Name, map<Name, bool>>, m: Name, f: Field)
    returns (wanted: bool, item: Item)
    requires forall ch | ch in channels :: ch.name in table && m in table[ch.name]
    ensures wanted == Included(local, channels, m, f)
    ensures item == Item(Local(local, m, f), Upstreams(local, channels, m, f), ConfidencesFrom(channels, table, m))
  {
    var localValue := Local(local, m, f);
    var upstreamValues: map<Name, Value> := map[];
    var confidenceValues: map<Name, bool> := map[];
    var hasUpstreamValue, hasDifference := false, false;
    ghost var done: seq<Channel> := [];
    for i := 0 to |channels|
      invariant done == channels[..i] && forall ch | ch in done :: ch in channels
      invariant upstreamValues == Upstreams(local, done, m, f)
      invariant confidenceValues == ConfidencesFrom(done, table, m)
      invariant hasUpstreamValue == AnyLists(done, m, f)
      invariant localValue != Null ==> hasDifference == AnyDiffers(local, done, m, f)
    {
      var ch := channels[i];
      EntrySnoc(local, done, table, m, f, ch);
      var listed := Listed(ch.data, m, f);
      var upstreamValue, differs := ShowCell(localValue, listed);
      hasUpstreamValue := hasUpstreamValue || listed.Some?;
      hasDifference := hasDifference || differs;
      upstreamValues := upstreamValues[ch.name := upstreamValue];
      confidenceValues := confidenceValues[ch.name := table[ch.name][m]];
      done := done + [ch];
    }
    assert done == channels;
    wanted := if localValue != Null then hasDifference else hasUpstreamValue;
    item := Item(localValue, upstreamValues, confidenceValues);
  }

  lemma EntrySnoc(local: Sheet, done: seq<Channel>, table: map<Name, map<Name, bool>>, m: Name, f: Field, ch: Channel)
    requires forall c | c in done + [ch] :: c.name in table && m in table[c.name]
    ensures Upstreams(local, done + [ch], m, f) == Upstreams(local, done, m, f)[ch.name := CellOf(local, ch, m, f)]
    ensures forall c | c in done :: c in done + [ch]
    ensures ch in done + [ch]
    ensures ConfidencesFrom(done + [ch], table, m) == ConfidencesFrom(done, table, m)[ch.name := table[ch.name][m]]
    ensures AnyLists(done + [ch], m, f) == (AnyLists(done, m, f) || ListsAt(ch, m, f))
    ensures AnyDiffers(local, done + [ch], m, f) == (AnyDiffers(local, done, m, f) || DiffersAt(local, ch, m, f))
  {
    assert (done + [ch])[..|done|] == done;
  }

  lemma RowSnoc(local: Sheet, channels: seq<Channel>, m: Name, fields: seq<Field>, f: Field)
    ensures RowFor(local, channels, m, fields + [f])
            == if Included(local, channels, m, f) then RowFor(local, channels, m, fields)[f := EntryFor(local, channels, m, f)]
               else RowFor(local, channels, m, fields)
  {
    assert (fields + [f])[..|fields|] == fields;
  }

  /** The field loop for one model. */
  method BuildRow(local: Sheet, channels: seq<Channel>, table: map<Name, map<Name, bool>>, ghost all: set<Name>, m: Name,
                  fields: seq<Field>)
    returns (row: map<Field, Item>)
    requires m in all && table == TrustTable(channels, all)
    ensures row == RowFor(local, channels, m, fields)
  {
    ConfidencesAgree(channels, all, m);
    row := map[];
    ghost var done: seq<Field> := [];
    for i := 0 to |fields|
      invariant done == fields[..i] && row == RowFor(local, channels, m, done)
    {
      var f := fields[i];
      var wanted, item := BuildEntry(local, channels, table, m, f);
      RowSnoc(local, channels, m, done, f);
      if wanted {
        row := row[f := item];
      }
      done := done + [f];
    }
    assert done == fields;
  }

  /** `d` holds `row` under `m`, or nothing when the row is empty. */
  ghost predicate HasRow(d: Differences, m: Name, row: map<Field, Item>) {
    if row == map[] then m !in d else m in d && d[m] == row
  }

  method Build(local: Sheet, channels: seq<Channel>) returns (d: Differences)
    ensures d == Built(local, channels)
  {
    var all := CollectModels(local, channels);
    var table := TrustAll(channels, all);
    d := map[];
    var todo := all;
    while todo != {}
      invariant todo <= all && d.Keys <= all - todo
      invariant forall m | m in all - todo :: HasRow(d, m, RowFor(local, channels, m, FIELDS))
      decreases |todo|
    {
      var m :| m in todo;
      todo := todo - {m};
      var row := BuildRow(local, channels, table, all, m, FIELDS);
      if row != map[] {
        d := d[m := row];
      }
      assert HasRow(d, m, row);
    }
    BuiltIs(local, channels, d);
  }

  lemma BuiltIs(local: Sheet, channels: seq<Channel>, d: Differences)
    requires d.Keys <= AllModels(local, channels)
    requires forall m | m in AllModels(local, channels) :: HasRow(d, m, RowFor(local, channels, m, FIELDS))
    ensures d == Built(local, channels)
  {
  }

  /** The channels speaking in one row, fields and names visited in any order. */
  method SpeakersOf(row: map<Field, Item>) returns (names: set<Name>)
    ensures names == Speakers(row)
  {
    names := {};
    var todo := row.Keys;
    while todo != {}
      invariant todo <= row.Keys
      invariant names == set f, name | f in row && f !in todo && name in row[f].upstreams && Speaks(row[f], name) :: name
      decreases |todo|
    {
      var f :| f in todo;
      todo := todo - {f};
      ghost var before := names;
      var rest := row[f].upstreams.Keys;
      while rest != {}
        invariant rest <= row[f].upstreams.Keys
        invariant names == before + set name | name in row[f].upstreams && name !in rest && Speaks(row[f], name)
        decreases |rest|
      {
        var name :| name in rest;
        rest := rest - {name};
        if row[f].upstreams[name] != Null && row[f].upstreams[name] != SAME {
          names := names + {name};
        }
      }
    }
  }

  method ChannelsWithDiff(d: Differences) returns (names: set<Name>)
    ensures names == HasDiff(d)
  {
    names := {};
    var todo := d.Keys;
    while todo != {}
      invariant todo <= d.Keys
      invariant names == set m, name | m in d && m !in todo && name in Speakers(d[m]) :: name
      decreases |todo|
    {
      var m :| m in todo;
      todo := todo - {m};
      var more := SpeakersOf(d[m]);
      names := names + more;
    }
  }

  /** Deletes from an entry the channels that are not to be kept. */
  method DropSilent(item: Item, keep: set<Name>) returns (item': Item)
    ensures item' == Trim(item, keep)
  {
    item' := item;
    var names := item.upstreams.Keys;
    var todo := names;
    ghost var dropped: set<Name> := {};
    WithoutNone(item);
    while todo != {}
      invariant todo <= names && dropped == names - keep - todo
      invariant item' == Without(item, dropped)
      decreases |todo|
    {
      var n :| n in todo;
      todo := todo - {n};
      if n !in keep {
        WithoutOne(item, dropped, n);
        item' := item'.(upstreams := item'.upstreams - {n}, confidence := item'.confidence - {n});
        dropped := dropped + {n};
      }
    }
    assert dropped == names - keep;
  }

  lemma WithoutNone(item: Item)
    ensures Without(item, {}) == item
  {
  }

  lemma WithoutOne(item: Item, dropped: set<Name>, n: Name)
    ensures Without(item, dropped).(upstreams := Without(item, dropped).upstreams - {n},
                                    confidence := Without(item, dropped).confidence - {n})
            == Without(item, dropped + {n})
  {
    assert item.upstreams - dropped - {n} == item.upstreams - (dropped + {n});
    assert item.confidence - dropped - {n} == item.confidence - (dropped + {n});
  }

  method IsWorth(item: Item) returns (worth: bool)
    ensures worth == Worth(item)
  {
    worth := false;
    var rest := item.upstreams.Keys;
    while rest != {}
      invariant rest <= item.upstreams.Keys
      invariant worth <==> exists n | n in item.upstreams && n !in rest :: item.upstreams[n] != SAME
      decreases |rest|
    {
      var n :| n in rest;
      rest := rest - {n};
      if item.upstreams[n] != SAME {
        worth := true;
      }
    }
  }

  method PruneRow(row: map<Field, Item>, keep: set<Name>) returns (row': map<Field, Item>)
    ensures row' == TrimRow(row, keep)
  {
    row' := map[];
    var todo := row.Keys;
    while todo != {}
      invariant todo <= row.Keys
      invariant row' == map f | f in row && f !in todo && Worth(Trim(row[f], keep)) :: Trim(row[f], keep)
      decreases |todo|
    {
      var f :| f in todo;
      todo := todo - {f};
      var item := DropSilent(row[f], keep);
      var worth := IsWorth(item);
      if worth {
        row' := row'[f := item];
      }
    }
  }

  method PruneAll(built: Differences, keep: set<Name>) returns (d: Differences)
    ensures d == Pruned(built, keep)
  {
    d := map[];
    var todo := built.Keys;
    while todo != {}
      invariant todo <= built.Keys && d.Keys <= built.Keys - todo
      invariant forall m | m in built.Keys - todo :: HasRow(d, m, TrimRow(built[m], keep))
      decreases |todo|
    {
      var m :| m in todo;
      todo := todo - {m};
      var row := PruneRow(built[m], keep);
      if row != map[] {
        d := d[m := row];
      }
      assert HasRow(d, m, row);
    }
    PrunedIs(built, keep, d);
  }

  lemma PrunedIs(built: Differences, keep: set<Name>, d: Differences)
    requires d.Keys <= built.Keys
    requires forall m | m in built.Keys :: HasRow(d, m, TrimRow(built[m], keep))
    ensures d == Pruned(built, keep)
  {
  }

  method BuildDifferences(local: Sheet, channels: seq<Channel>) returns (differences: Differences)
    ensures differences == Spec(local, channels)
  {
    var built := Build(local, channels);
    var keep := ChannelsWithDiff(built);
    differences := PruneAll(built, keep);
  }
}
