/**
 Deleting and appending keys, in terms of what an operator sees: exactly when a deletion
 leaves the other keys as they were, that bulk deletion is repeated single deletion, and
 exactly when appending leaves every existing key its state.
 */
module MultiKeyTheorems {
  import opened Basics
  import opened Text
  import opened MultiKey

  /** The keys of a row with their effective state. */
  function Shown(json: JsonArray, row: Row): seq<KeyView> {
    View(row, KeysOf(json, row.key))
  }

  function KeysIn(views: seq<KeyView>): seq<string> {
    seq(|views|, i requires 0 <= i < |views| => views[i].key)
  }

  lemma KeysInShown(json: JsonArray, row: Row)
    ensures KeysIn(Shown(json, row)) == KeysOf(json, row.key)
  {
  }

  function RemoveAt<T>(l: seq<T>, i: nat): seq<T>
    requires i < |l|
  {
    l[..i] + l[i + 1..]
  }

  /** The views that are not automatically disabled. */
  function Survivors(views: seq<KeyView>): seq<KeyView> {
    if views == [] then []
    else
      var front, last := Survivors(views[..|views| - 1]), views[|views| - 1];
      if last.status == AUTO_DISABLED then front else front + [last]
  }

  // ------------------------------------------------------------------- saving

  /** An empty array is the only text that saving counts differently. */
  lemma CountedIs(json: JsonArray, text: string)
    requires KeysOf(json, text) != []
    ensures CountedKeys(json, text) == KeysOf(json, text)
  {
  }

  /** Saving changes nothing about a row whose keys are readable and whose size is right. */
  lemma SavingKeeps(json: JsonArray, stored: Row, edited: Row, keys: seq<string>)
    requires Readable(json, keys) && edited.key == Join(keys, '\n') && edited.size == |keys|
    requires forall i | i in edited.status :: i < |keys|
    ensures Saved(json, stored, edited) == edited
    ensures KeysOf(json, edited.key) == keys && Sized(json, edited)
  {
    ReadableIff(json, keys);
    CountedIs(json, edited.key);
    var status := map i | i in edited.status && i < |keys| :: edited.status[i];
    assert status == edited.status;
  }

  /** What saving writes.  An empty text leaves the stored keys; statuses at or past the end
      are dropped and nothing else is; and the recorded size is the number of keys read back,
      unless the text is an array without keys. */
  lemma SavedIsSizedIff(json: JsonArray, stored: Row, edited: Row)
    ensures var r := Saved(json, stored, edited);
            && r.key == (if edited.key == "" then stored.key else edited.key)
            && (Sized(json, r) <==> r.key == "" || KeysOf(json, r.key) != [])
            && (forall i :: i in r.status <==> i in edited.status && i < r.size)
            && (forall i | i in r.status :: r.status[i] == edited.status[i])
            && r.time == edited.time && r.reason == edited.reason
  {
    var r := Saved(json, stored, edited);
    if KeysOf(json, r.key) != [] {
      CountedIs(json, r.key);
    }
  }

  // ----------------------------------------------------------------- deletion

  /** What a deletion of the positions outside `kept` leaves when those are readable. */
  lemma ReducedIs(json: JsonArray, row: Row, keys: seq<string>, kept: seq<nat>, timed: set<int>, reasoned: set<int>)
    requires (forall j | 0 <= j < |kept| :: kept[j] < |keys|) && Readable(json, Pick(keys, kept))
    requires timed == row.time.Keys || timed == Disabled(row.status)
    requires reasoned == row.reason.Keys || reasoned == Disabled(row.status)
    ensures var r := Saved(json, row, Reduced(row, keys, kept, timed, reasoned));
            && r.key == Join(Pick(keys, kept), '\n') && Sized(json, r) && InRange(r)
            && Shown(json, r) == Pick(View(row, keys), kept)
  {
    var r := Reduced(row, keys, kept, timed, reasoned);
    ReindexHas(row.status, kept, Disabled(row.status));
    ReindexHas(row.time, kept, timed);
    ReindexHas(row.reason, kept, reasoned);
    SavingKeeps(json, row, r, Pick(keys, kept));
    ReindexedView(row, r, keys, kept, timed, reasoned);
  }

  /** A deletion shows what it should exactly when the keys it leaves are readable. */
  lemma ReducedIff(json: JsonArray, row: Row, keys: seq<string>, kept: seq<nat>, timed: set<int>, reasoned: set<int>)
    requires keys == KeysOf(json, row.key) && |kept| < |keys| && forall j | 0 <= j < |kept| :: kept[j] < |keys|
    requires timed == row.time.Keys || timed == Disabled(row.status)
    requires reasoned == row.reason.Keys || reasoned == Disabled(row.status)
    ensures Shown(json, Saved(json, row, Reduced(row, keys, kept, timed, reasoned))) == Pick(View(row, keys), kept)
            <==> Readable(json, Pick(keys, kept))
  {
    var r := Saved(json, row, Reduced(row, keys, kept, timed, reasoned));
    if Readable(json, Pick(keys, kept)) {
      ReducedIs(json, row, keys, kept, timed, reasoned);
    }
    if Shown(json, r) == Pick(View(row, keys), kept) {
      SavingKeepsText(json, row, Reduced(row, keys, kept, timed, reasoned));
      ShownAreReadable(json, r, row, keys, kept);
    }
  }

  lemma SavingKeepsText(json: JsonArray, stored: Row, edited: Row)
    ensures Saved(json, stored, edited).key == if edited.key == "" then stored.key else edited.key
  {
  }

  lemma ShownAreReadable(json: JsonArray, r: Row, row: Row, keys: seq<string>, kept: seq<nat>)
    requires keys == KeysOf(json, row.key) && |kept| < |keys| && forall j | 0 <= j < |kept| :: kept[j] < |keys|
    requires Shown(json, r) == Pick(View(row, keys), kept)
    requires var text := Join(Pick(keys, kept), '\n'); r.key == if text == "" then row.key else text
    ensures Readable(json, Pick(keys, kept))
  {
    KeysInShown(json, r);
    assert |KeysOf(json, r.key)| == |kept|;
    assert KeysIn(Pick(View(row, keys), kept)) == Pick(keys, kept);
    ReadableIff(json, Pick(keys, kept));
  }

  lemma {:induction false} KeptAllBut(n: nat, i: nat)
    ensures |Kept(n, {i})| == if i < n then n - 1 else n
    ensures forall j | 0 <= j < |Kept(n, {i})| :: Kept(n, {i})[j] == if j < i then j else j + 1
    decreases n
  {
    if n > 0 {
      KeptAllBut(n - 1, i);
    }
  }

  lemma PickAllBut<T>(l: seq<T>, i: nat)
    requires i < |l|
    ensures forall j | 0 <= j < |Kept(|l|, {i})| :: Kept(|l|, {i})[j] < |l|
    ensures Pick(l, Kept(|l|, {i})) == RemoveAt(l, i)
  {
    KeptAllBut(|l|, i);
  }

  lemma {:induction false} PickSurvivors(row: Row, keys: seq<string>, n: nat)
    requires n <= |keys|
    ensures var kept := Kept(n, AutoDisabled(row.status));
            && (forall j | 0 <= j < |kept| :: kept[j] < |keys|)
            && Pick(View(row, keys), kept) == Survivors(View(row, keys)[..n])
    decreases n
  {
    var views := View(row, keys);
    KeptFacts(n, AutoDisabled(row.status));
    if n > 0 {
      PickSurvivors(row, keys, n - 1);
      assert views[..n][..n - 1] == views[..n - 1] && views[..n][n - 1] == ViewOf(row, keys, n - 1);
      if n - 1 !in AutoDisabled(row.status) {
        PickSnoc(views, Kept(n - 1, AutoDisabled(row.status)), n - 1);
      }
    }
  }

  /** The positions that bulk deletion keeps are those of the survivors. */
  lemma KeptSurvivors(row: Row, keys: seq<string>)
    ensures var kept, shown := Kept(|keys|, AutoDisabled(row.status)), View(row, keys);
            && |kept| <= |keys| && (forall j | 0 <= j < |kept| :: kept[j] < |keys|)
            && Pick(shown, kept) == Survivors(shown) && Pick(keys, kept) == KeysIn(Survivors(shown))
  {
    KeptFacts(|keys|, AutoDisabled(row.status));
    PickSurvivors(row, keys, |keys|);
    assert View(row, keys)[..|keys|] == View(row, keys);
  }

  /** Deleting one key is refused for the last one.  Otherwise it removes exactly its line
      from what is shown, every other key keeping its state, if and only if the other keys
      are readable; then also the size matches and no map index points past the keys. */
  lemma DeleteOneRemovesOne(json: JsonArray, row: Row, i: nat)
    requires Sized(json, row) && i < row.size
    ensures DeleteOne(json, row, i).Some? <==> row.size >= 2
    ensures row.size >= 2 ==>
              var r := Saved(json, row, DeleteOne(json, row, i).value);
              var left := RemoveAt(KeysOf(json, row.key), i);
              && (Shown(json, r) == RemoveAt(Shown(json, row), i) <==> Readable(json, left))
              && (Readable(json, left) ==> r.key == Join(left, '\n') && Sized(json, r) && InRange(r))
  {
    var keys := KeysOf(json, row.key);
    var kept := Kept(|keys|, {i});
    KeptAllBut(|keys|, i);
    PickAllBut(keys, i);
    PickAllBut(View(row, keys), i);
    if kept != [] {
      ReducedIff(json, row, keys, kept, row.time.Keys, row.reason.Keys);
      if Readable(json, Pick(keys, kept)) {
        ReducedIs(json, row, keys, kept, row.time.Keys, row.reason.Keys);
      }
    }
  }

  /** Exactly what deleting one key refuses: an index where no key is shown, and the last key. */
  lemma DeleteOneRefusedIff(json: JsonArray, row: Row, i: int)
    requires Sized(json, row)
    ensures DeleteOne(json, row, i).None? <==> i < 0 || i >= |Shown(json, row)| || |Shown(json, row)| == 1
  {
    var n := |KeysOf(json, row.key)|;
    if 0 <= i {
      KeptAllBut(n, i);
    }
  }

  /** Bulk deletion leaves exactly the keys that are not automatically disabled, in their
      state, if and only if these are readable. */
  lemma DeleteAutoWorksIff(json: JsonArray, row: Row)
    requires DeleteAuto(json, row).Some?
    ensures var r := Saved(json, row, DeleteAuto(json, row).value);
            var left := KeysIn(Survivors(Shown(json, row)));
            && (Shown(json, r) == Survivors(Shown(json, row)) <==> Readable(json, left))
            && (Readable(json, left) ==> r.key == Join(left, '\n') && Sized(json, r) && InRange(r))
  {
    var keys := KeysOf(json, row.key);
    var kept := Kept(|keys|, AutoDisabled(row.status));
    KeptSurvivors(row, keys);
    ReducedIff(json, row, keys, kept, Disabled(row.status), Disabled(row.status));
    if Readable(json, Pick(keys, kept)) {
      ReducedIs(json, row, keys, kept, Disabled(row.status), Disabled(row.status));
    }
  }

  lemma {:induction false} SurvivorsAreThere(views: seq<KeyView>)
    ensures forall k | k in KeysIn(Survivors(views)) :: k in KeysIn(views)
    ensures |Survivors(views)| <= |views| && (|Survivors(views)| == |views| ==> Survivors(views) == views)
    decreases views
  {
    if views != [] {
      var front, last := views[..|views| - 1], views[|views| - 1];
      SurvivorsAreThere(front);
      assert views == front + [last];
      assert KeysIn(views) == KeysIn(front) + [last.key];
      assert KeysIn(Survivors(front) + [last]) == KeysIn(Survivors(front)) + [last.key];
    }
  }

  /** In a row of plain keys bulk deletion works whenever a key survives. */
  lemma DeleteAutoKeepsSurvivors(json: JsonArray, row: Row)
    requires forall k | k in KeysOf(json, row.key) :: IsPlain(k)
    requires Survivors(Shown(json, row)) != [] && DeleteAuto(json, row).Some?
    ensures var r := Saved(json, row, DeleteAuto(json, row).value);
            Shown(json, r) == Survivors(Shown(json, row)) && Sized(json, r) && InRange(r)
  {
    KeysInShown(json, row);
    SurvivorsAreThere(Shown(json, row));
    PlainIsReadable(json, KeysIn(Survivors(Shown(json, row))));
    DeleteAutoWorksIff(json, row);
  }

  /** When every key is automatically disabled, bulk deletion deletes none: the empty
      text is not written, and all keys come back enabled. */
  lemma DeleteAutoOfAllReenables(json: JsonArray, row: Row)
    requires KeysOf(json, row.key) != [] && Survivors(Shown(json, row)) == []
    ensures DeleteAuto(json, row).Some?
    ensures var r := Saved(json, row, DeleteAuto(json, row).value);
            && r.key == row.key && Sized(json, r)
            && forall i | 0 <= i < |Shown(json, r)| :: Shown(json, r)[i] == KeyView(Shown(json, row)[i].key, ENABLED, 0, "")
  {
    var keys := KeysOf(json, row.key);
    KeptSurvivors(row, keys);
    assert |Kept(|keys|, AutoDisabled(row.status))| == |Survivors(Shown(json, row))| == 0;
    assert DeleteAuto(json, row) == Some(Row("", 0, map[], map[], map[]));
    CountedIs(json, row.key);
  }

  /** Creation goes line by line: an empty line leaves nothing, any other its trimmed text. */
  lemma {:induction false} CleanKeysAppend(a: seq<string>, b: seq<string>)
    ensures CleanKeys(a + b) == CleanKeys(a) + CleanKeys(b)
    ensures CleanKeys([""]) == [] && forall line | line != "" :: CleanKeys([line]) == [TrimSpace(line)]
    decreases b
  {
    forall line: string ensures [line][..0] == [] {
    }
    if b == [] {
      assert a + b == a;
    } else {
      CleanKeysAppend(a, b[..|b| - 1]);
      assert (a + b)[..|a + b| - 1] == a + b[..|b| - 1];
    }
  }

  /** The keys of a new channel are read back as they were counted exactly when readable. */
  lemma CreatedIsSizedIff(json: JsonArray, text: string)
    requires CleanKeys(Split(text, '\n')) != []
    ensures KeysOf(json, Created(text).key) == CleanKeys(Split(text, '\n')) <==> Readable(json, CleanKeys(Split(text, '\n')))
  {
    ReadableIff(json, CleanKeys(Split(text, '\n')));
  }

  /** A channel created from two keys around a blank line: its keys are readable, but once
      the first is deleted the empty key is at the start and gets lost.  The other one moves
      up, is enabled although it was disabled by hand, and its time points past the keys. */
  lemma BlankLineLosesState(json: JsonArray, x: string, y: string, row: Row)
    requires IsLine(x) && IsLine(y) && !("[" <= x) && !("[" <= y)
    requires row == Created(Join([x, " ", y], '\n')).(status := map[0 := AUTO_DISABLED, 2 := 2], time := map[2 := 7])
    ensures KeysOf(json, row.key) == [x, "", y] && Sized(json, row) && InRange(row)
    ensures Survivors(Shown(json, row)) == [KeyView("", ENABLED, 0, ""), KeyView(y, 2, 7, "")]
    ensures DeleteAuto(json, row).Some?
    ensures var r := Saved(json, row, DeleteAuto(json, row).value);
            Shown(json, r) == [KeyView(y, ENABLED, 0, "")] && r.size == 1 && r.time == map[1 := 7]
  {
    CleanOfThree(x, y);
    StoredWithBlank(json, x, y);
    SurvivorsOfThree(json, row, x, y);
    ReducedWithBlank(json, row, x, y);
    LeadingBlank(json, y);
  }

  lemma CleanOfThree(x: string, y: string)
    requires IsLine(x) && IsLine(y)
    ensures CleanKeys(Split(Join([x, " ", y], '\n'), '\n')) == [x, "", y]
  {
    SplitOfJoin([x, " ", y], '\n');
    TrimFacts(x, IsSpace);
    TrimFacts(y, IsSpace);
    TrimToNothing(" ", IsSpace);
    assert [x, " ", y][..2] == [x, " "] && [x, " "][..1] == [x] && [x][..0] == [];
    assert CleanKeys([x]) == [x];
    assert CleanKeys([x, " "]) == [x, ""];
  }

  lemma StoredWithBlank(json: JsonArray, x: string, y: string)
    requires IsLine(x) && IsLine(y) && !("[" <= x)
    ensures KeysOf(json, Join([x, "", y], '\n')) == [x, "", y]
  {
    TrimFacts(x, IsSpace);
    PlainStart(json, [x, "", y]);
    ReadableIff(json, [x, "", y]);
  }

  lemma SurvivorsOfThree(json: JsonArray, row: Row, x: string, y: string)
    requires KeysOf(json, row.key) == [x, "", y]
    requires row.status == map[0 := AUTO_DISABLED, 2 := 2] && row.time == map[2 := 7] && row.reason == map[]
    ensures Survivors(Shown(json, row)) == [KeyView("", ENABLED, 0, ""), KeyView(y, 2, 7, "")]
  {
    var a, b, c := KeyView(x, AUTO_DISABLED, 0, ""), KeyView("", ENABLED, 0, ""), KeyView(y, 2, 7, "");
    assert Shown(json, row) == [a, b, c];
    assert [a, b, c][..2] == [a, b] && [a, b][..1] == [a] && [a][..0] == [];
    assert Survivors([a]) == [] && Survivors([a, b]) == [b];
  }

  lemma ReducedWithBlank(json: JsonArray, row: Row, x: string, y: string)
    requires KeysOf(json, row.key) == [x, "", y]
    requires row.status == map[0 := AUTO_DISABLED, 2 := 2] && row.time == map[2 := 7] && row.reason == map[]
    ensures DeleteAuto(json, row) == Some(Row("\n" + y, 2, map[1 := 2], map[1 := 7], map[]))
  {
    var keys, kept: seq<nat> := [x, "", y], Kept(3, {0});
    assert AutoDisabled(row.status) == {0};
    KeptAllBut(3, 0);
    assert kept == [1, 2];
    assert Pick(keys, kept) == ["", y] && Join(["", y], '\n') == "\n" + y;
    ReindexTwo(row.status, Disabled(row.status));
    ReindexTwo(row.time, Disabled(row.status));
    ReindexTwo(row.reason, Disabled(row.status));
  }

  lemma ReindexTwo<T>(m: map<int, T>, only: set<int>)
    requires 1 !in m
    ensures Reindex(m, [1, 2], only) == if 2 in m && 2 in only then map[1 := m[2]] else map[]
  {
    assert [1, 2][..1] == [1] && [1][..0] == [];
    assert Reindex(m, [1], only) == map[];
  }

  lemma LeadingBlank(json: JsonArray, y: string)
    requires IsLine(y) && !("[" <= y)
    ensures KeysOf(json, "\n" + y) == [y] == CountedKeys(json, "\n" + y)
  {
    var text := "\n" + y;
    assert text[1..] == y;
    TrimFacts(y, IsSpace);
    TrimFacts(y, c => c == '\n');
    assert TrimLeft(text, IsSpace) == TrimLeft(y, IsSpace);
    assert TrimLeft(text, c => c == '\n') == TrimLeft(y, c => c == '\n');
    SplitPrefix(y, "", '\n');
  }

  // ------------------------------------------------- bulk and single deletion

  /** `delete_key` on each automatically disabled position below `i`, highest first. */
  function DeleteEach(json: JsonArray, row: Row, i: nat): Row
    decreases i
  {
    if i == 0 then row
    else if i <= |Shown(json, row)| && Shown(json, row)[i - 1].status == AUTO_DISABLED && DeleteOne(json, row, i - 1).Some?
    then DeleteEach(json, Saved(json, row, DeleteOne(json, row, i - 1).value), i - 1)
    else DeleteEach(json, row, i - 1)
  }

  /** Every one of these deletions is accepted and removes exactly one line. */
  predicate EachWorks(json: JsonArray, row: Row, i: nat)
    decreases i
  {
    i == 0
    || if i <= |Shown(json, row)| && Shown(json, row)[i - 1].status == AUTO_DISABLED
       then
         && DeleteOne(json, row, i - 1).Some?
         && var next := Saved(json, row, DeleteOne(json, row, i - 1).value);
         Shown(json, next) == RemoveAt(Shown(json, row), i - 1) && EachWorks(json, next, i - 1)
       else EachWorks(json, row, i - 1)
  }

  /** The keys left by every one of these deletions are readable. */
  predicate StepsReadable(json: JsonArray, shown: seq<KeyView>, i: nat)
    requires i <= |shown|
    decreases i
  {
    i == 0
    || if shown[i - 1].status == AUTO_DISABLED
       then Readable(json, KeysIn(RemoveAt(shown, i - 1))) && StepsReadable(json, RemoveAt(shown, i - 1), i - 1)
       else StepsReadable(json, shown, i - 1)
  }

  lemma KeysInRemoved(views: seq<KeyView>, i: nat)
    requires i < |views|
    ensures KeysIn(RemoveAt(views, i)) == RemoveAt(KeysIn(views), i)
  {
  }

  lemma OneStep(json: JsonArray, row: Row, i: nat)
    requires Sized(json, row) && i < row.size
    ensures Readable(json, KeysIn(RemoveAt(Shown(json, row), i))) <==>
            && DeleteOne(json, row, i).Some?
            && Shown(json, Saved(json, row, DeleteOne(json, row, i).value)) == RemoveAt(Shown(json, row), i)
    ensures Readable(json, KeysIn(RemoveAt(Shown(json, row), i))) ==>
              var r := Saved(json, row, DeleteOne(json, row, i).value);
              r.key == Join(KeysIn(Shown(json, r)), '\n') && Sized(json, r) && InRange(r)
  {
    KeysInShown(json, row);
    KeysInRemoved(Shown(json, row), i);
    DeleteOneRemovesOne(json, row, i);
  }

  /** Repeated single deletion works all the way exactly when all lists on the way are readable. */
  lemma {:induction false} EachWorksIff(json: JsonArray, row: Row, i: nat)
    requires Sized(json, row) && i <= row.size
    ensures EachWorks(json, row, i) <==> StepsReadable(json, Shown(json, row), i)
    decreases i
  {
    if i > 0 {
      if Shown(json, row)[i - 1].status == AUTO_DISABLED {
        OneStep(json, row, i - 1);
        if Readable(json, KeysIn(RemoveAt(Shown(json, row), i - 1))) {
          EachWorksIff(json, Saved(json, row, DeleteOne(json, row, i - 1).value), i - 1);
        }
      } else {
        EachWorksIff(json, row, i - 1);
      }
    }
  }

  /** What is shown after the positions below `i` have been treated. */
  function Treated(shown: seq<KeyView>, i: nat): seq<KeyView>
    requires i <= |shown|
  {
    Survivors(shown[..i]) + shown[i..]
  }

  lemma TopRemoved(shown: seq<KeyView>, i: nat)
    requires 0 < i <= |shown| && shown[i - 1].status == AUTO_DISABLED
    ensures Treated(RemoveAt(shown, i - 1), i - 1) == Treated(shown, i)
    ensures |Survivors(RemoveAt(shown, i - 1)[..i - 1])| == |Survivors(shown[..i])|
  {
    assert shown[..i][..i - 1] == shown[..i - 1] && shown[..i][i - 1] == shown[i - 1];
    assert RemoveAt(shown, i - 1)[..i - 1] == shown[..i - 1] && RemoveAt(shown, i - 1)[i - 1..] == shown[i..];
  }

  lemma TopKept(shown: seq<KeyView>, i: nat)
    requires 0 < i <= |shown| && shown[i - 1].status != AUTO_DISABLED
    ensures Treated(shown, i - 1) == Treated(shown, i)
    ensures |Survivors(shown[..i])| == |Survivors(shown[..i - 1])| + 1
  {
    assert shown[..i][..i - 1] == shown[..i - 1] && shown[..i][i - 1] == shown[i - 1];
    assert shown[i - 1..] == [shown[i - 1]] + shown[i..];
  }

  /** Kept as joined text, with indices in range, as a deletion leaves it. */
  predicate Normal(json: JsonArray, row: Row) {
    row.key == Join(KeysIn(Shown(json, row)), '\n') && InRange(row)
  }

  lemma TopDeleted(json: JsonArray, row: Row, i: nat)
    requires Sized(json, row) && 0 < i <= row.size && Shown(json, row)[i - 1].status == AUTO_DISABLED
    requires StepsReadable(json, Shown(json, row), i)
    ensures DeleteOne(json, row, i - 1).Some?
    ensures var r := Saved(json, row, DeleteOne(json, row, i - 1).value);
            && Sized(json, r) && Normal(json, r) && i - 1 <= r.size && StepsReadable(json, Shown(json, r), i - 1)
            && Treated(Shown(json, r), i - 1) == Treated(Shown(json, row), i)
  {
    OneStep(json, row, i - 1);
    TopRemoved(Shown(json, row), i);
    var shown := Shown(json, Saved(json, row, DeleteOne(json, row, i - 1).value));
    assert |shown| == |RemoveAt(Shown(json, row), i - 1)| == row.size - 1;
  }

  lemma DeleteEachStep(json: JsonArray, row: Row, i: nat)
    requires 0 < i <= |Shown(json, row)| && Shown(json, row)[i - 1].status == AUTO_DISABLED && DeleteOne(json, row, i - 1).Some?
    ensures DeleteEach(json, row, i) == DeleteEach(json, Saved(json, row, DeleteOne(json, row, i - 1).value), i - 1)
  {
  }

  lemma TopSkipped(json: JsonArray, row: Row, i: nat)
    requires Sized(json, row) && 0 < i <= row.size && Shown(json, row)[i - 1].status != AUTO_DISABLED
    requires StepsReadable(json, Shown(json, row), i)
    ensures StepsReadable(json, Shown(json, row), i - 1) && DeleteEach(json, row, i) == DeleteEach(json, row, i - 1)
    ensures Treated(Shown(json, row), i - 1) == Treated(Shown(json, row), i)
    ensures |Survivors(Shown(json, row)[..i])| == |Survivors(Shown(json, row)[..i - 1])| + 1
  {
    TopKept(Shown(json, row), i);
  }

  /** Single deletions from the top leave the survivors below `i` and everything above. */
  lemma {:induction false} DeleteEachIs(json: JsonArray, row: Row, i: nat, target: seq<KeyView>)
    requires Sized(json, row) && i <= row.size && target == Treated(Shown(json, row), i)
    requires StepsReadable(json, Shown(json, row), i)
    ensures Shown(json, DeleteEach(json, row, i)) == target && Sized(json, DeleteEach(json, row, i))
    ensures Normal(json, row) || |Survivors(Shown(json, row)[..i])| < i ==> Normal(json, DeleteEach(json, row, i))
    decreases i
  {
    if i == 0 {
      assert Shown(json, row)[0..] == Shown(json, row);
    } else if Shown(json, row)[i - 1].status == AUTO_DISABLED {
      TopDeleted(json, row, i);
      DeleteEachStep(json, row, i);
      DeleteEachIs(json, Saved(json, row, DeleteOne(json, row, i - 1).value), i - 1, target);
    } else {
      TopSkipped(json, row, i);
      DeleteEachIs(json, row, i - 1, target);
    }
  }

  /** The last list on the way is that of the survivors. */
  lemma {:induction false} StepsEndReadable(json: JsonArray, shown: seq<KeyView>, i: nat)
    requires i <= |shown| && StepsReadable(json, shown, i) && |Survivors(shown[..i])| < i
    ensures Readable(json, KeysIn(Treated(shown, i)))
    decreases i
  {
    if shown[i - 1].status == AUTO_DISABLED {
      var left := RemoveAt(shown, i - 1);
      TopRemoved(shown, i);
      SurvivorsAreThere(left[..i - 1]);
      if |Survivors(left[..i - 1])| < i - 1 {
        StepsEndReadable(json, left, i - 1);
      } else {
        assert Treated(left, i - 1) == left;
      }
    } else {
      TopKept(shown, i);
      StepsEndReadable(json, shown, i - 1);
    }
  }

  lemma AllTreated(json: JsonArray, row: Row)
    requires Sized(json, row)
    ensures Treated(Shown(json, row), row.size) == Survivors(Shown(json, row)) && Shown(json, row)[..row.size] == Shown(json, row)
  {
    var shown := Shown(json, row);
    assert shown[..row.size] == shown && shown[row.size..] == [];
  }

  lemma EachIsSurvivors(json: JsonArray, row: Row)
    requires Sized(json, row) && StepsReadable(json, Shown(json, row), row.size) && DeleteAuto(json, row).Some?
    ensures var each := DeleteEach(json, row, row.size);
            Shown(json, each) == Survivors(Shown(json, row)) && Sized(json, each) && Normal(json, each)
  {
    FewerSurvive(json, row);
    AllTreated(json, row);
    DeleteEachIs(json, row, row.size, Survivors(Shown(json, row)));
  }

  lemma BulkIsSurvivors(json: JsonArray, row: Row)
    requires Sized(json, row) && StepsReadable(json, Shown(json, row), row.size) && DeleteAuto(json, row).Some?
    ensures var bulk := Saved(json, row, DeleteAuto(json, row).value);
            Shown(json, bulk) == Survivors(Shown(json, row)) && Sized(json, bulk) && Normal(json, bulk)
  {
    FewerSurvive(json, row);
    AllTreated(json, row);
    StepsEndReadable(json, Shown(json, row), row.size);
    DeleteAutoWorksIff(json, row);
  }

  /** Where all lists on the way are readable, bulk deletion and repeated single deletion
      store the same keys and show them in the same state. */
  lemma BulkIsRepeatedSingle(json: JsonArray, row: Row)
    requires Sized(json, row) && StepsReadable(json, Shown(json, row), row.size) && DeleteAuto(json, row).Some?
    ensures var bulk := Saved(json, row, DeleteAuto(json, row).value);
            var each := DeleteEach(json, row, row.size);
            && Shown(json, bulk) == Shown(json, each) == Survivors(Shown(json, row))
            && bulk.key == each.key && bulk.size == each.size == |Shown(json, each)|
            && InRange(bulk) && InRange(each)
  {
    EachIsSurvivors(json, row);
    BulkIsSurvivors(json, row);
    SameRows(json, Saved(json, row, DeleteAuto(json, row).value), DeleteEach(json, row, row.size));
  }

  lemma SameRows(json: JsonArray, a: Row, b: Row)
    requires Normal(json, a) && Normal(json, b) && Sized(json, a) && Sized(json, b) && Shown(json, a) == Shown(json, b)
    ensures a.key == b.key && a.size == b.size == |Shown(json, b)|
  {
  }

  lemma FewerSurvive(json: JsonArray, row: Row)
    requires Sized(json, row) && DeleteAuto(json, row).Some?
    ensures |Survivors(Shown(json, row))| < row.size
  {
    KeptSurvivors(row, KeysOf(json, row.key));
    assert |Pick(Shown(json, row), Kept(row.size, AutoDisabled(row.status)))| == |Kept(row.size, AutoDisabled(row.status))|;
  }

  /** In a row of plain keys all lists on the way are readable whenever a key survives. */
  lemma {:induction false} PlainStepsReadable(json: JsonArray, shown: seq<KeyView>, i: nat)
    requires i <= |shown| && Treated(shown, i) != [] && forall k | k in KeysIn(shown) :: IsPlain(k)
    ensures StepsReadable(json, shown, i)
    decreases i
  {
    if i > 0 {
      if shown[i - 1].status == AUTO_DISABLED {
        var left := RemoveAt(shown, i - 1);
        TopRemoved(shown, i);
        assert Survivors([]) == [];
        forall k | k in KeysIn(left) ensures IsPlain(k) {
          var j :| 0 <= j < |left| && left[j].key == k;
          assert KeysIn(shown)[if j < i - 1 then j else j + 1] == k;
        }
        assert left != [];
        PlainIsReadable(json, KeysIn(left));
        PlainStepsReadable(json, left, i - 1);
      } else {
        TopKept(shown, i);
        PlainStepsReadable(json, shown, i - 1);
      }
    }
  }

  // ------------------------------------------------------------------ merging

  predicate DistinctBy(id: string -> string, l: seq<string>) {
    forall i, j | 0 <= i < j < |l| :: id(l[i]) != id(l[j])
  }

  lemma {:induction false} NovelAppend(id: string -> string, seen: set<string>, a: seq<string>, b: seq<string>)
    ensures Novel(id, seen, a + b) == Novel(id, seen, a) + Novel(id, seen + Ids(id, a), b)
    decreases b
  {
    if b == [] {
      assert a + b == a;
    } else {
      var front, last := b[..|b| - 1], b[|b| - 1];
      NovelAppend(id, seen, a, front);
      assert (a + b)[..|a + b| - 1] == a + front && (a + b)[|a + b| - 1] == last;
      assert Ids(id, a + front) == Ids(id, a) + Ids(id, front) by {
        assert forall x | x in a :: x in a + front;
        assert forall x | x in front :: x in a + front;
      }
    }
  }

  lemma {:induction false} NovelOfDistinct(id: string -> string, l: seq<string>)
    requires DistinctBy(id, l)
    ensures Novel(id, {}, l) == l
    decreases l
  {
    if l != [] {
      var front, last := l[..|l| - 1], l[|l| - 1];
      NovelOfDistinct(id, front);
      assert l == front + [last];
      forall x | x in front ensures id(x) != id(last) {
        var i :| 0 <= i < |front| && front[i] == x;
        assert l[i] == x;
      }
    }
  }

  /** Novel entries are exactly the first bearers of identities not seen before. */
  lemma {:induction false} NovelIsFirstBearer(id: string -> string, seen: set<string>, l: seq<string>)
    ensures DistinctBy(id, Novel(id, seen, l))
    ensures Ids(id, Novel(id, seen, l)) == Ids(id, l) - seen
    ensures forall x | x in Novel(id, seen, l) :: x in l && id(x) !in seen
    decreases l
  {
    if l != [] {
      var front, last := l[..|l| - 1], l[|l| - 1];
      NovelIsFirstBearer(id, seen, front);
      assert l == front + [last];
      IdsSnoc(id, front, last);
      IdsSnoc(id, Novel(id, seen, front), last);
      forall x | x in Novel(id, seen, front) ensures id(x) in Ids(id, front) {
        assert x in front;
      }
    }
  }

  /** The first entry with a given identity is the one that is kept. */
  lemma {:induction false} FirstBearerIsKept(id: string -> string, seen: set<string>, l: seq<string>, j: nat)
    requires j < |l| && id(l[j]) !in seen && forall i | 0 <= i < j :: id(l[i]) != id(l[j])
    ensures l[j] in Novel(id, seen, l)
    decreases l
  {
    var front := l[..|l| - 1];
    if j < |front| {
      FirstBearerIsKept(id, seen, front, j);
    } else {
      forall x | x in front ensures id(x) != id(l[j]) {
        var i :| 0 <= i < |front| && front[i] == x;
        assert l[i] == x;
      }
    }
  }

  /** Merging into existing, distinct keys keeps them as a prefix and adds only new identities. */
  lemma MergeKeepsExisting(id: string -> string, existing: seq<string>, added: seq<string>)
    requires AreLines(existing) && DistinctBy(id, existing)
    ensures Novel(id, {}, TrimAll(existing + added)) == existing + Novel(id, Ids(id, existing), TrimAll(added))
  {
    TrimAllAppend(existing, added);
    TrimAllOfLines(existing);
    NovelAppend(id, {}, existing, TrimAll(added));
    NovelOfDistinct(id, existing);
    assert {} + Ids(id, existing) == Ids(id, existing);
  }

  lemma FlattenOne(group: seq<string>)
    ensures Flatten([group]) == group
  {
    assert [group][..0] == [];
  }

  lemma {:induction false} FlattenAppend(a: seq<seq<string>>, b: seq<seq<string>>)
    ensures Flatten(a + b) == Flatten(a) + Flatten(b)
    decreases b
  {
    if b == [] {
      assert a + b == a;
    } else {
      var front, last := b[..|b| - 1], b[|b| - 1];
      FlattenAppend(a, front);
      assert (a + b)[..|a + b| - 1] == a + front;
      assert Flatten(a + b) == Flatten(a + front) + last;
      Regroup(Flatten(a), Flatten(front), last);
    }
  }

  lemma Regroup(a: seq<string>, b: seq<string>, c: seq<string>)
    ensures (a + b) + c == a + (b + c)
  {
  }

  /** Merging groups of keys keeps their order: distinct lines of the first group come
      first, as they are, followed by the first occurrences of what the others add. */
  lemma GroupsMergeInOrder(existing: seq<string>, groups: seq<seq<string>>)
    requires AreLines(existing) && DistinctBy(Itself, existing)
    ensures Novel(Itself, {}, TrimAll(Flatten([existing] + groups)))
            == existing + Novel(Itself, Ids(Itself, existing), TrimAll(Flatten(groups)))
  {
    FlattenOne(existing);
    FlattenAppend([existing], groups);
    MergeKeepsExisting(Itself, existing, Flatten(groups));
  }

  function Fresh(keys: seq<string>): seq<KeyView> {
    seq(|keys|, i requires 0 <= i < |keys| => KeyView(keys[i], ENABLED, 0, ""))
  }

  /** The lines an append to `keys` adds. */
  function AddedTo(keys: seq<string>, submitted: string): seq<string> {
    Novel(Itself, Ids(Itself, TrimAll(keys)), TrimAll(Split(submitted, '\n')))
  }

  lemma AddedFacts(keys: seq<string>, submitted: string)
    ensures AreLines(AddedTo(keys, submitted)) && DistinctBy(Itself, AddedTo(keys, submitted))
    ensures forall k | k in AddedTo(keys, submitted) :: k !in TrimAll(keys)
  {
    SubmissionIsLines(submitted);
    NovelIsFirstBearer(Itself, Ids(Itself, TrimAll(keys)), TrimAll(Split(submitted, '\n')));
  }

  /** Appending to an ordinary channel leaves every existing key its place and state, with
      the new keys following enabled, each once and none repeated, if and only if old and
      new keys together are readable, or there is nothing to store.  This is about every
      stored text but one that opens a bracket without being an array. */
  lemma AppendKeepsStateIff(json: JsonArray, row: Row, submitted: string)
    requires row.key != "" && (LooksLikeJson(row.key) ==> IsArray(json, row.key)) && Sized(json, row) && InRange(row)
    ensures var keys := KeysOf(json, row.key);
            var all := keys + AddedTo(keys, submitted);
            var r := Saved(json, row, row.(key := Appended(json, row.key, submitted)));
            && (Shown(json, r) == Shown(json, row) + Fresh(AddedTo(keys, submitted))
                <==> Readable(json, all) || Join(all, '\n') == "")
            && (Readable(json, all) ==> Sized(json, r) && InRange(r))
  {
    var keys := KeysOf(json, row.key);
    ReadersAgree(json, row.key);
    if Join(keys + AddedTo(keys, submitted), '\n') == "" {
      NothingStored(keys, submitted);
      AppendingNothing(json, row);
    } else {
      AppendingIff(json, row, keys, AddedTo(keys, submitted));
    }
  }

  lemma AppendingIff(json: JsonArray, row: Row, keys: seq<string>, added: seq<string>)
    requires keys == KeysOf(json, row.key) && row.size == |keys| && InRange(row) && Join(keys + added, '\n') != ""
    ensures var r := Saved(json, row, row.(key := Join(keys + added, '\n')));
            && (Shown(json, r) == Shown(json, row) + Fresh(added) <==> Readable(json, keys + added))
            && (Readable(json, keys + added) ==> Sized(json, r) && InRange(r))
  {
    var r := Saved(json, row, row.(key := Join(keys + added, '\n')));
    if Readable(json, keys + added) {
      SavingAppended(json, row, keys + added);
      ViewAppend(row, r, keys, added);
    }
    if Shown(json, r) == Shown(json, row) + Fresh(added) {
      KeysInShown(json, r);
      assert KeysIn(Shown(json, row) + Fresh(added)) == keys + added;
      ReadableIff(json, keys + added);
    }
  }

  lemma NothingStored(keys: seq<string>, submitted: string)
    requires Join(keys + AddedTo(keys, submitted), '\n') == ""
    ensures AddedTo(keys, submitted) == []
  {
    var added := AddedTo(keys, submitted);
    AddedFacts(keys, submitted);
    if added != [] {
      assert IsLine(LastOf(added)) && LastOf(keys + added) == LastOf(added);
      EndsOfJoin(keys + added, '\n');
    }
  }

  lemma AppendingNothing(json: JsonArray, row: Row)
    requires Sized(json, row) && InRange(row)
    ensures Shown(json, Saved(json, row, row.(key := ""))) == Shown(json, row) + Fresh([])
  {
    if KeysOf(json, row.key) != [] {
      CountedIs(json, row.key);
    }
  }

  lemma StartOfLines(text: string)
    requires text != "" && !LooksLikeJson(text) && TrimSpace(Split(Trim(text, '\n'), '\n')[0]) != ""
    ensures !LooksLikeJson(Split(Trim(text, '\n'), '\n')[0]) && Survives(Split(Trim(text, '\n'), '\n'), '\n')
  {
    var cut := c => c == '\n';
    var rest, t := TrimLeft(text, cut), Trim(text, '\n');
    var keys := Split(t, '\n');
    JoinOfSplit(t, '\n');
    TrimToNothing(keys[0], IsSpace);
    TrimFacts(text, cut);
    TrimFacts(t, cut);
    ReadOfJoinIff(keys, '\n');
    EndsOfJoin(keys, '\n');
    TrimRightFacts(rest, cut);
    TrimLeftTwice(text, cut, IsSpace);
    var tail := if |keys| == 1 then "" else ['\n'] + Join(keys[1..], '\n');
    assert t == keys[0] + tail && rest == t + rest[|t|..];
    TrimOfConcat(keys[0], tail, IsSpace);
    TrimOfConcat(t, rest[|t|..], IsSpace);
    assert TrimSpace(rest) == TrimSpace(text);
  }

  /** So in the newline format every append works unless the first key is blank. */
  lemma AppendKeepsState(json: JsonArray, row: Row, submitted: string)
    requires row.key != "" && !LooksLikeJson(row.key) && Sized(json, row) && InRange(row)
    requires TrimSpace(KeysOf(json, row.key)[0]) != ""
    ensures var keys := KeysOf(json, row.key);
            var r := Saved(json, row, row.(key := Appended(json, row.key, submitted)));
            Shown(json, r) == Shown(json, row) + Fresh(AddedTo(keys, submitted)) && Sized(json, r) && InRange(r)
  {
    var keys := KeysOf(json, row.key);
    var added := AddedTo(keys, submitted);
    StartOfLines(row.key);
    AddedFacts(keys, submitted);
    assert added != [] ==> IsLine(LastOf(added)) && LastOf(keys + added) == LastOf(added);
    assert Survives(keys + added, '\n');
    PlainStart(json, keys + added);
    AppendKeepsStateIff(json, row, submitted);
  }

  /** A stored text that opens a bracket without being an array is overwritten: the append
      branch takes it for no keys, and the new keys show up in the states of the old ones. */
  lemma BrokenArrayIsOverwritten(json: JsonArray, row: Row, submitted: string)
    requires LooksLikeJson(row.key) && !IsArray(json, row.key)
    requires var lines := TrimAll(Split(submitted, '\n')); lines != [] && !("[" <= lines[0])
    ensures var added := AddedTo([], submitted);
            var r := Saved(json, row, row.(key := Appended(json, row.key, submitted)));
            && KeysOf(json, r.key) == added != [] && Sized(json, r)
            && Shown(json, r) == View(row, added)
  {
    var added := AddedTo([], submitted);
    ReadersAgree(json, row.key);
    assert [] + added == added;
    AddedToNothing(submitted);
    StoringAnew(json, row, added);
  }

  lemma AddedToNothing(submitted: string)
    requires var lines := TrimAll(Split(submitted, '\n')); lines != [] && !("[" <= lines[0])
    ensures AddedTo([], submitted) != [] && Storable(AddedTo([], submitted))
  {
    AddedFacts([], submitted);
    assert Ids(Itself, TrimAll([])) == {};
    NovelKeepsFirst(Itself, TrimAll(Split(submitted, '\n')));
  }

  lemma StoringAnew(json: JsonArray, row: Row, keys: seq<string>)
    requires keys != [] && Storable(keys)
    ensures var r := Saved(json, row, row.(key := Join(keys, '\n')));
            KeysOf(json, r.key) == keys && Sized(json, r) && Shown(json, r) == View(row, keys)
  {
    KeysRoundTrip(json, keys);
    CountedIs(json, Join(keys, '\n'));
  }

  lemma SubmissionIsLines(submitted: string)
    ensures AreLines(TrimAll(Split(submitted, '\n')))
  {
    PiecesHaveNoSeparator(submitted, '\n');
    TrimAllIsTrimmed(Split(submitted, '\n'));
  }

  lemma SavingAppended(json: JsonArray, row: Row, all: seq<string>)
    requires InRange(row) && Readable(json, all) && row.size <= |all|
    ensures var edited := row.(key := Join(all, '\n'), size := |all|);
            && Saved(json, row, row.(key := Join(all, '\n'))) == edited == Saved(json, row, edited)
            && KeysOf(json, edited.key) == all && Sized(json, edited) && InRange(edited)
  {
    var edited := row.(key := Join(all, '\n'), size := |all|);
    SavingKeeps(json, row, edited, all);
    assert Saved(json, row, row.(key := Join(all, '\n'))) == Saved(json, row, edited);
  }

  lemma ViewAppend(row: Row, row': Row, keys: seq<string>, added: seq<string>)
    requires InRange(row) && row.size == |keys|
    requires row'.status == row.status && row'.time == row.time && row'.reason == row.reason
    ensures View(row', keys + added) == View(row, keys) + Fresh(added)
  {
    var all := keys + added;
    forall i: nat | i < |all| ensures ViewOf(row', all, i) == (View(row, keys) + Fresh(added))[i] {
      if i < |keys| {
        assert all[i] == keys[i];
      } else {
        assert all[i] == added[i - |keys|] && i !in row.status;
      }
    }
  }

  // ------------------------------------------------------------ Codex channels

  /** What is stored after `submitted` has been appended to a Codex channel. */
  function CodexStored(json: JsonArray, codex: Codex, row: Row, submitted: string): Row
    requires CodexUpdate(json, codex, row.key, Patch(row.(key := submitted), true), true).Some?
  {
    SavedPatch(json, row, CodexUpdate(json, codex, row.key, Patch(row.(key := submitted), true), true).value)
  }

  /** A submission that Codex reads as `newKeys`, each on one line. */
  predicate Reads(codex: Codex, submitted: string, newKeys: seq<string>) {
    TrimSpace(submitted) != "" && codex.parse(submitted) == Some(newKeys) && forall k | k in newKeys :: '\n' !in k
  }

  lemma NewKeysAreLines(newKeys: seq<string>)
    requires forall k | k in newKeys :: '\n' !in k
    ensures AreLines(TrimAll(newKeys))
  {
    TrimAllIsTrimmed(newKeys);
  }

  lemma NovelKeepsFirst(id: string -> string, l: seq<string>)
    requires l != []
    ensures Novel(id, {}, l) != [] && Novel(id, {}, l)[0] == l[0]
  {
    assert l == l[..1] + l[1..];
    assert l[..1][..0] == [] && l[..1][0] == l[0];
    NovelAppend(id, {}, l[..1], l[1..]);
    assert Novel(id, {}, l[..1]) == [l[0]];
  }

  /** The row that holds `all` instead of the keys of `row`. */
  function Remains(json: JsonArray, row: Row, all: seq<string>): Row {
    if |all| > 1 then Saved(json, row, row.(key := Join(all, '\n'), size := |all|))
    else Row(Join(all, '\n'), |all|, map[], map[], map[])
  }

  lemma MergedFacts(id: string -> string, keys: seq<string>, newKeys: seq<string>)
    requires TrimAll(keys) + TrimAll(newKeys) != []
    ensures var merged := TrimAll(keys) + TrimAll(newKeys);
            var all := Novel(id, {}, merged);
            all != [] && all[0] == merged[0] && Join(all, '\n') != "" && forall k | k in all :: IsTrimmed(k)
  {
    var merged := TrimAll(keys) + TrimAll(newKeys);
    TrimAllIsTrimmed(keys);
    TrimAllIsTrimmed(newKeys);
    NovelIsFirstBearer(id, {}, merged);
    NovelKeepsFirst(id, merged);
    assert merged[0] in merged && IsTrimmed(merged[0]);
    EndsOfJoin(Novel(id, {}, merged), '\n');
  }

  lemma MergedIs(json: JsonArray, text: string, newKeys: seq<string>)
    ensures TrimAll(SplitStored(json, text) + newKeys) == TrimAll(KeysOf(json, text)) + TrimAll(newKeys)
  {
    var keys := KeysOf(json, text);
    TrimAllAppend(SplitStored(json, text), newKeys);
    TrimAllIsTrimmed(keys);
    TrimAllOfTrimmed(TrimAll(keys));
    if text == "" {
      TrimToNothing(text, IsSpace);
    } else {
      ReadersAgree(json, text);
    }
  }

  /** A Codex append stores the first key of each identity, old keys before new ones, all
      trimmed and none blank; a single remaining key loses all per-key state. */
  lemma CodexStoredIs(json: JsonArray, codex: Codex, row: Row, submitted: string, newKeys: seq<string>)
    requires Reads(codex, submitted, newKeys) && TrimAll(KeysOf(json, row.key)) + TrimAll(newKeys) != []
    ensures CodexUpdate(json, codex, row.key, Patch(row.(key := submitted), true), true).Some?
    ensures var merged := TrimAll(KeysOf(json, row.key)) + TrimAll(newKeys);
            var all := Novel(codex.identity, {}, merged);
            && CodexStored(json, codex, row, submitted) == Remains(json, row, all)
            && all != [] && all[0] == merged[0] && Join(all, '\n') != "" && forall k | k in all :: IsTrimmed(k)
  {
    MergedIs(json, row.key, newKeys);
    MergedFacts(codex.identity, KeysOf(json, row.key), newKeys);
  }

  /** The state that a Codex append keeps: every existing key its place, its state, and
      nothing else in between.  It does so exactly when the existing keys are trimmed lines,
      no two of them have one identity, and the channel does not end up with a single key
      that was disabled. */
  lemma CodexAppendKeepsStateIff(json: JsonArray, codex: Codex, row: Row, submitted: string, newKeys: seq<string>)
    requires Sized(json, row) && InRange(row) && Reads(codex, submitted, newKeys)
    requires var merged := TrimAll(KeysOf(json, row.key)) + TrimAll(newKeys); merged != [] && !("[" <= merged[0])
    ensures CodexUpdate(json, codex, row.key, Patch(row.(key := submitted), true), true).Some?
    ensures var id, keys, shown := codex.identity, KeysOf(json, row.key), Shown(json, row);
            var added := Novel(id, Ids(id, keys), TrimAll(newKeys));
            var r := CodexStored(json, codex, row, submitted);
            && (shown <= Shown(json, r)
                <==> AreLines(keys) && DistinctBy(id, keys) && (|keys + added| > 1 || keys == [] || shown[0].status == ENABLED))
            && (AreLines(keys) && DistinctBy(id, keys) && |keys + added| > 1 ==>
                  Shown(json, r) == shown + Fresh(added) && InRange(r))
  {
    var id, keys := codex.identity, KeysOf(json, row.key);
    var lines, r := TrimAll(newKeys), CodexStored(json, codex, row, submitted);
    CodexStoredIs(json, codex, row, submitted, newKeys);
    NewKeysAreLines(newKeys);
    if AreLines(keys) {
      TrimAllOfLines(keys);
      NovelIsFirstBearer(id, {}, keys + lines);
      RemainsIff(json, id, row, lines, r);
    } else if Shown(json, row) <= Shown(json, r) {
      KeysOfShown(json, row, r);
      OnlyLinesRemain(json, id, row, keys, lines, r);
      assert false;
    }
  }

  /** Whatever is read back from a Codex append consists of trimmed lines, as far as it
      begins with what was there before. */
  lemma OnlyLinesRemain(json: JsonArray, id: string -> string, row: Row, keys: seq<string>, lines: seq<string>, r: Row)
    requires AreLines(lines) && TrimAll(keys) + lines != [] && !("[" <= (TrimAll(keys) + lines)[0])
    requires var all := Novel(id, {}, TrimAll(keys) + lines);
             && r == Remains(json, row, all)
             && all != [] && all[0] == (TrimAll(keys) + lines)[0] && Join(all, '\n') != "" && forall k | k in all :: IsTrimmed(k)
    requires keys <= KeysOf(json, r.key)
    ensures AreLines(keys)
  {
    var all := Novel(id, {}, TrimAll(keys) + lines);
    assert r.key == Join(all, '\n');
    assert IsTrimmed(all[0]);
    TrimFacts(all[0], IsSpace);
    PlainStart(json, all);
    PiecesHaveNoSeparator(Trim(r.key, '\n'), '\n');
    assert forall k | k in keys :: k in KeysOf(json, r.key);
    TrimAllIsTrimmed(keys);
    NovelIsFirstBearer(id, {}, TrimAll(keys) + lines);
    forall k | k in all ensures IsLine(k) {
      if k in lines {
        assert IsLine(k);
      } else {
        assert k in TrimAll(keys);
      }
    }
    KeysRoundTrip(json, all);
  }

  lemma RemainsIff(json: JsonArray, id: string -> string, row: Row, lines: seq<string>, r: Row)
    requires Sized(json, row) && InRange(row) && AreLines(KeysOf(json, row.key)) && AreLines(lines)
    requires var all := Novel(id, {}, KeysOf(json, row.key) + lines);
             all != [] && !("[" <= all[0]) && (forall k | k in all :: IsLine(k)) && r == Remains(json, row, all)
    ensures var keys, shown := KeysOf(json, row.key), Shown(json, row);
            var added := Novel(id, Ids(id, keys), lines);
            && (shown <= Shown(json, r)
                <==> DistinctBy(id, keys) && (|keys + added| > 1 || keys == [] || shown[0].status == ENABLED))
            && (DistinctBy(id, keys) && |keys + added| > 1 ==>
                  Shown(json, r) == shown + Fresh(added) && InRange(r))
  {
    var keys := KeysOf(json, row.key);
    var added := Novel(id, Ids(id, keys), lines);
    var all := Novel(id, {}, keys + lines);
    assert Storable(all);
    KeysRoundTrip(json, all);
    assert KeysOf(json, r.key) == all;
    if !DistinctBy(id, keys) {
      if Shown(json, row) <= Shown(json, r) {
        KeysOfShown(json, row, r);
        NovelIsFirstBearer(id, {}, keys + lines);
        PrefixIsDistinct(id, keys, KeysOf(json, r.key));
        assert false;
      }
    } else {
      MergeOfDistinct(id, keys, lines);
      if |keys + added| > 1 {
        ManyRemain(json, row, keys, added);
      } else if keys == [] {
        assert Shown(json, row) == [];
      } else {
        assert keys + added == keys;
        OneRemains(json, row, r, keys[0]);
      }
    }
  }

  lemma ManyRemain(json: JsonArray, row: Row, keys: seq<string>, added: seq<string>)
    requires keys == KeysOf(json, row.key) && InRange(row) && row.size == |keys|
    requires Readable(json, keys + added) && |keys + added| > 1
    ensures var r := Remains(json, row, keys + added);
            Shown(json, r) == Shown(json, row) + Fresh(added) && InRange(r)
  {
    var r := row.(key := Join(keys + added, '\n'), size := |keys + added|);
    SavingAppended(json, row, keys + added);
    ViewAppend(row, r, keys, added);
  }

  lemma OneRemains(json: JsonArray, row: Row, r: Row, k: string)
    requires KeysOf(json, row.key) == [k] == KeysOf(json, r.key) && r.status == map[]
    ensures Shown(json, row) <= Shown(json, r) <==> Shown(json, row)[0].status == ENABLED
  {
    assert Shown(json, r)[0] == KeyView(k, ENABLED, 0, "");
    assert |Shown(json, r)| == |Shown(json, row)| == 1;
  }

  lemma MergeOfDistinct(id: string -> string, existing: seq<string>, added: seq<string>)
    requires DistinctBy(id, existing)
    ensures Novel(id, {}, existing + added) == existing + Novel(id, Ids(id, existing), added)
  {
    NovelAppend(id, {}, existing, added);
    NovelOfDistinct(id, existing);
    assert {} + Ids(id, existing) == Ids(id, existing);
  }

  lemma KeysOfShown(json: JsonArray, a: Row, b: Row)
    requires Shown(json, a) <= Shown(json, b)
    ensures KeysOf(json, a.key) <= KeysOf(json, b.key)
  {
    var ka, kb := KeysOf(json, a.key), KeysOf(json, b.key);
    assert |ka| == |Shown(json, a)| <= |Shown(json, b)| == |kb|;
    forall i | 0 <= i < |ka| ensures ka[i] == kb[i] {
      assert Shown(json, a)[i].key == ka[i] && Shown(json, b)[i].key == kb[i];
    }
  }

  lemma PrefixIsDistinct(id: string -> string, a: seq<string>, b: seq<string>)
    requires a <= b && DistinctBy(id, b)
    ensures DistinctBy(id, a)
  {
  }

  /** A submission that replaces: the row holds exactly the submitted keys.  Several keys show
      up in the states that stood at their positions before; a single one is enabled. */
  lemma CodexReplaceIs(json: JsonArray, codex: Codex, row: Row, submitted: string, newKeys: seq<string>)
    requires Reads(codex, submitted, newKeys) && Readable(json, newKeys) && Join(newKeys, '\n') != ""
    ensures CodexUpdate(json, codex, row.key, Patch(row.(key := submitted), true), false).Some?
    ensures var patch := CodexUpdate(json, codex, row.key, Patch(row.(key := submitted), true), false).value;
            var r := SavedPatch(json, row, patch);
            && patch.multi == (|newKeys| > 1) && patch.row.size == |newKeys|
            && KeysOf(json, r.key) == newKeys && Sized(json, r)
            && Shown(json, r) == if |newKeys| > 1 then View(row, newKeys) else Fresh(newKeys)
  {
    var text := Join(newKeys, '\n');
    ReadableIff(json, newKeys);
    Replaced(codex, row, submitted, newKeys, text, json);
    if |newKeys| > 1 {
      ManyReplaced(json, row, newKeys, text);
    } else {
      OneReplaced(json, row, newKeys, text);
    }
  }

  lemma ManyReplaced(json: JsonArray, row: Row, newKeys: seq<string>, text: string)
    requires KeysOf(json, text) == newKeys != [] && text != ""
    ensures var r := SavedPatch(json, row, Patch(row.(key := text, size := |newKeys|), true));
            KeysOf(json, r.key) == newKeys && Sized(json, r) && Shown(json, r) == View(row, newKeys)
  {
    SavedShows(json, row, row.(key := text, size := |newKeys|), newKeys);
  }

  lemma OneReplaced(json: JsonArray, row: Row, newKeys: seq<string>, text: string)
    requires KeysOf(json, text) == newKeys && text != ""
    ensures var r := SavedPatch(json, row, Patch(Row(text, |newKeys|, map[], map[], map[]), false));
            KeysOf(json, r.key) == newKeys && Sized(json, r) && Shown(json, r) == Fresh(newKeys)
  {
  }

  lemma SavedShows(json: JsonArray, stored: Row, edited: Row, keys: seq<string>)
    requires edited.key != "" && KeysOf(json, edited.key) == keys != []
    ensures var r := Saved(json, stored, edited);
            KeysOf(json, r.key) == keys && Sized(json, r) && View(r, keys) == View(edited, keys)
  {
    SavedIsSizedIff(json, stored, edited);
  }

  lemma Replaced(codex: Codex, row: Row, submitted: string, newKeys: seq<string>, text: string, json: JsonArray)
    requires Reads(codex, submitted, newKeys) && text == Join(newKeys, '\n')
    ensures CodexUpdate(json, codex, row.key, Patch(row.(key := submitted), true), false)
            == Some(if |newKeys| > 1 then Patch(row.(key := text, size := |newKeys|), true)
                    else Patch(Row(text, |newKeys|, map[], map[], map[]), false))
  {
  }

  /** A channel without keys takes what is submitted as it is. */
  lemma FirstKeys(json: JsonArray, row: Row, submitted: string)
    requires row.key == ""
    ensures var r := Saved(json, row, row.(key := Appended(json, row.key, submitted)));
            KeysOf(json, r.key) == KeysOf(json, submitted)
  {
  }

  /** Submitting no keys at all leaves the stored ones, whatever the channel. */
  lemma NoKeysSubmitted(json: JsonArray, codex: Codex, row: Row, multi: bool, appending: bool)
    ensures CodexUpdate(json, codex, row.key, Patch(row.(key := ""), multi), appending).Some?
    ensures var r := SavedPatch(json, row, CodexUpdate(json, codex, row.key, Patch(row.(key := ""), multi), appending).value);
            KeysOf(json, r.key) == KeysOf(json, row.key)
  {
  }

  /** A blank submission changes nothing, and one that cannot be read is an error. */
  lemma CodexErrorIff(json: JsonArray, codex: Codex, row: Row, submitted: string, multi: bool, appending: bool)
    ensures var patch := Patch(row.(key := submitted), multi);
            && (CodexUpdate(json, codex, row.key, patch, appending).None? <==> TrimSpace(submitted) != "" && codex.parse(submitted).None?)
            && (TrimSpace(submitted) == "" ==> CodexUpdate(json, codex, row.key, patch, appending) == Some(patch))
  {
  }

  /** With a repeated identity the states shift: the second key disappears and the third
      inherits its position, and with it the state of the key that is gone. */
  lemma RepeatedIdentityShiftsState(json: JsonArray, codex: Codex, row: Row, a: string, b: string, c: string, submitted: string)
    requires Storable([a, b, c]) && row == Row(Join([a, b, c], '\n'), 3, map[1 := AUTO_DISABLED], map[], map[])
    requires codex.identity(a) == codex.identity(b) != codex.identity(c) && Reads(codex, submitted, [c])
    ensures CodexUpdate(json, codex, row.key, Patch(row.(key := submitted), true), true).Some?
    ensures Shown(json, row) == [KeyView(a, ENABLED, 0, ""), KeyView(b, AUTO_DISABLED, 0, ""), KeyView(c, ENABLED, 0, "")]
    ensures Shown(json, CodexStored(json, codex, row, submitted)) == [KeyView(a, ENABLED, 0, ""), KeyView(c, AUTO_DISABLED, 0, "")]
  {
    ShownOfThree(json, row, a, b, c);
    TrimAllOfLine(c);
    CodexStoredIs(json, codex, row, submitted, [c]);
    NovelOfRepeated(codex.identity, a, b, c);
    ShownOfTwo(json, row, CodexStored(json, codex, row, submitted), a, c);
  }

  lemma TrimAllOfLine(c: string)
    requires IsLine(c)
    ensures TrimAll([c]) == [c]
  {
    TrimAllOfLines([c]);
  }

  lemma ShownOfThree(json: JsonArray, row: Row, a: string, b: string, c: string)
    requires Storable([a, b, c]) && row == Row(Join([a, b, c], '\n'), 3, map[1 := AUTO_DISABLED], map[], map[])
    ensures KeysOf(json, row.key) == [a, b, c] && Sized(json, row)
    ensures TrimAll([a, b, c]) == [a, b, c] && IsLine(a) && IsLine(c)
    ensures Shown(json, row) == [KeyView(a, ENABLED, 0, ""), KeyView(b, AUTO_DISABLED, 0, ""), KeyView(c, ENABLED, 0, "")]
  {
    KeysRoundTrip(json, [a, b, c]);
    TrimAllOfLines([a, b, c]);
    assert a in [a, b, c] && c in [a, b, c];
  }

  lemma ShownOfTwo(json: JsonArray, row: Row, r: Row, a: string, c: string)
    requires row.status == map[1 := AUTO_DISABLED] && row.time == map[] && row.reason == map[]
    requires Storable([a, c]) && r == Remains(json, row, [a, c])
    ensures Shown(json, r) == [KeyView(a, ENABLED, 0, ""), KeyView(c, AUTO_DISABLED, 0, "")]
  {
    var edited := row.(key := Join([a, c], '\n'), size := 2);
    KeysRoundTrip(json, [a, c]);
    SavingKeeps(json, row, edited, [a, c]);
  }

  lemma NovelOfRepeated(id: string -> string, a: string, b: string, c: string)
    requires id(a) == id(b) != id(c)
    ensures Novel(id, {}, [a, b, c] + [c]) == [a, c]
  {
    NovelOne(id, a);
    NovelNext(id, [a], b);
    assert [a] + [b] == [a, b];
    NovelNext(id, [a, b], c);
    assert [a, b] + [c] == [a, b, c];
    NovelNext(id, [a, b, c], c);
  }

  lemma NovelNext(id: string -> string, l: seq<string>, x: string)
    ensures Novel(id, {}, l + [x]) == if id(x) in Ids(id, l) then Novel(id, {}, l) else Novel(id, {}, l) + [x]
    ensures Ids(id, l + [x]) == Ids(id, l) + {id(x)}
  {
    NovelSnoc(id, {}, l, x);
    IdsSnoc(id, l, x);
  }

  lemma NovelOne(id: string -> string, a: string)
    ensures Novel(id, {}, [a]) == [a] && Ids(id, [a]) == {id(a)}
  {
    assert [a][..0] == [] && Ids(id, []) == {};
  }
}
