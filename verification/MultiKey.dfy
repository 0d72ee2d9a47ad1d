/**
 Multi-key channels.  A channel row stores its keys as newline-joined text (or a
 JSON array) and keeps status, disable time and disable reason in maps keyed by the
 position of a key.  Deletions re-index the maps; additions must not disturb them.
 */
module MultiKey {
  import opened Basics
  import opened Text

  /** The elements of a JSON array text, if it is one. */
  type JsonArray = string -> Option<seq<string>>

  const ENABLED := 1
  const AUTO_DISABLED := 3

  datatype Row = Row(key: string, size: int, status: map<int, int>, time: map<int, int>, reason: map<int, string>)

  predicate LooksLikeJson(text: string) {
    "[" <= TrimSpace(text)
  }

  predicate IsArray(json: JsonArray, text: string) {
    LooksLikeJson(text) && json(TrimSpace(text)).Some?
  }

  /** How a channel reads its keys. */
  function KeysOf(json: JsonArray, text: string): seq<string> {
    if text == "" then []
    else if IsArray(json, text) then json(TrimSpace(text)).value
    else Split(Trim(text, '\n'), '\n')
  }

  predicate IsTrimmed(k: string) {
    k != "" && Bare(k, IsSpace)
  }

  /** Trimmed, not empty, and on one line. */
  predicate IsLine(k: string) {
    IsTrimmed(k) && '\n' !in k
  }

  predicate AreLines(keys: seq<string>) {
    forall k | k in keys :: IsLine(k)
  }

  /** Lines whose join does not look like a JSON array. */
  predicate Storable(keys: seq<string>) {
    AreLines(keys) && (keys != [] ==> !("[" <= keys[0]))
  }

  /** On one line, not blank, and not the start of a JSON array. */
  predicate IsPlain(k: string) {
    TrimSpace(k) != "" && !LooksLikeJson(k) && '\n' !in k
  }

  // --------------------------------------------------------------- round trip

  /** `splitStoredChannelKeys` trims every piece and drops empty ones. */
  function SplitStored(json: JsonArray, raw: string): seq<string> {
    var trimmed := TrimSpace(raw);
    if trimmed == "" then []
    else if "[" <= trimmed && json(trimmed).Some? then TrimAll(json(trimmed).value)
    else TrimAll(Split(Trim(raw, '\n'), '\n'))
  }

  function TrimAll(pieces: seq<string>): seq<string> {
    if pieces == [] then []
    else
      var front, last := TrimAll(pieces[..|pieces| - 1]), TrimSpace(pieces[|pieces| - 1]);
      if last == "" then front else front + [last]
  }

  lemma {:induction false} TrimAllOfTrimmed(keys: seq<string>)
    requires forall k | k in keys :: IsTrimmed(k)
    ensures TrimAll(keys) == keys
    decreases keys
  {
    if keys != [] {
      assert forall k | k in keys[..|keys| - 1] :: k in keys;
      TrimAllOfTrimmed(keys[..|keys| - 1]);
      assert IsTrimmed(keys[|keys| - 1]);
      TrimFacts(keys[|keys| - 1], IsSpace);
      assert keys == keys[..|keys| - 1] + [keys[|keys| - 1]];
    }
  }

  lemma TrimAllOfLines(keys: seq<string>)
    requires AreLines(keys)
    ensures TrimAll(keys) == keys
  {
    TrimAllOfTrimmed(keys);
  }

  /** A list that is read back as it was joined: either the text is a JSON array of just
      these elements, or it is no array, no key spans lines, and no blank key is at an end. */
  predicate Readable(json: JsonArray, l: seq<string>) {
    && l != []
    && if IsArray(json, Join(l, '\n')) then json(TrimSpace(Join(l, '\n'))).value == l else Survives(l, '\n')
  }

  /** Storing keys and reading them back loses nothing exactly when they are readable. */
  lemma ReadableIff(json: JsonArray, l: seq<string>)
    requires l != []
    ensures KeysOf(json, Join(l, '\n')) == l <==> Readable(json, l)
  {
    ReadOfJoinIff(l, '\n');
  }

  lemma {:induction false} JoinLength(l: seq<string>, a: char, b: char)
    ensures |Join(l, a)| == |Join(l, b)|
    decreases l
  {
    if |l| > 1 {
      JoinLength(l[1..], a, b);
    }
  }

  /** A JSON array is longer than its elements with separators, so under any reader that
      respects this only lists joined to something that is no array can be read back. */
  lemma ReadableAsLines(json: JsonArray, l: seq<string>)
    requires forall t | json(t).Some? :: |Join(json(t).value, ',')| < |t|
    ensures Readable(json, l) <==> l != [] && !IsArray(json, Join(l, '\n')) && Survives(l, '\n')
  {
    var text := Join(l, '\n');
    if IsArray(json, text) {
      TrimLeftFacts(text, IsSpace);
      TrimRightFacts(TrimLeft(text, IsSpace), IsSpace);
      JoinLength(l, ',', '\n');
    }
  }

  /** A first key that is neither blank nor opens a bracket keeps the text from being an array. */
  lemma PlainStart(json: JsonArray, l: seq<string>)
    requires l != [] && TrimSpace(l[0]) != "" && !LooksLikeJson(l[0])
    ensures !LooksLikeJson(Join(l, '\n'))
    ensures Survives(l, '\n') ==> Readable(json, l)
  {
    var tail := if |l| == 1 then "" else ['\n'] + Join(l[1..], '\n');
    assert Join(l, '\n') == l[0] + tail;
    TrimOfConcat(l[0], tail, IsSpace);
  }

  /** Any list of plain keys is readable. */
  lemma PlainIsReadable(json: JsonArray, l: seq<string>)
    requires l != [] && forall k | k in l :: IsPlain(k)
    ensures Readable(json, l)
  {
    assert IsPlain(l[0]) && IsPlain(LastOf(l));
    TrimToNothing(l[0], IsSpace);
    TrimToNothing(LastOf(l), IsSpace);
    PlainStart(json, l);
  }

  /** Storable lines are readable, by either reader. */
  lemma KeysRoundTrip(json: JsonArray, keys: seq<string>)
    requires Storable(keys)
    ensures KeysOf(json, Join(keys, '\n')) == keys
    ensures SplitStored(json, Join(keys, '\n')) == keys
    ensures keys != [] ==> Readable(json, keys) && Join(keys, '\n') != ""
  {
    if keys != [] {
      assert IsLine(keys[0]) && IsLine(LastOf(keys));
      TrimFacts(keys[0], IsSpace);
      PlainStart(json, keys);
      ReadableIff(json, keys);
      EndsOfJoin(keys, '\n');
      ReadersAgree(json, Join(keys, '\n'));
      TrimAllOfLines(keys);
    }
  }

  /** The existing keys as the append branch reads them: a broken JSON array reads as none. */
  function KeysForAppend(json: JsonArray, text: string): seq<string> {
    if LooksLikeJson(text) then
      var parsed := json(TrimSpace(text));
      if parsed.Some? then parsed.value else []
    else Split(Trim(text, '\n'), '\n')
  }

  lemma {:induction false} TrimAllOfBlanks(pieces: seq<string>)
    requires forall p | p in pieces :: TrimSpace(p) == ""
    ensures TrimAll(pieces) == []
    decreases pieces
  {
    if pieces != [] {
      assert forall p | p in pieces[..|pieces| - 1] :: p in pieces;
      TrimAllOfBlanks(pieces[..|pieces| - 1]);
    }
  }

  lemma BlankText(text: string)
    requires TrimSpace(text) == ""
    ensures TrimAll(Split(Trim(text, '\n'), '\n')) == []
  {
    var inner := Trim(text, '\n');
    TrimToNothing(text, IsSpace);
    TrimFacts(text, c => c == '\n');
    PiecesAreParts(inner, '\n');
    forall p | p in Split(inner, '\n') ensures TrimSpace(p) == "" {
      TrimToNothing(p, IsSpace);
    }
    TrimAllOfBlanks(Split(inner, '\n'));
  }

  /** The three readers of a stored text: the Codex one sees the same keys, trimmed and
      without blanks; the append branch sees the same keys exactly unless the text opens a
      bracket without being an array, which it takes for no keys at all. */
  lemma ReadersAgree(json: JsonArray, text: string)
    requires text != ""
    ensures SplitStored(json, text) == TrimAll(KeysOf(json, text))
    ensures KeysForAppend(json, text) == KeysOf(json, text) <==> (LooksLikeJson(text) ==> IsArray(json, text))
    ensures LooksLikeJson(text) && !IsArray(json, text) ==> KeysForAppend(json, text) == []
  {
    if TrimSpace(text) == "" {
      BlankText(text);
    }
  }

  // ------------------------------------------------- what an operator sees

  /** Time and reason are shown only for keys that are not enabled. */
  datatype KeyView = KeyView(key: string, status: int, time: int, reason: string)

  function At<T>(m: map<int, T>, i: int, default: T): T {
    if i in m then m[i] else default
  }

  function ViewOf(row: Row, keys: seq<string>, i: nat): KeyView
    requires i < |keys|
  {
    var status := At(row.status, i, ENABLED);
    if status == ENABLED then KeyView(keys[i], status, 0, "")
    else KeyView(keys[i], status, At(row.time, i, 0), At(row.reason, i, ""))
  }

  function View(row: Row, keys: seq<string>): seq<KeyView> {
    seq(|keys|, i requires 0 <= i < |keys| => ViewOf(row, keys, i))
  }

  predicate InRange(row: Row) {
    && (forall i | i in row.status :: 0 <= i < row.size)
    && (forall i | i in row.time :: 0 <= i < row.size)
    && (forall i | i in row.reason :: 0 <= i < row.size)
  }

  /** The size of a row matches the keys it is read as. */
  predicate Sized(json: JsonArray, row: Row) {
    row.size == |KeysOf(json, row.key)|
  }

  // ----------------------------------------------------------------- creation

  /** Lines that are empty are dropped, the others trimmed, so a blank line leaves an empty key. */
  function CleanKeys(lines: seq<string>): seq<string> {
    if lines == [] then []
    else
      var front, last := CleanKeys(lines[..|lines| - 1]), lines[|lines| - 1];
      if last == "" then front else front + [TrimSpace(last)]
  }

  /** The row of a new multi-key channel. */
  function Created(text: string): Row {
    var keys := CleanKeys(Split(text, '\n'));
    Row(Join(keys, '\n'), |keys|, map[], map[], map[])
  }

  method CreateMultiKeyRow(text: string) returns (row: Row)
    ensures row == Created(text)
  {
    var lines := Split(text, '\n');
    var cleanKeys: seq<string> := [];
    ghost var done: seq<string> := [];
    for i := 0 to |lines|
      invariant done == lines[..i] && cleanKeys == CleanKeys(done)
    {
      assert (done + [lines[i]])[..|done|] == done;
      done := done + [lines[i]];
      if lines[i] == "" {
        continue;
      }
      cleanKeys := cleanKeys + [TrimSpace(lines[i])];
    }
    assert done == lines;
    row := Row(Join(cleanKeys, '\n'), |cleanKeys|, map[], map[], map[]);
  }

  // ----------------------------------------------------------------- deletion

  /** The positions below `n` that survive, in order. */
  function Kept(n: nat, drop: set<int>): seq<nat> {
    if n == 0 then [] else if n - 1 in drop then Kept(n - 1, drop) else Kept(n - 1, drop) + [n - 1]
  }

  lemma {:induction false} KeptFacts(n: nat, drop: set<int>)
    ensures forall j | 0 <= j < |Kept(n, drop)| :: Kept(n, drop)[j] < n && Kept(n, drop)[j] !in drop
    ensures |Kept(n, drop)| <= n
    decreases n
  {
    if n > 0 {
      KeptFacts(n - 1, drop);
    }
  }

  function Pick<T>(l: seq<T>, kept: seq<nat>): seq<T>
    requires forall j | 0 <= j < |kept| :: kept[j] < |l|
  {
    seq(|kept|, j requires 0 <= j < |kept| => l[kept[j]])
  }

  /** What `m` holds at the surviving positions in `only`, under their new numbers. */
  function Reindex<T>(m: map<int, T>, kept: seq<nat>, only: set<int>): map<int, T> {
    if kept == [] then map[]
    else
      var front, i := kept[..|kept| - 1], kept[|kept| - 1];
      if i in m && i in only then Reindex(m, front, only)[|front| := m[i]] else Reindex(m, front, only)
  }

  lemma {:induction false} ReindexHas<T>(m: map<int, T>, kept: seq<nat>, only: set<int>)
    ensures forall j :: j in Reindex(m, kept, only) <==> 0 <= j < |kept| && kept[j] in m && kept[j] in only
    ensures forall j | j in Reindex(m, kept, only) :: Reindex(m, kept, only)[j] == m[kept[j]]
    decreases kept
  {
    if kept != [] {
      ReindexHas(m, kept[..|kept| - 1], only);
    }
  }

  function Disabled(status: map<int, int>): set<int> {
    set i | i in status && status[i] != ENABLED
  }

  function AutoDisabled(status: map<int, int>): set<int> {
    set i | i in status && status[i] == AUTO_DISABLED
  }

  /** Reading the re-indexed maps is reading the old ones at the surviving positions. */
  lemma ReindexedView(row: Row, row': Row, keys: seq<string>, kept: seq<nat>, timed: set<int>, reasoned: set<int>)
    requires forall j | 0 <= j < |kept| :: kept[j] < |keys|
    requires timed == row.time.Keys || timed == Disabled(row.status)
    requires reasoned == row.reason.Keys || reasoned == Disabled(row.status)
    requires row'.status == Reindex(row.status, kept, Disabled(row.status))
    requires row'.time == Reindex(row.time, kept, timed) && row'.reason == Reindex(row.reason, kept, reasoned)
    ensures View(row', Pick(keys, kept)) == Pick(View(row, keys), kept)
  {
    ReindexHas(row.status, kept, Disabled(row.status));
    ReindexHas(row.time, kept, timed);
    ReindexHas(row.reason, kept, reasoned);
    forall j: nat | j < |kept| ensures ViewOf(row', Pick(keys, kept), j) == ViewOf(row, keys, kept[j]) {
      assert Pick(keys, kept)[j] == keys[kept[j]];
    }
  }

  /** The row an accepted deletion wants to store. */
  function Reduced(row: Row, keys: seq<string>, kept: seq<nat>, timed: set<int>, reasoned: set<int>): Row
    requires forall j | 0 <= j < |kept| :: kept[j] < |keys|
  {
    Row(Join(Pick(keys, kept), '\n'), |kept|,
        Reindex(row.status, kept, Disabled(row.status)), Reindex(row.time, kept, timed), Reindex(row.reason, kept, reasoned))
  }

  /** `delete_key`: rejected out of range, and for the last key. */
  function DeleteOne(json: JsonArray, row: Row, index: int): Option<Row> {
    var keys := KeysOf(json, row.key);
    var kept := Kept(|keys|, {index});
    KeptFacts(|keys|, {index});
    if index < 0 || index >= row.size || kept == [] then None
    else Some(Reduced(row, keys, kept, row.time.Keys, row.reason.Keys))
  }

  /** `delete_disabled_keys`: rejected when no key is automatically disabled. */
  function DeleteAuto(json: JsonArray, row: Row): Option<Row> {
    var keys := KeysOf(json, row.key);
    var kept := Kept(|keys|, AutoDisabled(row.status));
    KeptFacts(|keys|, AutoDisabled(row.status));
    if |kept| == |keys| then None
    else Some(Reduced(row, keys, kept, Disabled(row.status), Disabled(row.status)))
  }

  /** How saving counts keys: an empty JSON array counts as text. */
  function CountedKeys(json: JsonArray, text: string): seq<string> {
    if text == "" then []
    else
      var trimmed := TrimSpace(text);
      if "[" <= trimmed && json(trimmed).Some? && json(trimmed).value != [] then json(trimmed).value
      else Split(Trim(text, '\n'), '\n')
  }

  /** The database row after saving `edited` over `stored`: an empty key text is not
      written, the size is recomputed, and statuses past the end are dropped. */
  function Saved(json: JsonArray, stored: Row, edited: Row): Row {
    var text := if edited.key != "" then edited.key else stored.key;
    var size := |CountedKeys(json, text)|;
    Row(text, size, map i | i in edited.status && i < size :: edited.status[i], edited.time, edited.reason)
  }

  lemma ReindexSnoc<T>(m: map<int, T>, kept: seq<nat>, only: set<int>, i: nat)
    ensures Reindex(m, kept + [i], only)
            == if i in m && i in only then Reindex(m, kept, only)[|kept| := m[i]] else Reindex(m, kept, only)
  {
    assert (kept + [i])[..|kept|] == kept;
  }

  lemma PickSnoc<T>(l: seq<T>, kept: seq<nat>, i: nat)
    requires i < |l| && forall j | 0 <= j < |kept| :: kept[j] < |l|
    ensures Pick(l, kept + [i]) == Pick(l, kept) + [l[i]]
  {
  }

  /** The lists a deletion builds up, key by key. */
  datatype Packed = Packed(keys: seq<string>, status: map<int, int>, time: map<int, int>, reason: map<int, string>)

  function Carried<T>(from: map<int, T>, i: int, only: set<int>, to: map<int, T>, newIndex: int): map<int, T> {
    if i in from && i in only then to[newIndex := from[i]] else to
  }

  /** Position `i` moves to the end of `p`. */
  function PackOne(row: Row, p: Packed, key: string, i: int, timed: set<int>, reasoned: set<int>): Packed {
    Packed(p.keys + [key],
           Carried(row.status, i, Disabled(row.status), p.status, |p.keys|),
           Carried(row.time, i, timed, p.time, |p.keys|),
           Carried(row.reason, i, reasoned, p.reason, |p.keys|))
  }

  function Pack(row: Row, keys: seq<string>, n: nat, drop: set<int>, timed: set<int>, reasoned: set<int>): Packed
    requires n <= |keys|
  {
    if n == 0 then Packed([], map[], map[], map[])
    else
      var p := Pack(row, keys, n - 1, drop, timed, reasoned);
      if n - 1 in drop then p else PackOne(row, p, keys[n - 1], n - 1, timed, reasoned)
  }

  /** Building up key by key picks and re-indexes the surviving positions. */
  lemma {:induction false} PackIs(row: Row, keys: seq<string>, n: nat, drop: set<int>, timed: set<int>, reasoned: set<int>)
    requires n <= |keys|
    ensures forall j | 0 <= j < |Kept(n, drop)| :: Kept(n, drop)[j] < |keys|
    ensures Pack(row, keys, n, drop, timed, reasoned)
            == Packed(Pick(keys, Kept(n, drop)), Reindex(row.status, Kept(n, drop), Disabled(row.status)),
                      Reindex(row.time, Kept(n, drop), timed), Reindex(row.reason, Kept(n, drop), reasoned))
    decreases n
  {
    KeptFacts(n, drop);
    if n > 0 {
      PackIs(row, keys, n - 1, drop, timed, reasoned);
      var kept := Kept(n - 1, drop);
      KeptFacts(n - 1, drop);
      if n - 1 !in drop {
        PickSnoc(keys, kept, n - 1);
        ReindexSnoc(row.status, kept, Disabled(row.status), n - 1);
        ReindexSnoc(row.time, kept, timed, n - 1);
        ReindexSnoc(row.reason, kept, reasoned, n - 1);
      }
    }
  }

  /** The loop of `delete_key`: everything but one position, re-indexed. */
  method CompactWithout(row: Row, keys: seq<string>, keyIndex: int) returns (r: Row)
    ensures forall j | 0 <= j < |Kept(|keys|, {keyIndex})| :: Kept(|keys|, {keyIndex})[j] < |keys|
    ensures r == Reduced(row, keys, Kept(|keys|, {keyIndex}), row.time.Keys, row.reason.Keys)
  {
    var remainingKeys: seq<string> := [];
    var newStatusList: map<int, int>, newDisabledTime: map<int, int>, newDisabledReason: map<int, string> := map[], map[], map[];
    var newIndex := 0;
    for i := 0 to |keys|
      invariant newIndex == |remainingKeys|
      invariant Packed(remainingKeys, newStatusList, newDisabledTime, newDisabledReason)
                == Pack(row, keys, i, {keyIndex}, row.time.Keys, row.reason.Keys)
    {
      if i == keyIndex {
        continue;
      }
      remainingKeys := remainingKeys + [keys[i]];
      if i in row.status && row.status[i] != ENABLED {
        newStatusList := newStatusList[newIndex := row.status[i]];
      }
      if i in row.time {
        newDisabledTime := newDisabledTime[newIndex := row.time[i]];
      }
      if i in row.reason {
        newDisabledReason := newDisabledReason[newIndex := row.reason[i]];
      }
      newIndex := newIndex + 1;
    }
    PackIs(row, keys, |keys|, {keyIndex}, row.time.Keys, row.reason.Keys);
    r := Row(Join(remainingKeys, '\n'), |remainingKeys|, newStatusList, newDisabledTime, newDisabledReason);
  }

  /** The loop of `delete_disabled_keys`: everything not automatically disabled, re-indexed. */
  method CompactEnabled(row: Row, keys: seq<string>) returns (r: Row, deletedCount: nat)
    ensures forall j | 0 <= j < |Kept(|keys|, AutoDisabled(row.status))| :: Kept(|keys|, AutoDisabled(row.status))[j] < |keys|
    ensures r == Reduced(row, keys, Kept(|keys|, AutoDisabled(row.status)), Disabled(row.status), Disabled(row.status))
    ensures deletedCount == |keys| - |Kept(|keys|, AutoDisabled(row.status))|
  {
    var remainingKeys: seq<string> := [];
    var newStatusList: map<int, int>, newDisabledTime: map<int, int>, newDisabledReason: map<int, string> := map[], map[], map[];
    var newIndex := 0;
    deletedCount := 0;
    ghost var drop, disabled := AutoDisabled(row.status), Disabled(row.status);
    for i := 0 to |keys|
      invariant newIndex == |remainingKeys| && deletedCount == i - newIndex
      invariant Packed(remainingKeys, newStatusList, newDisabledTime, newDisabledReason)
                == Pack(row, keys, i, drop, disabled, disabled)
    {
      var status := ENABLED;
      if i in row.status {
        status := row.status[i];
      }
      assert status == AUTO_DISABLED <==> i in drop;
      assert status != ENABLED <==> i in disabled;
      if status == AUTO_DISABLED {
        deletedCount := deletedCount + 1;
      } else {
        remainingKeys := remainingKeys + [keys[i]];
        if status != ENABLED {
          newStatusList := newStatusList[newIndex := status];
          if i in row.time {
            newDisabledTime := newDisabledTime[newIndex := row.time[i]];
          }
          if i in row.reason {
            newDisabledReason := newDisabledReason[newIndex := row.reason[i]];
          }
        }
        newIndex := newIndex + 1;
      }
    }
    PackIs(row, keys, |keys|, drop, disabled, disabled);
    r := Row(Join(remainingKeys, '\n'), |remainingKeys|, newStatusList, newDisabledTime, newDisabledReason);
  }

  class Channel {
    var row: Row      // as loaded and edited
    var stored: Row   // as in the database

    constructor (stored: Row)
      ensures row == stored && this.stored == stored
    {
      row := stored;
      this.stored := stored;
    }

    method DeleteKey(json: JsonArray, keyIndex: int) returns (ok: bool)
      requires row == stored
      modifies this
      ensures var wanted := DeleteOne(json, old(stored), keyIndex);
              && ok == wanted.Some?
              && row == (if ok then wanted.value else old(row))
              && stored == (if ok then Saved(json, old(stored), wanted.value) else old(stored))
    {
      if keyIndex < 0 || keyIndex >= row.size {
        return false;
      }
      var keys := KeysOf(json, row.key);
      var edited := CompactWithout(row, keys, keyIndex);
      if edited.size == 0 {
        return false;
      }
      row := edited;
      stored := Saved(json, stored, row);
      ok := true;
    }

    method DeleteDisabledKeys(json: JsonArray) returns (ok: bool, deletedCount: nat)
      requires row == stored
      modifies this
      ensures var wanted := DeleteAuto(json, old(stored));
              && ok == wanted.Some?
              && row == (if ok then wanted.value else old(row))
              && stored == (if ok then Saved(json, old(stored), wanted.value) else old(stored))
              && deletedCount == (if ok then |KeysOf(json, old(stored).key)| - wanted.value.size else 0)
    {
      var keys := KeysOf(json, row.key);
      var edited;
      edited, deletedCount := CompactEnabled(row, keys);
      if deletedCount == 0 {
        return false, 0;
      }
      row := edited;
      stored := Saved(json, stored, row);
      ok := true;
    }
  }

  // ------------------------------------------------- merging without repeats

  function Ids(id: string -> string, l: seq<string>): set<string> {
    set x | x in l :: id(x)
  }

  /** The entries of `l` whose identity is neither in `seen` nor earlier in `l`. */
  function Novel(id: string -> string, seen: set<string>, l: seq<string>): seq<string> {
    if l == [] then []
    else
      var front, last := l[..|l| - 1], l[|l| - 1];
      if id(last) in seen || id(last) in Ids(id, front) then Novel(id, seen, front)
      else Novel(id, seen, front) + [last]
  }

  lemma NovelSnoc(id: string -> string, seen: set<string>, l: seq<string>, x: string)
    ensures Novel(id, seen, l + [x])
            == if id(x) in seen || id(x) in Ids(id, l) then Novel(id, seen, l) else Novel(id, seen, l) + [x]
  {
    assert (l + [x])[..|l|] == l;
  }

  lemma IdsSnoc(id: string -> string, l: seq<string>, x: string)
    ensures Ids(id, l + [x]) == Ids(id, l) + {id(x)}
  {
    assert forall y | y in l :: y in l + [x];
    assert x in l + [x];
  }

  lemma {:induction false} TrimAllSnoc(l: seq<string>, x: string)
    ensures TrimAll(l + [x]) == if TrimSpace(x) == "" then TrimAll(l) else TrimAll(l) + [TrimSpace(x)]
  {
    assert (l + [x])[..|l|] == l;
  }

  lemma TrimAllAppend(a: seq<string>, b: seq<string>)
    ensures TrimAll(a + b) == TrimAll(a) + TrimAll(b)
    decreases b
  {
    if b == [] {
      assert a + b == a;
    } else {
      var front, last := b[..|b| - 1], b[|b| - 1];
      assert a + b == (a + front) + [last];
      TrimAllSnoc(a + front, last);
      TrimAllAppend(a, front);
    }
  }

  /** The loop shared by all key mergers: `seen` holds the identities so far and
      `merged` their first bearers. */
  method AppendUnique(id: string -> string, keys: seq<string>, ghost done: seq<string>, seen: set<string>, merged: seq<string>)
    returns (seen': set<string>, merged': seq<string>)
    requires seen == Ids(id, TrimAll(done)) && merged == Novel(id, {}, TrimAll(done))
    ensures seen' == Ids(id, TrimAll(done + keys)) && merged' == Novel(id, {}, TrimAll(done + keys))
  {
    seen', merged' := seen, merged;
    ghost var before := TrimAll(done);
    assert done + keys[..0] == done;
    for i := 0 to |keys|
      invariant before == TrimAll(done + keys[..i])
      invariant seen' == Ids(id, before) && merged' == Novel(id, {}, before)
    {
      TrimNext(done, keys, i);
      var key := TrimSpace(keys[i]);
      if key == "" {
        continue;
      }
      IdsSnoc(id, before, key);
      NovelSnoc(id, {}, before, key);
      before := before + [key];
      if id(key) in seen' {
        continue;
      }
      seen' := seen' + {id(key)};
      merged' := merged' + [key];
    }
    assert keys[..|keys|] == keys;
  }

  lemma TrimNext(done: seq<string>, keys: seq<string>, i: nat)
    requires i < |keys|
    ensures TrimAll(done + keys[..i + 1])
            == TrimAll(done + keys[..i]) + if TrimSpace(keys[i]) == "" then [] else [TrimSpace(keys[i])]
  {
    assert done + keys[..i + 1] == (done + keys[..i]) + [keys[i]];
    TrimAllSnoc(done + keys[..i], keys[i]);
  }

  /** `appendCodexConfigKeys`; `id` is the account identity of a configuration. */
  method AppendCodexConfigKeys(id: string -> string, existingKeys: seq<string>, newKeys: seq<string>) returns (merged: seq<string>)
    ensures merged == Novel(id, {}, TrimAll(existingKeys + newKeys))
  {
    var seen: set<string> := {};
    merged := [];
    assert [] + existingKeys == existingKeys;
    seen, merged := AppendUnique(id, existingKeys, [], seen, merged);
    seen, merged := AppendUnique(id, newKeys, existingKeys, seen, merged);
  }

  /** The identity of an ordinary key is its text. */
  function Itself(key: string): string {
    key
  }

  function Flatten(groups: seq<seq<string>>): seq<string> {
    if groups == [] then [] else Flatten(groups[..|groups| - 1]) + groups[|groups| - 1]
  }

  /** `mergeUniqueChannelKeys`, for any number of groups. */
  method MergeUniqueChannelKeys(keyGroups: seq<seq<string>>) returns (merged: seq<string>)
    ensures merged == Novel(Itself, {}, TrimAll(Flatten(keyGroups)))
  {
    var seen: set<string> := {};
    merged := [];
    ghost var done: seq<seq<string>> := [];
    for g := 0 to |keyGroups|
      invariant done == keyGroups[..g]
      invariant seen == Ids(Itself, TrimAll(Flatten(done))) && merged == Novel(Itself, {}, TrimAll(Flatten(done)))
    {
      assert (done + [keyGroups[g]])[..|done|] == done;
      seen, merged := AppendUnique(Itself, keyGroups[g], Flatten(done), seen, merged);
      done := done + [keyGroups[g]];
    }
    assert done == keyGroups;
  }

  /** The append branch of `UpdateChannel`: existing keys stay as they are, followed
      by the new ones that are not there yet. */
  function Appended(json: JsonArray, text: string, submitted: string): string {
    if text == "" then submitted
    else
      var existing := KeysForAppend(json, text);
      Join(existing + Novel(Itself, Ids(Itself, TrimAll(existing)), TrimAll(Split(submitted, '\n'))), '\n')
  }

  lemma IdsOfTrimmed(id: string -> string, keys: seq<string>, key: string)
    ensures Ids(id, TrimAll(keys + [key]))
            == if TrimSpace(key) == "" then Ids(id, TrimAll(keys)) else Ids(id, TrimAll(keys)) + {id(TrimSpace(key))}
  {
    TrimAllSnoc(keys, key);
    IdsSnoc(id, TrimAll(keys), TrimSpace(key));
  }

  method IdentitiesOf(id: string -> string, keys: seq<string>) returns (seen: set<string>)
    ensures seen == Ids(id, TrimAll(keys))
  {
    seen := {};
    ghost var done: seq<string> := [];
    for i := 0 to |keys|
      invariant done == keys[..i] && seen == Ids(id, TrimAll(done))
    {
      var normalized := TrimSpace(keys[i]);
      IdsOfTrimmed(id, done, keys[i]);
      done := done + [keys[i]];
      if normalized == "" {
        continue;
      }
      seen := seen + {id(normalized)};
    }
    assert done == keys;
  }

  /** New keys one by one, with the identities seen so far. */
  function Deduped(id: string -> string, before: set<string>, keys: seq<string>): (seq<string>, set<string>) {
    if keys == [] then ([], before)
    else
      var (deduped, seen) := Deduped(id, before, keys[..|keys| - 1]);
      var normalized := TrimSpace(keys[|keys| - 1]);
      if normalized == "" || id(normalized) in seen then (deduped, seen)
      else (deduped + [normalized], seen + {id(normalized)})
  }

  lemma {:induction false} DedupedIs(id: string -> string, before: set<string>, keys: seq<string>)
    ensures Deduped(id, before, keys).0 == Novel(id, before, TrimAll(keys))
    ensures Deduped(id, before, keys).1 == before + Ids(id, TrimAll(keys))
    decreases keys
  {
    if keys != [] {
      var front, normalized := keys[..|keys| - 1], TrimSpace(keys[|keys| - 1]);
      DedupedIs(id, before, front);
      if normalized != "" {
        assert TrimAll(keys) == TrimAll(front) + [normalized];
        NovelSnoc(id, before, TrimAll(front), normalized);
        IdsSnoc(id, TrimAll(front), normalized);
        OneMore(before, Ids(id, TrimAll(front)), id(normalized));
      }
    }
  }

  lemma OneMore(before: set<string>, ids: set<string>, x: string)
    ensures before + (ids + {x}) == if x in before || x in ids then before + ids else before + ids + {x}
  {
  }

  method NewOnes(id: string -> string, before: set<string>, keys: seq<string>) returns (deduped: seq<string>)
    ensures deduped == Novel(id, before, TrimAll(keys))
  {
    deduped := [];
    var seen := before;
    ghost var done: seq<string> := [];
    for i := 0 to |keys|
      invariant done == keys[..i] && (deduped, seen) == Deduped(id, before, done)
    {
      assert (done + [keys[i]])[..|done|] == done;
      done := done + [keys[i]];
      var normalized := TrimSpace(keys[i]);
      if normalized == "" || id(normalized) in seen {
        continue;
      }
      seen := seen + {id(normalized)};
      deduped := deduped + [normalized];
    }
    assert done == keys;
    DedupedIs(id, before, keys);
  }

  method AppendKeys(json: JsonArray, text: string, submitted: string) returns (joined: string)
    ensures joined == Appended(json, text, submitted)
  {
    if text == "" {
      return submitted;
    }
    var identityOf := Itself;
    var existingKeys := KeysForAppend(json, text);
    var newKeys := TrimAll(Split(submitted, '\n'));
    var seen := IdentitiesOf(identityOf, existingKeys);
    var dedupedNewKeys := NewOnes(identityOf, seen, newKeys);
    TrimAllIsTrimmed(Split(submitted, '\n'));
    TrimAllOfTrimmed(newKeys);
    joined := Join(existingKeys + dedupedNewKeys, '\n');
  }

  /** What remains are the trimmed texts of the pieces that are not blank. */
  lemma {:induction false} TrimAllHas(pieces: seq<string>, k: string)
    ensures k in TrimAll(pieces) <==> k != "" && exists p | p in pieces :: TrimSpace(p) == k
    decreases pieces
  {
    if pieces != [] {
      var front, last := pieces[..|pieces| - 1], pieces[|pieces| - 1];
      assert pieces == front + [last];
      TrimAllHas(front, k);
      assert last in pieces;
    }
  }

  lemma {:induction false} TrimAllIsTrimmed(pieces: seq<string>)
    ensures forall k | k in TrimAll(pieces) :: IsTrimmed(k)
    ensures forall c, k | k in TrimAll(pieces) && c in k :: exists p | p in pieces :: c in p
    decreases pieces
  {
    if pieces != [] {
      TrimAllIsTrimmed(pieces[..|pieces| - 1]);
      TrimFacts(pieces[|pieces| - 1], IsSpace);
    }
  }

  // ------------------------------------------------------------ Codex channels

  /** How a Codex submission is read, and what makes two keys the same account. */
  datatype Codex = Codex(parse: string -> Option<seq<string>>, identity: string -> string)

  /** An update under way: the edited row, and whether the channel has several keys. */
  datatype Patch = Patch(row: Row, multi: bool)

  /** `applyCodexChannelKeyUpdate`: a blank submission changes nothing, one that does not
      parse fails, and a single remaining key takes all per-key state away. */
  function CodexUpdate(json: JsonArray, codex: Codex, origin: string, patch: Patch, appending: bool): Option<Patch> {
    if TrimSpace(patch.row.key) == "" then Some(patch)
    else match codex.parse(patch.row.key)
      case None => None
      case Some(newKeys) =>
        var keys := if appending then Novel(codex.identity, {}, TrimAll(SplitStored(json, origin) + newKeys)) else newKeys;
        var text := Join(keys, '\n');
        if |keys| > 1 then Some(Patch(patch.row.(key := text, size := |keys|), true))
        else Some(Patch(Row(text, |keys|, map[], map[], map[]), false))
  }

  /** The database row after saving a patch: only multi-key channels are recounted. */
  function SavedPatch(json: JsonArray, stored: Row, patch: Patch): Row {
    if patch.multi then Saved(json, stored, patch.row)
    else if patch.row.key != "" then patch.row
    else patch.row.(key := stored.key)
  }

  class PatchChannel {
    var row: Row
    var isMultiKey: bool

    ghost function Model(): Patch
      reads this
    {
      Patch(row, isMultiKey)
    }

    constructor (row: Row, isMultiKey: bool)
      ensures Model() == Patch(row, isMultiKey)
    {
      this.row := row;
      this.isMultiKey := isMultiKey;
    }

    method ApplyCodexChannelKeyUpdate(json: JsonArray, codex: Codex, origin: string, appending: bool) returns (ok: bool)
      modifies this
      ensures ok == CodexUpdate(json, codex, origin, old(Model()), appending).Some?
      ensures Model() == if ok then CodexUpdate(json, codex, origin, old(Model()), appending).value else old(Model())
    {
      if TrimSpace(row.key) == "" {
        return true;
      }
      var parsed := codex.parse(row.key);
      if parsed.None? {
        return false;
      }
      var keys := parsed.value;
      if appending {
        keys := AppendCodexConfigKeys(codex.identity, SplitStored(json, origin), parsed.value);
      }
      row := row.(key := Join(keys, '\n'), size := |keys|);
      if |keys| > 1 {
        isMultiKey := true;
        return true;
      }
      isMultiKey := false;
      row := row.(status := map[], time := map[], reason := map[]);
      ok := true;
    }
  }
}
