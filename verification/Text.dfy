/**
 The string and list helpers that channel storage is built on: `TrimSpace`,
 `Trim`, `Split` and `Join` of Go's `strings`, and first-occurrence deduplication.
 */
module Text {

  /** White space as Go's `unicode.IsSpace` defines it. */
  predicate IsSpace(c: char) {
    || '\t' <= c <= '\r' || c == ' ' || c == '\U{0085}' || c == '\U{00A0}' || c == '\U{1680}'
    || '\U{2000}' <= c <= '\U{200A}' || c == '\U{2028}' || c == '\U{2029}' || c == '\U{202F}'
    || c == '\U{205F}' || c == '\U{3000}'
  }

  /** The twenty-five characters that Unicode calls white space. */
  lemma SpacesAre(c: char)
    ensures IsSpace(c) <==>
            c in {'\t', '\n', '\U{000B}', '\U{000C}', '\r', ' ', '\U{0085}', '\U{00A0}', '\U{1680}',
                  '\U{2000}', '\U{2001}', '\U{2002}', '\U{2003}', '\U{2004}', '\U{2005}', '\U{2006}', '\U{2007}',
                  '\U{2008}', '\U{2009}', '\U{200A}', '\U{2028}', '\U{2029}', '\U{202F}', '\U{205F}', '\U{3000}'}
  {
    assert '\t' <= c <= '\r' <==> c in {'\t', '\n', '\U{000B}', '\U{000C}', '\r'};
  }

  function TrimLeft(s: string, cut: char -> bool): string {
    if s != "" && cut(s[0]) then TrimLeft(s[1..], cut) else s
  }

  function TrimRight(s: string, cut: char -> bool): string {
    if s != "" && cut(s[|s| - 1]) then TrimRight(s[..|s| - 1], cut) else s
  }

  function TrimBy(s: string, cut: char -> bool): string {
    TrimRight(TrimLeft(s, cut), cut)
  }

  function TrimSpace(s: string): string {
    TrimBy(s, IsSpace)
  }

  /** `strings.Trim(s, sep)` for a one-character cut set. */
  function Trim(s: string, sep: char): string {
    TrimBy(s, c => c == sep)
  }

  /** No character to cut at either end. */
  predicate Bare(s: string, cut: char -> bool) {
    s == "" || (!cut(s[0]) && !cut(s[|s| - 1]))
  }

  lemma {:induction false} TrimLeftFacts(s: string, cut: char -> bool)
    ensures var r := TrimLeft(s, cut);
            && |r| <= |s| && r == s[|s| - |r|..]
            && (r == "" || !cut(r[0]))
    decreases s
  {
    if s != "" && cut(s[0]) {
      TrimLeftFacts(s[1..], cut);
      var r := TrimLeft(s[1..], cut);
      assert s[1..][|s| - 1 - |r|..] == s[|s| - |r|..];
    }
  }

  lemma {:induction false} TrimRightFacts(s: string, cut: char -> bool)
    ensures var r := TrimRight(s, cut);
            && |r| <= |s| && r == s[..|r|]
            && (r == "" || !cut(r[|r| - 1]))
    decreases s
  {
    if s != "" && cut(s[|s| - 1]) {
      TrimRightFacts(s[..|s| - 1], cut);
      var r := TrimRight(s[..|s| - 1], cut);
      assert s[..|s| - 1][..|r|] == s[..|r|];
    }
  }

  /** Trimming leaves no cut character at the ends, invents no character, and
      changes nothing when there was nothing to cut. */
  lemma TrimFacts(s: string, cut: char -> bool)
    ensures Bare(TrimBy(s, cut), cut)
    ensures forall c | c in TrimBy(s, cut) :: c in s
    ensures Bare(s, cut) ==> TrimBy(s, cut) == s
  {
    TrimLeftFacts(s, cut);
    TrimRightFacts(TrimLeft(s, cut), cut);
  }

  lemma {:induction false} TrimmedLeftIsCut(s: string, cut: char -> bool)
    ensures |TrimLeft(s, cut)| <= |s| && forall c | c in s[..|s| - |TrimLeft(s, cut)|] :: cut(c)
    decreases s
  {
    if s != "" && cut(s[0]) {
      TrimmedLeftIsCut(s[1..], cut);
      var n := |s| - |TrimLeft(s[1..], cut)|;
      assert s[..n] == [s[0]] + s[1..][..n - 1];
    }
  }

  lemma {:induction false} TrimmedRightIsCut(s: string, cut: char -> bool)
    ensures |TrimRight(s, cut)| <= |s| && forall c | c in s[|TrimRight(s, cut)|..] :: cut(c)
    decreases s
  {
    if s != "" && cut(s[|s| - 1]) {
      var front := s[..|s| - 1];
      TrimmedRightIsCut(front, cut);
      var n := |TrimRight(front, cut)|;
      assert s[n..] == front[n..] + [s[|s| - 1]];
    }
  }

  /** Trimming takes off nothing but what is to be cut, from both ends. */
  lemma TrimIs(s: string, cut: char -> bool) returns (a: string, b: string)
    ensures s == a + TrimBy(s, cut) + b && (forall c | c in a :: cut(c)) && (forall c | c in b :: cut(c))
  {
    var rest := TrimLeft(s, cut);
    TrimLeftFacts(s, cut);
    TrimmedLeftIsCut(s, cut);
    TrimRightFacts(rest, cut);
    TrimmedRightIsCut(rest, cut);
    a, b := s[..|s| - |rest|], rest[|TrimBy(s, cut)|..];
    assert rest == TrimBy(s, cut) + b;
  }

  lemma {:induction false} TrimRightKeepsHead(s: string, cut: char -> bool)
    requires s != "" && !cut(s[0])
    ensures TrimRight(s, cut) != "" && TrimRight(s, cut)[0] == s[0]
    decreases s
  {
    if cut(s[|s| - 1]) {
      TrimRightKeepsHead(s[..|s| - 1], cut);
    }
  }

  /** Nothing is left exactly of a text in which everything is cut. */
  lemma {:induction false} TrimLeftToNothing(s: string, cut: char -> bool)
    ensures TrimLeft(s, cut) == "" <==> forall c | c in s :: cut(c)
    decreases s
  {
    if s != "" {
      assert s[0] in s && s == [s[0]] + s[1..];
      if cut(s[0]) {
        TrimLeftToNothing(s[1..], cut);
      }
    }
  }

  lemma TrimToNothing(s: string, cut: char -> bool)
    ensures TrimBy(s, cut) == "" <==> forall c | c in s :: cut(c)
  {
    TrimLeftToNothing(s, cut);
    TrimLeftFacts(s, cut);
    if TrimLeft(s, cut) != "" {
      TrimRightKeepsHead(TrimLeft(s, cut), cut);
    }
  }

  lemma {:induction false} TrimLeftTwice(s: string, cut: char -> bool, wider: char -> bool)
    requires forall c :: cut(c) ==> wider(c)
    ensures TrimLeft(TrimLeft(s, cut), wider) == TrimLeft(s, wider)
    decreases s
  {
    if s != "" && cut(s[0]) {
      TrimLeftTwice(s[1..], cut, wider);
    }
  }

  lemma {:induction false} TrimLeftOfConcat(a: string, b: string, cut: char -> bool)
    requires TrimLeft(a, cut) != ""
    ensures TrimLeft(a + b, cut) == TrimLeft(a, cut) + b
    decreases a
  {
    if cut(a[0]) {
      TrimLeftOfConcat(a[1..], b, cut);
      assert (a + b)[1..] == a[1..] + b;
    }
  }

  /** A trimmed text begins like its first part, unless that is cut away as a whole. */
  lemma TrimOfConcat(a: string, b: string, cut: char -> bool)
    requires TrimBy(a, cut) != ""
    ensures TrimBy(a + b, cut) != "" && TrimBy(a + b, cut)[0] == TrimBy(a, cut)[0]
  {
    TrimLeftFacts(a, cut);
    TrimRightKeepsHead(TrimLeft(a, cut), cut);
    TrimLeftOfConcat(a, b, cut);
    TrimRightKeepsHead(TrimLeft(a, cut) + b, cut);
  }

  // ------------------------------------------------------------ split, join

  /** `strings.Split(s, sep)` for a one-character separator. */
  function Split(s: string, sep: char): (pieces: seq<string>)
    ensures |pieces| >= 1
  {
    if s == "" then [""]
    else
      var rest := Split(s[1..], sep);
      if s[0] == sep then [""] + rest else [[s[0]] + rest[0]] + rest[1..]
  }

  /** `strings.Join(pieces, sep)`. */
  function Join(pieces: seq<string>, sep: char): string {
    if pieces == [] then ""
    else if |pieces| == 1 then pieces[0]
    else pieces[0] + [sep] + Join(pieces[1..], sep)
  }

  lemma {:induction false} PiecesHaveNoSeparator(s: string, sep: char)
    ensures forall p | p in Split(s, sep) :: sep !in p
    decreases s
  {
    if s != "" {
      PiecesHaveNoSeparator(s[1..], sep);
      var rest := Split(s[1..], sep);
      assert forall p | p in rest[1..] :: p in rest;
    }
  }

  lemma {:induction false} PiecesAreParts(s: string, sep: char)
    ensures forall p, c | p in Split(s, sep) && c in p :: c in s
    decreases s
  {
    if s != "" {
      PiecesAreParts(s[1..], sep);
      var rest := Split(s[1..], sep);
      assert forall p | p in rest[1..] :: p in rest;
      assert s[0] in s && forall c | c in s[1..] :: c in s;
    }
  }

  lemma {:induction false} SplitPrefix(p: string, s: string, sep: char)
    requires sep !in p
    ensures Split(p, sep) == [p]
    ensures Split(p + [sep] + s, sep) == [p] + Split(s, sep)
    decreases p
  {
    if p == "" {
      assert p + [sep] + s == [sep] + s;
      assert ([sep] + s)[1..] == s;
    } else {
      SplitPrefix(p[1..], s, sep);
      assert (p + [sep] + s)[1..] == p[1..] + [sep] + s;
      assert [p[0]] + p[1..] == p;
      assert ([p[1..]] + Split(s, sep))[1..] == Split(s, sep);
    }
  }

  lemma SplitCons(c: char, s: string, sep: char)
    ensures Split([c] + s, sep) == if c == sep then [""] + Split(s, sep) else [[c] + Split(s, sep)[0]] + Split(s, sep)[1..]
  {
    assert ([c] + s)[1..] == s;
  }

  lemma {:induction false} SplitOfConcat(a: string, b: string, sep: char)
    ensures Split(a + [sep] + b, sep) == Split(a, sep) + Split(b, sep)
    decreases a
  {
    if a == "" {
      assert a + [sep] + b == [sep] + b;
      SplitCons(sep, b, sep);
    } else {
      var tail := a[1..] + [sep] + b;
      SplitOfConcat(a[1..], b, sep);
      assert a + [sep] + b == [a[0]] + tail && a == [a[0]] + a[1..];
      SplitCons(a[0], tail, sep);
      SplitCons(a[0], a[1..], sep);
      PrependHead(a[0], Split(a[1..], sep), Split(b, sep), sep);
    }
  }

  lemma PrependHead(c: char, x: seq<string>, y: seq<string>, sep: char)
    requires x != []
    ensures [""] + (x + y) == ([""] + x) + y
    ensures [[c] + (x + y)[0]] + (x + y)[1..] == ([[c] + x[0]] + x[1..]) + y
  {
  }

  /** Splitting a join gives the list back when no piece contains the separator. */
  lemma {:induction false} SplitOfJoin(l: seq<string>, sep: char)
    requires l != [] && forall p | p in l :: sep !in p
    ensures Split(Join(l, sep), sep) == l
    decreases l
  {
    if |l| == 1 {
      SplitPrefix(l[0], "", sep);
    } else {
      assert forall p | p in l[1..] :: p in l;
      SplitOfJoin(l[1..], sep);
      SplitPrefix(l[0], Join(l[1..], sep), sep);
      assert [l[0]] + l[1..] == l;
    }
  }

  /** Joining the pieces of a text gives the text back. */
  lemma {:induction false} JoinOfSplit(s: string, sep: char)
    ensures Join(Split(s, sep), sep) == s
    decreases s
  {
    if s != "" {
      JoinOfSplit(s[1..], sep);
      var rest := Split(s[1..], sep);
      if s[0] == sep {
        assert ([""] + rest)[1..] == rest;
      } else {
        assert ([[s[0]] + rest[0]] + rest[1..])[1..] == rest[1..];
        assert s == [s[0]] + s[1..];
      }
    }
  }

  function LastOf<T>(s: seq<T>): T
    requires s != []
  {
    s[|s| - 1]
  }

  lemma EndsOfConcat(a: string, b: string)
    requires a != "" && b != ""
    ensures a + b != "" && (a + b)[0] == a[0] && LastOf(a + b) == LastOf(b)
  {
  }

  /** How a join begins and ends. */
  lemma {:induction false} EndsOfJoin(l: seq<string>, sep: char)
    requires l != []
    ensures l[0] != "" ==> Join(l, sep) != "" && Join(l, sep)[0] == l[0][0]
    ensures l[0] == "" && |l| > 1 ==> Join(l, sep) != "" && Join(l, sep)[0] == sep
    ensures LastOf(l) != "" ==> Join(l, sep) != "" && LastOf(Join(l, sep)) == LastOf(LastOf(l))
    ensures LastOf(l) == "" && |l| > 1 ==> Join(l, sep) != "" && LastOf(Join(l, sep)) == sep
    decreases l
  {
    if |l| > 1 {
      var rest := l[1..];
      EndsOfJoin(rest, sep);
      assert LastOf(rest) == LastOf(l);
      if Join(rest, sep) == "" {
        assert Join(l, sep) == l[0] + [sep];
      } else {
        EndsOfConcat(l[0] + [sep], Join(rest, sep));
      }
    }
  }

  /** What a channel reads back from a stored list: trim separators, then split. */
  function ReadList(s: string, sep: char): seq<string> {
    if s == "" then [] else Split(Trim(s, sep), sep)
  }

  /** A list that survives being joined, trimmed of separators and split. */
  predicate Survives(l: seq<string>, sep: char) {
    l != [] ==> l[0] != "" && LastOf(l) != "" && forall p | p in l :: sep !in p
  }

  /** Storing a list and reading it back loses nothing exactly when no entry contains the
      separator and neither the first nor the last is empty. */
  lemma ReadOfJoinIff(l: seq<string>, sep: char)
    ensures ReadList(Join(l, sep), sep) == l <==> Survives(l, sep)
  {
    if l != [] {
      var s := Join(l, sep);
      EndsOfJoin(l, sep);
      TrimFacts(s, c => c == sep);
      if Survives(l, sep) {
        assert l[0] in l && LastOf(l) in l;
        assert l[0][0] != sep && LastOf(LastOf(l)) != sep;
        SplitOfJoin(l, sep);
      }
      if s != "" && Split(Trim(s, sep), sep) == l {
        PiecesHaveNoSeparator(Trim(s, sep), sep);
        JoinOfSplit(Trim(s, sep), sep);
      }
    }
  }

  lemma ReadOfJoin(l: seq<string>, sep: char)
    requires forall p | p in l :: p != "" && sep !in p
    ensures ReadList(Join(l, sep), sep) == l
  {
    ReadOfJoinIff(l, sep);
    if l != [] {
      assert l[0] in l && LastOf(l) in l;
    }
  }

  // ---------------------------------------------------------- list of names

  function Elems(l: seq<string>): set<string> {
    set x | x in l
  }

  lemma ElemsAppend(a: seq<string>, b: seq<string>)
    ensures Elems(a + b) == Elems(a) + Elems(b)
  {
    assert forall x | x in Elems(a) :: x in a + b;
    assert forall x | x in Elems(b) :: x in a + b;
  }

  lemma ElemsSnoc(l: seq<string>)
    requires l != []
    ensures l == l[..|l| - 1] + [l[|l| - 1]]
    ensures Elems(l) == Elems(l[..|l| - 1]) + {l[|l| - 1]}
  {
    assert l == l[..|l| - 1] + [l[|l| - 1]];
    ElemsAppend(l[..|l| - 1], [l[|l| - 1]]);
  }

  predicate NoDup(l: seq<string>) {
    forall i, j | 0 <= i < j < |l| :: l[i] != l[j]
  }

  /** First occurrences, in order. */
  function Uniq(l: seq<string>): seq<string> {
    if l == [] then []
    else
      var front := Uniq(l[..|l| - 1]);
      if l[|l| - 1] in front then front else front + [l[|l| - 1]]
  }

  lemma {:induction false} UniqFacts(l: seq<string>)
    ensures NoDup(Uniq(l)) && Elems(Uniq(l)) == Elems(l)
    ensures NoDup(l) ==> Uniq(l) == l
    decreases l
  {
    if l != [] {
      var front, last := l[..|l| - 1], l[|l| - 1];
      UniqFacts(front);
      ElemsSnoc(l);
      ElemsAppend(Uniq(front), [last]);
      assert last in Uniq(front) <==> last in Elems(front);
      assert NoDup(l) ==> last !in front;
    }
  }

  /** The entries of `l` that are in `s`, in order. */
  function Keep(l: seq<string>, s: set<string>): seq<string> {
    if l == [] then []
    else if l[|l| - 1] in s then Keep(l[..|l| - 1], s) + [l[|l| - 1]]
    else Keep(l[..|l| - 1], s)
  }

  lemma {:induction false} KeepElems(l: seq<string>, s: set<string>)
    ensures Elems(Keep(l, s)) == Elems(l) * s
    ensures Elems(l) <= s ==> Keep(l, s) == l
    decreases l
  {
    if l != [] {
      KeepElems(l[..|l| - 1], s);
      ElemsSnoc(l);
      ElemsAppend(Keep(l[..|l| - 1], s), [l[|l| - 1]]);
    }
  }

  lemma {:induction false} KeepNoDup(l: seq<string>, s: set<string>)
    requires NoDup(l)
    ensures NoDup(Keep(l, s))
    decreases l
  {
    if l != [] {
      var front, last := l[..|l| - 1], l[|l| - 1];
      KeepNoDup(front, s);
      KeepElems(front, s);
      assert last !in front;
      assert last in Keep(front, s) ==> last in Elems(Keep(front, s));
    }
  }

  lemma KeepFacts(l: seq<string>, s: set<string>)
    ensures Elems(Keep(l, s)) == Elems(l) * s
    ensures NoDup(l) ==> NoDup(Keep(l, s))
    ensures Elems(l) <= s ==> Keep(l, s) == l
  {
    KeepElems(l, s);
    if NoDup(l) {
      KeepNoDup(l, s);
    }
  }

  /** Selecting keeps the order, and looks at nothing but membership. */
  lemma {:induction false} KeepAppend(a: seq<string>, b: seq<string>, s: set<string>)
    ensures Keep(a + b, s) == Keep(a, s) + Keep(b, s)
    decreases b
  {
    if b == [] {
      assert a + b == a;
    } else {
      assert (a + b)[..|a + b| - 1] == a + b[..|b| - 1];
      KeepAppend(a, b[..|b| - 1], s);
    }
  }

  lemma {:induction false} KeepSame(l: seq<string>, s: set<string>, t: set<string>)
    requires forall x | x in l :: x in s <==> x in t
    ensures Keep(l, s) == Keep(l, t)
    decreases l
  {
    if l != [] {
      KeepSame(l[..|l| - 1], s, t);
    }
  }

  lemma {:induction false} KeepTwice(l: seq<string>, s: set<string>, t: set<string>)
    ensures Keep(Keep(l, s), t) == Keep(l, s * t)
    decreases l
  {
    if l != [] {
      KeepTwice(l[..|l| - 1], s, t);
      KeepAppend(Keep(l[..|l| - 1], s), [l[|l| - 1]], t);
    }
  }

  /** First occurrences: what comes later adds only what was not there before. */
  lemma {:induction false} UniqAppend(a: seq<string>, b: seq<string>)
    ensures Uniq(a + b) == Uniq(a) + Keep(Uniq(b), Elems(b) - Elems(a))
    decreases b
  {
    if b == [] {
      assert a + b == a;
    } else {
      var front, last := b[..|b| - 1], b[|b| - 1];
      assert (a + b)[..|a + b| - 1] == a + front;
      UniqAppend(a, front);
      ElemsSnoc(b);
      InUniq(a + front, last);
      ElemsAppend(a, front);
      InUniq(front, last);
      if last in Elems(front) {
        assert Elems(b) == Elems(front);
      } else {
        forall x | x in Uniq(front) ensures x in Elems(b) - Elems(a) <==> x in Elems(front) - Elems(a) {
          InUniq(front, x);
        }
        KeepSame(Uniq(front), Elems(b) - Elems(a), Elems(front) - Elems(a));
        KeepAppend(Uniq(front), [last], Elems(b) - Elems(a));
      }
    }
  }

  lemma InUniq(l: seq<string>, x: string)
    ensures x in Uniq(l) <==> x in Elems(l)
  {
    UniqFacts(l);
    assert x in Uniq(l) <==> x in Elems(Uniq(l));
  }

  lemma NoDupAppend(a: seq<string>, b: seq<string>)
    requires NoDup(a) && NoDup(b) && Elems(a) !! Elems(b)
    ensures NoDup(a + b)
  {
    forall i, j | 0 <= i < j < |a + b| ensures (a + b)[i] != (a + b)[j] {
      if i < |a| <= j {
        assert a[i] in Elems(a) && b[j - |a|] in Elems(b);
      }
    }
  }
}
