/**
 The Ogg page scanner that measures Opus files: it walks the pages of a stream,
 resynchronising byte by byte on the capture pattern, and keeps the largest
 granule position.  The page layout is that of section 6 of RFC 3533.
 */
module OggScanner {
  import opened Basics

  const CAPTURE: seq<Byte> := [0x4F, 0x67, 0x67, 0x53]  // "OggS"
  const HEADER := 27
  const TWO_63 := 0x8000_0000_0000_0000
  const OPUS_RATE := 48000.0

  // ---------------------------------------------------- little-endian integers

  function Value(bytes: seq<Byte>): nat {
    if bytes == [] then 0 else bytes[0] + 256 * Value(bytes[1..])
  }

  function Digits(n: nat, width: nat): (bytes: seq<Byte>)
    ensures |bytes| == width
  {
    if width == 0 then [] else [n % 256] + Digits(n / 256, width - 1)
  }

  function Span(width: nat): nat {
    if width == 0 then 1 else 256 * Span(width - 1)
  }

  lemma {:induction false} ValueOfDigits(n: nat, width: nat)
    requires n < Span(width)
    ensures Value(Digits(n, width)) == n
    decreases width
  {
    if width > 0 {
      ValueOfDigits(n / 256, width - 1);
      assert Digits(n, width)[1..] == Digits(n / 256, width - 1);
    }
  }

  /** Go's conversion of a `uint64` to an `int64`. */
  function Signed(u: nat): int {
    if u % TWO_64 >= TWO_63 then u % TWO_64 - TWO_64 else u % TWO_64
  }

  function Unsigned(i: int): nat
    requires -TWO_63 <= i < TWO_63
  {
    if i < 0 then i + TWO_64 else i
  }

  function Sum(bytes: seq<Byte>): nat {
    if bytes == [] then 0 else Sum(bytes[..|bytes| - 1]) + bytes[|bytes| - 1]
  }

  /** The length of a payload, in whichever groups its segments are added up. */
  lemma {:induction false} SumAppend(a: seq<Byte>, b: seq<Byte>)
    ensures Sum([]) == 0 && (forall x: Byte :: Sum([x]) == x)
    ensures Sum(a + b) == Sum(a) + Sum(b)
    decreases b
  {
    assert forall x: Byte :: [x][..0] == [];
    if b == [] {
      assert a + b == a;
    } else {
      assert (a + b)[..|a + b| - 1] == a + b[..|b| - 1];
      SumAppend(a, b[..|b| - 1]);
    }
  }

  function Max(a: int, b: int): int {
    if b > a then b else a
  }

  // --------------------------------------------------------------- the scanner

  /** The granule position of a page header. */
  function Granule(page: seq<Byte>): int
    requires |page| >= HEADER
  {
    Signed(Value(page[6..14]))
  }

  /** What is left of `s` after `n` bytes; nothing, once past the end. */
  function After(s: seq<Byte>, n: nat): seq<Byte> {
    if n <= |s| then s[n..] else []
  }

  lemma AfterAfter(s: seq<Byte>, a: nat, b: nat)
    ensures After(After(s, a), b) == After(s, a + b)
  {
  }

  /** The largest granule position found in what is left to read. */
  function Scan(left: seq<Byte>, total: int): int
    decreases |left|
  {
    if |left| < HEADER then total
    else if left[..4] != CAPTURE then Scan(left[1..], total)
    else
      var total' := Max(total, Granule(left));
      var segments := left[26];
      if HEADER + segments > |left| then total'
      else
        var skip := HEADER + segments + Sum(left[HEADER..HEADER + segments]);
        if skip > |left| then total' else Scan(left[skip..], total')
  }

  /** A seekable byte source; a position past the end reads as end of file. */
  class SeekReader {
    const data: seq<Byte>
    var pos: nat

    constructor (data: seq<Byte>)
      ensures this.data == data && pos == 0
    {
      this.data := data;
      pos := 0;
    }

    ghost function Left(): seq<Byte>
      reads this
    {
      After(data, pos)
    }

    method Read(n: nat) returns (chunk: seq<Byte>)
      modifies this
      ensures chunk == if |old(Left())| < n then old(Left()) else old(Left())[..n]
      ensures pos == old(pos) + |chunk|
      ensures Left() == old(Left())[|chunk|..]
    {
      if pos >= |data| {
        chunk := [];
      } else if |data| - pos < n {
        chunk := data[pos..];
      } else {
        chunk := data[pos..pos + n];
      }
      pos := pos + |chunk|;
    }

    /** Fails, leaving the position alone, when it would become negative. */
    method SeekCurrent(offset: int) returns (ok: bool)
      modifies this
      ensures ok == (old(pos) + offset >= 0)
      ensures pos == if ok then old(pos) + offset else old(pos)
    {
      ok := pos + offset >= 0;
      if ok {
        pos := pos + offset;
      }
    }
  }

  method SumOf(table: seq<Byte>) returns (size: nat)
    ensures size == Sum(table)
  {
    size := 0;
    for i := 0 to |table|
      invariant size == Sum(table[..i])
    {
      assert table[..i + 1][..i] == table[..i];
      size := size + table[i];
    }
    assert table[..|table|] == table;
  }

  /** Reads the segment table and skips the payload; fails when the table is cut off. */
  method SkipBody(r: SeekReader, segments: nat) returns (ok: bool)
    modifies r
    ensures ok == (segments <= |old(r.Left())|)
    ensures ok ==> r.Left() == After(old(r.Left()), segments + Sum(old(r.Left())[..segments]))
  {
    ghost var start := r.pos;
    var segmentTable := r.Read(segments);
    if |segmentTable| < segments {
      return false;
    }
    var pageSize := SumOf(segmentTable);
    ok := r.SeekCurrent(pageSize);
    AfterAfter(r.data, start, segments + pageSize);
  }

  /** Back to one byte past where a header was read. */
  method Resync(r: SeekReader, ghost left: seq<Byte>)
    requires HEADER <= |left| && HEADER <= r.pos && left == After(r.data, r.pos - HEADER)
    modifies r
    ensures r.Left() == left[1..]
  {
    AfterAfter(r.data, r.pos - HEADER, 1);
    var ok := r.SeekCurrent(-26);
  }

  /** The round of a captured header; fails when the page is cut off in its table. */
  method ReadPage(r: SeekReader, buf: seq<Byte>, ghost left: seq<Byte>, total: int) returns (ok: bool, totalGranulePos: int)
    requires HEADER <= |left| && buf == left[..HEADER] && buf[0..4] == CAPTURE && r.Left() == left[HEADER..]
    modifies r
    ensures ok ==> |r.Left()| < |left| && Scan(left, total) == Scan(r.Left(), totalGranulePos)
    ensures !ok ==> Scan(left, total) == totalGranulePos
  {
    assert left[..4] == buf[0..4] && left[6..14] == buf[6..14];
    ScanBody(left, total);
    totalGranulePos := total;
    var granulePos := Signed(Value(buf[6..14]));
    if granulePos > totalGranulePos {
      totalGranulePos := granulePos;
    }
    var numSegments := buf[26];
    ok := SkipBody(r, numSegments);
  }

  /** The loop of `getOpusDuration`; each round leaves strictly fewer bytes to read. */
  method LargestGranule(r: SeekReader) returns (totalGranulePos: int)
    requires r.pos == 0
    modifies r
    ensures totalGranulePos == Scan(r.data, 0)
  {
    totalGranulePos := 0;
    while true
      invariant Scan(r.Left(), totalGranulePos) == Scan(r.data, 0)
      decreases |r.Left()|
    {
      ghost var left := r.Left();
      var buf := r.Read(HEADER);
      if |buf| < HEADER {
        break;
      }
      assert left[..4] == buf[0..4];
      if buf[0..4] != CAPTURE {
        Resync(r, left);
        continue;
      }
      var ok;
      ok, totalGranulePos := ReadPage(r, buf, left, totalGranulePos);
      if !ok {
        break;
      }
    }
  }

  function Duration(data: seq<Byte>): real {
    Scan(data, 0) as real / OPUS_RATE
  }

  method GetOpusDuration(r: SeekReader) returns (seconds: real)
    modifies r
    ensures seconds == Duration(r.data)
  {
    r.pos := 0;
    var totalGranulePos := LargestGranule(r);
    seconds := totalGranulePos as real / OPUS_RATE;
  }

  /** What follows a captured header, in terms of the bytes after it. */
  lemma ScanBody(left: seq<Byte>, total: int)
    requires HEADER <= |left| && left[..4] == CAPTURE
    ensures var body, segments, total' := left[HEADER..], left[26], Max(total, Granule(left));
            if segments > |body| then Scan(left, total) == total'
            else Scan(left, total) == Scan(After(body, segments + Sum(body[..segments])), total')
  {
    var body, segments := left[HEADER..], left[26];
    ScanCaptured(left, total, Max(total, Granule(left)));
    if segments <= |body| {
      var size := segments + Sum(body[..segments]);
      SliceOfSlice(left, HEADER, segments, size);
    }
  }

  lemma ScanCaptured(left: seq<Byte>, total: int, total': int)
    requires HEADER <= |left| && left[..4] == CAPTURE && total' == Max(total, Granule(left))
    ensures if HEADER + left[26] > |left| then Scan(left, total) == total'
            else Scan(left, total) == Scan(After(left, HEADER + left[26] + Sum(left[HEADER..HEADER + left[26]])), total')
  {
  }

  lemma SliceOfSlice(s: seq<Byte>, h: nat, n: nat, k: nat)
    requires h + n <= |s|
    ensures s[h..h + n] == s[h..][..n]
    ensures h + k <= |s| ==> s[h + k..] == s[h..][k..]
  {
  }

  // --------------------------------------------------------------- the encoder

  datatype Page = Page(
    version: Byte, flags: Byte, granule: int, serial: nat, sequence: nat, checksum: nat,
    lacing: seq<Byte>, payload: seq<Byte>)

  predicate WellFormed(p: Page) {
    && -TWO_63 <= p.granule < TWO_63
    && |p.lacing| <= 255
    && |p.payload| == Sum(p.lacing)
  }

  function Header(p: Page): (bytes: seq<Byte>)
    requires WellFormed(p)
    ensures |bytes| == HEADER
  {
    CAPTURE + [p.version, p.flags] + Digits(Unsigned(p.granule), 8)
    + Digits(p.serial, 4) + Digits(p.sequence, 4) + Digits(p.checksum, 4) + [|p.lacing|]
  }

  function EncodePage(p: Page): (bytes: seq<Byte>)
    requires WellFormed(p)
    ensures |bytes| == HEADER + |p.lacing| + Sum(p.lacing)
  {
    Header(p) + p.lacing + p.payload
  }

  /** A stream is made of pages and of junk between them. */
  datatype Part = Junk(bytes: seq<Byte>) | Whole(page: Page)

  predicate PartsOk(parts: seq<Part>) {
    forall i | 0 <= i < |parts| && parts[i].Whole? :: WellFormed(parts[i].page)
  }

  function Encode(parts: seq<Part>, tail: seq<Byte>): seq<Byte>
    requires PartsOk(parts)
  {
    if parts == [] then tail
    else
      (match parts[0] case Junk(bytes) => bytes case Whole(page) => EncodePage(page))
      + Encode(parts[1..], tail)
  }

  /** The capture pattern starts at offset `i`. */
  predicate CaptureAt(bytes: seq<Byte>, i: nat) {
    i + 4 <= |bytes| && bytes[i..i + 4] == CAPTURE
  }

  /** No capture pattern starts inside junk, even one that runs into what follows. */
  predicate JunkIsQuiet(parts: seq<Part>, tail: seq<Byte>)
    requires PartsOk(parts)
  {
    parts == [] ||
    (&& (parts[0].Junk? ==> forall i: nat | i < |parts[0].bytes| :: !CaptureAt(Encode(parts, tail), i))
     && JunkIsQuiet(parts[1..], tail))
  }

  /** The largest granule position of the pages, starting from `total`. */
  function Largest(parts: seq<Part>, total: int): int {
    if parts == [] then total
    else Largest(parts[1..], if parts[0].Whole? then Max(total, parts[0].page.granule) else total)
  }

  // ---------------------------------------------- scanning inverts the encoder

  lemma SignedOfUnsigned(i: int)
    requires -TWO_63 <= i < TWO_63
    ensures Signed(Unsigned(i)) == i && Unsigned(i) < Span(8)
  {
    assert Span(1) == 256 && Span(2) == 0x1_0000 && Span(3) == 0x100_0000 && Span(4) == 0x1_0000_0000;
    assert Span(5) == 0x100_0000_0000 && Span(6) == 0x1_0000_0000_0000 && Span(7) == 0x100_0000_0000_0000;
  }

  lemma HeaderFields(p: Page, rest: seq<Byte>)
    requires WellFormed(p)
    ensures var bytes := Header(p) + rest;
            && bytes[..4] == CAPTURE && Granule(bytes) == p.granule && bytes[26] == |p.lacing|
  {
    var bytes := Header(p) + rest;
    var lead := CAPTURE + [p.version, p.flags];
    var digits := Digits(Unsigned(p.granule), 8);
    var trail := Digits(p.serial, 4) + Digits(p.sequence, 4) + Digits(p.checksum, 4) + [|p.lacing|];
    assert Header(p) == lead + digits + trail;
    assert bytes[6..14] == digits;
    SignedOfUnsigned(p.granule);
    ValueOfDigits(Unsigned(p.granule), 8);
    assert bytes[26] == trail[12];
  }

  /** One page is consumed whole, whatever bytes its payload holds. */
  lemma ScanPage(p: Page, rest: seq<Byte>, total: int)
    requires WellFormed(p)
    ensures Scan(EncodePage(p) + rest, total) == Scan(rest, Max(total, p.granule))
  {
    var bytes := EncodePage(p) + rest;
    assert bytes == Header(p) + (p.lacing + p.payload + rest);
    HeaderFields(p, p.lacing + p.payload + rest);
    assert bytes[HEADER..HEADER + |p.lacing|] == p.lacing;
    assert bytes[HEADER + |p.lacing| + Sum(p.lacing)..] == rest;
  }

  lemma {:induction false} PagesNeedRoom(parts: seq<Part>, tail: seq<Byte>, total: int)
    requires PartsOk(parts)
    ensures |Encode(parts, tail)| >= |tail|
    ensures |Encode(parts, tail)| < HEADER ==> Largest(parts, total) == total
    decreases parts
  {
    if parts != [] {
      PagesNeedRoom(parts[1..], tail, total);
    }
  }

  /** Junk is skipped one byte at a time. */
  lemma {:induction false} ScanJunk(junk: seq<Byte>, rest: seq<Byte>, total: int)
    requires forall i: nat | i < |junk| :: !CaptureAt(junk + rest, i)
    ensures |junk + rest| >= HEADER && |rest| >= HEADER ==> Scan(junk + rest, total) == Scan(rest, total)
    ensures |rest| < HEADER ==> Scan(junk + rest, total) == total
    decreases junk
  {
    if junk == [] {
      assert junk + rest == rest;
    } else if |junk + rest| >= HEADER {
      assert !CaptureAt(junk + rest, 0);
      assert (junk + rest)[1..] == junk[1..] + rest;
      forall i: nat | i < |junk| - 1 ensures !CaptureAt(junk[1..] + rest, i) {
        assert !CaptureAt(junk + rest, i + 1);
        if i + 4 <= |junk[1..] + rest| {
          assert (junk[1..] + rest)[i..i + 4] == (junk + rest)[i + 1..i + 5];
        }
      }
      ScanJunk(junk[1..], rest, total);
    }
  }

  /** Scanning a stream reaches its tail with the largest granule position of its pages. */
  lemma {:induction false} ScanStream(parts: seq<Part>, tail: seq<Byte>, total: int)
    requires PartsOk(parts) && JunkIsQuiet(parts, tail)
    ensures Scan(Encode(parts, tail), total) == Scan(tail, Largest(parts, total))
    decreases parts
  {
    if parts != [] {
      var rest := Encode(parts[1..], tail);
      match parts[0]
      case Whole(page) =>
        ScanPage(page, rest, total);
        ScanStream(parts[1..], tail, Max(total, page.granule));
      case Junk(bytes) =>
        assert Encode(parts, tail) == bytes + rest;
        ScanJunk(bytes, rest, total);
        ScanStream(parts[1..], tail, total);
        PagesNeedRoom(parts[1..], tail, total);
    }
  }

  /** The scanner inverts the encoder: for pages with quiet junk between and after
      them the result is the largest granule position, or zero if none is positive. */
  lemma ScanInvertsEncode(parts: seq<Part>)
    requires PartsOk(parts) && JunkIsQuiet(parts, [])
    ensures Scan(Encode(parts, []), 0) == Largest(parts, 0)
    ensures Largest(parts, 0) >= 0
    ensures forall i | 0 <= i < |parts| && parts[i].Whole? :: parts[i].page.granule <= Largest(parts, 0)
    ensures Largest(parts, 0) == 0 || exists i :: 0 <= i < |parts| && parts[i].Whole? && parts[i].page.granule == Largest(parts, 0)
  {
    ScanStream(parts, [], 0);
    LargestIsMaximum(parts, 0);
  }

  /** The granule position counts samples of which a second has 48000. */
  lemma DurationInSamples(parts: seq<Part>)
    requires PartsOk(parts) && JunkIsQuiet(parts, [])
    ensures Duration(Encode(parts, [])) * 48000.0 == Largest(parts, 0) as real
  {
    ScanInvertsEncode(parts);
  }

  lemma {:induction false} LargestIsMaximum(parts: seq<Part>, total: int)
    ensures Largest(parts, total) >= total
    ensures forall i | 0 <= i < |parts| && parts[i].Whole? :: parts[i].page.granule <= Largest(parts, total)
    ensures Largest(parts, total) == total
            || exists i :: 0 <= i < |parts| && parts[i].Whole? && parts[i].page.granule == Largest(parts, total)
    decreases parts
  {
    if parts != [] {
      var total' := if parts[0].Whole? then Max(total, parts[0].page.granule) else total;
      LargestIsMaximum(parts[1..], total');
      forall i | 0 <= i < |parts| && parts[i].Whole? ensures parts[i].page.granule <= Largest(parts, total) {
        if i > 0 {
          assert parts[1..][i - 1] == parts[i];
        }
      }
      if Largest(parts, total) != total && Largest(parts, total) != total' {
        var j :| 0 <= j < |parts[1..]| && parts[1..][j].Whole? && parts[1..][j].page.granule == Largest(parts[1..], total');
        assert parts[j + 1] == parts[1..][j];
      }
    }
  }

  lemma ScanPartialPage(p: Page, keep: nat, total: int)
    requires WellFormed(p) && HEADER <= keep < |EncodePage(p)|
    ensures Scan(EncodePage(p)[..keep], total) == Max(total, p.granule)
  {
    assert EncodePage(p) == Header(p) + (p.lacing + p.payload);
    TakeOfConcat(Header(p), p.lacing + p.payload, keep);
    ScanCut(p, keep - HEADER, (p.lacing + p.payload)[..keep - HEADER], total);
  }

  lemma ScanCut(p: Page, k: nat, body: seq<Byte>, total: int)
    requires WellFormed(p) && k < |p.lacing + p.payload| && body == (p.lacing + p.payload)[..k]
    ensures Scan(Header(p) + body, total) == Max(total, p.granule)
  {
    HeaderFields(p, body);
    ScanBody(Header(p) + body, total);
    assert (Header(p) + body)[HEADER..] == body;
    if |p.lacing| <= |body| {
      TakeOfConcat(p.lacing, p.payload, k);
    }
  }

  lemma TakeOfConcat(a: seq<Byte>, b: seq<Byte>, k: nat)
    requires |a| <= k <= |a + b|
    ensures (a + b)[..k] == a + b[..k - |a|]
    ensures (a + b)[..k][..|a|] == a && (a + b)[..k][|a|..] == b[..k - |a|]
  {
  }

  /** A last page cut off anywhere still counts once its header is complete. */
  lemma ScanTruncated(parts: seq<Part>, p: Page, keep: nat)
    requires WellFormed(p) && keep < |EncodePage(p)|
    requires PartsOk(parts) && JunkIsQuiet(parts, EncodePage(p)[..keep])
    ensures Scan(Encode(parts, EncodePage(p)[..keep]), 0)
            == if keep < HEADER then Largest(parts, 0) else Largest(parts + [Whole(p)], 0)
  {
    ScanStream(parts, EncodePage(p)[..keep], 0);
    if keep >= HEADER {
      LargestSnoc(parts, p, 0);
      ScanPartialPage(p, keep, Largest(parts, 0));
    }
  }

  lemma {:induction false} LargestSnoc(parts: seq<Part>, p: Page, total: int)
    ensures Largest(parts + [Whole(p)], total) == Max(Largest(parts, total), p.granule)
    decreases parts
  {
    if parts == [] {
      assert parts + [Whole(p)] == [Whole(p)];
    } else {
      assert (parts + [Whole(p)])[1..] == parts[1..] + [Whole(p)];
      LargestSnoc(parts[1..], p, if parts[0].Whole? then Max(total, parts[0].page.granule) else total);
    }
  }
}
