/*
 * The file structure of a PDF (ISO 32000-1, sections 7.5.2 to 7.5.6): the
 * header, the `startxref` offset near the end of the file, classic
 * cross-reference tables of fixed-width entries, the trailer dictionary and
 * the `/Prev` chain linking the sections of an incrementally updated file.
 */
module XRefTable {
  import opened Common
  import opened PdfObjects
  import opened Lexing
  import opened ObjectParsing

  /** An entry of the cross-reference table (`XRefEntry`). */
  datatype XRefEntry = XRefEntry(offset: nat, generation: u16, inUse: bool)

  /** Object number to entry. */
  type XRef = map<u32, XRefEntry>

  type Dictionary = map<string, PdfObject>

  const U32_LIMIT: nat := 0x1_0000_0000

  const HEADER: seq<byte> := Bytes("%PDF-")
  const STARTXREF: seq<byte> := Bytes("startxref")
  const XREF: seq<byte> := Bytes("xref")
  const TRAILER: seq<byte> := Bytes("trailer")
  const N_FLAG: byte := 0x6E
  const F_FLAG: byte := 0x66

  /** The file starts with `%PDF-`. */
  predicate HasHeader(data: seq<byte>)
  {
    |data| >= 5 && data[..5] == HEADER
  }

  function SatSub(a: nat, b: nat): nat
  {
    if a >= b then a - b else 0
  }

  // ---------------------------------------------------------------------------
  // startxref

  predicate StartxrefAt(data: seq<byte>, i: nat)
  {
    i + 9 <= |data| && data[i..i + 9] == STARTXREF
  }

  /** The greatest `i` in `[lo, hi)` where `startxref` starts. */
  function LastStartxref(data: seq<byte>, lo: nat, hi: nat): (r: Option<nat>)
    ensures r.Some? ==> lo <= r.value < hi && StartxrefAt(data, r.value)
    ensures r.Some? ==> forall i | r.value < i < hi :: !StartxrefAt(data, i)
    ensures r.None? ==> forall i | lo <= i < hi :: !StartxrefAt(data, i)
    decreases hi
  {
    if hi <= lo then None
    else if StartxrefAt(data, hi - 1) then Some(hi - 1)
    else LastStartxref(data, lo, hi - 1)
  }

  /**
   * `find_startxref`: the last `startxref` that starts within the final 1024
   * bytes and ends before the last byte; `MissingEof` when there is none.
   */
  function FindStartxrefF(data: seq<byte>): (r: Result<nat>)
    ensures r.Ok? ==> SatSub(|data|, 1024) <= r.value && r.value + 9 < |data| && StartxrefAt(data, r.value)
    ensures r.Ok? ==> forall i | r.value < i && i + 9 < |data| :: !StartxrefAt(data, i)
    ensures r.Err? ==> r.error == MissingEof
    ensures r.Err? ==> forall i | SatSub(|data|, 1024) <= i && i + 9 < |data| :: !StartxrefAt(data, i)
  {
    match LastStartxref(data, SatSub(|data|, 1024), SatSub(|data|, 9))
    case None => Err(MissingEof)
    case Some(i) => Ok(i)
  }

  /** The backwards scan of `find_startxref`. */
  method FindStartxref(data: seq<byte>) returns (r: Result<nat>)
    ensures r == FindStartxrefF(data)
  {
    var lo, hi := SatSub(|data|, 1024), SatSub(|data|, 9);
    var i := hi;
    while i > lo
      invariant i <= hi
      invariant LastStartxref(data, lo, i) == LastStartxref(data, lo, hi)
      decreases i
    {
      if data[i - 1..i + 8] == STARTXREF {
        return Ok(i - 1);
      }
      i := i - 1;
    }
    return Err(MissingEof);
  }

  /**
   * `parse_startxref`: the object after the keyword must be an integer, read
   * as a `usize` (a negative value wraps around).
   */
  function StartxrefOffsetF(data: seq<byte>, pos: nat): (r: Result<nat>)
    ensures r.Ok? ==> r.value < U64_LIMIT
  {
    match ParseObjectF(data, PState(pos + 9, []))
    case Err(e) => Err(e)
    case Ok((Some(Int(n)), _)) => Ok(n % U64_LIMIT)
    case Ok(_) => Err(Parse(pos, "Expected xref offset after startxref"))
  }

  method ParseStartxref(data: seq<byte>, pos: nat) returns (r: Result<nat>)
    ensures r == StartxrefOffsetF(data, pos)
  {
    var p := new Parser(data);
    p.Seek(pos + 9);
    var o := p.ParseObject();
    match o {
      case Err(e) => r := Err(e);
      case Ok(Some(Int(n))) => r := Ok(n % U64_LIMIT);
      case Ok(_) => r := Err(Parse(pos, "Expected xref offset after startxref"));
    }
  }

  // ---------------------------------------------------------------------------
  // Lines

  predicate IsEol(b: byte) { b == LF || b == CR }

  /** The position of the first LF or CR at or after `p`, or the end of the data. */
  function LineEnd(data: seq<byte>, p: nat): (e: nat)
    requires p <= |data|
    ensures p <= e <= |data|
    ensures e < |data| ==> IsEol(data[e])
    ensures forall k | p <= k < e :: !IsEol(data[k])
    decreases |data| - p
  {
    if p == |data| || IsEol(data[p]) then p else LineEnd(data, p + 1)
  }

  /** Past an optional CR, then an optional LF. */
  function SkipEol(data: seq<byte>, p: nat): (q: nat)
    requires p <= |data|
    ensures p <= q <= |data| && q <= p + 2
  {
    var p1 := if p < |data| && data[p] == CR then p + 1 else p;
    if p1 < |data| && data[p1] == LF then p1 + 1 else p1
  }

  predicate IsXrefSpace(b: byte) { b == SPACE || b == TAB || b == LF || b == CR }

  /** Past spaces, tabs and line ends. */
  function SkipXrefSpace(data: seq<byte>, p: nat): (q: nat)
    requires p <= |data|
    ensures p <= q <= |data|
    ensures q < |data| ==> !IsXrefSpace(data[q])
    ensures forall k | p <= k < q :: IsXrefSpace(data[k])
    decreases |data| - p
  {
    if p < |data| && IsXrefSpace(data[p]) then SkipXrefSpace(data, p + 1) else p
  }

  method SkipXrefWhiteSpace(data: seq<byte>, p: nat) returns (q: nat)
    requires p <= |data|
    ensures q == SkipXrefSpace(data, p)
  {
    q := p;
    while q < |data| && IsXrefSpace(data[q])
      invariant p <= q <= |data|
      invariant SkipXrefSpace(data, q) == SkipXrefSpace(data, p)
      decreases |data| - q
    {
      q := q + 1;
    }
  }

  // ---------------------------------------------------------------------------
  // Entries

  /** A decimal field: UTF-8, trimmed, then read as an unsigned integer below `limit`. */
  function DecimalField(bs: seq<byte>, limit: nat): (r: Result<nat>)
    ensures r.Ok? ==> r.value < limit
    ensures r.Err? ==> r.error == InvalidXref
  {
    match Utf8Decode(bs)
    case None => Err(InvalidXref)
    case Some(s) =>
      match ParseUnsigned(Trim(s), limit)
      case None => Err(InvalidXref)
      case Some(v) => Ok(v)
  }

  /**
   * One entry line `nnnnnnnnnn ggggg n`: the offset in bytes 0-9, the
   * generation in bytes 11-15 and the flag in byte 17. `Some` for an in-use
   * entry (flag `n`), `None` for any other flag; a line of fewer than 18
   * bytes is rejected.
   */
  function EntryF(line: seq<byte>): (r: Result<Option<XRefEntry>>)
    ensures r.Ok? ==> |line| >= 18
    ensures r.Ok? && r.value.Some? ==> line[17] == N_FLAG && r.value.value.inUse
    ensures r.Ok? && r.value.None? ==> line[17] != N_FLAG
    ensures r.Err? ==> r.error == InvalidXref
  {
    if |line| < 18 then Err(InvalidXref)
    else
      var offset :- DecimalField(line[..10], U64_LIMIT);
      var generation :- DecimalField(line[11..16], 0x1_0000);
      Ok(if line[17] == N_FLAG then Some(XRefEntry(offset, generation, true)) else None)
  }

  /**
   * The entry parser as written: it rejects only lines shorter than 17
   * bytes, then reads byte 17. `None` stands for the out-of-bounds panic on
   * a line of exactly 17 bytes.
   */
  function EntryAsWritten(line: seq<byte>): (r: Option<Result<Option<XRefEntry>>>)
  {
    if |line| < 17 then Some(Err(InvalidXref))
    else
      match DecimalField(line[..10], U64_LIMIT)
      case Err(e) => Some(Err(e))
      case Ok(offset) =>
        match DecimalField(line[11..16], 0x1_0000)
        case Err(e) => Some(Err(e))
        case Ok(generation) =>
          if |line| == 17 then None
          else Some(Ok(if line[17] == N_FLAG then Some(XRefEntry(offset, generation, true)) else None))
  }

  /** On every line but those of exactly 17 bytes the two versions agree. */
  lemma EntryAsWrittenAgrees(line: seq<byte>)
    requires |line| != 17
    ensures EntryAsWritten(line) == Some(EntryF(line))
  {
  }

  /** `n` written as exactly `w` decimal digits, with leading zeros. */
  function FixedDigits(n: nat, w: nat): (s: string)
    ensures |s| == w && AllDigits(s)
  {
    if w == 0 then [] else FixedDigits(n / 10, w - 1) + [('0' as int + n % 10) as char]
  }

  lemma {:induction false} FixedDigitsValue(n: nat, w: nat)
    requires n < Pow10(w)
    ensures DigitsValue(FixedDigits(n, w)) == n
  {
    if w > 0 {
      var s := FixedDigits(n, w);
      assert n / 10 < Pow10(w - 1);
      FixedDigitsValue(n / 10, w - 1);
      assert s[..|s| - 1] == FixedDigits(n / 10, w - 1);
    }
  }

  lemma DigitsTrimmed(s: string)
    requires |s| > 0 && AllDigits(s)
    ensures Trim(s) == s
  {
    assert !IsWhiteSpace(s[|s| - 1]);
    assert TrimEnd(s) == s;
    assert !IsWhiteSpace(s[0]);
  }

  lemma DigitsDecode(s: string)
    requires AllDigits(s)
    ensures Utf8Decode(Bytes(s)) == Some(s)
  {
    Utf8DecodeAscii(Bytes(s));
    assert Latin1(Bytes(s)) == s;
  }

  lemma ParseFixedDigits(n: nat, w: nat, limit: nat)
    requires 0 < w && n < Pow10(w) && n < limit
    ensures ParseUnsigned(FixedDigits(n, w), limit) == Some(n)
  {
    var s := FixedDigits(n, w);
    FixedDigitsValue(n, w);
    assert s[0] != '+';
  }

  /** A field of `w` digits reads back as its value. */
  lemma DecimalFieldOfDigits(n: nat, w: nat, limit: nat)
    requires 0 < w && n < Pow10(w) && n < limit
    ensures DecimalField(Bytes(FixedDigits(n, w)), limit) == Ok(n)
  {
    var s := FixedDigits(n, w);
    DigitsDecode(s);
    DigitsTrimmed(s);
    ParseFixedDigits(n, w, limit);
  }

  lemma Pow10Values()
    ensures Pow10(5) == 100000 && Pow10(10) == 10000000000
  {
    calc {
      Pow10(10);
      100000 * Pow10(5);
    }
  }

  /** The 18-byte text of an entry: offset, generation and the `n` or `f` flag. */
  function EntryLine(e: XRefEntry): (line: seq<byte>)
    ensures |line| == 18
  {
    Bytes(FixedDigits(e.offset, 10)) + [SPACE] + Bytes(FixedDigits(e.generation, 5)) + [SPACE, if e.inUse then N_FLAG else F_FLAG]
  }

  /** Reading an entry back gives it (in use) or nothing (free). */
  lemma EntryRoundTrip(e: XRefEntry)
    requires e.offset < 10000000000
    ensures EntryF(EntryLine(e)) == Ok(if e.inUse then Some(e) else None)
  {
    var line := EntryLine(e);
    Pow10Values();
    assert line[..10] == Bytes(FixedDigits(e.offset, 10));
    assert line[11..16] == Bytes(FixedDigits(e.generation, 5));
    DecimalFieldOfDigits(e.offset, 10, U64_LIMIT);
    DecimalFieldOfDigits(e.generation, 5, 0x1_0000);
  }

  /**
   * A 17-byte line whose two numbers read well, `0000000000 00000 ` with no
   * flag: the code as written indexes past its end, the corrected parser
   * rejects it with `InvalidXref`.
   */
  lemma SeventeenByteLinePanics()
    ensures var line := Bytes(FixedDigits(0, 10)) + [SPACE] + Bytes(FixedDigits(0, 5)) + [SPACE];
      |line| == 17 && EntryAsWritten(line).None? && EntryF(line) == Err(InvalidXref)
  {
    var line := Bytes(FixedDigits(0, 10)) + [SPACE] + Bytes(FixedDigits(0, 5)) + [SPACE];
    Pow10Values();
    assert line[..10] == Bytes(FixedDigits(0, 10));
    assert line[11..16] == Bytes(FixedDigits(0, 5));
    DecimalFieldOfDigits(0, 10, U64_LIMIT);
    DecimalFieldOfDigits(0, 5, 0x1_0000);
  }

  /** The map after an entry line: an in-use entry is inserted under `k`, replacing what was there. */
  function WithEntry(m: XRef, k: u32, entry: Option<XRefEntry>): (r: XRef)
    ensures r == m + (if entry.Some? then map[k := entry.value] else map[])
  {
    if entry.Some? then m[k := entry.value] else m
  }

  /** `start_obj + i` as a `u32`. */
  function EntryKey(start: u32, i: nat): u32
  {
    (start + i) % U32_LIMIT
  }

  /**
   * The entry loop of one subsection, from entry `i` of `count` on at `pos`:
   * each line must be non-empty; in-use entries are inserted under
   * `start + i`, replacing what the map held.
   */
  function EntriesF(data: seq<byte>, pos: nat, start: u32, i: nat, count: nat, xref: XRef): (r: Result<(XRef, nat)>)
    requires pos <= |data|
    ensures r.Ok? ==> pos <= r.value.1 <= |data|
    decreases count - i
  {
    if i >= count then Ok((xref, pos))
    else
      var e := LineEnd(data, pos);
      if e <= pos then Err(InvalidXref)
      else
        match EntryF(data[pos..e])
        case Err(err) => Err(err)
        case Ok(entry) =>
          EntriesF(data, SkipEol(data, e), start, i + 1, count, WithEntry(xref, EntryKey(start, i), entry))
  }

  predicate TrailerAt(data: seq<byte>, i: nat)
  {
    i + 7 <= |data| && data[i..i + 7] == TRAILER
  }

  /** What the subsection loop finds at a line. */
  datatype Head = Stop | Fail(error: PdfError) | Subsection(start: u32, count: nat, after: nat)

  /**
   * The line at `pos`: the end of the table at `trailer`, at the end of the
   * data or at a line that is not two words; `InvalidXref` for a line that
   * is not UTF-8 or whose words are not `u32` numbers; otherwise a
   * subsection header, `after` being the start of the next line.
   */
  function HeadF(data: seq<byte>, pos: nat): (h: Head)
    requires pos <= |data|
    ensures h.Subsection? ==> pos < h.after <= |data|
    ensures h.Fail? ==> h.error == InvalidXref
  {
    if TrailerAt(data, pos) || pos >= |data| then Stop
    else
      var e := LineEnd(data, pos);
      match Utf8Decode(data[pos..e])
      case None => Fail(InvalidXref)
      case Some(header) =>
        var parts := Words(header);
        if |parts| != 2 then Stop
        else
          match ParseUnsigned(parts[0], U32_LIMIT)
          case None => Fail(InvalidXref)
          case Some(start) =>
            match ParseUnsigned(parts[1], U32_LIMIT)
            case None => Fail(InvalidXref)
            case Some(count) => Subsection(start, count, SkipEol(data, e))
  }

  /** The subsection loop from `pos`, inserting into `xref`. */
  function SubsectionsF(data: seq<byte>, pos: nat, xref: XRef): (r: Result<XRef>)
    requires pos <= |data|
    decreases |data| - pos
  {
    match HeadF(data, pos)
    case Stop => Ok(xref)
    case Fail(e) => Err(e)
    case Subsection(start, count, after) =>
      match EntriesF(data, after, start, 0, count, xref)
      case Err(err) => Err(err)
      case Ok((xref', p)) => SubsectionsF(data, p, xref')
  }

  predicate XrefAt(data: seq<byte>, i: nat)
  {
    i + 4 <= |data| && data[i..i + 4] == XREF
  }

  /** `parse_traditional_xref` at a table starting with `xref`, inserting into `xref`. */
  function TraditionalXrefF(data: seq<byte>, offset: nat, xref: XRef): Result<XRef>
    requires XrefAt(data, offset)
  {
    SubsectionsF(data, SkipXrefSpace(data, offset + 4), xref)
  }

  /** The entries of one subsection. */
  method ReadEntries(data: seq<byte>, pos: nat, start: u32, count: nat, xref: XRef) returns (r: Result<(XRef, nat)>)
    requires pos <= |data|
    ensures r == EntriesF(data, pos, start, 0, count, xref)
  {
    var p: nat := pos;
    var x: XRef := xref;
    for i := 0 to count
      invariant p <= |data|
      invariant EntriesF(data, p, start, i, count, x) == EntriesF(data, pos, start, 0, count, xref)
    {
      var e := LineEnd(data, p);
      if e <= p {
        return Err(InvalidXref);
      }
      ghost var old_x := x;
      var entry :- EntryF(data[p..e]);
      if entry.Some? {
        x := x[EntryKey(start, i) := entry.value];
      }
      assert x == WithEntry(old_x, EntryKey(start, i), entry);
      p := SkipEol(data, e);
    }
    return Ok((x, p));
  }

  /** The checks on the line at `pos` in the subsection loop. */
  method ReadHead(data: seq<byte>, pos: nat) returns (h: Head)
    requires pos <= |data|
    ensures h == HeadF(data, pos)
  {
    if pos + 7 <= |data| && data[pos..pos + 7] == TRAILER {
      return Stop;
    }
    if pos >= |data| {
      return Stop;
    }
    var e := LineEnd(data, pos);
    var header := Utf8Decode(data[pos..e]);
    if header.None? {
      return Fail(InvalidXref);
    }
    var parts := Words(header.value);
    if |parts| != 2 {
      return Stop;
    }
    var start := ParseUnsigned(parts[0], U32_LIMIT);
    if start.None? {
      return Fail(InvalidXref);
    }
    var count := ParseUnsigned(parts[1], U32_LIMIT);
    if count.None? {
      return Fail(InvalidXref);
    }
    return Subsection(start.value, count.value, SkipEol(data, e));
  }

  /** `parse_traditional_xref`. */
  method ParseTraditionalXref(data: seq<byte>, offset: nat, xref: XRef) returns (r: Result<XRef>)
    requires XrefAt(data, offset)
    ensures r == TraditionalXrefF(data, offset, xref)
  {
    var pos := SkipXrefWhiteSpace(data, offset + 4);
    var x := xref;
    while true
      invariant pos <= |data|
      invariant SubsectionsF(data, pos, x) == TraditionalXrefF(data, offset, xref)
      decreases |data| - pos
    {
      var h := ReadHead(data, pos);
      match h {
        case Stop => return Ok(x);
        case Fail(e) => return Err(e);
        case Subsection(start, count, after) =>
          var entries := ReadEntries(data, after, start, count, x);
          if entries.Err? {
            return Err(entries.error);
          }
          x, pos := entries.value.0, entries.value.1;
      }
    }
  }

  // ---------------------------------------------------------------------------
  // Entries parsed into a filled map override it

  /** The map `m` overridden by a successful result. */
  function OverEntries(m: XRef, r: Result<(XRef, nat)>): Result<(XRef, nat)>
  {
    match r
    case Ok((x, p)) => Ok((m + x, p))
    case Err(e) => Err(e)
  }

  function OverXref(m: XRef, r: Result<XRef>): Result<XRef>
  {
    match r
    case Ok(x) => Ok(m + x)
    case Err(e) => Err(e)
  }

  lemma MapUnionAssoc(a: XRef, b: XRef, c: XRef)
    ensures (a + b) + c == a + (b + c)
  {
  }

  /** One entry line read: the loop goes on from the next line with the entry inserted. */
  lemma EntriesStep(data: seq<byte>, pos: nat, start: u32, i: nat, count: nat, m: XRef, entry: Option<XRefEntry>)
    requires pos <= |data| && i < count
    requires LineEnd(data, pos) > pos && EntryF(data[pos..LineEnd(data, pos)]) == Ok(entry)
    ensures EntriesF(data, pos, start, i, count, m)
      == EntriesF(data, SkipEol(data, LineEnd(data, pos)), start, i + 1, count, WithEntry(m, EntryKey(start, i), entry))
  {
  }

  lemma {:induction false} EntriesOverride(data: seq<byte>, pos: nat, start: u32, i: nat, count: nat, m: XRef)
    requires pos <= |data|
    ensures EntriesF(data, pos, start, i, count, m) == OverEntries(m, EntriesF(data, pos, start, i, count, map[]))
    decreases count - i
  {
    if i < count {
      var e := LineEnd(data, pos);
      if e > pos && EntryF(data[pos..e]).Ok? {
        var entry := EntryF(data[pos..e]).value;
        var p := SkipEol(data, e);
        var k := EntryKey(start, i);
        EntriesStep(data, pos, start, i, count, m, entry);
        EntriesStep(data, pos, start, i, count, map[], entry);
        var one := WithEntry(map[], k, entry);
        assert WithEntry(m, k, entry) == m + one;
        EntriesOverride(data, p, start, i + 1, count, m + one);
        EntriesOverride(data, p, start, i + 1, count, one);
        match EntriesF(data, p, start, i + 1, count, map[]) {
          case Ok((x, _)) => MapUnionAssoc(m, one, x);
          case Err(_) =>
        }
      }
    } else {
      assert m + map[] == m;
    }
  }

  lemma {:induction false} SubsectionsOverride(data: seq<byte>, pos: nat, m: XRef)
    requires pos <= |data|
    ensures SubsectionsF(data, pos, m) == OverXref(m, SubsectionsF(data, pos, map[]))
    decreases |data| - pos
  {
    match HeadF(data, pos) {
      case Stop => assert m + map[] == m;
      case Fail(_) =>
      case Subsection(start, count, after) =>
        EntriesOverride(data, after, start, 0, count, m);
        match EntriesF(data, after, start, 0, count, map[]) {
          case Ok((x, p)) =>
            SubsectionsOverride(data, p, m + x);
            SubsectionsOverride(data, p, x);
            match SubsectionsF(data, p, map[]) {
              case Ok(y) => MapUnionAssoc(m, x, y);
              case Err(_) =>
            }
          case Err(_) =>
        }
    }
  }

  /** Parsing a table into a filled map is parsing it alone, then letting it override the map. */
  lemma TableOverrides(data: seq<byte>, offset: nat, m: XRef)
    requires XrefAt(data, offset)
    ensures TraditionalXrefF(data, offset, m) == OverXref(m, TraditionalXrefF(data, offset, map[]))
  {
    SubsectionsOverride(data, SkipXrefSpace(data, offset + 4), m);
  }

  // ---------------------------------------------------------------------------
  // Trailer

  /** The first `trailer` at or after `pos` that ends before the last byte. */
  function TrailerSearchF(data: seq<byte>, pos: nat): (r: Option<nat>)
    ensures r.Some? ==> pos <= r.value && r.value + 7 < |data| && TrailerAt(data, r.value)
    ensures r.Some? ==> forall i | pos <= i < r.value :: !TrailerAt(data, i)
    ensures r.None? ==> forall i | pos <= i && i + 7 < |data| :: !TrailerAt(data, i)
    decreases |data| - pos
  {
    if pos + 7 >= |data| then None
    else if TrailerAt(data, pos) then Some(pos)
    else TrailerSearchF(data, pos + 1)
  }

  /** `find_and_parse_trailer`: the dictionary after the first `trailer` following the table. */
  function TrailerF(data: seq<byte>, offset: nat): (r: Result<Dictionary>)
  {
    match TrailerSearchF(data, offset)
    case None => Err(InvalidStructure("Missing trailer"))
    case Some(i) =>
      match ParseObjectF(data, PState(i + 7, []))
      case Err(e) => Err(e)
      case Ok((Some(Dict(d)), _)) => Ok(d)
      case Ok(_) => Err(InvalidStructure("Trailer must be dictionary"))
  }

  method FindAndParseTrailer(data: seq<byte>, offset: nat) returns (r: Result<Dictionary>)
    ensures r == TrailerF(data, offset)
  {
    var pos := offset;
    while pos + 7 < |data|
      invariant offset <= pos
      invariant TrailerSearchF(data, pos) == TrailerSearchF(data, offset)
      decreases |data| - pos
    {
      if data[pos..pos + 7] == TRAILER {
        break;
      }
      pos := pos + 1;
    }
    if pos + 7 >= |data| {
      return Err(InvalidStructure("Missing trailer"));
    }
    var p := new Parser(data);
    p.Seek(pos + 7);
    var o := p.ParseObject();
    match o {
      case Err(e) => r := Err(e);
      case Ok(Some(Dict(d))) => r := Ok(d);
      case Ok(_) => r := Err(InvalidStructure("Trailer must be dictionary"));
    }
  }

  // ---------------------------------------------------------------------------
  // The /Prev chain

  /** `/Prev` read as an integer and cast to `usize`. */
  function PrevOf(trailer: Dictionary): (r: Option<nat>)
    ensures r.Some? ==> r.value < U64_LIMIT
  {
    match Lookup(trailer, "Prev")
    case Some(Int(n)) => Some(n % U64_LIMIT)
    case _ => None
  }

  /** The table at an offset that starts with `xref`, parsed on its own, and the trailer after it. */
  function SectionF(data: seq<byte>, cur: nat): Result<(XRef, Dictionary)>
  {
    if !XrefAt(data, cur) then Err(InvalidXref)
    else
      var section :- TraditionalXrefF(data, cur, map[]);
      var trailer :- TrailerF(data, cur);
      Ok((section, trailer))
  }

  /** How the chain reads one section: the table and the trailer at an offset. */
  type Reader = nat -> Result<(XRef, Dictionary)>

  function Sections(data: seq<byte>): Reader
  {
    (cur: nat) => SectionF(data, cur)
  }

  /** The offsets not yet visited. */
  function Unvisited(data: seq<byte>, visited: set<nat>): set<nat>
  {
    set i | 0 <= i < |data| && i !in visited
  }

  /**
   * `parse_xref_and_trailer` from `cur`, newest section first, each section
   * read by `read`: a section's entries only fill in the objects that newer
   * sections left out; the first trailer read is kept; `/Prev` is followed
   * until it is missing, points to no table or points to a table already
   * read.
   */
  function ChainF(data: seq<byte>, read: Reader, cur: nat, visited: set<nat>, xref: XRef, newest: Option<Dictionary>)
    : (r: Result<(XRef, Dictionary)>)
    requires visited != {} ==> newest.Some?
    decreases Unvisited(data, visited)
  {
    if XrefAt(data, cur) && cur !in visited then
      match read(cur)
      case Err(e) => Err(e)
      case Ok((section, trailer)) =>
        var newest' := if newest.None? then Some(trailer) else newest;
        match PrevOf(trailer)
        case None => Ok((section + xref, newest'.value))
        case Some(prev) =>
          assert cur in Unvisited(data, visited) - Unvisited(data, visited + {cur});
          ChainF(data, read, prev, visited + {cur}, section + xref, newest')
    else if newest.Some? then Ok((xref, newest.value))
    else Err(InvalidStructure("XRef streams not yet supported"))
  }

  /**
   * The chain as written. Every table is parsed into the accumulated map,
   * which by `TableOverrides` is that map overridden by the table's own
   * entries, and nothing stops a `/Prev` that leads back to a table already
   * read. `fuel` bounds the number of tables read; `None` means the loop was
   * still running when it ran out.
   */
  function ChainAsWritten(data: seq<byte>, read: Reader, cur: nat, xref: XRef, newest: Option<Dictionary>, fuel: nat)
    : (r: Option<Result<(XRef, Dictionary)>>)
    decreases fuel
  {
    if fuel == 0 then None
    else if XrefAt(data, cur) then
      match read(cur)
      case Err(e) => Some(Err(e))
      case Ok((section, trailer)) =>
        var newest' := if newest.None? then Some(trailer) else newest;
        match PrevOf(trailer)
        case None => Some(Ok((xref + section, newest'.value)))
        case Some(prev) => ChainAsWritten(data, read, prev, xref + section, newest', fuel - 1)
    else if newest.Some? then Some(Ok((xref, newest.value)))
    else Some(Err(InvalidStructure("XRef streams not yet supported")))
  }

  /** Parsing a table into the accumulated map, as the loop as written does, is the map overridden by the section. */
  lemma SectionIntoMap(data: seq<byte>, cur: nat, xref: XRef, section: XRef, trailer: Dictionary)
    requires XrefAt(data, cur) && SectionF(data, cur) == Ok((section, trailer))
    ensures TraditionalXrefF(data, cur, xref) == Ok(xref + section)
  {
    TableOverrides(data, cur, xref);
  }

  /** Entries already collected from newer sections are never replaced, and the first trailer stays. */
  lemma {:induction false} NewestWins(data: seq<byte>, read: Reader, cur: nat, visited: set<nat>, xref: XRef, newest: Option<Dictionary>)
    requires visited != {} ==> newest.Some?
    ensures var r := ChainF(data, read, cur, visited, xref, newest);
      r.Ok? ==> ((forall k | k in xref :: k in r.value.0 && r.value.0[k] == xref[k])
        && (newest.Some? ==> r.value.1 == newest.value))
    decreases Unvisited(data, visited)
  {
    if XrefAt(data, cur) && cur !in visited {
      match read(cur) {
        case Err(_) =>
        case Ok((section, trailer)) =>
          var newest' := if newest.None? then Some(trailer) else newest;
          match PrevOf(trailer) {
            case None =>
            case Some(prev) =>
              assert cur in Unvisited(data, visited) - Unvisited(data, visited + {cur});
              NewestWins(data, read, prev, visited + {cur}, section + xref, newest');
          }
      }
    }
  }

  /**
   * A table whose trailer's `/Prev` points back to itself: the loop as
   * written never ends, however many rounds it is given; the corrected
   * chain reads the table once.
   */
  lemma {:induction false} SelfPrevNeverEnds(data: seq<byte>, read: Reader, cur: nat, section: XRef, trailer: Dictionary,
                                             xref: XRef, newest: Option<Dictionary>, fuel: nat)
    requires XrefAt(data, cur) && read(cur) == Ok((section, trailer)) && PrevOf(trailer) == Some(cur)
    ensures ChainAsWritten(data, read, cur, xref, newest, fuel).None?
    ensures ChainF(data, read, cur, {}, map[], None) == Ok((section, trailer))
    decreases fuel
  {
    if fuel > 0 {
      var newest' := if newest.None? then Some(trailer) else newest;
      SelfPrevNeverEnds(data, read, cur, section, trailer, xref + section, newest', fuel - 1);
    }
    assert section + map[] == section;
  }

  /**
   * An update section at `a` whose `/Prev` leads to the original section at
   * `b`: as written the original's entries override the update's, and the
   * corrected chain keeps the update's.
   */
  lemma OlderSectionWins(data: seq<byte>, read: Reader, a: nat, b: nat, secA: XRef, secB: XRef, tA: Dictionary, tB: Dictionary)
    requires a != b && XrefAt(data, a) && XrefAt(data, b)
    requires read(a) == Ok((secA, tA)) && PrevOf(tA) == Some(b)
    requires read(b) == Ok((secB, tB)) && PrevOf(tB).None?
    ensures ChainAsWritten(data, read, a, map[], None, 2) == Some(Ok((secA + secB, tA)))
    ensures ChainF(data, read, a, {}, map[], None) == Ok((secB + secA, tA))
  {
    assert map[] + secA == secA;
    assert secA + map[] == secA;
    assert ChainF(data, read, a, {}, map[], None) == ChainF(data, read, b, {a}, secA, Some(tA));
  }

  // ---------------------------------------------------------------------------
  // The whole file structure

  /** `Document::parse` up to the cross-reference map and the newest trailer. */
  function FileStructureF(data: seq<byte>): (r: Result<(XRef, Dictionary)>)
    ensures !HasHeader(data) ==> r == Err(MissingHeader)
  {
    if !HasHeader(data) then Err(MissingHeader)
    else
      var sx :- FindStartxrefF(data);
      var offset :- StartxrefOffsetF(data, sx);
      ChainF(data, Sections(data), offset, {}, map[], None)
  }

  /** The table and trailer at an offset that starts with `xref`. */
  method ReadSection(data: seq<byte>, cur: nat) returns (r: Result<(XRef, Dictionary)>)
    requires XrefAt(data, cur)
    ensures r == SectionF(data, cur)
  {
    var section :- ParseTraditionalXref(data, cur, map[]);
    var trailer :- FindAndParseTrailer(data, cur);
    r := Ok((section, trailer));
  }

  /** The `/Prev` loop, each offset read at most once. */
  method ParseXrefAndTrailer(data: seq<byte>, offset: nat) returns (r: Result<(XRef, Dictionary)>)
    ensures r == ChainF(data, Sections(data), offset, {}, map[], None)
  {
    var cur: nat := offset;
    var xref: XRef := map[];
    var newest: Option<Dictionary> := None;
    var visited: set<nat> := {};
    while true
      invariant visited != {} ==> newest.Some?
      invariant ChainF(data, Sections(data), cur, visited, xref, newest) == ChainF(data, Sections(data), offset, {}, map[], None)
      decreases Unvisited(data, visited)
    {
      if !(cur + 4 <= |data| && data[cur..cur + 4] == XREF) || cur in visited {
        if newest.Some? {
          return Ok((xref, newest.value));
        }
        return Err(InvalidStructure("XRef streams not yet supported"));
      }
      var sec := ReadSection(data, cur);
      assert Sections(data)(cur) == sec;
      if sec.Err? {
        return Err(sec.error);
      }
      var (section, trailer) := sec.value;
      if newest.None? {
        newest := Some(trailer);
      }
      xref := section + xref;
      var prev := PrevOf(trailer);
      if prev.None? {
        return Ok((xref, newest.value));
      }
      assert cur in Unvisited(data, visited) - Unvisited(data, visited + {cur});
      visited := visited + {cur};
      cur := prev.value;
    }
  }

  /** `Document::parse` up to the cross-reference map and the trailer. */
  method ParseFileStructure(data: seq<byte>) returns (r: Result<(XRef, Dictionary)>)
    ensures r == FileStructureF(data)
  {
    if !(|data| >= 5 && data[..5] == HEADER) {
      return Err(MissingHeader);
    }
    var sx :- FindStartxref(data);
    var offset :- ParseStartxref(data, sx);
    r := ParseXrefAndTrailer(data, offset);
  }
}
