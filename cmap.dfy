/*
 * ToUnicode CMaps: the `beginbfchar`/`endbfchar` and
 * `beginbfrange`/`endbfrange` sections of a CMap stream, read into a map
 * from two-byte CIDs to characters.
 *
 * The text is a string of characters; each entry parser walks it with an
 * index standing for the peekable character iterator. The map the source
 * passes as `&mut HashMap` is passed in and returned.
 */
module ToUnicodeCMap {
  import opened Common

  // ---------------------------------------------------------------------------
  // Hexadecimal values

  predicate AllHex(ds: string)
  {
    forall i | 0 <= i < |ds| :: IsHexDigit(ds[i])
  }

  /** The value of a string of hexadecimal digits, most significant first. */
  function HexNumber(ds: string): nat
    requires AllHex(ds)
  {
    if ds == [] then 0 else HexNumber(ds[..|ds| - 1]) * 16 + HexDigitValue(ds[|ds| - 1])
  }

  /** `u16::from_str_radix(ds, 16).unwrap_or(0)` on digits: 0 when empty or too large. */
  function FromHex16(ds: string): (v: u16)
    requires AllHex(ds)
    ensures ds == [] ==> v == 0
    ensures ds != [] && HexNumber(ds) <= 0xFFFF ==> v == HexNumber(ds)
    ensures HexNumber(ds) > 0xFFFF ==> v == 0
  {
    if ds == [] then 0 else if HexNumber(ds) <= 0xFFFF then HexNumber(ds) else 0
  }

  /** The hexadecimal digits of `s`, in order. */
  function HexDigitsIn(s: string): (ds: string)
    ensures AllHex(ds)
  {
    if s == [] then []
    else (if IsHexDigit(s[0]) then [s[0]] else []) + HexDigitsIn(s[1..])
  }

  /** The scan of `parse_hex_value`: the digits collected up to `>` or the end, and the index after. */
  function HexScan(s: string, i: nat, acc: string): (r: (string, nat))
    requires i <= |s| && AllHex(acc)
    ensures i <= r.1 <= |s| && AllHex(r.0)
    decreases |s| - i
  {
    if i == |s| then (acc, i)
    else if s[i] == '>' then (acc, i + 1)
    else HexScan(s, i + 1, if IsHexDigit(s[i]) then acc + [s[i]] else acc)
  }

  /** `parse_hex_value` from index `i`: the value and the index after the closing `>`. */
  function HexValueF(s: string, i: nat): (r: (u16, nat))
    requires i <= |s|
    ensures i <= r.1 <= |s|
  {
    var (ds, n) := HexScan(s, i, []);
    (FromHex16(ds), n)
  }

  /** The index of the first `>` at or after `i`, or the end. */
  function CloseAt(s: string, i: nat): (k: nat)
    requires i <= |s|
    ensures i <= k <= |s| && (k < |s| ==> s[k] == '>')
    ensures forall j | i <= j < k :: s[j] != '>'
    decreases |s| - i
  {
    if i == |s| || s[i] == '>' then i else CloseAt(s, i + 1)
  }

  lemma {:induction false} HexScanDigits(s: string, i: nat, acc: string)
    requires i <= |s| && AllHex(acc)
    ensures var k := CloseAt(s, i);
      HexScan(s, i, acc) == (acc + HexDigitsIn(s[i..k]), if k < |s| then k + 1 else k)
    decreases |s| - i
  {
    var k := CloseAt(s, i);
    if i == |s| || s[i] == '>' {
      assert s[i..k] == [];
      assert acc + [] == acc;
    } else {
      var acc' := if IsHexDigit(s[i]) then acc + [s[i]] else acc;
      HexScanDigits(s, i + 1, acc');
      assert s[i..k][1..] == s[i + 1..k] && s[i..k][0] == s[i];
      assert acc' + HexDigitsIn(s[i + 1..k]) == acc + HexDigitsIn(s[i..k]);
    }
  }

  /**
   * `parse_hex_value` keeps only the hexadecimal digits before the first
   * `>`, moves past that `>`, and reads them as a `u16` (0 when there are
   * none or the value does not fit).
   */
  lemma HexValueReadsDigits(s: string, i: nat)
    requires i <= |s|
    ensures var k := CloseAt(s, i);
      HexValueF(s, i) == (FromHex16(HexDigitsIn(s[i..k])), if k < |s| then k + 1 else k)
  {
    HexScanDigits(s, i, []);
    assert [] + HexDigitsIn(s[i..CloseAt(s, i)]) == HexDigitsIn(s[i..CloseAt(s, i)]);
  }

  /** `parse_hex_value`. */
  method ParseHexValue(s: string, i: nat) returns (v: u16, j: nat)
    requires i <= |s|
    ensures (v, j) == HexValueF(s, i)
  {
    var hex: string := [];
    j := i;
    while j < |s|
      invariant i <= j <= |s| && AllHex(hex)
      invariant HexScan(s, j, hex) == HexScan(s, i, [])
      decreases |s| - j
    {
      var c := s[j];
      if c == '>' {
        j := j + 1;
        break;
      }
      if IsHexDigit(c) {
        hex := hex + [c];
      }
      j := j + 1;
    }
    v := FromHex16(hex);
  }

  // ---------------------------------------------------------------------------
  // Entry parsers

  /** The index of the first character of `stops` at or after `i`, or the end. */
  function SkipUntilF(s: string, i: nat, stops: set<char>): (k: nat)
    requires i <= |s|
    ensures i <= k <= |s| && (k < |s| ==> s[k] in stops)
    decreases |s| - i
  {
    if i == |s| || s[i] in stops then i else SkipUntilF(s, i + 1, stops)
  }

  /** The peek loops that skip to the next `<` (or `[`). */
  method SkipUntil(s: string, i: nat, stops: set<char>) returns (k: nat)
    requires i <= |s|
    ensures k == SkipUntilF(s, i, stops)
  {
    k := i;
    while k < |s| && s[k] !in stops
      invariant i <= k <= |s| && SkipUntilF(s, k, stops) == SkipUntilF(s, i, stops)
      decreases |s| - k
    {
      k := k + 1;
    }
  }

  /** A character has a code point that is a Unicode scalar value (`char::from_u32` succeeds). */
  predicate IsScalar(n: int)
  {
    0 <= n < 0xD800 || 0xE000 <= n < 0x11_0000
  }

  /** One insert of `map.insert(src, ch)`, skipped when `dst` is not a scalar value. */
  function Put(m: map<u16, char>, src: u16, dst: int): (r: map<u16, char>)
    ensures IsScalar(dst) ==> r == m[src := dst as char]
    ensures !IsScalar(dst) ==> r == m
  {
    if IsScalar(dst) then m[src := dst as char] else m
  }

  /**
   * `parse_bfchar_entries` from index `i`: at each `<`, a source value, a
   * skip to the next `<`, and a destination value.
   */
  function BfcharF(s: string, i: nat, m: map<u16, char>): map<u16, char>
    requires i <= |s|
    decreases |s| - i
  {
    if i == |s| then m
    else if s[i] != '<' then BfcharF(s, i + 1, m)
    else
      var (src, j) := HexValueF(s, i + 1);
      var k := SkipUntilF(s, j, {'<'});
      if k == |s| then m
      else
        var (dst, l) := HexValueF(s, k + 1);
        BfcharF(s, l, Put(m, src, dst))
  }

  /** `parse_bfchar_entries`. */
  method BfcharEntries(s: string, m: map<u16, char>) returns (r: map<u16, char>)
    ensures r == BfcharF(s, 0, m)
  {
    r := m;
    var i := 0;
    while i < |s|
      invariant i <= |s| && BfcharF(s, i, r) == BfcharF(s, 0, m)
      decreases |s| - i
    {
      var c := s[i];
      i := i + 1;
      if c == '<' {
        var src, j := ParseHexValue(s, i);
        var k := SkipUntil(s, j, {'<'});
        if k < |s| {
          var dst, l := ParseHexValue(s, k + 1);
          r := Put(r, src, dst);
          i := l;
        } else {
          i := k;
        }
      }
    }
  }

  /** `a - b` on `u16`, saturating at 0. */
  function SatSub(a: u16, b: u16): u16
  {
    if a >= b then a - b else 0
  }

  /**
   * One step of a single-destination range: `dst` is `dst_lo + i`, which
   * the source computes in `u16`; a destination past `0xFFFF` maps nothing.
   */
  function Put16(m: map<u16, char>, src: u16, dst: int): (r: map<u16, char>)
    ensures dst <= 0xFFFF ==> r == Put(m, src, dst)
    ensures dst > 0xFFFF ==> r == m
  {
    if dst <= 0xFFFF then Put(m, src, dst) else m
  }

  /**
   * Sources `src`, `src + 1`, … mapped to `dst`, `dst + 1`, …, `count` of
   * them, in order, as far as the destination stays within 16 bits.
   */
  function RangeFill(m: map<u16, char>, src: nat, dst: nat, count: nat): map<u16, char>
    requires src + count <= 0x1_0000
    decreases count
  {
    if count == 0 then m else RangeFill(Put16(m, src, dst), src + 1, dst + 1, count - 1)
  }

  /** The single-destination form `<lo><hi><dst>`: `lo + i` to `dst + i` for `i` in `0..=hi.saturating_sub(lo)`. */
  function RangeEntry(m: map<u16, char>, lo: u16, hi: u16, dst: u16): map<u16, char>
  {
    RangeFill(m, lo, dst, SatSub(hi, lo) + 1)
  }

  /** The array form `<lo><hi>[…]`: `lo + i` to the `i`-th destination while `lo + i <= hi`. */
  function ArrayFill(m: map<u16, char>, lo: u16, hi: u16, dsts: seq<u16>, i: nat): map<u16, char>
    decreases |dsts| - i
  {
    if i >= |dsts| then m
    else ArrayFill(if lo + i <= hi then Put(m, lo + i, dsts[i]) else m, lo, hi, dsts, i + 1)
  }

  /** The index of the first character at or after `i` that is not space, LF, CR or tab. */
  function SkipSpacesF(s: string, i: nat): (k: nat)
    requires i <= |s|
    ensures i <= k <= |s| && (k < |s| ==> s[k] !in {' ', '\n', '\r', '\t'})
    decreases |s| - i
  {
    if i == |s| || s[i] !in {' ', '\n', '\r', '\t'} then i else SkipSpacesF(s, i + 1)
  }

  /** The destination array after `[`: `<…>` values up to `]`, stopping at anything else. */
  function DstArrayF(s: string, i: nat, acc: seq<u16>): (r: (seq<u16>, nat))
    requires i <= |s|
    ensures i <= r.1 <= |s|
    decreases |s| - i
  {
    var j := SkipSpacesF(s, i);
    if j < |s| && s[j] == '<' then
      var (v, k) := HexValueF(s, j + 1);
      DstArrayF(s, k, acc + [v])
    else if j < |s| && s[j] == ']' then (acc, j + 1)
    else (acc, j)
  }

  /** `parse_bfrange_entries` from index `i`. */
  function BfrangeF(s: string, i: nat, m: map<u16, char>): map<u16, char>
    requires i <= |s|
    decreases |s| - i
  {
    if i == |s| then m
    else if s[i] != '<' then BfrangeF(s, i + 1, m)
    else
      var (lo, j) := HexValueF(s, i + 1);
      var k := SkipUntilF(s, j, {'<'});
      if k == |s| then m
      else
        var (hi, l) := HexValueF(s, k + 1);
        var k2 := SkipUntilF(s, l, {'<', '['});
        if k2 == |s| then m
        else if s[k2] == '<' then
          var (dst, n) := HexValueF(s, k2 + 1);
          BfrangeF(s, n, RangeEntry(m, lo, hi, dst))
        else
          var (dsts, n) := DstArrayF(s, k2 + 1, []);
          BfrangeF(s, n, ArrayFill(m, lo, hi, dsts, 0))
  }

  /** The `for i in 0..=(src_hi.saturating_sub(src_lo))` loop. */
  method FillRange(m: map<u16, char>, lo: u16, hi: u16, dst: u16) returns (r: map<u16, char>)
    ensures r == RangeEntry(m, lo, hi, dst)
  {
    var count := SatSub(hi, lo) + 1;
    r := m;
    for i := 0 to count
      invariant RangeFill(r, lo + i, dst + i, count - i) == RangeEntry(m, lo, hi, dst)
    {
      r := Put16(r, lo + i, dst + i);
    }
  }

  /** The `for (i, &dst) in dst_values.iter().enumerate()` loop. */
  method FillArray(m: map<u16, char>, lo: u16, hi: u16, dsts: seq<u16>) returns (r: map<u16, char>)
    ensures r == ArrayFill(m, lo, hi, dsts, 0)
  {
    r := m;
    for i := 0 to |dsts|
      invariant ArrayFill(r, lo, hi, dsts, i) == ArrayFill(m, lo, hi, dsts, 0)
    {
      if lo + i <= hi {
        r := Put(r, lo + i, dsts[i]);
      }
    }
  }

  /** The `[`-array loop of `parse_bfrange_entries`, the `[` already read. */
  method DstArray(s: string, i: nat) returns (dsts: seq<u16>, j: nat)
    requires i <= |s|
    ensures (dsts, j) == DstArrayF(s, i, [])
  {
    dsts := [];
    j := i;
    while true
      invariant j <= |s| && DstArrayF(s, j, dsts) == DstArrayF(s, i, [])
      decreases |s| - j
    {
      var k := j;
      while k < |s| && s[k] in {' ', '\n', '\r', '\t'}
        invariant j <= k <= |s| && SkipSpacesF(s, k) == SkipSpacesF(s, j)
        decreases |s| - k
      {
        k := k + 1;
      }
      if k < |s| && s[k] == '<' {
        var v, n := ParseHexValue(s, k + 1);
        dsts := dsts + [v];
        j := n;
      } else {
        if k < |s| && s[k] == ']' {
          k := k + 1;
        }
        return dsts, k;
      }
    }
  }

  /** `parse_bfrange_entries`. */
  method BfrangeEntries(s: string, m: map<u16, char>) returns (r: map<u16, char>)
    ensures r == BfrangeF(s, 0, m)
  {
    r := m;
    var i := 0;
    while i < |s|
      invariant i <= |s| && BfrangeF(s, i, r) == BfrangeF(s, 0, m)
      decreases |s| - i
    {
      var c := s[i];
      i := i + 1;
      if c == '<' {
        var lo, j := ParseHexValue(s, i);
        var k := SkipUntil(s, j, {'<'});
        if k == |s| {
          i := k;
        } else {
          var hi, l := ParseHexValue(s, k + 1);
          var k2 := SkipUntil(s, l, {'<', '['});
          if k2 == |s| {
            i := k2;
          } else if s[k2] == '<' {
            var dst, n := ParseHexValue(s, k2 + 1);
            r := FillRange(r, lo, hi, dst);
            i := n;
          } else {
            var dsts, n := DstArray(s, k2 + 1);
            r := FillArray(r, lo, hi, dsts);
            i := n;
          }
        }
      }
    }
  }

  // ---------------------------------------------------------------------------
  // Sections

  /** `text` holds `pat` at `i`, compared one character at a time. */
  predicate MatchesAt(text: string, pat: string, i: nat)
    decreases |pat|
  {
    if pat == [] then i <= |text|
    else i < |text| && text[i] == pat[0] && MatchesAt(text, pat[1..], i + 1)
  }

  /** `text` holds `pat` at `i`. */
  predicate OccursAt(text: string, pat: string, i: nat)
  {
    i + |pat| <= |text| && text[i..i + |pat|] == pat
  }

  lemma {:induction false} MatchesAtOccurs(text: string, pat: string, i: nat)
    ensures MatchesAt(text, pat, i) <==> OccursAt(text, pat, i)
    decreases |pat|
  {
    if pat != [] && i < |text| {
      MatchesAtOccurs(text, pat[1..], i + 1);
      if i + |pat| <= |text| {
        assert text[i..i + |pat|] == [text[i]] + text[i + 1..i + 1 + |pat[1..]|];
        assert pat == [pat[0]] + pat[1..];
      }
    }
  }

  /** `str::find` from `from`: the first index at which `pat` occurs. */
  function FindFrom(text: string, pat: string, from: nat): (r: Option<nat>)
    ensures r.Some? ==> from <= r.value && r.value + |pat| <= |text|
    decreases |text| - from
  {
    if from + |pat| > |text| then None
    else if MatchesAt(text, pat, from) then Some(from)
    else FindFrom(text, pat, from + 1)
  }

  /** `FindFrom` finds the first occurrence at or after `from`, and `None` means there is none. */
  lemma {:induction false} FindFromFirst(text: string, pat: string, from: nat)
    ensures var r := FindFrom(text, pat, from);
      && (r.Some? ==> OccursAt(text, pat, r.value))
      && (r.Some? ==> forall i | from <= i < r.value :: !OccursAt(text, pat, i))
      && (r.None? ==> forall i | from <= i :: !OccursAt(text, pat, i))
    decreases |text| - from
  {
    MatchesAtOccurs(text, pat, from);
    if from + |pat| > |text| {
    } else if MatchesAt(text, pat, from) {
    } else {
      FindFromFirst(text, pat, from + 1);
    }
  }

  datatype SectionKind = BfChar | BfRange

  function BeginMarker(k: SectionKind): (s: string)
    ensures |s| > 0
  {
    match k
    case BfChar => "beginbfchar"
    case BfRange => "beginbfrange"
  }

  function EndMarker(k: SectionKind): (s: string)
    ensures |s| > 0
  {
    match k
    case BfChar => "endbfchar"
    case BfRange => "endbfrange"
  }

  function Entries(k: SectionKind, section: string, m: map<u16, char>): map<u16, char>
  {
    match k
    case BfChar => BfcharF(section, 0, m)
    case BfRange => BfrangeF(section, 0, m)
  }

  /**
   * The next section at or after `pos`: the bounds of the text between a
   * begin marker and the first end marker after it, or `None` when either
   * marker is missing.
   */
  function SectionAt(k: SectionKind, text: string, pos: nat): (r: Option<(nat, nat)>)
    ensures r.Some? ==> pos < r.value.0 <= r.value.1 && r.value.1 + |EndMarker(k)| <= |text|
  {
    match FindFrom(text, BeginMarker(k), pos)
    case None => None
    case Some(si) =>
      var p := si + |BeginMarker(k)|;
      match FindFrom(text, EndMarker(k), p)
      case None => None
      case Some(ei) => Some((p, ei))
  }

  /**
   * `parse_bfchar_sections` / `parse_bfrange_sections` from `pos`: each
   * section has its entries parsed into the map; a begin marker without an
   * end marker after it stops the scan.
   */
  function SectionsF(k: SectionKind, text: string, pos: nat, m: map<u16, char>): map<u16, char>
    decreases |text| - pos
  {
    var next := SectionAt(k, text, pos);
    if next.None? then m
    else SectionsF(k, text, next.value.1 + |EndMarker(k)|, Entries(k, text[next.value.0..next.value.1], m))
  }

  lemma SectionsStep(k: SectionKind, text: string, pos: nat, m: map<u16, char>, next: Option<(nat, nat)>,
                     after: nat, r: map<u16, char>)
    requires next == SectionAt(k, text, pos) && next.Some?
    requires after == next.value.1 + |EndMarker(k)|
    requires r == Entries(k, text[next.value.0..next.value.1], m)
    ensures SectionsF(k, text, pos, m) == SectionsF(k, text, after, r)
  {
    assert SectionAt(k, text, pos).Some?;
  }

  /** `parse_tounicode_cmap` on the decoded text: bfchar sections, then bfrange sections. */
  function CMapOf(text: string): map<u16, char>
  {
    SectionsF(BfRange, text, 0, SectionsF(BfChar, text, 0, map[]))
  }

  /** The entry parser a section of kind `k` is given to. */
  method ParseEntries(k: SectionKind, section: string, m: map<u16, char>) returns (r: map<u16, char>)
    ensures r == Entries(k, section, m)
  {
    if k == BfChar {
      r := BfcharEntries(section, m);
    } else {
      r := BfrangeEntries(section, m);
    }
  }

  /** One pass of the section loop: the next section's entries parsed, or `false` when there is none. */
  method ParseNextSection(k: SectionKind, text: string, pos: nat, m: map<u16, char>)
    returns (found: bool, nextPos: nat, r: map<u16, char>)
    requires pos <= |text|
    ensures found ==> pos < nextPos <= |text| && SectionsF(k, text, pos, m) == SectionsF(k, text, nextPos, r)
    ensures !found ==> nextPos == pos && SectionsF(k, text, pos, m) == r
  {
    var next := SectionAt(k, text, pos);
    if next.None? {
      return false, pos, m;
    }
    r := ParseEntries(k, text[next.value.0..next.value.1], m);
    found, nextPos := true, next.value.1 + |EndMarker(k)|;
    SectionsStep(k, text, pos, m, next, nextPos, r);
  }

  /** The section loops of `parse_bfchar_sections` and `parse_bfrange_sections`. */
  method ParseSections(k: SectionKind, text: string, m: map<u16, char>) returns (r: map<u16, char>)
    ensures r == SectionsF(k, text, 0, m)
  {
    r := m;
    var pos := 0;
    var found := true;
    while found
      invariant pos <= |text|
      invariant found ==> SectionsF(k, text, pos, r) == SectionsF(k, text, 0, m)
      invariant !found ==> r == SectionsF(k, text, 0, m)
      decreases |text| + 1 - pos, found
    {
      found, pos, r := ParseNextSection(k, text, pos, r);
    }
  }

  /** `parse_tounicode_cmap`; it never fails. */
  method ParseToUnicodeCMap(text: string) returns (r: Result<map<u16, char>>)
    ensures r == Ok(CMapOf(text))
  {
    var m := ParseSections(BfChar, text, map[]);
    m := ParseSections(BfRange, text, m);
    r := Ok(m);
  }

  // ---------------------------------------------------------------------------
  // Later entries and later sections override earlier ones

  lemma MapUnionAssoc(a: map<u16, char>, b: map<u16, char>, c: map<u16, char>)
    ensures (a + b) + c == a + (b + c)
  {
  }

  lemma PutOverrides(m: map<u16, char>, src: u16, dst: int)
    ensures Put(m, src, dst) == m + Put(map[], src, dst)
  {
    if !IsScalar(dst) {
      assert m + map[] == m;
    }
  }

  /** Inserting `m'`'s entries into `m` one by one is `m + m'` when `m'` is built the same way from empty. */
  lemma Chain(m: map<u16, char>, step: map<u16, char>, step0: map<u16, char>, rest: map<u16, char>, rest0: map<u16, char>)
    requires step == m + step0 && rest == step + rest0
    ensures rest == m + (step0 + rest0)
  {
    MapUnionAssoc(m, step0, rest0);
  }

  lemma {:induction false} RangeFillOverrides(m: map<u16, char>, src: nat, dst: nat, count: nat)
    requires src + count <= 0x1_0000
    ensures RangeFill(m, src, dst, count) == m + RangeFill(map[], src, dst, count)
    decreases count
  {
    if count == 0 {
      assert m + map[] == m;
    } else {
      var p, p0 := Put16(m, src, dst), Put16(map[], src, dst);
      if dst <= 0xFFFF {
        PutOverrides(m, src, dst);
      } else {
        assert m + map[] == m;
      }
      RangeFillOverrides(p, src + 1, dst + 1, count - 1);
      RangeFillOverrides(p0, src + 1, dst + 1, count - 1);
      Chain(m, p, p0, RangeFill(m, src, dst, count), RangeFill(map[], src + 1, dst + 1, count - 1));
    }
  }

  lemma {:induction false} ArrayFillOverrides(m: map<u16, char>, lo: u16, hi: u16, dsts: seq<u16>, i: nat)
    ensures ArrayFill(m, lo, hi, dsts, i) == m + ArrayFill(map[], lo, hi, dsts, i)
    decreases |dsts| - i
  {
    if i >= |dsts| {
      assert m + map[] == m;
    } else {
      var p := if lo + i <= hi then Put(m, lo + i, dsts[i]) else m;
      var p0 := if lo + i <= hi then Put(map[], lo + i, dsts[i]) else map[];
      if lo + i <= hi {
        PutOverrides(m, lo + i, dsts[i]);
      } else {
        assert m + map[] == m;
      }
      ArrayFillOverrides(p, lo, hi, dsts, i + 1);
      ArrayFillOverrides(p0, lo, hi, dsts, i + 1);
      Chain(m, p, p0, ArrayFill(m, lo, hi, dsts, i), ArrayFill(map[], lo, hi, dsts, i + 1));
    }
  }

  lemma {:induction false} BfcharOverrides(s: string, i: nat, m: map<u16, char>)
    requires i <= |s|
    ensures BfcharF(s, i, m) == m + BfcharF(s, i, map[])
    decreases |s| - i
  {
    if i == |s| {
      assert m + map[] == m;
    } else if s[i] != '<' {
      BfcharOverrides(s, i + 1, m);
    } else {
      var (src, j) := HexValueF(s, i + 1);
      var k := SkipUntilF(s, j, {'<'});
      if k == |s| {
        assert m + map[] == m;
      } else {
        var (dst, l) := HexValueF(s, k + 1);
        var p, p0 := Put(m, src, dst), Put(map[], src, dst);
        PutOverrides(m, src, dst);
        BfcharOverrides(s, l, p);
        BfcharOverrides(s, l, p0);
        Chain(m, p, p0, BfcharF(s, i, m), BfcharF(s, l, map[]));
      }
    }
  }

  lemma {:induction false} BfrangeOverrides(s: string, i: nat, m: map<u16, char>)
    requires i <= |s|
    ensures BfrangeF(s, i, m) == m + BfrangeF(s, i, map[])
    decreases |s| - i
  {
    if i == |s| {
      assert m + map[] == m;
    } else if s[i] != '<' {
      BfrangeOverrides(s, i + 1, m);
    } else {
      var (lo, j) := HexValueF(s, i + 1);
      var k := SkipUntilF(s, j, {'<'});
      if k == |s| {
        assert m + map[] == m;
      } else {
        var (hi, l) := HexValueF(s, k + 1);
        var k2 := SkipUntilF(s, l, {'<', '['});
        if k2 == |s| {
          assert m + map[] == m;
        } else if s[k2] == '<' {
          var (dst, n) := HexValueF(s, k2 + 1);
          var p, p0 := RangeEntry(m, lo, hi, dst), RangeEntry(map[], lo, hi, dst);
          RangeFillOverrides(m, lo, dst, SatSub(hi, lo) + 1);
          BfrangeOverrides(s, n, p);
          BfrangeOverrides(s, n, p0);
          Chain(m, p, p0, BfrangeF(s, i, m), BfrangeF(s, n, map[]));
        } else {
          var (dsts, n) := DstArrayF(s, k2 + 1, []);
          var p, p0 := ArrayFill(m, lo, hi, dsts, 0), ArrayFill(map[], lo, hi, dsts, 0);
          ArrayFillOverrides(m, lo, hi, dsts, 0);
          BfrangeOverrides(s, n, p);
          BfrangeOverrides(s, n, p0);
          Chain(m, p, p0, BfrangeF(s, i, m), BfrangeF(s, n, map[]));
        }
      }
    }
  }

  lemma EntriesOverride(k: SectionKind, section: string, m: map<u16, char>)
    ensures Entries(k, section, m) == m + Entries(k, section, map[])
  {
    if k == BfChar {
      BfcharOverrides(section, 0, m);
    } else {
      BfrangeOverrides(section, 0, m);
    }
  }

  /** The entries of the sections are laid over the map the scan starts with. */
  lemma {:induction false} SectionsOverride(k: SectionKind, text: string, pos: nat, m: map<u16, char>)
    ensures SectionsF(k, text, pos, m) == m + SectionsF(k, text, pos, map[])
    decreases |text| - pos
  {
    var next := SectionAt(k, text, pos);
    if next.None? {
      assert m + map[] == m;
    } else {
      var after := next.value.1 + |EndMarker(k)|;
      var section := text[next.value.0..next.value.1];
      var p, p0 := Entries(k, section, m), Entries(k, section, map[]);
      EntriesOverride(k, section, m);
      SectionsOverride(k, text, after, p);
      SectionsOverride(k, text, after, p0);
      Chain(m, p, p0, SectionsF(k, text, pos, m), SectionsF(k, text, after, map[]));
    }
  }

  /**
   * The CMap is the bfchar mapping overlaid with the bfrange mapping: a CID
   * mapped by both kinds of section gets the bfrange character.
   */
  lemma BfrangeWins(text: string)
    ensures CMapOf(text) == SectionsF(BfChar, text, 0, map[]) + SectionsF(BfRange, text, 0, map[])
  {
    SectionsOverride(BfRange, text, 0, SectionsF(BfChar, text, 0, map[]));
  }

  // ---------------------------------------------------------------------------
  // What a range entry maps

  /**
   * After `RangeFill`, a source inside the range maps to its own offset
   * from `dst` (when that is within 16 bits and a scalar value); every
   * other source is as it was.
   */
  lemma {:induction false} RangeFillAt(m: map<u16, char>, src: nat, dst: nat, count: nat, c: u16)
    requires src + count <= 0x1_0000
    ensures var r := RangeFill(m, src, dst, count);
      if src <= c < src + count && dst + (c - src) <= 0xFFFF && IsScalar(dst + (c - src)) then c in r && r[c] == (dst + (c - src)) as char
      else (c in r <==> c in m) && (c in m ==> r[c] == m[c])
    decreases count
  {
    if count > 0 {
      RangeFillAt(Put16(m, src, dst), src + 1, dst + 1, count - 1, c);
    }
  }

  /** An inverted range (`hi < lo`) maps only `lo`, to `dst`. */
  lemma InvertedRangeMapsLo(m: map<u16, char>, lo: u16, hi: u16, dst: u16)
    requires hi < lo
    ensures RangeEntry(m, lo, hi, dst) == Put(m, lo, dst)
  {
    assert RangeEntry(m, lo, hi, dst) == RangeFill(Put16(m, lo, dst), lo + 1, dst + 1, 0);
  }

  /**
   * After `ArrayFill`, a source `c` with `lo <= c <= hi` and a destination
   * at index `c - lo` maps to that destination (when it is a scalar value);
   * every other source is as it was.
   */
  lemma {:induction false} ArrayFillAt(m: map<u16, char>, lo: u16, hi: u16, dsts: seq<u16>, i: nat, c: u16)
    ensures var r := ArrayFill(m, lo, hi, dsts, i);
      if lo + i <= c <= hi && c - lo < |dsts| && IsScalar(dsts[c - lo]) then c in r && r[c] == dsts[c - lo] as char
      else (c in r <==> c in m) && (c in m ==> r[c] == m[c])
    decreases |dsts| - i
  {
    if i < |dsts| {
      ArrayFillAt(if lo + i <= hi then Put(m, lo + i, dsts[i]) else m, lo, hi, dsts, i + 1, c);
    }
  }

  // ---------------------------------------------------------------------------
  // Arithmetic as written (release build)

  /** The single-destination loop as written: `dst_lo + i` wraps at 16 bits. */
  function RangeFillAsWritten(m: map<u16, char>, src: nat, dst: nat, count: nat): map<u16, char>
    requires src + count <= 0x1_0000
    decreases count
  {
    if count == 0 then m else RangeFillAsWritten(Put(m, src, dst % 0x1_0000), src + 1, dst + 1, count - 1)
  }

  /** The array loop as written: `src_lo + i as u16` wraps at 16 bits before the `src <= src_hi` test. */
  function ArrayFillAsWritten(m: map<u16, char>, lo: u16, hi: u16, dsts: seq<u16>, i: nat): map<u16, char>
    decreases |dsts| - i
  {
    if i >= |dsts| then m
    else
      var src := (lo + i % 0x1_0000) % 0x1_0000;
      ArrayFillAsWritten(if src <= hi then Put(m, src, dsts[i]) else m, lo, hi, dsts, i + 1)
  }

  /**
   * `<0000><0001><FFFF>`: as written, source 1 maps to U+0000 because
   * `0xFFFF + 1` wraps; the range maps only source 0, to U+FFFF, and
   * leaves source 1 unmapped.
   */
  lemma RangeDestinationWraps()
    ensures var asWritten := RangeFillAsWritten(map[], 0, 0xFFFF, 2);
      1 in asWritten && asWritten[1] == 0 as char
    ensures var fixed := RangeEntry(map[], 0, 1, 0xFFFF);
      1 !in fixed && 0 in fixed && fixed[0] == 0xFFFF as char
  {
    var p := Put(map[], 0, 0xFFFF);
    assert RangeFillAsWritten(map[], 0, 0xFFFF, 2) == RangeFillAsWritten(Put(p, 1, 0), 2, 0x1_0001, 0);
    RangeFillAt(map[], 0, 0xFFFF, 2, 1);
    RangeFillAt(map[], 0, 0xFFFF, 2, 0);
  }

  /** While the destinations stay within 16 bits, the range as written and the range agree. */
  lemma {:induction false} RangeFillAgrees(m: map<u16, char>, src: nat, dst: nat, count: nat)
    requires src + count <= 0x1_0000 && dst + count <= 0x1_0000
    ensures RangeFillAsWritten(m, src, dst, count) == RangeFill(m, src, dst, count)
    decreases count
  {
    if count > 0 {
      assert dst % 0x1_0000 == dst;
      RangeFillAgrees(Put(m, src, dst), src + 1, dst + 1, count - 1);
    }
  }

  /** While the sources stay within 16 bits, the array as written and the array agree. */
  lemma {:induction false} ArrayFillAgrees(m: map<u16, char>, lo: u16, hi: u16, dsts: seq<u16>, i: nat)
    requires lo + |dsts| <= 0x1_0000
    ensures ArrayFillAsWritten(m, lo, hi, dsts, i) == ArrayFill(m, lo, hi, dsts, i)
    decreases |dsts| - i
  {
    if i < |dsts| {
      assert (lo + i % 0x1_0000) % 0x1_0000 == lo + i;
      ArrayFillAgrees(if lo + i <= hi then Put(m, lo + i, dsts[i]) else m, lo, hi, dsts, i + 1);
    }
  }

  /**
   * `<FFFF><FFFF>[<0041><0042>]`: as written, the second destination lands
   * on source 0 because `0xFFFF + 1` wraps to 0, which passes `src <= src_hi`;
   * the range `FFFF..=FFFF` holds only one source.
   */
  lemma ArraySourceWraps()
    ensures var asWritten := ArrayFillAsWritten(map[], 0xFFFF, 0xFFFF, [0x41, 0x42], 0);
      0 in asWritten && asWritten[0] == 'B'
    ensures var fixed := ArrayFill(map[], 0xFFFF, 0xFFFF, [0x41, 0x42], 0);
      0 !in fixed && 0xFFFF in fixed && fixed[0xFFFF] == 'A'
  {
    var dsts: seq<u16> := [0x41, 0x42];
    var p := Put(map[], 0xFFFF, 0x41);
    assert ArrayFillAsWritten(map[], 0xFFFF, 0xFFFF, dsts, 0)
        == ArrayFillAsWritten(Put(p, 0, 0x42), 0xFFFF, 0xFFFF, dsts, 2);
    ArrayFillAt(map[], 0xFFFF, 0xFFFF, dsts, 0, 0);
    ArrayFillAt(map[], 0xFFFF, 0xFFFF, dsts, 0, 0xFFFF);
  }

  // ---------------------------------------------------------------------------
  // Entries written out in hexadecimal are read back

  /** The upper-case hexadecimal digit for `d`. */
  function HexChar(d: nat): (c: char)
    requires d < 16
    ensures IsHexDigit(c) && HexDigitValue(c) == d && c != '>'
  {
    if d < 10 then ('0' as int + d) as char else ('A' as int + d - 10) as char
  }

  /** `v` as four hexadecimal digits. */
  function Hex4(v: u16): (r: string)
    ensures |r| == 4 && AllHex(r)
  {
    var q1 := v / 16;
    var q2 := q1 / 16;
    [HexChar(q2 / 16), HexChar(q2 % 16), HexChar(q1 % 16), HexChar(v % 16)]
  }

  lemma Hex4Value(v: u16)
    ensures HexNumber(Hex4(v)) == v
  {
    var r := Hex4(v);
    assert r[..3][..2][..1][..0] == [];
    assert r[..3][..2][..1] == r[..1];
    assert r[..3][..2] == r[..2];
    assert HexNumber(r[..1]) == HexDigitValue(r[0]);
    assert HexNumber(r[..2]) == HexNumber(r[..1]) * 16 + HexDigitValue(r[1]);
    assert HexNumber(r[..3]) == HexNumber(r[..2]) * 16 + HexDigitValue(r[2]);
  }

  lemma {:induction false} HexDigitsInHex(ds: string)
    requires AllHex(ds)
    ensures HexDigitsIn(ds) == ds
  {
    if ds != [] {
      HexDigitsInHex(ds[1..]);
      assert ds == [ds[0]] + ds[1..];
    }
  }

  /** Four hexadecimal digits and a `>` read back as their value. */
  lemma HexFieldAt(s: string, i: nat, v: u16)
    requires i + 5 <= |s| && s[i..i + 5] == Hex4(v) + ">"
    ensures HexValueF(s, i) == (v, i + 5)
  {
    HexValueReadsDigits(s, i);
    var k := CloseAt(s, i);
    assert s[i + 4] == '>';
    assert forall j | i <= j < i + 4 :: s[j] == Hex4(v)[j - i];
    assert k == i + 4;
    assert s[i..k] == Hex4(v);
    HexDigitsInHex(Hex4(v));
    Hex4Value(v);
  }

  lemma SliceOfSlice(s: string, i: nat, n: nat, a: nat, b: nat)
    requires i + n <= |s| && a <= b <= n
    ensures s[i..i + n][a..b] == s[i + a..i + b]
  {
    var t := s[i..i + n][a..b];
    assert forall j | 0 <= j < |t| :: t[j] == s[i + a + j];
  }

  /** One bfchar entry as a CMap writes it: `<src><dst>` and a line break. */
  function BfcharLine(src: u16, dst: u16): (line: string)
    ensures |line| == 13
    ensures line[0] == '<' && line[1..6] == Hex4(src) + ">"
    ensures line[6] == '<' && line[7..12] == Hex4(dst) + ">" && line[12] == '\n'
  {
    var a, b := Hex4(src) + ">", Hex4(dst) + ">";
    var line := "<" + a + "<" + b + "\n";
    assert line[1..6] == a;
    assert line[7..12] == b;
    line
  }

  lemma BfcharLineAt(s: string, i: nat, src: u16, dst: u16, m: map<u16, char>)
    requires i + 13 <= |s| && s[i..i + 13] == BfcharLine(src, dst)
    ensures BfcharF(s, i, m) == BfcharF(s, i + 13, Put(m, src, dst))
  {
    var line := BfcharLine(src, dst);
    SliceOfSlice(s, i, 13, 1, 6);
    assert s[i + 1..i + 6] == line[1..6] == Hex4(src) + ">";
    SliceOfSlice(s, i, 13, 7, 12);
    assert s[i + 7..i + 12] == line[7..12] == Hex4(dst) + ">";
    assert s[i] == '<' && s[i + 6] == '<' && s[i + 12] == '\n';
    HexFieldAt(s, i + 1, src);
    HexFieldAt(s, i + 7, dst);
    assert BfcharF(s, i, m) == BfcharF(s, i + 12, Put(m, src, dst));
  }

  function BfcharLines(es: seq<(u16, u16)>): (text: string)
    ensures |text| == 13 * |es|
  {
    if es == [] then [] else BfcharLine(es[0].0, es[0].1) + BfcharLines(es[1..])
  }

  /** The entries inserted in order, each skipped when its destination is a surrogate. */
  function PutAll(m: map<u16, char>, es: seq<(u16, u16)>): map<u16, char>
    decreases es
  {
    if es == [] then m else PutAll(Put(m, es[0].0, es[0].1), es[1..])
  }

  lemma {:induction false} BfcharLinesAt(s: string, i: nat, es: seq<(u16, u16)>, m: map<u16, char>)
    requires i <= |s| && s[i..] == BfcharLines(es)
    ensures BfcharF(s, i, m) == PutAll(m, es)
    decreases es
  {
    if es != [] {
      var line := BfcharLine(es[0].0, es[0].1);
      assert s[i..i + 13] == s[i..][..13] == line;
      assert s[i + 13..] == s[i..][13..] == BfcharLines(es[1..]);
      BfcharLineAt(s, i, es[0].0, es[0].1, m);
      BfcharLinesAt(s, i + 13, es[1..], Put(m, es[0].0, es[0].1));
    }
  }

  /** A bfchar section written out entry by entry parses to those entries. */
  lemma BfcharRoundTrip(es: seq<(u16, u16)>, m: map<u16, char>)
    ensures BfcharF(BfcharLines(es), 0, m) == PutAll(m, es)
  {
    var s := BfcharLines(es);
    assert s[0..] == s;
    BfcharLinesAt(s, 0, es, m);
  }

  /** One single-destination bfrange entry: `<lo><hi><dst>` and a line break. */
  function BfrangeLine(lo: u16, hi: u16, dst: u16): (line: string)
    ensures |line| == 19
    ensures line[0] == '<' && line[1..6] == Hex4(lo) + ">"
    ensures line[6] == '<' && line[7..12] == Hex4(hi) + ">"
    ensures line[12] == '<' && line[13..18] == Hex4(dst) + ">" && line[18] == '\n'
  {
    var a, b, c := Hex4(lo) + ">", Hex4(hi) + ">", Hex4(dst) + ">";
    var line := "<" + a + "<" + b + "<" + c + "\n";
    assert line[1..6] == a;
    assert line[7..12] == b;
    assert line[13..18] == c;
    line
  }

  lemma BfrangeLineAt(s: string, i: nat, lo: u16, hi: u16, dst: u16, m: map<u16, char>)
    requires i + 19 <= |s| && s[i..i + 19] == BfrangeLine(lo, hi, dst)
    ensures BfrangeF(s, i, m) == BfrangeF(s, i + 19, RangeEntry(m, lo, hi, dst))
  {
    var line := BfrangeLine(lo, hi, dst);
    SliceOfSlice(s, i, 19, 1, 6);
    assert s[i + 1..i + 6] == line[1..6] == Hex4(lo) + ">";
    SliceOfSlice(s, i, 19, 7, 12);
    assert s[i + 7..i + 12] == line[7..12] == Hex4(hi) + ">";
    SliceOfSlice(s, i, 19, 13, 18);
    assert s[i + 13..i + 18] == line[13..18] == Hex4(dst) + ">";
    assert s[i] == '<' && s[i + 6] == '<' && s[i + 12] == '<' && s[i + 18] == '\n';
    HexFieldAt(s, i + 1, lo);
    HexFieldAt(s, i + 7, hi);
    HexFieldAt(s, i + 13, dst);
    assert BfrangeF(s, i, m) == BfrangeF(s, i + 18, RangeEntry(m, lo, hi, dst));
  }

  function BfrangeLines(rs: seq<(u16, u16, u16)>): (text: string)
    ensures |text| == 19 * |rs|
  {
    if rs == [] then [] else BfrangeLine(rs[0].0, rs[0].1, rs[0].2) + BfrangeLines(rs[1..])
  }

  /** The ranges applied in order. */
  function RangeAll(m: map<u16, char>, rs: seq<(u16, u16, u16)>): map<u16, char>
    decreases rs
  {
    if rs == [] then m else RangeAll(RangeEntry(m, rs[0].0, rs[0].1, rs[0].2), rs[1..])
  }

  lemma {:induction false} BfrangeLinesAt(s: string, i: nat, rs: seq<(u16, u16, u16)>, m: map<u16, char>)
    requires i <= |s| && s[i..] == BfrangeLines(rs)
    ensures BfrangeF(s, i, m) == RangeAll(m, rs)
    decreases rs
  {
    if rs != [] {
      var line := BfrangeLine(rs[0].0, rs[0].1, rs[0].2);
      assert s[i..i + 19] == s[i..][..19] == line;
      assert s[i + 19..] == s[i..][19..] == BfrangeLines(rs[1..]);
      BfrangeLineAt(s, i, rs[0].0, rs[0].1, rs[0].2, m);
      BfrangeLinesAt(s, i + 19, rs[1..], RangeEntry(m, rs[0].0, rs[0].1, rs[0].2));
    }
  }

  /** A bfrange section of single-destination entries parses to those ranges. */
  lemma BfrangeRoundTrip(rs: seq<(u16, u16, u16)>, m: map<u16, char>)
    ensures BfrangeF(BfrangeLines(rs), 0, m) == RangeAll(m, rs)
  {
    var s := BfrangeLines(rs);
    assert s[0..] == s;
    BfrangeLinesAt(s, 0, rs, m);
  }

  // ---------------------------------------------------------------------------
  // Section boundaries

  /**
   * A section starts right after the first begin marker at or after `pos`
   * and runs up to the first end marker after it; it contains no end marker.
   */
  lemma SectionIsDelimited(k: SectionKind, text: string, pos: nat, p: nat, e: nat)
    requires SectionAt(k, text, pos) == Some((p, e))
    ensures p >= |BeginMarker(k)| && OccursAt(text, BeginMarker(k), p - |BeginMarker(k)|)
    ensures forall i | pos <= i < p - |BeginMarker(k)| :: !OccursAt(text, BeginMarker(k), i)
    ensures OccursAt(text, EndMarker(k), e)
    ensures forall i | p <= i < e :: !OccursAt(text, EndMarker(k), i)
  {
    var begin, end := BeginMarker(k), EndMarker(k);
    var si := FindFrom(text, begin, pos).value;
    assert si == p - |begin|;
    FindFromFirst(text, begin, pos);
    assert FindFrom(text, end, p) == Some(e);
    FindFromFirst(text, end, p);
  }

  /** A begin marker with no end marker anywhere after it ends the scan: nothing more is added. */
  lemma UnterminatedSectionStops(k: SectionKind, text: string, pos: nat, m: map<u16, char>, si: nat)
    requires FindFrom(text, BeginMarker(k), pos) == Some(si)
    requires forall i | si + |BeginMarker(k)| <= i :: !OccursAt(text, EndMarker(k), i)
    ensures SectionsF(k, text, pos, m) == m
  {
    FindFromFirst(text, EndMarker(k), si + |BeginMarker(k)|);
  }
}
