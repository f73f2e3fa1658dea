/*
 * Stream decoding: the `/Filter` chain of a stream dictionary and the
 * ASCIIHexDecode filter. Flate decompression is a call into zlib; it is a
 * parameter of the decoder here.
 */
module StreamDecoding {
  import opened Common
  import opened PdfObjects
  import opened Lexing

  /** A decompressor: the bytes it inflates to, or its error. */
  type Inflater = seq<byte> -> Result<seq<byte>>

  const GREATER: byte := 0x3E
  const ZERO: byte := 0x30

  /** `u8::is_ascii_whitespace`: space, tab, LF, FF and CR (not NUL, not VT). */
  predicate IsAsciiWhiteSpace(b: byte)
  {
    b == 0x20 || b == 0x09 || b == 0x0A || b == 0x0C || b == 0x0D
  }

  /** The bytes of `data` that are not white space, in order. */
  function NonWhiteSpace(data: seq<byte>): (r: seq<byte>)
    ensures |r| <= |data|
    ensures forall i | 0 <= i < |r| :: !IsAsciiWhiteSpace(r[i])
  {
    if data == [] then []
    else if IsAsciiWhiteSpace(data[0]) then NonWhiteSpace(data[1..])
    else [data[0]] + NonWhiteSpace(data[1..])
  }

  lemma {:induction false} NonWhiteSpaceAppend(a: seq<byte>, b: seq<byte>)
    ensures NonWhiteSpace(a + b) == NonWhiteSpace(a) + NonWhiteSpace(b)
  {
    if a == [] {
      assert a + b == b;
    } else {
      assert (a + b)[0] == a[0] && (a + b)[1..] == a[1..] + b;
      NonWhiteSpaceAppend(a[1..], b);
      if !IsAsciiWhiteSpace(a[0]) {
        assert [a[0]] + (NonWhiteSpace(a[1..]) + NonWhiteSpace(b)) == [a[0]] + NonWhiteSpace(a[1..]) + NonWhiteSpace(b);
      }
    }
  }

  /** `hex_val`: the value of a hexadecimal digit of either case. */
  function HexVal(b: byte): (r: Result<nat>)
    ensures r.Ok? <==> IsHexByte(b)
    ensures r.Ok? ==> r.value == HexValue(b) && r.value < 16
    ensures r.Err? ==> r.error == Parse(0, "Invalid hex char: " + Latin1([b]))
  {
    if IsHexByte(b) then Ok(HexValue(b)) else Err(Parse(0, "Invalid hex char: " + Latin1([b])))
  }

  /**
   * `ascii_hex_decode` over the non-white-space bytes `cs`: stop at the end
   * or at `>`; otherwise two digits make a byte, a lone last digit is
   * padded with `0`, and a byte that is not a digit is an error.
   */
  function AsciiHexF(cs: seq<byte>): (r: Result<seq<byte>>)
    decreases |cs|
  {
    if cs == [] || cs[0] == GREATER then Ok([])
    else
      var h2 := if |cs| >= 2 then cs[1] else ZERO;
      var hi :- HexVal(cs[0]);
      var lo :- HexVal(h2);
      var rest :- AsciiHexF(if |cs| >= 2 then cs[2..] else []);
      Ok([hi * 16 + lo] + rest)
  }

  /**
   * The next byte of the white-space-filtering iterator over `data` from
   * `i`, and the index after it.
   */
  method NextNonWhiteSpace(data: seq<byte>, i: nat) returns (c: Option<byte>, j: nat)
    requires i <= |data|
    ensures i <= j <= |data|
    ensures c.None? ==> NonWhiteSpace(data[i..]) == [] && j == |data|
    ensures c.Some? ==> NonWhiteSpace(data[i..]) == [c.value] + NonWhiteSpace(data[j..]) && i < j
  {
    j := i;
    while j < |data| && IsAsciiWhiteSpace(data[j])
      invariant i <= j <= |data|
      invariant NonWhiteSpace(data[i..]) == NonWhiteSpace(data[j..])
    {
      assert data[j..][1..] == data[j + 1..];
      j := j + 1;
    }
    if j == |data| {
      c := None;
    } else {
      c := Some(data[j]);
      assert data[j..][1..] == data[j + 1..];
      j := j + 1;
    }
  }

  /** `result` followed by what `r` holds, or `r`'s error. */
  function Prefixed(result: seq<byte>, r: Result<seq<byte>>): Result<seq<byte>>
  {
    if r.Ok? then Ok(result + r.value) else r
  }

  /** The digit paired with the first one of `cs`: the second byte, or `0` past the end. */
  function SecondDigit(cs: seq<byte>): byte
  {
    if |cs| >= 2 then cs[1] else ZERO
  }

  /** What is left of `cs` after its first pair. */
  function AfterPair(cs: seq<byte>): seq<byte>
  {
    if |cs| >= 2 then cs[2..] else []
  }

  /**
   * The first step of the decoder on `cs`: `None` when it stops (the end or
   * `>`), else the byte of the first pair or the error of its first bad digit.
   */
  function FirstPair(cs: seq<byte>): Option<Result<byte>>
  {
    if cs == [] || cs[0] == GREATER then None
    else if !IsHexByte(cs[0]) then Some(Err(HexVal(cs[0]).error))
    else if !IsHexByte(SecondDigit(cs)) then Some(Err(HexVal(SecondDigit(cs)).error))
    else Some(Ok(HexValue(cs[0]) * 16 + HexValue(SecondDigit(cs))))
  }

  /** The decoder is its first step followed by the decoder on the rest. */
  lemma AsciiHexUnfold(cs: seq<byte>, result: seq<byte>)
    ensures Prefixed(result, AsciiHexF(cs)) ==
      match FirstPair(cs)
      case None => Ok(result)
      case Some(Err(e)) => Err(e)
      case Some(Ok(b)) => Prefixed(result + [b], AsciiHexF(AfterPair(cs)))
  {
    match FirstPair(cs)
    case None => assert result + [] == result;
    case Some(Err(e)) =>
    case Some(Ok(b)) =>
      var rest := AsciiHexF(AfterPair(cs));
      if rest.Ok? {
        assert AsciiHexF(cs) == Ok([b] + rest.value);
        assert result + ([b] + rest.value) == (result + [b]) + rest.value;
      }
  }

  /** Reads the next pair through the white-space-filtering iterator. */
  method ReadPair(data: seq<byte>, i: nat) returns (p: Option<Result<byte>>, k: nat)
    requires i <= |data|
    ensures p == FirstPair(NonWhiteSpace(data[i..]))
    ensures p.Some? && p.value.Ok? ==> i < k <= |data| && AfterPair(NonWhiteSpace(data[i..])) == NonWhiteSpace(data[k..])
  {
    ghost var cs := NonWhiteSpace(data[i..]);
    var h1, j := NextNonWhiteSpace(data, i);
    if h1.None? || h1.value == GREATER {
      return None, j;
    }
    var h2;
    h2, k := NextNonWhiteSpace(data, j);
    var second := if h2.Some? then h2.value else ZERO;
    assert SecondDigit(cs) == second && AfterPair(cs) == NonWhiteSpace(data[k..]);
    var hi := HexVal(h1.value);
    if hi.Err? {
      return Some(Err(hi.error)), k;
    }
    var lo := HexVal(second);
    if lo.Err? {
      return Some(Err(lo.error)), k;
    }
    p := Some(Ok(hi.value * 16 + lo.value));
  }

  /** `ascii_hex_decode`. */
  method AsciiHexDecode(data: seq<byte>) returns (r: Result<seq<byte>>)
    ensures r == AsciiHexF(NonWhiteSpace(data))
  {
    var result: seq<byte> := [];
    var i := 0;
    assert data[0..] == data;
    var whole := AsciiHexF(NonWhiteSpace(data));
    assert whole.Ok? ==> [] + whole.value == whole.value;
    while true
      invariant i <= |data|
      invariant Prefixed(result, AsciiHexF(NonWhiteSpace(data[i..]))) == whole
      decreases |data| - i
    {
      AsciiHexUnfold(NonWhiteSpace(data[i..]), result);
      var p, k := ReadPair(data, i);
      if p.None? {
        return Ok(result);
      }
      if p.value.Err? {
        return Err(p.value.error);
      }
      result := result + [p.value.value];
      i := k;
    }
  }

  /** Upper-case hexadecimal text of `bs`, two digits a byte, ended by `>`. */
  function AsciiHexEncode(bs: seq<byte>): (d: seq<byte>)
  {
    HexEncode(bs) + [GREATER]
  }

  lemma PrefixedTwice(a: seq<byte>, b: seq<byte>, r: Result<seq<byte>>)
    ensures Prefixed(a, Prefixed(b, r)) == Prefixed(a + b, r)
  {
    if r.Ok? {
      assert a + (b + r.value) == a + b + r.value;
    }
  }

  lemma {:induction false} AsciiHexOfDigits(bs: seq<byte>, tail: seq<byte>)
    ensures AsciiHexF(HexEncode(bs) + tail) == Prefixed(bs, AsciiHexF(tail))
  {
    if bs == [] {
      assert HexEncode(bs) == [];
      assert HexEncode(bs) + tail == tail;
      if AsciiHexF(tail).Ok? {
        assert bs + AsciiHexF(tail).value == AsciiHexF(tail).value;
      }
    } else {
      var d := HexEncode(bs);
      var cs := d + tail;
      assert cs[0] == d[0] && SecondDigit(cs) == d[1];
      assert AfterPair(cs) == HexEncode(bs[1..]) + tail;
      assert FirstPair(cs) == Some(Ok(bs[0]));
      AsciiHexUnfold(cs, []);
      assert [] + [bs[0]] == [bs[0]];
      AsciiHexOfDigits(bs[1..], tail);
      PrefixedTwice([bs[0]], bs[1..], AsciiHexF(tail));
      assert [bs[0]] + bs[1..] == bs;
      if AsciiHexF(cs).Ok? {
        assert [] + AsciiHexF(cs).value == AsciiHexF(cs).value;
      }
    }
  }

  /**
   * Decoding inverts encoding, whatever white space is put between the
   * digits and whatever follows the `>`.
   */
  lemma AsciiHexRoundTrip(bs: seq<byte>, spaced: seq<byte>, after: seq<byte>)
    requires NonWhiteSpace(spaced) == HexEncode(bs)
    ensures AsciiHexF(NonWhiteSpace(spaced + [GREATER] + after)) == Ok(bs)
  {
    NonWhiteSpaceAppend(spaced + [GREATER], after);
    NonWhiteSpaceAppend(spaced, [GREATER]);
    assert NonWhiteSpace([GREATER]) == [GREATER] + NonWhiteSpace([]);
    var tail := [GREATER] + NonWhiteSpace(after);
    assert NonWhiteSpace(spaced + [GREATER] + after) == HexEncode(bs) + tail;
    AsciiHexOfDigits(bs, tail);
    assert bs + [] == bs;
  }

  /** A lone last digit is padded with `0`; a digit directly before `>` is an error. */
  lemma AsciiHexOddDigit(h: byte, rest: seq<byte>)
    requires IsHexByte(h)
    ensures AsciiHexF([h]) == Ok([HexValue(h) * 16])
    ensures AsciiHexF([h, GREATER] + rest) == Err(Parse(0, "Invalid hex char: >"))
  {
    assert HexVal(ZERO) == Ok(0);
    assert AsciiHexF([]) == Ok([]);
    assert [HexValue(h) * 16 + 0] + [] == [HexValue(h) * 16];
    assert Latin1([GREATER]) == ">";
  }

  /** A byte that is neither a digit nor `>` is an error. */
  lemma AsciiHexRejectsNonDigit(b: byte, rest: seq<byte>)
    requires !IsHexByte(b) && b != GREATER
    ensures AsciiHexF([b] + rest).Err?
  {
  }

  // ---------------------------------------------------------------------------
  // The filter chain

  /** The names of an array of filters, failing on the first element that is not a name. */
  function FilterNames(arr: seq<PdfObject>): (r: Result<seq<string>>)
    ensures r.Ok? <==> forall i | 0 <= i < |arr| :: arr[i].Name?
    ensures r.Ok? ==> |r.value| == |arr| && forall i | 0 <= i < |arr| :: r.value[i] == arr[i].name
    ensures r.Err? ==> r.error == InvalidStructure("Filter must be name")
  {
    if arr == [] then Ok([])
    else if !arr[0].Name? then Err(InvalidStructure("Filter must be name"))
    else
      var rest :- FilterNames(arr[1..]);
      Ok([arr[0].name] + rest)
  }

  /** `get_filters`. */
  function GetFilters(dict: map<string, PdfObject>): (r: Result<seq<string>>)
    ensures Lookup(dict, "Filter").None? ==> r == Ok([])
    ensures Lookup(dict, "Filter").Some? && Lookup(dict, "Filter").value.Name? ==>
      r == Ok([Lookup(dict, "Filter").value.name])
    ensures Lookup(dict, "Filter").Some? && Lookup(dict, "Filter").value.Array? ==>
      r == FilterNames(Lookup(dict, "Filter").value.items)
    ensures Lookup(dict, "Filter").Some? && !Lookup(dict, "Filter").value.Name? && !Lookup(dict, "Filter").value.Array? ==>
      r == Err(InvalidStructure("Invalid Filter type"))
  {
    match Lookup(dict, "Filter")
    case None => Ok([])
    case Some(Name(n)) => Ok([n])
    case Some(Array(arr)) => FilterNames(arr)
    case _ => Err(InvalidStructure("Invalid Filter type"))
  }

  /** `apply_filter`. */
  function ApplyFilter(inflate: Inflater, filter: string, data: seq<byte>): (r: Result<seq<byte>>)
    ensures filter == "FlateDecode" ==> r == inflate(data)
    ensures filter == "ASCIIHexDecode" ==> r == AsciiHexF(NonWhiteSpace(data))
    ensures filter != "FlateDecode" && filter != "ASCIIHexDecode" ==> r == Err(UnsupportedFilter(filter))
  {
    if filter == "FlateDecode" then inflate(data)
    else if filter == "ASCIIHexDecode" then AsciiHexF(NonWhiteSpace(data))
    else Err(UnsupportedFilter(filter))
  }

  /** The filters applied left to right, each to the previous output, stopping at the first error. */
  function ApplyFilters(inflate: Inflater, filters: seq<string>, data: seq<byte>): Result<seq<byte>>
  {
    if filters == [] then Ok(data)
    else
      var next :- ApplyFilter(inflate, filters[0], data);
      ApplyFilters(inflate, filters[1..], next)
  }

  /** Applying a chain in two parts is applying the first part, then the second to its output. */
  lemma {:induction false} ApplyFiltersAppend(inflate: Inflater, f: seq<string>, g: seq<string>, data: seq<byte>)
    ensures ApplyFilters(inflate, f + g, data) ==
      match ApplyFilters(inflate, f, data)
      case Ok(mid) => ApplyFilters(inflate, g, mid)
      case Err(e) => Err(e)
  {
    if f == [] {
      assert f + g == g;
    } else {
      assert (f + g)[0] == f[0] && (f + g)[1..] == f[1..] + g;
      match ApplyFilter(inflate, f[0], data)
      case Err(e) =>
      case Ok(next) => ApplyFiltersAppend(inflate, f[1..], g, next);
    }
  }

  /** A filter other than the two supported ones stops the chain with `UnsupportedFilter`. */
  lemma UnsupportedFilterStops(inflate: Inflater, before: seq<string>, name: string, after: seq<string>, data: seq<byte>)
    requires name != "FlateDecode" && name != "ASCIIHexDecode"
    requires ApplyFilters(inflate, before, data).Ok?
    ensures ApplyFilters(inflate, before + [name] + after, data) == Err(UnsupportedFilter(name))
  {
    ApplyFiltersAppend(inflate, before, [name] + after, data);
    assert before + [name] + after == before + ([name] + after);
  }

  /** `decode_stream`. */
  method DecodeStream(inflate: Inflater, dict: map<string, PdfObject>, data: seq<byte>) returns (r: Result<seq<byte>>)
    ensures GetFilters(dict).Err? ==> r == Err(GetFilters(dict).error)
    ensures GetFilters(dict).Ok? ==> r == ApplyFilters(inflate, GetFilters(dict).value, data)
  {
    var filters :- GetFilters(dict);
    if filters == [] {
      return Ok(data);
    }
    var result := data;
    var k := 0;
    while k < |filters|
      invariant k <= |filters|
      invariant ApplyFilters(inflate, filters, data) == ApplyFilters(inflate, filters[k..], result)
    {
      assert filters[k..][1..] == filters[k + 1..];
      result :- ApplyFilter(inflate, filters[k], result);
      k := k + 1;
    }
    assert filters[k..] == [];
    r := Ok(result);
  }

  /** With no `/Filter`, the data come back unchanged. */
  lemma NoFilterIsIdentity(inflate: Inflater, dict: map<string, PdfObject>, data: seq<byte>)
    requires Lookup(dict, "Filter").None?
    ensures GetFilters(dict) == Ok([]) && ApplyFilters(inflate, [], data) == Ok(data)
  {
  }
}
