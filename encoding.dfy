/*
 * Font encodings: a table from single-byte codes to characters (identity,
 * WinAnsiEncoding, MacRomanEncoding) and, for composite fonts, a table from
 * two-byte CIDs to characters.
 */
module FontEncodings {
  import opened Common

  /** The code point of a byte, `b as char`. */
  function ByteAsChar(b: byte): char
  {
    b as char
  }

  /** Every byte in `[lo, hi)` mapped to the character with its own code point. */
  function RangeMap(lo: nat, hi: nat): map<byte, char>
  {
    map b: byte | lo <= b < hi :: ByteAsChar(b)
  }

  /**
   * The 27 Windows-1252 characters of 0x80-0x9F that differ from Latin-1;
   * 0x81, 0x8D, 0x8F, 0x90 and 0x9D have none.
   */
  function WinAnsiHigh(b: byte): Option<char>
  {
    match b
    case 0x80 => Some('\U{20AC}')
    case 0x82 => Some('\U{201A}')
    case 0x83 => Some('\U{0192}')
    case 0x84 => Some('\U{201E}')
    case 0x85 => Some('\U{2026}')
    case 0x86 => Some('\U{2020}')
    case 0x87 => Some('\U{2021}')
    case 0x88 => Some('\U{02C6}')
    case 0x89 => Some('\U{2030}')
    case 0x8A => Some('\U{0160}')
    case 0x8B => Some('\U{2039}')
    case 0x8C => Some('\U{0152}')
    case 0x8E => Some('\U{017D}')
    case 0x91 => Some('\U{2018}')
    case 0x92 => Some('\U{2019}')
    case 0x93 => Some('\U{201C}')
    case 0x94 => Some('\U{201D}')
    case 0x95 => Some('\U{2022}')
    case 0x96 => Some('\U{2013}')
    case 0x97 => Some('\U{2014}')
    case 0x98 => Some('\U{02DC}')
    case 0x99 => Some('\U{2122}')
    case 0x9A => Some('\U{0161}')
    case 0x9B => Some('\U{203A}')
    case 0x9C => Some('\U{0153}')
    case 0x9E => Some('\U{017E}')
    case 0x9F => Some('\U{0178}')
    case _ => None
  }

  /** The Mac OS Roman characters of 0x80-0xFF, in code order, as the table lists them. */
  const MAC_ROMAN_HIGH: seq<char> := [
      '\U{00C4}', '\U{00C5}', '\U{00C7}', '\U{00C9}', '\U{00D1}', '\U{00D6}', '\U{00DC}', '\U{00E1}',
      '\U{00E0}', '\U{00E2}', '\U{00E4}', '\U{00E3}', '\U{00E5}', '\U{00E7}', '\U{00E9}', '\U{00E8}',
      '\U{00EA}', '\U{00EB}', '\U{00ED}', '\U{00EC}', '\U{00EE}', '\U{00EF}', '\U{00F1}', '\U{00F3}',
      '\U{00F2}', '\U{00F4}', '\U{00F6}', '\U{00F5}', '\U{00FA}', '\U{00F9}', '\U{00FB}', '\U{00FC}',
      '\U{2020}', '\U{00B0}', '\U{00A2}', '\U{00A3}', '\U{00A7}', '\U{2022}', '\U{00B6}', '\U{00DF}',
      '\U{00AE}', '\U{00A9}', '\U{2122}', '\U{00B4}', '\U{00A8}', '\U{2260}', '\U{00C6}', '\U{00D8}',
      '\U{221E}', '\U{00B1}', '\U{2264}', '\U{2265}', '\U{00A5}', '\U{00B5}', '\U{2202}', '\U{2211}',
      '\U{220F}', '\U{03C0}', '\U{222B}', '\U{00AA}', '\U{00BA}', '\U{03A9}', '\U{00E6}', '\U{00F8}',
      '\U{00BF}', '\U{00A1}', '\U{00AC}', '\U{221A}', '\U{0192}', '\U{2248}', '\U{2206}', '\U{00AB}',
      '\U{00BB}', '\U{2026}', '\U{0020}', '\U{00C0}', '\U{00C3}', '\U{00D5}', '\U{0152}', '\U{0153}',
      '\U{2013}', '\U{2014}', '\U{0022}', '\U{0022}', '\U{2018}', '\U{2019}', '\U{00F7}', '\U{25CA}',
      '\U{00FF}', '\U{0178}', '\U{2044}', '\U{20AC}', '\U{2039}', '\U{203A}', '\U{FB01}', '\U{FB02}',
      '\U{2021}', '\U{00B7}', '\U{201A}', '\U{201E}', '\U{2030}', '\U{00C2}', '\U{00CA}', '\U{00C1}',
      '\U{00CB}', '\U{00C8}', '\U{00CD}', '\U{00CE}', '\U{00CF}', '\U{00CC}', '\U{00D3}', '\U{00D4}',
      '\U{F8FF}', '\U{00D2}', '\U{00DA}', '\U{00DB}', '\U{00D9}', '\U{0131}', '\U{02C6}', '\U{02DC}',
      '\U{00AF}', '\U{02D8}', '\U{02D9}', '\U{02DA}', '\U{00B8}', '\U{02DD}', '\U{02DB}', '\U{02C7}'
    ]

  /** The Mac OS Roman character of a code in 0x80-0xFF. */
  function MacRomanHigh(b: byte): Option<char>
  {
    if 0x80 <= b then Some(MAC_ROMAN_HIGH[b - 0x80]) else None
  }

  /** The codes in `[lo, hi)` that `f` gives a character, mapped to it. */
  function PartialMap(f: byte -> Option<char>, lo: nat, hi: nat): map<byte, char>
  {
    map b: byte | lo <= b < hi && f(b).Some? :: f(b).value
  }

  /** `identity`: every byte. */
  function IdentityMap(): map<byte, char>
  {
    RangeMap(0, 0x100)
  }

  /** `win_ansi`: printable ASCII, the Windows-1252 table, then 0xA0-0xFF. */
  function WinAnsiMap(): map<byte, char>
  {
    RangeMap(0x20, 0x7F) + PartialMap(WinAnsiHigh, 0x80, 0xA0) + RangeMap(0xA0, 0x100)
  }

  /** `mac_roman`: printable ASCII, then the 128-entry table. */
  function MacRomanMap(): map<byte, char>
  {
    RangeMap(0x20, 0x7F) + PartialMap(MacRomanHigh, 0x80, 0x100)
  }

  /** `decode_byte`: the table's character, else the byte's own code point. */
  function DecodeByteWith(table: map<byte, char>, b: byte): char
  {
    if b in table then table[b] else ByteAsChar(b)
  }

  /** The CID of two bytes read big-endian. */
  function CidOf(hi: byte, lo: byte): (cid: u16)
    ensures cid / 0x100 == hi && cid % 0x100 == lo
  {
    hi * 0x100 + lo
  }

  /**
   * CID-mode decoding: bytes taken in big-endian pairs; a mapped pair gives
   * its character, an unmapped one its two bytes decoded singly, and an odd
   * last byte is decoded alone.
   */
  function DecodeCidBytes(table: map<byte, char>, cids: map<u16, char>, bs: seq<byte>): string
  {
    if |bs| == 0 then ""
    else if |bs| == 1 then [DecodeByteWith(table, bs[0])]
    else PairText(table, cids, bs[0], bs[1]) + DecodeCidBytes(table, cids, bs[2..])
  }

  /** The text of one pair in CID mode. */
  function PairText(table: map<byte, char>, cids: map<u16, char>, hi: byte, lo: byte): string
  {
    var cid := CidOf(hi, lo);
    if cid in cids then [cids[cid]] else [DecodeByteWith(table, hi), DecodeByteWith(table, lo)]
  }

  /** Simple-mode decoding: one character per byte. */
  function DecodeSimpleBytes(table: map<byte, char>, bs: seq<byte>): string
  {
    if bs == [] then "" else [DecodeByteWith(table, bs[0])] + DecodeSimpleBytes(table, bs[1..])
  }

  /** `decode_bytes`: CID mode when there is a CID table, else simple mode. */
  function DecodeBytesWith(table: map<byte, char>, cids: map<u16, char>, bs: seq<byte>): string
  {
    if cids != map[] then DecodeCidBytes(table, cids, bs) else DecodeSimpleBytes(table, bs)
  }

  /** `table` with every byte of `[lo, hi)` mapped to its own code point, one insert at a time. */
  method FillRange(table: map<byte, char>, lo: nat, hi: nat) returns (t: map<byte, char>)
    requires lo <= hi <= 0x100
    ensures t == table + RangeMap(lo, hi)
  {
    t := table;
    for i := lo to hi
      invariant t == table + RangeMap(lo, i)
    {
      t := t[i := ByteAsChar(i)];
    }
  }

  /** `table` with the pairs of a fixed table inserted in code order: the codes in `[lo, hi)` that `f` maps. */
  method FillTable(table: map<byte, char>, f: byte -> Option<char>, lo: nat, hi: nat) returns (t: map<byte, char>)
    requires lo <= hi <= 0x100
    ensures t == table + PartialMap(f, lo, hi)
  {
    t := table;
    for b := lo to hi
      invariant t == table + PartialMap(f, lo, b)
    {
      if f(b).Some? {
        t := t[b := f(b).value];
      }
    }
  }

  class FontEncoding {
    /** From byte code to character. */
    var byteMap: map<byte, char>
    /** From two-byte CID to character. */
    var cidMap: map<u16, char>

    /** `identity` (also the `Default`). */
    constructor Identity()
      ensures byteMap == IdentityMap() && cidMap == map[]
    {
      var t := FillRange(map[], 0, 0x100);
      assert map[] + RangeMap(0, 0x100) == RangeMap(0, 0x100);
      byteMap := t;
      cidMap := map[];
    }

    /** `win_ansi`. */
    constructor WinAnsi()
      ensures byteMap == WinAnsiMap() && cidMap == map[]
    {
      var t := FillRange(map[], 0x20, 0x7F);
      assert map[] + RangeMap(0x20, 0x7F) == RangeMap(0x20, 0x7F);
      t := FillTable(t, WinAnsiHigh, 0x80, 0xA0);
      t := FillRange(t, 0xA0, 0x100);
      byteMap := t;
      cidMap := map[];
    }

    /** `mac_roman`. */
    constructor MacRoman()
      ensures byteMap == MacRomanMap() && cidMap == map[]
    {
      var t := FillRange(map[], 0x20, 0x7F);
      assert map[] + RangeMap(0x20, 0x7F) == RangeMap(0x20, 0x7F);
      t := FillTable(t, MacRomanHigh, 0x80, 0x100);
      byteMap := t;
      cidMap := map[];
    }

    /** `from_cid_map`: no byte table, the given CID table. */
    constructor FromCidMap(cids: map<u16, char>)
      ensures byteMap == map[] && cidMap == cids
    {
      byteMap := map[];
      cidMap := cids;
    }

    /** `decode_byte`. */
    function DecodeByte(b: byte): char
      reads this
    {
      DecodeByteWith(byteMap, b)
    }

    /** `decode_cid`. */
    function DecodeCid(cid: u16): (r: Option<char>)
      reads this
      ensures r.Some? <==> cid in cidMap
      ensures r.Some? ==> r.value == cidMap[cid]
    {
      if cid in cidMap then Some(cidMap[cid]) else None
    }

    /** `has_cid_map`. */
    predicate HasCidMap()
      reads this
    {
      cidMap != map[]
    }

    /** `decode_bytes`. */
    method DecodeBytes(bytes: seq<byte>) returns (s: string)
      ensures s == DecodeBytesWith(byteMap, cidMap, bytes)
    {
      if !HasCidMap() {
        s := SimpleBytes(bytes);
        return;
      }
      s := "";
      var i := 0;
      while i < |bytes|
        invariant i <= |bytes|
        invariant s + DecodeCidBytes(byteMap, cidMap, bytes[i..]) == DecodeCidBytes(byteMap, cidMap, bytes)
        decreases |bytes| - i
      {
        ghost var rest := bytes[i..];
        if i + 1 < |bytes| {
          var cid := CidOf(bytes[i], bytes[i + 1]);
          var piece: string;
          assert DecodeCidBytes(byteMap, cidMap, rest) == PairText(byteMap, cidMap, bytes[i], bytes[i + 1]) + DecodeCidBytes(byteMap, cidMap, rest[2..]);
          match DecodeCid(cid) {
            case Some(ch) => piece := [ch];
            case None => piece := [DecodeByte(bytes[i]), DecodeByte(bytes[i + 1])];
          }
          assert rest[2..] == bytes[i + 2..];
          assert DecodeCidBytes(byteMap, cidMap, rest) == piece + DecodeCidBytes(byteMap, cidMap, bytes[i + 2..]);
          s := s + piece;
          i := i + 2;
        } else {
          assert rest == [bytes[i]] && bytes[i + 1..] == [];
          s := s + [DecodeByte(bytes[i])];
          i := i + 1;
        }
      }
      assert bytes[i..] == [];
      assert s + "" == s;
    }

    /** The simple-mode `map(decode_byte).collect()`. */
    method SimpleBytes(bytes: seq<byte>) returns (s: string)
      ensures s == DecodeSimpleBytes(byteMap, bytes)
    {
      s := "";
      var i := 0;
      while i < |bytes|
        invariant i <= |bytes|
        invariant s + DecodeSimpleBytes(byteMap, bytes[i..]) == DecodeSimpleBytes(byteMap, bytes)
      {
        assert bytes[i..][1..] == bytes[i + 1..];
        s := s + [DecodeByte(bytes[i])];
        i := i + 1;
      }
      assert bytes[i..] == [];
      assert s + "" == s;
    }

    /** `add_cid_mapping`. */
    method AddCidMapping(cid: u16, ch: char)
      modifies this
      ensures cidMap == old(cidMap)[cid := ch] && byteMap == old(byteMap)
    {
      cidMap := cidMap[cid := ch];
    }
  }

  // ---------------------------------------------------------------------------
  // Properties

  /** `identity` decodes every byte to the character with its code point. */
  lemma IdentityDecodesEveryByte(b: byte)
    ensures b in IdentityMap() && DecodeByteWith(IdentityMap(), b) == b as char
  {
  }

  /**
   * WinAnsiEncoding is Windows-1252 as the table gives it: printable ASCII
   * and 0xA0-0xFF decode to their own code points, the 27 table codes to
   * their characters, and every other byte falls back to its own code point.
   */
  lemma WinAnsiDecodes(b: byte)
    ensures DecodeByteWith(WinAnsiMap(), b) == if WinAnsiHigh(b).Some? then WinAnsiHigh(b).value else b as char
    ensures b in WinAnsiMap() <==> (0x20 <= b <= 0x7E || 0xA0 <= b || WinAnsiHigh(b).Some?)
  {
  }

  lemma WinAnsiExamples()
    ensures DecodeByteWith(WinAnsiMap(), 0x41) == 'A' && DecodeByteWith(WinAnsiMap(), 0x20) == ' '
    ensures DecodeByteWith(WinAnsiMap(), 0x80) == '\U{20AC}' && DecodeByteWith(WinAnsiMap(), 0x99) == '\U{2122}'
    ensures 0x81 !in WinAnsiMap() && DecodeByteWith(WinAnsiMap(), 0x81) == '\U{0081}'
  {
    WinAnsiDecodes(0x41);
    WinAnsiDecodes(0x20);
    WinAnsiDecodes(0x80);
    WinAnsiDecodes(0x99);
    WinAnsiDecodes(0x81);
  }

  /** MacRomanEncoding: printable ASCII to itself, 0x80-0xFF per the table, the rest to their own code points. */
  lemma MacRomanDecodes(b: byte)
    ensures DecodeByteWith(MacRomanMap(), b) == if 0x80 <= b then MAC_ROMAN_HIGH[b - 0x80] else b as char
    ensures b in MacRomanMap() <==> (0x20 <= b <= 0x7E || 0x80 <= b)
  {
  }

  /** Simple mode gives exactly one character per byte, each byte decoded alone. */
  lemma {:induction false} SimpleModeOneCharPerByte(table: map<byte, char>, bs: seq<byte>)
    ensures |DecodeSimpleBytes(table, bs)| == |bs|
    ensures forall i | 0 <= i < |bs| :: DecodeSimpleBytes(table, bs)[i] == DecodeByteWith(table, bs[i])
  {
    if bs != [] {
      SimpleModeOneCharPerByte(table, bs[1..]);
    }
  }

  /** CID decoding of an even-length prefix and the rest are independent. */
  lemma {:induction false} CidDecodeAppend(table: map<byte, char>, cids: map<u16, char>, a: seq<byte>, b: seq<byte>)
    requires |a| % 2 == 0
    ensures DecodeCidBytes(table, cids, a + b) == DecodeCidBytes(table, cids, a) + DecodeCidBytes(table, cids, b)
    decreases |a|
  {
    if a == [] {
      assert a + b == b;
    } else {
      var ab := a + b;
      assert ab[0] == a[0] && ab[1] == a[1] && ab[2..] == a[2..] + b;
      var p := PairText(table, cids, a[0], a[1]);
      assert DecodeCidBytes(table, cids, ab) == p + DecodeCidBytes(table, cids, a[2..] + b);
      CidDecodeAppend(table, cids, a[2..], b);
      assert p + (DecodeCidBytes(table, cids, a[2..]) + DecodeCidBytes(table, cids, b))
        == (p + DecodeCidBytes(table, cids, a[2..])) + DecodeCidBytes(table, cids, b);
    }
  }

  /** A pair gives one or two characters and an odd last byte one: between half and all of the byte count. */
  lemma {:induction false} CidDecodeLength(table: map<byte, char>, cids: map<u16, char>, bs: seq<byte>)
    ensures |bs| <= 2 * |DecodeCidBytes(table, cids, bs)| && |DecodeCidBytes(table, cids, bs)| <= |bs|
    decreases |bs|
  {
    if |bs| >= 2 {
      CidDecodeLength(table, cids, bs[2..]);
    }
  }

  /** With every pair of `bs` mapped, CID decoding is the mapped characters in order. */
  lemma {:induction false} CidDecodeMapped(table: map<byte, char>, cids: map<u16, char>, bs: seq<byte>)
    requires |bs| % 2 == 0
    requires forall k | 0 <= k < |bs| / 2 :: CidOf(bs[2 * k], bs[2 * k + 1]) in cids
    ensures |DecodeCidBytes(table, cids, bs)| == |bs| / 2
    ensures forall k | 0 <= k < |bs| / 2 :: DecodeCidBytes(table, cids, bs)[k] == cids[CidOf(bs[2 * k], bs[2 * k + 1])]
    decreases |bs|
  {
    if bs != [] {
      var rest := bs[2..];
      forall k | 0 <= k < |rest| / 2
        ensures CidOf(rest[2 * k], rest[2 * k + 1]) in cids
      {
        assert rest[2 * k] == bs[2 * (k + 1)] && rest[2 * k + 1] == bs[2 * (k + 1) + 1];
      }
      CidDecodeMapped(table, cids, rest);
      assert CidOf(bs[0], bs[1]) in cids by {
        assert 2 * 0 == 0;
      }
      var r := DecodeCidBytes(table, cids, bs);
      assert r == [cids[CidOf(bs[0], bs[1])]] + DecodeCidBytes(table, cids, rest);
      forall k | 1 <= k < |bs| / 2
        ensures r[k] == cids[CidOf(bs[2 * k], bs[2 * k + 1])]
      {
        assert rest[2 * (k - 1)] == bs[2 * k] && rest[2 * (k - 1) + 1] == bs[2 * k + 1];
      }
    }
  }

  /** The `00 24 00 25` example: two mapped CIDs give "AB". */
  lemma CidDecodeExample()
    ensures DecodeBytesWith(map[], map[0x0024 := 'A', 0x0025 := 'B'], [0x00, 0x24, 0x00, 0x25]) == "AB"
  {
    var cids: map<u16, char> := map[0x0024 := 'A', 0x0025 := 'B'];
    assert cids != map[] by { assert 0x0024 in cids; }
    var bs: seq<byte> := [0x00, 0x24, 0x00, 0x25];
    assert bs[2..] == [0x00, 0x25] && bs[2..][2..] == [];
  }

  /** After `add_cid_mapping(c, u)` the CID `c` decodes to `u` and every other CID as before. */
  lemma AddedCidDecodes(cids: map<u16, char>, c: u16, u: char, other: u16)
    ensures c in cids[c := u] && cids[c := u][c] == u
    ensures other != c ==> (other in cids[c := u] <==> other in cids)
    ensures other != c && other in cids ==> cids[c := u][other] == cids[other]
  {
  }

  /** `from_cid_map` has no byte table and has a CID map exactly when the given one is non-empty. */
  lemma FromCidMapMode(cids: map<u16, char>, bs: seq<byte>)
    ensures cids != map[] ==> DecodeBytesWith(map[], cids, bs) == DecodeCidBytes(map[], cids, bs)
    ensures cids == map[] ==> DecodeBytesWith(map[], cids, bs) == DecodeSimpleBytes(map[], bs)
  {
  }
}
