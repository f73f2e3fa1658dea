/*
 * Shared vocabulary of the PDF text-recovery model: machine integer ranges,
 * Option/Result, the crate's error taxonomy, and the character and string
 * primitives (UTF-8 decoding, Unicode White_Space trimming, decimal parsing)
 * that the Rust standard library supplies to the original program.
 */
module Common {

  type byte = x: int | 0 <= x < 0x100
  type u16 = x: int | 0 <= x < 0x1_0000
  type u32 = x: int | 0 <= x < 0x1_0000_0000
  type i64 = x: int | -0x8000_0000_0000_0000 <= x < 0x8000_0000_0000_0000

  const U64_LIMIT: int := 0x1_0000_0000_0000_0000

  datatype Option<+T> = None | Some(value: T)

  /** Mirror of the crate's error enum (the I/O variant belongs to the excluded CLI). */
  datatype PdfError =
    | MissingHeader
    | MissingEof
    | Parse(position: nat, message: string)
    | InvalidXref
    | ObjectNotFound(objNum: u32, genNum: u16)
    | InvalidStructure(detail: string)
    | UnsupportedFilter(filter: string)
    | DecompressError(detail: string)
    | InvalidUtf8

  datatype Result<+T> = Ok(value: T) | Err(error: PdfError) {
    predicate IsFailure() { Err? }
    function PropagateFailure<U>(): Result<U> requires Err? { Err(error) }
    function Extract(): T requires Ok? { value }
  }

  /** The bytes of an ASCII literal such as "startxref". */
  function Bytes(s: string): (r: seq<byte>)
    requires forall i | 0 <= i < |s| :: s[i] as int < 0x80
    ensures |r| == |s| && forall i | 0 <= i < |s| :: r[i] == s[i] as int
  {
    seq(|s|, i requires 0 <= i < |s| => s[i] as int)
  }

  /** Each byte read as the character with the same code point. */
  function Latin1(bs: seq<byte>): (r: string)
    ensures |r| == |bs| && forall i | 0 <= i < |bs| :: r[i] as int == bs[i]
  {
    seq(|bs|, i requires 0 <= i < |bs| => bs[i] as char)
  }

  predicate IsDigit(c: char) { '0' <= c <= '9' }

  predicate IsHexDigit(c: char) { '0' <= c <= '9' || 'a' <= c <= 'f' || 'A' <= c <= 'F' }

  predicate IsAsciiAlpha(c: char) { 'a' <= c <= 'z' || 'A' <= c <= 'Z' }

  function HexDigitValue(c: char): (v: nat)
    requires IsHexDigit(c)
    ensures v < 16
  {
    if '0' <= c <= '9' then c as int - '0' as int
    else if 'a' <= c <= 'f' then c as int - 'a' as int + 10
    else c as int - 'A' as int + 10
  }

  /** Unicode White_Space, the set Rust's `char::is_whitespace` (and so `trim`) uses. */
  predicate IsWhiteSpace(c: char)
  {
    var n := c as int;
    (9 <= n <= 13) || n == 0x20 || n == 0x85 || n == 0xA0 || n == 0x1680
    || (0x2000 <= n <= 0x200A) || n == 0x2028 || n == 0x2029 || n == 0x202F
    || n == 0x205F || n == 0x3000
  }

  /** `str::trim_end`: the longest prefix that does not end in white space. */
  function TrimEnd(s: string): (r: string)
    ensures |r| <= |s| && r == s[..|r|]
    ensures r == [] || !IsWhiteSpace(r[|r| - 1])
    ensures forall i | |r| <= i < |s| :: IsWhiteSpace(s[i])
  {
    if |s| > 0 && IsWhiteSpace(s[|s| - 1]) then TrimEnd(s[..|s| - 1]) else s
  }

  /** `str::trim_start`. */
  function TrimStart(s: string): (r: string)
    ensures |r| <= |s| && r == s[|s| - |r|..]
    ensures r == [] || !IsWhiteSpace(r[0])
    ensures forall i | 0 <= i < |s| - |r| :: IsWhiteSpace(s[i])
  {
    if |s| > 0 && IsWhiteSpace(s[0]) then TrimStart(s[1..]) else s
  }

  function Trim(s: string): string
  {
    TrimStart(TrimEnd(s))
  }

  /** What `trim` leaves neither starts nor ends with white space. */
  lemma TrimEnds(s: string)
    ensures var t := Trim(s); t != [] ==> !IsWhiteSpace(t[0]) && !IsWhiteSpace(t[|t| - 1])
  {
    var e := TrimEnd(s);
    var t := TrimStart(e);
    if t != [] {
      assert t[|t| - 1] == e[|e| - 1];
    }
  }

  /** A string is blank iff trimming it leaves nothing. */
  lemma {:induction false} TrimEmptyIffBlank(s: string)
    ensures Trim(s) == [] <==> forall i | 0 <= i < |s| :: IsWhiteSpace(s[i])
  {
    var e := TrimEnd(s);
    if Trim(s) == [] {
      forall i | 0 <= i < |s| ensures IsWhiteSpace(s[i]) {
        if i < |e| { assert e[i] == s[i]; }
      }
    } else {
      var t := Trim(s);
      assert !IsWhiteSpace(t[0]);
      assert t[0] == e[|e| - |t|] == s[|e| - |t|];
    }
  }

  /** `str::split_whitespace`: the maximal runs of non-white-space characters. */
  function Words(s: string): (ws: seq<string>)
    decreases |s|
  {
    var t := TrimStart(s);
    if t == [] then []
    else
      var n := WordLength(t, 1);
      assert |t[n..]| < |s|;
      [t[..n]] + Words(t[n..])
  }

  /** The length of the word that starts `t`, given that its first `i` characters belong to it. */
  function WordLength(t: string, i: nat): (n: nat)
    requires 1 <= i <= |t|
    ensures i <= n <= |t|
    ensures forall k | i <= k < n :: !IsWhiteSpace(t[k])
    ensures n == |t| || IsWhiteSpace(t[n])
    decreases |t| - i
  {
    if i < |t| && !IsWhiteSpace(t[i]) then WordLength(t, i + 1) else i
  }

  predicate AllDigits(s: string) { forall i | 0 <= i < |s| :: IsDigit(s[i]) }

  /** The value of a string of decimal digits. */
  function DigitsValue(s: string): (v: nat)
    requires AllDigits(s)
  {
    if s == [] then 0 else DigitsValue(s[..|s| - 1]) * 10 + (s[|s| - 1] as int - '0' as int)
  }

  /**
   * Rust's `FromStr` for an unsigned integer type whose values lie below `limit`:
   * an optional `+`, then one or more decimal digits, and no overflow.
   */
  function ParseUnsigned(s: string, limit: nat): (r: Option<nat>)
    ensures r.Some? ==> r.value < limit
  {
    var digits := if |s| > 0 && s[0] == '+' then s[1..] else s;
    if digits == [] || !AllDigits(digits) then None
    else if DigitsValue(digits) < limit then Some(DigitsValue(digits))
    else None
  }

  /** Rust's `FromStr` for `i64`: an optional sign, one or more digits, in range. */
  function ParseI64(s: string): (r: Option<i64>)
  {
    var negative := |s| > 0 && s[0] == '-';
    var digits := if |s| > 0 && (s[0] == '+' || s[0] == '-') then s[1..] else s;
    if digits == [] || !AllDigits(digits) then None
    else
      var d: int := DigitsValue(digits);
      var v: int := if negative then 0 - d else d;
      if -0x8000_0000_0000_0000 <= v < 0x8000_0000_0000_0000 then Some(v) else None
  }

  /** The shortest decimal spelling of `m`, as `Display` writes it. */
  function NatToDigits(m: nat): (s: string)
    ensures |s| >= 1 && AllDigits(s)
  {
    if m < 10 then [('0' as int + m) as char]
    else NatToDigits(m / 10) + [('0' as int + m % 10) as char]
  }

  /** Reading a decimal spelling back gives the number. */
  lemma {:induction false} DigitsValueOfNatToDigits(m: nat)
    ensures DigitsValue(NatToDigits(m)) == m
  {
    if m >= 10 {
      DigitsValueOfNatToDigits(m / 10);
      var s := NatToDigits(m);
      assert s[..|s| - 1] == NatToDigits(m / 10);
    }
  }

  /** `i64` as `Display` writes it: a minus sign for negatives, then the digits. */
  function I64ToText(n: i64): string
  {
    if n < 0 then "-" + NatToDigits(0 - n as int) else NatToDigits(n)
  }

  /** `str::parse::<i64>` inverts `to_string` on every `i64`. */
  lemma ParseI64OfText(n: i64)
    ensures ParseI64(I64ToText(n)) == Some(n)
  {
    var m: nat := if n < 0 then 0 - n as int else n as int;
    var d := NatToDigits(m);
    DigitsValueOfNatToDigits(m);
    var s := I64ToText(n);
    if n < 0 {
      assert s == "-" + d;
      assert s[0] == '-' && s[1..] == d;
    } else {
      assert s == d && IsDigit(d[0]);
    }
  }

  function Pow10(n: nat): (p: nat)
    ensures p >= 1
  {
    if n == 0 then 1 else 10 * Pow10(n - 1)
  }

  /** The value of the digits after a decimal point: "25" stands for 0.25. */
  function FractionValue(s: string): (v: real)
    requires AllDigits(s)
    ensures 0.0 <= v <= 1.0
  {
    if s == [] then 0.0
    else
      assert AllDigits(s[1..]) by { assert forall i | 0 <= i < |s[1..]| :: s[1..][i] == s[i + 1]; }
      ((s[0] as int - '0' as int) as real + FractionValue(s[1..])) / 10.0
  }

  function IndexOfChar(s: string, c: char): (k: nat)
    ensures k <= |s|
    ensures k < |s| ==> s[k] == c
    ensures forall i | 0 <= i < k :: s[i] != c
  {
    if s == [] then 0 else if s[0] == c then 0 else 1 + IndexOfChar(s[1..], c)
  }

  /**
   * Rust's `FromStr` for `f64`, restricted to the strings the number readers
   * produce (a sign, digits and dots): at most one dot and at least one digit.
   * The value is the exact decimal; IEEE rounding is not modelled.
   */
  function ParseDecimalReal(s: string): (r: Option<real>)
  {
    var negative := |s| > 0 && s[0] == '-';
    var body := if |s| > 0 && (s[0] == '+' || s[0] == '-') then s[1..] else s;
    var k := IndexOfChar(body, '.');
    var whole := body[..k];
    var frac := if k < |body| then body[k + 1..] else [];
    if !AllDigits(whole) || !AllDigits(frac) || whole + frac == [] then None
    else
      var magnitude := DigitsValue(whole) as real + FractionValue(frac);
      Some(if negative then -magnitude else magnitude)
  }

  /** The text of a decimal with a point: an optional minus, the whole digits, `.`, the fraction digits. */
  function DecimalText(negative: bool, whole: string, frac: string): string
  {
    (if negative then "-" else "") + whole + "." + frac
  }

  /** The value `DecimalText` stands for. */
  function DecimalValue(negative: bool, whole: string, frac: string): real
    requires AllDigits(whole) && AllDigits(frac)
  {
    var magnitude := DigitsValue(whole) as real + FractionValue(frac);
    if negative then -magnitude else magnitude
  }

  /** A decimal with a point and at least one digit parses as the whole part plus the fraction. */
  lemma DecimalTextReadsBack(negative: bool, whole: string, frac: string)
    requires AllDigits(whole) && AllDigits(frac) && whole + frac != []
    ensures ParseDecimalReal(DecimalText(negative, whole, frac)) == Some(DecimalValue(negative, whole, frac))
  {
    var s := DecimalText(negative, whole, frac);
    var body := whole + "." + frac;
    if negative {
      assert s == "-" + body && s[1..] == body;
    } else {
      assert s == body;
      assert whole != [] ==> IsDigit(s[0]);
    }
    PointSplits(whole, frac);
  }

  /** In `whole.frac`, the first point is the one after the whole digits. */
  lemma PointSplits(whole: string, frac: string)
    requires AllDigits(whole)
    ensures var body := whole + "." + frac;
      IndexOfChar(body, '.') == |whole| && body[..|whole|] == whole && body[|whole| + 1..] == frac
  {
    var body := whole + "." + frac;
    assert '.' !in whole by { assert forall i | 0 <= i < |whole| :: IsDigit(whole[i]); }
    IndexOfCharAfter(whole, '.', frac);
    assert body[..|whole|] == whole;
    assert body[|whole| + 1..] == frac;
  }

  /** The first `c` in `a + [c] + b` is the one after `a`, when `a` has none. */
  lemma {:induction false} IndexOfCharAfter(a: string, c: char, b: string)
    requires c !in a
    ensures IndexOfChar(a + [c] + b, c) == |a|
  {
    if a != [] {
      assert (a + [c] + b)[1..] == a[1..] + [c] + b;
      IndexOfCharAfter(a[1..], c, b);
    }
  }

  /** Rust's `str::replace` of one character by a string. */
  function ReplaceChar(s: string, from: char, to: string): (r: string)
    ensures from !in s ==> r == s
    ensures |to| >= 1 ==> |r| >= |s|
  {
    if s == [] then [] else (if s[0] == from then to else [s[0]]) + ReplaceChar(s[1..], from, to)
  }

  lemma {:induction false} ReplaceCharConcat(a: string, b: string, from: char, to: string)
    ensures ReplaceChar(a + b, from, to) == ReplaceChar(a, from, to) + ReplaceChar(b, from, to)
  {
    if a != [] {
      var head := if a[0] == from then to else [a[0]];
      var ra := ReplaceChar(a[1..], from, to);
      var rb := ReplaceChar(b, from, to);
      assert (a + b)[0] == a[0];
      assert (a + b)[1..] == a[1..] + b;
      ReplaceCharConcat(a[1..], b, from, to);
      assert ReplaceChar(a + b, from, to) == head + (ra + rb);
      assert ReplaceChar(a, from, to) == head + ra;
      assert head + (ra + rb) == (head + ra) + rb;
    } else {
      assert a + b == b;
    }
  }

  /** `slice.join(sep)`. */
  function Join(parts: seq<string>, sep: string): string
  {
    if parts == [] then [] else if |parts| == 1 then parts[0] else parts[0] + sep + Join(parts[1..], sep)
  }

  /** `s.split(sep)`: the pieces between occurrences of `sep` (always at least one). */
  function Split(s: string, sep: char): (parts: seq<string>)
    ensures parts != []
    ensures forall k | 0 <= k < |parts| :: sep !in parts[k]
    decreases |s|
  {
    var k := IndexOfChar(s, sep);
    if k == |s| then [s] else [s[..k]] + Split(s[k + 1..], sep)
  }

  /** Splitting undoes joining, when no part holds the separator. */
  lemma {:induction false} SplitJoin(parts: seq<string>, sep: char)
    requires parts != []
    requires forall k | 0 <= k < |parts| :: sep !in parts[k]
    ensures Split(Join(parts, [sep]), sep) == parts
    decreases |parts|
  {
    var p := parts[0];
    IndexOfAbsent(p, sep);
    if |parts| == 1 {
    } else {
      var rest := Join(parts[1..], [sep]);
      var s := p + [sep] + rest;
      IndexOfAfter(p, [sep] + rest, sep);
      assert s == p + ([sep] + rest);
      assert s[..|p|] == p;
      assert s[|p| + 1..] == rest;
      SplitJoin(parts[1..], sep);
      assert [p] + parts[1..] == parts;
    }
  }

  lemma IndexOfAbsent(s: string, c: char)
    requires c !in s
    ensures IndexOfChar(s, c) == |s|
  {
  }

  /** The first `c` in `a + b`, when `a` holds none, is the first one of `b`. */
  lemma {:induction false} IndexOfAfter(a: string, b: string, c: char)
    requires c !in a
    ensures IndexOfChar(a + b, c) == |a| + IndexOfChar(b, c)
    decreases |a|
  {
    if a != [] {
      assert (a + b)[1..] == a[1..] + b;
      assert a[0] in a;
      IndexOfAfter(a[1..], b, c);
    } else {
      assert a + b == b;
    }
  }

  /** Joining one more part adds the separator and the part at the end. */
  lemma {:induction false} JoinSnoc(parts: seq<string>, p: string, sep: string)
    ensures Join(parts + [p], sep) == if parts == [] then p else Join(parts, sep) + sep + p
    decreases |parts|
  {
    if |parts| > 1 {
      assert (parts + [p])[1..] == parts[1..] + [p];
      JoinSnoc(parts[1..], p, sep);
    } else if |parts| == 1 {
      assert (parts + [p])[1..] == [p];
    }
  }

  /** A character that is neither in `s` nor in the replacement (nor replaced) is not in the result. */
  lemma {:induction false} ReplaceCharAvoids(s: string, from: char, to: string, c: char)
    requires c !in to && (c in s ==> c == from)
    ensures c !in ReplaceChar(s, from, to)
    decreases |s|
  {
    if s != [] {
      assert s[0] in s;
      forall i | 0 <= i < |s[1..]| ensures s[1..][i] == c ==> c == from {
        assert s[1..][i] == s[i + 1] && s[i + 1] in s;
      }
      ReplaceCharAvoids(s[1..], from, to, c);
    }
  }

  function Repeat(c: char, n: nat): (r: string)
    ensures |r| == n && forall i | 0 <= i < n :: r[i] == c
  {
    if n == 0 then [] else [c] + Repeat(c, n - 1)
  }

  /** Left-aligned width formatting: `s` padded with spaces to `width` characters. */
  function PadRight(s: string, width: nat): (r: string)
    ensures |r| == if |s| >= width then |s| else width
    ensures r[..|s|] == s
    ensures forall i | |s| <= i < |r| :: r[i] == ' '
  {
    if |s| >= width then s else s + Repeat(' ', width - |s|)
  }

  function Max(a: int, b: int): int { if a >= b then a else b }

  /** A prefix grown by the next element is the longer prefix. */
  lemma PrefixSnoc<T>(xs: seq<T>, k: nat)
    requires k < |xs|
    ensures xs[..k] + [xs[k]] == xs[..k + 1]
  {
  }

  /** `iter().filter(keep)`: the elements `keep` accepts, in their order. */
  function Filter<T>(xs: seq<T>, keep: T -> bool): (r: seq<T>)
    ensures |r| <= |xs|
  {
    if xs == [] then [] else (if keep(xs[0]) then [xs[0]] else []) + Filter(xs[1..], keep)
  }

  /** Nothing is kept exactly when nothing is accepted. */
  lemma {:induction false} FilterEmpty<T>(xs: seq<T>, keep: T -> bool)
    ensures Filter(xs, keep) == [] <==> forall i | 0 <= i < |xs| :: !keep(xs[i])
    decreases |xs|
  {
    if xs != [] {
      FilterEmpty(xs[1..], keep);
      if keep(xs[0]) {
        assert Filter(xs, keep)[0] == xs[0];
      } else {
        assert forall i | 1 <= i < |xs| :: xs[i] == xs[1..][i - 1];
      }
    }
  }

  /** Every element kept is one of the input's, and is accepted. */
  lemma {:induction false} FilterOnly<T>(xs: seq<T>, keep: T -> bool, k: nat)
    requires k < |Filter(xs, keep)|
    ensures Filter(xs, keep)[k] in xs && keep(Filter(xs, keep)[k])
    decreases |xs|
  {
    var head := if keep(xs[0]) then [xs[0]] else [];
    var rest := Filter(xs[1..], keep);
    assert Filter(xs, keep) == head + rest;
    if k >= |head| {
      FilterOnly(xs[1..], keep, k - |head|);
      assert Filter(xs, keep)[k] == rest[k - |head|];
    }
  }

  /** Every element accepted is kept. */
  lemma {:induction false} FilterKeeps<T>(xs: seq<T>, keep: T -> bool, k: nat)
    requires k < |xs| && keep(xs[k])
    ensures xs[k] in Filter(xs, keep)
    decreases k
  {
    var head := if keep(xs[0]) then [xs[0]] else [];
    assert Filter(xs, keep) == head + Filter(xs[1..], keep);
    if k > 0 {
      FilterKeeps(xs[1..], keep, k - 1);
    }
  }

  // ---------------------------------------------------------------------------
  // Text built by appending, as the renderers' `out` strings are

  /** The parts from index `i` on, laid end to end. */
  function ConcatFrom(parts: seq<string>, i: nat): string
    decreases |parts| - i
  {
    if i >= |parts| then [] else parts[i] + ConcatFrom(parts, i + 1)
  }

  /** Appending part `i` to a text moves it out of the parts still to come. */
  lemma ConcatStep(prefix: string, parts: seq<string>, i: nat)
    requires i < |parts|
    ensures prefix + ConcatFrom(parts, i) == (prefix + parts[i]) + ConcatFrom(parts, i + 1)
  {
    assert ConcatFrom(parts, i) == parts[i] + ConcatFrom(parts, i + 1);
  }

  /** A character found in no part is not in their concatenation. */
  lemma {:induction false} ConcatAvoids(parts: seq<string>, c: char, i: nat)
    requires forall k | 0 <= k < |parts| :: c !in parts[k]
    ensures c !in ConcatFrom(parts, i)
    decreases |parts| - i
  {
    if i < |parts| {
      ConcatAvoids(parts, c, i + 1);
    }
  }

  lemma CharOfConcat(a: string, b: string, j: nat)
    requires j < |a| + |b|
    ensures (a + b)[j] == if j < |a| then a[j] else b[j - |a|]
  {
  }

  /** Each part followed by `end`. */
  function Terminated(parts: seq<string>, end: string): string
  {
    if parts == [] then [] else Terminated(parts[..|parts| - 1], end) + parts[|parts| - 1] + end
  }

  /** One more part terminated. */
  lemma TerminatedPrefix(parts: seq<string>, end: string, k: nat)
    requires k < |parts|
    ensures Terminated(parts[..k + 1], end) == Terminated(parts[..k], end) + parts[k] + end
  {
    assert parts[..k + 1][..k] == parts[..k];
  }

  /** The first two parts terminated. */
  lemma TerminatedTwo(parts: seq<string>, end: string)
    requires |parts| >= 2
    ensures Terminated(parts[..2], end) == parts[0] + end + parts[1] + end
  {
    TerminatedPrefix(parts, end, 1);
    TerminatedPrefix(parts, end, 0);
    assert parts[..0] == [];
  }

  /** A join ends where its last part does. */
  lemma JoinLast(parts: seq<string>, sep: string)
    requires parts != [] && parts[|parts| - 1] != []
    ensures var j := Join(parts, sep); var last := parts[|parts| - 1];
      j != [] && j[|j| - 1] == last[|last| - 1]
  {
    var n := |parts|;
    var init, last := parts[..n - 1], parts[n - 1];
    JoinSnoc(init, last, sep);
    assert init + [last] == parts;
    var head := if init == [] then [] else Join(init, sep) + sep;
    assert Join(parts, sep) == head + last;
    LastOfConcat(head, last);
  }

  lemma LastOfConcat(a: string, b: string)
    requires b != []
    ensures (a + b)[|a + b| - 1] == b[|b| - 1]
  {
  }

  /** Terminating every part is joining them and terminating the last one. */
  lemma {:induction false} TerminatedJoin(parts: seq<string>, end: string)
    requires parts != []
    ensures Terminated(parts, end) == Join(parts, end) + end
    decreases |parts|
  {
    var n := |parts|;
    if n > 1 {
      TerminatedJoin(parts[..n - 1], end);
      JoinSnoc(parts[..n - 1], parts[n - 1], end);
      assert parts[..n - 1] + [parts[n - 1]] == parts;
    } else {
      assert parts[..0] == [];
    }
  }

  predicate AllWhiteSpace(s: string) { forall i | 0 <= i < |s| :: IsWhiteSpace(s[i]) }

  lemma WhiteSpaceConcat(a: string, b: string)
    ensures AllWhiteSpace(a + b) <==> AllWhiteSpace(a) && AllWhiteSpace(b)
  {
    var ab := a + b;
    if AllWhiteSpace(ab) {
      forall i | 0 <= i < |a| ensures IsWhiteSpace(a[i]) {
        assert ab[i] == a[i];
      }
      forall i | 0 <= i < |b| ensures IsWhiteSpace(b[i]) {
        assert ab[|a| + i] == b[i];
      }
    }
    if AllWhiteSpace(a) && AllWhiteSpace(b) {
      forall i | 0 <= i < |ab| ensures IsWhiteSpace(ab[i]) {
        if i < |a| {
          assert ab[i] == a[i];
        } else {
          assert ab[i] == b[i - |a|];
        }
      }
    }
  }

  /** Terminated parts are blank iff every part is, when the terminator is white space. */
  lemma {:induction false} TerminatedBlank(parts: seq<string>, end: string)
    requires AllWhiteSpace(end)
    ensures AllWhiteSpace(Terminated(parts, end)) <==> forall k | 0 <= k < |parts| :: AllWhiteSpace(parts[k])
    decreases |parts|
  {
    var n := |parts|;
    if n > 0 {
      var init := parts[..n - 1];
      TerminatedBlank(init, end);
      WhiteSpaceConcat(Terminated(init, end), parts[n - 1]);
      WhiteSpaceConcat(Terminated(init, end) + parts[n - 1], end);
      assert forall k | 0 <= k < n - 1 :: init[k] == parts[k];
    }
  }

  /** Finishing terminated parts leaves nothing exactly when every part is blank. */
  lemma FinishTerminatedBlank(parts: seq<string>, end: string)
    requires AllWhiteSpace(end)
    ensures FinishText(Terminated(parts, end)) == [] <==> forall k | 0 <= k < |parts| :: AllWhiteSpace(parts[k])
  {
    TerminatedBlank(parts, end);
  }

  /**
   * `trim_end`, then a single line feed unless nothing is left: the last step
   * of both renderers. The result is empty exactly when the text is blank;
   * otherwise it is the text up to its last character that is not white
   * space, followed by exactly one line feed.
   */
  function FinishText(s: string): (r: string)
    ensures r == [] <==> AllWhiteSpace(s)
    ensures r != [] ==>
      && 2 <= |r| <= |s| + 1 && r[|r| - 1] == '\n' && !IsWhiteSpace(r[|r| - 2])
      && r[..|r| - 1] == s[..|r| - 1] && (forall i | |r| - 1 <= i < |s| :: IsWhiteSpace(s[i]))
  {
    var t := TrimEnd(s);
    if t == [] then t else t + "\n"
  }

  /** `str::trim_end_matches` of one character: every trailing copy of `c` removed. */
  function TrimEndMatches(s: string, c: char): (r: string)
    ensures |r| <= |s| && r == s[..|r|]
    ensures r == [] || r[|r| - 1] != c
    ensures forall i | |r| <= i < |s| :: s[i] == c
  {
    if |s| > 0 && s[|s| - 1] == c then TrimEndMatches(s[..|s| - 1], c) else s
  }

  /** Trimming copies of `c` from a text that ends in another character followed by one `c` removes that one. */
  lemma TrimEndMatchesLast(s: string, c: char)
    requires s != [] && s[|s| - 1] != c
    ensures TrimEndMatches(s + [c], c) == s
  {
    assert (s + [c])[..|s|] == s;
  }

  /**
   * Lines without line feeds, the last not ending in `c`, each ended by a line
   * feed, then trimmed of trailing `c`s, split back into those lines.
   */
  lemma SplitTerminatedLines(lines: seq<string>)
    requires lines != [] && forall k | 0 <= k < |lines| :: '\n' !in lines[k]
    requires lines[|lines| - 1] != [] && lines[|lines| - 1][|lines[|lines| - 1]| - 1] != '\n'
    ensures Split(TrimEndMatches(Terminated(lines, "\n"), '\n'), '\n') == lines
  {
    var j := Join(lines, "\n");
    TerminatedJoin(lines, "\n");
    JoinLast(lines, "\n");
    TrimEndMatchesLast(j, '\n');
    SplitJoin(lines, '\n');
  }

  /** Trimming the end keeps any prefix whose last character is not white space. */
  lemma TrimEndKeeps(s: string, p: string)
    requires |p| <= |s| && s[..|p|] == p && p != [] && !IsWhiteSpace(p[|p| - 1])
    ensures |p| <= |TrimEnd(s)| && TrimEnd(s)[..|p|] == p
  {
    assert s[|p| - 1] == p[|p| - 1];
  }

  /**
   * When the last part ends in a character that is not white space, finishing
   * parts that each end in a blank line gives the parts separated by blank
   * lines and one final line feed.
   */
  lemma FinishJoined(parts: seq<string>)
    requires parts != [] && parts[|parts| - 1] != []
    requires !IsWhiteSpace(parts[|parts| - 1][|parts[|parts| - 1]| - 1])
    ensures FinishText(Terminated(parts, "\n\n")) == Join(parts, "\n\n") + "\n"
  {
    var j := Join(parts, "\n\n");
    var s := Terminated(parts, "\n\n");
    TerminatedJoin(parts, "\n\n");
    JoinLast(parts, "\n\n");
    assert AllWhiteSpace("\n\n");
    TrimBlankTail(j, "\n\n");
    assert TrimEnd(s) == j;
    assert FinishText(s) == j + "\n";
  }

  /** Trimming a text that ends in a non-white-space character followed by white space removes exactly the white space. */
  lemma TrimBlankTail(j: string, tail: string)
    requires j != [] && !IsWhiteSpace(j[|j| - 1]) && AllWhiteSpace(tail)
    ensures TrimEnd(j + tail) == j
  {
    var s := j + tail;
    assert s[..|j|] == j;
    TrimEndKeeps(s, j);
    assert forall i | |j| <= i < |s| :: s[i] == tail[i - |j|];
  }


  // ---------------------------------------------------------------------------
  // UTF-8 (the well-formed byte sequences of RFC 3629, section 4), used where
  // the program calls `String::from_utf8`.

  predicate IsCont(b: byte) { 0x80 <= b <= 0xBF }

  /** The scalar value and length of the well-formed UTF-8 sequence at the head of `bs`. */
  function Utf8Head(bs: seq<byte>): (r: Option<(char, nat)>)
    requires |bs| > 0
    ensures r.Some? ==> 1 <= r.value.1 <= |bs| && r.value.1 <= 4
  {
    var b0: int := bs[0];
    var b1: int := if |bs| >= 2 then bs[1] else 0;
    var b2: int := if |bs| >= 3 then bs[2] else 0;
    var b3: int := if |bs| >= 4 then bs[3] else 0;
    if b0 < 0x80 then Some((b0 as char, 1))
    else if 0xC2 <= b0 <= 0xDF && |bs| >= 2 && IsCont(bs[1]) then
      Some((((b0 - 0xC0) * 64 + (b1 - 0x80)) as char, 2))
    else if 0xE0 <= b0 <= 0xEF && |bs| >= 3 && IsCont(bs[1]) && IsCont(bs[2])
      && (b0 != 0xE0 || bs[1] >= 0xA0) && (b0 != 0xED || bs[1] <= 0x9F) then
      var cp := (b0 - 0xE0) * 4096 + (b1 - 0x80) * 64 + (b2 - 0x80);
      assert cp < 0xD800 || 0xE000 <= cp < 0x10000;
      Some((cp as char, 3))
    else if 0xF0 <= b0 <= 0xF4 && |bs| >= 4 && IsCont(bs[1]) && IsCont(bs[2]) && IsCont(bs[3])
      && (b0 != 0xF0 || bs[1] >= 0x90) && (b0 != 0xF4 || bs[1] <= 0x8F) then
      var cp := (b0 - 0xF0) * 262144 + (b1 - 0x80) * 4096 + (b2 - 0x80) * 64 + (b3 - 0x80);
      assert 0x10000 <= cp < 0x110000;
      Some((cp as char, 4))
    else None
  }

  /** `String::from_utf8`: `None` exactly when the bytes are not well-formed UTF-8. */
  function Utf8Decode(bs: seq<byte>): Option<string>
    decreases |bs|
  {
    if bs == [] then Some([])
    else match Utf8Head(bs)
      case None => None
      case Some((c, n)) =>
        match Utf8Decode(bs[n..])
        case None => None
        case Some(rest) => Some([c] + rest)
  }

  /** ASCII bytes always decode, one character per byte. */
  lemma {:induction false} Utf8DecodeAscii(bs: seq<byte>)
    requires forall i | 0 <= i < |bs| :: bs[i] < 0x80
    ensures Utf8Decode(bs) == Some(Latin1(bs))
    decreases |bs|
  {
    if bs != [] {
      Utf8DecodeAscii(bs[1..]);
      assert Latin1(bs) == [bs[0] as char] + Latin1(bs[1..]);
    }
  }
  /**
   * `String::from_utf8_lossy`, approximated: a byte that starts no valid
   * sequence becomes one U+FFFD.
   */
  function Utf8Lossy(bs: seq<byte>): (s: string)
    ensures |s| <= |bs|
    decreases |bs|
  {
    if bs == [] then []
    else match Utf8Head(bs)
      case None => ['\U{FFFD}'] + Utf8Lossy(bs[1..])
      case Some((c, n)) => [c] + Utf8Lossy(bs[n..])
  }

  /** Well-formed input decodes to the same text, lossy or not. */
  lemma {:induction false} Utf8LossyAgrees(bs: seq<byte>)
    requires Utf8Decode(bs).Some?
    ensures Utf8Lossy(bs) == Utf8Decode(bs).value
    decreases |bs|
  {
    if bs != [] {
      var (c, n) := Utf8Head(bs).value;
      Utf8LossyAgrees(bs[n..]);
    }
  }
}
