/*
 * The PDF tokenizer. `Lexer` walks a byte buffer with a cursor, as the
 * original does; every method is proved equal to a function of the buffer
 * and the starting cursor (the `...F` functions below), and the lexical
 * properties (round trips, progress, end of input) are proved about those
 * functions.
 */
module Lexing {
  import opened Common

  datatype Token =
    | NullKw
    | TrueKw
    | FalseKw
    | IntTok(n: i64)
    | RealTok(x: real)
    | StrTok(bytes: seq<byte>)
    | HexStrTok(bytes: seq<byte>)
    | NameTok(name: string)
    | ArrayStart
    | ArrayEnd
    | DictStart
    | DictEnd
    | ObjKw
    | EndObjKw
    | StreamKw
    | EndStreamKw
    | RefKw
    | TrailerKw
    | StartXRefKw
    | XRefKw

  /** A value read from the buffer together with the cursor just past it. */
  datatype Lexed<+T> = Lexed(value: T, next: nat)

  const NUL: byte := 0x00
  const TAB: byte := 0x09
  const LF: byte := 0x0A
  const FF: byte := 0x0C
  const CR: byte := 0x0D
  const SPACE: byte := 0x20
  const HASH: byte := 0x23
  const PERCENT: byte := 0x25
  const LPAREN: byte := 0x28
  const RPAREN: byte := 0x29
  const PLUS: byte := 0x2B
  const MINUS: byte := 0x2D
  const DOT: byte := 0x2E
  const SLASH: byte := 0x2F
  const LT: byte := 0x3C
  const GT: byte := 0x3E
  const LBRACKET: byte := 0x5B
  const BACKSLASH: byte := 0x5C
  const RBRACKET: byte := 0x5D
  const LBRACE: byte := 0x7B
  const RBRACE: byte := 0x7D

  /** The white-space bytes of PDF (ISO 32000-1, section 7.2.2). */
  predicate IsPdfWhiteSpace(b: byte)
  {
    b == SPACE || b == TAB || b == LF || b == CR || b == FF || b == NUL
  }

  predicate IsDigitByte(b: byte) { 0x30 <= b <= 0x39 }
  predicate IsOctalByte(b: byte) { 0x30 <= b <= 0x37 }
  predicate IsLetterByte(b: byte) { 0x41 <= b <= 0x5A || 0x61 <= b <= 0x7A }
  predicate IsHexByte(b: byte) { IsDigitByte(b) || 0x41 <= b <= 0x46 || 0x61 <= b <= 0x66 }

  /** Bytes that end a name: white space and the delimiters. */
  predicate IsNameDelimiter(b: byte)
  {
    IsPdfWhiteSpace(b) || b == LPAREN || b == RPAREN || b == LT || b == GT || b == LBRACKET
    || b == RBRACKET || b == LBRACE || b == RBRACE || b == SLASH || b == PERCENT
  }

  /** The value of a hexadecimal digit; any other byte counts as zero. */
  function HexValue(b: byte): (v: nat)
    ensures v < 16
    ensures IsHexByte(b) ==> v == HexDigitValue(b as char)
  {
    if IsDigitByte(b) then b - 0x30
    else if 0x61 <= b <= 0x66 then b - 0x61 + 10
    else if 0x41 <= b <= 0x46 then b - 0x41 + 10
    else 0
  }

  /** The upper-case hexadecimal digit of `d`. */
  function HexDigitByte(d: nat): (b: byte)
    requires d < 16
    ensures IsHexByte(b) && HexValue(b) == d
  {
    if d < 10 then 0x30 + d else 0x41 + d - 10
  }

  /** `{:02X}`: two upper-case hexadecimal digits. */
  function HexText(b: byte): string
  {
    Latin1([HexDigitByte(b / 16), HexDigitByte(b % 16)])
  }

  function UnexpectedEof(p: nat): PdfError
  {
    Parse(p, "Unexpected end of file")
  }

  // ---------------------------------------------------------------------------
  // White space and comments

  /** The cursor just past the comment body that starts at `p`: after its first end-of-line byte. */
  function CommentEnd(data: seq<byte>, p: nat): (q: nat)
    ensures p <= q
    ensures p <= |data| ==> q <= |data|
    ensures forall i | p <= i < q - 1 && i < |data| :: data[i] != LF && data[i] != CR
    ensures q < |data| ==> q > p && (data[q - 1] == LF || data[q - 1] == CR)
    decreases |data| - p
  {
    if p >= |data| then p
    else if data[p] == LF || data[p] == CR then p + 1
    else CommentEnd(data, p + 1)
  }

  /** `skip_whitespace`: the first byte at or after `p` that is neither white space nor inside a comment. */
  function SkipWs(data: seq<byte>, p: nat): (q: nat)
    ensures p <= q
    ensures p <= |data| ==> q <= |data|
    ensures q < |data| ==> !IsPdfWhiteSpace(data[q]) && data[q] != PERCENT
    ensures p < |data| && !IsPdfWhiteSpace(data[p]) && data[p] != PERCENT ==> q == p
    decreases |data| - p
  {
    if p >= |data| then p
    else if IsPdfWhiteSpace(data[p]) then SkipWs(data, p + 1)
    else if data[p] == PERCENT then SkipWs(data, CommentEnd(data, p + 1))
    else p
  }

  // ---------------------------------------------------------------------------
  // Numbers

  /** The end of the digits-and-one-dot run at `p`, and whether a dot was taken. */
  function NumberEnd(data: seq<byte>, p: nat, seenDot: bool): (r: (nat, bool))
    ensures p <= r.0
    ensures p <= |data| ==> r.0 <= |data|
    ensures seenDot ==> r.1
    ensures forall i | p <= i < r.0 && i < |data| :: IsDigitByte(data[i]) || data[i] == DOT
    ensures r.0 < |data| ==> !IsDigitByte(data[r.0]) && (data[r.0] != DOT || r.1)
    decreases |data| - p
  {
    if p < |data| && IsDigitByte(data[p]) then NumberEnd(data, p + 1, seenDot)
    else if p < |data| && data[p] == DOT && !seenDot then NumberEnd(data, p + 1, true)
    else (p, seenDot)
  }

  /** The token a number's text stands for: a real when it has a dot, else an `i64`. */
  function NumberToken(text: string, hasDecimal: bool, start: nat): (r: Result<Token>)
    ensures r.Ok? ==> text != [] && (if hasDecimal then r.value.RealTok? else r.value.IntTok?)
  {
    if hasDecimal then
      match ParseDecimalReal(text)
      case None => Err(Parse(start, "Invalid real number: " + text))
      case Some(x) => Ok(RealTok(x))
    else
      match ParseI64(text)
      case None => Err(Parse(start, "Invalid integer: " + text))
      case Some(n) => Ok(IntTok(n))
  }

  /** `read_number`: a sign, digits and at most one dot; a real when there is a dot, else an `i64`. */
  function NumberF(data: seq<byte>, start: nat): (r: Result<Lexed<Token>>)
    requires start < |data|
    ensures r.Ok? ==> start < r.value.next <= |data| && (r.value.value.IntTok? || r.value.value.RealTok?)
  {
    var p := if data[start] == PLUS || data[start] == MINUS then start + 1 else start;
    var (end, hasDecimal) := NumberEnd(data, p, false);
    var t :- NumberToken(Latin1(data[start..end]), hasDecimal, start);
    Ok(Lexed(t, end))
  }

  // ---------------------------------------------------------------------------
  // Keywords

  function LettersEnd(data: seq<byte>, p: nat): (q: nat)
    ensures p <= q
    ensures p <= |data| ==> q <= |data|
    ensures forall i | p <= i < q && i < |data| :: IsLetterByte(data[i])
    ensures q < |data| ==> !IsLetterByte(data[q])
    decreases |data| - p
  {
    if p < |data| && IsLetterByte(data[p]) then LettersEnd(data, p + 1) else p
  }

  /** The eleven keywords the tokenizer knows. */
  function KeywordToken(w: string): (t: Option<Token>)
    ensures t.Some? ==> KeywordText(t.value) == w
  {
    if w == "null" then Some(NullKw)
    else if w == "true" then Some(TrueKw)
    else if w == "false" then Some(FalseKw)
    else if w == "obj" then Some(ObjKw)
    else if w == "endobj" then Some(EndObjKw)
    else if w == "stream" then Some(StreamKw)
    else if w == "endstream" then Some(EndStreamKw)
    else if w == "R" then Some(RefKw)
    else if w == "xref" then Some(XRefKw)
    else if w == "trailer" then Some(TrailerKw)
    else if w == "startxref" then Some(StartXRefKw)
    else None
  }

  /** How a keyword token is spelled in a file; other tokens have no keyword spelling. */
  function KeywordText(t: Token): string
  {
    match t
    case NullKw => "null"
    case TrueKw => "true"
    case FalseKw => "false"
    case ObjKw => "obj"
    case EndObjKw => "endobj"
    case StreamKw => "stream"
    case EndStreamKw => "endstream"
    case RefKw => "R"
    case XRefKw => "xref"
    case TrailerKw => "trailer"
    case StartXRefKw => "startxref"
    case _ => ""
  }

  /** `read_keyword`: the run of letters at `start` must be one of the keywords. */
  function KeywordF(data: seq<byte>, start: nat): (r: Result<Lexed<Token>>)
    requires start < |data| && IsLetterByte(data[start])
    ensures r.Ok? ==> start < r.value.next <= |data|
  {
    var end := LettersEnd(data, start);
    var word := Latin1(data[start..end]);
    match KeywordToken(word)
    case None => Err(Parse(start, "Unknown keyword: " + word))
    case Some(t) => Ok(Lexed(t, end))
  }

  // ---------------------------------------------------------------------------
  // Literal strings

  /** The byte an escape `\e` stands for, for every `e` that is not an octal digit or an end of line. */
  function EscapedByte(e: byte): byte
  {
    if e == 0x6E then LF
    else if e == 0x72 then CR
    else if e == 0x74 then TAB
    else if e == 0x62 then 0x08
    else if e == 0x66 then FF
    else e
  }

  /** Up to `k` further octal digits at `p` folded into `v`, and the cursor after them. */
  function OctalF(data: seq<byte>, p: nat, v: nat, k: nat): (r: (nat, nat))
    ensures p <= r.1 <= p + k
    ensures p <= |data| ==> r.1 <= |data|
    decreases k
  {
    if k > 0 && p < |data| && IsOctalByte(data[p]) then OctalF(data, p + 1, v * 8 + (data[p] - 0x30), k - 1)
    else (v, p)
  }

  /**
   * `read_literal_string` from `p`, inside `depth` open parentheses, having
   * collected `acc`: nested parentheses are kept, escapes are decoded, and
   * an octal escape keeps the low eight bits of its value.
   */
  function LiteralF(data: seq<byte>, p: nat, depth: nat, acc: seq<byte>): (r: Result<Lexed<seq<byte>>>)
    ensures r.Ok? ==> p <= r.value.next && (p <= |data| ==> r.value.next <= |data|)
    ensures r.Ok? && depth > 0 ==> p < r.value.next
    decreases |data| - p
  {
    if depth == 0 then Ok(Lexed(acc, p))
    else if p >= |data| then Err(UnexpectedEof(p))
    else
      var b := data[p];
      if b == LPAREN then LiteralF(data, p + 1, depth + 1, acc + [b])
      else if b == RPAREN then LiteralF(data, p + 1, depth - 1, if depth > 1 then acc + [b] else acc)
      else if b == BACKSLASH then
        if p + 1 >= |data| then Err(UnexpectedEof(p + 1))
        else
          var (q, acc') := EscapeF(data, p + 1, acc);
          LiteralF(data, q, depth, acc')
      else LiteralF(data, p + 1, depth, acc + [b])
  }

  /**
   * The escape whose letter is at `p` (the backslash just before it): where
   * reading resumes and what has been collected then. An octal escape keeps
   * the low eight bits of its value; a backslash before a line end continues
   * the line.
   */
  function EscapeF(data: seq<byte>, p: nat, acc: seq<byte>): (r: (nat, seq<byte>))
    requires p < |data|
    ensures p < r.0 <= |data|
  {
    var e := data[p];
    if IsOctalByte(e) then
      var (v, q) := OctalF(data, p + 1, e - 0x30, 2);
      (q, acc + [v % 256])
    else if e == CR then
      (if p + 1 < |data| && data[p + 1] == LF then p + 2 else p + 1, acc)
    else if e == LF then (p + 1, acc)
    else (p + 1, acc + [EscapedByte(e)])
  }

  // ---------------------------------------------------------------------------
  // Hexadecimal strings

  predicate IsHexStringSpace(b: byte) { b == SPACE || b == TAB || b == LF || b == CR }

  /** The hexadecimal digits up to the closing `>`, skipping spaces, tabs and line ends. */
  function HexDigitsF(data: seq<byte>, p: nat, acc: seq<byte>): (r: Result<Lexed<seq<byte>>>)
    ensures r.Ok? ==> p < r.value.next <= |data|
    decreases |data| - p
  {
    if p >= |data| then Err(UnexpectedEof(p))
    else
      var b := data[p];
      if IsHexStringSpace(b) then HexDigitsF(data, p + 1, acc)
      else if b == GT then Ok(Lexed(acc, p + 1))
      else if IsHexByte(b) then HexDigitsF(data, p + 1, acc + [b])
      else Err(Parse(p, "Invalid hex char: 0x" + HexText(b)))
  }

  /**
   * The bytes a run of hexadecimal digits spells, two digits per byte, high
   * digit first; an odd run is first padded with a `0` digit.
   */
  function HexDecodeDigits(d: seq<byte>): seq<byte>
  {
    if d == [] then []
    else if |d| == 1 then [HexValue(d[0]) * 16 + HexValue(0x30)]
    else [HexValue(d[0]) * 16 + HexValue(d[1])] + HexDecodeDigits(d[2..])
  }

  /** `read_hex_string`, the opening `<` already consumed. */
  function HexStringF(data: seq<byte>, p: nat): (r: Result<Lexed<seq<byte>>>)
    ensures r.Ok? ==> p < r.value.next <= |data|
  {
    var lx :- HexDigitsF(data, p, []);
    Ok(Lexed(HexDecodeDigits(lx.value), lx.next))
  }

  // ---------------------------------------------------------------------------
  // Names

  /** The bytes of a name up to a delimiter or the end, `#xy` standing for the byte 0xXY. */
  function NameBytesF(data: seq<byte>, p: nat, acc: seq<byte>): (r: Result<Lexed<seq<byte>>>)
    ensures r.Ok? ==> p <= r.value.next && (p <= |data| ==> r.value.next <= |data|)
    decreases |data| - p
  {
    if p >= |data| || IsNameDelimiter(data[p]) then Ok(Lexed(acc, p))
    else if data[p] == HASH then
      if p + 1 >= |data| then Err(UnexpectedEof(p + 1))
      else if p + 2 >= |data| then Err(UnexpectedEof(p + 2))
      else NameBytesF(data, p + 3, acc + [HexValue(data[p + 1]) * 16 + HexValue(data[p + 2])])
    else NameBytesF(data, p + 1, acc + [data[p]])
  }

  /** `read_name`, the `/` already consumed: the name bytes must be UTF-8. */
  function NameF(data: seq<byte>, p: nat): (r: Result<Lexed<string>>)
    ensures r.Ok? ==> p <= r.value.next && (p <= |data| ==> r.value.next <= |data|)
  {
    var lx :- NameBytesF(data, p, []);
    match Utf8Decode(lx.value)
    case None => Err(InvalidUtf8)
    case Some(s) => Ok(Lexed(s, lx.next))
  }

  // ---------------------------------------------------------------------------
  // Tokens

  /** The token that starts at `q`, chosen by its first byte. */
  function TokenAt(data: seq<byte>, q: nat): (r: Result<Lexed<Token>>)
    requires q < |data|
    ensures r.Ok? ==> q < r.value.next <= |data|
  {
    var b := data[q];
    if b == LBRACKET then Ok(Lexed(ArrayStart, q + 1))
    else if b == RBRACKET then Ok(Lexed(ArrayEnd, q + 1))
    else if b == LT then
      if q + 1 < |data| && data[q + 1] == LT then Ok(Lexed(DictStart, q + 2))
      else
        var lx :- HexStringF(data, q + 1);
        Ok(Lexed(HexStrTok(lx.value), lx.next))
    else if b == GT then
      if q + 1 < |data| && data[q + 1] == GT then Ok(Lexed(DictEnd, q + 2))
      else Err(Parse(q + 1, "Unexpected '>'"))
    else if b == LPAREN then
      var lx :- LiteralF(data, q + 1, 1, []);
      Ok(Lexed(StrTok(lx.value), lx.next))
    else if b == SLASH then
      var lx :- NameF(data, q + 1);
      Ok(Lexed(NameTok(lx.value), lx.next))
    else if b == PLUS || b == MINUS || b == DOT || IsDigitByte(b) then NumberF(data, q)
    else if IsLetterByte(b) then KeywordF(data, q)
    else Err(Parse(q, "Unexpected byte: 0x" + HexText(b)))
  }

  /**
   * `next_token`: skip white space and comments, then read one token; `None`
   * at the end of the buffer.
   */
  function NextTokenF(data: seq<byte>, p: nat): (r: Result<Lexed<Option<Token>>>)
    ensures r.Ok? && r.value.value.None? <==> SkipWs(data, p) >= |data|
    ensures r.Ok? && r.value.value.None? ==> r.value.next == SkipWs(data, p)
    ensures r.Ok? && r.value.value.Some? ==> SkipWs(data, p) < r.value.next <= |data|
  {
    var q := SkipWs(data, p);
    if q >= |data| then Ok(Lexed(None, q))
    else
      var lx :- TokenAt(data, q);
      Ok(Lexed(Some(lx.value), lx.next))
  }

  /** A method's result and final cursor agree with a function's outcome (the cursor is left unspecified on an error). */
  predicate Agrees<T(==)>(r: Result<T>, spec: Result<Lexed<T>>, pos: nat)
  {
    match spec
    case Ok(lx) => r == Ok(lx.value) && pos == lx.next
    case Err(e) => r == Err(e)
  }

  // ---------------------------------------------------------------------------
  // The tokenizer

  class Lexer {
    const data: seq<byte>
    var pos: nat

    constructor(data: seq<byte>)
      ensures this.data == data && pos == 0
    {
      this.data := data;
      pos := 0;
    }

    method Seek(p: nat)
      modifies this
      ensures pos == p
    {
      pos := p;
    }

    /** `skip_whitespace`. */
    method SkipWhitespace()
      modifies this
      ensures pos == SkipWs(data, old(pos))
    {
      while pos < |data|
        invariant SkipWs(data, pos) == SkipWs(data, old(pos))
        decreases |data| - pos
      {
        var b := data[pos];
        if IsPdfWhiteSpace(b) {
          pos := pos + 1;
        } else if b == PERCENT {
          pos := pos + 1;
          SkipComment();
        } else {
          break;
        }
      }
    }

    /** The rest of a comment, through the first line end. */
    method SkipComment()
      requires pos <= |data|
      modifies this
      ensures pos == CommentEnd(data, old(pos))
    {
      while pos < |data|
        invariant old(pos) <= pos <= |data|
        invariant CommentEnd(data, pos) == CommentEnd(data, old(pos))
        decreases |data| - pos
      {
        var c := data[pos];
        pos := pos + 1;
        if c == LF || c == CR {
          break;
        }
      }
    }

    /** `next_token`. */
    method NextToken() returns (r: Result<Option<Token>>)
      modifies this
      ensures Agrees(r, NextTokenF(data, old(pos)), pos)
    {
      SkipWhitespace();
      if pos >= |data| {
        return Ok(None);
      }
      var t := ReadToken();
      r := if t.Ok? then Ok(Some(t.value)) else Err(t.error);
    }

    /** The dispatch of `next_token` on the first byte of a token. */
    method ReadToken() returns (r: Result<Token>)
      requires pos < |data|
      modifies this
      ensures Agrees(r, TokenAt(data, old(pos)), pos)
    {
      var b := data[pos];
      if b == LBRACKET {
        pos := pos + 1;
        r := Ok(ArrayStart);
      } else if b == RBRACKET {
        pos := pos + 1;
        r := Ok(ArrayEnd);
      } else if b == LT {
        pos := pos + 1;
        if pos < |data| && data[pos] == LT {
          pos := pos + 1;
          r := Ok(DictStart);
        } else {
          var s := ReadHexString();
          r := if s.Ok? then Ok(HexStrTok(s.value)) else Err(s.error);
        }
      } else if b == GT {
        pos := pos + 1;
        if pos < |data| && data[pos] == GT {
          pos := pos + 1;
          r := Ok(DictEnd);
        } else {
          r := Err(Parse(pos, "Unexpected '>'"));
        }
      } else if b == LPAREN {
        var s := ReadLiteralString();
        r := if s.Ok? then Ok(StrTok(s.value)) else Err(s.error);
      } else if b == SLASH {
        var n := ReadName();
        r := if n.Ok? then Ok(NameTok(n.value)) else Err(n.error);
      } else if b == PLUS || b == MINUS || b == DOT || IsDigitByte(b) {
        r := ReadNumber();
      } else if IsLetterByte(b) {
        r := ReadKeyword();
      } else {
        r := Err(Parse(pos, "Unexpected byte: 0x" + HexText(b)));
      }
    }

    /** `read_number`. */
    method ReadNumber() returns (r: Result<Token>)
      requires pos < |data|
      modifies this
      ensures Agrees(r, NumberF(data, old(pos)), pos)
    {
      var start := pos;
      if data[pos] == PLUS || data[pos] == MINUS {
        pos := pos + 1;
      }
      var hasDecimal := ScanDigits();
      r := NumberToken(Latin1(data[start..pos]), hasDecimal, start);
    }

    /** The digits of a number and at most one dot; reports whether a dot was seen. */
    method ScanDigits() returns (hasDecimal: bool)
      requires pos <= |data|
      modifies this
      ensures (pos, hasDecimal) == NumberEnd(data, old(pos), false)
    {
      hasDecimal := false;
      while pos < |data| && (IsDigitByte(data[pos]) || (data[pos] == DOT && !hasDecimal))
        invariant old(pos) <= pos <= |data|
        invariant NumberEnd(data, pos, hasDecimal) == NumberEnd(data, old(pos), false)
        decreases |data| - pos
      {
        if data[pos] == DOT {
          hasDecimal := true;
        }
        pos := pos + 1;
      }
    }

    /** `read_keyword`. */
    method ReadKeyword() returns (r: Result<Token>)
      requires pos < |data| && IsLetterByte(data[pos])
      modifies this
      ensures Agrees(r, KeywordF(data, old(pos)), pos)
    {
      var start := pos;
      while pos < |data| && IsLetterByte(data[pos])
        invariant start <= pos <= |data|
        invariant LettersEnd(data, pos) == LettersEnd(data, start)
        decreases |data| - pos
      {
        pos := pos + 1;
      }
      var word := Latin1(data[start..pos]);
      var t := KeywordToken(word);
      r := if t.Some? then Ok(t.value) else Err(Parse(start, "Unknown keyword: " + word));
    }

    /** `read_literal_string`, the cursor on the opening `(`. */
    method ReadLiteralString() returns (r: Result<seq<byte>>)
      requires pos < |data|
      modifies this
      ensures Agrees(r, LiteralF(data, old(pos) + 1, 1, []), pos)
    {
      pos := pos + 1;
      var result: seq<byte> := [];
      var depth: nat := 1;
      ghost var goal := LiteralF(data, pos, 1, []);
      while depth > 0
        invariant pos <= |data|
        invariant LiteralF(data, pos, depth, result) == goal
        decreases |data| - pos
      {
        if pos >= |data| {
          return Err(UnexpectedEof(pos));
        }
        var b := data[pos];
        pos := pos + 1;
        if b == LPAREN {
          depth := depth + 1;
          result := result + [b];
        } else if b == RPAREN {
          depth := depth - 1;
          if depth > 0 {
            result := result + [b];
          }
        } else if b == BACKSLASH {
          if pos >= |data| {
            return Err(UnexpectedEof(pos));
          }
          result := ReadEscape(result);
        } else {
          result := result + [b];
        }
      }
      r := Ok(result);
    }

    /** The escape whose letter is at the cursor, added to `acc`. */
    method ReadEscape(acc: seq<byte>) returns (result: seq<byte>)
      requires pos < |data|
      modifies this
      ensures (pos, result) == EscapeF(data, old(pos), acc)
    {
      result := acc;
      var e := data[pos];
      pos := pos + 1;
      if IsOctalByte(e) {
        var octal := ReadOctal(e - 0x30);
        result := result + [octal % 256];
      } else if e == CR {
        if pos < |data| && data[pos] == LF {
          pos := pos + 1;
        }
      } else if e == LF {
      } else {
        result := result + [EscapedByte(e)];
      }
    }

    /** Up to two more octal digits of an escape whose first digit had value `first`. */
    method ReadOctal(first: nat) returns (v: nat)
      requires pos <= |data|
      modifies this
      ensures (v, pos) == OctalF(data, old(pos), first, 2)
    {
      v := first;
      var k := 0;
      while k < 2 && pos < |data| && IsOctalByte(data[pos])
        invariant 0 <= k <= 2 && old(pos) <= pos <= |data|
        invariant OctalF(data, pos, v, 2 - k) == OctalF(data, old(pos), first, 2)
        decreases 2 - k
      {
        v := v * 8 + (data[pos] - 0x30);
        pos := pos + 1;
        k := k + 1;
      }
    }

    /** `read_hex_string`, the opening `<` already consumed. */
    method ReadHexString() returns (r: Result<seq<byte>>)
      requires pos <= |data|
      modifies this
      ensures Agrees(r, HexStringF(data, old(pos)), pos)
    {
      var hexChars: seq<byte> := [];
      ghost var goal := HexDigitsF(data, pos, []);
      while true
        invariant pos <= |data|
        invariant HexDigitsF(data, pos, hexChars) == goal
        decreases |data| - pos
      {
        while pos < |data| && IsHexStringSpace(data[pos])
          invariant pos <= |data|
          invariant HexDigitsF(data, pos, hexChars) == goal
          decreases |data| - pos
        {
          pos := pos + 1;
        }
        if pos >= |data| {
          return Err(UnexpectedEof(pos));
        }
        var b := data[pos];
        pos := pos + 1;
        if b == GT {
          break;
        } else if IsHexByte(b) {
          hexChars := hexChars + [b];
        } else {
          return Err(Parse(pos - 1, "Invalid hex char: 0x" + HexText(b)));
        }
      }
      r := Ok(HexDecodeDigits(hexChars));
    }

    /** `read_name`, the cursor on the `/`. */
    method ReadName() returns (r: Result<string>)
      requires pos < |data|
      modifies this
      ensures Agrees(r, NameF(data, old(pos) + 1), pos)
    {
      pos := pos + 1;
      var name: seq<byte> := [];
      ghost var goal := NameBytesF(data, pos, []);
      while pos < |data|
        invariant pos <= |data|
        invariant NameBytesF(data, pos, name) == goal
        decreases |data| - pos
      {
        var b := data[pos];
        if IsNameDelimiter(b) {
          break;
        } else if b == HASH {
          pos := pos + 1;
          if pos >= |data| {
            return Err(UnexpectedEof(pos));
          }
          var h1 := data[pos];
          pos := pos + 1;
          if pos >= |data| {
            return Err(UnexpectedEof(pos));
          }
          var h2 := data[pos];
          pos := pos + 1;
          name := name + [HexValue(h1) * 16 + HexValue(h2)];
        } else {
          pos := pos + 1;
          name := name + [b];
        }
      }
      var s := Utf8Decode(name);
      r := if s.Some? then Ok(s.value) else Err(InvalidUtf8);
    }
  }

  // ---------------------------------------------------------------------------
  // Lexical properties

  /** Where a token starts right at the cursor, `next_token` reads exactly that token. */
  lemma NextTokenAtToken(data: seq<byte>, p: nat)
    requires p < |data| && !IsPdfWhiteSpace(data[p]) && data[p] != PERCENT
    ensures NextTokenF(data, p) == match TokenAt(data, p)
      case Ok(lx) => Ok(Lexed(Some(lx.value), lx.next))
      case Err(e) => Err(e)
  {
  }

  lemma TokenAtHexString(data: seq<byte>, q: nat)
    requires q + 1 < |data| && data[q] == LT && data[q + 1] != LT
    ensures TokenAt(data, q) == match HexStringF(data, q + 1)
      case Ok(lx) => Ok(Lexed(HexStrTok(lx.value), lx.next))
      case Err(e) => Err(e)
  {
  }

  lemma TokenAtLiteral(data: seq<byte>, q: nat)
    requires q < |data| && data[q] == LPAREN
    ensures TokenAt(data, q) == match LiteralF(data, q + 1, 1, [])
      case Ok(lx) => Ok(Lexed(StrTok(lx.value), lx.next))
      case Err(e) => Err(e)
  {
  }

  lemma NextTokenOfName(data: seq<byte>)
    requires 0 < |data| && data[0] == SLASH
    ensures NextTokenF(data, 0) == match NameF(data, 1)
      case Ok(lx) => Ok(Lexed(Some(NameTok(lx.value)), lx.next))
      case Err(e) => Err(e)
  {
    TokenAtName(data, 0);
    NextTokenAtToken(data, 0);
  }

  lemma TokenAtName(data: seq<byte>, q: nat)
    requires q < |data| && data[q] == SLASH
    ensures TokenAt(data, q) == match NameF(data, q + 1)
      case Ok(lx) => Ok(Lexed(NameTok(lx.value), lx.next))
      case Err(e) => Err(e)
  {
  }

  /** How a writer spells a byte string as a literal: `(`, `)` and `\` get a backslash. */
  /** How a writer spells one byte inside a literal string. */
  function LiteralByteSpelling(b: byte): (e: seq<byte>)
    ensures 1 <= |e| <= 2
  {
    if b == LPAREN || b == RPAREN || b == BACKSLASH then [BACKSLASH, b] else [b]
  }

  function EscapeLiteral(s: seq<byte>): (e: seq<byte>)
    ensures |e| >= |s|
  {
    if s == [] then [] else LiteralByteSpelling(s[0]) + EscapeLiteral(s[1..])
  }

  /** `data[p..e]` holds the literal spelling of `s`, one spelled byte after another. */
  predicate LiteralSpelledAt(data: seq<byte>, p: nat, s: seq<byte>, e: nat)
    decreases |s|
  {
    if s == [] then e == p
    else
      var h := LiteralByteSpelling(s[0]);
      p + |h| <= |data| && data[p..p + |h|] == h && LiteralSpelledAt(data, p + |h|, s[1..], e)
  }

  /** Reading one spelled byte inside a literal yields that byte. */
  lemma LiteralStep(data: seq<byte>, p: nat, b: byte, acc: seq<byte>)
    requires p + |LiteralByteSpelling(b)| <= |data|
    requires data[p..p + |LiteralByteSpelling(b)|] == LiteralByteSpelling(b)
    ensures LiteralF(data, p, 1, acc) == LiteralF(data, p + |LiteralByteSpelling(b)|, 1, acc + [b])
  {
    var e := LiteralByteSpelling(b);
    assert data[p] == e[0];
    if |e| == 2 {
      assert data[p + 1] == b;
    }
  }

  /** A spelled literal body followed by `)` reads back as its bytes. */
  lemma {:induction false} LiteralOfSpelled(data: seq<byte>, p: nat, s: seq<byte>, e: nat, acc: seq<byte>)
    requires LiteralSpelledAt(data, p, s, e) && e < |data| && data[e] == RPAREN
    ensures LiteralF(data, p, 1, acc) == Ok(Lexed(acc + s, e + 1))
    decreases |s|
  {
    if s == [] {
      assert acc + s == acc;
    } else {
      var q := p + |LiteralByteSpelling(s[0])|;
      LiteralStep(data, p, s[0], acc);
      LiteralOfSpelled(data, q, s[1..], e, acc + [s[0]]);
      AppendHead<byte>(acc, s);
    }
  }

  /** Where `data` holds `EscapeLiteral(s)` at `p`, it holds the spelling of `s` byte by byte. */
  lemma {:induction false} LiteralSpelledOfEscaped(data: seq<byte>, p: nat, s: seq<byte>)
    requires p + |EscapeLiteral(s)| <= |data| && data[p..p + |EscapeLiteral(s)|] == EscapeLiteral(s)
    ensures LiteralSpelledAt(data, p, s, p + |EscapeLiteral(s)|)
    decreases |s|
  {
    if s != [] {
      assert EscapeLiteral(s) == LiteralByteSpelling(s[0]) + EscapeLiteral(s[1..]);
      SliceSplit(data, p, EscapeLiteral(s), LiteralByteSpelling(s[0]), EscapeLiteral(s[1..]));
      LiteralSpelledOfEscaped(data, p + |LiteralByteSpelling(s[0])|, s[1..]);
    }
  }

  lemma NextTokenOfLiteral(data: seq<byte>)
    requires 0 < |data| && data[0] == LPAREN
    ensures NextTokenF(data, 0) == match LiteralF(data, 1, 1, [])
      case Ok(lx) => Ok(Lexed(Some(StrTok(lx.value)), lx.next))
      case Err(e) => Err(e)
  {
    TokenAtLiteral(data, 0);
    NextTokenAtToken(data, 0);
  }

  /** Every byte string, escaped and put in parentheses, reads back as that string, whatever follows it. */
  lemma LexLiteralString(s: seq<byte>, rest: seq<byte>)
    ensures NextTokenF([LPAREN] + EscapeLiteral(s) + [RPAREN] + rest, 0)
         == Ok(Lexed(Some(StrTok(s)), |EscapeLiteral(s)| + 2))
  {
    var d := EscapeLiteral(s);
    var data := [LPAREN] + d + [RPAREN] + rest;
    Framed(data, LPAREN, d, RPAREN, rest);
    LiteralSpelledOfEscaped(data, 1, s);
    LiteralOfSpelled(data, 1, s, 1 + |d|, []);
    assert [] + s == s;
    NextTokenOfLiteral(data);
  }

  /** A parenthesis opens (+1) or closes (-1) a level of a literal string; other bytes leave it. */
  function DepthStep(b: byte): int
  {
    if b == LPAREN then 1 else if b == RPAREN then -1 else 0
  }

  /** The depth after reading `s` from `depth`. */
  function DepthAfter(s: seq<byte>, depth: int): int
    decreases |s|
  {
    if s == [] then depth else DepthAfter(s[1..], depth + DepthStep(s[0]))
  }

  /** `s`, read from `depth`, holds no backslash and leaves at least one parenthesis open after every byte. */
  predicate StaysOpen(s: seq<byte>, depth: int)
    decreases |s|
  {
    s == [] || (s[0] != BACKSLASH && depth + DepthStep(s[0]) >= 1 && StaysOpen(s[1..], depth + DepthStep(s[0])))
  }

  /** Bytes without a backslash whose parentheses are balanced. */
  predicate BalancedPlain(s: seq<byte>)
  {
    StaysOpen(s, 1) && DepthAfter(s, 1) == 1
  }

  /** Bytes that never close the string are collected as they are, the depth following their parentheses. */
  lemma {:induction false} LiteralOfOpen(data: seq<byte>, p: nat, s: seq<byte>, depth: nat, acc: seq<byte>)
    requires depth >= 1 && StaysOpen(s, depth)
    requires p + |s| <= |data| && data[p..p + |s|] == s
    ensures DepthAfter(s, depth) >= 1
    ensures LiteralF(data, p, depth, acc) == LiteralF(data, p + |s|, DepthAfter(s, depth), acc + s)
    decreases |s|
  {
    if s == [] {
      assert acc + s == acc;
    } else {
      assert data[p] == s[0];
      assert data[p + 1..p + |s|] == s[1..];
      LiteralOfOpen(data, p + 1, s[1..], depth + DepthStep(s[0]), acc + [s[0]]);
      AppendHead<byte>(acc, s);
    }
  }

  /**
   * Balanced parentheses inside a literal string are part of its bytes:
   * only the parenthesis that closes the outermost one ends it.
   */
  lemma LexNestedLiteral(s: seq<byte>, rest: seq<byte>)
    requires BalancedPlain(s)
    ensures NextTokenF([LPAREN] + s + [RPAREN] + rest, 0) == Ok(Lexed(Some(StrTok(s)), |s| + 2))
  {
    var data := [LPAREN] + s + [RPAREN] + rest;
    Framed(data, LPAREN, s, RPAREN, rest);
    LiteralOfOpen(data, 1, s, 1, []);
    assert [] + s == s;
    NextTokenOfLiteral(data);
  }

  /** `(a(b)c)` reads as the five bytes `a(b)c`. */
  lemma NestedParensExample()
    ensures NextTokenF([LPAREN, 0x61, LPAREN, 0x62, RPAREN, 0x63, RPAREN], 0)
         == Ok(Lexed(Some(StrTok([0x61, LPAREN, 0x62, RPAREN, 0x63])), 7))
  {
    var s: seq<byte> := [0x61, LPAREN, 0x62, RPAREN, 0x63];
    assert s[5..] == [];
    assert StaysOpen(s[4..], 1) by { assert s[4..][1..] == s[5..]; }
    assert StaysOpen(s[3..], 2) by { assert s[3..][1..] == s[4..]; }
    assert StaysOpen(s[2..], 2) by { assert s[2..][1..] == s[3..]; }
    assert StaysOpen(s[1..], 1) by { assert s[1..][1..] == s[2..]; }
    assert StaysOpen(s, 1);
    assert DepthAfter(s[5..], 1) == 1 && DepthAfter(s[4..], 1) == 1 && DepthAfter(s[3..], 2) == 1;
    assert DepthAfter(s[2..], 2) == 1 && DepthAfter(s[1..], 1) == 1 && DepthAfter(s, 1) == 1;
    assert [LPAREN] + s + [RPAREN] + [] == [LPAREN, 0x61, LPAREN, 0x62, RPAREN, 0x63, RPAREN];
    LexNestedLiteral(s, []);
  }

  /** Without a `)` ahead, an open literal string runs into the end of the input, escapes or not. */
  lemma {:induction false} LiteralUnclosed(data: seq<byte>, p: nat, depth: nat, acc: seq<byte>)
    requires depth >= 1 && p <= |data|
    requires forall i | p <= i < |data| :: data[i] != RPAREN
    ensures LiteralF(data, p, depth, acc) == Err(UnexpectedEof(|data|))
    decreases |data| - p
  {
    if p < |data| {
      var b := data[p];
      if b == LPAREN {
        LiteralUnclosed(data, p + 1, depth + 1, acc + [b]);
      } else if b == BACKSLASH {
        if p + 1 < |data| {
          var (q, acc') := EscapeF(data, p + 1, acc);
          LiteralUnclosed(data, q, depth, acc');
        }
      } else {
        LiteralUnclosed(data, p + 1, depth, acc + [b]);
      }
    }
  }

  /** A literal string with no `)` after its `(` is an error at the end of the input. */
  lemma LexUnclosedLiteral(data: seq<byte>)
    requires 0 < |data| && data[0] == LPAREN
    requires forall i | 0 <= i < |data| :: data[i] != RPAREN
    ensures NextTokenF(data, 0) == Err(UnexpectedEof(|data|))
  {
    LiteralUnclosed(data, 1, 1, []);
    NextTokenOfLiteral(data);
  }

  /** How a writer spells bytes as a hexadecimal string: two upper-case digits each. */
  function HexEncode(s: seq<byte>): (d: seq<byte>)
    ensures |d| == 2 * |s|
    ensures forall i | 0 <= i < |d| :: IsHexByte(d[i])
  {
    if s == [] then [] else [HexDigitByte(s[0] / 16), HexDigitByte(s[0] % 16)] + HexEncode(s[1..])
  }

  lemma {:induction false} HexDecodeOfEncode(s: seq<byte>)
    ensures HexDecodeDigits(HexEncode(s)) == s
  {
    if s != [] {
      var d := HexEncode(s);
      assert d[2..] == HexEncode(s[1..]);
      HexDecodeOfEncode(s[1..]);
      assert s == [s[0]] + s[1..];
    }
  }

  lemma {:induction false} HexDigitsOfRun(data: seq<byte>, p: nat, d: seq<byte>, acc: seq<byte>)
    requires forall i | 0 <= i < |d| :: IsHexByte(d[i])
    requires p + |d| < |data| && data[p..p + |d|] == d && data[p + |d|] == GT
    ensures HexDigitsF(data, p, acc) == Ok(Lexed(acc + d, p + |d| + 1))
    decreases |d|
  {
    if d == [] {
      assert acc + d == acc;
    } else {
      assert data[p] == d[0];
      assert data[p + 1..p + 1 + |d[1..]|] == d[1..];
      HexDigitsOfRun(data, p + 1, d[1..], acc + [d[0]]);
      AppendHead(acc, d);
    }
  }

  /** `HexStringF` decodes whatever run of digits `HexDigitsF` collects. */
  lemma HexStringOfRun(data: seq<byte>, p: nat, lx: Lexed<seq<byte>>)
    requires HexDigitsF(data, p, []) == Ok(lx)
    ensures HexStringF(data, p) == Ok(Lexed(HexDecodeDigits(lx.value), lx.next))
  {
  }

  lemma HexStringOfEncoded(data: seq<byte>, p: nat, s: seq<byte>)
    requires p + |HexEncode(s)| < |data| && data[p..p + |HexEncode(s)|] == HexEncode(s)
    requires data[p + |HexEncode(s)|] == GT
    ensures HexStringF(data, p) == Ok(Lexed(s, p + |HexEncode(s)| + 1))
  {
    var d := HexEncode(s);
    HexDigitsOfRun(data, p, d, []);
    assert [] + d == d;
    HexStringOfRun(data, p, Lexed(d, p + |d| + 1));
    HexDecodeOfEncode(s);
  }

  /** Moving the head of `s` onto `acc` first changes nothing. */
  lemma AppendHead<T>(acc: seq<T>, s: seq<T>)
    requires s != []
    ensures acc + [s[0]] + s[1..] == acc + s
  {
    assert s == [s[0]] + s[1..];
  }

  /** Where `data` holds `w == h + t` at `p`, it holds `h` at `p` and `t` right after. */
  lemma SliceSplit(data: seq<byte>, p: nat, w: seq<byte>, h: seq<byte>, t: seq<byte>)
    requires w == h + t && p + |w| <= |data| && data[p..p + |w|] == w
    ensures |w| == |h| + |t|
    ensures data[p..p + |h|] == h && data[p + |h|..p + |w|] == t
  {
    assert forall i | p <= i < p + |w| :: data[i] == w[i - p];
  }

  /** The layout of an opening byte, a body, a closing byte and whatever follows. */
  lemma Framed(data: seq<byte>, open: byte, d: seq<byte>, close: byte, rest: seq<byte>)
    requires data == [open] + d + [close] + rest
    ensures 1 + |d| < |data| && data[0] == open && data[1..1 + |d|] == d && data[1 + |d|] == close
    ensures data[1] == if d == [] then close else d[0]
  {
    assert data[1..1 + |d|] == d by {
      forall i | 0 <= i < |d| ensures data[1 + i] == d[i] {
      }
    }
  }

  lemma NextTokenOfHexString(data: seq<byte>)
    requires 1 < |data| && data[0] == LT && data[1] != LT
    ensures NextTokenF(data, 0) == match HexStringF(data, 1)
      case Ok(lx) => Ok(Lexed(Some(HexStrTok(lx.value)), lx.next))
      case Err(e) => Err(e)
  {
    TokenAtHexString(data, 0);
    NextTokenAtToken(data, 0);
  }

  /**
   * Every byte string, hex-encoded between `<` and `>` at the start of the
   * input, reads back as that string, whatever follows.
   */
  lemma LexHexString(data: seq<byte>, s: seq<byte>)
    requires 1 + |HexEncode(s)| < |data| && data[0] == LT && data[1 + |HexEncode(s)|] == GT
    requires data[1..1 + |HexEncode(s)|] == HexEncode(s)
    ensures NextTokenF(data, 0) == Ok(Lexed(Some(HexStrTok(s)), 2 * |s| + 2))
  {
    assert data[1] == GT || IsHexByte(data[1]) by {
      if s != [] {
        assert data[1] == HexEncode(s)[0];
      }
    }
    HexStringOfEncoded(data, 1, s);
    NextTokenOfHexString(data);
  }

  /** A trailing lone digit `x` reads as the byte with high nibble `x` and low nibble zero. */
  lemma {:induction false} HexDecodeOddRun(s: seq<byte>, x: byte)
    ensures HexDecodeDigits(HexEncode(s) + [x]) == s + [HexValue(x) * 16]
  {
    if s != [] {
      var d := HexEncode(s);
      assert (d + [x])[2..] == HexEncode(s[1..]) + [x];
      HexDecodeOddRun(s[1..], x);
      AppendHead([], s);
    }
  }

  /** Bytes a name may hold without escaping. */
  predicate IsRegularNameByte(b: byte)
  {
    0x21 <= b <= 0x7E && !IsNameDelimiter(b) && b != HASH
  }

  /** How a writer spells one name byte: itself when regular, else `#` and two hexadecimal digits. */
  function NameByteSpelling(b: byte): (e: seq<byte>)
    ensures 1 <= |e| <= 3
  {
    if IsRegularNameByte(b) then [b] else [HASH, HexDigitByte(b / 16), HexDigitByte(b % 16)]
  }

  /** How a writer spells the bytes of a name. */
  function EncodeName(bs: seq<byte>): seq<byte>
  {
    if bs == [] then [] else NameByteSpelling(bs[0]) + EncodeName(bs[1..])
  }

  /** Reading one spelled name byte yields that byte. */
  lemma NameBytesStep(data: seq<byte>, p: nat, b: byte, acc: seq<byte>)
    requires p + |NameByteSpelling(b)| <= |data|
    requires data[p..p + |NameByteSpelling(b)|] == NameByteSpelling(b)
    ensures NameBytesF(data, p, acc) == NameBytesF(data, p + |NameByteSpelling(b)|, acc + [b])
  {
    var e := NameByteSpelling(b);
    assert data[p] == e[0];
    if !IsRegularNameByte(b) {
      assert data[p + 1] == e[1] && data[p + 2] == e[2];
      assert HexValue(data[p + 1]) * 16 + HexValue(data[p + 2]) == b;
    }
  }

  lemma NameBytesAtEnd(data: seq<byte>, p: nat, acc: seq<byte>)
    requires p <= |data|
    requires p == |data| || IsNameDelimiter(data[p])
    ensures NameBytesF(data, p, acc) == Ok(Lexed(acc, p))
  {
  }

  /** `data[p..e]` holds the spelling of `bs`, one spelled byte after another. */
  predicate SpelledAt(data: seq<byte>, p: nat, bs: seq<byte>, e: nat)
    decreases |bs|
  {
    if bs == [] then e == p
    else
      var h := NameByteSpelling(bs[0]);
      p + |h| <= |data| && data[p..p + |h|] == h && SpelledAt(data, p + |h|, bs[1..], e)
  }

  /** Reading a spelled name up to a delimiter or the end yields its bytes. */
  lemma {:induction false} NameBytesOfSpelled(data: seq<byte>, p: nat, bs: seq<byte>, e: nat, acc: seq<byte>)
    requires SpelledAt(data, p, bs, e) && e <= |data|
    requires e == |data| || IsNameDelimiter(data[e])
    ensures NameBytesF(data, p, acc) == Ok(Lexed(acc + bs, e))
    decreases |bs|
  {
    if bs == [] {
      assert acc + bs == acc;
      NameBytesAtEnd(data, p, acc);
    } else {
      NameBytesStep(data, p, bs[0], acc);
      NameBytesOfSpelled(data, p + |NameByteSpelling(bs[0])|, bs[1..], e, acc + [bs[0]]);
      AppendHead<byte>(acc, bs);
    }
  }

  /** Where `data` holds `EncodeName(bs)` at `p`, it holds the spelling of `bs` byte by byte. */
  lemma {:induction false} SpelledOfEncoded(data: seq<byte>, p: nat, bs: seq<byte>)
    requires p + |EncodeName(bs)| <= |data| && data[p..p + |EncodeName(bs)|] == EncodeName(bs)
    ensures SpelledAt(data, p, bs, p + |EncodeName(bs)|)
    decreases |bs|
  {
    if bs != [] {
      EncodeNameCons(bs);
      SliceSplit(data, p, EncodeName(bs), NameByteSpelling(bs[0]), EncodeName(bs[1..]));
      SpelledOfEncoded(data, p + |NameByteSpelling(bs[0])|, bs[1..]);
    }
  }

  /** The spelling of a non-empty name is its first byte's spelling followed by the rest's. */
  lemma EncodeNameCons(bs: seq<byte>)
    requires bs != []
    ensures EncodeName(bs) == NameByteSpelling(bs[0]) + EncodeName(bs[1..])
  {
  }

  /**
   * Every byte string, escaped as a name after `/` and followed by a delimiter
   * or the end, reads back as a name exactly when it is UTF-8.
   */
  lemma LexName(bs: seq<byte>, rest: seq<byte>)
    requires rest == [] || IsNameDelimiter(rest[0])
    ensures var r := NextTokenF([SLASH] + EncodeName(bs) + rest, 0);
      match Utf8Decode(bs)
      case None => r == Err(InvalidUtf8)
      case Some(name) => r == Ok(Lexed(Some(NameTok(name)), 1 + |EncodeName(bs)|))
  {
    var data := [SLASH] + EncodeName(bs) + rest;
    var e := 1 + |EncodeName(bs)|;
    assert data[1..e] == EncodeName(bs);
    assert e < |data| ==> data[e] == rest[0];
    NameTokenOfEncoded(data, bs, e);
  }

  /** Data holding `/`, then a spelled name, then a delimiter or the end, reads as that name. */
  lemma NameTokenOfEncoded(data: seq<byte>, bs: seq<byte>, e: nat)
    requires e == 1 + |EncodeName(bs)| && e <= |data| && data[0] == SLASH && data[1..e] == EncodeName(bs)
    requires e == |data| || IsNameDelimiter(data[e])
    ensures NextTokenF(data, 0) == match Utf8Decode(bs)
      case None => Err(InvalidUtf8)
      case Some(name) => Ok(Lexed(Some(NameTok(name)), e))
  {
    SpelledOfEncoded(data, 1, bs);
    NameOfSpelled(data, 1, bs, e);
    NextTokenOfName(data);
  }

  /** A spelled name followed by a delimiter or the end reads as its UTF-8 text. */
  lemma NameOfSpelled(data: seq<byte>, p: nat, bs: seq<byte>, e: nat)
    requires SpelledAt(data, p, bs, e) && e <= |data|
    requires e == |data| || IsNameDelimiter(data[e])
    ensures NameF(data, p) == match Utf8Decode(bs)
      case None => Err(InvalidUtf8)
      case Some(s) => Ok(Lexed(s, e))
  {
    NameBytesOfSpelled(data, p, bs, e, []);
    assert [] + bs == bs;
  }

  /** A name with no irregular byte is spelled as itself. */
  lemma {:induction false} EncodeRegularName(bs: seq<byte>)
    requires forall i | 0 <= i < |bs| :: IsRegularNameByte(bs[i])
    ensures EncodeName(bs) == bs
  {
    if bs != [] {
      EncodeRegularName(bs[1..]);
      assert bs == [bs[0]] + bs[1..];
    }
  }

  lemma {:induction false} NumberEndOfDigits(data: seq<byte>, p: nat, e: nat)
    requires p <= e <= |data|
    requires forall i | p <= i < e :: IsDigitByte(data[i])
    requires e == |data| || (!IsDigitByte(data[e]) && data[e] != DOT)
    ensures NumberEnd(data, p, false) == (e, false)
    decreases e - p
  {
    if p < e {
      NumberEndOfDigits(data, p + 1, e);
    }
  }

  lemma {:induction false} Latin1OfBytes(t: string)
    requires forall i | 0 <= i < |t| :: t[i] as int < 0x80
    ensures Latin1(Bytes(t)) == t
  {
    var l := Latin1(Bytes(t));
    assert |l| == |t|;
    forall i | 0 <= i < |t| ensures l[i] == t[i] {
      assert l[i] as int == t[i] as int;
    }
  }

  /** The decimal text of an `i64` is ASCII, and digits after an optional minus sign. */
  lemma I64TextShape(n: i64)
    ensures |I64ToText(n)| > 0
    ensures forall i | 0 <= i < |I64ToText(n)| :: I64ToText(n)[i] as int < 0x80
    ensures forall i | (if n < 0 then 1 else 0) <= i < |I64ToText(n)| :: IsDigit(I64ToText(n)[i])
    ensures n < 0 ==> I64ToText(n)[0] == '-'
  {
    var t := I64ToText(n);
    var digits := if n < 0 then NatToDigits(0 - n as int) else NatToDigits(n);
    assert t == if n < 0 then "-" + digits else digits;
    var ds := |t| - |digits|;
    forall i | 0 <= i < |t| ensures t[i] as int < 0x80 && (i >= ds ==> IsDigit(t[i])) {
      if i >= ds { assert t[i] == digits[i - ds]; }
    }
  }

  /** A number token at the start of the input is the token `next_token` returns. */
  lemma NextTokenOfNumber(data: seq<byte>)
    requires 0 < |data| && (data[0] == PLUS || data[0] == MINUS || data[0] == DOT || IsDigitByte(data[0]))
    ensures NextTokenF(data, 0) == match NumberF(data, 0)
      case Ok(lx) => Ok(Lexed(Some(lx.value), lx.next))
      case Err(e) => Err(e)
  {
    NextTokenAtToken(data, 0);
  }

  /** The decimal text of `n`, followed by a byte that cannot continue a number, reads as `n`. */
  lemma NumberOfI64Text(data: seq<byte>, n: i64)
    requires |I64ToText(n)| <= |data| && data[..|I64ToText(n)|] == Bytes(I64ToText(n))
    requires |I64ToText(n)| == |data| || (!IsDigitByte(data[|I64ToText(n)|]) && data[|I64ToText(n)|] != DOT)
    ensures NumberF(data, 0) == Ok(Lexed(IntTok(n), |I64ToText(n)|))
  {
    var t := I64ToText(n);
    I64TextShape(n);
    var ds := if n < 0 then 1 else 0;
    forall i | ds <= i < |t| ensures IsDigitByte(data[i]) {
      assert data[i] == Bytes(t)[i];
    }
    assert data[0] == Bytes(t)[0];
    NumberEndOfDigits(data, ds, |t|);
    assert data[0..|t|] == Bytes(t);
    Latin1OfBytes(t);
    ParseI64OfText(n);
  }

  /**
   * Every `i64`, written in decimal and followed by anything that cannot
   * continue a number, reads back as that integer.
   */
  lemma LexInteger(n: i64, rest: seq<byte>)
    requires rest == [] || (!IsDigitByte(rest[0]) && rest[0] != DOT)
    ensures forall i | 0 <= i < |I64ToText(n)| :: I64ToText(n)[i] as int < 0x80
    ensures NextTokenF(Bytes(I64ToText(n)) + rest, 0) == Ok(Lexed(Some(IntTok(n)), |I64ToText(n)|))
  {
    var t := I64ToText(n);
    I64TextShape(n);
    var data := Bytes(t) + rest;
    assert data[..|t|] == Bytes(t);
    assert data[0] == Bytes(t)[0];
    NumberOfI64Text(data, n);
    NextTokenOfNumber(data);
  }

  /** A run of digits does not change where the number scan ends. */
  lemma {:induction false} NumberEndSkipsDigits(data: seq<byte>, p: nat, d: nat, seenDot: bool)
    requires p <= d <= |data|
    requires forall i | p <= i < d :: IsDigitByte(data[i])
    ensures NumberEnd(data, p, seenDot) == NumberEnd(data, d, seenDot)
    decreases d - p
  {
    if p < d {
      NumberEndSkipsDigits(data, p + 1, d, seenDot);
    }
  }

  /** The characters of a decimal with a point: ASCII, with the sign, digits and point where they belong. */
  lemma DecimalTextShape(negative: bool, whole: string, frac: string)
    requires AllDigits(whole) && AllDigits(frac)
    ensures var t := DecimalText(negative, whole, frac);
      var s := if negative then 1 else 0;
      |t| == s + |whole| + 1 + |frac| &&
      (forall i | 0 <= i < |t| :: t[i] as int < 0x80) &&
      (negative ==> t[0] == '-') &&
      (forall i | s <= i < s + |whole| :: IsDigit(t[i])) &&
      t[s + |whole|] == '.' &&
      (forall i | s + |whole| + 1 <= i < |t| :: IsDigit(t[i]))
  {
    var t := DecimalText(negative, whole, frac);
    var s := if negative then 1 else 0;
    assert t == (if negative then "-" else "") + whole + "." + frac;
    forall i | s <= i < s + |whole| ensures t[i] == whole[i - s] { }
    forall i | s + |whole| + 1 <= i < |t| ensures t[i] == frac[i - s - |whole| - 1] { }
  }

  /** The number scan over a spelled decimal with a point stops right after it, having taken the point. */
  lemma NumberEndOfDecimal(data: seq<byte>, negative: bool, whole: string, frac: string)
    requires AllDigits(whole) && AllDigits(frac)
    requires var t := DecimalText(negative, whole, frac);
      |t| <= |data| && (forall i | 0 <= i < |t| :: data[i] == t[i] as int) && (|t| == |data| || !IsDigitByte(data[|t|]))
    ensures NumberEnd(data, if negative then 1 else 0, false) == (|DecimalText(negative, whole, frac)|, true)
  {
    var t := DecimalText(negative, whole, frac);
    DecimalTextShape(negative, whole, frac);
    var s := if negative then 1 else 0;
    var d := s + |whole|;
    var e := |t|;
    forall i | s <= i < d ensures IsDigitByte(data[i]) { assert data[i] == t[i] as int; }
    forall i | d + 1 <= i < e ensures IsDigitByte(data[i]) { assert data[i] == t[i] as int; }
    assert data[d] == DOT;
    NumberEndSkipsDigits(data, s, d, false);
    NumberEndSkipsDigits(data, d + 1, e, true);
  }

  /** A spelled decimal with a point, not followed by a digit, is read by `read_number` as its value. */
  lemma NumberOfDecimal(data: seq<byte>, negative: bool, whole: string, frac: string)
    requires AllDigits(whole) && AllDigits(frac) && whole + frac != []
    requires var t := DecimalText(negative, whole, frac);
      |t| <= |data| && (forall i | 0 <= i < |t| :: data[i] == t[i] as int) && (|t| == |data| || !IsDigitByte(data[|t|]))
    ensures NumberF(data, 0) == Ok(Lexed(RealTok(DecimalValue(negative, whole, frac)), |DecimalText(negative, whole, frac)|))
  {
    var t := DecimalText(negative, whole, frac);
    DecimalTextShape(negative, whole, frac);
    assert data[0] == t[0] as int;
    assert !negative ==> t[0] == '.' || IsDigit(t[0]);
    NumberEndOfDecimal(data, negative, whole, frac);
    assert Latin1(data[0..|t|]) == t by {
      forall i | 0 <= i < |t| ensures Latin1(data[0..|t|])[i] == t[i] { assert data[0..|t|][i] == data[i]; }
    }
    DecimalTextReadsBack(negative, whole, frac);
    RealOfRun(data, |t|, t, DecimalValue(negative, whole, frac));
  }

  /** A scan that finds a point and stops at `e` over bytes spelling `t`, where `t` parses as `x`, reads the real `x`. */
  lemma RealOfRun(data: seq<byte>, e: nat, t: string, x: real)
    requires 0 < |data| && e <= |data|
    requires NumberEnd(data, if data[0] == PLUS || data[0] == MINUS then 1 else 0, false) == (e, true)
    requires Latin1(data[0..e]) == t && ParseDecimalReal(t) == Some(x)
    ensures NumberF(data, 0) == Ok(Lexed(RealTok(x), e))
  {
  }

  /**
   * A decimal with a point, written out and followed by anything that is not
   * a digit, reads as a real token whose value is the whole part plus the
   * fraction, as in `-3.25` or `.5`.
   */
  lemma LexReal(negative: bool, whole: string, frac: string, rest: seq<byte>)
    requires AllDigits(whole) && AllDigits(frac) && whole + frac != []
    requires rest == [] || !IsDigitByte(rest[0])
    ensures forall i | 0 <= i < |DecimalText(negative, whole, frac)| :: DecimalText(negative, whole, frac)[i] as int < 0x80
    ensures NextTokenF(Bytes(DecimalText(negative, whole, frac)) + rest, 0)
      == Ok(Lexed(Some(RealTok(DecimalValue(negative, whole, frac))), |DecimalText(negative, whole, frac)|))
  {
    var t := DecimalText(negative, whole, frac);
    DecimalTextShape(negative, whole, frac);
    var data := Bytes(t) + rest;
    forall i | 0 <= i < |t| ensures data[i] == t[i] as int { assert data[i] == Bytes(t)[i]; }
    assert |t| < |data| ==> data[|t|] == rest[0];
    NumberOfDecimal(data, negative, whole, frac);
    assert data[0] == t[0] as int;
    assert !negative ==> t[0] == '.' || IsDigit(t[0]);
    NextTokenOfNumber(data);
  }

  lemma {:induction false} LettersEndOfRun(data: seq<byte>, p: nat, e: nat)
    requires p <= e <= |data|
    requires forall i | p <= i < e :: IsLetterByte(data[i])
    requires e == |data| || !IsLetterByte(data[e])
    ensures LettersEnd(data, p) == e
    decreases e - p
  {
    if p < e {
      LettersEndOfRun(data, p + 1, e);
    }
  }

  /** The keyword table is a bijection between the eleven spellings and their tokens. */
  lemma KeywordTableRoundTrip(t: Token)
    requires KeywordText(t) != ""
    ensures KeywordToken(KeywordText(t)) == Some(t)
  {
  }

  /** A keyword's spelling followed by a byte that is not a letter reads as that keyword. */
  lemma KeywordAt(data: seq<byte>, t: Token)
    requires KeywordText(t) != ""
    requires forall i | 0 <= i < |KeywordText(t)| :: KeywordText(t)[i] as int < 0x80
    requires |KeywordText(t)| <= |data| && data[..|KeywordText(t)|] == Bytes(KeywordText(t))
    requires |KeywordText(t)| == |data| || !IsLetterByte(data[|KeywordText(t)|])
    ensures IsLetterByte(data[0])
    ensures KeywordF(data, 0) == Ok(Lexed(t, |KeywordText(t)|))
  {
    var w := KeywordText(t);
    var bw := Bytes(w);
    assert forall i | 0 <= i < |w| :: IsAsciiAlpha(w[i]);
    forall i | 0 <= i < |w| ensures IsLetterByte(data[i]) {
      assert data[i] == bw[i];
    }
    LettersEndOfRun(data, 0, |w|);
    Latin1OfBytes(w);
    assert data[0..|w|] == bw;
    KeywordTableRoundTrip(t);
  }

  /** A keyword at the start of the input is the token `next_token` returns. */
  lemma NextTokenOfKeyword(data: seq<byte>)
    requires 0 < |data| && IsLetterByte(data[0])
    ensures NextTokenF(data, 0) == match KeywordF(data, 0)
      case Ok(lx) => Ok(Lexed(Some(lx.value), lx.next))
      case Err(e) => Err(e)
  {
    NextTokenAtToken(data, 0);
  }

  /** Every keyword, followed by anything but a letter, reads back as its token. */
  lemma LexKeyword(t: Token, rest: seq<byte>)
    requires KeywordText(t) != ""
    requires rest == [] || !IsLetterByte(rest[0])
    ensures forall i | 0 <= i < |KeywordText(t)| :: KeywordText(t)[i] as int < 0x80
    ensures NextTokenF(Bytes(KeywordText(t)) + rest, 0) == Ok(Lexed(Some(t), |KeywordText(t)|))
  {
    var w := KeywordText(t);
    assert forall i | 0 <= i < |w| :: IsAsciiAlpha(w[i]);
    var data := Bytes(w) + rest;
    assert data[..|w|] == Bytes(w);
    KeywordAt(data, t);
    NextTokenOfKeyword(data);
  }
}
