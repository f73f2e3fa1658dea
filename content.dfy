/*
 * The content-stream interpreter of a page: it scans operands and
 * operators, keeps the text state (text matrix, line matrix, font, leading,
 * spacing, a stack of saved states) and emits a text span for each string
 * shown. Every scanner is a function of the buffer and a cursor; the
 * `ContentParser` class is proved to follow them step by step.
 */
module ContentStreams {
  import opened Common
  import opened TextSpans
  import L = Lexing

  const QUOTE: byte := 0x27
  const DQUOTE: byte := 0x22
  const STAR: byte := 0x2A
  const UNDERSCORE: byte := 0x5F

  /** The bytes left from cursor `p` (none once `p` is past the end). */
  function Rem(data: seq<byte>, p: nat): nat
  {
    if p <= |data| then |data| - p else 0
  }

  // ---------------------------------------------------------------------------
  // White space and comments

  /** The cursor on the first line feed at or after `p`, or the end: a comment runs up to it. */
  function CommentTail(data: seq<byte>, p: nat): (q: nat)
    ensures p <= q
    ensures p <= |data| ==> q <= |data|
    ensures q < |data| ==> data[q] == L.LF
    ensures p < |data| && data[p] != L.LF ==> p < q
    ensures forall i | p <= i < q && i < |data| :: data[i] != L.LF
    decreases Rem(data, p)
  {
    if p >= |data| || data[p] == L.LF then p else CommentTail(data, p + 1)
  }

  /**
   * `skip_whitespace`: the first byte at or after `p` that is not white space
   * (space, tab, line feed, carriage return, form feed, NUL) and does not
   * start a comment.
   */
  function SkipSpaceF(data: seq<byte>, p: nat): (q: nat)
    ensures p <= q
    ensures p <= |data| ==> q <= |data|
    ensures q < |data| ==> !L.IsPdfWhiteSpace(data[q]) && data[q] != L.PERCENT
    ensures p < |data| && !L.IsPdfWhiteSpace(data[p]) && data[p] != L.PERCENT ==> q == p
    ensures p >= |data| ==> q == p
    decreases Rem(data, p)
  {
    if p >= |data| then p
    else if L.IsPdfWhiteSpace(data[p]) then SkipSpaceF(data, p + 1)
    else if data[p] == L.PERCENT then SkipSpaceF(data, CommentTail(data, p))
    else p
  }

  // ---------------------------------------------------------------------------
  // Operators

  /** A byte that starts an operator: a letter, `'` or `"`. */
  predicate StartsOperator(b: byte) { L.IsLetterByte(b) || b == QUOTE || b == DQUOTE }

  /** A byte that continues an operator: those and `*`. */
  predicate IsOperatorByte(b: byte) { StartsOperator(b) || b == STAR }

  function OperatorEnd(data: seq<byte>, p: nat): (q: nat)
    requires p <= |data|
    ensures p <= q <= |data|
    ensures forall i | p <= i < q :: IsOperatorByte(data[i])
    ensures q < |data| ==> !IsOperatorByte(data[q])
    decreases |data| - p
  {
    if p < |data| && IsOperatorByte(data[p]) then OperatorEnd(data, p + 1) else p
  }

  /** `read_operator`: the longest run of operator bytes at `p`, as text. */
  function OperatorF(data: seq<byte>, p: nat): (r: L.Lexed<string>)
    requires p <= |data|
    ensures p <= r.next <= |data| && |r.value| == r.next - p
    ensures forall i | 0 <= i < |r.value| :: r.value[i] as int == data[p + i] && IsOperatorByte(data[p + i])
    ensures r.next < |data| ==> !IsOperatorByte(data[r.next])
    ensures p < |data| && StartsOperator(data[p]) ==> p < r.next
  {
    var q := OperatorEnd(data, p);
    L.Lexed(Latin1(data[p..q]), q)
  }

  // ---------------------------------------------------------------------------
  // Numbers

  predicate IsNumberByte(b: byte) { L.IsDigitByte(b) || b == L.DOT }

  function DigitsEnd(data: seq<byte>, p: nat): (q: nat)
    ensures p <= q
    ensures p <= |data| ==> q <= |data|
    ensures forall i | p <= i < q :: i < |data| && IsNumberByte(data[i])
    ensures q < |data| ==> !IsNumberByte(data[q])
    decreases Rem(data, p)
  {
    if p < |data| && IsNumberByte(data[p]) then DigitsEnd(data, p + 1) else p
  }

  /**
   * `read_number`: an optional sign, then the run of digits and dots,
   * parsed as a decimal; a run that is not a number is an error at its start.
   */
  function NumberF(data: seq<byte>, p: nat): (r: Result<L.Lexed<real>>)
    requires p < |data|
    ensures r.Ok? ==> p < r.value.next <= |data|
    ensures r.Err? ==> r.error.Parse? && r.error.position == p
  {
    var start := if data[p] == L.PLUS || data[p] == L.MINUS then p + 1 else p;
    var end := DigitsEnd(data, start);
    var text := Latin1(data[p..end]);
    match ParseDecimalReal(text)
    case None => Err(Parse(p, "Invalid number: " + text))
    case Some(x) =>
      assert text != [];
      Ok(L.Lexed(x, end))
  }

  // ---------------------------------------------------------------------------
  // Literal strings

  /**
   * A literal string read: its bytes, the cursor after it, and whether one
   * of its octal escapes had a value above 255.
   */
  datatype Literal = Literal(bytes: seq<byte>, next: nat, overflow: bool)

  /**
   * `read_string` from `p`, inside `depth` open parentheses, having
   * collected `acc`: nested parentheses are kept, escapes are decoded, an
   * octal escape keeps the low eight bits of its value, a backslash before a
   * line end continues the line, and the end of the data ends the string.
   */
  function StringBodyF(data: seq<byte>, p: nat, depth: nat, acc: seq<byte>, overflow: bool): (r: Literal)
    requires depth > 0
    ensures p <= r.next
    ensures p <= |data| ==> r.next <= |data|
    ensures p < |data| ==> p < r.next
    ensures overflow ==> r.overflow
    decreases Rem(data, p)
  {
    if p >= |data| then Literal(acc, p, overflow)
    else
      var b := data[p];
      if b == L.LPAREN then StringBodyF(data, p + 1, depth + 1, acc + [b], overflow)
      else if b == L.RPAREN then
        if depth == 1 then Literal(acc, p + 1, overflow)
        else StringBodyF(data, p + 1, depth - 1, acc + [b], overflow)
      else if b == L.BACKSLASH && p + 1 < |data| then
        var (q, acc', overflow') := EscapeF(data, p + 1, acc, overflow);
        StringBodyF(data, q, depth, acc', overflow')
      else StringBodyF(data, p + 1, depth, acc + [b], overflow)
  }

  /**
   * The escape whose letter is at `p`: where reading resumes, what has been
   * collected then, and whether an octal value has overflowed a byte.
   */
  function EscapeF(data: seq<byte>, p: nat, acc: seq<byte>, overflow: bool): (r: (nat, seq<byte>, bool))
    requires p < |data|
    ensures p < r.0 <= |data|
    ensures overflow ==> r.2
  {
    var e := data[p];
    if L.IsOctalByte(e) then
      var (v, q) := L.OctalF(data, p + 1, e - 0x30, 2);
      (q, acc + [v % 256], overflow || v > 255)
    else if e == L.CR then
      (if p + 1 < |data| && data[p + 1] == L.LF then p + 2 else p + 1, acc, overflow)
    else if e == L.LF then (p + 1, acc, overflow)
    else (p + 1, acc + [L.EscapedByte(e)], overflow)
  }

  /** The literal string whose `(` is at `p`. */
  function StringF(data: seq<byte>, p: nat): (r: Literal)
    ensures p < r.next
    ensures p < |data| ==> r.next <= |data|
  {
    StringBodyF(data, p + 1, 1, [], false)
  }

  /**
   * `read_string` as compiled with overflow checks: the octal value is
   * accumulated in a `u8`, so an escape above `\377` stops the program.
   */
  function StringAsWritten(data: seq<byte>, p: nat): (r: Option<seq<byte>>)
    ensures r.Some? ==> r.value == StringF(data, p).bytes
  {
    var lit := StringF(data, p);
    if lit.overflow then None else Some(lit.bytes)
  }

  // ---------------------------------------------------------------------------
  // Hexadecimal strings

  /** The hexadecimal digits up to the closing `>` or the end; every other byte is skipped. */
  function HexDigitsF(data: seq<byte>, p: nat, acc: seq<byte>): (r: L.Lexed<seq<byte>>)
    ensures p <= r.next
    ensures p <= |data| ==> r.next <= |data|
    ensures |acc| <= |r.value| && r.value[..|acc|] == acc
    ensures forall i | |acc| <= i < |r.value| :: L.IsHexByte(r.value[i])
    decreases Rem(data, p)
  {
    if p >= |data| then L.Lexed(acc, p)
    else if data[p] == L.GT then L.Lexed(acc, p + 1)
    else if L.IsHexByte(data[p]) then HexDigitsF(data, p + 1, acc + [data[p]])
    else HexDigitsF(data, p + 1, acc)
  }

  /** `read_hex_string`, the opening `<` consumed: pairs of digits, an odd last digit padded with `0`. */
  function HexF(data: seq<byte>, p: nat): (r: L.Lexed<seq<byte>>)
    ensures p <= r.next
    ensures p <= |data| ==> r.next <= |data|
  {
    var d := HexDigitsF(data, p, []);
    L.Lexed(L.HexDecodeDigits(d.value), d.next)
  }

  // ---------------------------------------------------------------------------
  // Names and dictionaries

  /** The bytes a name may hold: ASCII letters and digits, `_`, `-`, `+` and `.`. */
  predicate IsNameByte(b: byte)
  {
    L.IsLetterByte(b) || L.IsDigitByte(b) || b == UNDERSCORE || b == L.MINUS || b == L.PLUS || b == L.DOT
  }

  function NameEnd(data: seq<byte>, p: nat): (q: nat)
    ensures p <= q
    ensures p <= |data| ==> q <= |data|
    ensures forall i | p <= i < q :: i < |data| && IsNameByte(data[i])
    ensures q < |data| ==> !IsNameByte(data[q])
    decreases Rem(data, p)
  {
    if p < |data| && IsNameByte(data[p]) then NameEnd(data, p + 1) else p
  }

  /** `read_name`, the `/` consumed: the longest run of name bytes. */
  function NameF(data: seq<byte>, p: nat): (r: L.Lexed<string>)
    requires p <= |data|
    ensures p <= r.next <= |data| && |r.value| == r.next - p
    ensures forall i | 0 <= i < |r.value| :: r.value[i] as int == data[p + i] && IsNameByte(data[p + i])
    ensures r.next < |data| ==> !IsNameByte(data[r.next])
  {
    var q := NameEnd(data, p);
    L.Lexed(Latin1(data[p..q]), q)
  }

  /**
   * `skip_dict` from `p`, inside `depth` open `<<`: the cursor after the
   * matching `>>`, or the end.
   */
  function DictEndF(data: seq<byte>, p: nat, depth: nat): (q: nat)
    ensures p <= q
    ensures p <= |data| ==> q <= |data|
    decreases Rem(data, p)
  {
    if p >= |data| || depth == 0 then p
    else if p + 1 < |data| && data[p] == L.LT && data[p + 1] == L.LT then DictEndF(data, p + 2, depth + 1)
    else if p + 1 < |data| && data[p] == L.GT && data[p + 1] == L.GT then DictEndF(data, p + 2, depth - 1)
    else DictEndF(data, p + 1, depth)
  }

  // ---------------------------------------------------------------------------
  // Operands

  datatype Operand = Number(n: real) | Str(bytes: seq<byte>) | NameOp(name: string) | ArrayOp(items: seq<Operand>)

  /**
   * `parse_operand` at `p`: an operand and the cursor after it, or no
   * operand. A dictionary is skipped; `]`, `>` and a letter are left where
   * they are; any other unknown byte is passed over.
   */
  function OperandF(data: seq<byte>, p: nat): (r: Result<L.Lexed<Option<Operand>>>)
    ensures r.Ok? ==> SkipSpaceF(data, p) <= r.value.next
    ensures r.Ok? && r.value.value.Some? ==> SkipSpaceF(data, p) < |data| && SkipSpaceF(data, p) < r.value.next
    ensures r.Ok? && r.value.next == SkipSpaceF(data, p) < |data| ==>
      r.value.value.None? && (data[r.value.next] == L.RBRACKET || data[r.value.next] == L.GT || L.IsLetterByte(data[r.value.next]))
    decreases Rem(data, p), 0
  {
    var q := SkipSpaceF(data, p);
    if q >= |data| then Ok(L.Lexed(None, q))
    else
      var b := data[q];
      if b == L.PLUS || b == L.MINUS || b == L.DOT || L.IsDigitByte(b) then
        var n :- NumberF(data, q);
        Ok(L.Lexed(Some(Number(n.value)), n.next))
      else if b == L.LPAREN then
        var s := StringF(data, q);
        Ok(L.Lexed(Some(Str(s.bytes)), s.next))
      else if b == L.LT then
        if q + 1 < |data| && data[q + 1] == L.LT then Ok(L.Lexed(None, DictEndF(data, q + 2, 1)))
        else
          var h := HexF(data, q + 1);
          Ok(L.Lexed(Some(Str(h.value)), h.next))
      else if b == L.SLASH then
        var n := NameF(data, q + 1);
        Ok(L.Lexed(Some(NameOp(n.value)), n.next))
      else if b == L.LBRACKET then
        var a :- ArrayF(data, q + 1, []);
        Ok(L.Lexed(Some(ArrayOp(a.value)), a.next))
      else if b == L.RBRACKET || b == L.GT || L.IsLetterByte(b) then Ok(L.Lexed(None, q))
      else Ok(L.Lexed(None, q + 1))
  }

  /**
   * `read_array` from `p`, the `[` consumed, having collected `items`: up to
   * the `]` or the end (either is stepped over); a position that holds no
   * operand is passed over one byte.
   */
  function ArrayF(data: seq<byte>, p: nat, items: seq<Operand>): (r: Result<L.Lexed<seq<Operand>>>)
    ensures r.Ok? ==> p < r.value.next
    decreases Rem(data, p), 1
  {
    var q := SkipSpaceF(data, p);
    if q >= |data| || data[q] == L.RBRACKET then Ok(L.Lexed(items, q + 1))
    else
      match OperandF(data, q)
      case Err(e) => Err(e)
      case Ok(o) =>
        match o.value
        case Some(x) => ArrayF(data, o.next, items + [x])
        case None => ArrayF(data, o.next + 1, items)
  }

  /** `ArrayF` where white space runs to the end or to `]`: the items so far, past the `]`. */
  lemma ArrayEnd(data: seq<byte>, p: nat, items: seq<Operand>)
    requires SkipSpaceF(data, p) >= |data| || data[SkipSpaceF(data, p)] == L.RBRACKET
    ensures ArrayF(data, p, items) == Ok(L.Lexed(items, SkipSpaceF(data, p) + 1))
  {
  }

  /** `ArrayF` where the next operand fails: that failure. */
  lemma ArrayErr(data: seq<byte>, p: nat, items: seq<Operand>)
    requires SkipSpaceF(data, p) < |data| && data[SkipSpaceF(data, p)] != L.RBRACKET
    requires OperandF(data, SkipSpaceF(data, p)).Err?
    ensures ArrayF(data, p, items) == Err(OperandF(data, SkipSpaceF(data, p)).error)
  {
  }

  /** `ArrayF` where the next operand is read: it is kept, or its position passed over. */
  lemma ArrayNext(data: seq<byte>, p: nat, items: seq<Operand>, o: L.Lexed<Option<Operand>>, next: nat, items': seq<Operand>)
    requires SkipSpaceF(data, p) < |data| && data[SkipSpaceF(data, p)] != L.RBRACKET
    requires OperandF(data, SkipSpaceF(data, p)) == Ok(o)
    requires next == if o.value.Some? then o.next else o.next + 1
    requires items' == if o.value.Some? then items + [o.value.value] else items
    ensures ArrayF(data, p, items) == ArrayF(data, next, items')
  {
    if o.value.Some? {
      ArrayKeep(data, p, items, o, o.value.value);
    } else {
      ArraySkip(data, p, items, o);
    }
  }

  /** An operand read inside an array is kept. */
  lemma ArrayKeep(data: seq<byte>, p: nat, items: seq<Operand>, o: L.Lexed<Option<Operand>>, x: Operand)
    requires SkipSpaceF(data, p) < |data| && data[SkipSpaceF(data, p)] != L.RBRACKET
    requires OperandF(data, SkipSpaceF(data, p)) == Ok(o) && o.value == Some(x)
    ensures ArrayF(data, p, items) == ArrayF(data, o.next, items + [x])
  {
  }

  /** A position inside an array that holds no operand is passed over. */
  lemma ArraySkip(data: seq<byte>, p: nat, items: seq<Operand>, o: L.Lexed<Option<Operand>>)
    requires SkipSpaceF(data, p) < |data| && data[SkipSpaceF(data, p)] != L.RBRACKET
    requires OperandF(data, SkipSpaceF(data, p)) == Ok(o) && o.value.None?
    ensures ArrayF(data, p, items) == ArrayF(data, o.next + 1, items)
  {
  }

  // ---------------------------------------------------------------------------
  // Statements: operands up to an operator

  /**
   * One pass of the inner loop of `parse`: the operator that ends a run of
   * operands, or nothing (end of data, or a position that holds neither),
   * and the cursor after it.
   */
  datatype Statement = Operator(name: string, operands: seq<Operand>, next: nat) | Discarded(next: nat)

  /** The inner loop of `parse` from `p`, having collected `operands`. */
  function StatementF(data: seq<byte>, p: nat, operands: seq<Operand>): (r: Result<Statement>)
    ensures r.Ok? ==> SkipSpaceF(data, p) <= r.value.next
    ensures r.Ok? && r.value.next == SkipSpaceF(data, p) < |data| ==>
      r.value.Discarded? && (data[r.value.next] == L.RBRACKET || data[r.value.next] == L.GT)
    decreases Rem(data, p)
  {
    var q := SkipSpaceF(data, p);
    if q >= |data| then Ok(Discarded(q))
    else if StartsOperator(data[q]) then
      var op := OperatorF(data, q);
      Ok(Operator(op.value, operands, op.next))
    else
      var o :- OperandF(data, q);
      match o.value
      case Some(x) => StatementF(data, o.next, operands + [x])
      case None => Ok(Discarded(o.next))
  }

  /** A `]` or `>` where a statement starts is read as no statement, and the cursor stays on it. */
  lemma StrayDelimiterDiscarded(data: seq<byte>, p: nat, operands: seq<Operand>)
    requires p < |data| && (data[p] == L.RBRACKET || data[p] == L.GT)
    ensures StatementF(data, p, operands) == Ok(Discarded(p))
  {
    assert SkipSpaceF(data, p) == p;
    assert OperandF(data, p) == Ok(L.Lexed(None, p));
  }

  // ---------------------------------------------------------------------------
  // The text state

  datatype Matrix = Matrix(a: real, b: real, c: real, d: real, e: real, f: real)

  const IDENTITY: Matrix := Matrix(1.0, 0.0, 0.0, 1.0, 0.0, 0.0)

  /** `GraphicsState`: the position of the text `(textMatrix.e, textMatrix.f)` and the text parameters. */
  datatype GraphicsState = GraphicsState(
    textMatrix: Matrix, lineMatrix: Matrix, fontSize: real, fontName: Option<string>,
    leading: real, charSpacing: real, wordSpacing: real)

  const DEFAULT_STATE: GraphicsState := GraphicsState(IDENTITY, IDENTITY, 12.0, None, 0.0, 0.0, 0.0)

  /** The interpreter's state: the current text state, the saved ones, and the spans shown so far. */
  datatype Machine = Machine(state: GraphicsState, stack: seq<GraphicsState>, spans: seq<TextSpan>)

  const START: Machine := Machine(DEFAULT_STATE, [], [])

  /** The one-character names of the apostrophe operator (next line, then show) and the double-quote operator (set spacing, next line, then show). */
  const QUOTE_NAME: string := [39 as char]
  const DOUBLE_QUOTE_NAME: string := [34 as char]

  /** The operators the interpreter acts on; every other one is ignored. */
  const OPERATORS: set<string> := {"q", "Q", "BT", "ET", "Tf", "TL", "Tc", "Tw", "Td", "TD", "Tm", "T*", "Tj", "TJ", QUOTE_NAME, DOUBLE_QUOTE_NAME}

  /** The operators that show text. */
  const SHOWING: set<string> := {"Tj", "TJ", QUOTE_NAME, DOUBLE_QUOTE_NAME}

  // ---------------------------------------------------------------------------
  // Showing text

  /** How `add_text_span` reads a byte: printable ASCII and Latin-1 above 0x9F as themselves, others as a space. */
  function SpanChar(b: byte): char
  {
    if 32 <= b < 127 then b as char else if b >= 160 then b as char else ' '
  }

  /** A span's text has something in it and no white space at either end. */
  predicate Tidy(t: string)
  {
    t != [] && !IsWhiteSpace(t[0]) && !IsWhiteSpace(t[|t| - 1])
  }

  predicate AllTidy(spans: seq<TextSpan>)
  {
    forall i | 0 <= i < |spans| :: Tidy(spans[i].text)
  }

  /** A shown string's bytes, each read by `SpanChar`. */
  function SpanChars(bytes: seq<byte>): string
  {
    seq(|bytes|, i requires 0 <= i < |bytes| => SpanChar(bytes[i]))
  }

  /** The text of a shown string: its bytes read by `SpanChar`, trimmed. */
  function SpanText(bytes: seq<byte>): (t: string)
  {
    Trim(SpanChars(bytes))
  }

  /** A span's text is never white space at either end. */
  lemma SpanTextTidy(bytes: seq<byte>)
    ensures SpanText(bytes) != [] ==> Tidy(SpanText(bytes))
  {
    var s := SpanChars(bytes);
    assert SpanText(bytes) == Trim(s);
    TrimEnds(s);
  }

  /** A byte that shows as something other than white space. */
  predicate Visible(b: byte) { 33 <= b < 127 || b > 160 }

  /** The text position moved right by `dx`. */
  function MoveRight(st: GraphicsState, dx: real): GraphicsState
  {
    st.(textMatrix := st.textMatrix.(e := st.textMatrix.e + dx))
  }

  /** How far a shown string moves the text: half the font size per byte. */
  function Advance(st: GraphicsState, n: nat): real { n as real * st.fontSize * 0.5 }

  /** How far a `TJ` number moves the text: `n` thousandths of the font size, leftwards. */
  function Kern(st: GraphicsState, n: real): real { -n / 1000.0 * st.fontSize }

  /** The spans with `text` added at the text position, when `text` is not empty. */
  function Emit(spans: seq<TextSpan>, st: GraphicsState, text: string): (r: seq<TextSpan>)
  {
    if text != [] then spans + [TextSpan(text, st.textMatrix.e, st.textMatrix.f, st.fontSize, st.fontName)] else spans
  }

  /**
   * `add_text_span`: a span at the current text position, when the string
   * shows anything; then the position moves right by half the font size per
   * byte.
   */
  function ShowTextF(m: Machine, bytes: seq<byte>): (r: Machine)
    ensures r.stack == m.stack
  {
    var text := SpanText(bytes);
    Machine(MoveRight(m.state, Advance(m.state, |bytes|)), m.stack, Emit(m.spans, m.state, text))
  }

  /** What showing a string does, with its text named. */
  lemma ShowTextParts(m: Machine, bytes: seq<byte>, text: string)
    requires text == SpanText(bytes)
    ensures ShowTextF(m, bytes) == Machine(MoveRight(m.state, Advance(m.state, |bytes|)), m.stack, Emit(m.spans, m.state, text))
  {
  }

  /** One element of a `TJ` array: a string is shown, a number moves the text left by thousandths of the font size. */
  function ShowItemF(m: Machine, item: Operand): (r: Machine)
    ensures r.stack == m.stack && m.spans <= r.spans
  {
    match item
    case Str(bytes) => ShowTextF(m, bytes)
    case Number(n) =>
      m.(state := MoveRight(m.state, Kern(m.state, n)))
    case _ => m
  }

  /** The `TJ` loop over the items of its array. */
  function ShowArrayF(m: Machine, items: seq<Operand>): (r: Machine)
    ensures r.stack == m.stack && m.spans <= r.spans
    decreases |items|
  {
    if items == [] then m else ShowArrayF(ShowItemF(m, items[0]), items[1..])
  }

  // ---------------------------------------------------------------------------
  // Operators

  function LastOperand(ops: seq<Operand>): Option<Operand>
  {
    if ops == [] then None else Some(ops[|ops| - 1])
  }

  /** The numbers among `ops`, in order. */
  function Numbers(ops: seq<Operand>): (ns: seq<real>)
    ensures |ns| <= |ops|
  {
    if ops == [] then []
    else (if ops[0].Number? then [ops[0].n] else []) + Numbers(ops[1..])
  }

  /** The line matrix moved by `(tx, ty)`, and the text matrix set to it. */
  function Translate(st: GraphicsState, tx: real, ty: real): GraphicsState
  {
    var lm := st.lineMatrix.(e := st.lineMatrix.e + tx, f := st.lineMatrix.f + ty);
    st.(lineMatrix := lm, textMatrix := lm)
  }

  /** `T*`: the line matrix moved down by the leading, and the text matrix set to it. */
  function NextLine(st: GraphicsState): GraphicsState
  {
    var lm := st.lineMatrix.(f := st.lineMatrix.f - st.leading);
    st.(lineMatrix := lm, textMatrix := lm)
  }

  /** Shows the last operand when it is a string. */
  function ShowLast(m: Machine, ops: seq<Operand>): (r: Machine)
    ensures r.stack == m.stack && m.spans <= r.spans
  {
    match LastOperand(ops)
    case Some(Str(bytes)) => ShowTextF(m, bytes)
    case _ => m
  }

  /** The operators that set one text parameter from their last operand, when it is a number. */
  function SetParameter(st: GraphicsState, op: string, ops: seq<Operand>): GraphicsState
  {
    match LastOperand(ops)
    case Some(Number(v)) =>
      if op == "TL" then st.(leading := v)
      else if op == "Tc" then st.(charSpacing := v)
      else st.(wordSpacing := v)
    case _ => st
  }

  /** `Tf`: the font name from the next-to-last operand and the size from the last, each when of its type. */
  function SetFont(st: GraphicsState, ops: seq<Operand>): GraphicsState
  {
    if |ops| >= 2 then
      var name := if ops[|ops| - 2].NameOp? then Some(ops[|ops| - 2].name) else st.fontName;
      var size := if ops[|ops| - 1].Number? then ops[|ops| - 1].n else st.fontSize;
      st.(fontName := name, fontSize := size)
    else st
  }

  /** `Td` and `TD` (`TD` also sets the leading to minus the vertical move), when the last two operands are numbers. */
  function MoveLine(st: GraphicsState, op: string, ops: seq<Operand>): GraphicsState
  {
    if |ops| >= 2 && ops[|ops| - 2].Number? && ops[|ops| - 1].Number? then
      var tx := ops[|ops| - 2].n;
      var ty := ops[|ops| - 1].n;
      Translate(if op == "TD" then st.(leading := -ty) else st, tx, ty)
    else st
  }

  /** `Tm`: both matrices from the first six numbers, when there are six operands and six of them are numbers. */
  function SetMatrix(st: GraphicsState, ops: seq<Operand>): GraphicsState
  {
    var ns := Numbers(ops);
    if |ops| >= 6 && |ns| >= 6 then
      var tm := Matrix(ns[0], ns[1], ns[2], ns[3], ns[4], ns[5]);
      st.(textMatrix := tm, lineMatrix := tm)
    else st
  }

  /** `"`: word and character spacing from the first two operands (when there are three), then `'`. */
  function SetSpacing(st: GraphicsState, ops: seq<Operand>): GraphicsState
  {
    if |ops| >= 3 then
      st.(wordSpacing := if ops[0].Number? then ops[0].n else st.wordSpacing,
          charSpacing := if ops[1].Number? then ops[1].n else st.charSpacing)
    else st
  }

  /** The operators `execute_operator` acts on, and `Ignored` for every other name. */
  datatype OpKind =
    | Save | Restore | BeginText | EndText | SetFontOp | SetLeading | SetCharSpacing | SetWordSpacing
    | MoveText | MoveTextSetLeading | SetTextMatrix | NextLineOp | ShowOp | ShowArrayOp | QuoteOp | DoubleQuoteOp
    | Ignored
  {
    predicate Shows() { this == ShowOp || this == ShowArrayOp || this == QuoteOp || this == DoubleQuoteOp }
  }

  /** The operator an operator name stands for. */
  function OpOf(name: string): (k: OpKind)
    ensures k == Ignored <==> name !in OPERATORS
    ensures k.Shows() <==> name in SHOWING
  {
    if name == "q" then Save
    else if name == "Q" then Restore
    else if name == "BT" then BeginText
    else if name == "ET" then EndText
    else if name == "Tf" then SetFontOp
    else if name == "TL" then SetLeading
    else if name == "Tc" then SetCharSpacing
    else if name == "Tw" then SetWordSpacing
    else if name == "Td" then MoveText
    else if name == "TD" then MoveTextSetLeading
    else if name == "Tm" then SetTextMatrix
    else if name == "T*" then NextLineOp
    else if name == "Tj" then ShowOp
    else if name == "TJ" then ShowArrayOp
    else if name == QUOTE_NAME then QuoteOp
    else if name == DOUBLE_QUOTE_NAME then DoubleQuoteOp
    else Ignored
  }

  /**
   * The effect of operator `k` with operands `ops`. Only `q` and `Q` touch
   * the stack; only the showing operators add spans, and they only add.
   */
  function Perform(m: Machine, k: OpKind, ops: seq<Operand>): (r: Machine)
    ensures k == Ignored || k == EndText ==> r == m
    ensures k != Save && k != Restore ==> r.stack == m.stack
    ensures !k.Shows() ==> r.spans == m.spans
    ensures m.spans <= r.spans
  {
    var st := m.state;
    match k
    case Save => m.(stack := m.stack + [st])
    case Restore =>
      if m.stack != [] then m.(state := m.stack[|m.stack| - 1], stack := m.stack[..|m.stack| - 1]) else m
    case BeginText => m.(state := st.(textMatrix := IDENTITY, lineMatrix := IDENTITY))
    case EndText => m
    case SetFontOp => m.(state := SetFont(st, ops))
    case SetLeading => m.(state := SetParameter(st, "TL", ops))
    case SetCharSpacing => m.(state := SetParameter(st, "Tc", ops))
    case SetWordSpacing => m.(state := SetParameter(st, "Tw", ops))
    case MoveText => m.(state := MoveLine(st, "Td", ops))
    case MoveTextSetLeading => m.(state := MoveLine(st, "TD", ops))
    case SetTextMatrix => m.(state := SetMatrix(st, ops))
    case NextLineOp => m.(state := NextLine(st))
    case ShowOp => ShowLast(m, ops)
    case ShowArrayOp =>
      (match LastOperand(ops)
       case Some(ArrayOp(items)) => ShowArrayF(m, items)
       case _ => m)
    case QuoteOp => ShowLast(m.(state := NextLine(st)), ops)
    case DoubleQuoteOp => ShowLast(m.(state := NextLine(SetSpacing(st, ops))), ops)
    case Ignored => m
  }

  /** `execute_operator`: an unknown operator changes nothing. */
  function ExecuteF(m: Machine, op: string, ops: seq<Operand>): (r: Machine)
    ensures op !in OPERATORS ==> r == m
    ensures op != "q" && op != "Q" ==> r.stack == m.stack
    ensures op !in SHOWING ==> r.spans == m.spans
    ensures m.spans <= r.spans
  {
    Perform(m, OpOf(op), ops)
  }

  // ---------------------------------------------------------------------------
  // The whole stream

  /** A statement's effect: its operator applied, or nothing. */
  function Apply(m: Machine, s: Statement): (r: Machine)
    ensures m.spans <= r.spans
  {
    if s.Operator? then ExecuteF(m, s.name, s.operands) else m
  }

  /** An interpreter step that never takes back a span it has shown. */
  ghost predicate KeepsSpans(apply: (Machine, Statement) -> Machine)
  {
    forall m: Machine, s: Statement :: m.spans <= apply(m, s).spans
  }

  /**
   * `parse` from `p`, with `apply` executing each statement: statement after
   * statement until the end; the spans shown. A position that starts no
   * statement and is not passed over by the operand reader (a stray `]` or
   * `>`) is stepped over.
   */
  function RunWith(data: seq<byte>, p: nat, m: Machine, apply: (Machine, Statement) -> Machine): (r: Result<seq<TextSpan>>)
    requires KeepsSpans(apply)
    ensures r.Ok? ==> m.spans <= r.value
    decreases Rem(data, p)
  {
    if p >= |data| then Ok(m.spans)
    else
      var q := SkipSpaceF(data, p);
      if q >= |data| then Ok(m.spans)
      else
        match StatementF(data, q, [])
        case Err(e) => Err(e)
        case Ok(s) => RunWith(data, if s.next == q then q + 1 else s.next, apply(m, s), apply)
  }

  /** `parse` from `p` with every operator applied by the interpreter. */
  function RunF(data: seq<byte>, p: nat, m: Machine): (r: Result<seq<TextSpan>>)
    ensures r.Ok? ==> m.spans <= r.value
  {
    RunWith(data, p, m, Apply)
  }

  /** `RunWith` at the end of the data, or where only white space is left. */
  lemma RunEnd(data: seq<byte>, p: nat, m: Machine, apply: (Machine, Statement) -> Machine)
    requires KeepsSpans(apply)
    requires p >= |data| || SkipSpaceF(data, p) >= |data|
    ensures RunWith(data, p, m, apply) == Ok(m.spans)
  {
  }

  /** `RunWith` where the next statement fails: that failure. */
  lemma RunErr(data: seq<byte>, p: nat, m: Machine, apply: (Machine, Statement) -> Machine)
    requires KeepsSpans(apply)
    requires p < |data| && SkipSpaceF(data, p) < |data|
    requires StatementF(data, SkipSpaceF(data, p), []).Err?
    ensures RunWith(data, p, m, apply) == Err(StatementF(data, SkipSpaceF(data, p), []).error)
  {
  }

  /** `RunWith` where the next statement is read: that statement applied, then the rest. */
  lemma RunNext(data: seq<byte>, p: nat, m: Machine, apply: (Machine, Statement) -> Machine, s: Statement, next: nat, m': Machine)
    requires KeepsSpans(apply)
    requires p < |data| && SkipSpaceF(data, p) < |data|
    requires StatementF(data, SkipSpaceF(data, p), []) == Ok(s)
    requires next == if s.next == SkipSpaceF(data, p) then s.next + 1 else s.next
    requires m' == apply(m, s)
    ensures RunWith(data, p, m, apply) == RunWith(data, next, m', apply)
  {
    var q := SkipSpaceF(data, p);
    assert RunWith(data, p, m, apply) == RunWith(data, if s.next == q then q + 1 else s.next, apply(m, s), apply);
  }

  /** The spans of a content stream: `ContentParser::new(data).parse()`. */
  function ContentSpansF(data: seq<byte>): (r: Result<seq<TextSpan>>)
  {
    RunF(data, 0, START)
  }

  /**
   * `parse` as written, with `apply` executing each statement: the cursor is
   * not moved past a stray `]` or `>`, so the outer loop comes back to the
   * same position for ever. `None` means the loop was still running after
   * `fuel` statements.
   */
  function RunAsWrittenWith(data: seq<byte>, p: nat, m: Machine, apply: (Machine, Statement) -> Machine, fuel: nat): Option<Result<seq<TextSpan>>>
    decreases fuel
  {
    if fuel == 0 then None
    else if p >= |data| then Some(Ok(m.spans))
    else
      var q := SkipSpaceF(data, p);
      if q >= |data| then Some(Ok(m.spans))
      else
        match StatementF(data, q, [])
        case Err(e) => Some(Err(e))
        case Ok(s) => RunAsWrittenWith(data, s.next, apply(m, s), apply, fuel - 1)
  }

  /** `parse` as written, with every operator applied by the interpreter. */
  function RunAsWritten(data: seq<byte>, p: nat, m: Machine, fuel: nat): Option<Result<seq<TextSpan>>>
  {
    RunAsWrittenWith(data, p, m, Apply, fuel)
  }

  /** As written, a stray `]` or `>` where a statement starts makes `parse` loop for ever, whatever the operators do. */
  lemma {:induction false} StrayDelimiterSpins(data: seq<byte>, p: nat, m: Machine, apply: (Machine, Statement) -> Machine, fuel: nat)
    requires SkipSpaceF(data, p) < |data|
    requires data[SkipSpaceF(data, p)] == L.RBRACKET || data[SkipSpaceF(data, p)] == L.GT
    ensures RunAsWrittenWith(data, p, m, apply, fuel) == None
    decreases fuel
  {
    if fuel > 0 {
      var q := SkipSpaceF(data, p);
      StrayDelimiterDiscarded(data, q, []);
      assert SkipSpaceF(data, q) == q;
      StrayDelimiterSpins(data, q, apply(m, Discarded(q)), apply, fuel - 1);
    }
  }

  /**
   * Wherever the loop as written finishes, the corrected loop finishes with
   * the same outcome, whatever the operators do.
   */
  lemma {:induction false} RunAgrees(data: seq<byte>, p: nat, m: Machine, apply: (Machine, Statement) -> Machine, fuel: nat)
    requires KeepsSpans(apply)
    requires RunAsWrittenWith(data, p, m, apply, fuel).Some?
    ensures RunWith(data, p, m, apply) == RunAsWrittenWith(data, p, m, apply, fuel).value
    decreases fuel
  {
    if p < |data| && SkipSpaceF(data, p) < |data| && StatementF(data, SkipSpaceF(data, p), []).Ok? {
      var q := SkipSpaceF(data, p);
      var s := StatementF(data, q, []).value;
      if s.next == q {
        assert SkipSpaceF(data, q) == q;
        StrayDelimiterSpins(data, q, apply(m, s), apply, fuel - 1);
        assert false;
      }
      RunAgrees(data, s.next, apply(m, s), apply, fuel - 1);
    }
  }

  /** The stream `]`: as written the parser never returns; corrected, it shows nothing. */
  lemma StrayBracketExample(fuel: nat)
    ensures RunAsWritten([L.RBRACKET], 0, START, fuel) == None
    ensures ContentSpansF([L.RBRACKET]) == Ok([])
  {
    var data := [L.RBRACKET];
    StrayDelimiterSpins(data, 0, START, Apply, fuel);
    StrayDelimiterDiscarded(data, 0, []);
    assert SkipSpaceF(data, 0) == 0;
    assert RunF(data, 1, START) == Ok([]);
  }

  // ---------------------------------------------------------------------------
  // Properties of the scanners

  /** `str::parse::<f64>` reads the decimal spelling of an integer back as that integer. */
  lemma ParseDecimalOfText(n: i64)
    ensures ParseDecimalReal(I64ToText(n)) == Some(n as real)
  {
    var m: nat := if n < 0 then 0 - n as int else n as int;
    var d := NatToDigits(m);
    DigitsValueOfNatToDigits(m);
    if n < 0 {
      assert I64ToText(n) == "-" + d;
      ParseDecimalOfDigits("-" + d, d);
    } else {
      assert IsDigit(d[0]);
      ParseDecimalOfDigits(d, d);
    }
  }

  /** A run of digits, with or without a minus sign before it, parses as its value. */
  lemma ParseDecimalOfDigits(s: string, d: string)
    requires d != [] && AllDigits(d) && (s == d || s == "-" + d)
    ensures ParseDecimalReal(s) == Some(if s == d then DigitsValue(d) as real else -(DigitsValue(d) as real))
  {
    assert IsDigit(d[0]);
    var body := if |s| > 0 && (s[0] == '+' || s[0] == '-') then s[1..] else s;
    assert body == d;
    assert forall i | 0 <= i < |d| :: d[i] != '.';
    var k := IndexOfChar(d, '.');
    assert k == |d| && d[..k] == d;
    assert s[0] == '-' <==> s != d;
  }

  lemma {:induction false} DigitsEndOfRun(data: seq<byte>, p: nat, e: nat)
    requires p <= e <= |data|
    requires forall i | p <= i < e :: IsNumberByte(data[i])
    requires e < |data| ==> !IsNumberByte(data[e])
    ensures DigitsEnd(data, p) == e
    decreases e - p
  {
    if p < e {
      DigitsEndOfRun(data, p + 1, e);
    }
  }

  /** The spelling of an integer: a minus sign exactly for a negative one, then digits. */
  lemma TextShape(n: i64)
    ensures |I64ToText(n)| > 0 && (I64ToText(n)[0] == '-' <==> n < 0)
    ensures forall i | (if n < 0 then 1 else 0) <= i < |I64ToText(n)| :: IsDigit(I64ToText(n)[i])
  {
    var m: nat := if n < 0 then 0 - n as int else n as int;
    var d := NatToDigits(m);
    if n < 0 {
      assert I64ToText(n) == "-" + d;
    } else {
      assert IsDigit(d[0]);
    }
  }

  /** What `read_number` computes, spelled out: the text of the run after an optional sign, parsed. */
  lemma NumberUnfold(data: seq<byte>, p: nat)
    requires p < |data|
    ensures var end := DigitsEnd(data, if data[p] == L.PLUS || data[p] == L.MINUS then p + 1 else p);
      var text := Latin1(data[p..end]);
      NumberF(data, p) == match ParseDecimalReal(text)
        case None => Err(Parse(p, "Invalid number: " + text))
        case Some(x) => Ok(L.Lexed(x, end))
  {
  }

  /** The decimal spelling of an integer is a signed digit run that parses back as the integer. */
  lemma SpelledInteger(n: i64)
    ensures SignedDigits(I64ToText(n)) && ParseDecimalReal(I64ToText(n)) == Some(n as real)
  {
    TextShape(n);
    ParseDecimalOfText(n);
  }

  /** An optional minus sign, then decimal digits only. */
  predicate SignedDigits(t: string)
  {
    |t| > 0 && (t[0] == '-' || IsDigit(t[0])) && forall i | 1 <= i < |t| :: IsDigit(t[i])
  }

  /**
   * A number spelled as a run of a sign, digits and points that parses, and
   * not followed by more of a number, reads as its value.
   */
  lemma NumberOfSpelled(data: seq<byte>, p: nat, t: string, x: real)
    requires NumberRun(t) && ParseDecimalReal(t) == Some(x)
    requires p + |t| <= |data| && Latin1(data[p..p + |t|]) == t
    requires p + |t| < |data| ==> !IsNumberByte(data[p + |t|])
    ensures NumberF(data, p) == Ok(L.Lexed(x, p + |t|))
  {
    SpelledRunEnd(data, p, t);
    NumberOfRun(data, p, p + |t|, t, x);
  }

  /** A signed digit run is a run for the number scan. */
  lemma SignedDigitsRun(t: string)
    requires SignedDigits(t)
    ensures NumberRun(t)
  {
  }

  /** Text the number scan reads as one run: a minus, a digit or a point, then digits and points. */
  predicate NumberRun(t: string)
  {
    |t| > 0 && (t[0] == '-' || t[0] == '.' || IsDigit(t[0])) && forall i | 1 <= i < |t| :: IsDigit(t[i]) || t[i] == '.'
  }

  /** The number reader's scan over a spelled run stops right after it. */
  lemma SpelledRunEnd(data: seq<byte>, p: nat, t: string)
    requires NumberRun(t)
    requires p + |t| <= |data| && Latin1(data[p..p + |t|]) == t
    requires p + |t| < |data| ==> !IsNumberByte(data[p + |t|])
    ensures DigitsEnd(data, if data[p] == L.PLUS || data[p] == L.MINUS then p + 1 else p) == p + |t|
  {
    var e := p + |t|;
    BytesOfText(data, p, t);
    assert data[p] == t[0] as int;
    var start := if t[0] == '-' then p + 1 else p;
    forall i | start <= i < e
      ensures IsNumberByte(data[i])
    {
      assert data[i] == t[i - p] as int;
    }
    DigitsEndOfRun(data, start, e);
  }

  /** The bytes whose Latin-1 reading is `t` are the codes of `t`'s characters. */
  lemma BytesOfText(data: seq<byte>, p: nat, t: string)
    requires p + |t| <= |data| && Latin1(data[p..p + |t|]) == t
    ensures forall i | p <= i < p + |t| :: data[i] == t[i - p] as int
  {
    forall i | p <= i < p + |t|
      ensures data[i] == t[i - p] as int
    {
      assert data[p..p + |t|][i - p] == data[i];
    }
  }

  /** A scan that stops at `e` over bytes spelling `t`, where `t` parses as `x`, reads `x`. */
  lemma NumberOfRun(data: seq<byte>, p: nat, e: nat, t: string, x: real)
    requires p < |data| && p <= e <= |data|
    requires DigitsEnd(data, if data[p] == L.PLUS || data[p] == L.MINUS then p + 1 else p) == e
    requires Latin1(data[p..e]) == t && ParseDecimalReal(t) == Some(x)
    ensures NumberF(data, p) == Ok(L.Lexed(x, e))
  {
  }

  /** Reading one spelled byte inside a literal string yields that byte. */
  lemma StringStep(data: seq<byte>, p: nat, b: byte, acc: seq<byte>)
    requires p + |L.LiteralByteSpelling(b)| <= |data|
    requires data[p..p + |L.LiteralByteSpelling(b)|] == L.LiteralByteSpelling(b)
    ensures StringBodyF(data, p, 1, acc, false) == StringBodyF(data, p + |L.LiteralByteSpelling(b)|, 1, acc + [b], false)
  {
    var e := L.LiteralByteSpelling(b);
    assert data[p] == e[0];
    if |e| == 2 {
      assert data[p + 1] == b;
    }
  }

  /** A spelled string body followed by `)` reads back as its bytes. */
  lemma {:induction false} StringOfSpelled(data: seq<byte>, p: nat, s: seq<byte>, e: nat, acc: seq<byte>)
    requires L.LiteralSpelledAt(data, p, s, e) && e < |data| && data[e] == L.RPAREN
    ensures StringBodyF(data, p, 1, acc, false) == Literal(acc + s, e + 1, false)
    decreases |s|
  {
    if s == [] {
      assert acc + s == acc;
    } else {
      StringStep(data, p, s[0], acc);
      StringOfSpelled(data, p + |L.LiteralByteSpelling(s[0])|, s[1..], e, acc + [s[0]]);
      L.AppendHead<byte>(acc, s);
    }
  }

  /** Every byte string, escaped and put in parentheses, reads back as that string, whatever follows it. */
  lemma StringRoundTrip(s: seq<byte>, rest: seq<byte>)
    ensures StringF([L.LPAREN] + L.EscapeLiteral(s) + [L.RPAREN] + rest, 0)
         == Literal(s, |L.EscapeLiteral(s)| + 2, false)
  {
    var d := L.EscapeLiteral(s);
    var data := [L.LPAREN] + d + [L.RPAREN] + rest;
    L.Framed(data, L.LPAREN, d, L.RPAREN, rest);
    L.LiteralSpelledOfEscaped(data, 1, s);
    StringOfSpelled(data, 1, s, 1 + |d|, []);
    assert [] + s == s;
  }

  /**
   * A three-digit octal escape: the string holds the low eight bits of its
   * value, and the value overflows a byte exactly when it is above 255.
   */
  lemma OctalEscape(d1: byte, d2: byte, d3: byte)
    requires L.IsOctalByte(d1) && L.IsOctalByte(d2) && L.IsOctalByte(d3)
    ensures var v := 64 * (d1 - 0x30) + 8 * (d2 - 0x30) + (d3 - 0x30);
      StringF([L.LPAREN, L.BACKSLASH, d1, d2, d3, L.RPAREN], 0) == Literal([v % 256], 6, v > 255)
  {
    var data := [L.LPAREN, L.BACKSLASH, d1, d2, d3, L.RPAREN];
    var v := 64 * (d1 - 0x30) + 8 * (d2 - 0x30) + (d3 - 0x30);
    assert L.OctalF(data, 5, v, 0) == (v, 5);
    assert L.OctalF(data, 4, 8 * (d1 - 0x30) + (d2 - 0x30), 1) == (v, 5);
    assert L.OctalF(data, 3, d1 - 0x30, 2) == (v, 5);
    assert [] + [v % 256] == [v % 256];
    assert StringBodyF(data, 5, 1, [v % 256], false || v > 255) == Literal([v % 256], 6, v > 255);
  }

  /** `(\400)`: kept to eight bits the escape is 0, but the `u8` arithmetic as written overflows. */
  lemma OctalOverflowExample()
    ensures StringF([L.LPAREN, L.BACKSLASH, 0x34, 0x30, 0x30, L.RPAREN], 0) == Literal([0], 6, true)
    ensures StringAsWritten([L.LPAREN, L.BACKSLASH, 0x34, 0x30, 0x30, L.RPAREN], 0) == None
  {
    OctalEscape(0x34, 0x30, 0x30);
  }

  lemma {:induction false} HexDigitsOfRun(data: seq<byte>, p: nat, d: seq<byte>, acc: seq<byte>)
    requires forall i | 0 <= i < |d| :: L.IsHexByte(d[i])
    requires p + |d| < |data| && data[p..p + |d|] == d && data[p + |d|] == L.GT
    ensures HexDigitsF(data, p, acc) == L.Lexed(acc + d, p + |d| + 1)
    decreases |d|
  {
    if d == [] {
      assert acc + d == acc;
    } else {
      assert data[p] == d[0];
      assert data[p + 1..p + 1 + |d[1..]|] == d[1..];
      HexDigitsOfRun(data, p + 1, d[1..], acc + [d[0]]);
      L.AppendHead(acc, d);
    }
  }

  /** Bytes written as hexadecimal digits and closed by `>` read back as those bytes. */
  lemma HexRoundTrip(s: seq<byte>, rest: seq<byte>)
    ensures HexF(L.HexEncode(s) + [L.GT] + rest, 0) == L.Lexed(s, 2 * |s| + 1)
  {
    var data := L.HexEncode(s) + [L.GT] + rest;
    HexRunOfEncoded(s, rest);
    var run := HexDigitsF(data, 0, []);
    L.HexDecodeOfEncode(s);
    assert run.value == L.HexEncode(s) && run.next == 2 * |s| + 1;
    assert HexF(data, 0) == L.Lexed(L.HexDecodeDigits(run.value), run.next);
  }

  /** The digits of an encoded string, closed by `>`, are read as one run. */
  lemma HexRunOfEncoded(s: seq<byte>, rest: seq<byte>)
    ensures HexDigitsF(L.HexEncode(s) + [L.GT] + rest, 0, []) == L.Lexed(L.HexEncode(s), 2 * |s| + 1)
  {
    var d := L.HexEncode(s);
    var data := d + [L.GT] + rest;
    ClosedRun(d, L.GT, rest);
    HexDigitsOfRun(data, 0, d, []);
    assert [] + d == d;
  }

  /** A run followed by a closing byte and more data begins the data. */
  lemma ClosedRun(d: seq<byte>, close: byte, rest: seq<byte>)
    ensures var data := d + [close] + rest; |d| < |data| && data[0..|d|] == d && data[|d|] == close
  {
    var data := d + [close] + rest;
    assert data[0..|d|] == d;
  }

  /** A dictionary with no nested brackets is skipped through its first `>>`. */
  lemma {:induction false} FlatDictionary(data: seq<byte>, p: nat, e: nat)
    requires p <= e && e + 1 < |data| && data[e] == L.GT && data[e + 1] == L.GT
    requires forall i | p <= i < e :: data[i] != L.LT && data[i] != L.GT
    ensures DictEndF(data, p, 1) == e + 2
    decreases e - p
  {
    if p < e {
      FlatDictionary(data, p + 1, e);
    }
  }

  lemma SpanCharSpace(b: byte)
    ensures IsWhiteSpace(SpanChar(b)) <==> !Visible(b)
  {
  }

  /** A string shows a span exactly when one of its bytes is visible. */
  lemma {:induction false} ShowsIffVisible(m: Machine, bytes: seq<byte>)
    ensures SpanText(bytes) != [] <==> exists i | 0 <= i < |bytes| :: Visible(bytes[i])
    ensures |ShowTextF(m, bytes).spans| == |m.spans| + 1 <==> exists i | 0 <= i < |bytes| :: Visible(bytes[i])
  {
    var s := SpanChars(bytes);
    TrimEmptyIffBlank(s);
    assert SpanText(bytes) == Trim(s);
    forall i | 0 <= i < |bytes| ensures IsWhiteSpace(s[i]) <==> !Visible(bytes[i]) {
      SpanCharSpace(bytes[i]);
    }
  }

  // ---------------------------------------------------------------------------
  // Every span shown is tidy

  lemma ShowTextTidy(m: Machine, bytes: seq<byte>)
    requires AllTidy(m.spans)
    ensures AllTidy(ShowTextF(m, bytes).spans)
  {
    var text := SpanText(bytes);
    SpanTextTidy(bytes);
    EmitTidy(m.spans, m.state, text);
    assert ShowTextF(m, bytes).spans == Emit(m.spans, m.state, text);
  }

  lemma EmitTidy(spans: seq<TextSpan>, st: GraphicsState, text: string)
    requires AllTidy(spans) && (text != [] ==> Tidy(text))
    ensures AllTidy(Emit(spans, st, text))
  {
    if text != [] {
      var r := Emit(spans, st, text);
      assert forall i | 0 <= i < |spans| :: r[i] == spans[i];
      assert r[|spans|].text == text;
    }
  }

  lemma ShowLastTidy(m: Machine, ops: seq<Operand>)
    requires AllTidy(m.spans)
    ensures AllTidy(ShowLast(m, ops).spans)
  {
    if LastOperand(ops).Some? && LastOperand(ops).value.Str? {
      ShowTextTidy(m, LastOperand(ops).value.bytes);
    }
  }

  lemma {:induction false} ShowArrayTidy(m: Machine, items: seq<Operand>)
    requires AllTidy(m.spans)
    ensures AllTidy(ShowArrayF(m, items).spans)
    decreases |items|
  {
    if items != [] {
      if items[0].Str? {
        ShowTextTidy(m, items[0].bytes);
      }
      ShowArrayTidy(ShowItemF(m, items[0]), items[1..]);
    }
  }

  lemma PerformTidy(m: Machine, k: OpKind, ops: seq<Operand>)
    requires AllTidy(m.spans)
    ensures AllTidy(Perform(m, k, ops).spans)
  {
    match k
    case ShowOp => ShowLastTidy(m, ops);
    case ShowArrayOp =>
      if LastOperand(ops).Some? && LastOperand(ops).value.ArrayOp? {
        ShowArrayTidy(m, LastOperand(ops).value.items);
      }
    case QuoteOp => ShowLastTidy(m.(state := NextLine(m.state)), ops);
    case DoubleQuoteOp => ShowLastTidy(m.(state := NextLine(SetSpacing(m.state, ops))), ops);
    case _ =>
  }

  lemma {:induction false} RunTidy(data: seq<byte>, p: nat, m: Machine)
    requires AllTidy(m.spans)
    ensures RunF(data, p, m).Ok? ==> AllTidy(RunF(data, p, m).value)
    decreases Rem(data, p)
  {
    if p < |data| {
      var q := SkipSpaceF(data, p);
      if q < |data| {
        var st := StatementF(data, q, []);
        if st.Ok? {
          var s := st.value;
          if s.Operator? {
            PerformTidy(m, OpOf(s.name), s.operands);
          }
          RunTidy(data, if s.next == q then q + 1 else s.next, Apply(m, s));
        }
      }
    }
  }

  /** Every span of a content stream has text, and no white space at either end. */
  lemma ContentSpansTidy(data: seq<byte>)
    ensures ContentSpansF(data).Ok? ==> AllTidy(ContentSpansF(data).value)
  {
    RunTidy(data, 0, START);
  }

  // ---------------------------------------------------------------------------
  // Properties of the operators

  /** `q` then `Q` leaves the interpreter as it was. */
  lemma SaveRestore(m: Machine, a: seq<Operand>, b: seq<Operand>)
    ensures Perform(Perform(m, Save, a), Restore, b) == m
  {
    var m1 := Perform(m, Save, a);
    assert m1.stack[..|m1.stack| - 1] == m.stack;
  }

  /** `Q` with nothing saved changes nothing. */
  lemma RestoreWithoutSave(m: Machine, ops: seq<Operand>)
    requires m.stack == []
    ensures Perform(m, Restore, ops) == m
  {
  }

  /** Two `Td` moves add up, both measured from the start of the line. */
  lemma MovesAdd(m: Machine, x1: real, y1: real, x2: real, y2: real)
    ensures Perform(Perform(m, MoveText, [Number(x1), Number(y1)]), MoveText, [Number(x2), Number(y2)]).state
         == Translate(m.state, x1 + x2, y1 + y2)
  {
  }

  /** After `tx ty TD`, `T*` moves down the line by `ty` again: `TD` sets the leading to `-ty`. */
  lemma NextLineRepeatsTD(m: Machine, tx: real, ty: real)
    ensures var m1 := Perform(m, MoveTextSetLeading, [Number(tx), Number(ty)]);
      Perform(m1, NextLineOp, []) == Perform(m1, MoveText, [Number(0.0), Number(ty)])
  {
  }

  /** `'` is `T*` followed by `Tj`. */
  lemma QuoteIsNextLineThenShow(m: Machine, ops: seq<Operand>)
    ensures Perform(m, QuoteOp, ops) == Perform(Perform(m, NextLineOp, []), ShowOp, ops)
  {
  }

  /** `aw ac string "` is `aw Tw`, then `ac Tc`, then `string '`. */
  lemma DoubleQuoteIsSpacingThenQuote(m: Machine, aw: real, ac: real, s: seq<byte>)
    ensures Perform(m, DoubleQuoteOp, [Number(aw), Number(ac), Str(s)])
         == Perform(Perform(Perform(m, SetWordSpacing, [Number(aw)]), SetCharSpacing, [Number(ac)]), QuoteOp, [Str(s)])
  {
    var ops := [Number(aw), Number(ac), Str(s)];
    var st2 := m.state.(wordSpacing := aw, charSpacing := ac);
    assert SetSpacing(m.state, ops) == st2;
    assert Perform(Perform(m, SetWordSpacing, [Number(aw)]), SetCharSpacing, [Number(ac)]) == m.(state := st2);
    assert LastOperand(ops) == LastOperand([Str(s)]);
  }

  lemma ShowArrayStep(m: Machine, items: seq<Operand>, i: nat)
    requires i < |items|
    ensures ShowArrayF(m, items[i..]) == ShowArrayF(ShowItemF(m, items[i]), items[i + 1..])
  {
    assert items[i..][1..] == items[i + 1..];
  }

  /** A `TJ` array of two strings shows them one after the other. */
  lemma ArrayOfTwoStrings(m: Machine, a: seq<byte>, b: seq<byte>)
    ensures ShowArrayF(m, [Str(a), Str(b)]) == ShowTextF(ShowTextF(m, a), b)
  {
    var m1 := ShowTextF(m, a);
    assert [Str(a), Str(b)][1..] == [Str(b)];
    assert ShowArrayF(m, [Str(a), Str(b)]) == ShowArrayF(m1, [Str(b)]);
    assert ShowArrayF(m1, [Str(b)]) == ShowArrayF(ShowTextF(m1, b), []);
  }

  /** A `TJ` array of two strings shows them as two `Tj` would. */
  lemma ShowArrayOfStrings(m: Machine, a: seq<byte>, b: seq<byte>)
    ensures Perform(m, ShowArrayOp, [ArrayOp([Str(a), Str(b)])]) == Perform(Perform(m, ShowOp, [Str(a)]), ShowOp, [Str(b)])
  {
    ArrayOfTwoStrings(m, a, b);
    PerformShowArray(m, [Str(a), Str(b)]);
    PerformShow(m, a);
    PerformShow(ShowTextF(m, a), b);
  }

  lemma PerformShowArray(m: Machine, items: seq<Operand>)
    ensures Perform(m, ShowArrayOp, [ArrayOp(items)]) == ShowArrayF(m, items)
  {
    assert LastOperand([ArrayOp(items)]) == Some(ArrayOp(items));
  }

  lemma PerformShow(m: Machine, s: seq<byte>)
    ensures Perform(m, ShowOp, [Str(s)]) == ShowTextF(m, s)
  {
    PerformShowLast(m, [Str(s)]);
    assert LastOperand([Str(s)]) == Some(Str(s));
  }

  lemma PerformShowLast(m: Machine, ops: seq<Operand>)
    ensures Perform(m, ShowOp, ops) == ShowLast(m, ops)
  {
  }

  /** `a b c d e f Tm` sets both matrices to `[a b c d e f]`. */
  lemma SetMatrixOfSix(m: Machine, a: real, b: real, c: real, d: real, e: real, f: real)
    ensures var st := Perform(m, SetTextMatrix, [Number(a), Number(b), Number(c), Number(d), Number(e), Number(f)]).state;
      st.textMatrix == Matrix(a, b, c, d, e, f) && st.lineMatrix == st.textMatrix
  {
    var ops := [Number(a), Number(b), Number(c), Number(d), Number(e), Number(f)];
    assert Numbers(ops[6..]) == [];
    assert Numbers(ops[5..]) == [f];
    assert Numbers(ops[4..]) == [e, f];
    assert Numbers(ops[3..]) == [d, e, f];
    assert Numbers(ops[2..]) == [c, d, e, f];
    assert Numbers(ops[1..]) == [b, c, d, e, f];
    assert Numbers(ops) == [a, b, c, d, e, f];
  }

  // ---------------------------------------------------------------------------
  // The interpreter object

  /**
   * `ContentParser`: the cursor over the stream, the current text state, the
   * saved states and the spans shown so far. Every method is proved to do
   * what the function of the same name above describes.
   */
  class ContentParser {
    const data: seq<byte>
    var pos: nat
    var state: GraphicsState
    var stateStack: seq<GraphicsState>
    var spans: seq<TextSpan>

    /** The interpreter's state as a value. */
    function Current(): Machine
      reads this
    {
      Machine(state, stateStack, spans)
    }

    /** `ContentParser::new`: the cursor at 0, the default state, nothing saved or shown. */
    constructor(data: seq<byte>)
      ensures this.data == data && pos == 0 && Current() == START
    {
      this.data := data;
      pos := 0;
      state := DEFAULT_STATE;
      stateStack := [];
      spans := [];
    }

    /**
     * `parse`: statement after statement until the end of the data. A
     * position that starts no statement is stepped over, where the program
     * as written stays on it (see `RunAsWritten`).
     */
    method Parse() returns (r: Result<seq<TextSpan>>)
      modifies this
      ensures r == RunF(data, old(pos), old(Current()))
    {
      ghost var goal := RunF(data, pos, Current());
      while pos < |data|
        invariant RunF(data, pos, Current()) == goal
        decreases Rem(data, pos)
      {
        var out := Step();
        if out.Some? {
          return out.value;
        }
      }
      RunEnd(data, pos, Current(), Apply);
      r := Ok(spans);
    }

    /**
     * One pass of `parse`'s loop: white space skipped, then one statement
     * read and applied. `Some` when `parse` returns here: the data ended
     * (the spans shown so far) or the statement failed.
     */
    method Step() returns (r: Option<Result<seq<TextSpan>>>)
      requires pos < |data|
      modifies this
      ensures r.Some? ==> r.value == RunF(data, old(pos), old(Current()))
      ensures r.None? ==> Rem(data, pos) < Rem(data, old(pos)) && RunF(data, pos, Current()) == RunF(data, old(pos), old(Current()))
    {
      ghost var p0, m := pos, Current();
      SkipWhitespace();
      if pos >= |data| {
        RunEnd(data, p0, m, Apply);
        return Some(Ok(spans));
      }
      var start := pos;
      var stmt := ParseStatement();
      if stmt.Err? {
        RunErr(data, p0, m, Apply);
        return Some(Err(stmt.error));
      }
      if pos == start {
        pos := start + 1;
      }
      RunNext(data, p0, m, Apply, stmt.value, pos, Current());
      r := None;
    }

    /**
     * The inner loop of `parse`: operands read until an operator, which is
     * applied, or until the operand reader reads nothing or the data ends.
     */
    method ParseStatement() returns (r: Result<Statement>)
      modifies this
      ensures r == StatementF(data, old(pos), [])
      ensures r.Ok? ==> pos == r.value.next && Current() == Apply(old(Current()), r.value)
      ensures r.Err? ==> Current() == old(Current())
    {
      ghost var m := Current();
      var operands: seq<Operand> := [];
      ghost var stmt := StatementF(data, pos, []);
      while true
        invariant StatementF(data, pos, operands) == stmt
        invariant Current() == m
        decreases Rem(data, pos)
      {
        SkipWhitespace();
        if pos >= |data| {
          return Ok(Discarded(pos));
        }
        var b := data[pos];
        if StartsOperator(b) {
          var op := ReadOperator();
          ExecuteOperator(op, operands);
          return Ok(Operator(op, operands, pos));
        }
        var o := ParseOperand();
        if o.Err? {
          return Err(o.error);
        }
        if o.value.Some? {
          operands := operands + [o.value.value];
        } else {
          return Ok(Discarded(pos));
        }
      }
    }

    /** `skip_whitespace`: white space and comments. */
    method SkipWhitespace()
      modifies this`pos
      ensures pos == SkipSpaceF(data, old(pos))
    {
      while pos < |data|
        invariant SkipSpaceF(data, pos) == SkipSpaceF(data, old(pos))
        decreases |data| - pos
      {
        var b := data[pos];
        if L.IsPdfWhiteSpace(b) {
          pos := pos + 1;
        } else if b == L.PERCENT {
          ghost var p := pos;
          while pos < |data| && data[pos] != L.LF
            invariant p <= pos <= |data|
            invariant CommentTail(data, pos) == CommentTail(data, p)
            decreases |data| - pos
          {
            pos := pos + 1;
          }
        } else {
          break;
        }
      }
    }

    /** `read_operator`. */
    method ReadOperator() returns (op: string)
      requires pos <= |data|
      modifies this`pos
      ensures L.Lexed(op, pos) == OperatorF(data, old(pos))
    {
      var start := pos;
      while pos < |data| && IsOperatorByte(data[pos])
        invariant start <= pos <= |data|
        invariant OperatorEnd(data, pos) == OperatorEnd(data, start)
        decreases |data| - pos
      {
        pos := pos + 1;
      }
      op := Latin1(data[start..pos]);
    }

    /** `parse_operand`. */
    method ParseOperand() returns (r: Result<Option<Operand>>)
      modifies this`pos
      ensures L.Agrees(r, OperandF(data, old(pos)), pos)
      decreases Rem(data, pos), 1
    {
      SkipWhitespace();
      if pos >= |data| {
        return Ok(None);
      }
      var b := data[pos];
      if b == L.PLUS || b == L.MINUS || b == L.DOT || L.IsDigitByte(b) {
        var n := ReadNumber();
        r := if n.Ok? then Ok(Some(Number(n.value))) else Err(n.error);
      } else if b == L.LPAREN {
        var bytes := ReadString();
        r := Ok(Some(Str(bytes)));
      } else if b == L.LT {
        pos := pos + 1;
        if pos < |data| && data[pos] == L.LT {
          SkipDict();
          r := Ok(None);
        } else {
          var bytes := ReadHexString();
          r := Ok(Some(Str(bytes)));
        }
      } else if b == L.SLASH {
        var name := ReadName();
        r := Ok(Some(NameOp(name)));
      } else if b == L.LBRACKET {
        var a := ReadArray();
        r := if a.Ok? then Ok(Some(ArrayOp(a.value))) else Err(a.error);
      } else if b == L.RBRACKET || b == L.GT || L.IsLetterByte(b) {
        r := Ok(None);
      } else {
        pos := pos + 1;
        r := Ok(None);
      }
    }

    /** `read_number`. */
    method ReadNumber() returns (r: Result<real>)
      requires pos < |data|
      modifies this`pos
      ensures L.Agrees(r, NumberF(data, old(pos)), pos)
    {
      var start := pos;
      if data[pos] == L.PLUS || data[pos] == L.MINUS {
        pos := pos + 1;
      }
      ghost var first := pos;
      while pos < |data| && IsNumberByte(data[pos])
        invariant first <= pos <= |data|
        invariant DigitsEnd(data, pos) == DigitsEnd(data, first)
        decreases |data| - pos
      {
        pos := pos + 1;
      }
      assert pos == DigitsEnd(data, first);
      var text := Latin1(data[start..pos]);
      var x := ParseDecimalReal(text);
      NumberUnfold(data, start);
      if x.Some? {
        r := Ok(x.value);
      } else {
        r := Err(PdfError.Parse(start, "Invalid number: " + text));
      }
    }

    /** `read_string`, the cursor on the `(`: what a string holds, and the cursor after its `)`. */
    method ReadString() returns (bytes: seq<byte>)
      requires pos < |data|
      modifies this`pos
      ensures bytes == StringF(data, old(pos)).bytes && pos == StringF(data, old(pos)).next
    {
      pos := pos + 1;
      bytes := [];
      var depth: nat := 1;
      ghost var overflow := false;
      ghost var goal := StringBodyF(data, pos, 1, [], false);
      while pos < |data| && depth > 0
        invariant depth > 0 ==> StringBodyF(data, pos, depth, bytes, overflow) == goal
        invariant depth == 0 ==> bytes == goal.bytes && pos == goal.next
        decreases Rem(data, pos)
      {
        var b := data[pos];
        pos := pos + 1;
        if b == L.LPAREN {
          depth := depth + 1;
          bytes := bytes + [b];
        } else if b == L.RPAREN {
          depth := depth - 1;
          if depth > 0 {
            bytes := bytes + [b];
          }
        } else if b == L.BACKSLASH && pos < |data| {
          bytes, overflow := ReadEscape(bytes, overflow);
        } else {
          bytes := bytes + [b];
        }
      }
    }

    /** The escape whose letter is at the cursor, added to `acc`. */
    method ReadEscape(acc: seq<byte>, ghost overflow: bool) returns (bytes: seq<byte>, ghost overflowAfter: bool)
      requires pos < |data|
      modifies this`pos
      ensures (pos, bytes, overflowAfter) == EscapeF(data, old(pos), acc, overflow)
    {
      bytes := acc;
      overflowAfter := overflow;
      var e := data[pos];
      pos := pos + 1;
      if L.IsOctalByte(e) {
        var v: nat := e - 0x30;
        var k := 0;
        ghost var p := pos;
        while k < 2 && pos < |data| && L.IsOctalByte(data[pos])
          invariant 0 <= k <= 2 && p <= pos <= |data|
          invariant L.OctalF(data, pos, v, 2 - k) == L.OctalF(data, p, e - 0x30, 2)
          decreases 2 - k
        {
          v := v * 8 + (data[pos] - 0x30);
          pos := pos + 1;
          k := k + 1;
        }
        overflowAfter := overflow || v > 255;
        bytes := bytes + [v % 256];
      } else if e == L.CR || e == L.LF {
        if e == L.CR && pos < |data| && data[pos] == L.LF {
          pos := pos + 1;
        }
      } else {
        bytes := bytes + [L.EscapedByte(e)];
      }
    }

    /** `read_hex_string`, the `<` consumed. */
    method ReadHexString() returns (bytes: seq<byte>)
      modifies this`pos
      ensures L.Lexed(bytes, pos) == HexF(data, old(pos))
    {
      var hexChars: seq<byte> := [];
      ghost var goal := HexDigitsF(data, pos, []);
      while pos < |data|
        invariant HexDigitsF(data, pos, hexChars) == goal
        decreases |data| - pos
      {
        var b := data[pos];
        pos := pos + 1;
        if b == L.GT {
          break;
        } else if L.IsHexByte(b) {
          hexChars := hexChars + [b];
        }
      }
      bytes := L.HexDecodeDigits(hexChars);
    }

    /** `read_name`, the cursor on the `/`. */
    method ReadName() returns (name: string)
      requires pos < |data|
      modifies this`pos
      ensures L.Lexed(name, pos) == NameF(data, old(pos) + 1)
    {
      pos := pos + 1;
      var start := pos;
      while pos < |data| && IsNameByte(data[pos])
        invariant start <= pos <= |data|
        invariant NameEnd(data, pos) == NameEnd(data, start)
        decreases |data| - pos
      {
        pos := pos + 1;
      }
      name := Latin1(data[start..pos]);
    }

    /** `read_array`, the cursor on the `[`. */
    method ReadArray() returns (r: Result<seq<Operand>>)
      requires pos < |data|
      modifies this`pos
      ensures L.Agrees(r, ArrayF(data, old(pos) + 1, []), pos)
      decreases Rem(data, pos), 0
    {
      var start := pos;
      ghost var goal := ArrayF(data, old(pos) + 1, []);
      pos := pos + 1;
      var items: seq<Operand> := [];
      while true
        invariant start < pos
        invariant ArrayF(data, pos, items) == goal
        decreases Rem(data, pos)
      {
        ghost var p0, items0 := pos, items;
        SkipWhitespace();
        if pos >= |data| || data[pos] == L.RBRACKET {
          ArrayEnd(data, p0, items);
          pos := pos + 1;
          assert goal == Ok(L.Lexed(items, pos));
          break;
        }
        ghost var q := pos;
        var o := ParseOperand();
        if o.Err? {
          ArrayErr(data, p0, items);
          assert goal == Err(o.error);
          return Err(o.error);
        }
        ghost var read := OperandF(data, q).value;
        if o.value.Some? {
          items := items + [o.value.value];
        } else {
          pos := pos + 1;
        }
        ArrayNext(data, p0, items0, read, pos, items);
      }
      r := Ok(items);
      assert L.Agrees(r, goal, pos);
    }

    /** `skip_dict`, the cursor on the second `<`. */
    method SkipDict()
      modifies this`pos
      ensures pos == DictEndF(data, old(pos) + 1, 1)
    {
      pos := pos + 1;
      var depth: nat := 1;
      ghost var goal := DictEndF(data, pos, 1);
      while pos < |data| && depth > 0
        invariant DictEndF(data, pos, depth) == goal
        decreases |data| - pos
      {
        if pos + 1 < |data| && data[pos] == L.LT && data[pos + 1] == L.LT {
          depth := depth + 1;
          pos := pos + 2;
        } else if pos + 1 < |data| && data[pos] == L.GT && data[pos + 1] == L.GT {
          depth := depth - 1;
          pos := pos + 2;
        } else {
          pos := pos + 1;
        }
      }
    }

    /** `execute_operator`. */
    method ExecuteOperator(op: string, operands: seq<Operand>)
      modifies this`state, this`stateStack, this`spans
      ensures Current() == ExecuteF(old(Current()), op, operands)
    {
      match OpOf(op)
      case Save =>
        stateStack := stateStack + [state];
      case Restore =>
        if stateStack != [] {
          state := stateStack[|stateStack| - 1];
          stateStack := stateStack[..|stateStack| - 1];
        }
      case BeginText =>
        state := state.(textMatrix := IDENTITY, lineMatrix := IDENTITY);
      case EndText =>
      case SetFontOp =>
        state := SetFont(state, operands);
      case SetLeading =>
        state := SetParameter(state, "TL", operands);
      case SetCharSpacing =>
        state := SetParameter(state, "Tc", operands);
      case SetWordSpacing =>
        state := SetParameter(state, "Tw", operands);
      case MoveText =>
        state := MoveLine(state, "Td", operands);
      case MoveTextSetLeading =>
        state := MoveLine(state, "TD", operands);
      case SetTextMatrix =>
        state := SetMatrix(state, operands);
      case NextLineOp =>
        state := NextLine(state);
      case ShowOp =>
        ShowLastOperand(operands);
      case ShowArrayOp =>
        if |operands| > 0 && operands[|operands| - 1].ArrayOp? {
          ShowArray(operands[|operands| - 1].items);
        }
      case QuoteOp =>
        state := NextLine(state);
        ShowLastOperand(operands);
      case DoubleQuoteOp =>
        state := NextLine(SetSpacing(state, operands));
        ShowLastOperand(operands);
      case Ignored =>
    }

    /** The loop of `TJ` over the items of its array. */
    method ShowArray(items: seq<Operand>)
      modifies this`state, this`spans
      ensures Current() == ShowArrayF(old(Current()), items)
    {
      ghost var m := Current();
      for i := 0 to |items|
        invariant ShowArrayF(Current(), items[i..]) == ShowArrayF(m, items)
      {
        ShowArrayStep(Current(), items, i);
        ShowItem(items[i]);
      }
      assert items[|items|..] == [];
    }

    /** One item of a `TJ` array: a string shown, or a number moving the text. */
    method ShowItem(item: Operand)
      modifies this`state, this`spans
      ensures Current() == ShowItemF(old(Current()), item)
    {
      if item.Str? {
        AddTextSpan(item.bytes);
      } else if item.Number? {
        state := MoveRight(state, Kern(state, item.n));
      }
    }

    /** The showing step of `Tj`, `'` and `"`: the last operand, when it is a string. */
    method ShowLastOperand(operands: seq<Operand>)
      modifies this`state, this`spans
      ensures Current() == ShowLast(old(Current()), operands)
    {
      if |operands| > 0 && operands[|operands| - 1].Str? {
        AddTextSpan(operands[|operands| - 1].bytes);
      }
    }

    /** `add_text_span`. */
    method AddTextSpan(bytes: seq<byte>)
      modifies this`state, this`spans
      ensures Current() == ShowTextF(old(Current()), bytes)
    {
      var text := SpanText(bytes);
      ShowTextParts(Current(), bytes, text);
      spans := Emit(spans, state, text);
      state := MoveRight(state, Advance(state, |bytes|));
    }
  }

  /** `ContentParser::new(data).parse()`: the spans of a content stream. */
  method ExtractSpans(data: seq<byte>) returns (r: Result<seq<TextSpan>>)
    ensures r == ContentSpansF(data)
    ensures r.Ok? ==> AllTidy(r.value)
  {
    var parser := new ContentParser(data);
    r := parser.Parse();
    ContentSpansTidy(data);
  }
}
