/*
 * The object parser: recursive descent over the tokenizer, with a pushback
 * stack so that `N G R` can be told apart from a plain integer, and the two
 * ways of finding the end of a stream's data.
 *
 * The parser's whole state is the tokenizer's position and the pushback
 * stack (`PState`). Each reader of the `Parser` class is proved to agree with
 * a function on that state; the properties are proved about the functions.
 */
module ObjectParsing {
  import opened Common
  import opened PdfObjects
  import opened Lexing

  /** The tokenizer position and the pushed-back tokens, the last one on top. */
  datatype PState = PState(pos: nat, peeked: seq<Token>)

  /** The bytes left after `p`. */
  function Rem(data: seq<byte>, p: nat): nat
  {
    if p <= |data| then |data| - p else 0
  }

  /**
   * What every token read uses up: a byte read from the input counts three,
   * a token taken off the pushback stack one, so that pushing two tokens back
   * after reading two never undoes the progress.
   */
  function Measure(data: seq<byte>, st: PState): nat
  {
    3 * Rem(data, st.pos) + |st.peeked|
  }

  /** `push_back`. */
  function Pushed(st: PState, t: Token): PState
  {
    PState(st.pos, st.peeked + [t])
  }

  /** `next_token`: the top of the pushback stack if there is one, else the tokenizer's next token. */
  function NextTok(data: seq<byte>, st: PState): (r: Result<(Option<Token>, PState)>)
    ensures st.peeked != [] ==> r == Ok((Some(st.peeked[|st.peeked| - 1]), PState(st.pos, st.peeked[..|st.peeked| - 1])))
    ensures r.Ok? && r.value.0.Some? ==> Measure(data, r.value.1) < Measure(data, st)
    ensures r.Ok? && r.value.0.None? ==> st.peeked == [] && r.value.1 == PState(SkipWs(data, st.pos), [])
    ensures r.Ok? ==> st.pos <= r.value.1.pos
  {
    if st.peeked != [] then
      Ok((Some(st.peeked[|st.peeked| - 1]), PState(st.pos, st.peeked[..|st.peeked| - 1])))
    else
      match NextTokenF(data, st.pos)
      case Err(e) => Err(e)
      case Ok(lx) => Ok((lx.value, PState(lx.next, [])))
  }

  /** The name of a token's variant, as `Debug` begins it. */
  function TokenName(t: Token): string
  {
    match t
    case NullKw => "Null"
    case TrueKw => "True"
    case FalseKw => "False"
    case IntTok(_) => "Int"
    case RealTok(_) => "Real"
    case StrTok(_) => "String"
    case HexStrTok(_) => "HexString"
    case NameTok(_) => "Name"
    case ArrayStart => "ArrayStart"
    case ArrayEnd => "ArrayEnd"
    case DictStart => "DictStart"
    case DictEnd => "DictEnd"
    case ObjKw => "Obj"
    case EndObjKw => "EndObj"
    case StreamKw => "Stream"
    case EndStreamKw => "EndStream"
    case RefKw => "Ref"
    case TrailerKw => "Trailer"
    case StartXRefKw => "StartXRef"
    case XRefKw => "XRef"
  }

  /** A `Vec<u8>` as `Debug` writes it: decimal bytes in brackets, separated by ", ". */
  function ByteListDebug(bs: seq<byte>): (s: string)
    ensures |s| >= 2 && s[0] == '[' && s[|s| - 1] == ']'
    ensures bs == [] <==> s == "[]"
  {
    "[" + Join(seq(|bs|, k requires 0 <= k < |bs| => NatToDigits(bs[k])), ", ") + "]"
  }

  /**
   * A token as `{:?}` writes it, as in "Unexpected token: ArrayEnd" or
   * "Dictionary key must be name, got Int(5)": the variant, then its payload
   * in parentheses. A real is written as its variant alone, and a name's
   * string is not escaped; neither error message can carry a name.
   */
  function TokenDebug(t: Token): (s: string)
    ensures |TokenName(t)| <= |s| && s[..|TokenName(t)|] == TokenName(t)
    ensures s == TokenName(t) <==> !(t.IntTok? || t.StrTok? || t.HexStrTok? || t.NameTok?)
  {
    match t
    case IntTok(n) => TokenName(t) + "(" + I64ToText(n) + ")"
    case StrTok(bs) => TokenName(t) + "(" + ByteListDebug(bs) + ")"
    case HexStrTok(bs) => TokenName(t) + "(" + ByteListDebug(bs) + ")"
    case NameTok(name) => TokenName(t) + "(\"" + name + "\")"
    case _ => TokenName(t)
  }

  /** The integer in `Int(n)` reads back as `n`. */
  lemma IntDebugReadsBack(n: i64)
    ensures var s := TokenDebug(IntTok(n));
      |s| > 4 && s[..4] == "Int(" && s[|s| - 1] == ')' && ParseI64(s[4..|s| - 1]) == Some(n)
  {
    var s := TokenDebug(IntTok(n));
    assert s[4..|s| - 1] == I64ToText(n);
    ParseI64OfText(n);
  }

  /** The spellings of integer tokens. */
  lemma IntDebugExamples()
    ensures TokenDebug(IntTok(5)) == "Int(5)"
    ensures TokenDebug(IntTok(-12)) == "Int(-12)"
  {
    TwoDigits(12);
  }

  /** A number from 10 to 99 is spelled as its tens digit, then its units digit. */
  lemma TwoDigits(n: nat)
    requires 10 <= n < 100
    ensures NatToDigits(n) == [('0' as int + n / 10) as char, ('0' as int + n % 10) as char]
  {
  }

  /** The spellings of literal strings: their bytes in decimal. */
  lemma StringDebugExamples()
    ensures TokenDebug(StrTok([97])) == "String([97])"
    ensures TokenDebug(StrTok([])) == "String([])"
  {
    TwoDigits(97);
    var a: seq<byte> := [97];
    assert seq(|a|, k requires 0 <= k < |a| => NatToDigits(a[k])) == ["97"];
  }

  /** The spelling of a hex string: its decoded bytes, separated by ", ". */
  lemma HexDebugExample()
    ensures TokenDebug(HexStrTok([97, 98])) == "HexString([97, 98])"
  {
    ByteListOfTwo(97, 98);
    TwoDigits(97);
    TwoDigits(98);
  }

  /** Two bytes as `Debug` writes them. */
  lemma ByteListOfTwo(x: byte, y: byte)
    ensures ByteListDebug([x, y]) == "[" + NatToDigits(x) + ", " + NatToDigits(y) + "]"
  {
    var xy: seq<byte> := [x, y];
    var parts := seq(|xy|, k requires 0 <= k < |xy| => NatToDigits(xy[k]));
    assert parts == [NatToDigits(x), NatToDigits(y)];
    assert Join(parts, ", ") == NatToDigits(x) + ", " + Join([NatToDigits(y)], ", ");
  }

  /** `first as u32`: the low 32 bits of an `i64`. */
  function ToU32(n: i64): (r: u32)
    ensures 0 <= n < 0x1_0000_0000 ==> r == n
  {
    n % 0x1_0000_0000
  }

  /** `second as u16`: the low 16 bits of an `i64`. */
  function ToU16(n: i64): (r: u16)
    ensures 0 <= n < 0x1_0000 ==> r == n
  {
    n % 0x1_0000
  }

  /** The result of a parser step: the value read and the state after it. */
  type Step<T> = Result<(T, PState)>

  /**
   * `parse_object`: `None` at the end of the input; scalars map to the object
   * of the same kind; `[` and `<<` start an array and a dictionary or stream;
   * an integer may start a reference; any other token is an error.
   */
  function ParseObjectF(data: seq<byte>, st: PState): (r: Step<Option<PdfObject>>)
    ensures r.Ok? && r.value.0.Some? ==> Measure(data, r.value.1) < Measure(data, st)
    ensures r.Ok? && r.value.0.None? ==> st.peeked == [] && r.value.1 == PState(SkipWs(data, st.pos), [])
    ensures r.Ok? && st.peeked != [] ==> r.value.0.Some?
    decreases Measure(data, st), 1
  {
    var (tok, s1) :- NextTok(data, st);
    match tok
    case None => Ok((None, s1))
    case Some(t) =>
      match t
      case NullKw => Ok((Some(Null), s1))
      case TrueKw => Ok((Some(Bool(true)), s1))
      case FalseKw => Ok((Some(Bool(false)), s1))
      case RealTok(x) => Ok((Some(Real(x)), s1))
      case StrTok(s) => Ok((Some(Str(s)), s1))
      case HexStrTok(s) => Ok((Some(Str(s)), s1))
      case NameTok(n) => Ok((Some(Name(n)), s1))
      case ArrayStart => ParseArrayF(data, s1, [])
      case DictStart => ParseDictF(data, s1, map[])
      case IntTok(n) => ParseIntOrRefF(data, s1, n)
      case _ => Err(Parse(s1.pos, "Unexpected token: " + TokenDebug(t)))
  }

  /**
   * `parse_int_or_ref`, the integer `first` already read: `first second R`
   * is a reference; otherwise `first` is an integer and the tokens read
   * after it go back on the stack in their order.
   */
  function ParseIntOrRefF(data: seq<byte>, st: PState, first: i64): (r: Step<Option<PdfObject>>)
    ensures r.Ok? ==> r.value.0.Some? && Measure(data, r.value.1) <= Measure(data, st)
  {
    var (tok2, s2) :- NextTok(data, st);
    if tok2.None? then Ok((Some(Int(first)), s2))
    else if !tok2.value.IntTok? then Ok((Some(Int(first)), Pushed(s2, tok2.value)))
    else
      var second := tok2.value.n;
      var (tok3, s3) :- NextTok(data, s2);
      if tok3.None? then Ok((Some(Int(first)), Pushed(s3, IntTok(second))))
      else if tok3.value == RefKw then Ok((Some(Ref(ObjRef(ToU32(first), ToU16(second)))), s3))
      else Ok((Some(Int(first)), Pushed(Pushed(s3, tok3.value), IntTok(second))))
  }

  /** `parse_array`, the `[` already read, `items` collected so far. */
  function ParseArrayF(data: seq<byte>, st: PState, items: seq<PdfObject>): (r: Step<Option<PdfObject>>)
    ensures r.Ok? ==> Measure(data, r.value.1) < Measure(data, st)
    ensures r.Ok? ==> r.value.0.Some? && r.value.0.value.Array? && items <= r.value.0.value.items
    decreases Measure(data, st), 2
  {
    var (tok, s1) :- NextTok(data, st);
    match tok
    case None => Err(Parse(s1.pos, "Unterminated array"))
    case Some(t) =>
      if t == ArrayEnd then Ok((Some(Array(items)), s1))
      else
        var (o, s2) :- ParseObjectF(data, Pushed(s1, t));
        ParseArrayF(data, s2, items + [o.value])
  }

  /**
   * `parse_dict_or_stream`, the `<<` already read, `dict` collected so far:
   * name keys and values up to `>>`, a later value replacing an earlier one;
   * then a `stream` keyword makes it a stream, and anything else puts the
   * cursor back just after `>>`.
   */
  function ParseDictF(data: seq<byte>, st: PState, dict: map<string, PdfObject>): (r: Step<Option<PdfObject>>)
    ensures r.Ok? ==> Measure(data, r.value.1) < Measure(data, st)
    ensures r.Ok? ==> r.value.0.Some? && (r.value.0.value.Dict? || r.value.0.value.Stream?)
    decreases Measure(data, st), 2
  {
    var (tok, s1) :- NextTok(data, st);
    match tok
    case None => Err(Parse(s1.pos, "Unterminated dictionary"))
    case Some(t) =>
      if t == DictEnd then
        var (after, s2) :- NextTok(data, s1);
        if after == Some(StreamKw) then
          var (bytes, s3) :- StreamDataF(data, s2, dict);
          Ok((Some(Stream(dict, bytes)), s3))
        else Ok((Some(Dict(dict)), PState(s1.pos, [])))
      else if !t.NameTok? then Err(Parse(s1.pos, "Dictionary key must be name, got " + TokenDebug(t)))
      else
        var (v, s2) :- ParseObjectF(data, s1);
        if v.None? then Err(Parse(s2.pos, "Missing dictionary value"))
        else ParseDictF(data, s2, dict[t.name := v.value])
  }

  /**
   * `read_stream_data`, just after the `stream` keyword: white space is
   * skipped, then a direct integer `Length` takes exactly that many bytes
   * and must be followed by `endstream`, an indirect one searches for
   * `endstream`, and any other `Length` is an error.
   */
  function StreamDataF(data: seq<byte>, st: PState, dict: map<string, PdfObject>): (r: Step<seq<byte>>)
    ensures r.Ok? ==> Measure(data, r.value.1) < Measure(data, st)
  {
    var start := SkipWs(data, st.pos);
    match Lookup(dict, "Length")
    case Some(Int(n)) =>
      if n < 0 || start + n > |data| then Err(Parse(start, "Stream data extends past EOF"))
      else ExactStreamF(data, PState(start, st.peeked), n)
    case Some(Ref(_)) => UntilEndstreamF(data, PState(start, st.peeked))
    case _ => Err(Parse(start, "Stream missing Length"))
  }

  /**
   * The direct-`Length` case of `read_stream_data`: the `n` bytes at the
   * cursor, which must be followed (after white space) by `endstream`.
   */
  function ExactStreamF(data: seq<byte>, st: PState, n: nat): (r: Step<seq<byte>>)
    requires st.pos + n <= |data|
    ensures r.Ok? ==> Measure(data, r.value.1) < Measure(data, st)
  {
    var end := st.pos + n;
    EndstreamFollows(data[st.pos..end], NextTok(data, PState(SkipWs(data, end), st.peeked)))
  }

  /** The stream data `bytes`, if the token read after it is `endstream`. */
  function EndstreamFollows(bytes: seq<byte>, after: Result<(Option<Token>, PState)>): (r: Step<seq<byte>>)
    ensures r.Ok? <==> after.Ok? && after.value.0 == Some(EndStreamKw)
    ensures r.Ok? ==> r == Ok((bytes, after.value.1))
  {
    var (tok, s) :- after;
    if tok == Some(EndStreamKw) then Ok((bytes, s))
    else Err(Parse(s.pos, "Missing endstream"))
  }

  /** The bytes of `endstream`. */
  const ENDSTREAM: seq<byte> := Bytes("endstream")

  /** `data` holds `endstream` at `i`. */
  predicate EndstreamAt(data: seq<byte>, i: nat)
  {
    i + 9 <= |data| && data[i..i + 9] == ENDSTREAM
  }

  /**
   * The first `i` in `[from, to)` at which `endstream` starts, as the
   * `for i in start..data.len().saturating_sub(9)` search does.
   */
  function FindEndstream(data: seq<byte>, from: nat, to: nat): (r: Option<nat>)
    ensures r.Some? ==> from <= r.value < to && EndstreamAt(data, r.value)
    ensures r.Some? ==> forall i | from <= i < r.value :: !EndstreamAt(data, i)
    ensures r.None? ==> forall i | from <= i < to :: !EndstreamAt(data, i)
    decreases if to >= from then to - from else 0
  {
    if from >= to then None
    else if EndstreamAt(data, from) then Some(from)
    else FindEndstream(data, from + 1, to)
  }

  /** `read_stream_until_endstream`: the bytes up to the first later `endstream`, the cursor after it. */
  function UntilEndstreamF(data: seq<byte>, st: PState): (r: Step<seq<byte>>)
    ensures r.Ok? ==> r.value.1.peeked == st.peeked && st.pos < r.value.1.pos <= |data|
  {
    var limit := if |data| >= 9 then |data| - 9 else 0;
    match FindEndstream(data, st.pos, limit)
    case None => Err(Parse(st.pos, "Could not find endstream"))
    case Some(i) => Ok((data[st.pos..i], PState(i + 9, st.peeked)))
  }

  /** A method's result and final state agree with a parser step. */
  predicate Outcome<T(==)>(r: Result<T>, spec: Step<T>, st: PState)
  {
    match spec
    case Ok((v, s)) => r == Ok(v) && st == s
    case Err(e) => r == Err(e)
  }

  // ---------------------------------------------------------------------------
  // Properties of the parser functions

  /** A pushed-back token is the next one read, and reading it restores the state before the push. */
  lemma PushedIsNext(data: seq<byte>, st: PState, t: Token)
    ensures NextTok(data, Pushed(st, t)) == Ok((Some(t), st))
  {
    assert (st.peeked + [t])[..|st.peeked|] == st.peeked;
  }

  /** Two pushed-back tokens come out last-in first-out. */
  lemma PushbackIsLifo(data: seq<byte>, st: PState, a: Token, b: Token)
    ensures NextTok(data, Pushed(Pushed(st, a), b)) == Ok((Some(b), Pushed(st, a)))
    ensures NextTok(data, Pushed(st, a)) == Ok((Some(a), st))
  {
    PushedIsNext(data, Pushed(st, a), b);
    PushedIsNext(data, st, a);
  }

  /** `N G R` read from the token stream is the reference `(N as u32, G as u16)`. */
  lemma IntIntRefIsRef(data: seq<byte>, st: PState, n: i64, g: i64, s1: PState, s2: PState, s3: PState)
    requires NextTok(data, st) == Ok((Some(IntTok(n)), s1))
    requires NextTok(data, s1) == Ok((Some(IntTok(g)), s2))
    requires NextTok(data, s2) == Ok((Some(RefKw), s3))
    ensures ParseObjectF(data, st) == Ok((Some(Ref(ObjRef(ToU32(n), ToU16(g)))), s3))
    ensures 0 <= n < 0x1_0000_0000 && 0 <= g < 0x1_0000 ==> ParseObjectF(data, st) == Ok((Some(Ref(ObjRef(n, g))), s3))
  {
  }

  /**
   * When the look-ahead after an integer is not `G R`, the integer is the
   * result and the tokens read after it are read again, unchanged and in
   * their order, ending in the state the look-ahead had reached.
   */
  lemma IntLookaheadReplayed(data: seq<byte>, st: PState, first: i64, s2: PState, t2: Token)
    requires NextTok(data, st) == Ok((Some(t2), s2))
    ensures !t2.IntTok? ==>
      var r := ParseIntOrRefF(data, st, first);
      r.Ok? && r.value.0 == Some(Int(first)) && NextTok(data, r.value.1) == Ok((Some(t2), s2))
    ensures t2.IntTok? ==> match NextTok(data, s2)
      case Err(e) => ParseIntOrRefF(data, st, first) == Err(e)
      case Ok((None, s3)) =>
        var r := ParseIntOrRefF(data, st, first);
        r.Ok? && r.value.0 == Some(Int(first)) && NextTok(data, r.value.1) == Ok((Some(t2), s3))
      case Ok((Some(t3), s3)) =>
        var r := ParseIntOrRefF(data, st, first);
        t3 != RefKw ==>
          r.Ok? && r.value.0 == Some(Int(first)) &&
          NextTok(data, r.value.1) == Ok((Some(t2), Pushed(s3, t3))) &&
          NextTok(data, Pushed(s3, t3)) == Ok((Some(t3), s3))
  {
    if !t2.IntTok? {
      PushedIsNext(data, s2, t2);
    } else {
      match NextTok(data, s2)
      case Err(e) =>
      case Ok((None, s3)) => PushedIsNext(data, s3, t2);
      case Ok((Some(t3), s3)) => PushbackIsLifo(data, s3, t3, t2);
    }
  }

  /** The end of the input before `]` is an "Unterminated array" error. */
  lemma ArrayAtEofFails(data: seq<byte>, st: PState, items: seq<PdfObject>)
    requires st.peeked == [] && NextTokenF(data, st.pos) == Ok(Lexed(None, SkipWs(data, st.pos)))
    ensures ParseArrayF(data, st, items) == Err(Parse(SkipWs(data, st.pos), "Unterminated array"))
  {
  }

  /** `items` put in front of the elements of an array result; errors unchanged. */
  function WithPrefix(items: seq<PdfObject>, r: Step<Option<PdfObject>>): (w: Step<Option<PdfObject>>)
    ensures r.Err? ==> w == r
    ensures r.Ok? && r.value.0.Some? && r.value.0.value.Array? ==>
      w == Ok((Some(Array(items + r.value.0.value.items)), r.value.1))
  {
    match r
    case Ok((Some(Array(rest)), s)) => Ok((Some(Array(items + rest)), s))
    case _ => r
  }

  lemma WithPrefixTwice(a: seq<PdfObject>, b: seq<PdfObject>, r: Step<Option<PdfObject>>)
    ensures WithPrefix(a, WithPrefix(b, r)) == WithPrefix(a + b, r)
  {
    match r
    case Ok((Some(Array(rest)), s)) => assert a + (b + rest) == a + b + rest;
    case _ =>
  }

  /**
   * The elements already collected stay in front, in order, of the ones
   * read: parsing on from `items` gives `items` followed by what parsing on
   * from the empty array gives.
   */
  lemma {:induction false} ArrayKeepsOrder(data: seq<byte>, st: PState, items: seq<PdfObject>)
    ensures ParseArrayF(data, st, items) == WithPrefix(items, ParseArrayF(data, st, []))
    decreases Measure(data, st)
  {
    match NextTok(data, st)
    case Err(e) =>
    case Ok((None, s1)) =>
    case Ok((Some(t), s1)) =>
      if t != ArrayEnd {
        var o := ParseObjectF(data, Pushed(s1, t));
        if o.Ok? {
          var (v, s2) := o.value;
          assert ParseArrayF(data, st, items) == ParseArrayF(data, s2, items + [v.value]);
          assert [] + [v.value] == [v.value];
          assert ParseArrayF(data, st, []) == ParseArrayF(data, s2, [v.value]);
          ArrayKeepsOrder(data, s2, items + [v.value]);
          ArrayKeepsOrder(data, s2, [v.value]);
          WithPrefixTwice(items, [v.value], ParseArrayF(data, s2, []));
        }
      } else {
        assert items + [] == items;
      }
  }

  /** A key that is not a name is an error naming the token and its payload, as `{:?}` does. */
  lemma NonNameKeyFails(data: seq<byte>, st: PState, dict: map<string, PdfObject>, t: Token, s1: PState)
    requires NextTok(data, st) == Ok((Some(t), s1)) && t != DictEnd && !t.NameTok?
    ensures ParseDictF(data, st, dict) == Err(Parse(s1.pos, "Dictionary key must be name, got " + TokenDebug(t)))
  {
  }

  /** A key with nothing after it is a "Missing dictionary value" error. */
  lemma KeyWithoutValueFails(data: seq<byte>, st: PState, dict: map<string, PdfObject>, k: string, s1: PState)
    requires NextTok(data, st) == Ok((Some(NameTok(k)), s1))
    requires s1.peeked == [] && NextTokenF(data, s1.pos) == Ok(Lexed(None, SkipWs(data, s1.pos)))
    ensures ParseDictF(data, st, dict) == Err(Parse(SkipWs(data, s1.pos), "Missing dictionary value"))
  {
  }

  /** A key read again replaces the value collected for it before. */
  lemma LaterValueWins(data: seq<byte>, st: PState, dict: map<string, PdfObject>, k: string, earlier: PdfObject,
                       s1: PState, v: PdfObject, s2: PState)
    requires NextTok(data, st) == Ok((Some(NameTok(k)), s1))
    requires ParseObjectF(data, s1) == Ok((Some(v), s2))
    ensures ParseDictF(data, st, dict[k := earlier]) == ParseDictF(data, s2, dict[k := v])
  {
    assert dict[k := earlier][k := v] == dict[k := v];
  }

  /**
   * After `>>`: a `stream` keyword makes a stream of the dictionary;
   * anything else (or the end of the input) makes a dictionary and puts the
   * cursor back just after `>>`, with no pushed-back token.
   */
  lemma DictOrStream(data: seq<byte>, st: PState, dict: map<string, PdfObject>, s1: PState)
    requires NextTok(data, st) == Ok((Some(DictEnd), s1))
    ensures var after := NextTok(data, s1);
      && (after.Err? ==> ParseDictF(data, st, dict) == Err(after.error))
      && (after.Ok? && after.value.0 == Some(StreamKw) ==>
          var body := StreamDataF(data, after.value.1, dict);
          ParseDictF(data, st, dict) ==
            if body.Ok? then Ok((Some(Stream(dict, body.value.0)), body.value.1)) else Err(body.error))
      && (after.Ok? && after.value.0 != Some(StreamKw) ==>
          ParseDictF(data, st, dict) == Ok((Some(Dict(dict)), PState(s1.pos, []))))
  {
  }

  /**
   * A direct `Length` of `n` reads `n` bytes from the first byte after the
   * white space that follows `stream`; a negative `n` or too few bytes left
   * is an error at that byte.
   */
  lemma DirectLengthTakesExactly(data: seq<byte>, st: PState, dict: map<string, PdfObject>, n: i64)
    requires Lookup(dict, "Length") == Some(Int(n))
    ensures var start := SkipWs(data, st.pos);
      && (n < 0 || start + n > |data| ==> StreamDataF(data, st, dict) == Err(Parse(start, "Stream data extends past EOF")))
      && (0 <= n && start + n <= |data| ==> StreamDataF(data, st, dict) == ExactStreamF(data, PState(start, st.peeked), n))
  {
  }

  /**
   * The `n` bytes at the cursor are the stream's data exactly when the
   * token after them (and the white space after them) is `endstream`.
   */
  lemma ExactStreamTakes(data: seq<byte>, st: PState, n: nat)
    requires st.pos + n <= |data|
    ensures var r := ExactStreamF(data, st, n);
      var after := NextTok(data, PState(SkipWs(data, st.pos + n), st.peeked));
      && (r.Ok? <==> after.Ok? && after.value.0 == Some(EndStreamKw))
      && (r.Ok? ==> r.value.0 == data[st.pos..st.pos + n] && |r.value.0| == n)
  {
    var after := NextTok(data, PState(SkipWs(data, st.pos + n), st.peeked));
    assert ExactStreamF(data, st, n) == EndstreamFollows(data[st.pos..st.pos + n], after);
  }

  /**
   * An indirect `Length`: the data runs from the first byte after the white
   * space up to the first `endstream` found after it, and the cursor moves
   * past that `endstream`; with none in the searched range it is an error.
   */
  lemma IndirectLengthRunsToEndstream(data: seq<byte>, st: PState, dict: map<string, PdfObject>, ref: ObjRef)
    requires Lookup(dict, "Length") == Some(Ref(ref))
    ensures var start := SkipWs(data, st.pos);
      var r := StreamDataF(data, st, dict);
      && (r.Ok? ==>
          var bytes := r.value.0;
          && data[start..start + |bytes|] == bytes
          && EndstreamAt(data, start + |bytes|)
          && (forall i | start <= i < start + |bytes| :: !EndstreamAt(data, i))
          && r.value.1 == PState(start + |bytes| + 9, st.peeked))
      && (r.Err? <==> forall i | start <= i < |data| - 9 :: !EndstreamAt(data, i))
  {
    var start := SkipWs(data, st.pos);
    var limit := if |data| >= 9 then |data| - 9 else 0;
    match FindEndstream(data, start, limit)
    case None =>
    case Some(i) =>
      assert data[start..i] == data[start..start + |data[start..i]|];
  }

  // ---------------------------------------------------------------------------
  // The parser

  class Parser {
    const lexer: Lexer
    /** Pushed-back tokens, the last one on top. */
    var peeked: seq<Token>

    constructor(data: seq<byte>)
      ensures fresh(lexer) && lexer.data == data && State() == PState(0, [])
    {
      lexer := new Lexer(data);
      peeked := [];
    }

    function State(): PState
      reads this, lexer
    {
      PState(lexer.pos, peeked)
    }

    method Position() returns (p: nat)
      ensures p == lexer.pos
    {
      p := lexer.pos;
    }

    /** `seek`: moves the tokenizer and forgets every pushed-back token. */
    method Seek(p: nat)
      modifies this, lexer
      ensures State() == PState(p, [])
    {
      lexer.Seek(p);
      peeked := [];
    }

    /** `next_token`. */
    method NextToken() returns (r: Result<Option<Token>>)
      modifies this, lexer
      ensures Outcome(r, NextTok(lexer.data, old(State())), State())
    {
      if peeked != [] {
        var t := peeked[|peeked| - 1];
        peeked := peeked[..|peeked| - 1];
        r := Ok(Some(t));
      } else {
        r := lexer.NextToken();
      }
    }

    /** `push_back`. */
    method PushBack(t: Token)
      modifies this
      ensures State() == Pushed(old(State()), t)
    {
      peeked := peeked + [t];
    }

    /** `parse_object`. */
    method ParseObject() returns (r: Result<Option<PdfObject>>)
      modifies this, lexer
      ensures Outcome(r, ParseObjectF(lexer.data, old(State())), State())
      decreases Measure(lexer.data, State()), 1
    {
      var tok := NextToken();
      if tok.Err? {
        return Err(tok.error);
      }
      if tok.value.None? {
        return Ok(None);
      }
      var t := tok.value.value;
      match t
      case NullKw => r := Ok(Some(Null));
      case TrueKw => r := Ok(Some(Bool(true)));
      case FalseKw => r := Ok(Some(Bool(false)));
      case RealTok(x) => r := Ok(Some(Real(x)));
      case StrTok(s) => r := Ok(Some(Str(s)));
      case HexStrTok(s) => r := Ok(Some(Str(s)));
      case NameTok(n) => r := Ok(Some(Name(n)));
      case ArrayStart => r := ParseArray();
      case DictStart => r := ParseDictOrStream();
      case IntTok(n) => r := ParseIntOrRef(n);
      case _ =>
        var p := Position();
        r := Err(Parse(p, "Unexpected token: " + TokenDebug(t)));
    }

    /** `parse_int_or_ref`. */
    method ParseIntOrRef(first: i64) returns (r: Result<Option<PdfObject>>)
      modifies this, lexer
      ensures Outcome(r, ParseIntOrRefF(lexer.data, old(State()), first), State())
    {
      var tok2 := NextToken();
      if tok2.Err? {
        return Err(tok2.error);
      }
      if tok2.value.None? {
        return Ok(Some(Int(first)));
      }
      var t2 := tok2.value.value;
      if !t2.IntTok? {
        PushBack(t2);
        return Ok(Some(Int(first)));
      }
      var second := t2.n;
      var tok3 := NextToken();
      if tok3.Err? {
        return Err(tok3.error);
      }
      if tok3.value.None? {
        PushBack(IntTok(second));
        return Ok(Some(Int(first)));
      }
      if tok3.value.value == RefKw {
        r := Ok(Some(Ref(ObjRef(ToU32(first), ToU16(second)))));
      } else {
        PushBack(tok3.value.value);
        PushBack(IntTok(second));
        r := Ok(Some(Int(first)));
      }
    }

    /** `parse_array`, the `[` already read. */
    method ParseArray() returns (r: Result<Option<PdfObject>>)
      modifies this, lexer
      ensures Outcome(r, ParseArrayF(lexer.data, old(State()), []), State())
      decreases Measure(lexer.data, State()), 2
    {
      var items: seq<PdfObject> := [];
      ghost var goal := ParseArrayF(lexer.data, State(), []);
      ghost var m0 := Measure(lexer.data, State());
      while true
        invariant ParseArrayF(lexer.data, State(), items) == goal
        invariant Measure(lexer.data, State()) <= m0
        decreases Measure(lexer.data, State())
      {
        var tok := NextToken();
        if tok.Err? {
          return Err(tok.error);
        }
        if tok.value.None? {
          var p := Position();
          return Err(Parse(p, "Unterminated array"));
        }
        var t := tok.value.value;
        if t == ArrayEnd {
          return Ok(Some(Array(items)));
        }
        PushBack(t);
        var o := ParseObject();
        if o.Err? {
          return Err(o.error);
        }
        items := items + [o.value.value];
      }
    }

    /** `parse_dict_or_stream`, the `<<` already read. */
    method ParseDictOrStream() returns (r: Result<Option<PdfObject>>)
      modifies this, lexer
      ensures Outcome(r, ParseDictF(lexer.data, old(State()), map[]), State())
      decreases Measure(lexer.data, State()), 2
    {
      var dict: map<string, PdfObject> := map[];
      ghost var goal := ParseDictF(lexer.data, State(), map[]);
      ghost var m0 := Measure(lexer.data, State());
      while true
        invariant ParseDictF(lexer.data, State(), dict) == goal
        invariant Measure(lexer.data, State()) <= m0
        decreases Measure(lexer.data, State())
      {
        var tok := NextToken();
        if tok.Err? {
          return Err(tok.error);
        }
        if tok.value.None? {
          var p := Position();
          return Err(Parse(p, "Unterminated dictionary"));
        }
        var t := tok.value.value;
        if t == DictEnd {
          break;
        }
        if !t.NameTok? {
          var p := Position();
          return Err(Parse(p, "Dictionary key must be name, got " + TokenDebug(t)));
        }
        var v := ParseObject();
        if v.Err? {
          return Err(v.error);
        }
        if v.value.None? {
          var p := Position();
          return Err(Parse(p, "Missing dictionary value"));
        }
        dict := dict[t.name := v.value.value];
      }
      var posAfterDict := Position();
      var after := NextToken();
      if after.Err? {
        return Err(after.error);
      }
      if after.value == Some(StreamKw) {
        var bytes := ReadStreamData(dict);
        if bytes.Err? {
          return Err(bytes.error);
        }
        r := Ok(Some(Stream(dict, bytes.value)));
      } else {
        lexer.Seek(posAfterDict);
        peeked := [];
        r := Ok(Some(Dict(dict)));
      }
    }

    /** `read_stream_data`, just after the `stream` keyword. */
    method ReadStreamData(dict: map<string, PdfObject>) returns (r: Result<seq<byte>>)
      modifies this, lexer
      ensures Outcome(r, StreamDataF(lexer.data, old(State()), dict), State())
    {
      lexer.SkipWhitespace();
      var start := Position();
      match Lookup(dict, "Length")
      case Some(Int(n)) =>
        if n < 0 || start + n > |lexer.data| {
          return Err(Parse(start, "Stream data extends past EOF"));
        }
        r := ReadExactStream(n);
      case Some(Ref(_)) =>
        r := ReadStreamUntilEndstream();
      case _ =>
        var p := Position();
        r := Err(Parse(p, "Stream missing Length"));
    }

    /** The direct-`Length` part of `read_stream_data`, from the first data byte. */
    method ReadExactStream(n: nat) returns (r: Result<seq<byte>>)
      requires lexer.pos + n <= |lexer.data|
      modifies this, lexer
      ensures Outcome(r, ExactStreamF(lexer.data, old(State()), n), State())
    {
      var start := lexer.pos;
      var end := start + n;
      var result := lexer.data[start..end];
      lexer.Seek(end);
      lexer.SkipWhitespace();
      assert State() == PState(SkipWs(lexer.data, end), old(peeked));
      var tok := NextToken();
      if tok.Err? {
        return Err(tok.error);
      }
      if tok.value == Some(EndStreamKw) {
        r := Ok(result);
      } else {
        var p := Position();
        r := Err(Parse(p, "Missing endstream"));
      }
    }

    /** `read_stream_until_endstream`. */
    method ReadStreamUntilEndstream() returns (r: Result<seq<byte>>)
      modifies this, lexer
      ensures Outcome(r, UntilEndstreamF(lexer.data, old(State())), State())
    {
      var start := Position();
      var data := lexer.data;
      var limit := if |data| >= 9 then |data| - 9 else 0;
      var i := start;
      while i < limit
        invariant start <= i
        invariant FindEndstream(data, i, limit) == FindEndstream(data, start, limit)
        decreases limit - i
      {
        if data[i..i + 9] == ENDSTREAM {
          var streamData := data[start..i];
          lexer.Seek(i + 9);
          return Ok(streamData);
        }
        i := i + 1;
      }
      r := Err(Parse(start, "Could not find endstream"));
    }
  }
}
