/*
 * The PDF object model: the eight basic object kinds of a PDF file plus
 * streams and indirect references, and the typed accessors the rest of the
 * reader uses to look inside an object.
 */
module PdfObjects {
  import opened Common

  /** A reference to an indirect object, as in `5 0 R`. */
  datatype ObjRef = ObjRef(objNum: u32, genNum: u16)

  /**
   * A PDF object. `Real` holds the exact decimal the file spells; dictionaries
   * are finite maps from key names to objects.
   */
  datatype PdfObject =
    | Null
    | Bool(b: bool)
    | Int(n: i64)
    | Real(x: real)
    | Str(bytes: seq<byte>)
    | Name(name: string)
    | Array(items: seq<PdfObject>)
    | Dict(entries: map<string, PdfObject>)
    | Stream(dict: map<string, PdfObject>, data: seq<byte>)
    | Ref(r: ObjRef)

  /** `as_bool`: the flag of a boolean, and nothing for any other kind. */
  function AsBool(o: PdfObject): (r: Option<bool>)
    ensures r.Some? <==> o.Bool?
    ensures r.Some? ==> o == Bool(r.value)
  {
    if o.Bool? then Some(o.b) else None
  }

  /** `as_int`: the value of an integer, and nothing for any other kind (reals included). */
  function AsInt(o: PdfObject): (r: Option<i64>)
    ensures r.Some? <==> o.Int?
    ensures r.Some? ==> o == Int(r.value)
  {
    if o.Int? then Some(o.n) else None
  }

  /** `as_real`: a real as itself and an integer widened to a real. */
  function AsReal(o: PdfObject): (r: Option<real>)
    ensures r.Some? <==> (o.Real? || o.Int?)
    ensures o.Real? ==> r == Some(o.x)
    ensures o.Int? ==> r == Some(o.n as real)
  {
    match o
    case Real(x) => Some(x)
    case Int(n) => Some(n as real)
    case _ => None
  }

  /** `as_string`: the bytes of a string object. */
  function AsString(o: PdfObject): (r: Option<seq<byte>>)
    ensures r.Some? <==> o.Str?
    ensures r.Some? ==> o == Str(r.value)
  {
    if o.Str? then Some(o.bytes) else None
  }

  /** `as_name`: the text of a name object. */
  function AsName(o: PdfObject): (r: Option<string>)
    ensures r.Some? <==> o.Name?
    ensures r.Some? ==> o == Name(r.value)
  {
    if o.Name? then Some(o.name) else None
  }

  /** `as_array`: the elements of an array. */
  function AsArray(o: PdfObject): (r: Option<seq<PdfObject>>)
    ensures r.Some? <==> o.Array?
    ensures r.Some? ==> o == Array(r.value)
  {
    if o.Array? then Some(o.items) else None
  }

  /** `as_dict`: the entries of a dictionary, or the dictionary of a stream. */
  function AsDict(o: PdfObject): (r: Option<map<string, PdfObject>>)
    ensures r.Some? <==> (o.Dict? || o.Stream?)
    ensures o.Dict? ==> r == Some(o.entries)
    ensures o.Stream? ==> r == Some(o.dict)
  {
    match o
    case Dict(d) => Some(d)
    case Stream(d, _) => Some(d)
    case _ => None
  }

  /** `as_stream`: the dictionary and raw data of a stream. */
  function AsStream(o: PdfObject): (r: Option<(map<string, PdfObject>, seq<byte>)>)
    ensures r.Some? <==> o.Stream?
    ensures r.Some? ==> o == Stream(r.value.0, r.value.1)
  {
    if o.Stream? then Some((o.dict, o.data)) else None
  }

  /** `as_ref`: the target of an indirect reference. */
  function AsRef(o: PdfObject): (r: Option<ObjRef>)
    ensures r.Some? <==> o.Ref?
    ensures r.Some? ==> o == Ref(r.value)
  {
    if o.Ref? then Some(o.r) else None
  }

  /** `HashMap::get` followed by an accessor, the idiom the reader uses for dictionary entries. */
  function Lookup(d: map<string, PdfObject>, key: string): (r: Option<PdfObject>)
    ensures r.Some? <==> key in d
    ensures r.Some? ==> r.value == d[key]
  {
    if key in d then Some(d[key]) else None
  }
}
