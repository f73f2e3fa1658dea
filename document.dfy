/*
 * The document: objects resolved through the cross-reference table and
 * cached, the catalog and the page tree, a page's content streams, the
 * choice of a font's encoding, and the text of a page assembled from its
 * spans.
 *
 * What an operation computes is stated as a function of the file's bytes
 * and its table; the page-tree and font functions take the resolver as a
 * parameter (`Resolver`), so that what is proved about them never depends
 * on the parser's internals.
 */
module PdfDocument {
  import opened Common
  import opened PdfObjects
  import opened Lexing
  import opened ObjectParsing
  import opened XRefTable
  import opened StreamDecoding
  import opened TextSpans
  import FE = FontEncodings
  import CM = ToUnicodeCMap

  // ---------------------------------------------------------------------------
  // Resolving an indirect object

  /**
   * The object number and generation number at the entry's offset: the
   * parser state after them. The first must be an integer equal to `num`
   * (as `u32`), the second any integer.
   */
  function ObjectHeaderF(data: seq<byte>, off: nat, num: u32): (r: Result<PState>)
  {
    match ParseObjectF(data, PState(off, []))
    case Err(e) => Err(e)
    case Ok((o1, s1)) =>
      if !(o1.Some? && o1.value.Int? && ToU32(o1.value.n) == num) then Err(Parse(off, "Expected object number"))
      else
        match ParseObjectF(data, s1)
        case Err(e) => Err(e)
        case Ok((o2, s2)) =>
          if !(o2.Some? && o2.value.Int?) then Err(Parse(off, "Expected generation number"))
          else Ok(s2)
  }

  /** One more `parse_object`; nothing left is "Expected object content" where the input ends. */
  function BodyF(data: seq<byte>, s: PState): (r: Result<PdfObject>)
  {
    match ParseObjectF(data, s)
    case Err(e) => Err(e)
    case Ok((None, s')) => Err(Parse(s'.pos, "Expected object content"))
    case Ok((Some(o), _)) => Ok(o)
  }

  /** The object after the header, its `obj` keyword read and skipped first. */
  function ContentF(data: seq<byte>, s: PState): (r: Result<PdfObject>)
  {
    match NextTok(data, s)
    case Err(e) => Err(e)
    case Ok((None, s')) => Err(Parse(s'.pos, "Expected object content"))
    case Ok((Some(t), s')) => if t == ObjKw then BodyF(data, s') else BodyF(data, Pushed(s', t))
  }

  /** The object an entry's offset holds (`n g obj <object>`). */
  function ObjectAtF(data: seq<byte>, off: nat, num: u32): (r: Result<PdfObject>)
  {
    match ObjectHeaderF(data, off, num)
    case Err(e) => Err(e)
    case Ok(s) => ContentF(data, s)
  }

  /** `resolve`: the object numbered `ref.objNum` in the table, parsed at its offset. */
  function ResolveF(data: seq<byte>, xref: XRef, ref: ObjRef): (r: Result<PdfObject>)
    ensures ref.objNum !in xref ==> r == Err(ObjectNotFound(ref.objNum, ref.genNum))
    ensures ref.objNum in xref ==> r == ObjectAtF(data, xref[ref.objNum].offset, ref.objNum)
  {
    if ref.objNum !in xref then Err(ObjectNotFound(ref.objNum, ref.genNum))
    else ObjectAtF(data, xref[ref.objNum].offset, ref.objNum)
  }

  /** `resolve` as written: the third `parse_object` meets the `obj` keyword itself. */
  function ResolveAsWritten(data: seq<byte>, xref: XRef, ref: ObjRef): (r: Result<PdfObject>)
    ensures ref.objNum !in xref ==> r == Err(ObjectNotFound(ref.objNum, ref.genNum))
  {
    if ref.objNum !in xref then Err(ObjectNotFound(ref.objNum, ref.genNum))
    else
      match ObjectHeaderF(data, xref[ref.objNum].offset, ref.objNum)
      case Err(e) => Err(e)
      case Ok(s) => BodyF(data, s)
  }

  /**
   * Where the header is followed by the `obj` keyword, as in every
   * well-formed object, the code as written fails with "Unexpected token:
   * Obj"; the corrected step parses the object after the keyword.
   */
  lemma ObjKeywordRejected(data: seq<byte>, xref: XRef, ref: ObjRef, s: PState, after: PState)
    requires ref.objNum in xref && ObjectHeaderF(data, xref[ref.objNum].offset, ref.objNum) == Ok(s)
    requires NextTok(data, s) == Ok((Some(ObjKw), after))
    ensures ResolveAsWritten(data, xref, ref) == Err(Parse(after.pos, "Unexpected token: Obj"))
    ensures ResolveF(data, xref, ref) == BodyF(data, after)
  {
    ObjKeywordStep(data, s, after);
  }

  lemma ObjKeywordStep(data: seq<byte>, s: PState, after: PState)
    requires NextTok(data, s) == Ok((Some(ObjKw), after))
    ensures BodyF(data, s) == Err(Parse(after.pos, "Unexpected token: Obj"))
    ensures ContentF(data, s) == BodyF(data, after)
  {
    assert "Unexpected token: " + TokenDebug(ObjKw) == "Unexpected token: Obj";
    assert ParseObjectF(data, s) == Err(Parse(after.pos, "Unexpected token: Obj"));
  }

  /** Anywhere else the correction changes nothing: without an `obj` keyword both read the same object. */
  lemma ContentWithoutKeyword(data: seq<byte>, s: PState)
    requires !(NextTok(data, s).Ok? && NextTok(data, s).value.0 == Some(ObjKw))
    ensures ContentF(data, s) == BodyF(data, s)
  {
    match NextTok(data, s)
    case Err(e) =>
    case Ok((None, s')) =>
    case Ok((Some(t), s')) =>
      PushedIsNext(data, s', t);
      assert ParseObjectF(data, Pushed(s', t)) == ParseObjectF(data, s);
  }

  /** The object read at an entry's offset (the parsing half of `resolve`). */
  method ReadObject(data: seq<byte>, off: nat, num: u32) returns (r: Result<PdfObject>)
    ensures r == ObjectAtF(data, off, num)
  {
    var p := new Parser(data);
    p.Seek(off);
    var o1 := p.ParseObject();
    if o1.Err? {
      return Err(o1.error);
    }
    if !(o1.value.Some? && o1.value.value.Int? && ToU32(o1.value.value.n) == num) {
      return Err(Parse(off, "Expected object number"));
    }
    var o2 := p.ParseObject();
    if o2.Err? {
      return Err(o2.error);
    }
    if !(o2.value.Some? && o2.value.value.Int?) {
      return Err(Parse(off, "Expected generation number"));
    }
    assert ObjectHeaderF(data, off, num) == Ok(p.State());
    var t := p.NextToken();
    if t.Err? {
      return Err(t.error);
    }
    if t.value.None? {
      var pos := p.Position();
      return Err(Parse(pos, "Expected object content"));
    }
    if t.value.value != ObjKw {
      p.PushBack(t.value.value);
    }
    var o3 := p.ParseObject();
    if o3.Err? {
      return Err(o3.error);
    }
    if o3.value.None? {
      var pos := p.Position();
      return Err(Parse(pos, "Expected object content"));
    }
    r := Ok(o3.value.value);
  }

  // ---------------------------------------------------------------------------
  // The operations over a resolver

  /** Reading an object by reference. */
  type Resolver = ObjRef -> Result<PdfObject>

  /** The resolver of a file and its table. */
  function Resolving(data: seq<byte>, xref: XRef): Resolver
  {
    (ref: ObjRef) => ResolveF(data, xref, ref)
  }

  /** A resolver fails on every object number outside `known`. */
  ghost predicate Bounded(res: Resolver, known: set<u32>)
  {
    forall ref: ObjRef | ref.objNum !in known :: res(ref).Err?
  }

  /** Only numbers in the table resolve. */
  lemma ResolvingBounded(data: seq<byte>, xref: XRef)
    ensures Bounded(Resolving(data, xref), xref.Keys)
  {
  }

  /** `get_object`: a reference resolved, any other object as it is. */
  function GetObjectF(res: Resolver, obj: PdfObject): (r: Result<PdfObject>)
    ensures !obj.Ref? ==> r == Ok(obj)
    ensures obj.Ref? ==> r == res(obj.r)
  {
    match obj
    case Ref(ref) => res(ref)
    case _ => Ok(obj)
  }

  /** `catalog`: the object the trailer's `Root` reference names. */
  function CatalogF(res: Resolver, trailer: Dictionary): (r: Result<PdfObject>)
    ensures "Root" !in trailer ==> r == Err(InvalidStructure("Missing Root in trailer"))
    ensures "Root" in trailer && !trailer["Root"].Ref? ==> r == Err(InvalidStructure("Root must be reference"))
    ensures "Root" in trailer && trailer["Root"].Ref? ==> r == res(trailer["Root"].r)
  {
    match Lookup(trailer, "Root")
    case None => Err(InvalidStructure("Missing Root in trailer"))
    case Some(root) =>
      match AsRef(root)
      case None => Err(InvalidStructure("Root must be reference"))
      case Some(ref) => res(ref)
  }

  /** The catalog's `Pages` reference. */
  function PagesRefF(catalog: PdfObject): (r: Result<ObjRef>)
    ensures r.Ok? <==> (AsDict(catalog).Some? && "Pages" in AsDict(catalog).value && AsDict(catalog).value["Pages"].Ref?)
    ensures r.Ok? ==> Ref(r.value) == AsDict(catalog).value["Pages"]
    ensures r.Err? ==> r.error == InvalidStructure("Missing Pages in catalog")
  {
    match AsDict(catalog)
    case None => Err(InvalidStructure("Missing Pages in catalog"))
    case Some(d) =>
      match Lookup(d, "Pages")
      case None => Err(InvalidStructure("Missing Pages in catalog"))
      case Some(p) =>
        match AsRef(p)
        case None => Err(InvalidStructure("Missing Pages in catalog"))
        case Some(ref) => Ok(ref)
  }

  // ---------------------------------------------------------------------------
  // The page tree

  /** A dictionary's `Type` name, `""` when it is missing or not a name. */
  function TypeName(d: Dictionary): (t: string)
    ensures "Type" in d && d["Type"].Name? ==> t == d["Type"].name
    ensures !("Type" in d && d["Type"].Name?) ==> t == ""
  {
    match Lookup(d, "Type")
    case None => ""
    case Some(o) =>
      match AsName(o)
      case None => ""
      case Some(n) => n
  }

  /** A node taken as a page: typed `Page`, or of another type than `Pages` with `Contents` or a `MediaBox`. */
  predicate IsPageLeaf(o: PdfObject)
  {
    match AsDict(o)
    case None => false
    case Some(d) =>
      TypeName(d) == "Page" || (TypeName(d) != "Pages" && ("Contents" in d || "MediaBox" in d))
  }

  /** What a page-tree node contributes, before its kids are visited. */
  datatype Node = Leaf | Ignored | Branch(kids: seq<PdfObject>) | Bad(error: PdfError)

  /**
   * A node of the page tree by its type: `Page` is a leaf; `Pages` must
   * hold a `Kids` array; any other dictionary is a leaf when it has
   * `Contents` or a `MediaBox`, and is ignored otherwise.
   */
  function NodeF(obj: PdfObject): (n: Node)
    ensures n == Leaf <==> IsPageLeaf(obj)
  {
    match AsDict(obj)
    case None => Bad(InvalidStructure("Expected dict in page tree"))
    case Some(d) =>
      var t := TypeName(d);
      if t == "Page" then Leaf
      else if t == "Pages" then
        match Lookup(d, "Kids")
        case None => Bad(InvalidStructure("Pages node missing Kids"))
        case Some(k) =>
          match AsArray(k)
          case None => Bad(InvalidStructure("Pages node missing Kids"))
          case Some(kids) => Branch(kids)
      else if "Contents" in d || "MediaBox" in d then Leaf
      else Ignored
  }

  /**
   * `collect_pages` with a guard against cycles: `path` holds the object
   * numbers of the node's ancestors, and a node met again on its own path
   * contributes no pages. `known` bounds the numbers that resolve.
   */
  function CollectF(res: Resolver, known: set<u32>, node: ObjRef, path: set<u32>): (r: Result<seq<PdfObject>>)
    requires Bounded(res, known)
    ensures r.Ok? ==> forall p | p in r.value :: IsPageLeaf(p)
    decreases known - path, 0, 0
  {
    if node.objNum in path then Ok([])
    else
      match res(node)
      case Err(e) => Err(e)
      case Ok(obj) =>
        match NodeF(obj)
        case Leaf => Ok([obj])
        case Ignored => Ok([])
        case Bad(e) => Err(e)
        case Branch(kids) =>
          assert node.objNum in known - path;
          KidsF(res, known, path + {node.objNum}, kids, 0)
  }

  /** The pages under the kids from index `i` on, in order; a kid that is not a reference is skipped. */
  function KidsF(res: Resolver, known: set<u32>, path: set<u32>, kids: seq<PdfObject>, i: nat): (r: Result<seq<PdfObject>>)
    requires Bounded(res, known) && i <= |kids|
    ensures r.Ok? ==> forall p | p in r.value :: IsPageLeaf(p)
    decreases known - path, 1, |kids| - i
  {
    if i == |kids| then Ok([])
    else
      match AsRef(kids[i])
      case None => KidsF(res, known, path, kids, i + 1)
      case Some(ref) =>
        match CollectF(res, known, ref, path)
        case Err(e) => Err(e)
        case Ok(first) => WithPages(first, KidsF(res, known, path, kids, i + 1))
  }

  /** `collect_pages` as written: no guard, `None` when `fuel` nested calls do not reach the end. */
  function CollectAsWritten(res: Resolver, node: ObjRef, fuel: nat): (r: Option<Result<seq<PdfObject>>>)
    decreases fuel, 0, 0
  {
    if fuel == 0 then None
    else
      match res(node)
      case Err(e) => Some(Err(e))
      case Ok(obj) =>
        match NodeF(obj)
        case Leaf => Some(Ok([obj]))
        case Ignored => Some(Ok([]))
        case Bad(e) => Some(Err(e))
        case Branch(kids) => KidsAsWritten(res, kids, 0, fuel - 1)
  }

  function KidsAsWritten(res: Resolver, kids: seq<PdfObject>, i: nat, fuel: nat): (r: Option<Result<seq<PdfObject>>>)
    requires i <= |kids|
    decreases fuel, 1, |kids| - i
  {
    if i == |kids| then Some(Ok([]))
    else
      match AsRef(kids[i])
      case None => KidsAsWritten(res, kids, i + 1, fuel)
      case Some(ref) =>
        match CollectAsWritten(res, ref, fuel)
        case None => None
        case Some(Err(e)) => Some(Err(e))
        case Some(Ok(first)) =>
          match KidsAsWritten(res, kids, i + 1, fuel)
          case None => None
          case Some(rest) => Some(WithPages(first, rest))
  }

  /** A `Pages` node whose only kid is itself. */
  predicate SelfParent(res: Resolver, node: ObjRef)
  {
    res(node) == Ok(Dict(map["Type" := Name("Pages"), "Kids" := Array([Ref(node)])]))
  }

  /**
   * A `Pages` node listing itself among its kids: the code as written never
   * returns, however deep the stack; the guarded walk finds no page.
   */
  lemma {:induction false} SelfParentNeverEnds(res: Resolver, known: set<u32>, node: ObjRef, fuel: nat)
    requires Bounded(res, known) && SelfParent(res, node)
    ensures CollectAsWritten(res, node, fuel) == None
    ensures CollectF(res, known, node, {}) == Ok([])
    decreases fuel
  {
    var kids := [Ref(node)];
    var d := map["Type" := Name("Pages"), "Kids" := Array(kids)];
    assert TypeName(d) == "Pages";
    assert NodeF(Dict(d)) == Branch(kids);
    if fuel > 0 {
      SelfParentNeverEnds(res, known, node, fuel - 1);
      assert KidsAsWritten(res, kids, 0, fuel - 1) == None;
    }
    var path := {node.objNum};
    assert {} + {node.objNum} == path;
    assert CollectF(res, known, node, path) == Ok([]);
    assert KidsF(res, known, path, kids, 1) == Ok([]);
    assert KidsF(res, known, path, kids, 0) == WithPages([], Ok([]));
    assert CollectF(res, known, node, {}) == KidsF(res, known, {} + {node.objNum}, kids, 0);
  }

  /**
   * A page tree without cycles below `node`: no node on the way down has
   * the object number of one of its ancestors, whose numbers `path` holds.
   */
  ghost predicate NoRevisit(res: Resolver, known: set<u32>, node: ObjRef, path: set<u32>)
    requires Bounded(res, known)
    decreases known - path, 0, 0
  {
    && node.objNum !in path
    && match res(node)
      case Err(_) => true
      case Ok(obj) =>
        match NodeF(obj)
        case Branch(kids) =>
          assert node.objNum in known - path;
          KidsNoRevisit(res, known, path + {node.objNum}, kids, 0)
        case _ => true
  }

  ghost predicate KidsNoRevisit(res: Resolver, known: set<u32>, path: set<u32>, kids: seq<PdfObject>, i: nat)
    requires Bounded(res, known) && i <= |kids|
    decreases known - path, 1, |kids| - i
  {
    i == |kids| ||
    (&& (match AsRef(kids[i]) case None => true case Some(ref) => NoRevisit(res, known, ref, path))
     && KidsNoRevisit(res, known, path, kids, i + 1))
  }

  /**
   * On a tree without cycles the walk as written ends, with one level of
   * fuel per object number not yet on the path, and finds exactly what the
   * guarded walk finds: the guard changes nothing there.
   */
  lemma {:induction false} CollectAgrees(res: Resolver, known: set<u32>, node: ObjRef, path: set<u32>, fuel: nat)
    requires Bounded(res, known) && NoRevisit(res, known, node, path)
    requires fuel > |known - path|
    ensures CollectAsWritten(res, node, fuel) == Some(CollectF(res, known, node, path))
    decreases known - path, 0, 0
  {
    match res(node)
    case Err(_) =>
    case Ok(obj) =>
      match NodeF(obj)
      case Branch(kids) =>
        assert node.objNum in known - path;
        var p := path + {node.objNum};
        assert known - p == (known - path) - {node.objNum};
        KidsAgree(res, known, p, kids, 0, fuel - 1);
      case _ =>
  }

  lemma {:induction false} KidsAgree(res: Resolver, known: set<u32>, path: set<u32>, kids: seq<PdfObject>, i: nat, fuel: nat)
    requires Bounded(res, known) && i <= |kids| && KidsNoRevisit(res, known, path, kids, i)
    requires fuel > |known - path|
    ensures KidsAsWritten(res, kids, i, fuel) == Some(KidsF(res, known, path, kids, i))
    decreases known - path, 1, |kids| - i
  {
    if i < |kids| {
      KidsAgree(res, known, path, kids, i + 1, fuel);
      match AsRef(kids[i])
      case None =>
      case Some(ref) =>
        CollectAgrees(res, known, ref, path, fuel);
    }
  }

  /** The kids that are references, in order. */
  function RefKids(kids: seq<PdfObject>): (refs: seq<ObjRef>)
    ensures |refs| <= |kids|
    ensures forall r | r in refs :: Ref(r) in kids
  {
    if kids == [] then []
    else
      match AsRef(kids[0])
      case None => RefKids(kids[1..])
      case Some(r) => [r] + RefKids(kids[1..])
  }

  /** The page lists one after another. */
  function ConcatPages(pages: seq<seq<PdfObject>>): seq<PdfObject>
  {
    if pages == [] then [] else pages[0] + ConcatPages(pages[1..])
  }

  /**
   * `collect_pages` under a `Pages` node is depth first and left to right:
   * when the walk under every reference kid succeeds, the pages are those
   * walks' pages, kid after kid; kids that are not references add nothing.
   */
  lemma {:induction false} KidsInOrder(res: Resolver, known: set<u32>, path: set<u32>, kids: seq<PdfObject>, i: nat, pages: seq<seq<PdfObject>>)
    requires Bounded(res, known) && i <= |kids|
    requires var refs := RefKids(kids[i..]);
      |pages| == |refs| && forall j | 0 <= j < |refs| :: CollectF(res, known, refs[j], path) == Ok(pages[j])
    ensures KidsF(res, known, path, kids, i) == Ok(ConcatPages(pages))
    decreases |kids| - i
  {
    if i < |kids| {
      assert kids[i..][0] == kids[i] && kids[i..][1..] == kids[i + 1..];
      match AsRef(kids[i])
      case None =>
        KidsInOrder(res, known, path, kids, i + 1, pages);
      case Some(ref) =>
        var refs := RefKids(kids[i..]);
        assert refs == [ref] + RefKids(kids[i + 1..]);
        KidsInOrder(res, known, path, kids, i + 1, pages[1..]);
    } else {
      assert kids[i..] == [];
    }
  }

  /**
   * The first reference kid whose walk fails decides the error, whatever
   * the kids after it hold.
   */
  lemma {:induction false} KidsFirstError(res: Resolver, known: set<u32>, path: set<u32>, kids: seq<PdfObject>, i: nat, pages: seq<seq<PdfObject>>, e: PdfError)
    requires Bounded(res, known) && i <= |kids|
    requires var refs := RefKids(kids[i..]);
      && |pages| < |refs|
      && (forall j | 0 <= j < |pages| :: CollectF(res, known, refs[j], path) == Ok(pages[j]))
      && CollectF(res, known, refs[|pages|], path) == Err(e)
    ensures KidsF(res, known, path, kids, i) == Err(e)
    decreases |kids| - i
  {
    assert kids[i..] != [];
    assert kids[i..][0] == kids[i] && kids[i..][1..] == kids[i + 1..];
    match AsRef(kids[i])
    case None =>
      KidsFirstError(res, known, path, kids, i + 1, pages, e);
    case Some(ref) =>
      var refs := RefKids(kids[i..]);
      assert refs == [ref] + RefKids(kids[i + 1..]);
      if pages != [] {
        var rest := RefKids(kids[i + 1..]);
        assert forall j | 0 <= j < |rest| :: rest[j] == refs[j + 1];
        KidsFirstError(res, known, path, kids, i + 1, pages[1..], e);
        assert refs[0] == ref && CollectF(res, known, ref, path) == Ok(pages[0]);
        assert KidsF(res, known, path, kids, i) == WithPages(pages[0], KidsF(res, known, path, kids, i + 1));
      }
  }

  /** The pages of the document's tree, from the catalog's `Pages` node. */
  function PageTreeF(res: Resolver, known: set<u32>, trailer: Dictionary): (r: Result<seq<PdfObject>>)
    requires Bounded(res, known)
    ensures r.Ok? ==> forall p | p in r.value :: IsPageLeaf(p)
  {
    match CatalogF(res, trailer)
    case Err(e) => Err(e)
    case Ok(catalog) =>
      match PagesRefF(catalog)
      case Err(e) => Err(e)
      case Ok(pages) => CollectF(res, known, pages, {})
  }

  /** `page_count`: the number of pages the tree holds, whatever its `Count` says. */
  function PageCountF(res: Resolver, known: set<u32>, trailer: Dictionary): (r: Result<nat>)
    requires Bounded(res, known)
    ensures r.Ok? <==> PageTreeF(res, known, trailer).Ok?
    ensures r.Ok? ==> r.value == |PageTreeF(res, known, trailer).value|
  {
    match PageTreeF(res, known, trailer)
    case Err(e) => Err(e)
    case Ok(pages) => Ok(|pages|)
  }

  /**
   * On a tree without cycles, `page_count` is the number of pages the walk
   * as written collects, and its error is that walk's error.
   */
  lemma PageCountAsWritten(res: Resolver, known: set<u32>, trailer: Dictionary, pages: ObjRef, fuel: nat)
    requires Bounded(res, known)
    requires CatalogF(res, trailer).Ok? && PagesRefF(CatalogF(res, trailer).value) == Ok(pages)
    requires NoRevisit(res, known, pages, {}) && fuel > |known|
    ensures CollectAsWritten(res, pages, fuel).Some?
    ensures var w := CollectAsWritten(res, pages, fuel).value;
      PageCountF(res, known, trailer) == if w.Ok? then Ok(|w.value|) else Err(w.error)
  {
    assert known - {} == known;
    CollectAgrees(res, known, pages, {}, fuel);
  }

  /** `get_page`: the page at a 0-based index. */
  function GetPageF(res: Resolver, known: set<u32>, trailer: Dictionary, index: nat): (r: Result<PdfObject>)
    requires Bounded(res, known)
    ensures r.Ok? ==> IsPageLeaf(r.value)
    ensures r.Ok? <==> PageCountF(res, known, trailer).Ok? && index < PageCountF(res, known, trailer).value
    ensures PageCountF(res, known, trailer).Ok? && index >= PageCountF(res, known, trailer).value ==>
      r == Err(InvalidStructure("Page " + NatToDigits(index) + " not found"))
  {
    match PageTreeF(res, known, trailer)
    case Err(e) => Err(e)
    case Ok(pages) =>
      if index < |pages| then Ok(pages[index])
      else Err(InvalidStructure("Page " + NatToDigits(index) + " not found"))
  }

  // ---------------------------------------------------------------------------
  // Stream data and page contents

  /** `get_stream_data`: the decoded data of the stream a reference names. */
  function StreamF(res: Resolver, inflate: Inflater, ref: ObjRef): (r: Result<seq<byte>>)
    ensures res(ref).Ok? && !res(ref).value.Stream? ==> r == Err(InvalidStructure("Expected stream object"))
    ensures res(ref).Err? ==> r == res(ref).PropagateFailure()
  {
    match res(ref)
    case Err(e) => Err(e)
    case Ok(obj) =>
      if !obj.Stream? then Err(InvalidStructure("Expected stream object"))
      else
        match GetFilters(obj.dict)
        case Err(e) => Err(e)
        case Ok(filters) => ApplyFilters(inflate, filters, obj.data)
  }

  /** The streams the items from `i` on refer to, each followed by a line feed; other items are skipped. */
  function JoinStreamsF(res: Resolver, inflate: Inflater, items: seq<PdfObject>, i: nat): (r: Result<seq<byte>>)
    requires i <= |items|
    decreases |items| - i
  {
    if i == |items| then Ok([])
    else
      match AsRef(items[i])
      case None => JoinStreamsF(res, inflate, items, i + 1)
      case Some(ref) =>
        match StreamF(res, inflate, ref)
        case Err(e) => Err(e)
        case Ok(first) => Prefixed(first + [LF], JoinStreamsF(res, inflate, items, i + 1))
  }

  /** `get_page_contents`: one stream, or the streams of an array joined by line feeds. */
  function ContentsF(res: Resolver, inflate: Inflater, page: PdfObject): (r: Result<seq<byte>>)
  {
    match AsDict(page)
    case None => Err(InvalidStructure("Page has no Contents"))
    case Some(d) =>
      match Lookup(d, "Contents")
      case None => Err(InvalidStructure("Page has no Contents"))
      case Some(c) =>
        match c
        case Ref(ref) => StreamF(res, inflate, ref)
        case Array(items) => JoinStreamsF(res, inflate, items, 0)
        case _ => Err(InvalidStructure("Invalid Contents type"))
  }

  /** An array holding one reference gives that stream and a line feed, or the stream's error. */
  lemma ContentsOfOne(res: Resolver, inflate: Inflater, page: PdfObject, ref: ObjRef)
    requires AsDict(page).Some? && Lookup(AsDict(page).value, "Contents") == Some(Array([Ref(ref)]))
    ensures StreamF(res, inflate, ref).Ok? ==> ContentsF(res, inflate, page) == Ok(StreamF(res, inflate, ref).value + [LF])
    ensures StreamF(res, inflate, ref).Err? ==> ContentsF(res, inflate, page) == StreamF(res, inflate, ref)
  {
    var s := StreamF(res, inflate, ref);
    if s.Ok? {
      assert JoinStreamsF(res, inflate, [Ref(ref)], 1) == Ok([]);
      assert s.value + [LF] + [] == s.value + [LF];
    }
  }

  /** Joining is concatenation: the streams of `a + b` are those of `a` followed by those of `b`. */
  lemma {:induction false} JoinStreamsAppend(res: Resolver, inflate: Inflater, a: seq<PdfObject>, b: seq<PdfObject>, i: nat)
    requires i <= |a|
    ensures JoinStreamsF(res, inflate, a + b, i) ==
      match JoinStreamsF(res, inflate, a, i)
      case Err(e) => Err(e)
      case Ok(x) => Prefixed(x, JoinStreamsF(res, inflate, b, 0))
    decreases |a| - i
  {
    if i == |a| {
      JoinStreamsShift(res, inflate, a, b, 0);
      var rb := JoinStreamsF(res, inflate, b, 0);
      if rb.Ok? {
        assert [] + rb.value == rb.value;
      }
    } else {
      assert (a + b)[i] == a[i];
      JoinStreamsAppend(res, inflate, a, b, i + 1);
      match AsRef(a[i])
      case None =>
      case Some(ref) =>
        match StreamF(res, inflate, ref)
        case Err(e) =>
        case Ok(first) =>
          var rest := JoinStreamsF(res, inflate, a, i + 1);
          if rest.Ok? {
            PrefixedTwice(first + [LF], rest.value, JoinStreamsF(res, inflate, b, 0));
          }
    }
  }

  /** One turn of the joining loop, with `acc` what the earlier items gave. */
  lemma JoinStreamsStep(res: Resolver, inflate: Inflater, items: seq<PdfObject>, i: nat, acc: seq<byte>)
    requires i < |items|
    ensures !items[i].Ref? ==>
      Prefixed(acc, JoinStreamsF(res, inflate, items, i)) == Prefixed(acc, JoinStreamsF(res, inflate, items, i + 1))
    ensures items[i].Ref? && StreamF(res, inflate, items[i].r).Ok? ==>
      Prefixed(acc, JoinStreamsF(res, inflate, items, i))
      == Prefixed(acc + StreamF(res, inflate, items[i].r).value + [LF], JoinStreamsF(res, inflate, items, i + 1))
    ensures items[i].Ref? && StreamF(res, inflate, items[i].r).Err? ==>
      Prefixed(acc, JoinStreamsF(res, inflate, items, i)) == Err(StreamF(res, inflate, items[i].r).error)
  {
    if items[i].Ref? {
      var st := StreamF(res, inflate, items[i].r);
      if st.Ok? {
        PrefixedTwice(acc, st.value + [LF], JoinStreamsF(res, inflate, items, i + 1));
        assert acc + (st.value + [LF]) == acc + st.value + [LF];
      }
    }
  }

  lemma {:induction false} JoinStreamsShift(res: Resolver, inflate: Inflater, a: seq<PdfObject>, b: seq<PdfObject>, j: nat)
    requires j <= |b|
    ensures JoinStreamsF(res, inflate, a + b, |a| + j) == JoinStreamsF(res, inflate, b, j)
    decreases |b| - j
  {
    if j < |b| {
      assert (a + b)[|a| + j] == b[j];
      JoinStreamsShift(res, inflate, a, b, j + 1);
    }
  }
  // ---------------------------------------------------------------------------
  // Font encodings

  /** The encodings a font can be given. */
  datatype EncodingChoice = CidMapped(cids: map<u16, char>) | WinAnsiChoice | MacRomanChoice

  /** A font's `ToUnicode` table: the referenced stream's data decoded and parsed, if it can be read. */
  function ToUnicodeF(res: Resolver, inflate: Inflater, d: Dictionary): (r: Option<map<u16, char>>)
    ensures r.Some? <==> "ToUnicode" in d && d["ToUnicode"].Ref? && StreamF(res, inflate, d["ToUnicode"].r).Ok?
  {
    match Lookup(d, "ToUnicode")
    case None => None
    case Some(t) =>
      match AsRef(t)
      case None => None
      case Some(ref) =>
        match StreamF(res, inflate, ref)
        case Err(_) => None
        case Ok(bytes) => Some(CM.CMapOf(Utf8Lossy(bytes)))
  }

  /** The encoding a base-encoding name selects: MacRoman by its name, WinAnsi otherwise. */
  function NamedChoice(name: Option<string>): (c: EncodingChoice)
    ensures c == MacRomanChoice <==> name == Some("MacRomanEncoding")
    ensures c != MacRomanChoice ==> c == WinAnsiChoice
  {
    if name == Some("MacRomanEncoding") then MacRomanChoice else WinAnsiChoice
  }

  /** The `Encoding` entry names MacRoman, directly or as the `BaseEncoding` of an encoding dictionary. */
  predicate NamesMacRoman(d: Dictionary)
  {
    "Encoding" in d &&
    (d["Encoding"] == Name("MacRomanEncoding") ||
     (d["Encoding"].Dict? && "BaseEncoding" in d["Encoding"].entries
      && d["Encoding"].entries["BaseEncoding"] == Name("MacRomanEncoding")))
  }

  /** The encoding the `Encoding` entry declares: its name, or its `BaseEncoding`'s name; WinAnsi otherwise. */
  function DeclaredChoice(d: Dictionary): (c: EncodingChoice)
    ensures c == MacRomanChoice <==> NamesMacRoman(d)
    ensures c != MacRomanChoice ==> c == WinAnsiChoice
  {
    match Lookup(d, "Encoding")
    case None => WinAnsiChoice
    case Some(e) =>
      match e
      case Name(n) => NamedChoice(Some(n))
      case Dict(ed) =>
        NamedChoice(match Lookup(ed, "BaseEncoding") case None => None case Some(b) => AsName(b))
      case _ => WinAnsiChoice
  }

  /** The encoding of a font dictionary: its `ToUnicode` table when that can be read, else the declared one. */
  function ChoiceOf(res: Resolver, inflate: Inflater, d: Dictionary): (c: EncodingChoice)
    ensures ToUnicodeF(res, inflate, d).Some? ==> c == CidMapped(ToUnicodeF(res, inflate, d).value)
    ensures ToUnicodeF(res, inflate, d).None? ==> c == DeclaredChoice(d)
  {
    match ToUnicodeF(res, inflate, d)
    case Some(m) => CidMapped(m)
    case None => DeclaredChoice(d)
  }

  /** `load_single_font_encoding`: the font object, resolved, must be a dictionary. */
  function FontChoiceF(res: Resolver, inflate: Inflater, font: PdfObject): (r: Result<EncodingChoice>)
    ensures GetObjectF(res, font).Ok? && AsDict(GetObjectF(res, font).value).None? ==>
      r == Err(InvalidStructure("Font is not a dictionary"))
    ensures r.Ok? ==> (GetObjectF(res, font).Ok? && AsDict(GetObjectF(res, font).value).Some?
      && r.value == ChoiceOf(res, inflate, AsDict(GetObjectF(res, font).value).value))
  {
    match GetObjectF(res, font)
    case Err(e) => Err(e)
    case Ok(obj) =>
      match AsDict(obj)
      case None => Err(InvalidStructure("Font is not a dictionary"))
      case Some(d) => Ok(ChoiceOf(res, inflate, d))
  }

  /** The tables of an encoding object agree with a choice. */
  predicate Realises(enc: FE.FontEncoding, c: EncodingChoice)
    reads enc
  {
    match c
    case CidMapped(m) => enc.byteMap == map[] && enc.cidMap == m
    case WinAnsiChoice => enc.byteMap == FE.WinAnsiMap() && enc.cidMap == map[]
    case MacRomanChoice => enc.byteMap == FE.MacRomanMap() && enc.cidMap == map[]
  }

  /** A `ToUnicode` stream in plain ASCII is parsed as its bytes read one character each. */
  lemma AsciiToUnicode(res: Resolver, inflate: Inflater, d: Dictionary, bytes: seq<byte>)
    requires "ToUnicode" in d && d["ToUnicode"].Ref? && StreamF(res, inflate, d["ToUnicode"].r) == Ok(bytes)
    requires forall i | 0 <= i < |bytes| :: bytes[i] < 0x80
    ensures ChoiceOf(res, inflate, d) == CidMapped(CM.CMapOf(Latin1(bytes)))
  {
    Utf8DecodeAscii(bytes);
    Utf8LossyAgrees(bytes);
  }

  // ---------------------------------------------------------------------------
  // The text of a page

  /** How close in y a span must be to a line's first span to join the line. */
  const LINE_TOLERANCE: real := 3.0

  /** The lines of a page: the spans in reading order, grouped by y. */
  function PageLines(spans: seq<TextSpan>): seq<seq<TextSpan>>
  {
    Rows(StableSort(spans), LINE_TOLERANCE)
  }

  /** `extract_page_text_string` on the page's spans: each line's texts joined by spaces, the lines by line feeds. */
  function PageTextF(spans: seq<TextSpan>): string
  {
    var lines := PageLines(spans);
    Join(seq(|lines|, k requires 0 <= k < |lines| => Join(Texts(lines[k]), " ")), "\n")
  }

  /**
   * The lines hold every span once, in reading order; each line lies within
   * the tolerance of its first span, and consecutive lines start further apart.
   */
  lemma PageLinesLayout(spans: seq<TextSpan>)
    ensures multiset(Flatten(PageLines(spans))) == multiset(spans)
    ensures InReadingOrder(Flatten(PageLines(spans)))
    ensures WellFormedRows(PageLines(spans), LINE_TOLERANCE)
    ensures RowsSeparated(PageLines(spans), LINE_TOLERANCE)
  {
    StableSortSorted(spans);
    RowsPartition(StableSort(spans), LINE_TOLERANCE);
    RowsApart(StableSort(spans), LINE_TOLERANCE);
  }

  /** The sort, the grouping and the joins of `extract_page_text_string`. */
  method PageText(spans: seq<TextSpan>) returns (text: string)
    ensures text == PageTextF(spans)
  {
    var sorted := SortForReading(spans);
    var lines := GroupRows(sorted, LINE_TOLERANCE);
    var texts: seq<string> := [];
    for k := 0 to |lines|
      invariant |texts| == k
      invariant forall j | 0 <= j < k :: texts[j] == Join(Texts(lines[j]), " ")
    {
      texts := texts + [Join(Texts(lines[k]), " ")];
    }
    assert lines == PageLines(spans);
    assert texts == seq(|lines|, k requires 0 <= k < |lines| => Join(Texts(lines[k]), " "));
    text := Join(texts, "\n");
  }

  // ---------------------------------------------------------------------------
  // The document object

  class Document {
    const data: seq<byte>
    /** The zlib inflater `FlateDecode` uses. */
    const inflate: Inflater
    const xref: XRef
    const trailer: Dictionary
    /** Objects already resolved. */
    var cache: map<ObjRef, PdfObject>

    /** The resolver of this document. */
    function Res(): Resolver
    {
      Resolving(data, xref)
    }

    /** Every cached object is what resolving its reference gives. */
    ghost predicate Valid()
      reads this
    {
      Bounded(Res(), xref.Keys) &&
      forall ref | ref in cache :: ResolveF(data, xref, ref) == Ok(cache[ref])
    }

    constructor(data: seq<byte>, inflate: Inflater, xref: XRef, trailer: Dictionary)
      ensures this.data == data && this.inflate == inflate && this.xref == xref && this.trailer == trailer
      ensures cache == map[] && Valid()
    {
      this.data := data;
      this.inflate := inflate;
      this.xref := xref;
      this.trailer := trailer;
      cache := map[];
      ResolvingBounded(data, xref);
    }

    /** `parse`: the header, the startxref offset, the table and the trailer. */
    static method Parse(data: seq<byte>, inflate: Inflater) returns (r: Result<Document>)
      ensures r.Err? ==> FileStructureF(data) == Err(r.error)
      ensures r.Ok? ==> (fresh(r.value) && r.value.Valid() && r.value.cache == map[]
        && r.value.data == data && r.value.inflate == inflate
        && FileStructureF(data) == Ok((r.value.xref, r.value.trailer)))
    {
      var fs := ParseFileStructure(data);
      if fs.Err? {
        return Err(fs.error);
      }
      var doc := new Document(data, inflate, fs.value.0, fs.value.1);
      r := Ok(doc);
    }

    /** `resolve`: from the cache, or parsed at the table's offset and then cached. */
    method Resolve(ref: ObjRef) returns (r: Result<PdfObject>)
      requires Valid()
      modifies this
      ensures Valid()
      ensures r == ResolveF(data, xref, ref)
      ensures r.Ok? ==> cache == old(cache)[ref := r.value]
      ensures r.Err? ==> cache == old(cache)
    {
      if ref in cache {
        return Ok(cache[ref]);
      }
      if ref.objNum !in xref {
        return Err(ObjectNotFound(ref.objNum, ref.genNum));
      }
      r := ReadObject(data, xref[ref.objNum].offset, ref.objNum);
      if r.Ok? {
        cache := cache[ref := r.value];
      }
    }

    /** `get_object`. */
    method GetObject(obj: PdfObject) returns (r: Result<PdfObject>)
      requires Valid()
      modifies this
      ensures Valid() && r == GetObjectF(Res(), obj)
    {
      if obj.Ref? {
        r := Resolve(obj.r);
      } else {
        r := Ok(obj);
      }
    }

    /** `catalog`. */
    method Catalog() returns (r: Result<PdfObject>)
      requires Valid()
      modifies this
      ensures Valid() && r == CatalogF(Res(), trailer)
    {
      var root := Lookup(trailer, "Root");
      if root.None? {
        return Err(InvalidStructure("Missing Root in trailer"));
      }
      if !root.value.Ref? {
        return Err(InvalidStructure("Root must be reference"));
      }
      r := Resolve(root.value.r);
    }

    /** `collect_pages`: the pages under `node`, `path` its ancestors' numbers. */
    method CollectPages(node: ObjRef, path: set<u32>) returns (r: Result<seq<PdfObject>>)
      requires Valid()
      modifies this
      ensures Valid() && r == CollectF(Res(), xref.Keys, node, path)
      decreases xref.Keys - path, 0
    {
      if node.objNum in path {
        return Ok([]);
      }
      var obj :- Resolve(node);
      match NodeF(obj) {
        case Leaf => r := Ok([obj]);
        case Ignored => r := Ok([]);
        case Bad(e) => r := Err(e);
        case Branch(kids) =>
          assert node.objNum in xref.Keys - path;
          r := CollectKids(kids, path + {node.objNum});
      }
    }

    /** The loop of `collect_pages` over a `Pages` node's kids; `path` includes the node. */
    method CollectKids(kids: seq<PdfObject>, path: set<u32>) returns (r: Result<seq<PdfObject>>)
      requires Valid()
      modifies this
      ensures Valid() && r == KidsF(Res(), xref.Keys, path, kids, 0)
      decreases xref.Keys - path, 1
    {
      var pages: seq<PdfObject> := [];
      assert WithPages([], KidsF(Res(), xref.Keys, path, kids, 0)) == KidsF(Res(), xref.Keys, path, kids, 0) by {
        var k := KidsF(Res(), xref.Keys, path, kids, 0);
        if k.Ok? {
          assert [] + k.value == k.value;
        }
      }
      for i := 0 to |kids|
        invariant Valid()
        invariant KidsF(Res(), xref.Keys, path, kids, 0) == WithPages(pages, KidsF(Res(), xref.Keys, path, kids, i))
      {
        if kids[i].Ref? {
          var sub := CollectPages(kids[i].r, path);
          if sub.Err? {
            assert KidsF(Res(), xref.Keys, path, kids, i) == Err(sub.error);
            return Err(sub.error);
          }
          WithPagesTwice(pages, sub.value, KidsF(Res(), xref.Keys, path, kids, i + 1));
          pages := pages + sub.value;
        }
      }
      assert pages + [] == pages;
      r := Ok(pages);
    }

    /** The pages of the document's tree. */
    method Pages() returns (r: Result<seq<PdfObject>>)
      requires Valid()
      modifies this
      ensures Valid() && r == PageTreeF(Res(), xref.Keys, trailer)
    {
      var catalog :- Catalog();
      var pagesRef :- PagesRefF(catalog);
      r := CollectPages(pagesRef, {});
    }

    /** `page_count`. */
    method PageCount() returns (r: Result<nat>)
      requires Valid()
      modifies this
      ensures Valid() && r == PageCountF(Res(), xref.Keys, trailer)
    {
      var pages :- Pages();
      r := Ok(|pages|);
    }

    /** `get_page`. */
    method GetPage(index: nat) returns (r: Result<PdfObject>)
      requires Valid()
      modifies this
      ensures Valid() && r == GetPageF(Res(), xref.Keys, trailer, index)
    {
      var pages :- Pages();
      if index < |pages| {
        r := Ok(pages[index]);
      } else {
        r := Err(InvalidStructure("Page " + NatToDigits(index) + " not found"));
      }
    }

    /** `get_stream_data`. */
    method GetStreamData(ref: ObjRef) returns (r: Result<seq<byte>>)
      requires Valid()
      modifies this
      ensures Valid() && r == StreamF(Res(), inflate, ref)
    {
      var obj :- Resolve(ref);
      if !obj.Stream? {
        return Err(InvalidStructure("Expected stream object"));
      }
      r := DecodeStream(inflate, obj.dict, obj.data);
    }

    /** `get_page_contents`. */
    method GetPageContents(page: PdfObject) returns (r: Result<seq<byte>>)
      requires Valid()
      modifies this
      ensures Valid() && r == ContentsF(Res(), inflate, page)
    {
      var pd := AsDict(page);
      if pd.None? || "Contents" !in pd.value {
        return Err(InvalidStructure("Page has no Contents"));
      }
      var c := pd.value["Contents"];
      if c.Ref? {
        r := GetStreamData(c.r);
        return;
      }
      if !c.Array? {
        return Err(InvalidStructure("Invalid Contents type"));
      }
      r := ReadStreams(c.items);
    }

    /** The loop of `get_page_contents` over an array of references. */
    method ReadStreams(items: seq<PdfObject>) returns (r: Result<seq<byte>>)
      requires Valid()
      modifies this
      ensures Valid() && r == JoinStreamsF(Res(), inflate, items, 0)
    {
      var result: seq<byte> := [];
      assert Prefixed([], JoinStreamsF(Res(), inflate, items, 0)) == JoinStreamsF(Res(), inflate, items, 0) by {
        var j := JoinStreamsF(Res(), inflate, items, 0);
        if j.Ok? {
          assert [] + j.value == j.value;
        }
      }
      for i := 0 to |items|
        invariant Valid()
        invariant JoinStreamsF(Res(), inflate, items, 0) == Prefixed(result, JoinStreamsF(Res(), inflate, items, i))
      {
        JoinStreamsStep(Res(), inflate, items, i, result);
        if items[i].Ref? {
          var bytes := GetStreamData(items[i].r);
          if bytes.Err? {
            return Err(bytes.error);
          }
          result := result + bytes.value + [LF];
        }
      }
      assert result + [] == result;
      r := Ok(result);
    }

    /** The `ToUnicode` step of `load_single_font_encoding`: the table, if its stream can be read. */
    method ReadToUnicode(d: Dictionary) returns (cids: Option<map<u16, char>>)
      requires Valid()
      modifies this
      ensures Valid() && cids == ToUnicodeF(Res(), inflate, d)
    {
      if "ToUnicode" in d && d["ToUnicode"].Ref? {
        var bytes := GetStreamData(d["ToUnicode"].r);
        if bytes.Ok? {
          var m := CM.ParseToUnicodeCMap(Utf8Lossy(bytes.value));
          return Some(m.value);
        }
      }
      cids := None;
    }

    /** `load_single_font_encoding`. */
    method LoadSingleFontEncoding(font: PdfObject) returns (r: Result<FE.FontEncoding>)
      requires Valid()
      modifies this
      ensures Valid()
      ensures r.Err? ==> FontChoiceF(Res(), inflate, font) == Err(r.error)
      ensures r.Ok? ==> (FontChoiceF(Res(), inflate, font).Ok? && fresh(r.value)
        && Realises(r.value, FontChoiceF(Res(), inflate, font).value))
    {
      var obj :- GetObject(font);
      var od := AsDict(obj);
      if od.None? {
        return Err(InvalidStructure("Font is not a dictionary"));
      }
      var d := od.value;
      var cids := ReadToUnicode(d);
      if cids.Some? {
        r := NewEncoding(CidMapped(cids.value));
        return;
      }
      r := NewEncoding(DeclaredChoice(d));
    }
  }

  /** The encoding object for a choice (`from_cid_map`, `mac_roman` or `win_ansi`). */
  method NewEncoding(c: EncodingChoice) returns (r: Result<FE.FontEncoding>)
    ensures r.Ok? && fresh(r.value) && Realises(r.value, c)
  {
    var enc: FE.FontEncoding;
    if c.CidMapped? {
      enc := new FE.FontEncoding.FromCidMap(c.cids);
    } else if c == MacRomanChoice {
      enc := new FE.FontEncoding.MacRoman();
    } else {
      enc := new FE.FontEncoding.WinAnsi();
    }
    r := Ok(enc);
  }

  /** `pages` followed by what `r` holds, or `r`'s error. */
  function WithPages(pages: seq<PdfObject>, r: Result<seq<PdfObject>>): Result<seq<PdfObject>>
  {
    if r.Ok? then Ok(pages + r.value) else r
  }

  lemma WithPagesTwice(a: seq<PdfObject>, b: seq<PdfObject>, r: Result<seq<PdfObject>>)
    ensures WithPages(a, WithPages(b, r)) == WithPages(a + b, r)
  {
    if r.Ok? {
      assert a + (b + r.value) == a + b + r.value;
    }
  }
}
